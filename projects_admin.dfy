/** projects_admin.php: the passphrase login, the logout, and the "add a
    project" form, which validates the fields, accepts or rejects an image
    upload and appends one entry to the projects list. The session flag, the
    error list, the success message, the decoded projects file and the image
    directory are the state one request works on; the HTML is not modelled. */
module ProjectsAdmin {
  import opened PhpRuntime

  // -------------------------------------------------------------- explode

  function CommaCount(s: string): nat {
    if s == [] then 0 else (if s[0] == ',' then 1 else 0) + CommaCount(s[1..])
  }

  /** explode(',', s): the fields between commas, left to right. */
  function Explode(s: string): (fields: seq<string>)
    ensures |fields| == CommaCount(s) + 1
  {
    if s == [] then [""]
    else
      var rest := Explode(s[1..]);
      if s[0] == ',' then [""] + rest
      else [[s[0]] + rest[0]] + rest[1..]
  }

  /** No field holds a comma. */
  lemma {:induction false} ExplodeFieldsHaveNoComma(s: string)
    ensures forall i :: 0 <= i < |Explode(s)| ==> ',' !in Explode(s)[i]
  {
    if s != [] {
      ExplodeFieldsHaveNoComma(s[1..]);
      var rest := Explode(s[1..]);
      if s[0] != ',' {
        assert ',' !in [s[0]] + rest[0];
      }
    }
  }

  /** implode(',', fields). */
  function Implode(fields: seq<string>): string
    requires fields != []
  {
    if |fields| == 1 then fields[0] else fields[0] + "," + Implode(fields[1..])
  }

  /** Joining the fields of explode with commas gives back the text. */
  lemma {:induction false} ImplodeExplode(s: string)
    ensures Implode(Explode(s)) == s
  {
    if s != [] {
      var rest := Explode(s[1..]);
      ImplodeExplode(s[1..]);
      if s[0] == ',' {
        var e := Explode(s);
        assert e == [""] + rest && |e| >= 2 && e[1..] == rest;
        calc {
          Implode(e);
          e[0] + "," + Implode(e[1..]);
          "" + "," + s[1..];
          [s[0]] + s[1..];
          s;
        }
      } else {
        var e := Explode(s);
        assert e[0] == [s[0]] + rest[0] && e[1..] == rest[1..];
        if |rest| == 1 {
          assert s == [s[0]] + rest[0];
        } else {
          assert Implode(rest) == rest[0] + "," + Implode(rest[1..]);
          assert s == [s[0]] + (rest[0] + "," + Implode(rest[1..]));
        }
      }
    }
  }

  lemma {:induction false} ExplodeNoCommaPrefix(a: string, t: string)
    requires ',' !in a
    ensures Explode(a + t) == [a + Explode(t)[0]] + Explode(t)[1..]
  {
    if a != [] {
      var e := Explode(t);
      assert (a + t)[1..] == a[1..] + t;
      assert (a + t)[0] == a[0] && a[0] in a;
      ExplodeNoCommaPrefix(a[1..], t);
      assert [a[0]] + (a[1..] + e[0]) == a + e[0];
    } else {
      var e := Explode(t);
      assert a + t == t && a + e[0] == e[0];
      assert [e[0]] + e[1..] == e;
    }
  }

  /** Splitting the comma-joined fields, none holding a comma, gives back
      the fields. */
  lemma {:induction false} ExplodeImplode(fields: seq<string>)
    requires fields != []
    requires forall i :: 0 <= i < |fields| ==> ',' !in fields[i]
    ensures Explode(Implode(fields)) == fields
  {
    if |fields| == 1 {
      ExplodeNoCommaPrefix(fields[0], "");
      assert fields[0] + "" == fields[0];
    } else {
      var t := Implode(fields[1..]);
      ExplodeImplode(fields[1..]);
      assert ("," + t)[1..] == t;
      assert fields[0] + "," + t == fields[0] + ("," + t);
      ExplodeNoCommaPrefix(fields[0], "," + t);
      assert Explode("," + t) == [""] + fields[1..];
      assert Implode(fields) == fields[0] + ("," + t);
      assert fields[0] + "" == fields[0] && [fields[0]] + fields[1..] == fields;
    }
  }

  /** explode then join at one comma: the fields of `x` followed by those of
      `y`. */
  lemma {:induction false} ExplodeAtComma(x: string, y: string)
    ensures Explode(x + "," + y) == Explode(x) + Explode(y)
  {
    if x == [] {
      assert x + "," + y == "," + y;
      assert ("," + y)[1..] == y;
    } else {
      assert (x + "," + y)[1..] == x[1..] + "," + y;
      ExplodeAtComma(x[1..], y);
    }
  }

  // ----------------------------------------------------------------- tags

  /** array_map('trim', fields). */
  function TrimAll(fields: seq<string>): seq<string> {
    seq(|fields|, i requires 0 <= i < |fields| => Trim(fields[i]))
  }

  /** array_values(array_filter(values)): the truthy values in order, so ""
      and "0" are dropped. */
  function KeepTruthy(values: seq<string>): (kept: seq<string>)
    ensures |kept| <= |values|
  {
    if values == [] then []
    else (if IsTruthyString(values[0]) then [values[0]] else []) + KeepTruthy(values[1..])
  }

  /** array_filter keeps exactly the truthy values. */
  lemma {:induction false} KeepTruthyMembers(values: seq<string>)
    ensures forall x :: x in KeepTruthy(values) <==> x in values && IsTruthyString(x)
  {
    if values != [] {
      KeepTruthyMembers(values[1..]);
      assert values == [values[0]] + values[1..];
    }
  }

  lemma {:induction false} KeepTruthyAppend(a: seq<string>, b: seq<string>)
    ensures KeepTruthy(a + b) == KeepTruthy(a) + KeepTruthy(b)
  {
    if a != [] {
      assert (a + b)[0] == a[0] && (a + b)[1..] == a[1..] + b;
      KeepTruthyAppend(a[1..], b);
    } else {
      assert a + b == b;
    }
  }

  /** The tags of already-trimmed text: every field trimmed, the falsy ones
      dropped. */
  function FieldsToTags(t: string): seq<string> {
    KeepTruthy(TrimAll(Explode(t)))
  }

  /** The tags of the `tags` field: trim, explode at commas, trim each, drop
      empty and "0"; there are at most as many as comma-separated fields. */
  function ParseTags(tagsField: string): (tags: seq<string>)
    ensures |tags| <= CommaCount(Trim(tagsField)) + 1
  {
    FieldsToTags(Trim(tagsField))
  }

  /** Every tag is trimmed, non-empty and not "0". */
  lemma ParseTagsClean(tagsField: string)
    ensures forall i :: 0 <= i < |ParseTags(tagsField)| ==>
              IsTrimmed(ParseTags(tagsField)[i]) && IsTruthyString(ParseTags(tagsField)[i])
  {
    var trimmed := TrimAll(Explode(Trim(tagsField)));
    var tags := ParseTags(tagsField);
    KeepTruthyMembers(trimmed);
    forall i | 0 <= i < |tags| ensures IsTrimmed(tags[i]) && IsTruthyString(tags[i]) {
      assert tags[i] in trimmed;
    }
  }

  /** The trimmed fields are exactly the fields, trimmed. */
  lemma TrimAllMembers(fields: seq<string>, x: string)
    ensures x in TrimAll(fields) <==> exists f :: f in fields && Trim(f) == x
  {
    var trimmed := TrimAll(fields);
    if x in trimmed {
      var k :| 0 <= k < |trimmed| && trimmed[k] == x;
      assert fields[k] in fields;
    }
    if exists f :: f in fields && Trim(f) == x {
      var f :| f in fields && Trim(f) == x;
      var k :| 0 <= k < |fields| && fields[k] == f;
      assert trimmed[k] == x;
    }
  }

  /** A value is a tag exactly when it is truthy and is some field of the
      trimmed text, trimmed. */
  lemma ParseTagsMembers(tagsField: string, x: string)
    ensures x in ParseTags(tagsField) <==>
              IsTruthyString(x) && exists f :: f in Explode(Trim(tagsField)) && Trim(f) == x
  {
    KeepTruthyMembers(TrimAll(Explode(Trim(tagsField))));
    TrimAllMembers(Explode(Trim(tagsField)), x);
  }

  /** No tag holds a comma. */
  lemma ParseTagsHaveNoComma(tagsField: string, x: string)
    requires x in ParseTags(tagsField)
    ensures ',' !in x
  {
    var fields := Explode(Trim(tagsField));
    ParseTagsMembers(tagsField, x);
    var f :| f in fields && Trim(f) == x;
    var k :| 0 <= k < |fields| && fields[k] == f;
    ExplodeFieldsHaveNoComma(Trim(tagsField));
    NoCommaAfterTrim(f);
  }

  lemma NoCommaAfterTrim(f: string)
    requires ',' !in f
    ensures ',' !in Trim(f)
  {
    var r := Trim(f);
    var n := LeadingBlanks(f);
    assert forall i :: 0 <= i < |r| ==> r[i] == f[n + i];
  }

  lemma TrimAllAppend(a: seq<string>, b: seq<string>)
    ensures TrimAll(a + b) == TrimAll(a) + TrimAll(b)
  {
  }

  /** Tags keep the order of the fields: the tags of two stretches of text
      joined by a comma are the tags of the first followed by those of the
      second. */
  lemma {:induction false} TagsKeepFieldOrder(x: string, y: string)
    ensures FieldsToTags(x + "," + y) == FieldsToTags(x) + FieldsToTags(y)
  {
    ExplodeAtComma(x, y);
    TrimAllAppend(Explode(x), Explode(y));
    KeepTruthyAppend(TrimAll(Explode(x)), TrimAll(Explode(y)));
  }

  // ------------------------------------------------------------ sanitiser

  /** The characters the pattern /[^a-z0-9_-]+/i leaves alone. */
  predicate IsNameChar(c: char) {
    'a' <= c <= 'z' || 'A' <= c <= 'Z' || '0' <= c <= '9' || c == '_' || c == '-'
  }

  predicate AllNameChars(s: string) {
    forall i :: 0 <= i < |s| ==> IsNameChar(s[i])
  }

  /** `s` without the run of other characters it starts with. */
  function DropRun(s: string): (r: string)
    ensures |r| <= |s| && (s != [] && !IsNameChar(s[0]) ==> |r| < |s|)
    ensures r == [] || IsNameChar(r[0])
  {
    if s == [] || IsNameChar(s[0]) then s else DropRun(s[1..])
  }

  /** preg_replace('/[^a-z0-9_-]+/i', '-', s): every maximal run of other
      characters becomes one '-'. */
  function Sanitize(s: string): (r: string)
    ensures AllNameChars(r)
    ensures |r| <= |s|
    decreases |s|
  {
    if s == [] then []
    else if IsNameChar(s[0]) then [s[0]] + Sanitize(s[1..])
    else "-" + Sanitize(DropRun(s))
  }

  /** The sanitiser changes a string exactly when it holds another
      character; in particular it is idempotent. */
  lemma {:induction false} SanitizeIdentityIff(s: string)
    ensures Sanitize(s) == s <==> AllNameChars(s)
    decreases |s|
  {
    if s != [] && IsNameChar(s[0]) {
      SanitizeIdentityIff(s[1..]);
      assert AllNameChars(s) <==> AllNameChars(s[1..]) by {
        if AllNameChars(s[1..]) {
          forall i | 0 <= i < |s| ensures IsNameChar(s[i]) {
            if i > 0 { assert s[i] == s[1..][i - 1]; }
          }
        }
      }
    }
  }

  lemma SanitizeIdempotent(s: string)
    ensures Sanitize(Sanitize(s)) == Sanitize(s)
  {
    SanitizeIdentityIff(Sanitize(s));
  }

  /** A non-empty run of other characters becomes a single '-'. */
  lemma SanitizeRun(run: string)
    requires run != [] && forall i :: 0 <= i < |run| ==> !IsNameChar(run[i])
    ensures Sanitize(run) == "-"
  {
    DropRunOfRun(run);
  }

  /** A string of other characters is dropped whole. */
  lemma {:induction false} DropRunOfRun(run: string)
    requires forall i :: 0 <= i < |run| ==> !IsNameChar(run[i])
    ensures DropRun(run) == []
  {
    if run != [] {
      assert !IsNameChar(run[0]);
      DropRunOfRun(run[1..]);
    }
  }

  lemma SanitizeCons(c: char, t: string)
    requires IsNameChar(c)
    ensures Sanitize([c] + t) == [c] + Sanitize(t)
  {
    assert ([c] + t)[1..] == t;
  }

  /** Runs never reach across a kept character: the sanitiser works on the
      two sides of it separately. */
  lemma {:induction false} SanitizeSplits(a: string, c: char, b: string)
    requires IsNameChar(c)
    ensures Sanitize(a + [c] + b) == Sanitize(a) + [c] + Sanitize(b)
    decreases |a|
  {
    var s := a + [c] + b;
    if a == [] {
      assert s == [c] + b;
      SanitizeCons(c, b);
    } else if IsNameChar(a[0]) {
      var t := a[1..];
      assert s == [a[0]] + (t + [c] + b) && a == [a[0]] + t;
      calc {
        Sanitize(s);
        { SanitizeCons(a[0], t + [c] + b); }
        [a[0]] + Sanitize(t + [c] + b);
        { SanitizeSplits(t, c, b); }
        [a[0]] + (Sanitize(t) + [c] + Sanitize(b));
        ([a[0]] + Sanitize(t)) + [c] + Sanitize(b);
        { SanitizeCons(a[0], t); }
        Sanitize(a) + [c] + Sanitize(b);
      }
    } else {
      SanitizeSplitsAtRun(a, c, b);
    }
  }

  lemma {:induction false} SanitizeSplitsAtRun(a: string, c: char, b: string)
    requires IsNameChar(c) && a != [] && !IsNameChar(a[0])
    ensures Sanitize(a + [c] + b) == Sanitize(a) + [c] + Sanitize(b)
    decreases |a|, 0
  {
    var s := a + [c] + b;
    assert s != [] && s[0] == a[0];
    DropRunSplits(a, c, b);
    var d := DropRun(a);
    assert Sanitize(s) == "-" + Sanitize(d + [c] + b);
    assert Sanitize(a) == "-" + Sanitize(d);
    if d == [] {
      assert d + [c] + b == [c] + b;
      SanitizeCons(c, b);
    } else {
      SanitizeSplits(d, c, b);
    }
  }

  lemma {:induction false} DropRunSplits(a: string, c: char, b: string)
    requires IsNameChar(c)
    ensures DropRun(a + [c] + b) == DropRun(a) + [c] + b
  {
    if a == [] {
      assert a + [c] + b == [c] + b;
    } else if !IsNameChar(a[0]) {
      assert (a + [c] + b)[1..] == a[1..] + [c] + b;
      DropRunSplits(a[1..], c, b);
    }
  }

  /** The letters, digits and underscores of a string, in order. */
  function Letters(s: string): string {
    if s == [] then []
    else (if IsNameChar(s[0]) && s[0] != '-' then [s[0]] else []) + Letters(s[1..])
  }

  lemma {:induction false} LettersDropRun(s: string)
    ensures Letters(DropRun(s)) == Letters(s)
  {
    if s != [] && !IsNameChar(s[0]) {
      LettersDropRun(s[1..]);
    }
  }

  /** Every letter, digit and underscore of the input survives, in order,
      and the sanitiser adds none. */
  lemma {:induction false} SanitizeKeepsLetters(s: string)
    ensures Letters(Sanitize(s)) == Letters(s)
    decreases |s|
  {
    if s != [] {
      if IsNameChar(s[0]) {
        SanitizeKeepsLetters(s[1..]);
        assert ([s[0]] + Sanitize(s[1..]))[1..] == Sanitize(s[1..]);
      } else {
        var d := DropRun(s);
        SanitizeKeepsLetters(d);
        LettersDropRun(s);
        assert ("-" + Sanitize(d))[1..] == Sanitize(d);
      }
    }
  }

  // ------------------------------------------------------------- pathinfo

  /** The part after the last '/'. */
  function AfterLastSlash(s: string): (r: string)
    ensures '/' !in r && |r| <= |s| && r == s[|s| - |r|..]
  {
    if s == [] || s[|s| - 1] == '/' then []
    else
      var r := AfterLastSlash(s[..|s| - 1]);
      assert s[..|s| - 1][|s| - 1 - |r|..] == s[|s| - 1 - |r|..|s| - 1];
      r + [s[|s| - 1]]
  }

  function StripTrailingSlashes(s: string): (r: string)
    ensures |r| <= |s| && r == s[..|r|]
    ensures r == [] || r[|r| - 1] != '/'
  {
    if s != [] && s[|s| - 1] == '/' then StripTrailingSlashes(s[..|s| - 1]) else s
  }

  /** basename(): the last path component, trailing slashes ignored. */
  function BaseName(path: string): (r: string)
    ensures '/' !in r
  {
    AfterLastSlash(StripTrailingSlashes(path))
  }

  /** The text before the last '.', if there is one. */
  function BeforeLastDot(b: string): (r: Option<string>)
    ensures r.Some? <==> '.' in b
    ensures r.Some? ==> |r.value| < |b| && r.value == b[..|r.value|] && b[|r.value|] == '.'
    ensures r.Some? ==> '.' !in b[|r.value| + 1..]
  {
    if b == [] then None
    else if b[|b| - 1] == '.' then Some(b[..|b| - 1])
    else
      var r := BeforeLastDot(b[..|b| - 1]);
      assert '.' in b <==> '.' in b[..|b| - 1] by {
        if '.' in b {
          var i :| 0 <= i < |b| && b[i] == '.';
          assert b[..|b| - 1][i] == '.';
        }
      }
      assert r.Some? ==> b[|r.value| + 1..] == b[..|b| - 1][|r.value| + 1..] + [b[|b| - 1]];
      r
  }

  /** pathinfo(path, PATHINFO_FILENAME): the base name without its last
      extension. */
  function FileStem(path: string): (r: string)
    ensures '/' !in r
    ensures '.' !in BaseName(path) ==> r == BaseName(path)
  {
    var b := BaseName(path);
    match BeforeLastDot(b)
    case None => b
    case Some(stem) =>
      assert forall i :: 0 <= i < |stem| ==> stem[i] == b[i];
      stem
  }

  lemma {:induction false} AfterLastSlashNoSlash(s: string)
    requires '/' !in s
    ensures AfterLastSlash(s) == s
  {
    if s != [] {
      assert s[|s| - 1] in s;
      AfterLastSlashNoSlash(s[..|s| - 1]);
      assert s[..|s| - 1] + [s[|s| - 1]] == s;
    }
  }

  lemma BeforeLastDotOf(stem: string, ext: string)
    requires '.' !in ext
    ensures BeforeLastDot(stem + "." + ext) == Some(stem)
  {
    var b := stem + "." + ext;
    assert b[|stem|] == '.' && b[|stem| + 1..] == ext;
    assert b[..|stem|] == stem;
  }

  /** For a file name without directories, the stem is the text before the
      last dot. */
  lemma FileStemOf(stem: string, ext: string)
    requires '/' !in stem && '/' !in ext && '.' !in ext
    ensures FileStem(stem + "." + ext) == stem
  {
    var b := stem + "." + ext;
    assert '/' !in b;
    assert StripTrailingSlashes(b) == b by {
      assert b[|b| - 1] != '/' by { assert b[|b| - 1] in b; }
    }
    AfterLastSlashNoSlash(b);
    BeforeLastDotOf(stem, ext);
  }

  // ---------------------------------------------------------------- image

  const UploadOk: int := 0
  const UploadNoFile: int := 4
  const MaxImageBytes: int := 2 * 1024 * 1024
  const ImageDir: string := "images/projects/"

  /** $_FILES['image']: the upload status code, the size in bytes and the
      client's file name. */
  datatype Upload = Upload(error: int, size: int, name: string)

  /** The results of calls into the system: the MIME type finfo detects,
      whether move_uploaded_file succeeds, time(), and
      bin2hex(random_bytes(6)). */
  datatype Env = Env(mime: string, moveSucceeds: bool, now: int, randomHex: string)

  /** The MIME whitelist and the extension each type is stored under. */
  function AllowedExt(mime: string): Option<string> {
    if mime == "image/jpeg" then Some("jpg")
    else if mime == "image/png" then Some("png")
    else if mime == "image/gif" then Some("gif")
    else None
  }

  /** Exactly JPEG, PNG and GIF are accepted, each stored under its own
      extension, which is a plain name. */
  lemma AllowedExtIsWhitelist(mime: string)
    ensures AllowedExt(mime).Some? <==> mime == "image/jpeg" || mime == "image/png" || mime == "image/gif"
    ensures mime == "image/jpeg" ==> AllowedExt(mime) == Some("jpg")
    ensures mime == "image/png" ==> AllowedExt(mime) == Some("png")
    ensures mime == "image/gif" ==> AllowedExt(mime) == Some("gif")
    ensures AllowedExt(mime).Some? ==> AllNameChars(AllowedExt(mime).value)
  {
  }

  /** The name an accepted image is stored under:
      time-random-sanitisedstem.ext. */
  function StoredName(env: Env, clientName: string, ext: string): (name: string)
    ensures (forall i :: 0 <= i < |env.randomHex| ==> IsHexDigit(env.randomHex[i])) && AllNameChars(ext) ==>
              '/' !in name && BeforeLastDot(name) == Some(StoredStem(env, clientName))
  {
    var stem := StoredStem(env, clientName);
    if (forall i :: 0 <= i < |env.randomHex| ==> IsHexDigit(env.randomHex[i])) && AllNameChars(ext) then
      StoredStemIsName(env, clientName);
      NameStemWithExt(stem, ext);
      stem + "." + ext
    else stem + "." + ext
  }

  /** The errors the page can report. */
  datatype AdminError =
    | IncorrectPassphrase | TitleRequired | DescriptionRequired
    | UploadFailed | ImageTooLarge | UnsupportedType | MoveFailed

  /** The text shown for each error. */
  function Message(e: AdminError): string {
    match e
    case IncorrectPassphrase => "Incorrect passphrase."
    case TitleRequired => "Title is required."
    case DescriptionRequired => "Description is required."
    case UploadFailed => "Image upload error."
    case ImageTooLarge => "Image is too large (max 2MB)."
    case UnsupportedType => "Unsupported image type. Use JPG, PNG or GIF."
    case MoveFailed => "Failed to move uploaded image."
  }

  /** What the image step leaves behind. */
  datatype ImageResult = NoImage | Stored(fileName: string) | ImageError(error: AdminError)

  /** The image step of the form. */
  function ImageDecision(upload: Option<Upload>, env: Env): (d: ImageResult)
    ensures d.NoImage? <==> upload.None? || upload.value.error == UploadNoFile
    ensures d.Stored? ==> upload.value.error == UploadOk && upload.value.size <= MaxImageBytes
                          && AllowedExt(env.mime).Some? && env.moveSucceeds
  {
    if upload.None? || upload.value.error == UploadNoFile then NoImage
    else if upload.value.error != UploadOk then ImageError(UploadFailed)
    else if upload.value.size > MaxImageBytes then ImageError(ImageTooLarge)
    else match AllowedExt(env.mime)
      case None => ImageError(UnsupportedType)
      case Some(ext) =>
        if env.moveSucceeds then Stored(StoredName(env, upload.value.name, ext))
        else ImageError(MoveFailed)
  }

  /** An image is stored exactly when it arrived whole, is at most 2 MiB,
      has a whitelisted type and could be moved; it is then stored under the
      extension its type fixes. No upload means no image and no error;
      every other case records one of the four image errors, the size check
      coming before the type check. */
  lemma ImageDecisionRule(upload: Option<Upload>, env: Env)
    ensures var d := ImageDecision(upload, env);
            && (d.Stored? <==>
                  && upload.Some? && upload.value.error == UploadOk
                  && upload.value.size <= MaxImageBytes
                  && AllowedExt(env.mime).Some? && env.moveSucceeds)
            && (d.NoImage? <==> upload.None? || upload.value.error == UploadNoFile)
            && (d.Stored? ==> d.fileName == StoredName(env, upload.value.name, AllowedExt(env.mime).value))
            && (d.ImageError? ==> d.error in {UploadFailed, ImageTooLarge, UnsupportedType, MoveFailed})
            && (d == ImageError(ImageTooLarge) <==>
                  upload.Some? && upload.value.error == UploadOk && upload.value.size > MaxImageBytes)
            && (d == ImageError(UnsupportedType) <==>
                  && upload.Some? && upload.value.error == UploadOk
                  && upload.value.size <= MaxImageBytes && AllowedExt(env.mime).None?)
  {
  }

  /** The errors the image step records: at most one. */
  function ImageErrors(d: ImageResult): (es: seq<AdminError>)
    ensures |es| <= 1 && (es == [] <==> !d.ImageError?)
  {
    if d.ImageError? then [d.error] else []
  }

  /** The files the image step writes. */
  function StoredFiles(d: ImageResult): (fs: seq<string>)
    ensures |fs| <= 1 && (fs != [] <==> d.Stored?)
  {
    if d.Stored? then [d.fileName] else []
  }

  /** The `image` field of the new entry. */
  function SavedImage(d: ImageResult): (path: string)
    ensures d.Stored? <==> path != ""
  {
    if d.Stored? then ImageDir + d.fileName else ""
  }

  predicate IsHexDigit(c: char) {
    '0' <= c <= '9' || 'a' <= c <= 'f'
  }

  lemma AllNameCharsAppend(a: string, b: string)
    requires AllNameChars(a) && AllNameChars(b)
    ensures AllNameChars(a + b)
  {
  }

  lemma IntToStringIsName(n: int)
    ensures AllNameChars(IntToString(n))
  {
    if n < 0 {
      var t := IntToString(n);
      var d := NatToString(-n);
      assert t == "-" + d;
      assert forall i :: 0 <= i < |t| ==> t[i] == '-' || t[i] == d[i - 1];
    }
  }

  lemma HexPrefixIsName(hex: string)
    requires forall i :: 0 <= i < |hex| ==> IsHexDigit(hex[i])
    ensures AllNameChars(Prefix(hex, 8))
  {
  }

  /** The stored name without its extension. */
  function StoredStem(env: Env, clientName: string): string {
    IntToString(env.now) + "-" + Prefix(env.randomHex, 8) + "-" + Sanitize(FileStem(clientName))
  }

  /** With a hexadecimal random part, the time, the random part and the
      sanitised stem are all [A-Za-z0-9_-], and so is the stem they form. */
  lemma StoredStemIsName(env: Env, clientName: string)
    requires forall i :: 0 <= i < |env.randomHex| ==> IsHexDigit(env.randomHex[i])
    ensures AllNameChars(StoredStem(env, clientName))
  {
    var t := IntToString(env.now);
    var h := Prefix(env.randomHex, 8);
    var b := Sanitize(FileStem(clientName));
    IntToStringIsName(env.now);
    HexPrefixIsName(env.randomHex);
    AllNameCharsAppend(t, "-");
    AllNameCharsAppend(t + "-", h);
    AllNameCharsAppend(t + "-" + h, "-");
    AllNameCharsAppend(t + "-" + h + "-", b);
    assert StoredStem(env, clientName) == t + "-" + h + "-" + b;
  }

  /** With a hexadecimal random part, the stored name is one path component:
      a stem of [A-Za-z0-9_-] and the extension the MIME type fixed, after
      the only '.', which pathinfo splits off again. */
  lemma StoredNameIsSafe(env: Env, clientName: string, ext: string)
    requires forall i :: 0 <= i < |env.randomHex| ==> IsHexDigit(env.randomHex[i])
    requires AllNameChars(ext)
    ensures StoredName(env, clientName, ext) == StoredStem(env, clientName) + "." + ext
    ensures AllNameChars(StoredStem(env, clientName))
    ensures '/' !in StoredName(env, clientName, ext)
    ensures BeforeLastDot(StoredName(env, clientName, ext)) == Some(StoredStem(env, clientName))
  {
    StoredStemIsName(env, clientName);
  }

  lemma NameStemWithExt(stem: string, ext: string)
    requires AllNameChars(stem) && AllNameChars(ext)
    ensures '/' !in stem + "." + ext
    ensures BeforeLastDot(stem + "." + ext) == Some(stem)
  {
    var n := stem + "." + ext;
    assert forall i :: 0 <= i < |n| ==> IsNameChar(n[i]) || n[i] == '.';
    assert '.' !in ext by {
      assert forall i :: 0 <= i < |ext| ==> ext[i] != '.';
    }
    BeforeLastDotOf(stem, ext);
  }

  // ---------------------------------------------------------------- form

  /** One entry of projects.json. */
  datatype Project = Project(title: string, description: string, link: string, tags: seq<string>, image: string)

  const ProjectAdded: string := "Project added successfully."

  /** $_POST[key] ?? ''. */
  function PostField(post: map<string, string>, key: string): string {
    if key in post then post[key] else ""
  }

  /** The errors of the two required fields, title first. */
  function FieldErrors(title: string, description: string): (es: seq<AdminError>)
    ensures es == [] <==> title != "" && description != ""
    ensures TitleRequired in es <==> title == ""
    ensures DescriptionRequired in es <==> description == ""
  {
    (if title == "" then [TitleRequired] else []) + (if description == "" then [DescriptionRequired] else [])
  }

  /** The text fields of the add form, as the page reads them. */
  datatype Form = Form(title: string, description: string, link: string, tags: seq<string>)

  /** trim($_POST[...] ?? '') for the three text fields, and the tags. */
  function ReadForm(post: map<string, string>): (f: Form)
    ensures IsTrimmed(f.title) && IsTrimmed(f.description) && IsTrimmed(f.link)
    ensures forall i :: 0 <= i < |f.tags| ==> IsTruthyString(f.tags[i]) && IsTrimmed(f.tags[i])
  {
    ParseTagsClean(PostField(post, "tags"));
    Form(Trim(PostField(post, "title")), Trim(PostField(post, "description")),
         Trim(PostField(post, "link")), ParseTags(PostField(post, "tags")))
  }

  /** The entry the form builds from the fields and the image step. */
  function NewProject(form: Form, d: ImageResult): Project {
    Project(form.title, form.description, form.link, form.tags, SavedImage(d))
  }

  /** A stored entry has its text fields trimmed, its tags trimmed and
      truthy, and an image path exactly when an image was stored. */
  lemma NewProjectIsClean(post: map<string, string>, d: ImageResult)
    ensures var p := NewProject(ReadForm(post), d);
            && IsTrimmed(p.title) && IsTrimmed(p.description) && IsTrimmed(p.link)
            && (forall i :: 0 <= i < |p.tags| ==> IsTruthyString(p.tags[i]) && IsTrimmed(p.tags[i]))
            && (p.image != "" <==> d.Stored?)
  {
    ParseTagsClean(PostField(post, "tags"));
  }

  /** The configured passphrase: getenv(...) ?: '', so a missing variable
      and the value "0" both leave the admin page disabled. */
  function ConfiguredPassphrase(envValue: Option<string>): (p: string)
    ensures p != "" <==> envValue.Some? && IsTruthyString(envValue.value)
    ensures p != "" ==> p == envValue.value
  {
    if envValue.Some? && IsTruthyString(envValue.value) then envValue.value else ""
  }

  /** Whether a login request signs in. */
  predicate LoginAccepted(passphrase: string, post: map<string, string>) {
    passphrase != "" && PostField(post, "passphrase") == passphrase
  }

  /** Only the exact configured passphrase signs in, and never while the
      page is disabled. */
  lemma LoginNeedsExactPassphrase(passphrase: string, post: map<string, string>)
    requires LoginAccepted(passphrase, post)
    ensures passphrase != "" && "passphrase" in post && post["passphrase"] == passphrase
  {
  }

  /** A failed field check and an accepted image can happen in one request:
      the image file is then written although no entry refers to it. */
  lemma OrphanImagePossible(upload: Upload, env: Env)
    requires upload.error == UploadOk && upload.size <= MaxImageBytes
    requires env.mime == "image/png" && env.moveSucceeds
    ensures FieldErrors("", "text") != [] && ImageDecision(Some(upload), env).Stored?
  {
  }

  /** The form a POST request submits, by its `action` field. */
  datatype Action = LoginAction | AddAction | NoAction

  function ActionOf(isPost: bool, post: map<string, string>): (a: Action)
    ensures a == NoAction <==> !isPost || "action" !in post || (post["action"] != "login" && post["action"] != "add")
  {
    if !isPost || "action" !in post then NoAction
    else if post["action"] == "login" then LoginAction
    else if post["action"] == "add" then AddAction
    else NoAction
  }

  /** A POST with action "login" is the login branch, one with action "add"
      the add branch; anything else, including a GET, is neither. */
  lemma ActionOfIff(isPost: bool, post: map<string, string>)
    ensures ActionOf(isPost, post) == LoginAction <==> isPost && "action" in post && post["action"] == "login"
    ensures ActionOf(isPost, post) == AddAction <==> isPost && "action" in post && post["action"] == "add"
  {
  }

  /** The state of one request to the page. */
  class AdminPage {
    const passphrase: string
    /** $_SESSION['projects_admin_authenticated'] is set and truthy. */
    var authenticated: bool
    var errors: seq<AdminError>
    var success: Option<string>
    /** projects.json decoded, or None when it is unreadable or does not
        decode to an array. */
    var projects: Option<seq<Project>>
    /** The files in images/projects, in the order they were written. */
    var images: seq<string>

    constructor (envValue: Option<string>, sessionFlag: bool, file: Option<seq<Project>>, stored: seq<string>)
      ensures passphrase == ConfiguredPassphrase(envValue)
      ensures authenticated == sessionFlag && errors == [] && success == None
      ensures projects == file && images == stored
    {
      passphrase := ConfiguredPassphrase(envValue);
      authenticated := sessionFlag;
      errors := [];
      success := None;
      projects := file;
      images := stored;
    }

    /** The login branch, entered when the page is enabled. */
    method Login(post: map<string, string>)
      requires passphrase != ""
      modifies this`authenticated, this`errors
      ensures authenticated == (old(authenticated) || LoginAccepted(passphrase, post))
      ensures errors == old(errors) + (if LoginAccepted(passphrase, post) then [] else [IncorrectPassphrase])
    {
      var pass := PostField(post, "passphrase");
      if pass == passphrase {
        authenticated := true;
      } else {
        errors := errors + [IncorrectPassphrase];
      }
    }

    /** ?logout: the flag is removed (the redirect is not modelled). */
    method Logout()
      modifies this`authenticated
      ensures !authenticated
    {
      authenticated := false;
    }

    /** The image part of the add branch: records at most one error, or
        moves the file into the image directory. */
    method StoreImage(upload: Option<Upload>, env: Env) returns (savedImage: string)
      modifies this`errors, this`images
      ensures errors == old(errors) + ImageErrors(ImageDecision(upload, env))
      ensures images == old(images) + StoredFiles(ImageDecision(upload, env))
      ensures savedImage == SavedImage(ImageDecision(upload, env))
    {
      savedImage := "";
      if upload.Some? && upload.value.error != UploadNoFile {
        var file := upload.value;
        if file.error != UploadOk {
          errors := errors + [UploadFailed];
        } else if file.size > MaxImageBytes {
          errors := errors + [ImageTooLarge];
        } else if AllowedExt(env.mime).None? {
          errors := errors + [UnsupportedType];
        } else {
          var name := StoredName(env, file.name, AllowedExt(env.mime).value);
          if !env.moveSucceeds {
            errors := errors + [MoveFailed];
          } else {
            images := images + [name];
            savedImage := ImageDir + name;
          }
        }
      }
    }

    /** The two required-field checks, title first. */
    method ValidateFields(title: string, description: string)
      modifies this`errors
      ensures errors == old(errors) + FieldErrors(title, description)
    {
      if title == "" {
        errors := errors + [TitleRequired];
      }
      if description == "" {
        errors := errors + [DescriptionRequired];
      }
      assert FieldErrors(title, description)
             == (if title == "" then [TitleRequired] else []) + (if description == "" then [DescriptionRequired] else []);
    }

    /** The end of the add branch: with no error recorded, the entry is
        appended to the decoded list (or to an empty one) and the file
        rewritten. */
    method SaveEntry(entry: Project)
      modifies this`projects, this`success
      ensures errors == [] ==> projects == Some(old(projects).GetOr([]) + [entry]) && success == Some(ProjectAdded)
      ensures errors != [] ==> projects == old(projects) && success == old(success)
    {
      if errors == [] {
        var all := if projects.Some? then projects.value else [];
        projects := Some(all + [entry]);
        success := Some(ProjectAdded);
      }
    }

    /** The add branch on the fields read from the form: validate, run the
        image step, and append the entry when no error was recorded. */
    method AddProject(form: Form, upload: Option<Upload>, env: Env)
      modifies this`errors, this`success, this`projects, this`images
      ensures errors == old(errors)
                + FieldErrors(form.title, form.description)
                + ImageErrors(ImageDecision(upload, env))
      ensures images == old(images) + StoredFiles(ImageDecision(upload, env))
      ensures errors == [] ==>
                && projects == Some(old(projects).GetOr([]) + [NewProject(form, ImageDecision(upload, env))])
                && success == Some(ProjectAdded)
      ensures errors != [] ==> projects == old(projects) && success == old(success)
      ensures authenticated == old(authenticated)
    {
      ghost var listed, shown := projects, success;
      ValidateFields(form.title, form.description);
      var savedImage := StoreImage(upload, env);
      assert projects == listed && success == shown;
      SaveEntry(Project(form.title, form.description, form.link, form.tags, savedImage));
    }

    /** The whole request: login, then logout, then add, each when its
        condition holds. Returns whether the page redirects. */
    method HandleRequest(isPost: bool, post: map<string, string>, logout: bool, upload: Option<Upload>, env: Env)
      returns (redirect: bool)
      modifies this`authenticated, this`errors, this`success, this`projects, this`images
      ensures redirect == logout
      ensures logout ==> !authenticated && projects == old(projects) && images == old(images) && success == old(success)
      ensures !logout ==>
                authenticated == (old(authenticated) || (ActionOf(isPost, post) == LoginAction && LoginAccepted(passphrase, post)))
      ensures ActionOf(isPost, post) == LoginAction ==>
                errors == old(errors) + (if passphrase != "" && !LoginAccepted(passphrase, post) then [IncorrectPassphrase] else [])
      ensures (ActionOf(isPost, post) != AddAction || !old(authenticated)) ==>
                projects == old(projects) && images == old(images) && success == old(success)
      ensures ActionOf(isPost, post) != LoginAction && (logout || ActionOf(isPost, post) != AddAction || !old(authenticated)) ==>
                errors == old(errors)
      ensures !logout && ActionOf(isPost, post) == AddAction && old(authenticated) ==>
                var form, d := ReadForm(post), ImageDecision(upload, env);
                && errors == old(errors) + FieldErrors(form.title, form.description) + ImageErrors(d)
                && images == old(images) + StoredFiles(d)
                && (errors == [] ==> projects == Some(old(projects).GetOr([]) + [NewProject(form, d)]) && success == Some(ProjectAdded))
                && (errors != [] ==> projects == old(projects) && success == old(success))
    {
      var action := ActionOf(isPost, post);
      ghost var listed, stored, shown, recorded := projects, images, success, errors;
      ghost var signedIn := old(authenticated) || (action == LoginAction && LoginAccepted(passphrase, post));
      if passphrase != "" && action == LoginAction {
        Login(post);
      }
      assert authenticated == signedIn;
      assert projects == listed && images == stored && success == shown;
      assert action != LoginAction ==> errors == recorded;
      redirect := logout;
      if logout {
        Logout();
        assert projects == listed && images == stored && success == shown;
      } else if action == AddAction && authenticated {
        assert old(authenticated) && errors == recorded;
        var form := ReadForm(post);
        AddProject(form, upload, env);
        assert authenticated == signedIn;
      }
    }
  }
}
