/** save_score.php: a JSON body `{name, score, mode}` is checked, normalised
    and stored as one new leaderboard row. The request body, the value
    json_decode gives for it, whether the database can be reached and the
    clock are the inputs; the table before and after is the state. */
module SaveScore {
  import opened PhpRuntime
  import opened ScoreStore

  /** The normalised triple that is inserted. */
  datatype Entry = Entry(name: string, score: Int64, mode: string)

  /** The message of the exception the script catches. */
  datatype Failure = NoInput | InvalidJson | StoreFailure

  /** `{success:true}`; status 400 with `{success:false, error}`; or the
      fatal error of the TypeError PHP 8 raises, which nothing catches: no
      JSON reply, and status 500 when display_errors is off (200 with the
      error text when it is on). */
  datatype Reply = Saved | Rejected(status: int, error: Failure) | Fatal

  datatype Outcome = Outcome(reply: Reply, table: Table)

  const NameCap: nat := 64
  const ModeCap: nat := 32
  const DefaultName: string := "Anon"
  const DefaultMode: string := "unknown"
  const BadRequest: int := 400

  /** A normalised text field: at most `cap` characters, no surrounding
      blanks. */
  predicate IsNormalText(s: string, cap: nat) {
    |s| <= cap && IsTrimmed(s)
  }

  predicate IsNormalEntry(e: Entry) {
    IsNormalText(e.name, NameCap) && IsNormalText(e.mode, ModeCap)
  }

  /** trim(substr($data[$key] ?? $default, 0, $cap)): the default stands in
      only for a missing or null field; the text is cut first and trimmed
      second. None is the TypeError substr raises for an array. */
  function NormaliseText(data: Json, key: string, default: string, cap: nat): (r: Option<string>)
    ensures r.Some? ==> IsNormalText(r.value, cap)
    ensures r.None? <==> Field(data, key).Some? && (Field(data, key).value.JList? || Field(data, key).value.JObject?)
  {
    match Field(data, key)
    case None => Some(Trim(Prefix(default, cap)))
    case Some(v) =>
      match ToStringArg(v)
      case None => None
      case Some(s) => Some(Trim(Prefix(s, cap)))
  }

  /** intval($data['score'] ?? 0). */
  function NormaliseScore(data: Json): (r: Int64)
    ensures Field(data, "score").None? ==> r == 0
    ensures Field(data, "score").Some? ==> r == ToInt(Field(data, "score").value)
  {
    ToInt(Field(data, "score").GetOr(JInt(0)))
  }

  /** Lines 10-12: the three normalised fields, or None when a text field
      holds an array. */
  function Normalise(data: Json): (r: Option<Entry>)
    ensures r.Some? ==> IsNormalEntry(r.value) && r.value.score == NormaliseScore(data)
    ensures r.None? <==> NormaliseText(data, "name", DefaultName, NameCap).None?
                         || NormaliseText(data, "mode", DefaultMode, ModeCap).None?
  {
    var name := NormaliseText(data, "name", DefaultName, NameCap);
    var mode := NormaliseText(data, "mode", DefaultMode, ModeCap);
    if name.Some? && mode.Some? then Some(Entry(name.value, NormaliseScore(data), mode.value)) else None
  }

  /** The whole request. `decoded` is what json_decode($raw, true) returns
      for `raw` (null for invalid JSON); `storeUp` says whether the
      database can be opened and written; `now` is the insert time. */
  function Submit(table: Table, raw: string, decoded: Json, storeUp: bool, now: int): (out: Outcome)
    ensures out.reply == Saved <==> IsTruthyString(raw) && IsTruthy(decoded) && Normalise(decoded).Some? && storeUp
    ensures out.reply != Saved ==> out.table == table
    ensures out.reply == Saved ==>
              var e := Normalise(decoded).value;
              out.table == Insert(table, e.name, e.score, e.mode, now)
    ensures out.reply.Rejected? ==> out.reply.status == BadRequest
    ensures out.reply == Rejected(BadRequest, NoInput) <==> !IsTruthyString(raw)
    ensures out.reply == Rejected(BadRequest, InvalidJson) <==> IsTruthyString(raw) && !IsTruthy(decoded)
    ensures out.reply == Fatal <==> IsTruthyString(raw) && IsTruthy(decoded) && Normalise(decoded).None?
    ensures out.reply == Rejected(BadRequest, StoreFailure) <==>
              IsTruthyString(raw) && IsTruthy(decoded) && Normalise(decoded).Some? && !storeUp
  {
    if !IsTruthyString(raw) then Outcome(Rejected(BadRequest, NoInput), table)
    else if !IsTruthy(decoded) then Outcome(Rejected(BadRequest, InvalidJson), table)
    else
      match Normalise(decoded)
      case None => Outcome(Fatal, table)
      case Some(e) =>
        if storeUp then Outcome(Saved, Insert(table, e.name, e.score, e.mode, now))
        else Outcome(Rejected(BadRequest, StoreFailure), table)
  }

  // ---------------------------------------------------------------- lemmas

  /** An empty body, and also the body "0" (falsy in PHP), fail with
      "No input" and leave the table alone. */
  lemma EmptyBodyRejected(table: Table, raw: string, decoded: Json, storeUp: bool, now: int)
    requires raw == "" || raw == "0"
    ensures Submit(table, raw, decoded, storeUp, now) == Outcome(Rejected(400, NoInput), table)
  {
  }

  /** A body that decodes to a falsy value (invalid JSON and `null` decode to
      null; `{}`, `[]`, `0`, `false`, `""`, `"0"`) fails with "Invalid JSON"
      and leaves the table alone. */
  lemma FalsyJsonRejected(table: Table, raw: string, decoded: Json, storeUp: bool, now: int)
    requires IsTruthyString(raw)
    requires decoded in {JNull, JBool(false), JInt(0), JString(""), JString("0"), JList([]), JObject(map[])}
    ensures Submit(table, raw, decoded, storeUp, now) == Outcome(Rejected(400, InvalidJson), table)
  {
  }

  /** A successful submission appends exactly one row, normalised, at the end
      of the table, and keeps the table's ids valid. */
  lemma {:induction false} SavedRowIsNormalised(table: Table, raw: string, decoded: Json, storeUp: bool, now: int)
    requires Valid(table)
    requires Submit(table, raw, decoded, storeUp, now).reply == Saved
    ensures var t := Submit(table, raw, decoded, storeUp, now).table;
            && Valid(t)
            && |t.rows| == |table.rows| + 1
            && t.rows[..|table.rows|] == table.rows
            && IsNormalText(t.rows[|table.rows|].name, NameCap)
            && IsNormalText(t.rows[|table.rows|].mode, ModeCap)
            && t.rows[|table.rows|].createdAt == now
  {
    var e := Normalise(decoded).value;
    assert IsNormalEntry(e);
  }

  /** A missing or null name is stored as "Anon", a missing or null mode as
      "unknown", a missing score as 0. */
  lemma DefaultsForMissingFields(data: Json)
    requires Field(data, "name").None? && Field(data, "mode").None? && Field(data, "score").None?
    ensures Normalise(data) == Some(Entry("Anon", 0, "unknown"))
  {
    assert IsTrimmed(DefaultName) && IsTrimmed(DefaultMode);
    ShortTrimmedIsKept(DefaultName, NameCap);
    ShortTrimmedIsKept(DefaultMode, ModeCap);
    assert NormaliseText(data, "name", DefaultName, NameCap) == Some("Anon");
    assert NormaliseText(data, "mode", DefaultMode, ModeCap) == Some("unknown");
  }

  /** The name default depends on the name field alone: a missing or null
      name is stored as "Anon" whatever the other fields hold. */
  lemma MissingNameIsAnon(data: Json)
    requires Field(data, "name").None? && Normalise(data).Some?
    ensures Normalise(data).value.name == "Anon"
  {
    DefaultsAreNormal();
    DefaultWhenMissing(data, "name", DefaultName, NameCap);
  }

  /** Likewise a missing or null mode alone gives "unknown". */
  lemma MissingModeIsUnknown(data: Json)
    requires Field(data, "mode").None? && Normalise(data).Some?
    ensures Normalise(data).value.mode == "unknown"
  {
    DefaultsAreNormal();
    DefaultWhenMissing(data, "mode", DefaultMode, ModeCap);
  }

  /** For any field: a missing or null value is replaced by a default that is
      already normal, unchanged. */
  lemma DefaultWhenMissing(data: Json, key: string, default: string, cap: nat)
    requires Field(data, key).None? && IsNormalText(default, cap)
    ensures NormaliseText(data, key, default, cap) == Some(default)
  {
    ShortTrimmedIsKept(default, cap);
  }

  lemma DefaultsAreNormal()
    ensures IsNormalText(DefaultName, NameCap) && IsNormalText(DefaultMode, ModeCap)
  {
    assert IsTrimmed(DefaultName) && IsTrimmed(DefaultMode);
  }

  lemma ShortTrimmedIsKept(s: string, cap: nat)
    requires |s| <= cap && IsTrimmed(s)
    ensures Trim(Prefix(s, cap)) == s
  {
    TrimFixesTrimmed(s);
  }

  /** A name that is present but blank is stored blank: no default is
      substituted for it. */
  lemma {:induction false} BlankNameStaysBlank(data: Json, s: string)
    requires Field(data, "name") == Some(JString(s)) && AllTrimChars(s)
    requires Normalise(data).Some?
    ensures Normalise(data).value.name == ""
  {
    assert AllTrimChars(Prefix(s, NameCap));
    TrimEmptyIff(Prefix(s, NameCap));
  }

  /** A mode that is present but blank is stored blank too, not as
      "unknown". */
  lemma {:induction false} BlankModeStaysBlank(data: Json, s: string)
    requires Field(data, "mode") == Some(JString(s)) && AllTrimChars(s)
    requires Normalise(data).Some?
    ensures Normalise(data).value.mode == ""
  {
    assert AllTrimChars(Prefix(s, ModeCap));
    TrimEmptyIff(Prefix(s, ModeCap));
  }

  /** A name of 64 or more characters whose first and 64th characters are
      not blank is stored as exactly its first 64 characters. */
  lemma {:induction false} LongNameTruncated(data: Json, s: string)
    requires Field(data, "name") == Some(JString(s)) && |s| >= 64
    requires !IsTrimChar(s[0]) && !IsTrimChar(s[63])
    requires Normalise(data).Some?
    ensures Normalise(data).value.name == s[..64]
  {
    TrimFixesTrimmed(s[..64]);
  }

  /** Normalisation is the identity on the JSON encoding of an entry that is
      already normal, so a stored entry resubmitted is stored unchanged. */
  lemma {:induction false} NormaliseFixesNormalEntry(e: Entry)
    requires IsNormalEntry(e)
    ensures Normalise(JObject(map["name" := JString(e.name), "score" := JInt(e.score), "mode" := JString(e.mode)])) == Some(e)
  {
    var data := JObject(map["name" := JString(e.name), "score" := JInt(e.score), "mode" := JString(e.mode)]);
    assert Field(data, "name") == Some(JString(e.name));
    assert Field(data, "mode") == Some(JString(e.mode));
    assert Field(data, "score") == Some(JInt(e.score));
    TrimFixesTrimmed(e.name);
    TrimFixesTrimmed(e.mode);
    assert NormaliseText(data, "name", DefaultName, NameCap) == Some(e.name);
    assert NormaliseText(data, "mode", DefaultMode, ModeCap) == Some(e.mode);
  }

  lemma TrimBob()
    ensures Trim("  Bob  ") == "Bob"
  {
    assert "  Bob  " == "  " + "Bob" + "  ";
    TrimOfBlankMargins("  ", "Bob", "  ");
  }

  lemma FortyTwo()
    ensures StringToInt("42") == 42
  {
    assert NatToString(4) == "4";
    assert IntToString(42) == "42";
    StringToIntOfIntToString(42);
  }

  /** The body `{"name":"  Bob  ","score":"42","mode":""}`: the name is
      trimmed, the score string becomes 42, and the empty mode stays empty
      rather than becoming "unknown". */
  lemma PresentEmptyModeExample()
    ensures Normalise(JObject(map["name" := JString("  Bob  "), "score" := JString("42"), "mode" := JString("")]))
            == Some(Entry("Bob", 42, ""))
  {
    var data := JObject(map["name" := JString("  Bob  "), "score" := JString("42"), "mode" := JString("")]);
    assert Field(data, "name") == Some(JString("  Bob  "));
    assert Field(data, "mode") == Some(JString(""));
    assert Field(data, "score") == Some(JString("42"));
    TrimBob();
    assert Prefix("  Bob  ", NameCap) == "  Bob  ";
    assert NormaliseText(data, "name", DefaultName, NameCap) == Some("Bob");
    assert NormaliseText(data, "mode", DefaultMode, ModeCap) == Some("");
    FortyTwo();
    assert NormaliseScore(data) == 42;
  }
}
