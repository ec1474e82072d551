/** The slice of the PHP runtime that the leaderboard and admin scripts lean on:
    trim() with its default character list, substr($s, 0, $n), intval() of a
    string (leading integer, 64-bit saturation), the decimal rendering of an
    integer, and the value json_decode($raw, true) yields, with PHP's notion of
    truthiness, the `??` lookup and the coercion of a value to a string
    argument. Strings are sequences of characters; PHP counts bytes. */
module PhpRuntime {

  datatype Option<T> = None | Some(value: T) {
    function GetOr(default: T): T {
      match this
      case Some(v) => v
      case None => default
    }
  }

  // ---------------------------------------------------------------- trim()

  /** The characters trim() strips when no list is given: " \t\n\r\0\x0B". */
  predicate IsTrimChar(c: char) {
    c == ' ' || c == '\t' || c == '\n' || c == '\r' || c == '\0' || c == '\U{0B}'
  }

  /** Neither end of `s` is a trim character. */
  predicate IsTrimmed(s: string) {
    s == [] || (!IsTrimChar(s[0]) && !IsTrimChar(s[|s| - 1]))
  }

  predicate AllTrimChars(s: string) {
    forall k :: 0 <= k < |s| ==> IsTrimChar(s[k])
  }

  /** How many trim characters `s` starts with. */
  function LeadingBlanks(s: string): (n: nat)
    ensures n <= |s|
    ensures forall k :: 0 <= k < n ==> IsTrimChar(s[k])
    ensures n == |s| || !IsTrimChar(s[n])
  {
    if |s| > 0 && IsTrimChar(s[0]) then 1 + LeadingBlanks(s[1..]) else 0
  }

  /** How many trim characters `s` ends with. */
  function TrailingBlanks(s: string): (n: nat)
    ensures n <= |s|
    ensures forall k :: |s| - n <= k < |s| ==> IsTrimChar(s[k])
    ensures n == |s| || !IsTrimChar(s[|s| - 1 - n])
  {
    if |s| > 0 && IsTrimChar(s[|s| - 1]) then 1 + TrailingBlanks(s[..|s| - 1]) else 0
  }

  /** ltrim($s). */
  function TrimStart(s: string): string {
    s[LeadingBlanks(s)..]
  }

  /** rtrim($s). */
  function TrimEnd(s: string): string {
    s[..|s| - TrailingBlanks(s)]
  }

  /** trim($s). The result is a trimmed infix of `s`, and what it leaves out
      on either side consists of trim characters only. */
  function Trim(s: string): (r: string)
    ensures IsTrimmed(r)
    ensures LeadingBlanks(s) + |r| <= |s|
    ensures r == s[LeadingBlanks(s)..LeadingBlanks(s) + |r|]
    ensures forall k :: 0 <= k < LeadingBlanks(s) ==> IsTrimChar(s[k])
    ensures forall k :: LeadingBlanks(s) + |r| <= k < |s| ==> IsTrimChar(s[k])
  {
    var i := LeadingBlanks(s);
    var t := s[i..];
    var r := TrimEnd(t);
    assert forall k :: i + |r| <= k < |s| ==> s[k] == t[k - i];
    r
  }

  /** trim() leaves a string alone exactly when it is already trimmed. */
  lemma TrimFixesTrimmed(s: string)
    ensures Trim(s) == s <==> IsTrimmed(s)
  {
    if IsTrimmed(s) && s != [] {
      assert LeadingBlanks(s) == 0;
      assert TrailingBlanks(s) == 0;
    }
  }

  /** trim() is idempotent. */
  lemma TrimIdempotent(s: string)
    ensures Trim(Trim(s)) == Trim(s)
  {
    TrimFixesTrimmed(Trim(s));
  }

  lemma {:induction false} LeadingBlanksIs(s: string, n: nat)
    requires n < |s| && !IsTrimChar(s[n])
    requires forall k :: 0 <= k < n ==> IsTrimChar(s[k])
    ensures LeadingBlanks(s) == n
  {
    if n > 0 {
      LeadingBlanksIs(s[1..], n - 1);
    }
  }

  lemma {:induction false} TrailingBlanksIs(s: string, n: nat)
    requires n < |s| && !IsTrimChar(s[|s| - 1 - n])
    requires forall k :: |s| - n <= k < |s| ==> IsTrimChar(s[k])
    ensures TrailingBlanks(s) == n
  {
    if n > 0 {
      TrailingBlanksIs(s[..|s| - 1], n - 1);
    }
  }

  /** trim() removes exactly blank margins: a non-empty trimmed core wrapped
      in trim characters comes back as that core. */
  lemma {:induction false} TrimOfBlankMargins(a: string, b: string, c: string)
    requires AllTrimChars(a) && AllTrimChars(c) && IsTrimmed(b) && b != []
    ensures Trim(a + b + c) == b
  {
    var s := a + b + c;
    LeadingBlanksIs(s, |a|);
    var t := s[|a|..];
    assert t == b + c;
    TrailingBlanksIs(t, |c|);
  }

  /** trim() yields "" exactly for strings made of trim characters alone. */
  lemma {:induction false} TrimEmptyIff(s: string)
    ensures Trim(s) == "" <==> AllTrimChars(s)
  {
    var i := LeadingBlanks(s);
    assert Trim(s) != [] ==> Trim(s)[0] == s[i];
  }

  // --------------------------------------------------------- substr($s,0,n)

  /** Text of code points below 128. On such text PHP's byte counts and
      JavaScript's UTF-16 counts are both the number of characters; on other
      text substr($s, 0, $n) counts bytes where Prefix counts characters. */
  predicate IsAscii(s: string) {
    forall i :: 0 <= i < |s| ==> s[i] as int < 128
  }

  /** substr($s, 0, $n) for a non-negative length: the first `n` characters,
      or all of `s` when it is shorter (the first `n` bytes in PHP, which is
      the same on ASCII text). */
  function Prefix(s: string, n: nat): (r: string)
    ensures |r| <= n && |r| <= |s|
    ensures |r| == n || |r| == |s|
    ensures r == s[..|r|]
  {
    if |s| <= n then s else s[..n]
  }

  // --------------------------------------------------------------- integers

  const IntMin: int := -0x8000_0000_0000_0000
  const IntMax: int := 0x7FFF_FFFF_FFFF_FFFF

  /** PHP's int on a 64-bit build. */
  type Int64 = i: int | -0x8000_0000_0000_0000 <= i <= 0x7FFF_FFFF_FFFF_FFFF

  /** Saturation to the int range, as intval() does for an over-long numeral. */
  function Saturate(v: int): (r: Int64)
    ensures IntMin <= v <= IntMax ==> r == v
    ensures v < IntMin ==> r == IntMin
    ensures v > IntMax ==> r == IntMax
  {
    if v < IntMin then IntMin else if v > IntMax then IntMax else v
  }

  predicate IsDigit(c: char) { '0' <= c <= '9' }

  predicate AllDigits(s: string) {
    forall k :: 0 <= k < |s| ==> IsDigit(s[k])
  }

  function DigitValue(c: char): nat
    requires IsDigit(c)
  {
    c as int - '0' as int
  }

  function DigitChar(d: nat): (c: char)
    requires d < 10
    ensures IsDigit(c) && DigitValue(c) == d
  {
    ('0' as int + d) as char
  }

  /** The number a string of decimal digits denotes. */
  function DigitsValue(ds: string): nat
    requires AllDigits(ds)
  {
    if ds == [] then 0 else 10 * DigitsValue(ds[..|ds| - 1]) + DigitValue(ds[|ds| - 1])
  }

  /** The longest prefix of `s` made of digits. */
  function LeadingDigits(s: string): (r: string)
    ensures AllDigits(r) && |r| <= |s| && r == s[..|r|]
    ensures |r| < |s| ==> !IsDigit(s[|r|])
  {
    if s != [] && IsDigit(s[0]) then [s[0]] + LeadingDigits(s[1..]) else []
  }

  /** The whitespace a PHP numeric string may start with: " \t\n\r\v\f". */
  predicate IsNumericSpace(c: char) {
    c == ' ' || c == '\t' || c == '\n' || c == '\r' || c == '\U{0B}' || c == '\U{0C}'
  }

  function SkipNumericSpace(s: string): (r: string)
    ensures |r| <= |s| && r == s[|s| - |r|..]
    ensures r == [] || !IsNumericSpace(r[0])
  {
    if s != [] && IsNumericSpace(s[0]) then SkipNumericSpace(s[1..]) else s
  }

  /** intval($s) for a string: optional leading whitespace, an optional sign
      and the digits that follow; anything after them is ignored, no digits
      give 0, and an out-of-range numeral saturates. */
  function StringToInt(s: string): (r: Int64)
    ensures var t := SkipNumericSpace(s);
            && (r < 0 ==> t != [] && t[0] == '-')
            && (r != 0 ==> t != [] && (t[0] == '-' || t[0] == '+' || IsDigit(t[0])))
  {
    var t := SkipNumericSpace(s);
    if t != [] && (t[0] == '-' || t[0] == '+') then
      var v: int := DigitsValue(LeadingDigits(t[1..]));
      Saturate(if t[0] == '-' then -v else v)
    else
      Saturate(DigitsValue(LeadingDigits(t)))
  }

  /** The decimal digits of a natural number, without leading zeros. */
  function NatToString(n: nat): (r: string)
    ensures AllDigits(r) && r != []
    ensures DigitsValue(r) == n
    ensures r[0] != '0' || n == 0
  {
    if n < 10 then [DigitChar(n)]
    else
      var r := NatToString(n / 10) + [DigitChar(n % 10)];
      assert r[..|r| - 1] == NatToString(n / 10);
      r
  }

  /** (string)$n: decimal, with a minus sign for negative numbers. */
  function IntToString(n: int): (r: string)
    ensures r != [] && (r[0] == '-' <==> n < 0)
  {
    if n < 0 then "-" + NatToString(-n) else NatToString(n)
  }

  /** A string of digits is its own longest digit prefix. */
  lemma {:induction false} LeadingDigitsOfAllDigits(ds: string)
    requires AllDigits(ds)
    ensures LeadingDigits(ds) == ds
  {
    if ds != [] {
      LeadingDigitsOfAllDigits(ds[1..]);
      assert [ds[0]] + ds[1..] == ds;
    }
  }

  /** A numeral reads back as its value. */
  lemma StringToIntOfDigits(ds: string)
    requires AllDigits(ds) && ds != []
    ensures StringToInt(ds) == Saturate(DigitsValue(ds))
  {
    assert !IsNumericSpace(ds[0]);
    LeadingDigitsOfAllDigits(ds);
  }

  /** A numeral after a minus sign reads back as its negated value. */
  lemma StringToIntOfNegated(ds: string, v: int)
    requires AllDigits(ds) && ds != [] && DigitsValue(ds) == v
    ensures StringToInt(['-'] + ds) == Saturate(-v)
  {
    var t := ['-'] + ds;
    assert t[0] == '-' && t[1..] == ds;
    assert SkipNumericSpace(t) == t;
    LeadingDigitsOfAllDigits(ds);
  }

  /** intval((string)$n) == $n for every PHP int. */
  lemma StringToIntOfIntToString(n: Int64)
    ensures StringToInt(IntToString(n)) == n
  {
    var m: int := n;
    if m < 0 {
      StringToIntOfNegated(NatToString(-m), -m);
    } else {
      StringToIntOfDigits(NatToString(m));
    }
  }

  /** A string whose first non-blank character is neither a digit nor a sign
      has intval 0. */
  lemma StringToIntNonNumeric(s: string)
    requires var t := SkipNumericSpace(s); t == [] || (!IsDigit(t[0]) && t[0] != '-' && t[0] != '+')
    ensures StringToInt(s) == 0
  {
  }

  // ------------------------------------------------------------------- JSON

  /** What json_decode($raw, true) returns. Invalid JSON also decodes to null;
      objects become (string-keyed) arrays and lists become int-keyed arrays.
      JSON integers within the 64-bit range stay ints. */
  datatype Json =
    | JNull
    | JBool(b: bool)
    | JInt(n: Int64)
    | JString(s: string)
    | JList(items: seq<Json>)
    | JObject(fields: map<string, Json>)

  /** A string is falsy in PHP when it is "" or "0". */
  predicate IsTruthyString(s: string) {
    s != "" && s != "0"
  }

  /** PHP truthiness of a decoded value: `!$data` holds exactly for null,
      false, 0, "", "0" and the empty array (from [] or {}). */
  predicate IsTruthy(j: Json) {
    match j
    case JNull => false
    case JBool(b) => b
    case JInt(n) => n != 0
    case JString(s) => IsTruthyString(s)
    case JList(items) => items != []
    case JObject(fields) => fields != map[]
  }

  /** `$data[$key] ?? ...`: the value when `$data` is an array holding the key
      with a non-null value; None otherwise (a missing key, a null value, or
      `$data` not an array at all). */
  function Field(j: Json, key: string): (r: Option<Json>)
    ensures r.Some? ==> r.value != JNull
    ensures r.Some? <==> j.JObject? && key in j.fields && j.fields[key] != JNull
    ensures r.Some? ==> j.JObject? && key in j.fields && r.value == j.fields[key]
  {
    if j.JObject? && key in j.fields && j.fields[key] != JNull then Some(j.fields[key]) else None
  }

  /** The coercion PHP applies to a value passed where a string parameter is
      expected: None stands for the TypeError an array raises. */
  function ToStringArg(j: Json): (r: Option<string>)
    ensures r.None? <==> j.JList? || j.JObject?
    ensures j.JString? ==> r == Some(j.s)
  {
    match j
    case JNull => Some("")
    case JBool(b) => Some(if b then "1" else "")
    case JInt(n) => Some(IntToString(n))
    case JString(s) => Some(s)
    case JList(_) => None
    case JObject(_) => None
  }

  /** intval($v) for a decoded value. */
  function ToInt(j: Json): (r: Int64)
    ensures j.JInt? ==> r == j.n
    ensures j.JNull? ==> r == 0
    ensures j.JString? ==> r == StringToInt(j.s)
    ensures (j.JList? || j.JObject? || j.JBool?) ==> (r == 1 <==> IsTruthy(j)) && (r == 0 <==> !IsTruthy(j))
  {
    match j
    case JNull => 0
    case JBool(b) => if b then 1 else 0
    case JInt(n) => n
    case JString(s) => StringToInt(s)
    case JList(items) => if items == [] then 0 else 1
    case JObject(fields) => if fields == map[] then 0 else 1
  }
}
