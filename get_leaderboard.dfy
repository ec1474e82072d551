/** get_leaderboard.php: `SELECT name, score, mode, created_at FROM
    leaderboard ORDER BY score DESC, created_at ASC LIMIT :limit`, answered
    as a JSON array, or status 500 with an `error` field when the database
    fails. The ordering is an insertion sort by that key; rows that tie on
    both columns keep table order. */
module GetLeaderboard {
  import opened PhpRuntime
  import opened ScoreStore

  /** A row as the endpoint returns it: the surrogate id is not selected. */
  datatype PublicRow = PublicRow(name: string, score: Int64, mode: string, createdAt: int)

  /** The database driver; they differ on a negative LIMIT. */
  datatype Backend = Sqlite | MySql

  /** A JSON array of rows, or status 500 with `{error}`. */
  datatype Response = Rows(rows: seq<PublicRow>) | ServerError

  const DefaultLimit: Int64 := 20

  /** isset($_GET['limit']) ? intval($_GET['limit']) : 20 */
  function LimitOf(param: Option<string>): (n: Int64)
    ensures param.None? ==> n == DefaultLimit
    ensures param.Some? ==> n == StringToInt(param.value)
  {
    match param
    case None => DefaultLimit
    case Some(s) => StringToInt(s)
  }

  /** `a` may be listed before `b`: a higher score, or the same score and a
      creation time no later. */
  predicate RanksAtOrAbove(a: Row, b: Row) {
    a.score > b.score || (a.score == b.score && a.createdAt <= b.createdAt)
  }

  /** `a` must be listed before `b`. */
  predicate Outranks(a: Row, b: Row) {
    a.score > b.score || (a.score == b.score && a.createdAt < b.createdAt)
  }

  /** Ordered by score descending, then created_at ascending. */
  predicate Ranked(s: seq<Row>) {
    forall i, j :: 0 <= i < j < |s| ==> RanksAtOrAbove(s[i], s[j])
  }

  /** Places `r` before the first row it outranks. */
  function InsertRanked(r: Row, s: seq<Row>): (t: seq<Row>)
    ensures |t| == |s| + 1
    ensures multiset(t) == multiset(s) + multiset{r}
  {
    if s == [] then [r]
    else if Outranks(r, s[0]) then [r] + s
    else
      assert s == [s[0]] + s[1..];
      [s[0]] + InsertRanked(r, s[1..])
  }

  /** The table in ORDER BY order. */
  function Rank(s: seq<Row>): (t: seq<Row>)
    ensures |t| == |s|
    ensures multiset(t) == multiset(s)
  {
    if s == [] then []
    else
      assert s == s[..|s| - 1] + [s[|s| - 1]];
      InsertRanked(s[|s| - 1], Rank(s[..|s| - 1]))
  }

  function Min(a: int, b: int): int { if a <= b then a else b }

  /** The rows the statement yields before projection. A negative LIMIT
      means "no limit" to SQLite and is a syntax error to MySQL (None). */
  function Select(t: Table, limit: Int64, backend: Backend): (r: Option<seq<Row>>)
    ensures r.Some? <==> limit >= 0 || backend == Sqlite
    ensures r.Some? ==> |r.value| == (if limit >= 0 then Min(limit, |t.rows|) else |t.rows|)
    ensures r.Some? ==> multiset(r.value) <= multiset(t.rows)
  {
    var ranked := Rank(t.rows);
    if limit >= 0 then
      var k := Min(limit, |ranked|);
      assert ranked == ranked[..k] + ranked[k..];
      Some(ranked[..k])
    else if backend == Sqlite then Some(ranked)
    else None
  }

  function Project(r: Row): PublicRow {
    PublicRow(r.name, r.score, r.mode, r.createdAt)
  }

  function ProjectAll(s: seq<Row>): seq<PublicRow> {
    seq(|s|, i requires 0 <= i < |s| => Project(s[i]))
  }

  /** The endpoint. `db` is the table, or None when the database cannot be
      opened or read. */
  function Handle(param: Option<string>, db: Option<Table>, backend: Backend): (r: Response)
    ensures r.Rows? <==> db.Some? && (LimitOf(param) >= 0 || backend == Sqlite)
    ensures r.Rows? ==> |r.rows| <= |db.value.rows|
  {
    match db
    case None => ServerError
    case Some(t) =>
      match Select(t, LimitOf(param), backend)
      case None => ServerError
      case Some(rows) => Rows(ProjectAll(rows))
  }

  // ---------------------------------------------------------------- lemmas

  /** Inserting into a ranked sequence keeps it ranked. */
  lemma {:induction false} InsertRankedKeepsRanked(r: Row, s: seq<Row>)
    requires Ranked(s)
    ensures Ranked(InsertRanked(r, s))
  {
    if s != [] && !Outranks(r, s[0]) {
      var tail := InsertRanked(r, s[1..]);
      InsertRankedKeepsRanked(r, s[1..]);
      forall j | 0 <= j < |tail| ensures RanksAtOrAbove(s[0], tail[j]) {
        assert tail[j] in multiset(tail);
        if tail[j] != r {
          assert tail[j] in multiset(s[1..]);
          var k :| 0 <= k < |s[1..]| && s[1..][k] == tail[j];
          assert s[1..][k] == s[k + 1];
        }
      }
      assert InsertRanked(r, s) == [s[0]] + tail;
    }
  }

  /** ORDER BY yields the rows ranked. */
  lemma {:induction false} RankIsRanked(s: seq<Row>)
    ensures Ranked(Rank(s))
  {
    if s != [] {
      RankIsRanked(s[..|s| - 1]);
      InsertRankedKeepsRanked(s[|s| - 1], Rank(s[..|s| - 1]));
    }
  }

  /** A row with a strictly higher score is listed before one with a lower
      score, whatever order they were inserted in. */
  lemma HigherScoreListedFirst(s: seq<Row>, i: nat, j: nat)
    requires i < |Rank(s)| && j < |Rank(s)|
    requires Rank(s)[i].score > Rank(s)[j].score
    ensures i < j
  {
    var t := Rank(s);
    RankIsRanked(s);
    var lo, hi := if i < j then i else j, if i < j then j else i;
    assert lo == hi || RanksAtOrAbove(t[lo], t[hi]);
  }

  /** With a limit of n >= 0 the response has exactly min(n, |table|) rows. */
  lemma ResultLength(param: Option<string>, t: Table, backend: Backend)
    requires LimitOf(param) >= 0
    ensures Handle(param, Some(t), backend).Rows?
    ensures |Handle(param, Some(t), backend).rows| == Min(LimitOf(param), |t.rows|)
  {
  }

  /** Without a limit parameter at most 20 rows come back. */
  lemma DefaultLimitBound(t: Table, backend: Backend)
    ensures Handle(None, Some(t), backend).Rows?
    ensures |Handle(None, Some(t), backend).rows| == Min(20, |t.rows|)
  {
  }

  /** A negative limit: SQLite returns the whole table, MySQL fails. */
  lemma NegativeLimit(param: Option<string>, t: Table)
    requires LimitOf(param) < 0
    ensures Handle(param, Some(t), Sqlite).Rows? && |Handle(param, Some(t), Sqlite).rows| == |t.rows|
    ensures Handle(param, Some(t), MySql) == ServerError
  {
  }

  /** The rows returned are sorted by score descending and, among equal
      scores, by created_at ascending. */
  lemma {:induction false} ResultSorted(param: Option<string>, t: Table, backend: Backend)
    requires Handle(param, Some(t), backend).Rows?
    ensures var rs := Handle(param, Some(t), backend).rows;
            forall i, j :: 0 <= i < j < |rs| ==>
              rs[i].score > rs[j].score || (rs[i].score == rs[j].score && rs[i].createdAt <= rs[j].createdAt)
  {
    RankIsRanked(t.rows);
  }

  /** The selected rows are a top slice of the table: they are rows of the
      table, and every row left out ranks no higher than every row
      returned. */
  lemma {:induction false} SelectIsTopSlice(t: Table, limit: Int64, backend: Backend)
    requires Select(t, limit, backend).Some?
    ensures var rows := Select(t, limit, backend).value;
            && multiset(rows) <= multiset(t.rows)
            && forall x, y :: x in multiset(rows) && y in multiset(t.rows) - multiset(rows) ==> RanksAtOrAbove(x, y)
  {
    var ranked := Rank(t.rows);
    RankIsRanked(t.rows);
    var k := |Select(t, limit, backend).value|;
    assert Select(t, limit, backend).value == ranked[..k];
    RankedSplit(ranked, k);
  }

  /** Cutting a ranked sequence anywhere leaves every row of the front at or
      above every row of the back; together they make up the whole. */
  lemma RankedSplit(ranked: seq<Row>, k: nat)
    requires Ranked(ranked) && k <= |ranked|
    ensures multiset(ranked[..k]) + multiset(ranked[k..]) == multiset(ranked)
    ensures forall x, y :: x in multiset(ranked[..k]) && y in multiset(ranked[k..]) ==> RanksAtOrAbove(x, y)
  {
    assert ranked == ranked[..k] + ranked[k..];
    forall x, y | x in multiset(ranked[..k]) && y in multiset(ranked[k..])
      ensures RanksAtOrAbove(x, y)
    {
      var i :| 0 <= i < k && ranked[..k][i] == x;
      var j :| 0 <= j < |ranked| - k && ranked[k..][j] == y;
      assert ranked[i] == x && ranked[k + j] == y;
    }
  }

  /** Every row returned is the projection of a row of the table; the id is
      never part of the answer. */
  lemma {:induction false} ResultRowsComeFromTable(param: Option<string>, t: Table, backend: Backend)
    requires Handle(param, Some(t), backend).Rows?
    ensures var rs := Handle(param, Some(t), backend).rows;
            forall i :: 0 <= i < |rs| ==> exists j :: 0 <= j < |t.rows| && Project(t.rows[j]) == rs[i]
  {
    var rows := Select(t, LimitOf(param), backend).value;
    SelectIsTopSlice(t, LimitOf(param), backend);
    var rs := Handle(param, Some(t), backend).rows;
    forall i | 0 <= i < |rs| ensures exists j :: 0 <= j < |t.rows| && Project(t.rows[j]) == rs[i] {
      assert rows[i] in multiset(rows);
      assert rows[i] in multiset(t.rows);
      var j :| 0 <= j < |t.rows| && t.rows[j] == rows[i];
      assert Project(t.rows[j]) == rs[i];
    }
  }

  /** An empty table answers with an empty array, a failing database with
      status 500: the two are never confused. */
  lemma EmptyTableIsNotAnError(param: Option<string>, nextId: nat, backend: Backend)
    requires LimitOf(param) >= 0 || backend == Sqlite
    ensures Handle(param, Some(Table([], nextId)), backend) == Rows([])
    ensures Handle(param, None, backend) == ServerError
  {
  }

  /** Three scores inserted as A (100), B (300) and C (300, created before B)
      are listed C, B, A: the earlier of two equal scores comes first. */
  lemma TieBreakExample(a: Row, b: Row, c: Row)
    requires a.score == 100 && b.score == 300 && c.score == 300
    requires c.createdAt < b.createdAt
    ensures Rank([a, b, c]) == [c, b, a]
  {
    assert [a, b, c][..2] == [a, b];
    assert [a, b][..1] == [a];
    assert Rank([a]) == [a];
    assert Rank([a, b]) == InsertRanked(b, [a]) == [b, a];
  }
}
