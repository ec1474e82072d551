/** The path of one score through the site: the game posts `{name, score,
    mode}` to save_score.php, which stores a normalised row, and
    get_leaderboard.php lists it. The lemmas here connect the three parts. */
module ScoreRoundTrip {
  import opened PhpRuntime
  import opened ScoreStore
  import opened SaveScore
  import opened GetLeaderboard
  import opened SideScroller

  /** What json_decode gives for JSON.stringify({name, score, mode}) when the
      floored score is within PHP's int range. */
  function PostBody(p: Post): Json
    requires IntMin <= p.score <= IntMax
  {
    JObject(map["name" := JString(p.name), "score" := JInt(p.score), "mode" := JString(p.mode)])
  }

  /** For ASCII text, the server stores a game post with its name and mode
      trimmed (the mode first cut to 32 characters) and its score as sent;
      the 40-character name the game sends is never cut by the server's limit
      of 64 bytes. */
  lemma GamePostNormalised(playerName: string, score: Int64, difficulty: string)
    requires IsAscii(playerName) && IsAscii(difficulty)
    ensures var p := PostFor(playerName, score, difficulty);
            Normalise(PostBody(p)) == Some(Entry(Trim(p.name), score, Trim(Prefix(p.mode, ModeCap))))
  {
    var p := PostFor(playerName, score, difficulty);
    var data := PostBody(p);
    assert Field(data, "name") == Some(JString(p.name));
    assert Field(data, "mode") == Some(JString(p.mode));
    assert Field(data, "score") == Some(JInt(score));
    assert Prefix(p.name, NameCap) == p.name;
  }

  /** A trimmed, non-empty ASCII name of at most 40 characters, played at a
      difficulty that is a trimmed, non-empty ASCII mode of at most 32
      characters, is stored exactly as the game sent it. */
  lemma GamePostStoredVerbatim(playerName: string, score: Int64, difficulty: string)
    requires IsAscii(playerName) && IsAscii(difficulty)
    requires playerName != [] && |playerName| <= NameLimit && IsTrimmed(playerName)
    requires difficulty != [] && |difficulty| <= ModeCap && IsTrimmed(difficulty)
    ensures Normalise(PostBody(PostFor(playerName, score, difficulty))) == Some(Entry(playerName, score, difficulty))
  {
    GamePostNormalised(playerName, score, difficulty);
    var p := PostFor(playerName, score, difficulty);
    assert p.name == playerName && p.mode == difficulty;
    TrimFixesTrimmed(playerName);
    ShortTrimmedIsKept(difficulty, ModeCap);
  }

  /** The four difficulties of the game's selector are such modes. */
  lemma KnownDifficultiesAreModes(difficulty: string)
    requires difficulty == "easy" || difficulty == "medium" || difficulty == "hard" || difficulty == "harder"
    ensures difficulty != [] && |difficulty| <= ModeCap && IsTrimmed(difficulty) && IsAscii(difficulty)
  {
    assert !IsTrimChar(difficulty[0]) && !IsTrimChar(difficulty[|difficulty| - 1]);
  }

  /** Every row of the table appears in the ranking. */
  lemma InRanking(s: seq<Row>, r: Row)
    requires r in s
    ensures r in Rank(s)
  {
    assert r in multiset(s);
    assert r in multiset(Rank(s));
  }

  /** A limit that covers the table selects the whole ranking. */
  lemma SelectAll(t: Table, limit: Int64, backend: Backend)
    requires limit >= |t.rows|
    ensures Select(t, limit, backend) == Some(Rank(t.rows))
  {
    var ranked := Rank(t.rows);
    assert Min(limit, |ranked|) == |ranked|;
    assert ranked[..|ranked|] == ranked;
  }

  /** The projection lists every row it is given. */
  lemma ProjectAllLists(s: seq<Row>, r: Row)
    requires r in s
    ensures Project(r) in ProjectAll(s)
  {
    var i :| 0 <= i < |s| && s[i] == r;
    assert ProjectAll(s)[i] == Project(r);
  }

  /** When the limit covers the whole table, every row of it is listed. */
  lemma ListedWhenLimitCovers(param: Option<string>, t: Table, backend: Backend, row: Row)
    requires row in t.rows && LimitOf(param) >= |t.rows|
    ensures Handle(param, Some(t), backend).Rows?
    ensures Project(row) in Handle(param, Some(t), backend).rows
  {
    SelectAll(t, LimitOf(param), backend);
    InRanking(t.rows, row);
    ProjectAllLists(Rank(t.rows), row);
    assert Handle(param, Some(t), backend) == Rows(ProjectAll(Rank(t.rows)));
  }

  /** After a successful submission, a leaderboard request whose limit covers
      the whole table lists the new row, normalised and stamped with the
      insert time. */
  lemma SavedScoreIsListed(table: Table, raw: string, decoded: Json, now: int,
                           param: Option<string>, backend: Backend)
    requires Submit(table, raw, decoded, true, now).reply == Saved
    requires LimitOf(param) > |table.rows|
    ensures var e := Normalise(decoded).value;
            var resp := Handle(param, Some(Submit(table, raw, decoded, true, now).table), backend);
            && resp.Rows?
            && PublicRow(e.name, e.score, e.mode, now) in resp.rows
  {
    var e := Normalise(decoded).value;
    var t := Submit(table, raw, decoded, true, now).table;
    assert t == Insert(table, e.name, e.score, e.mode, now);
    var row := t.rows[|table.rows|];
    assert Project(row) == PublicRow(e.name, e.score, e.mode, now);
    ListedWhenLimitCovers(param, t, backend, row);
  }
}
