/** The `leaderboard` table both endpoints share. Rows are only ever
    appended: each insert takes the next AUTOINCREMENT id and stamps the row
    with the insert time; nothing updates or deletes a row. */
module ScoreStore {
  import opened PhpRuntime

  /** One row. `createdAt` is the insert time in seconds; the table stores it
      as 'YYYY-MM-DD HH:MM:SS', whose text order is the order of the instants,
      so comparing the numbers compares the stored values. */
  datatype Row = Row(id: nat, name: string, score: Int64, mode: string, createdAt: int)

  /** The rows in insertion order and the id the next insert receives. */
  datatype Table = Table(rows: seq<Row>, nextId: nat)

  /** Ids increase along the table and all lie below the next id. */
  predicate Valid(t: Table) {
    && (forall i :: 0 <= i < |t.rows| ==> t.rows[i].id < t.nextId)
    && (forall i, j :: 0 <= i < j < |t.rows| ==> t.rows[i].id < t.rows[j].id)
  }

  /** A freshly created table: no rows, and AUTOINCREMENT starts at 1. */
  function EmptyTable(): (t: Table)
    ensures Valid(t) && t.rows == []
  {
    Table([], 1)
  }

  /** INSERT INTO leaderboard (name, score, mode, created_at): one row is
      added at the end, every earlier row stays as it was, and the new id is
      one no earlier row carries. */
  function Insert(t: Table, name: string, score: Int64, mode: string, now: int): (r: Table)
    ensures Valid(t) ==> Valid(r)
    ensures |r.rows| == |t.rows| + 1 && r.rows[..|t.rows|] == t.rows
    ensures r.rows[|t.rows|].name == name && r.rows[|t.rows|].score == score
    ensures r.rows[|t.rows|].mode == mode && r.rows[|t.rows|].createdAt == now
    ensures Valid(t) ==> forall i :: 0 <= i < |t.rows| ==> t.rows[i].id != r.rows[|t.rows|].id
  {
    Table(t.rows + [Row(t.nextId, name, score, mode, now)], t.nextId + 1)
  }
}
