/** A bulk INSERT in autocommit: the handler's buffer and flushes
    (`ha_stoolap.cc`), the two routes a flush takes (`ffi/write.rs`,
    `sql_write.rs`) and the statement-end callback, as steps over a session. */
module BulkInsert {
  import opened Values
  import opened Session

  const TABLE := "t"

  /** What the engine answers to one flush: whether it takes the rows (some of
      them may be written when it does not), and whether a begin (with the end of
      the statement's own transaction first, `settles`) and the commit around
      them succeed. */
  datatype Answer = Answer(takes: bool, written: seq<int>, settles: bool, begins: bool, commits: bool)

  /** The handler's bulk fields and its session. */
  datatype Bulk = Bulk(session: State, buffer: seq<int>, fk: bool, ownsTx: bool)

  function Applied(rows: seq<int>, a: Answer): seq<int> {
    if a.takes then rows else a.written
  }

  /** `sql_write::insert`: outside a transaction several rows open, and end, one
      for themselves; one row, or rows inside an open one, run as statements. */
  function SqlInsert(s: State, rows: seq<int>, a: Answer): (State, bool)
    requires Valid(s)
  {
    if rows == [] then (s, true)
    else if s.open then (RunSql(s, TABLE, Applied(rows, a)), a.takes)
    else if |rows| == 1 then (RunSql(s, TABLE, if a.takes then rows else []), a.takes)
    else
      BeginKeeps(s, s.ownLevel, a.settles, a.begins);
      var begun := Begun(s, s.ownLevel, a.settles, a.begins);
      if !begun.open then (begun, false)
      else (SqlFinished(begun, rows, a), a.takes && a.commits)
  }

  /** The rows in the transaction begun for them, committed or rolled back. */
  function SqlFinished(s: State, rows: seq<int>, a: Answer): State
    requires Valid(s) && s.open
  {
    SqlKeeps(s, TABLE, Applied(rows, a));
    Finish(RunSql(s, TABLE, Applied(rows, a)), a.takes && a.commits)
  }

  lemma {:induction false} SqlFinishedKeeps(s: State, rows: seq<int>, a: Answer)
    requires Valid(s) && s.open
    ensures Valid(SqlFinished(s, rows, a)) && !SqlFinished(s, rows, a).open
  {
    SqlKeeps(s, TABLE, Applied(rows, a));
    FinishKeeps(RunSql(s, TABLE, Applied(rows, a)), a.takes && a.commits);
  }

  /** `stoolap_insert_buffer` through `write_through`: on the table's write handle,
      or as SQL for a table with a foreign key to or from it. */
  function InsertBuffer(s: State, fk: bool, rows: seq<int>, a: Answer): (State, bool)
    requires Valid(s)
  {
    if !fk then (DirectWrite(s, TABLE, Applied(rows, a), true), a.takes)
    else
      WriteKeeps(s, TABLE, [], true);
      SqlInsert(DirectWrite(s, TABLE, [], true), rows, a)
  }

  /** A transaction for the chunks of a foreign-key table, unless one is open. */
  function ChunksBegun(b: Bulk, a: Answer): Bulk
    requires Valid(b.session)
  {
    if b.session.open then b
    else
      var s := Begun(b.session, ReadCommitted, a.settles, a.begins);
      b.(session := s, ownsTx := b.ownsTx || s.open)
  }

  lemma {:induction false} ChunksKeep(b: Bulk, a: Answer)
    requires Valid(b.session)
    ensures Valid(ChunksBegun(b, a).session)
  {
    BeginKeeps(b.session, ReadCommitted, a.settles, a.begins);
  }

  function RowsFlushed(b: Bulk, a: Answer): (Bulk, bool)
    requires Valid(b.session)
  {
    var (s, ok) := InsertBuffer(b.session, b.fk, b.buffer, a);
    (b.(session := s, buffer := []), ok)
  }

  /** `flush_bulk_buffer`: a chunk of a foreign-key table's rows opens the
      transaction its chunks share. */
  function Flush(b: Bulk, partial: bool, a: Answer): (Bulk, bool)
    requires Valid(b.session)
  {
    if b.buffer == [] then (b, true)
    else if !partial || !b.fk then RowsFlushed(b, a)
    else
      ChunksKeep(b, a);
      var c := ChunksBegun(b, a);
      if c.session.open then RowsFlushed(c, a) else (c.(buffer := []), false)
  }

  lemma {:induction false} SqlInsertKeeps(s: State, rows: seq<int>, a: Answer)
    requires Valid(s)
    ensures Valid(SqlInsert(s, rows, a).0)
  {
    if rows != [] {
      if s.open {
        SqlKeeps(s, TABLE, Applied(rows, a));
      } else if |rows| == 1 {
        SqlKeeps(s, TABLE, if a.takes then rows else []);
      } else {
        BeginKeeps(s, s.ownLevel, a.settles, a.begins);
        var begun := Begun(s, s.ownLevel, a.settles, a.begins);
        if begun.open {
          SqlFinishedKeeps(begun, rows, a);
        }
      }
    }
  }

  lemma {:induction false} InsertKeeps(s: State, fk: bool, rows: seq<int>, a: Answer)
    requires Valid(s)
    ensures Valid(InsertBuffer(s, fk, rows, a).0)
  {
    if !fk {
      WriteKeeps(s, TABLE, Applied(rows, a), true);
    } else {
      WriteKeeps(s, TABLE, [], true);
      SqlInsertKeeps(DirectWrite(s, TABLE, [], true), rows, a);
    }
  }

  lemma {:induction false} FlushKeeps(b: Bulk, partial: bool, a: Answer)
    requires Valid(b.session)
    ensures Valid(Flush(b, partial, a).0.session)
  {
    ChunksKeep(b, a);
    if partial && b.fk {
      InsertKeeps(ChunksBegun(b, a).session, b.fk, b.buffer, a);
    } else {
      InsertKeeps(b.session, b.fk, b.buffer, a);
    }
  }

  /** `write_row`: None is a row the buffer refuses. The row that fills a chunk
      flushes it, and a failed flush rolls back a transaction of the handler's. */
  function WriteRow(b: Bulk, row: Option<int>, chunk: nat, a: Answer): (Bulk, bool)
    requires Valid(b.session)
  {
    if row.None? then (b, false)
    else
      var added := b.(buffer := b.buffer + [row.value]);
      if |added.buffer| < chunk then (added, true)
      else
        FlushKeeps(added, true, a);
        var (flushed, ok) := Flush(added, true, a);
        if !ok && flushed.ownsTx then (Abandoned(flushed), false) else (flushed, ok)
  }

  /** The handler's transaction is rolled back, if it is still there. */
  function Abandoned(b: Bulk): Bulk
    requires Valid(b.session)
  {
    b.(session := if b.session.open then Finish(b.session, false) else b.session, ownsTx := false)
  }

  lemma {:induction false} RowKeeps(b: Bulk, row: Option<int>, chunk: nat, a: Answer)
    requires Valid(b.session)
    ensures Valid(WriteRow(b, row, chunk, a).0.session)
  {
    if row.Some? {
      var added := b.(buffer := b.buffer + [row.value]);
      FlushKeeps(added, true, a);
      FinishKeeps(Flush(added, true, a).0.session, false);
    }
  }

  /** The rows from `k` on, up to the first that fails. */
  function WriteRows(b: Bulk, rows: seq<Option<int>>, k: nat, chunk: nat, answers: nat -> Answer): (Bulk, bool)
    requires Valid(b.session) && k <= |rows|
    decreases |rows| - k
  {
    if k == |rows| then (b, true)
    else
      RowKeeps(b, rows[k], chunk, answers(k));
      var (next, ok) := WriteRow(b, rows[k], chunk, answers(k));
      if ok then WriteRows(next, rows, k + 1, chunk, answers) else (next, false)
  }

  /** The engine commits a transaction that wrote nothing. */
  function CommitAnswer(s: State, a: Answer): bool {
    Pending(s) == [] || a.commits
  }

  predicate CommitCallbackFails(s: State, statementSucceeds: bool, succeeds: bool) {
    EndFails(s, statementSucceeds) || (s.open && !succeeds)
  }

  /** The whole statement: its rows, `end_bulk_insert` (which runs after a failed
      row too) and the callback; true when it succeeds. */
  function Statement(s: State, fk: bool, rows: seq<Option<int>>, chunk: nat, answers: nat -> Answer): (State, bool)
    requires Valid(s)
  {
    RowsKeep(Bulk(s, [], fk, false), rows, 0, chunk, answers);
    var (written, ok) := WriteRows(Bulk(s, [], fk, false), rows, 0, chunk, answers);
    FlushKeeps(written, false, answers(|rows|));
    var (ended, flushed) := Flush(written, false, answers(|rows|));
    var t := ended.session;
    if ok && flushed then
      var commits := CommitAnswer(t, answers(|rows| + 1));
      (CommitCallback(t, true, commits, commits), !CommitCallbackFails(t, commits, commits))
    else (RollbackCallback(t, true), false)
  }

  lemma {:induction false} RowsKeep(b: Bulk, rows: seq<Option<int>>, k: nat, chunk: nat, answers: nat -> Answer)
    requires Valid(b.session) && k <= |rows|
    ensures Valid(WriteRows(b, rows, k, chunk, answers).0.session)
    decreases |rows| - k
  {
    if k < |rows| {
      RowKeeps(b, rows[k], chunk, answers(k));
      var (next, ok) := WriteRow(b, rows[k], chunk, answers(k));
      if ok {
        RowsKeep(next, rows, k + 1, chunk, answers);
      }
    }
  }

  // ---------------------------------------------------------------- all or nothing

  function OriginOf(fk: bool): Origin {
    if fk then Sql else Direct
  }

  /** Outside a transaction, with `ids` written by the statement so far. */
  ghost predicate Idle(s: State, committed: seq<Write>, pending: seq<Write>) {
    Valid(s) && !s.open && s.store.committed == committed && Pending(s) == pending
  }

  /** In a transaction of the handler's. */
  ghost predicate InTx(s: State, committed: seq<Write>, pending: seq<Write>) {
    Valid(s) && s.open && s.store.committed == committed && Pending(s) == pending
  }

  /** Nothing of the statement is committed while its rows are written: the
      flushed ones are pending in the statement's transaction, or for a
      foreign-key table in the handler's once a chunk has opened it. */
  ghost predicate Underway(b: Bulk, committed: seq<Write>, flushed: seq<int>) {
    var pending := Writes(TABLE, OriginOf(b.fk), flushed);
    if b.fk && flushed != [] then InTx(b.session, committed, pending) && b.ownsTx
    else Idle(b.session, committed, pending) && !b.ownsTx
  }

  lemma {:induction false} HandleIsQuiet(s: State)
    requires Valid(s)
    ensures var t := DirectWrite(s, TABLE, [], true);
      && Valid(t) && t.open == s.open && Pending(t) == Pending(s) && t.store.committed == s.store.committed
  {
    WriteKeeps(s, TABLE, [], true);
    var marked := Marked(s);
    MarkKeeps(s);
    HandleKeeps(marked, TABLE, false, true);
    MarkStays(marked, TABLE, true);
    WithTxKeeps(marked);
    assert Writes(TABLE, Direct, []) == [];
    assert Pending(s) + [] == Pending(s);
  }

  lemma {:induction false} DirectAdds(s: State, ids: seq<int>)
    requires Valid(s)
    ensures var t := DirectWrite(s, TABLE, ids, true);
      && Valid(t) && t.open == s.open && t.store.committed == s.store.committed
      && Pending(t) == Pending(s) + Writes(TABLE, Direct, ids)
  {
    WriteKeeps(s, TABLE, ids, true);
    var marked := Marked(s);
    MarkKeeps(s);
    HandleKeeps(marked, TABLE, false, true);
    MarkStays(marked, TABLE, true);
    WithTxKeeps(marked);
  }

  lemma {:induction false} BegunIsClean(s: State, level: Level, settles: bool, begins: bool)
    requires Valid(s) && !s.open && Pending(s) == []
    ensures var t := Begun(s, level, settles, begins);
      Valid(t) && t.store.committed == s.store.committed && Pending(t) == []
  {
    BeginKeeps(s, level, settles, begins);
    assert s.store.committed + [] == s.store.committed;
  }

  // the flushes

  lemma {:induction false} WritesConcat(origin: Origin, a: seq<int>, b: seq<int>)
    ensures Writes(TABLE, origin, a) + Writes(TABLE, origin, b) == Writes(TABLE, origin, a + b)
  {
  }

  /** Rows through SQL in an open transaction: pending in it. */
  lemma {:induction false} SqlInTx(s: State, rows: seq<int>, a: Answer)
    requires Valid(s) && s.open && rows != []
    ensures var (t, ok) := SqlInsert(s, rows, a);
      && ok == a.takes && Valid(t) && t.open && t.store.committed == s.store.committed
      && (ok ==> Pending(t) == Pending(s) + Writes(TABLE, Sql, rows))
  {
    SqlInsertKeeps(s, rows, a);
  }

  predicate FinalSucceeds(rows: nat, a: Answer) {
    a.takes && (rows == 1 || (a.settles && a.begins && a.commits))
  }

  /** Rows through SQL outside one: committed by themselves, or none. */
  lemma {:induction false} SqlAlone(s: State, rows: seq<int>, a: Answer)
    requires Valid(s) && !s.open && rows != [] && Pending(s) == [] && s.stmtTx.Some? && s.stmtWrote
    ensures var (t, ok) := SqlInsert(s, rows, a);
      && ok == FinalSucceeds(|rows|, a)
      && Idle(t, s.store.committed + if ok then Writes(TABLE, Sql, rows) else [], [])
  {
    SqlInsertKeeps(s, rows, a);
    BegunIsClean(s, s.ownLevel, a.settles, a.begins);
    assert Writes(TABLE, Sql, []) == [];
    if |rows| > 1 && a.settles && a.begins {
      var begun := Begun(s, s.ownLevel, a.settles, a.begins);
      SqlFinishedKeeps(begun, rows, a);
      var run := RunSql(begun, TABLE, Applied(rows, a));
      assert run.store.txs[run.installed.value].pending == [] + Writes(TABLE, Sql, Applied(rows, a));
    }
  }

  lemma {:induction false} HandleMarks(s: State)
    requires Valid(s) && !s.open
    ensures var t := DirectWrite(s, TABLE, [], true); t.stmtTx.Some? && t.stmtWrote
  {
    WriteKeeps(s, TABLE, [], true);
    var marked := Marked(s);
    MarkKeeps(s);
    HandleKeeps(marked, TABLE, false, true);
    MarkStays(marked, TABLE, true);
  }

  lemma {:induction false} DirectFlush(b: Bulk, partial: bool, committed: seq<Write>, flushed: seq<int>, a: Answer)
    requires Underway(b, committed, flushed) && b.buffer != [] && !b.fk
    ensures var (c, ok) := Flush(b, partial, a);
      && ok == a.takes && c.buffer == [] && !c.fk && !c.ownsTx
      && Valid(c.session) && !c.session.open && c.session.store.committed == committed
      && (ok ==> Underway(c, committed, flushed + b.buffer))
  {
    DirectAdds(b.session, Applied(b.buffer, a));
    WritesConcat(Direct, flushed, b.buffer);
  }

  /** A foreign-key table's rows, when the handler has or opens a transaction. */
  lemma {:induction false} ChunkFlush(b: Bulk, partial: bool, committed: seq<Write>, flushed: seq<int>, a: Answer)
    requires Underway(b, committed, flushed) && b.buffer != [] && b.fk && (partial || flushed != [])
    ensures var (c, ok) := Flush(b, partial, a);
      && c.buffer == [] && c.fk
      && Valid(c.session) && c.session.store.committed == committed && (c.session.open ==> c.ownsTx)
      && (ok ==> Underway(c, committed, flushed + b.buffer))
  {
    FlushKeeps(b, partial, a);
    var s := b.session;
    if flushed == [] {
      BegunIsClean(s, ReadCommitted, a.settles, a.begins);
      BeginKeeps(s, ReadCommitted, a.settles, a.begins);
      s := Begun(s, ReadCommitted, a.settles, a.begins);
    }
    if s.open {
      HandleIsQuiet(s);
      SqlInTx(DirectWrite(s, TABLE, [], true), b.buffer, a);
      WritesConcat(Sql, flushed, b.buffer);
      assert [] + Writes(TABLE, Sql, b.buffer) == Writes(TABLE, Sql, b.buffer);
      assert flushed == [] ==> flushed + b.buffer == b.buffer;
    }
  }

  /** A foreign-key table's only flush commits by itself. */
  lemma {:induction false} OnlyFlush(b: Bulk, committed: seq<Write>, a: Answer)
    requires Underway(b, committed, []) && b.buffer != [] && b.fk
    ensures var (c, ok) := Flush(b, false, a);
      && ok == FinalSucceeds(|b.buffer|, a)
      && Idle(c.session, committed + if ok then Writes(TABLE, Sql, b.buffer) else [], [])
  {
    assert Writes(TABLE, Sql, []) == [];
    HandleIsQuiet(b.session);
    HandleMarks(b.session);
    SqlAlone(DirectWrite(b.session, TABLE, [], true), b.buffer, a);
  }

  // the rows

  function Ids(rows: seq<Option<int>>): seq<int> {
    if rows == [] || rows[0].None? then [] else [rows[0].value] + Ids(rows[1..])
  }

  /** How many rows the buffer takes before it refuses one. */
  function Accepted(rows: seq<Option<int>>): (n: nat)
    ensures n <= |rows| && |Ids(rows)| == n
    ensures n < |rows| ==> rows[n].None?
  {
    if rows == [] || rows[0].None? then 0 else 1 + Accepted(rows[1..])
  }

  /** What is left after the rows: buffered and flushed make up those taken, and
      no chunk was flushed exactly when there were fewer than one. */
  ghost predicate Halfway(b: Bulk, committed: seq<Write>, flushed: seq<int>, ids: seq<int>, chunk: nat) {
    Underway(b, committed, flushed) && flushed + b.buffer == ids && |b.buffer| < chunk && (flushed == [] <==> |ids| < chunk)
  }

  /** A flush failed: its transaction is rolled back or will be. */
  ghost predicate Failed(b: Bulk, committed: seq<Write>) {
    Valid(b.session) && !b.session.open && b.session.store.committed == committed && b.buffer == []
  }

  lemma {:induction false} RowUnderway(b: Bulk, row: Option<int>, chunk: nat, a: Answer, committed: seq<Write>,
                                       flushed: seq<int>, ids: seq<int>)
    returns (after: seq<int>)
    requires chunk > 0 && Halfway(b, committed, flushed, ids, chunk) && row.Some?
    ensures var (c, ok) := WriteRow(b, row, chunk, a);
      && c.fk == b.fk && Valid(c.session)
      && (ok ==> Halfway(c, committed, after, ids + [row.value], chunk))
      && (!ok ==> Failed(c, committed) && |ids| + 1 >= chunk)
  {
    var added := b.(buffer := b.buffer + [row.value]);
    RowKeeps(b, row, chunk, a);
    if |added.buffer| < chunk {
      after := flushed;
      assert flushed + added.buffer == ids + [row.value];
    } else {
      after := flushed + added.buffer;
      assert after == ids + [row.value] && after + [] == after;
      if b.fk {
        ChunkFlush(added, true, committed, flushed, a);
        FinishedIsIdle(Flush(added, true, a).0.session, committed);
      } else {
        DirectFlush(added, true, committed, flushed, a);
      }
    }
  }

  lemma {:induction false} FinishedIsIdle(s: State, committed: seq<Write>)
    requires Valid(s) && s.store.committed == committed
    ensures s.open ==> Valid(Finish(s, false)) && !Finish(s, false).open && Finish(s, false).store.committed == committed
  {
    FinishKeeps(s, false);
  }

  lemma {:induction false} RowsUnderway(b: Bulk, rows: seq<Option<int>>, k: nat, chunk: nat, answers: nat -> Answer,
                                        committed: seq<Write>, flushed: seq<int>, ids: seq<int>)
    returns (after: seq<int>)
    requires chunk > 0 && k <= |rows| && Halfway(b, committed, flushed, ids, chunk)
    ensures var (c, ok) := WriteRows(b, rows, k, chunk, answers);
      var all := ids + Ids(rows[k..]);
      && c.fk == b.fk
      && (ok ==> Accepted(rows[k..]) == |rows| - k && Halfway(c, committed, after, all, chunk))
      && (!ok ==>
            || (Failed(c, committed) && |ids| + Accepted(rows[k..]) >= chunk)
            || (Halfway(c, committed, after, all, chunk) && Accepted(rows[k..]) < |rows| - k))
    decreases |rows| - k
  {
    after := flushed;
    IdsStep(rows, k, ids);
    if k < |rows| && rows[k].Some? {
      var middle := RowUnderway(b, rows[k], chunk, answers(k), committed, flushed, ids);
      var (next, ok) := WriteRow(b, rows[k], chunk, answers(k));
      if ok {
        after := RowsUnderway(next, rows, k + 1, chunk, answers, committed, middle, ids + [rows[k].value]);
      }
    }
  }

  lemma {:induction false} IdsStep(rows: seq<Option<int>>, k: nat, ids: seq<int>)
    requires k <= |rows|
    ensures k < |rows| && rows[k].Some? ==>
              && ids + Ids(rows[k..]) == ids + [rows[k].value] + Ids(rows[k + 1..])
              && Accepted(rows[k..]) == 1 + Accepted(rows[k + 1..])
    ensures k == |rows| || rows[k].None? ==> ids + Ids(rows[k..]) == ids && Accepted(rows[k..]) == 0
  {
    if k < |rows| {
      assert rows[k..][0] == rows[k] && rows[k..][1..] == rows[k + 1..];
    }
    assert ids + [] == ids;
  }

  // the statement

  /** A row refused after others, before any chunk was flushed, on a foreign-key
      table: `end_bulk_insert` then flushes the rows before it on its own. */
  predicate Leaks(fk: bool, rows: seq<Option<int>>, chunk: nat, answers: nat -> Answer) {
    && fk
    && 0 < Accepted(rows) < |rows| && Accepted(rows) < chunk
    && FinalSucceeds(Accepted(rows), answers(|rows|))
  }

  lemma {:induction false} RolledBack(s: State)
    requires Valid(s)
    ensures var r := RollbackCallback(s, true);
      Valid(r) && Live(r).None? && r.store.committed == s.store.committed
  {
    CallbacksSettle(s, true, true, true);
  }

  lemma {:induction false} CommittedAll(s: State, commits: bool)
    requires Valid(s) && (Pending(s) == [] ==> commits)
    ensures var c := CommitCallback(s, true, commits, commits);
      && Valid(c) && Live(c).None?
      && c.store.committed == s.store.committed + (if commits then Pending(s) else [])
      && (CommitCallbackFails(s, commits, commits) ==> !commits)
      && (!commits ==> CommitCallbackFails(s, commits, commits))
  {
    CallbacksSettle(s, true, commits, commits);
    assert s.store.committed + [] == s.store.committed;
  }

  /** An autocommit bulk INSERT, whatever its rows, chunks and failures: on
      success the committed table has all its rows, and on failure it is as it
      was, unless a refused row leaks those before it. */
  lemma {:induction false} AllOrNothing(s: State, fk: bool, rows: seq<Option<int>>, chunk: nat, answers: nat -> Answer)
    requires Valid(s) && !s.open && Pending(s) == [] && chunk > 0
    ensures var (t, ok) := Statement(s, fk, rows, chunk, answers);
      var origin := OriginOf(fk);
      && Valid(t) && Live(t).None?
      && (ok ==> Accepted(rows) == |rows| &&
                 t.store.committed == s.store.committed + Writes(TABLE, origin, Ids(rows)))
      && (!ok && Leaks(fk, rows, chunk, answers) ==>
            t.store.committed == s.store.committed + Writes(TABLE, Sql, Ids(rows)) && Ids(rows) != [])
      && (!ok && !Leaks(fk, rows, chunk, answers) ==> t.store.committed == s.store.committed)
      && (Leaks(fk, rows, chunk, answers) ==> !ok)
  {
    var b := Bulk(s, [], fk, false);
    var committed := s.store.committed;
    var origin := OriginOf(fk);
    assert Writes(TABLE, origin, []) == [] && committed + [] == committed;
    assert rows[0..] == rows && [] + Ids(rows) == Ids(rows);
    RowsKeep(b, rows, 0, chunk, answers);
    var flushed := RowsUnderway(b, rows, 0, chunk, answers, committed, [], []);
    var (written, ok) := WriteRows(b, rows, 0, chunk, answers);
    var last := answers(|rows|);
    FlushKeeps(written, false, last);
    var (ended, done) := Flush(written, false, last);
    var t := ended.session;
    RolledBack(t);
    CommittedAll(t, CommitAnswer(t, answers(|rows| + 1)));
    if ok || !Failed(written, committed) || !(Accepted(rows) >= chunk) {
      EndOfRows(written, committed, flushed, Ids(rows), chunk, last);
    }
  }

  /** The final flush: it joins what is pending, or for a foreign-key table
      without a chunk commits by itself. */
  lemma {:induction false} EndOfRows(b: Bulk, committed: seq<Write>, flushed: seq<int>, ids: seq<int>, chunk: nat, a: Answer)
    requires Halfway(b, committed, flushed, ids, chunk)
    ensures var (c, ok) := Flush(b, false, a);
      var alone := b.fk && |ids| < chunk && ids != [];
      && Valid(c.session)
      && (alone ==> ok == FinalSucceeds(|ids|, a))
      && (alone ==> Idle(c.session, committed + if ok then Writes(TABLE, Sql, ids) else [], []))
      && (!alone ==> c.session.store.committed == committed)
      && (!alone && ok ==> Pending(c.session) == Writes(TABLE, OriginOf(b.fk), ids))
  {
    FlushKeeps(b, false, a);
    if b.buffer == [] {
      assert flushed + [] == flushed;
    } else if !b.fk {
      DirectFlush(b, false, committed, flushed, a);
    } else if flushed == [] {
      assert [] + b.buffer == b.buffer;
      OnlyFlush(b, committed, a);
    } else {
      ChunkFlush(b, false, committed, flushed, a);
    }
  }

  predicate Good(a: Answer) {
    a.takes && a.settles && a.begins && a.commits
  }

  lemma {:induction false} GoodInsert(s: State, rows: seq<int>, a: Answer)
    requires Valid(s) && Good(a)
    ensures SqlInsert(s, rows, a).1
  {
    if rows != [] && !s.open && |rows| > 1 {
      BeginKeeps(s, s.ownLevel, true, true);
    }
  }

  lemma {:induction false} GoodFlush(b: Bulk, partial: bool, a: Answer)
    requires Valid(b.session) && Good(a)
    ensures Flush(b, partial, a).1
  {
    ChunksKeep(b, a);
    var c := if partial && b.fk then ChunksBegun(b, a) else b;
    WriteKeeps(c.session, TABLE, [], true);
    GoodInsert(DirectWrite(c.session, TABLE, [], true), b.buffer, a);
  }

  lemma {:induction false} GoodRows(b: Bulk, rows: seq<Option<int>>, k: nat, chunk: nat, answers: nat -> Answer)
    requires Valid(b.session) && k <= |rows|
    requires forall j :: k <= j < |rows| ==> rows[j].Some?
    requires forall j :: Good(answers(j))
    ensures WriteRows(b, rows, k, chunk, answers).1
    decreases |rows| - k
  {
    if k < |rows| {
      GoodFlush(b.(buffer := b.buffer + [rows[k].value]), true, answers(k));
      RowKeeps(b, rows[k], chunk, answers(k));
      GoodRows(WriteRow(b, rows[k], chunk, answers(k)).0, rows, k + 1, chunk, answers);
    }
  }

  /** With no row refused and no answer of the engine a failure, the statement
      succeeds, in autocommit or inside a transaction. */
  lemma {:induction false} NothingElseFails(s: State, fk: bool, rows: seq<Option<int>>, chunk: nat, answers: nat -> Answer)
    requires Valid(s) && Accepted(rows) == |rows|
    requires forall k :: Good(answers(k))
    ensures Statement(s, fk, rows, chunk, answers).1
  {
    AcceptedAll(rows);
    var b := Bulk(s, [], fk, false);
    GoodRows(b, rows, 0, chunk, answers);
    RowsKeep(b, rows, 0, chunk, answers);
    GoodFlush(WriteRows(b, rows, 0, chunk, answers).0, false, answers(|rows|));
    assert Good(answers(|rows| + 1));
  }

  lemma {:induction false} AcceptedAll(rows: seq<Option<int>>)
    requires Accepted(rows) == |rows|
    ensures forall k :: 0 <= k < |rows| ==> rows[k].Some?
  {
    if rows != [] {
      AcceptedAll(rows[1..]);
      assert forall k :: 1 <= k < |rows| ==> rows[k] == rows[1..][k - 1];
    }
  }

  /** A statement that leaks: one good row, then one the buffer refuses, into a
      foreign-key table. The statement fails and its first row is committed. */
  lemma {:induction false} LeakExample(answers: nat -> Answer)
    requires answers(2).takes
    ensures var (t, ok) := Statement(Fresh(ReadCommitted), true, [Some(7), None], 50000, answers);
      !ok && t.store.committed == [Write(TABLE, Sql, 7)]
  {
    var rows := [Some(7), None];
    assert rows[1..] == [None] && Ids([None]) == [] && Accepted([None]) == 0;
    assert Ids(rows) == [7] + [] && [7] + [] == [7];
    AllOrNothing(Fresh(ReadCommitted), true, rows, 50000, answers);
    assert Fresh(ReadCommitted).store.committed + Writes(TABLE, Sql, [7]) == [Write(TABLE, Sql, 7)];
  }

  // ------------------------------------------------------------------- the handler

  /** The handler's bulk fields. `session` is the session's state after its last
      call. */
  class Handler {
    var session: State
    var buffer: seq<int>
    var bulkActive: bool
    var bulkFk: bool
    var bulkOwnsTx: bool

    constructor (initial: State)
      ensures session == initial && !bulkActive
    {
      session, buffer, bulkActive, bulkFk, bulkOwnsTx := initial, [], false, false, false;
    }

    function Now(): Bulk
      reads this
    {
      Bulk(session, buffer, bulkFk, bulkOwnsTx)
    }

    /** `start_bulk_insert`, for a statement that needs no row-by-row
        duplicates. */
    method StartBulkInsert(fk: bool)
      modifies this
      ensures bulkActive && Now() == Bulk(old(session), [], fk, false)
    {
      bulkOwnsTx := false;
      buffer := [];
      bulkFk := fk;
      bulkActive := true;
    }

    method BeginChunks(a: Answer) returns (ok: bool)
      requires Valid(session)
      modifies this`session, this`bulkOwnsTx
      ensures Valid(session) && ok == session.open
      ensures Now() == ChunksBegun(old(Now()), a)
    {
      ChunksKeep(Now(), a);
      if !session.open {
        session := Begun(session, ReadCommitted, a.settles, a.begins);
        bulkOwnsTx := bulkOwnsTx || session.open;
      }
      ok := session.open;
    }

    /** `stoolap_insert_buffer`, which empties the buffer whatever the outcome. */
    method InsertRows(a: Answer) returns (ok: bool)
      requires Valid(session)
      modifies this`session, this`buffer
      ensures Valid(session) && (Now(), ok) == RowsFlushed(old(Now()), a)
    {
      InsertKeeps(session, bulkFk, buffer, a);
      var done := InsertBuffer(session, bulkFk, buffer, a);
      session := done.0;
      buffer := [];
      return done.1;
    }

    method FlushBulkBuffer(partial: bool, a: Answer) returns (ok: bool)
      requires Valid(session)
      modifies this
      ensures bulkActive == old(bulkActive) && Valid(session)
      ensures var r := Flush(old(Now()), partial, a); Now() == r.0 && ok == r.1
    {
      if buffer == [] {
        return true;
      }
      if partial && bulkFk {
        ok := BeginChunks(a);
        if !ok {
          buffer := [];
          return;
        }
      }
      ok := InsertRows(a);
    }

    method WriteOne(row: Option<int>, chunk: nat, a: Answer) returns (ok: bool)
      requires Valid(session) && bulkActive
      modifies this
      ensures bulkActive && (Now(), ok) == WriteRow(old(Now()), row, chunk, a)
      ensures Valid(session)
    {
      if row.None? {
        return false;
      }
      buffer := buffer + [row.value];
      if |buffer| < chunk {
        return true;
      }
      ok := FlushBulkBuffer(true, a);
      if !ok && bulkOwnsTx {
        AbandonTx();
      }
    }

    method AbandonTx()
      requires Valid(session)
      modifies this`session, this`bulkOwnsTx
      ensures Valid(session) && Now() == Abandoned(old(Now()))
    {
      FinishKeeps(session, false);
      if session.open {
        session := Finish(session, false);
      }
      bulkOwnsTx := false;
    }

    method EndBulkInsert(a: Answer) returns (ok: bool)
      requires Valid(session) && bulkActive
      modifies this
      ensures !bulkActive && (Now(), ok) == Flush(old(Now()), false, a)
      ensures Valid(session)
    {
      bulkActive := false;
      ok := FlushBulkBuffer(false, a);
    }

    /** The statement as MariaDB drives it. */
    method Insert(fk: bool, rows: seq<Option<int>>, chunk: nat, answers: nat -> Answer) returns (ok: bool)
      requires Valid(session) && !session.open && Pending(session) == [] && chunk > 0
      modifies this
      ensures (session, ok) == Statement(old(session), fk, rows, chunk, answers)
      ensures Valid(session)
      ensures ok ==> session.store.committed == old(session).store.committed + Writes(TABLE, OriginOf(fk), Ids(rows))
      ensures !ok && !Leaks(fk, rows, chunk, answers) ==> session.store.committed == old(session).store.committed
    {
      AllOrNothing(session, fk, rows, chunk, answers);
      StartBulkInsert(fk);
      var k := 0;
      var written := true;
      while k < |rows| && written
        invariant k <= |rows| && bulkActive && Valid(session)
        invariant (if written then WriteRows(Now(), rows, k, chunk, answers) else (Now(), false)) ==
                  WriteRows(Bulk(old(session), [], fk, false), rows, 0, chunk, answers)
        decreases |rows| - k, written
      {
        written := WriteOne(rows[k], chunk, answers(k));
        k := if written then k + 1 else k;
      }
      var flushed := EndBulkInsert(answers(|rows|));
      if written && flushed {
        var commits := CommitAnswer(session, answers(|rows| + 1));
        ok := !CommitCallbackFails(session, commits, commits);
        session := CommitCallback(session, true, commits, commits);
      } else {
        ok := false;
        session := RollbackCallback(session, true);
      }
    }
  }

  // -------------------------------------------------------- sql_write::insert's loop

  /** How many rows the executor takes before it refuses one. */
  function Prefix(rows: seq<int>, accepts: nat -> bool, k: nat): (n: nat)
    requires k <= |rows|
    ensures k <= n <= |rows|
    decreases |rows| - k
  {
    if k == |rows| || !accepts(k) then k else Prefix(rows, accepts, k + 1)
  }

  function AnswerOf(rows: seq<int>, accepts: nat -> bool, settles: bool, begins: bool, commits: bool): Answer {
    var n := Prefix(rows, accepts, 0);
    Answer(n == |rows|, rows[..n], settles, begins, commits)
  }

  lemma {:induction false} RunTwice(s: State, a: seq<int>, b: seq<int>)
    requires Valid(s)
    ensures Valid(RunSql(s, TABLE, a)) && RunSql(RunSql(s, TABLE, a), TABLE, b) == RunSql(s, TABLE, a + b)
  {
    SqlKeeps(s, TABLE, a);
    WritesConcat(Sql, a, b);
    if s.open {
      var x := s.installed.value;
      var once := Wrote(s.store, x, Writes(TABLE, Sql, a));
      assert once.txs[x].pending + Writes(TABLE, Sql, b) == s.store.txs[x].pending + Writes(TABLE, Sql, a + b);
      assert Wrote(once, x, Writes(TABLE, Sql, b)).txs == Wrote(s.store, x, Writes(TABLE, Sql, a + b)).txs;
    } else {
      assert s.store.committed + Writes(TABLE, Sql, a) + Writes(TABLE, Sql, b) ==
             s.store.committed + Writes(TABLE, Sql, a + b);
    }
  }

  lemma {:induction false} RunNone(s: State)
    requires Valid(s)
    ensures RunSql(s, TABLE, []) == s
  {
    assert Writes(TABLE, Sql, []) == [];
    if s.open {
      var x := s.installed.value;
      assert s.store.txs[x].pending + [] == s.store.txs[x].pending;
      assert Wrote(s.store, x, []).txs == s.store.txs;
    } else {
      assert s.store.committed + [] == s.store.committed;
    }
  }

  /** Runs each row's INSERT up to the first the executor refuses. */
  method RunEach(session: Session, rows: seq<int>, accepts: nat -> bool) returns (total: nat)
    requires Valid(session.Now()) && session.open
    modifies session
    ensures Valid(session.Now()) && total == Prefix(rows, accepts, 0)
    ensures session.Now() == RunSql(old(session.Now()), TABLE, rows[..total])
  {
    total := 0;
    RunNone(session.Now());
    while total < |rows|
      invariant 0 <= total <= |rows| && Valid(session.Now()) && session.open
      invariant Prefix(rows, accepts, total) == Prefix(rows, accepts, 0)
      invariant session.Now() == RunSql(old(session.Now()), TABLE, rows[..total])
    {
      if !accepts(total) {
        return;
      }
      RunTwice(old(session.Now()), rows[..total], [rows[total]]);
      assert rows[..total] + [rows[total]] == rows[..total + 1];
      var _ := session.Run(TABLE, false, [rows[total]]);
      total := total + 1;
    }
  }

  /** `sql_write::insert`: None when a row, the begin or the commit fails. */
  method InsertThroughSql(session: Session, rows: seq<int>, accepts: nat -> bool, settles: bool, begins: bool,
                          commits: bool)
    returns (total: Option<nat>)
    requires Valid(session.Now())
    modifies session
    ensures var r := SqlInsert(old(session.Now()), rows, AnswerOf(rows, accepts, settles, begins, commits));
      Valid(session.Now()) && session.Now() == r.0 && total == if r.1 then Some(|rows|) else None
  {
    SqlInsertKeeps(session.Now(), rows, AnswerOf(rows, accepts, settles, begins, commits));
    assert rows[..|rows|] == rows;
    if rows == [] {
      return Some(0);
    }
    if session.open {
      var n := RunEach(session, rows, accepts);
      return if n == |rows| then Some(n) else None;
    }
    if |rows| == 1 {
      RunNone(session.Now());
      if !accepts(0) {
        return None;
      }
      assert rows == [rows[0]];
      var _ := session.Run(TABLE, false, rows);
      return Some(1);
    }
    total := InsertInOwnTx(session, rows, accepts, settles, begins, commits);
  }

  /** Several rows outside a transaction. */
  method InsertInOwnTx(session: Session, rows: seq<int>, accepts: nat -> bool, settles: bool, begins: bool,
                          commits: bool)
    returns (total: Option<nat>)
    requires Valid(session.Now()) && !session.open && |rows| > 1
    modifies session
    ensures var r := SqlInsert(old(session.Now()), rows, AnswerOf(rows, accepts, settles, begins, commits));
      Valid(session.Now()) && session.Now() == r.0 && total == if r.1 then Some(|rows|) else None
  {
    assert rows[..|rows|] == rows;
    var begun := session.Begin(session.ownLevel, settles, begins);
    if !begun {
      return None;
    }
    var n := RunEach(session, rows, accepts);
    if n < |rows| {
      var _ := session.Rollback();
      return None;
    }
    var done := session.Commit(commits);
    return if done then Some(n) else None;
  }
}
