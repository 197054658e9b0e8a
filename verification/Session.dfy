/** One plugin session (`session.rs`) over the engine's per-transaction pending
    writes, and the handlerton callbacks (`ha_stoolap.cc`) above it: where the
    storage transaction is, which handles direct access goes through, and what
    each call commits. */
module Session {
  import opened Values

  // --------------------------------------------------------------------- engine

  /** Whose write it is: a table handle's, this session's SQL or another
      session's. */
  datatype Origin = Direct | Sql | Foreign

  datatype Write = Write(table: string, origin: Origin, id: int)

  datatype Level = ReadCommitted | SnapshotIsolation

  /** A storage transaction: the committed writes it began over and its own. */
  datatype Tx = Tx(level: Level, base: seq<Write>, pending: seq<Write>)

  /** The committed writes in order, and the live transactions. */
  datatype Store = Store(committed: seq<Write>, txs: map<nat, Tx>, next: nat)

  function Started(st: Store, level: Level): Store {
    Store(st.committed, st.txs[st.next := Tx(level, st.committed, [])], st.next + 1)
  }

  /** A commit that fails leaves the transaction to be rolled back. */
  function Ended(st: Store, tx: nat, commit: bool): Store
    requires tx in st.txs
  {
    Store(if commit then st.committed + st.txs[tx].pending else st.committed, st.txs - {tx}, st.next)
  }

  function Wrote(st: Store, tx: nat, writes: seq<Write>): Store
    requires tx in st.txs
  {
    st.(txs := st.txs[tx := st.txs[tx].(pending := st.txs[tx].pending + writes)])
  }

  /** What a transaction sees: a snapshot keeps the state it began over. */
  function Visible(st: Store, tx: nat): seq<Write>
    requires tx in st.txs
  {
    (if st.txs[tx].level == SnapshotIsolation then st.txs[tx].base else st.committed) + st.txs[tx].pending
  }

  // -------------------------------------------------------------------- session

  /** A view sees what its transaction saw when it was captured. */
  datatype Handle = Handle(tx: nat, view: Option<seq<Write>>)

  type Handles = map<string, Handle>

  /** `level` is the open transaction's and `ownLevel` the executor's: that of a
      transaction whose begin names none. */
  datatype State = State(store: Store, installed: Option<nat>, open: bool, stmtTx: Option<nat>, stmtWrote: bool,
                         level: Level, ownLevel: Level, tables: Handles, writeTables: Handles, view: Option<seq<Write>>)

  function Fresh(ownLevel: Level): State {
    State(Store([], map[], 0), None, false, None, false, ReadCommitted, ownLevel, map[], map[], None)
  }

  /** The transaction direct access uses. */
  function Live(s: State): Option<nat> {
    if s.open then s.installed else s.stmtTx
  }

  /** `end_statement`: its commit takes effect when `succeeds`. */
  function StatementEnded(s: State, commit: bool, succeeds: bool): State
    requires s.stmtTx.Some? ==> s.stmtTx.value in s.store.txs
  {
    var cleared := s.(tables := map[], writeTables := map[], view := None);
    if s.stmtTx.None? then cleared
    else cleared.(stmtTx := None, stmtWrote := false,
                  store := Ended(s.store, s.stmtTx.value, commit && s.stmtWrote && succeeds))
  }

  /** Whether a statement end that commits reports a failure. */
  predicate EndFails(s: State, succeeds: bool) {
    s.stmtTx.Some? && s.stmtWrote && !succeeds
  }

  /** `begin`: the statement's own direct writes are committed first (`commits`),
      and only then does the engine begin (`begins`). */
  function Begun(s: State, level: Level, commits: bool, begins: bool): State
    requires s.stmtTx.Some? ==> s.stmtTx.value in s.store.txs
  {
    if s.open then s
    else
      var ended := StatementEnded(s, true, commits);
      if EndFails(s, commits) || !begins then ended
      else ended.(store := Started(ended.store, level), installed := Some(ended.store.next), level := level, open := true)
  }

  /** `take`: the view is left as it is. */
  function Taken(s: State): State {
    s.(open := false, tables := map[], writeTables := map[], installed := None)
  }

  function Finish(s: State, commit: bool): State
    requires s.installed.Some? ==> s.installed.value in s.store.txs
  {
    if s.installed.None? then Taken(s)
    else Taken(s).(store := Ended(s.store, s.installed.value, commit))
  }

  /** The transaction direct access needs, begun if there is none. */
  function WithTx(s: State): State {
    if s.open || s.stmtTx.Some? then s
    else s.(store := Started(s.store, s.ownLevel), stmtTx := Some(s.store.next))
  }

  /** The level direct access runs at. */
  function LiveLevel(s: State): Level {
    if s.open then s.level else s.ownLevel
  }

  predicate TakesView(s: State, read: bool) {
    read && LiveLevel(s) == ReadCommitted
  }

  /** The view, captured if there is none yet. */
  function Captured(s: State): State
    requires Live(s).Some? && Live(s).value in s.store.txs
  {
    if s.view.Some? then s else s.(view := Some(Visible(s.store, Live(s).value)))
  }

  /** The transaction and, for a read that needs one, the view. */
  function Readied(s: State, read: bool): State
    requires s.open ==> s.installed.Some? && s.installed.value in s.store.txs
    requires s.stmtTx.Some? ==> s.stmtTx.value in s.store.txs
  {
    var t := WithTx(s);
    if TakesView(t, read) then Captured(t) else t
  }

  function LiveHandle(s: State, read: bool): Handle
    requires Live(s).Some?
  {
    Handle(Live(s).value, if TakesView(s, read) then s.view else None)
  }

  function Cached(s: State, table: string, read: bool, handle: Handle): State {
    if read then s.(tables := s.tables[table := handle]) else s.(writeTables := s.writeTables[table := handle])
  }

  /** `with_handle`: `opens` is whether the engine has the table. */
  function HandleOpened(s: State, table: string, read: bool, opens: bool): State
    requires s.open ==> s.installed.Some? && s.installed.value in s.store.txs
    requires s.stmtTx.Some? ==> s.stmtTx.value in s.store.txs
  {
    if table in (if read then s.tables else s.writeTables) then s
    else
      var t := Readied(s, read);
      if opens then Cached(t, table, read, LiveHandle(t, read)) else t
  }

  /** `with_table`, and what it reads of the table. */
  function Read(s: State, table: string, opens: bool): State
    requires s.open ==> s.installed.Some? && s.installed.value in s.store.txs
    requires s.stmtTx.Some? ==> s.stmtTx.value in s.store.txs
  {
    if table in s.writeTables then s else HandleOpened(s, table, true, opens)
  }

  function Of(writes: seq<Write>, table: string): seq<Write> {
    if writes == [] then []
    else if writes[0].table == table then [writes[0]] + Of(writes[1..], table)
    else Of(writes[1..], table)
  }

  function SeenThrough(st: Store, h: Handle, table: string): seq<Write>
    requires h.view.None? ==> h.tx in st.txs
  {
    Of(if h.view.Some? then h.view.value else Visible(st, h.tx), table)
  }

  /** A statement's own transaction is marked as one to commit. */
  function Marked(s: State): State {
    if s.open then s else s.(stmtWrote := true)
  }

  /** `with_write_table`: what the closure writes, which is nothing where the
      write goes through SQL. */
  function DirectWrite(s: State, table: string, writes: seq<int>, opens: bool): State
    requires s.open ==> s.installed.Some? && s.installed.value in s.store.txs
    requires s.stmtTx.Some? ==> s.stmtTx.value in s.store.txs
  {
    var t := HandleOpened(Marked(s), table, false, opens);
    if table !in t.writeTables || t.writeTables[table].tx !in t.store.txs then t
    else t.(store := Wrote(t.store, t.writeTables[table].tx, Writes(table, Direct, writes)))
  }

  function Writes(table: string, origin: Origin, ids: seq<int>): (ws: seq<Write>)
    ensures |ws| == |ids| && forall k :: 0 <= k < |ids| ==> ws[k] == Write(table, origin, ids[k])
  {
    seq(|ids|, k requires 0 <= k < |ids| => Write(table, origin, ids[k]))
  }

  /** `run` and `run_plan`: in the open transaction; outside one a SELECT runs
      in the statement's own, and anything else commits by itself. */
  function RunSql(s: State, table: string, writes: seq<int>): State
    requires s.open ==> s.installed.Some? && s.installed.value in s.store.txs
  {
    var ws := Writes(table, Sql, writes);
    if s.open then s.(store := Wrote(s.store, s.installed.value, ws))
    else s.(store := s.store.(committed := s.store.committed + ws))
  }

  /** Every call, and another session's commits between calls. A SELECT writes
      nothing: `RunSql` with no rows. A transaction handle commits or rolls back
      only while one is open (`on_tx` in `ffi/transaction.rs`). */
  datatype Op =
    | OpBegin(level: Level, commits: bool, begins: bool)
    | OpCommit(succeeds: bool)
    | OpRollback
    | OpRead(table: string, opens: bool)
    | OpWrite(table: string, writes: seq<int>, opens: bool)
    | OpSql(table: string, writes: seq<int>)
    | OpEndStatement(commit: bool, succeeds: bool)
    | OpForeign(table: string, writes: seq<int>)

  /** The session's invariant: the executor holds a transaction exactly when one
      is open, an open one and the statement's own never coexist, every cached
      handle is the live one's, and a statement transaction with pending writes
      is marked as having written. */
  ghost predicate Valid(s: State) {
    && (s.installed.Some? <==> s.open)
    && (s.open ==> s.stmtTx.None?)
    && (forall x :: x in s.store.txs <==> Live(s) == Some(x))
    && (forall x :: x in s.store.txs ==> x < s.store.next)
    && (forall t :: t in s.tables ==> Live(s) == Some(s.tables[t].tx))
    && (forall t :: t in s.writeTables ==> Live(s) == Some(s.writeTables[t].tx) && s.writeTables[t].view.None?)
    && (forall t :: t in s.tables && s.tables[t].view.Some? ==> s.view == s.tables[t].view)
    && (s.stmtTx.Some? && s.store.txs[s.stmtTx.value].pending != [] ==> s.stmtWrote)
    && (forall t :: t in s.tables ==> (s.tables[t].view.None? <==> LiveLevel(s) == SnapshotIsolation))
    && (forall x :: x in s.store.txs ==> s.store.txs[x].level == LiveLevel(s))
  }

  function Step(s: State, op: Op): State
    requires Valid(s)
  {
    match op
    case OpBegin(level, commits, begins) => Begun(s, level, commits, begins)
    case OpCommit(succeeds) => if s.open then Finish(s, succeeds) else s
    case OpRollback => if s.open then Finish(s, false) else s
    case OpRead(table, opens) => Read(s, table, opens)
    case OpWrite(table, writes, opens) => DirectWrite(s, table, writes, opens)
    case OpSql(table, writes) => RunSql(s, table, writes)
    case OpEndStatement(commit, succeeds) => StatementEnded(s, commit, succeeds)
    case OpForeign(table, writes) =>
      s.(store := s.store.(committed := s.store.committed + Writes(table, Foreign, writes)))
  }

  // ------------------------------------------------------------------ the invariant

  lemma {:induction false} EndKeeps(s: State, commit: bool, succeeds: bool)
    requires Valid(s)
    ensures Valid(StatementEnded(s, commit, succeeds))
  {
  }

  lemma {:induction false} BeginKeeps(s: State, level: Level, commits: bool, begins: bool)
    requires Valid(s)
    ensures Valid(Begun(s, level, commits, begins))
  {
    EndKeeps(s, true, commits);
  }

  lemma {:induction false} FinishKeeps(s: State, commit: bool)
    requires Valid(s)
    ensures Valid(Finish(s, commit))
  {
  }

  lemma {:induction false} WithTxKeeps(s: State)
    requires Valid(s)
    ensures Valid(WithTx(s)) && Live(WithTx(s)).Some?
    ensures Live(s).Some? ==> WithTx(s) == s
    ensures Live(s).None? ==> WithTx(s).store.txs[Live(WithTx(s)).value].pending == []
  {
  }

  lemma {:induction false} CapturedKeeps(s: State)
    requires Valid(s) && Live(s).Some?
    ensures Valid(Captured(s)) && Captured(s).view.Some?
  {
  }

  lemma {:induction false} ReadiedKeeps(s: State, read: bool)
    requires Valid(s)
    ensures var t := Readied(s, read);
      Valid(t) && Live(t).Some? && (TakesView(t, read) ==> t.view.Some?) && t.open == s.open
  {
    WithTxKeeps(s);
    CapturedKeeps(WithTx(s));
  }

  lemma {:induction false} CachedKeeps(s: State, table: string, read: bool)
    requires Valid(s) && Live(s).Some?
    requires TakesView(s, read) ==> s.view.Some?
    ensures Valid(Cached(s, table, read, LiveHandle(s, read)))
  {
  }

  lemma {:induction false} HandleKeeps(s: State, table: string, read: bool, opens: bool)
    requires Valid(s)
    ensures Valid(HandleOpened(s, table, read, opens))
  {
    ReadiedKeeps(s, read);
    CachedKeeps(Readied(s, read), table, read);
  }

  lemma {:induction false} WriteKeeps(s: State, table: string, writes: seq<int>, opens: bool)
    requires Valid(s)
    ensures Valid(DirectWrite(s, table, writes, opens))
  {
    MarkKeeps(s);
    HandleKeeps(Marked(s), table, false, opens);
    MarkStays(Marked(s), table, opens);
  }

  lemma {:induction false} MarkKeeps(s: State)
    requires Valid(s)
    ensures Valid(Marked(s))
  {
  }

  lemma {:induction false} SqlKeeps(s: State, table: string, writes: seq<int>)
    requires Valid(s)
    ensures Valid(RunSql(s, table, writes)) && RunSql(s, table, writes).open == s.open
  {
  }

  lemma {:induction false} MarkStays(s: State, table: string, opens: bool)
    requires Valid(s)
    ensures HandleOpened(s, table, false, opens).stmtWrote == s.stmtWrote
    ensures HandleOpened(s, table, false, opens).open == s.open
    ensures opens ==> table in HandleOpened(s, table, false, opens).writeTables
  {
  }

  lemma {:induction false} StepKeeps(s: State, op: Op)
    requires Valid(s)
    ensures Valid(Step(s, op))
  {
    match op
    case OpBegin(level, commits, begins) => BeginKeeps(s, level, commits, begins);
    case OpCommit(succeeds) => FinishKeeps(s, succeeds);
    case OpRollback => FinishKeeps(s, false);
    case OpRead(table, opens) => HandleKeeps(s, table, true, opens);
    case OpWrite(table, writes, opens) => WriteKeeps(s, table, writes, opens);
    case OpSql(table, writes) => SqlKeeps(s, table, writes);
    case OpEndStatement(commit, succeeds) => EndKeeps(s, commit, succeeds);
    case OpForeign(_, _) =>
  }

  /** Every run of calls keeps the invariant. */
  function Run(s: State, ops: seq<Op>): (r: State)
    requires Valid(s)
    ensures Valid(r)
    decreases |ops|
  {
    if ops == [] then s
    else
      StepKeeps(s, ops[0]);
      Run(Step(s, ops[0]), ops[1..])
  }

  // ---------------------------------------------------------- reading own writes

  function Pending(s: State): seq<Write> {
    if Live(s).Some? && Live(s).value in s.store.txs then s.store.txs[Live(s).value].pending else []
  }

  /** Where a table has pending direct writes, the view is later than they are or
      the table has a write handle, which reads go through. */
  ghost predicate WritesAreSeen(s: State) {
    forall w :: w in Pending(s) && w.origin == Direct ==>
      w.table in s.writeTables || s.view.None? || w in s.view.value
  }

  lemma {:induction false} HandleKeepsSeen(s: State, table: string, read: bool, opens: bool)
    requires Valid(s) && WritesAreSeen(s)
    ensures WritesAreSeen(HandleOpened(s, table, read, opens))
  {
    WithTxKeeps(s);
  }

  lemma {:induction false} WriteKeepsSeen(s: State, table: string, writes: seq<int>, opens: bool)
    requires Valid(s) && WritesAreSeen(s)
    ensures WritesAreSeen(DirectWrite(s, table, writes, opens))
  {
    var marked := Marked(s);
    MarkKeeps(s);
    assert WritesAreSeen(marked);
    HandleKeeps(marked, table, false, opens);
    HandleKeepsSeen(marked, table, false, opens);
    assert forall w :: w in Writes(table, Direct, writes) ==> w.table == table;
  }

  lemma {:induction false} SeenKept(s: State, op: Op)
    requires Valid(s) && WritesAreSeen(s)
    ensures WritesAreSeen(Step(s, op))
  {
    match op
    case OpBegin(_, _, _) =>
    case OpCommit(succeeds) =>
    case OpRollback =>
    case OpRead(table, opens) => HandleKeepsSeen(s, table, true, opens);
    case OpWrite(table, writes, opens) => WriteKeepsSeen(s, table, writes, opens);
    case OpSql(table, writes) =>
      assert forall w :: w in Writes(table, Sql, writes) ==> w.origin == Sql;
    case OpEndStatement(commit, succeeds) =>
    case OpForeign(_, _) =>
  }

  lemma {:induction false} OfHolds(writes: seq<Write>, table: string)
    ensures forall w :: w in Of(writes, table) <==> w in writes && w.table == table
  {
    if writes != [] {
      OfHolds(writes[1..], table);
      assert writes == [writes[0]] + writes[1..];
    }
  }

  /** The handle a direct read goes through, if the table opens. */
  function ReadHandle(s: State, table: string): Option<Handle> {
    if table in s.writeTables then Some(s.writeTables[table])
    else if table in s.tables then Some(s.tables[table]) else None
  }

  /** After any run, a direct read of a table sees every direct write of the
      live transaction to it. */
  lemma {:induction false} ReadSeesWrites(ownLevel: Level, ops: seq<Op>, table: string)
    ensures var s := Run(Fresh(ownLevel), ops);
      var r := Read(s, table, true);
      && ReadHandle(r, table).Some?
      && (ReadHandle(r, table).value.view.None? ==> ReadHandle(r, table).value.tx in r.store.txs)
      && forall w :: w in Pending(s) && w.origin == Direct && w.table == table ==>
           w in SeenThrough(r.store, ReadHandle(r, table).value, table)
  {
    RunKeepsSeen(Fresh(ownLevel), ops);
    ReadSeesOwn(Run(Fresh(ownLevel), ops), table);
  }

  lemma {:induction false} ReadSeesOwn(s: State, table: string)
    requires Valid(s) && WritesAreSeen(s)
    ensures var r := Read(s, table, true);
      && ReadHandle(r, table).Some?
      && (ReadHandle(r, table).value.view.None? ==> ReadHandle(r, table).value.tx in r.store.txs)
      && forall w :: w in Pending(s) && w.origin == Direct && w.table == table ==>
           w in SeenThrough(r.store, ReadHandle(r, table).value, table)
  {
    var r := Read(s, table, true);
    HandleKeeps(s, table, true, true);
    HandleKeepsSeen(s, table, true, true);
    ReadCaches(s, table);
    HandleSees(r, table);
  }

  lemma {:induction false} ReadCaches(s: State, table: string)
    requires Valid(s)
    ensures var r := Read(s, table, true);
      ReadHandle(r, table).Some? && Pending(r) == Pending(s)
  {
    WithTxKeeps(s);
  }

  lemma {:induction false} HandleSees(s: State, table: string)
    requires Valid(s) && WritesAreSeen(s) && ReadHandle(s, table).Some?
    ensures ReadHandle(s, table).value.view.None? ==> ReadHandle(s, table).value.tx in s.store.txs
    ensures forall w :: w in Pending(s) && w.origin == Direct && w.table == table ==>
              w in SeenThrough(s.store, ReadHandle(s, table).value, table)
  {
    var h := ReadHandle(s, table).value;
    OfHolds(if h.view.Some? then h.view.value else Visible(s.store, h.tx), table);
  }

  lemma {:induction false} RunKeepsSeen(s: State, ops: seq<Op>)
    requires Valid(s) && WritesAreSeen(s)
    ensures WritesAreSeen(Run(s, ops))
    decreases |ops|
  {
    if ops != [] {
      StepKeeps(s, ops[0]);
      SeenKept(s, ops[0]);
      RunKeepsSeen(Step(s, ops[0]), ops[1..]);
    }
  }

  /** What a read through no write handle sees: the live transaction's snapshot,
      or else the statement's view, which the first such read takes of what is
      committed then; always with the transaction's own writes up to there. */
  function Sight(s: State): seq<Write>
    requires Valid(s)
  {
    if LiveLevel(s) == SnapshotIsolation then Began(s) + Pending(s)
    else if s.view.Some? then s.view.value
    else s.store.committed + Pending(s)
  }

  /** The committed writes the live transaction began over, or one begun now
      would. */
  function Began(s: State): seq<Write>
    requires Valid(s)
  {
    if Live(s).Some? then s.store.txs[Live(s).value].base else s.store.committed
  }

  /** What a read sees: through a table's write handle what is committed now, or
      was when a snapshot began, with the transaction's own writes; otherwise what
      the statement sees. It neither commits nor writes anything. */
  lemma {:induction false} WhatAReadSees(s: State, table: string)
    requires Valid(s)
    ensures var t := Read(s, table, true);
      && Valid(t) && t.store.committed == s.store.committed && Pending(t) == Pending(s) && t.open == s.open
      && ReadHandle(t, table).Some?
      && var h := ReadHandle(t, table).value;
      && (h.view.None? ==> h.tx in t.store.txs)
      && SeenThrough(t.store, h, table) ==
         Of(if table in s.writeTables && LiveLevel(s) == ReadCommitted then s.store.committed + Pending(s) else Sight(s),
            table)
      && (t.view.Some? && s.view.None? ==> t.view == Some(s.store.committed + Pending(s)))
  {
    HandleKeeps(s, table, true, true);
    WithTxKeeps(s);
    ReadCaches(s, table);
    if table in s.writeTables || table in s.tables {
      assert Read(s, table, true) == s;
    } else {
      FirstRead(s, table);
    }
  }

  lemma {:induction false} FirstRead(s: State, table: string)
    requires Valid(s) && table !in s.writeTables && table !in s.tables
    ensures var t := Read(s, table, true);
      && table in t.tables && t.store.committed == s.store.committed && t.open == s.open
      && var h := t.tables[table];
      && (h.view.None? ==> h.tx in t.store.txs)
      && (if h.view.Some? then h.view.value else Visible(t.store, h.tx)) == Sight(s)
      && (t.view.Some? && s.view.None? ==> t.view == Some(s.store.committed + Pending(s)))
  {
    WithTxKeeps(s);
    assert s.store.committed + [] == s.store.committed;
  }

  // --------------------------------------------------------------- one view of it

  predicate EndsView(op: Op) {
    op.OpEndStatement? || op.OpBegin?
  }

  /** Between two statement ends, everything read through a view is read from
      one state: the view is captured once. */
  lemma {:induction false} OneView(s: State, ops: seq<Op>)
    requires Valid(s) && s.view.Some?
    requires forall k :: 0 <= k < |ops| ==> !EndsView(ops[k])
    ensures Run(s, ops).view == s.view
    ensures forall t :: t in Run(s, ops).tables && Run(s, ops).tables[t].view.Some? ==>
              Run(s, ops).tables[t].view == s.view
    decreases |ops|
  {
    if ops != [] {
      StepKeeps(s, ops[0]);
      ViewKept(s, ops[0]);
      OneView(Step(s, ops[0]), ops[1..]);
    }
  }

  lemma {:induction false} ViewKept(s: State, op: Op)
    requires Valid(s) && s.view.Some? && !EndsView(op)
    ensures Step(s, op).view == s.view
  {
  }

  /** A view outlives the commit or rollback of its transaction: only a statement
      end or a begin drops it, so a read in between still sees the old state,
      where the executor's own level reads through views at all. */
  lemma {:induction false} ViewOutlivesCommit(s: State, commit: bool, table: string)
    requires Valid(s) && s.open && s.view.Some?
    ensures var r := Read(Finish(s, commit), table, true);
      table in r.tables && r.tables[table].view == if s.ownLevel == ReadCommitted then s.view else None
  {
  }

  // --------------------------------------------------------------- what commits

  function DirectOf(writes: seq<Write>): seq<Write> {
    if writes == [] then []
    else if writes[0].origin == Direct then [writes[0]] + DirectOf(writes[1..])
    else DirectOf(writes[1..])
  }

  lemma {:induction false} DirectOfConcat(a: seq<Write>, b: seq<Write>)
    ensures DirectOf(a + b) == DirectOf(a) + DirectOf(b)
  {
    if a == [] {
      assert a + b == b;
    } else {
      assert (a + b)[1..] == a[1..] + b;
      DirectOfConcat(a[1..], b);
    }
  }

  lemma {:induction false} NoneDirect(writes: seq<Write>)
    requires forall k :: 0 <= k < |writes| ==> writes[k].origin != Direct
    ensures DirectOf(writes) == []
  {
    if writes != [] {
      NoneDirect(writes[1..]);
    }
  }

  predicate Commits(op: Op) {
    (op.OpEndStatement? && op.commit) || op.OpBegin? || op.OpCommit?
  }

  /** Direct writes are committed only by a statement end that commits, a begin
      or a commit. */
  lemma {:induction false} OthersCommitNothingDirect(s: State, op: Op)
    requires Valid(s) && !Commits(op)
    ensures DirectOf(Step(s, op).store.committed) == DirectOf(s.store.committed)
  {
    match op
    case OpRead(table, opens) => HandleCommitsNothing(s, table, true, opens);
    case OpWrite(table, writes, opens) =>
      MarkKeeps(s);
      HandleCommitsNothing(Marked(s), table, false, opens);
    case OpSql(table, writes) =>
      DirectOfConcat(s.store.committed, Writes(table, Sql, writes));
      NoneDirect(Writes(table, Sql, writes));
    case OpForeign(table, writes) =>
      DirectOfConcat(s.store.committed, Writes(table, Foreign, writes));
      NoneDirect(Writes(table, Foreign, writes));
    case _ =>
  }

  lemma {:induction false} HandleCommitsNothing(s: State, table: string, read: bool, opens: bool)
    requires Valid(s)
    ensures HandleOpened(s, table, read, opens).store.committed == s.store.committed
  {
  }

  /** A statement end commits all the statement wrote directly, though it rolls
      back a transaction not marked as having written: that one wrote nothing. */
  lemma {:induction false} StatementEndCommitsAll(s: State, succeeds: bool)
    requires Valid(s) && s.stmtTx.Some?
    ensures StatementEnded(s, true, succeeds).store.committed ==
            s.store.committed + if succeeds then Pending(s) else []
    ensures StatementEnded(s, false, succeeds).store.committed == s.store.committed
  {
  }

  /** What every call commits and leaves pending, whatever handles, views and
      marks it goes through: writes are neither lost nor made twice. */
  lemma {:induction false} WhatACallDoes(s: State, op: Op)
    requires Valid(s)
    ensures var t := Step(s, op);
      var committed, pending := s.store.committed, Pending(s);
      match op
      case OpBegin(level, commits, begins) =>
        if s.open then t == s
        else t.store.committed == committed + (if commits then pending else []) && Pending(t) == [] && Unused(t) &&
             (t.open ==> begins && t.level == level && t.store.txs[t.installed.value] == Tx(level, t.store.committed, [])) &&
             (begins && (commits || !s.stmtWrote) ==> t.open)
      case OpCommit(succeeds) =>
        if !s.open then t == s
        else t.store.committed == committed + (if succeeds then pending else []) && Pending(t) == [] && Live(t).None?
      case OpRollback =>
        if !s.open then t == s else t.store.committed == committed && Pending(t) == [] && Live(t).None?
      case OpRead(_, _) => t.store.committed == committed && Pending(t) == pending && t.open == s.open
      case OpWrite(table, writes, opens) =>
        t.store.committed == committed && t.open == s.open &&
        Pending(t) == pending + (if opens || table in s.writeTables then Writes(table, Direct, writes) else [])
      case OpSql(table, writes) =>
        t.open == s.open &&
        if s.open then t.store.committed == committed && Pending(t) == pending + Writes(table, Sql, writes)
        else t.store.committed == committed + Writes(table, Sql, writes) && Pending(t) == pending
      case OpEndStatement(commit, succeeds) =>
        Unused(t) &&
        if s.open then t.store == s.store && Live(t) == Live(s)
        else t.store.committed == committed + (if commit && succeeds then pending else []) && Live(t).None?
      case OpForeign(table, writes) =>
        t.store.committed == committed + Writes(table, Foreign, writes) && Pending(t) == pending && t.open == s.open
  {
    StepKeeps(s, op);
    match op
    case OpBegin(level, commits, begins) =>
      if !s.open {
        BeginDoes(s, level, commits, begins);
      }
    case OpCommit(succeeds) =>
    case OpRollback =>
    case OpRead(table, opens) => HandleDoes(s, table, true, opens);
    case OpWrite(table, writes, opens) => WriteDoes(s, table, writes, opens);
    case OpSql(table, writes) =>
    case OpEndStatement(commit, succeeds) =>
    case OpForeign(table, writes) =>
  }

  /** No handle and no view is kept. */
  predicate Unused(s: State) {
    s.tables == map[] && s.writeTables == map[] && s.view.None?
  }

  lemma {:induction false} BeginDoes(s: State, level: Level, commits: bool, begins: bool)
    requires Valid(s) && !s.open
    ensures var t := Begun(s, level, commits, begins);
      && t.store.committed == s.store.committed + (if commits then Pending(s) else []) && Pending(t) == [] && Unused(t)
      && (t.open ==> begins && t.level == level && t.installed.Some? && t.installed.value in t.store.txs &&
                     t.store.txs[t.installed.value] == Tx(level, t.store.committed, []))
      && (begins && (commits || !s.stmtWrote) ==> t.open)
  {
    EndKeeps(s, true, commits);
    assert s.store.committed + [] == s.store.committed;
  }

  lemma {:induction false} HandleDoes(s: State, table: string, read: bool, opens: bool)
    requires Valid(s)
    ensures var t := HandleOpened(s, table, read, opens);
      && t.store.committed == s.store.committed && Pending(t) == Pending(s) && t.open == s.open
      && (!read ==> (table in t.writeTables <==> opens || table in s.writeTables))
  {
    WithTxKeeps(s);
    ReadiedKeeps(s, read);
  }

  lemma {:induction false} WriteDoes(s: State, table: string, writes: seq<int>, opens: bool)
    requires Valid(s)
    ensures var t := DirectWrite(s, table, writes, opens);
      && t.store.committed == s.store.committed && t.open == s.open
      && Pending(t) == Pending(s) + (if opens || table in s.writeTables then Writes(table, Direct, writes) else [])
  {
    MarkKeeps(s);
    HandleDoes(Marked(s), table, false, opens);
    HandleKeeps(Marked(s), table, false, opens);
    assert Pending(Marked(s)) == Pending(s);
  }

  /** Calls that roll nothing back: each commit succeeds, and each table opens. */
  predicate KeepsWrites(op: Op) {
    match op
    case OpBegin(_, commits, _) => commits
    case OpCommit(succeeds) => succeeds
    case OpRollback => false
    case OpWrite(_, _, opens) => opens
    case OpEndStatement(commit, succeeds) => commit && succeeds
    case _ => true
  }

  /** The direct writes asked for, in order. */
  function Asked(ops: seq<Op>): seq<Write> {
    if ops == [] then []
    else (if ops[0].OpWrite? then Writes(ops[0].table, Direct, ops[0].writes) else []) + Asked(ops[1..])
  }

  /** Over any such run, however it mixes transactions, statements, SQL and other
      sessions' commits, every direct write is committed or pending, once, in the
      order it was made. */
  lemma {:induction false} NoWriteIsLost(s: State, ops: seq<Op>)
    requires Valid(s) && forall k :: 0 <= k < |ops| ==> KeepsWrites(ops[k])
    ensures Made(Run(s, ops)) == Made(s) + Asked(ops)
    decreases |ops|
  {
    if ops == [] {
      Joined(Made(s), [], []);
    } else {
      var t, rest := FirstStep(s, ops);
      NoWriteIsLost(t, rest);
      Joined(Made(s), Asked(ops[..1]), Asked(rest));
    }
  }

  lemma {:induction false} Joined(a: seq<Write>, b: seq<Write>, c: seq<Write>)
    ensures a + [] == a && a + b + c == a + (b + c)
  {
  }

  lemma {:induction false} FirstStep(s: State, ops: seq<Op>) returns (t: State, rest: seq<Op>)
    requires Valid(s) && ops != [] && forall k :: 0 <= k < |ops| ==> KeepsWrites(ops[k])
    ensures rest == ops[1..] && forall k :: 0 <= k < |rest| ==> KeepsWrites(rest[k])
    ensures Valid(t) && Run(s, ops) == Run(t, rest) && Made(t) == Made(s) + Asked(ops[..1])
    ensures Asked(ops) == Asked(ops[..1]) + Asked(rest)
  {
    t, rest := Step(s, ops[0]), ops[1..];
    StepKeeps(s, ops[0]);
    AskedFirst(ops);
    StepLosesNothing(s, ops[0]);
  }

  lemma {:induction false} AskedFirst(ops: seq<Op>)
    requires ops != []
    ensures Asked(ops[..1]) == if ops[0].OpWrite? then Writes(ops[0].table, Direct, ops[0].writes) else []
    ensures Asked(ops) == Asked(ops[..1]) + Asked(ops[1..])
  {
    var one := ops[..1];
    assert one[0] == ops[0] && one[1..] == [];
  }

  /** The direct writes committed, then those pending. */
  function Made(s: State): seq<Write> {
    DirectOf(s.store.committed) + DirectOf(Pending(s))
  }

  lemma {:induction false} StepLosesNothing(s: State, op: Op)
    requires Valid(s) && KeepsWrites(op)
    ensures Made(Step(s, op)) == Made(s) + if op.OpWrite? then Writes(op.table, Direct, op.writes) else []
  {
    WhatACallDoes(s, op);
    var t := Step(s, op);
    var asked := if op.OpWrite? then Writes(op.table, Direct, op.writes) else [];
    var added := if op.OpWrite? then asked
                 else if op.OpSql? then Writes(op.table, Sql, op.writes)
                 else if op.OpForeign? then Writes(op.table, Foreign, op.writes) else [];
    assert s.store.committed + [] == s.store.committed && Pending(s) + [] == Pending(s);
    if op.OpWrite? {
      AllDirect(added);
    } else {
      NoneDirect(added);
    }
    assert DirectOf(added) == asked;
    Moved(s.store.committed, Pending(s), t.store.committed, Pending(t), added, asked);
  }

  /** Pending writes committed, or more of them on one side. */
  lemma {:induction false} Moved(c: seq<Write>, p: seq<Write>, c2: seq<Write>, p2: seq<Write>,
                                 added: seq<Write>, direct: seq<Write>)
    requires DirectOf(added) == direct
    requires || (c2 == c + p && p2 == [] && added == [])
             || (c2 == c && p2 == p + added)
             || (c2 == c + added && p2 == p && direct == [])
    ensures DirectOf(c2) + DirectOf(p2) == DirectOf(c) + DirectOf(p) + direct
  {
    DirectOfConcat(c, p);
    DirectOfConcat(p, added);
    DirectOfConcat(c, added);
  }

  lemma {:induction false} AllDirect(writes: seq<Write>)
    requires forall k :: 0 <= k < |writes| ==> writes[k].origin == Direct
    ensures DirectOf(writes) == writes
  {
    if writes != [] {
      AllDirect(writes[1..]);
    }
  }

  // ------------------------------------------------------------------- callbacks

  /** `stoolap_commit_cb`: `real` is a COMMIT or an autocommit statement's end.
      A statement commit that fails ends the callback. */
  function CommitCallback(s: State, ends: bool, statementSucceeds: bool, succeeds: bool): State
    requires Valid(s)
  {
    EndKeeps(s, true, statementSucceeds);
    var ended := StatementEnded(s, true, statementSucceeds);
    if EndFails(s, statementSucceeds) then ended
    else if ends && ended.open then Finish(ended, succeeds)
    else ended
  }

  function RollbackCallback(s: State, ends: bool): State
    requires Valid(s)
  {
    EndKeeps(s, false, true);
    var ended := StatementEnded(s, false, true);
    if ends && ended.open then Finish(ended, false) else ended
  }

  /** A commit takes all of it or, when the engine refuses it, none; a rollback
      none; and either leaves no transaction, handle or view behind. Inside an
      explicit transaction a statement's end keeps its writes pending. */
  lemma {:induction false} CallbacksSettle(s: State, ends: bool, statementSucceeds: bool, succeeds: bool)
    requires Valid(s)
    ensures var c := CommitCallback(s, ends, statementSucceeds, succeeds);
      && Valid(c) && c.view.None? && c.tables == map[] && c.writeTables == map[]
      && (s.stmtTx.Some? ==> c.store.committed == s.store.committed + if statementSucceeds then Pending(s) else [])
      && (ends && s.open ==> c.store.committed == s.store.committed + if succeeds then Pending(s) else [])
      && (ends || !s.open ==> Live(c).None? && c.store.txs == map[])
      && (!ends && s.open ==> c.store == s.store && Live(c) == Live(s))
    ensures var r := RollbackCallback(s, ends);
      && Valid(r) && r.view.None? && r.store.committed == s.store.committed
      && (ends || !s.open ==> Live(r).None? && r.store.txs == map[])
      && (!ends && s.open ==> r.store == s.store && Live(r) == Live(s))
  {
    EndKeeps(s, true, statementSucceeds);
    EndKeeps(s, false, true);
    FinishKeeps(StatementEnded(s, true, statementSucceeds), succeeds);
    FinishKeeps(StatementEnded(s, false, true), false);
    if s.stmtTx.Some? {
      StatementEndCommitsAll(s, statementSucceeds);
    }
  }

  // -------------------------------------------------------------------- the class

  /** The session's fields. `store` is the engine's; `slot` the executor's
      transaction, taken out and put back around direct access. */
  class Session {
    var store: Store
    var slot: Option<nat>
    var open: bool
    var stmtTx: Option<nat>
    var stmtWrote: bool
    var level: Level
    const ownLevel: Level
    var tables: Handles
    var writeTables: Handles
    var view: Option<seq<Write>>

    constructor (ownLevel: Level)
      ensures Now() == Fresh(ownLevel)
    {
      this.ownLevel := ownLevel;
      store, slot, open, stmtTx, stmtWrote := Store([], map[], 0), None, false, None, false;
      level, tables, writeTables, view := ReadCommitted, map[], map[], None;
    }

    function Now(): State
      reads this
    {
      State(store, slot, open, stmtTx, stmtWrote, level, ownLevel, tables, writeTables, view)
    }

    method EndStatement(commit: bool, succeeds: bool) returns (ok: bool)
      requires Valid(Now())
      modifies this
      ensures Valid(Now()) && Now() == StatementEnded(old(Now()), commit, succeeds)
      ensures ok == (old(stmtTx).None? || !commit || !old(stmtWrote) || succeeds)
    {
      EndKeeps(Now(), commit, succeeds);
      tables, writeTables, view := map[], map[], None;
      if stmtTx.None? {
        return true;
      }
      var tx := stmtTx.value;
      var wrote := stmtWrote;
      stmtTx, stmtWrote := None, false;
      if !commit || !wrote {
        store := Ended(store, tx, false);
        return true;
      }
      store := Ended(store, tx, succeeds);
      return succeeds;
    }

    method Begin(at: Level, commits: bool, begins: bool) returns (ok: bool)
      requires Valid(Now())
      modifies this
      ensures Valid(Now()) && Now() == Begun(old(Now()), at, commits, begins)
      ensures ok == (!old(open) && open)
    {
      BeginKeeps(Now(), at, commits, begins);
      if open {
        return false;
      }
      ok := EndStatement(true, commits);
      ok := ok && begins;
      if ok {
        slot := Some(store.next);
        store := Started(store, at);
        level := at;
        open := true;
      }
    }

    /** `take`: None when the executor holds no transaction. */
    method Take() returns (tx: Option<nat>)
      modifies this
      ensures Now() == Taken(old(Now())) && tx == old(slot)
    {
      open := false;
      tables, writeTables := map[], map[];
      tx := slot;
      slot := None;
    }

    method Commit(succeeds: bool) returns (ok: bool)
      requires Valid(Now())
      modifies this
      ensures Valid(Now()) && Now() == Finish(old(Now()), succeeds)
      ensures ok == (old(open) && succeeds)
    {
      FinishKeeps(Now(), succeeds);
      var tx := Take();
      if tx.None? {
        return false;
      }
      store := Ended(store, tx.value, succeeds);
      return succeeds;
    }

    method Rollback() returns (ok: bool)
      requires Valid(Now())
      modifies this
      ensures Valid(Now()) && Now() == Finish(old(Now()), false) && ok == old(open)
    {
      FinishKeeps(Now(), false);
      var tx := Take();
      if tx.None? {
        return false;
      }
      store := Ended(store, tx.value, false);
      return true;
    }

    /** `open_table`: through the statement's view, captured at its first use. */
    method OpenTable(tx: nat, withView: bool) returns (handle: Handle)
      requires tx in store.txs
      modifies this`view
      ensures view == (if withView && old(view).None? then Some(Visible(store, tx)) else old(view))
      ensures handle == Handle(tx, if withView then view else None)
    {
      if !withView {
        return Handle(tx, None);
      }
      if view.None? {
        view := Some(Visible(store, tx));
      }
      return Handle(tx, view);
    }

    /** A handle of the live transaction, the statement's own begun if there is
        none. */
    method OpenLive(read: bool) returns (handle: Handle)
      requires Valid(Now())
      modifies this
      ensures Valid(Now()) && Now() == Readied(old(Now()), read)
      ensures Live(Now()).Some? && handle == LiveHandle(Now(), read)
    {
      ReadiedKeeps(Now(), read);
      if open {
        var tx := slot;
        slot := None;
        handle := OpenTable(tx.value, read && level == ReadCommitted);
        slot := tx;
      } else {
        if stmtTx.None? {
          stmtTx := Some(store.next);
          store := Started(store, ownLevel);
        }
        handle := OpenTable(stmtTx.value, read && ownLevel == ReadCommitted);
      }
    }

    /** `with_handle`, up to the handle the closure runs on: None when the
        engine has no such table. */
    method WithHandle(table: string, read: bool, opens: bool) returns (handle: Option<Handle>)
      requires Valid(Now())
      modifies this
      ensures Valid(Now()) && Now() == HandleOpened(old(Now()), table, read, opens)
      ensures var cache := if read then tables else writeTables;
        if opens || table in old(if read then tables else writeTables) then table in cache && handle == Some(cache[table])
        else handle == None
    {
      HandleKeeps(Now(), table, read, opens);
      var cache := if read then tables else writeTables;
      if table in cache {
        return Some(cache[table]);
      }
      var onTable := OpenLive(read);
      if !opens {
        return None;
      }
      if read {
        tables := tables[table := onTable];
      } else {
        writeTables := writeTables[table := onTable];
      }
      return Some(onTable);
    }

    /** `with_table`, and what its closure may read of the table. */
    method WithTable(table: string, opens: bool) returns (seen: Option<seq<Write>>)
      requires Valid(Now())
      modifies this
      ensures Valid(Now()) && Now() == Read(old(Now()), table, opens)
      ensures seen.Some? ==>
                && ReadHandle(Now(), table).Some?
                && (ReadHandle(Now(), table).value.view.None? ==> ReadHandle(Now(), table).value.tx in store.txs)
                && seen.value == SeenThrough(store, ReadHandle(Now(), table).value, table)
    {
      if table in writeTables {
        return Some(SeenThrough(store, writeTables[table], table));
      }
      var handle := WithHandle(table, true, opens);
      if handle.None? {
        return None;
      }
      return Some(SeenThrough(store, handle.value, table));
    }

    /** `with_write_table`; `writes` is what the closure adds, nothing where the
        write goes through SQL. */
    method WithWriteTable(table: string, writes: seq<int>, opens: bool) returns (ok: bool)
      requires Valid(Now())
      modifies this
      ensures Valid(Now()) && Now() == DirectWrite(old(Now()), table, writes, opens)
    {
      WriteKeeps(Now(), table, writes, opens);
      MarkKeeps(Now());
      if !open {
        stmtWrote := true;
      }
      assert Now() == Marked(old(Now()));
      var handle := WithHandle(table, false, opens);
      if handle.None? {
        return false;
      }
      store := Wrote(store, handle.value.tx, Writes(table, Direct, writes));
      return true;
    }

    /** `run_in_stmt_tx`: the statement's transaction is lent to the executor for
        one SELECT, which sees what the transaction sees, and comes back. */
    method RunInStmtTx(table: string) returns (rows: seq<Write>)
      requires Valid(Now()) && stmtTx.Some?
      modifies this
      ensures Now() == old(Now())
      ensures rows == Of(Visible(store, old(stmtTx).value), table)
    {
      slot := stmtTx;
      stmtTx := None;
      rows := Of(Visible(store, slot.value), table);
      stmtTx := slot;
      slot := None;
    }

    /** `run`: `select` reads a table, anything else writes it. */
    method Run(table: string, select: bool, writes: seq<int>) returns (rows: seq<Write>)
      requires Valid(Now()) && (select ==> writes == [])
      modifies this
      ensures Valid(Now()) && Now() == RunSql(old(Now()), table, writes)
      ensures select ==> rows == Of(if Live(Now()).Some? then Visible(store, Live(Now()).value) else store.committed, table)
    {
      SqlKeeps(Now(), table, writes);
      rows := [];
      if open {
        store := Wrote(store, slot.value, Writes(table, Sql, writes));
        if select {
          rows := Of(Visible(store, slot.value), table);
        }
        return;
      }
      store := store.(committed := store.committed + Writes(table, Sql, writes));
      if select {
        assert Writes(table, Sql, writes) == [] && store.committed + [] == store.committed;
        if stmtTx.Some? {
          rows := RunInStmtTx(table);
        } else {
          rows := Of(store.committed, table);
        }
      }
    }
  }
}
