/** The paged ordered read (`read.rs`, Pager): a table read through one of
    its indexes, page by page, and from the page the index has no answer for by
    a sorted scan of the rest. */
module Pager {
  import opened Values
  import opened Sorting

  /** The session's view of the table as one page asks it. The index answers
      with a slice of one sequence, or not at all; the scan gives the rows the
      table has then. */
  datatype Source = Source(answers: bool, index: Rows, scan: Rows)

  /** MariaDB's order in the read's direction. */
  function ValueOrder(x: Value, y: Value, desc: bool): Order {
    Directed(CompareValues(x, y), desc)
  }

  function ValueOf(r: (int, Row), column: nat): Value { Get(r.1, column) }

  ghost predicate InOrder(rows: Rows, column: nat, desc: bool) {
    forall i, j :: 0 <= i < j < |rows| ==> ValueOrder(ValueOf(rows[i], column), ValueOf(rows[j], column), desc) != After
  }

  ghost predicate DistinctIds(rows: Rows) {
    forall i, j :: 0 <= i < j < |rows| ==> rows[i].0 != rows[j].0
  }

  datatype Last = Last(value: Value, ids: seq<int>)

  /** A row the read has not given: it sorts after the last one given, or as it
      does but under another id. */
  predicate StillToCome(r: (int, Row), last: Option<Last>, column: nat, desc: bool) {
    last.None? ||
    match ValueOrder(ValueOf(r, column), last.value.value, desc)
    case After => true
    case Same => r.0 !in last.value.ids
    case Before => false
  }

  function Rest(rows: Rows, last: Option<Last>, column: nat, desc: bool): Rows {
    if rows == [] then []
    else (if StillToCome(rows[0], last, column, desc) then [rows[0]] else []) + Rest(rows[1..], last, column, desc)
  }

  lemma {:induction false} RestStep(kept: Rows, all: Rows, i: nat, last: Option<Last>, column: nat, desc: bool)
    requires i < |all|
    ensures kept + Rest(all[i..], last, column, desc) ==
            (if StillToCome(all[i], last, column, desc) then kept + [all[i]] else kept) +
            Rest(all[i + 1..], last, column, desc)
  {
    assert all[i..][0] == all[i] && all[i..][1..] == all[i + 1..];
  }

  /** `last` after a row is given: its value, and every id given with it. */
  function NextLast(last: Option<Last>, r: (int, Row), column: nat): Last {
    if last.Some? && CompareValues(ValueOf(r, column), last.value.value) == Same
    then Last(last.value.value, last.value.ids + [r.0])
    else Last(ValueOf(r, column), [r.0])
  }

  function LastOf(given: Rows, column: nat): Option<Last> {
    if given == [] then None
    else Some(NextLast(LastOf(given[..|given| - 1], column), given[|given| - 1], column))
  }

  lemma {:induction false} OrderFacts(x: Value, y: Value, desc: bool)
    ensures ValueOrder(y, x, desc) == ValueOrder(x, y, desc).Reverse()
    ensures ValueOrder(x, y, desc) == Same <==> x == y
  {
    CompareAntisymmetric(x, y);
  }

  lemma {:induction false} OrderTransitive(x: Value, y: Value, z: Value, desc: bool)
    requires ValueOrder(x, y, desc) != After && ValueOrder(y, z, desc) != After
    ensures ValueOrder(x, z, desc) != After
    ensures x == z ==> x == y
  {
    CompareAntisymmetric(x, y);
    CompareAntisymmetric(y, z);
    CompareAntisymmetric(x, z);
    if desc {
      CompareTransitive(z, y, x);
    } else {
      CompareTransitive(x, y, z);
    }
  }

  /** Over rows given in order, `last` is the last one's value with the ids of
      all the rows given that share it. */
  lemma {:induction false} LastHolds(given: Rows, column: nat, desc: bool)
    requires InOrder(given, column, desc) && given != []
    ensures LastOf(given, column).value.value == ValueOf(given[|given| - 1], column)
    ensures forall id :: id in LastOf(given, column).value.ids <==>
                         exists i :: 0 <= i < |given| && given[i].0 == id &&
                                     ValueOf(given[i], column) == LastOf(given, column).value.value
  {
    var n := |given| - 1;
    var init, r := given[..n], given[n];
    var last := LastOf(given, column).value;
    if init == [] {
      assert LastOf(init, column) == None;
      assert last == Last(ValueOf(r, column), [r.0]);
      assert given[0].0 in last.ids;
    } else {
      LastHolds(init, column, desc);
      var before := LastOf(init, column).value;
      CompareAntisymmetric(ValueOf(r, column), before.value);
      if before.value == ValueOf(r, column) {
        forall id ensures id in last.ids <==> id in before.ids || id == r.0 {}
        forall id | id in before.ids
          ensures exists i :: 0 <= i < |given| && given[i].0 == id && ValueOf(given[i], column) == last.value
        {
          var i :| 0 <= i < |init| && init[i].0 == id && ValueOf(init[i], column) == before.value;
          assert given[i] == init[i];
        }
        forall i | 0 <= i < |given| && ValueOf(given[i], column) == last.value ensures given[i].0 in last.ids {
          if i < n {
            assert init[i] == given[i];
          }
        }
      } else {
        // A new value: no earlier row shares it, the rows being in order
        forall i | 0 <= i < n ensures ValueOf(given[i], column) != last.value {
          assert init[|init| - 1] == given[n - 1];
          if i < n - 1 {
            OrderTransitive(ValueOf(given[i], column), ValueOf(given[n - 1], column), last.value, desc);
          }
        }
        assert given[n].0 in last.ids;
      }
    }
  }

  // ------------------------------------------------------- the state machine

  datatype State = State(column: nat, desc: bool, offset: nat, page: nat, rows: Rows, done: bool, last: Option<Last>)

  function Start(column: nat, desc: bool): State {
    State(column, desc, 0, 16, [], false, None)
  }

  function Min(x: nat, y: nat): nat { if x < y then x else y }

  /** collect_rows_ordered_by_index: `limit` rows from `offset`. */
  function Slice(index: Rows, limit: nat, offset: nat): Rows {
    index[Min(offset, |index|)..Min(offset + limit, |index|)]
  }

  function SortedScan(src: Source, column: nat, desc: bool): Rows {
    SortRows(src.scan, [column], desc)
  }

  /** The index's next page, or without an answer the rest of a sorted scan. */
  function PageOf(s: State, src: Source): Rows {
    if src.answers then Slice(src.index, s.page, s.offset)
    else Rest(SortedScan(src, s.column, s.desc), s.last, s.column, s.desc)
  }

  function FillState(s: State, src: Source): (State, bool) {
    if s.done then (s, false)
    else
      var rows := PageOf(s, src);
      (s.(done := !src.answers || |rows| < s.page, offset := s.offset + |rows|,
          page := Min(s.page * 4, 65536), rows := rows),
       rows != [])
  }

  function Give(s: State): (State, (int, Row))
    requires s.rows != []
  {
    (s.(rows := s.rows[1..], last := Some(NextLast(s.last, s.rows[0], s.column))), s.rows[0])
  }

  function NextState(s: State, src: Source): (State, Option<(int, Row)>) {
    if s.rows != [] then (Give(s).0, Some(Give(s).1))
    else
      var (t, more) := FillState(s, src);
      if more then (Give(t).0, Some(Give(t).1)) else (t, None)
  }

  predicate Exhausted(s: State) { s.done && s.rows == [] }

  /** The reader's state and the rows it was given, after as many calls as
      there are sources. */
  function RunFrom(s: State, srcs: seq<Source>): (State, Rows) {
    if srcs == [] then (s, [])
    else
      var (t, given) := RunFrom(s, srcs[..|srcs| - 1]);
      var (u, r) := NextState(t, srcs[|srcs| - 1]);
      (u, if r.Some? then given + [r.value] else given)
  }

  // ------------------------------------------------------------- what it gives

  lemma {:induction false} RestMembers(rows: Rows, last: Option<Last>, column: nat, desc: bool, x: (int, Row))
    ensures multiset(Rest(rows, last, column, desc))[x] ==
            if StillToCome(x, last, column, desc) then multiset(rows)[x] else 0
    ensures x in Rest(rows, last, column, desc) <==> x in rows && StillToCome(x, last, column, desc)
  {
    if rows != [] {
      assert rows == [rows[0]] + rows[1..];
      RestMembers(rows[1..], last, column, desc, x);
    }
  }

  lemma {:induction false} RestInOrder(rows: Rows, last: Option<Last>, column: nat, desc: bool)
    requires InOrder(rows, column, desc)
    ensures InOrder(Rest(rows, last, column, desc), column, desc)
  {
    if rows != [] {
      var tail := rows[1..];
      assert forall i :: 0 <= i < |tail| ==> tail[i] == rows[i + 1];
      RestInOrder(tail, last, column, desc);
      var rest := Rest(tail, last, column, desc);
      forall j | 0 <= j < |rest| ensures rest[j] in tail {
        RestMembers(tail, last, column, desc, rest[j]);
      }
      assert Rest(rows, last, column, desc) ==
             (if StillToCome(rows[0], last, column, desc) then [rows[0]] else []) + rest;
    }
  }

  lemma {:induction false} ScanInOrder(src: Source, column: nat, desc: bool)
    ensures InOrder(SortedScan(src, column, desc), column, desc)
  {
    var rows := SortedScan(src, column, desc);
    SortSorts(src.scan, [column], desc);
    forall i, j | 0 <= i < j < |rows|
      ensures ValueOrder(ValueOf(rows[i], column), ValueOf(rows[j], column), desc) != After
    {
      assert CompareBy(rows[i].1, rows[j].1, [column]) == CompareValues(ValueOf(rows[i], column), ValueOf(rows[j], column));
    }
  }

  /** What is left after a prefix of rows in order: exactly the rows that sort
      after the last given value, and the equal ones whose ids were not given
      with it. */
  lemma {:induction false} StillToComeMeans(given: Rows, column: nat, desc: bool, x: (int, Row))
    requires InOrder(given, column, desc)
    ensures StillToCome(x, LastOf(given, column), column, desc) <==>
            given == [] ||
            (var o := ValueOrder(ValueOf(x, column), ValueOf(given[|given| - 1], column), desc);
             o == After ||
             (o == Same && !exists i :: 0 <= i < |given| && given[i].0 == x.0 && ValueOf(given[i], column) == ValueOf(x, column)))
  {
    if given != [] {
      LastHolds(given, column, desc);
      OrderFacts(ValueOf(x, column), ValueOf(given[|given| - 1], column), desc);
    }
  }

  /** The rows of one sequence in order, from any point: those before it are
      done with, those after it are still to come. */
  lemma {:induction false} PrefixIsDone(s: Rows, k: nat, column: nat, desc: bool, j: nat)
    requires InOrder(s, column, desc) && DistinctIds(s) && k <= |s| && j < |s|
    ensures StillToCome(s[j], LastOf(s[..k], column), column, desc) <==> j >= k
  {
    var given := s[..k];
    assert InOrder(given, column, desc);
    StillToComeMeans(given, column, desc, s[j]);
    if k > 0 {
      var x, y := ValueOf(s[j], column), ValueOf(s[k - 1], column);
      OrderFacts(x, y, desc);
      if j < k {
        assert given[j].0 == s[j].0 && ValueOf(given[j], column) == x;
        assert j < k - 1 ==> ValueOrder(x, y, desc) != After;
      } else {
        assert ValueOrder(y, x, desc) != After;
        assert forall i :: 0 <= i < k ==> given[i].0 != s[j].0;
      }
    }
  }

  /** The rest of the scan has a row as often as the rest of the index. */
  lemma {:induction false} RestCount(s: Rows, k: nat, src: Source, column: nat, desc: bool, x: (int, Row))
    requires InOrder(s, column, desc) && DistinctIds(s) && k <= |s| && multiset(src.scan) == multiset(s)
    ensures multiset(Rest(SortedScan(src, column, desc), LastOf(s[..k], column), column, desc))[x] == multiset(s[k..])[x]
  {
    RestMembers(SortedScan(src, column, desc), LastOf(s[..k], column), column, desc, x);
    CountAfter(s, k, column, desc, x);
  }

  lemma {:induction false} SameRest(s: Rows, k: nat, src: Source, column: nat, desc: bool)
    requires InOrder(s, column, desc) && DistinctIds(s) && k <= |s| && multiset(src.scan) == multiset(s)
    ensures multiset(Rest(SortedScan(src, column, desc), LastOf(s[..k], column), column, desc)) == multiset(s[k..])
  {
    var rest := Rest(SortedScan(src, column, desc), LastOf(s[..k], column), column, desc);
    forall x ensures multiset(rest)[x] == multiset(s[k..])[x] {
      RestCount(s, k, src, column, desc, x);
    }
  }

  /** The table unchanged, the scan goes on with exactly the rows the index had
      not given, wherever it stopped answering. */
  lemma {:induction false} SwitchLosesNothing(s: Rows, k: nat, src: Source, column: nat, desc: bool)
    requires InOrder(s, column, desc) && DistinctIds(s) && k <= |s| && multiset(src.scan) == multiset(s)
    ensures multiset(s[..k] + Rest(SortedScan(src, column, desc), LastOf(s[..k], column), column, desc)) == multiset(s)
  {
    var rest := Rest(SortedScan(src, column, desc), LastOf(s[..k], column), column, desc);
    SameRest(s, k, src, column, desc);
    Replaced(s, k, rest);
  }

  lemma {:induction false} Replaced(s: Rows, k: nat, rest: Rows)
    requires k <= |s| && multiset(rest) == multiset(s[k..])
    ensures multiset(s[..k] + rest) == multiset(s)
  {
    assert s == s[..k] + s[k..];
  }

  /** The rows given before the switch and after it are in one order, whatever
      the table holds by then. */
  lemma {:induction false} SwitchKeepsOrder(given: Rows, src: Source, column: nat, desc: bool)
    requires InOrder(given, column, desc)
    ensures InOrder(given + Rest(SortedScan(src, column, desc), LastOf(given, column), column, desc), column, desc)
  {
    var k := |given|;
    var rest := Rest(SortedScan(src, column, desc), LastOf(given, column), column, desc);
    ScanInOrder(src, column, desc);
    RestInOrder(SortedScan(src, column, desc), LastOf(given, column), column, desc);
    forall i, j | 0 <= i < k && 0 <= j < |rest|
      ensures ValueOrder(ValueOf(given[i], column), ValueOf(rest[j], column), desc) != After
    {
      RestMembers(SortedScan(src, column, desc), LastOf(given, column), column, desc, rest[j]);
      StillToComeMeans(given, column, desc, rest[j]);
      OrderFacts(ValueOf(given[k - 1], column), ValueOf(rest[j], column), desc);
      if i < k - 1 {
        OrderTransitive(ValueOf(given[i], column), ValueOf(given[k - 1], column), ValueOf(rest[j], column), desc);
      }
    }
  }

  lemma {:induction false} CountAfter(s: Rows, k: nat, column: nat, desc: bool, x: (int, Row))
    requires InOrder(s, column, desc) && DistinctIds(s) && k <= |s|
    ensures multiset(s[k..])[x] ==
            if StillToCome(x, LastOf(s[..k], column), column, desc) then multiset(s)[x] else 0
  {
    assert s == s[..k] + s[k..];
    forall j: nat | j < |s| {
      PrefixIsDone(s, k, column, desc, j);
    }
    if StillToCome(x, LastOf(s[..k], column), column, desc) {
      assert x !in s[..k];
    } else {
      assert x !in s[k..];
    }
  }

  // ------------------------------------------------------------- every run

  /** A call looks at the table only with no row in hand and the end not seen. */
  predicate Looks(s: State) { s.rows == [] && !s.done }

  /** What call i finds the reader in. */
  function Before(column: nat, desc: bool, srcs: seq<Source>, i: nat): State
    requires i <= |srcs|
  {
    RunFrom(Start(column, desc), srcs[..i]).0
  }

  /** As often as a call looks at the index and it answers, it is one sequence.
      Nothing is asked of the table at the other calls. */
  ghost predicate OneIndex(column: nat, desc: bool, srcs: seq<Source>, index: Rows) {
    forall i :: 0 <= i < |srcs| && Looks(Before(column, desc, srcs, i)) && srcs[i].answers ==> srcs[i].index == index
  }

  /** The table a call looks at without an answer of the index. */
  ghost predicate SwitchesAt(column: nat, desc: bool, srcs: seq<Source>, i: nat) {
    i < |srcs| && Looks(Before(column, desc, srcs, i)) && !srcs[i].answers
  }

  /** Still on the index: the rows given and those in hand are its first ones. */
  ghost predicate OnIndex(s: State, given: Rows, index: Rows) {
    s.offset <= |index| && given + s.rows == index[..s.offset] && s.page > 0
    && (s.done ==> s.offset == |index|) && s.last == LastOf(given, s.column)
  }

  /** Past the switch after k rows. */
  ghost predicate OnScan(s: State, given: Rows, index: Rows, src: Source, k: nat) {
    k <= |index| && s.done && k <= |given| + |s.rows|
    && given + s.rows ==
       index[..k] + Rest(SortedScan(src, s.column, s.desc), LastOf(index[..k], s.column), s.column, s.desc)
  }

  lemma {:induction false} GiveKeeps(s: State, given: Rows, index: Rows, src: Source, k: Option<nat>)
    requires s.rows != []
    requires if k.None? then OnIndex(s, given, index) else OnScan(s, given, index, src, k.value)
    ensures var (t, r) := Give(s);
            if k.None? then OnIndex(t, given + [r], index) else OnScan(t, given + [r], index, src, k.value)
  {
    var (t, r) := Give(s);
    assert given + [r] + t.rows == given + s.rows;
    assert (given + [r])[..|given|] == given;
  }

  /** One page, from the index or the first without it. */
  lemma {:induction false} FillKeeps(s: State, given: Rows, index: Rows, now: Source)
    requires Looks(s) && OnIndex(s, given, index) && (now.answers ==> now.index == index)
    ensures var t := FillState(s, now).0;
            if now.answers then OnIndex(t, given, index) else OnScan(t, given, index, now, s.offset)
  {
    assert given + [] == given;
    if now.answers {
      var page := Slice(index, s.page, s.offset);
      assert index[..s.offset] + page == index[..s.offset + |page|];
    }
  }

  /** One call: on the index it stays there, or switches to a scan of the table
      it sees; past the switch nothing changes that. */
  lemma {:induction false} CallKeeps(s: State, given: Rows, index: Rows, now: Source, src: Source, k: Option<nat>)
    requires if k.None? then OnIndex(s, given, index) else OnScan(s, given, index, src, k.value)
    requires Looks(s) && now.answers ==> now.index == index
    ensures var (t, r) := NextState(s, now);
            var got := if r.Some? then given + [r.value] else given;
            if k.Some? then OnScan(t, got, index, src, k.value)
            else if Looks(s) && !now.answers then OnScan(t, got, index, now, s.offset)
            else OnIndex(t, got, index)
  {
    if Looks(s) {
      FillKeeps(s, given, index, now);
      if FillState(s, now).1 {
        GiveKeeps(FillState(s, now).0, given, index, now, if now.answers then None else Some(s.offset));
      }
    } else if s.rows != [] {
      GiveKeeps(s, given, index, src, k);
    }
  }

  lemma {:induction false} OneIndexBefore(column: nat, desc: bool, srcs: seq<Source>, index: Rows, n: nat)
    requires OneIndex(column, desc, srcs, index) && n <= |srcs|
    ensures OneIndex(column, desc, srcs[..n], index)
  {
    forall i | 0 <= i < n
      ensures Before(column, desc, srcs[..n], i) == Before(column, desc, srcs, i)
    {
      assert srcs[..n][..i] == srcs[..i];
    }
  }

  /** Every run of calls, however the pages fall and at whichever the index
      stops answering: the rows given, then those in hand, are a prefix of the
      index, or its first k rows and the rest of a sorted scan of the table as
      the one call that found no answer saw it. */
  lemma {:induction false} EveryRun(column: nat, desc: bool, srcs: seq<Source>, index: Rows)
    returns (at: Option<nat>, k: nat)
    requires OneIndex(column, desc, srcs, index)
    ensures var (s, given) := RunFrom(Start(column, desc), srcs);
            s.column == column && s.desc == desc &&
            if at.None? then OnIndex(s, given, index)
            else SwitchesAt(column, desc, srcs, at.value) && OnScan(s, given, index, srcs[at.value], k)
  {
    at, k := None, 0;
    if srcs != [] {
      var n := |srcs| - 1;
      OneIndexBefore(column, desc, srcs, index, n);
      at, k := EveryRun(column, desc, srcs[..n], index);
      var (s, given) := RunFrom(Start(column, desc), srcs[..n]);
      var now := srcs[n];
      assert at.Some? ==> srcs[..n][..at.value] == srcs[..at.value];
      assert Before(column, desc, srcs, n) == s;
      CallKeeps(s, given, index, now, if at.None? then now else srcs[at.value], if at.None? then None else Some(k));
      if Looks(s) && !now.answers {
        at, k := Some(n), s.offset;
      }
    }
  }

  /** What a finished read gave: the whole index, or its first k rows and the
      rest of the sorted scan. */
  lemma {:induction false} FinishedShape(column: nat, desc: bool, srcs: seq<Source>, index: Rows)
    returns (at: Option<nat>, k: nat)
    requires OneIndex(column, desc, srcs, index)
    requires Exhausted(RunFrom(Start(column, desc), srcs).0)
    ensures var given := RunFrom(Start(column, desc), srcs).1;
            if at.None? then given == index
            else SwitchesAt(column, desc, srcs, at.value) && k <= |index| &&
                 given == index[..k] +
                          Rest(SortedScan(srcs[at.value], column, desc), LastOf(index[..k], column), column, desc)
  {
    at, k := EveryRun(column, desc, srcs, index);
    var (s, given) := RunFrom(Start(column, desc), srcs);
    assert given + s.rows == given;
    assert index[..|index|] == index;
  }

  /** A finished read of an unchanged table gives every row once, in order. */
  lemma {:induction false} FinishedReadGivesEveryRowOnce(column: nat, desc: bool, srcs: seq<Source>, index: Rows)
    requires OneIndex(column, desc, srcs, index) && InOrder(index, column, desc) && DistinctIds(index)
    requires forall i: nat :: SwitchesAt(column, desc, srcs, i) ==> multiset(srcs[i].scan) == multiset(index)
    requires Exhausted(RunFrom(Start(column, desc), srcs).0)
    ensures var given := RunFrom(Start(column, desc), srcs).1;
            multiset(given) == multiset(index) && InOrder(given, column, desc)
  {
    var at, k := FinishedShape(column, desc, srcs, index);
    if at.Some? {
      SwitchLosesNothing(index, k, srcs[at.value], column, desc);
      PrefixInOrder(index, k, column, desc);
      SwitchKeepsOrder(index[..k], srcs[at.value], column, desc);
    }
  }

  lemma {:induction false} PrefixInOrder(rows: Rows, k: nat, column: nat, desc: bool)
    requires InOrder(rows, column, desc) && k <= |rows|
    ensures InOrder(rows[..k], column, desc)
  {
  }

  /** A finished read of a table that changed, however often: the rows the index
      gave, then exactly those that were still to come in the table as the call
      that switched saw it, in one order. */
  lemma {:induction false} FinishedReadOfAChangedTable(column: nat, desc: bool, srcs: seq<Source>, index: Rows)
    returns (at: Option<nat>, k: nat)
    requires OneIndex(column, desc, srcs, index) && InOrder(index, column, desc)
    requires Exhausted(RunFrom(Start(column, desc), srcs).0)
    ensures var given := RunFrom(Start(column, desc), srcs).1;
            InOrder(given, column, desc) &&
            if at.None? then given == index
            else SwitchesAt(column, desc, srcs, at.value) && k <= |given| && k <= |index| && given[..k] == index[..k] &&
                 RestOfTable(given[k..], LastOf(index[..k], column), srcs[at.value].scan, column, desc)
  {
    at, k := FinishedShape(column, desc, srcs, index);
    var given := RunFrom(Start(column, desc), srcs).1;
    if at.Some? {
      var src := srcs[at.value];
      PrefixInOrder(index, k, column, desc);
      SwitchKeepsOrder(index[..k], src, column, desc);
      ScanRest(src, LastOf(index[..k], column), column, desc);
      assert given[k..] == Rest(SortedScan(src, column, desc), LastOf(index[..k], column), column, desc);
    }
  }

  /** Each row of the table that is still to come, as often as the table has it,
      and no other. */
  ghost predicate RestOfTable(rest: Rows, last: Option<Last>, table: Rows, column: nat, desc: bool) {
    forall x :: multiset(rest)[x] == if StillToCome(x, last, column, desc) then multiset(table)[x] else 0
  }

  lemma {:induction false} ScanRest(src: Source, last: Option<Last>, column: nat, desc: bool)
    ensures RestOfTable(Rest(SortedScan(src, column, desc), last, column, desc), last, src.scan, column, desc)
  {
    forall x {
      RestMembers(SortedScan(src, column, desc), last, column, desc, x);
    }
  }

  /** `exhausted` tells the end exactly: it has no further row whatever the
      table does, and a read that gave none is exhausted. */
  lemma {:induction false} ExhaustedIsTheEnd(s: State, now: Source)
    requires s.page > 0
    ensures Exhausted(s) ==> NextState(s, now) == (s, None)
    ensures NextState(s, now).1 == None ==> Exhausted(NextState(s, now).0)
  {
  }

  /** A read that is not exhausted would give a row if the index had one more. */
  lemma {:induction false} MoreToGive(s: State) returns (src: Source)
    requires s.page > 0 && !Exhausted(s)
    ensures NextState(s, src).1.Some?
  {
    var index: Rows := seq(s.offset + 1, _ => (0, []));
    src := Source(true, index, []);
    assert |Slice(index, s.page, s.offset)| == 1;
  }

  // ------------------------------------------------------------- the cursor

  class PagedCursor {
    const column: nat
    const desc: bool
    var offset: nat
    var page: nat
    var rows: Rows
    var done: bool
    var last: Option<Last>

    constructor (column: nat, desc: bool)
      ensures this.column == column && this.desc == desc && Now() == Start(column, desc)
    {
      this.column, this.desc := column, desc;
      offset, page, rows, done, last := 0, 16, [], false, None;
    }

    function Now(): State
      reads this
    {
      State(column, desc, offset, page, rows, done, last)
    }

    /** Takes one more page, if there is one. */
    method Fill(src: Source) returns (more: bool)
      modifies this
      ensures Now() == FillState(old(Now()), src).0 && more == FillState(old(Now()), src).1
    {
      if done {
        return false;
      }
      var got := Page(src);
      done := !src.answers || |got| < page;
      offset := offset + |got|;
      page := Min(page * 4, 65536);
      more := got != [];
      rows := got;
    }

    method Page(src: Source) returns (got: Rows)
      ensures got == PageOf(Now(), src)
    {
      if src.answers {
        got := Slice(src.index, page, offset);
      } else {
        got := Remainder(SortedScan(src, column, desc));
      }
    }

    method Remainder(all: Rows) returns (rest: Rows)
      ensures rest == Rest(all, last, column, desc)
    {
      rest := [];
      for i := 0 to |all|
        invariant rest + Rest(all[i..], last, column, desc) == Rest(all, last, column, desc)
      {
        RestStep(rest, all, i, last, column, desc);
        if StillToCome(all[i], last, column, desc) {
          rest := rest + [all[i]];
        }
      }
    }

    method NextRow(src: Source) returns (r: Option<(int, Row)>)
      modifies this
      ensures (Now(), r) == NextState(old(Now()), src)
    {
      if rows == [] {
        var more := Fill(src);
        if !more {
          return None;
        }
      }
      var row := rows[0];
      rows := rows[1..];
      var value := ValueOf(row, column);
      if last.Some? && CompareValues(value, last.value.value) == Same {
        last := Some(Last(last.value.value, last.value.ids + [row.0]));
      } else {
        last := Some(Last(value, [row.0]));
      }
      return Some(row);
    }

    /** True when no table could give a further row, and only then. */
    method IsExhausted() returns (b: bool)
      requires page > 0
      ensures b <==> forall src :: NextState(Now(), src) == (Now(), None)
    {
      b := done && rows == [];
      if !b {
        ghost var src := MoreToGive(Now());
      }
    }
  }
}
