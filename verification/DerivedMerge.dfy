/** The FROM and WHERE of a generated SELECT (`Gen::join_list`, `table_ref`,
    `mergeable_base` and `select` in `stoolap_sqlgen.cc`): in place of a mergeable
    derived table stands its base table, its condition joins the ON or the WHERE
    around it, and each of its columns is what it computes. The rows stay the
    same, NULL-complemented ones included. */
module DerivedMerge {
  import opened Values

  // --------------------------------------------------------------------- terms

  /** Any scalar expression: a column of a FROM element, or a function of
      others. */
  datatype Term =
    | Col(table: nat, column: nat)
    | NullTerm
    | App(f: nat, args: Terms)

  datatype Terms = NoTerms | MoreTerms(head: Term, tail: Terms)

  /** What the functions compute, which values are true, and what is made of
      finished rows. */
  datatype Meaning =
    | Meaning(apply: (nat, seq<Value>) -> Value, truth: Value -> Tri, computed: (nat, seq<Row>) -> seq<Row>)

  /** One row of each FROM element, None where an outer join put NULLs. */
  type Env = seq<Option<Row>>

  function At(env: Env, table: nat, column: nat): Value {
    if table < |env| && env[table].Some? then Get(env[table].value, column) else Null
  }

  function Eval(i: Meaning, env: Env, t: Term): Value
    decreases t
  {
    match t
    case Col(table, column) => At(env, table, column)
    case NullTerm => Null
    case App(f, args) => i.apply(f, EvalAll(i, env, args))
  }

  function EvalAll(i: Meaning, env: Env, args: Terms): seq<Value>
    decreases args
  {
    match args
    case NoTerms => []
    case MoreTerms(head, tail) => [Eval(i, env, head)] + EvalAll(i, env, tail)
  }

  predicate Holds(i: Meaning, env: Env, conditions: seq<Term>) {
    forall k :: 0 <= k < |conditions| ==> i.truth(Eval(i, env, conditions[k])) == Yes
  }

  // -------------------------------------------------------------- MariaDB's FROM

  /** What becomes of a derived table's rows at its end: nothing, a LIMIT, a
      DISTINCT, or whatever a GROUP BY, a window function, RAND or a set operation
      computes of them. */
  datatype Finish = Whole | LimitTo(n: nat) | Distinct | Computed(f: nat)

  /** A base table, or a derived one over a single base table: its WHERE and
      columns are terms over that table (`Col(0, _)`). Equal ones are references
      to one unit; `id` tells a copy of it apart. */
  datatype Ref =
    | Base(table: seq<Row>)
    | Derived(table: seq<Row>, id: nat, finish: Finish, where: Option<Term>, columns: seq<Term>)

  type Unit = ref: Ref | ref.Derived? witness Derived([], 0, Whole, None, [])

  datatype Elem = Elem(ref: Ref, outer: bool, on: Option<Term>)

  function Optional(t: Option<Term>): seq<Term> {
    if t.Some? then [t.value] else []
  }

  /** The values of a select list. */
  function Picked(i: Meaning, items: seq<Term>, env: Env): (r: Row)
    ensures |r| == |items| && forall c :: 0 <= c < |items| ==> r[c] == Eval(i, env, items[c])
  {
    seq(|items|, c requires 0 <= c < |items| => Eval(i, env, items[c]))
  }

  function RowOf(i: Meaning, columns: seq<Term>, row: Row): Row {
    Picked(i, columns, [Some(row)])
  }

  function DerivedRows(i: Meaning, where: Option<Term>, columns: seq<Term>, table: seq<Row>): seq<Row> {
    if table == [] then []
    else
      var rest := DerivedRows(i, where, columns, table[1..]);
      if Holds(i, [Some(table[0])], Optional(where)) then [RowOf(i, columns, table[0])] + rest else rest
  }

  function Unlike(row: Row, rows: seq<Row>): seq<Row> {
    if rows == [] then []
    else (if rows[0] == row then [] else [rows[0]]) + Unlike(row, rows[1..])
  }

  /** Each row once, where it comes first. */
  function Firsts(rows: seq<Row>): seq<Row> {
    if rows == [] then [] else [rows[0]] + Unlike(rows[0], Firsts(rows[1..]))
  }

  function Finished(i: Meaning, finish: Finish, rows: seq<Row>): seq<Row> {
    match finish
    case Whole => rows
    case LimitTo(n) => if n < |rows| then rows[..n] else rows
    case Distinct => Firsts(rows)
    case Computed(f) => i.computed(f, rows)
  }

  function RefRows(i: Meaning, ref: Ref): seq<Row> {
    match ref
    case Base(table) => table
    case Derived(table, _, finish, where, columns) => Finished(i, finish, DerivedRows(i, where, columns, table))
  }

  function Matches(i: Meaning, on: seq<Term>, env: Env, rows: seq<Row>): seq<Env> {
    if rows == [] then []
    else
      var rest := Matches(i, on, env, rows[1..]);
      if Holds(i, env + [Some(rows[0])], on) then [env + [Some(rows[0])]] + rest else rest
  }

  function JoinOne(i: Meaning, outer: bool, on: seq<Term>, env: Env, rows: seq<Row>): seq<Env> {
    var found := Matches(i, on, env, rows);
    if outer && found == [] then [env + [None]] else found
  }

  function Join(i: Meaning, outer: bool, on: seq<Term>, envs: seq<Env>, rows: seq<Row>): seq<Env> {
    if envs == [] then [] else JoinOne(i, outer, on, envs[0], rows) + Join(i, outer, on, envs[1..], rows)
  }

  function Filter(i: Meaning, conditions: seq<Term>, envs: seq<Env>): seq<Env> {
    if envs == [] then []
    else
      var rest := Filter(i, conditions, envs[1..]);
      if Holds(i, envs[0], conditions) then [envs[0]] + rest else rest
  }

  /** What MariaDB joins: its list is kept in reverse, so the elements from
      `n - 1` down to `k` are the first ones of the FROM. */
  function Joined(i: Meaning, list: seq<Elem>, k: nat): seq<Env>
    requires k <= |list|
    decreases |list| - k
  {
    if k == |list| then [[]]
    else Join(i, list[k].outer, Optional(list[k].on), Joined(i, list, k + 1), RefRows(i, list[k].ref))
  }

  /** A join list as parsed: parentheses make a group of it. */
  datatype JoinItem = One(elem: Elem) | Group(items: seq<JoinItem>, outer: bool, on: Option<Term>)

  function Elems(list: seq<JoinItem>): Option<seq<Elem>> {
    if list == [] then Some([])
    else if list[0].Group? then None
    else
      var rest :- Elems(list[1..]);
      Some([list[0].elem] + rest)
  }

  /** The elements without the parentheses around those the FROM begins with,
      None when there are others. */
  function Flat(list: seq<JoinItem>): (r: Option<seq<Elem>>)
    ensures r.Some? ==> r.value != []
    decreases list
  {
    if list == [] then None
    else
      var n := |list| - 1;
      var rest :- Elems(list[..n]);
      match list[n]
      case One(elem) => Some(rest + [elem])
      case Group(items, outer, on) =>
        if outer || on.Some? then None
        else
          var inner :- Flat(items);
          Some(rest + inner)
  }

  /** Elements joined to rows already joined. */
  function JoinedOnto(i: Meaning, elems: seq<Elem>, envs: seq<Env>, k: nat): seq<Env>
    requires k <= |elems|
    decreases |elems| - k
  {
    if k == |elems| then envs
    else Join(i, elems[k].outer, Optional(elems[k].on), JoinedOnto(i, elems, envs, k + 1), RefRows(i, elems[k].ref))
  }

  /** What MariaDB joins of such a list: a group's own rows first. */
  function JoinedItems(i: Meaning, list: seq<JoinItem>): seq<Env>
    requires Flat(list).Some?
    decreases list
  {
    var n := |list| - 1;
    var first := match list[n]
      case One(elem) => Join(i, elem.outer, Optional(elem.on), [[]], RefRows(i, elem.ref))
      case Group(items, _, _) => JoinedItems(i, items);
    JoinedOnto(i, Elems(list[..n]).value, first, 0)
  }

  lemma {:induction false} JoinedConcat(i: Meaning, front: seq<Elem>, back: seq<Elem>, k: nat)
    requires k <= |front|
    ensures Joined(i, front + back, k) == JoinedOnto(i, front, Joined(i, back, 0), k)
    decreases |front| - k
  {
    if k == |front| {
      JoinedBack(i, front, back, 0);
    } else {
      assert (front + back)[k] == front[k];
      JoinedConcat(i, front, back, k + 1);
    }
  }

  lemma {:induction false} JoinedBack(i: Meaning, front: seq<Elem>, back: seq<Elem>, k: nat)
    requires k <= |back|
    ensures Joined(i, front + back, |front| + k) == Joined(i, back, k)
    decreases |back| - k
  {
    var all := front + back;
    if k < |back| {
      JoinedBack(i, front, back, k + 1);
      assert all[|front| + k] == back[k];
      assert Joined(i, all, |front| + k + 1) == Joined(i, back, k + 1);
    } else {
      assert |front| + k == |all|;
    }
  }

  /** Leading parentheses change nothing. */
  lemma {:induction false} GroupIsFlat(i: Meaning, list: seq<JoinItem>)
    requires Flat(list).Some?
    ensures JoinedItems(i, list) == Joined(i, Flat(list).value, 0)
    decreases list
  {
    var n := |list| - 1;
    var rest := Elems(list[..n]).value;
    match list[n]
    case One(elem) =>
      assert Joined(i, [elem], 1) == [[]] && [elem][0] == elem;
      JoinedConcat(i, rest, [elem], 0);
    case Group(items, _, _) =>
      GroupIsFlat(i, items);
      JoinedConcat(i, rest, Flat(items).value, 0);
  }

  function Select(i: Meaning, items: seq<Term>, envs: seq<Env>): seq<Row> {
    if envs == [] then []
    else [Picked(i, items, envs[0])] + Select(i, items, envs[1..])
  }

  // ----------------------------------------------------------------- what it emits

  datatype SqlRef =
    | TableAs(table: seq<Row>)
    | Subquery(table: seq<Row>, where: Option<Term>, columns: seq<Term>, finish: Finish)

  /** A FROM element with the conditions ANDed in its ON. */
  datatype SqlElem = SqlElem(ref: SqlRef, outer: bool, on: seq<Term>)

  function SqlRows(i: Meaning, ref: SqlRef): seq<Row> {
    match ref
    case TableAs(table) => table
    case Subquery(table, where, columns, finish) => Finished(i, finish, DerivedRows(i, where, columns, table))
  }

  function SqlJoined(i: Meaning, from: seq<SqlElem>): seq<Env>
    decreases |from|
  {
    if from == [] then [[]]
    else
      var last := from[|from| - 1];
      Join(i, last.outer, last.on, SqlJoined(i, from[..|from| - 1]), SqlRows(i, last.ref))
  }

  /** Where a unit's base table was written: as a FROM element, or inside a
      subquery. */
  datatype Place = Here(position: nat) | Inside

  /** How columns are named. A derived table that MariaDB would merge has no
      table of its own: its columns are its unit's select list, which `units`
      gives for each such FROM element. `aliases` is the base tables' aliases by
      unit, `views` the FROM element written as a subquery of each unit. */
  datatype Names = Names(units: seq<Option<Unit>>, aliases: map<Unit, Place>, views: map<Unit, nat>)

  /** The columns a FROM element stands for if it was merged. */
  function MergedAt(names: Names, p: nat): Option<seq<Term>> {
    if p < |names.units| && names.units[p].Some? && names.units[p].value !in names.views
    then Some(names.units[p].value.columns) else None
  }

  /** A term over a derived table's base, as a term over FROM element `p`. */
  function Shift(t: Term, p: nat): Term
    decreases t
  {
    match t
    case Col(table, column) => if table == 0 then Col(p, column) else NullTerm
    case NullTerm => NullTerm
    case App(f, args) => App(f, ShiftAll(args, p))
  }

  function ShiftAll(args: Terms, p: nat): Terms
    decreases args
  {
    match args
    case NoTerms => NoTerms
    case MoreTerms(head, tail) => MoreTerms(Shift(head, p), ShiftAll(tail, p))
  }

  /** A column of FROM element `p`: its own, or the one of its unit's subquery,
      or the unit's expression over wherever its base table is. */
  function ColumnSql(names: Names, p: nat, column: nat): Term {
    if p >= |names.units| || names.units[p].None? then Col(p, column)
    else
      var unit := names.units[p].value;
      if unit in names.views then Col(names.views[unit], column)
      else if column < |unit.columns| && unit in names.aliases && names.aliases[unit].Here? then
        Shift(unit.columns[column], names.aliases[unit].position)
      else NullTerm
  }

  function Subst(t: Term, names: Names): Term
    decreases t
  {
    match t
    case Col(table, column) => ColumnSql(names, table, column)
    case NullTerm => NullTerm
    case App(f, args) => App(f, SubstAll(args, names))
  }

  function SubstAll(args: Terms, names: Names): Terms
    decreases args
  {
    match args
    case NoTerms => NoTerms
    case MoreTerms(head, tail) => MoreTerms(Subst(head, names), SubstAll(tail, names))
  }

  function SubstEach(ts: seq<Term>, names: Names): seq<Term> {
    seq(|ts|, k requires 0 <= k < |ts| => Subst(ts[k], names))
  }

  predicate AllFields(columns: seq<Term>) {
    forall c :: 0 <= c < |columns| ==> columns[c].Col?
  }

  /** `mergeable_base`: its rows are left as they are; where NULLs may be put for
      it, every column is a field; and its unit's base table has no alias yet. */
  predicate Mergeable(e: Elem, aliases: map<Unit, Place>) {
    && e.ref.Derived? && e.ref.finish.Whole?
    && (e.outer ==> AllFields(e.ref.columns))
    && e.ref !in aliases
  }

  /** Its columns are its unit's select list. */
  predicate Translated(ref: Ref) {
    ref.Derived? && ref.finish.Whole?
  }

  function Named(names: Names, e: Elem, p: nat): Names {
    var merged := Mergeable(e, names.aliases);
    Names(names.units + [if Translated(e.ref) then Some(e.ref) else None],
          if e.ref.Base? then names.aliases else names.aliases[e.ref := if merged then Here(p) else Inside],
          if Translated(e.ref) && !merged then names.views[e.ref := p] else names.views)
  }

  datatype State = State(names: Names, wheres: seq<Term>, from: seq<SqlElem>)

  const START := State(Names([], map[], map[]), [], [])

  function SqlRefOf(ref: Ref, merged: bool): SqlRef {
    match ref
    case Base(table) => TableAs(table)
    case Derived(table, _, finish, where, columns) =>
      if merged then TableAs(table) else Subquery(table, where, columns, finish)
  }

  function MergedCondition(e: Elem, merged: bool, p: nat): seq<Term> {
    if merged && e.ref.Derived? && e.ref.where.Some? then [Shift(e.ref.where.value, p)] else []
  }

  predicate Refused(e: Elem, first: bool) {
    (first && (e.outer || e.on.Some?)) || (e.outer && e.on.None?)
  }

  /** One element of the FROM. */
  function WriteElem(e: Elem, st: State): State {
    var merged := Mergeable(e, st.names.aliases);
    var names := Named(st.names, e, |st.from|);
    var extra := MergedCondition(e, merged, |st.from|);
    State(names,
          if e.on.Some? then st.wheres else st.wheres + extra,
          st.from + [SqlElem(SqlRefOf(e.ref, merged), e.outer,
                             if e.on.Some? then [Subst(e.on.value, names)] + extra else [])])
  }

  function WrittenOn(after: Option<State>, e: Elem, first: bool): Option<State> {
    var st :- after;
    if Refused(e, first) then None else Some(WriteElem(e, st))
  }

  /** The elements from the list's end down to `k`. */
  function Written(list: seq<Elem>, k: nat): Option<State>
    requires k <= |list|
    decreases |list| - k
  {
    if k == |list| then Some(START)
    else WrittenOn(Written(list, k + 1), list[k], k + 1 == |list|)
  }

  lemma {:induction false} WrittenTail(all: seq<Elem>, k: nat)
    requires k < |all|
    ensures Written(all, k + 1) == Written(all[1..], k)
    decreases |all| - k
  {
    var tail := all[1..];
    if k + 1 < |all| {
      WrittenTail(all, k + 1);
      assert tail[k] == all[k + 1];
      assert Written(all, k + 2) == Written(tail, k + 1);
    } else {
      assert k == |tail|;
    }
  }

  /** What is written of a list, parentheses allowed where it begins. */
  function WrittenItems(list: seq<JoinItem>): Option<State> {
    var elems :- Flat(list);
    Written(elems, 0)
  }

  /** A FROM is written exactly when it begins with a table and every outer join
      has an ON. */
  lemma {:induction false} WrittenExactly(list: seq<JoinItem>)
    ensures WrittenItems(list).Some? <==>
      Flat(list).Some? &&
      var elems := Flat(list).value;
      !elems[|elems| - 1].outer && elems[|elems| - 1].on.None? &&
      forall k :: 0 <= k < |elems| && elems[k].outer ==> elems[k].on.Some?
  {
    if Flat(list).Some? {
      WrittenFrom(Flat(list).value, 0);
    }
  }

  lemma {:induction false} WrittenFrom(elems: seq<Elem>, k: nat)
    requires k < |elems|
    ensures Written(elems, k).Some? <==>
      !elems[|elems| - 1].outer && elems[|elems| - 1].on.None? &&
      forall j :: k <= j < |elems| && elems[j].outer ==> elems[j].on.Some?
    decreases |elems| - k
  {
    if k + 1 < |elems| {
      WrittenFrom(elems, k + 1);
    }
  }

  lemma {:induction false} ElemsCons(item: JoinItem, list: seq<JoinItem>)
    ensures Elems([item] + list) ==
            if item.Group? || Elems(list).None? then None else Some([item.elem] + Elems(list).value)
  {
    assert ([item] + list)[1..] == list;
  }

  /** One more element joined to the ones after it in the list. */
  lemma {:induction false} ItemsCons(item: JoinItem, list: seq<JoinItem>)
    requires list != []
    ensures WrittenItems([item] + list) ==
            if item.Group? || WrittenItems(list).None? || Refused(item.elem, false) then None
            else Some(WriteElem(item.elem, WrittenItems(list).value))
  {
    var all, n := [item] + list, |list| - 1;
    assert all[..n + 1] == [item] + list[..n] && all[n + 1] == list[n];
    ElemsCons(item, list[..n]);
    if item.One? && Flat(list).Some? {
      var tail := Flat(list).value;
      assert Flat(all) == Some([item.elem] + tail) by {
        FlatCons(item.elem, Elems(list[..n]).value, list[n]);
      }
      WrittenTail([item.elem] + tail, 0);
      assert ([item.elem] + tail)[0] == item.elem && ([item.elem] + tail)[1..] == tail;
    }
  }

  lemma {:induction false} FlatCons(e: Elem, rest: seq<Elem>, last: JoinItem)
    ensures last.One? ==> [e] + rest + [last.elem] == [e] + (rest + [last.elem])
    ensures last.Group? && Flat(last.items).Some? ==>
              [e] + rest + Flat(last.items).value == [e] + (rest + Flat(last.items).value)
  {
  }

  lemma {:induction false} RefusedStays(list: seq<JoinItem>, k: nat)
    requires k < |list| && WrittenItems(list[k..]).None?
    ensures WrittenItems(list).None?
    decreases k
  {
    if k == 0 {
      assert list[0..] == list;
    } else {
      assert list[k - 1..] == [list[k - 1]] + list[k..];
      ItemsCons(list[k - 1], list[k..]);
      RefusedStays(list, k - 1);
    }
  }

  /** The FROM writer: how columns are named so far, the conditions its joins
      could not carry, and what is written. */
  class FromWriter {
    var units: seq<Option<Unit>>
    var aliases: map<Unit, Place>
    var views: map<Unit, nat>
    var mergedWhere: seq<Term>
    var from: seq<SqlElem>

    constructor ()
      ensures Now() == START
    {
      units, aliases, views, mergedWhere, from := [], map[], map[], [], [];
    }

    function NamesNow(): Names
      reads this
    {
      Names(units, aliases, views)
    }

    function Now(): State
      reads this
    {
      State(NamesNow(), mergedWhere, from)
    }

    /** `table_ref`: writes the element, and gives the WHERE of a merged one for
        the caller's ON. */
    method TableRef(e: Elem) returns (ref: SqlRef, merged: Option<Term>)
      modifies this
      ensures var m := Mergeable(e, old(aliases));
        && ref == SqlRefOf(e.ref, m)
        && Optional(merged) == MergedCondition(e, m, |old(from)|)
        && NamesNow() == Named(old(NamesNow()), e, |old(from)|)
        && from == old(from) && mergedWhere == old(mergedWhere)
    {
      merged := None;
      if Mergeable(e, aliases) {
        aliases := aliases[e.ref := Here(|from|)];
        units := units + [Some(e.ref)];
        if e.ref.where.Some? {
          merged := Some(Shift(e.ref.where.value, |from|));
        }
        ref := TableAs(e.ref.table);
      } else if e.ref.Derived? {
        if e.ref.finish.Whole? {
          units, views := units + [Some(e.ref)], views[e.ref := |from|];
        } else {
          units := units + [None];
        }
        aliases := aliases[e.ref := Inside];
        ref := Subquery(e.ref.table, e.ref.where, e.ref.columns, e.ref.finish);
      } else {
        units := units + [None];
        ref := TableAs(e.ref.table);
      }
    }

    /** One element of `join_list`, with its join. */
    method JoinElem(e: Elem, first: bool) returns (ok: bool)
      modifies this
      ensures ok == !Refused(e, first)
      ensures Now() == if ok then WriteElem(e, old(Now())) else old(Now())
    {
      if Refused(e, first) {
        return false;
      }
      ghost var before := Now();
      var ref, merged := TableRef(e);
      if e.on.Some? {
        from := from + [SqlElem(ref, e.outer, [Subst(e.on.value, NamesNow())] + Optional(merged))];
      } else {
        from := from + [SqlElem(ref, e.outer, [])];
        if merged.Some? {
          mergedWhere := mergedWhere + [merged.value];
        }
      }
      assert mergedWhere + [] == mergedWhere;
      assert Now() == WriteElem(e, before);
      return true;
    }

    /** `join_list`: walks the list backwards, into a group that opens it; false
        when an element has no Stoolap form. */
    method JoinList(list: seq<JoinItem>) returns (ok: bool)
      requires Now() == START
      modifies this
      ensures ok == WrittenItems(list).Some?
      ensures ok ==> Now() == WrittenItems(list).value
      decreases list
    {
      if list == [] {
        return false;
      }
      var i := |list| - 1;
      ghost var last := list[i..];
      assert last == [list[i]] && last[..0] == [];
      match list[i] {
        case One(elem) =>
          assert Flat(last) == Some([] + [elem]) && [] + [elem] == [elem];
          assert Written([elem], 1) == Some(START) && [elem][0] == elem;
          ok := JoinElem(elem, true);
        case Group(items, outer, on) =>
          if !outer && on.None? {
            assert Flat(items).Some? ==> Flat(last) == Some([] + Flat(items).value) && [] + Flat(items).value == Flat(items).value;
            ok := JoinList(items);
          } else {
            ok := false;
          }
      }
      if !ok {
        RefusedStays(list, i);
        return;
      }
      while i > 0
        invariant 0 <= i < |list|
        invariant WrittenItems(list[i..]) == Some(Now())
      {
        i := i - 1;
        assert list[i..] == [list[i]] + list[i + 1..];
        ItemsCons(list[i], list[i + 1..]);
        if list[i].One? {
          ok := JoinElem(list[i].elem, false);
        } else {
          ok := false;
        }
        if !ok {
          RefusedStays(list, i);
          return;
        }
      }
      assert list[0..] == list;
    }
  }

  // ------------------------------------------------------------------ meaning kept

  /** The row MariaDB's derived table has for a row of the merged one. */
  function LiftRow(i: Meaning, columns: Option<seq<Term>>, row: Option<Row>): Option<Row> {
    if columns.None? || row.None? then row else Some(RowOf(i, columns.value, row.value))
  }

  function Lift(i: Meaning, names: Names, env: Env): (lifted: Env)
    ensures |lifted| == |env|
    ensures forall p :: 0 <= p < |env| ==> lifted[p] == LiftRow(i, MergedAt(names, p), env[p])
  {
    seq(|env|, p requires 0 <= p < |env| => LiftRow(i, MergedAt(names, p), env[p]))
  }

  /** Each element's columns are named over that element. */
  predicate Placed(names: Names) {
    forall p :: 0 <= p < |names.units| && names.units[p].Some? ==>
      var unit := names.units[p].value;
      if unit in names.views then names.views[unit] == p
      else unit in names.aliases && names.aliases[unit] == Here(p)
  }

  /** A NULL-complemented element was merged only if its columns are fields. */
  predicate NullSafe(names: Names, env: Env) {
    && Placed(names) && |env| == |names.units|
    && (forall p :: 0 <= p < |env| && env[p].None? && MergedAt(names, p).Some? ==> AllFields(MergedAt(names, p).value))
  }

  lemma {:induction false} ShiftMeans(i: Meaning, env: Env, p: nat, t: Term)
    requires p < |env|
    ensures env[p].Some? ==> Eval(i, env, Shift(t, p)) == Eval(i, [env[p]], t)
    ensures env[p].None? && t.Col? ==> Eval(i, env, Shift(t, p)) == Null
    decreases t
  {
    if t.App? {
      ShiftAllMeans(i, env, p, t.args);
    }
  }

  lemma {:induction false} ShiftAllMeans(i: Meaning, env: Env, p: nat, args: Terms)
    requires p < |env|
    ensures env[p].Some? ==> EvalAll(i, env, ShiftAll(args, p)) == EvalAll(i, [env[p]], args)
    decreases args
  {
    if args.MoreTerms? {
      ShiftMeans(i, env, p, args.head);
      ShiftAllMeans(i, env, p, args.tail);
    }
  }

  /** A term over MariaDB's rows is its substitution over the merged ones. */
  lemma {:induction false} SubstMeans(i: Meaning, names: Names, env: Env, t: Term)
    requires NullSafe(names, env)
    ensures Eval(i, Lift(i, names, env), t) == Eval(i, env, Subst(t, names))
    decreases t
  {
    match t
    case Col(table, column) =>
      if table < |env| && MergedAt(names, table).Some? && column < |MergedAt(names, table).value| {
        ShiftMeans(i, env, table, MergedAt(names, table).value[column]);
      }
    case NullTerm =>
    case App(_, args) => SubstAllMeans(i, names, env, args);
  }

  lemma {:induction false} SubstAllMeans(i: Meaning, names: Names, env: Env, args: Terms)
    requires NullSafe(names, env)
    ensures EvalAll(i, Lift(i, names, env), args) == EvalAll(i, env, SubstAll(args, names))
    decreases args
  {
    if args.MoreTerms? {
      SubstMeans(i, names, env, args.head);
      SubstAllMeans(i, names, env, args.tail);
    }
  }

  lemma {:induction false} HoldsMeans(i: Meaning, names: Names, env: Env, conditions: seq<Term>)
    requires NullSafe(names, env)
    ensures Holds(i, Lift(i, names, env), conditions) == Holds(i, env, SubstEach(conditions, names))
  {
    forall k | 0 <= k < |conditions|
      ensures Eval(i, Lift(i, names, env), conditions[k]) == Eval(i, env, SubstEach(conditions, names)[k])
    {
      SubstMeans(i, names, env, conditions[k]);
    }
  }

  // conditions over a prefix of the FROM

  predicate Scoped(t: Term, n: nat)
    decreases t
  {
    match t
    case Col(table, _) => table < n
    case NullTerm => true
    case App(_, args) => ScopedAll(args, n)
  }

  predicate ScopedAll(args: Terms, n: nat)
    decreases args
  {
    args.NoTerms? || (Scoped(args.head, n) && ScopedAll(args.tail, n))
  }

  predicate EachScoped(ts: seq<Term>, n: nat) {
    forall k :: 0 <= k < |ts| ==> Scoped(ts[k], n)
  }

  lemma {:induction false} ScopedGrows(t: Term, n: nat, m: nat)
    requires Scoped(t, n) && n <= m
    ensures Scoped(t, m)
    decreases t
  {
    if t.App? {
      ScopedAllGrows(t.args, n, m);
    }
  }

  lemma {:induction false} ScopedAllGrows(args: Terms, n: nat, m: nat)
    requires ScopedAll(args, n) && n <= m
    ensures ScopedAll(args, m)
    decreases args
  {
    if args.MoreTerms? {
      ScopedGrows(args.head, n, m);
      ScopedAllGrows(args.tail, n, m);
    }
  }

  lemma {:induction false} ShiftScoped(t: Term, p: nat)
    ensures Scoped(Shift(t, p), p + 1)
    decreases t
  {
    if t.App? {
      ShiftAllScoped(t.args, p);
    }
  }

  lemma {:induction false} ShiftAllScoped(args: Terms, p: nat)
    ensures ScopedAll(ShiftAll(args, p), p + 1)
    decreases args
  {
    if args.MoreTerms? {
      ShiftScoped(args.head, p);
      ShiftAllScoped(args.tail, p);
    }
  }

  lemma {:induction false} ScopedMeans(i: Meaning, env: Env, more: Env, t: Term)
    requires Scoped(t, |env|)
    ensures Eval(i, env + more, t) == Eval(i, env, t)
    decreases t
  {
    if t.App? {
      ScopedAllMeans(i, env, more, t.args);
    }
  }

  lemma {:induction false} ScopedAllMeans(i: Meaning, env: Env, more: Env, args: Terms)
    requires ScopedAll(args, |env|)
    ensures EvalAll(i, env + more, args) == EvalAll(i, env, args)
    decreases args
  {
    if args.MoreTerms? {
      ScopedMeans(i, env, more, args.head);
      ScopedAllMeans(i, env, more, args.tail);
    }
  }

  /** A condition on the elements before does not see the one joined. */
  lemma {:induction false} PrefixHolds(i: Meaning, env: Env, more: Env, conditions: seq<Term>)
    requires EachScoped(conditions, |env|)
    ensures Holds(i, env + more, conditions) == Holds(i, env, conditions)
  {
    forall k | 0 <= k < |conditions|
      ensures Eval(i, env + more, conditions[k]) == Eval(i, env, conditions[k])
    {
      ScopedMeans(i, env, more, conditions[k]);
    }
  }

  // ----------------------------------------------------------------- one element

  ghost predicate SafeEnvs(names: Names, envs: seq<Env>) {
    forall k :: 0 <= k < |envs| ==> NullSafe(names, envs[k])
  }

  function LiftEach(i: Meaning, names: Names, envs: seq<Env>): seq<Env> {
    if envs == [] then [] else [Lift(i, names, envs[0])] + LiftEach(i, names, envs[1..])
  }

  lemma {:induction false} LiftEachConcat(i: Meaning, names: Names, a: seq<Env>, b: seq<Env>)
    ensures LiftEach(i, names, a + b) == LiftEach(i, names, a) + LiftEach(i, names, b)
  {
    if a == [] {
      assert a + b == b;
    } else {
      assert (a + b)[1..] == a[1..] + b;
      LiftEachConcat(i, names, a[1..], b);
    }
  }

  lemma {:induction false} FilterConcat(i: Meaning, conditions: seq<Term>, a: seq<Env>, b: seq<Env>)
    ensures Filter(i, conditions, a + b) == Filter(i, conditions, a) + Filter(i, conditions, b)
  {
    if a == [] {
      assert a + b == b;
    } else {
      assert (a + b)[1..] == a[1..] + b;
      FilterConcat(i, conditions, a[1..], b);
    }
  }

  lemma {:induction false} FilterSafe(i: Meaning, names: Names, conditions: seq<Term>, envs: seq<Env>)
    requires SafeEnvs(names, envs)
    ensures SafeEnvs(names, Filter(i, conditions, envs))
  {
    if envs != [] {
      assert NullSafe(names, envs[0]);
      FilterSafe(i, names, conditions, envs[1..]);
    }
  }

  ghost predicate ValidState(st: State) {
    && |st.names.units| == |st.from| && EachScoped(st.wheres, |st.from|)
    && st.names.views.Keys <= st.names.aliases.Keys
    && (forall p :: 0 <= p < |st.from| && st.names.units[p].Some? ==>
          Translated(st.names.units[p].value) && st.names.units[p].value in st.names.aliases)
    && (forall unit: Unit :: unit in st.names.aliases && Translated(unit) ==> Some(unit) in st.names.units)
  }

  lemma {:induction false} WriteKeepsValid(e: Elem, st: State)
    requires ValidState(st)
    ensures ValidState(WriteElem(e, st))
  {
    var p := |st.from|;
    if e.ref.Derived? && e.ref.where.Some? {
      ShiftScoped(e.ref.where.value, p);
    }
    forall k | 0 <= k < |st.wheres|
      ensures Scoped(st.wheres[k], p + 1)
    {
      ScopedGrows(st.wheres[k], p, p + 1);
    }
    var next := WriteElem(e, st).names;
    assert next.units == st.names.units + [next.units[p]];
    forall unit: Unit | unit in next.aliases && Translated(unit)
      ensures Some(unit) in next.units
    {
      if unit == e.ref {
        assert next.units[p] == Some(unit);
      }
    }
  }

  /** A reference, written as a subquery, to a unit that the FROM already uses. */
  predicate Repeats(e: Elem, st: State) {
    Translated(e.ref) && e.ref in st.names.aliases && !Mergeable(e, st.names.aliases)
  }

  /** Such a reference, and nothing else, takes another element's columns. */
  lemma {:induction false} PlacedUnlessRepeated(e: Elem, st: State)
    requires ValidState(st)
    ensures Placed(WriteElem(e, st).names) <==> Placed(st.names) && !Repeats(e, st)
  {
    var p := |st.from|;
    var names, next := st.names, WriteElem(e, st).names;
    forall q | 0 <= q < p && names.units[q].Some? && names.units[q].value != e.ref
      ensures var unit := names.units[q].value;
        next.units[q] == names.units[q] && (unit in next.views <==> unit in names.views) &&
        (unit in names.views ==> next.views[unit] == names.views[unit]) &&
        unit in next.aliases && next.aliases[unit] == names.aliases[unit]
    {
    }
    if Translated(e.ref) && e.ref in names.aliases {
      var q :| 0 <= q < |names.units| && names.units[q] == Some(e.ref);
      assert next.units[q] == Some(e.ref) && next.views[e.ref] == p;
      assert Repeats(e, st) && !Placed(next);
    } else if !Placed(names) {
      var q :| 0 <= q < p && names.units[q].Some? &&
        var unit := names.units[q].value;
        !(if unit in names.views then names.views[unit] == q
          else unit in names.aliases && names.aliases[unit] == Here(q));
      assert next.units[q] == names.units[q];
    }
  }

  /** The last element written. */
  function LastOf(e: Elem, st: State): SqlElem {
    WriteElem(e, st).from[|st.from|]
  }

  /** MariaDB's rows for those of the element as written. */
  function OwnRows(i: Meaning, e: Elem, merged: bool, rows: seq<Row>): seq<Row> {
    if merged && e.ref.Derived? then DerivedRows(i, e.ref.where, e.ref.columns, rows) else rows
  }

  lemma {:induction false} OwnRowsOf(i: Meaning, e: Elem, st: State)
    ensures RefRows(i, e.ref) == OwnRows(i, e, Mergeable(e, st.names.aliases), SqlRows(i, LastOf(e, st).ref))
  {
  }

  /** A row joined: MariaDB's derived table has it and its ON takes it, exactly
      when the merged ON and the WHERE moved out take it. */
  lemma {:induction false} RowJoined(i: Meaning, e: Elem, st: State, env: Env, row: Row)
    requires !Repeats(e, st)
    requires ValidState(st) && NullSafe(st.names, env) && Holds(i, env, st.wheres)
    ensures var merged := Mergeable(e, st.names.aliases);
      var next := WriteElem(e, st);
      var own := if merged then RowOf(i, e.ref.columns, row) else row;
      var mine := env + [Some(row)];
      && NullSafe(next.names, mine)
      && Lift(i, next.names, mine) == Lift(i, st.names, env) + [Some(own)]
      && ((merged ==> Holds(i, [Some(row)], Optional(e.ref.where))) &&
          Holds(i, Lift(i, st.names, env) + [Some(own)], Optional(e.on)))
         == (Holds(i, mine, LastOf(e, st).on) && Holds(i, mine, next.wheres))
  {
    PlacedUnlessRepeated(e, st);
    var merged := Mergeable(e, st.names.aliases);
    var next := WriteElem(e, st);
    var own := if merged then RowOf(i, e.ref.columns, row) else row;
    var mine := env + [Some(row)];
    var p := |st.from|;
    var extra := MergedCondition(e, merged, p);
    assert Lift(i, next.names, mine) == Lift(i, st.names, env) + [Some(own)];
    HoldsMeans(i, next.names, mine, Optional(e.on));
    PrefixHolds(i, env, [Some(row)], st.wheres);
    if extra != [] {
      ShiftMeans(i, mine, p, e.ref.where.value);
      assert mine[p] == Some(row);
      HoldsOne(i, mine, Shift(e.ref.where.value, p));
      HoldsOne(i, [Some(row)], e.ref.where.value);
    }
    assert Holds(i, mine, extra) == (merged ==> Holds(i, [Some(row)], Optional(e.ref.where)));
    assert Holds(i, Lift(i, next.names, mine), Optional(e.on)) == Holds(i, mine, SubstEach(Optional(e.on), next.names));
    HoldsBoth(i, mine, SubstEach(Optional(e.on), next.names), extra);
    HoldsBoth(i, mine, st.wheres, extra);
    assert e.on.Some? ==> LastOf(e, st).on == SubstEach(Optional(e.on), next.names) + extra;
  }

  lemma {:induction false} HoldsOne(i: Meaning, env: Env, t: Term)
    ensures Holds(i, env, [t]) == (i.truth(Eval(i, env, t)) == Yes)
  {
    assert [t][0] == t;
  }

  lemma {:induction false} HoldsBoth(i: Meaning, env: Env, a: seq<Term>, b: seq<Term>)
    ensures Holds(i, env, a + b) == (Holds(i, env, a) && Holds(i, env, b))
  {
    if Holds(i, env, a + b) {
      assert forall k :: 0 <= k < |a| ==> a[k] == (a + b)[k];
      assert forall k :: 0 <= k < |b| ==> b[k] == (a + b)[|a| + k];
    }
  }

  /** All the rows of one element joined to one row of the others. */
  lemma {:induction false} MatchesMean(i: Meaning, e: Elem, st: State, env: Env, rows: seq<Row>)
    requires !Repeats(e, st)
    requires ValidState(st) && NullSafe(st.names, env) && Holds(i, env, st.wheres)
    ensures var next := WriteElem(e, st);
      var found := Filter(i, next.wheres, Matches(i, LastOf(e, st).on, env, rows));
      && SafeEnvs(next.names, Matches(i, LastOf(e, st).on, env, rows)) && SafeEnvs(next.names, found)
      && Matches(i, Optional(e.on), Lift(i, st.names, env), OwnRows(i, e, Mergeable(e, st.names.aliases), rows)) ==
         LiftEach(i, next.names, found)
  {
    if rows != [] {
      var next := WriteElem(e, st);
      RowJoined(i, e, st, env, rows[0]);
      MatchesMean(i, e, st, env, rows[1..]);
      var merged := Mergeable(e, st.names.aliases);
      var mine := env + [Some(rows[0])];
      var own := if merged then RowOf(i, e.ref.columns, rows[0]) else rows[0];
      var rest := Matches(i, LastOf(e, st).on, env, rows[1..]);
      var ownRest := OwnRows(i, e, merged, rows[1..]);
      var ownAll := OwnRows(i, e, merged, rows);
      assert ownAll == (if merged && !Holds(i, [Some(rows[0])], Optional(e.ref.where)) then ownRest else [own] + ownRest);
      assert [own] + ownRest != [] && ([own] + ownRest)[1..] == ownRest;
      if Holds(i, mine, LastOf(e, st).on) {
        assert ([mine] + rest)[1..] == rest;
        if Holds(i, mine, next.wheres) {
          var kept := Filter(i, next.wheres, rest);
          assert ([mine] + kept)[1..] == kept;
        }
      }
    }
  }

  /** No row joined to one that the WHERE moved out drops survives it. */
  lemma {:induction false} DroppedStays(i: Meaning, e: Elem, st: State, env: Env, rows: seq<Row>, outer: bool)
    requires ValidState(st) && |env| == |st.from| && !Holds(i, env, st.wheres)
    ensures Filter(i, WriteElem(e, st).wheres, JoinOne(i, outer, LastOf(e, st).on, env, rows)) == []
  {
    DroppedMatches(i, e, st, env, rows);
    DroppedRow(i, e, st, env, None);
    var one := [env + [None]];
    assert one[1..] == [];
    assert Filter(i, WriteElem(e, st).wheres, one) == [];
  }

  lemma {:induction false} DroppedRow(i: Meaning, e: Elem, st: State, env: Env, row: Option<Row>)
    requires ValidState(st) && |env| == |st.from| && !Holds(i, env, st.wheres)
    ensures !Holds(i, env + [row], WriteElem(e, st).wheres)
  {
    PrefixHolds(i, env, [row], st.wheres);
    var extra := MergedCondition(e, Mergeable(e, st.names.aliases), |st.from|);
    HoldsBoth(i, env + [row], st.wheres, extra);
  }

  lemma {:induction false} DroppedMatches(i: Meaning, e: Elem, st: State, env: Env, rows: seq<Row>)
    requires ValidState(st) && |env| == |st.from| && !Holds(i, env, st.wheres)
    ensures Filter(i, WriteElem(e, st).wheres, Matches(i, LastOf(e, st).on, env, rows)) == []
  {
    if rows != [] {
      DroppedRow(i, e, st, env, Some(rows[0]));
      DroppedMatches(i, e, st, env, rows[1..]);
      var mine := env + [Some(rows[0])];
      var rest := Matches(i, LastOf(e, st).on, env, rows[1..]);
      assert ([mine] + rest)[1..] == rest;
    }
  }

  lemma {:induction false} FilterAll(i: Meaning, conditions: seq<Term>, envs: seq<Env>)
    requires forall k :: 0 <= k < |envs| ==> Holds(i, envs[k], conditions)
    ensures Filter(i, conditions, envs) == envs
  {
    if envs != [] {
      FilterAll(i, conditions, envs[1..]);
    }
  }

  /** Rows joined to one that keeps the WHERE keep it: it is about the elements
      before them. */
  lemma {:induction false} MatchesKeep(i: Meaning, on: seq<Term>, conditions: seq<Term>, env: Env, rows: seq<Row>)
    requires EachScoped(conditions, |env|) && Holds(i, env, conditions)
    ensures forall k :: 0 <= k < |Matches(i, on, env, rows)| ==> Holds(i, Matches(i, on, env, rows)[k], conditions)
  {
    if rows != [] {
      PrefixHolds(i, env, [Some(rows[0])], conditions);
      MatchesKeep(i, on, conditions, env, rows[1..]);
    }
  }

  /** One row of the elements before, joined: NULL-complemented on one side
      exactly when it is on the other. */
  lemma {:induction false} JoinOneMeans(i: Meaning, e: Elem, st: State, env: Env, rows: seq<Row>)
    requires !Repeats(e, st)
    requires ValidState(st) && NullSafe(st.names, env) && Holds(i, env, st.wheres) && (e.outer ==> e.on.Some?)
    ensures var next := WriteElem(e, st);
      var written := JoinOne(i, e.outer, LastOf(e, st).on, env, rows);
      && SafeEnvs(next.names, written) && SafeEnvs(next.names, Filter(i, next.wheres, written))
      && JoinOne(i, e.outer, Optional(e.on), Lift(i, st.names, env),
                 OwnRows(i, e, Mergeable(e, st.names.aliases), rows)) ==
         LiftEach(i, next.names, Filter(i, next.wheres, written))
  {
    PlacedUnlessRepeated(e, st);
    MatchesMean(i, e, st, env, rows);
    if e.outer {
      var next := WriteElem(e, st);
      var on := LastOf(e, st).on;
      MatchesKeep(i, on, st.wheres, env, rows);
      FilterAll(i, next.wheres, Matches(i, on, env, rows));
      if Matches(i, on, env, rows) == [] {
        var mine := env + [None];
        PrefixHolds(i, env, [None], st.wheres);
        assert [mine][1..] == [];
        assert Filter(i, next.wheres, [mine]) == [mine];
        assert Lift(i, next.names, mine) == Lift(i, st.names, env) + [None];
        assert LiftEach(i, next.names, [mine]) == [Lift(i, next.names, mine)];
      }
    }
  }

  /** One element joined to all the rows of those before it. */
  lemma {:induction false} JoinMeans(i: Meaning, e: Elem, st: State, envs: seq<Env>, rows: seq<Row>)
    requires !Repeats(e, st)
    requires ValidState(st) && SafeEnvs(st.names, envs) && (e.outer ==> e.on.Some?)
    requires SafeEnvs(st.names, Filter(i, st.wheres, envs))
    ensures var next := WriteElem(e, st);
      var written := Join(i, e.outer, LastOf(e, st).on, envs, rows);
      && SafeEnvs(next.names, written) && SafeEnvs(next.names, Filter(i, next.wheres, written))
      && Join(i, e.outer, Optional(e.on), LiftEach(i, st.names, Filter(i, st.wheres, envs)),
              OwnRows(i, e, Mergeable(e, st.names.aliases), rows)) ==
         LiftEach(i, next.names, Filter(i, next.wheres, written))
    decreases |envs|
  {
    if envs != [] {
      var next := WriteElem(e, st);
      var on := LastOf(e, st).on;
      var own := OwnRows(i, e, Mergeable(e, st.names.aliases), rows);
      var rest := Join(i, e.outer, on, envs[1..], rows);
      var one := JoinOne(i, e.outer, on, envs[0], rows);
      FilterSafe(i, st.names, st.wheres, envs[1..]);
      JoinMeans(i, e, st, envs[1..], rows);
      FilterConcat(i, next.wheres, one, rest);
      assert NullSafe(st.names, envs[0]);
      if Holds(i, envs[0], st.wheres) {
        JoinOneMeans(i, e, st, envs[0], rows);
        LiftEachConcat(i, next.names, Filter(i, next.wheres, one), Filter(i, next.wheres, rest));
        var kept := Filter(i, st.wheres, envs[1..]);
        assert ([envs[0]] + kept)[1..] == kept;
        var lifted := LiftEach(i, st.names, kept);
        assert ([Lift(i, st.names, envs[0])] + lifted)[1..] == lifted;
      } else {
        DroppedStays(i, e, st, envs[0], rows, e.outer);
        OneSafe(i, e, st, envs[0], rows);
        assert [] + Filter(i, next.wheres, rest) == Filter(i, next.wheres, rest);
      }
      FilterSafe(i, next.names, next.wheres, one + rest);
    }
  }

  lemma {:induction false} OneSafe(i: Meaning, e: Elem, st: State, env: Env, rows: seq<Row>)
    requires !Repeats(e, st)
    requires ValidState(st) && NullSafe(st.names, env)
    ensures SafeEnvs(WriteElem(e, st).names, JoinOne(i, e.outer, LastOf(e, st).on, env, rows))
  {
    MatchesSafe(i, e, st, env, rows);
  }

  lemma {:induction false} MatchesSafe(i: Meaning, e: Elem, st: State, env: Env, rows: seq<Row>)
    requires !Repeats(e, st)
    requires ValidState(st) && NullSafe(st.names, env)
    ensures SafeEnvs(WriteElem(e, st).names, Matches(i, LastOf(e, st).on, env, rows))
  {
    PlacedUnlessRepeated(e, st);
    if rows != [] {
      MatchesSafe(i, e, st, env, rows[1..]);
      assert NullSafe(WriteElem(e, st).names, env + [Some(rows[0])]);
    }
  }

  // -------------------------------------------------------------------- the query

  /** No reference to a unit that the FROM already uses is written as a
      subquery. */
  predicate NoneRepeats(list: seq<Elem>, k: nat)
    requires k <= |list|
    decreases |list| - k
  {
    k == |list| ||
    (NoneRepeats(list, k + 1) && (Written(list, k + 1).Some? ==> !Repeats(list[k], Written(list, k + 1).value)))
  }

  /** Every element's columns are named over that element exactly when no
      reference repeats a unit so. */
  lemma {:induction false} ColumnsArePlaced(list: seq<Elem>, k: nat)
    requires k <= |list| && Written(list, k).Some?
    ensures ValidState(Written(list, k).value)
    ensures Placed(Written(list, k).value.names) <==> NoneRepeats(list, k)
    decreases |list| - k
  {
    if k < |list| {
      ColumnsArePlaced(list, k + 1);
      WriteKeepsValid(list[k], Written(list, k + 1).value);
      PlacedUnlessRepeated(list[k], Written(list, k + 1).value);
    }
  }

  ghost predicate Corresponds(i: Meaning, st: State, joined: seq<Env>) {
    var written := SqlJoined(i, st.from);
    && ValidState(st) && SafeEnvs(st.names, written) && SafeEnvs(st.names, Filter(i, st.wheres, written))
    && joined == LiftEach(i, st.names, Filter(i, st.wheres, written))
  }

  lemma {:induction false} StartCorresponds(i: Meaning)
    ensures Corresponds(i, START, [[]])
  {
    var envs: seq<Env> := [[]];
    assert envs[1..] == [];
    assert Filter(i, [], envs) == envs;
    assert Lift(i, START.names, []) == [];
    assert LiftEach(i, START.names, envs) == [[]];
  }

  lemma {:induction false} ElemCorresponds(i: Meaning, e: Elem, st: State, joined: seq<Env>)
    requires Corresponds(i, st, joined) && !Repeats(e, st) && (e.outer ==> e.on.Some?)
    ensures Corresponds(i, WriteElem(e, st), Join(i, e.outer, Optional(e.on), joined, RefRows(i, e.ref)))
  {
    WriteKeepsValid(e, st);
    OwnRowsOf(i, e, st);
    var next := WriteElem(e, st);
    assert next.from[..|next.from| - 1] == st.from;
    JoinMeans(i, e, st, SqlJoined(i, st.from), SqlRows(i, LastOf(e, st).ref));
  }

  /** The FROM: MariaDB's joined rows are the written ones' under the WHERE
      moved out, with each merged table's columns computed. */
  lemma {:induction false} FromMeans(i: Meaning, list: seq<Elem>, k: nat)
    requires k <= |list| && Written(list, k).Some? && NoneRepeats(list, k)
    ensures Corresponds(i, Written(list, k).value, Joined(i, list, k))
    decreases |list| - k
  {
    if k == |list| {
      StartCorresponds(i);
    } else {
      FromMeans(i, list, k + 1);
      ElemCorresponds(i, list[k], Written(list, k + 1).value, Joined(i, list, k + 1));
    }
  }

  lemma {:induction false} WhereMeans(i: Meaning, names: Names, where: seq<Term>, moved: seq<Term>, envs: seq<Env>)
    requires SafeEnvs(names, envs) && SafeEnvs(names, Filter(i, moved, envs))
    requires SafeEnvs(names, Filter(i, SubstEach(where, names) + moved, envs))
    ensures Filter(i, where, LiftEach(i, names, Filter(i, moved, envs))) ==
            LiftEach(i, names, Filter(i, SubstEach(where, names) + moved, envs))
    decreases |envs|
  {
    if envs != [] {
      FilterSafe(i, names, moved, envs[1..]);
      FilterSafe(i, names, SubstEach(where, names) + moved, envs[1..]);
      WhereMeans(i, names, where, moved, envs[1..]);
      assert NullSafe(names, envs[0]);
      HoldsMeans(i, names, envs[0], where);
      HoldsBoth(i, envs[0], SubstEach(where, names), moved);
      var all := SubstEach(where, names) + moved;
      var kept := Filter(i, moved, envs[1..]);
      assert ([envs[0]] + kept)[1..] == kept;
      var both := Filter(i, all, envs[1..]);
      assert ([envs[0]] + both)[1..] == both;
      var lifted := LiftEach(i, names, kept);
      assert ([Lift(i, names, envs[0])] + lifted)[1..] == lifted;
    }
  }

  lemma {:induction false} SelectMeans(i: Meaning, names: Names, items: seq<Term>, envs: seq<Env>)
    requires SafeEnvs(names, envs)
    ensures Select(i, items, LiftEach(i, names, envs)) == Select(i, SubstEach(items, names), envs)
    decreases |envs|
  {
    if envs != [] {
      SelectMeans(i, names, items, envs[1..]);
      assert NullSafe(names, envs[0]);
      forall c | 0 <= c < |items|
        ensures Eval(i, Lift(i, names, envs[0]), items[c]) == Eval(i, envs[0], SubstEach(items, names)[c])
      {
        SubstMeans(i, names, envs[0], items[c]);
      }
      assert Picked(i, items, Lift(i, names, envs[0])) == Picked(i, SubstEach(items, names), envs[0]);
      var lifted := LiftEach(i, names, envs[1..]);
      assert ([Lift(i, names, envs[0])] + lifted)[1..] == lifted;
    }
  }

  /** The query: the same rows in the same order, unless a reference repeats a
      unit. The written WHERE is the query's own, then the conditions moved out of
      merged tables. */
  lemma {:induction false} MergeKeepsTheRows(i: Meaning, list: seq<JoinItem>, where: seq<Term>, items: seq<Term>)
    requires WrittenItems(list).Some? && NoneRepeats(Flat(list).value, 0)
    ensures var st := WrittenItems(list).value;
      Select(i, items, Filter(i, where, JoinedItems(i, list))) ==
      Select(i, SubstEach(items, st.names),
             Filter(i, SubstEach(where, st.names) + st.wheres, SqlJoined(i, st.from)))
  {
    var st := WrittenItems(list).value;
    var envs := SqlJoined(i, st.from);
    GroupIsFlat(i, list);
    FromMeans(i, Flat(list).value, 0);
    FilterSafe(i, st.names, SubstEach(where, st.names) + st.wheres, envs);
    WhereMeans(i, st.names, where, st.wheres, envs);
    SelectMeans(i, st.names, items, Filter(i, SubstEach(where, st.names) + st.wheres, envs));
  }

  /** A reference that repeats a unit takes its other reference's columns: of
      `d LEFT JOIN d ON NULL` over one row, MariaDB gives the row's value for the
      first `d`, and what is written gives NULL. */
  lemma {:induction false} RepeatedUnit(i: Meaning, d: Unit, row: Row, list: seq<Elem>)
    requires i.truth(Null) != Yes
    requires |row| == 1 && d == Derived([row], d.id, Whole, None, [Col(0, 0)])
    requires list == [Elem(d, true, Some(NullTerm)), Elem(d, false, None)]
    ensures Written(list, 0).Some?
    ensures var st := Written(list, 0).value;
      Select(i, [Col(0, 0)], Joined(i, list, 0)) == [[row[0]]] &&
      Select(i, SubstEach([Col(0, 0)], st.names), Filter(i, st.wheres, SqlJoined(i, st.from))) == [[Null]]
  {
    RepeatedJoined(i, d, row, list);
    RepeatedWritten(d, row, list);
    var st := Written(list, 0).value;
    RepeatedSql(i, d, row, st);
    var joined: seq<Env> := [[Some(row), None]];
    FilterAll(i, st.wheres, joined);
    OnlySelected(i, Col(0, 0), joined[0]);
    OnlySelected(i, Col(1, 0), joined[0]);
    assert SubstEach([Col(0, 0)], st.names) == [Col(1, 0)];
  }

  lemma {:induction false} RepeatedJoined(i: Meaning, d: Unit, row: Row, list: seq<Elem>)
    requires i.truth(Null) != Yes
    requires |row| == 1 && d == Derived([row], d.id, Whole, None, [Col(0, 0)])
    requires list == [Elem(d, true, Some(NullTerm)), Elem(d, false, None)]
    ensures Joined(i, list, 0) == [[Some(row), None]]
  {
    OneRow(i, d, row);
    OneJoined(i, row);
    assert Joined(i, list, 2) == [[]];
    assert Joined(i, list, 1) == [[Some(row)]];
  }

  lemma {:induction false} RepeatedWritten(d: Unit, row: Row, list: seq<Elem>)
    requires |row| == 1 && d == Derived([row], d.id, Whole, None, [Col(0, 0)])
    requires list == [Elem(d, true, Some(NullTerm)), Elem(d, false, None)]
    ensures Written(list, 0).Some?
    ensures var st := Written(list, 0).value;
      && Subst(Col(0, 0), st.names) == Col(1, 0) && st.wheres == []
      && st.from == [SqlElem(TableAs([row]), false, []),
                     SqlElem(Subquery([row], None, d.columns, Whole), true, [NullTerm])]
  {
    assert Written(list, 2) == Some(START);
    var first := WriteElem(list[1], START);
    assert Written(list, 1) == Some(first) && first.names == Names([Some(d)], map[d := Here(0)], map[]);
    var st := WriteElem(list[0], first);
    assert Repeats(list[0], first);
    assert Written(list, 0) == Some(st);
    assert st.names == Names([Some(d), Some(d)], map[d := Inside], map[d := 1]);
    assert [NullTerm] + [] == [NullTerm] && first.from == [SqlElem(TableAs([row]), false, [])];
    assert st.from == first.from + [SqlElem(Subquery([row], None, d.columns, Whole), true, [NullTerm])];
    assert st.names.views[d] == 1 && st.wheres == [];
  }

  lemma {:induction false} RepeatedSql(i: Meaning, d: Unit, row: Row, st: State)
    requires i.truth(Null) != Yes
    requires |row| == 1 && d == Derived([row], d.id, Whole, None, [Col(0, 0)])
    requires st.from == [SqlElem(TableAs([row]), false, []),
                         SqlElem(Subquery([row], None, d.columns, Whole), true, [NullTerm])]
    ensures SqlJoined(i, st.from) == [[Some(row), None]]
  {
    OneRow(i, d, row);
    OneJoined(i, row);
    var one := st.from[..1];
    assert one == [st.from[0]] && one[..0] == [];
    assert SqlJoined(i, one[..0]) == [[]];
    assert SqlJoined(i, one) == [[Some(row)]];
  }

  lemma {:induction false} OnlySelected(i: Meaning, t: Term, env: Env)
    ensures Select(i, [t], [env]) == [[Eval(i, env, t)]]
  {
    var envs := [env];
    assert envs[1..] == [] && Select(i, [t], envs[1..]) == [];
    assert Picked(i, [t], env) == [Eval(i, env, t)];
  }

  lemma {:induction false} OneRow(i: Meaning, d: Unit, row: Row)
    requires d == Derived([row], d.id, Whole, None, [Col(0, 0)]) && |row| == 1
    ensures RefRows(i, d) == [row]
  {
    var table := [row];
    assert table[1..] == [];
    assert DerivedRows(i, None, d.columns, table[1..]) == [];
    assert RowOf(i, d.columns, row) == row;
    assert Holds(i, [Some(row)], Optional(d.where));
    assert DerivedRows(i, None, d.columns, table) == [row] + [];
  }

  /** The joins of the example: on both sides, with one row each. */
  lemma {:induction false} OneJoined(i: Meaning, row: Row)
    requires i.truth(Null) != Yes
    ensures Join(i, false, [], [[]], [row]) == [[Some(row)]]
    ensures Join(i, true, [NullTerm], [[Some(row)]], [row]) == [[Some(row), None]]
  {
    OneMatch(i, false, [], [], row);
    OneMatch(i, true, [NullTerm], [Some(row)], row);
    HoldsOne(i, [Some(row)] + [Some(row)], NullTerm);
    assert [] + [Some(row)] == [Some(row)] && [Some(row)] + [None] == [Some(row), None];
  }

  lemma {:induction false} OneMatch(i: Meaning, outer: bool, on: seq<Term>, env: Env, row: Row)
    ensures Join(i, outer, on, [env], [row]) ==
            if Holds(i, env + [Some(row)], on) then [env + [Some(row)]]
            else if outer then [env + [None]] else []
  {
    var envs, rows := [env], [row];
    assert envs[1..] == [] && rows[1..] == [];
    assert Matches(i, on, env, rows[1..]) == [] && Join(i, outer, on, envs[1..], rows) == [];
  }

  /** The field check is needed, for any other column: complemented with
      NULLs, a merged one reads what it computes over NULLs, where MariaDB's
      derived table reads NULL. Both agree on every column exactly when that
      is NULL too. */
  lemma {:induction false} ComplementedColumns(i: Meaning, unit: Unit)
    ensures var names := Names([Some(unit)], map[unit := Here(0)], map[]);
      (forall c :: 0 <= c < |unit.columns| ==>
         Eval(i, Lift(i, names, [None]), Col(0, c)) == Eval(i, [None], Subst(Col(0, c), names)))
      <==> forall c :: 0 <= c < |unit.columns| ==> Eval(i, [None], Shift(unit.columns[c], 0)) == Null
  {
    var names := Names([Some(unit)], map[unit := Here(0)], map[]);
    forall c | 0 <= c < |unit.columns|
      ensures Eval(i, Lift(i, names, [None]), Col(0, c)) == Null
      ensures Subst(Col(0, c), names) == Shift(unit.columns[c], 0)
    {
    }
  }
}
