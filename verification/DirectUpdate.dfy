/** The direct UPDATE: `Gen::modify` and `Gen::assignment`
    (`stoolap_sqlgen.cc`) compile MariaDB's left-to-right, strict-mode SET into
    one simultaneous Stoolap UPDATE, and `try_direct_modify`
    (`ha_stoolap_select.cc`) runs it between two counts. */
module DirectUpdate {
  import opened Values
  import opened SqlExpr
  import opened SqlMeaning

  // -------------------------------------------------------------------- tables

  /** How a column stores what is assigned to it. */
  datatype Storage =
    | Bits(bits: int, unsigned: bool)
    | Whole
    | Year
    | Float(rounds: bool)
    | VarChar(chars: nat)
    | LongText(bytes: nat)
    | Foreign

  /** `checks` are its CHECK constraints, and `stamps` its ON UPDATE columns, each
      with the value the clock has for it during the statement. */
  datatype Table = Table(columns: seq<Column>, storage: seq<Storage>, key: Option<nat>,
                         checks: seq<Item>, stamps: map<nat, MValue>)

  predicate Fitting(kind: ColumnType, st: Storage) {
    match st
    case Bits(bits, unsigned) => (bits == 8 || bits == 16 || bits == 24 || bits == 32) && kind == Int(unsigned)
    case Whole => kind == BigInt(false)
    case Year => kind.Int?
    case Float(_) => kind == Double
    case VarChar(_) => kind.Char?
    case LongText(_) => kind.Char?
    case Foreign => true
  }

  ghost predicate ValidTable(def: Table) {
    && |def.storage| == |def.columns|
    && (forall c :: 0 <= c < |def.columns| ==> Fitting(def.columns[c].kind, def.storage[c]))
    && (def.key.Some? ==> def.key.value < |def.columns|)
  }

  /** The values MariaDB documents for TINYINT, SMALLINT, MEDIUMINT and INT. */
  function Least(st: Storage): int
    requires st.Bits?
  {
    if st.unsigned then 0
    else if st.bits == 8 then -128
    else if st.bits == 16 then -32768
    else if st.bits == 24 then -8388608
    else -2147483648
  }

  function Most(st: Storage): int
    requires st.Bits?
  {
    if st.unsigned then
      if st.bits == 8 then 255 else if st.bits == 16 then 65535 else if st.bits == 24 then 16777215 else 4294967295
    else
      if st.bits == 8 then 127 else if st.bits == 16 then 32767 else if st.bits == 24 then 8388607 else 2147483647
  }

  function CharBytes(c: char): nat {
    if c < '\U{80}' then 1 else if c as int < 0x800 then 2 else if c as int < 0x1_0000 then 3 else 4
  }

  function Bytes(s: string): nat {
    if s == [] then 0 else CharBytes(s[0]) + Bytes(s[1..])
  }

  predicate WhiteSpace(c: char) {
    c == ' ' || c == '\t' || c == '\n' || c == '\U{0b}' || c == '\U{0c}' || c == '\r'
  }

  predicate AllWhite(s: string) {
    forall i :: 0 <= i < |s| ==> WhiteSpace(s[i])
  }

  // ------------------------------------------------------------ MariaDB's UPDATE

  const OUT_OF_RANGE := "ER_WARN_DATA_OUT_OF_RANGE"
  const TOO_LONG := "ER_DATA_TOO_LONG"
  const BAD_NULL := "ER_BAD_NULL_ERROR"
  const CHECK_FAILED := "ER_CONSTRAINT_FAILED"

  function Zero(st: Storage): MValue {
    match st
    case Float(_) => MReal(0.0)
    case VarChar(_) => MStr("")
    case LongText(_) => MStr("")
    case _ => MInt(0)
  }

  /** `Field::store`: strict mode refuses what the column cannot hold, and
      otherwise it is clipped. Past a VARCHAR only ASCII white space is cut
      without an error. */
  function Store(strict: bool, st: Storage, notNull: bool, v: MValue): Result<MValue> {
    if v == MNull then
      if !notNull then Ok(MNull) else if strict then Err(BAD_NULL) else Ok(Zero(st))
    else match st
      case Bits(_, _) =>
        if !v.MInt? then Ok(MOther(0))
        else if Least(st) <= v.i <= Most(st) then Ok(v)
        else if strict then Err(OUT_OF_RANGE)
        else Ok(MInt(if v.i < Least(st) then Least(st) else Most(st)))
      case Whole => Ok(v)
      case Float(rounds) => if v.MInt? && !rounds then Ok(MReal(v.i as real)) else if rounds then Ok(MOther(0)) else Ok(v)
      case VarChar(chars) =>
        if !v.MStr? then Ok(MOther(0))
        else if |v.s| <= chars then Ok(v)
        else if AllWhite(v.s[chars..]) || !strict then Ok(MStr(v.s[..chars]))
        else Err(TOO_LONG)
      case LongText(bytes) =>
        if !v.MStr? then Ok(MOther(0))
        else if Bytes(v.s) <= bytes then Ok(v)
        else if strict then Err(TOO_LONG) else Ok(MOther(0))
      case _ => Ok(MOther(0))
  }

  /** What a column may hold. */
  predicate Holds(st: Storage, v: MValue) {
    v == MNull ||
    match st
    case Bits(_, _) => v.MInt? && Least(st) <= v.i <= Most(st)
    case VarChar(chars) => v.MStr? && |v.s| <= chars
    case _ => true
  }

  type MRow = seq<MValue>
  type SRow = seq<SValue>

  datatype Set = Set(column: nat, value: Item)

  /** SET assigns in order, each value over the row as the ones before left it. */
  function SetAll(w: World, def: Table, strict: bool, sets: seq<Set>, row: MRow): Result<MRow>
    requires |def.storage| == |def.columns|
    decreases |sets|
  {
    if sets == [] then Ok(row)
    else
      var c := sets[0].column;
      if c >= |row| || c >= |def.columns| then Err("no such column")
      else
        var v :- M(w, row, sets[0].value);
        var x :- Store(strict, def.storage[c], def.columns[c].notNull, v);
        SetAll(w, def, strict, sets[1..], row[c := x])
  }

  function Takes(w: World, where: Option<Item>, row: MRow): Result<bool> {
    if where.None? then Ok(true)
    else
      var v :- M(w, row, where.value);
      Ok(TruthM(w, v) == Yes)
  }

  predicate IsTarget(sets: seq<Set>, c: nat) {
    exists i :: 0 <= i < |sets| && sets[i].column == c
  }

  /** A changed row gets the clock's value in each ON UPDATE column not set. */
  function Stamped(def: Table, sets: seq<Set>, row: MRow): MRow {
    seq(|row|, c requires 0 <= c < |row| => if c in def.stamps && !IsTarget(sets, c) then def.stamps[c] else row[c])
  }

  /** The row passes its CHECKs: none is FALSE of it. */
  function Passes(w: World, checks: seq<Item>, row: MRow): Result<bool>
    decreases |checks|
  {
    if checks == [] then Ok(true)
    else
      var v :- M(w, row, checks[0]);
      if TruthM(w, v) == No then Ok(false) else Passes(w, checks[1..], row)
  }

  /** One row of MariaDB's UPDATE: None when the condition does not take it. Only a
      row SET changes is stamped, checked and written. */
  function RowM(w: World, def: Table, strict: bool, where: Option<Item>, sets: seq<Set>, row: MRow): Result<Option<MRow>>
    requires |def.storage| == |def.columns|
  {
    var taken :- Takes(w, where, row);
    if !taken then Ok(None)
    else
      var next :- SetAll(w, def, strict, sets, row);
      if next == row then Ok(Some(row))
      else
        var written := Stamped(def, sets, next);
        var passes :- Passes(w, def.checks, written);
        if passes then Ok(Some(written)) else Err(CHECK_FAILED)
  }

  datatype MResult = MResult(rows: seq<MRow>, found: nat, changed: nat)

  /** The statement: it writes the rows its condition takes, counts them as
      found and those it changes as changed, and fails as a whole. */
  function UpdateM(w: World, def: Table, strict: bool, where: Option<Item>, sets: seq<Set>, rows: seq<MRow>): Result<MResult>
    requires |def.storage| == |def.columns|
  {
    if rows == [] then Ok(MResult([], 0, 0))
    else
      var next :- RowM(w, def, strict, where, sets, rows[0]);
      var rest :- UpdateM(w, def, strict, where, sets, rows[1..]);
      if next.None? then Ok(rest.(rows := [rows[0]] + rest.rows))
      else Ok(MResult([next.value] + rest.rows, rest.found + 1,
                      rest.changed + if next.value != rows[0] then 1 else 0))
  }

  // ------------------------------------------------------------------ generator

  /** One column of the statement: `value` is what it sets, `stored` what the
      column would hold, and `guard` the error MariaDB has for a value the
      column cannot hold, for which `value` overflows. */
  datatype Assign = Assign(column: nat, value: Sql, stored: Sql, guard: Option<string>)

  datatype Count = Count(where: Option<Sql>, oneRow: bool)

  datatype Statement = Statement(where: Option<Sql>, sets: seq<Assign>, count: Option<Count>, guard: Option<string>)

  /** `1 << n`. */
  function Shift(n: int): int {
    if n <= 0 then 1 else 2 * Shift(n - 1)
  }

  /** An INT column's range as the generator computes it (`int_range`). */
  function Low(st: Storage): int
    requires st.Bits?
  {
    if st.unsigned then 0 else -Shift(st.bits - 1)
  }

  function High(st: Storage): int
    requires st.Bits?
  {
    if st.unsigned then Shift(st.bits) - 1 else Shift(st.bits - 1) - 1
  }

  predicate IsLiteral(it: Item) {
    it.IntConst? || it.RealConst? || it.DecConst? || it.StrConst?
  }

  function Plain(c: nat, value: Sql): Assign {
    Assign(c, value, value, None)
  }

  function RangeGuard(c: nat, e: Sql, lo: int, hi: int): Assign {
    var low, high := Compare(Lt, e, Literal(SInt(lo))), Compare(Gt, e, Literal(SInt(hi)));
    Assign(c, CaseSql(WhenSql(OrSql(ConsSql(low, ConsSql(high, NoSql))), Overflow, ElseSql(e))), e, Some(OUT_OF_RANGE))
  }

  function StripWhite(t: Sql): Sql {
    Replace(Replace(Replace(Replace(Replace(Replace(t, ' '), '\t'), '\n'), '\U{0b}'), '\U{0c}'), '\r')
  }

  function LengthCase(e: Sql, n: nat, otherwise: Sql): Sql {
    var fits := OrSql(ConsSql(NullTest(e, true),
                              ConsSql(Compare(Le, CharLength(e), Literal(SInt(n))), NoSql)));
    var white := Compare(Eq, StripWhite(Substr(e, n, None)), Literal(SText("")));
    CaseSql(WhenSql(fits, e, WhenSql(white, Substr(e, 0, Some(n)), ElseSql(otherwise))))
  }

  function LengthGuard(c: nat, e: Sql, n: nat): Assign {
    Assign(c, LengthCase(e, n, Overflow), LengthCase(e, n, e), Some(TOO_LONG))
  }

  /** The SET value for a column, or None for one Stoolap would not store as
      MariaDB does. */
  function AssignmentOf(g: Gen, def: Table, strict: bool, c: nat, v: Item): Option<Assign>
    requires |def.storage| == |def.columns|
  {
    if c >= |def.columns| then None
    else if v.NullConst? then
      if def.columns[c].notNull then None else Some(Plain(c, Literal(SNull)))
    else
      var target, value := ColumnInfo(def.columns[c].kind).cls, Typed(g.schema, v).cls;
      if def.columns[c].notNull && MaybeNull(g.schema, v) then None
      else if target == UNSAFE || (target != value && !(target == REAL && value == INT)) then None
      else
        var e :- ExprOf(g, v);
        Accepted(def, strict, c, v, e)
  }

  function Accepted(def: Table, strict: bool, c: nat, v: Item, e: Sql): Option<Assign>
    requires |def.storage| == |def.columns| && c < |def.columns|
  {
    var st := def.storage[c];
    match st
    case Bits(_, _) =>
      if v.IntConst? then if Low(st) <= v.i <= High(st) then Some(Plain(c, e)) else None
      else if strict then Some(RangeGuard(c, e, Low(st), High(st))) else None
    case Whole => Some(Plain(c, e))
    case Float(rounds) =>
      if rounds then None else Some(Plain(c, ArithSql(Plus, e, Literal(SFloat(0.0)))))
    case VarChar(chars) =>
      if v.StrConst? then if |v.s| <= chars then Some(Plain(c, e)) else None
      else if strict then Some(LengthGuard(c, e, chars)) else None
    case LongText(bytes) =>
      if v.StrConst? && Bytes(v.s) <= bytes then Some(Plain(c, e)) else None
    case _ => None
  }

  /** The SET list: no value reads a column set before it, and one value at
      most is guarded. */
  function AssignAll(g: Gen, def: Table, strict: bool, guarded: bool, sets: seq<Set>): Option<seq<Assign>>
    requires |def.storage| == |def.columns|
    decreases |sets|
  {
    if sets == [] then Some([])
    else
      var a :- AssignmentOf(g, def, strict, sets[0].column, sets[0].value);
      if a.guard.Some? && guarded then None
      else
        var rest :- AssignAll(g.(written := g.written + {sets[0].column}), def, strict,
                              guarded || a.guard.Some?, sets[1..]);
        Some([a] + rest)
  }

  function GuardOf(sets: seq<Assign>): Option<string>
    decreases |sets|
  {
    if sets == [] then None
    else if sets[0].guard.Some? then sets[0].guard else GuardOf(sets[1..])
  }

  /** `column IS DISTINCT FROM stored`, one for each assignment, ORed. */
  function Changes(sets: seq<Assign>): Sqls
    decreases |sets|
  {
    if sets == [] then NoSql
    else ConsSql(Distinct(ColumnRef(sets[0].column), sets[0].stored), Changes(sets[1..]))
  }

  /** The condition guards the rest, with NULL taken for FALSE where it can be. */
  function WhereOf(where: Option<Sql>, maybeNull: bool, changes: Option<Sql>): Option<Sql> {
    if changes.None? then where
    else if where.None? then changes
    else
      var last := ConsSql(changes.value, NoSql);
      Some(AndSql(ConsSql(where.value, if maybeNull then ConsSql(NullTest(where.value, false), last) else last)))
  }

  /** No two rows can meet the condition: it is, or has among its ANDed parts, an
      equality of the primary key's one column with a literal. */
  predicate PkEquality(it: Item, key: nat)
    decreases it
  {
    match it
    case And(args) => AnyPkEquality(args, key)
    case Cmp(op, a, b, _) =>
      op == Eq && ((a == Field(key) && IsLiteral(b)) || (b == Field(key) && IsLiteral(a)))
    case _ => false
  }

  predicate AnyPkEquality(args: Items, key: nat)
    decreases args
  {
    args.Cons? && (PkEquality(args.head, key) || AnyPkEquality(args.tail, key))
  }

  function ConditionSql(g: Gen, where: Option<Item>): Option<Option<Sql>> {
    if where.None? then Some(None)
    else
      var t :- ConditionOf(g, where.value);
      Some(Some(t))
  }

  /** The whole statement. `changedOnly` is false under
      CLIENT_FOUND_ROWS. */
  function ModifyOf(g: Gen, def: Table, strict: bool, changedOnly: bool, where: Option<Item>, sets: seq<Set>): Option<Statement>
    requires |def.storage| == |def.columns|
  {
    if def.checks != [] || def.stamps != map[] then None
    else
      var assigns :- AssignAll(g, def, strict, false, sets);
      var cond :- ConditionSql(g, where);
      Some(StatementOf(g, def, changedOnly, where, cond, assigns))
  }

  function StatementOf(g: Gen, def: Table, changedOnly: bool, where: Option<Item>, cond: Option<Sql>,
                       assigns: seq<Assign>): Statement
  {
    if !changedOnly || assigns == [] then Statement(cond, assigns, None, GuardOf(assigns))
    else Statement(WhereOf(cond, where.Some? && MaybeNull(g.schema, where.value), Some(OrSql(Changes(assigns)))),
                   assigns,
                   Some(Count(cond, where.Some? && def.key.Some? && PkEquality(where.value, def.key.value))),
                   GuardOf(assigns))
  }

  // ------------------------------------------------------------ Stoolap's UPDATE

  function Selected(where: Option<Sql>, row: SRow): Result<bool> {
    if where.None? then Ok(true)
    else
      var v :- S(row, where.value);
      var t :- TruthS(v);
      Ok(t == Yes)
  }

  /** Every SET value reads the old row. */
  function ValuesOf(sets: seq<Assign>, row: SRow): Result<seq<SValue>>
    decreases |sets|
  {
    if sets == [] then Ok([])
    else
      var v :- S(row, sets[0].value);
      var rest :- ValuesOf(sets[1..], row);
      Ok([v] + rest)
  }

  function Put(row: SRow, sets: seq<Assign>, values: seq<SValue>): SRow
    decreases |sets|
  {
    if sets == [] || values == [] then row
    else Put(if sets[0].column < |row| then row[sets[0].column := values[0]] else row, sets[1..], values[1..])
  }

  function RowS(where: Option<Sql>, sets: seq<Assign>, row: SRow): Result<Option<SRow>> {
    var taken :- Selected(where, row);
    if !taken then Ok(None)
    else
      var values :- ValuesOf(sets, row);
      Ok(Some(Put(row, sets, values)))
  }

  function UpdateS(where: Option<Sql>, sets: seq<Assign>, rows: seq<SRow>): Result<(seq<SRow>, nat)> {
    if rows == [] then Ok(([], 0))
    else
      var next :- RowS(where, sets, rows[0]);
      var rest :- UpdateS(where, sets, rows[1..]);
      if next.None? then Ok(([rows[0]] + rest.0, rest.1)) else Ok(([next.value] + rest.0, rest.1 + 1))
  }

  function CountS(where: Option<Sql>, rows: seq<SRow>): Result<nat> {
    if rows == [] then Ok(0)
    else
      var taken :- Selected(where, rows[0]);
      var rest :- CountS(where, rows[1..]);
      Ok(rest + if taken then 1 else 0)
  }

  // ---------------------------------------------------------- try_direct_modify

  /** What a failed UPDATE reports: the guard's error for the guard's overflow,
      and Stoolap's own otherwise. */
  function Reported(guard: Option<string>, message: string): string {
    if guard.Some? && message == GUARD_OVERFLOW then guard.value else message
  }

  datatype Outcome = Outcome(rows: seq<SRow>, affected: nat, found: nat)

  /** A condition that takes one row at most is counted after, and only when
      nothing changed; any other before, and a count that fails leaves the
      changed rows' count. */
  function TryOf(stmt: Statement, rows: seq<SRow>): Result<Outcome> {
    var before := if stmt.count.Some? && !stmt.count.value.oneRow then CountS(stmt.count.value.where, rows) else Err("");
    var done := UpdateS(stmt.where, stmt.sets, rows);
    if done.Err? then Err(Reported(stmt.guard, done.message))
    else
      var (after, affected) := done.value;
      var count := if stmt.count.Some? && stmt.count.value.oneRow then
                     if affected > 0 then Ok(affected) else CountS(stmt.count.value.where, after)
                   else before;
      Ok(Outcome(after, affected, if count.Ok? then count.value else affected))
  }

  /** The Stoolap table, run a statement at a time. */
  class Engine {
    var rows: seq<SRow>

    constructor (initial: seq<SRow>)
      ensures rows == initial
    {
      rows := initial;
    }

    /** `SELECT COUNT(*)` with a condition. */
    method CountRows(where: Option<Sql>) returns (n: Option<nat>)
      ensures n == (var c := CountS(where, rows); if c.Ok? then Some(c.value) else None)
    {
      var total := 0;
      var i := |rows|;
      n := Some(0);
      assert rows[i..] == [];
      while i > 0
        invariant 0 <= i <= |rows|
        invariant n == (var c := CountS(where, rows[i..]); if c.Ok? then Some(c.value) else None)
      {
        i := i - 1;
        assert rows[i..][0] == rows[i] && rows[i..][1..] == rows[i + 1..];
        var taken := Selected(where, rows[i]);
        n := if taken.Err? || n.None? then None else Some(n.value + if taken.value then 1 else 0);
      }
      assert rows[0..] == rows;
    }

    /** One UPDATE, which takes effect as a whole or not at all. */
    method Execute(where: Option<Sql>, sets: seq<Assign>) returns (affected: Result<nat>)
      modifies this
      ensures var r := UpdateS(where, sets, old(rows));
        if r.Err? then affected == Err(r.message) && rows == old(rows)
        else affected == Ok(r.value.1) && rows == r.value.0
    {
      var r := UpdateS(where, sets, rows);
      if r.Err? {
        affected := Err(r.message);
      } else {
        rows := r.value.0;
        affected := Ok(r.value.1);
      }
    }

    /** `try_direct_modify`, past the statement's generation. */
    method TryDirectModify(stmt: Statement) returns (r: Result<(nat, nat)>)
      modifies this
      ensures var t := TryOf(stmt, old(rows));
        if t.Err? then r == Err(t.message) && rows == old(rows)
        else r == Ok((t.value.affected, t.value.found)) && rows == t.value.rows
    {
      var found: Option<nat> := None;
      if stmt.count.Some? && !stmt.count.value.oneRow {
        found := CountRows(stmt.count.value.where);
      }
      var affected := Execute(stmt.where, stmt.sets);
      if affected.Err? {
        return Err(Reported(stmt.guard, affected.message));
      }
      if stmt.count.Some? && stmt.count.value.oneRow {
        if affected.value > 0 {
          found := Some(affected.value);
        } else {
          found := CountRows(stmt.count.value.where);
        }
      }
      return Ok((affected.value, if found.Some? then found.value else affected.value));
    }
  }

  /** `Gen::modify`: the SET list grows the statement one column at a time,
      with the columns it has set and its one guard kept aside. */
  class Modifier {
    const schema: seq<Column>
    const trust: bool
    var written: set<nat>
    var guard: Option<string>
    var sets: seq<Assign>

    constructor (schema: seq<Column>, trust: bool)
      ensures this.schema == schema && this.trust == trust && written == {} && guard == None && sets == []
    {
      this.schema := schema;
      this.trust := trust;
      written := {};
      guard := None;
      sets := [];
    }

    /** `Gen::assignment` for one column: its SQL, its guard if it needs one,
        and the column no later value may read. */
    method AssignOne(def: Table, strict: bool, target: Set) returns (ok: bool)
      requires |def.storage| == |def.columns| && guard == GuardOf(sets)
      modifies this
      ensures var a := AssignmentOf(Gen(schema, trust, old(written)), def, strict, target.column, target.value);
        && ok == (a.Some? && (a.value.guard.None? || old(guard).None?))
        && (ok ==> sets == old(sets) + [a.value] && written == old(written) + {target.column} &&
                   guard == GuardOf(sets) && guard.Some? == (old(guard).Some? || a.value.guard.Some?))
    {
      var a := AssignmentOf(Gen(schema, trust, written), def, strict, target.column, target.value);
      if a.None? || (a.value.guard.Some? && guard.Some?) {
        return false;
      }
      GuardOfAppended(sets, a.value);
      if a.value.guard.Some? {
        guard := a.value.guard;
      }
      sets := sets + [a.value];
      written := written + {target.column};
      return true;
    }

    /** The loop over the SET list; false when a value is refused. */
    method AssignEach(def: Table, strict: bool, list: seq<Set>) returns (ok: bool)
      requires |def.storage| == |def.columns| && written == {} && guard == None && sets == []
      modifies this
      ensures var a := AssignAll(Gen(schema, trust, {}), def, strict, false, list);
        ok == a.Some? && (ok ==> sets == a.value && guard == GuardOf(sets))
    {
      var i := 0;
      ghost var all := AssignAll(Gen(schema, trust, {}), def, strict, false, list);
      assert list[0..] == list;
      JoinedNone(all);
      while i < |list|
        invariant 0 <= i <= |list|
        invariant guard == GuardOf(sets)
        invariant all == Rest(Gen(schema, trust, written), def, strict, guard.Some?, list, i, sets)
      {
        AssignStep(Gen(schema, trust, written), def, strict, guard.Some?, list, i, sets);
        var more := AssignOne(def, strict, list[i]);
        if !more {
          return false;
        }
        i := i + 1;
      }
      assert list[i..] == [] && sets + [] == sets;
      return true;
    }

    method Modify(def: Table, strict: bool, changedOnly: bool, where: Option<Item>, list: seq<Set>)
      returns (stmt: Option<Statement>)
      requires |def.storage| == |def.columns| && written == {} && guard == None && sets == []
      modifies this
      ensures stmt == ModifyOf(Gen(schema, trust, {}), def, strict, changedOnly, where, list)
      ensures stmt.Some? ==> written == {} && stmt.value.guard == guard
    {
      if def.checks != [] || def.stamps != map[] {
        return None;
      }
      var ok := AssignEach(def, strict, list);
      if !ok {
        return None;
      }
      written := {};
      var g := Gen(schema, trust, {});
      var cond := ConditionSql(g, where);
      if cond.None? {
        return None;
      }
      stmt := Some(StatementOf(g, def, changedOnly, where, cond.value, sets));
    }
  }

  ghost function Rest(g: Gen, def: Table, strict: bool, guarded: bool, list: seq<Set>, i: nat, done: seq<Assign>):
    Option<seq<Assign>>
    requires |def.storage| == |def.columns| && i <= |list|
  {
    Joined(done, AssignAll(g, def, strict, guarded, list[i..]))
  }

  /** One turn of the loop. */
  lemma {:induction false} AssignStep(g: Gen, def: Table, strict: bool, guarded: bool, list: seq<Set>, i: nat,
                                      done: seq<Assign>)
    requires |def.storage| == |def.columns| && i < |list|
    ensures var a := AssignmentOf(g, def, strict, list[i].column, list[i].value);
      Rest(g, def, strict, guarded, list, i, done) ==
      if a.None? || (a.value.guard.Some? && guarded) then None
      else Rest(g.(written := g.written + {list[i].column}), def, strict, guarded || a.value.guard.Some?, list, i + 1,
                done + [a.value])
  {
    assert list[i..][0] == list[i] && list[i..][1..] == list[i + 1..];
    var a := AssignmentOf(g, def, strict, list[i].column, list[i].value);
    if a.Some? {
      JoinedStep(done, a.value, AssignAll(g.(written := g.written + {list[i].column}), def, strict,
                                          guarded || a.value.guard.Some?, list[i + 1..]));
    }
  }

  ghost function Joined(done: seq<Assign>, rest: Option<seq<Assign>>): Option<seq<Assign>> {
    if rest.None? then None else Some(done + rest.value)
  }

  lemma {:induction false} JoinedNone(rest: Option<seq<Assign>>)
    ensures Joined([], rest) == rest
  {
    if rest.Some? {
      assert [] + rest.value == rest.value;
    }
  }

  lemma {:induction false} JoinedStep(done: seq<Assign>, a: Assign, rest: Option<seq<Assign>>)
    ensures Joined(done, if rest.None? then None else Some([a] + rest.value)) == Joined(done + [a], rest)
  {
    if rest.Some? {
      assert done + ([a] + rest.value) == done + [a] + rest.value;
    }
  }

  lemma {:induction false} GuardOfAppended(sets: seq<Assign>, a: Assign)
    ensures GuardOf(sets + [a]) == if GuardOf(sets).Some? then GuardOf(sets) else a.guard
    decreases |sets|
  {
    if sets != [] {
      GuardOfAppended(sets[1..], a);
      assert (sets + [a])[1..] == sets[1..] + [a];
    }
  }
}
