/** What an accepted direct UPDATE does, against MariaDB's own. */
module UpdateMeaning {
  import opened Values
  import opened SqlExpr
  import opened SqlMeaning
  import opened DirectUpdate

  // ------------------------------------------------------------------ the guards

  function EvalRange(s: Result<SValue>, lo: int, hi: int): Result<SValue> {
    var v :- s;
    if v.SInt? && (v.i < lo || v.i > hi) then Err(GUARD_OVERFLOW) else Ok(v)
  }

  /** The range check overflows exactly for an integer outside the column. */
  lemma {:induction false} RangeGuardValue(row: SRow, c: nat, e: Sql, lo: int, hi: int)
    requires S(row, e).Ok? ==> S(row, e).value.SInt? || S(row, e).value.SNull?
    ensures S(row, RangeGuard(c, e, lo, hi).value) == EvalRange(S(row, e), lo, hi)
  {
    var low, high := Compare(Lt, e, Literal(SInt(lo))), Compare(Gt, e, Literal(SInt(hi)));
    var test := OrSql(ConsSql(low, ConsSql(high, NoSql)));
    TwoWay(row, test, Overflow, e);
    OutsideValue(row, e, lo, hi);
  }

  lemma {:induction false} OutsideValue(row: SRow, e: Sql, lo: int, hi: int)
    requires S(row, e).Ok? ==> S(row, e).value.SInt? || S(row, e).value.SNull?
    ensures var low, high := Compare(Lt, e, Literal(SInt(lo))), Compare(Gt, e, Literal(SInt(hi)));
      var v := S(row, e);
      S(row, OrSql(ConsSql(low, ConsSql(high, NoSql)))) ==
      if v.Err? then Err(v.message)
      else if v.value.SNull? then Ok(SNull)
      else Ok(SBool(v.value.i < lo || v.value.i > hi))
  {
    var low, high := Compare(Lt, e, Literal(SInt(lo))), Compare(Gt, e, Literal(SInt(hi)));
    OrOfTwo(row, low, high);
    LiteralTest(row, Lt, e, lo);
    LiteralTest(row, Gt, e, hi);
  }

  lemma {:induction false} LiteralTest(row: SRow, op: CmpOp, e: Sql, i: int)
    ensures S(row, Compare(op, e, Literal(SInt(i)))) == EvalTest(op, S(row, e), i)
  {
    PairValue(Compare(op, e, Literal(SInt(i))), row);
    assert S(row, Literal(SInt(i))) == Ok(SInt(i));
  }

  function EvalTest(op: CmpOp, s: Result<SValue>, i: int): Result<SValue> {
    var v :- s;
    Ok(SOf(TestS(op, v, SInt(i))))
  }

  lemma {:induction false} OrOfTwo(row: SRow, t: Sql, u: Sql)
    ensures S(row, OrSql(ConsSql(t, ConsSql(u, NoSql)))) == EitherS(S(row, t), S(row, u))
  {
    OrOfOne(row, u, false);
    OrOfOne(row, u, true);
    assert S(row, OrSql(ConsSql(t, ConsSql(u, NoSql)))) == Truth(AnyS(row, ConsSql(t, ConsSql(u, NoSql)), false), false);
  }

  lemma {:induction false} OrOfOne(row: SRow, u: Sql, unknown: bool)
    ensures AnyS(row, ConsSql(u, NoSql), unknown) == OneOf(S(row, u), unknown)
  {
    assert AnyS(row, NoSql, false) == Ok(No) && AnyS(row, NoSql, true) == Ok(Unknown);
  }

  function OneOf(u: Result<SValue>, unknown: bool): Result<Tri> {
    var y :- u;
    var q :- TruthS(y);
    Ok(if q == Yes then Yes else if unknown || q == Unknown then Unknown else No)
  }

  function EitherS(t: Result<SValue>, u: Result<SValue>): Result<SValue> {
    var x :- t;
    var p :- TruthS(x);
    if p == Yes then Ok(SBool(true))
    else
      var y :- u;
      var q :- TruthS(y);
      Ok(SOf(if q == Yes then Yes else if p == Unknown || q == Unknown then Unknown else No))
  }

  // strings

  lemma {:induction false} WithoutElements(s: string, c: char)
    ensures forall x :: x in Without(s, c) <==> x in s && x != c
  {
    if s != [] {
      WithoutElements(s[1..], c);
      assert s == [s[0]] + s[1..];
    }
  }

  function Stripped(s: string): string {
    Without(Without(Without(Without(Without(Without(s, ' '), '\t'), '\n'), '\U{0b}'), '\U{0c}'), '\r')
  }

  lemma {:induction false} StrippedEmpty(s: string)
    ensures Stripped(s) == [] <==> AllWhite(s)
  {
    var a := Without(s, ' ');
    var b := Without(a, '\t');
    var c := Without(b, '\n');
    var d := Without(c, '\U{0b}');
    var e := Without(d, '\U{0c}');
    WithoutElements(s, ' ');
    WithoutElements(a, '\t');
    WithoutElements(b, '\n');
    WithoutElements(c, '\U{0b}');
    WithoutElements(d, '\U{0c}');
    WithoutElements(e, '\r');
    assert forall x :: x in Stripped(s) <==> x in s && !WhiteSpace(x);
    if Stripped(s) == [] {
      assert forall i :: 0 <= i < |s| ==> s[i] in s;
    } else {
      assert Stripped(s)[0] in Stripped(s);
    }
  }

  lemma {:induction false} CompareEmpty(s: string)
    ensures CompareText(s, "") == Same <==> s == []
  {
  }

  function EvalLength(s: Result<SValue>, n: nat, otherwise: Result<SValue>): Result<SValue> {
    var v :- s;
    if !v.SText? || |v.s| <= n then Ok(v)
    else if AllWhite(v.s[n..]) then Ok(SText(v.s[..n]))
    else otherwise
  }

  lemma {:induction false} StripValue(row: SRow, t: Sql)
    ensures S(row, StripWhite(t)) == EvalStrip(S(row, t))
  {
    var a := Replace(t, ' ');
    var b := Replace(a, '\t');
    var c := Replace(b, '\n');
    var d := Replace(c, '\U{0b}');
    var e := Replace(d, '\U{0c}');
    ReplaceValue(row, t, ' ');
    ReplaceValue(row, a, '\t');
    ReplaceValue(row, b, '\n');
    ReplaceValue(row, c, '\U{0b}');
    ReplaceValue(row, d, '\U{0c}');
    ReplaceValue(row, e, '\r');
  }

  lemma {:induction false} ReplaceValue(row: SRow, t: Sql, c: char)
    ensures S(row, Replace(t, c)) == EvalReplace(S(row, t), c)
  {
    UnaryValue(Replace(t, c), row);
  }

  function EvalReplace(s: Result<SValue>, c: char): Result<SValue> {
    var v :- s;
    Ok(if v.SText? then SText(Without(v.s, c)) else SNull)
  }

  function EvalStrip(s: Result<SValue>): Result<SValue> {
    var v :- s;
    Ok(if v.SText? then SText(Stripped(v.s)) else SNull)
  }

  lemma {:induction false} FitsValue(row: SRow, e: Sql, n: nat)
    requires S(row, e).Ok? && (S(row, e).value.SText? || S(row, e).value.SNull?)
    ensures var v := S(row, e).value;
      S(row, OrSql(ConsSql(NullTest(e, true), ConsSql(Compare(Le, CharLength(e), Literal(SInt(n))), NoSql)))) ==
      Ok(SBool(v.SNull? || |v.s| <= n))
  {
    var within := Compare(Le, CharLength(e), Literal(SInt(n)));
    OrOfTwo(row, NullTest(e, true), within);
    LiteralTest(row, Le, CharLength(e), n);
    UnaryValue(NullTest(e, true), row);
    UnaryValue(CharLength(e), row);
  }

  lemma {:induction false} WhiteValue(row: SRow, e: Sql, n: nat)
    requires S(row, e).Ok? && S(row, e).value.SText? && |S(row, e).value.s| > n
    ensures S(row, Compare(Eq, StripWhite(Substr(e, n, None)), Literal(SText("")))) ==
            Ok(SBool(AllWhite(S(row, e).value.s[n..])))
  {
    var rest := S(row, e).value.s[n..];
    var strip := StripWhite(Substr(e, n, None));
    UnaryValue(Substr(e, n, None), row);
    StripValue(row, Substr(e, n, None));
    StrippedEmpty(rest);
    CompareEmpty(Stripped(rest));
    PairValue(Compare(Eq, strip, Literal(SText(""))), row);
    assert S(row, Literal(SText(""))) == Ok(SText(""));
  }

  /** The length check cuts trailing white space past the column and yields
      `otherwise` for anything else past it. */
  lemma {:induction false} LengthCaseValue(row: SRow, e: Sql, n: nat, otherwise: Sql)
    requires S(row, e).Ok? ==> S(row, e).value.SText? || S(row, e).value.SNull?
    ensures S(row, LengthCase(e, n, otherwise)) == EvalLength(S(row, e), n, S(row, otherwise))
  {
    var fits := OrSql(ConsSql(NullTest(e, true), ConsSql(Compare(Le, CharLength(e), Literal(SInt(n))), NoSql)));
    var white := Compare(Eq, StripWhite(Substr(e, n, None)), Literal(SText("")));
    ThreeWay(row, fits, e, white, Substr(e, 0, Some(n)), otherwise);
    var s := S(row, e);
    if s.Ok? {
      FitsValue(row, e, n);
      if s.value.SText? && |s.value.s| > n {
        WhiteValue(row, e, n);
        UnaryValue(Substr(e, 0, Some(n)), row);
        assert s.value.s[0..] == s.value.s;
      }
    } else {
      UnaryValue(NullTest(e, true), row);
      OrOfTwo(row, NullTest(e, true), Compare(Le, CharLength(e), Literal(SInt(n))));
    }
  }

  lemma {:induction false} ThreeWay(row: SRow, c: Sql, x: Sql, d: Sql, y: Sql, z: Sql)
    ensures S(row, CaseSql(WhenSql(c, x, WhenSql(d, y, ElseSql(z))))) ==
            WhenS(S(row, c), S(row, x), WhenS(S(row, d), S(row, y), S(row, z)))
  {
    CaseTree(row, WhenSql(c, x, WhenSql(d, y, ElseSql(z))));
    WhenTree(row, c, x, WhenSql(d, y, ElseSql(z)));
    WhenTree(row, d, y, ElseSql(z));
    ElseTree(row, z);
  }

  // ------------------------------------------------------------- one assignment

  /** The shifts give the column's range. */
  lemma {:induction false} IntRangeIsTheColumns(st: Storage)
    requires st.Bits? && (st.bits == 8 || st.bits == 16 || st.bits == 24 || st.bits == 32)
    ensures Low(st) == Least(st) && High(st) == Most(st)
  {
    assert Shift(8) == 0x100 && Shift(7) == 0x80;
    assert Shift(12) == 0x1000;
    assert Shift(16) == 0x1_0000 && Shift(15) == 0x8000;
    assert Shift(20) == 0x10_0000;
    assert Shift(24) == 0x100_0000 && Shift(23) == 0x80_0000;
    assert Shift(28) == 0x1000_0000;
    assert Shift(32) == 0x1_0000_0000 && Shift(31) == 0x8000_0000;
  }

  ghost predicate Fit(w: World, g: Gen, def: Table) {
    Setting(w, g) && g.schema == def.columns && ValidTable(def)
  }

  function ClsOf(def: Table, c: nat): Cls
    requires c < |def.columns|
  {
    ColumnInfo(def.columns[c].kind).cls
  }

  /** What MariaDB stores for a SET value. */
  function StoredM(w: World, def: Table, strict: bool, c: nat, m: Result<MValue>): Result<MValue>
    requires c < |def.columns| == |def.storage|
  {
    var v :- m;
    Store(strict, def.storage[c], def.columns[c].notNull, v)
  }

  predicate IsRefusal(message: string) {
    message == OUT_OF_RANGE || message == TOO_LONG
  }

  /** MariaDB's two ways to fail, and the message each has in Stoolap: a value
      the column cannot hold is the guard's overflow, and an overflow of the
      expression is its own. */
  predicate SameFailure(guard: Option<string>, m: string, s: string) {
    || (m == INTEGER_OVERFLOW && s == INTEGER_OVERFLOW)
    || (IsRefusal(m) && guard == Some(m) && s == GUARD_OVERFLOW)
  }

  /** No value the column may hold is `s`. */
  ghost predicate NeverHeld(def: Table, c: nat, s: SValue)
    requires c < |def.columns| == |def.storage|
  {
    forall m, held :: Holds(def.storage[c], m) && AgreeValue(ClsOf(def, c), m, held) ==> !SameS(held, s)
  }

  /** The value the statement sets is the one MariaDB stores, `stored` is it
      too, and the guard overflows exactly when strict mode refuses the value;
      `stored` then differs from everything the column may hold. */
  ghost predicate Assigns(def: Table, c: nat, guard: Option<string>, m: Result<MValue>, value: Result<SValue>,
                          stored: Result<SValue>)
    requires c < |def.columns| == |def.storage|
  {
    && m.Err? == value.Err?
    && (m.Ok? ==> AgreeValue(ClsOf(def, c), m.value, value.value) && stored == value)
    && (m.Ok? ==> Holds(def.storage[c], m.value))
    && (m.Ok? && def.columns[c].notNull ==> m.value != MNull)
    && (m.Err? ==> SameFailure(guard, m.message, value.message))
    && (m.Err? && !IsRefusal(m.message) ==> stored == value)
    && (m.Err? && IsRefusal(m.message) ==> stored.Ok? && NeverHeld(def, c, stored.value))
  }

  lemma {:induction false} RangeAssigns(w: World, def: Table, c: nat, m: Result<MValue>, e: Sql, row: SRow)
    requires c < |def.columns| && ValidTable(def) && def.storage[c].Bits?
    requires Agree(INT, m, S(row, e))
    requires def.columns[c].notNull && m.Ok? ==> m.value != MNull
    ensures var a := RangeGuard(c, e, Low(def.storage[c]), High(def.storage[c]));
      Assigns(def, c, a.guard, StoredM(w, def, true, c, m), S(row, a.value), S(row, a.stored))
  {
    IntRangeIsTheColumns(def.storage[c]);
    RangeGuardValue(row, c, e, Low(def.storage[c]), High(def.storage[c]));
  }

  lemma {:induction false} TextSame(s: string, t: string)
    ensures CompareText(s, t) == Same <==> s == t
  {
    if s != [] && t != [] && s[0] == t[0] {
      TextSame(s[1..], t[1..]);
      assert s == [s[0]] + s[1..] && t == [t[0]] + t[1..];
    }
  }

  lemma {:induction false} LongTextNeverHeld(def: Table, c: nat, s: string)
    requires c < |def.columns| && ValidTable(def) && def.storage[c].VarChar? && ClsOf(def, c) == STR
    requires |s| > def.storage[c].chars
    ensures NeverHeld(def, c, SText(s))
  {
    forall m, held | Holds(def.storage[c], m) && AgreeValue(ClsOf(def, c), m, held)
      ensures !SameS(held, SText(s))
    {
      if held.SText? && m.MStr? {
        TextSame(held.s, s);
      }
    }
  }

  lemma {:induction false} LengthAssigns(w: World, def: Table, c: nat, m: Result<MValue>, e: Sql, row: SRow)
    requires c < |def.columns| && ValidTable(def) && def.storage[c].VarChar? && ClsOf(def, c) == STR
    requires Agree(STR, m, S(row, e))
    requires def.columns[c].notNull && m.Ok? ==> m.value != MNull
    ensures var a := LengthGuard(c, e, def.storage[c].chars);
      Assigns(def, c, a.guard, StoredM(w, def, true, c, m), S(row, a.value), S(row, a.stored))
  {
    var n := def.storage[c].chars;
    LengthCaseValue(row, e, n, Overflow);
    LengthCaseValue(row, e, n, e);
    assert S(row, Overflow) == Err(GUARD_OVERFLOW);
    LengthStored(w, def, c, m, S(row, e));
  }

  lemma {:induction false} LengthStored(w: World, def: Table, c: nat, m: Result<MValue>, s: Result<SValue>)
    requires c < |def.columns| && ValidTable(def) && def.storage[c].VarChar? && ClsOf(def, c) == STR
    requires Agree(STR, m, s)
    requires def.columns[c].notNull && m.Ok? ==> m.value != MNull
    ensures var n := def.storage[c].chars;
      Assigns(def, c, Some(TOO_LONG), StoredM(w, def, true, c, m), EvalLength(s, n, Err(GUARD_OVERFLOW)), EvalLength(s, n, s))
  {
    if m.Ok? && m.value.MStr? && |m.value.s| > def.storage[c].chars {
      LongTextNeverHeld(def, c, m.value.s);
    }
  }

  lemma {:induction false} FloatAssigns(w: World, def: Table, strict: bool, c: nat, cls: Cls, m: Result<MValue>, e: Sql, row: SRow)
    requires c < |def.columns| && ValidTable(def) && def.storage[c] == Float(false)
    requires (cls == INT || cls == REAL) && Agree(cls, m, S(row, e))
    requires def.columns[c].notNull && m.Ok? ==> m.value != MNull
    ensures var a := Plain(c, ArithSql(Plus, e, Literal(SFloat(0.0))));
      Assigns(def, c, a.guard, StoredM(w, def, strict, c, m), S(row, a.value), S(row, a.stored))
  {
    var zero := Literal(SFloat(0.0));
    assert S(row, zero) == Ok(SFloat(0.0));
    PairValue(ArithSql(Plus, e, zero), row);
  }

  lemma {:induction false} PlainAssigns(w: World, def: Table, strict: bool, c: nat, m: Result<MValue>, e: Sql, row: SRow)
    requires c < |def.columns| && ValidTable(def)
    requires Agree(ClsOf(def, c), m, S(row, e))
    requires def.columns[c].notNull && m.Ok? ==> m.value != MNull
    requires def.storage[c].Whole? || (m.Ok? && Store(strict, def.storage[c], def.columns[c].notNull, m.value) == m &&
                                       Holds(def.storage[c], m.value))
    ensures Assigns(def, c, None, StoredM(w, def, strict, c, m), S(row, Plain(c, e).value), S(row, Plain(c, e).stored))
  {
  }

  /** Every accepted SET value. */
  lemma {:induction false} AcceptedAssigns(w: World, g: Gen, def: Table, strict: bool, c: nat, v: Item, row: MRow, srow: SRow)
    requires Fit(w, g, def) && SameRow(w, g, row, srow) && Clean(w.schema, v)
    requires c < |def.columns| && AssignmentOf(g, def, strict, c, v).Some?
    requires KeepsNotNull(w.schema, row)
    ensures var a := AssignmentOf(g, def, strict, c, v).value;
      Assigns(def, c, a.guard, StoredM(w, def, strict, c, M(w, row, v)), S(srow, a.value), S(srow, a.stored))
  {
    var m := M(w, row, v);
    if v.NullConst? {
      assert S(srow, Literal(SNull)) == Ok(SNull);
    } else {
      ExprMeans(w, g, v, row, srow);
      if def.columns[c].notNull {
        NotNullMeans(w, row, v);
      }
      AcceptedKinds(w, def, strict, c, v, Typed(g.schema, v).cls, m, ExprOf(g, v).value, srow);
    }
  }

  lemma {:induction false} AcceptedKinds(w: World, def: Table, strict: bool, c: nat, v: Item, cls: Cls,
                                         m: Result<MValue>, e: Sql, srow: SRow)
    requires ValidTable(def) && c < |def.columns| && Accepted(def, strict, c, v, e).Some?
    requires ClsOf(def, c) != UNSAFE && (ClsOf(def, c) == cls || (ClsOf(def, c) == REAL && cls == INT))
    requires Agree(cls, m, S(srow, e))
    requires v.IntConst? ==> m == Ok(MInt(v.i))
    requires v.StrConst? ==> m == Ok(MStr(v.s))
    requires def.columns[c].notNull && m.Ok? ==> m.value != MNull
    ensures var a := Accepted(def, strict, c, v, e).value;
      Assigns(def, c, a.guard, StoredM(w, def, strict, c, m), S(srow, a.value), S(srow, a.stored))
  {
    match def.storage[c]
    case Bits(_, _) => IntAssigns(w, def, strict, c, v, m, e, srow);
    case Whole => PlainAssigns(w, def, strict, c, m, e, srow);
    case Float(_) => FloatAssigns(w, def, strict, c, cls, m, e, srow);
    case VarChar(_) => TextAssigns(w, def, strict, c, v, m, e, srow);
    case LongText(_) => PlainAssigns(w, def, strict, c, m, e, srow);
    case _ =>
  }

  lemma {:induction false} IntAssigns(w: World, def: Table, strict: bool, c: nat, v: Item, m: Result<MValue>, e: Sql,
                                      srow: SRow)
    requires ValidTable(def) && c < |def.columns| && def.storage[c].Bits? && Accepted(def, strict, c, v, e).Some?
    requires ClsOf(def, c) == INT && Agree(INT, m, S(srow, e))
    requires v.IntConst? ==> m == Ok(MInt(v.i))
    requires def.columns[c].notNull && m.Ok? ==> m.value != MNull
    ensures var a := Accepted(def, strict, c, v, e).value;
      Assigns(def, c, a.guard, StoredM(w, def, strict, c, m), S(srow, a.value), S(srow, a.stored))
  {
    IntRangeIsTheColumns(def.storage[c]);
    if v.IntConst? {
      PlainAssigns(w, def, strict, c, m, e, srow);
    } else {
      RangeAssigns(w, def, c, m, e, srow);
    }
  }

  lemma {:induction false} TextAssigns(w: World, def: Table, strict: bool, c: nat, v: Item, m: Result<MValue>, e: Sql,
                                       srow: SRow)
    requires ValidTable(def) && c < |def.columns| && def.storage[c].VarChar? && Accepted(def, strict, c, v, e).Some?
    requires ClsOf(def, c) == STR && Agree(STR, m, S(srow, e))
    requires v.StrConst? ==> m == Ok(MStr(v.s))
    requires def.columns[c].notNull && m.Ok? ==> m.value != MNull
    ensures var a := Accepted(def, strict, c, v, e).value;
      Assigns(def, c, a.guard, StoredM(w, def, strict, c, m), S(srow, a.value), S(srow, a.stored))
  {
    if v.StrConst? {
      PlainAssigns(w, def, strict, c, m, e, srow);
    } else {
      LengthAssigns(w, def, c, m, e, srow);
    }
  }

  // --------------------------------------------------------------- the SET list

  /** A row its columns may hold. */
  ghost predicate HeldRow(def: Table, row: MRow)
    requires |def.storage| == |def.columns|
  {
    && |row| == |def.columns|
    && (forall c :: 0 <= c < |def.columns| ==> Holds(def.storage[c], row[c]))
    && KeepsNotNull(def.columns, row)
  }

  ghost predicate PlainSets(schema: seq<Column>, sets: seq<Set>) {
    forall i :: 0 <= i < |sets| ==> Clean(schema, sets[i].value)
  }

  /** No later assignment has the column: its value is the one that stays. */
  predicate IsFinal(sets: seq<Set>, k: nat)
    requires k < |sets|
  {
    forall j :: k < j < |sets| ==> sets[j].column != sets[k].column
  }

  /** The accepted list's columns are the statement's, and exist. */
  lemma {:induction false} AssignColumns(g: Gen, def: Table, strict: bool, guarded: bool, sets: seq<Set>)
    requires |def.storage| == |def.columns| && AssignAll(g, def, strict, guarded, sets).Some?
    ensures var a := AssignAll(g, def, strict, guarded, sets).value;
      |a| == |sets| && forall k :: 0 <= k < |sets| ==> a[k].column == sets[k].column && sets[k].column < |def.columns|
    decreases |sets|
  {
    if sets != [] {
      var head := AssignmentOf(g, def, strict, sets[0].column, sets[0].value).value;
      AssignColumns(g.(written := g.written + {sets[0].column}), def, strict, guarded || head.guard.Some?, sets[1..]);
    }
  }

  /** What each assignment of a SET stores, the superseded ones included. */
  function StoredValues(w: World, def: Table, strict: bool, sets: seq<Set>, row: MRow): Result<seq<MValue>>
    requires |def.storage| == |def.columns|
    decreases |sets|
  {
    if sets == [] then Ok([])
    else if sets[0].column >= |row| || sets[0].column >= |def.columns| then Err("no such column")
    else
      var x :- StoredM(w, def, strict, sets[0].column, M(w, row, sets[0].value));
      var rest :- StoredValues(w, def, strict, sets[1..], row[sets[0].column := x]);
      Ok([x] + rest)
  }

  /** Some assignment stores another value than the row holds. */
  ghost predicate Differs(sets: seq<Set>, xs: seq<MValue>, row: MRow)
    requires |xs| == |sets|
  {
    exists k :: 0 <= k < |sets| && sets[k].column < |row| && xs[k] != row[sets[k].column]
  }

  /** What a column is set to on both sides: of one with a form of its own, only
      NULL. */
  predicate SetTo(def: Table, c: nat, x: MValue, s: SValue)
    requires c < |def.columns|
  {
    AgreeValue(ClsOf(def, c), x, s) && (ClsOf(def, c) == UNSAFE ==> x == MNull)
  }

  /** Left to right, or all at once over the old row: the same values, the last
      of a column's staying; and `changes` sees every one of them. */
  ghost predicate SameSets(def: Table, guard: Option<string>, sets: seq<Set>, before: MRow, cur: MRow, xs: Result<seq<MValue>>,
                           m: Result<MRow>, values: Result<seq<SValue>>, changes: Result<Tri>)
    requires |def.storage| == |def.columns|
  {
    && m.Err? == values.Err? == xs.Err?
    && (m.Err? ==> SameFailure(guard, m.message, values.message) && (changes == Ok(Yes) || changes == Err(values.message)))
    && (m.Ok? ==>
          && |values.value| == |sets| == |xs.value| && |cur| == |def.columns| && HeldRow(def, m.value)
          && (forall k :: 0 <= k < |sets| ==> sets[k].column < |def.columns|)
          && (forall k :: 0 <= k < |sets| && IsFinal(sets, k) ==>
                m.value[sets[k].column] == xs.value[k] &&
                SetTo(def, sets[k].column, xs.value[k], values.value[k]))
          && (forall c :: 0 <= c < |cur| && !IsTarget(sets, c) ==> m.value[c] == cur[c])
          && changes == Ok(if Differs(sets, xs.value, before) then Yes else No))
  }

  /** One row has been set up to `g.written`: `cur` holds the new values there
      and the old ones, as Stoolap still has them, elsewhere. */
  ghost predicate PartWay(w: World, g: Gen, def: Table, cur: MRow, srow: SRow) {
    && Fit(w, g, def) && SameRow(w, g, cur, srow)
    && HeldRow(def, cur) && |srow| == |def.columns|
  }

  lemma {:induction false} StepKeeps(w: World, g: Gen, def: Table, c: nat, x: MValue, cur: MRow, srow: SRow)
    requires PartWay(w, g, def, cur, srow) && c < |def.columns|
    requires Holds(def.storage[c], x) && (def.columns[c].notNull ==> x != MNull)
    ensures PartWay(w, g.(written := g.written + {c}), def, cur[c := x], srow)
  {
  }

  /** `column IS DISTINCT FROM stored`: whether the row's value changes. */
  lemma {:induction false} DistinctValue(def: Table, c: nat, x: MValue, before: MValue, a: Assign, value: SValue, srow: SRow)
    requires ValidTable(def) && c < |def.columns| == |srow| && a.column == c
    requires ClsOf(def, c) != UNSAFE || x == MNull
    requires AgreeValue(ClsOf(def, c), before, srow[c]) && AgreeValue(ClsOf(def, c), x, value)
    requires S(srow, a.stored) == Ok(value)
    ensures S(srow, Distinct(ColumnRef(c), a.stored)) == Ok(SBool(x != before))
  {
    var t := Distinct(ColumnRef(c), a.stored);
    PairValue(t, srow);
    assert S(srow, ColumnRef(c)) == Ok(srow[c]);
    if x.MStr? && before.MStr? && ClsOf(def, c) == STR {
      TextSame(srow[c].s, value.s);
    }
  }

  /** What one target contributes to `changes`, given how it assigns. */
  lemma {:induction false} TargetChanges(def: Table, c: nat, x: Result<MValue>, before: MValue, a: Assign, srow: SRow)
    requires ValidTable(def) && c < |def.columns| == |srow| && a.column == c
    requires ClsOf(def, c) != UNSAFE || x == Ok(MNull)
    requires Holds(def.storage[c], before)
    requires AgreeValue(ClsOf(def, c), before, srow[c])
    requires Assigns(def, c, a.guard, x, S(srow, a.value), S(srow, a.stored))
    ensures S(srow, Distinct(ColumnRef(c), a.stored)) ==
            (if x.Ok? then Ok(SBool(x.value != before))
             else if IsRefusal(x.message) then Ok(SBool(true))
             else Err(S(srow, a.value).message))
  {
    if x.Ok? {
      DistinctValue(def, c, x.value, before, a, S(srow, a.value).value, srow);
    } else {
      PairValue(Distinct(ColumnRef(c), a.stored), srow);
      assert S(srow, ColumnRef(c)) == Ok(srow[c]);
    }
  }

  lemma {:induction false} AcceptedTarget(g: Gen, def: Table, strict: bool, c: nat, v: Item)
    requires ValidTable(def) && AssignmentOf(g, def, strict, c, v).Some?
    ensures c < |def.columns| && AssignmentOf(g, def, strict, c, v).value.column == c
    ensures !v.NullConst? ==> ClsOf(def, c) != UNSAFE
  {
  }

  /** A row's SET list, by induction over it: MariaDB's left-to-right values
      are Stoolap's simultaneous ones, `changes` is TRUE exactly when one of
      them differs from the row before the statement, and both fail together. */
  lemma {:induction false} SetsMean(w: World, g: Gen, def: Table, strict: bool, guarded: bool, sets: seq<Set>,
                                    before: MRow, cur: MRow, srow: SRow)
    requires PartWay(w, g, def, cur, srow) && AssignAll(g, def, strict, guarded, sets).Some?
    requires PartWay(w, g.(written := {}), def, before, srow) && PlainSets(w.schema, sets)
    ensures var a := AssignAll(g, def, strict, guarded, sets).value;
      SameSets(def, GuardOf(a), sets, before, cur, StoredValues(w, def, strict, sets, cur), SetAll(w, def, strict, sets, cur),
               ValuesOf(a, srow), AnyS(srow, Changes(a), false))
    decreases |sets|
  {
    if sets != [] {
      var c, v := sets[0].column, sets[0].value;
      var a := AssignmentOf(g, def, strict, c, v).value;
      AcceptedTarget(g, def, strict, c, v);
      AcceptedAssigns(w, g, def, strict, c, v, cur, srow);
      var x := StoredM(w, def, strict, c, M(w, cur, v));
      OldValue(w, g, def, before, srow, c);
      TargetChanges(def, c, x, before[c], a, srow);
      var g' := g.(written := g.written + {c});
      if x.Ok? {
        StepKeeps(w, g, def, c, x.value, cur, srow);
        SetsMean(w, g', def, strict, guarded || a.guard.Some?, sets[1..], before, cur[c := x.value], srow);
      }
      SetStep(w, g, def, strict, guarded, sets, before, cur, srow, a, x);
    }
  }

  lemma {:induction false} OldValue(w: World, g: Gen, def: Table, before: MRow, srow: SRow, c: nat)
    requires PartWay(w, g.(written := {}), def, before, srow) && c < |def.columns|
    ensures Holds(def.storage[c], before[c]) && AgreeValue(ClsOf(def, c), before[c], srow[c])
  {
    assert ColumnM(before, c) == before[c] && ColumnS(srow, c) == srow[c];
  }

  /** After a guarded value, none is. */
  lemma {:induction false} NoSecondGuard(g: Gen, def: Table, strict: bool, sets: seq<Set>)
    requires |def.storage| == |def.columns| && AssignAll(g, def, strict, true, sets).Some?
    ensures GuardOf(AssignAll(g, def, strict, true, sets).value).None?
    decreases |sets|
  {
    if sets != [] {
      NoSecondGuard(g.(written := g.written + {sets[0].column}), def, strict, sets[1..]);
      var a := AssignmentOf(g, def, strict, sets[0].column, sets[0].value).value;
      var rest := AssignAll(g.(written := g.written + {sets[0].column}), def, strict, true, sets[1..]).value;
      assert ([a] + rest)[1..] == rest;
    }
  }

  function ConsValues(s: Result<SValue>, rest: Result<seq<SValue>>): Result<seq<SValue>> {
    var v :- s;
    var vs :- rest;
    Ok([v] + vs)
  }

  function OrChanges(d: Result<SValue>, rest: Result<Tri>): Result<Tri> {
    var v :- d;
    var t :- TruthS(v);
    if t == Yes then Ok(Yes) else rest
  }

  lemma {:induction false} ValuesStep(a: Assign, rest: seq<Assign>, srow: SRow)
    ensures ValuesOf([a] + rest, srow) == ConsValues(S(srow, a.value), ValuesOf(rest, srow))
  {
    assert ([a] + rest)[1..] == rest;
  }

  lemma {:induction false} OrStep(t: Sql, ts: Sqls, srow: SRow)
    requires S(srow, t).Ok? ==> S(srow, t).value.SBool?
    ensures AnyS(srow, ConsSql(t, ts), false) == OrChanges(S(srow, t), AnyS(srow, ts, false))
  {
  }

  function ConsStored(x: Result<MValue>, rest: Result<seq<MValue>>): Result<seq<MValue>> {
    var v :- x;
    var vs :- rest;
    Ok([v] + vs)
  }

  /** The head of the list put before its tail. */
  lemma {:induction false} SetStep(w: World, g: Gen, def: Table, strict: bool, guarded: bool, sets: seq<Set>,
                                   before: MRow, cur: MRow, srow: SRow, a: Assign, x: Result<MValue>)
    requires PartWay(w, g, def, cur, srow) && AssignAll(g, def, strict, guarded, sets).Some?
    requires sets != [] && |before| == |def.columns|
    requires AssignmentOf(g, def, strict, sets[0].column, sets[0].value) == Some(a)
    requires sets[0].column < |def.columns| && a.column == sets[0].column
    requires x == StoredM(w, def, strict, sets[0].column, M(w, cur, sets[0].value))
    requires x.Ok? && ClsOf(def, sets[0].column) == UNSAFE ==> x.value == MNull
    requires Assigns(def, sets[0].column, a.guard, x, S(srow, a.value), S(srow, a.stored))
    requires S(srow, Distinct(ColumnRef(sets[0].column), a.stored)) ==
             (if x.Ok? then Ok(SBool(x.value != before[sets[0].column]))
              else if IsRefusal(x.message) then Ok(SBool(true))
              else Err(S(srow, a.value).message))
    requires var g' := g.(written := g.written + {sets[0].column});
      x.Ok? ==>
        AssignAll(g', def, strict, guarded || a.guard.Some?, sets[1..]).Some? &&
        var rest := AssignAll(g', def, strict, guarded || a.guard.Some?, sets[1..]).value;
        var next := cur[sets[0].column := x.value];
        SameSets(def, GuardOf(rest), sets[1..], before, next, StoredValues(w, def, strict, sets[1..], next),
                 SetAll(w, def, strict, sets[1..], next), ValuesOf(rest, srow), AnyS(srow, Changes(rest), false))
    ensures var all := AssignAll(g, def, strict, guarded, sets).value;
      SameSets(def, GuardOf(all), sets, before, cur, StoredValues(w, def, strict, sets, cur), SetAll(w, def, strict, sets, cur),
               ValuesOf(all, srow), AnyS(srow, Changes(all), false))
  {
    var c := sets[0].column;
    var rest := AssignAll(g.(written := g.written + {c}), def, strict, guarded || a.guard.Some?, sets[1..]).value;
    var all := AssignAll(g, def, strict, guarded, sets).value;
    assert all == [a] + rest && all[1..] == rest;
    var m := if x.Ok? then SetAll(w, def, strict, sets[1..], cur[c := x.value]) else Err(x.message);
    var more := if x.Ok? then StoredValues(w, def, strict, sets[1..], cur[c := x.value]) else Err(x.message);
    assert SetAll(w, def, strict, sets, cur) == m;
    assert StoredValues(w, def, strict, sets, cur) == ConsStored(x, more);
    var d := S(srow, Distinct(ColumnRef(c), a.stored));
    ValuesStep(a, rest, srow);
    OrStep(Distinct(ColumnRef(c), a.stored), Changes(rest), srow);
    assert Changes(all) == ConsSql(Distinct(ColumnRef(c), a.stored), Changes(rest));
    if a.guard.Some? {
      NoSecondGuard(g.(written := g.written + {c}), def, strict, sets[1..]);
    }
    SetCons(def, a.guard, GuardOf(rest), sets, before, cur, x, more, S(srow, a.value), d, m, ValuesOf(rest, srow),
            AnyS(srow, Changes(rest), false));
  }

  /** The same over the values alone. */
  lemma {:induction false} SetCons(def: Table, guard: Option<string>, others: Option<string>, sets: seq<Set>,
                                   before: MRow, cur: MRow, x: Result<MValue>, more: Result<seq<MValue>>, s: Result<SValue>,
                                   d: Result<SValue>, m: Result<MRow>, values: Result<seq<SValue>>,
                                   changes: Result<Tri>)
    requires sets != [] && |before| == |def.columns|
    requires sets[0].column < |def.columns| == |cur| == |def.storage|
    requires x.Err? == s.Err? && (x.Ok? ==> SetTo(def, sets[0].column, x.value, s.value))
    requires x.Err? ==> SameFailure(guard, x.message, s.message) && m == Err(x.message)
    requires guard.None? || others.None?
    requires d == (if x.Ok? then Ok(SBool(x.value != before[sets[0].column]))
                   else if IsRefusal(x.message) then Ok(SBool(true)) else Err(s.message))
    requires x.Ok? ==> SameSets(def, others, sets[1..], before, cur[sets[0].column := x.value], more, m, values, changes)
    ensures SameSets(def, if guard.Some? then guard else others, sets, before, cur, ConsStored(x, more), m,
                     ConsValues(s, values), OrChanges(d, changes))
  {
    if x.Ok? && m.Ok? {
      var xs, all := ConsStored(x, more).value, ConsValues(s, values).value;
      assert forall k :: 0 < k < |sets| ==>
        sets[k] == sets[1..][k - 1] && xs[k] == more.value[k - 1] && all[k] == values.value[k - 1];
      FinalTail(sets);
      DiffersCons(sets, x.value, more.value, before);
      HeadStays(sets, cur, x.value, m.value);
    }
  }

  lemma {:induction false} FinalTail(sets: seq<Set>)
    requires sets != []
    ensures forall k :: 0 < k < |sets| ==> (IsFinal(sets, k) <==> IsFinal(sets[1..], k - 1))
  {
    assert forall k :: 0 <= k < |sets[1..]| ==> sets[1..][k] == sets[k + 1];
    forall k | 0 < k < |sets| ensures IsFinal(sets, k) <==> IsFinal(sets[1..], k - 1) {
      if IsFinal(sets[1..], k - 1) {
        assert forall j :: k < j < |sets| ==> sets[j] == sets[1..][j - 1];
      }
    }
  }

  lemma {:induction false} DiffersCons(sets: seq<Set>, x: MValue, xs: seq<MValue>, row: MRow)
    requires sets != [] && |xs| == |sets| - 1 && sets[0].column < |row|
    ensures Differs(sets, [x] + xs, row) <==> x != row[sets[0].column] || Differs(sets[1..], xs, row)
  {
    var all := [x] + xs;
    if k :| 0 <= k < |sets[1..]| && sets[1..][k].column < |row| && xs[k] != row[sets[1..][k].column] {
      assert sets[k + 1] == sets[1..][k] && all[k + 1] == xs[k];
    }
    if k :| 0 <= k < |sets| && sets[k].column < |row| && all[k] != row[sets[k].column] {
      assert k > 0 ==> sets[k] == sets[1..][k - 1] && all[k] == xs[k - 1];
    }
  }

  /** A head no later target repeats is final. */
  lemma {:induction false} HeadStays(sets: seq<Set>, cur: MRow, x: MValue, m: MRow)
    requires sets != [] && sets[0].column < |cur| == |m|
    requires forall c :: 0 <= c < |cur| && !IsTarget(sets[1..], c) ==> m[c] == cur[sets[0].column := x][c]
    ensures IsFinal(sets, 0) ==> m[sets[0].column] == x
    ensures forall c :: 0 <= c < |cur| && !IsTarget(sets, c) ==> m[c] == cur[c]
  {
    assert forall i :: 0 <= i < |sets[1..]| ==> sets[1..][i] == sets[i + 1];
    forall c | 0 <= c < |cur| && !IsTarget(sets, c)
      ensures m[c] == cur[c]
    {
      assert c != sets[0].column;
      assert !IsTarget(sets[1..], c);
    }
  }

  // ------------------------------------------------------------------ one row

  predicate IsColumn(sets: seq<Assign>, c: nat) {
    exists k :: 0 <= k < |sets| && sets[k].column == c
  }

  predicate IsLast(sets: seq<Assign>, k: nat)
    requires k < |sets|
  {
    forall j :: k < j < |sets| ==> sets[j].column != sets[k].column
  }

  /** The new row: each column set has the last value set for it, and the others
      are as they were. */
  lemma {:induction false} PutAt(row: SRow, sets: seq<Assign>, values: seq<SValue>)
    requires |values| == |sets| && forall k :: 0 <= k < |sets| ==> sets[k].column < |row|
    ensures var next := Put(row, sets, values);
      && |next| == |row|
      && (forall k :: 0 <= k < |sets| && IsLast(sets, k) ==> next[sets[k].column] == values[k])
      && (forall c :: 0 <= c < |row| && !IsColumn(sets, c) ==> next[c] == row[c])
    decreases |sets|
  {
    if sets != [] {
      var c0 := sets[0].column;
      var row1 := row[c0 := values[0]];
      PutAt(row1, sets[1..], values[1..]);
      var next := Put(row, sets, values);
      assert next == Put(row1, sets[1..], values[1..]);
      assert forall k :: 0 <= k < |sets[1..]| ==> sets[1..][k] == sets[k + 1];
      forall k | 0 <= k < |sets| && IsLast(sets, k)
        ensures next[sets[k].column] == values[k]
      {
        if k == 0 {
          assert !IsColumn(sets[1..], c0);
        } else {
          assert sets[k] == sets[1..][k - 1] && values[k] == values[1..][k - 1];
          assert IsLast(sets[1..], k - 1);
        }
      }
      forall c | 0 <= c < |row| && !IsColumn(sets, c)
        ensures next[c] == row[c]
      {
        assert c != c0;
        assert !IsColumn(sets[1..], c);
      }
    }
  }

  /** A statement MariaDB may push: no mixed function where a condition is
      expected. */
  ghost predicate Pushable(schema: seq<Column>, where: Option<Item>, sets: seq<Set>) {
    && sets != [] && PlainSets(schema, sets)
    && (where.Some? ==> !IsMixed(where.value) && Clean(schema, where.value))
  }

  function AndRest(t: Result<SValue>, rest: Result<Tri>, unknownRest: Result<Tri>): Result<Tri> {
    var v :- t;
    var p :- TruthS(v);
    if p == No then Ok(No) else if p == Unknown then unknownRest else rest
  }

  lemma {:induction false} AndStep(t: Sql, ts: Sqls, row: SRow)
    ensures AllS(row, ConsSql(t, ts), false) == AndRest(S(row, t), AllS(row, ts, false), AllS(row, ts, true))
    ensures AllS(row, ConsSql(t, ts), true) == AndRest(S(row, t), AllS(row, ts, true), AllS(row, ts, true))
  {
  }

  lemma {:induction false} AndLast(t: Sql, row: SRow)
    ensures AllS(row, ConsSql(t, NoSql), false) == AndRest(S(row, t), Ok(Yes), Ok(Unknown))
  {
    AndStep(t, NoSql, row);
  }

  /** `WHERE (cond) AND ((cond) IS NOT NULL) AND (changes)`: where the
      condition is FALSE or NULL the row is passed over whatever `changes` would
      be, an error included, so no SET value is evaluated for it. */
  lemma {:induction false} WhereValue(cond: Sql, maybeNull: bool, changes: Sql, row: SRow, taken: Tri)
    requires S(row, cond) == Ok(SOf(taken)) && (taken == Unknown ==> maybeNull)
    ensures Selected(WhereOf(Some(cond), maybeNull, Some(changes)), row) ==
            if taken == Yes then Selected(Some(changes), row) else Ok(false)
  {
    var last := ConsSql(changes, NoSql);
    var isNot := NullTest(cond, false);
    var rest := if maybeNull then ConsSql(isNot, last) else last;
    AndStep(cond, rest, row);
    AndStep(isNot, last, row);
    AndLast(changes, row);
    UnaryValue(isNot, row);
    assert S(row, AndSql(ConsSql(cond, rest))) == Truth(AllS(row, ConsSql(cond, rest), false), false);
  }

  lemma {:induction false} WhereError(cond: Sql, maybeNull: bool, changes: Sql, row: SRow)
    requires S(row, cond).Err?
    ensures Selected(WhereOf(Some(cond), maybeNull, Some(changes)), row) == Err(S(row, cond).message)
  {
    var last := ConsSql(changes, NoSql);
    var rest := if maybeNull then ConsSql(NullTest(cond, false), last) else last;
    AndStep(cond, rest, row);
    assert S(row, AndSql(ConsSql(cond, rest))) == Truth(AllS(row, ConsSql(cond, rest), false), false);
  }

  function ConditionOfStatement(g: Gen, where: Option<Item>): Option<Sql>
    requires ConditionSql(g, where).Some?
  {
    ConditionSql(g, where).value
  }

  /** The plain condition, as the count and the client that asked for the rows
      found use it. */
  lemma {:induction false} TakesMeans(w: World, g: Gen, where: Option<Item>, mrow: MRow, srow: SRow)
    requires SameRow(w, g, mrow, srow) && ConditionSql(g, where).Some?
    requires where.Some? ==> !IsMixed(where.value) && Clean(w.schema, where.value)
    ensures FailAlike(Takes(w, where, mrow), Selected(ConditionOfStatement(g, where), srow))
    ensures Takes(w, where, mrow).Ok? ==> Selected(ConditionOfStatement(g, where), srow) == Takes(w, where, mrow)
  {
    if where.Some? {
      ConditionMeans(w, g, where.value, mrow, srow);
    }
  }

  /** The condition with `changes` beside it. */
  lemma {:induction false} TakesChanges(w: World, g: Gen, where: Option<Item>, changes: Sql, mrow: MRow, srow: SRow)
    requires SameRow(w, g, mrow, srow) && ConditionSql(g, where).Some? && KeepsNotNull(w.schema, mrow)
    requires where.Some? ==> !IsMixed(where.value) && Clean(w.schema, where.value)
    ensures var takes := Takes(w, where, mrow);
      var maybeNull := where.Some? && MaybeNull(g.schema, where.value);
      var selected := Selected(WhereOf(ConditionOfStatement(g, where), maybeNull, Some(changes)), srow);
      && (takes.Err? ==> takes.message == INTEGER_OVERFLOW && selected == Err(INTEGER_OVERFLOW))
      && (takes == Ok(false) ==> selected == Ok(false))
      && (takes == Ok(true) ==> selected == Selected(Some(changes), srow))
  {
    if where.Some? {
      var cond := ConditionOf(g, where.value).value;
      var maybeNull := MaybeNull(g.schema, where.value);
      ConditionMeans(w, g, where.value, mrow, srow);
      if S(srow, cond).Err? {
        WhereError(cond, maybeNull, changes, srow);
      } else {
        if !maybeNull {
          NotNullMeans(w, mrow, where.value);
        }
        WhereValue(cond, maybeNull, changes, srow, TruthM(w, M(w, mrow, where.value).value));
      }
    }
  }

  lemma {:induction false} ChangesSelected(sets: seq<Assign>, row: SRow)
    ensures var t := AnyS(row, Changes(sets), false);
      Selected(Some(OrSql(Changes(sets))), row) == if t.Err? then Err(t.message) else Ok(t.value == Yes)
  {
    assert S(row, OrSql(Changes(sets))) == Truth(AnyS(row, Changes(sets), false), false);
  }

  /** Some value a later assignment replaces differs from the row's. */
  ghost predicate ReplacedDiffers(sets: seq<Set>, xs: seq<MValue>, row: MRow)
    requires |xs| == |sets|
  {
    exists k :: 0 <= k < |sets| && !IsFinal(sets, k) && sets[k].column < |row| && xs[k] != row[sets[k].column]
  }

  /** SET stores a value that differs from the row's, at last or in between. */
  ghost predicate Touched(w: World, def: Table, strict: bool, sets: seq<Set>, row: MRow)
    requires |def.storage| == |def.columns|
  {
    var xs := StoredValues(w, def, strict, sets, row);
    xs.Ok? && |xs.value| == |sets| && Differs(sets, xs.value, row)
  }

  /** The same of a value it then replaces. */
  ghost predicate TouchedBetween(w: World, def: Table, strict: bool, sets: seq<Set>, row: MRow)
    requires |def.storage| == |def.columns|
  {
    var xs := StoredValues(w, def, strict, sets, row);
    xs.Ok? && |xs.value| == |sets| && ReplacedDiffers(sets, xs.value, row)
  }

  /** The two engines' rows for one row of the table. */
  ghost predicate SameStep(w: World, g: Gen, def: Table, changedOnly: bool, guard: Option<string>, touched: bool, between: bool,
                           mrow: MRow, m: Result<Option<MRow>>, s: Result<Option<SRow>>)
  {
    && m.Err? == s.Err?
    && (m.Err? ==> SameFailure(guard, m.message, s.message))
    && (m == Ok(None) ==> s == Ok(None))
    && (m.Ok? && m.value.Some? ==>
          && (touched <==> m.value.value != mrow || between)
          && if changedOnly && !touched then s == Ok(None)
             else s.value.Some? && PartWay(w, g, def, m.value.value, s.value.value))
  }

  lemma {:induction false} LastOf(sets: seq<Set>, c: nat) returns (k: nat)
    requires IsTarget(sets, c)
    ensures k < |sets| && sets[k].column == c && IsFinal(sets, k)
    decreases |sets|
  {
    var n := |sets| - 1;
    if sets[n].column == c {
      k := n;
    } else {
      var i :| 0 <= i < |sets| && sets[i].column == c;
      assert sets[..n][i].column == c;
      k := LastOf(sets[..n], c);
      assert forall j :: k < j < n ==> sets[j] == sets[..n][j];
    }
  }

  /** New values in the columns set and old ones in the others: the row MariaDB
      wrote. */
  lemma {:induction false} PutMeans(w: World, g: Gen, def: Table, guard: Option<string>, sets: seq<Set>,
                                    assigns: seq<Assign>, mrow: MRow, srow: SRow, xs: Result<seq<MValue>>, m: Result<MRow>,
                                    values: Result<seq<SValue>>, changes: Result<Tri>)
    requires PartWay(w, g, def, mrow, srow) && g.written == {}
    requires |assigns| == |sets|
    requires forall k :: 0 <= k < |sets| ==> assigns[k].column == sets[k].column < |def.columns|
    requires SameSets(def, guard, sets, mrow, mrow, xs, m, values, changes) && m.Ok?
    ensures SameRow(w, g, m.value, Put(srow, assigns, values.value))
    ensures |Put(srow, assigns, values.value)| == |srow|
    ensures Differs(sets, xs.value, mrow) <==> m.value != mrow || ReplacedDiffers(sets, xs.value, mrow)
  {
    PutAt(srow, assigns, values.value);
    var next := Put(srow, assigns, values.value);
    forall c: nat | c < |def.columns|
      ensures SameColumn(w, def, c, m.value[c], next[c])
      ensures !Differs(sets, xs.value, mrow) ==> m.value[c] == mrow[c]
    {
      if IsTarget(sets, c) {
        var k := LastOf(sets, c);
        assert IsLast(assigns, k);
        assert next[assigns[k].column] == values.value[k];
        assert w.form(c, MNull) == SNull;
      } else {
        assert !IsColumn(assigns, c);
        assert ColumnM(mrow, c) == m.value[c] && ColumnS(srow, c) == next[c];
      }
    }
  }

  /** One column on both sides. */
  ghost predicate SameColumn(w: World, def: Table, c: nat, x: MValue, s: SValue)
    requires c < |def.columns|
  {
    && AgreeValue(ClsOf(def, c), x, s)
    && (OwnForm(def.columns[c].kind) ==>
          s == w.form(c, x) && (def.columns[c].kind.Listed? && x != MNull ==> x.MStr? && s.SInt?))
  }

  /** One row: Stoolap writes it exactly when the condition takes it and (but
      under CLIENT_FOUND_ROWS) SET stores a value that differs, as
      MariaDB left it; and it fails exactly when MariaDB does, by the guard
      exactly when MariaDB refuses a value. */
  lemma {:induction false} RowMeans(w: World, g: Gen, def: Table, strict: bool, changedOnly: bool,
                                    where: Option<Item>, sets: seq<Set>, mrow: MRow, srow: SRow)
    requires PartWay(w, g, def, mrow, srow) && g.written == {} && Pushable(w.schema, where, sets)
    requires ModifyOf(g, def, strict, changedOnly, where, sets).Some?
    ensures var stmt := ModifyOf(g, def, strict, changedOnly, where, sets).value;
      SameStep(w, g, def, changedOnly, stmt.guard, Touched(w, def, strict, sets, mrow), TouchedBetween(w, def, strict, sets, mrow), mrow,
               RowM(w, def, strict, where, sets, mrow), RowS(stmt.where, stmt.sets, srow))
  {
    var assigns := AssignAll(g, def, strict, false, sets).value;
    AssignColumns(g, def, strict, false, sets);
    RowAlike(w, g, def, strict, changedOnly, where, sets, assigns, mrow, srow);
  }

  function StatementWhere(g: Gen, changedOnly: bool, where: Option<Item>, assigns: seq<Assign>): Option<Sql>
    requires ConditionSql(g, where).Some?
  {
    if changedOnly
    then WhereOf(ConditionOfStatement(g, where), where.Some? && MaybeNull(g.schema, where.value), Some(OrSql(Changes(assigns))))
    else ConditionOfStatement(g, where)
  }

  lemma {:induction false} RowAlike(w: World, g: Gen, def: Table, strict: bool, changedOnly: bool,
                                    where: Option<Item>, sets: seq<Set>, assigns: seq<Assign>, mrow: MRow, srow: SRow)
    requires PartWay(w, g, def, mrow, srow) && g.written == {} && Pushable(w.schema, where, sets)
    requires def.checks == [] && def.stamps == map[]
    requires AssignAll(g, def, strict, false, sets) == Some(assigns) && ConditionSql(g, where).Some?
    ensures SameStep(w, g, def, changedOnly, GuardOf(assigns), Touched(w, def, strict, sets, mrow),
                     TouchedBetween(w, def, strict, sets, mrow), mrow, RowM(w, def, strict, where, sets, mrow),
                     RowS(StatementWhere(g, changedOnly, where, assigns), assigns, srow))
  {
    var swhere := StatementWhere(g, changedOnly, where, assigns);
    var m, values := SetAll(w, def, strict, sets, mrow), ValuesOf(assigns, srow);
    var next: Result<SRow> := if values.Ok? then Ok(Put(srow, assigns, values.value)) else Err(values.message);
    RowSets(w, g, def, strict, sets, mrow, srow);
    if changedOnly {
      TakesChanges(w, g, where, OrSql(Changes(assigns)), mrow, srow);
      ChangesSelected(assigns, srow);
    } else {
      TakesMeans(w, g, where, mrow, srow);
    }
    PlainRow(w, def, strict, where, sets, mrow);
    assert RowS(swhere, assigns, srow) == Stepped(Selected(swhere, srow), next);
    StepAlike(w, g, def, changedOnly, GuardOf(assigns), Touched(w, def, strict, sets, mrow),
              TouchedBetween(w, def, strict, sets, mrow), mrow, Takes(w, where, mrow), m, Selected(swhere, srow), next,
              AnyS(srow, Changes(assigns), false));
  }

  /** Without CHECKs and ON UPDATE columns a row is what SET makes of it. */
  lemma {:induction false} PlainRow(w: World, def: Table, strict: bool, where: Option<Item>, sets: seq<Set>, row: MRow)
    requires |def.storage| == |def.columns| && def.checks == [] && def.stamps == map[]
    ensures RowM(w, def, strict, where, sets, row) == Stepped(Takes(w, where, row), SetAll(w, def, strict, sets, row))
  {
    var m := SetAll(w, def, strict, sets, row);
    if m.Ok? {
      assert Stamped(def, sets, m.value) == m.value;
    }
  }

  function Stepped<T>(taken: Result<bool>, next: Result<T>): Result<Option<T>> {
    var t :- taken;
    if !t then Ok(None)
    else
      var n :- next;
      Ok(Some(n))
  }

  lemma {:induction false} StepAlike(w: World, g: Gen, def: Table, changedOnly: bool, guard: Option<string>, touched: bool,
                                     between: bool, mrow: MRow, takes: Result<bool>, m: Result<MRow>,
                                     selected: Result<bool>, next: Result<SRow>, changes: Result<Tri>)
    requires m.Err? == next.Err?
    requires m.Err? ==> SameFailure(guard, m.message, next.message) && (changes == Ok(Yes) || changes == Err(next.message))
    requires m.Ok? ==> PartWay(w, g, def, m.value, next.value) && changes == Ok(if touched then Yes else No) &&
                       (touched <==> m.value != mrow || between)
    requires takes.Err? ==> takes.message == INTEGER_OVERFLOW && selected == Err(INTEGER_OVERFLOW)
    requires takes == Ok(false) ==> selected == Ok(false)
    requires takes == Ok(true) ==>
               selected == if !changedOnly then Ok(true)
                           else if changes.Err? then Err(changes.message) else Ok(changes.value == Yes)
    ensures SameStep(w, g, def, changedOnly, guard, touched, between, mrow, Stepped(takes, m), Stepped(selected, next))
  {
  }

  /** SET alone, over one row. */
  lemma {:induction false} RowSets(w: World, g: Gen, def: Table, strict: bool, sets: seq<Set>, mrow: MRow, srow: SRow)
    requires PartWay(w, g, def, mrow, srow) && g.written == {} && PlainSets(w.schema, sets)
    requires AssignAll(g, def, strict, false, sets).Some?
    ensures var assigns := AssignAll(g, def, strict, false, sets).value;
      var m, values := SetAll(w, def, strict, sets, mrow), ValuesOf(assigns, srow);
      var changes := AnyS(srow, Changes(assigns), false);
      && m.Err? == values.Err?
      && (m.Err? ==> SameFailure(GuardOf(assigns), m.message, values.message) &&
                     (changes == Ok(Yes) || changes == Err(values.message)))
      && (m.Ok? ==> PartWay(w, g, def, m.value, Put(srow, assigns, values.value)) &&
                    changes == Ok(if Touched(w, def, strict, sets, mrow) then Yes else No) &&
                    (Touched(w, def, strict, sets, mrow) <==> m.value != mrow || TouchedBetween(w, def, strict, sets, mrow)))
  {
    var assigns := AssignAll(g, def, strict, false, sets).value;
    AssignColumns(g, def, strict, false, sets);
    assert g.(written := {}) == g;
    SetsMean(w, g, def, strict, false, sets, mrow, mrow, srow);
    var m, xs := SetAll(w, def, strict, sets, mrow), StoredValues(w, def, strict, sets, mrow);
    if m.Ok? {
      PutMeans(w, g, def, GuardOf(assigns), sets, assigns, mrow, srow, xs, m, ValuesOf(assigns, srow),
               AnyS(srow, Changes(assigns), false));
    }
  }

  // -------------------------------------------------------------- the statement

  ghost predicate SameTable(w: World, g: Gen, def: Table, mrows: seq<MRow>, srows: seq<SRow>) {
    && |mrows| == |srows|
    && forall i :: 0 <= i < |mrows| ==> PartWay(w, g, def, mrows[i], srows[i])
  }

  lemma {:induction false} TableCons(w: World, g: Gen, def: Table, m: MRow, s: SRow, mrows: seq<MRow>, srows: seq<SRow>)
    requires PartWay(w, g, def, m, s) && SameTable(w, g, def, mrows, srows)
    ensures SameTable(w, g, def, [m] + mrows, [s] + srows)
  {
  }

  /** The rows the condition takes that SET leaves as they were, having stored a
      value in between that differs: what the statement counts too many. */
  ghost function Overcounted(w: World, def: Table, strict: bool, where: Option<Item>, sets: seq<Set>, rows: seq<MRow>): nat
    requires |def.storage| == |def.columns|
    decreases |rows|
  {
    if rows == [] then 0
    else (if Overcounts(w, def, strict, where, sets, rows[0]) then 1 else 0) +
         Overcounted(w, def, strict, where, sets, rows[1..])
  }

  ghost predicate Overcounts(w: World, def: Table, strict: bool, where: Option<Item>, sets: seq<Set>, row: MRow)
    requires |def.storage| == |def.columns|
  {
    RowM(w, def, strict, where, sets, row) == Ok(Some(row)) && TouchedBetween(w, def, strict, sets, row)
  }

  /** The two engines' results of a statement. */
  ghost predicate SameUpdate(w: World, g: Gen, def: Table, changedOnly: bool, guard: Option<string>, over: nat,
                             m: Result<MResult>, s: Result<(seq<SRow>, nat)>)
  {
    && m.Err? == s.Err?
    && (m.Err? ==> SameFailure(guard, m.message, s.message))
    && (m.Ok? ==> SameTable(w, g, def, m.value.rows, s.value.0) &&
                  s.value.1 == if changedOnly then m.value.changed + over else m.value.found)
  }

  /** A row's results put before the rest's. */
  function ConsM(row: MRow, next: Result<Option<MRow>>, rest: Result<MResult>): Result<MResult> {
    var n :- next;
    var r :- rest;
    if n.None? then Ok(r.(rows := [row] + r.rows))
    else Ok(MResult([n.value] + r.rows, r.found + 1, r.changed + if n.value != row then 1 else 0))
  }

  function ConsS(row: SRow, next: Result<Option<SRow>>, rest: Result<(seq<SRow>, nat)>): Result<(seq<SRow>, nat)> {
    var n :- next;
    var r :- rest;
    if n.None? then Ok(([row] + r.0, r.1)) else Ok(([n.value] + r.0, r.1 + 1))
  }

  lemma {:induction false} SameCons(w: World, g: Gen, def: Table, changedOnly: bool, guard: Option<string>, touched: bool,
                                    between: bool, over: nat, mrow: MRow, srow: SRow, m: Result<Option<MRow>>,
                                    s: Result<Option<SRow>>, rest: Result<MResult>, srest: Result<(seq<SRow>, nat)>)
    requires PartWay(w, g, def, mrow, srow) && SameStep(w, g, def, changedOnly, guard, touched, between, mrow, m, s)
    requires SameUpdate(w, g, def, changedOnly, guard, over, rest, srest)
    ensures SameUpdate(w, g, def, changedOnly, guard, over + if m == Ok(Some(mrow)) && between then 1 else 0,
                       ConsM(mrow, m, rest), ConsS(srow, s, srest))
  {
    if m.Ok? && rest.Ok? {
      var mnew := if m.value.Some? then m.value.value else mrow;
      var snew := if s.value.Some? then s.value.value else srow;
      TableCons(w, g, def, mnew, snew, rest.value.rows, srest.value.0);
    }
  }

  /** The rows of a statement, each alike. */
  lemma {:induction false} RowsAlike(w: World, g: Gen, def: Table, strict: bool, changedOnly: bool, where: Option<Item>,
                                     sets: seq<Set>, stmt: Statement, mrows: seq<MRow>, srows: seq<SRow>)
    requires SameTable(w, g, def, mrows, srows) && |def.storage| == |def.columns|
    requires forall i :: 0 <= i < |mrows| ==>
      SameStep(w, g, def, changedOnly, stmt.guard, Touched(w, def, strict, sets, mrows[i]),
               TouchedBetween(w, def, strict, sets, mrows[i]), mrows[i], RowM(w, def, strict, where, sets, mrows[i]),
               RowS(stmt.where, stmt.sets, srows[i]))
    ensures SameUpdate(w, g, def, changedOnly, stmt.guard, Overcounted(w, def, strict, where, sets, mrows),
                       UpdateM(w, def, strict, where, sets, mrows), UpdateS(stmt.where, stmt.sets, srows))
    decreases |mrows|
  {
    if mrows != [] {
      assert SameTable(w, g, def, mrows[1..], srows[1..]);
      RowsAlike(w, g, def, strict, changedOnly, where, sets, stmt, mrows[1..], srows[1..]);
      SameCons(w, g, def, changedOnly, stmt.guard, Touched(w, def, strict, sets, mrows[0]),
               TouchedBetween(w, def, strict, sets, mrows[0]), Overcounted(w, def, strict, where, sets, mrows[1..]),
               mrows[0], srows[0], RowM(w, def, strict, where, sets, mrows[0]), RowS(stmt.where, stmt.sets, srows[0]),
               UpdateM(w, def, strict, where, sets, mrows[1..]), UpdateS(stmt.where, stmt.sets, srows[1..]));
    }
  }

  /** An accepted UPDATE leaves the table MariaDB leaves and fails exactly when
      MariaDB does, whatever columns it sets how often. It counts the rows
      MariaDB counts (those it changes, or with CLIENT_FOUND_ROWS those it
      finds), and the overcounted ones. */
  lemma {:induction false} UpdateMeans(w: World, g: Gen, def: Table, strict: bool, changedOnly: bool,
                                       where: Option<Item>, sets: seq<Set>, mrows: seq<MRow>, srows: seq<SRow>)
    requires Fit(w, g, def) && SameTable(w, g, def, mrows, srows) && g.written == {} && Pushable(w.schema, where, sets)
    requires ModifyOf(g, def, strict, changedOnly, where, sets).Some?
    ensures var stmt := ModifyOf(g, def, strict, changedOnly, where, sets).value;
      SameUpdate(w, g, def, changedOnly, stmt.guard, Overcounted(w, def, strict, where, sets, mrows),
                 UpdateM(w, def, strict, where, sets, mrows), UpdateS(stmt.where, stmt.sets, srows))
  {
    var stmt := ModifyOf(g, def, strict, changedOnly, where, sets).value;
    forall i | 0 <= i < |mrows|
      ensures SameStep(w, g, def, changedOnly, stmt.guard, Touched(w, def, strict, sets, mrows[i]),
                       TouchedBetween(w, def, strict, sets, mrows[i]), mrows[i], RowM(w, def, strict, where, sets, mrows[i]),
                       RowS(stmt.where, stmt.sets, srows[i]))
    {
      RowMeans(w, g, def, strict, changedOnly, where, sets, mrows[i], srows[i]);
    }
    RowsAlike(w, g, def, strict, changedOnly, where, sets, stmt, mrows, srows);
  }

  /** Conditions that take the same rows count them. */
  lemma {:induction false} SameCount(w: World, def: Table, strict: bool, where: Option<Item>, sets: seq<Set>,
                                     cond: Option<Sql>, mrows: seq<MRow>, srows: seq<SRow>)
    requires |mrows| == |srows| && |def.storage| == |def.columns|
    requires forall i :: 0 <= i < |mrows| && Takes(w, where, mrows[i]).Ok? ==>
               Selected(cond, srows[i]) == Takes(w, where, mrows[i])
    requires UpdateM(w, def, strict, where, sets, mrows).Ok?
    ensures CountS(cond, srows) == Ok(UpdateM(w, def, strict, where, sets, mrows).value.found)
    decreases |mrows|
  {
    if mrows != [] {
      SameCount(w, def, strict, where, sets, cond, mrows[1..], srows[1..]);
      assert Takes(w, where, mrows[0]).Ok?;
    }
  }

  /** The count of the condition is the rows MariaDB finds. */
  lemma {:induction false} CountMeans(w: World, g: Gen, def: Table, strict: bool, where: Option<Item>, sets: seq<Set>,
                                      mrows: seq<MRow>, srows: seq<SRow>)
    requires Fit(w, g, def) && SameTable(w, g, def, mrows, srows) && ConditionSql(g, where).Some?
    requires where.Some? ==> !IsMixed(where.value) && Clean(w.schema, where.value)
    requires UpdateM(w, def, strict, where, sets, mrows).Ok?
    ensures CountS(ConditionOfStatement(g, where), srows) == Ok(UpdateM(w, def, strict, where, sets, mrows).value.found)
  {
    forall i | 0 <= i < |mrows| && Takes(w, where, mrows[i]).Ok?
      ensures Selected(ConditionOfStatement(g, where), srows[i]) == Takes(w, where, mrows[i])
    {
      assert PartWay(w, g, def, mrows[i], srows[i]);
      TakesMeans(w, g, where, mrows[i], srows[i]);
    }
    SameCount(w, def, strict, where, sets, ConditionOfStatement(g, where), mrows, srows);
  }

  // ------------------------------------------------------- at most one row found

  ghost predicate UniqueKey(def: Table, mrows: seq<MRow>) {
    def.key.Some? ==>
      forall i, j :: 0 <= i < j < |mrows| ==> ColumnM(mrows[i], def.key.value) != ColumnM(mrows[j], def.key.value)
  }

  /** Two stored values of one class equal to one value are one. */
  lemma {:induction false} EqualToOne(cls: Cls, x: MValue, u: SValue, y: MValue, v: SValue, z: SValue)
    requires cls != UNSAFE && AgreeValue(cls, x, u) && AgreeValue(cls, y, v)
    requires (TestS(Eq, u, z) == Yes && TestS(Eq, v, z) == Yes) || (TestS(Eq, z, u) == Yes && TestS(Eq, z, v) == Yes)
    ensures x == y
  {
    if cls == STR && z.SText? {
      TextSame(u.s, z.s);
      TextSame(v.s, z.s);
      TextSame(z.s, u.s);
      TextSame(z.s, v.s);
    }
  }

  function KeyConstant(it: Item, key: nat): Item
    requires it.Cmp?
  {
    if it.a == Field(key) then it.b else it.a
  }

  lemma {:induction false} KeyTestMeans(w: World, g: Gen, it: Item, key: nat, m: MRow, s: SRow)
    requires SameRow(w, g, m, s) && it.Cmp? && PkEquality(it, key) && NodeOf(g, it).Some?
    requires M(w, m, it) == Ok(MInt(1))
    ensures key < |g.schema| && ColumnInfo(g.schema[key].kind).cls != UNSAFE
    ensures LiteralOf(KeyConstant(it, key)).Some?
    ensures var z := S([], LiteralOf(KeyConstant(it, key)).value);
      && z.Ok?
      && AgreeValue(ColumnInfo(g.schema[key].kind).cls, ColumnM(m, key), ColumnS(s, key))
      && (if it.a == Field(key) then TestS(Eq, ColumnS(s, key), z.value) == Yes
          else TestS(Eq, z.value, ColumnS(s, key)) == Yes)
  {
    var constant := KeyConstant(it, key);
    KeyOperands(w, g, it, key, m, s);
    var i, j := Typed(g.schema, it.a), Typed(g.schema, it.b);
    var z := S(s, LiteralOf(constant).value);
    var x, y := M(w, m, it.a).value, M(w, m, it.b).value;
    var u, v := ColumnS(s, key), ColumnS(s, key);
    if it.a == Field(key) {
      v := z.value;
    } else {
      u := z.value;
    }
    ComparisonAgrees(w, g, i, j, Some(it.cmpCollation), it.cmpCollation, x, u, y, v);
  }

  lemma {:induction false} KeyOperands(w: World, g: Gen, it: Item, key: nat, m: MRow, s: SRow)
    requires SameRow(w, g, m, s) && it.Cmp? && PkEquality(it, key) && NodeOf(g, it).Some?
    ensures var constant := KeyConstant(it, key);
      && key < |g.schema| && key !in g.written && LiteralOf(constant).Some?
      && S(s, LiteralOf(constant).value).Ok? && S(s, LiteralOf(constant).value) == S([], LiteralOf(constant).value)
      && M(w, m, constant).Ok?
      && AgreeValue(Typed(g.schema, constant).cls, M(w, m, constant).value, S(s, LiteralOf(constant).value).value)
      && M(w, m, Field(key)) == Ok(ColumnM(m, key))
  {
    var constant := KeyConstant(it, key);
    assert ExprOf(g, Field(key)).Some? && NodeOf(g, Field(key)).Some?;
    assert ExprOf(g, constant).Some? && NodeOf(g, constant) == LiteralOf(constant);
    assert Clean(g.schema, constant);
    ExprMeans(w, g, constant, m, s);
  }

  /** Two rows that meet a primary-key equality have one key. */
  lemma {:induction false} PkEqualityMeans(w: World, g: Gen, it: Item, key: nat, m: MRow, s: SRow, n: MRow, t: SRow)
    requires SameRow(w, g, m, s) && SameRow(w, g, n, t)
    requires PkEquality(it, key) && NodeOf(g, it).Some?
    requires M(w, m, it) == Ok(MInt(1)) && M(w, n, it) == Ok(MInt(1))
    ensures ColumnM(m, key) == ColumnM(n, key)
    decreases it
  {
    match it
    case And(args) => AnyPkEqualityMeans(w, g, args, false, key, m, s, n, t);
    case Cmp(_, a, b, _) =>
      KeyTestMeans(w, g, it, key, m, s);
      KeyTestMeans(w, g, it, key, n, t);
      var z := S([], LiteralOf(KeyConstant(it, key)).value).value;
      EqualToOne(ColumnInfo(g.schema[key].kind).cls, ColumnM(m, key), ColumnS(s, key), ColumnM(n, key), ColumnS(t, key), z);
  }

  lemma {:induction false} AnyPkEqualityMeans(w: World, g: Gen, args: Items, unknown: bool, key: nat,
                                              m: MRow, s: SRow, n: MRow, t: SRow)
    requires SameRow(w, g, m, s) && SameRow(w, g, n, t)
    requires AnyPkEquality(args, key) && ConditionsOf(g, args).Some?
    requires AllM(w, m, args, unknown) == Ok(Yes) && AllM(w, n, args, unknown) == Ok(Yes)
    ensures ColumnM(m, key) == ColumnM(n, key)
    decreases args
  {
    HeadTaken(w, m, args, unknown);
    HeadTaken(w, n, args, unknown);
    if PkEquality(args.head, key) {
      TestYieldsOne(w, m, args.head);
      TestYieldsOne(w, n, args.head);
      PkEqualityMeans(w, g, args.head, key, m, s, n, t);
    } else {
      AnyPkEqualityMeans(w, g, args.tail, unknown, key, m, s, n, t);
    }
  }

  lemma {:induction false} UnknownStays(w: World, row: MRow, args: Items)
    ensures AllM(w, row, args, true) != Ok(Yes)
    decreases args
  {
    if args.Cons? {
      UnknownStays(w, row, args.tail);
    }
  }

  lemma {:induction false} HeadTaken(w: World, row: MRow, args: Items, unknown: bool)
    requires args.Cons? && AllM(w, row, args, unknown) == Ok(Yes)
    ensures M(w, row, args.head).Ok? && TruthM(w, M(w, row, args.head).value) == Yes
    ensures AllM(w, row, args.tail, unknown) == Ok(Yes)
  {
    UnknownStays(w, row, args.tail);
  }

  lemma {:induction false} TestYieldsOne(w: World, row: MRow, it: Item)
    requires (it.Cmp? || it.And?) && M(w, row, it).Ok? && TruthM(w, M(w, row, it).value) == Yes
    ensures M(w, row, it) == Ok(MInt(1))
  {
  }

  lemma {:induction false} NoneFound(w: World, def: Table, strict: bool, where: Option<Item>, sets: seq<Set>, rows: seq<MRow>)
    requires |def.storage| == |def.columns| && UpdateM(w, def, strict, where, sets, rows).Ok?
    requires forall i :: 0 <= i < |rows| ==> Takes(w, where, rows[i]) != Ok(true)
    ensures UpdateM(w, def, strict, where, sets, rows).value.found == 0
    decreases |rows|
  {
    if rows != [] {
      assert Takes(w, where, rows[0]) != Ok(true);
      NoneFound(w, def, strict, where, sets, rows[1..]);
    }
  }

  lemma {:induction false} OneFound(w: World, g: Gen, def: Table, strict: bool, where: Option<Item>, sets: seq<Set>,
                                    mrows: seq<MRow>, srows: seq<SRow>)
    requires Fit(w, g, def) && SameTable(w, g, def, mrows, srows) && UniqueKey(def, mrows)
    requires where.Some? && def.key.Some? && PkEquality(where.value, def.key.value)
    requires ConditionOf(g, where.value).Some?
    requires UpdateM(w, def, strict, where, sets, mrows).Ok?
    ensures UpdateM(w, def, strict, where, sets, mrows).value.found <= 1
    decreases |mrows|
  {
    if mrows != [] {
      var rest := mrows[1..];
      OneFound(w, g, def, strict, where, sets, rest, srows[1..]);
      if Takes(w, where, mrows[0]) == Ok(true) {
        forall i | 0 <= i < |rest|
          ensures Takes(w, where, rest[i]) != Ok(true)
        {
          assert rest[i] == mrows[i + 1];
          assert PartWay(w, g, def, mrows[0], srows[0]) && PartWay(w, g, def, mrows[i + 1], srows[i + 1]);
          if Takes(w, where, rest[i]) == Ok(true) {
            TestYieldsOne(w, mrows[0], where.value);
            TestYieldsOne(w, rest[i], where.value);
            PkEqualityMeans(w, g, where.value, def.key.value, mrows[0], srows[0], mrows[i + 1], srows[i + 1]);
          }
        }
        NoneFound(w, def, strict, where, sets, rest);
      }
    }
  }

  // ------------------------------------------------------------- the whole path

  lemma {:induction false} ChangedIsFound(w: World, def: Table, strict: bool, where: Option<Item>, sets: seq<Set>,
                                          rows: seq<MRow>)
    requires |def.storage| == |def.columns| && UpdateM(w, def, strict, where, sets, rows).Ok?
    ensures var m := UpdateM(w, def, strict, where, sets, rows).value;
      && m.changed + Overcounted(w, def, strict, where, sets, rows) <= m.found
      && |m.rows| == |rows| && (m.changed == 0 ==> m.rows == rows)
    decreases |rows|
  {
    if rows != [] {
      ChangedIsFound(w, def, strict, where, sets, rows[1..]);
    }
  }

  lemma {:induction false} NoneWritten(where: Option<Sql>, sets: seq<Assign>, rows: seq<SRow>)
    requires UpdateS(where, sets, rows).Ok? && UpdateS(where, sets, rows).value.1 == 0
    ensures UpdateS(where, sets, rows).value.0 == rows
    decreases |rows|
  {
    if rows != [] {
      NoneWritten(where, sets, rows[1..]);
    }
  }

  /** `try_direct_modify` against MariaDB's own UPDATE: the same table, the rows
      found reported alike on both count paths, the rows changed but for the
      overcounted ones, and the same error for a value its column cannot hold. */
  lemma {:induction false} DirectModifyMeans(w: World, g: Gen, def: Table, strict: bool, changedOnly: bool,
                                             where: Option<Item>, sets: seq<Set>, mrows: seq<MRow>, srows: seq<SRow>)
    requires Fit(w, g, def) && SameTable(w, g, def, mrows, srows) && g.written == {} && Pushable(w.schema, where, sets)
    requires UniqueKey(def, mrows)
    requires ModifyOf(g, def, strict, changedOnly, where, sets).Some?
    ensures var m := UpdateM(w, def, strict, where, sets, mrows);
      var t := TryOf(ModifyOf(g, def, strict, changedOnly, where, sets).value, srows);
      && m.Err? == t.Err?
      && (m.Err? ==> t.message == m.message)
      && (m.Ok? ==> SameTable(w, g, def, m.value.rows, t.value.rows) &&
                    t.value.affected == (if changedOnly then m.value.changed + Overcounted(w, def, strict, where, sets, mrows)
                                         else m.value.found) &&
                    t.value.found == m.value.found)
  {
    var stmt := ModifyOf(g, def, strict, changedOnly, where, sets).value;
    var m := UpdateM(w, def, strict, where, sets, mrows);
    UpdateMeans(w, g, def, strict, changedOnly, where, sets, mrows, srows);
    AssignColumns(g, def, strict, false, sets);
    if m.Ok? {
      CountMeans(w, g, def, strict, where, sets, mrows, srows);
      ChangedIsFound(w, def, strict, where, sets, mrows);
      if stmt.count.Some? && stmt.count.value.oneRow {
        OneFound(w, g, def, strict, where, sets, mrows, srows);
        if UpdateS(stmt.where, stmt.sets, srows).value.1 == 0 {
          NoneWritten(stmt.where, stmt.sets, srows);
        }
      }
    }
  }

  lemma {:induction false} NoneOvercounted(w: World, def: Table, strict: bool, where: Option<Item>, sets: seq<Set>,
                                           rows: seq<MRow>)
    requires |def.storage| == |def.columns|
    ensures Overcounted(w, def, strict, where, sets, rows) == 0 <==>
            forall i :: 0 <= i < |rows| ==> !Overcounts(w, def, strict, where, sets, rows[i])
    decreases |rows|
  {
    if rows != [] {
      NoneOvercounted(w, def, strict, where, sets, rows[1..]);
      assert forall i :: 0 < i < |rows| ==> rows[i] == rows[1..][i - 1];
      assert forall i :: 0 <= i < |rows[1..]| ==> rows[1..][i] == rows[i + 1];
    }
  }

  /** The count of changed rows is MariaDB's if and only if no row the condition
      takes is left as it was after a value in between that differs. */
  lemma {:induction false} ChangedCountIsExact(w: World, g: Gen, def: Table, strict: bool, where: Option<Item>,
                                               sets: seq<Set>, mrows: seq<MRow>, srows: seq<SRow>)
    requires Fit(w, g, def) && SameTable(w, g, def, mrows, srows) && g.written == {} && Pushable(w.schema, where, sets)
    requires UniqueKey(def, mrows)
    requires ModifyOf(g, def, strict, true, where, sets).Some? && UpdateM(w, def, strict, where, sets, mrows).Ok?
    ensures var t := TryOf(ModifyOf(g, def, strict, true, where, sets).value, srows);
      t.Ok? &&
      (t.value.affected == UpdateM(w, def, strict, where, sets, mrows).value.changed <==>
       forall i :: 0 <= i < |mrows| ==> !Overcounts(w, def, strict, where, sets, mrows[i]))
  {
    DirectModifyMeans(w, g, def, strict, true, where, sets, mrows, srows);
    NoneOvercounted(w, def, strict, where, sets, mrows);
  }

  ghost predicate DistinctTargets(sets: seq<Set>) {
    forall i, j :: 0 <= i < j < |sets| ==> sets[i].column != sets[j].column
  }

  /** With distinct targets nothing is replaced. */
  lemma {:induction false} DistinctTargetsCountRight(w: World, def: Table, strict: bool, where: Option<Item>, sets: seq<Set>,
                                                     rows: seq<MRow>)
    requires |def.storage| == |def.columns| && DistinctTargets(sets)
    ensures Overcounted(w, def, strict, where, sets, rows) == 0
  {
    assert forall k :: 0 <= k < |sets| ==> IsFinal(sets, k);
    NoneOvercounted(w, def, strict, where, sets, rows);
  }

  /** A repeated target can overcount. `SET c = 1, c = 2` over a row whose c is 2
      leaves it as it is: MariaDB counts no row changed, but the statement
      finds one that differs from the first value. */
  lemma {:induction false} DuplicateTargets(w: World) returns (def: Table, sets: seq<Set>)
    requires w.schema == [Column(BigInt(false), false)] && Forms(w)
    ensures Fit(w, Gen(w.schema, false, {}), def) && !DistinctTargets(sets)
    ensures UpdateM(w, def, true, None, sets, [[MInt(2)]]) == Ok(MResult([[MInt(2)]], 1, 0))
    ensures var stmt := ModifyOf(Gen(w.schema, false, {}), def, true, true, None, sets);
      stmt.Some? && TryOf(stmt.value, [[SInt(2)]]) == Ok(Outcome([[SInt(2)]], 1, 1))
  {
    var g := Gen(w.schema, false, {});
    def := Table(w.schema, [Whole], None, [], map[]);
    sets := [Set(0, IntConst(1, false)), Set(0, IntConst(2, false))];
    assert sets[0].column == sets[1].column;
    DuplicateInMariaDB(w, def, sets);
    var one, two := Plain(0, Literal(SInt(1))), Plain(0, Literal(SInt(2)));
    DuplicateAccepted(g, def, sets, one, two);
    DuplicateInStoolap(one, two);
  }

  lemma {:induction false} DuplicateInMariaDB(w: World, def: Table, sets: seq<Set>)
    requires def.columns == [Column(BigInt(false), false)] && def.storage == [Whole]
    requires sets == [Set(0, IntConst(1, false)), Set(0, IntConst(2, false))]
    ensures UpdateM(w, def, true, None, sets, [[MInt(2)]]) == Ok(MResult([[MInt(2)]], 1, 0))
  {
    var rows: seq<MRow> := [[MInt(2)]];
    assert rows[1..] == [] && UpdateM(w, def, true, None, sets, []) == Ok(MResult([], 0, 0));
    assert sets[1..][0] == sets[1] && sets[1..][1..] == [];
    assert SetAll(w, def, true, [], [MInt(2)]) == Ok([MInt(2)]);
    assert SetAll(w, def, true, sets[1..], [MInt(1)]) == Ok([MInt(2)]) by {
      assert [MInt(1)][0 := MInt(2)] == [MInt(2)];
    }
    assert [MInt(2)][0 := MInt(1)] == [MInt(1)];
    assert SetAll(w, def, true, sets, [MInt(2)]) == Ok([MInt(2)]);
    assert RowM(w, def, true, None, sets, [MInt(2)]) == Ok(Some([MInt(2)]));
    assert [[MInt(2)]] + [] == rows;
  }

  lemma {:induction false} DuplicateAccepted(g: Gen, def: Table, sets: seq<Set>, one: Assign, two: Assign)
    requires def.columns == [Column(BigInt(false), false)] && def.storage == [Whole]
    requires sets == [Set(0, IntConst(1, false)), Set(0, IntConst(2, false))]
    requires one == Plain(0, Literal(SInt(1))) && two == Plain(0, Literal(SInt(2)))
    ensures AssignAll(g, def, true, false, sets) == Some([one, two])
  {
    var g' := g.(written := g.written + {0});
    assert sets[1..][0] == sets[1] && sets[1..][1..] == [];
    assert AssignAll(g'.(written := g'.written + {0}), def, true, false, []) == Some([]);
    assert ExprOf(g, IntConst(1, false)) == Some(Literal(SInt(1)));
    assert ExprOf(g', IntConst(2, false)) == Some(Literal(SInt(2)));
    assert AssignmentOf(g, def, true, 0, IntConst(1, false)) == Some(one);
    assert AssignmentOf(g', def, true, 0, IntConst(2, false)) == Some(two);
    assert [two] + [] == [two] && [one] + [two] == [one, two];
    assert AssignAll(g', def, true, false, sets[1..]) == Some([two] + []);
  }

  lemma {:induction false} DuplicateInStoolap(one: Assign, two: Assign)
    requires one == Plain(0, Literal(SInt(1))) && two == Plain(0, Literal(SInt(2)))
    ensures GuardOf([one, two]) == None
    ensures TryOf(Statement(Some(OrSql(Changes([one, two]))), [one, two], Some(Count(None, false)), None), [[SInt(2)]]) ==
            Ok(Outcome([[SInt(2)]], 1, 1))
  {
    var row: SRow := [SInt(2)];
    var rows: seq<SRow> := [row];
    var sets := [one, two];
    assert rows[1..] == [] && sets[1..] == [two] && [two][1..] == [];
    assert CountS(None, []) == Ok(0);
    assert CountS(None, rows) == Ok(1);
    assert S(row, one.value) == Ok(SInt(1)) && S(row, two.value) == Ok(SInt(2));
    var differs := Distinct(ColumnRef(0), one.stored);
    PairValue(differs, row);
    assert S(row, ColumnRef(0)) == Ok(SInt(2));
    OrStep(differs, Changes([two]), row);
    assert Changes(sets) == ConsSql(differs, Changes([two]));
    ChangesSelected(sets, row);
    ValuesStep(two, [], row);
    ValuesStep(one, [two], row);
    assert [one] + [two] == sets && [two] + [] == [two];
    assert ValuesOf([], row) == Ok([]) && [SInt(2)] + [] == [SInt(2)];
    assert ValuesOf([two], row) == Ok([SInt(2)]);
    assert [SInt(1)] + [SInt(2)] == [SInt(1), SInt(2)];
    assert ValuesOf(sets, row) == Ok([SInt(1), SInt(2)]);
    assert Put(row, sets, [SInt(1), SInt(2)]) == row by {
      assert [SInt(1), SInt(2)][1..] == [SInt(2)] && [SInt(2)][1..] == [];
      assert Put([SInt(2)], [], []) == [SInt(2)];
      assert row[0 := SInt(1)][0 := SInt(2)] == row;
      assert Put([SInt(1)], [two], [SInt(2)]) == row;
    }
    assert RowS(Some(OrSql(Changes(sets))), sets, row) == Ok(Some(row));
    assert UpdateS(Some(OrSql(Changes(sets))), sets, []) == Ok(([], 0));
    assert [row] + [] == rows;
    assert UpdateS(Some(OrSql(Changes(sets))), sets, rows) == Ok((rows, 1));
    assert GuardOf([]) == None && GuardOf([two]) == None;
  }
}
