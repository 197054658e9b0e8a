/** Accepted means equivalent: the SQL the generator emits for an item is, over
    the stored row, what MariaDB makes of the item over its own. */
module SqlMeaning {
  import opened Values
  import opened SqlExpr

  // ---------------------------------------------------------- the two row forms

  /** An integer is the same integer on both sides, a float a float (never an
      integer), a text its text; of an UNSAFE value only NULL is known. */
  predicate AgreeValue(c: Cls, m: MValue, s: SValue) {
    && (m.MNull? <==> s.SNull?)
    && (m.MNull? ||
        match c
        case INT => m.MInt? && s == SInt(m.i)
        case REAL => m.MReal? && s == SFloat(m.r)
        case STR => m.MStr? && s == SText(m.s)
        case UNSAFE => true)
  }

  /** One row as each engine holds it, in the columns the SQL may read. */
  ghost predicate Stored(g: Gen, mrow: seq<MValue>, srow: seq<SValue>) {
    forall c: nat :: c < |g.schema| && c !in g.written ==>
      AgreeValue(ColumnInfo(g.schema[c].kind).cls, ColumnM(mrow, c), ColumnS(srow, c))
  }

  /** What a column's own form is read back to is what was stored, NULL as NULL. */
  ghost predicate Forms(w: World) {
    forall c, m :: w.parse(c, w.form(c, m)) == m && (w.form(c, m) == SNull <==> m == MNull)
  }

  /** The session's byte semantics for strings mean what they say. */
  ghost predicate Setting(w: World, g: Gen) {
    && g.schema == w.schema
    && (g.trust ==> forall c, s :: w.fold(c, s) == s)
    && Forms(w)
  }

  /** The columns with a form of their own hold it; of an ENUM or SET it is a
      number for its text. */
  ghost predicate Formed(w: World, g: Gen, mrow: seq<MValue>, srow: seq<SValue>) {
    forall c: nat :: c < |g.schema| && c !in g.written && OwnForm(g.schema[c].kind) ==>
      && ColumnS(srow, c) == w.form(c, ColumnM(mrow, c))
      && (g.schema[c].kind.Listed? && ColumnM(mrow, c) != MNull ==> ColumnM(mrow, c).MStr? && ColumnS(srow, c).SInt?)
  }

  /** Both fail, and by an integer overflow of their own, or neither does. */
  predicate FailAlike<A, B>(m: Result<A>, s: Result<B>) {
    && m.Err? == s.Err?
    && (m.Err? ==> m.message == s.message == INTEGER_OVERFLOW)
  }

  predicate Agree(c: Cls, m: Result<MValue>, s: Result<SValue>) {
    && FailAlike(m, s)
    && (m.Ok? ==> AgreeValue(c, m.value, s.value))
  }

  /** A condition: the same one of TRUE, FALSE and NULL. */
  predicate AgreeTruth(m: Result<MValue>, s: Result<SValue>) {
    && FailAlike(m, s)
    && (m.Ok? ==> (s.value.SBool? || s.value.SNull?) &&
                  m.value == (if s.value.SNull? then MNull else MInt(if s.value.b then 1 else 0)))
  }

  predicate AgreeTri(m: Result<Tri>, s: Result<Tri>) {
    && FailAlike(m, s)
    && (m.Ok? ==> m.value == s.value)
  }

  predicate IsMixed(it: Item) {
    it.Case? || it.CaseOf? || it.If? || it.Coalesce? || it.NullIf?
  }

  predicate IsTest(it: Item) {
    || it.Cmp? || it.NullSafeEq? || it.IsNull? || it.IsNotNull? || it.Not? || it.And? || it.Or?
    || it.Between? || it.In?
  }

  /** No IF, CASE, COALESCE or NULLIF stands where a condition is expected. */
  predicate PlainConditions(it: Item)
    decreases it
  {
    match it
    case Cmp(_, a, b, _) => PlainConditions(a) && PlainConditions(b)
    case NullSafeEq(a, b, _) => PlainConditions(a) && PlainConditions(b)
    case IsNull(a) => PlainConditions(a)
    case IsNotNull(a) => PlainConditions(a)
    case Not(a) => !IsMixed(a) && PlainConditions(a)
    case And(args) => PlainTests(args)
    case Or(args) => PlainTests(args)
    case Between(a, lo, hi, _, _) => PlainConditions(a) && PlainConditions(lo) && PlainConditions(hi)
    case In(a, args, _, _) => PlainConditions(a) && PlainAll(args)
    case Case(whens, _) => PlainWhens(whens, true)
    case CaseOf(a, whens, _, _) => PlainConditions(a) && PlainWhens(whens, false)
    case If(cond, a, b, _) => !IsMixed(cond) && PlainConditions(cond) && PlainConditions(a) && PlainConditions(b)
    case Coalesce(args, _) => PlainAll(args)
    case NullIf(a, b, _, _) => PlainConditions(a) && PlainConditions(b)
    case Arith(_, a, b) => PlainConditions(a) && PlainConditions(b)
    case Neg(a) => PlainConditions(a)
    case Concat(args, _) => PlainAll(args)
    case _ => true
  }

  predicate PlainAll(items: Items)
    decreases items
  {
    items.Nil? || (PlainConditions(items.head) && PlainAll(items.tail))
  }

  predicate PlainTests(items: Items)
    decreases items
  {
    items.Nil? || (!IsMixed(items.head) && PlainConditions(items.head) && PlainTests(items.tail))
  }

  predicate PlainWhens(whens: Whens, searched: bool)
    decreases whens
  {
    match whens
    case End => true
    case Else(value) => PlainConditions(value)
    case When(test, value, rest) =>
      && (searched ==> !IsMixed(test))
      && PlainConditions(test) && PlainConditions(value) && PlainWhens(rest, searched)
  }

  /** NULLIF of an ENUM or SET column: taken for its text, it is the number. */
  predicate TakesIndex(schema: seq<Column>, it: Item) {
    it.NullIf? && it.a.Field? && it.a.column < |schema| &&
    schema[it.a.column].kind.Listed? && schema[it.a.column].kind.collation.utf8
  }

  /** No such NULLIF is among the items. */
  predicate OwnTexts(schema: seq<Column>, it: Item)
    decreases it
  {
    match it
    case Cmp(_, a, b, _) => OwnTexts(schema, a) && OwnTexts(schema, b)
    case NullSafeEq(a, b, _) => OwnTexts(schema, a) && OwnTexts(schema, b)
    case IsNull(a) => OwnTexts(schema, a)
    case IsNotNull(a) => OwnTexts(schema, a)
    case Not(a) => OwnTexts(schema, a)
    case And(args) => OwnTextsAll(schema, args)
    case Or(args) => OwnTextsAll(schema, args)
    case Between(a, lo, hi, _, _) => OwnTexts(schema, a) && OwnTexts(schema, lo) && OwnTexts(schema, hi)
    case In(a, args, _, _) => OwnTexts(schema, a) && OwnTextsAll(schema, args)
    case Case(whens, _) => OwnTextsWhens(schema, whens)
    case CaseOf(a, whens, _, _) => OwnTexts(schema, a) && OwnTextsWhens(schema, whens)
    case If(cond, a, b, _) => OwnTexts(schema, cond) && OwnTexts(schema, a) && OwnTexts(schema, b)
    case Coalesce(args, _) => OwnTextsAll(schema, args)
    case NullIf(a, b, _, _) => !TakesIndex(schema, it) && OwnTexts(schema, a) && OwnTexts(schema, b)
    case Arith(_, a, b) => OwnTexts(schema, a) && OwnTexts(schema, b)
    case Neg(a) => OwnTexts(schema, a)
    case Concat(args, _) => OwnTextsAll(schema, args)
    case _ => true
  }

  predicate OwnTextsAll(schema: seq<Column>, items: Items)
    decreases items
  {
    items.Nil? || (OwnTexts(schema, items.head) && OwnTextsAll(schema, items.tail))
  }

  predicate OwnTextsWhens(schema: seq<Column>, whens: Whens)
    decreases whens
  {
    match whens
    case End => true
    case Else(value) => OwnTexts(schema, value)
    case When(test, value, rest) => OwnTexts(schema, test) && OwnTexts(schema, value) && OwnTextsWhens(schema, rest)
  }

  predicate Clean(schema: seq<Column>, it: Item) {
    PlainConditions(it) && OwnTexts(schema, it)
  }

  predicate CleanAll(schema: seq<Column>, items: Items) {
    PlainAll(items) && OwnTextsAll(schema, items)
  }

  predicate CleanTests(schema: seq<Column>, items: Items) {
    PlainTests(items) && OwnTextsAll(schema, items)
  }

  predicate CleanWhens(schema: seq<Column>, whens: Whens, searched: bool) {
    PlainWhens(whens, searched) && OwnTextsWhens(schema, whens)
  }

  // ---------------------------------------------------------------------- types

  /** What a class says about the MariaDB type behind it. */
  predicate Consistent(i: Info) {
    && (i.cls == INT ==> i.ty.IntTy?)
    && (i.cls == REAL ==> i.ty.RealTy? || i.ty.DecTy?)
    && (i.cls == STR ==> i.ty.StrTy? && i.collation.utf8)
    && (i.boolean ==> i.ty == IntTy(false) && i.cls == INT && !i.isNull)
  }

  predicate AllConsistent(infos: seq<Info>) {
    forall i :: 0 <= i < |infos| ==> Consistent(infos[i])
  }

  lemma {:induction false} BooleanAggregate(infos: seq<Info>)
    requires AllConsistent(infos) && AllBoolean(infos)
    ensures Aggregate(infos).Some? ==> Aggregate(infos).value == IntTy(false)
  {
    if infos != [] {
      BooleanAggregate(infos[1..]);
    }
  }

  lemma {:induction false} TypedConsistent(schema: seq<Column>, it: Item)
    ensures Consistent(Typed(schema, it))
    decreases it
  {
    match it
    case Case(whens, _) =>
      WhensConsistent(schema, whens);
      MixedConsistent(WhenInfos(schema, whens), it.settled);
    case CaseOf(_, whens, _, _) =>
      WhensConsistent(schema, whens);
      MixedConsistent(WhenInfos(schema, whens), it.settled);
    case If(_, a, b, _) =>
      TypedConsistent(schema, a);
      TypedConsistent(schema, b);
      MixedConsistent([Typed(schema, a), Typed(schema, b)], it.settled);
    case Coalesce(args, _) =>
      ItemsConsistent(schema, args);
      MixedConsistent(Infos(schema, args), it.settled);
    case NullIf(a, _, _, _) => TypedConsistent(schema, a);
    case _ =>
  }

  lemma {:induction false} MixedConsistent(infos: seq<Info>, settled: Settled)
    requires AllConsistent(infos)
    ensures Consistent(Mixed(infos, settled))
  {
    if AllBoolean(infos) {
      BooleanAggregate(infos);
    }
  }

  lemma {:induction false} ItemsConsistent(schema: seq<Column>, items: Items)
    ensures AllConsistent(Infos(schema, items))
    decreases items
  {
    if items.Cons? {
      TypedConsistent(schema, items.head);
      ItemsConsistent(schema, items.tail);
    }
  }

  lemma {:induction false} WhensConsistent(schema: seq<Column>, whens: Whens)
    ensures AllConsistent(WhenInfos(schema, whens))
    decreases whens
  {
    match whens
    case End =>
    case Else(value) => TypedConsistent(schema, value);
    case When(_, value, rest) =>
      TypedConsistent(schema, value);
      WhensConsistent(schema, rest);
  }

  /** A branch has its result's class, or is an integer of a float result. */
  predicate Fits(i: Info, result: Info) {
    i.isNull || i.cls == result.cls || (result.cls == REAL && i.cls == INT)
  }

  predicate AllFit(infos: seq<Info>, result: Info) {
    forall i :: 0 <= i < |infos| ==> Fits(infos[i], result)
  }

  predicate Family(t: Ty, text: bool) {
    if text then t.StrTy? else t.IntTy? || t.RealTy? || t.DecTy?
  }

  /** The aggregate of one family: some branch is a string exactly when it is,
      and an integer result has integer branches only. */
  lemma {:induction false} AggregateOfFamily(infos: seq<Info>, text: bool)
    requires forall i :: 0 <= i < |infos| && !infos[i].isNull ==> Family(infos[i].ty, text)
    ensures var a := Aggregate(infos);
      && (a.None? <==> forall i :: 0 <= i < |infos| ==> infos[i].isNull)
      && (a.Some? ==> Family(a.value, text))
      && (a.Some? && a.value.IntTy? ==> forall i :: 0 <= i < |infos| && !infos[i].isNull ==> infos[i].ty.IntTy?)
      && (a.Some? && a.value.RealTy? ==> !text)
  {
    if infos != [] {
      AggregateOfFamily(infos[1..], text);
      assert forall i :: 0 < i < |infos| ==> infos[i] == infos[1..][i - 1];
    }
  }

  lemma {:induction false} BranchesFit(infos: seq<Info>, settled: Settled)
    requires AllConsistent(infos) && Branches(infos, Mixed(infos, settled))
    ensures AllFit(infos, Mixed(infos, settled))
    ensures Mixed(infos, settled).cls == REAL <==> Mixed(infos, settled).ty.RealTy?
  {
    if j :| 0 <= j < |infos| && !infos[j].isNull {
      AggregateOfFamily(infos, infos[j].cls == STR);
    } else {
      AggregateOfFamily(infos, true);
    }
  }

  // --------------------------------------------------------------- comparisons

  /** A comparison the generator accepts gives one truth value on both sides,
      whatever its operands: it takes strings only where bytes decide. */
  lemma {:induction false} ComparisonAgrees(w: World, g: Gen, i: Info, j: Info, cmp: Option<Collation>, used: Collation,
                         m: MValue, s: SValue, n: MValue, t: SValue)
    requires Setting(w, g) && Comparable(g, i, j, cmp)
    requires AgreeValue(i.cls, m, s) && AgreeValue(j.cls, n, t)
    requires (i.isNull ==> m == MNull) && (j.isNull ==> n == MNull)
    requires if cmp.Some? then used == cmp.value else used == i.collation || used == j.collation
    ensures forall op :: TestM(w, used, op, m, n) == TestS(op, s, t)
    ensures m != MNull && n != MNull ==> CompareM(w, used, m, n) == CompareS(s, t)
  {
    if m != MNull && n != MNull && i.cls == STR {
      assert SortKey(w, used, m.s) == m.s && SortKey(w, used, n.s) == n.s;
    }
  }

  lemma {:induction false} IntArithmeticAgrees(op: ArithOp, x: int, y: int, ty: Ty)
    requires op != Divide && ty == IntTy(false)
    ensures Agree(INT, ArithM(op, ty, MInt(x), MInt(y)), ArithS(op, SInt(x), SInt(y)))
  {
  }

  /** Arithmetic of numbers is the same on both sides: `/` is accepted only
      when an operand is a float, so Stoolap never divides integers. */
  lemma {:induction false} ArithmeticAgrees(op: ArithOp, i: Info, j: Info, m: MValue, s: SValue, n: MValue, t: SValue)
    requires Consistent(i) && Consistent(j) && Numeric(i.cls) && Numeric(j.cls)
    requires AgreeValue(i.cls, m, s) && AgreeValue(j.cls, n, t)
    requires var ty := ArithTy(op, i.ty, j.ty);
      Numeric(ClassOf(ty, BINARY)) && (op == Divide ==> ClassOf(ty, BINARY) == REAL)
    ensures var ty := ArithTy(op, i.ty, j.ty);
      Agree(ClassOf(ty, BINARY), ArithM(op, ty, m, n), ArithS(op, s, t))
  {
    var ty := ArithTy(op, i.ty, j.ty);
    if m != MNull && n != MNull {
      if ty.IntTy? {
        IntArithmeticAgrees(op, m.i, n.i, ty);
      } else {
        assert IsNumber(m) && IsNumber(n);
        assert !(s.SInt? && t.SInt?);
      }
    }
  }

  // --------------------------------------------------------------- expressions

  /** What a value's SQL yields. */
  predicate NodeAgrees(schema: seq<Column>, it: Item, m: Result<MValue>, s: Result<SValue>) {
    && (if IsTest(it) then AgreeTruth(m, s) else Agree(Typed(schema, it).cls, m, s))
    && (Typed(schema, it).isNull ==> m == Ok(MNull))
  }

  predicate ExprAgrees(schema: seq<Column>, it: Item, m: Result<MValue>, s: Result<SValue>) {
    && Agree(Typed(schema, it).cls, m, s)
    && (Typed(schema, it).isNull ==> m == Ok(MNull))
  }

  predicate BranchAgrees(result: Info, m: Result<MValue>, s: Result<SValue>) {
    && FailAlike(m, s)
    && (m.Ok? ==> AgreeValue(result.cls, Convert(result.ty, m.value), s.value))
  }

  /** A result whose branches are converted exactly when it is a float. */
  predicate Converts(result: Info) {
    result.cls == REAL <==> result.ty.RealTy?
  }

  ghost predicate SameRow(w: World, g: Gen, mrow: seq<MValue>, srow: seq<SValue>) {
    Setting(w, g) && Stored(g, mrow, srow) && Formed(w, g, mrow, srow)
  }

  /** Every value the generator emits means what MariaDB means by it: the same
      integer, float or text, NULL together, an error together. */
  lemma {:induction false} ExprMeans(w: World, g: Gen, it: Item, mrow: seq<MValue>, srow: seq<SValue>)
    requires SameRow(w, g, mrow, srow)
    requires Clean(g.schema, it) && ExprOf(g, it).Some?
    ensures ExprAgrees(g.schema, it, M(w, mrow, it), S(srow, ExprOf(g, it).value))
    decreases it, 1
  {
    NodeMeans(w, g, it, mrow, srow);
    TypedConsistent(g.schema, it);
    var t := NodeOf(g, it).value;
    UnaryValue(CastInteger(t), srow);
    CastAgrees(Typed(g.schema, it), IsTest(it), t, M(w, mrow, it), S(srow, t));
  }

  /** The cast turns a condition into MariaDB's 1 or 0, and leaves an integer. */
  lemma {:induction false} CastAgrees(i: Info, test: bool, t: Sql, m: Result<MValue>, s: Result<SValue>)
    requires Consistent(i) && (if test then i == TRUTH && AgreeTruth(m, s) else Agree(i.cls, m, s))
    ensures Agree(i.cls, m, if i.boolean then UnaryS(CastInteger(t), s) else s)
  {
  }

  /** Every condition it emits is a boolean, and the one MariaDB would test. */
  lemma {:induction false} ConditionMeans(w: World, g: Gen, it: Item, mrow: seq<MValue>, srow: seq<SValue>)
    requires SameRow(w, g, mrow, srow)
    requires !IsMixed(it) && Clean(g.schema, it) && ConditionOf(g, it).Some?
    ensures AgreeTruth(M(w, mrow, it), S(srow, ConditionOf(g, it).value))
    decreases it, 1
  {
    NodeMeans(w, g, it, mrow, srow);
  }

  /** A branch yields its result's class once MariaDB has converted it. */
  lemma {:induction false} BranchMeans(w: World, g: Gen, it: Item, result: Info, mrow: seq<MValue>, srow: seq<SValue>)
    requires SameRow(w, g, mrow, srow)
    requires Clean(g.schema, it) && BranchOf(g, it, result.cls).Some?
    requires Fits(Typed(g.schema, it), result) && Converts(result)
    ensures BranchAgrees(result, M(w, mrow, it), S(srow, BranchOf(g, it, result.cls).value))
    decreases it, 2
  {
    ExprMeans(w, g, it, mrow, srow);
    TypedConsistent(g.schema, it);
    var i := Typed(g.schema, it);
    var t := ExprOf(g, it).value;
    UnaryValue(CastFloat(t), srow);
    WidenAgrees(i, result, t, M(w, mrow, it), S(srow, t));
  }

  /** An integer branch of a float result becomes the float MariaDB makes of it. */
  lemma {:induction false} WidenAgrees(i: Info, result: Info, t: Sql, m: Result<MValue>, s: Result<SValue>)
    requires Consistent(i) && Fits(i, result) && Converts(result)
    requires Agree(i.cls, m, s) && (i.isNull ==> m == Ok(MNull))
    ensures BranchAgrees(result, m, if result.cls == REAL && i.cls == INT then UnaryS(CastFloat(t), s) else s)
  {
  }

  lemma {:induction false} NodeMeans(w: World, g: Gen, it: Item, mrow: seq<MValue>, srow: seq<SValue>)
    requires SameRow(w, g, mrow, srow)
    requires Clean(g.schema, it) && NodeOf(g, it).Some?
    ensures NodeAgrees(g.schema, it, M(w, mrow, it), S(srow, NodeOf(g, it).value))
    decreases it, 0
  {
    match it
    case Cmp(_, _, _, _) => PairMeans(w, g, it, mrow, srow);
    case NullSafeEq(_, _, _) => PairMeans(w, g, it, mrow, srow);
    case IsNull(_) => UnaryMeans(w, g, it, mrow, srow);
    case IsNotNull(_) => UnaryMeans(w, g, it, mrow, srow);
    case Neg(_) => UnaryMeans(w, g, it, mrow, srow);
    case Not(_) => LogicMeans(w, g, it, mrow, srow);
    case And(_) => LogicMeans(w, g, it, mrow, srow);
    case Or(_) => LogicMeans(w, g, it, mrow, srow);
    case Between(_, _, _, _, _) => BetweenMeans(w, g, it, mrow, srow);
    case In(_, _, _, _) => InMeans(w, g, it, mrow, srow);
    case Case(_, _) => CaseMeans(w, g, it, mrow, srow);
    case CaseOf(_, _, _, _) => CaseOfMeans(w, g, it, mrow, srow);
    case If(_, _, _, _) => IfMeans(w, g, it, mrow, srow);
    case Coalesce(_, _) => CoalesceMeans(w, g, it, mrow, srow);
    case NullIf(_, _, _, _) => PairMeans(w, g, it, mrow, srow);
    case Arith(_, _, _) => PairMeans(w, g, it, mrow, srow);
    case Concat(_, _) => ConcatMeans(w, g, it, mrow, srow);
    case _ => LeafMeans(w, g, it, mrow, srow);
  }

  lemma {:induction false} LeafMeans(w: World, g: Gen, it: Item, mrow: seq<MValue>, srow: seq<SValue>)
    requires SameRow(w, g, mrow, srow)
    requires it.Field? || it.IntConst? || it.RealConst? || it.DecConst? || it.StrConst? || it.NullConst?
    requires NodeOf(g, it).Some?
    ensures NodeAgrees(g.schema, it, M(w, mrow, it), S(srow, NodeOf(g, it).value))
  {
  }

  lemma {:induction false} LogicMeans(w: World, g: Gen, it: Item, mrow: seq<MValue>, srow: seq<SValue>)
    requires SameRow(w, g, mrow, srow)
    requires it.Not? || it.And? || it.Or?
    requires Clean(g.schema, it) && NodeOf(g, it).Some?
    ensures NodeAgrees(g.schema, it, M(w, mrow, it), S(srow, NodeOf(g, it).value))
    decreases it, 0, 0
  {
    match it
    case Not(a) => ConditionMeans(w, g, a, mrow, srow);
    case And(args) => AllMeans(w, g, args, false, mrow, srow);
    case Or(args) => AnyMeans(w, g, args, false, mrow, srow);
  }

  lemma {:induction false} ConcatMeans(w: World, g: Gen, it: Item, mrow: seq<MValue>, srow: seq<SValue>)
    requires SameRow(w, g, mrow, srow)
    requires it.Concat? && Clean(g.schema, it) && NodeOf(g, it).Some?
    ensures NodeAgrees(g.schema, it, M(w, mrow, it), S(srow, NodeOf(g, it).value))
    decreases it, 0, 0
  {
    JoinedMeans(w, g, it.args, mrow, srow);
    ConcatClass(g.schema, it, M(w, mrow, it), JoinedS(srow, ExprsOf(g, it.args).value));
  }

  lemma {:induction false} ConcatClass(schema: seq<Column>, it: Item, m: Result<MValue>, s: Result<SValue>)
    requires it.Concat? && Agree(STR, m, s)
    ensures Agree(Typed(schema, it).cls, m, s)
  {
  }

  lemma {:induction false} UnaryMeans(w: World, g: Gen, it: Item, mrow: seq<MValue>, srow: seq<SValue>)
    requires SameRow(w, g, mrow, srow)
    requires it.IsNull? || it.IsNotNull? || it.Neg?
    requires Clean(g.schema, it) && NodeOf(g, it).Some?
    ensures NodeAgrees(g.schema, it, M(w, mrow, it), S(srow, NodeOf(g, it).value))
    decreases it, 0, 0
  {
    ExprMeans(w, g, it.a, mrow, srow);
    var l := ExprOf(g, it.a).value;
    UnaryAgrees(w, g, it, M(w, mrow, it.a), l, S(srow, l));
    UnaryValue(UnarySql(it, l), srow);
  }

  lemma {:induction false} UnaryAgrees(w: World, g: Gen, it: Item, x: Result<MValue>, l: Sql, s: Result<SValue>)
    requires it.IsNull? || it.IsNotNull? || it.Neg?
    requires ExprAgrees(g.schema, it.a, x, s) && Unary(g, it, Some(l)).Some?
    ensures NodeAgrees(g.schema, it, UnaryM(w, it, x), UnaryS(UnarySql(it, l), s))
  {
    TypedConsistent(g.schema, it.a);
  }

  lemma {:induction false} PairMeans(w: World, g: Gen, it: Item, mrow: seq<MValue>, srow: seq<SValue>)
    requires SameRow(w, g, mrow, srow)
    requires IsPair(it) && Clean(g.schema, it) && NodeOf(g, it).Some?
    ensures NodeAgrees(g.schema, it, M(w, mrow, it), S(srow, NodeOf(g, it).value))
    decreases it, 0, 0
  {
    ExprMeans(w, g, it.a, mrow, srow);
    ExprMeans(w, g, it.b, mrow, srow);
    var l, r := ExprOf(g, it.a).value, ExprOf(g, it.b).value;
    PairValue(PairSql(it, l, r), srow);
    PairAgrees(w, g, it, M(w, mrow, it.a), M(w, mrow, it.b), l, r, S(srow, l), S(srow, r));
  }

  lemma {:induction false} UnaryValue(t: Sql, srow: seq<SValue>)
    requires IsUnarySql(t)
    ensures S(srow, t) == UnaryS(t, S(srow, t.l))
  {
    match t
    case NullTest(_, _) =>
    case NotSql(_) =>
    case NegSql(_) =>
    case CastInteger(_) =>
    case CastFloat(_) =>
    case CharLength(_) =>
    case Substr(_, _, _) =>
    case Replace(_, _) =>
  }

  lemma {:induction false} PairValue(t: Sql, srow: seq<SValue>)
    requires IsPairSql(t)
    ensures S(srow, t) == PairS(t, S(srow, t.l), S(srow, t.r))
  {
    match t
    case Compare(_, _, _) =>
    case NotDistinct(_, _) =>
    case Distinct(_, _) =>
    case NullIfSql(_, _) =>
    case ArithSql(_, _, _) =>
  }

  lemma {:induction false} TestAgrees(w: World, g: Gen, it: Item, x: Result<MValue>, y: Result<MValue>,
                   l: Sql, r: Sql, u: Result<SValue>, v: Result<SValue>)
    requires Setting(w, g) && (it.Cmp? || it.NullSafeEq?) && PairAccepted(g, it)
    requires ExprAgrees(g.schema, it.a, x, u) && ExprAgrees(g.schema, it.b, y, v)
    ensures NodeAgrees(g.schema, it, PairM(w, it, x, y), PairS(PairSql(it, l, r), u, v))
  {
    if x.Ok? && y.Ok? {
      ComparisonAgrees(w, g, Typed(g.schema, it.a), Typed(g.schema, it.b), Some(it.cmpCollation), it.cmpCollation,
                       x.value, u.value, y.value, v.value);
    }
  }

  lemma {:induction false} NullIfAgrees(w: World, g: Gen, it: Item, x: Result<MValue>, y: Result<MValue>,
                     l: Sql, r: Sql, u: Result<SValue>, v: Result<SValue>)
    requires Setting(w, g) && it.NullIf? && PairAccepted(g, it) && !TakesIndex(g.schema, it)
    requires ExprAgrees(g.schema, it.a, x, u) && ExprAgrees(g.schema, it.b, y, v)
    ensures NodeAgrees(g.schema, it, PairM(w, it, x, y), PairS(PairSql(it, l, r), u, v))
  {
    if x.Ok? && y.Ok? {
      NullIfClass(g.schema, it);
      NullIfValue(w, g, Typed(g.schema, it.a), Typed(g.schema, it.b), it.byFirst, Typed(g.schema, it).cls,
                  x.value, u.value, y.value, v.value);
    }
  }

  lemma {:induction false} ArithAgrees(w: World, g: Gen, it: Item, x: Result<MValue>, y: Result<MValue>,
                    l: Sql, r: Sql, u: Result<SValue>, v: Result<SValue>)
    requires Setting(w, g) && it.Arith? && PairAccepted(g, it)
    requires ExprAgrees(g.schema, it.a, x, u) && ExprAgrees(g.schema, it.b, y, v)
    ensures NodeAgrees(g.schema, it, PairM(w, it, x, y), PairS(PairSql(it, l, r), u, v))
  {
    if x.Ok? && y.Ok? {
      TypedConsistent(g.schema, it.a);
      TypedConsistent(g.schema, it.b);
      ArithmeticAgrees(it.arith, Typed(g.schema, it.a), Typed(g.schema, it.b), x.value, u.value, y.value, v.value);
    }
  }

  lemma {:induction false} PairAgrees(w: World, g: Gen, it: Item, x: Result<MValue>, y: Result<MValue>,
                   l: Sql, r: Sql, u: Result<SValue>, v: Result<SValue>)
    requires Setting(w, g) && IsPair(it) && PairAccepted(g, it) && !TakesIndex(g.schema, it)
    requires ExprAgrees(g.schema, it.a, x, u) && ExprAgrees(g.schema, it.b, y, v)
    ensures NodeAgrees(g.schema, it, PairM(w, it, x, y), PairS(PairSql(it, l, r), u, v))
  {
    match it
    case NullIf(_, _, _, _) => NullIfAgrees(w, g, it, x, y, l, r, u, v);
    case Arith(_, _, _) => ArithAgrees(w, g, it, x, y, l, r, u, v);
    case _ => TestAgrees(w, g, it, x, y, l, r, u, v);
  }

  /** NULLIF has its first argument's class, or (of an unsigned column or a
      decimal literal) none the generator relies on. */
  lemma {:induction false} NullIfClass(schema: seq<Column>, it: Item)
    requires it.NullIf? && !TakesIndex(schema, it)
    ensures Typed(schema, it).cls == Typed(schema, it.a).cls || Typed(schema, it).cls == UNSAFE
  {
    ClassOfTyped(schema, it.a);
  }

  /** Its two arguments are compared by a collation of one of them, and both
      are safe. */
  lemma {:induction false} NullIfValue(w: World, g: Gen, i: Info, j: Info, byFirst: bool, result: Cls,
                    m: MValue, s: SValue, n: MValue, t: SValue)
    requires Setting(w, g) && Comparable(g, i, j, None)
    requires AgreeValue(i.cls, m, s) && AgreeValue(j.cls, n, t)
    requires (i.isNull ==> m == MNull) && (j.isNull ==> n == MNull)
    requires result == i.cls || result == UNSAFE
    ensures AgreeValue(result, NullIfM(w, if byFirst then i.collation else j.collation, m, n), NullIfS(s, t))
  {
    ComparisonAgrees(w, g, i, j, None, if byFirst then i.collation else j.collation, m, s, n, t);
  }

  lemma {:induction false} ClassOfTyped(schema: seq<Column>, it: Item)
    requires it.Field? && it.column < |schema| && schema[it.column].kind.Listed? ==> !schema[it.column].kind.collation.utf8
    ensures var i := Typed(schema, it); ClassOf(i.ty, i.collation) == i.cls || ClassOf(i.ty, i.collation) == UNSAFE
  {
  }

  lemma {:induction false} RangeAgrees(w: World, g: Gen, i: Info, j: Info, k: Info, cmp: Collation, negated: bool,
                    x: Result<MValue>, u: Result<SValue>, l: Result<MValue>, v: Result<SValue>,
                    h: Result<MValue>, z: Result<SValue>)
    requires Setting(w, g) && Comparable(g, i, j, Some(cmp)) && Comparable(g, i, k, Some(cmp))
    requires Agree(i.cls, x, u) && Agree(j.cls, l, v) && Agree(k.cls, h, z)
    requires (i.isNull ==> x == Ok(MNull)) && (j.isNull ==> l == Ok(MNull)) && (k.isNull ==> h == Ok(MNull))
    ensures AgreeTruth(RangeM(w, cmp, negated, x, l, h), RangeS(negated, u, v, z))
  {
    if x.Ok? && l.Ok? && h.Ok? {
      ComparisonAgrees(w, g, i, j, Some(cmp), cmp, x.value, u.value, l.value, v.value);
      ComparisonAgrees(w, g, i, k, Some(cmp), cmp, x.value, u.value, h.value, z.value);
    }
  }

  lemma {:induction false} BetweenMeans(w: World, g: Gen, it: Item, mrow: seq<MValue>, srow: seq<SValue>)
    requires SameRow(w, g, mrow, srow)
    requires it.Between? && Clean(g.schema, it) && NodeOf(g, it).Some?
    ensures NodeAgrees(g.schema, it, M(w, mrow, it), S(srow, NodeOf(g, it).value))
    decreases it, 0, 0
  {
    ExprMeans(w, g, it.a, mrow, srow);
    ExprMeans(w, g, it.lo, mrow, srow);
    ExprMeans(w, g, it.hi, mrow, srow);
    RangeAgrees(w, g, Typed(g.schema, it.a), Typed(g.schema, it.lo), Typed(g.schema, it.hi), it.cmpCollation,
                it.negated, M(w, mrow, it.a), S(srow, ExprOf(g, it.a).value),
                M(w, mrow, it.lo), S(srow, ExprOf(g, it.lo).value),
                M(w, mrow, it.hi), S(srow, ExprOf(g, it.hi).value));
    RangeValue(ExprOf(g, it.a).value, ExprOf(g, it.lo).value, ExprOf(g, it.hi).value, it.negated, srow);
  }

  lemma {:induction false} RangeValue(l: Sql, lo: Sql, hi: Sql, negated: bool, srow: seq<SValue>)
    ensures S(srow, BetweenSql(l, lo, hi, negated)) == RangeS(negated, S(srow, l), S(srow, lo), S(srow, hi))
  {
  }

  lemma {:induction false} AllMeans(w: World, g: Gen, args: Items, unknown: bool,
                                    mrow: seq<MValue>, srow: seq<SValue>)
    requires SameRow(w, g, mrow, srow)
    requires CleanTests(g.schema, args) && ConditionsOf(g, args).Some?
    ensures AgreeTri(AllM(w, mrow, args, unknown), AllS(srow, ConditionsOf(g, args).value, unknown))
    decreases args, 0
  {
    if args.Cons? {
      ConditionMeans(w, g, args.head, mrow, srow);
      var x := M(w, mrow, args.head);
      if x.Ok? {
        AllMeans(w, g, args.tail, unknown || TruthM(w, x.value) == Unknown, mrow, srow);
      }
    }
  }

  lemma {:induction false} AnyMeans(w: World, g: Gen, args: Items, unknown: bool,
                                    mrow: seq<MValue>, srow: seq<SValue>)
    requires SameRow(w, g, mrow, srow)
    requires CleanTests(g.schema, args) && ConditionsOf(g, args).Some?
    ensures AgreeTri(AnyM(w, mrow, args, unknown), AnyS(srow, ConditionsOf(g, args).value, unknown))
    decreases args, 0
  {
    if args.Cons? {
      ConditionMeans(w, g, args.head, mrow, srow);
      var x := M(w, mrow, args.head);
      if x.Ok? {
        AnyMeans(w, g, args.tail, unknown || TruthM(w, x.value) == Unknown, mrow, srow);
      }
    }
  }

  /** `x = value`, as IN and CASE test it. */
  lemma {:induction false} TestMeans(w: World, g: Gen, i: Info, m: MValue, s: SValue, it: Item, cmp: Collation,
                                     mrow: seq<MValue>, srow: seq<SValue>)
    requires SameRow(w, g, mrow, srow)
    requires Clean(g.schema, it) && ExprOf(g, it).Some?
    requires Comparable(g, i, Typed(g.schema, it), Some(cmp))
    requires AgreeValue(i.cls, m, s) && (i.isNull ==> m == MNull)
    ensures var y, v := M(w, mrow, it), S(srow, ExprOf(g, it).value);
      && FailAlike(y, v)
      && (y.Ok? ==> TestM(w, cmp, Eq, m, y.value) == TestS(Eq, s, v.value))
    decreases it, 2
  {
    ExprMeans(w, g, it, mrow, srow);
    var y, v := M(w, mrow, it), S(srow, ExprOf(g, it).value);
    if y.Ok? {
      ComparisonAgrees(w, g, i, Typed(g.schema, it), Some(cmp), cmp, m, s, y.value, v.value);
    }
  }

  lemma {:induction false} AmongMeans(w: World, g: Gen, i: Info, m: MValue, s: SValue, args: Items, cmp: Collation,
                                      unknown: bool, mrow: seq<MValue>, srow: seq<SValue>)
    requires SameRow(w, g, mrow, srow)
    requires CleanAll(g.schema, args) && ExprsOf(g, args).Some?
    requires AllComparable(g, i, Infos(g.schema, args), cmp)
    requires AgreeValue(i.cls, m, s) && (i.isNull ==> m == MNull)
    ensures AgreeTri(AmongM(w, mrow, m, args, cmp, unknown), AmongS(srow, s, ExprsOf(g, args).value, unknown))
    decreases args, 0
  {
    if args.Cons? {
      var infos := Infos(g.schema, args);
      assert infos[0] == Typed(g.schema, args.head) && infos[1..] == Infos(g.schema, args.tail);
      TestMeans(w, g, i, m, s, args.head, cmp, mrow, srow);
      var y := M(w, mrow, args.head);
      if y.Ok? {
        AmongMeans(w, g, i, m, s, args.tail, cmp, unknown || TestM(w, cmp, Eq, m, y.value) == Unknown, mrow, srow);
      }
    }
  }

  lemma {:induction false} InMeans(w: World, g: Gen, it: Item, mrow: seq<MValue>, srow: seq<SValue>)
    requires SameRow(w, g, mrow, srow)
    requires it.In? && Clean(g.schema, it) && NodeOf(g, it).Some?
    ensures NodeAgrees(g.schema, it, M(w, mrow, it), S(srow, NodeOf(g, it).value))
    decreases it, 0, 0
  {
    ExprMeans(w, g, it.a, mrow, srow);
    var x, u := M(w, mrow, it.a), S(srow, ExprOf(g, it.a).value);
    if x.Ok? {
      AmongMeans(w, g, Typed(g.schema, it.a), x.value, u.value, it.args, it.cmpCollation, false, mrow, srow);
    }
  }

  lemma {:induction false} ChosenMeans(w: World, g: Gen, whens: Whens, result: Info,
                                       mrow: seq<MValue>, srow: seq<SValue>)
    requires SameRow(w, g, mrow, srow)
    requires CleanWhens(g.schema, whens, true) && WhensOf(g, whens, result.cls).Some?
    requires AllFit(WhenInfos(g.schema, whens), result) && Converts(result)
    ensures BranchAgrees(result, ChosenM(w, mrow, whens), ChosenS(srow, WhensOf(g, whens, result.cls).value))
    decreases whens, 0
  {
    match whens
    case End =>
    case Else(value) =>
      assert WhenInfos(g.schema, whens)[0] == Typed(g.schema, value);
      BranchMeans(w, g, value, result, mrow, srow);
    case When(test, value, rest) =>
      var infos := WhenInfos(g.schema, whens);
      assert infos[0] == Typed(g.schema, value) && infos[1..] == WhenInfos(g.schema, rest);
      ConditionMeans(w, g, test, mrow, srow);
      BranchMeans(w, g, value, result, mrow, srow);
      ChosenMeans(w, g, rest, result, mrow, srow);
  }

  lemma {:induction false} CaseMeans(w: World, g: Gen, it: Item, mrow: seq<MValue>, srow: seq<SValue>)
    requires SameRow(w, g, mrow, srow)
    requires it.Case? && Clean(g.schema, it) && NodeOf(g, it).Some?
    ensures NodeAgrees(g.schema, it, M(w, mrow, it), S(srow, NodeOf(g, it).value))
    decreases it, 0, 0
  {
    WhensConsistent(g.schema, it.whens);
    BranchesFit(WhenInfos(g.schema, it.whens), it.settled);
    ChosenMeans(w, g, it.whens, Typed(g.schema, it), mrow, srow);
  }

  lemma {:induction false} MatchedMeans(w: World, g: Gen, i: Info, m: MValue, s: SValue, whens: Whens,
                                        cmp: Collation, result: Info, mrow: seq<MValue>, srow: seq<SValue>)
    requires SameRow(w, g, mrow, srow)
    requires CleanWhens(g.schema, whens, false) && CasesOf(g, whens, result.cls).Some?
    requires AllComparable(g, i, TestInfos(g.schema, whens), cmp)
    requires AllFit(WhenInfos(g.schema, whens), result) && Converts(result)
    requires AgreeValue(i.cls, m, s) && (i.isNull ==> m == MNull)
    ensures BranchAgrees(result, MatchedM(w, mrow, m, whens, cmp),
                         MatchedS(srow, s, CasesOf(g, whens, result.cls).value))
    decreases whens, 0
  {
    match whens
    case End =>
    case Else(value) =>
      assert WhenInfos(g.schema, whens)[0] == Typed(g.schema, value);
      BranchMeans(w, g, value, result, mrow, srow);
    case When(test, value, rest) =>
      var infos, tests := WhenInfos(g.schema, whens), TestInfos(g.schema, whens);
      assert infos[0] == Typed(g.schema, value) && infos[1..] == WhenInfos(g.schema, rest);
      assert tests[0] == Typed(g.schema, test) && tests[1..] == TestInfos(g.schema, rest);
      TestMeans(w, g, i, m, s, test, cmp, mrow, srow);
      var y := M(w, mrow, test);
      if y.Ok? {
        if TestM(w, cmp, Eq, m, y.value) == Yes {
          BranchMeans(w, g, value, result, mrow, srow);
        } else {
          MatchedMeans(w, g, i, m, s, rest, cmp, result, mrow, srow);
        }
      }
  }

  lemma {:induction false} CaseOfMeans(w: World, g: Gen, it: Item, mrow: seq<MValue>, srow: seq<SValue>)
    requires SameRow(w, g, mrow, srow)
    requires it.CaseOf? && Clean(g.schema, it) && NodeOf(g, it).Some?
    ensures NodeAgrees(g.schema, it, M(w, mrow, it), S(srow, NodeOf(g, it).value))
    decreases it, 0, 0
  {
    WhensConsistent(g.schema, it.whens);
    BranchesFit(WhenInfos(g.schema, it.whens), it.settled);
    ExprMeans(w, g, it.a, mrow, srow);
    var x, u := M(w, mrow, it.a), S(srow, ExprOf(g, it.a).value);
    if x.Ok? {
      MatchedMeans(w, g, Typed(g.schema, it.a), x.value, u.value, it.whens, it.cmpCollation, Typed(g.schema, it),
                   mrow, srow);
    }
  }

  lemma {:induction false} IfMeans(w: World, g: Gen, it: Item, mrow: seq<MValue>, srow: seq<SValue>)
    requires SameRow(w, g, mrow, srow)
    requires it.If? && Clean(g.schema, it) && NodeOf(g, it).Some?
    ensures NodeAgrees(g.schema, it, M(w, mrow, it), S(srow, NodeOf(g, it).value))
    decreases it, 0, 0
  {
    IfFits(g, it);
    IfTree(g, it, srow);
    ConditionMeans(w, g, it.cond, mrow, srow);
    BranchMeans(w, g, it.a, Typed(g.schema, it), mrow, srow);
    BranchMeans(w, g, it.b, Typed(g.schema, it), mrow, srow);
    var cls := Typed(g.schema, it).cls;
    OneAgrees(w, Typed(g.schema, it), M(w, mrow, it.cond), M(w, mrow, it.a), M(w, mrow, it.b),
              S(srow, ConditionOf(g, it.cond).value), S(srow, BranchOf(g, it.a, cls).value),
              S(srow, BranchOf(g, it.b, cls).value));
    assert !IsTest(it) && !Typed(g.schema, it).isNull;
    assert M(w, mrow, it) == OneM(w, Typed(g.schema, it), M(w, mrow, it.cond), M(w, mrow, it.a), M(w, mrow, it.b));
  }

  /** One of two values by a condition, in the result's type. */
  function OneM(w: World, result: Info, c: Result<MValue>, a: Result<MValue>, b: Result<MValue>): Result<MValue> {
    var v :- c;
    var x :- if TruthM(w, v) == Yes then a else b;
    Ok(Convert(result.ty, x))
  }

  lemma {:induction false} OneAgrees(w: World, result: Info, c: Result<MValue>, a: Result<MValue>, b: Result<MValue>,
                                     sc: Result<SValue>, sa: Result<SValue>, sb: Result<SValue>)
    requires AgreeTruth(c, sc) && BranchAgrees(result, a, sa) && BranchAgrees(result, b, sb)
    ensures Agree(result.cls, OneM(w, result, c, a, b), WhenS(sc, sa, sb))
  {
  }

  lemma {:induction false} IfFits(g: Gen, it: Item)
    requires it.If? && NodeOf(g, it).Some?
    ensures Fits(Typed(g.schema, it.a), Typed(g.schema, it)) && Fits(Typed(g.schema, it.b), Typed(g.schema, it))
    ensures Converts(Typed(g.schema, it))
  {
    var infos := [Typed(g.schema, it.a), Typed(g.schema, it.b)];
    TypedConsistent(g.schema, it.a);
    TypedConsistent(g.schema, it.b);
    BranchesFit(infos, it.settled);
    assert Fits(infos[0], Typed(g.schema, it)) && Fits(infos[1], Typed(g.schema, it));
  }

  lemma {:induction false} IfTree(g: Gen, it: Item, srow: seq<SValue>)
    requires it.If? && NodeOf(g, it).Some?
    ensures var cls := Typed(g.schema, it).cls;
      var c, x, y := ConditionOf(g, it.cond), BranchOf(g, it.a, cls), BranchOf(g, it.b, cls);
      c.Some? && x.Some? && y.Some? &&
      S(srow, NodeOf(g, it).value) == WhenS(S(srow, c.value), S(srow, x.value), S(srow, y.value))
  {
    var cls := Typed(g.schema, it).cls;
    TwoWay(srow, ConditionOf(g, it.cond).value, BranchOf(g, it.a, cls).value, BranchOf(g, it.b, cls).value);
  }

  /** CASE WHEN c THEN x ELSE y END. */
  lemma {:induction false} TwoWay(row: seq<SValue>, c: Sql, x: Sql, y: Sql)
    ensures S(row, CaseSql(WhenSql(c, x, ElseSql(y)))) == WhenS(S(row, c), S(row, x), S(row, y))
  {
    CaseTree(row, WhenSql(c, x, ElseSql(y)));
    WhenTree(row, c, x, ElseSql(y));
    ElseTree(row, y);
  }

  lemma {:induction false} CaseTree(row: seq<SValue>, ws: SqlWhens)
    ensures S(row, CaseSql(ws)) == ChosenS(row, ws)
  {
  }

  lemma {:induction false} WhenTree(row: seq<SValue>, c: Sql, x: Sql, rest: SqlWhens)
    ensures ChosenS(row, WhenSql(c, x, rest)) == WhenS(S(row, c), S(row, x), ChosenS(row, rest))
  {
  }

  lemma {:induction false} ElseTree(row: seq<SValue>, x: Sql)
    ensures ChosenS(row, ElseSql(x)) == S(row, x)
  {
  }

  lemma {:induction false} FirstMeans(w: World, g: Gen, args: Items, result: Info,
                                      mrow: seq<MValue>, srow: seq<SValue>)
    requires SameRow(w, g, mrow, srow)
    requires CleanAll(g.schema, args) && BranchesOf(g, args, result.cls).Some?
    requires AllFit(Infos(g.schema, args), result) && Converts(result)
    ensures BranchAgrees(result, FirstM(w, mrow, args), FirstS(srow, BranchesOf(g, args, result.cls).value))
    decreases args, 0
  {
    if args.Cons? {
      var infos := Infos(g.schema, args);
      assert infos[0] == Typed(g.schema, args.head) && infos[1..] == Infos(g.schema, args.tail);
      BranchMeans(w, g, args.head, result, mrow, srow);
      FirstMeans(w, g, args.tail, result, mrow, srow);
    }
  }

  lemma {:induction false} CoalesceMeans(w: World, g: Gen, it: Item, mrow: seq<MValue>, srow: seq<SValue>)
    requires SameRow(w, g, mrow, srow)
    requires it.Coalesce? && Clean(g.schema, it) && NodeOf(g, it).Some?
    ensures NodeAgrees(g.schema, it, M(w, mrow, it), S(srow, NodeOf(g, it).value))
    decreases it, 0, 0
  {
    ItemsConsistent(g.schema, it.args);
    BranchesFit(Infos(g.schema, it.args), it.settled);
    FirstMeans(w, g, it.args, Typed(g.schema, it), mrow, srow);
  }

  /** `||` is NULL exactly when CONCAT is. */
  lemma {:induction false} JoinedMeans(w: World, g: Gen, args: Items, mrow: seq<MValue>, srow: seq<SValue>)
    requires SameRow(w, g, mrow, srow)
    requires CleanAll(g.schema, args) && ExprsOf(g, args).Some? && AllStrings(Infos(g.schema, args))
    ensures Agree(STR, JoinedM(w, mrow, args), JoinedS(srow, ExprsOf(g, args).value))
    decreases args, 0
  {
    if args.Cons? {
      var infos := Infos(g.schema, args);
      assert infos[0] == Typed(g.schema, args.head) && infos[1..] == Infos(g.schema, args.tail);
      ExprMeans(w, g, args.head, mrow, srow);
      JoinedMeans(w, g, args.tail, mrow, srow);
    }
  }

  // -------------------------------------------------------------- passed through

  /** A value in the form Stoolap gives those it computes. */
  function Plainly(m: MValue): SValue {
    match m
    case MInt(i) => SInt(i)
    case MReal(r) => SFloat(r)
    case MStr(s) => SText(s)
    case _ => SNull
  }

  /** The stored form of a value: its column's own, or the plain one. */
  predicate IsForm(w: World, origin: Option<nat>, m: MValue, s: SValue) {
    if origin.Some? then s == w.form(origin.value, m) else s == Plainly(m) && !m.MOther?
  }

  lemma {:induction false} OriginType(schema: seq<Column>, it: Item)
    requires Origin(schema, it).Some?
    ensures var i, k := Typed(schema, it), ColumnInfo(schema[Origin(schema, it).value].kind);
      i.ty == k.ty && i.collation == k.collation && !i.boolean && (it.Field? || it.NullIf?)
    decreases it
  {
    if it.NullIf? {
      OriginType(schema, it.a);
    }
  }

  /** Whatever its class, an accepted item's SQL yields the stored form of
      MariaDB's value: the column's own where the item passes a column on, the
      plain one of anything computed. */
  lemma {:induction false} FormMeans(w: World, g: Gen, it: Item, mrow: seq<MValue>, srow: seq<SValue>)
    requires SameRow(w, g, mrow, srow) && ExprOf(g, it).Some?
    requires Clean(g.schema, it) || (TakesIndex(g.schema, it) && Clean(g.schema, it.b))
    ensures var m, s := M(w, mrow, it), S(srow, ExprOf(g, it).value);
      FailAlike(m, s) && (m.Ok? ==> IsForm(w, Origin(g.schema, it), m.value, s.value))
    decreases it
  {
    if it.NullIf? {
      NullIfForm(w, g, it, mrow, srow);
    } else if it.Concat? {
      JoinedForm(w, g, it, mrow, srow);
    } else if IsLeaf(it) {
      LeafForm(w, g, it, mrow, srow);
    } else {
      ComputedForm(w, g, it, mrow, srow);
    }
  }

  lemma {:induction false} LeafForm(w: World, g: Gen, it: Item, mrow: seq<MValue>, srow: seq<SValue>)
    requires SameRow(w, g, mrow, srow) && ExprOf(g, it).Some? && IsLeaf(it)
    ensures var m, s := M(w, mrow, it), S(srow, ExprOf(g, it).value);
      FailAlike(m, s) && (m.Ok? ==> IsForm(w, Origin(g.schema, it), m.value, s.value))
  {
    assert NodeOf(g, it) == ExprOf(g, it);
  }

  predicate IsLeaf(it: Item) {
    it.Field? || it.IntConst? || it.RealConst? || it.DecConst? || it.StrConst? || it.NullConst?
  }

  /** What is computed has a class of the generator's. */
  lemma {:induction false} ComputedClass(g: Gen, it: Item)
    requires NodeOf(g, it).Some? && !IsLeaf(it) && !it.NullIf? && !it.Concat?
    ensures Typed(g.schema, it).cls != UNSAFE && Origin(g.schema, it).None?
  {
  }

  lemma {:induction false} ComputedForm(w: World, g: Gen, it: Item, mrow: seq<MValue>, srow: seq<SValue>)
    requires SameRow(w, g, mrow, srow) && ExprOf(g, it).Some? && Clean(g.schema, it)
    requires !IsLeaf(it) && !it.NullIf? && !it.Concat?
    ensures var m, s := M(w, mrow, it), S(srow, ExprOf(g, it).value);
      FailAlike(m, s) && (m.Ok? ==> IsForm(w, Origin(g.schema, it), m.value, s.value))
  {
    ExprMeans(w, g, it, mrow, srow);
    ComputedClass(g, it);
    ClassForm(w, Typed(g.schema, it).cls, M(w, mrow, it), S(srow, ExprOf(g, it).value));
  }

  lemma {:induction false} ClassForm(w: World, cls: Cls, m: Result<MValue>, s: Result<SValue>)
    requires Agree(cls, m, s) && cls != UNSAFE
    ensures FailAlike(m, s) && (m.Ok? ==> IsForm(w, None, m.value, s.value))
  {
  }

  lemma {:induction false} JoinedForm(w: World, g: Gen, it: Item, mrow: seq<MValue>, srow: seq<SValue>)
    requires SameRow(w, g, mrow, srow) && ExprOf(g, it).Some? && Clean(g.schema, it) && it.Concat?
    ensures var m, s := M(w, mrow, it), S(srow, ExprOf(g, it).value);
      FailAlike(m, s) && (m.Ok? ==> IsForm(w, Origin(g.schema, it), m.value, s.value))
  {
    JoinedMeans(w, g, it.args, mrow, srow);
    ClassForm(w, STR, M(w, mrow, it), S(srow, ExprOf(g, it).value));
  }

  lemma {:induction false} NullIfForm(w: World, g: Gen, it: Item, mrow: seq<MValue>, srow: seq<SValue>)
    requires SameRow(w, g, mrow, srow) && it.NullIf? && ExprOf(g, it).Some?
    requires Clean(g.schema, it) || (TakesIndex(g.schema, it) && Clean(g.schema, it.b))
    ensures var m, s := M(w, mrow, it), S(srow, ExprOf(g, it).value);
      FailAlike(m, s) && (m.Ok? ==> IsForm(w, Origin(g.schema, it), m.value, s.value))
    decreases it, 0
  {
    var i, j := Typed(g.schema, it.a), Typed(g.schema, it.b);
    var l, r := ExprOf(g, it.a).value, ExprOf(g, it.b).value;
    var x, y, u, v := M(w, mrow, it.a), M(w, mrow, it.b), S(srow, l), S(srow, r);
    assert Clean(g.schema, it.a) && Clean(g.schema, it.b);
    ExprMeans(w, g, it.a, mrow, srow);
    ExprMeans(w, g, it.b, mrow, srow);
    FormMeans(w, g, it.a, mrow, srow);
    if Typed(g.schema, it).boolean {
      BooleanForm(w, g, it, mrow, srow);
    } else {
      PairValue(NullIfSql(l, r), srow);
      if x.Ok? && y.Ok? {
        ComparisonAgrees(w, g, i, j, None, if it.byFirst then i.collation else j.collation,
                         x.value, u.value, y.value, v.value);
        NullIfKeepsForm(w, g, it, x.value, u.value, y.value, v.value);
      }
    }
  }

  lemma {:induction false} BooleanForm(w: World, g: Gen, it: Item, mrow: seq<MValue>, srow: seq<SValue>)
    requires SameRow(w, g, mrow, srow) && it.NullIf? && ExprOf(g, it).Some? && Typed(g.schema, it).boolean
    requires Clean(g.schema, it) || TakesIndex(g.schema, it)
    ensures var m, s := M(w, mrow, it), S(srow, ExprOf(g, it).value);
      FailAlike(m, s) && (m.Ok? ==> IsForm(w, Origin(g.schema, it), m.value, s.value))
  {
    if Origin(g.schema, it).Some? {
      OriginType(g.schema, it);
    }
    ExprMeans(w, g, it, mrow, srow);
    TypedConsistent(g.schema, it);
    ClassForm(w, INT, M(w, mrow, it), S(srow, ExprOf(g, it).value));
  }

  lemma {:induction false} NullIfKeepsForm(w: World, g: Gen, it: Item, x: MValue, u: SValue, y: MValue, v: SValue)
    requires Setting(w, g) && it.NullIf? && IsForm(w, Origin(g.schema, it.a), x, u)
    requires var cmp := if it.byFirst then Typed(g.schema, it.a).collation else Typed(g.schema, it.b).collation;
      TestM(w, cmp, Eq, x, y) == TestS(Eq, u, v)
    ensures var cmp := if it.byFirst then Typed(g.schema, it.a).collation else Typed(g.schema, it.b).collation;
      IsForm(w, Origin(g.schema, it), NullIfM(w, cmp, x, y), NullIfS(u, v))
  {
  }

  /** What the reader makes of a cell: a column by its own form, a function over
      one by its type, which of an ENUM or SET is text. */
  function ReadBack(w: World, schema: seq<Column>, it: Item, s: SValue): MValue {
    var origin := Origin(schema, it);
    if origin.Some? && (it.Field? || !schema[origin.value].kind.Listed?)
    then w.parse(origin.value, s)
    else match s
         case SInt(i) => MInt(i)
         case SFloat(r) => MReal(r)
         case SText(x) => MStr(x)
         case SBool(b) => MInt(if b then 1 else 0)
         case SNull => MNull
  }

  /** The client reads MariaDB's value for every item of an accepted select list,
      if and only if it is no NULLIF of an ENUM or SET column, or NULL: such a
      NULLIF gives the number for the text. */
  lemma {:induction false} SelectedReadsBack(w: World, g: Gen, it: Item, mrow: seq<MValue>, srow: seq<SValue>)
    requires SameRow(w, g, mrow, srow) && SelectedOf(g, it).Some? && M(w, mrow, it).Ok?
    requires Clean(g.schema, it) || (TakesIndex(g.schema, it) && Clean(g.schema, it.b))
    ensures var m, s := M(w, mrow, it).value, S(srow, SelectedOf(g, it).value);
      s.Ok? &&
      (ReadBack(w, g.schema, it, s.value) == m <==> !TakesIndex(g.schema, it) || m == MNull)
  {
    assert SelectedOf(g, it) == ExprOf(g, it);
    FormMeans(w, g, it, mrow, srow);
    var m, s := M(w, mrow, it).value, S(srow, SelectedOf(g, it).value).value;
    if TakesIndex(g.schema, it) {
      IndexReadsBack(w, g, it, mrow, srow, m, s);
    } else {
      if Origin(g.schema, it).Some? && !it.Field? && g.schema[Origin(g.schema, it).value].kind.Listed? {
        OriginType(g.schema, it);
        ListedIsRefused(g.schema, it);
      }
      FormIsReadBack(w, g.schema, it, m, s);
    }
  }

  lemma {:induction false} IndexReadsBack(w: World, g: Gen, it: Item, mrow: seq<MValue>, srow: seq<SValue>,
                                          m: MValue, s: SValue)
    requires SameRow(w, g, mrow, srow) && TakesIndex(g.schema, it) && ExprOf(g, it).Some?
    requires M(w, mrow, it) == Ok(m) && IsForm(w, Origin(g.schema, it), m, s)
    ensures ReadBack(w, g.schema, it, s) == m <==> m == MNull
  {
    assert Origin(g.schema, it) == Origin(g.schema, it.a) == Some(it.a.column);
    if m != MNull {
      IndexValue(w, g, it, mrow, srow);
    } else {
      assert w.form(it.a.column, MNull) == SNull;
    }
  }

  lemma {:induction false} FormIsReadBack(w: World, schema: seq<Column>, it: Item, m: MValue, s: SValue)
    requires Forms(w) && IsForm(w, Origin(schema, it), m, s)
    requires Origin(schema, it).Some? && schema[Origin(schema, it).value].kind.Listed? ==> it.Field?
    ensures ReadBack(w, schema, it, s) == m
  {
  }

  /** Of a listed column with other than UTF-8 text, only the column is selected. */
  lemma {:induction false} ListedIsRefused(schema: seq<Column>, it: Item)
    requires Origin(schema, it).Some? && OwnTexts(schema, it)
    requires it.NullIf? && schema[Origin(schema, it).value].kind.Listed?
    ensures Typed(schema, it).ty.StrTy? && !Typed(schema, it).collation.utf8
    decreases it
  {
    OriginType(schema, it);
    if it.a.NullIf? {
      ListedIsRefused(schema, it.a);
    }
  }

  lemma {:induction false} IndexValue(w: World, g: Gen, it: Item, mrow: seq<MValue>, srow: seq<SValue>)
    requires SameRow(w, g, mrow, srow) && TakesIndex(g.schema, it) && ExprOf(g, it).Some?
    requires M(w, mrow, it).Ok? && M(w, mrow, it).value != MNull
    ensures M(w, mrow, it).value.MStr? && M(w, mrow, it).value == ColumnM(mrow, it.a.column)
    ensures w.form(it.a.column, M(w, mrow, it).value).SInt?
  {
    assert M(w, mrow, it.a) == Ok(ColumnM(mrow, it.a.column));
    assert NodeOf(g, it) == Pair(g, it, ExprOf(g, it.a), ExprOf(g, it.b));
    assert ExprOf(g, it.a).Some? && NodeOf(g, it.a).Some?;
    assert it.a.column !in g.written;
  }

  /** The generator does take such an item, as text of its own. */
  lemma {:induction false} IndexIsTaken(g: Gen, c: nat, byFirst: bool)
    requires c < |g.schema| && c !in g.written && g.schema[c].kind.Listed? && g.schema[c].kind.collation.utf8
    ensures var it := NullIf(Field(c), NullConst, byFirst, false);
      TakesIndex(g.schema, it) && SelectedOf(g, it) == Some(NullIfSql(ColumnRef(c), Literal(SNull))) &&
      Typed(g.schema, it).cls == STR
  {
    var it := NullIf(Field(c), NullConst, byFirst, false);
    assert NodeOf(g, Field(c)) == Some(ColumnRef(c)) && NodeOf(g, NullConst) == LiteralOf(NullConst);
    assert ExprOf(g, Field(c)) == Some(ColumnRef(c)) && ExprOf(g, NullConst) == Some(Literal(SNull));
    assert NodeOf(g, it) == Pair(g, it, ExprOf(g, Field(c)), ExprOf(g, NullConst));
  }

  // -------------------------------------------------------- condition positions

  /** SQL that yields TRUE, FALSE or NULL. */
  predicate IsBoolean(t: Sql) {
    || t.Compare? || t.NotDistinct? || t.Distinct? || t.NullTest? || t.NotSql? || t.AndSql? || t.OrSql?
    || t.BetweenSql? || t.InSql?
  }

  /** Every operand of NOT, AND and OR and every searched WHEN is boolean SQL. */
  predicate BooleanConditions(t: Sql)
    decreases t
  {
    match t
    case ColumnRef(_) => true
    case Literal(_) => true
    case Overflow => true
    case NullTest(l, _) => BooleanConditions(l)
    case NotSql(l) => IsBoolean(l) && BooleanConditions(l)
    case AndSql(args) => BooleanTests(args)
    case OrSql(args) => BooleanTests(args)
    case BetweenSql(l, lo, hi, _) => BooleanConditions(l) && BooleanConditions(lo) && BooleanConditions(hi)
    case InSql(l, args, _) => BooleanConditions(l) && BooleanAll(args)
    case CaseSql(whens) => BooleanWhens(whens, true)
    case CaseOfSql(l, whens) => BooleanConditions(l) && BooleanWhens(whens, false)
    case CoalesceSql(args) => BooleanAll(args)
    case ConcatSql(args) => BooleanAll(args)
    case Compare(_, l, r) => BooleanConditions(l) && BooleanConditions(r)
    case NotDistinct(l, r) => BooleanConditions(l) && BooleanConditions(r)
    case Distinct(l, r) => BooleanConditions(l) && BooleanConditions(r)
    case NullIfSql(l, r) => BooleanConditions(l) && BooleanConditions(r)
    case ArithSql(_, l, r) => BooleanConditions(l) && BooleanConditions(r)
    case NegSql(l) => BooleanConditions(l)
    case CastInteger(l) => BooleanConditions(l)
    case CastFloat(l) => BooleanConditions(l)
    case CharLength(l) => BooleanConditions(l)
    case Substr(l, _, _) => BooleanConditions(l)
    case Replace(l, _) => BooleanConditions(l)
  }

  predicate BooleanAll(ts: Sqls)
    decreases ts
  {
    ts.NoSql? || (BooleanConditions(ts.head) && BooleanAll(ts.tail))
  }

  predicate BooleanTests(ts: Sqls)
    decreases ts
  {
    ts.NoSql? || (IsBoolean(ts.head) && BooleanConditions(ts.head) && BooleanTests(ts.tail))
  }

  predicate BooleanWhens(ws: SqlWhens, searched: bool)
    decreases ws
  {
    match ws
    case EndSql => true
    case ElseSql(value) => BooleanConditions(value)
    case WhenSql(test, value, rest) =>
      && (searched ==> IsBoolean(test))
      && BooleanConditions(test) && BooleanConditions(value) && BooleanWhens(rest, searched)
  }

  /** Every condition position of an accepted item's SQL holds a boolean if
      and only if no IF, CASE, COALESCE or NULLIF stood in one: the generator
      takes such an item for a condition when MariaDB types it boolean, but
      emits the integer its branches are cast to. */
  lemma {:induction false} ConditionsAreBoolean(g: Gen, it: Item)
    requires NodeOf(g, it).Some?
    ensures IsBoolean(NodeOf(g, it).value) <==> IsTest(it)
    ensures BooleanConditions(NodeOf(g, it).value) <==> PlainConditions(it)
    decreases it, 0
  {
    match it
    case Cmp(_, _, _, _) => PairConditions(g, it);
    case NullSafeEq(_, _, _) => PairConditions(g, it);
    case NullIf(_, _, _, _) => PairConditions(g, it);
    case Arith(_, _, _) => PairConditions(g, it);
    case IsNull(a) => ExprConditions(g, a);
    case IsNotNull(a) => ExprConditions(g, a);
    case Neg(a) => ExprConditions(g, a);
    case Between(a, lo, hi, _, _) => ExprConditions(g, a); ExprConditions(g, lo); ExprConditions(g, hi);
    case Not(_) => LogicConditions(g, it);
    case And(_) => LogicConditions(g, it);
    case Or(_) => LogicConditions(g, it);
    case In(_, _, _, _) => ListConditions(g, it);
    case Concat(_, _) => ListConditions(g, it);
    case Coalesce(_, _) => ListConditions(g, it);
    case Case(_, _) => CaseConditions(g, it);
    case CaseOf(_, _, _, _) => CaseConditions(g, it);
    case If(_, _, _, _) => CaseConditions(g, it);
    case _ =>
  }

  lemma {:induction false} PairConditions(g: Gen, it: Item)
    requires IsPair(it) && NodeOf(g, it).Some?
    ensures IsBoolean(NodeOf(g, it).value) <==> IsTest(it)
    ensures BooleanConditions(NodeOf(g, it).value) <==> PlainConditions(it)
    decreases it, 0, 0
  {
    ExprConditions(g, it.a);
    ExprConditions(g, it.b);
    match it
    case Cmp(_, _, _, _) =>
    case NullSafeEq(_, _, _) =>
    case NullIf(_, _, _, _) =>
    case Arith(_, _, _) =>
  }

  lemma {:induction false} LogicConditions(g: Gen, it: Item)
    requires (it.Not? || it.And? || it.Or?) && NodeOf(g, it).Some?
    ensures IsBoolean(NodeOf(g, it).value) <==> IsTest(it)
    ensures BooleanConditions(NodeOf(g, it).value) <==> PlainConditions(it)
    decreases it, 0, 0
  {
    match it
    case Not(a) => TestConditions(g, a);
    case And(args) => TestsConditions(g, args);
    case Or(args) => TestsConditions(g, args);
  }

  lemma {:induction false} ListConditions(g: Gen, it: Item)
    requires (it.In? || it.Concat? || it.Coalesce?) && NodeOf(g, it).Some?
    ensures IsBoolean(NodeOf(g, it).value) <==> IsTest(it)
    ensures BooleanConditions(NodeOf(g, it).value) <==> PlainConditions(it)
    decreases it, 0, 0
  {
    match it
    case In(a, args, _, _) => ExprConditions(g, a); ExprsConditions(g, args);
    case Concat(args, _) => ExprsConditions(g, args);
    case Coalesce(args, _) => BranchesConditions(g, args, Typed(g.schema, it).cls);
  }

  lemma {:induction false} CaseConditions(g: Gen, it: Item)
    requires (it.Case? || it.CaseOf? || it.If?) && NodeOf(g, it).Some?
    ensures IsBoolean(NodeOf(g, it).value) <==> IsTest(it)
    ensures BooleanConditions(NodeOf(g, it).value) <==> PlainConditions(it)
    decreases it, 0, 0
  {
    var cls := Typed(g.schema, it).cls;
    match it
    case Case(whens, _) => WhensConditions(g, whens, cls, true);
    case CaseOf(a, whens, _, _) => ExprConditions(g, a); WhensConditions(g, whens, cls, false);
    case If(cond, a, b, _) =>
      TestConditions(g, cond);
      BranchConditions(g, a, cls);
      BranchConditions(g, b, cls);
      TwoWayConditions(ConditionOf(g, cond).value, BranchOf(g, a, cls).value, BranchOf(g, b, cls).value);
  }

  lemma {:induction false} TwoWayConditions(c: Sql, x: Sql, y: Sql)
    ensures BooleanConditions(CaseSql(WhenSql(c, x, ElseSql(y)))) <==>
            IsBoolean(c) && BooleanConditions(c) && BooleanConditions(x) && BooleanConditions(y)
  {
    assert BooleanWhens(ElseSql(y), true) <==> BooleanConditions(y);
  }

  lemma {:induction false} ExprConditions(g: Gen, it: Item)
    requires ExprOf(g, it).Some?
    ensures BooleanConditions(ExprOf(g, it).value) <==> PlainConditions(it)
    decreases it, 1
  {
    ConditionsAreBoolean(g, it);
  }

  lemma {:induction false} TestConditions(g: Gen, it: Item)
    requires ConditionOf(g, it).Some?
    ensures IsBoolean(ConditionOf(g, it).value) <==> !IsMixed(it)
    ensures BooleanConditions(ConditionOf(g, it).value) <==> PlainConditions(it)
    decreases it, 1
  {
    ConditionsAreBoolean(g, it);
    BooleanItems(g.schema, it);
  }

  lemma {:induction false} BooleanItems(schema: seq<Column>, it: Item)
    requires Typed(schema, it).boolean
    ensures IsTest(it) <==> !IsMixed(it)
  {
  }

  lemma {:induction false} BranchConditions(g: Gen, it: Item, result: Cls)
    requires BranchOf(g, it, result).Some?
    ensures BooleanConditions(BranchOf(g, it, result).value) <==> PlainConditions(it)
    decreases it, 2
  {
    ExprConditions(g, it);
  }

  lemma {:induction false} ExprsConditions(g: Gen, items: Items)
    requires ExprsOf(g, items).Some?
    ensures BooleanAll(ExprsOf(g, items).value) <==> PlainAll(items)
    decreases items, 0
  {
    if items.Cons? {
      ExprConditions(g, items.head);
      ExprsConditions(g, items.tail);
    }
  }

  lemma {:induction false} TestsConditions(g: Gen, items: Items)
    requires ConditionsOf(g, items).Some?
    ensures BooleanTests(ConditionsOf(g, items).value) <==> PlainTests(items)
    decreases items, 0
  {
    if items.Cons? {
      TestConditions(g, items.head);
      TestsConditions(g, items.tail);
    }
  }

  lemma {:induction false} BranchesConditions(g: Gen, items: Items, result: Cls)
    requires BranchesOf(g, items, result).Some?
    ensures BooleanAll(BranchesOf(g, items, result).value) <==> PlainAll(items)
    decreases items, 0
  {
    if items.Cons? {
      BranchConditions(g, items.head, result);
      BranchesConditions(g, items.tail, result);
    }
  }

  lemma {:induction false} WhensConditions(g: Gen, whens: Whens, result: Cls, searched: bool)
    requires searched ==> WhensOf(g, whens, result).Some?
    requires !searched ==> CasesOf(g, whens, result).Some?
    ensures searched ==> (BooleanWhens(WhensOf(g, whens, result).value, true) <==> PlainWhens(whens, true))
    ensures !searched ==> (BooleanWhens(CasesOf(g, whens, result).value, false) <==> PlainWhens(whens, false))
    decreases whens, 0
  {
    match whens
    case End =>
    case Else(value) => BranchConditions(g, value, result);
    case When(test, value, rest) =>
      if searched {
        TestConditions(g, test);
      } else {
        ExprConditions(g, test);
      }
      BranchConditions(g, value, result);
      WhensConditions(g, rest, result, searched);
  }

  /** A condition Stoolap has a value for that is no boolean. */
  predicate Refuses(srow: seq<SValue>, t: Sql) {
    var s := S(srow, t);
    s.Ok? && TruthS(s.value).Err?
  }

  /** What such a condition does: over any row where MariaDB has a truth value
      for it, Stoolap has an integer and refuses it. */
  lemma {:induction false} MixedConditionFails(w: World, g: Gen, it: Item, mrow: seq<MValue>, srow: seq<SValue>)
    requires SameRow(w, g, mrow, srow)
    requires IsMixed(it) && Clean(g.schema, it) && ConditionOf(g, it).Some?
    requires M(w, mrow, it).Ok? && M(w, mrow, it).value != MNull
    ensures Refuses(srow, ConditionOf(g, it).value)
  {
    NodeMeans(w, g, it, mrow, srow);
    TypedConsistent(g.schema, it);
  }

  /** `WHERE COALESCE(c = 1)` over a row whose c is 1: TRUE to MariaDB, an
      integer and so an error to Stoolap. */
  lemma {:induction false} MixedConditionExample(w: World) returns (it: Item)
    requires w.schema == [Column(BigInt(false), true)] && Forms(w)
    ensures ConditionOf(Gen(w.schema, false, {}), it).Some?
    ensures M(w, [MInt(1)], it) == Ok(MInt(1))
    ensures Refuses([SInt(1)], ConditionOf(Gen(w.schema, false, {}), it).value)
  {
    var g := Gen(w.schema, false, {});
    var test := Cmp(Eq, Field(0), IntConst(1, false), BINARY);
    it := Coalesce(Cons(test, Nil), Settled(BINARY, true));
    ExampleAccepted(g, test);
    ExampleValue(w, test);
    ExampleRow(w, g);
    MixedConditionFails(w, g, it, [MInt(1)], [SInt(1)]);
  }

  lemma {:induction false} ExampleAccepted(g: Gen, test: Item)
    requires g.schema == [Column(BigInt(false), true)] && g.written == {}
    requires test == Cmp(Eq, Field(0), IntConst(1, false), BINARY)
    ensures ConditionOf(g, Coalesce(Cons(test, Nil), Settled(BINARY, true))).Some?
    ensures Clean(g.schema, Coalesce(Cons(test, Nil), Settled(BINARY, true)))
  {
    assert Clean(g.schema, test) && CleanAll(g.schema, Cons(test, Nil));
    ExampleTyped(g.schema, test);
    ExampleTest(g, test);
    assert BranchesOf(g, Nil, INT).Some? && BranchOf(g, test, INT).Some?;
  }

  lemma {:induction false} ExampleRow(w: World, g: Gen)
    requires w.schema == [Column(BigInt(false), true)] && Forms(w) && g == Gen(w.schema, false, {})
    ensures SameRow(w, g, [MInt(1)], [SInt(1)])
  {
  }

  lemma {:induction false} ExampleTyped(schema: seq<Column>, test: Item)
    requires IsTest(test)
    ensures var it := Coalesce(Cons(test, Nil), Settled(BINARY, true));
      && Infos(schema, it.args) == [TRUTH] && Typed(schema, it) == TRUTH
      && Branches(Infos(schema, it.args), Typed(schema, it))
  {
    var infos := Infos(schema, Cons(test, Nil));
    assert Typed(schema, test) == TRUTH && Infos(schema, Nil) == [];
    assert infos == [TRUTH];
    assert infos[1..] == [] && Aggregate(infos[1..]).None?;
  }

  lemma {:induction false} ExampleTest(g: Gen, test: Item)
    requires g.schema == [Column(BigInt(false), true)] && g.written == {}
    requires test == Cmp(Eq, Field(0), IntConst(1, false), BINARY)
    ensures NodeOf(g, test).Some?
  {
    assert ExprOf(g, Field(0)).Some? && ExprOf(g, IntConst(1, false)).Some?;
  }

  lemma {:induction false} ExampleValue(w: World, test: Item)
    requires w.schema == [Column(BigInt(false), true)]
    requires test == Cmp(Eq, Field(0), IntConst(1, false), BINARY)
    ensures M(w, [MInt(1)], Coalesce(Cons(test, Nil), Settled(BINARY, true))) == Ok(MInt(1))
  {
    var infos := Infos(w.schema, Cons(test, Nil));
    assert infos == [TRUTH];
    assert Aggregate(infos[1..]).None?;
    assert M(w, [MInt(1)], test) == Ok(MInt(1));
    assert FirstM(w, [MInt(1)], Cons(test, Nil)) == Ok(MInt(1));
  }

  // ------------------------------------------------------------------ nullability

  /** Whether MariaDB allows for a NULL. */
  predicate MaybeNull(schema: seq<Column>, it: Item)
    decreases it
  {
    match it
    case Field(c) => c >= |schema| || !schema[c].notNull
    case NullConst => true
    case Cmp(_, a, b, _) => MaybeNull(schema, a) || MaybeNull(schema, b)
    case Not(a) => MaybeNull(schema, a)
    case And(args) => AnyMaybeNull(schema, args)
    case Or(args) => AnyMaybeNull(schema, args)
    case Between(a, lo, hi, _, _) => MaybeNull(schema, a) || MaybeNull(schema, lo) || MaybeNull(schema, hi)
    case In(a, args, _, _) => MaybeNull(schema, a) || AnyMaybeNull(schema, args)
    case Case(whens, _) => WhensMaybeNull(schema, whens)
    case CaseOf(_, whens, _, _) => WhensMaybeNull(schema, whens)
    case If(_, a, b, _) => MaybeNull(schema, a) || MaybeNull(schema, b)
    case Coalesce(args, _) => args.Nil? || AnyMaybeNull(schema, args)
    case NullIf(_, _, _, _) => true
    case Arith(op, a, b) => op == Divide || MaybeNull(schema, a) || MaybeNull(schema, b)
    case Neg(a) => MaybeNull(schema, a)
    case Concat(args, _) => AnyMaybeNull(schema, args)
    case _ => false
  }

  predicate AnyMaybeNull(schema: seq<Column>, items: Items)
    decreases items
  {
    items.Cons? && (MaybeNull(schema, items.head) || AnyMaybeNull(schema, items.tail))
  }

  predicate WhensMaybeNull(schema: seq<Column>, whens: Whens)
    decreases whens
  {
    match whens
    case End => true
    case Else(value) => MaybeNull(schema, value)
    case When(_, value, rest) => MaybeNull(schema, value) || WhensMaybeNull(schema, rest)
  }

  ghost predicate KeepsNotNull(schema: seq<Column>, row: seq<MValue>) {
    forall c: nat :: c < |schema| && schema[c].notNull ==> ColumnM(row, c) != MNull
  }

  /** A condition that may not be NULL is not: the UPDATE then adds no
      `IS NOT NULL`. */
  lemma {:induction false} NotNullMeans(w: World, row: seq<MValue>, it: Item)
    requires KeepsNotNull(w.schema, row) && !MaybeNull(w.schema, it)
    ensures M(w, row, it).Ok? ==> M(w, row, it).value != MNull
    decreases it
  {
    match it
    case Cmp(_, a, b, _) => NotNullMeans(w, row, a); NotNullMeans(w, row, b);
    case Not(a) => NotNullMeans(w, row, a);
    case And(args) => AllNotNull(w, row, args);
    case Or(args) => AnyNotNull(w, row, args);
    case Between(a, lo, hi, _, _) => NotNullMeans(w, row, a); NotNullMeans(w, row, lo); NotNullMeans(w, row, hi);
    case In(_, _, _, _) => ListNotNull(w, row, it);
    case Case(_, _) => ListNotNull(w, row, it);
    case CaseOf(_, _, _, _) => ListNotNull(w, row, it);
    case If(_, a, b, _) => NotNullMeans(w, row, a); NotNullMeans(w, row, b);
    case Coalesce(_, _) => ListNotNull(w, row, it);
    case Arith(_, a, b) => NotNullMeans(w, row, a); NotNullMeans(w, row, b);
    case Neg(a) => NotNullMeans(w, row, a);
    case Concat(args, _) => JoinedNotNull(w, row, args);
    case _ =>
  }

  lemma {:induction false} ListNotNull(w: World, row: seq<MValue>, it: Item)
    requires it.In? || it.Case? || it.CaseOf? || it.Coalesce?
    requires KeepsNotNull(w.schema, row) && !MaybeNull(w.schema, it)
    ensures M(w, row, it).Ok? ==> M(w, row, it).value != MNull
    decreases it, 0
  {
    match it
    case In(a, args, _, cmp) =>
      NotNullMeans(w, row, a);
      if M(w, row, a).Ok? {
        AmongNotNull(w, row, M(w, row, a).value, args, cmp);
      }
    case Case(whens, _) => ChosenNotNull(w, row, whens);
    case CaseOf(a, whens, cmp, _) =>
      if M(w, row, a).Ok? {
        MatchedNotNull(w, row, M(w, row, a).value, whens, cmp);
      }
    case Coalesce(args, _) => NotNullMeans(w, row, args.head);
  }

  lemma {:induction false} AllNotNull(w: World, row: seq<MValue>, args: Items)
    requires KeepsNotNull(w.schema, row) && !AnyMaybeNull(w.schema, args)
    ensures AllM(w, row, args, false).Ok? ==> AllM(w, row, args, false).value != Unknown
    decreases args
  {
    if args.Cons? {
      NotNullMeans(w, row, args.head);
      AllNotNull(w, row, args.tail);
    }
  }

  lemma {:induction false} AnyNotNull(w: World, row: seq<MValue>, args: Items)
    requires KeepsNotNull(w.schema, row) && !AnyMaybeNull(w.schema, args)
    ensures AnyM(w, row, args, false).Ok? ==> AnyM(w, row, args, false).value != Unknown
    decreases args
  {
    if args.Cons? {
      NotNullMeans(w, row, args.head);
      AnyNotNull(w, row, args.tail);
    }
  }

  lemma {:induction false} AmongNotNull(w: World, row: seq<MValue>, x: MValue, args: Items, cmp: Collation)
    requires KeepsNotNull(w.schema, row) && !AnyMaybeNull(w.schema, args) && x != MNull
    ensures AmongM(w, row, x, args, cmp, false).Ok? ==> AmongM(w, row, x, args, cmp, false).value != Unknown
    decreases args
  {
    if args.Cons? {
      NotNullMeans(w, row, args.head);
      AmongNotNull(w, row, x, args.tail, cmp);
    }
  }

  lemma {:induction false} ChosenNotNull(w: World, row: seq<MValue>, whens: Whens)
    requires KeepsNotNull(w.schema, row) && !WhensMaybeNull(w.schema, whens)
    ensures ChosenM(w, row, whens).Ok? ==> ChosenM(w, row, whens).value != MNull
    decreases whens
  {
    NotNullMeans(w, row, whens.value);
    if whens.When? {
      ChosenNotNull(w, row, whens.rest);
    }
  }

  lemma {:induction false} MatchedNotNull(w: World, row: seq<MValue>, x: MValue, whens: Whens, cmp: Collation)
    requires KeepsNotNull(w.schema, row) && !WhensMaybeNull(w.schema, whens)
    ensures MatchedM(w, row, x, whens, cmp).Ok? ==> MatchedM(w, row, x, whens, cmp).value != MNull
    decreases whens
  {
    NotNullMeans(w, row, whens.value);
    if whens.When? {
      MatchedNotNull(w, row, x, whens.rest, cmp);
    }
  }

  lemma {:induction false} JoinedNotNull(w: World, row: seq<MValue>, args: Items)
    requires KeepsNotNull(w.schema, row) && !AnyMaybeNull(w.schema, args)
    ensures JoinedM(w, row, args).Ok? ==> JoinedM(w, row, args).value != MNull
    decreases args
  {
    if args.Cons? {
      NotNullMeans(w, row, args.head);
      JoinedNotNull(w, row, args.tail);
    }
  }
}
