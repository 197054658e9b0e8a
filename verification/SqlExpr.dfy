/** The expression half of the SQL generator (`stoolap_sqlgen.cc`): MariaDB's
    typed items, the SQL it emits for them as a tree, what each engine makes
    of its own side, and why the two agree. */
module SqlExpr {
  import opened Values

  const INT64_MIN := -0x8000_0000_0000_0000
  const INT64_MAX := 0x7fff_ffff_ffff_ffff

  /** Stoolap's message for the overflow an UPDATE's guard evaluates, and for
      any other. */
  const GUARD_OVERFLOW := "9223372036854775807 and 4242"
  const INTEGER_OVERFLOW := "integer overflow"

  // ------------------------------------------------------------------- types

  /** `binary` and not `padded`: equal strings are equal bytes. */
  datatype Collation = Collation(utf8: bool, binary: bool, padded: bool)

  /** Int holds at most 32 bits, BigInt 64. Listed is an ENUM or SET, whose text
      Stoolap stores as a number. Opaque is everything else it stores in a form of
      its own (DECIMAL, BIT, ...). */
  datatype ColumnType =
    | Int(unsigned: bool)
    | BigInt(unsigned: bool)
    | Double
    | Char(collation: Collation)
    | Listed(collation: Collation)
    | Opaque

  datatype Column = Column(kind: ColumnType, notNull: bool)

  datatype CmpOp = Eq | Ne | Lt | Le | Gt | Ge
  datatype ArithOp = Plus | Minus | Times | Divide

  /** What MariaDB settled while preparing a mixed result: its collation, and
      whether it typed the function boolean (it may when every branch is). */
  datatype Settled = Settled(collation: Collation, boolean: bool)

  datatype Item =
    | Field(column: nat)
    | IntConst(i: int, unsigned: bool)
    | RealConst(r: real)
    | DecConst(r: real, digits: nat)
    | StrConst(s: string, collation: Collation)
    | NullConst
    | Cmp(op: CmpOp, a: Item, b: Item, cmpCollation: Collation)
    | NullSafeEq(a: Item, b: Item, cmpCollation: Collation)
    | IsNull(a: Item)
    | IsNotNull(a: Item)
    | Not(a: Item)
    | And(args: Items)
    | Or(args: Items)
    | Between(a: Item, lo: Item, hi: Item, negated: bool, cmpCollation: Collation)
    | In(a: Item, args: Items, negated: bool, cmpCollation: Collation)
    | Case(whens: Whens, settled: Settled)
    | CaseOf(a: Item, whens: Whens, cmpCollation: Collation, settled: Settled)
    | If(cond: Item, a: Item, b: Item, settled: Settled)
    | Coalesce(args: Items, settled: Settled)
    | NullIf(a: Item, b: Item, byFirst: bool, boolean: bool)
    | Arith(arith: ArithOp, a: Item, b: Item)
    | Neg(a: Item)
    | Concat(args: Items, collation: Collation)

  datatype Items = Nil | Cons(head: Item, tail: Items)

  datatype Whens = End | Else(value: Item) | When(test: Item, value: Item, rest: Whens)

  /** MariaDB's result types, and the generator's classes. */
  datatype Ty = IntTy(unsigned: bool) | RealTy | DecTy | StrTy | OtherTy
  datatype Cls = INT | REAL | STR | UNSAFE

  datatype Info = Info(isNull: bool, ty: Ty, cls: Cls, boolean: bool, collation: Collation)

  const BINARY := Collation(false, true, false)

  function ClassOf(ty: Ty, collation: Collation): Cls {
    match ty
    case IntTy(unsigned) => if unsigned then UNSAFE else INT
    case RealTy => REAL
    case DecTy => UNSAFE
    case StrTy => if collation.utf8 then STR else UNSAFE
    case OtherTy => UNSAFE
  }

  /** A column's class is its own; its MariaDB type decides what a function
      over it yields. */
  function ColumnInfo(kind: ColumnType): Info {
    match kind
    case Int(unsigned) => Info(false, IntTy(unsigned), INT, false, BINARY)
    case BigInt(unsigned) => Info(false, IntTy(unsigned), if unsigned then UNSAFE else INT, false, BINARY)
    case Double => Info(false, RealTy, REAL, false, BINARY)
    case Char(collation) => Info(false, StrTy, if collation.utf8 then STR else UNSAFE, false, collation)
    case Listed(collation) => Info(false, StrTy, UNSAFE, false, collation)
    case Opaque => Info(false, OtherTy, UNSAFE, false, BINARY)
  }

  const TRUTH := Info(false, IntTy(false), INT, true, BINARY)

  function Computed(ty: Ty, boolean: bool, collation: Collation): Info {
    Info(false, ty, ClassOf(ty, collation), boolean, collation)
  }

  function Merge(t: Ty, u: Ty): Ty {
    if t.StrTy? || u.StrTy? then StrTy
    else if t.OtherTy? || u.OtherTy? then OtherTy
    else if t.RealTy? || u.RealTy? then RealTy
    else if t.DecTy? || u.DecTy? then DecTy
    else IntTy(t.unsigned && u.unsigned)
  }

  /** The type of a mixed result: its branches' without the NULL literals. */
  function Aggregate(infos: seq<Info>): Option<Ty> {
    if infos == [] then None
    else
      var rest := Aggregate(infos[1..]);
      if infos[0].isNull then rest
      else if rest.None? then Some(infos[0].ty)
      else Some(Merge(infos[0].ty, rest.value))
  }

  predicate AllBoolean(infos: seq<Info>) {
    forall i :: 0 <= i < |infos| ==> infos[i].isNull || infos[i].boolean
  }

  function Mixed(infos: seq<Info>, settled: Settled): Info {
    var ty := Aggregate(infos);
    if ty.None? then Computed(OtherTy, false, settled.collation)
    else Computed(ty.value, settled.boolean && AllBoolean(infos), settled.collation)
  }

  function ArithTy(op: ArithOp, t: Ty, u: Ty): Ty {
    if t.OtherTy? || u.OtherTy? then OtherTy
    else if t.RealTy? || u.RealTy? || t.StrTy? || u.StrTy? then RealTy
    else if t.DecTy? || u.DecTy? || op == Divide then DecTy
    else IntTy(t.unsigned || u.unsigned)
  }

  function NegTy(t: Ty): Ty {
    match t
    case IntTy(_) => IntTy(false)
    case StrTy => RealTy
    case _ => t
  }

  function Typed(schema: seq<Column>, it: Item): Info
    decreases it
  {
    match it
    case Field(c) => ColumnInfo(if c < |schema| then schema[c].kind else Opaque)
    case IntConst(_, unsigned) => Computed(IntTy(unsigned), false, BINARY)
    case RealConst(_) => Computed(RealTy, false, BINARY)
    case DecConst(_, _) => Info(false, DecTy, REAL, false, BINARY)
    case StrConst(_, collation) => Computed(StrTy, false, collation)
    case NullConst => Info(true, StrTy, UNSAFE, false, BINARY)
    case Case(whens, settled) => Mixed(WhenInfos(schema, whens), settled)
    case CaseOf(_, whens, _, settled) => Mixed(WhenInfos(schema, whens), settled)
    case If(_, a, b, settled) => Mixed([Typed(schema, a), Typed(schema, b)], settled)
    case Coalesce(args, settled) => Mixed(Infos(schema, args), settled)
    case NullIf(a, _, _, boolean) =>
      var i := Typed(schema, a);
      Computed(i.ty, boolean && i.boolean, i.collation)
    case Arith(op, a, b) => Computed(ArithTy(op, Typed(schema, a).ty, Typed(schema, b).ty), false, BINARY)
    case Neg(a) => Computed(NegTy(Typed(schema, a).ty), false, BINARY)
    case Concat(_, collation) => Computed(StrTy, false, collation)
    case _ => TRUTH
  }

  function Infos(schema: seq<Column>, items: Items): seq<Info>
    decreases items
  {
    match items
    case Nil => []
    case Cons(head, tail) => [Typed(schema, head)] + Infos(schema, tail)
  }

  /** The branches of a CASE: its THEN values and its ELSE. */
  function WhenInfos(schema: seq<Column>, whens: Whens): seq<Info>
    decreases whens
  {
    match whens
    case End => []
    case Else(value) => [Typed(schema, value)]
    case When(_, value, rest) => [Typed(schema, value)] + WhenInfos(schema, rest)
  }

  // ------------------------------------------------------------- what it emits

  datatype SValue = SNull | SBool(b: bool) | SInt(i: int) | SFloat(r: real) | SText(s: string)

  /** The SQL, as a tree. The last four are what an UPDATE adds around its
      values. */
  datatype Sql =
    | ColumnRef(column: nat)
    | Literal(v: SValue)
    | Compare(op: CmpOp, l: Sql, r: Sql)
    | NotDistinct(l: Sql, r: Sql)
    | Distinct(l: Sql, r: Sql)
    | NullTest(l: Sql, isNull: bool)
    | NotSql(l: Sql)
    | AndSql(args: Sqls)
    | OrSql(args: Sqls)
    | BetweenSql(l: Sql, lo: Sql, hi: Sql, negated: bool)
    | InSql(l: Sql, args: Sqls, negated: bool)
    | CaseSql(whens: SqlWhens)
    | CaseOfSql(l: Sql, whens: SqlWhens)
    | CoalesceSql(args: Sqls)
    | NullIfSql(l: Sql, r: Sql)
    | ArithSql(arith: ArithOp, l: Sql, r: Sql)
    | NegSql(l: Sql)
    | ConcatSql(args: Sqls)
    | CastInteger(l: Sql)
    | CastFloat(l: Sql)
    | CharLength(l: Sql)
    | Substr(l: Sql, from: nat, length: Option<nat>)
    | Replace(l: Sql, c: char)
    | Overflow

  datatype Sqls = NoSql | ConsSql(head: Sql, tail: Sqls)

  datatype SqlWhens = EndSql | ElseSql(value: Sql) | WhenSql(test: Sql, value: Sql, rest: SqlWhens)

  /** The generator's own state: the session's byte semantics for strings and
      the columns the UPDATE's SET has assigned so far. */
  datatype Gen = Gen(schema: seq<Column>, trust: bool, written: set<nat>)

  predicate Numeric(c: Cls) {
    c == INT || c == REAL
  }

  predicate CsSafe(g: Gen, c: Collation) {
    c.utf8 && (g.trust || (c.binary && !c.padded))
  }

  predicate Comparable(g: Gen, x: Info, y: Info, cmp: Option<Collation>) {
    || x.isNull
    || y.isNull
    || (Numeric(x.cls) && Numeric(y.cls))
    || (x.cls == STR && y.cls == STR &&
        if cmp.Some? then CsSafe(g, cmp.value) else CsSafe(g, x.collation) && CsSafe(g, y.collation))
  }

  predicate AllComparable(g: Gen, x: Info, infos: seq<Info>, cmp: Collation) {
    forall i :: 0 <= i < |infos| ==> Comparable(g, x, infos[i], Some(cmp))
  }

  predicate SameFamily(infos: seq<Info>) {
    && (forall i :: 0 <= i < |infos| ==> infos[i].isNull || Numeric(infos[i].cls) || infos[i].cls == STR)
    && (forall i, j :: 0 <= i < |infos| && 0 <= j < |infos| && !infos[i].isNull && !infos[j].isNull ==>
          Numeric(infos[i].cls) == Numeric(infos[j].cls))
  }

  predicate Branches(infos: seq<Info>, result: Info) {
    SameFamily(infos) && result.cls != UNSAFE
  }

  function LiteralOf(it: Item): Option<Sql> {
    match it
    case IntConst(i, _) => if i > INT64_MAX then None else Some(Literal(SInt(i)))
    case RealConst(r) => Some(Literal(SFloat(r)))
    case DecConst(r, digits) => if digits > 15 then None else Some(Literal(SFloat(r)))
    case StrConst(s, _) => if '\\' in s || '\0' in s then None else Some(Literal(SText(s)))
    case _ => Some(Literal(SNull))
  }

  predicate IsPair(it: Item) {
    it.Cmp? || it.NullSafeEq? || it.NullIf? || it.Arith?
  }

  predicate IsPairSql(t: Sql) {
    t.Compare? || t.NotDistinct? || t.Distinct? || t.NullIfSql? || t.ArithSql?
  }

  predicate PairAccepted(g: Gen, it: Item)
    requires IsPair(it)
  {
    var i, j := Typed(g.schema, it.a), Typed(g.schema, it.b);
    match it
    case NullIf(_, _, _, _) => Comparable(g, i, j, None)
    case Arith(op, _, _) =>
      var result := Typed(g.schema, it).cls;
      Numeric(i.cls) && Numeric(j.cls) && Numeric(result) && (op == Divide ==> result == REAL)
    case _ => Comparable(g, i, j, Some(it.cmpCollation))
  }

  function PairSql(it: Item, l: Sql, r: Sql): (t: Sql)
    requires IsPair(it)
    ensures IsPairSql(t) && t.l == l && t.r == r
  {
    match it
    case Cmp(op, _, _, _) => Compare(op, l, r)
    case NullSafeEq(_, _, _) => NotDistinct(l, r)
    case NullIf(_, _, _, _) => NullIfSql(l, r)
    case Arith(op, _, _) => ArithSql(op, l, r)
  }

  function UnarySql(it: Item, l: Sql): Sql
    requires it.IsNull? || it.IsNotNull? || it.Neg?
  {
    if it.Neg? then NegSql(l) else NullTest(l, it.IsNull?)
  }

  predicate RangeAccepted(g: Gen, it: Item)
    requires it.Between?
  {
    var i := Typed(g.schema, it.a);
    && Comparable(g, i, Typed(g.schema, it.lo), Some(it.cmpCollation))
    && Comparable(g, i, Typed(g.schema, it.hi), Some(it.cmpCollation))
  }

  /** A column whose values are stored in a form of their own. */
  predicate OwnForm(kind: ColumnType) {
    ColumnInfo(kind).cls == UNSAFE
  }

  /** The column whose stored form the item's SQL yields, if it passes one on. */
  function Origin(schema: seq<Column>, it: Item): (c: Option<nat>)
    ensures c.Some? ==> c.value < |schema| && OwnForm(schema[c.value].kind)
    decreases it
  {
    match it
    case Field(c) => if c < |schema| && OwnForm(schema[c].kind) then Some(c) else None
    case NullIf(a, _, _, _) => Origin(schema, a)
    case _ => None
  }

  function NodeOf(g: Gen, it: Item): Option<Sql>
    decreases it, 0
  {
    match it
    case Field(c) => if c < |g.schema| && c !in g.written then Some(ColumnRef(c)) else None
    case Cmp(_, a, b, _) => Pair(g, it, ExprOf(g, a), ExprOf(g, b))
    case NullSafeEq(a, b, _) => Pair(g, it, ExprOf(g, a), ExprOf(g, b))
    case NullIf(a, b, _, _) => Pair(g, it, ExprOf(g, a), ExprOf(g, b))
    case Arith(_, a, b) => Pair(g, it, ExprOf(g, a), ExprOf(g, b))
    case IsNull(a) => Unary(g, it, ExprOf(g, a))
    case IsNotNull(a) => Unary(g, it, ExprOf(g, a))
    case Neg(a) => Unary(g, it, ExprOf(g, a))
    case Not(a) =>
      var l :- ConditionOf(g, a);
      Some(NotSql(l))
    case And(args) =>
      var ts :- ConditionsOf(g, args);
      if args.Nil? then None else Some(AndSql(ts))
    case Or(args) =>
      var ts :- ConditionsOf(g, args);
      if args.Nil? then None else Some(OrSql(ts))
    case Between(a, lo, hi, _, _) => Range(g, it, ExprOf(g, a), ExprOf(g, lo), ExprOf(g, hi))
    case In(a, args, _, _) => Among(g, it, ExprOf(g, a), ExprsOf(g, args))
    case Case(whens, _) =>
      var result := Typed(g.schema, it);
      var ws :- WhensOf(g, whens, result.cls);
      if Branches(WhenInfos(g.schema, whens), result) then Some(CaseSql(ws)) else None
    case CaseOf(a, whens, _, _) =>
      CaseValue(g, it, ExprOf(g, a), CasesOf(g, whens, Typed(g.schema, it).cls))
    case If(cond, a, b, _) =>
      var result := Typed(g.schema, it);
      TwoBranches(g, it, ConditionOf(g, cond), BranchOf(g, a, result.cls), BranchOf(g, b, result.cls))
    case Coalesce(args, _) =>
      var result := Typed(g.schema, it);
      var ts :- BranchesOf(g, args, result.cls);
      if args.Nil? || !Branches(Infos(g.schema, args), result) then None else Some(CoalesceSql(ts))
    case Concat(args, _) =>
      var ts :- ExprsOf(g, args);
      if AllStrings(Infos(g.schema, args)) then Some(ConcatSql(ts)) else None
    case _ => LiteralOf(it)
  }

  function Pair(g: Gen, it: Item, l: Option<Sql>, r: Option<Sql>): Option<Sql>
    requires IsPair(it)
  {
    if l.Some? && r.Some? && PairAccepted(g, it) then Some(PairSql(it, l.value, r.value)) else None
  }

  function Unary(g: Gen, it: Item, l: Option<Sql>): Option<Sql>
    requires it.IsNull? || it.IsNotNull? || it.Neg?
  {
    if l.Some? && (it.Neg? ==> Numeric(Typed(g.schema, it.a).cls) && Typed(g.schema, it).cls != UNSAFE)
    then Some(UnarySql(it, l.value)) else None
  }

  function Range(g: Gen, it: Item, x: Option<Sql>, lo: Option<Sql>, hi: Option<Sql>): Option<Sql>
    requires it.Between?
  {
    if x.Some? && lo.Some? && hi.Some? && RangeAccepted(g, it)
    then Some(BetweenSql(x.value, lo.value, hi.value, it.negated)) else None
  }

  function Among(g: Gen, it: Item, x: Option<Sql>, ts: Option<Sqls>): Option<Sql>
    requires it.In?
  {
    if x.Some? && ts.Some? && !it.args.Nil? &&
       AllComparable(g, Typed(g.schema, it.a), Infos(g.schema, it.args), it.cmpCollation)
    then Some(InSql(x.value, ts.value, it.negated)) else None
  }

  function CaseValue(g: Gen, it: Item, x: Option<Sql>, ws: Option<SqlWhens>): Option<Sql>
    requires it.CaseOf?
  {
    if x.Some? && ws.Some? &&
       AllComparable(g, Typed(g.schema, it.a), TestInfos(g.schema, it.whens), it.cmpCollation) &&
       Branches(WhenInfos(g.schema, it.whens), Typed(g.schema, it))
    then Some(CaseOfSql(x.value, ws.value)) else None
  }

  /** IF is a CASE with one WHEN. */
  function TwoBranches(g: Gen, it: Item, c: Option<Sql>, x: Option<Sql>, y: Option<Sql>): Option<Sql>
    requires it.If?
  {
    if c.Some? && x.Some? && y.Some? &&
       Branches([Typed(g.schema, it.a), Typed(g.schema, it.b)], Typed(g.schema, it))
    then Some(CaseSql(WhenSql(c.value, x.value, ElseSql(y.value)))) else None
  }

  predicate AllStrings(infos: seq<Info>) {
    forall i :: 0 <= i < |infos| ==> infos[i].cls == STR
  }

  function TestInfos(schema: seq<Column>, whens: Whens): seq<Info>
    decreases whens
  {
    match whens
    case When(test, _, rest) => [Typed(schema, test)] + TestInfos(schema, rest)
    case _ => []
  }

  /** A value: MariaDB reads a condition there as a number, so it is cast. */
  function ExprOf(g: Gen, it: Item): Option<Sql>
    decreases it, 1
  {
    var t :- NodeOf(g, it);
    Some(if Typed(g.schema, it).boolean then CastInteger(t) else t)
  }

  function ConditionOf(g: Gen, it: Item): Option<Sql>
    decreases it, 1
  {
    if Typed(g.schema, it).boolean then NodeOf(g, it) else None
  }

  /** A select list's item: of a binary or non-UTF-8 result the reader decodes a
      column alone. */
  function SelectedOf(g: Gen, it: Item): Option<Sql> {
    var i := Typed(g.schema, it);
    if i.ty.StrTy? && !i.collation.utf8 && !it.Field? then None else ExprOf(g, it)
  }

  /** A branch of a mixed result: where that is a DOUBLE, integers are cast. */
  function BranchOf(g: Gen, it: Item, result: Cls): Option<Sql>
    decreases it, 2
  {
    var t :- ExprOf(g, it);
    Some(if result == REAL && Typed(g.schema, it).cls == INT then CastFloat(t) else t)
  }

  function ExprsOf(g: Gen, items: Items): Option<Sqls>
    decreases items, 0
  {
    match items
    case Nil => Some(NoSql)
    case Cons(head, tail) =>
      var t :- ExprOf(g, head);
      var ts :- ExprsOf(g, tail);
      Some(ConsSql(t, ts))
  }

  function ConditionsOf(g: Gen, items: Items): Option<Sqls>
    decreases items, 0
  {
    match items
    case Nil => Some(NoSql)
    case Cons(head, tail) =>
      var t :- ConditionOf(g, head);
      var ts :- ConditionsOf(g, tail);
      Some(ConsSql(t, ts))
  }

  function BranchesOf(g: Gen, items: Items, result: Cls): Option<Sqls>
    decreases items, 0
  {
    match items
    case Nil => Some(NoSql)
    case Cons(head, tail) =>
      var t :- BranchOf(g, head, result);
      var ts :- BranchesOf(g, tail, result);
      Some(ConsSql(t, ts))
  }

  /** WHEN condition THEN branch. */
  function WhensOf(g: Gen, whens: Whens, result: Cls): Option<SqlWhens>
    decreases whens, 0
  {
    match whens
    case End => Some(EndSql)
    case Else(value) =>
      var v :- BranchOf(g, value, result);
      Some(ElseSql(v))
    case When(test, value, rest) =>
      var c :- ConditionOf(g, test);
      var v :- BranchOf(g, value, result);
      var ws :- WhensOf(g, rest, result);
      Some(WhenSql(c, v, ws))
  }

  /** WHEN value THEN branch. */
  function CasesOf(g: Gen, whens: Whens, result: Cls): Option<SqlWhens>
    decreases whens, 0
  {
    match whens
    case End => Some(EndSql)
    case Else(value) =>
      var v :- BranchOf(g, value, result);
      Some(ElseSql(v))
    case When(test, value, rest) =>
      var c :- ExprOf(g, test);
      var v :- BranchOf(g, value, result);
      var ws :- CasesOf(g, rest, result);
      Some(WhenSql(c, v, ws))
  }

  // ----------------------------------------------------- shared comparison rules

  predicate Satisfies(op: CmpOp, o: Order) {
    match op
    case Eq => o == Same
    case Ne => o != Same
    case Lt => o == Before
    case Le => o != After
    case Gt => o == After
    case Ge => o != Before
  }

  function CompareText(s: string, t: string): Order {
    if s == [] then if t == [] then Same else Before
    else if t == [] then After
    else if s[0] < t[0] then Before
    else if s[0] > t[0] then After
    else CompareText(s[1..], t[1..])
  }

  function CompareReals(x: real, y: real): Order {
    if x < y then Before else if x == y then Same else After
  }

  function OfBool(b: bool): Tri {
    if b then Yes else No
  }

  function Negate(negated: bool, t: Tri): Tri {
    if !negated then t
    else match t
         case Yes => No
         case No => Yes
         case Unknown => Unknown
  }

  function Both(t: Tri, u: Tri): Tri {
    if t == No || u == No then No else if t == Unknown || u == Unknown then Unknown else Yes
  }

  function InRange(x: int): Result<int> {
    if INT64_MIN <= x <= INT64_MAX then Ok(x) else Err(INTEGER_OVERFLOW)
  }

  function IntOp(op: ArithOp, x: int, y: int): Result<int> {
    match op
    case Plus => InRange(x + y)
    case Minus => InRange(x - y)
    case Times => InRange(x * y)
    case Divide =>
      if y == 0 then Ok(0)
      else
        var size := (if x < 0 then -x else x) / (if y < 0 then -y else y);
        InRange(if (x < 0) == (y < 0) then size else -size)
  }

  /** None past a division by zero. */
  function RealOp(op: ArithOp, x: real, y: real): Option<real> {
    match op
    case Plus => Some(x + y)
    case Minus => Some(x - y)
    case Times => Some(x * y)
    case Divide => if y == 0.0 then None else Some(x / y)
  }

  // -------------------------------------------------------------------- MariaDB

  datatype MValue = MNull | MInt(i: int) | MReal(r: real) | MStr(s: string) | MOther(id: int)

  /** What is MariaDB's own business: how a collation folds a string, how
      values of unlike types compare, and which of them are true; and the form in
      which the plugin stores a column's values that have one of their own, with
      how it reads it. */
  datatype World = World(schema: seq<Column>,
                         fold: (Collation, string) -> string,
                         unlike: (MValue, MValue) -> Order,
                         truthy: MValue -> bool,
                         form: (nat, MValue) -> SValue,
                         parse: (nat, SValue) -> MValue)

  function ColumnM(row: seq<MValue>, c: nat): MValue {
    if c < |row| then row[c] else MNull
  }

  function SortKey(w: World, c: Collation, s: string): string {
    if c.binary && !c.padded then s else w.fold(c, s)
  }

  predicate IsNumber(v: MValue) {
    v.MInt? || v.MReal?
  }

  function NumberOf(v: MValue): real
    requires IsNumber(v)
  {
    if v.MInt? then v.i as real else v.r
  }

  function CompareM(w: World, c: Collation, x: MValue, y: MValue): Order {
    if x.MInt? && y.MInt? then CompareInts(x.i, y.i)
    else if IsNumber(x) && IsNumber(y) then CompareReals(NumberOf(x), NumberOf(y))
    else if x.MStr? && y.MStr? then CompareText(SortKey(w, c, x.s), SortKey(w, c, y.s))
    else w.unlike(x, y)
  }

  function TestM(w: World, c: Collation, op: CmpOp, x: MValue, y: MValue): Tri {
    if x == MNull || y == MNull then Unknown else OfBool(Satisfies(op, CompareM(w, c, x, y)))
  }

  function MOf(t: Tri): MValue {
    match t
    case Yes => MInt(1)
    case No => MInt(0)
    case Unknown => MNull
  }

  function RangeM(w: World, c: Collation, negated: bool,
                  x: Result<MValue>, lo: Result<MValue>, hi: Result<MValue>): Result<MValue>
  {
    var v :- x;
    var l :- lo;
    var h :- hi;
    Ok(MOf(Negate(negated, Both(TestM(w, c, Ge, v, l), TestM(w, c, Le, v, h)))))
  }

  function TruthM(w: World, v: MValue): Tri {
    match v
    case MNull => Unknown
    case MInt(i) => OfBool(i != 0)
    case MReal(r) => OfBool(r != 0.0)
    case _ => OfBool(w.truthy(v))
  }

  /** A mixed function's value in its own type. */
  function Convert(ty: Ty, v: MValue): MValue {
    if ty.RealTy? && v.MInt? then MReal(v.i as real) else v
  }

  function Converted(w: World, it: Item, v: Result<MValue>): Result<MValue> {
    var x :- v;
    Ok(Convert(Typed(w.schema, it).ty, x))
  }

  function ArithM(op: ArithOp, ty: Ty, x: MValue, y: MValue): Result<MValue> {
    if x == MNull || y == MNull then Ok(MNull)
    else if ty == IntTy(false) && x.MInt? && y.MInt? then
      var z :- IntOp(op, x.i, y.i);
      Ok(MInt(z))
    else if ty == RealTy && IsNumber(x) && IsNumber(y) then
      var z := RealOp(op, NumberOf(x), NumberOf(y));
      Ok(if z.None? then MNull else MReal(z.value))
    else Ok(MOther(0))
  }

  function NullIfM(w: World, c: Collation, x: MValue, y: MValue): MValue {
    if TestM(w, c, Eq, x, y) == Yes then MNull else x
  }

  function PairM(w: World, it: Item, x: Result<MValue>, y: Result<MValue>): Result<MValue>
    requires IsPair(it)
  {
    var u :- x;
    var v :- y;
    match it
    case Cmp(op, _, _, cmp) => Ok(MOf(TestM(w, cmp, op, u, v)))
    case NullSafeEq(_, _, cmp) =>
      Ok(MOf(OfBool(if u == MNull || v == MNull then u == v else CompareM(w, cmp, u, v) == Same)))
    case NullIf(a, b, byFirst, _) =>
      var cmp := if byFirst then Typed(w.schema, a).collation else Typed(w.schema, b).collation;
      Ok(NullIfM(w, cmp, u, v))
    case Arith(op, _, _) => ArithM(op, Typed(w.schema, it).ty, u, v)
  }

  function Tested(t: Result<Tri>, negated: bool): Result<MValue> {
    var tri :- t;
    Ok(MOf(Negate(negated, tri)))
  }

  function UnaryM(w: World, it: Item, x: Result<MValue>): Result<MValue>
    requires it.IsNull? || it.IsNotNull? || it.Not? || it.Neg?
  {
    var v :- x;
    if it.Not? then Ok(MOf(Negate(true, TruthM(w, v))))
    else if !it.Neg? then Ok(MOf(OfBool((v == MNull) == it.IsNull?)))
    else match v
         case MNull => Ok(MNull)
         case MInt(i) =>
           var z :- InRange(-i);
           Ok(MInt(z))
         case MReal(r) => Ok(MReal(-r))
         case _ => Ok(MOther(0))
  }

  /** What MariaDB makes of an item over a row. */
  function M(w: World, row: seq<MValue>, it: Item): Result<MValue>
    decreases it
  {
    match it
    case Field(c) => Ok(ColumnM(row, c))
    case IntConst(i, _) => Ok(MInt(i))
    case RealConst(r) => Ok(MReal(r))
    case DecConst(r, _) => Ok(MReal(r))
    case StrConst(s, _) => Ok(MStr(s))
    case NullConst => Ok(MNull)
    case Cmp(_, a, b, _) => PairM(w, it, M(w, row, a), M(w, row, b))
    case NullSafeEq(a, b, _) => PairM(w, it, M(w, row, a), M(w, row, b))
    case NullIf(a, b, _, _) => PairM(w, it, M(w, row, a), M(w, row, b))
    case Arith(_, a, b) => PairM(w, it, M(w, row, a), M(w, row, b))
    case IsNull(a) => UnaryM(w, it, M(w, row, a))
    case IsNotNull(a) => UnaryM(w, it, M(w, row, a))
    case Neg(a) => UnaryM(w, it, M(w, row, a))
    case Not(a) => UnaryM(w, it, M(w, row, a))
    case And(args) => Tested(AllM(w, row, args, false), false)
    case Or(args) => Tested(AnyM(w, row, args, false), false)
    case Between(a, lo, hi, negated, cmp) =>
      RangeM(w, cmp, negated, M(w, row, a), M(w, row, lo), M(w, row, hi))
    case In(a, args, negated, cmp) =>
      var x :- M(w, row, a);
      Tested(AmongM(w, row, x, args, cmp, false), negated)
    case Case(whens, _) => Converted(w, it, ChosenM(w, row, whens))
    case CaseOf(a, whens, cmp, _) =>
      var x :- M(w, row, a);
      Converted(w, it, MatchedM(w, row, x, whens, cmp))
    case If(cond, a, b, _) =>
      var c :- M(w, row, cond);
      Converted(w, it, if TruthM(w, c) == Yes then M(w, row, a) else M(w, row, b))
    case Coalesce(args, _) => Converted(w, it, FirstM(w, row, args))
    case Concat(args, _) => JoinedM(w, row, args)
  }

  /** AND reads left to right and stops at the first FALSE only. */
  function AllM(w: World, row: seq<MValue>, args: Items, unknown: bool): Result<Tri>
    decreases args
  {
    match args
    case Nil => Ok(if unknown then Unknown else Yes)
    case Cons(head, tail) =>
      var x :- M(w, row, head);
      var t := TruthM(w, x);
      if t == No then Ok(No) else AllM(w, row, tail, unknown || t == Unknown)
  }

  function AnyM(w: World, row: seq<MValue>, args: Items, unknown: bool): Result<Tri>
    decreases args
  {
    match args
    case Nil => Ok(if unknown then Unknown else No)
    case Cons(head, tail) =>
      var x :- M(w, row, head);
      var t := TruthM(w, x);
      if t == Yes then Ok(Yes) else AnyM(w, row, tail, unknown || t == Unknown)
  }

  function AmongM(w: World, row: seq<MValue>, x: MValue, args: Items, cmp: Collation, unknown: bool): Result<Tri>
    decreases args
  {
    match args
    case Nil => Ok(if unknown then Unknown else No)
    case Cons(head, tail) =>
      var y :- M(w, row, head);
      var t := TestM(w, cmp, Eq, x, y);
      if t == Yes then Ok(Yes) else AmongM(w, row, x, tail, cmp, unknown || t == Unknown)
  }

  function ChosenM(w: World, row: seq<MValue>, whens: Whens): Result<MValue>
    decreases whens
  {
    match whens
    case End => Ok(MNull)
    case Else(value) => M(w, row, value)
    case When(test, value, rest) =>
      var c :- M(w, row, test);
      if TruthM(w, c) == Yes then M(w, row, value) else ChosenM(w, row, rest)
  }

  function MatchedM(w: World, row: seq<MValue>, x: MValue, whens: Whens, cmp: Collation): Result<MValue>
    decreases whens
  {
    match whens
    case End => Ok(MNull)
    case Else(value) => M(w, row, value)
    case When(test, value, rest) =>
      var y :- M(w, row, test);
      if TestM(w, cmp, Eq, x, y) == Yes then M(w, row, value) else MatchedM(w, row, x, rest, cmp)
  }

  function FirstM(w: World, row: seq<MValue>, args: Items): Result<MValue>
    decreases args
  {
    match args
    case Nil => Ok(MNull)
    case Cons(head, tail) =>
      var x :- M(w, row, head);
      if x != MNull then Ok(x) else FirstM(w, row, tail)
  }

  /** CONCAT: NULL as soon as one argument is. */
  function JoinedM(w: World, row: seq<MValue>, args: Items): Result<MValue>
    decreases args
  {
    match args
    case Nil => Ok(MStr(""))
    case Cons(head, tail) =>
      var x :- M(w, row, head);
      var rest :- JoinedM(w, row, tail);
      Ok(if x == MNull || rest == MNull then MNull
         else if x.MStr? && rest.MStr? then MStr(x.s + rest.s) else MOther(0))
  }

  // -------------------------------------------------------------------- Stoolap

  function ColumnS(row: seq<SValue>, c: nat): SValue {
    if c < |row| then row[c] else SNull
  }

  predicate IsNumberS(v: SValue) {
    v.SInt? || v.SFloat?
  }

  function NumberS(v: SValue): real
    requires IsNumberS(v)
  {
    if v.SInt? then v.i as real else v.r
  }

  function RankS(v: SValue): int {
    match v
    case SNull => 0
    case SBool(_) => 1
    case SInt(_) => 2
    case SFloat(_) => 2
    case SText(_) => 3
  }

  /** Text by its bytes (code points order the same), and a BOOLEAN is not a
      number. */
  function CompareS(x: SValue, y: SValue): Order {
    if x.SInt? && y.SInt? then CompareInts(x.i, y.i)
    else if IsNumberS(x) && IsNumberS(y) then CompareReals(NumberS(x), NumberS(y))
    else if x.SText? && y.SText? then CompareText(x.s, y.s)
    else if x.SBool? && y.SBool? then CompareInts(if x.b then 1 else 0, if y.b then 1 else 0)
    else CompareInts(RankS(x), RankS(y))
  }

  function TestS(op: CmpOp, x: SValue, y: SValue): Tri {
    if x == SNull || y == SNull then Unknown else OfBool(Satisfies(op, CompareS(x, y)))
  }

  predicate SameS(x: SValue, y: SValue) {
    if x == SNull || y == SNull then x == y else CompareS(x, y) == Same
  }

  function SOf(t: Tri): SValue {
    match t
    case Yes => SBool(true)
    case No => SBool(false)
    case Unknown => SNull
  }

  function RangeS(negated: bool, x: Result<SValue>, lo: Result<SValue>, hi: Result<SValue>): Result<SValue> {
    var v :- x;
    var l :- lo;
    var h :- hi;
    Ok(SOf(Negate(negated, Both(TestS(Ge, v, l), TestS(Le, v, h)))))
  }

  /** Only a boolean is a condition. */
  function TruthS(v: SValue): Result<Tri> {
    match v
    case SNull => Ok(Unknown)
    case SBool(b) => Ok(OfBool(b))
    case _ => Err("condition is not a boolean")
  }

  /** Integers divide as integers, and a value that is no number gives NULL. */
  function ArithS(op: ArithOp, x: SValue, y: SValue): Result<SValue> {
    if x.SInt? && y.SInt? then
      if op == Divide && y.i == 0 then Ok(SNull)
      else
        var z :- IntOp(op, x.i, y.i);
        Ok(SInt(z))
    else if IsNumberS(x) && IsNumberS(y) then
      var z := RealOp(op, NumberS(x), NumberS(y));
      Ok(if z.None? then SNull else SFloat(z.value))
    else Ok(SNull)
  }

  function CastIntegerS(v: SValue): Result<SValue> {
    match v
    case SBool(b) => Ok(SInt(if b then 1 else 0))
    case SFloat(r) =>
      var z :- InRange(if r < 0.0 then -((-r).Floor) else r.Floor);
      Ok(SInt(z))
    case SText(_) => Err("not an integer")
    case _ => Ok(v)
  }

  function CastFloatS(v: SValue): Result<SValue> {
    match v
    case SInt(i) => Ok(SFloat(i as real))
    case SBool(b) => Ok(SFloat(if b then 1.0 else 0.0))
    case SText(_) => Err("not a float")
    case _ => Ok(v)
  }

  function Without(s: string, c: char): string {
    if s == [] then []
    else if s[0] == c then Without(s[1..], c)
    else [s[0]] + Without(s[1..], c)
  }

  function Cut(s: string, from: nat, length: Option<nat>): string {
    var rest := if from < |s| then s[from..] else [];
    if length.Some? && length.value < |rest| then rest[..length.value] else rest
  }

  function Truth(t: Result<Tri>, negated: bool): Result<SValue> {
    var tri :- t;
    Ok(SOf(Negate(negated, tri)))
  }

  predicate IsUnarySql(t: Sql) {
    t.NullTest? || t.NotSql? || t.NegSql? || t.CastInteger? || t.CastFloat? || t.CharLength? || t.Substr? || t.Replace?
  }

  function NullIfS(x: SValue, y: SValue): SValue {
    if TestS(Eq, x, y) == Yes then SNull else x
  }

  function PairS(t: Sql, x: Result<SValue>, y: Result<SValue>): Result<SValue>
    requires IsPairSql(t)
  {
    var u :- x;
    var v :- y;
    match t
    case Compare(op, _, _) => Ok(SOf(TestS(op, u, v)))
    case NotDistinct(_, _) => Ok(SBool(SameS(u, v)))
    case Distinct(_, _) => Ok(SBool(!SameS(u, v)))
    case NullIfSql(_, _) => Ok(NullIfS(u, v))
    case ArithSql(op, _, _) => ArithS(op, u, v)
  }

  function UnaryS(t: Sql, x: Result<SValue>): Result<SValue>
    requires IsUnarySql(t)
  {
    var v :- x;
    match t
    case NullTest(_, isNull) => Ok(SBool((v == SNull) == isNull))
    case NotSql(_) => Truth(TruthS(v), true)
    case NegSql(_) => NegS(v)
    case CastInteger(_) => CastIntegerS(v)
    case CastFloat(_) => CastFloatS(v)
    case CharLength(_) => Ok(if v.SText? then SInt(|v.s|) else SNull)
    case Substr(_, from, length) => Ok(if v.SText? then SText(Cut(v.s, from, length)) else SNull)
    case Replace(_, c) => Ok(if v.SText? then SText(Without(v.s, c)) else SNull)
  }

  function NegS(v: SValue): Result<SValue> {
    match v
    case SInt(i) =>
      var z :- InRange(-i);
      Ok(SInt(z))
    case SFloat(r) => Ok(SFloat(-r))
    case _ => Ok(SNull)
  }

  /** WHEN test THEN x: the value not taken does not count, nor its error. */
  function WhenS(test: Result<SValue>, x: Result<SValue>, otherwise: Result<SValue>): Result<SValue> {
    var v :- test;
    var t :- TruthS(v);
    if t == Yes then x else otherwise
  }

  /** What Stoolap makes of the SQL over a row. */
  function S(row: seq<SValue>, t: Sql): Result<SValue>
    decreases t
  {
    match t
    case ColumnRef(c) => Ok(ColumnS(row, c))
    case Literal(v) => Ok(v)
    case Compare(_, l, r) => PairS(t, S(row, l), S(row, r))
    case NotDistinct(l, r) => PairS(t, S(row, l), S(row, r))
    case Distinct(l, r) => PairS(t, S(row, l), S(row, r))
    case NullIfSql(l, r) => PairS(t, S(row, l), S(row, r))
    case ArithSql(_, l, r) => PairS(t, S(row, l), S(row, r))
    case NullTest(l, _) => UnaryS(t, S(row, l))
    case NegSql(l) => UnaryS(t, S(row, l))
    case CastInteger(l) => UnaryS(t, S(row, l))
    case CastFloat(l) => UnaryS(t, S(row, l))
    case CharLength(l) => UnaryS(t, S(row, l))
    case Substr(l, _, _) => UnaryS(t, S(row, l))
    case Replace(l, _) => UnaryS(t, S(row, l))
    case NotSql(l) => UnaryS(t, S(row, l))
    case AndSql(args) => Truth(AllS(row, args, false), false)
    case OrSql(args) => Truth(AnyS(row, args, false), false)
    case BetweenSql(l, lo, hi, negated) => RangeS(negated, S(row, l), S(row, lo), S(row, hi))
    case InSql(l, args, negated) =>
      var x :- S(row, l);
      Truth(AmongS(row, x, args, false), negated)
    case CaseSql(whens) => ChosenS(row, whens)
    case CaseOfSql(l, whens) =>
      var x :- S(row, l);
      MatchedS(row, x, whens)
    case CoalesceSql(args) => FirstS(row, args)
    case ConcatSql(args) => JoinedS(row, args)
    case Overflow => Err(GUARD_OVERFLOW)
  }

  /** Only FALSE ends an AND early; NULL does not. */
  function AllS(row: seq<SValue>, args: Sqls, unknown: bool): Result<Tri>
    decreases args
  {
    match args
    case NoSql => Ok(if unknown then Unknown else Yes)
    case ConsSql(head, tail) =>
      var x :- S(row, head);
      var t :- TruthS(x);
      if t == No then Ok(No) else AllS(row, tail, unknown || t == Unknown)
  }

  function AnyS(row: seq<SValue>, args: Sqls, unknown: bool): Result<Tri>
    decreases args
  {
    match args
    case NoSql => Ok(if unknown then Unknown else No)
    case ConsSql(head, tail) =>
      var x :- S(row, head);
      var t :- TruthS(x);
      if t == Yes then Ok(Yes) else AnyS(row, tail, unknown || t == Unknown)
  }

  function AmongS(row: seq<SValue>, x: SValue, args: Sqls, unknown: bool): Result<Tri>
    decreases args
  {
    match args
    case NoSql => Ok(if unknown then Unknown else No)
    case ConsSql(head, tail) =>
      var y :- S(row, head);
      var t := TestS(Eq, x, y);
      if t == Yes then Ok(Yes) else AmongS(row, x, tail, unknown || t == Unknown)
  }

  function ChosenS(row: seq<SValue>, whens: SqlWhens): Result<SValue>
    decreases whens
  {
    match whens
    case EndSql => Ok(SNull)
    case ElseSql(value) => S(row, value)
    case WhenSql(test, value, rest) => WhenS(S(row, test), S(row, value), ChosenS(row, rest))
  }

  function MatchedS(row: seq<SValue>, x: SValue, whens: SqlWhens): Result<SValue>
    decreases whens
  {
    match whens
    case EndSql => Ok(SNull)
    case ElseSql(value) => S(row, value)
    case WhenSql(test, value, rest) =>
      var y :- S(row, test);
      if TestS(Eq, x, y) == Yes then S(row, value) else MatchedS(row, x, rest)
  }

  function FirstS(row: seq<SValue>, args: Sqls): Result<SValue>
    decreases args
  {
    match args
    case NoSql => Ok(SNull)
    case ConsSql(head, tail) =>
      var x :- S(row, head);
      if x != SNull then Ok(x) else FirstS(row, tail)
  }

  /** `||`: NULL as soon as one operand is. */
  function JoinedS(row: seq<SValue>, args: Sqls): Result<SValue>
    decreases args
  {
    match args
    case NoSql => Ok(SText(""))
    case ConsSql(head, tail) =>
      var x :- S(row, head);
      var rest :- JoinedS(row, tail);
      Ok(if x.SText? && rest.SText? then SText(x.s + rest.s) else SNull)
  }
}
