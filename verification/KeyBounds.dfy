/** A key bound becomes a postfix program of conditions (`key.rs`), which the
    read runs on a stack of expressions (`read.rs`). What the program accepts
    is stated in MariaDB's own terms: the lexicographic order of the index,
    with NULL first. */
module KeyBounds {
  import opened Values

  // ---------------------------------------------------------------- programs

  datatype CondOp = Eq | Gt | Ge | Lt | Le | IsNull | IsNotNull

  /** One step of a program: push a test, or replace the topmost expressions by
      their conjunction or disjunction. A row must meet all that is left. */
  datatype Node =
    | Cond(column: nat, op: CondOp, operand: Value)
    | And(count: nat)
    | Or(count: nat)

  datatype Expr =
    | Test(column: nat, op: CondOp, operand: Value)
    | AllOf(es: seq<Expr>)
    | AnyOf(es: seq<Expr>)

  predicate Satisfies(op: CondOp, o: Order) {
    match op
    case Eq => o == Same
    case Gt => o == After
    case Ge => o != Before
    case Lt => o == Before
    case Le => o != After
    case IsNull => false
    case IsNotNull => false
  }

  /** A comparison against NULL, on either side, is unknown. */
  function TestValue(op: CondOp, x: Value, operand: Value): Tri {
    if op == IsNull then if x == Null then Yes else No
    else if op == IsNotNull then if x == Null then No else Yes
    else if x == Null || operand == Null then Unknown
    else if Satisfies(op, CompareValues(x, operand)) then Yes else No
  }

  function Eval(e: Expr, row: Row): Tri {
    match e
    case Test(column, op, operand) => TestValue(op, Get(row, column), operand)
    case AllOf(es) => Conjunction(es, row)
    case AnyOf(es) => Disjunction(es, row)
  }

  function Conjunction(es: seq<Expr>, row: Row): Tri {
    if es == [] then Yes
    else
      var first, rest := Eval(es[0], row), Conjunction(es[1..], row);
      if first == No || rest == No then No
      else if first == Unknown || rest == Unknown then Unknown else Yes
  }

  function Disjunction(es: seq<Expr>, row: Row): Tri {
    if es == [] then No
    else
      var first, rest := Eval(es[0], row), Disjunction(es[1..], row);
      if first == Yes || rest == Yes then Yes
      else if first == Unknown || rest == Unknown then Unknown else No
  }

  ghost predicate AllYes(es: seq<Expr>, row: Row) {
    forall i :: 0 <= i < |es| ==> Eval(es[i], row) == Yes
  }

  ghost predicate SomeYes(es: seq<Expr>, row: Row) {
    exists i :: 0 <= i < |es| && Eval(es[i], row) == Yes
  }

  lemma {:induction false} ConjunctionYes(es: seq<Expr>, row: Row)
    ensures Conjunction(es, row) == Yes <==> AllYes(es, row)
  {
    if es != [] {
      ConjunctionYes(es[1..], row);
      assert forall i :: 0 < i < |es| ==> es[i] == es[1..][i - 1];
      assert AllYes(es, row) <==> Eval(es[0], row) == Yes && AllYes(es[1..], row);
    }
  }

  lemma {:induction false} DisjunctionYes(es: seq<Expr>, row: Row)
    ensures Disjunction(es, row) == Yes <==> SomeYes(es, row)
  {
    if es != [] {
      DisjunctionYes(es[1..], row);
      assert forall i :: 0 <= i < |es[1..]| ==> es[1..][i] == es[i + 1];
      if SomeYes(es, row) {
        var i :| 0 <= i < |es| && Eval(es[i], row) == Yes;
        assert i > 0 ==> es[1..][i - 1] == es[i];
      }
    }
  }

  /** One step of the loop over the nodes: None when a join lacks operands. */
  function Push(stack: seq<Expr>, node: Node): Option<seq<Expr>> {
    match node
    case Cond(column, op, operand) => Some(stack + [Test(column, op, operand)])
    case And(n) =>
      if n == 0 || n > |stack| then None
      else Some(stack[..|stack| - n] + [AllOf(stack[|stack| - n..])])
    case Or(n) =>
      if n == 0 || n > |stack| then None
      else Some(stack[..|stack| - n] + [AnyOf(stack[|stack| - n..])])
  }

  function Run(nodes: seq<Node>, stack: seq<Expr>): Option<seq<Expr>> {
    if nodes == [] then Some(stack)
    else
      var next := Push(stack, nodes[0]);
      if next.None? then None else Run(nodes[1..], next.value)
  }

  /** From any stack, `nodes` pushes exactly `es`: no join lacks operands and
      none takes an operand that was there before. */
  ghost predicate Yields(nodes: seq<Node>, es: seq<Expr>) {
    forall stack :: Run(nodes, stack) == Some(stack + es)
  }

  lemma {:induction false} RunConcat(p: seq<Node>, q: seq<Node>, stack: seq<Expr>)
    ensures Run(p + q, stack) ==
            (var mid := Run(p, stack); if mid.None? then None else Run(q, mid.value))
  {
    if p == [] {
      assert p + q == q;
    } else {
      assert (p + q)[1..] == p[1..] + q;
      var next := Push(stack, p[0]);
      if next.Some? {
        RunConcat(p[1..], q, next.value);
      }
    }
  }

  lemma {:induction false} YieldsNothing()
    ensures Yields([], [])
  {
    forall stack: seq<Expr> ensures Run([], stack) == Some(stack + []) {
      assert stack + [] == stack;
    }
  }

  lemma {:induction false} YieldsConcat(p: seq<Node>, es: seq<Expr>, q: seq<Node>, fs: seq<Expr>)
    requires Yields(p, es) && Yields(q, fs)
    ensures Yields(p + q, es + fs)
  {
    forall stack: seq<Expr> ensures Run(p + q, stack) == Some(stack + (es + fs)) {
      RunConcat(p, q, stack);
      assert stack + es + fs == stack + (es + fs);
    }
  }

  /** Joining the last expressions a program yields. */
  lemma {:induction false} YieldsJoin(p: seq<Node>, es: seq<Expr>, fs: seq<Expr>)
    requires Yields(p, es + fs) && |fs| > 0
    ensures Yields(p + [And(|fs|)], es + [AllOf(fs)])
    ensures Yields(p + [Or(|fs|)], es + [AnyOf(fs)])
  {
    forall stack: seq<Expr>
      ensures Run(p + [And(|fs|)], stack) == Some(stack + (es + [AllOf(fs)]))
      ensures Run(p + [Or(|fs|)], stack) == Some(stack + (es + [AnyOf(fs)]))
    {
      RunConcat(p, [And(|fs|)], stack);
      RunConcat(p, [Or(|fs|)], stack);
      var top := stack + (es + fs);
      assert top[..|top| - |fs|] == stack + es && top[|top| - |fs|..] == fs;
      assert stack + es + [AllOf(fs)] == stack + (es + [AllOf(fs)]);
      assert stack + es + [AnyOf(fs)] == stack + (es + [AnyOf(fs)]);
    }
  }

  // ------------------------------------------------------------------ bounds

  datatype Op = OpEq | OpGt | OpGe | OpLt | OpLe

  datatype Mode = Key | Leading | Range

  /** What a bound uses of a key part's field. */
  datatype Part = Part(column: nat, nullable: bool, varchar: bool, maxChars: nat)

  /** A part's value in a bound; Beyond is a BIGINT UNSIGNED past INT64_MAX,
      which no stored value reaches. */
  datatype KeyValue = NullKey | Beyond | Known(v: Value)

  /** `values[i]` is what reading part i from the bound's record gives. */
  datatype Bound = Bound(values: seq<Result<KeyValue>>, nparts: int, op: Op,
                         skip: set<nat>, pad: set<nat>, mode: Mode)

  /** Reading a part tests NULL first, so a known value is not NULL. */
  ghost predicate ValidBound(parts: seq<Part>, bound: Bound) {
    |bound.values| == |parts|
    && forall i :: 0 <= i < |parts| && bound.values[i].Ok? ==> ValidKey(bound.values[i].value)
  }

  predicate ValidKey(k: KeyValue) { k.Known? ==> k.v != Null }

  predicate Upper(op: Op) { op == OpLt || op == OpLe }

  predicate Lower(op: Op) { op == OpGt || op == OpGe }

  predicate Meets(op: Op, o: Order) {
    match op
    case OpEq => o == Same
    case OpGt => o == After
    case OpGe => o != Before
    case OpLt => o == Before
    case OpLe => o != After
  }

  /** Where a column's value lies from a part's value in the index order. */
  function PartOrder(x: Value, k: KeyValue): Order {
    match k
    case NullKey => if x == Null then Same else After
    case Beyond => Before
    case Known(v) => CompareValues(x, v)
  }

  /** MariaDB's order of a key and a bound's leading values. */
  function LexOrder(key: seq<Value>, ks: seq<KeyValue>): Order
    requires |key| == |ks|
  {
    if key == [] then Same
    else if PartOrder(key[0], ks[0]) != Same then PartOrder(key[0], ks[0])
    else LexOrder(key[1..], ks[1..])
  }

  /** The first part the key and the bound differ in is a NULL against a
      value. */
  predicate NullGap(key: seq<Value>, ks: seq<KeyValue>)
    requires |key| == |ks|
  {
    key != []
    && if PartOrder(key[0], ks[0]) != Same then key[0] == Null && ks[0].Known?
       else NullGap(key[1..], ks[1..])
  }

  /** A part's test in the index order (`exact`), or as the engine answers it:
      there an upper bound against a value leaves the NULLs out. */
  predicate PartMeets(op: Op, x: Value, k: KeyValue, exact: bool) {
    Meets(op, PartOrder(x, k)) && (exact || !(Upper(op) && x == Null && k.Known?))
  }

  function Strict(op: Op): Op {
    if Lower(op) then OpGt else OpLt
  }

  function LegOp(op: Op, n: nat, leg: nat, i: nat): Op {
    if i < leg then OpEq else if leg + 1 < n then Strict(op) else op
  }

  ghost predicate LegMeets(key: seq<Value>, ks: seq<KeyValue>, op: Op, leg: nat, exact: bool)
    requires |key| == |ks| && leg < |ks|
  {
    forall i :: 0 <= i <= leg ==> PartMeets(LegOp(op, |ks|, leg, i), key[i], ks[i], exact)
  }

  ghost predicate LegsBelow(key: seq<Value>, ks: seq<KeyValue>, op: Op, k: nat, exact: bool)
    requires |key| == |ks| && k <= |ks|
  {
    exists leg :: 0 <= leg < k && LegMeets(key, ks, op, leg, exact)
  }

  /** The legs together are the lexicographic comparison, less the NULLs an
      upper bound loses. */
  lemma {:induction false} LegsAreLexicographic(key: seq<Value>, ks: seq<KeyValue>, op: Op, exact: bool)
    requires |key| == |ks| > 0 && op != OpEq
    requires forall i :: 0 <= i < |ks| ==> ValidKey(ks[i])
    ensures LegsBelow(key, ks, op, |ks|, exact) <==>
            Meets(op, LexOrder(key, ks)) && (exact || !(Upper(op) && NullGap(key, ks)))
  {
    var n := |ks|;
    if n == 1 {
      assert LegMeets(key, ks, op, 0, exact) <==> PartMeets(op, key[0], ks[0], exact);
      assert LexOrder(key[1..], ks[1..]) == Same;
      assert NullGap(key[1..], ks[1..]) == false;
    } else {
      LegsAreLexicographic(key[1..], ks[1..], op, exact);
      assert LegMeets(key, ks, op, 0, exact) <==> PartMeets(Strict(op), key[0], ks[0], exact);
      forall leg | 0 <= leg < n - 1
        ensures LegMeets(key, ks, op, leg + 1, exact) <==>
                PartMeets(OpEq, key[0], ks[0], exact) && LegMeets(key[1..], ks[1..], op, leg, exact)
      {
        LegShift(key, ks, op, leg, exact);
      }
      if leg :| 0 <= leg < n && LegMeets(key, ks, op, leg, exact) {
        if leg > 0 {
          assert LegMeets(key[1..], ks[1..], op, leg - 1, exact) by { assert LegMeets(key, ks, op, leg - 1 + 1, exact); }
        }
      }
      if leg :| 0 <= leg < n - 1 && LegMeets(key[1..], ks[1..], op, leg, exact) {
        if PartMeets(OpEq, key[0], ks[0], exact) {
          assert LegMeets(key, ks, op, leg + 1, exact);
        }
      }
    }
  }

  lemma {:induction false} LegShift(key: seq<Value>, ks: seq<KeyValue>, op: Op, leg: nat, exact: bool)
    requires |key| == |ks| && leg + 1 < |ks|
    ensures LegMeets(key, ks, op, leg + 1, exact) <==>
            PartMeets(OpEq, key[0], ks[0], exact) && LegMeets(key[1..], ks[1..], op, leg, exact)
  {
    var n := |ks|;
    if LegMeets(key, ks, op, leg + 1, exact) {
      forall i | 0 <= i <= leg
        ensures PartMeets(LegOp(op, n - 1, leg, i), key[1..][i], ks[1..][i], exact)
      {
        assert PartMeets(LegOp(op, n, leg + 1, i + 1), key[i + 1], ks[i + 1], exact);
      }
      assert PartMeets(LegOp(op, n, leg + 1, 0), key[0], ks[0], exact);
    }
    if PartMeets(OpEq, key[0], ks[0], exact) && LegMeets(key[1..], ks[1..], op, leg, exact) {
      forall i | 0 <= i <= leg + 1
        ensures PartMeets(LegOp(op, n, leg + 1, i), key[i], ks[i], exact)
      {
        if i > 0 {
          assert PartMeets(LegOp(op, n - 1, leg, i - 1), key[1..][i - 1], ks[1..][i - 1], exact);
        }
      }
    }
  }

  // ------------------------------------------------- compiling one part's test

  /** What one part's comparison comes to. */
  datatype Pred = Always | Never | Nodes(nodes: seq<Node>)

  function CondOpOf(op: Op): CondOp {
    match op
    case OpEq => Eq
    case OpGt => Gt
    case OpGe => Ge
    case OpLt => Lt
    case OpLe => Le
  }

  function Compare(f: Part, op: Op, k: KeyValue): Pred {
    match k
    case Known(v) => Nodes([Cond(f.column, CondOpOf(op), v)])
    case NullKey =>
      (match op
       case OpEq => Nodes([Cond(f.column, IsNull, Null)])
       case OpLe => Nodes([Cond(f.column, IsNull, Null)])
       case OpGt => Nodes([Cond(f.column, IsNotNull, Null)])
       case OpGe => Always
       case OpLt => Never)
    case Beyond => if Upper(op) then Always else Never
  }

  predicate Conds(nodes: seq<Node>) {
    forall i :: 0 <= i < |nodes| ==> nodes[i].Cond?
  }

  function Tests(nodes: seq<Node>): seq<Expr>
    requires Conds(nodes)
  {
    seq(|nodes|, i requires 0 <= i < |nodes| => Test(nodes[i].column, nodes[i].op, nodes[i].operand))
  }

  ghost predicate OneTest(p: Pred) { p.Nodes? ==> |p.nodes| == 1 && p.nodes[0].Cond? }

  ghost predicate PredHolds(p: Pred, row: Row)
    requires OneTest(p)
  {
    match p
    case Always => true
    case Never => false
    case Nodes(nodes) => AllYes(Tests(nodes), row)
  }

  lemma {:induction false} CompareMeans(f: Part, op: Op, k: KeyValue, row: Row)
    requires ValidKey(k)
    ensures OneTest(Compare(f, op, k))
    ensures PredHolds(Compare(f, op, k), row) <==> PartMeets(op, Get(row, f.column), k, false)
    ensures Compare(f, op, k) == Never ==> !PartMeets(op, Get(row, f.column), k, true)
  {
    var p := Compare(f, op, k);
    if p.Nodes? {
      var e := Tests(p.nodes)[0];
      assert AllYes(Tests(p.nodes), row) <==> Eval(e, row) == Yes;
    }
  }

  lemma {:induction false} YieldsConds(nodes: seq<Node>)
    requires Conds(nodes)
    ensures Yields(nodes, Tests(nodes))
  {
    if nodes == [] {
      YieldsNothing();
    } else {
      var c := nodes[|nodes| - 1];
      var init := nodes[..|nodes| - 1];
      YieldsConds(init);
      YieldsConcat(init, Tests(init), [c], [Test(c.column, c.op, c.operand)]);
      assert init + [c] == nodes;
      assert Tests(init) + [Test(c.column, c.op, c.operand)] == Tests(nodes);
    }
  }

  lemma {:induction false} AllYesConcat(es: seq<Expr>, fs: seq<Expr>, row: Row)
    ensures AllYes(es + fs, row) <==> AllYes(es, row) && AllYes(fs, row)
  {
    if AllYes(es + fs, row) {
      assert forall i :: 0 <= i < |es| ==> (es + fs)[i] == es[i];
      assert forall i :: 0 <= i < |fs| ==> (es + fs)[|es| + i] == fs[i];
    }
  }

  lemma {:induction false} OneYes(e: Expr, row: Row)
    ensures AllYes([e], row) <==> Eval(e, row) == Yes
  {
    assert [e][0] == e;
  }

  lemma {:induction false} TestsConcat(p: seq<Node>, q: seq<Node>)
    requires Conds(p) && Conds(q)
    ensures Conds(p + q) && Tests(p + q) == Tests(p) + Tests(q)
  {
  }

  /** The AND of the tests, and their count; None where one is Never. */
  method All(preds: seq<Pred>) returns (r: Option<(seq<Node>, nat)>)
    requires forall i :: 0 <= i < |preds| ==> OneTest(preds[i])
    ensures r.None? <==> Never in preds
    ensures r.Some? ==> Conds(r.value.0) && |r.value.0| == r.value.1
    ensures r.Some? ==>
              forall row :: AllYes(Tests(r.value.0), row) <==>
                            forall i :: 0 <= i < |preds| ==> PredHolds(preds[i], row)
  {
    var nodes := [];
    var n: nat := 0;
    for k := 0 to |preds|
      invariant Never !in preds[..k]
      invariant Conds(nodes) && |nodes| == n
      invariant forall row :: AllYes(Tests(nodes), row) <==>
                              forall i :: 0 <= i < k ==> PredHolds(preds[i], row)
    {
      match preds[k] {
        case Never => return None;
        case Always =>
        case Nodes(v) =>
          TestsConcat(nodes, v);
          forall row { AllYesConcat(Tests(nodes), Tests(v), row); }
          nodes := nodes + v;
          n := n + 1;
      }
    }
    assert preds[..|preds|] == preds;
    return Some((nodes, n));
  }

  // ------------------------------------------------------ the range's legs

  function KeyIn(parts: seq<Part>, row: Row): seq<Value> {
    seq(|parts|, i requires 0 <= i < |parts| => Get(row, parts[i].column))
  }

  type Leg = (seq<Node>, nat)

  ghost predicate ValidLeg(leg: Leg) { Conds(leg.0) && |leg.0| == leg.1 > 0 }

  ghost predicate LegHolds(leg: Leg, row: Row)
    requires ValidLeg(leg)
  {
    AllYes(Tests(leg.0), row)
  }

  ghost predicate SomeLeg(legs: seq<Leg>, row: Row)
    requires forall j :: 0 <= j < |legs| ==> ValidLeg(legs[j])
  {
    exists j :: 0 <= j < |legs| && LegHolds(legs[j], row)
  }

  function LegPreds(parts: seq<Part>, ks: seq<KeyValue>, op: Op, leg: nat): seq<Pred>
    requires |parts| == |ks| && leg < |ks|
  {
    seq(leg + 1, i requires 0 <= i <= leg => Compare(parts[i], LegOp(op, |ks|, leg, i), ks[i]))
  }

  lemma {:induction false} LegPredsMean(parts: seq<Part>, ks: seq<KeyValue>, op: Op, leg: nat, row: Row)
    requires |parts| == |ks| && leg < |ks|
    requires forall i :: 0 <= i < |ks| ==> ValidKey(ks[i])
    ensures forall i :: 0 <= i <= leg ==> OneTest(LegPreds(parts, ks, op, leg)[i])
    ensures (forall i :: 0 <= i <= leg ==> PredHolds(LegPreds(parts, ks, op, leg)[i], row)) <==>
            LegMeets(KeyIn(parts, row), ks, op, leg, false)
    ensures Never in LegPreds(parts, ks, op, leg) ==> !LegMeets(KeyIn(parts, row), ks, op, leg, true)
    ensures Never in LegPreds(parts, ks, op, leg) ==> !LegMeets(KeyIn(parts, row), ks, op, leg, false)
  {
    var preds := LegPreds(parts, ks, op, leg);
    forall i | 0 <= i <= leg
      ensures OneTest(preds[i])
      ensures PredHolds(preds[i], row) <==>
              PartMeets(LegOp(op, |ks|, leg, i), KeyIn(parts, row)[i], ks[i], false)
      ensures preds[i] == Never ==> !PartMeets(LegOp(op, |ks|, leg, i), KeyIn(parts, row)[i], ks[i], true)
    {
      CompareMeans(parts[i], LegOp(op, |ks|, leg, i), ks[i], row);
    }
  }

  /** The bound on the leading part is implied: it only lets an index read. */
  lemma {:induction false} LeadImplied(key: seq<Value>, ks: seq<KeyValue>, op: Op, leg: nat)
    requires |key| == |ks| && leg < |ks| && op != OpEq && ValidKey(ks[0])
    requires LegMeets(key, ks, op, leg, false)
    ensures PartMeets(if Lower(op) then OpGe else OpLe, key[0], ks[0], false)
  {
    assert PartMeets(LegOp(op, |ks|, leg, 0), key[0], ks[0], false);
  }

  /** A composite bound: its legs, after the leading part's own bound that each
      of them has. False for a bound that admits nothing. */
  method RangeNodes(parts: seq<Part>, ks: seq<KeyValue>, op: Op, out0: seq<Node>)
    returns (ok: bool, out: seq<Node>, ghost es: seq<Expr>)
    requires |parts| == |ks| > 0 && op != OpEq
    requires forall i :: 0 <= i < |ks| ==> ValidKey(ks[i])
    ensures out0 <= out && Yields(out[|out0|..], es)
    ensures ok ==> forall row :: AllYes(es, row) <==> LegsBelow(KeyIn(parts, row), ks, op, |ks|, false)
    ensures !ok ==> out == out0 && forall row :: !LegsBelow(KeyIn(parts, row), ks, op, |ks|, false)
    ensures !ok ==> forall row :: !LegsBelow(KeyIn(parts, row), ks, op, |ks|, true)
  {
    out, es := out0, [];
    YieldsNothing();
    var every, legs := CollectLegs(parts, ks, op);
    if every {
      return true, out, es;
    }
    if legs == [] {
      return false, out, es;
    }
    var lead := Compare(parts[0], if Lower(op) then OpGe else OpLe, ks[0]);
    forall row
      ensures OneTest(lead) && (LegsBelow(KeyIn(parts, row), ks, op, |ks|, false) ==> PredHolds(lead, row))
    {
      CompareMeans(parts[0], if Lower(op) then OpGe else OpLe, ks[0], row);
      if leg :| 0 <= leg < |ks| && LegMeets(KeyIn(parts, row), ks, op, leg, false) {
        LeadImplied(KeyIn(parts, row), ks, op, leg);
      }
    }
    var nodes: seq<Node> := [];
    if lead.Nodes? {
      nodes := lead.nodes;
    }
    YieldsConds(nodes);
    ghost var leads := Tests(nodes);
    var body; ghost var e;
    body, e := JoinLegs(legs);
    out := out + nodes + body;
    es := leads + [e];
    YieldsConcat(nodes, leads, body, [e]);
    assert out[|out0|..] == nodes + body;
    forall row ensures AllYes(es, row) <==> SomeLeg(legs, row) {
      AllYesConcat(leads, [e], row);
      OneYes(e, row);
    }
    ok := true;
  }

  lemma {:induction false} LegsBelowNext(key: seq<Value>, ks: seq<KeyValue>, op: Op, leg: nat)
    requires |key| == |ks| && leg < |ks|
    ensures LegsBelow(key, ks, op, leg + 1, false) <==>
            LegsBelow(key, ks, op, leg, false) || LegMeets(key, ks, op, leg, false)
    ensures LegsBelow(key, ks, op, leg + 1, true) <==>
            LegsBelow(key, ks, op, leg, true) || LegMeets(key, ks, op, leg, true)
  {
  }

  /** The legs some row can meet; `every` when a leg has no test, and so every
      row meets it. */
  method CollectLegs(parts: seq<Part>, ks: seq<KeyValue>, op: Op) returns (every: bool, legs: seq<Leg>)
    requires |parts| == |ks| > 0
    requires forall i :: 0 <= i < |ks| ==> ValidKey(ks[i])
    ensures every ==> forall row :: LegsBelow(KeyIn(parts, row), ks, op, |ks|, false)
    ensures forall j :: 0 <= j < |legs| ==> ValidLeg(legs[j])
    ensures !every ==> forall row :: SomeLeg(legs, row) <==> LegsBelow(KeyIn(parts, row), ks, op, |ks|, false)
    ensures !every && legs == [] ==> forall row :: !LegsBelow(KeyIn(parts, row), ks, op, |ks|, true)
  {
    legs := [];
    for leg := 0 to |ks|
      invariant forall j :: 0 <= j < |legs| ==> ValidLeg(legs[j])
      invariant forall row :: SomeLeg(legs, row) <==> LegsBelow(KeyIn(parts, row), ks, op, leg, false)
      invariant legs == [] ==> forall row :: !LegsBelow(KeyIn(parts, row), ks, op, leg, true)
    {
      var preds := LegPreds(parts, ks, op, leg);
      forall row { LegPredsMean(parts, ks, op, leg, row); }
      var all := All(preds);
      forall row
        ensures LegMeets(KeyIn(parts, row), ks, op, leg, false) <==> all.Some? && AllYes(Tests(all.value.0), row)
        ensures all.None? ==> !LegMeets(KeyIn(parts, row), ks, op, leg, true)
      {
      }
      forall row { LegsBelowNext(KeyIn(parts, row), ks, op, leg); }
      if all.Some? {
        var (nodes, count) := all.value;
        if count == 0 {
          forall row ensures LegsBelow(KeyIn(parts, row), ks, op, |ks|, false) {
            assert LegMeets(KeyIn(parts, row), ks, op, leg, false);
          }
          return true, legs;
        }
        forall row { SomeLegAppend(legs, (nodes, count), row); }
        legs := legs + [(nodes, count)];
      }
    }
    every := false;
  }

  lemma {:induction false} SomeLegAppend(legs: seq<Leg>, leg: Leg, row: Row)
    requires (forall j :: 0 <= j < |legs| ==> ValidLeg(legs[j])) && ValidLeg(leg)
    ensures SomeLeg(legs + [leg], row) <==> SomeLeg(legs, row) || LegHolds(leg, row)
  {
    var more := legs + [leg];
    if j :| 0 <= j < |legs| && LegHolds(legs[j], row) {
      assert more[j] == legs[j];
    }
    assert more[|legs|] == leg;
  }

  /** The legs, ANDed each and ORed together, as one expression. */
  method JoinLegs(legs: seq<Leg>) returns (out: seq<Node>, ghost e: Expr)
    requires |legs| > 0
    requires forall j :: 0 <= j < |legs| ==> ValidLeg(legs[j])
    ensures Yields(out, [e])
    ensures forall row :: Eval(e, row) == Yes <==> SomeLeg(legs, row)
  {
    out := [];
    ghost var es: seq<Expr> := [];
    YieldsNothing();
    for j := 0 to |legs|
      invariant Yields(out, es) && |es| == j
      invariant forall i, row :: 0 <= i < j ==> (Eval(es[i], row) == Yes <==> LegHolds(legs[i], row))
    {
      var (nodes, count) := legs[j];
      ghost var tests := Tests(nodes);
      YieldsConds(nodes);
      YieldsConcat(out, es, nodes, tests);
      out := out + nodes;
      if count > 1 {
        YieldsJoin(out, es, tests);
        out := out + [And(count)];
        forall row { ConjunctionYes(tests, row); }
        es := es + [AllOf(tests)];
      } else {
        forall row ensures LegHolds(legs[j], row) <==> Eval(tests[0], row) == Yes {}
        es := es + tests;
      }
    }
    if |legs| > 1 {
      assert [] + es == es;
      YieldsJoin(out, [], es);
      out := out + [Or(|legs|)];
      e := AnyOf(es);
      assert [] + [e] == [e];
      forall row { DisjunctionYes(es, row); }
    } else {
      e := es[0];
      assert es == [e];
    }
    forall row ensures Eval(e, row) == Yes <==> SomeLeg(legs, row) {
      if |legs| > 1 {
        assert SomeYes(es, row) <==> SomeLeg(legs, row);
      } else {
        assert Eval(es[0], row) == Yes <==> LegHolds(legs[0], row);
      }
    }
  }

  // ------------------------------------------------------ PAD SPACE lookups

  const SPACE: Byte := 32
  const PAD_SPACE_LOOKUPS := 256

  function TrimEnd(s: seq<Byte>): seq<Byte> {
    if s != [] && s[|s| - 1] == SPACE then TrimEnd(s[..|s| - 1]) else s
  }

  function Spaces(n: nat): seq<Byte> { seq(n, _ => SPACE) }

  /** The characters of UTF-8 text: its bytes but the continuation ones. */
  function CharCount(s: seq<Byte>): nat {
    if s == [] then 0
    else CharCount(s[..|s| - 1]) + (if s[|s| - 1] as int / 64 == 2 then 0 else 1)
  }

  function Pads(f: Part, s: seq<Byte>): nat {
    var n := CharCount(TrimEnd(s));
    if f.maxChars > n then f.maxChars - n else 0
  }

  /** What the lookup of `s` accepts: the trimmed text with up to `Pads` spaces,
      or past the limit the byte range these lie in. */
  ghost predicate PadCandidate(f: Part, s: seq<Byte>, x: Value) {
    var t, pads := TrimEnd(s), Pads(f, s);
    if pads < PAD_SPACE_LOOKUPS then exists k :: 0 <= k <= pads && x == Text(t + Spaces(k))
    else x != Null && Leq(Text(t), x) && Leq(x, Text(t + Spaces(pads)))
  }

  lemma {:induction false} TrimSplits(s: seq<Byte>)
    ensures |TrimEnd(s)| <= |s| && s == TrimEnd(s) + Spaces(|s| - |TrimEnd(s)|)
  {
    if s != [] && s[|s| - 1] == SPACE {
      var init := s[..|s| - 1];
      TrimSplits(init);
      assert s == init + [SPACE];
      assert Spaces(|s| - |TrimEnd(s)|) == Spaces(|init| - |TrimEnd(init)|) + [SPACE];
    }
  }

  lemma {:induction false} TrimPadded(t: seq<Byte>, k: nat)
    ensures TrimEnd(t + Spaces(k)) == TrimEnd(t)
    ensures CharCount(t + Spaces(k)) == CharCount(t) + k
  {
    var s := t + Spaces(k);
    if k == 0 {
      assert s == t;
    } else {
      assert s[..|s| - 1] == t + Spaces(k - 1);
      TrimPadded(t, k - 1);
    }
  }

  lemma {:induction false} TrimTwice(s: seq<Byte>)
    ensures TrimEnd(TrimEnd(s)) == TrimEnd(s)
  {
    if s != [] && s[|s| - 1] == SPACE {
      TrimTwice(s[..|s| - 1]);
    }
  }

  /** The characters a match may have: the column's, or those of a trimmed
      search string longer than that. */
  function PadWidth(f: Part, s: seq<Byte>): nat {
    CharCount(TrimEnd(s)) + Pads(f, s)
  }

  /** A stored value that equals the search string up to trailing spaces is a
      candidate, whatever the width of its column. */
  lemma {:induction false} PadFindsEveryMatch(f: Part, s: seq<Byte>, x: seq<Byte>)
    requires TrimEnd(x) == TrimEnd(s) && CharCount(x) <= PadWidth(f, s)
    ensures PadCandidate(f, s, Text(x))
  {
    var t, pads := TrimEnd(s), Pads(f, s);
    var k := |x| - |t|;
    TrimSplits(x);
    TrimPadded(t, k);
    assert k <= pads;
    if pads >= PAD_SPACE_LOOKUPS {
      BytesPrefix(t, Spaces(k));
      assert t + Spaces(k) + Spaces(pads - k) == t + Spaces(pads);
      BytesPrefix(x, Spaces(pads - k));
    }
  }

  /** Under the limit a candidate is a match: the filter drops nothing. */
  lemma {:induction false} PadIsExact(f: Part, s: seq<Byte>, x: Value)
    requires Pads(f, s) < PAD_SPACE_LOOKUPS
    ensures PadCandidate(f, s, x) <==>
            x.Text? && CharCount(x.s) <= PadWidth(f, s) && TrimEnd(x.s) == TrimEnd(s)
  {
    var t, pads := TrimEnd(s), Pads(f, s);
    if k :| 0 <= k <= pads && x == Text(t + Spaces(k)) {
      TrimPadded(t, k);
      TrimTwice(s);
    }
    if x.Text? && CharCount(x.s) <= PadWidth(f, s) && TrimEnd(x.s) == t {
      PadFindsEveryMatch(f, s, x.s);
    }
  }

  method PadSpaceNodes(f: Part, s: seq<Byte>, out0: seq<Node>) returns (out: seq<Node>, ghost es: seq<Expr>)
    ensures out0 <= out && Yields(out[|out0|..], es)
    ensures forall row :: AllYes(es, row) <==> PadCandidate(f, s, Get(row, f.column))
  {
    var trimmed := TrimEnd(s);
    var pads := Pads(f, s);
    if pads >= PAD_SPACE_LOOKUPS {
      var range := [Cond(f.column, Ge, Text(trimmed)), Cond(f.column, Le, Text(trimmed + Spaces(pads)))];
      out, es := out0 + range, Tests(range);
      YieldsConds(range);
      assert out[|out0|..] == range;
      forall row ensures AllYes(es, row) <==> PadCandidate(f, s, Get(row, f.column)) {
        PadRangeMeans(f, s, range, row);
      }
      return;
    }
    var v := trimmed;
    var nodes: seq<Node> := [];
    for i := 0 to pads
      invariant Conds(nodes) && |nodes| == i
      invariant v == trimmed + Spaces(i)
      invariant forall j :: 0 <= j < i ==> nodes[j] == Cond(f.column, Eq, Text(trimmed + Spaces(j)))
    {
      nodes := nodes + [Cond(f.column, Eq, Text(v))];
      v := v + [SPACE];
    }
    nodes := nodes + [Cond(f.column, Eq, Text(v))];
    ghost var e := JoinVariants(nodes);
    forall row ensures AllYes([e], row) <==> PadCandidate(f, s, Get(row, f.column)) {
      PadVariantsMean(f, s, nodes, row);
      OneYes(e, row);
    }
    es := [e];
    if pads > 0 {
      nodes := nodes + [Or(pads + 1)];
    }
    out := out0 + nodes;
    assert out[|out0|..] == nodes;
  }

  lemma {:induction false} PadRangeMeans(f: Part, s: seq<Byte>, range: seq<Node>, row: Row)
    requires Pads(f, s) >= PAD_SPACE_LOOKUPS
    requires range == [Cond(f.column, Ge, Text(TrimEnd(s))), Cond(f.column, Le, Text(TrimEnd(s) + Spaces(Pads(f, s))))]
    ensures AllYes(Tests(range), row) <==> PadCandidate(f, s, Get(row, f.column))
  {
    var es := Tests(range);
    assert AllYes(es, row) <==> Eval(es[0], row) == Yes && Eval(es[1], row) == Yes;
    CompareAntisymmetric(Text(TrimEnd(s)), Get(row, f.column));
  }

  lemma {:induction false} PadVariantsMean(f: Part, s: seq<Byte>, nodes: seq<Node>, row: Row)
    requires Pads(f, s) < PAD_SPACE_LOOKUPS && |nodes| == Pads(f, s) + 1
    requires forall j :: 0 <= j < |nodes| ==> nodes[j] == Cond(f.column, Eq, Text(TrimEnd(s) + Spaces(j)))
    ensures SomeYes(Tests(nodes), row) <==> PadCandidate(f, s, Get(row, f.column))
  {
    var x := Get(row, f.column);
    forall j | 0 <= j < |nodes|
      ensures Eval(Tests(nodes)[j], row) == Yes <==> x == Text(TrimEnd(s) + Spaces(j))
    {
      CompareAntisymmetric(x, Text(TrimEnd(s) + Spaces(j)));
    }
  }

  /** The expression equalities joined by an OR (one alone needs none). */
  lemma {:induction false} JoinVariants(nodes: seq<Node>) returns (e: Expr)
    requires Conds(nodes) && |nodes| > 0
    ensures Yields(if |nodes| > 1 then nodes + [Or(|nodes|)] else nodes, [e])
    ensures forall row :: Eval(e, row) == Yes <==> SomeYes(Tests(nodes), row)
  {
    var tests := Tests(nodes);
    YieldsConds(nodes);
    if |nodes| > 1 {
      e := AnyOf(tests);
      assert [] + tests == tests && [] + [e] == [e];
      YieldsJoin(nodes, [], tests);
      forall row { DisjunctionYes(tests, row); }
    } else {
      e := tests[0];
      assert tests == [e];
    }
  }

  // ------------------------------------------------------------- whole bounds

  function BoundParts(parts: seq<Part>, bound: Bound): (n: nat)
    ensures n <= |parts|
  {
    if bound.nparts <= 0 then 0 else if bound.nparts < |parts| then bound.nparts else |parts|
  }

  function KeyOf(r: Result<KeyValue>): KeyValue {
    if r.Ok? then r.value else NullKey
  }

  /** A lookup's part: a skipped one is the caller's to compare, but for the
      PAD SPACE candidates. */
  ghost predicate LookupPartHolds(parts: seq<Part>, bound: Bound, i: nat, row: Row, exact: bool)
    requires ValidBound(parts, bound) && i < BoundParts(parts, bound)
  {
    var f, k := parts[i], KeyOf(bound.values[i]);
    var x := Get(row, f.column);
    if i in bound.skip then
      i in bound.pad && f.varchar && k.Known? && k.v.Text? ==> PadCandidate(f, k.v.s, x)
    else PartMeets(if i + 1 == BoundParts(parts, bound) then bound.op else OpEq, x, k, exact)
  }

  ghost predicate LookupHolds(parts: seq<Part>, bound: Bound, k: nat, row: Row, exact: bool)
    requires ValidBound(parts, bound) && k <= BoundParts(parts, bound)
  {
    forall i :: 0 <= i < k ==> LookupPartHolds(parts, bound, i, row, exact)
  }

  /** The leading part alone, inclusive. A part without a known value bounds
      nothing. */
  ghost predicate LeadingHolds(f: Part, op: Op, value: Result<KeyValue>, x: Value) {
    value.Ok? && value.value.Known? ==>
      var v := value.value.v;
      if op == OpLe then (x == Null && f.nullable) || (x != Null && Leq(x, v))
      else x != Null && Leq(v, x)
  }

  ghost predicate Composite(parts: seq<Part>, bound: Bound) {
    bound.mode == Range && BoundParts(parts, bound) > 1 && bound.op != OpEq
  }

  /** The rows a bound lets through. */
  ghost predicate BoundHolds(parts: seq<Part>, bound: Bound, row: Row)
    requires ValidBound(parts, bound)
  {
    var n := BoundParts(parts, bound);
    if n == 0 then true
    else if bound.mode == Leading then
      LeadingHolds(parts[0], bound.op, bound.values[0], Get(row, parts[0].column))
    else if Composite(parts, bound) then
      var key, ks := KeyIn(parts[..n], row), KeysOf(bound, n);
      Meets(bound.op, LexOrder(key, ks)) && !(Upper(bound.op) && NullGap(key, ks))
    else LookupHolds(parts, bound, n, row, false)
  }

  function KeysOf(bound: Bound, n: nat): seq<KeyValue>
    requires n <= |bound.values|
  {
    seq(n, i requires 0 <= i < n => KeyOf(bound.values[i]))
  }

  /** MariaDB's index order puts the row within the bound. */
  ghost predicate WithinIndexOrder(parts: seq<Part>, bound: Bound, row: Row)
    requires ValidBound(parts, bound)
  {
    var n := BoundParts(parts, bound);
    Meets(bound.op, LexOrder(KeyIn(parts[..n], row), KeysOf(bound, n)))
  }

  /** The bounds that mean MariaDB's order of the whole prefix: a range, or an
      equality of every part. */
  ghost predicate InIndexOrder(parts: seq<Part>, bound: Bound) {
    bound.mode != Leading && bound.skip == {} && BoundParts(parts, bound) > 0
    && (bound.op == OpEq || BoundParts(parts, bound) == 1 || bound.mode == Range)
  }

  lemma {:induction false} EqualPartsAreEqualKeys(key: seq<Value>, ks: seq<KeyValue>)
    requires |key| == |ks|
    ensures LexOrder(key, ks) == Same <==> forall i :: 0 <= i < |ks| ==> PartOrder(key[i], ks[i]) == Same
  {
    if key != [] {
      EqualPartsAreEqualKeys(key[1..], ks[1..]);
      assert forall i :: 0 < i < |ks| ==> key[i] == key[1..][i - 1] && ks[i] == ks[1..][i - 1];
      assert forall i :: 0 <= i < |ks[1..]| ==> key[1..][i] == key[i + 1] && ks[1..][i] == ks[i + 1];
    }
  }

  lemma {:induction false} LookupIsLexicographic(parts: seq<Part>, bound: Bound, row: Row)
    requires ValidBound(parts, bound) && InIndexOrder(parts, bound) && !Composite(parts, bound)
    ensures LookupHolds(parts, bound, BoundParts(parts, bound), row, true) <==> WithinIndexOrder(parts, bound, row)
  {
    var n := BoundParts(parts, bound);
    var key, ks := KeyIn(parts[..n], row), KeysOf(bound, n);
    assert forall i :: 0 <= i < n ==> key[i] == Get(row, parts[i].column) && ks[i] == KeyOf(bound.values[i]);
    EqualPartsAreEqualKeys(key, ks);
    if n == 1 {
      assert LexOrder(key[1..], ks[1..]) == Same;
      assert LookupHolds(parts, bound, 1, row, true) <==> LookupPartHolds(parts, bound, 0, row, true);
    } else {
      forall i | 0 <= i < n
        ensures LookupPartHolds(parts, bound, i, row, true) <==> PartOrder(key[i], ks[i]) == Same
      {
      }
    }
  }

  method BoundNodes(parts: seq<Part>, bound: Bound, out0: seq<Node>)
    returns (r: Result<bool>, out: seq<Node>, ghost es: seq<Expr>)
    requires ValidBound(parts, bound)
    ensures r.Err? ==> bound.mode != Leading && exists i :: 0 <= i < BoundParts(parts, bound) && bound.values[i].Err?
    ensures r.Ok? ==> out0 <= out && Yields(out[|out0|..], es)
    ensures r == Ok(true) ==> forall row :: AllYes(es, row) <==> BoundHolds(parts, bound, row)
    ensures r == Ok(false) ==> out == out0 && forall row :: !BoundHolds(parts, bound, row)
    ensures r == Ok(false) && InIndexOrder(parts, bound) ==> forall row :: !WithinIndexOrder(parts, bound, row)
  {
    var n := BoundParts(parts, bound);
    out, es := out0, [];
    YieldsNothing();
    if n == 0 {
      return Ok(true), out, es;
    }
    if bound.mode == Leading {
      out, es := LeadingNodes(parts[0], bound.op, bound.values[0], out0);
      return Ok(true), out, es;
    }
    if bound.mode == Range && n > 1 && bound.op != OpEq {
      var ks: seq<KeyValue> := [];
      for i := 0 to n
        invariant |ks| == i && ks == KeysOf(bound, i)
        invariant forall j :: 0 <= j < i ==> bound.values[j].Ok?
      {
        if bound.values[i].Err? {
          return Err(bound.values[i].message), out, es;
        }
        ks := ks + [bound.values[i].value];
      }
      var ok;
      ok, out, es := RangeNodes(parts[..n], ks, bound.op, out0);
      forall row
        ensures LegsBelow(KeyIn(parts[..n], row), ks, bound.op, n, false) <==> BoundHolds(parts, bound, row)
        ensures LegsBelow(KeyIn(parts[..n], row), ks, bound.op, n, true) <==> WithinIndexOrder(parts, bound, row)
      {
        LegsAreLexicographic(KeyIn(parts[..n], row), ks, bound.op, false);
        LegsAreLexicographic(KeyIn(parts[..n], row), ks, bound.op, true);
      }
      return Ok(ok), out, es;
    }
    r, out, es := LookupNodes(parts, bound, out0);
    if InIndexOrder(parts, bound) {
      forall row { LookupIsLexicographic(parts, bound, row); }
    }
  }

  method LeadingNodes(f: Part, op: Op, value: Result<KeyValue>, out0: seq<Node>)
    returns (out: seq<Node>, ghost es: seq<Expr>)
    requires value.Ok? ==> ValidKey(value.value)
    ensures out0 <= out && Yields(out[|out0|..], es)
    ensures forall row :: AllYes(es, row) <==> LeadingHolds(f, op, value, Get(row, f.column))
  {
    out, es := out0, [];
    YieldsNothing();
    if value.Ok? && value.value.Known? {
      var upper, v := op == OpLe, value.value.v;
      var nodes := [Cond(f.column, if upper then Le else Ge, v)];
      if upper && f.nullable {
        nodes := nodes + [Cond(f.column, IsNull, Null)];
      }
      ghost var e := JoinVariants(nodes);
      forall row ensures AllYes([e], row) <==> LeadingHolds(f, op, value, Get(row, f.column)) {
        OneYes(e, row);
        var tests := Tests(nodes);
        assert SomeYes(tests, row) <==> Eval(tests[0], row) == Yes || (|tests| > 1 && Eval(tests[1], row) == Yes);
        CompareAntisymmetric(v, Get(row, f.column));
      }
      es := [e];
      if upper && f.nullable {
        nodes := nodes + [Or(2)];
      }
      out := out0 + nodes;
      assert out[|out0|..] == nodes;
    }
  }

  /** A lookup's tests, part after part; refused, `out` is as it was. */
  method LookupNodes(parts: seq<Part>, bound: Bound, out0: seq<Node>)
    returns (r: Result<bool>, out: seq<Node>, ghost es: seq<Expr>)
    requires ValidBound(parts, bound)
    ensures r.Err? ==> exists i :: 0 <= i < BoundParts(parts, bound) && bound.values[i].Err?
    ensures r.Ok? ==> out0 <= out && Yields(out[|out0|..], es)
    ensures r == Ok(true) ==>
              forall row :: AllYes(es, row) <==> LookupHolds(parts, bound, BoundParts(parts, bound), row, false)
    ensures r == Ok(false) ==>
              out == out0 && forall row, exact :: !LookupHolds(parts, bound, BoundParts(parts, bound), row, exact)
  {
    var n := BoundParts(parts, bound);
    out, es := out0, [];
    YieldsNothing();
    for i := 0 to n
      invariant out0 <= out && Yields(out[|out0|..], es)
      invariant forall row :: AllYes(es, row) <==> LookupHolds(parts, bound, i, row, false)
    {
      var f := parts[i];
      ghost var was, had := out, es;
      ghost var fs: seq<Expr> := [];
      if i in bound.skip {
        if i in bound.pad && f.varchar {
          if bound.values[i].Err? {
            return Err(bound.values[i].message), out, es;
          }
          var k := bound.values[i].value;
          if k.Known? && k.v.Text? {
            out, fs := PadSpaceNodes(f, k.v.s, out);
          } else {
            YieldsNothing();
          }
        } else {
          YieldsNothing();
        }
      } else {
        if bound.values[i].Err? {
          return Err(bound.values[i].message), out, es;
        }
        var k := bound.values[i].value;
        var op := if i == n - 1 then bound.op else OpEq;
        forall row { CompareMeans(f, op, k, row); }
        var some;
        some, out := CompareInto(f, op, k, out);
        if !some {
          forall row, exact ensures !LookupHolds(parts, bound, n, row, exact) {
            assert !LookupPartHolds(parts, bound, i, row, exact);
          }
          out, es := out[..|out0|], [];
          return Ok(false), out, es;
        }
        var p := Compare(f, op, k);
        if p.Nodes? {
          fs := Tests(p.nodes);
          YieldsConds(p.nodes);
        } else {
          YieldsNothing();
        }
      }
      es := had + fs;
      assert was <= out;
      assert out[|out0|..] == was[|out0|..] + out[|was|..];
      YieldsConcat(was[|out0|..], had, out[|was|..], fs);
      forall row ensures AllYes(es, row) <==> AllYes(had, row) && LookupPartHolds(parts, bound, i, row, false) {
        AllYesConcat(had, fs, row);
      }
    }
    r := Ok(true);
  }

  /** Appends the part's test; false for Never. */
  method CompareInto(f: Part, op: Op, k: KeyValue, out0: seq<Node>) returns (some: bool, out: seq<Node>)
    ensures some <==> Compare(f, op, k) != Never
    ensures out0 <= out
    ensures out[|out0|..] == if Compare(f, op, k).Nodes? then Compare(f, op, k).nodes else []
  {
    out := out0;
    match Compare(f, op, k) {
      case Never => some := false;
      case Always => some := true;
      case Nodes(nodes) =>
        out := out + nodes;
        some := true;
    }
  }

  // ------------------------------------------------------------ what they mean

  /** A range bound is MariaDB's order, exactly for a lower one; an upper one
      loses the rows whose first differing part is NULL against a value. */
  lemma {:induction false} RangeIsIndexOrder(parts: seq<Part>, bound: Bound, row: Row)
    requires ValidBound(parts, bound) && bound.mode == Range && bound.op != OpEq && bound.skip == {}
    requires BoundParts(parts, bound) > 0
    ensures Lower(bound.op) ==> (BoundHolds(parts, bound, row) <==> WithinIndexOrder(parts, bound, row))
    ensures Upper(bound.op) ==>
              var n := BoundParts(parts, bound);
              BoundHolds(parts, bound, row) <==>
              WithinIndexOrder(parts, bound, row) && !NullGap(KeyIn(parts[..n], row), KeysOf(bound, n))
  {
    if !Composite(parts, bound) {
      LookupIsLexicographic(parts, bound, row);
      var key, ks := KeyIn(parts[..1], row), KeysOf(bound, 1);
      assert NullGap(key[1..], ks[1..]) == false;
      assert LookupHolds(parts, bound, 1, row, true) <==> LookupPartHolds(parts, bound, 0, row, true);
      assert LookupHolds(parts, bound, 1, row, false) <==> LookupPartHolds(parts, bound, 0, row, false);
    }
  }

  /** An equality bound, NULLs equal to NULLs. */
  lemma {:induction false} EqualityIsIndexOrder(parts: seq<Part>, bound: Bound, row: Row)
    requires ValidBound(parts, bound) && bound.mode != Leading && bound.op == OpEq && bound.skip == {}
    requires BoundParts(parts, bound) > 0
    ensures BoundHolds(parts, bound, row) <==> WithinIndexOrder(parts, bound, row)
  {
    LookupIsLexicographic(parts, bound, row);
    var n := BoundParts(parts, bound);
    forall i | 0 <= i < n
      ensures LookupPartHolds(parts, bound, i, row, false) <==> LookupPartHolds(parts, bound, i, row, true)
    {
    }
  }

  /** The upper bounds' loss is real: (NULL) lies below (1), and is left out. */
  lemma {:induction false} UpperBoundLosesNull()
    ensures var parts, bound := [Part(0, true, false, 0)],
                                Bound([Ok(Known(Integer(1)))], 1, OpLe, {}, {}, Range);
            ValidBound(parts, bound) && WithinIndexOrder(parts, bound, [Null]) && !BoundHolds(parts, bound, [Null])
  {
    var parts, bound := [Part(0, true, false, 0)], Bound([Ok(Known(Integer(1)))], 1, OpLe, {}, {}, Range);
    assert LookupPartHolds(parts, bound, 0, [Null], true) && !LookupPartHolds(parts, bound, 0, [Null], false);
    LookupIsLexicographic(parts, bound, [Null]);
  }

  // -------------------------------------------------------------- the read

  datatype Table = Table(rows: Rows, pk: Option<nat>)

  /** A row is stored under its INTEGER primary key. */
  ghost predicate ValidTable(t: Table) {
    t.pk.Some? ==> forall i :: 0 <= i < |t.rows| ==> Get(t.rows[i].1, t.pk.value) == Integer(t.rows[i].0)
  }

  function Keep(rows: Rows, p: Row -> bool): Rows {
    if rows == [] then []
    else (if p(rows[0].1) then [rows[0]] else []) + Keep(rows[1..], p)
  }

  function KeepIds(rows: Rows, id: int): Rows {
    if rows == [] then []
    else (if rows[0].0 == id then [rows[0]] else []) + KeepIds(rows[1..], id)
  }

  lemma {:induction false} KeepSame(rows: Rows, p: Row -> bool, q: Row -> bool)
    requires forall i :: 0 <= i < |rows| ==> p(rows[i].1) == q(rows[i].1)
    ensures Keep(rows, p) == Keep(rows, q)
  {
    if rows != [] {
      assert forall i :: 0 <= i < |rows[1..]| ==> rows[1..][i] == rows[i + 1];
      KeepSame(rows[1..], p, q);
    }
  }

  lemma {:induction false} KeepByKey(rows: Rows, pk: nat, id: int, p: Row -> bool)
    requires forall i :: 0 <= i < |rows| ==> Get(rows[i].1, pk) == Integer(rows[i].0)
    requires forall i :: 0 <= i < |rows| ==> p(rows[i].1) == (Get(rows[i].1, pk) == Integer(id))
    ensures KeepIds(rows, id) == Keep(rows, p)
  {
    if rows != [] {
      assert forall i :: 0 <= i < |rows[1..]| ==> rows[1..][i] == rows[i + 1];
      KeepByKey(rows[1..], pk, id, p);
    }
  }

  function Accepts(es: seq<Expr>): Row -> bool {
    row => Conjunction(es, row) == Yes
  }

  /** Opens a read: for a primary-key equality the one row stored under it, else
      the scan filtered by the program's expressions. */
  method Open(table: Table, conds: seq<Node>) returns (r: Result<Rows>)
    requires ValidTable(table)
    ensures r.Ok? <==> Run(conds, []).Some?
    ensures r.Ok? ==> r.value == Keep(table.rows, Accepts(Run(conds, []).value))
  {
    if |conds| == 1 && conds[0].Cond? && conds[0].op == Eq && table.pk == Some(conds[0].column)
       && conds[0].operand.Integer? {
      ghost var one: seq<Expr> := [] + [Test(conds[0].column, Eq, conds[0].operand)];
      assert Push([], conds[0]) == Some(one) && Run(conds[1..], one) == Some(one);
      ghost var es := Run(conds, []).value;
      assert es == [] + [Test(conds[0].column, Eq, conds[0].operand)];
      forall i | 0 <= i < |table.rows|
        ensures Accepts(es)(table.rows[i].1) == (Get(table.rows[i].1, conds[0].column) == conds[0].operand)
      {
        ConjunctionYes(es, table.rows[i].1);
        OneYes(es[0], table.rows[i].1);
        CompareAntisymmetric(Get(table.rows[i].1, conds[0].column), conds[0].operand);
      }
      KeepByKey(table.rows, conds[0].column, conds[0].operand.i, Accepts(es));
      return Ok(KeepIds(table.rows, conds[0].operand.i));
    }
    var exprs: seq<Expr> := [];
    for i := 0 to |conds|
      invariant Run(conds[i..], exprs) == Run(conds, [])
    {
      assert conds[i..][0] == conds[i] && conds[i..][1..] == conds[i + 1..];
      match conds[i] {
        case Cond(column, op, operand) => exprs := exprs + [Test(column, op, operand)];
        case And(n) =>
          if n == 0 || n > |exprs| { return Err("condition joins missing operands"); }
          exprs := exprs[..|exprs| - n] + [AllOf(exprs[|exprs| - n..])];
        case Or(n) =>
          if n == 0 || n > |exprs| { return Err("condition joins missing operands"); }
          exprs := exprs[..|exprs| - n] + [AnyOf(exprs[|exprs| - n..])];
      }
    }
    assert conds[|conds|..] == [];
    return Ok(Keep(table.rows, Accepts(exprs)));
  }

  ghost predicate AllHold(parts: seq<Part>, bounds: seq<Bound>, k: nat, row: Row)
    requires k <= |bounds| && forall b :: 0 <= b < |bounds| ==> ValidBound(parts, bounds[b])
  {
    forall b :: 0 <= b < k ==> BoundHolds(parts, bounds[b], row)
  }

  ghost function Within(parts: seq<Part>, bounds: seq<Bound>): Row -> bool
    requires forall b :: 0 <= b < |bounds| ==> ValidBound(parts, bounds[b])
  {
    row => AllHold(parts, bounds, |bounds|, row)
  }

  lemma {:induction false} KeepNothing(rows: Rows, p: Row -> bool)
    requires forall i :: 0 <= i < |rows| ==> !p(rows[i].1)
    ensures Keep(rows, p) == []
  {
    if rows != [] {
      assert forall i :: 0 <= i < |rows[1..]| ==> rows[1..][i] == rows[i + 1];
      KeepNothing(rows[1..], p);
    }
  }

  /** Bounds compiled and read together, in table order; None where one of them
      admits nothing. */
  method Read(table: Table, parts: seq<Part>, bounds: seq<Bound>) returns (r: Result<Option<Rows>>)
    requires ValidTable(table)
    requires forall b :: 0 <= b < |bounds| ==> ValidBound(parts, bounds[b])
    ensures r.Err? ==> exists b, i :: 0 <= b < |bounds| && 0 <= i < |bounds[b].values| && bounds[b].values[i].Err?
    ensures r.Ok? ==>
              Keep(table.rows, Within(parts, bounds)) == if r.value.Some? then r.value.value else []
  {
    var conds: seq<Node> := [];
    ghost var es: seq<Expr> := [];
    YieldsNothing();
    for b := 0 to |bounds|
      invariant Yields(conds, es)
      invariant forall row :: AllYes(es, row) <==> AllHold(parts, bounds, b, row)
    {
      var some, more; ghost var fs;
      some, more, fs := BoundNodes(parts, bounds[b], conds);
      if some.Err? {
        return Err(some.message);
      }
      if !some.value {
        forall i | 0 <= i < |table.rows| ensures !Within(parts, bounds)(table.rows[i].1) {
          assert !BoundHolds(parts, bounds[b], table.rows[i].1);
        }
        KeepNothing(table.rows, Within(parts, bounds));
        return Ok(None);
      }
      YieldsConcat(conds, es, more[|conds|..], fs);
      assert conds + more[|conds|..] == more;
      forall row ensures AllYes(es + fs, row) <==> AllHold(parts, bounds, b + 1, row) {
        AllYesConcat(es, fs, row);
      }
      conds, es := more, es + fs;
    }
    assert Run(conds, []) == Some([] + es) && [] + es == es;
    var rows := Open(table, conds);
    forall i | 0 <= i < |table.rows|
      ensures Accepts(es)(table.rows[i].1) == Within(parts, bounds)(table.rows[i].1)
    {
      ConjunctionYes(es, table.rows[i].1);
    }
    KeepSame(table.rows, Accepts(es), Within(parts, bounds));
    return Ok(Some(rows.value));
  }
}
