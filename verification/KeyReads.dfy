/** Key reads of the handler (`ha_stoolap.cc`): which bounds go to the engine,
    what MariaDB's own key comparison still filters, and which parts of the
    index the rows are sorted by. */
module KeyReads {
  import opened Values
  import opened Sorting
  import opened KeyBounds
  import opened PadOrder

  // ------------------------------------------------- MariaDB's key comparison

  /** How the engine's text holds a string: as it is (UTF-8), or its bytes in
      hexadecimal, one or several to a character. */
  datatype Stored = AsIs | HexBytes | HexWide

  datatype Kind =
    | Plain
    | Str(binary: bool, binsort: bool, nopad: bool, stored: Stored)
    | Encoded  // DECIMAL, ENUM, SET

  /** A part of the active index. MariaDB compares its values by their weights
      (the collation's, the prefix's); the engine compares the values. */
  datatype KeyPart = KeyPart(f: Part, prefix: bool, kind: Kind, weight: Value -> Value)

  predicate NeedsFilter(kp: KeyPart, trustBin: bool) {
    kp.prefix || (kp.kind.Str? && !kp.kind.binary && !trustBin && !(kp.kind.binsort && kp.kind.nopad))
  }

  predicate PartPads(kp: KeyPart, trustBin: bool) {
    NeedsFilter(kp, trustBin) && !kp.prefix && kp.kind.Str? && kp.kind.binsort
  }

  /** HA_READ_ORDER of index_flags. */
  predicate OffersOrder(kp: KeyPart) {
    match kp.kind
    case Plain => true
    case Str(_, binsort, _, stored) => binsort && stored != HexWide
    case Encoded => false
  }

  predicate PartSafe(kp: KeyPart, trustBin: bool) {
    OffersOrder(kp) && !NeedsFilter(kp, trustBin)
  }

  /** The string a text of the part's column holds. */
  function TextOf(kp: KeyPart, s: seq<Byte>): seq<Byte>
    requires Readable(kp, s)
  {
    if kp.kind.Str? && kp.kind.stored == HexBytes then Unhex(s) else s
  }

  predicate Readable(kp: KeyPart, s: seq<Byte>) {
    kp.kind.Str? && kp.kind.stored == HexBytes ==> IsHex(s)
  }

  /** A padded part whose texts the engine sorts by the collation's bytes. */
  predicate PadOrdered(kp: KeyPart, trustBin: bool) {
    PartPads(kp, trustBin) && OffersOrder(kp)
  }

  /** MariaDB compares a part as the engine compares its stored values. */
  ghost predicate ByValue(kp: KeyPart) {
    forall x, y :: CompareValues(kp.weight(x), kp.weight(y)) == CompareValues(x, y)
  }

  /** MariaDB finds equal only what is stored alike. */
  ghost predicate OneToOne(kp: KeyPart) {
    forall x, y :: kp.weight(x) == kp.weight(y) ==> x == y
  }

  /** What MariaDB's comparison of a whole part is, by its type. Numbers and times
      compare by value. Encoded types have their own order, one text to a value.
      Strings compare by their bytes when they are binary, when the collation
      sorts by them and does not pad, or when the session asks for it; multi-byte
      characters in hexadecimal are then told apart only. A collation that sorts by
      bytes and pads compares as if the shorter went on with spaces. Of any other,
      and of a prefix, nothing is known but which values are NULL. Only a utf8mb4
      string is read as VARCHAR. */
  ghost predicate Faithful(kp: KeyPart, trustBin: bool) {
    && (forall x :: kp.weight(x) == Null <==> x == Null)
    && (kp.prefix ==> kp.kind.Str?)
    && (kp.f.varchar ==> kp.kind.Str? && kp.kind.stored == AsIs)
    && (!kp.prefix ==>
          match kp.kind
          case Plain => ByValue(kp)
          case Encoded => OneToOne(kp)
          case Str(binary, binsort, nopad, stored) =>
            if binary || trustBin || (binsort && nopad) then
              if stored == HexWide then OneToOne(kp) else ByValue(kp)
            else binsort && stored != HexWide ==> PadWeights(kp))
  }

  /** A part left to the engine is equal only where its values are. */
  lemma {:induction false} UnfilteredIsOneToOne(kp: KeyPart, trustBin: bool)
    requires Faithful(kp, trustBin) && !NeedsFilter(kp, trustBin)
    ensures OneToOne(kp)
  {
    if ByValue(kp) {
      ByValueIsOneToOne(kp);
    }
  }

  lemma {:induction false} ByValueIsOneToOne(kp: KeyPart)
    requires ByValue(kp)
    ensures OneToOne(kp)
  {
    forall x, y | kp.weight(x) == kp.weight(y)
      ensures x == y
    {
      CompareAntisymmetric(kp.weight(x), kp.weight(y));
      CompareAntisymmetric(x, y);
      assert CompareValues(kp.weight(x), kp.weight(y)) == CompareValues(x, y);
    }
  }

  /** A part the engine sorts and ranges over is ordered as its values are. */
  lemma {:induction false} SafeIsByValue(kp: KeyPart, trustBin: bool)
    requires Faithful(kp, trustBin) && PartSafe(kp, trustBin)
    ensures ByValue(kp)
  {
  }

  lemma {:induction false} PaddedWeights(kp: KeyPart, trustBin: bool)
    requires Faithful(kp, trustBin) && PartPads(kp, trustBin) && kp.kind.stored != HexWide
    ensures PadWeights(kp)
  {
  }

  ghost predicate PadWeights(kp: KeyPart) {
    forall s, t :: Readable(kp, s) && Readable(kp, t) ==>
      CompareValues(kp.weight(Text(s)), kp.weight(Text(t))) == ComparePadded(TextOf(kp, s), TextOf(kp, t))
  }

  /** Texts of a padded VARCHAR are equal but for trailing spaces. */
  lemma {:induction false} PadsEqual(kp: KeyPart, trustBin: bool, s: seq<Byte>, t: seq<Byte>)
    requires Faithful(kp, trustBin) && PartPads(kp, trustBin) && kp.f.varchar
    ensures kp.weight(Text(s)) == kp.weight(Text(t)) <==> TrimEnd(s) == TrimEnd(t)
  {
    PaddedWeights(kp, trustBin);
    assert CompareValues(kp.weight(Text(s)), kp.weight(Text(t))) == ComparePadded(TextOf(kp, s), TextOf(kp, t));
    CompareAntisymmetric(kp.weight(Text(s)), kp.weight(Text(t)));
    PaddedEqual(s, t);
  }

  ghost predicate AllFaithful(kps: seq<KeyPart>, trustBin: bool) {
    forall i :: 0 <= i < |kps| ==> Faithful(kps[i], trustBin)
  }

  /** A value the part's column can hold. */
  ghost predicate Fits(kp: KeyPart, x: Value) {
    && (x == Null ==> kp.f.nullable)
    && (kp.kind.Str? ==> x.Null? || x.Text?)
    && (kp.f.varchar && x.Text? ==> CharCount(x.s) <= kp.f.maxChars)
    && (x.Text? ==> Readable(kp, x.s))
  }

  function ValueIn(kp: KeyPart, row: Row): Value { Get(row, kp.f.column) }

  function WeightIn(kp: KeyPart, row: Row): Value { kp.weight(ValueIn(kp, row)) }

  function KeyOrder(kp: KeyPart, x: Value, k: KeyValue): Order {
    match k
    case NullKey => if x == Null then Same else After
    case Beyond => Before
    case Known(v) => CompareValues(kp.weight(x), kp.weight(v))
  }

  /** key_cmp: a row against a key's leading parts, from part i. */
  function KeyCmp(kps: seq<KeyPart>, row: Row, ks: seq<KeyValue>, i: nat): Order
    requires i <= |ks| <= |kps|
    decreases |ks| - i
  {
    if i == |ks| then Same
    else
      var o := KeyOrder(kps[i], ValueIn(kps[i], row), ks[i]);
      if o != Same then o else KeyCmp(kps, row, ks, i + 1)
  }

  /** Two rows in the order of the index's parts i to m. */
  function RowCmp(kps: seq<KeyPart>, a: Row, b: Row, i: nat, m: nat): Order
    requires i <= m <= |kps|
    decreases m - i
  {
    if i == m then Same
    else
      var o := CompareValues(WeightIn(kps[i], a), WeightIn(kps[i], b));
      if o != Same then o else RowCmp(kps, a, b, i + 1, m)
  }

  ghost predicate InKeyOrder(kps: seq<KeyPart>, rows: Rows, m: nat, desc: bool)
    requires m <= |kps|
  {
    forall i, j :: 0 <= i < j < |rows| ==> Directed(RowCmp(kps, rows[i].1, rows[j].1, 0, m), desc) != After
  }

  lemma {:induction false} SameKeySameWeight(kp: KeyPart, x: Value, y: Value, k: KeyValue)
    requires KeyOrder(kp, x, k) == Same && KeyOrder(kp, y, k) == Same
    ensures kp.weight(x) == kp.weight(y)
  {
    if k.Known? {
      CompareAntisymmetric(kp.weight(x), kp.weight(k.v));
      CompareAntisymmetric(kp.weight(y), kp.weight(k.v));
    }
  }

  lemma {:induction false} KeyCmpSame(kps: seq<KeyPart>, row: Row, ks: seq<KeyValue>, i: nat)
    requires i <= |ks| <= |kps|
    ensures KeyCmp(kps, row, ks, i) == Same <==>
            forall j :: i <= j < |ks| ==> KeyOrder(kps[j], ValueIn(kps[j], row), ks[j]) == Same
    decreases |ks| - i
  {
    if i < |ks| {
      KeyCmpSame(kps, row, ks, i + 1);
    }
  }

  // ------------------------------------------------------ order elision

  /** The columns of the parts i to stop that are not constant. */
  function OrderColumns(kps: seq<KeyPart>, constant: set<nat>, i: nat, stop: nat): seq<nat>
    requires i <= stop <= |kps|
    decreases stop - i
  {
    if i == stop then []
    else (if i in constant then [] else [kps[i].f.column]) + OrderColumns(kps, constant, i + 1, stop)
  }

  /** One part of the order. */
  lemma {:induction false} OrderStep(kps: seq<KeyPart>, constant: set<nat>, order: seq<nat>, i: nat)
    requires i < |kps|
    ensures order + OrderColumns(kps, constant, i, |kps|) ==
            (if i in constant then order else order + [kps[i].f.column]) + OrderColumns(kps, constant, i + 1, |kps|)
  {
  }

  lemma {:induction false} SafePartOrders(kps: seq<KeyPart>, trustBin: bool, a: Row, b: Row, i: nat)
    requires i < |kps| && AllFaithful(kps, trustBin) && PartSafe(kps[i], trustBin)
    ensures CompareValues(WeightIn(kps[i], a), WeightIn(kps[i], b)) ==
            CompareValues(ValueIn(kps[i], a), ValueIn(kps[i], b))
  {
    SafeIsByValue(kps[i], trustBin);
  }

  /** The first of the parts i to m that is not constant and whose values
      differ, m when there is none. */
  function FirstDifference(kps: seq<KeyPart>, constant: set<nat>, a: Row, b: Row, i: nat, m: nat): (p: nat)
    requires i <= m <= |kps|
    ensures i <= p <= m
    decreases m - i
  {
    if i == m || (i !in constant && ValueIn(kps[i], a) != ValueIn(kps[i], b)) then i
    else FirstDifference(kps, constant, a, b, i + 1, m)
  }

  /** The strings of two rows in a part, in the read's direction. */
  function Strings(kp: KeyPart, a: Row, b: Row, desc: bool): Option<(seq<Byte>, seq<Byte>)> {
    var x, y := if desc then ValueIn(kp, b) else ValueIn(kp, a), if desc then ValueIn(kp, a) else ValueIn(kp, b);
    if x.Text? && y.Text? && Readable(kp, x.s) && Readable(kp, y.s)
    then Some((TextOf(kp, x.s), TextOf(kp, y.s))) else None
  }

  /** The engine's bytes put `a` before `b` and MariaDB does not: the first part
      they differ in pads, and its one string goes on past the other with spaces
      only, while the parts after it are the other way round, or with spaces and
      then a byte below them. */
  ghost predicate Misordered(kps: seq<KeyPart>, trustBin: bool, constant: set<nat>, a: Row, b: Row, m: nat, desc: bool)
    requires m <= |kps|
  {
    var p := FirstDifference(kps, constant, a, b, 0, m);
    p < m && PartPads(kps[p], trustBin) &&
    var texts := Strings(kps[p], a, b, desc);
    texts.Some? && Overtakes(texts.value.0, texts.value.1) &&
    (AllSpaces(texts.value.1[|texts.value.0|..]) ==> Directed(RowCmp(kps, a, b, p + 1, m), desc) == After)
  }

  /** The parts MariaDB takes an order from: whole ones index_flags offers it on,
      or constant ones. */
  ghost predicate OffersBut(kps: seq<KeyPart>, constant: set<nat>, m: nat) {
    m <= |kps| && forall j :: 0 <= j < m && j !in constant ==> OffersOrder(kps[j]) && !kps[j].prefix
  }

  /** One weight in each constant part. */
  ghost predicate SameConstants(kps: seq<KeyPart>, constant: set<nat>, a: Row, b: Row, m: nat)
    requires m <= |kps|
  {
    forall j :: 0 <= j < m && j in constant ==> WeightIn(kps[j], a) == WeightIn(kps[j], b)
  }

  /** Up to the first difference both orders see nothing. */
  lemma {:induction false} UpToDifference(kps: seq<KeyPart>, constant: set<nat>, a: Row, b: Row, i: nat, m: nat, stop: nat)
    requires i <= m <= stop <= |kps| && SameConstants(kps, constant, a, b, m)
    ensures var p := FirstDifference(kps, constant, a, b, i, m);
            && RowCmp(kps, a, b, i, m) == RowCmp(kps, a, b, p, m)
            && (p < m ==> p !in constant && ValueIn(kps[p], a) != ValueIn(kps[p], b) &&
                          CompareBy(a, b, OrderColumns(kps, constant, i, stop)) ==
                          CompareValues(ValueIn(kps[p], a), ValueIn(kps[p], b)))
    decreases m - i
  {
    if i < m {
      var columns, rest := OrderColumns(kps, constant, i, stop), OrderColumns(kps, constant, i + 1, stop);
      CompareAntisymmetric(ValueIn(kps[i], a), ValueIn(kps[i], b));
      if i in constant {
        assert columns == rest;
      } else {
        assert columns == [kps[i].f.column] + rest && columns[1..] == rest;
      }
      if i in constant || ValueIn(kps[i], a) == ValueIn(kps[i], b) {
        CompareAntisymmetric(WeightIn(kps[i], a), WeightIn(kps[i], b));
        UpToDifference(kps, constant, a, b, i + 1, m, stop);
      }
    }
  }

  /** At a padded part: MariaDB's verdict on two values in byte order. */
  lemma {:induction false} PaddedPart(kp: KeyPart, trustBin: bool, a: Row, b: Row, desc: bool)
    requires Faithful(kp, trustBin) && PadOrdered(kp, trustBin)
    requires Fits(kp, ValueIn(kp, a)) && Fits(kp, ValueIn(kp, b))
    requires Directed(CompareValues(ValueIn(kp, a), ValueIn(kp, b)), desc) == Before
    ensures var texts := Strings(kp, a, b, desc);
            Directed(CompareValues(WeightIn(kp, a), WeightIn(kp, b)), desc) ==
            if texts.None? || !Overtakes(texts.value.0, texts.value.1) then Before
            else if AllSpaces(texts.value.1[|texts.value.0|..]) then Same else After
  {
    var x, y := if desc then ValueIn(kp, b) else ValueIn(kp, a), if desc then ValueIn(kp, a) else ValueIn(kp, b);
    CompareAntisymmetric(x, y);
    CompareAntisymmetric(kp.weight(x), kp.weight(y));
    PaddedWeights(kp, trustBin);
    if x.Text? && y.Text? {
      assert CompareValues(kp.weight(Text(x.s)), kp.weight(Text(y.s))) ==
             ComparePadded(TextOf(kp, x.s), TextOf(kp, y.s));
      if kp.kind.stored == HexBytes {
        HexOrders(x.s, y.s);
      }
      PaddedVerdict(TextOf(kp, x.s), TextOf(kp, y.s));
    } else {
      assert x == Null && y != Null;
    }
  }

  /** Two rows sorted by the columns left are out of MariaDB's whole-key order
      if and only if they are misordered. */
  lemma {:induction false} SortedPair(kps: seq<KeyPart>, trustBin: bool, constant: set<nat>, a: Row, b: Row,
                                      m: nat, stop: nat, desc: bool)
    requires m <= stop <= |kps| && AllFaithful(kps, trustBin) && OffersBut(kps, constant, m)
    requires RowFits(kps, a) && RowFits(kps, b) && SameConstants(kps, constant, a, b, m)
    requires Directed(CompareBy(a, b, OrderColumns(kps, constant, 0, stop)), desc) != After
    ensures Directed(RowCmp(kps, a, b, 0, m), desc) == After <==>
            Misordered(kps, trustBin, constant, a, b, m, desc)
  {
    var p := FirstDifference(kps, constant, a, b, 0, m);
    UpToDifference(kps, constant, a, b, 0, m, stop);
    if p < m {
      var kp := kps[p];
      assert Faithful(kp, trustBin) && Fits(kp, ValueIn(kp, a)) && Fits(kp, ValueIn(kp, b));
      CompareAntisymmetric(ValueIn(kp, a), ValueIn(kp, b));
      if PartPads(kp, trustBin) {
        PaddedPart(kp, trustBin, a, b, desc);
      } else {
        SafePartOrders(kps, trustBin, a, b, p);
      }
    }
  }

  /** Two rows the WHERE's constant parts do not tell apart. */
  ghost predicate SameWhere(kps: seq<KeyPart>, whereConst: set<nat>, a: Row, b: Row) {
    forall i :: i in whereConst && i < |kps| ==> WeightIn(kps[i], a) == WeightIn(kps[i], b)
  }

  /** The rows are sorted by the parts before `stop` that are not constant. Of
      any two the WHERE's constant parts do not tell apart, those out of the
      index's order are exactly the misordered ones. */
  ghost predicate OrderedRead(kps: seq<KeyPart>, trustBin: bool, constant: set<nat>, stop: nat, whereConst: set<nat>,
                              rows: Rows, desc: bool)
    requires stop <= |kps|
  {
    && Sorted(rows, OrderColumns(kps, constant, 0, stop), desc)
    && forall m, i, j :: OrderedPair(kps, trustBin, constant, whereConst, rows, m, i, j, desc)
  }

  ghost predicate OrderedPair(kps: seq<KeyPart>, trustBin: bool, constant: set<nat>, whereConst: set<nat>,
                              rows: Rows, m: nat, i: nat, j: nat, desc: bool)
  {
    OffersBut(kps, constant, m) && i < j < |rows| && SameWhere(kps, whereConst, rows[i].1, rows[j].1) ==>
      (Directed(RowCmp(kps, rows[i].1, rows[j].1, 0, m), desc) == After <==>
       Misordered(kps, trustBin, constant, rows[i].1, rows[j].1, m, desc))
  }

  /** An ordered read comes in MariaDB's order if and only if no two of its rows
      are misordered, and so whenever no part it is sorted by pads. */
  lemma {:induction false} ReadInKeyOrder(kps: seq<KeyPart>, trustBin: bool, constant: set<nat>, rows: Rows,
                                          m: nat, desc: bool)
    requires OrderedRead(kps, trustBin, constant, |kps|, {}, rows, desc) && OffersBut(kps, constant, m)
    ensures InKeyOrder(kps, rows, m, desc) <==>
            forall i, j :: 0 <= i < j < |rows| ==>
                             !Misordered(kps, trustBin, constant, rows[i].1, rows[j].1, m, desc)
    ensures (forall j :: 0 <= j < m && j !in constant ==> PartSafe(kps[j], trustBin)) ==>
              InKeyOrder(kps, rows, m, desc)
  {
    forall i, j | 0 <= i < j < |rows|
      ensures Directed(RowCmp(kps, rows[i].1, rows[j].1, 0, m), desc) == After <==>
              Misordered(kps, trustBin, constant, rows[i].1, rows[j].1, m, desc)
    {
      assert OrderedPair(kps, trustBin, constant, {}, rows, m, i, j, desc);
    }
    if forall j :: 0 <= j < m && j !in constant ==> PartSafe(kps[j], trustBin) {
      forall i, j | 0 <= i < j < |rows|
        ensures !Misordered(kps, trustBin, constant, rows[i].1, rows[j].1, m, desc)
      {
        UpToFirst(kps, constant, rows[i].1, rows[j].1, 0, m);
      }
    }
  }

  lemma {:induction false} UpToFirst(kps: seq<KeyPart>, constant: set<nat>, a: Row, b: Row, i: nat, m: nat)
    requires i <= m <= |kps|
    ensures var p := FirstDifference(kps, constant, a, b, i, m); p < m ==> p !in constant
    decreases m - i
  {
    if i < m {
      UpToFirst(kps, constant, a, b, i + 1, m);
    }
  }

  // ------------------------------------------------------------ filtered rows

  lemma {:induction false} KeepMembers(rows: Rows, p: Row -> bool, x: (int, Row))
    ensures x in Keep(rows, p) <==> x in rows && p(x.1)
    ensures multiset(Keep(rows, p))[x] == if p(x.1) then multiset(rows)[x] else 0
  {
    if rows != [] {
      assert rows == [rows[0]] + rows[1..];
      KeepMembers(rows[1..], p, x);
    }
  }

  /** Filtering by q what p kept of the rows, in any order, is filtering the
      rows by r, when q and p together mean r. */
  lemma {:induction false} FilteredReorder(rows: Rows, kept: Rows, p: Row -> bool, q: Row -> bool, r: Row -> bool)
    requires multiset(kept) == multiset(Keep(rows, p))
    requires forall x :: x in rows ==> (p(x.1) && q(x.1) <==> r(x.1))
    ensures multiset(Keep(kept, q)) == multiset(Keep(rows, r))
  {
    forall x ensures multiset(Keep(kept, q))[x] == multiset(Keep(rows, r))[x] {
      KeepMembers(kept, q, x);
      KeepMembers(rows, p, x);
      KeepMembers(rows, r, x);
      assert x !in rows ==> multiset(rows)[x] == 0;
    }
  }

  lemma {:induction false} KeepStaysSorted(rows: Rows, p: Row -> bool, columns: seq<nat>, desc: bool)
    requires Sorted(rows, columns, desc)
    ensures Sorted(Keep(rows, p), columns, desc)
  {
    if rows != [] {
      var tail := rows[1..];
      assert forall i :: 0 <= i < |tail| ==> tail[i] == rows[i + 1];
      KeepStaysSorted(tail, p, columns, desc);
      if p(rows[0].1) {
        var rest := Keep(tail, p);
        forall j | 0 <= j < |rest| ensures Directed(CompareBy(rows[0].1, rest[j].1, columns), desc) != After {
          KeepMembers(tail, p, rest[j]);
        }
        assert Keep(rows, p) == [rows[0]] + rest;
      } else {
        assert Keep(rows, p) == Keep(tail, p);
      }
    }
  }

  // ------------------------------------------------------------ exact lookups

  datatype FindFlag = KeyExact | KeyPrefix | KeyOrNext | AfterKey | KeyOrPrev | BeforeKey | OtherFlag

  function PartsOf(kps: seq<KeyPart>): seq<Part> {
    seq(|kps|, i requires 0 <= i < |kps| => kps[i].f)
  }

  /** A bound over the leading parts a key gives. */
  function KeyBound(kps: seq<KeyPart>, ks: seq<KeyValue>, n: nat, op: Op, skip: set<nat>, pad: set<nat>, mode: Mode): Bound {
    Bound(seq(|kps|, i requires 0 <= i < |kps| => if i < |ks| then Ok(ks[i]) else Ok(NullKey)), n, op, skip, pad, mode)
  }

  ghost predicate ValidKeys(ks: seq<KeyValue>) {
    forall i :: 0 <= i < |ks| ==> ValidKey(ks[i])
  }

  function FilterMask(kps: seq<KeyPart>, n: nat, trustBin: bool): set<nat>
    requires n <= |kps|
  {
    set i: nat | i < n && NeedsFilter(kps[i], trustBin)
  }

  function PadMask(kps: seq<KeyPart>, n: nat, trustBin: bool): set<nat>
    requires n <= |kps|
  {
    set i: nat | i < n && PartPads(kps[i], trustBin)
  }

  ghost predicate RowFits(kps: seq<KeyPart>, row: Row) {
    forall i :: 0 <= i < |kps| ==> Fits(kps[i], ValueIn(kps[i], row))
  }

  function MatchesKey(kps: seq<KeyPart>, ks: seq<KeyValue>): Row -> bool
    requires |ks| <= |kps|
  {
    row => KeyCmp(kps, row, ks, 0) == Same
  }

  /** One part of an exact lookup: the engine's test lets every match through,
      and decides it alone when the part needs no filter. */
  lemma {:induction false} ExactPart(kps: seq<KeyPart>, ks: seq<KeyValue>, trustBin: bool, i: nat, row: Row)
    requires i < |ks| <= |kps| && ValidKeys(ks) && AllFaithful(kps, trustBin) && RowFits(kps, row)
    ensures var bound := KeyBound(kps, ks, |ks|, OpEq, FilterMask(kps, |ks|, trustBin), PadMask(kps, |ks|, trustBin), Key);
            ValidBound(PartsOf(kps), bound) && BoundParts(PartsOf(kps), bound) == |ks| &&
            (KeyOrder(kps[i], ValueIn(kps[i], row), ks[i]) == Same ==>
               LookupPartHolds(PartsOf(kps), bound, i, row, false)) &&
            (!NeedsFilter(kps[i], trustBin) && LookupPartHolds(PartsOf(kps), bound, i, row, false) ==>
               KeyOrder(kps[i], ValueIn(kps[i], row), ks[i]) == Same)
  {
    var kp, x, k := kps[i], ValueIn(kps[i], row), ks[i];
    assert Faithful(kp, trustBin) && Fits(kp, x) && ValidKey(k);
    if k.Known? {
      CompareAntisymmetric(kp.weight(x), kp.weight(k.v));
      CompareAntisymmetric(x, k.v);
      if !NeedsFilter(kp, trustBin) {
        UnfilteredIsOneToOne(kp, trustBin);
      }
      if PartPads(kp, trustBin) && kp.f.varchar && k.v.Text? && kp.weight(x) == kp.weight(k.v) {
        PadsEqual(kp, trustBin, x.s, k.v.s);
        PadFindsEveryMatch(kp.f, k.v.s, x.s);
      }
    }
  }

  /** An exact lookup's bound lets every match through; with no filtered part it
      lets nothing else through. */
  lemma {:induction false} ExactLookup(kps: seq<KeyPart>, ks: seq<KeyValue>, trustBin: bool, row: Row)
    requires 0 < |ks| <= |kps| && ValidKeys(ks) && AllFaithful(kps, trustBin) && RowFits(kps, row)
    ensures var filter := FilterMask(kps, |ks|, trustBin);
            var bound := KeyBound(kps, ks, |ks|, OpEq, filter, PadMask(kps, |ks|, trustBin), Key);
            ValidBound(PartsOf(kps), bound) &&
            (MatchesKey(kps, ks)(row) ==> BoundHolds(PartsOf(kps), bound, row)) &&
            (filter == {} ==> (MatchesKey(kps, ks)(row) <==> BoundHolds(PartsOf(kps), bound, row)))
  {
    var filter := FilterMask(kps, |ks|, trustBin);
    KeyCmpSame(kps, row, ks, 0);
    forall i | 0 <= i < |ks| {
      ExactPart(kps, ks, trustBin, i, row);
    }
    if filter == {} {
      forall i: nat | i < |ks| ensures !NeedsFilter(kps[i], trustBin) {
        assert NeedsFilter(kps[i], trustBin) ==> i in filter;
      }
    }
  }

  /** The parts an index read leaves out of its order. */
  function ConstantParts(n: nat, lastEq: bool, filter: set<nat>): set<nat> {
    set i: nat | i < n && (i in filter || i + 1 < n || lastEq)
  }

  /** Each dropped part has one weight over the rows: bound by `=` (or IS NULL),
      or matched by the filter. */
  lemma {:induction false} DroppedPartsAreConstant(kps: seq<KeyPart>, ks: seq<KeyValue>, op: Op, filter: set<nat>, pad: set<nat>,
                                a: Row, b: Row, i: nat)
    requires 0 < |ks| <= |kps| && ValidKeys(ks) && i in ConstantParts(|ks|, op == OpEq, filter)
    requires var bound := KeyBound(kps, ks, |ks|, op, filter, pad, Key);
             ValidBound(PartsOf(kps), bound) &&
             BoundHolds(PartsOf(kps), bound, a) && BoundHolds(PartsOf(kps), bound, b)
    requires filter != {} ==> MatchesKey(kps, ks)(a) && MatchesKey(kps, ks)(b)
    ensures WeightIn(kps[i], a) == WeightIn(kps[i], b)
  {
    var kp, k := kps[i], ks[i];
    if i in filter {
      KeyCmpSame(kps, a, ks, 0);
      KeyCmpSame(kps, b, ks, 0);
      SameKeySameWeight(kp, ValueIn(kp, a), ValueIn(kp, b), k);
    } else {
      var bound := KeyBound(kps, ks, |ks|, op, filter, pad, Key);
      assert LookupPartHolds(PartsOf(kps), bound, i, a, false);
      assert LookupPartHolds(PartsOf(kps), bound, i, b, false);
      assert PartMeets(OpEq, ValueIn(kp, a), k, false) && PartMeets(OpEq, ValueIn(kp, b), k, false);
      if k.Known? {
        CompareAntisymmetric(ValueIn(kp, a), k.v);
        CompareAntisymmetric(ValueIn(kp, b), k.v);
      }
    }
  }

  function OpOf(flag: FindFlag): Op {
    match flag
    case KeyOrNext => OpGe
    case AfterKey => OpGt
    case KeyOrPrev => OpLe
    case BeforeKey => OpLt
    case _ => OpEq
  }

  predicate Backward(flag: FindFlag) { flag == KeyOrPrev || flag == BeforeKey }

  /** The parts whose comparison MariaDB decides. */
  function MaskOf(kps: seq<KeyPart>, n: nat, trustBin: bool, flag: FindFlag): set<nat>
    requires n <= |kps|
  {
    if flag == KeyExact then FilterMask(kps, n, trustBin) else {}
  }

  /** Whether a flag asks for what lies so from the key. */
  predicate Asks(flag: FindFlag, o: Order) {
    match flag
    case KeyOrNext => o != Before
    case AfterKey => o == After
    case KeyOrPrev => o != After
    case BeforeKey => o == Before
    case _ => o == Same
  }

  lemma {:induction false} OpAsks(flag: FindFlag, o: Order)
    ensures Meets(OpOf(flag), o) <==> Asks(flag, o)
    ensures Upper(OpOf(flag)) <==> flag == KeyOrPrev || flag == BeforeKey
    ensures OpOf(flag) == OpEq <==> (flag == KeyExact || flag == KeyPrefix || flag == OtherFlag)
  {
  }

  /** The rows a lookup asks for: its key's in the parts before the last, and on
      the flag's side of it there. One going backward leaves NULLs out of what is
      below a value. */
  function Bounded(kps: seq<KeyPart>, ks: seq<KeyValue>, flag: FindFlag): Row -> bool
    requires 0 < |ks| <= |kps|
  {
    row =>
      var last := |ks| - 1;
      var x, k := ValueIn(kps[last], row), ks[last];
      && (forall i :: 0 <= i < last ==> KeyOrder(kps[i], ValueIn(kps[i], row), ks[i]) == Same)
      && Asks(flag, KeyOrder(kps[last], x, k))
      && !((flag == KeyOrPrev || flag == BeforeKey) && x == Null && k.Known?)
  }

  /** The engine compares the parts of the lookup as MariaDB does. */
  ghost predicate Comparable(kps: seq<KeyPart>, n: nat, flag: FindFlag)
    requires n <= |kps|
  {
    forall i :: 0 <= i < n ==>
      if flag == KeyExact || flag == KeyPrefix || i + 1 < n then OneToOne(kps[i]) else ByValue(kps[i])
  }

  ghost predicate KeepNull(kps: seq<KeyPart>) {
    forall i, x :: 0 <= i < |kps| ==> (kps[i].weight(x) == Null <==> x == Null)
  }

  lemma {:induction false} EqualPart(kp: KeyPart, x: Value, k: KeyValue)
    requires ValidKey(k) && OneToOne(kp) && (forall v :: kp.weight(v) == Null <==> v == Null)
    ensures PartMeets(OpEq, x, k, false) <==> KeyOrder(kp, x, k) == Same
  {
    if k.Known? {
      CompareAntisymmetric(x, k.v);
      CompareAntisymmetric(kp.weight(x), kp.weight(k.v));
    }
  }

  lemma {:induction false} OrderedPart(kp: KeyPart, x: Value, k: KeyValue, flag: FindFlag)
    requires ValidKey(k) && ByValue(kp)
    ensures PartMeets(OpOf(flag), x, k, false) <==>
            Asks(flag, KeyOrder(kp, x, k)) && !((flag == KeyOrPrev || flag == BeforeKey) && x == Null && k.Known?)
  {
    OpAsks(flag, KeyOrder(kp, x, k));
    if k.Known? {
      assert CompareValues(kp.weight(x), kp.weight(k.v)) == CompareValues(x, k.v);
    }
  }

  lemma {:induction false} BoundIsBounded(kps: seq<KeyPart>, ks: seq<KeyValue>, flag: FindFlag, row: Row)
    requires 0 < |ks| <= |kps| && ValidKeys(ks) && KeepNull(kps) && Comparable(kps, |ks|, flag) && flag != OtherFlag
    ensures var bound := KeyBound(kps, ks, |ks|, OpOf(flag), {}, {}, Key);
            ValidBound(PartsOf(kps), bound) && (BoundHolds(PartsOf(kps), bound, row) <==> Bounded(kps, ks, flag)(row))
  {
    var op := OpOf(flag);
    var bound := KeyBound(kps, ks, |ks|, op, {}, {}, Key);
    var last := |ks| - 1;
    OpAsks(flag, Same);
    forall i: nat | i < |ks|
      ensures LookupPartHolds(PartsOf(kps), bound, i, row, false) <==>
              if i < last then KeyOrder(kps[i], ValueIn(kps[i], row), ks[i]) == Same
              else Asks(flag, KeyOrder(kps[i], ValueIn(kps[i], row), ks[i])) &&
                   !((flag == KeyOrPrev || flag == BeforeKey) && ValueIn(kps[i], row) == Null && ks[i].Known?)
    {
      assert ValidKey(ks[i]);
      if i < last || op == OpEq {
        EqualPart(kps[i], ValueIn(kps[i], row), ks[i]);
      } else {
        OrderedPart(kps[i], ValueIn(kps[i], row), ks[i], flag);
      }
    }
  }

  /** A lookup the engine answers alone gives the rows it asks for. */
  lemma {:induction false} BoundedReadIsComplete(kps: seq<KeyPart>, ks: seq<KeyValue>, flag: FindFlag, rows: Rows, read: Rows)
    requires 0 < |ks| <= |kps| && ValidKeys(ks) && KeepNull(kps) && Comparable(kps, |ks|, flag) && flag != OtherFlag
    requires var bound := KeyBound(kps, ks, |ks|, OpOf(flag), {}, {}, Key);
             ValidBound(PartsOf(kps), bound) &&
             multiset(read) == multiset(Keep(rows, Within(PartsOf(kps), [bound])))
    ensures multiset(read) == multiset(Keep(rows, Bounded(kps, ks, flag)))
    ensures read == [] ==> Keep(rows, Bounded(kps, ks, flag)) == []
  {
    var bound := KeyBound(kps, ks, |ks|, OpOf(flag), {}, {}, Key);
    forall i | 0 <= i < |rows|
      ensures Within(PartsOf(kps), [bound])(rows[i].1) == Bounded(kps, ks, flag)(rows[i].1)
    {
      BoundIsBounded(kps, ks, flag, rows[i].1);
      OneBound(PartsOf(kps), bound, rows[i].1);
    }
    KeepSame(rows, Within(PartsOf(kps), [bound]), Bounded(kps, ks, flag));
    if read == [] {
      EmptyMultiset(Keep(rows, Bounded(kps, ks, flag)));
    }
  }

  /** What a lookup gives: the exact one the rows with its key, any other the
      rows it asks for when the engine compares its parts as MariaDB does. */
  ghost predicate Gives(kps: seq<KeyPart>, rows: Rows, ks: seq<KeyValue>, flag: FindFlag, given: Rows)
    requires 0 < |ks| <= |kps|
  {
    && (flag == KeyExact ==> multiset(given) == multiset(Keep(rows, MatchesKey(kps, ks))))
    && (flag != KeyExact && Comparable(kps, |ks|, flag) ==>
          multiset(given) == multiset(Keep(rows, Bounded(kps, ks, flag))))
  }

  lemma {:induction false} KeyReadGives(kps: seq<KeyPart>, ks: seq<KeyValue>, trustBin: bool, flag: FindFlag, bound: Bound,
                                        rows: Rows, read: Rows)
    requires 0 < |ks| <= |kps| && ValidKeys(ks) && AllFaithful(kps, trustBin) && flag != OtherFlag
    requires forall r :: r in rows ==> RowFits(kps, r.1)
    requires bound == KeyBound(kps, ks, |ks|, OpOf(flag), MaskOf(kps, |ks|, trustBin, flag),
                               if flag == KeyExact then PadMask(kps, |ks|, trustBin) else {}, Key)
    requires ValidBound(PartsOf(kps), bound)
    requires multiset(read) == multiset(Keep(rows, Within(PartsOf(kps), [bound])))
    ensures Gives(kps, rows, ks, flag, Keep(read, KeyFilter(kps, ks, bound.skip)))
  {
    if flag == KeyExact {
      ExactReadIsComplete(kps, ks, trustBin, rows, read);
    } else {
      KeepEverything(read);
      if Comparable(kps, |ks|, flag) {
        assert forall i :: 0 <= i < |kps| ==> Faithful(kps[i], trustBin);
        BoundedReadIsComplete(kps, ks, flag, rows, read);
      }
    }
  }

  lemma {:induction false} KeepEverything(rows: Rows)
    ensures Keep(rows, Everything()) == rows
  {
    if rows != [] {
      KeepEverything(rows[1..]);
    }
  }

  lemma {:induction false} AllConstant(kps: seq<KeyPart>, constant: set<nat>, i: nat)
    requires i <= |kps| && forall j :: i <= j < |kps| ==> j in constant
    ensures OrderColumns(kps, constant, i, |kps|) == []
    decreases |kps| - i
  {
    if i < |kps| {
      AllConstant(kps, constant, i + 1);
    }
  }

  /** Bounds whose every part was read. */
  ghost predicate AllRead(kps: seq<KeyPart>, bounds: seq<Bound>) {
    forall b :: 0 <= b < |bounds| ==>
                  ValidBound(PartsOf(kps), bounds[b]) &&
                  forall i :: 0 <= i < |bounds[b].values| ==> bounds[b].values[i].Ok?
  }

  lemma {:induction false} KeyBoundValid(kps: seq<KeyPart>, ks: seq<KeyValue>, n: nat, op: Op, skip: set<nat>, pad: set<nat>, mode: Mode)
    requires ValidKeys(ks)
    ensures AllRead(kps, [KeyBound(kps, ks, n, op, skip, pad, mode)])
    ensures ValidBound(PartsOf(kps), KeyBound(kps, ks, n, op, skip, pad, mode))
  {
  }

  lemma {:induction false} EmptyMultiset(rows: Rows)
    requires multiset(rows) == multiset{}
    ensures rows == []
  {
    assert |rows| == |multiset(rows)|;
  }

  function Everything(): Row -> bool { _ => true }

  /** What the filter of a key read keeps: everything, when it has none. */
  function KeyFilter(kps: seq<KeyPart>, ks: seq<KeyValue>, mask: set<nat>): Row -> bool
    requires |ks| <= |kps|
  {
    if mask == {} then Everything() else MatchesKey(kps, ks)
  }

  /** The engine's candidates through the filter are the rows MariaDB's key
      comparison matches, each once. */
  lemma {:induction false} ExactReadIsComplete(kps: seq<KeyPart>, ks: seq<KeyValue>, trustBin: bool, rows: Rows, read: Rows)
    requires 0 < |ks| <= |kps| && ValidKeys(ks) && AllFaithful(kps, trustBin)
    requires forall r :: r in rows ==> RowFits(kps, r.1)
    requires var bound := KeyBound(kps, ks, |ks|, OpEq, FilterMask(kps, |ks|, trustBin), PadMask(kps, |ks|, trustBin), Key);
             ValidBound(PartsOf(kps), bound) &&
             multiset(read) == multiset(Keep(rows, Within(PartsOf(kps), [bound])))
    ensures multiset(Keep(read, KeyFilter(kps, ks, FilterMask(kps, |ks|, trustBin)))) ==
            multiset(Keep(rows, MatchesKey(kps, ks)))
    ensures read == [] ==> Keep(rows, MatchesKey(kps, ks)) == []
  {
    var mask := FilterMask(kps, |ks|, trustBin);
    var bound := KeyBound(kps, ks, |ks|, OpEq, mask, PadMask(kps, |ks|, trustBin), Key);
    var within := Within(PartsOf(kps), [bound]);
    forall x | x in rows
      ensures within(x.1) && KeyFilter(kps, ks, mask)(x.1) <==> MatchesKey(kps, ks)(x.1)
    {
      ExactLookup(kps, ks, trustBin, x.1);
      OneBound(PartsOf(kps), bound, x.1);
    }
    FilteredReorder(rows, read, within, KeyFilter(kps, ks, mask), MatchesKey(kps, ks));
    if read == [] {
      EmptyMultiset(Keep(rows, MatchesKey(kps, ks)));
    }
  }

  lemma {:induction false} OneBound(parts: seq<Part>, bound: Bound, row: Row)
    requires ValidBound(parts, bound)
    ensures Within(parts, [bound])(row) <==> BoundHolds(parts, bound, row)
  {
    assert AllHold(parts, [bound], 1, row) <==> BoundHolds(parts, [bound][0], row);
  }

  /** What an open key read gives, in the order it gives it: every part its
      order leaves out is constant over the rows, so they are out of the index's
      order only where two are misordered. */
  lemma {:induction false} KeyReadInOrder(kps: seq<KeyPart>, ks: seq<KeyValue>, trustBin: bool, bound: Bound, rows: Rows, read: Rows,
                       order: seq<nat>, desc: bool)
    requires 0 < |ks| <= |kps| && ValidKeys(ks) && AllFaithful(kps, trustBin)
    requires forall r :: r in rows ==> RowFits(kps, r.1)
    requires bound == KeyBound(kps, ks, |ks|, bound.op, bound.skip, bound.pad, Key) && ValidBound(PartsOf(kps), bound)
    requires multiset(read) == multiset(Keep(rows, Within(PartsOf(kps), [bound])))
    requires forall i :: i in bound.skip ==> i < |ks|
    requires order == OrderColumns(kps, ConstantParts(|ks|, bound.op == OpEq, bound.skip), 0, |kps|)
    requires order != [] ==> Sorted(read, order, desc)
    ensures OrderedRead(kps, trustBin, ConstantParts(|ks|, bound.op == OpEq, bound.skip), |kps|, {},
                        Keep(read, KeyFilter(kps, ks, bound.skip)), desc)
  {
    var constant := ConstantParts(|ks|, bound.op == OpEq, bound.skip);
    var keep := KeyFilter(kps, ks, bound.skip);
    var got := Keep(read, keep);
    assert Sorted(read, order, desc);
    KeepStaysSorted(read, keep, order, desc);
    forall m: nat, i: nat, j: nat
      ensures OrderedPair(kps, trustBin, constant, {}, got, m, i, j, desc)
    {
      if OffersBut(kps, constant, m) && i < j < |got| {
        assert got[i] in got && got[j] in got;
        assert Directed(CompareBy(got[i].1, got[j].1, order), desc) != After;
        KeyReadPair(kps, ks, trustBin, bound, rows, read, got[i], got[j], m, desc);
      }
    }
  }

  lemma {:induction false} KeyReadPair(kps: seq<KeyPart>, ks: seq<KeyValue>, trustBin: bool, bound: Bound, rows: Rows, read: Rows,
                                       a: (int, Row), b: (int, Row), m: nat, desc: bool)
    requires 0 < |ks| <= |kps| && ValidKeys(ks) && AllFaithful(kps, trustBin)
    requires forall r :: r in rows ==> RowFits(kps, r.1)
    requires bound == KeyBound(kps, ks, |ks|, bound.op, bound.skip, bound.pad, Key) && ValidBound(PartsOf(kps), bound)
    requires multiset(read) == multiset(Keep(rows, Within(PartsOf(kps), [bound])))
    requires forall i :: i in bound.skip ==> i < |ks|
    requires a in Keep(read, KeyFilter(kps, ks, bound.skip)) && b in Keep(read, KeyFilter(kps, ks, bound.skip))
    requires var constant := ConstantParts(|ks|, bound.op == OpEq, bound.skip);
             OffersBut(kps, constant, m) &&
             Directed(CompareBy(a.1, b.1, OrderColumns(kps, constant, 0, |kps|)), desc) != After
    ensures var constant := ConstantParts(|ks|, bound.op == OpEq, bound.skip);
            Directed(RowCmp(kps, a.1, b.1, 0, m), desc) == After <==> Misordered(kps, trustBin, constant, a.1, b.1, m, desc)
  {
    ReadRowMeets(kps, ks, bound, rows, read, a);
    ReadRowMeets(kps, ks, bound, rows, read, b);
    ReadConstants(kps, ks, bound, a.1, b.1, m);
    SortedPair(kps, trustBin, ConstantParts(|ks|, bound.op == OpEq, bound.skip), a.1, b.1, m, |kps|, desc);
  }

  lemma {:induction false} ReadConstants(kps: seq<KeyPart>, ks: seq<KeyValue>, bound: Bound, a: Row, b: Row, m: nat)
    requires 0 < |ks| <= |kps| && ValidKeys(ks) && m <= |kps|
    requires bound == KeyBound(kps, ks, |ks|, bound.op, bound.skip, bound.pad, Key) && ValidBound(PartsOf(kps), bound)
    requires forall i :: i in bound.skip ==> i < |ks|
    requires BoundHolds(PartsOf(kps), bound, a) && BoundHolds(PartsOf(kps), bound, b)
    requires bound.skip != {} ==> MatchesKey(kps, ks)(a) && MatchesKey(kps, ks)(b)
    ensures SameConstants(kps, ConstantParts(|ks|, bound.op == OpEq, bound.skip), a, b, m)
  {
    var constant := ConstantParts(|ks|, bound.op == OpEq, bound.skip);
    forall k | 0 <= k < m && k in constant
      ensures WeightIn(kps[k], a) == WeightIn(kps[k], b)
    {
      DroppedPartsAreConstant(kps, ks, bound.op, bound.skip, bound.pad, a, b, k);
    }
  }

  lemma {:induction false} ReadRowMeets(kps: seq<KeyPart>, ks: seq<KeyValue>, bound: Bound, rows: Rows, read: Rows, r: (int, Row))
    requires |ks| <= |kps| && ValidBound(PartsOf(kps), bound)
    requires multiset(read) == multiset(Keep(rows, Within(PartsOf(kps), [bound])))
    requires r in Keep(read, KeyFilter(kps, ks, bound.skip))
    ensures r in rows
    ensures BoundHolds(PartsOf(kps), bound, r.1) && (bound.skip != {} ==> MatchesKey(kps, ks)(r.1))
  {
    KeepMembers(read, KeyFilter(kps, ks, bound.skip), r);
    assert r in multiset(read);
    KeepMembers(rows, Within(PartsOf(kps), [bound]), r);
    OneBound(PartsOf(kps), bound, r.1);
  }

  // ------------------------------------------------------------- ranges

  /** One end of a range: the key's leading parts and its flag. */
  datatype RangeKey = RangeKey(ks: seq<KeyValue>, flag: FindFlag)

  predicate StartHolds(kps: seq<KeyPart>, start: Option<RangeKey>, row: Row)
    requires start.Some? ==> |start.value.ks| <= |kps|
  {
    start.Some? ==>
      var c := KeyCmp(kps, row, start.value.ks, 0);
      match start.value.flag
      case AfterKey => c == After
      case KeyExact => c == Same
      case KeyPrefix => c == Same
      case _ => c != Before
  }

  /** compare_key: on a tie HA_READ_BEFORE_KEY counts as past the end. */
  predicate EndHolds(kps: seq<KeyPart>, end: Option<RangeKey>, row: Row)
    requires end.Some? ==> |end.value.ks| <= |kps|
  {
    end.Some? ==>
      var c := KeyCmp(kps, row, end.value.ks, 0);
      c == Before || (c == Same && end.value.flag != BeforeKey)
  }

  /** The rows between the two keys in MariaDB's order. */
  function InRange(kps: seq<KeyPart>, start: Option<RangeKey>, end: Option<RangeKey>): Row -> bool
    requires start.Some? ==> |start.value.ks| <= |kps|
    requires end.Some? ==> |end.value.ks| <= |kps|
  {
    row => StartHolds(kps, start, row) && EndHolds(kps, end, row)
  }

  /** The leading parts both keys give alike. */
  function ConstPrefix(start: Option<RangeKey>, end: Option<RangeKey>, i: nat): (p: nat)
    requires start.Some? && end.Some? ==> i <= |start.value.ks|
    ensures p >= i
    decreases if start.Some? then |start.value.ks| - i else 0
  {
    if start.Some? && end.Some? && i < |start.value.ks| && i < |end.value.ks| && start.value.ks[i] == end.value.ks[i]
    then ConstPrefix(start, end, i + 1) else i
  }

  lemma {:induction false} ConstPrefixShared(start: RangeKey, end: RangeKey, i: nat)
    requires i <= |start.ks| && i <= |end.ks|
    ensures var p := ConstPrefix(Some(start), Some(end), i);
            p <= |start.ks| && p <= |end.ks| && forall j :: i <= j < p ==> start.ks[j] == end.ks[j]
    decreases |start.ks| - i
  {
    if i < |start.ks| && i < |end.ks| && start.ks[i] == end.ks[i] {
      ConstPrefixShared(start, end, i + 1);
    }
  }

  /** Between two keys that share their leading parts, every row has them. */
  lemma {:induction false} PrefixPinned(kps: seq<KeyPart>, row: Row, s: seq<KeyValue>, e: seq<KeyValue>, i: nat, p: nat)
    requires i <= p <= |s| <= |kps| && p <= |e| <= |kps|
    requires forall j :: i <= j < p ==> s[j] == e[j]
    requires KeyCmp(kps, row, s, i) != Before && KeyCmp(kps, row, e, i) != After
    ensures forall j :: i <= j < p ==> KeyOrder(kps[j], ValueIn(kps[j], row), s[j]) == Same
    decreases p - i
  {
    if i < p {
      PrefixPinned(kps, row, s, e, i + 1, p);
    }
  }

  /** The bounds a filtered range gives the engine. */
  function RangeBounds(kps: seq<KeyPart>, trustBin: bool, start: Option<RangeKey>, end: Option<RangeKey>): seq<Bound>
    requires kps != []
  {
    if PartSafe(kps[0], trustBin) then
      (if start.Some? && start.value.ks != [] then [KeyBound(kps, start.value.ks, 1, OpGe, {}, {}, Leading)] else [])
      + (if end.Some? && end.value.ks != [] then [KeyBound(kps, end.value.ks, 1, OpLe, {}, {}, Leading)] else [])
    else if start.Some? && ConstPrefix(start, end, 0) > 0 && PartPads(kps[0], trustBin) then
      [KeyBound(kps, start.value.ks, 1, OpEq, {0}, {0}, Key)]
    else []
  }

  ghost predicate ValidRangeKey(kps: seq<KeyPart>, k: Option<RangeKey>) {
    k.Some? ==> |k.value.ks| <= |kps| && ValidKeys(k.value.ks)
  }

  /** No row between the keys is lost: each bound lets it through. */
  lemma {:induction false} RangeBoundsKeepTheRange(kps: seq<KeyPart>, trustBin: bool, start: Option<RangeKey>, end: Option<RangeKey>,
                                row: Row, b: nat)
    requires kps != [] && AllFaithful(kps, trustBin) && RowFits(kps, row)
    requires ValidRangeKey(kps, start) && ValidRangeKey(kps, end)
    requires InRange(kps, start, end)(row) && b < |RangeBounds(kps, trustBin, start, end)|
    ensures var bound := RangeBounds(kps, trustBin, start, end)[b];
            ValidBound(PartsOf(kps), bound) && BoundHolds(PartsOf(kps), bound, row)
  {
    var bounds := RangeBounds(kps, trustBin, start, end);
    var kp, x := kps[0], ValueIn(kps[0], row);
    assert Faithful(kp, trustBin) && Fits(kp, x);
    if PartSafe(kp, trustBin) {
      SafeIsByValue(kp, trustBin);
      if bounds[b].op == OpGe {
        LeadingLower(kps, start.value, row);
      } else {
        LeadingUpper(kps, end.value, row);
      }
    } else {
      ConstPrefixShared(start.value, end.value, 0);
      PrefixPinned(kps, row, start.value.ks, end.value.ks, 0, ConstPrefix(start, end, 0));
      var k := start.value.ks[0];
      if k.Known? && kp.f.varchar && k.v.Text? {
        CompareAntisymmetric(kp.weight(x), kp.weight(k.v));
        PadsEqual(kp, trustBin, x.s, k.v.s);
        PadFindsEveryMatch(kp.f, k.v.s, x.s);
      }
      assert LookupPartHolds(PartsOf(kps), bounds[b], 0, row, false);
    }
  }

  lemma {:induction false} LeadingLower(kps: seq<KeyPart>, start: RangeKey, row: Row)
    requires 0 < |start.ks| <= |kps| && ValidKeys(start.ks)
    requires ByValue(kps[0])
    requires KeyCmp(kps, row, start.ks, 0) != Before
    ensures BoundHolds(PartsOf(kps), KeyBound(kps, start.ks, 1, OpGe, {}, {}, Leading), row)
  {
    var k, x := start.ks[0], ValueIn(kps[0], row);
    if k.Known? {
      assert ValidKey(k);
      assert CompareValues(kps[0].weight(x), kps[0].weight(k.v)) == CompareValues(x, k.v);
      CompareAntisymmetric(x, k.v);
    }
  }

  lemma {:induction false} LeadingUpper(kps: seq<KeyPart>, end: RangeKey, row: Row)
    requires 0 < |end.ks| <= |kps| && ValidKeys(end.ks)
    requires ByValue(kps[0]) && Fits(kps[0], ValueIn(kps[0], row))
    requires KeyCmp(kps, row, end.ks, 0) != After
    ensures BoundHolds(PartsOf(kps), KeyBound(kps, end.ks, 1, OpLe, {}, {}, Leading), row)
  {
    var k, x := end.ks[0], ValueIn(kps[0], row);
    if k.Known? {
      assert ValidKey(k);
      assert CompareValues(kps[0].weight(x), kps[0].weight(k.v)) == CompareValues(x, k.v);
    }
  }

  /** The parts a filtered range is sorted by end before `OrderStop`. */
  function OrderStop(kps: seq<KeyPart>, constant: set<nat>, i: nat): (stop: nat)
    requires i <= |kps|
    ensures i <= stop <= |kps|
    decreases |kps| - i
  {
    if i == |kps| then i
    else if i !in constant && !OffersOrder(kps[i]) then i
    else OrderStop(kps, constant, i + 1)
  }

  /** One part of a range's order. */
  lemma {:induction false} RangeOrderStep(kps: seq<KeyPart>, constant: set<nat>, order: seq<nat>, i: nat)
    requires i < |kps|
    ensures var stop := OrderStop(kps, constant, i);
            if i !in constant && !OffersOrder(kps[i]) then stop == i && order + OrderColumns(kps, constant, i, stop) == order
            else stop == OrderStop(kps, constant, i + 1) &&
                 order + OrderColumns(kps, constant, i, stop) ==
                 (if i in constant then order else order + [kps[i].f.column]) + OrderColumns(kps, constant, i + 1, stop)
  {
  }

  function RangeConstant(kps: seq<KeyPart>, constPrefix: nat, whereConst: set<nat>): set<nat> {
    set i: nat | i < |kps| && (i < constPrefix || i in whereConst)
  }

  lemma {:induction false} RangeBoundsValid(kps: seq<KeyPart>, trustBin: bool, start: Option<RangeKey>, end: Option<RangeKey>)
    requires kps != [] && ValidRangeKey(kps, start) && ValidRangeKey(kps, end)
    ensures AllRead(kps, RangeBounds(kps, trustBin, start, end))
  {
    if start.Some? {
      KeyBoundValid(kps, start.value.ks, 1, OpGe, {}, {}, Leading);
      KeyBoundValid(kps, start.value.ks, 1, OpEq, {0}, {0}, Key);
    }
    if end.Some? {
      KeyBoundValid(kps, end.value.ks, 1, OpLe, {}, {}, Leading);
    }
  }

  /** The candidates through range_in_bounds are the rows of the range, each
      once. */
  lemma {:induction false} RangeReadIsComplete(kps: seq<KeyPart>, trustBin: bool, start: Option<RangeKey>, end: Option<RangeKey>,
                            rows: Rows, read: Rows)
    requires kps != [] && AllFaithful(kps, trustBin) && ValidRangeKey(kps, start) && ValidRangeKey(kps, end)
    requires forall r :: r in rows ==> RowFits(kps, r.1)
    requires var bounds := RangeBounds(kps, trustBin, start, end);
             AllRead(kps, bounds) &&
             multiset(read) == multiset(Keep(rows, Within(PartsOf(kps), bounds)))
    ensures multiset(Keep(read, InRange(kps, start, end))) == multiset(Keep(rows, InRange(kps, start, end)))
    ensures read == [] ==> Keep(rows, InRange(kps, start, end)) == []
  {
    var bounds := RangeBounds(kps, trustBin, start, end);
    var within, inside := Within(PartsOf(kps), bounds), InRange(kps, start, end);
    forall x | x in rows ensures within(x.1) && inside(x.1) <==> inside(x.1) {
      if inside(x.1) {
        forall b | 0 <= b < |bounds| ensures BoundHolds(PartsOf(kps), bounds[b], x.1) {
          RangeBoundsKeepTheRange(kps, trustBin, start, end, x.1, b);
        }
      }
    }
    FilteredReorder(rows, read, within, inside, inside);
    if read == [] {
      EmptyMultiset(Keep(rows, inside));
    }
  }

  lemma {:induction false} OffersBeforeStop(kps: seq<KeyPart>, constant: set<nat>, m: nat, i: nat)
    requires OffersBut(kps, constant, m) && i <= m
    ensures m <= OrderStop(kps, constant, i)
    decreases m - i
  {
    if i < m {
      OffersBeforeStop(kps, constant, m, i + 1);
    }
  }

  ghost predicate RangeInOrder(kps: seq<KeyPart>, trustBin: bool, start: Option<RangeKey>, end: Option<RangeKey>,
                               whereConst: set<nat>, rows: Rows)
  {
    var constant := RangeConstant(kps, ConstPrefix(start, end, 0), whereConst);
    OrderedRead(kps, trustBin, constant, OrderStop(kps, constant, 0), whereConst, rows, false)
  }

  /** A sorted range read: among the rows the WHERE takes, those out of the
      index's order are exactly the misordered pairs. */
  lemma {:induction false} RangeReadOrdered(kps: seq<KeyPart>, trustBin: bool, start: Option<RangeKey>, end: Option<RangeKey>,
                         whereConst: set<nat>, rows: Rows, read: Rows)
    requires kps != [] && AllFaithful(kps, trustBin) && ValidRangeKey(kps, start) && ValidRangeKey(kps, end)
    requires forall r :: r in rows ==> RowFits(kps, r.1)
    requires forall r :: r in multiset(read) ==> r in rows
    requires var constant := RangeConstant(kps, ConstPrefix(start, end, 0), whereConst);
             var order := OrderColumns(kps, constant, 0, OrderStop(kps, constant, 0));
             order != [] ==> Sorted(read, order, false)
    ensures RangeInOrder(kps, trustBin, start, end, whereConst, Keep(read, InRange(kps, start, end)))
  {
    var constant := RangeConstant(kps, ConstPrefix(start, end, 0), whereConst);
    var stop := OrderStop(kps, constant, 0);
    var order := OrderColumns(kps, constant, 0, stop);
    var got := Keep(read, InRange(kps, start, end));
    KeepStaysSorted(read, InRange(kps, start, end), order, false);
    forall m: nat, i: nat, j: nat
      ensures OrderedPair(kps, trustBin, constant, whereConst, got, m, i, j, false)
    {
      if OffersBut(kps, constant, m) && i < j < |got| && SameWhere(kps, whereConst, got[i].1, got[j].1) {
        OffersBeforeStop(kps, constant, m, 0);
        assert Directed(CompareBy(got[i].1, got[j].1, order), false) != After;
        KeepMembers(read, InRange(kps, start, end), got[i]);
        KeepMembers(read, InRange(kps, start, end), got[j]);
        RangeConstants(kps, start, end, whereConst, got[i].1, got[j].1, m);
        SortedPair(kps, trustBin, constant, got[i].1, got[j].1, m, stop, false);
      }
    }
  }

  lemma {:induction false} RangeConstants(kps: seq<KeyPart>, start: Option<RangeKey>, end: Option<RangeKey>,
                                          whereConst: set<nat>, a: Row, b: Row, m: nat)
    requires ValidRangeKey(kps, start) && ValidRangeKey(kps, end) && m <= |kps|
    requires InRange(kps, start, end)(a) && InRange(kps, start, end)(b) && SameWhere(kps, whereConst, a, b)
    ensures SameConstants(kps, RangeConstant(kps, ConstPrefix(start, end, 0), whereConst), a, b, m)
  {
    forall k: nat | k < m && k < ConstPrefix(start, end, 0)
      ensures WeightIn(kps[k], a) == WeightIn(kps[k], b)
    {
      SharedPartIsConstant(kps, start, end, a, b, k);
    }
  }

  lemma {:induction false} SharedPartIsConstant(kps: seq<KeyPart>, start: Option<RangeKey>, end: Option<RangeKey>, a: Row, b: Row, k: nat)
    requires ValidRangeKey(kps, start) && ValidRangeKey(kps, end) && k < ConstPrefix(start, end, 0) && k < |kps|
    requires InRange(kps, start, end)(a) && InRange(kps, start, end)(b)
    ensures WeightIn(kps[k], a) == WeightIn(kps[k], b)
  {
    var s, e, p := start.value, end.value, ConstPrefix(start, end, 0);
    ConstPrefixShared(s, e, 0);
    PrefixPinned(kps, a, s.ks, e.ks, 0, p);
    PrefixPinned(kps, b, s.ks, e.ks, 0, p);
    SameKeySameWeight(kps[k], ValueIn(kps[k], a), ValueIn(kps[k], b), s.ks[k]);
  }

  lemma {:induction false} EndReadIsWhole(kps: seq<KeyPart>, rows: Rows)
    ensures Keep(rows, Within(PartsOf(kps), [])) == rows
  {
    KeepSame(rows, Within(PartsOf(kps), []), Everything());
    KeepEverything(rows);
  }

  // ------------------------------------------------ ranges left to the engine

  /** contains_unsafe_part: the engine does not compare the part as MariaDB. */
  predicate UnsafePart(kp: KeyPart, trustBin: bool) {
    match kp.kind
    case Plain => false
    case Str(_, _, _, stored) => stored == HexWide || NeedsFilter(kp, trustBin)
    case Encoded => true
  }

  predicate UnsafeKey(kps: seq<KeyPart>, trustBin: bool, k: Option<RangeKey>)
    requires k.Some? ==> |k.value.ks| <= |kps|
  {
    k.Some? && exists i :: 0 <= i < |k.value.ks| && UnsafePart(kps[i], trustBin)
  }

  function StartOp(flag: FindFlag): Option<Op> {
    if flag == OtherFlag then None else Some(OpOf(flag))
  }

  function EndOp(flag: FindFlag): Option<Op> {
    match flag
    case AfterKey => Some(OpLe)
    case BeforeKey => Some(OpLt)
    case _ => None
  }

  /** The first part the row and the key differ in is a NULL against a value. */
  predicate NullBelow(kps: seq<KeyPart>, row: Row, ks: seq<KeyValue>, i: nat)
    requires i <= |ks| <= |kps|
    decreases |ks| - i
  {
    i < |ks| &&
    var x := ValueIn(kps[i], row);
    if KeyOrder(kps[i], x, ks[i]) != Same then x == Null && ks[i].Known? else NullBelow(kps, row, ks, i + 1)
  }

  ghost predicate LeadingByValue(kps: seq<KeyPart>, n: nat)
    requires n <= |kps|
  {
    forall i :: 0 <= i < n ==> ByValue(kps[i])
  }

  lemma {:induction false} SafeKeyIsByValue(kps: seq<KeyPart>, trustBin: bool, k: RangeKey)
    requires |k.ks| <= |kps| && AllFaithful(kps, trustBin) && !UnsafeKey(kps, trustBin, Some(k))
    ensures LeadingByValue(kps, |k.ks|)
  {
    forall i | 0 <= i < |k.ks|
      ensures ByValue(kps[i])
    {
      assert !UnsafePart(kps[i], trustBin) && Faithful(kps[i], trustBin);
    }
  }

  /** The engine's lexicographic order is MariaDB's key comparison. */
  lemma {:induction false} LexIsKeyCmp(kps: seq<KeyPart>, row: Row, ks: seq<KeyValue>, i: nat)
    requires i <= |ks| <= |kps| && LeadingByValue(kps, |ks|)
    ensures var key := KeyIn(PartsOf(kps)[i..|ks|], row);
            LexOrder(key, ks[i..]) == KeyCmp(kps, row, ks, i) && NullGap(key, ks[i..]) == NullBelow(kps, row, ks, i)
    decreases |ks| - i
  {
    if i < |ks| {
      var parts, key := PartsOf(kps), KeyIn(PartsOf(kps)[i..|ks|], row);
      LexIsKeyCmp(kps, row, ks, i + 1);
      assert key[1..] == KeyIn(parts[i + 1..|ks|], row) && ks[i..][1..] == ks[i + 1..];
      assert key[0] == ValueIn(kps[i], row) && ks[i..][0] == ks[i];
      assert ByValue(kps[i]);
      assert ks[i].Known? ==> CompareValues(kps[i].weight(key[0]), kps[i].weight(ks[i].v)) == CompareValues(key[0], ks[i].v);
    }
  }

  /** One end of a range as the engine tests it. */
  lemma {:induction false} RangeBoundMeans(kps: seq<KeyPart>, ks: seq<KeyValue>, op: Op, row: Row)
    requires 0 < |ks| <= |kps| && ValidKeys(ks) && LeadingByValue(kps, |ks|)
    ensures var bound := KeyBound(kps, ks, |ks|, op, {}, {}, Range);
            ValidBound(PartsOf(kps), bound) &&
            (BoundHolds(PartsOf(kps), bound, row) <==>
             Meets(op, KeyCmp(kps, row, ks, 0)) && !(Upper(op) && NullBelow(kps, row, ks, 0)))
  {
    var parts, bound := PartsOf(kps), KeyBound(kps, ks, |ks|, op, {}, {}, Range);
    KeyBoundValid(kps, ks, |ks|, op, {}, {}, Range);
    LexIsKeyCmp(kps, row, ks, 0);
    assert parts[..|ks|] == parts[0..|ks|] && ks[0..] == ks;
    assert KeysOf(bound, |ks|) == ks;
    if op == OpEq {
      EqualityIsIndexOrder(parts, bound, row);
    } else {
      RangeIsIndexOrder(parts, bound, row);
    }
  }

  /** A range the engine answers alone: the rows each end's flag asks for, less
      the NULLs an upper end loses. */
  function EngineRange(kps: seq<KeyPart>, start: Option<RangeKey>, end: Option<RangeKey>): Row -> bool
    requires start.Some? ==> |start.value.ks| <= |kps|
    requires end.Some? ==> |end.value.ks| <= |kps|
  {
    row =>
      && (start.Some? && start.value.ks != [] ==>
            Asks(start.value.flag, KeyCmp(kps, row, start.value.ks, 0)) &&
            !((start.value.flag == KeyOrPrev || start.value.flag == BeforeKey) && NullBelow(kps, row, start.value.ks, 0)))
      && (end.Some? && end.value.ks != [] ==>
            EndHolds(kps, end, row) && !NullBelow(kps, row, end.value.ks, 0))
  }

  /** The two ways to read a range agree: what the engine answers alone is what
      MariaDB's comparison keeps of it, less the rows below the upper end by a
      NULL. */
  lemma {:induction false} EngineRangeIsTheRange(kps: seq<KeyPart>, start: Option<RangeKey>, end: Option<RangeKey>, row: Row)
    requires ValidRangeKey(kps, start) && ValidRangeKey(kps, end)
    requires start.Some? ==> start.value.ks != [] && start.value.flag in {KeyExact, KeyPrefix, KeyOrNext, AfterKey}
    requires end.Some? ==> end.value.ks != []
    ensures EngineRange(kps, start, end)(row) <==>
            InRange(kps, start, end)(row) && !(end.Some? && NullBelow(kps, row, end.value.ks, 0))
  {
  }

  /** The bounds of a range the engine answers alone. */
  function EngineBounds(kps: seq<KeyPart>, start: Option<RangeKey>, end: Option<RangeKey>): seq<Bound>
    requires start.Some? ==> StartOp(start.value.flag).Some?
    requires end.Some? ==> EndOp(end.value.flag).Some?
  {
    (if start.Some? && start.value.ks != [] then
       [KeyBound(kps, start.value.ks, |start.value.ks|, StartOp(start.value.flag).value, {}, {}, Range)] else [])
    + (if end.Some? && end.value.ks != [] then
         [KeyBound(kps, end.value.ks, |end.value.ks|, EndOp(end.value.flag).value, {}, {}, Range)] else [])
  }

  ghost predicate Plainly(kps: seq<KeyPart>, start: Option<RangeKey>, end: Option<RangeKey>) {
    && (start.Some? ==> |start.value.ks| <= |kps| && LeadingByValue(kps, |start.value.ks|) && StartOp(start.value.flag).Some?)
    && (end.Some? ==> |end.value.ks| <= |kps| && LeadingByValue(kps, |end.value.ks|) && EndOp(end.value.flag).Some?)
  }

  lemma {:induction false} EngineBoundsMean(kps: seq<KeyPart>, start: Option<RangeKey>, end: Option<RangeKey>, row: Row)
    requires ValidRangeKey(kps, start) && ValidRangeKey(kps, end) && Plainly(kps, start, end)
    ensures AllRead(kps, EngineBounds(kps, start, end))
    ensures Within(PartsOf(kps), EngineBounds(kps, start, end))(row) <==> EngineRange(kps, start, end)(row)
  {
    EngineStart(kps, start, row);
    EngineEnd(kps, end, row);
    WithinBoth(PartsOf(kps), EngineBounds(kps, start, None), EngineBounds(kps, None, end), row);
    assert EngineBounds(kps, start, end) == EngineBounds(kps, start, None) + EngineBounds(kps, None, end);
  }

  lemma {:induction false} EngineStart(kps: seq<KeyPart>, start: Option<RangeKey>, row: Row)
    requires ValidRangeKey(kps, start) && Plainly(kps, start, None)
    ensures AllRead(kps, EngineBounds(kps, start, None))
    ensures Within(PartsOf(kps), EngineBounds(kps, start, None))(row) <==> EngineRange(kps, start, None)(row)
  {
    if start.Some? && start.value.ks != [] {
      var ks, flag := start.value.ks, start.value.flag;
      var bound := KeyBound(kps, ks, |ks|, OpOf(flag), {}, {}, Range);
      KeyBoundValid(kps, ks, |ks|, OpOf(flag), {}, {}, Range);
      RangeBoundMeans(kps, ks, OpOf(flag), row);
      OpAsks(flag, KeyCmp(kps, row, ks, 0));
      OneBound(PartsOf(kps), bound, row);
      assert EngineBounds(kps, start, None) == [bound];
    } else {
      assert EngineBounds(kps, start, None) == [];
    }
  }

  lemma {:induction false} EngineEnd(kps: seq<KeyPart>, end: Option<RangeKey>, row: Row)
    requires ValidRangeKey(kps, end) && Plainly(kps, None, end)
    ensures AllRead(kps, EngineBounds(kps, None, end))
    ensures Within(PartsOf(kps), EngineBounds(kps, None, end))(row) <==> EngineRange(kps, None, end)(row)
  {
    if end.Some? && end.value.ks != [] {
      var ks, op := end.value.ks, EndOp(end.value.flag).value;
      var bound := KeyBound(kps, ks, |ks|, op, {}, {}, Range);
      KeyBoundValid(kps, ks, |ks|, op, {}, {}, Range);
      RangeBoundMeans(kps, ks, op, row);
      OneBound(PartsOf(kps), bound, row);
      assert EngineBounds(kps, None, end) == [bound];
      assert EndHolds(kps, end, row) <==> Meets(op, KeyCmp(kps, row, ks, 0));
    } else {
      assert EngineBounds(kps, None, end) == [];
    }
  }

  lemma {:induction false} EngineRead(kps: seq<KeyPart>, start: Option<RangeKey>, end: Option<RangeKey>,
                                      rows: Rows, read: Rows)
    requires ValidRangeKey(kps, start) && ValidRangeKey(kps, end) && Plainly(kps, start, end)
    requires AllRead(kps, EngineBounds(kps, start, end))
    requires multiset(read) == multiset(Keep(rows, Within(PartsOf(kps), EngineBounds(kps, start, end))))
    ensures multiset(read) == multiset(Keep(rows, EngineRange(kps, start, end)))
  {
    var within, asked := Within(PartsOf(kps), EngineBounds(kps, start, end)), EngineRange(kps, start, end);
    forall i | 0 <= i < |rows|
      ensures within(rows[i].1) == asked(rows[i].1)
    {
      EngineBoundsMean(kps, start, end, rows[i].1);
    }
    KeepSame(rows, within, asked);
  }

  lemma {:induction false} EngineReadSorted(kps: seq<KeyPart>, trustBin: bool, start: Option<RangeKey>, end: Option<RangeKey>,
                                            rows: Rows, read: Rows, oneKey: bool)
    requires AllFaithful(kps, trustBin) && (forall r :: r in rows ==> RowFits(kps, r.1)) && Plainly(kps, start, end)
    requires multiset(read) == multiset(Keep(rows, EngineRange(kps, start, end)))
    requires oneKey ==> kps != [] && start.Some? && start.value.flag == KeyExact && |start.value.ks| == |kps|
    requires var order := OrderColumns(kps, {}, 0, |kps|); !oneKey && order != [] ==> Sorted(read, order, false)
    ensures OrderedRead(kps, trustBin, {}, |kps|, {}, read, false)
  {
    KeptRows(rows, EngineRange(kps, start, end), read);
    if oneKey {
      forall r | r in read ensures KeyCmp(kps, r.1, start.value.ks, 0) == Same {
        assert r in multiset(read);
      }
      OneKeySorted(kps, start.value.ks, read);
    }
    AllSorted(kps, trustBin, rows, read, false);
  }

  lemma {:induction false} KeptRows(rows: Rows, p: Row -> bool, read: Rows)
    requires multiset(read) == multiset(Keep(rows, p))
    ensures forall r :: r in multiset(read) ==> r in rows && p(r.1)
  {
    forall r | r in multiset(read)
      ensures r in rows && p(r.1)
    {
      KeepMembers(rows, p, r);
    }
  }

  lemma {:induction false} WithinBoth(parts: seq<Part>, p: seq<Bound>, q: seq<Bound>, row: Row)
    requires forall b :: 0 <= b < |p| ==> ValidBound(parts, p[b])
    requires forall b :: 0 <= b < |q| ==> ValidBound(parts, q[b])
    ensures Within(parts, p + q)(row) <==> Within(parts, p)(row) && Within(parts, q)(row)
  {
    assert forall b :: 0 <= b < |p| ==> (p + q)[b] == p[b];
    assert forall b :: 0 <= b < |q| ==> q[b] == (p + q)[|p| + b];
  }

  /** What is sorted by every column of the index. */
  lemma {:induction false} AllSorted(kps: seq<KeyPart>, trustBin: bool, rows: Rows, read: Rows, desc: bool)
    requires AllFaithful(kps, trustBin) && (forall r :: r in rows ==> RowFits(kps, r.1))
    requires forall r :: r in multiset(read) ==> r in rows
    requires Sorted(read, OrderColumns(kps, {}, 0, |kps|), desc)
    ensures OrderedRead(kps, trustBin, {}, |kps|, {}, read, desc)
  {
    forall m: nat, i: nat, j: nat
      ensures OrderedPair(kps, trustBin, {}, {}, read, m, i, j, desc)
    {
      if OffersBut(kps, {}, m) && i < j < |read| {
        assert read[i] in multiset(read) && read[j] in multiset(read);
        SortedPair(kps, trustBin, {}, read[i].1, read[j].1, m, |kps|, desc);
      }
    }
  }

  /** Rows with one key in every part need no sort. */
  lemma {:induction false} OneKeySorted(kps: seq<KeyPart>, ks: seq<KeyValue>, rows: Rows)
    requires |ks| == |kps| && LeadingByValue(kps, |kps|)
    requires forall r :: r in rows ==> KeyCmp(kps, r.1, ks, 0) == Same
    ensures Sorted(rows, OrderColumns(kps, {}, 0, |kps|), false)
  {
    forall i, j | 0 <= i < j < |rows|
      ensures Directed(CompareBy(rows[i].1, rows[j].1, OrderColumns(kps, {}, 0, |kps|)), false) != After
    {
      assert rows[i] in rows && rows[j] in rows;
      KeyCmpSame(kps, rows[i].1, ks, 0);
      KeyCmpSame(kps, rows[j].1, ks, 0);
      OneKeyCompares(kps, ks, rows[i].1, rows[j].1, 0);
    }
  }

  lemma {:induction false} OneKeyCompares(kps: seq<KeyPart>, ks: seq<KeyValue>, a: Row, b: Row, i: nat)
    requires i <= |ks| == |kps| && LeadingByValue(kps, |kps|)
    requires forall j :: i <= j < |ks| ==> KeyOrder(kps[j], ValueIn(kps[j], a), ks[j]) == Same
    requires forall j :: i <= j < |ks| ==> KeyOrder(kps[j], ValueIn(kps[j], b), ks[j]) == Same
    ensures CompareBy(a, b, OrderColumns(kps, {}, i, |kps|)) == Same
    decreases |ks| - i
  {
    if i < |ks| {
      OneKeyCompares(kps, ks, a, b, i + 1);
      SameKeySameWeight(kps[i], ValueIn(kps[i], a), ValueIn(kps[i], b), ks[i]);
      ByValueIsOneToOne(kps[i]);
      CompareAntisymmetric(ValueIn(kps[i], a), ValueIn(kps[i], b));
      var columns, rest := OrderColumns(kps, {}, i, |kps|), OrderColumns(kps, {}, i + 1, |kps|);
      assert columns == [kps[i].f.column] + rest && columns[1..] == rest;
    }
  }

  // ------------------------------------------------------------- the handler

  datatype Answer = Found(row: (int, Row)) | EndOfFile | KeyNotFound | Unsupported

  /** What a filter keeps of the rows a read still has. */
  datatype Filter = NoFilter | ByKey(key: seq<KeyValue>) | ByRange(start: Option<RangeKey>, end: Option<RangeKey>)

  class Handler {
    const table: Table
    const keys: seq<KeyPart>      // the active index's parts
    const uniqueKey: bool         // HA_NOSAME
    const trustBin: bool
    const indexSorted: bool
    const whereConst: set<nat>    // parts the WHERE makes constant

    var pending: Rows             // what the open read has left
    var filter: Filter

    constructor (table: Table, keys: seq<KeyPart>, uniqueKey: bool, trustBin: bool, indexSorted: bool,
                 whereConst: set<nat>)
      ensures this.table == table && this.keys == keys && this.uniqueKey == uniqueKey
      ensures this.trustBin == trustBin && this.indexSorted == indexSorted && this.whereConst == whereConst
      ensures pending == [] && filter == NoFilter
    {
      this.table, this.keys, this.uniqueKey := table, keys, uniqueKey;
      this.trustBin, this.indexSorted, this.whereConst := trustBin, indexSorted, whereConst;
      pending, filter := [], NoFilter;
    }

    ghost predicate Valid()
      reads this
    {
      && keys != []
      && ValidTable(table)
      && AllFaithful(keys, trustBin)
      && (forall r :: r in table.rows ==> RowFits(keys, r.1))
      && (filter.ByKey? ==> |filter.key| <= |keys|)
      && (filter.ByRange? ==> ValidRangeKey(keys, filter.start) && ValidRangeKey(keys, filter.end))
    }

    function Keeps(): Row -> bool
      reads this
      requires filter.ByKey? ==> |filter.key| <= |keys|
      requires filter.ByRange? && filter.start.Some? ==> |filter.start.value.ks| <= |keys|
      requires filter.ByRange? && filter.end.Some? ==> |filter.end.value.ks| <= |keys|
    {
      match filter
      case NoFilter => Everything()
      case ByKey(key) => MatchesKey(keys, key)
      case ByRange(start, end) => InRange(keys, start, end)
    }

    /** The rows the read will still give. */
    ghost function Remaining(): Rows
      reads this
      requires Valid()
    {
      Keep(pending, Keeps())
    }

    /** Opens a read within the bounds, sorted by `order` when there is one. */
    method OpenRead(bounds: seq<Bound>, order: seq<nat>, desc: bool) returns (ok: bool)
      requires ValidTable(table)
      requires AllRead(keys, bounds)
      modifies this`pending
      ensures multiset(pending) == multiset(Keep(table.rows, Within(PartsOf(keys), bounds)))
      ensures order != [] ==> Sorted(pending, order, desc)
      ensures !ok ==> pending == []
    {
      var r := Read(table, PartsOf(keys), bounds);
      if r.value.None? {
        pending := [];
        return false;
      }
      pending := if order == [] then r.value.value else SortRows(r.value.value, order, desc);
      SortSorts(r.value.value, order, desc);
      return true;
    }

    /** index_next and read_range_next: the next row the filter keeps. */
    method Next() returns (a: Answer)
      requires Valid()
      modifies this`pending
      ensures Valid()
      ensures if a.Found? then |pending| < |old(pending)| else pending == []
      ensures a == EndOfFile <==> old(Remaining()) == []
      ensures a != EndOfFile ==> a.Found? && old(Remaining()) == [a.row] + Remaining()
    {
      while pending != []
        invariant Valid() && Remaining() == old(Remaining())
        decreases |pending|
      {
        var row := pending[0];
        pending := pending[1..];
        if Keeps()(row.1) {
          return Found(row);
        }
      }
      return EndOfFile;
    }

    /** index_read_map on the leading parts `ks`: each row of the lookup once, and
        not found when there is none. Rows that are to be sorted come in the
        index's order but for the misordered pairs. */
    method IndexReadMap(ks: seq<KeyValue>, flag: FindFlag) returns (a: Answer)
      requires Valid() && |ks| <= |keys| && ValidKeys(ks)
      modifies this
      ensures Valid()
      ensures a == Unsupported <==> flag == OtherFlag
      ensures flag != OtherFlag && ks == [] ==> a == KeyNotFound
      ensures flag != OtherFlag && ks != [] ==>
                a != EndOfFile &&
                Gives(keys, table.rows, ks, flag, if a.Found? then [a.row] + Remaining() else [])
      ensures a.Found? && (indexSorted || flag == KeyOrPrev || flag == BeforeKey) ==>
                OrderedRead(keys, trustBin, ConstantParts(|ks|, OpOf(flag) == OpEq, MaskOf(keys, |ks|, trustBin, flag)),
                            |keys|, {}, [a.row] + Remaining(), flag == KeyOrPrev || flag == BeforeKey)
    {
      filter := NoFilter;
      if flag == OtherFlag {
        return Unsupported;
      }
      if |ks| == 0 {
        return KeyNotFound;
      }
      var ok := OpenKeyRead(ks, flag);
      if !ok {
        return KeyNotFound;
      }
      ghost var all := Remaining();
      a := Next();
      if a == EndOfFile {
        assert all == [];
        a := KeyNotFound;
      }
    }

    method OpenKeyRead(ks: seq<KeyValue>, flag: FindFlag) returns (ok: bool)
      requires Valid() && 0 < |ks| <= |keys| && ValidKeys(ks) && filter == NoFilter && flag != OtherFlag
      modifies this
      ensures Valid()
      ensures Gives(keys, table.rows, ks, flag, if ok then Remaining() else [])
      ensures ok && (indexSorted || Backward(flag)) ==>
                OrderedRead(keys, trustBin, ConstantParts(|ks|, OpOf(flag) == OpEq, MaskOf(keys, |ks|, trustBin, flag)),
                            |keys|, {}, Remaining(), Backward(flag))
    {
      var n, op, desc := |ks|, OpOf(flag), Backward(flag);
      var mask, pad := {}, {};
      if flag == KeyExact {
        mask, pad := FilterMask(keys, n, trustBin), PadMask(keys, n, trustBin);
      }
      var exactUnique := flag == KeyExact && n == |keys| && uniqueKey;
      // One key value: nothing to sort
      var order := OrderOf(n, op, mask, !exactUnique && (indexSorted || desc));
      var bound := KeyBound(keys, ks, n, op, mask, pad, Key);
      KeyBoundValid(keys, ks, n, op, mask, pad, Key);
      ok := OpenRead([bound], order, desc);
      if ok && mask != {} {
        filter := ByKey(ks);
      }
      assert ok ==> Remaining() == Keep(pending, KeyFilter(keys, ks, mask));
      KeyReadGives(keys, ks, trustBin, flag, bound, table.rows, pending);
      assert !ok ==> Keep(pending, KeyFilter(keys, ks, mask)) == [];
      if ok && (indexSorted || desc) {
        KeyReadInOrder(keys, ks, trustBin, bound, table.rows, pending, order, desc);
      }
    }

    /** index_end_read: every row, from either end, in the index's order but for the
        misordered pairs. */
    method IndexEndRead(desc: bool) returns (a: Answer)
      requires Valid()
      modifies this
      ensures Valid()
      ensures a == EndOfFile <==> table.rows == []
      ensures a.Found? ==> multiset([a.row] + Remaining()) == multiset(table.rows)
      ensures a.Found? ==> OrderedRead(keys, trustBin, {}, |keys|, {}, [a.row] + Remaining(), desc)
      ensures a.Found? || a == EndOfFile
    {
      OpenEndRead(desc);
      ghost var all := Remaining();
      a := Next();
      if a == EndOfFile {
        EmptyMultiset(table.rows);
      } else {
        assert all == [a.row] + Remaining();
      }
    }

    lemma {:induction false} EndSorted(order: seq<nat>, desc: bool)
      requires Valid() && multiset(pending) == multiset(table.rows)
      requires order == OrderColumns(keys, {}, 0, |keys|) && (order != [] ==> Sorted(pending, order, desc))
      ensures OrderedRead(keys, trustBin, {}, |keys|, {}, pending, desc)
    {
      assert forall r :: r in multiset(pending) ==> r in multiset(table.rows);
      AllSorted(keys, trustBin, table.rows, pending, desc);
    }

    method OpenEndRead(desc: bool)
      requires Valid()
      modifies this
      ensures Valid()
      ensures multiset(Remaining()) == multiset(table.rows)
      ensures OrderedRead(keys, trustBin, {}, |keys|, {}, Remaining(), desc)
    {
      filter := NoFilter;
      var order := AllColumns();
      var _ := OpenRead([], order, desc);
      KeepEverything(pending);
      EndReadIsWhole(keys, table.rows);
      EndSorted(order, desc);
    }

    /** The index from one end to the other: index_first or index_last, then
        index_next to the end. */
    method ReadAll(desc: bool) returns (rows: Rows)
      requires Valid()
      modifies this
      ensures multiset(rows) == multiset(table.rows)
      ensures OrderedRead(keys, trustBin, {}, |keys|, {}, rows, desc)
    {
      rows := [];
      var a := IndexEndRead(desc);
      if a == EndOfFile {
        AllSorted(keys, trustBin, [], [], desc);
        return;
      }
      rows := ReadOn(a.row);
    }

    /** index_next to the end, after a first row. */
    method ReadOn(first: (int, Row)) returns (rows: Rows)
      requires Valid()
      modifies this`pending
      ensures rows == [first] + old(Remaining())
    {
      rows := [first];
      var more := true;
      while more
        invariant Valid() && rows + Remaining() == [first] + old(Remaining())
        invariant !more ==> Remaining() == []
        decreases |pending|, more
      {
        var a := Next();
        more := a.Found?;
        if more {
          rows := rows + [a.row];
        }
      }
      assert rows + [] == rows;
    }

    method AllColumns() returns (order: seq<nat>)
      ensures order == OrderColumns(keys, {}, 0, |keys|)
    {
      order := [];
      for i := 0 to |keys|
        invariant order + OrderColumns(keys, {}, i, |keys|) == OrderColumns(keys, {}, 0, |keys|)
      {
        OrderStep(keys, {}, order, i);
        order := order + [keys[i].f.column];
      }
    }

    /** The columns left in the order, when the rows need one. */
    method OrderOf(n: nat, op: Op, mask: set<nat>, needed: bool) returns (order: seq<nat>)
      requires 0 < n <= |keys|
      ensures (needed || (n == |keys| && op == OpEq)) ==>
                order == OrderColumns(keys, ConstantParts(n, op == OpEq, mask), 0, |keys|)
    {
      order := [];
      ghost var constant := ConstantParts(n, op == OpEq, mask);
      if !needed {
        if n == |keys| && op == OpEq {
          AllConstant(keys, constant, 0);
        }
        return;
      }
      for i := 0 to |keys|
        invariant order + OrderColumns(keys, constant, i, |keys|) == OrderColumns(keys, constant, 0, |keys|)
      {
        var kept := (i >= n || i !in mask) && !(i + 1 < n || (i + 1 == n && op == OpEq));
        OrderStep(keys, constant, order, i);
        assert kept == (i !in constant);
        if kept {
          order := order + [keys[i].f.column];
        }
      }
    }

    /** read_range_first: a range over parts the engine does not compare as MariaDB
        goes through MariaDB's comparison; of any other, the engine gives the rows
        each end's flag asks for, less the NULLs an upper end loses. */
    method ReadRange(start: Option<RangeKey>, end: Option<RangeKey>, sorted: bool) returns (a: Answer)
      requires Valid() && ValidRangeKey(keys, start) && ValidRangeKey(keys, end)
      modifies this
      ensures Valid()
      ensures UnsafeKey(keys, trustBin, start) || UnsafeKey(keys, trustBin, end) ==>
                RangeGives(InRange(keys, start, end), a) &&
                (a.Found? && sorted ==> RangeInOrder(keys, trustBin, start, end, whereConst, [a.row] + Remaining()))
      ensures !UnsafeKey(keys, trustBin, start) && !UnsafeKey(keys, trustBin, end) ==>
                (a == Unsupported <==> (start.Some? && start.value.flag == OtherFlag) ||
                                       (end.Some? && end.value.flag != AfterKey && end.value.flag != BeforeKey)) &&
                (a != Unsupported ==>
                   RangeGives(EngineRange(keys, start, end), a) &&
                   (a.Found? && sorted ==> OrderedRead(keys, trustBin, {}, |keys|, {}, [a.row] + Remaining(), false)))
    {
      if UnsafeKey(keys, trustBin, start) || UnsafeKey(keys, trustBin, end) {
        a := ReadRangeFiltered(start, end, sorted);
        return;
      }
      filter := NoFilter;
      if start.Some? && StartOp(start.value.flag).None? {
        return Unsupported;
      }
      if end.Some? && EndOp(end.value.flag).None? {
        return Unsupported;
      }
      a := ReadEngineRange(start, end, sorted);
    }

    method ReadEngineRange(start: Option<RangeKey>, end: Option<RangeKey>, sorted: bool) returns (a: Answer)
      requires Valid() && ValidRangeKey(keys, start) && ValidRangeKey(keys, end) && filter == NoFilter
      requires !UnsafeKey(keys, trustBin, start) && !UnsafeKey(keys, trustBin, end)
      requires start.Some? ==> StartOp(start.value.flag).Some?
      requires end.Some? ==> EndOp(end.value.flag).Some?
      modifies this`pending
      ensures Valid() && a != Unsupported
      ensures RangeGives(EngineRange(keys, start, end), a)
      ensures a.Found? && sorted ==> OrderedRead(keys, trustBin, {}, |keys|, {}, [a.row] + Remaining(), false)
    {
      OpenEngineRange(start, end, sorted);
      KeepEverything(pending);
      ghost var all := Remaining();
      a := Next();
      if a == EndOfFile {
        EmptyMultiset(Keep(table.rows, EngineRange(keys, start, end)));
      } else {
        assert all == [a.row] + Remaining();
      }
    }

    ghost predicate RangeGives(asked: Row -> bool, a: Answer)
      reads this
      requires Valid()
    {
      if a.Found? then multiset([a.row] + Remaining()) == multiset(Keep(table.rows, asked))
      else Keep(table.rows, asked) == []
    }

    method OpenEngineRange(start: Option<RangeKey>, end: Option<RangeKey>, sorted: bool)
      requires Valid() && ValidRangeKey(keys, start) && ValidRangeKey(keys, end) && filter == NoFilter
      requires !UnsafeKey(keys, trustBin, start) && !UnsafeKey(keys, trustBin, end)
      requires start.Some? ==> StartOp(start.value.flag).Some?
      requires end.Some? ==> EndOp(end.value.flag).Some?
      modifies this`pending
      ensures Valid()
      ensures multiset(pending) == multiset(Keep(table.rows, EngineRange(keys, start, end)))
      ensures sorted ==> OrderedRead(keys, trustBin, {}, |keys|, {}, pending, false)
    {
      var bounds := EngineBoundsOf(start, end);
      var exactUnique := start.Some? && start.value.flag == KeyExact && uniqueKey && |start.value.ks| == |keys|;
      var order := [];
      if !exactUnique && sorted {
        order := AllColumns();
      }
      EngineRangeReads(start, end);
      var _ := OpenRead(bounds, order, false);
      EngineRead(keys, start, end, table.rows, pending);
      if sorted {
        EngineReadSorted(keys, trustBin, start, end, table.rows, pending, exactUnique);
      }
    }

    method EngineBoundsOf(start: Option<RangeKey>, end: Option<RangeKey>) returns (bounds: seq<Bound>)
      requires start.Some? ==> StartOp(start.value.flag).Some?
      requires end.Some? ==> EndOp(end.value.flag).Some?
      ensures bounds == EngineBounds(keys, start, end)
    {
      bounds := [];
      if start.Some? && start.value.ks != [] {
        bounds := bounds + [KeyBound(keys, start.value.ks, |start.value.ks|, StartOp(start.value.flag).value, {}, {}, Range)];
      }
      if end.Some? && end.value.ks != [] {
        bounds := bounds + [KeyBound(keys, end.value.ks, |end.value.ks|, EndOp(end.value.flag).value, {}, {}, Range)];
      }
    }

    lemma {:induction false} EngineRangeReads(start: Option<RangeKey>, end: Option<RangeKey>)
      requires Valid() && ValidRangeKey(keys, start) && ValidRangeKey(keys, end)
      requires !UnsafeKey(keys, trustBin, start) && !UnsafeKey(keys, trustBin, end)
      requires start.Some? ==> StartOp(start.value.flag).Some?
      requires end.Some? ==> EndOp(end.value.flag).Some?
      ensures Plainly(keys, start, end) && AllRead(keys, EngineBounds(keys, start, end))
    {
      if start.Some? {
        SafeKeyIsByValue(keys, trustBin, start.value);
      }
      if end.Some? {
        SafeKeyIsByValue(keys, trustBin, end.value);
      }
      EngineBoundsMean(keys, start, end, []);
    }

    /** A range the engine only narrows and MariaDB's comparison decides: exactly
        its rows, each once, whatever bounds and flags it has; sorted, they come
        in the index's order but for the misordered pairs. */
    method ReadRangeFiltered(start: Option<RangeKey>, end: Option<RangeKey>, sorted: bool) returns (a: Answer)
      requires Valid() && ValidRangeKey(keys, start) && ValidRangeKey(keys, end)
      modifies this
      ensures Valid()
      ensures a.Found? ==>
                multiset([a.row] + Remaining()) == multiset(Keep(table.rows, InRange(keys, start, end)))
      ensures !a.Found? ==> Keep(table.rows, InRange(keys, start, end)) == []
      ensures a.Found? && sorted ==>
                RangeInOrder(keys, trustBin, start, end, whereConst, [a.row] + Remaining())
    {
      filter := NoFilter;
      var ok := OpenRange(start, end, sorted);
      if !ok {
        return KeyNotFound;
      }
      filter := ByRange(start, end);
      ghost var all := Remaining();
      assert all == Keep(pending, InRange(keys, start, end));
      a := Next();
      if a == EndOfFile {
        EmptyMultiset(Keep(table.rows, InRange(keys, start, end)));
      } else {
        assert all == [a.row] + Remaining();
      }
    }

    method OpenRange(start: Option<RangeKey>, end: Option<RangeKey>, sorted: bool) returns (ok: bool)
      requires Valid() && ValidRangeKey(keys, start) && ValidRangeKey(keys, end) && filter == NoFilter
      modifies this`pending
      ensures Valid()
      ensures ok ==> multiset(Keep(pending, InRange(keys, start, end)))
                     == multiset(Keep(table.rows, InRange(keys, start, end)))
      ensures !ok ==> Keep(table.rows, InRange(keys, start, end)) == []
      ensures ok && sorted ==>
                RangeInOrder(keys, trustBin, start, end, whereConst, Keep(pending, InRange(keys, start, end)))
    {
      var bounds, constPrefix := BoundsOf(start, end);
      RangeBoundsValid(keys, trustBin, start, end);
      var order := RangeOrder(constPrefix, sorted);
      ok := OpenRead(bounds, order, false);
      RangeReadIsComplete(keys, trustBin, start, end, table.rows, pending);
      if ok && sorted {
        KeptRows(table.rows, Within(PartsOf(keys), bounds), pending);
        RangeReadOrdered(keys, trustBin, start, end, whereConst, table.rows, pending);
      }
    }

    /** The bounds the engine gets, and the leading parts every row shares. */
    method BoundsOf(start: Option<RangeKey>, end: Option<RangeKey>) returns (bounds: seq<Bound>, constPrefix: nat)
      requires keys != [] && ValidRangeKey(keys, start) && ValidRangeKey(keys, end)
      ensures bounds == RangeBounds(keys, trustBin, start, end)
      ensures constPrefix == ConstPrefix(start, end, 0)
    {
      constPrefix := 0;
      if start.Some? && end.Some? {
        while constPrefix < |start.value.ks| && constPrefix < |end.value.ks|
              && start.value.ks[constPrefix] == end.value.ks[constPrefix]
          invariant constPrefix <= |start.value.ks|
          invariant ConstPrefix(start, end, constPrefix) == ConstPrefix(start, end, 0)
        {
          constPrefix := constPrefix + 1;
        }
      }
      bounds := [];
      if PartSafe(keys[0], trustBin) {
        if start.Some? && start.value.ks != [] {
          bounds := bounds + [KeyBound(keys, start.value.ks, 1, OpGe, {}, {}, Leading)];
        }
        if end.Some? && end.value.ks != [] {
          bounds := bounds + [KeyBound(keys, end.value.ks, 1, OpLe, {}, {}, Leading)];
        }
      } else if constPrefix > 0 && PartPads(keys[0], trustBin) {
        bounds := [KeyBound(keys, start.value.ks, 1, OpEq, {0}, {0}, Key)];
      }
    }

    method RangeOrder(constPrefix: nat, sorted: bool) returns (order: seq<nat>)
      ensures !sorted ==> order == []
      ensures sorted ==>
                var constant := RangeConstant(keys, constPrefix, whereConst);
                order == OrderColumns(keys, constant, 0, OrderStop(keys, constant, 0))
    {
      order := [];
      if !sorted {
        return;
      }
      ghost var constant := RangeConstant(keys, constPrefix, whereConst);
      ghost var stop := OrderStop(keys, constant, 0);
      for i := 0 to |keys|
        invariant stop == OrderStop(keys, constant, i)
        invariant order + OrderColumns(keys, constant, i, stop) == OrderColumns(keys, constant, 0, stop)
      {
        RangeOrderStep(keys, constant, order, i);
        if !(i < constPrefix || i in whereConst) {
          if !OffersOrder(keys[i]) {
            return;
          }
          order := order + [keys[i].f.column];
        }
      }
    }
  }

  // ------------------------------------------------------ a padded index read

  function PadWeight(): Value -> Value {
    (v: Value) => if v.Text? then Text(PadKey(v.s)) else v
  }

  /** An index on a utf8mb4_bin VARCHAR, then an INT. */
  function PadIndex(width: nat): seq<KeyPart> {
    [KeyPart(Part(0, false, true, width), false, Str(false, true, false, AsIs), PadWeight()),
     KeyPart(Part(1, false, false, 0), false, Plain, (v: Value) => v)]
  }

  lemma {:induction false} PadIndexFaithful(width: nat)
    ensures AllFaithful(PadIndex(width), false)
  {
    var kps := PadIndex(width);
    forall s, t
      ensures CompareValues(PadWeight()(Text(s)), PadWeight()(Text(t))) == ComparePadded(s, t)
    {
      PadKeyOrders(s, t);
    }
    assert PadWeights(kps[0]);
    assert Faithful(kps[0], false) && Faithful(kps[1], false);
  }

  lemma {:induction false} TwoOf(rows: Rows, r: (int, Row), s: (int, Row))
    requires multiset(rows) == multiset([r, s])
    ensures rows == [r, s] || rows == [s, r]
  {
    assert |rows| == |multiset(rows)| == 2;
    assert rows == [rows[0], rows[1]];
    assert rows[0] in multiset(rows) && rows[1] in multiset(rows);
    assert r in multiset([r, s]) && s in multiset([r, s]);
  }

  lemma {:induction false} TwoSorted(rows: Rows, r: (int, Row), s: (int, Row), columns: seq<nat>)
    requires multiset(rows) == multiset([r, s]) && Sorted(rows, columns, false)
    requires CompareBy(r.1, s.1, columns) == Before
    ensures rows == [r, s]
  {
    TwoOf(rows, r, s);
    CompareByAntisymmetric(r.1, s.1, columns);
  }

  lemma {:induction false} PadColumns(width: nat)
    ensures OrderColumns(PadIndex(width), {}, 0, 2) == [0, 1]
  {
    var kps := PadIndex(width);
    assert OrderColumns(kps, {}, 2, 2) == [];
    assert OrderColumns(kps, {}, 1, 2) == [1] + [] == [1];
    assert OrderColumns(kps, {}, 0, 2) == [0] + [1];
  }

  lemma {:induction false} PadRowFits(s: seq<Byte>, i: int, width: nat)
    requires CharCount(s) <= width
    ensures RowFits(PadIndex(width), [Text(s), Integer(i)])
  {
  }

  lemma {:induction false} PadRead(s: seq<Byte>, t: seq<Byte>, width: nat, rows: Rows)
    requires CompareBytes(s, t) == Before
    requires multiset(rows) == multiset([(1, [Text(s), Integer(2)]), (2, [Text(t), Integer(1)])])
    requires Sorted(rows, OrderColumns(PadIndex(width), {}, 0, 2), false)
    ensures rows == [(1, [Text(s), Integer(2)]), (2, [Text(t), Integer(1)])]
  {
    PadColumns(width);
    var first, second: Row := [Text(s), Integer(2)], [Text(t), Integer(1)];
    assert CompareBy(first, second, [0, 1]) == Before;
    TwoSorted(rows, (1, first), (2, second), [0, 1]);
  }

  lemma {:induction false} PadScanned(s: seq<Byte>, t: seq<Byte>, width: nat, rows: Rows)
    requires CompareBytes(s, t) == Before
    requires multiset(rows) == multiset([(1, [Text(s), Integer(2)]), (2, [Text(t), Integer(1)])])
    requires OrderedRead(PadIndex(width), false, {}, 2, {}, rows, false)
    ensures rows == [(1, [Text(s), Integer(2)]), (2, [Text(t), Integer(1)])]
    ensures InKeyOrder(PadIndex(width), rows, 2, false) <==> !Overtakes(s, t)
  {
    PadRead(s, t, width, rows);
    PadPairInOrder(s, t, width, [Text(s), Integer(2)], [Text(t), Integer(1)]);
  }

  lemma {:induction false} PadPairInOrder(s: seq<Byte>, t: seq<Byte>, width: nat, first: Row, second: Row)
    requires CompareBytes(s, t) == Before && first == [Text(s), Integer(2)] && second == [Text(t), Integer(1)]
    ensures var rows := [(1, first), (2, second)];
            InKeyOrder(PadIndex(width), rows, 2, false) <==> !Overtakes(s, t)
  {
    var kps, rows := PadIndex(width), [(1, first), (2, second)];
    PadKeyOrders(s, t);
    PaddedVerdict(s, t);
    assert WeightIn(kps[0], first) == Text(PadKey(s)) && WeightIn(kps[0], second) == Text(PadKey(t));
    assert RowCmp(kps, first, second, 1, 2) == After;
    assert InKeyOrder(kps, rows, 2, false) <==> RowCmp(kps, rows[0].1, rows[1].1, 0, 2) != After;
  }

  method PadHandler(s: seq<Byte>, t: seq<Byte>, width: nat) returns (handler: Handler)
    requires CharCount(s) <= width && CharCount(t) <= width
    ensures fresh(handler) && handler.Valid()
    ensures handler.keys == PadIndex(width) && !handler.trustBin
    ensures handler.table.rows == [(1, [Text(s), Integer(2)]), (2, [Text(t), Integer(1)])]
  {
    PadIndexFaithful(width);
    PadRowFits(s, 2, width);
    PadRowFits(t, 1, width);
    handler := new Handler(Table([(1, [Text(s), Integer(2)]), (2, [Text(t), Integer(1)])], None), PadIndex(width),
                           false, false, true, {});
  }

  method PadScan(s: seq<Byte>, t: seq<Byte>, width: nat) returns (rows: Rows)
    requires CharCount(s) <= width && CharCount(t) <= width
    ensures multiset(rows) == multiset([(1, [Text(s), Integer(2)]), (2, [Text(t), Integer(1)])])
    ensures OrderedRead(PadIndex(width), false, {}, 2, {}, rows, false)
  {
    var handler := PadHandler(s, t, width);
    assert |handler.keys| == 2;
    rows := handler.ReadAll(false);
  }

  /** Two texts, the one bytes put first with the larger number: read from the
      start of the index they come out of MariaDB's order if and only if the
      second overtakes the first, as 'a ' or 'a' and a tab do 'a'. */
  method PaddedScan(s: seq<Byte>, t: seq<Byte>) returns (rows: Rows)
    requires CompareBytes(s, t) == Before
    ensures rows == [(1, [Text(s), Integer(2)]), (2, [Text(t), Integer(1)])]
    ensures InKeyOrder(PadIndex(CharCount(s) + CharCount(t)), rows, 2, false) <==> !Overtakes(s, t)
  {
    var width := CharCount(s) + CharCount(t);
    rows := PadScan(s, t, width);
    PadScanned(s, t, width, rows);
  }
}
