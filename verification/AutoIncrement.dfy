/** The process-wide AUTO_INCREMENT allocator (`stoolap_bridge.cc`). Every value
    is a uint64: that the arithmetic never wraps is part of what verifies. */
module AutoIncrement {
  import opened Values

  const MAX: int := 0xFFFF_FFFF_FFFF_FFFF

  newtype uint64 = x: int | 0 <= x <= MAX

  const UINT64_MAX: uint64 := 0xFFFF_FFFF_FFFF_FFFF

  // --------------------------------------------------------------- arithmetic

  /** The smallest value from `cur` on that is `offset` modulo `step`, or the
      largest uint64 when there is none. */
  function RoundUp(cur: uint64, step: uint64, offset: uint64): (r: uint64)
    ensures r >= cur
  {
    if step <= 1 then cur
    else
      var off := if offset >= step then offset % step else offset;
      var m := cur % step;
      if m == off then cur
      else
        var bump := if off > m then off - m else step - (m - off);
        if bump > UINT64_MAX - cur then UINT64_MAX else cur + bump
  }

  /** One past the last of `count` ids `step` apart, saturated. */
  function Advance(first: uint64, count: uint64, step: uint64): uint64 {
    if count <= 1 then (if first == UINT64_MAX then UINT64_MAX else first + 1)
    else
      var factor := count - 1;
      if step != 0 && factor > UINT64_MAX / step then UINT64_MAX
      else
        ProductFits(factor as int, step as int);
        var span := factor * step;
        if span > UINT64_MAX - first then UINT64_MAX
        else
          var last := first + span;
          if last == UINT64_MAX then UINT64_MAX else last + 1
  }

  lemma {:induction false} ProductFits(x: int, y: int)
    requires x >= 0 && y >= 0
    ensures y == 0 ==> x * y == 0
    ensures y > 0 ==> (x <= MAX / y <==> x * y <= MAX)
    ensures x * y >= 0
  {
    if y > 0 {
      var q := MAX / y;
      assert q * y <= MAX < (q + 1) * y;
      if x <= q {
        assert x * y <= q * y;
      } else {
        assert x * y >= (q + 1) * y;
      }
    }
  }

  lemma {:induction false} ModOfSum(q: int, s: int, r: int)
    requires s > 0 && 0 <= r < s
    ensures (q * s + r) % s == r
  {
    var x := q * s + r;
    assert x == (x / s) * s + x % s;
    var d := x / s - q;
    assert d * s == r - x % s;
    assert d >= 1 ==> d * s >= s;
    assert d <= -1 ==> d * s <= -s;
  }

  /** Congruent to the offset, as MariaDB's id ladder asks. */
  ghost predicate OnLadder(v: int, step: uint64, offset: uint64) {
    step > 1 ==> v % step as int == offset as int % step as int
  }

  lemma {:induction false} RoundUpIsLeast(cur: uint64, step: uint64, offset: uint64)
    ensures var r := RoundUp(cur, step, offset);
            && (forall v :: cur as int <= v < r as int ==> !OnLadder(v, step, offset))
            && (OnLadder(r as int, step, offset) || r == UINT64_MAX)
  {
    if step > 1 {
      var s, off := step as int, offset as int % step as int;
      var c := cur as int;
      var q, m := c / s, c % s;
      assert c == q * s + m;
      var target := if off >= m then q * s + off else (q + 1) * s + off;
      ModOfSum(q, s, off);
      ModOfSum(q + 1, s, off);
      if offset < step {
        assert offset as int % s == offset as int by { ModOfSum(0, s, offset as int); }
      }
      assert (q + 1) * s == q * s + s;
      forall v | c <= v < target ensures v % s != off {
        var d := v - q * s;
        if d < s {
          ModOfSum(q, s, d);
        } else {
          ModOfSum(q + 1, s, d - s);
        }
      }
    }
  }

  lemma {:induction false} AdvanceIsPastTheLast(first: uint64, count: uint64, step: uint64)
    requires step > 0 && count > 0
    ensures var last := first as int + (count as int - 1) * step as int;
            Advance(first, count, step) as int == if last < MAX then last + 1 else MAX
  {
    ProductFits(count as int - 1, step as int);
    if count == 1 {
      assert (count as int - 1) * step as int == 0;
    }
  }

  // --------------------------------------------------------------- operations

  datatype Op =
    | Reserve(name: string, count: uint64, step: uint64, offset: uint64)
    | SeedAndReserve(name: string, seed: uint64, count: uint64, step: uint64, offset: uint64)
    | Note(name: string, value: uint64)
    | Invalidate

  type Cursors = map<string, uint64>

  function AtLeastOne(x: uint64): uint64 { if x == 0 then 1 else x }

  /** The cursors after an operation, and the first id it reserves, if any. */
  function Apply(m: Cursors, op: Op): (Cursors, Option<uint64>) {
    match op
    case Reserve(name, count, step, offset) =>
      if name !in m then (m, None)
      else
        var f := RoundUp(m[name], AtLeastOne(step), offset);
        (m[name := Advance(f, AtLeastOne(count), AtLeastOne(step))], Some(f))
    case SeedAndReserve(name, seed, count, step, offset) =>
      var next := if name in m && m[name] >= seed then m[name] else seed;
      var f := RoundUp(next, AtLeastOne(step), offset);
      (m[name := Advance(f, AtLeastOne(count), AtLeastOne(step))], Some(f))
    case Note(name, value) =>
      if value == UINT64_MAX then (m, None)
      else
        var next := if name in m then m[name] else 0;
        (m[name := if next <= value then value + 1 else next], None)
    case Invalidate => (map[], None)
  }

  function After(ops: seq<Op>): Cursors {
    if ops == [] then map[] else Apply(After(ops[..|ops| - 1]), ops[|ops| - 1]).0
  }

  /** The first id operation j reserves in the run. */
  function FirstId(ops: seq<Op>, j: nat): Option<uint64>
    requires j < |ops|
  {
    Apply(After(ops[..j]), ops[j]).1
  }

  function Nth(first: uint64, step: uint64, i: int): int {
    first as int + i * step as int
  }

  /** The ids an operation takes for a table: those it reserves, or the explicit
      one it notes (the largest uint64 is never noted). */
  ghost predicate Takes(op: Op, first: Option<uint64>, name: string, id: int) {
    match op
    case Reserve(n, count, step, _) =>
      n == name && first.Some? &&
      exists i :: 0 <= i < AtLeastOne(count) as int && id == Nth(first.value, AtLeastOne(step), i)
    case SeedAndReserve(n, _, count, step, _) =>
      n == name && first.Some? &&
      exists i :: 0 <= i < AtLeastOne(count) as int && id == Nth(first.value, AtLeastOne(step), i)
    case Note(n, value) => n == name && value != UINT64_MAX && id == value as int
    case Invalidate => false
  }

  /** The cursor is past the id, or saturated. */
  ghost predicate Past(m: Cursors, name: string, id: int) {
    name in m && (m[name] == UINT64_MAX || id < m[name] as int)
  }

  lemma {:induction false} AdvancePastAll(first: uint64, count: uint64, step: uint64, i: int)
    requires step > 0 && 0 <= i < count as int
    ensures var a := Advance(first, count, step);
            a == UINT64_MAX || Nth(first, step, i) < a as int
  {
    AdvanceIsPastTheLast(first, count, step);
    Monotonic(i, count as int - 1, step as int);
  }

  lemma {:induction false} Monotonic(x: int, y: int, z: int)
    requires x <= y && z >= 0
    ensures x * z <= y * z
  {
    assert (y - x) * z >= 0;
  }

  lemma {:induction false} TakenIsPast(m: Cursors, op: Op, name: string, id: int)
    requires Takes(op, Apply(m, op).1, name, id)
    ensures Past(Apply(m, op).0, name, id)
  {
    if op.Reserve? || op.SeedAndReserve? {
      var f := Apply(m, op).1.value;
      var i :| 0 <= i < AtLeastOne(op.count) as int && id == Nth(f, AtLeastOne(op.step), i);
      AdvancePastAll(f, AtLeastOne(op.count), AtLeastOne(op.step), i);
    }
  }

  /** Once past an id, a cursor stays past it, and gives none at or below it. */
  lemma {:induction false} PastStays(m: Cursors, op: Op, name: string, id: int)
    requires Past(m, name, id) && op != Invalidate
    ensures Past(Apply(m, op).0, name, id)
    ensures (op.Reserve? || op.SeedAndReserve?) && op.name == name && Apply(m, op).1.value < UINT64_MAX ==>
              id < Apply(m, op).1.value as int
  {
    if (op.Reserve? || op.SeedAndReserve?) && op.name == name {
      var f := Apply(m, op).1.value;
      AdvancePastAll(f, AtLeastOne(op.count), AtLeastOne(op.step), 0);
    }
  }

  lemma {:induction false} PastThroughout(ops: seq<Op>, i: nat, j: nat, name: string, id: int)
    requires i < j <= |ops| && Takes(ops[i], FirstId(ops, i), name, id)
    requires forall k :: i < k < j ==> ops[k] != Invalidate
    ensures Past(After(ops[..j]), name, id)
  {
    assert ops[..j][..j - 1] == ops[..j - 1];
    if j == i + 1 {
      TakenIsPast(After(ops[..i]), ops[i], name, id);
    } else {
      PastThroughout(ops, i, j - 1, name, id);
      PastStays(After(ops[..j - 1]), ops[j - 1], name, id);
    }
  }

  /** Over every interleaving, with whatever steps and offsets: a reservation
      that has not run out starts above every id reserved or noted for its table
      since the last invalidation. */
  lemma {:induction false} ReservationsAreFresh(ops: seq<Op>, i: nat, j: nat, id: int)
    requires i < j < |ops| && (ops[j].Reserve? || ops[j].SeedAndReserve?)
    requires Takes(ops[i], FirstId(ops, i), ops[j].name, id)
    requires forall k :: i < k < j ==> ops[k] != Invalidate
    requires FirstId(ops, j).Some? && FirstId(ops, j).value < UINT64_MAX
    ensures id < FirstId(ops, j).value as int
  {
    PastThroughout(ops, i, j, ops[j].name, id);
    PastStays(After(ops[..j]), ops[j], ops[j].name, id);
  }

  /** Past the end it stays there: the largest uint64 is given again, which the
      table refuses as a duplicate. */
  lemma {:induction false} RunOutRepeats(m: Cursors, op: Op)
    requires (op.Reserve? || op.SeedAndReserve?) && op.name in m && m[op.name] == UINT64_MAX
    ensures Apply(m, op) == (m[op.name := UINT64_MAX], Some(UINT64_MAX))
  {
    AdvanceIsPastTheLast(UINT64_MAX, AtLeastOne(op.count), AtLeastOne(op.step));
    ProductFits(AtLeastOne(op.count) as int - 1, AtLeastOne(op.step) as int);
  }

  /** A noted id is behind the cursor if and only if it is not the largest uint64,
      or the cursor had run out already. */
  lemma {:induction false} NotedIsPast(m: Cursors, name: string, value: uint64)
    ensures Past(Apply(m, Note(name, value)).0, name, value as int) <==>
            value != UINT64_MAX || (name in m && m[name] == UINT64_MAX)
  {
    var next := if name in m then m[name] else 0;
    if value != UINT64_MAX {
      assert Apply(m, Note(name, value)).0[name] == if next <= value then value + 1 else next;
    }
  }

  /** With the largest uint64 not noted, the next reservation starts from its
      seed, below it. */
  lemma {:induction false} LargestIdIsNotNoted(name: string)
    ensures var ops := [Note(name, UINT64_MAX), SeedAndReserve(name, 1, 1, 1, 0)];
            FirstId(ops, 1) == Some(1)
  {
    var ops := [Note(name, UINT64_MAX), SeedAndReserve(name, 1, 1, 1, 0)];
    assert ops[..1] == [Note(name, UINT64_MAX)];
    assert After(ops[..1]) == map[];
  }

  /** The first id is on the ladder, and the least one there from the cursor (or
      the seed, when that is larger). */
  lemma {:induction false} FirstIdIsLeast(m: Cursors, op: Op)
    requires op.Reserve? || op.SeedAndReserve?
    requires Apply(m, op).1.Some?
    ensures var f := Apply(m, op).1.value as int;
            var from := if op.Reserve? then m[op.name] as int
                        else if op.name in m && m[op.name] > op.seed then m[op.name] as int else op.seed as int;
            && from <= f
            && (forall v :: from <= v < f ==> !OnLadder(v, AtLeastOne(op.step), op.offset))
            && (f < MAX ==> OnLadder(f, AtLeastOne(op.step), op.offset))
  {
    var from := if op.Reserve? then m[op.name]
                else if op.name in m && m[op.name] > op.seed then m[op.name] else op.seed;
    RoundUpIsLeast(from, AtLeastOne(op.step), op.offset);
  }

  // ------------------------------------------------------- no id passed over

  /** Operation i comes before j with no invalidation since. */
  ghost predicate Since(ops: seq<Op>, i: nat, j: nat) {
    i < j <= |ops| && forall k :: i < k < j ==> ops[k] != Invalidate
  }

  ghost predicate TakesAt(ops: seq<Op>, i: nat, name: string, id: int)
    requires i < |ops|
  {
    Takes(ops[i], FirstId(ops, i), name, id)
  }

  /** The id was taken for the table before operation j, and since the last
      invalidation. */
  ghost predicate TakenBefore(ops: seq<Op>, j: nat, name: string, id: int)
    requires j <= |ops|
  {
    exists i :: 0 <= i < j && Since(ops, i, j) && TakesAt(ops, i, name, id)
  }

  /** Where a cursor is: one past some id taken, or at the largest uint64 when
      that is no lower. */
  predicate OnePast(cursor: uint64, id: int) {
    cursor as int == if id < MAX then id + 1 else MAX
  }

  /** What one operation leaves: the cursor it found, or one past an id it took. */
  lemma {:induction false} CursorMoves(m: Cursors, op: Op, name: string) returns (id: Option<int>)
    requires name in Apply(m, op).0
    ensures op != Invalidate
    ensures id.None? ==> name in m && Apply(m, op).0[name] == m[name]
    ensures id.Some? ==> Takes(op, Apply(m, op).1, name, id.value) && OnePast(Apply(m, op).0[name], id.value)
  {
    id := None;
    if op.name == name {
      if op.Note? {
        var next := if name in m then m[name] else 0;
        id := if op.value == UINT64_MAX || next > op.value then None else Some(op.value as int);
      } else if op.SeedAndReserve? || name in m {
        var count, step := AtLeastOne(op.count), AtLeastOne(op.step);
        var f := Apply(m, op).1.value;
        id := Some(Nth(f, step, count as int - 1));
        AdvanceIsPastTheLast(f, count, step);
      }
    }
  }

  /** After every run the cursor is one past an id taken since the last
      invalidation: it has not skipped any. */
  lemma {:induction false} CursorIsOnePast(ops: seq<Op>, j: nat, name: string) returns (id: int)
    requires j <= |ops| && name in After(ops[..j])
    ensures TakenBefore(ops, j, name, id) && OnePast(After(ops[..j])[name], id)
  {
    if j > 0 {
      AfterOneMore(ops, j - 1);
      var moved := CursorMoves(After(ops[..j - 1]), ops[j - 1], name);
      if moved.Some? {
        id := moved.value;
        assert Since(ops, j - 1, j) && TakesAt(ops, j - 1, name, id);
      } else {
        id := CursorIsOnePast(ops, j - 1, name);
        TakenStays(ops, j - 1, name, id);
      }
    }
  }

  lemma {:induction false} AfterOneMore(ops: seq<Op>, j: nat)
    requires j < |ops|
    ensures After(ops[..j + 1]) == Apply(After(ops[..j]), ops[j]).0
  {
    assert ops[..j + 1][..j] == ops[..j];
  }

  lemma {:induction false} TakenStays(ops: seq<Op>, j: nat, name: string, id: int)
    requires j < |ops| && ops[j] != Invalidate && TakenBefore(ops, j, name, id)
    ensures TakenBefore(ops, j + 1, name, id)
  {
    var i :| 0 <= i < j && Since(ops, i, j) && TakesAt(ops, i, name, id);
    assert Since(ops, i, j + 1);
  }

  lemma {:induction false} TakenIsBehind(ops: seq<Op>, j: nat, name: string)
    requires j <= |ops|
    ensures forall id :: TakenBefore(ops, j, name, id) ==> Past(After(ops[..j]), name, id)
  {
    forall id | TakenBefore(ops, j, name, id) ensures Past(After(ops[..j]), name, id) {
      var i :| 0 <= i < j && Since(ops, i, j) && TakesAt(ops, i, name, id);
      PastThroughout(ops, i, j, name, id);
    }
  }

  /** An id a reservation may start from: on its ladder, not below its seed, and
      above every id taken for the table since the last invalidation. */
  ghost predicate Free(ops: seq<Op>, j: nat, v: int)
    requires j < |ops| && (ops[j].Reserve? || ops[j].SeedAndReserve?)
  {
    && OnLadder(v, AtLeastOne(ops[j].step), ops[j].offset)
    && (ops[j].SeedAndReserve? ==> v >= ops[j].seed as int)
    && (forall id :: TakenBefore(ops, j, ops[j].name, id) ==> id < v)
  }

  /** A reservation's first id is the least one free, so none of its ladder is
      passed over; it is the largest uint64 only when no id below that is free.
      There is none at all exactly when nothing was taken and no seed is given. */
  lemma {:induction false} FirstIdIsLeastFree(ops: seq<Op>, j: nat)
    requires j < |ops| && (ops[j].Reserve? || ops[j].SeedAndReserve?)
    ensures FirstId(ops, j).None? <==>
            ops[j].Reserve? && forall id :: !TakenBefore(ops, j, ops[j].name, id)
    ensures FirstId(ops, j).Some? ==>
              var f := FirstId(ops, j).value as int;
              && (f < MAX ==> Free(ops, j, f))
              && (forall v :: 0 <= v <= MAX && Free(ops, j, v) ==> f <= v)
  {
    var m, op := After(ops[..j]), ops[j];
    TakenIsBehind(ops, j, op.name);
    if op.name in m {
      var id := CursorIsOnePast(ops, j, op.name);
    }
    if FirstId(ops, j).Some? {
      FirstIdIsLeast(m, op);
      var f := FirstId(ops, j).value;
      forall id | TakenBefore(ops, j, op.name, id) && f < UINT64_MAX ensures id < f as int {
        PastStays(m, op, op.name, id);
      }
    }
  }

  /** One past the largest stored value, which a negative one counts as 0. */
  function SeedOf(stored: int): uint64
    requires stored <= 0x7FFF_FFFF_FFFF_FFFF
  {
    if stored > 0 then (stored + 1) as uint64 else 1
  }

  /** A positive id above the stored ones, with none on the ladder between. */
  ghost predicate Seeded(stored: int, first: uint64, step: uint64, offset: uint64) {
    && first >= 1 && first as int > stored
    && forall v :: 1 <= v < first as int && v > stored ==> !OnLadder(v, step, offset)
  }

  lemma {:induction false} SeededIsLeast(m: Cursors, name: string, stored: int, count: uint64, step: uint64, offset: uint64)
    requires name !in m && stored <= 0x7FFF_FFFF_FFFF_FFFF && step > 0
    ensures Seeded(stored, Apply(m, SeedAndReserve(name, SeedOf(stored), count, step, offset)).1.value, step, offset)
  {
    FirstIdIsLeast(m, SeedAndReserve(name, SeedOf(stored), count, step, offset));
  }

  // --------------------------------------------------------------- the engine

  class Engine {
    var aiNext: Cursors

    constructor ()
      ensures aiNext == map[]
    {
      aiNext := map[];
    }

    method AiReserve(name: string, count: uint64, step: uint64, offset: uint64) returns (first: Option<uint64>)
      modifies this
      ensures (aiNext, first) == Apply(old(aiNext), Reserve(name, count, step, offset))
    {
      var n, s := AtLeastOne(count), AtLeastOne(step);
      if name !in aiNext {
        return None;
      }
      var f := RoundUp(aiNext[name], s, offset);
      aiNext := aiNext[name := Advance(f, n, s)];
      return Some(f);
    }

    method AiSeedAndReserve(name: string, seed: uint64, count: uint64, step: uint64, offset: uint64)
      returns (first: uint64)
      modifies this
      ensures (aiNext, Some(first)) == Apply(old(aiNext), SeedAndReserve(name, seed, count, step, offset))
    {
      var n, s := AtLeastOne(count), AtLeastOne(step);
      var next := if name in aiNext then aiNext[name] else 0;
      if next < seed {
        next := seed;
      }
      first := RoundUp(next, s, offset);
      aiNext := aiNext[name := Advance(first, n, s)];
    }

    method AiNoteExplicit(name: string, value: uint64)
      modifies this
      ensures aiNext == Apply(old(aiNext), Note(name, value)).0
    {
      if value == UINT64_MAX {
        return;
      }
      var next := if name in aiNext then aiNext[name] else 0;
      if next <= value {
        next := value + 1;
      }
      aiNext := aiNext[name := next];
    }

    method AiInvalidate()
      modifies this
      ensures aiNext == Apply(old(aiNext), Invalidate).0
    {
      aiNext := map[];
    }

    /** get_auto_increment of the handler: a reservation, or one seeded from the
        largest stored value when the table has no cursor (`stored` is None when
        that cannot be read, and then no id is given). */
    method GetAutoIncrement(name: string, offset: uint64, increment: uint64, desired: uint64,
                            stored: Option<int>) returns (first: uint64, reserved: uint64)
      requires stored.Some? ==> stored.value <= 0x7FFF_FFFF_FFFF_FFFF
      modifies this
      ensures reserved == AtLeastOne(desired)
      ensures old(name in aiNext) ==>
                (aiNext, Some(first)) ==
                Apply(old(aiNext), Reserve(name, reserved, AtLeastOne(increment), offset % AtLeastOne(increment)))
      ensures old(name !in aiNext) && stored.None? ==> aiNext == old(aiNext) && first == UINT64_MAX
      ensures old(name !in aiNext) && stored.Some? ==>
                Seeded(stored.value, first, AtLeastOne(increment), offset % AtLeastOne(increment)) &&
                (aiNext, Some(first)) ==
                Apply(old(aiNext), SeedAndReserve(name, SeedOf(stored.value), reserved, AtLeastOne(increment),
                                                  offset % AtLeastOne(increment)))
    {
      reserved := AtLeastOne(desired);
      var step := AtLeastOne(increment);
      var mod := offset % step;
      var got := AiReserve(name, reserved, step, mod);
      if got.Some? {
        return got.value, reserved;
      }
      if stored.None? {
        return UINT64_MAX, reserved;
      }
      var seed := SeedOf(stored.value);
      SeededIsLeast(aiNext, name, stored.value, reserved, step, mod);
      first := AiSeedAndReserve(name, seed, reserved, step, mod);
    }
  }
}
