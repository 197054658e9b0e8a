/** The record codec (`record.rs`): a row's values into MariaDB's record buffer
    and back, for the integer and VARCHAR kinds it takes itself. */
module Record {
  import opened Values
  import KeyBounds

  // ---------------------------------------------------------------------- layout

  /** Callback stands for the kinds handed to the plugin's store and encode. */
  datatype Kind = Int | VarChar | Callback

  /** A field's NULL bit: the byte, and which of its bits. */
  datatype NullBit = NullBit(at: nat, bit: nat)

  datatype Field = Field(column: nat, kind: Kind, offset: nat, nullBit: Option<NullBit>, length: nat, maxBytes: nat,
                         unsigned: bool, packLength: nat)

  type Bytes = seq<Byte>

  function Power(n: nat): nat {
    if n == 0 then 1 else 256 * Power(n - 1)
  }

  lemma {:induction false} Powers()
    ensures Power(0) == 1 && Power(1) == 0x100 && Power(2) == 0x1_0000 && Power(3) == 0x100_0000
    ensures Power(4) == 0x1_0000_0000 && Power(8) == 0x1_0000_0000_0000_0000
  {
    assert Power(5) == 256 * Power(4);
    assert Power(6) == 256 * Power(5);
    assert Power(7) == 256 * Power(6);
  }

  /** What MariaDB's table definition guarantees of a field. */
  predicate WellFormed(f: Field, size: nat) {
    && f.offset + f.packLength <= size
    && (f.nullBit.Some? ==> f.nullBit.value.at < size && f.nullBit.value.bit < 8)
    && KindFits(f)
  }

  predicate KindFits(f: Field) {
    && (f.kind.Int? ==> f.length in {1, 2, 3, 4, 8} && f.packLength == f.length)
    && (f.kind.VarChar? ==> f.length in {1, 2} && f.length + f.maxBytes <= f.packLength &&
                            f.packLength - f.length < Power(f.length))
  }

  predicate Apart(f: Field, g: Field) {
    && (f.offset + f.packLength <= g.offset || g.offset + g.packLength <= f.offset)
    && (f.nullBit.Some? ==> !(g.offset <= f.nullBit.value.at < g.offset + g.packLength))
    && (g.nullBit.Some? ==> !(f.offset <= g.nullBit.value.at < f.offset + f.packLength))
    && (f.nullBit.Some? ==> f.nullBit != g.nullBit)
  }

  /** A field's NULL byte is not among its own bytes. */
  predicate OwnNullApart(f: Field) {
    f.nullBit.Some? ==> !(f.offset <= f.nullBit.value.at < f.offset + f.packLength)
  }

  ghost predicate Layout(fields: seq<Field>, size: nat) {
    && (forall i :: 0 <= i < |fields| ==> WellFormed(fields[i], size) && OwnNullApart(fields[i]))
    && (forall i, j :: 0 <= i < j < |fields| ==> Apart(fields[i], fields[j]))
  }

  // -------------------------------------------------------------------- NULL bits

  /** A byte's bits from the low end: `bit` is the mask `1 << bit`. */
  predicate HasBit(b: nat, bit: nat) {
    if bit == 0 then b % 2 == 1 else HasBit(b / 2, bit - 1)
  }

  /** `b | mask`. */
  function SetBit(b: nat, bit: nat): nat {
    if bit == 0 then b - b % 2 + 1 else b % 2 + 2 * SetBit(b / 2, bit - 1)
  }

  /** `b & !mask`. */
  function ClearBit(b: nat, bit: nat): nat {
    if bit == 0 then b - b % 2 else b % 2 + 2 * ClearBit(b / 2, bit - 1)
  }

  function TwoTo(n: nat): nat {
    if n == 0 then 1 else 2 * TwoTo(n - 1)
  }

  lemma {:induction false} BitsBound(b: nat, bit: nat, width: nat)
    requires bit < width && b < TwoTo(width)
    ensures SetBit(b, bit) < TwoTo(width) && ClearBit(b, bit) < TwoTo(width)
  {
    var half := TwoTo(width - 1);
    assert b == 2 * (b / 2) + b % 2 && b / 2 < half;
    if bit > 0 {
      BitsBound(b / 2, bit - 1, width - 1);
    }
  }

  /** Setting or clearing a bit changes that one. */
  lemma {:induction false} OtherBits(b: nat, bit: nat, other: nat)
    ensures HasBit(SetBit(b, bit), other) == (bit == other || HasBit(b, other))
    ensures HasBit(ClearBit(b, bit), other) == (bit != other && HasBit(b, other))
  {
    if bit > 0 {
      Halved(b, SetBit(b / 2, bit - 1));
      Halved(b, ClearBit(b / 2, bit - 1));
      if other > 0 {
        OtherBits(b / 2, bit - 1, other - 1);
      }
    } else {
      assert (b - b % 2) % 2 == 0 && (b - b % 2) / 2 == b / 2;
      assert (b - b % 2 + 1) % 2 == 1 && (b - b % 2 + 1) / 2 == b / 2;
    }
  }

  lemma {:induction false} Halved(b: nat, rest: nat)
    ensures (b % 2 + 2 * rest) % 2 == b % 2 && (b % 2 + 2 * rest) / 2 == rest
  {
  }

  function Marked(b: Byte, bit: nat, isNull: bool): Byte
    requires bit < 8
  {
    assert TwoTo(8) == 256 by {
      assert TwoTo(4) == 16;
      assert TwoTo(6) == 64;
    }
    BitsBound(b as nat, bit, 8);
    (if isNull then SetBit(b as nat, bit) else ClearBit(b as nat, bit)) as Byte
  }

  // ---------------------------------------------------------------- little endian

  function ToBytes(x: nat, n: nat): (b: Bytes)
    ensures |b| == n
  {
    if n == 0 then [] else [(x % 256) as Byte] + ToBytes(x / 256, n - 1)
  }

  function FromBytes(b: Bytes): nat {
    if b == [] then 0 else b[0] as int + 256 * FromBytes(b[1..])
  }

  lemma {:induction false} RoundTripBytes(x: nat, n: nat)
    requires x < Power(n)
    ensures FromBytes(ToBytes(x, n)) == x
  {
    if n > 0 {
      RoundTripBytes(x / 256, n - 1);
      assert ToBytes(x, n)[1..] == ToBytes(x / 256, n - 1);
    }
  }

  lemma {:induction false} BytesBound(b: Bytes)
    ensures FromBytes(b) < Power(|b|)
  {
    if b != [] {
      BytesBound(b[1..]);
    }
  }

  /** The low bytes of a number. */
  lemma {:induction false} LowBytes(x: nat, n: nat, m: nat)
    requires n <= m
    ensures ToBytes(x, m)[..n] == ToBytes(x, n)
  {
    if n > 0 {
      LowBytes(x / 256, n - 1, m - 1);
      assert ToBytes(x, m)[..n] == [(x % 256) as Byte] + ToBytes(x / 256, m - 1)[..n - 1];
    }
  }

  lemma {:induction false} Carry(x: nat, y: nat)
    ensures (x + 256 * y) / 256 == x / 256 + y && (x + 256 * y) % 256 == x % 256
  {
  }

  /** They do not see a multiple of their own size. */
  lemma {:induction false} LowBytesWrap(x: nat, k: nat, n: nat)
    ensures ToBytes(x + Power(n) * k, n) == ToBytes(x, n)
  {
    if n > 0 {
      Times256(Power(n - 1), k);
      var y := Power(n - 1) * k;
      assert x + Power(n) * k == x + 256 * y;
      Carry(x, y);
      LowBytesWrap(x / 256, k, n - 1);
    }
  }

  lemma {:induction false} FromConcat(a: Bytes, b: Bytes)
    ensures FromBytes(a + b) == FromBytes(a) + Power(|a|) * FromBytes(b)
  {
    if a == [] {
      assert a + b == b;
    } else {
      assert (a + b)[1..] == a[1..] + b;
      FromConcat(a[1..], b);
      var y := Power(|a| - 1) * FromBytes(b);
      Times256(Power(|a| - 1), FromBytes(b));
      assert FromBytes(a + b) == a[0] as int + 256 * (FromBytes(a[1..]) + y);
    }
  }

  // --------------------------------------------------------------------- integers

  const INT64_MIN := -0x8000_0000_0000_0000
  const INT64_MAX := 0x7fff_ffff_ffff_ffff
  const TWO_64 := 0x1_0000_0000_0000_0000

  /** Whether a value fits an integer field. */
  predicate IntFits(v: int, length: nat, unsigned: bool) {
    if length == 8 then true
    else if unsigned then 1 <= length <= 4 && 0 <= v < Power(length)
    else 1 <= length <= 4 && -(Power(length) / 2) <= v < Power(length) / 2
  }

  /** The value's two's complement, its low `length` bytes. */
  function IntBytes(v: int, length: nat): Bytes
    requires INT64_MIN <= v <= INT64_MAX && length <= 8
  {
    ToBytes(if v < 0 then v + TWO_64 else v, 8)[..length]
  }

  function Repeat(b: Byte, n: nat): (r: Bytes)
    ensures |r| == n
  {
    if n == 0 then [] else [b] + Repeat(b, n - 1)
  }

  /** `i64::from_le_bytes` of the bytes with the sign extended; None for a
      BIGINT UNSIGNED past INT64_MAX. */
  function IntOf(b: Bytes, unsigned: bool): Option<int>
    requires 1 <= |b| <= 8
  {
    var negative := !unsigned && |b| < 8 && b[|b| - 1] >= 128;
    var x := FromBytes(b + Repeat(if negative then 255 else 0, 8 - |b|));
    var v := if x > INT64_MAX then x - TWO_64 else x;
    if !unsigned || |b| < 8 || v >= 0 then Some(v) else None
  }

  lemma {:induction false} RepeatValue(n: nat)
    ensures FromBytes(Repeat(0, n)) == 0
    ensures FromBytes(Repeat(255, n)) == Power(n) - 1
  {
    if n > 0 {
      RepeatValue(n - 1);
      assert Repeat(0, n)[1..] == Repeat(0, n - 1);
      assert Repeat(255, n)[1..] == Repeat(255, n - 1);
    }
  }

  lemma {:induction false} LessOne(p: int, q: int)
    ensures p * (q - 1) == p * q - p && p * 0 == 0
  {
  }

  lemma {:induction false} Times256(p: int, q: int)
    ensures (256 * p) * q == 256 * (p * q)
  {
  }

  lemma {:induction false} PowerSplit(n: nat, m: nat)
    ensures Power(n) * Power(m) == Power(n + m)
  {
    if n > 0 {
      PowerSplit(n - 1, m);
      Times256(Power(n - 1), Power(m));
    }
  }

  /** The bytes' value, sign extended. */
  lemma {:induction false} ExtendedValue(b: Bytes)
    requires 1 <= |b| <= 8
    ensures FromBytes(b + Repeat(0, 8 - |b|)) == FromBytes(b)
    ensures FromBytes(b + Repeat(255, 8 - |b|)) == FromBytes(b) + Power(8) - Power(|b|)
  {
    var n := |b|;
    FromConcat(b, Repeat(0, 8 - n));
    FromConcat(b, Repeat(255, 8 - n));
    RepeatValue(8 - n);
    PowerSplit(n, 8 - n);
    LessOne(Power(n), Power(8 - n));
  }

  /** The last byte's high bit is whether the value is in the upper half. */
  lemma {:induction false} HighBit(b: Bytes)
    requires b != []
    ensures b[|b| - 1] >= 128 <==> 2 * FromBytes(b) >= Power(|b|)
  {
    if |b| > 1 {
      HighBit(b[1..]);
      HighStep(b[0] as int, FromBytes(b[1..]), Power(|b| - 1), Power(|b| - 2));
    } else {
      assert b[1..] == [] && Power(1) == 256 * Power(0);
    }
  }

  lemma {:induction false} HighStep(x: int, rest: int, size: int, smaller: int)
    requires 0 <= x < 256 && size == 256 * smaller
    ensures 2 * (x + 256 * rest) >= 256 * size <==> 2 * rest >= size
  {
    var half := 128 * smaller;
    if rest < half {
      assert 512 * rest <= 512 * half - 512;
    } else {
      assert 512 * rest >= 512 * half;
    }
  }

  /** What IntBytes holds: the value modulo the field's size. */
  lemma {:induction false} IntBytesValue(v: int, length: nat)
    requires INT64_MIN <= v <= INT64_MAX && length in {1, 2, 3, 4, 8}
    requires -(Power(length) / 2) <= v < Power(length)
    ensures |IntBytes(v, length)| == length
    ensures FromBytes(IntBytes(v, length)) == if v < 0 then v + Power(length) else v
  {
    Powers();
    var u := if v < 0 then v + TWO_64 else v;
    var w := if v < 0 then v + Power(length) else v;
    LowBytes(u, length, 8);
    PowerSplit(length, 8 - length);
    if v < 0 {
      LowBytesWrap(w, Power(8 - length) - 1, length);
      LessOne(Power(length), Power(8 - length));
    }
    RoundTripBytes(w, length);
  }

  /** An integer written directly is read back, a BIGINT UNSIGNED one unless it
      is negative. */
  lemma {:induction false} IntRoundTrip(v: int, length: nat, unsigned: bool)
    requires INT64_MIN <= v <= INT64_MAX && length in {1, 2, 3, 4, 8} && IntFits(v, length, unsigned)
    ensures |IntBytes(v, length)| == length
    ensures IntOf(IntBytes(v, length), unsigned) == if unsigned && length == 8 && v < 0 then None else Some(v)
  {
    Powers();
    var b := IntBytes(v, length);
    IntBytesValue(v, length);
    ExtendedValue(b);
    HighBit(b);
    RepeatValue(0);
  }

  // ------------------------------------------------------------------------ UTF-8

  predicate Cont(b: Byte) {
    128 <= b < 192
  }

  /** The bytes of the first character, 0 when they are no UTF-8. */
  function CharLength(s: Bytes): (n: nat)
    requires s != []
    ensures n <= |s|
  {
    var b := s[0];
    if b < 0x80 then 1
    else if 0xc2 <= b < 0xe0 && |s| >= 2 && Cont(s[1]) then 2
    else if 0xe0 <= b < 0xf0 && |s| >= 3 && Cont(s[1]) && Cont(s[2]) && (b == 0xe0 ==> s[1] >= 0xa0) &&
            (b == 0xed ==> s[1] < 0xa0) then 3
    else if 0xf0 <= b < 0xf5 && |s| >= 4 && Cont(s[1]) && Cont(s[2]) && Cont(s[3]) && (b == 0xf0 ==> s[1] >= 0x90) &&
            (b == 0xf4 ==> s[1] < 0x90) then 4
    else 0
  }

  predicate Utf8(s: Bytes)
    decreases |s|
  {
    s == [] || (CharLength(s) > 0 && Utf8(s[CharLength(s)..]))
  }

  // ----------------------------------------------------------------------- writing

  /** What `write_direct` puts at the field, None for one the field's
      kind leaves to the callback. An Integer is an i64. */
  function DirectBytes(f: Field, v: Value): Option<Bytes> {
    if f.kind.Int? && (v.Integer? || v.Boolean?) then
      var i := if v.Integer? then v.i else if v.b then 1 else 0;
      if INT64_MIN <= i <= INT64_MAX && f.length <= 8 && IntFits(i, f.length, f.unsigned)
      then Some(IntBytes(i, f.length)) else None
    else if f.kind.VarChar? && v.Text? && |v.s| <= f.maxBytes && f.length <= 2 then
      Some(ToBytes(|v.s|, 2)[..f.length] + v.s)
    else None
  }

  function MarkNull(rec: Bytes, f: Field, isNull: bool): (r: Bytes)
    requires WellFormed(f, |rec|)
    ensures |r| == |rec|
  {
    if f.nullBit.None? then rec
    else rec[f.nullBit.value.at := Marked(rec[f.nullBit.value.at], f.nullBit.value.bit, isNull)]
  }

  function Splice(rec: Bytes, at: nat, b: Bytes): (r: Bytes)
    requires at + |b| <= |rec|
    ensures |r| == |rec|
    ensures forall p :: 0 <= p < |rec| ==> r[p] == if at <= p < at + |b| then b[p - at] else rec[p]
  {
    rec[..at] + b + rec[at + |b|..]
  }

  lemma {:induction false} DirectFits(f: Field, v: Value, size: nat)
    requires WellFormed(f, size) && DirectBytes(f, v).Some?
    ensures |DirectBytes(f, v).value| <= f.packLength
  {
  }

  /** One field; false when the value is the store callback's. */
  function WriteField(rec: Bytes, f: Field, v: Value): (r: (Bytes, bool))
    requires WellFormed(f, |rec|)
    ensures |r.0| == |rec|
  {
    if v.Null? then (MarkNull(rec, f, true), f.nullBit.Some?)
    else
      var marked := MarkNull(rec, f, false);
      var d := DirectBytes(f, v);
      if d.None? then (marked, false)
      else
        DirectFits(f, v, |rec|);
        (Splice(marked, f.offset, d.value), true)
  }

  /** `write_record`: up to the first field the callback would store. */
  function WriteFields(rec: Bytes, fields: seq<Field>, row: Row): (r: (Bytes, bool))
    requires forall i :: 0 <= i < |fields| ==> WellFormed(fields[i], |rec|)
    ensures |r.0| == |rec|
    decreases |fields|
  {
    if fields == [] then (rec, true)
    else
      var (next, ok) := WriteField(rec, fields[0], Get(row, fields[0].column));
      if !ok then (next, false) else WriteFields(next, fields[1..], row)
  }

  // ----------------------------------------------------------------------- reading

  predicate IsNull(rec: Bytes, f: Field)
    requires WellFormed(f, |rec|)
  {
    f.nullBit.Some? && HasBit(rec[f.nullBit.value.at] as nat, f.nullBit.value.bit)
  }

  /** `read_value`; None for a value the encode callback would give. */
  function ReadField(rec: Bytes, f: Field): Option<Value>
    requires WellFormed(f, |rec|)
  {
    if IsNull(rec, f) then Some(Null)
    else ReadBytes(f, rec[f.offset..f.offset + f.packLength])
  }

  function ReadBytes(f: Field, own: Bytes): Option<Value>
    requires |own| == f.packLength && KindFits(f)
  {
    match f.kind
    case Int =>
      var i := IntOf(own[..f.length], f.unsigned);
      if i.None? then None else Some(Integer(i.value))
    case VarChar =>
      var n := FromBytes(own[..f.length]);
      if f.length + n > f.packLength then None
      else
        var s := own[f.length..f.length + n];
        if Utf8(s) then Some(Text(s)) else None
    case Callback => None
  }

  function ReadFields(rec: Bytes, fields: seq<Field>): Option<seq<Value>>
    requires forall i :: 0 <= i < |fields| ==> WellFormed(fields[i], |rec|)
    decreases |fields|
  {
    if fields == [] then Some([])
    else
      var v :- ReadField(rec, fields[0]);
      var rest :- ReadFields(rec, fields[1..]);
      Some([v] + rest)
  }

  // -------------------------------------------------------------------- round trip

  /** What a written value reads back as: a boolean as 1 or 0, and a negative
      BIGINT UNSIGNED not at all. */
  function ReadBack(f: Field, v: Value): Option<Value> {
    match v
    case Null => Some(Null)
    case Boolean(b) => Some(Integer(if b then 1 else 0))
    case Integer(i) => if f.unsigned && f.length == 8 && i < 0 then None else Some(v)
    case Text(_) => Some(v)
  }

  predicate EngineValue(v: Value) {
    v.Text? ==> Utf8(v.s)
  }

  lemma {:induction false} DirectReads(f: Field, v: Value, own: Bytes)
    requires KindFits(f)
    requires |own| == f.packLength && DirectBytes(f, v).Some? && EngineValue(v)
    requires DirectBytes(f, v).value <= own
    ensures ReadBytes(f, own) == ReadBack(f, v)
  {
    var d := DirectBytes(f, v).value;
    if f.kind.Int? {
      var i := if v.Integer? then v.i else if v.b then 1 else 0;
      IntRoundTrip(i, f.length, f.unsigned);
      assert own[..f.length] == d;
    } else {
      Powers();
      LowBytes(|v.s|, f.length, 2);
      RoundTripBytes(|v.s|, f.length);
      assert own[..f.length] == ToBytes(|v.s|, f.length);
      assert own[f.length..f.length + |v.s|] == v.s;
    }
  }

  /** One field, written directly and read. */
  lemma {:induction false} FieldRoundTrip(rec: Bytes, f: Field, v: Value)
    requires WellFormed(f, |rec|) && OwnNullApart(f) && EngineValue(v)
    requires WriteField(rec, f, v).1
    ensures ReadField(WriteField(rec, f, v).0, f) == ReadBack(f, v)
  {
    var r := WriteField(rec, f, v).0;
    if f.nullBit.Some? {
      var at, bit := f.nullBit.value.at, f.nullBit.value.bit;
      OtherBits(rec[at] as nat, bit, bit);
      assert r[at] == Marked(rec[at], bit, v.Null?);
    }
    if !v.Null? {
      var d := DirectBytes(f, v).value;
      var own := r[f.offset..f.offset + f.packLength];
      DirectFits(f, v, |rec|);
      assert d <= own by {
        forall p | 0 <= p < |d|
          ensures own[p] == d[p]
        {
          assert own[p] == r[f.offset + p];
        }
      }
      DirectReads(f, v, own);
    }
  }

  /** The NULL bit is set exactly for NULL. */
  lemma {:induction false} NullFormat(rec: Bytes, f: Field, v: Value)
    requires WellFormed(f, |rec|) && OwnNullApart(f) && f.nullBit.Some?
    ensures IsNull(WriteField(rec, f, v).0, f) == v.Null?
  {
    var at, bit := f.nullBit.value.at, f.nullBit.value.bit;
    OtherBits(rec[at] as nat, bit, bit);
    if DirectBytes(f, v).Some? {
      DirectFits(f, v, |rec|);
    }
    assert WriteField(rec, f, v).0[at] == Marked(rec[at], bit, v.Null?);
  }

  /** An integer is its two's complement, least significant byte first. */
  lemma {:induction false} IntFormat(rec: Bytes, f: Field, v: Value)
    requires WellFormed(f, |rec|) && WriteField(rec, f, v).1 && (v.Integer? || v.Boolean?)
    ensures var i := if v.Integer? then v.i else if v.b then 1 else 0;
      FromBytes(WriteField(rec, f, v).0[f.offset..f.offset + f.length]) == if i < 0 then i + Power(f.length) else i
  {
    var i := if v.Integer? then v.i else if v.b then 1 else 0;
    Powers();
    IntBytesValue(i, f.length);
    assert WriteField(rec, f, v).0[f.offset..f.offset + f.length] == IntBytes(i, f.length);
  }

  /** A VARCHAR is its length, least significant byte first, and its bytes. */
  lemma {:induction false} TextFormat(rec: Bytes, f: Field, v: Value)
    requires WellFormed(f, |rec|) && WriteField(rec, f, v).1 && v.Text?
    ensures var r := WriteField(rec, f, v).0;
      && f.offset + f.length + |v.s| <= |r|
      && FromBytes(r[f.offset..f.offset + f.length]) == |v.s|
      && forall k :: 0 <= k < |v.s| ==> r[f.offset + f.length + k] == v.s[k]
  {
    var r := WriteField(rec, f, v).0;
    var d := DirectBytes(f, v).value;
    DirectFits(f, v, |rec|);
    Powers();
    LowBytes(|v.s|, f.length, 2);
    RoundTripBytes(|v.s|, f.length);
    assert r[f.offset..f.offset + f.length] == ToBytes(|v.s|, f.length);
    forall k | 0 <= k < |v.s|
      ensures r[f.offset + f.length + k] == v.s[k]
    {
      assert r[f.offset + (f.length + k)] == d[f.length + k];
    }
  }

  predicate Outside(f: Field, p: nat) {
    p < f.offset || f.offset + f.packLength <= p
  }

  /** Writing a field changes no byte outside it but its NULL byte, and there no
      bit but its own. */
  lemma {:induction false} WriteFrame(rec: Bytes, f: Field, v: Value)
    requires WellFormed(f, |rec|)
    ensures var r := WriteField(rec, f, v).0;
      && (forall p :: 0 <= p < |rec| && Outside(f, p) && !(f.nullBit.Some? && f.nullBit.value.at == p) ==>
            r[p] == rec[p])
      && (forall p, bit: nat :: 0 <= p < |rec| && Outside(f, p) && f.nullBit != Some(NullBit(p, bit)) ==>
            HasBit(r[p] as nat, bit) == HasBit(rec[p] as nat, bit))
  {
    var r := WriteField(rec, f, v).0;
    if DirectBytes(f, v).Some? {
      DirectFits(f, v, |rec|);
    }
    forall p, bit: nat | 0 <= p < |rec| && Outside(f, p) && f.nullBit != Some(NullBit(p, bit))
      ensures HasBit(r[p] as nat, bit) == HasBit(rec[p] as nat, bit)
    {
      if f.nullBit.Some? && f.nullBit.value.at == p {
        OtherBits(rec[p] as nat, f.nullBit.value.bit, bit);
        assert r[p] == Marked(rec[p], f.nullBit.value.bit, v.Null?);
      }
    }
  }

  /** A field apart from it reads as before. */
  lemma {:induction false} OtherFieldStays(rec: Bytes, f: Field, v: Value, g: Field)
    requires WellFormed(f, |rec|) && WellFormed(g, |rec|) && Apart(f, g)
    ensures ReadField(WriteField(rec, f, v).0, g) == ReadField(rec, g)
  {
    var r := WriteField(rec, f, v).0;
    WriteFrame(rec, f, v);
    FrameReads(rec, r, f, g);
  }

  lemma {:induction false} FrameReads(rec: Bytes, r: Bytes, f: Field, g: Field)
    requires |r| == |rec| && WellFormed(f, |rec|) && WellFormed(g, |rec|) && Apart(f, g)
    requires forall p :: 0 <= p < |rec| && Outside(f, p) && !(f.nullBit.Some? && f.nullBit.value.at == p) ==> r[p] == rec[p]
    requires forall p, bit: nat :: 0 <= p < |rec| && Outside(f, p) && f.nullBit != Some(NullBit(p, bit)) ==>
               HasBit(r[p] as nat, bit) == HasBit(rec[p] as nat, bit)
    ensures ReadField(r, g) == ReadField(rec, g)
  {
    assert r[g.offset..g.offset + g.packLength] == rec[g.offset..g.offset + g.packLength];
    if g.nullBit.Some? {
      assert f.nullBit != Some(NullBit(g.nullBit.value.at, g.nullBit.value.bit));
    }
    assert IsNull(r, g) == IsNull(rec, g);
  }

  lemma {:induction false} OthersStay(rec: Bytes, fields: seq<Field>, row: Row, g: Field)
    requires forall i :: 0 <= i < |fields| ==> WellFormed(fields[i], |rec|) && Apart(fields[i], g)
    requires WellFormed(g, |rec|)
    ensures ReadField(WriteFields(rec, fields, row).0, g) == ReadField(rec, g)
    decreases |fields|
  {
    if fields != [] {
      var v := Get(row, fields[0].column);
      OtherFieldStays(rec, fields[0], v, g);
      OthersStay(WriteField(rec, fields[0], v).0, fields[1..], row, g);
    }
  }

  /** Every field of a record written whole reads back its column. */
  lemma {:induction false} RoundTrip(rec: Bytes, fields: seq<Field>, row: Row, k: nat)
    requires Layout(fields, |rec|) && WriteFields(rec, fields, row).1 && k < |fields|
    requires EngineValue(Get(row, fields[k].column))
    ensures ReadField(WriteFields(rec, fields, row).0, fields[k]) == ReadBack(fields[k], Get(row, fields[k].column))
    decreases |fields|
  {
    var f := fields[0];
    var v := Get(row, f.column);
    var next := WriteField(rec, f, v).0;
    if k == 0 {
      FieldRoundTrip(rec, f, v);
      var rest := fields[1..];
      forall i | 0 <= i < |rest|
        ensures WellFormed(rest[i], |next|) && Apart(rest[i], f)
      {
        assert rest[i] == fields[i + 1] && Apart(fields[0], fields[i + 1]);
      }
      OthersStay(next, rest, row, f);
    } else {
      RoundTrip(next, fields[1..], row, k - 1);
    }
  }

  /** The record's own round trip: integers and texts come back as they were
      (booleans as 1 or 0), whenever every value is taken directly and no
      BIGINT UNSIGNED one is negative. */
  lemma {:induction false} RecordRoundTrip(rec: Bytes, fields: seq<Field>, row: Row)
    requires Layout(fields, |rec|) && WriteFields(rec, fields, row).1
    requires forall k :: 0 <= k < |fields| ==>
               EngineValue(Get(row, fields[k].column)) && ReadBack(fields[k], Get(row, fields[k].column)).Some?
    ensures var r := ReadFields(WriteFields(rec, fields, row).0, fields);
      && r.Some? && |r.value| == |fields|
      && forall k :: 0 <= k < |fields| ==> Some(r.value[k]) == ReadBack(fields[k], Get(row, fields[k].column))
  {
    forall k | 0 <= k < |fields|
      ensures ReadField(WriteFields(rec, fields, row).0, fields[k]) == ReadBack(fields[k], Get(row, fields[k].column))
    {
      RoundTrip(rec, fields, row, k);
    }
    ReadEach(WriteFields(rec, fields, row).0, fields);
  }

  lemma {:induction false} ReadEach(rec: Bytes, fields: seq<Field>)
    requires forall i :: 0 <= i < |fields| ==> WellFormed(fields[i], |rec|) && ReadField(rec, fields[i]).Some?
    ensures var r := ReadFields(rec, fields);
      r.Some? && |r.value| == |fields| && forall k :: 0 <= k < |fields| ==> Some(r.value[k]) == ReadField(rec, fields[k])
    decreases |fields|
  {
    if fields != [] {
      ReadEach(rec, fields[1..]);
    }
  }

  /** No byte of another field, nor a NULL bit of another, changes. */
  lemma {:induction false} RecordFrame(rec: Bytes, fields: seq<Field>, row: Row, p: nat, bit: nat)
    requires forall i :: 0 <= i < |fields| ==> WellFormed(fields[i], |rec|)
    requires p < |rec| && forall i :: 0 <= i < |fields| ==>
               Outside(fields[i], p) && fields[i].nullBit != Some(NullBit(p, bit))
    ensures HasBit(WriteFields(rec, fields, row).0[p] as nat, bit) == HasBit(rec[p] as nat, bit)
    ensures (forall i :: 0 <= i < |fields| && fields[i].nullBit.Some? ==> fields[i].nullBit.value.at != p) ==>
              WriteFields(rec, fields, row).0[p] == rec[p]
    decreases |fields|
  {
    if fields != [] {
      var v := Get(row, fields[0].column);
      WriteFrame(rec, fields[0], v);
      RecordFrame(WriteField(rec, fields[0], v).0, fields[1..], row, p, bit);
    }
  }

  // -------------------------------------------------------------- same_in, key_value

  /** `same_in`: the same NULL bit and the same bytes. */
  predicate SameIn(f: Field, a: Bytes, b: Bytes)
    requires WellFormed(f, |a|) && WellFormed(f, |b|)
  {
    && IsNull(a, f) == IsNull(b, f)
    && a[f.offset..f.offset + f.packLength] == b[f.offset..f.offset + f.packLength]
  }

  /** What is the same in both reads the same; an integer that reads the same in
      both and is NULL in neither is the same. */
  lemma {:induction false} SameReadsSame(f: Field, a: Bytes, b: Bytes)
    requires WellFormed(f, |a|) && WellFormed(f, |b|)
    ensures SameIn(f, a, b) ==> ReadField(a, f) == ReadField(b, f)
    ensures f.kind.Int? && ReadField(a, f) == ReadField(b, f) && ReadField(a, f).Some? && !IsNull(a, f) && !IsNull(b, f)
            ==> SameIn(f, a, b)
  {
    if f.kind.Int? && ReadField(a, f) == ReadField(b, f) && ReadField(a, f).Some? && !IsNull(a, f) && !IsNull(b, f) {
      var x, y := a[f.offset..f.offset + f.packLength], b[f.offset..f.offset + f.packLength];
      assert x[..f.length] == x && y[..f.length] == y;
      IntsDiffer(a[f.offset..f.offset + f.packLength], b[f.offset..f.offset + f.packLength], f.unsigned);
    }
  }

  lemma {:induction false} BytesDiffer(a: Bytes, b: Bytes)
    requires |a| == |b| && FromBytes(a) == FromBytes(b)
    ensures a == b
  {
    if a != [] {
      BytesDiffer(a[1..], b[1..]);
      assert a == [a[0]] + a[1..] && b == [b[0]] + b[1..];
    }
  }

  /** Two's complement is one to one. */
  lemma {:induction false} IntsDiffer(a: Bytes, b: Bytes, unsigned: bool)
    requires |a| == |b| && |a| in {1, 2, 3, 4, 8}
    requires IntOf(a, unsigned) == IntOf(b, unsigned) && IntOf(a, unsigned).Some?
    ensures a == b
  {
    Powers();
    ExtendedValue(a);
    ExtendedValue(b);
    BytesBound(a);
    BytesBound(b);
    HighBit(a);
    HighBit(b);
    BytesDiffer(a, b);
  }

  /** `key_value` of an integer part. */
  function KeyValueOf(rec: Bytes, f: Field): Option<KeyBounds.KeyValue>
    requires WellFormed(f, |rec|) && f.kind.Int?
  {
    if IsNull(rec, f) then Some(KeyBounds.NullKey)
    else if f.length == 8 && f.unsigned && rec[f.offset + 7] >= 128 then Some(KeyBounds.Beyond)
    else
      var v :- ReadField(rec, f);
      Some(KeyBounds.Known(v))
  }

  /** An integer key part is never the encode callback's, and is beyond every
      stored value exactly when it is a BIGINT UNSIGNED past INT64_MAX. */
  lemma {:induction false} BeyondMeans(rec: Bytes, f: Field)
    requires WellFormed(f, |rec|) && f.kind.Int?
    ensures KeyValueOf(rec, f).Some?
    ensures KeyValueOf(rec, f) == Some(KeyBounds.Beyond) <==>
            !IsNull(rec, f) && f.unsigned && FromBytes(rec[f.offset..f.offset + f.length]) > INT64_MAX
  {
    Powers();
    var b := rec[f.offset..f.offset + f.length];
    assert rec[f.offset..f.offset + f.packLength][..f.length] == b;
    HighBit(b);
    BytesBound(b);
    ExtendedValue(b);
    RepeatValue(0);
    assert f.length == 8 ==> b[7] == rec[f.offset + 7];
  }

  // --------------------------------------------------------------------- in place

  /** Copies bytes into the record. */
  method CopyInto(record: array<Byte>, at: nat, b: Bytes)
    requires at + |b| <= record.Length
    modifies record
    ensures record[..] == Splice(old(record[..]), at, b)
  {
    var i := 0;
    while i < |b|
      invariant 0 <= i <= |b|
      invariant forall p :: 0 <= p < record.Length ==>
                  record[p] == if at <= p < at + i then b[p - at] else old(record[p])
    {
      record[at + i] := b[i];
      i := i + 1;
    }
  }

  method WriteDirect(f: Field, v: Value, record: array<Byte>) returns (ok: bool)
    requires WellFormed(f, record.Length)
    modifies record
    ensures ok == DirectBytes(f, v).Some?
    ensures ok ==> f.offset + |DirectBytes(f, v).value| <= record.Length &&
                   record[..] == Splice(old(record[..]), f.offset, DirectBytes(f, v).value)
    ensures !ok ==> record[..] == old(record[..])
  {
    var d := DirectBytes(f, v);
    if d.None? {
      return false;
    }
    DirectFits(f, v, record.Length);
    CopyInto(record, f.offset, d.value);
    return true;
  }

  method WriteOne(f: Field, v: Value, record: array<Byte>) returns (ok: bool)
    requires WellFormed(f, record.Length)
    modifies record
    ensures record[..] == WriteField(old(record[..]), f, v).0 && ok == WriteField(old(record[..]), f, v).1
  {
    ghost var before := record[..];
    if f.nullBit.Some? {
      var at := f.nullBit.value.at;
      record[at] := Marked(record[at], f.nullBit.value.bit, v.Null?);
    }
    assert record[..] == MarkNull(before, f, v.Null?);
    if v.Null? {
      return f.nullBit.Some?;
    }
    ok := WriteDirect(f, v, record);
  }

  /** `write_record`, without a store callback. */
  method WriteRecord(fields: seq<Field>, row: Row, record: array<Byte>) returns (ok: bool)
    requires forall i :: 0 <= i < |fields| ==> WellFormed(fields[i], record.Length)
    modifies record
    ensures record[..] == WriteFields(old(record[..]), fields, row).0
    ensures ok == WriteFields(old(record[..]), fields, row).1
  {
    var i := 0;
    assert fields[0..] == fields;
    while i < |fields|
      invariant 0 <= i <= |fields|
      invariant WriteFields(record[..], fields[i..], row) == WriteFields(old(record[..]), fields, row)
    {
      assert fields[i..][0] == fields[i] && fields[i..][1..] == fields[i + 1..];
      var more := WriteOne(fields[i], Get(row, fields[i].column), record);
      if !more {
        return false;
      }
      i := i + 1;
    }
    return true;
  }

  /** The integer kind of `read_value`: eight bytes of its own, filled from the
      field and, past it, with its sign. */
  method ReadInt(f: Field, record: array<Byte>) returns (v: Option<int>)
    requires WellFormed(f, record.Length) && f.kind.Int?
    ensures v == IntOf(record[f.offset..f.offset + f.length], f.unsigned)
  {
    var n := f.length;
    var own := record[f.offset..f.offset + n];
    var b := new Byte[8](_ => 0);
    CopyInto(b, 0, own);
    var negative := !f.unsigned && n < 8 && b[n - 1] >= 128;
    var i := n;
    while negative && i < 8
      invariant n <= i <= 8
      invariant forall p :: 0 <= p < 8 ==> b[p] == if p < n then own[p] else if negative && p < i then 255 else 0
    {
      b[i] := 255;
      i := i + 1;
    }
    RepeatIs(if negative then 255 else 0, 8 - n);
    assert b[..] == own + Repeat(if negative then 255 else 0, 8 - n);
    assert b[..n] == own;
    var x := FromBytes(b[..]);
    var value := if x > INT64_MAX then x - TWO_64 else x;
    v := if !f.unsigned || n < 8 || value >= 0 then Some(value) else None;
  }

  lemma {:induction false} RepeatIs(b: Byte, n: nat)
    ensures forall k :: 0 <= k < n ==> Repeat(b, n)[k] == b
  {
    if n > 0 {
      RepeatIs(b, n - 1);
    }
  }
}
