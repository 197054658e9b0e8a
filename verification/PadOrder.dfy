/** How a PAD SPACE collation orders text: as if the shorter of two texts went
    on with spaces. Where the engine's order of the bytes is another one, and a
    weight that sorts by bytes as the collation does. */
module PadOrder {
  import opened Values
  import opened KeyBounds

  function First(s: seq<Byte>): Byte {
    if s == [] then SPACE else s[0]
  }

  function Tail(s: seq<Byte>): seq<Byte> {
    if s == [] then [] else s[1..]
  }

  function ComparePadded(s: seq<Byte>, t: seq<Byte>): Order
    decreases |s| + |t|
  {
    if s == [] && t == [] then Same
    else if First(s) < First(t) then Before
    else if First(s) > First(t) then After
    else ComparePadded(Tail(s), Tail(t))
  }

  predicate AllSpaces(u: seq<Byte>) {
    forall i :: 0 <= i < |u| ==> u[i] == SPACE
  }

  /** Spaces up to the end, or up to a byte below a space. */
  predicate AtMostSpaces(u: seq<Byte>) {
    u == [] || u[0] < SPACE || (u[0] == SPACE && AtMostSpaces(u[1..]))
  }

  /** `t` goes on past `s` with at most spaces: to the collation it is no later,
      to the engine it is. */
  predicate Overtakes(s: seq<Byte>, t: seq<Byte>) {
    s < t && AtMostSpaces(t[|s|..])
  }

  lemma {:induction false} PaddedAntisymmetric(s: seq<Byte>, t: seq<Byte>)
    ensures ComparePadded(t, s) == ComparePadded(s, t).Reverse()
    decreases |s| + |t|
  {
    if (s != [] || t != []) && First(s) == First(t) {
      PaddedAntisymmetric(Tail(s), Tail(t));
    }
  }

  lemma {:induction false} PaddedEmpty(u: seq<Byte>)
    ensures ComparePadded([], u) == if AllSpaces(u) then Same else if AtMostSpaces(u) then After else Before
  {
    if u != [] && u[0] == SPACE {
      PaddedEmpty(u[1..]);
      assert AllSpaces(u) <==> AllSpaces(u[1..]);
    }
  }

  /** Of a text bytes put first: what the collation makes of the two. */
  lemma {:induction false} PaddedVerdict(s: seq<Byte>, t: seq<Byte>)
    requires CompareBytes(s, t) == Before
    ensures ComparePadded(s, t) == if !Overtakes(s, t) then Before else if AllSpaces(t[|s|..]) then Same else After
  {
    if s == [] {
      PaddedEmpty(t);
      assert t[0..] == t;
      if AllSpaces(t) {
        SpacesAreAtMost(t);
      }
    } else if s[0] == t[0] {
      PaddedVerdict(s[1..], t[1..]);
      assert s < t <==> s[1..] < t[1..];
      assert s < t ==> t[|s|..] == t[1..][|s[1..]|..];
    }
  }

  lemma {:induction false} SpacesAreAtMost(u: seq<Byte>)
    requires AllSpaces(u)
    ensures AtMostSpaces(u)
  {
    if u != [] {
      SpacesAreAtMost(u[1..]);
    }
  }

  /** Bytes order two texts as the collation does if and only if neither goes on
      past the other with at most spaces. */
  lemma {:induction false} BytesOrderPadded(s: seq<Byte>, t: seq<Byte>)
    ensures CompareBytes(s, t) == ComparePadded(s, t) <==> !Overtakes(s, t) && !Overtakes(t, s)
  {
    BytesAntisymmetric(s, t);
    PaddedAntisymmetric(s, t);
    match CompareBytes(s, t)
    case Before => PaddedVerdict(s, t); NotBothPrefixes(s, t);
    case After => PaddedVerdict(t, s); NotBothPrefixes(t, s);
    case Same => PaddedItself(s);
  }

  lemma {:induction false} NotBothPrefixes(s: seq<Byte>, t: seq<Byte>)
    requires CompareBytes(s, t) == Before
    ensures !(t < s)
  {
    if t < s {
      assert s == t + s[|t|..];
      BytesPrefix(t, s[|t|..]);
      BytesAntisymmetric(s, t);
    }
  }

  lemma {:induction false} PaddedItself(s: seq<Byte>)
    ensures ComparePadded(s, s) == Same
  {
    if s != [] {
      PaddedItself(s[1..]);
    }
  }

  lemma {:induction false} PaddedSpaces(t: seq<Byte>, k: nat)
    ensures ComparePadded(t, t + Spaces(k)) == Same
  {
    if t == [] {
      assert [] + Spaces(k) == Spaces(k);
      PaddedEmpty(Spaces(k));
    } else {
      assert (t + Spaces(k))[1..] == t[1..] + Spaces(k);
      PaddedSpaces(t[1..], k);
    }
  }

  /** Texts are equal to the collation when they are but for trailing spaces. */
  lemma {:induction false} PaddedEqual(s: seq<Byte>, t: seq<Byte>)
    ensures ComparePadded(s, t) == Same <==> TrimEnd(s) == TrimEnd(t)
  {
    if |s| <= |t| {
      PaddedEqualShorter(s, t);
    } else {
      PaddedEqualShorter(t, s);
      PaddedAntisymmetric(s, t);
    }
  }

  lemma {:induction false} PaddedEqualShorter(s: seq<Byte>, t: seq<Byte>)
    requires |s| <= |t|
    ensures ComparePadded(s, t) == Same <==> TrimEnd(s) == TrimEnd(t)
  {
    if TrimEnd(s) == TrimEnd(t) {
      TrimSplits(s);
      TrimSplits(t);
      var k := |t| - |s|;
      assert t == s + Spaces(k);
      PaddedSpaces(s, k);
    }
    if ComparePadded(s, t) == Same {
      BytesAntisymmetric(s, t);
      PaddedAntisymmetric(s, t);
      if CompareBytes(s, t) == Before {
        PaddedVerdict(s, t);
        assert t == s + Spaces(|t| - |s|);
        TrimPadded(s, |t| - |s|);
      } else if CompareBytes(s, t) == After {
        PaddedVerdict(t, s);
      }
    }
  }

  // --------------------------------------------------------------- a weight

  /** Before each byte, whether what is left is below, at or above spaces. */
  function PadKey(s: seq<Byte>): seq<Byte> {
    match ComparePadded(s, [])
    case Same => [2]
    case Before => [1, First(s)] + PadKey(Tail(s))
    case After => [3, First(s)] + PadKey(Tail(s))
  }

  /** Two texts on different sides of spaces. */
  lemma {:induction false} PaddedSides(s: seq<Byte>, t: seq<Byte>)
    ensures var x, y := ComparePadded(s, []), ComparePadded(t, []);
            && (x == y == Same ==> ComparePadded(s, t) == Same)
            && (x != y && (x == Before || y == After) ==> ComparePadded(s, t) == Before)
            && (x != y && (x == After || y == Before) ==> ComparePadded(s, t) == After)
    decreases |s| + |t|
  {
    if (s != [] || t != []) && First(s) == First(t) {
      PaddedSides(Tail(s), Tail(t));
    }
  }

  lemma {:induction false} PadKeyOrders(s: seq<Byte>, t: seq<Byte>)
    ensures CompareBytes(PadKey(s), PadKey(t)) == ComparePadded(s, t)
    decreases |s| + |t|
  {
    var x, y := ComparePadded(s, []), ComparePadded(t, []);
    PaddedSides(s, t);
    if x == y && x != Same {
      PadKeyOrders(Tail(s), Tail(t));
      var p, q := PadKey(s), PadKey(t);
      assert p[1..][0] == First(s) && q[1..][0] == First(t);
      assert p[1..][1..] == PadKey(Tail(s)) && q[1..][1..] == PadKey(Tail(t));
      assert CompareBytes(p, q) == CompareBytes(p[1..], q[1..]);
    }
  }

  // ------------------------------------------------------------ hex storage

  /** An upper-case hexadecimal digit. */
  predicate IsDigit(c: Byte) {
    48 <= c <= 57 || 65 <= c <= 70
  }

  function Digit(c: Byte): (d: Byte)
    requires IsDigit(c)
    ensures d < 16
  {
    if c <= 57 then c - 48 else c - 55
  }

  predicate IsHex(s: seq<Byte>) {
    s == [] || (|s| >= 2 && IsDigit(s[0]) && IsDigit(s[1]) && IsHex(s[2..]))
  }

  /** The bytes that hex text stores. */
  function Unhex(s: seq<Byte>): seq<Byte>
    requires IsHex(s)
  {
    if s == [] then [] else [Digit(s[0]) * 16 + Digit(s[1])] + Unhex(s[2..])
  }

  /** Hex text sorts as the bytes it stores. */
  lemma {:induction false} HexOrders(s: seq<Byte>, t: seq<Byte>)
    requires IsHex(s) && IsHex(t)
    ensures CompareBytes(Unhex(s), Unhex(t)) == CompareBytes(s, t)
  {
    if s != [] && t != [] {
      HexOrders(s[2..], t[2..]);
      assert s[1..][1..] == s[2..] && t[1..][1..] == t[2..];
      assert Unhex(s)[1..] == Unhex(s[2..]) && Unhex(t)[1..] == Unhex(t[2..]);
    }
  }
}
