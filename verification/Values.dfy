/** The values both engines exchange, and the one order they agree on: NULL
    before every value, integers by size, text by its bytes. */
module Values {

  newtype Byte = x: int | 0 <= x < 256

  datatype Option<+T> = None | Some(value: T) {
    predicate IsFailure() { None? }

    function PropagateFailure<U>(): Option<U>
      requires IsFailure()
    {
      None
    }

    function Extract(): T
      requires !IsFailure()
    {
      value
    }
  }

  datatype Result<+T> = Ok(value: T) | Err(message: string) {
    predicate IsFailure() { Err? }

    function PropagateFailure<U>(): Result<U>
      requires IsFailure()
    {
      Err(message)
    }

    function Extract(): T
      requires !IsFailure()
    {
      value
    }
  }

  /** SQL's three truth values. */
  datatype Tri = Yes | No | Unknown

  datatype Value =
    | Null
    | Boolean(b: bool)
    | Integer(i: int)
    | Text(s: seq<Byte>)

  type Row = seq<Value>

  /** Rows with their row ids. */
  type Rows = seq<(int, Row)>

  datatype Order = Before | Same | After {
    function Reverse(): Order {
      match this
      case Before => After
      case Same => Same
      case After => Before
    }
  }

  /** A row's value in a column, NULL past its end (`row.get(c)`). */
  function Get(row: Row, c: nat): Value {
    if c < |row| then row[c] else Null
  }

  function CompareBytes(s: seq<Byte>, t: seq<Byte>): Order {
    if s == [] then if t == [] then Same else Before
    else if t == [] then After
    else if s[0] < t[0] then Before
    else if s[0] > t[0] then After
    else CompareBytes(s[1..], t[1..])
  }

  function Rank(v: Value): nat {
    match v
    case Null => 0
    case Boolean(_) => 1
    case Integer(_) => 2
    case Text(_) => 3
  }

  function CompareInts(x: int, y: int): Order {
    if x < y then Before else if x == y then Same else After
  }

  /** MariaDB's order of two values. */
  function CompareValues(x: Value, y: Value): Order {
    if x.Boolean? && y.Boolean? then CompareInts(if x.b then 1 else 0, if y.b then 1 else 0)
    else if x.Integer? && y.Integer? then CompareInts(x.i, y.i)
    else if x.Text? && y.Text? then CompareBytes(x.s, y.s)
    else CompareInts(Rank(x), Rank(y))
  }

  predicate Leq(x: Value, y: Value) {
    CompareValues(x, y) != After
  }

  lemma {:induction false} BytesAntisymmetric(s: seq<Byte>, t: seq<Byte>)
    ensures CompareBytes(t, s) == CompareBytes(s, t).Reverse()
    ensures CompareBytes(s, t) == Same <==> s == t
  {
    if s != [] && t != [] && s[0] == t[0] {
      BytesAntisymmetric(s[1..], t[1..]);
      assert s == [s[0]] + s[1..] && t == [t[0]] + t[1..];
    }
  }

  lemma {:induction false} BytesTransitive(s: seq<Byte>, t: seq<Byte>, u: seq<Byte>)
    requires CompareBytes(s, t) != After && CompareBytes(t, u) != After
    ensures CompareBytes(s, u) != After
    ensures CompareBytes(s, u) == Same ==> CompareBytes(s, t) == Same && CompareBytes(t, u) == Same
  {
    if s != [] && t != [] && u != [] && s[0] == t[0] == u[0] {
      BytesTransitive(s[1..], t[1..], u[1..]);
    }
  }

  /** Two values compare the same only when they are one value. */
  lemma {:induction false} CompareAntisymmetric(x: Value, y: Value)
    ensures CompareValues(y, x) == CompareValues(x, y).Reverse()
    ensures CompareValues(x, y) == Same <==> x == y
  {
    if x.Text? && y.Text? {
      BytesAntisymmetric(x.s, y.s);
    }
  }

  lemma {:induction false} CompareTransitive(x: Value, y: Value, z: Value)
    requires Leq(x, y) && Leq(y, z)
    ensures Leq(x, z)
    ensures CompareValues(x, z) == Same ==> CompareValues(x, y) == Same && CompareValues(y, z) == Same
  {
    if x.Text? && y.Text? && z.Text? {
      BytesTransitive(x.s, y.s, z.s);
    }
  }

  /** Every prefix sorts before its extensions. */
  lemma {:induction false} BytesPrefix(s: seq<Byte>, t: seq<Byte>)
    ensures CompareBytes(s, s + t) != After
  {
    if s != [] {
      assert (s + t)[1..] == s[1..] + t;
      BytesPrefix(s[1..], t);
    }
  }
}
