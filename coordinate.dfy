/** A square of the board, as the (x, y) value type of the solver. */
module Coordinates {
  import opened Numerics

  /** Java's `Coordinate`: two public `int` fields that are never reassigned. */
  datatype Coordinate = Coordinate(x: int, y: int)

  /** `equals`: two coordinates are equal iff both components match. */
  predicate Equals(a: Coordinate, b: Coordinate)
    ensures Equals(a, b) <==> a == b
  {
    a.x == b.x && a.y == b.y
  }

  /** `hashCode`, with the wrap-around of Java `int` arithmetic. */
  function HashCode(c: Coordinate): (h: int)
    ensures IsInt32(h)
  {
    Wrap32(53 * (53 * 7 + c.x) + c.y)
  }

  /** Equal coordinates have equal hash codes. */
  lemma HashConsistent(a: Coordinate, b: Coordinate)
    requires Equals(a, b)
    ensures HashCode(a) == HashCode(b)
  {
  }

  /** `clone`: a new coordinate with the same components. */
  function Clone(c: Coordinate): (r: Coordinate)
    ensures Equals(r, c)
  {
    Coordinate(c.x, c.y)
  }

  /** `compareTo`: the difference of the x components, or of the y components when
      the x components agree, as a Java `int` subtraction (which may wrap). */
  function CompareTo(a: Coordinate, b: Coordinate): (r: int)
    ensures IsInt32(r)
  {
    if a.x == b.x then Wrap32(a.y - b.y) else Wrap32(a.x - b.x)
  }

  /** Coordinates whose components are non-negative Java `int`s, such as grid squares:
      no subtraction between two of them overflows. */
  predicate NoOverflow(c: Coordinate) {
    0 <= c.x < TWO_31 && 0 <= c.y < TWO_31
  }

  /** Lexicographic order by x, then by y. */
  predicate LexLess(a: Coordinate, b: Coordinate) {
    a.x < b.x || (a.x == b.x && a.y < b.y)
  }

  /** Without overflow, `compareTo` is negative exactly when `a` comes first in the
      lexicographic order, zero exactly when the coordinates are equal, and positive
      exactly when `b` comes first. */
  lemma CompareToIsLexicographic(a: Coordinate, b: Coordinate)
    requires NoOverflow(a) && NoOverflow(b)
    ensures CompareTo(a, b) < 0 <==> LexLess(a, b)
    ensures CompareTo(a, b) == 0 <==> Equals(a, b)
    ensures CompareTo(a, b) > 0 <==> LexLess(b, a)
  {
    assert IsInt32(a.x - b.x) && IsInt32(a.y - b.y);
  }

  /** Without overflow, the sign of `compareTo` flips when the arguments are swapped. */
  lemma CompareToAntisymmetric(a: Coordinate, b: Coordinate)
    requires NoOverflow(a) && NoOverflow(b)
    ensures CompareTo(a, b) < 0 <==> CompareTo(b, a) > 0
    ensures CompareTo(a, b) == 0 <==> CompareTo(b, a) == 0
  {
    CompareToIsLexicographic(a, b);
    CompareToIsLexicographic(b, a);
  }

  /** Without overflow, `compareTo` is transitive. */
  lemma CompareToTransitive(a: Coordinate, b: Coordinate, c: Coordinate)
    requires NoOverflow(a) && NoOverflow(b) && NoOverflow(c)
    ensures CompareTo(a, b) < 0 && CompareTo(b, c) < 0 ==> CompareTo(a, c) < 0
    ensures CompareTo(a, b) <= 0 && CompareTo(b, c) <= 0 ==> CompareTo(a, c) <= 0
  {
    CompareToIsLexicographic(a, b);
    CompareToIsLexicographic(b, c);
    CompareToIsLexicographic(a, c);
  }
}
