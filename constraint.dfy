/** A constraint: a set of squares together with the number of mines among them. */
module Constraints {
  import opened Numerics
  import opened Coordinates

  /** The value a `Constraint` object stands for under `equals`: its coordinate set and
      its mine count. A Java `HashSet<Constraint>` behaves as a set of these values. */
  datatype ConstraintValue = ConstraintValue(cells: set<Coordinate>, mines: int8)

  /** The hash of a coordinate set as Java's `AbstractSet.hashCode` computes it: the sum
      of the elements' hash codes (taken exactly; the final `Wrap32` does the wrapping). */
  ghost function SetHash(s: set<Coordinate>): int
  {
    if s == {} then 0 else var c :| c in s; HashCode(c) + SetHash(s - {c})
  }

  /** `hashCode` of a constraint value, in Java `int` arithmetic. */
  ghost function ValueHash(v: ConstraintValue): (h: int)
    ensures IsInt32(h)
  {
    Wrap32(59 * (59 * 5 + SetHash(v.cells)) + v.mines as int)
  }

  /** Java's mutable `Constraint`: a `HashSet<Coordinate>` and a `byte` mine count. */
  class Constraint {
    var cells: set<Coordinate>
    var mines: int8

    /** The value this object currently stands for. */
    function Value(): (v: ConstraintValue)
      reads this
      ensures v.cells == cells && v.mines == mines
    {
      ConstraintValue(cells, mines)
    }

    /** `Constraint()`: an empty set, and one mine. */
    constructor ()
      ensures cells == {} && mines == 1
    {
      cells := {};
      mines := 1;
    }

    /** `Constraint(byte mines)`: an empty set with the given count. */
    constructor WithMines(m: int8)
      ensures cells == {} && mines == m
    {
      cells := {};
      mines := m;
    }

    /** `Constraint(byte mines, Collection elems)`: a copy of the elements. */
    constructor FromCollection(m: int8, elems: seq<Coordinate>)
      ensures forall c :: c in cells <==> c in elems
      ensures mines == m
    {
      cells := set c | c in elems;
      mines := m;
    }

    function GetMines(): (m: int8)
      reads this
      ensures m == Value().mines
    {
      mines
    }

    /** `setMines` replaces the count and leaves the coordinate set as it was. */
    method SetMines(m: int8)
      modifies this
      ensures mines == m && cells == old(cells)
    {
      mines := m;
    }

    /** `size`: the number of coordinates. */
    function Size(): (n: nat)
      reads this
      ensures n == 0 <==> cells == {}
    {
      |cells|
    }

    /** `isEmpty` holds iff the size is zero. */
    predicate IsEmpty()
      reads this
      ensures IsEmpty() <==> Size() == 0
    {
      cells == {}
    }

    /** `contains`. */
    predicate Contains(c: Coordinate)
      reads this
      ensures Contains(c) <==> c in Value().cells
    {
      c in cells
    }

    /** `add` reports whether the coordinate was absent; it is present afterwards. */
    method Add(c: Coordinate) returns (added: bool)
      modifies this
      ensures added <==> c !in old(cells)
      ensures cells == old(cells) + {c} && mines == old(mines)
      ensures |cells| == if added then old(|cells|) + 1 else old(|cells|)
    {
      added := c !in cells;
      if !added {
        assert cells + {c} == cells;
      }
      cells := cells + {c};
    }

    /** `remove` reports whether the coordinate was present; it is absent afterwards. */
    method Remove(c: Coordinate) returns (removed: bool)
      modifies this
      ensures removed <==> c in old(cells)
      ensures cells == old(cells) - {c} && mines == old(mines)
    {
      removed := c in cells;
      cells := cells - {c};
    }

    /** `containsAll`. */
    predicate ContainsAll(s: set<Coordinate>)
      reads this
      ensures ContainsAll(s) <==> forall c :: c in s ==> Contains(c)
    {
      s <= cells
    }

    /** `addAll` reports whether the set grew. */
    method AddAll(s: set<Coordinate>) returns (changed: bool)
      modifies this
      ensures changed <==> !(s <= old(cells))
      ensures cells == old(cells) + s && mines == old(mines)
    {
      changed := !(s <= cells);
      cells := cells + s;
    }

    /** `removeAll` reports whether the set shrank. */
    method RemoveAll(s: set<Coordinate>) returns (changed: bool)
      modifies this
      ensures changed <==> old(cells) * s != {}
      ensures cells == old(cells) - s && mines == old(mines)
    {
      changed := cells * s != {};
      cells := cells - s;
    }

    /** `retainAll` reports whether the set shrank. */
    method RetainAll(s: set<Coordinate>) returns (changed: bool)
      modifies this
      ensures changed <==> !(old(cells) <= s)
      ensures cells == old(cells) * s && mines == old(mines)
    {
      changed := !(cells <= s);
      cells := cells * s;
    }

    /** `clear` empties the set and keeps the count. */
    method Clear()
      modifies this
      ensures cells == {} && mines == old(mines)
    {
      cells := {};
    }

    /** `equals`: the same mine count and the same coordinate set. */
    predicate Equals(other: Constraint)
      reads this, other
      ensures Equals(other) <==> Value() == other.Value()
    {
      mines == other.mines && cells == other.cells
    }

    /** `hashCode`. */
    ghost function HashCode(): (h: int)
      reads this
      ensures IsInt32(h)
    {
      ValueHash(Value())
    }
  }

  /** Equal constraints have equal hash codes. */
  lemma HashConsistent(a: Constraint, b: Constraint)
    requires a.Equals(b)
    ensures a.HashCode() == b.HashCode()
  {
  }
}
