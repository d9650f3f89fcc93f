/** The subset rule of the solver over constraint values, the closure it computes, and
    what the closure means against the actual mine layout. */
module Deduction {
  import opened Numerics
  import opened Coordinates
  import opened Constraints
  import SetOperations

  /** The pairs the solver's fixed-point loop acts on: two different constraints, the
      first's squares a proper subset of the second's. */
  predicate Applies(e1: ConstraintValue, e2: ConstraintValue) {
    e1 != e2 && SetOperations.ProperSubset(e1.cells, e2.cells)
  }

  /** The subset rule: the squares of `e2` outside `e1`, with `(byte) (mines2 - mines1)`
      mines. When it applies, the new squares are non-empty, disjoint from `e1`'s and
      strictly fewer than `e2`'s. */
  function Derive(e1: ConstraintValue, e2: ConstraintValue): (c: ConstraintValue)
    ensures c.cells <= e2.cells && c.cells !! e1.cells
    ensures Applies(e1, e2) ==> c.cells != {} && |c.cells| == |e2.cells| - |e1.cells|
    ensures Applies(e1, e2) && e1.cells != {} ==> |c.cells| < |e2.cells|
    ensures -128 <= e2.mines as int - e1.mines as int < 128 ==> c.mines as int == e2.mines as int - e1.mines as int
  {
    var c := ConstraintValue(SetOperations.Difference(e2.cells, e1.cells), ToByte(e2.mines as int - e1.mines as int));
    if Applies(e1, e2) then SetOperations.ProperSubsetDifference(e1.cells, e2.cells); c else c
  }

  /** A set of constraints the subset rule adds nothing to. */
  ghost predicate Closed(s: set<ConstraintValue>) {
    forall e1, e2 :: e1 in s && e2 in s && Applies(e1, e2) ==> Derive(e1, e2) in s
  }

  /** `s` is the closure of `base`: it holds `base`, is closed, and lies inside every
      closed set that holds `base`. */
  ghost predicate LeastClosed(s: set<ConstraintValue>, base: set<ConstraintValue>) {
    && base <= s
    && Closed(s)
    && forall t :: base <= t && Closed(t) ==> s <= t
  }

  /** The closure of a set of constraints is unique. */
  lemma ClosureUnique(s1: set<ConstraintValue>, s2: set<ConstraintValue>, base: set<ConstraintValue>)
    requires LeastClosed(s1, base) && LeastClosed(s2, base)
    ensures s1 == s2
  {
    assert s1 <= s2;
    assert s2 <= s1;
  }

  /** Every constraint over squares of `cells`: with byte mine counts, a finite set. */
  ghost function Universe(cells: set<Coordinate>): set<ConstraintValue> {
    set s: set<Coordinate>, m: int8 | s <= cells && -128 <= m <= 127 :: ConstraintValue(s, m)
  }

  lemma InUniverse(e: ConstraintValue, cells: set<Coordinate>)
    requires e.cells <= cells
    ensures e in Universe(cells)
  {
    assert ConstraintValue(e.cells, e.mines) == e;
  }

  /** Adding a new constraint of the universe leaves fewer constraints outside. */
  lemma UniverseShrinks(s: set<ConstraintValue>, c: ConstraintValue, cells: set<Coordinate>)
    requires c in Universe(cells) && c !in s
    ensures |Universe(cells) - (s + {c})| < |Universe(cells) - s|
  {
    var u := Universe(cells);
    assert u - (s + {c}) == (u - s) - {c};
    assert c in u - s;
  }

  /** The constraint is true of the layout: its mine count is the number of mines among
      its squares. */
  ghost predicate Sound(e: ConstraintValue, layout: set<Coordinate>) {
    e.mines as int == |e.cells * layout|
  }

  /** The subset rule keeps constraints true. The difference of two true counts lies in
      0..127, so the byte cast does not wrap. */
  lemma DeriveSound(e1: ConstraintValue, e2: ConstraintValue, layout: set<Coordinate>)
    requires Sound(e1, layout) && Sound(e2, layout) && e1.cells < e2.cells
    ensures Sound(Derive(e1, e2), layout)
  {
    var d := e2.cells - e1.cells;
    assert e2.cells * layout == (e1.cells * layout) + (d * layout);
    assert (e1.cells * layout) !! (d * layout);
    assert |e2.cells * layout| == |e1.cells * layout| + |d * layout|;
    SetOperations.SubsetCardinality(d * layout, e2.cells * layout);
  }

  /** The true constraints over squares of `cells`. */
  ghost function SoundSet(cells: set<Coordinate>, layout: set<Coordinate>): set<ConstraintValue> {
    set e | e in Universe(cells) && Sound(e, layout)
  }

  lemma SoundSetClosed(cells: set<Coordinate>, layout: set<Coordinate>)
    ensures Closed(SoundSet(cells, layout))
  {
    var t := SoundSet(cells, layout);
    forall e1, e2 | e1 in t && e2 in t && Applies(e1, e2)
      ensures Derive(e1, e2) in t
    {
      DeriveSound(e1, e2, layout);
      InUniverse(Derive(e1, e2), cells);
    }
  }

  /** When every seed is true of the layout, so is every constraint of their closure. */
  lemma ClosureSound(s: set<ConstraintValue>, base: set<ConstraintValue>, cells: set<Coordinate>, layout: set<Coordinate>)
    requires LeastClosed(s, base)
    requires forall e :: e in base ==> e.cells <= cells && Sound(e, layout)
    ensures forall e :: e in s ==> Sound(e, layout)
  {
    var t := SoundSet(cells, layout);
    forall e | e in base
      ensures e in t
    {
      InUniverse(e, cells);
    }
    SoundSetClosed(cells, layout);
  }

  /** A true constraint with no mines holds no mine, and one with as many mines as
      squares holds only mines. */
  lemma SoundResolution(e: ConstraintValue, layout: set<Coordinate>)
    requires Sound(e, layout)
    ensures e.mines == 0 ==> e.cells !! layout
    ensures e.mines as int == |e.cells| ==> e.cells <= layout
  {
    if e.mines as int == |e.cells| {
      SetOperations.SubsetCardinality(e.cells * layout, e.cells);
      assert e.cells * layout == e.cells;
    }
    if e.mines == 0 {
      forall x | x in e.cells
        ensures x !in layout
      {
        assert x in layout ==> x in e.cells * layout;
      }
    }
  }
}
