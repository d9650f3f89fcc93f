/** The geometry of a `width` x `height` board: squares, the clipped 8-neighbourhood
    in the order the source visits it, and the hint a layout of mines gives a square. */
module Grid {
  import opened Coordinates
  import SetOperations

  /** Neighbour offsets (dx, dy) in the source's order: top-left, top, top-right,
      mid-left, mid-right, lower-left, lower, lower-right. */
  const Offsets: seq<(int, int)> := [(-1, -1), (0, -1), (1, -1), (-1, 0), (1, 0), (-1, 1), (0, 1), (1, 1)]

  /** Index of the "top" neighbour in `Offsets`. */
  const TOP: nat := 1

  predicate InGrid(c: Coordinate, w: int, h: int) {
    0 <= c.x < w && 0 <= c.y < h
  }

  /** The `k`-th neighbour of `c`, which may lie off the grid. */
  function Neighbour(c: Coordinate, k: nat): (n: Coordinate)
    requires k < 8
    ensures n != c
    ensures -1 <= n.x - c.x <= 1 && -1 <= n.y - c.y <= 1
  {
    Coordinate(c.x + Offsets[k].0, c.y + Offsets[k].1)
  }

  /** `c` is one of the eight squares around `s` (on or off the grid). */
  predicate Adjacent(s: Coordinate, c: Coordinate) {
    c != s && -1 <= c.x - s.x <= 1 && -1 <= c.y - s.y <= 1
  }

  /** The squares `(0, y)` to `(w - 1, y)`. */
  function RowCells(w: nat, y: int): (r: set<Coordinate>)
    ensures forall c :: c in r <==> c.y == y && 0 <= c.x < w
    ensures |r| == w
  {
    if w == 0 then {} else RowCells(w - 1, y) + {Coordinate(w - 1, y)}
  }

  /** The squares of the first `h` rows, row by row. */
  function RowsCells(w: nat, h: nat): (r: set<Coordinate>)
    ensures forall c :: c in r <==> InGrid(c, w, h)
    ensures |r| == w * h
  {
    if h == 0 then {}
    else
      var rows, row := RowsCells(w, h - 1), RowCells(w, h - 1);
      assert rows !! row;
      assert w * h == w * (h - 1) + w;
      rows + row
  }

  /** Every square of the board. */
  function GridCells(w: nat, h: nat): (r: set<Coordinate>)
    ensures forall c :: c in r <==> InGrid(c, w, h)
  {
    set x, y | 0 <= x < w && 0 <= y < h :: Coordinate(x, y)
  }

  /** The board has `w * h` squares. */
  lemma GridCardinality(w: nat, h: nat)
    ensures |GridCells(w, h)| == w * h
  {
    assert GridCells(w, h) == RowsCells(w, h);
  }

  /** The in-grid squares that differ from `c` by at most one in each component. */
  function NeighbourSet(c: Coordinate, w: nat, h: nat): set<Coordinate>
  {
    set n | n in GridCells(w, h) && n != c && -1 <= n.x - c.x <= 1 && -1 <= n.y - c.y <= 1
  }

  /** The number of mines of `layout` among the first `k` neighbours of `c` that lie
      on the grid: what the source's chain of neighbour tests adds up. */
  function MinesAround(layout: set<Coordinate>, w: nat, h: nat, c: Coordinate, k: nat): (n: nat)
    requires k <= 8
    ensures n <= k
  {
    if k == 0 then 0
    else
      var nb := Neighbour(c, k - 1);
      MinesAround(layout, w, h, c, k - 1) + (if InGrid(nb, w, h) && nb in layout then 1 else 0)
  }

  /** The hint of a square: the mines among its in-grid 8 neighbours. */
  function Hint(layout: set<Coordinate>, w: nat, h: nat, c: Coordinate): (n: nat)
    ensures n <= 8
  {
    MinesAround(layout, w, h, c, 8)
  }

  /** The in-grid squares among the first `k` neighbours of `c`. */
  function NeighbourPrefix(c: Coordinate, w: nat, h: nat, k: nat): set<Coordinate>
    requires k <= 8
  {
    if k == 0 then {}
    else
      var nb := Neighbour(c, k - 1);
      NeighbourPrefix(c, w, h, k - 1) + (if InGrid(nb, w, h) then {nb} else {})
  }

  /** `n` is among the first `k` neighbours of `c` exactly when it is one of them and on the grid. */
  lemma {:induction false} NeighbourPrefixMembers(c: Coordinate, w: nat, h: nat, k: nat, n: Coordinate)
    requires k <= 8
    ensures n in NeighbourPrefix(c, w, h, k) <==> InGrid(n, w, h) && exists j :: 0 <= j < k && Neighbour(c, j) == n
  {
    if k > 0 {
      NeighbourPrefixMembers(c, w, h, k - 1, n);
    }
  }

  /** The first `k` neighbours are at most `k` squares. */
  lemma {:induction false} NeighbourPrefixSize(c: Coordinate, w: nat, h: nat, k: nat)
    requires k <= 8
    ensures |NeighbourPrefix(c, w, h, k)| <= k
  {
    if k > 0 {
      NeighbourPrefixSize(c, w, h, k - 1);
    }
  }

  /** The `k`-th neighbour is not among the ones before it. */
  lemma NewNeighbour(c: Coordinate, w: nat, h: nat, k: nat)
    requires k < 8
    ensures Neighbour(c, k) !in NeighbourPrefix(c, w, h, k)
  {
    var nb := Neighbour(c, k);
    NeighbourPrefixMembers(c, w, h, k, nb);
  }

  lemma {:induction false} MinesAroundCountsPrefix(layout: set<Coordinate>, w: nat, h: nat, c: Coordinate, k: nat)
    requires k <= 8
    ensures MinesAround(layout, w, h, c, k) == |NeighbourPrefix(c, w, h, k) * layout|
  {
    if k > 0 {
      MinesAroundCountsPrefix(layout, w, h, c, k - 1);
      PrefixMinesStep(layout, w, h, c, k);
    }
  }

  /** The `k`-th neighbour adds one mine to the first `k - 1` when it is on the grid and
      a mine, and none otherwise. */
  lemma PrefixMinesStep(layout: set<Coordinate>, w: nat, h: nat, c: Coordinate, k: nat)
    requires 0 < k <= 8
    ensures var nb := Neighbour(c, k - 1);
      |NeighbourPrefix(c, w, h, k) * layout|
      == |NeighbourPrefix(c, w, h, k - 1) * layout| + if InGrid(nb, w, h) && nb in layout then 1 else 0
  {
    NewNeighbour(c, w, h, k - 1);
    var nb := Neighbour(c, k - 1);
    var before := NeighbourPrefix(c, w, h, k - 1);
    var added := if InGrid(nb, w, h) then {nb} else {};
    assert NeighbourPrefix(c, w, h, k) == before + added;
    assert NeighbourPrefix(c, w, h, k) * layout == before * layout + added * layout;
    assert before * layout !! added * layout;
    if InGrid(nb, w, h) && nb in layout {
      assert added * layout == {nb};
    } else {
      assert added * layout == {};
    }
  }

  /** The eight offsets reach exactly the clipped 8-neighbourhood. */
  lemma NeighbourPrefixIsNeighbourhood(c: Coordinate, w: nat, h: nat)
    ensures NeighbourPrefix(c, w, h, 8) == NeighbourSet(c, w, h)
  {
    forall n
      ensures n in NeighbourPrefix(c, w, h, 8) <==> n in NeighbourSet(c, w, h)
    {
      NeighbourPrefixMembers(c, w, h, 8, n);
      if n in NeighbourSet(c, w, h) {
        var j := if n.y < c.y then n.x - c.x + 1
                 else if n.y == c.y then (if n.x < c.x then 3 else 4)
                 else n.x - c.x + 6;
        assert Neighbour(c, j) == n;
      }
    }
  }

  /** The hint is the number of mines in the clipped 8-neighbourhood, a value in 0..8. */
  lemma HintIsNeighbourMineCount(layout: set<Coordinate>, w: nat, h: nat, c: Coordinate)
    ensures Hint(layout, w, h, c) == |NeighbourSet(c, w, h) * layout|
    ensures Hint(layout, w, h, c) <= 8
  {
    MinesAroundCountsPrefix(layout, w, h, c, 8);
    NeighbourPrefixIsNeighbourhood(c, w, h);
  }

  /** A square whose hint is 0 has no mine among its in-grid neighbours. */
  lemma {:induction false} ZeroHintNoMineNeighbour(layout: set<Coordinate>, w: nat, h: nat, c: Coordinate, k: nat)
    requires k <= 8 && MinesAround(layout, w, h, c, k) == 0
    ensures forall j :: 0 <= j < k && InGrid(Neighbour(c, j), w, h) ==> Neighbour(c, j) !in layout
  {
    if k > 0 {
      ZeroHintNoMineNeighbour(layout, w, h, c, k - 1);
    }
  }

  /** A layout of `mines` distinct squares fits only when `mines <= w * h`. The source
      checks no upper bound, so its placement loop cannot finish beyond it. */
  lemma LayoutNeedsRoom(layout: set<Coordinate>, w: nat, h: nat)
    requires forall c :: c in layout ==> InGrid(c, w, h)
    ensures |layout| <= w * h
  {
    GridCardinality(w, h);
    SetOperations.SubsetCardinality(layout, GridCells(w, h));
  }
}
