/** The Minesweeper board: mine layout and hints, revealed squares and flags. */
module Boards {
  import opened Wrappers
  import opened Coordinates
  import opened Grid
  import SetOperations

  /** The value a mine square holds in `values`. */
  const MINE: int := 9

  /** What a square of `values` can hold: a hint 0..8, or 9 for a mine. */
  type CellValue = v: int | 0 <= v <= 9

  /** A layout the board can be built from: `mines` distinct squares on the grid. */
  predicate LayoutFits(layout: set<Coordinate>, w: int, h: int, mines: int) {
    (forall c :: c in layout ==> InGrid(c, w, h)) && |layout| == mines
  }

  /** The construction parameters the source rejects with `IllegalArgumentException`. */
  predicate InvalidConfiguration(w: int, h: int, mines: int) {
    w < 1 || h < 1 || mines < 1
  }

  /** `c` is next to one of the `popped` cells. */
  ghost predicate Near(c: Coordinate, popped: seq<Coordinate>) {
    exists j :: 0 <= j < |popped| && Adjacent(popped[j], c)
  }

  /** Appending a cell keeps `Near`, and makes its own neighbours near. */
  lemma NearGrow(c: Coordinate, popped: seq<Coordinate>, top: Coordinate)
    ensures Near(c, popped) || Adjacent(top, c) ==> Near(c, popped + [top])
  {
    var p := popped + [top];
    if Near(c, popped) {
      var j :| 0 <= j < |popped| && Adjacent(popped[j], c);
      assert p[j] == popped[j];
    } else if Adjacent(top, c) {
      assert p[|popped|] == top;
    }
  }

  /** Java's `Board`. The three grids are indexed `[y, x]` as in the source. */
  class Board {
    const width: nat
    const height: nat
    const mineCount: nat
    /** 9 marks a mine, 0..8 is the hint of any other square. */
    const values: array2<CellValue>
    /** Revealed squares. */
    const probes: array2<bool>
    /** Flagged squares. */
    const marks: array2<bool>
    /** The squares the mines were placed on. */
    ghost const layout: set<Coordinate>

    /** The value a square holds once the hints are counted. */
    ghost function Expected(c: Coordinate): int {
      if c in layout then MINE else Hint(layout, width, height, c)
    }

    /** The three grids have the board's dimensions, and the revealed and flagged grids
        are different arrays. */
    ghost predicate Dims() {
      && values.Length0 == height && values.Length1 == width
      && probes.Length0 == height && probes.Length1 == width
      && marks.Length0 == height && marks.Length1 == width
      && probes != marks
    }

    ghost predicate Valid()
      reads values
    {
      && width >= 1 && height >= 1 && mineCount >= 1
      && Dims()
      && LayoutFits(layout, width, height, mineCount)
      && forall y, x {:trigger Expected(Coordinate(x, y))} :: 0 <= y < height && 0 <= x < width ==> values[y, x] == Expected(Coordinate(x, y))
    }

    predicate On(x: int, y: int) {
      0 <= x < width && 0 <= y < height
    }

    /** `initialize` once its argument check has passed, with the random placement
        replaced by the given layout: mark the mines, then count every other square's
        hint over its clipped 8-neighbourhood. */
    constructor Init(w: nat, h: nat, mines: nat, layout: set<Coordinate>)
      requires !InvalidConfiguration(w, h, mines)
      requires LayoutFits(layout, w, h, mines)
      ensures Valid() && fresh(values) && fresh(probes) && fresh(marks)
      ensures width == w && height == h && mineCount == mines && this.layout == layout
      ensures forall y, x :: 0 <= y < h && 0 <= x < w ==> !probes[y, x] && !marks[y, x]
    {
      width, height, mineCount := w, h, mines;
      this.layout := layout;
      values := new CellValue[h, w]((y, x) => if Coordinate(x, y) in layout then MINE else 0);
      probes := new bool[h, w]((y, x) => false);
      marks := new bool[h, w]((y, x) => false);
      new;
      CountHints();
    }

    /** The values the squares before `(x, y)` in row-major order hold once counted. */
    ghost predicate CountedBefore(x: int, y: int)
      reads values
      requires values.Length0 == height && values.Length1 == width
    {
      forall yy, xx :: 0 <= yy < height && 0 <= xx < width ==>
        values[yy, xx] == if yy < y || (yy == y && xx < x) then Expected(Coordinate(xx, yy))
                          else if Coordinate(xx, yy) in layout then MINE else 0
    }

    /** The hint-counting pass of `initialize`: every square that is not a mine gets
        the number of mines among its in-grid neighbours. */
    method CountHints()
      requires values.Length0 == height && values.Length1 == width
      requires CountedBefore(0, 0)
      modifies values
      ensures CountedBefore(0, height)
    {
      for y := 0 to height
        invariant CountedBefore(0, y)
      {
        for x := 0 to width
          invariant CountedBefore(x, y)
        {
          if values[y, x] != MINE {
            var n := CountAround(x, y);
            values[y, x] := n;
          }
        }
      }
    }

    /** The eight neighbour tests of the hint-counting pass for one square. */
    method CountAround(x: int, y: int) returns (n: int)
      requires values.Length0 == height && values.Length1 == width
      requires forall yy, xx :: 0 <= yy < height && 0 <= xx < width ==>
        (values[yy, xx] == MINE <==> Coordinate(xx, yy) in layout)
      ensures n == Hint(layout, width, height, Coordinate(x, y))
    {
      n := 0;
      for k := 0 to 8
        invariant n == MinesAround(layout, width, height, Coordinate(x, y), k)
      {
        var nb := Neighbour(Coordinate(x, y), k);
        if InGrid(nb, width, height) && values[nb.y, nb.x] == MINE {
          n := n + 1;
        }
      }
    }

    /** The public constructor: `IllegalArgumentException` iff a dimension or the mine
        count is below 1; otherwise a board with the given mines, nothing revealed and
        nothing flagged. */
    static method Create(w: int, h: int, mines: int, layout: set<Coordinate>) returns (r: Option<Board>)
      requires !InvalidConfiguration(w, h, mines) ==> LayoutFits(layout, w, h, mines)
      ensures r.None? <==> InvalidConfiguration(w, h, mines)
      ensures r.Some? ==> r.value.Valid() && fresh(r.value.values) && fresh(r.value.probes) && fresh(r.value.marks)
      ensures r.Some? ==> r.value.width == w && r.value.height == h && r.value.mineCount == mines
      ensures r.Some? ==> forall c :: InGrid(c, w, h) ==> (r.value.values[c.y, c.x] == MINE <==> c in layout)
      ensures r.Some? ==> forall y, x :: 0 <= y < h && 0 <= x < w ==> !r.value.probes[y, x] && !r.value.marks[y, x]
    {
      if InvalidConfiguration(w, h, mines) {
        r := None;
      } else {
        var b := new Board.Init(w, h, mines, layout);
        r := Some(b);
        HintIsNeighbourMineCountAll(b);
      }
    }

    function ValueAt(c: Coordinate): int
      requires Valid() && InGrid(c, width, height)
      reads values
    {
      values[c.y, c.x]
    }

    predicate ProbedAt(c: Coordinate)
      requires Valid() && InGrid(c, width, height)
      reads values, probes
    {
      probes[c.y, c.x]
    }

    /** The revealed squares. */
    ghost function ProbedSet(): (r: set<Coordinate>)
      requires Valid()
      reads values, probes
      ensures forall c :: c in r <==> InGrid(c, width, height) && probes[c.y, c.x]
    {
      set c | c in GridCells(width, height) && probes[c.y, c.x]
    }

    /** The flagged squares. */
    ghost function MarkedSet(): (r: set<Coordinate>)
      requires Valid()
      reads values, marks
      ensures forall c :: c in r <==> InGrid(c, width, height) && marks[c.y, c.x]
    {
      set c | c in GridCells(width, height) && marks[c.y, c.x]
    }

    /** A neighbour of a square holding 0 is not a mine. */
    lemma ZeroSquareNeighbourNotMine(s: Coordinate, k: nat)
      requires Valid() && InGrid(s, width, height) && ValueAt(s) == 0
      requires k < 8 && InGrid(Neighbour(s, k), width, height)
      ensures ValueAt(Neighbour(s, k)) != MINE
    {
      assert values[s.y, s.x] == Expected(Coordinate(s.x, s.y));
      ZeroHintNoMineNeighbour(layout, width, height, s, 8);
      var n := Neighbour(s, k);
      assert values[n.y, n.x] == Expected(Coordinate(n.x, n.y));
    }

    /** The flag the flood fill consults before revealing the `k`-th neighbour of `s`:
        the neighbour's own flag, except for the top neighbour, where the source tests
        the flag of `s` itself. */
    predicate GuardFlag(s: Coordinate, k: nat)
      requires Valid() && k < 8 && InGrid(s, width, height) && InGrid(Neighbour(s, k), width, height)
      reads values, marks
    {
      var n := if k == TOP then s else Neighbour(s, k);
      marks[n.y, n.x]
    }

    /** With `revealed` the revealed squares, the `k`-th neighbour of `s` is handled as
        the flood fill requires: if it holds 0 it is revealed or in `pending`, otherwise
        it is revealed unless its guard flag is set. */
    ghost predicate NeighbourDone(revealed: set<Coordinate>, s: Coordinate, k: nat, pending: seq<Coordinate>)
      requires Valid() && InGrid(s, width, height) && k < 8
      reads values, marks
    {
      var n := Neighbour(s, k);
      InGrid(n, width, height) ==>
        if ValueAt(n) == 0 then n in revealed || n in pending else n in revealed || GuardFlag(s, k)
    }

    /** Every in-grid neighbour of `s` holding 0 is in `revealed` or in `pending`. */
    ghost predicate ZerosCovered(revealed: set<Coordinate>, s: Coordinate, pending: seq<Coordinate>)
      requires Valid() && InGrid(s, width, height)
      reads values
    {
      forall k :: 0 <= k < 8 && InGrid(Neighbour(s, k), width, height) && ValueAt(Neighbour(s, k)) == 0 ==>
        Neighbour(s, k) in revealed || Neighbour(s, k) in pending
    }

    /** The flood fill is complete around `s`: each of its neighbours is handled. */
    ghost predicate FloodClosed(s: Coordinate)
      requires Valid() && InGrid(s, width, height)
      reads values, probes, marks
    {
      forall k :: 0 <= k < 8 ==> NeighbourDone(ProbedSet(), s, k, [])
    }

    /** `c` is a neighbour of `s` that the neighbour tests of `s` may reveal: it is on
        the grid and its guard flag is clear. */
    ghost predicate Unguarded(s: Coordinate, c: Coordinate)
      requires Valid()
      reads values, marks
    {
      && InGrid(s, width, height)
      && exists k :: 0 <= k < 8 && Neighbour(s, k) == c && InGrid(Neighbour(s, k), width, height) && !GuardFlag(s, k)
    }

    /** What the neighbour tests of `s` may touch: every square revealed since `before`
        is a neighbour of `s` whose guard flag is clear, and every cell pushed is one of
        the eight around `s`. */
    ghost predicate LookNear(before: set<Coordinate>, revealed: set<Coordinate>, s: Coordinate, pushed: seq<Coordinate>)
      requires Valid()
      reads values, marks
    {
      && (forall c :: c in revealed - before ==> Unguarded(s, c))
      && (forall e :: e in pushed ==> Adjacent(s, e))
    }

    /** Reveals one square. */
    method Reveal(c: Coordinate)
      requires Valid() && InGrid(c, width, height)
      modifies probes
      ensures ProbedSet() == old(ProbedSet()) + {c}
    {
      probes[c.y, c.x] := true;
    }

    /** One neighbour test of the flood fill: an unrevealed neighbour holding 0 is to be
        pushed (whatever its flag); any other unrevealed neighbour is revealed unless
        its guard flag is set. */
    method Visit(s: Coordinate, k: nat) returns (push: bool)
      requires Valid() && InGrid(s, width, height) && k < 8
      modifies probes
      ensures var n := Neighbour(s, k);
        push <==> InGrid(n, width, height) && n !in old(ProbedSet()) && ValueAt(n) == 0
      ensures var n := Neighbour(s, k);
        ProbedSet() == old(ProbedSet()) +
          if InGrid(n, width, height) && ValueAt(n) != 0 && !GuardFlag(s, k) then {n} else {}
    {
      var n := Neighbour(s, k);
      push := false;
      if InGrid(n, width, height) && !probes[n.y, n.x] {
        if values[n.y, n.x] == 0 {
          push := true;
        } else if !GuardFlag(s, k) {
          Reveal(n);
        }
      }
    }

    /** What the neighbour tests of `s` have achieved after the first `k` of them, with
        `before` and `revealed` the revealed squares before and after them: squares were
        only revealed, never a 0 or a mine; the first `k` neighbours are handled; the
        cells to push hold 0 and are unrevealed; and nothing is pushed when every
        neighbour holding 0 was revealed already. */
    ghost predicate LookProgress(before: set<Coordinate>, revealed: set<Coordinate>, s: Coordinate, k: nat, pushed: seq<Coordinate>)
      requires Valid() && InGrid(s, width, height) && k <= 8
      reads values, marks
    {
      && before <= revealed <= GridCells(width, height)
      && (forall c :: c in revealed - before ==> ValueAt(c) != 0 && ValueAt(c) != MINE)
      && (forall j :: 0 <= j < k ==> NeighbourDone(revealed, s, j, pushed))
      && (forall e :: e in pushed ==> InGrid(e, width, height) && ValueAt(e) == 0 && e !in revealed)
      && (ZerosCovered(before, s, []) ==> pushed == [])
    }

    /** The `k`-th neighbour test of `s` keeps `LookNear`: it pushes only that neighbour,
        and reveals it only when its guard flag is clear. */
    lemma LookNearStep(before: set<Coordinate>, revealed0: set<Coordinate>, revealed: set<Coordinate>, s: Coordinate,
                       k: nat, pushed0: seq<Coordinate>, push: bool)
      requires Valid() && InGrid(s, width, height) && k < 8
      requires LookNear(before, revealed0, s, pushed0)
      requires var n := Neighbour(s, k);
        revealed == revealed0 + if InGrid(n, width, height) && ValueAt(n) != 0 && !GuardFlag(s, k) then {n} else {}
      ensures LookNear(before, revealed, s, if push then pushed0 + [Neighbour(s, k)] else pushed0)
    {
      var n := Neighbour(s, k);
      forall c | c in revealed - before
        ensures Unguarded(s, c)
      {
        if c !in revealed0 {
          assert c == n && Neighbour(s, k) == c;
        }
      }
    }

    /** Neighbours handled stay handled as squares are revealed and pushed. */
    lemma LookDoneStep(revealed0: set<Coordinate>, revealed: set<Coordinate>, s: Coordinate, k: nat,
                       pushed0: seq<Coordinate>, pushed: seq<Coordinate>)
      requires Valid() && InGrid(s, width, height) && k < 8
      requires forall j :: 0 <= j < k ==> NeighbourDone(revealed0, s, j, pushed0)
      requires NeighbourDone(revealed, s, k, pushed)
      requires revealed0 <= revealed && forall e :: e in pushed0 ==> e in pushed
      ensures forall j :: 0 <= j < k + 1 ==> NeighbourDone(revealed, s, j, pushed)
    {
      forall j | 0 <= j < k
        ensures NeighbourDone(revealed, s, j, pushed)
      {
        assert NeighbourDone(revealed0, s, j, pushed0);
      }
    }

    /** The `k`-th neighbour test keeps `LookProgress`. */
    lemma LookStep(before: set<Coordinate>, revealed0: set<Coordinate>, revealed: set<Coordinate>, s: Coordinate, k: nat,
                   pushed0: seq<Coordinate>, push: bool)
      requires Valid() && InGrid(s, width, height) && ValueAt(s) == 0 && k < 8
      requires LookProgress(before, revealed0, s, k, pushed0)
      requires var n := Neighbour(s, k);
        && (push <==> InGrid(n, width, height) && n !in revealed0 && ValueAt(n) == 0)
        && revealed == revealed0 + if InGrid(n, width, height) && ValueAt(n) != 0 && !GuardFlag(s, k) then {n} else {}
      ensures LookProgress(before, revealed, s, k + 1, if push then pushed0 + [Neighbour(s, k)] else pushed0)
    {
      var n := Neighbour(s, k);
      var pushed := if push then pushed0 + [n] else pushed0;
      if InGrid(n, width, height) {
        ZeroSquareNeighbourNotMine(s, k);
        if push {
          assert !ZerosCovered(before, s, []);
        }
      }
      assert before <= revealed <= GridCells(width, height);
      assert forall c :: c in revealed - before ==> ValueAt(c) != 0 && ValueAt(c) != MINE;
      LookDoneStep(revealed0, revealed, s, k, pushed0, pushed);
      assert forall e :: e in pushed ==> e in pushed0 || (push && e == n);
      assert forall e :: e in pushed ==> InGrid(e, width, height) && ValueAt(e) == 0 && e !in revealed;
      assert ZerosCovered(before, s, []) ==> pushed == [];
    }

    /** The eight neighbour tests for one cell taken from the stack. */
    method LookAround(s: Coordinate) returns (pushed: seq<Coordinate>)
      requires Valid() && InGrid(s, width, height) && ValueAt(s) == 0
      modifies probes
      ensures LookProgress(old(ProbedSet()), ProbedSet(), s, 8, pushed)
      ensures LookNear(old(ProbedSet()), ProbedSet(), s, pushed)
    {
      pushed := [];
      for k := 0 to 8
        invariant LookProgress(old(ProbedSet()), ProbedSet(), s, k, pushed)
        invariant LookNear(old(ProbedSet()), ProbedSet(), s, pushed)
      {
        ghost var revealed0 := ProbedSet();
        var push := Visit(s, k);
        LookStep(old(ProbedSet()), revealed0, ProbedSet(), s, k, pushed, push);
        LookNearStep(old(ProbedSet()), revealed0, ProbedSet(), s, k, pushed, push);
        if push {
          pushed := pushed + [Neighbour(s, k)];
        }
      }
    }

    /** Some revealed square is a mine. */
    ghost predicate Failed()
      requires Valid()
      reads values, probes
    {
      exists c :: c in ProbedSet() && ValueAt(c) == MINE
    }

    /** `probe`: nothing happens on a flagged square. Otherwise the square is revealed;
        a mine fails the game, a hint above 0 stops there, and a 0 starts the stack-based
        flood fill. The fill never hides a square, never reveals a mine, and leaves
        every square holding 0 that it revealed (and the probed square) with all its
        neighbours handled: those holding 0 revealed, the others revealed unless their
        guard flag is set. Nor does it reach further: the fill is bounded by its popped
        cells (`FloodRegion`), and every square revealed is the probed square or lies on
        or next to a chain of squares holding 0 grown from it (`Spread`). */
    method Probe(x: int, y: int)
      requires Valid() && On(x, y)
      modifies probes
      ensures marks[y, x] ==> ProbedSet() == old(ProbedSet())
      ensures !marks[y, x] ==> Coordinate(x, y) in ProbedSet()
      ensures old(ProbedSet()) <= ProbedSet()
      ensures forall c :: c in ProbedSet() - old(ProbedSet()) && c != Coordinate(x, y) ==> ValueAt(c) != MINE
      ensures values[y, x] != 0 ==> ProbedSet() <= old(ProbedSet()) + {Coordinate(x, y)}
      ensures !marks[y, x] && values[y, x] == MINE ==> Failed()
      ensures !marks[y, x] && values[y, x] == 0 ==>
        forall c :: c in ProbedSet() && ValueAt(c) == 0 && (c == Coordinate(x, y) || c !in old(ProbedSet())) ==>
          FloodClosed(c)
      ensures !marks[y, x] && values[y, x] == 0 ==>
        exists popped :: FloodRegion(Coordinate(x, y), old(ProbedSet()), ProbedSet(), popped)
      ensures forall c :: c in ProbedSet() - old(ProbedSet()) ==> Spread(Coordinate(x, y), c)
    {
      if marks[y, x] {
        return;
      }
      probes[y, x] := true;
      if values[y, x] == MINE {
        assert Coordinate(x, y) in ProbedSet();
        return;
      } else if values[y, x] == 0 {
        ghost var popped := FloodFill(Coordinate(x, y));
        assert FloodRegion(Coordinate(x, y), old(ProbedSet()), ProbedSet(), popped);
        RegionSpread(Coordinate(x, y), old(ProbedSet()), ProbedSet(), popped);
      }
    }

    /** The stack-based flood fill from a revealed square holding 0. A cell is pushed
        only while it is unrevealed, every popped cell ends revealed, and a stale entry
        (a cell popped before) pushes nothing: everything it would push was pushed above
        it and has been popped already. The popped cells, in order, are returned as
        ghost `popped` and bound what the fill reveals (`FloodRegion`). */
    method FloodFill(start: Coordinate) returns (ghost popped: seq<Coordinate>)
      requires Valid() && InGrid(start, width, height) && ValueAt(start) == 0 && start in ProbedSet()
      modifies probes
      ensures old(ProbedSet()) <= ProbedSet()
      ensures forall c :: c in ProbedSet() - old(ProbedSet()) ==> ValueAt(c) != MINE
      ensures forall c :: c in ProbedSet() && ValueAt(c) == 0 && (c == start || c !in old(ProbedSet())) ==>
        FloodClosed(c)
      ensures FloodRegion(start, old(ProbedSet()), ProbedSet(), popped)
    {
      var stack := [start];
      ghost var done: set<Coordinate> := {};
      popped := [];
      FillStart(ProbedSet(), start);
      while stack != []
        invariant FillState(old(ProbedSet()), ProbedSet(), start, stack, done, popped)
        decreases |GridCells(width, height) - done|, |stack|
      {
        stack, done, popped := FillPop(old(ProbedSet()), start, stack, done, popped);
      }
      FillFinish(old(ProbedSet()), ProbedSet(), start, done);
    }

    /** One pass of the flood fill loop: pop a cell, reveal it and test its
        neighbours, pushing those to visit. */
    method FillPop(ghost before: set<Coordinate>, start: Coordinate, stack0: seq<Coordinate>, ghost done0: set<Coordinate>,
                   ghost popped0: seq<Coordinate>)
      returns (stack: seq<Coordinate>, ghost done: set<Coordinate>, ghost popped: seq<Coordinate>)
      requires Valid() && stack0 != [] && FillState(before, ProbedSet(), start, stack0, done0, popped0)
      modifies probes
      ensures FillState(before, ProbedSet(), start, stack, done, popped)
      ensures popped == popped0 + [stack0[|stack0| - 1]]
      ensures done == done0 ==> |stack| < |stack0|
      ensures done != done0 ==> |GridCells(width, height) - done| < |GridCells(width, height) - done0|
    {
      ghost var revealed0 := ProbedSet();
      var top := stack0[|stack0| - 1];
      stack := stack0[..|stack0| - 1];
      var pushed := Expand(top, before, start, stack0, popped0);
      FillStep(before, revealed0, ProbedSet(), start, stack0, done0, pushed);
      stack := stack + pushed;
      done := done0 + {top};
      popped := popped0 + [top];
    }

    /** The body of the flood fill loop for a square `top` popped off `stack0`, holding 0:
        reveal it, then test its neighbours. Besides `top`, only neighbours of `top` whose
        guard flag is clear are revealed, and the reach of the fill from `start` grows by
        `top` and the cells it pushes. */
    method Expand(top: Coordinate, ghost before: set<Coordinate>, ghost start: Coordinate,
                  ghost stack0: seq<Coordinate>, ghost popped0: seq<Coordinate>) returns (pushed: seq<Coordinate>)
      requires Valid() && InGrid(top, width, height) && ValueAt(top) == 0
      requires stack0 != [] && top == stack0[|stack0| - 1]
      requires before <= ProbedSet() && FillReach(before, ProbedSet(), start, stack0, popped0)
      modifies probes
      ensures LookProgress(old(ProbedSet()) + {top}, ProbedSet(), top, 8, pushed)
      ensures LookNear(old(ProbedSet()) + {top}, ProbedSet(), top, pushed)
      ensures FillReach(before, ProbedSet(), start, stack0[..|stack0| - 1] + pushed, popped0 + [top])
    {
      Reveal(top);
      pushed := LookAround(top);
      ReachStep(before, old(ProbedSet()), ProbedSet(), start, stack0, popped0, pushed);
    }

    /** The flood fill starts from a revealed square holding 0, with nothing popped. */
    lemma FillStart(revealed: set<Coordinate>, start: Coordinate)
      requires Valid() && InGrid(start, width, height) && ValueAt(start) == 0
      requires forall c :: c in revealed ==> InGrid(c, width, height)
      ensures FillProgress(revealed, revealed, start, [start], {})
    {
    }

    /** With the stack empty, every popped cell, and so the start and every newly
        revealed square holding 0, has each of its neighbours handled. */
    lemma FillFinish(before: set<Coordinate>, revealed: set<Coordinate>, start: Coordinate, done: set<Coordinate>)
      requires Valid() && FillProgress(before, revealed, start, [], done)
      ensures forall c, k :: c in revealed && ValueAt(c) == 0 && (c == start || c !in before) && 0 <= k < 8 ==>
        NeighbourDone(revealed, c, k, [])
    {
      forall c, k | c in revealed && ValueAt(c) == 0 && (c == start || c !in before) && 0 <= k < 8
        ensures NeighbourDone(revealed, c, k, [])
      {
        assert c in done;
      }
    }

    /** The cells on the stack and the cells popped so far are in the grid and hold 0. */
    ghost predicate ZeroCells(stack: seq<Coordinate>, done: set<Coordinate>)
      requires Valid()
      reads values
    {
      && (forall e :: e in stack ==> InGrid(e, width, height) && ValueAt(e) == 0)
      && (forall d :: d in done ==> InGrid(d, width, height) && ValueAt(d) == 0)
    }

    /** The stack discipline: every popped cell still on the stack has each neighbour
        holding 0 revealed or pushed above it. */
    ghost predicate FillCovered(revealed: set<Coordinate>, stack: seq<Coordinate>, done: set<Coordinate>)
      requires Valid() && ZeroCells(stack, done)
      reads values
    {
      forall i :: 0 <= i < |stack| && stack[i] in done ==> ZerosCovered(revealed, stack[i], stack[i + 1..])
    }

    /** Every popped cell has each neighbour handled, with the stack as what is pending. */
    ghost predicate FillDone(revealed: set<Coordinate>, stack: seq<Coordinate>, done: set<Coordinate>)
      requires Valid() && ZeroCells(stack, done)
      reads values, marks
    {
      forall d, k :: d in done && 0 <= k < 8 ==> NeighbourDone(revealed, d, k, stack)
    }

    /** The squares revealed since the fill began: none is a mine, and each holding 0
        has been popped. */
    ghost predicate FillRevealed(before: set<Coordinate>, revealed: set<Coordinate>, done: set<Coordinate>)
      requires Valid()
      reads values
    {
      && done <= revealed
      && before <= revealed
      && (forall c :: c in revealed ==> InGrid(c, width, height))
      && (forall c :: c in revealed - before ==> ValueAt(c) != MINE)
      && (forall c :: c in revealed - before && ValueAt(c) == 0 ==> c in done)
    }

    /** The state of the flood fill between two pops, with `before` and `revealed` the
        revealed squares when the fill began and now, and `done` the cells popped so far. */
    ghost predicate FillProgress(before: set<Coordinate>, revealed: set<Coordinate>, start: Coordinate,
                                 stack: seq<Coordinate>, done: set<Coordinate>)
      requires Valid()
      reads values, marks
    {
      && ZeroCells(stack, done)
      && (start in done || stack == [start])
      && FillCovered(revealed, stack, done)
      && FillDone(revealed, stack, done)
      && FillRevealed(before, revealed, done)
    }

    /** `popped` is a chain of squares holding 0 grown from `t`: it starts at `t`, and
        each later square is next to an earlier one. */
    ghost predicate ZeroTree(t: Coordinate, popped: seq<Coordinate>)
      requires Valid()
      reads values
    {
      && popped != [] && popped[0] == t
      && (forall i :: 0 <= i < |popped| ==> InGrid(popped[i], width, height) && ValueAt(popped[i]) == 0)
      && (forall i :: 0 < i < |popped| ==> exists j :: 0 <= j < i && Adjacent(popped[j], popped[i]))
    }

    /** Probing `t` can reveal `c`, whatever is revealed or flagged: `c` is `t`, or lies
        on or next to a chain of squares holding 0 grown from `t`. */
    ghost predicate Spread(t: Coordinate, c: Coordinate)
      requires Valid()
      reads values
    {
      c == t || exists popped :: ZeroTree(t, popped) && (c in popped || Near(c, popped))
    }

    /** `c` may be revealed by the neighbour tests of one of the `popped` cells. */
    ghost predicate Exposed(c: Coordinate, popped: seq<Coordinate>)
      requires Valid()
      reads values, marks
    {
      exists j :: 0 <= j < |popped| && Unguarded(popped[j], c)
    }

    /** How far a flood fill from `start` reaches, with `popped` the cells it popped in
        order and `before` and `revealed` the revealed squares before and after: the
        popped cells are a chain of squares holding 0 grown from the start, all now
        revealed, and each after the start was unrevealed before; each square revealed
        since `before` is the start, a popped cell, or a neighbour of a popped cell
        whose guard flag is clear. */
    ghost predicate FloodRegion(start: Coordinate, before: set<Coordinate>, revealed: set<Coordinate>,
                                popped: seq<Coordinate>)
      requires Valid()
      reads values, marks
    {
      && ZeroTree(start, popped)
      && (forall i :: 0 <= i < |popped| ==> popped[i] in revealed)
      && (forall i :: 0 < i < |popped| ==> popped[i] !in before)
      && (forall c :: c in revealed - before ==> c == start || c in popped || Exposed(c, popped))
    }

    /** Whatever a flood fill reveals, probing its start can reveal. */
    lemma RegionSpread(start: Coordinate, before: set<Coordinate>, revealed: set<Coordinate>, popped: seq<Coordinate>)
      requires Valid() && FloodRegion(start, before, revealed, popped)
      ensures forall c :: c in revealed - before ==> Spread(start, c)
    {
      forall c | c in revealed - before && c != start && c !in popped
        ensures Near(c, popped)
      {
        var j :| 0 <= j < |popped| && Unguarded(popped[j], c);
        var k :| 0 <= k < 8 && Neighbour(popped[j], k) == c && InGrid(Neighbour(popped[j], k), width, height)
          && !GuardFlag(popped[j], k);
        assert Adjacent(popped[j], c);
      }
    }

    /** The flood fill between two pops: either nothing is popped yet and the stack holds
        the start alone, or `FloodRegion` holds and every cell on the stack was
        unrevealed before and is next to a popped cell. */
    ghost predicate FillReach(before: set<Coordinate>, revealed: set<Coordinate>, start: Coordinate,
                              stack: seq<Coordinate>, popped: seq<Coordinate>)
      requires Valid()
      reads values, marks
    {
      if popped == [] then stack == [start] && revealed == before
      else
        && FloodRegion(start, before, revealed, popped)
        && (forall e :: e in stack ==> e !in before && Near(e, popped))
    }

    /** Appending a cell keeps `Exposed`, and exposes the unguarded neighbours of the cell. */
    lemma ExposedGrow(c: Coordinate, popped: seq<Coordinate>, top: Coordinate)
      requires Valid()
      ensures Exposed(c, popped) || Unguarded(top, c) ==> Exposed(c, popped + [top])
    {
      var p := popped + [top];
      if Exposed(c, popped) {
        var j :| 0 <= j < |popped| && Unguarded(popped[j], c);
        assert p[j] == popped[j];
      } else if Unguarded(top, c) {
        assert p[|popped|] == top;
      }
    }

    /** One pop keeps `FillReach`: the popped cell came off the stack, so it is the start
        or an unrevealed cell next to an earlier popped cell; it is now revealed; and
        what its neighbour tests reveal or push is next to it. */
    lemma ReachStep(before: set<Coordinate>, revealed0: set<Coordinate>, revealed: set<Coordinate>, start: Coordinate,
                    stack0: seq<Coordinate>, popped0: seq<Coordinate>, pushed: seq<Coordinate>)
      requires Valid() && stack0 != [] && FillReach(before, revealed0, start, stack0, popped0)
      requires before <= revealed0
      requires var top := stack0[|stack0| - 1];
        && InGrid(top, width, height) && ValueAt(top) == 0
        && LookProgress(revealed0 + {top}, revealed, top, 8, pushed)
        && LookNear(revealed0 + {top}, revealed, top, pushed)
      ensures var rest, top := stack0[..|stack0| - 1], stack0[|stack0| - 1];
        FillReach(before, revealed, start, rest + pushed, popped0 + [top])
    {
      var rest, top := stack0[..|stack0| - 1], stack0[|stack0| - 1];
      var popped := popped0 + [top];
      assert top in stack0;
      if popped0 == [] {
        assert top == start && rest == [];
        forall c | c in revealed - before && c != start
          ensures Exposed(c, popped)
        {
          assert popped[0] == top;
        }
      } else {
        forall i | 0 < i < |popped|
          ensures popped[i] !in before && exists j :: 0 <= j < i && Adjacent(popped[j], popped[i])
        {
          if i < |popped0| {
            assert popped[i] == popped0[i];
            var j :| 0 <= j < i && Adjacent(popped0[j], popped0[i]);
            assert popped[j] == popped0[j];
          } else {
            var j :| 0 <= j < |popped0| && Adjacent(popped0[j], top);
            assert popped[j] == popped0[j];
          }
        }
        forall c | c in revealed - before
          ensures c == start || c in popped || Exposed(c, popped)
        {
          ExposedGrow(c, popped0, top);
        }
      }
      forall e | e in rest + pushed
        ensures e !in before && Near(e, popped)
      {
        NearGrow(e, popped0, top);
        if e in rest {
          assert e in stack0;
        }
      }
    }

    /** Both invariants of the flood fill loop. */
    ghost predicate FillState(before: set<Coordinate>, revealed: set<Coordinate>, start: Coordinate,
                              stack: seq<Coordinate>, done: set<Coordinate>, popped: seq<Coordinate>)
      requires Valid()
      reads values, marks
    {
      FillProgress(before, revealed, start, stack, done) && FillReach(before, revealed, start, stack, popped)
    }

    /** One pop of the flood fill keeps `FillProgress`; a stale entry pushes nothing. */
    lemma FillStep(before: set<Coordinate>, revealed0: set<Coordinate>, revealed: set<Coordinate>, start: Coordinate,
                   stack0: seq<Coordinate>, done0: set<Coordinate>, pushed: seq<Coordinate>)
      requires Valid() && stack0 != []
      requires FillProgress(before, revealed0, start, stack0, done0)
      requires InGrid(stack0[|stack0| - 1], width, height)
      requires LookProgress(revealed0 + {stack0[|stack0| - 1]}, revealed, stack0[|stack0| - 1], 8, pushed)
      ensures var rest, top := stack0[..|stack0| - 1], stack0[|stack0| - 1];
        && FillProgress(before, revealed, start, rest + pushed, done0 + {top})
        && (top in done0 ==> done0 + {top} == done0 && |rest + pushed| < |stack0|)
        && (top !in done0 ==> |GridCells(width, height) - (done0 + {top})| < |GridCells(width, height) - done0|)
    {
      var rest, top := stack0[..|stack0| - 1], stack0[|stack0| - 1];
      if top in done0 {
        StaleStep(revealed0, revealed, stack0, done0, pushed);
      } else {
        var g := GridCells(width, height);
        assert g - (done0 + {top}) == (g - done0) - {top};
        assert top in g - done0;
      }
      ZeroStep(stack0, done0, pushed);
      assert start in done0 + {top} || rest + pushed == [start];
      CoveredStep(revealed0, revealed, stack0, done0, pushed);
      DoneStep(revealed0, revealed, stack0, done0, pushed);
      RevealedStep(before, revealed0, revealed, top, done0);
    }

    /** A cell popped a second time pushes nothing: the discipline guarantees that its
        neighbours holding 0 were revealed already. */
    lemma StaleStep(revealed0: set<Coordinate>, revealed: set<Coordinate>, stack0: seq<Coordinate>,
                    done0: set<Coordinate>, pushed: seq<Coordinate>)
      requires Valid() && stack0 != [] && ZeroCells(stack0, done0) && FillCovered(revealed0, stack0, done0)
      requires stack0[|stack0| - 1] in done0
      requires LookProgress(revealed0 + {stack0[|stack0| - 1]}, revealed, stack0[|stack0| - 1], 8, pushed)
      ensures pushed == []
    {
      var i := |stack0| - 1;
      assert ZerosCovered(revealed0, stack0[i], stack0[i + 1..]);
      assert stack0[i + 1..] == [];
      assert ZerosCovered(revealed0 + {stack0[i]}, stack0[i], []);
    }

    /** The cells pushed hold 0, so the new stack does too. */
    lemma ZeroStep(stack0: seq<Coordinate>, done0: set<Coordinate>, pushed: seq<Coordinate>)
      requires Valid() && stack0 != [] && ZeroCells(stack0, done0)
      requires forall e :: e in pushed ==> InGrid(e, width, height) && ValueAt(e) == 0
      ensures ZeroCells(stack0[..|stack0| - 1] + pushed, done0 + {stack0[|stack0| - 1]})
    {
      assert stack0 == stack0[..|stack0| - 1] + [stack0[|stack0| - 1]];
      assert forall e :: e in stack0[..|stack0| - 1] ==> e in stack0;
    }

    /** One pop keeps the stack discipline. */
    lemma CoveredStep(revealed0: set<Coordinate>, revealed: set<Coordinate>, stack0: seq<Coordinate>,
                      done0: set<Coordinate>, pushed: seq<Coordinate>)
      requires Valid() && stack0 != [] && ZeroCells(stack0, done0) && FillCovered(revealed0, stack0, done0)
      requires var rest, top := stack0[..|stack0| - 1], stack0[|stack0| - 1];
        && ZeroCells(rest + pushed, done0 + {top})
        && done0 <= revealed0 && revealed0 + {top} <= revealed
        && (forall k :: 0 <= k < 8 ==> NeighbourDone(revealed, top, k, pushed))
        && (forall e :: e in pushed ==> e !in revealed)
      ensures FillCovered(revealed, stack0[..|stack0| - 1] + pushed, done0 + {stack0[|stack0| - 1]})
    {
      var rest, top := stack0[..|stack0| - 1], stack0[|stack0| - 1];
      var stack := rest + pushed;
      forall i | 0 <= i < |stack| && stack[i] in done0 + {top}
        ensures ZerosCovered(revealed, stack[i], stack[i + 1..])
      {
        assert i < |rest|;
        var pending := stack[i + 1..];
        assert pending == rest[i + 1..] + pushed;
        assert stack[i] == rest[i];
        if rest[i] == top {
          forall k | 0 <= k < 8 && InGrid(Neighbour(top, k), width, height) && ValueAt(Neighbour(top, k)) == 0
            ensures Neighbour(top, k) in revealed || Neighbour(top, k) in pending
          {
            assert NeighbourDone(revealed, top, k, pushed);
          }
        } else {
          assert stack0[i] == rest[i] && stack0[i + 1..] == rest[i + 1..] + [top];
          assert ZerosCovered(revealed0, stack0[i], stack0[i + 1..]);
        }
      }
    }

    /** One pop keeps every popped cell's neighbours handled. */
    lemma DoneStep(revealed0: set<Coordinate>, revealed: set<Coordinate>, stack0: seq<Coordinate>,
                   done0: set<Coordinate>, pushed: seq<Coordinate>)
      requires Valid() && stack0 != [] && ZeroCells(stack0, done0) && FillDone(revealed0, stack0, done0)
      requires var rest, top := stack0[..|stack0| - 1], stack0[|stack0| - 1];
        && ZeroCells(rest + pushed, done0 + {top})
        && revealed0 + {top} <= revealed
        && (forall k :: 0 <= k < 8 ==> NeighbourDone(revealed, top, k, pushed))
      ensures FillDone(revealed, stack0[..|stack0| - 1] + pushed, done0 + {stack0[|stack0| - 1]})
    {
      var rest, top := stack0[..|stack0| - 1], stack0[|stack0| - 1];
      var stack := rest + pushed;
      assert stack0 == rest + [top];
      forall d, k | d in done0 + {top} && 0 <= k < 8
        ensures NeighbourDone(revealed, d, k, stack)
      {
        assert forall e :: e in pushed ==> e in stack;
        if d != top {
          assert NeighbourDone(revealed0, d, k, stack0);
          assert forall e :: e in stack0 ==> e in stack || e == top;
        } else {
          assert NeighbourDone(revealed, top, k, pushed);
        }
      }
    }

    /** One pop keeps the account of what the fill has revealed. */
    lemma RevealedStep(before: set<Coordinate>, revealed0: set<Coordinate>, revealed: set<Coordinate>,
                       top: Coordinate, done0: set<Coordinate>)
      requires Valid() && InGrid(top, width, height) && ValueAt(top) == 0
      requires FillRevealed(before, revealed0, done0)
      requires revealed0 + {top} <= revealed <= GridCells(width, height)
      requires forall c :: c in revealed - (revealed0 + {top}) ==> ValueAt(c) != 0 && ValueAt(c) != MINE
      ensures FillRevealed(before, revealed, done0 + {top})
    {
    }

    /** `mark` flags the square only when it is not revealed; nothing else changes. */
    method Mark(x: int, y: int)
      requires Valid() && On(x, y)
      modifies marks
      ensures marks[y, x] == (old(marks[y, x]) || !probes[y, x])
      ensures forall yy, xx :: 0 <= yy < height && 0 <= xx < width && (yy, xx) != (y, x) ==> marks[yy, xx] == old(marks[yy, xx])
      ensures MarkedSet() == old(MarkedSet()) + if probes[y, x] then {} else {Coordinate(x, y)}
    {
      if !probes[y, x] {
        marks[y, x] := true;
      }
    }

    /** `unmark` clears the flag unconditionally; nothing else changes. */
    method Unmark(x: int, y: int)
      requires Valid() && On(x, y)
      modifies marks
      ensures !marks[y, x]
      ensures forall yy, xx :: 0 <= yy < height && 0 <= xx < width && (yy, xx) != (y, x) ==> marks[yy, xx] == old(marks[yy, xx])
      ensures MarkedSet() == old(MarkedSet()) - {Coordinate(x, y)}
    {
      marks[y, x] := false;
    }

    /** `getValue`: 2 if flagged, otherwise 1 if revealed, otherwise 0. */
    function GetValue(x: int, y: int): (r: int)
      requires Dims() && On(x, y)
      reads values, marks, probes
      ensures r == 2 <==> marks[y, x]
      ensures r == 1 <==> !marks[y, x] && probes[y, x]
      ensures r == 0 <==> !marks[y, x] && !probes[y, x]
    {
      if marks[y, x] then 2 else if probes[y, x] then 1 else 0
    }

    /** `getInformation`: 9 if flagged, otherwise the stored value if revealed,
        otherwise 10. */
    function GetInformation(x: int, y: int): (r: int)
      requires Dims() && On(x, y)
      reads marks, probes, values
      ensures 0 <= r <= 10
      ensures r == 10 <==> !marks[y, x] && !probes[y, x]
      ensures marks[y, x] ==> r == MINE
      ensures !marks[y, x] && probes[y, x] ==> r == values[y, x]
    {
      if marks[y, x] then MINE else if probes[y, x] then values[y, x] else 10
    }

    function GetWidth(): (w: int)
      requires Valid()
      reads values
      ensures w >= 1 && w == values.Length1
    {
      width
    }

    function GetHeight(): (h: int)
      requires Valid()
      reads values
      ensures h >= 1 && h == values.Length0
    {
      height
    }

    function GetMineCount(): (m: int)
      requires Valid()
      reads values
      ensures m >= 1 && m == |layout|
    {
      mineCount
    }

    /** The grids have the board's dimensions and every stored value is in 0..9. */
    ghost predicate Shaped()
      reads values
    {
      && values.Length0 == height && values.Length1 == width
      && probes.Length0 == height && probes.Length1 == width
      && marks.Length0 == height && marks.Length1 == width
      && forall y, x :: 0 <= y < height && 0 <= x < width ==> 0 <= values[y, x] <= MINE
    }

    lemma ValidShaped()
      requires Valid()
      ensures Shaped()
    {
      forall y, x | 0 <= y < height && 0 <= x < width
        ensures 0 <= values[y, x] <= MINE
      {
        assert values[y, x] == Expected(Coordinate(x, y));
      }
    }

    /** The character `display` shows for square `(x, y)`: `#` when flagged, `*` for a
        revealed mine, the hint digit for another revealed square, a blank otherwise. */
    function CellChar(x: int, y: int): char
      requires Shaped() && On(x, y)
      reads values, probes, marks
    {
      if marks[y, x] then '#'
      else if probes[y, x] then (if values[y, x] == MINE then '*' else DigitChar(values[y, x]))
      else ' '
    }

    /** The characters of the first `x` squares of row `y`. */
    function CellsLine(x: nat, y: int): seq<char>
      requires Shaped() && x <= width && 0 <= y < height
      reads values, probes, marks
    {
      if x == 0 then [] else CellsLine(x - 1, y) + [CellChar(x - 1, y)]
    }

    /** Row `y` of the display: its index digit, a bar, its squares and a newline. */
    function RowLine(y: int): seq<char>
      requires Shaped() && 0 <= y < height
      reads values, probes, marks
    {
      [DigitChar(y % 10), '|'] + CellsLine(width, y) + "\n"
    }

    /** The first `y` rows of the display. */
    function Rows(y: nat): seq<char>
      requires Shaped() && y <= height
      reads values, probes, marks
    {
      if y == 0 then [] else Rows(y - 1) + RowLine(y - 1)
    }

    /** The text `display` returns. */
    function Render(): string
      requires Shaped()
      reads values, probes, marks
    {
      Header(width) + Rows(height)
    }

    /** `display`: builds the text by appending, header line, rule line, then one line per row. */
    method Display() returns (s: string)
      requires Shaped()
      ensures s == Render()
    {
      s := HeaderText(width);
      for y := 0 to height
        invariant s == Header(width) + Rows(y)
      {
        s := AppendRow(s, y);
        ConcatAssoc(Header(width), Rows(y), RowLine(y));
      }
    }

    /** One pass of the row loop of `display`: the row's index digit, a bar, its squares
        and a newline are appended to `buf`. */
    method AppendRow(buf: string, y: int) returns (s: string)
      requires Shaped() && 0 <= y < height
      ensures s == buf + RowLine(y)
    {
      s := buf + [DigitChar(y % 10), '|'];
      for x := 0 to width
        invariant s == buf + [DigitChar(y % 10), '|'] + CellsLine(x, y)
      {
        if marks[y, x] {
          s := s + "#";
        } else if probes[y, x] {
          s := s + if values[y, x] == MINE then "*" else [DigitChar(values[y, x])];
        } else {
          s := s + " ";
        }
      }
      s := s + "\n";
    }

    /** Every row line of the display is `width + 3` characters long, and position
        `2 + x` of row `y` shows square `(x, y)`. */
    lemma RowLineLayout(y: int)
      requires Shaped() && 0 <= y < height
      ensures |RowLine(y)| == width + 3
      ensures RowLine(y)[0] == DigitChar(y % 10) && RowLine(y)[1] == '|' && RowLine(y)[width + 2] == '\n'
      ensures forall x :: 0 <= x < width ==> RowLine(y)[2 + x] == CellChar(x, y)
    {
      CellsLineLayout(width, y);
    }

    lemma {:induction false} CellsLineLayout(x: nat, y: int)
      requires Shaped() && x <= width && 0 <= y < height
      ensures |CellsLine(x, y)| == x
      ensures forall i :: 0 <= i < x ==> CellsLine(x, y)[i] == CellChar(i, y)
    {
      if x > 0 {
        CellsLineLayout(x - 1, y);
      }
    }

    /** The first `y` rows take `(width + 3) * y` characters. */
    lemma {:induction false} RowsLength(y: nat)
      requires Shaped() && y <= height
      ensures |Rows(y)| == (width + 3) * y
    {
      if y > 0 {
        RowsLength(y - 1);
        RowLineLayout(y - 1);
        LineOffset(width + 3, y - 1);
      }
    }

    /** Row `yy` follows the rows before it in every longer prefix of the display. */
    lemma {:induction false} RowsPrefix(yy: nat, y: nat)
      requires Shaped() && yy < y <= height
      ensures Rows(yy) + RowLine(yy) <= Rows(y)
    {
      if yy < y - 1 {
        RowsPrefix(yy, y - 1);
      }
    }

    /** After the two header lines the display is the rows. */
    lemma RenderBody()
      requires Shaped()
      ensures |Header(width)| == 2 * (width + 3)
      ensures Render()[2 * (width + 3)..] == Rows(height)
    {
      HeaderLayout(width);
    }

    /** Character `j` of line `2 + y` of the display is character `j` of row `y`. */
    lemma RenderAt(y: int, j: int)
      requires Shaped() && 0 <= y < height && 0 <= j < width + 3
      ensures |RowLine(y)| == width + 3 && 2 * (width + 3) + |Rows(y)| + j < |Render()|
      ensures Render()[2 * (width + 3) + |Rows(y)| + j] == RowLine(y)[j]
    {
      RowsAt(y, j);
      RenderBody();
      DropAt(Render(), 2 * (width + 3), |Rows(y)| + j, Rows(height));
    }

    /** Character `j` of row `y` sits at offset `j` after the rows before it. */
    lemma RowsAt(y: int, j: int)
      requires Shaped() && 0 <= y < height && 0 <= j < width + 3
      ensures |RowLine(y)| == width + 3 && |Rows(y)| + j < |Rows(height)|
      ensures Rows(height)[|Rows(y)| + j] == RowLine(y)[j]
    {
      RowLineLayout(y);
      RowsPrefix(y, height);
      PrefixAt(Rows(y), RowLine(y), Rows(height), j);
    }

    /** The display has `height + 2` lines of `width + 3` characters. */
    lemma DisplayLength()
      requires Shaped()
      ensures |Render()| == (width + 3) * (height + 2)
    {
      RenderBody();
      RowsLength(height);
      LineOffset(width + 3, height);
    }

    /** Line `2 + y` of the display starts with the row's index digit and a bar, and
        its character at column `2 + x` shows square `(x, y)`. */
    lemma DisplayCell(x: int, y: int)
      requires Shaped() && On(x, y)
      ensures (width + 3) * (y + 3) <= |Render()|
      ensures Render()[(width + 3) * (y + 2)] == DigitChar(y % 10)
      ensures Render()[(width + 3) * (y + 2) + 1] == '|'
      ensures Render()[(width + 3) * (y + 2) + 2 + x] == CellChar(x, y)
    {
      RowLineLayout(y);
      RenderLineAt(y, 0);
      RenderLineAt(y, 1);
      RenderLineAt(y, 2 + x);
      RenderLineAt(y, width + 2);
    }

    /** Character `j` of line `2 + y` of the display, by its offset from the start. */
    lemma RenderLineAt(y: int, j: int)
      requires Shaped() && 0 <= y < height && 0 <= j < width + 3
      ensures (width + 3) * (y + 3) == (width + 3) * (y + 2) + width + 3
      ensures (width + 3) * (y + 2) + j < |Render()| && |RowLine(y)| == width + 3
      ensures Render()[(width + 3) * (y + 2) + j] == RowLine(y)[j]
    {
      RowsLength(y);
      LineOffset(width + 3, y);
      RenderAt(y, j);
    }

    /** Square `(xx, yy)` comes before `(x, y)` in row-major order. */
    static predicate Before(xx: int, yy: int, x: int, y: int) {
      yy < y || (yy == y && xx < x)
    }

    /** The flagged squares that hold a mine, among the squares before `(x, y)`. */
    ghost function MarkedMinesBefore(x: int, y: int): set<Coordinate>
      requires Valid()
      reads values, marks
    {
      set xx, yy | 0 <= xx < width && 0 <= yy < height && Before(xx, yy, x, y) &&
        marks[yy, xx] && values[yy, xx] == MINE :: Coordinate(xx, yy)
    }

    /** The flagged squares that hold a mine. */
    ghost function MarkedMines(): set<Coordinate>
      requires Valid()
      reads values, marks
    {
      set xx, yy | 0 <= xx < width && 0 <= yy < height && marks[yy, xx] && values[yy, xx] == MINE :: Coordinate(xx, yy)
    }

    /** Every square before `(x, y)` is revealed or flagged. */
    ghost predicate KnownBefore(x: int, y: int)
      requires Valid()
      reads values, probes, marks
    {
      forall yy, xx :: 0 <= yy < height && 0 <= xx < width && Before(xx, yy, x, y) ==> probes[yy, xx] || marks[yy, xx]
    }

    /** What `isSolved` decides: no square is both unrevealed and unflagged, and the
        number of flagged squares holding a mine is the mine count. Flags on squares
        without a mine do not matter. */
    ghost predicate Solved()
      requires Valid()
      reads values, probes, marks
    {
      KnownBefore(0, height) && |MarkedMines()| == mineCount
    }

    /** `isSolved`: counts the flagged mines row by row and stops at the first square
        that is neither revealed nor flagged. */
    method IsSolved() returns (r: bool)
      requires Valid()
      ensures r == Solved()
    {
      var n := 0;
      var y := 0;
      while y < height
        invariant 0 <= y <= height && Scanned(0, y, n)
      {
        var x := 0;
        while x < width
          invariant 0 <= x <= width && Scanned(x, y, n)
        {
          if marks[y, x] && values[y, x] == MINE {
            ScanStep(x, y, n);
            n := n + 1;
          } else if !probes[y, x] && !marks[y, x] {
            assert !KnownBefore(0, height) by {
              assert Before(x, y, 0, height);
            }
            return false;
          } else {
            ScanStep(x, y, n);
          }
          x := x + 1;
        }
        RowStep(y, n);
        y := y + 1;
      }
      assert MarkedMinesBefore(0, height) == MarkedMines();
      r := n == mineCount;
    }

    /** The scan of `isSolved` has reached `(x, y)` with count `n`. */
    ghost predicate Scanned(x: int, y: int, n: int)
      requires Valid()
      reads values, probes, marks
    {
      KnownBefore(x, y) && n == |MarkedMinesBefore(x, y)|
    }

    /** Scanning a known square moves the scan on, counting it when it is a flagged mine. */
    lemma ScanStep(x: int, y: int, n: int)
      requires Valid() && On(x, y) && Scanned(x, y, n) && (probes[y, x] || marks[y, x])
      ensures Scanned(x + 1, y, if marks[y, x] && values[y, x] == MINE then n + 1 else n)
    {
      var c := Coordinate(x, y);
      var before := MarkedMinesBefore(x, y);
      assert c !in before;
      assert MarkedMinesBefore(x + 1, y) == before + if marks[y, x] && values[y, x] == MINE then {c} else {};
    }

    /** The end of row `y` is the start of row `y + 1`. */
    lemma RowStep(y: int, n: int)
      requires Valid() && 0 <= y < height && Scanned(width, y, n)
      ensures Scanned(0, y + 1, n)
    {
      assert MarkedMinesBefore(width, y) == MarkedMinesBefore(0, y + 1);
      forall yy, xx | 0 <= yy < height && 0 <= xx < width
        ensures Before(xx, yy, width, y) <==> Before(xx, yy, 0, y + 1)
      {
      }
    }

    /** A solved board has every square revealed or flagged and every mine flagged;
        together these suffice. */
    lemma SolvedIff()
      requires Valid()
      ensures Solved() <==>
        (forall c :: InGrid(c, width, height) ==> probes[c.y, c.x] || marks[c.y, c.x]) &&
        (forall c :: c in layout ==> marks[c.y, c.x])
    {
      var m := MarkedMines();
      assert m <= layout by {
        forall c | c in m
          ensures c in layout
        {
          assert values[c.y, c.x] == Expected(c);
        }
      }
      SetOperations.SubsetCardinality(m, layout);
      assert KnownBefore(0, height) <==> forall c :: InGrid(c, width, height) ==> probes[c.y, c.x] || marks[c.y, c.x] by {
        if KnownBefore(0, height) {
          forall c | InGrid(c, width, height)
            ensures probes[c.y, c.x] || marks[c.y, c.x]
          {
            assert Before(c.x, c.y, 0, height);
          }
        } else {
          var yy, xx :| 0 <= yy < height && 0 <= xx < width && Before(xx, yy, 0, height) && !(probes[yy, xx] || marks[yy, xx]);
          assert InGrid(Coordinate(xx, yy), width, height);
        }
      }
      assert |m| == mineCount <==> forall c :: c in layout ==> marks[c.y, c.x] by {
        if forall c :: c in layout ==> marks[c.y, c.x] {
          forall c | c in layout
            ensures c in m
          {
            assert values[c.y, c.x] == Expected(c);
          }
          assert m == layout;
        }
        if |m| == mineCount {
          assert m == layout;
          forall c | c in layout
            ensures marks[c.y, c.x]
          {
            assert c in m;
          }
        }
      }
    }

    /** `isFailed`: scans for a revealed mine. */
    method IsFailed() returns (r: bool)
      requires Valid()
      ensures r == Failed()
    {
      var y := 0;
      while y < height
        invariant 0 <= y <= height
        invariant forall yy, xx :: 0 <= yy < y && 0 <= xx < width ==> !(probes[yy, xx] && values[yy, xx] == MINE)
      {
        var x := 0;
        while x < width
          invariant 0 <= x <= width
          invariant forall yy, xx :: 0 <= yy < height && 0 <= xx < width && Before(xx, yy, x, y) ==>
            !(probes[yy, xx] && values[yy, xx] == MINE)
        {
          if probes[y, x] && values[y, x] == MINE {
            assert Coordinate(x, y) in ProbedSet();
            return true;
          }
          x := x + 1;
        }
        y := y + 1;
      }
      r := false;
    }
  }

  /** The character Java prints for a single digit `d`. */
  function DigitChar(d: int): (ch: char)
    requires 0 <= d < 10
    ensures '0' <= ch <= '9' && ch as int - '0' as int == d
  {
    ('0' as int + d) as char
  }

  /** The column digits of the header line: `i % 10` for each column `i < n`. */
  function ColumnDigits(n: nat): seq<char> {
    if n == 0 then [] else ColumnDigits(n - 1) + [DigitChar((n - 1) % 10)]
  }

  /** `n` dashes. */
  function Dashes(n: nat): seq<char> {
    if n == 0 then [] else Dashes(n - 1) + "-"
  }

  /** The first part of `display`: the column digits and the rule, built by appending. */
  method HeaderText(width: nat) returns (s: string)
    ensures s == Header(width)
  {
    s := "+|";
    for i := 0 to width
      invariant s == "+|" + ColumnDigits(i)
    {
      s := s + [DigitChar(i % 10)];
    }
    s := s + "\n-+";
    for i := 0 to width
      invariant s == "+|" + ColumnDigits(width) + "\n-+" + Dashes(i)
    {
      s := s + "-";
    }
    s := s + "\n";
  }

  /** The two header lines of a display `width` squares wide. */
  function Header(width: nat): seq<char> {
    "+|" + ColumnDigits(width) + "\n-+" + Dashes(width) + "\n"
  }

  /** Both header lines are `width + 3` characters long; the first numbers the columns
      modulo 10 and the second is a rule of dashes. */
  lemma HeaderLayout(width: nat)
    ensures |Header(width)| == 2 * (width + 3)
    ensures Header(width)[..2] == "+|" && Header(width)[width + 3..width + 5] == "-+"
    ensures forall i :: 2 <= i < width + 2 ==> Header(width)[i] == DigitChar((i - 2) % 10)
    ensures forall i :: width + 5 <= i < 2 * width + 5 ==> Header(width)[i] == '-'
    ensures Header(width)[width + 2] == '\n' && Header(width)[2 * width + 5] == '\n'
  {
    ColumnDigitsLayout(width);
    DashesLayout(width);
    var digits, rule := "+|" + ColumnDigits(width) + "\n", "-+" + Dashes(width) + "\n";
    var h := Header(width);
    assert h == digits + rule;
    assert |digits| == width + 3;
    assert h[..2] == digits[..2] == "+|";
    assert h[width + 3..width + 5] == rule[..2] == "-+";
    forall i | 2 <= i < width + 2
      ensures h[i] == DigitChar((i - 2) % 10)
    {
      assert h[i] == digits[i] == ColumnDigits(width)[i - 2];
    }
    forall i | width + 5 <= i < 2 * width + 5
      ensures h[i] == '-'
    {
      assert h[i] == rule[i - width - 3] == Dashes(width)[i - width - 5];
    }
    assert h[width + 2] == digits[width + 2];
    assert h[2 * width + 5] == rule[width + 2];
  }

  lemma {:induction false} ColumnDigitsLayout(n: nat)
    ensures |ColumnDigits(n)| == n
    ensures forall i :: 0 <= i < n ==> ColumnDigits(n)[i] == DigitChar(i % 10)
  {
    if n > 0 {
      ColumnDigitsLayout(n - 1);
    }
  }

  lemma {:induction false} DashesLayout(n: nat)
    ensures |Dashes(n)| == n
    ensures forall i :: 0 <= i < n ==> Dashes(n)[i] == '-'
  {
    if n > 0 {
      DashesLayout(n - 1);
    }
  }

  /** Concatenation of sequences is associative. */
  lemma ConcatAssoc<T>(a: seq<T>, b: seq<T>, c: seq<T>)
    ensures (a + b) + c == a + (b + c)
  {
  }

  /** When `a + b` is a prefix of `s`, `b[j]` sits at position `|a| + j` of `s`. */
  lemma PrefixAt<T>(a: seq<T>, b: seq<T>, s: seq<T>, j: nat)
    requires a + b <= s && j < |b|
    ensures |a| + j < |s| && s[|a| + j] == b[j]
  {
    assert (a + b)[|a| + j] == b[j];
  }

  /** A suffix `s[k..]` equal to `t` puts `t[i]` at position `k + i` of `s`. */
  lemma DropAt<T>(s: seq<T>, k: nat, i: nat, t: seq<T>)
    requires k <= |s| && s[k..] == t && i < |t|
    ensures s[k + i] == t[i]
  {
    assert s[k..][i] == s[k + i];
  }

  /** Where line `y + 2` of a display with lines of `w` characters starts and ends. */
  lemma LineOffset(w: nat, y: nat)
    ensures w * (y + 1) == w * y + w
    ensures w * (y + 2) == 2 * w + w * y
    ensures w * (y + 3) == w * (y + 2) + w
  {
  }

  /** After construction every square that is not a mine holds the number of mines
      among its in-grid 8 neighbours, a value in 0..8; mine squares hold 9. */
  lemma HintIsNeighbourMineCountAll(b: Board)
    requires b.Valid()
    ensures forall c :: InGrid(c, b.width, b.height) ==> (b.values[c.y, c.x] == MINE <==> c in b.layout)
    ensures forall c :: InGrid(c, b.width, b.height) && c !in b.layout ==>
      b.values[c.y, c.x] == |NeighbourSet(c, b.width, b.height) * b.layout| <= 8
  {
    forall c | InGrid(c, b.width, b.height)
      ensures b.values[c.y, c.x] == MINE <==> c in b.layout
      ensures c !in b.layout ==> b.values[c.y, c.x] == |NeighbourSet(c, b.width, b.height) * b.layout| <= 8
    {
      assert b.values[c.y, c.x] == b.Expected(Coordinate(c.x, c.y));
      HintIsNeighbourMineCount(b.layout, b.width, b.height, c);
    }
  }
}
