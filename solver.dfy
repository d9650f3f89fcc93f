/** Java's `MinesweeperSolver`: derives constraints from the board's revealed hints,
    closes them under the subset rule, and probes or flags the squares of the
    constraints that are fully determined. */
module Solvers {
  import opened Numerics
  import opened Wrappers
  import opened Coordinates
  import opened Grid
  import opened Constraints
  import opened Boards
  import opened Deduction
  import SetOperations

  /** What `getInformation` reports for a flagged square, and for an unknown one. */
  const FLAGGED: int := 9
  const UNKNOWN: int := 10

  /** The information the solver reads about square `c`. */
  function Info(b: Board, c: Coordinate): int
    requires b.Dims() && InGrid(c, b.width, b.height)
    reads b.values, b.probes, b.marks
  {
    b.GetInformation(c.x, c.y)
  }

  /** What the solver can read of the whole board, square by square. */
  ghost function View(b: Board): (v: map<Coordinate, int>)
    requires b.Dims()
    reads b.values, b.probes, b.marks
    ensures forall c :: c in v <==> InGrid(c, b.width, b.height)
    ensures forall c :: c in v ==> v[c] == Info(b, c)
  {
    map c | c in GridCells(b.width, b.height) :: Info(b, c)
  }

  /** The squares among the first `k` neighbours of `c` on a `w` by `h` grid whose
      information in `v` is `i`, in the order the neighbour tests of `inspect` visit
      them. */
  ghost function Around(v: map<Coordinate, int>, w: nat, h: nat, c: Coordinate, k: nat, i: int): set<Coordinate>
    requires k <= 8
  {
    if k == 0 then {}
    else
      var nb := Neighbour(c, k - 1);
      Around(v, w, h, c, k - 1, i) + if InGrid(nb, w, h) && nb in v && v[nb] == i then {nb} else {}
  }

  /** A square is among the first `k` neighbours with information `i` exactly when it is
      one of those neighbours and its information is `i`. */
  lemma {:induction false} AroundMembers(v: map<Coordinate, int>, w: nat, h: nat, c: Coordinate, k: nat, i: int, n: Coordinate)
    requires k <= 8
    ensures n in Around(v, w, h, c, k, i) <==> n in NeighbourPrefix(c, w, h, k) && n in v && v[n] == i
  {
    NeighbourPrefixMembers(c, w, h, k, n);
    if k > 0 {
      AroundMembers(v, w, h, c, k - 1, i, n);
      NeighbourPrefixMembers(c, w, h, k - 1, n);
    }
  }

  /** The `k`-th neighbour is not yet among the first `k` with information `i`, so
      the prefix set grows by one exactly when that neighbour is on the grid and has
      information `i`. */
  lemma AroundStep(v: map<Coordinate, int>, w: nat, h: nat, c: Coordinate, k: nat, i: int)
    requires k < 8
    ensures var nb := Neighbour(c, k);
      |Around(v, w, h, c, k + 1, i)| == |Around(v, w, h, c, k, i)| + if InGrid(nb, w, h) && nb in v && v[nb] == i then 1 else 0
  {
    NewNeighbour(c, w, h, k);
    AroundMembers(v, w, h, c, k, i, Neighbour(c, k));
  }

  /** How many of the first `k` neighbours of `c` have information `i`: the count the
      neighbour tests keep. */
  ghost function CountAround(v: map<Coordinate, int>, w: nat, h: nat, c: Coordinate, k: nat, i: int): (n: nat)
    requires k <= 8
    ensures n <= k
  {
    if k == 0 then 0
    else
      var nb := Neighbour(c, k - 1);
      CountAround(v, w, h, c, k - 1, i) + if InGrid(nb, w, h) && nb in v && v[nb] == i then 1 else 0
  }

  /** The count is the size of the set of those neighbours. */
  lemma {:induction false} CountAroundSize(v: map<Coordinate, int>, w: nat, h: nat, c: Coordinate, k: nat, i: int)
    requires k <= 8
    ensures CountAround(v, w, h, c, k, i) == |Around(v, w, h, c, k, i)|
  {
    if k > 0 {
      CountAroundSize(v, w, h, c, k - 1, i);
      AroundStep(v, w, h, c, k - 1, i);
    }
  }

  /** The constraint `inspect` builds for square `c` of a `w` by `h` board whose
      information is `v`: its unknown neighbours, with its hint less the number of its
      flagged neighbours as the mine count. */
  ghost function SeedOf(v: map<Coordinate, int>, w: nat, h: nat, c: Coordinate): ConstraintValue
    requires c in v
  {
    ConstraintValue(Around(v, w, h, c, 8, UNKNOWN), ToByte(v[c] - |Around(v, w, h, c, 8, FLAGGED)|))
  }

  /** Square `c` is revealed with a hint in 1..8 and has an unknown neighbour. */
  ghost predicate Seeded(v: map<Coordinate, int>, w: nat, h: nat, c: Coordinate) {
    c in v && 1 <= v[c] <= 8 && SeedOf(v, w, h, c).cells != {}
  }

  /** The constraints seeded from the squares before `(x, y)` in row-major order. */
  ghost function SeedsBefore(v: map<Coordinate, int>, w: nat, h: nat, x: int, y: int): set<ConstraintValue> {
    set c | c in GridCells(w, h) && Board.Before(c.x, c.y, x, y) && Seeded(v, w, h, c) :: SeedOf(v, w, h, c)
  }

  /** The constraints the first stage of `inspect` seeds from the whole board. */
  ghost function Seeds(b: Board): set<ConstraintValue>
    requires b.Dims()
    reads b.values, b.probes, b.marks
  {
    SeedsBefore(View(b), b.width, b.height, 0, b.height)
  }

  /** The squares before `(x + 1, y)` are those before `(x, y)` and `(x, y)` itself. */
  lemma SeedsStep(v: map<Coordinate, int>, w: nat, h: nat, x: int, y: int)
    requires 0 <= x < w && 0 <= y < h
    ensures var p := Coordinate(x, y);
      SeedsBefore(v, w, h, x + 1, y) == SeedsBefore(v, w, h, x, y) + if Seeded(v, w, h, p) then {SeedOf(v, w, h, p)} else {}
  {
    var p := Coordinate(x, y);
    SeedsStepNew(v, w, h, x, y);
    if Seeded(v, w, h, p) {
      assert SeedOf(v, w, h, p) in SeedsBefore(v, w, h, x + 1, y);
    }
  }

  /** A constraint seeded before `(x + 1, y)` was seeded before `(x, y)` or at it. */
  lemma SeedsStepNew(v: map<Coordinate, int>, w: nat, h: nat, x: int, y: int)
    requires 0 <= x < w && 0 <= y < h
    ensures var p := Coordinate(x, y);
      forall e :: e in SeedsBefore(v, w, h, x + 1, y) ==>
        e in SeedsBefore(v, w, h, x, y) || (Seeded(v, w, h, p) && e == SeedOf(v, w, h, p))
  {
    var p := Coordinate(x, y);
    forall e | e in SeedsBefore(v, w, h, x + 1, y)
      ensures e in SeedsBefore(v, w, h, x, y) || (Seeded(v, w, h, p) && e == SeedOf(v, w, h, p))
    {
      var c :| c in GridCells(w, h) && Board.Before(c.x, c.y, x + 1, y) && Seeded(v, w, h, c) && e == SeedOf(v, w, h, c);
      if c != p {
        assert Board.Before(c.x, c.y, x, y);
      }
    }
  }

  /** The end of row `y` is the start of row `y + 1`. */
  lemma SeedsRowStep(v: map<Coordinate, int>, w: nat, h: nat, y: int)
    requires 0 <= y < h
    ensures SeedsBefore(v, w, h, w, y) == SeedsBefore(v, w, h, 0, y + 1)
  {
    forall xx, yy | 0 <= xx < w && 0 <= yy < h
      ensures Board.Before(xx, yy, w, y) <==> Board.Before(xx, yy, 0, y + 1)
    {
    }
  }

  /** After all eight neighbour tests, the squares found are the clipped
      8-neighbourhood's squares whose information is `i`: at most eight of them. */
  lemma AroundIsNeighbourhood(v: map<Coordinate, int>, w: nat, h: nat, c: Coordinate, i: int)
    ensures Around(v, w, h, c, 8, i) == set n | n in NeighbourSet(c, w, h) && n in v && v[n] == i
    ensures |Around(v, w, h, c, 8, i)| <= 8
  {
    var nbs := NeighbourPrefix(c, w, h, 8);
    var a := Around(v, w, h, c, 8, i);
    NeighbourPrefixIsNeighbourhood(c, w, h);
    forall n
      ensures n in a <==> n in nbs && n in v && v[n] == i
    {
      AroundMembers(v, w, h, c, 8, i, n);
    }
    NeighbourPrefixSize(c, w, h, 8);
    SetOperations.SubsetCardinality(a, nbs);
  }

  /** Each seed is what the source promises: the in-grid neighbours whose information is
      10, and the hint less the number of in-grid neighbours whose information is 9. The
      byte count does not wrap, and the seed has at most eight squares, all on the grid. */
  lemma SeedOfNeighbours(b: Board, c: Coordinate)
    requires b.Dims() && InGrid(c, b.width, b.height) && 1 <= Info(b, c) <= 8
    ensures SeedOf(View(b), b.width, b.height, c).cells == set n | n in NeighbourSet(c, b.width, b.height) && Info(b, n) == UNKNOWN
    ensures SeedOf(View(b), b.width, b.height, c).mines as int ==
      Info(b, c) - |set n | n in NeighbourSet(c, b.width, b.height) && Info(b, n) == FLAGGED|
    ensures |SeedOf(View(b), b.width, b.height, c).cells| <= 8
    ensures SeedOf(View(b), b.width, b.height, c).cells <= GridCells(b.width, b.height)
  {
    AroundOnBoard(b, c, UNKNOWN);
    AroundOnBoard(b, c, FLAGGED);
  }

  /** The neighbours of `c` with information `i`, read off the board itself. */
  lemma AroundOnBoard(b: Board, c: Coordinate, i: int)
    requires b.Dims()
    ensures Around(View(b), b.width, b.height, c, 8, i) == set n | n in NeighbourSet(c, b.width, b.height) && Info(b, n) == i
    ensures |Around(View(b), b.width, b.height, c, 8, i)| <= 8
  {
    AroundIsNeighbourhood(View(b), b.width, b.height, c, i);
  }

  /** The board agrees with its mines so far: every flag is on a mine and no revealed
      square is a mine. */
  ghost predicate Consistent(b: Board)
    requires b.Valid()
    reads b.values, b.probes, b.marks
  {
    b.MarkedSet() <= b.layout && !b.Failed()
  }

  /** The mines among a neighbourhood are those among its unknown squares plus its
      flagged ones, when every flag is a mine and every other neighbour is safe. */
  lemma MinesSplit(nbs: set<Coordinate>, u: set<Coordinate>, f: set<Coordinate>, l: set<Coordinate>)
    requires u <= nbs && f <= nbs * l && u !! f
    requires forall n :: n in nbs && n in l ==> n in u || n in f
    ensures |nbs * l| == |u * l| + |f|
  {
    assert nbs * l == (u * l) + f;
    assert (u * l) !! f;
  }

  /** On a consistent board every seed is true of the mine layout: the hint counts the
      mines among the unknown neighbours plus the flagged ones, and every other
      neighbour is a revealed safe square. */
  lemma SeedSound(b: Board, c: Coordinate)
    requires b.Valid() && Consistent(b) && InGrid(c, b.width, b.height) && 1 <= Info(b, c) <= 8
    ensures Sound(SeedOf(View(b), b.width, b.height, c), b.layout)
  {
    var w, h, l := b.width, b.height, b.layout;
    var nbs := NeighbourPrefix(c, w, h, 8);
    var v := View(b);
    var u, f := Around(v, w, h, c, 8, UNKNOWN), Around(v, w, h, c, 8, FLAGGED);
    assert b.values[c.y, c.x] == b.Expected(Coordinate(c.x, c.y));
    HintIsNeighbourMineCount(l, w, h, c);
    NeighbourPrefixIsNeighbourhood(c, w, h);
    forall n
      ensures n in u ==> n in nbs
      ensures n in f ==> n in nbs && n in l && n !in u
      ensures n in nbs && n in l ==> n in u || n in f
    {
      NeighbourPrefixMembers(c, w, h, 8, n);
      AroundMembers(v, w, h, c, 8, UNKNOWN, n);
      AroundMembers(v, w, h, c, 8, FLAGGED, n);
      if n in nbs {
        assert b.values[n.y, n.x] == b.Expected(Coordinate(n.x, n.y));
        if b.probes[n.y, n.x] && !b.marks[n.y, n.x] {
          assert n in b.ProbedSet();
        }
        if b.marks[n.y, n.x] {
          assert n in b.MarkedSet();
        }
      }
    }
    MinesSplit(nbs, u, f, l);
    SeedOfNeighbours(b, c);
  }

  /** On a consistent board every seed is true of the mine layout and lies on the grid. */
  lemma SeedsSound(b: Board)
    requires b.Valid() && Consistent(b)
    ensures forall e :: e in Seeds(b) ==> e.cells <= GridCells(b.width, b.height) && Sound(e, b.layout)
  {
    forall e | e in Seeds(b)
      ensures e.cells <= GridCells(b.width, b.height) && Sound(e, b.layout)
    {
      var v := View(b);
      var c :| c in GridCells(b.width, b.height) && Seeded(v, b.width, b.height, c) && e == SeedOf(v, b.width, b.height, c);
      SeedOfNeighbours(b, c);
      SeedSound(b, c);
    }
  }

  /** One action of the resolution pass. */
  datatype Action = ProbeAt(at: Coordinate) | MarkAt(at: Coordinate)

  /** What the resolution pass does for one constraint: probe all its squares when it has
      no mines, flag them all when it has as many mines as squares, nothing otherwise. */
  function ActionsOf(e: ConstraintValue): set<Action> {
    if e.mines == 0 then set c | c in e.cells :: ProbeAt(c)
    else if e.mines as int == |e.cells| then set c | c in e.cells :: MarkAt(c)
    else {}
  }

  /** Every action the resolution pass takes for the constraints of `s`. */
  ghost function Planned(s: set<ConstraintValue>): set<Action> {
    set e, a | e in s && a in ActionsOf(e) :: a
  }

  /** Given constraints that form the closure of a consistent board's seeds, the
      resolution pass probes only safe squares and flags only mines. */
  lemma PlannedSafe(b: Board, s: set<ConstraintValue>)
    requires b.Valid() && Consistent(b) && LeastClosed(s, Seeds(b))
    ensures forall a :: a in Planned(s) && a.ProbeAt? ==> a.at !in b.layout
    ensures forall a :: a in Planned(s) && a.MarkAt? ==> a.at in b.layout
  {
    SeedsSound(b);
    ClosureSound(s, Seeds(b), GridCells(b.width, b.height), b.layout);
    forall a | a in Planned(s)
      ensures a.ProbeAt? ==> a.at !in b.layout
      ensures a.MarkAt? ==> a.at in b.layout
    {
      var e :| e in s && a in ActionsOf(e);
      SoundResolution(e, b.layout);
    }
  }

  /** The squares a set of actions flags. */
  function MarksOf(done: set<Action>): (r: set<Coordinate>)
    ensures forall c :: c in r <==> MarkAt(c) in done
  {
    set a | a in done && a.MarkAt? :: a.at
  }

  /** The action is right for the layout: it probes a safe square or flags a mine. */
  ghost predicate SafeAction(a: Action, layout: set<Coordinate>) {
    if a.ProbeAt? then a.at !in layout else a.at in layout
  }

  /** Every action of `done` has taken effect: its square is revealed or flagged. */
  ghost predicate Applied(b: Board, done: set<Action>)
    requires b.Valid()
    reads b.values, b.probes, b.marks
  {
    forall a :: a in done ==> if a.ProbeAt? then a.at in b.ProbedSet() else a.at in b.MarkedSet()
  }

  /** Every action of `done` has reached its square: the square is revealed or flagged. */
  ghost predicate Reached(b: Board, done: set<Action>)
    requires b.Valid()
    reads b.values, b.probes, b.marks
  {
    forall a :: a in done ==> a.at in b.ProbedSet() || a.at in b.MarkedSet()
  }

  /** Every square revealed since `p0` can be revealed by probing a square that `done`
      probes: it is that square, or lies on or next to a chain of squares holding 0
      grown from it. */
  ghost predicate ProbedBy(b: Board, p0: set<Coordinate>, done: set<Action>)
    requires b.Valid()
    reads b.values, b.probes
  {
    forall c :: c in b.ProbedSet() - p0 ==> exists t :: ProbeAt(t) in done && b.Spread(t, c)
  }

  /** The state of the resolution pass once the actions of `done` were taken, starting
      from revealed squares `p0` and flags `m0`. On any board: squares are never hidden,
      flags are never removed, the only flags added are planned ones, the only squares
      revealed are those the planned probes can reveal, and every square acted on is
      revealed or flagged. When `ok` (the board was consistent and every
      action safe), moreover: the board is still consistent, the flags added are exactly
      the planned ones, and every action has taken effect. */
  ghost predicate Progress(b: Board, ok: bool, p0: set<Coordinate>, m0: set<Coordinate>, done: set<Action>)
    requires b.Valid()
    reads b.values, b.probes, b.marks
  {
    && p0 <= b.ProbedSet() && m0 <= b.MarkedSet()
    && b.MarkedSet() <= m0 + MarksOf(done)
    && ProbedBy(b, p0, done)
    && Reached(b, done)
    && (ok ==> Consistent(b) && b.MarkedSet() == m0 + MarksOf(done) && Applied(b, done))
  }

  /** A square off the layout holds a hint, not a mine. */
  lemma SafeSquare(b: Board, c: Coordinate)
    requires b.Valid() && InGrid(c, b.width, b.height) && c !in b.layout
    ensures b.ValueAt(c) != MINE
  {
    assert b.values[c.y, c.x] == b.Expected(Coordinate(c.x, c.y));
  }

  /** A square of the layout holds a mine. */
  lemma MineSquare(b: Board, c: Coordinate)
    requires b.Valid() && InGrid(c, b.width, b.height) && c in b.layout
    ensures b.ValueAt(c) == MINE
  {
    assert b.values[c.y, c.x] == b.Expected(Coordinate(c.x, c.y));
  }

  /** Probing a safe square keeps a consistent board consistent and reveals the square. */
  method ApplyProbe(b: Board, c: Coordinate, ghost ok: bool, ghost p0: set<Coordinate>, ghost m0: set<Coordinate>, ghost done: set<Action>)
    requires b.Valid() && InGrid(c, b.width, b.height)
    requires Progress(b, ok, p0, m0, done) && (ok ==> c !in b.layout)
    modifies b.probes
    ensures Progress(b, ok, p0, m0, done + {ProbeAt(c)})
  {
    ghost var marked := b.MarkedSet();
    ghost var probed := b.ProbedSet();
    b.Probe(c.x, c.y);
    assert b.MarkedSet() == marked;
    forall q | q in b.ProbedSet() - p0
      ensures exists t :: ProbeAt(t) in done + {ProbeAt(c)} && b.Spread(t, q)
    {
      if q !in probed {
        assert ProbeAt(c) in done + {ProbeAt(c)} && b.Spread(c, q);
      } else {
        assert q in old(b.ProbedSet()) - p0;
        var t :| ProbeAt(t) in done && old(b.Spread(t, q));
        assert ProbeAt(t) in done + {ProbeAt(c)} && b.Spread(t, q);
      }
    }
    if ok {
      SafeSquare(b, c);
      assert c !in marked;
      forall q | q in b.ProbedSet()
        ensures b.ValueAt(q) != MINE
      {
        if q in probed {
          assert !old(b.Failed());
        }
      }
    }
  }

  /** Flagging a mine keeps a consistent board consistent and flags the square. */
  method ApplyMark(b: Board, c: Coordinate, ghost ok: bool, ghost p0: set<Coordinate>, ghost m0: set<Coordinate>, ghost done: set<Action>)
    requires b.Valid() && InGrid(c, b.width, b.height)
    requires Progress(b, ok, p0, m0, done) && (ok ==> c in b.layout)
    modifies b.marks
    ensures Progress(b, ok, p0, m0, done + {MarkAt(c)})
  {
    ghost var probed := b.ProbedSet();
    b.Mark(c.x, c.y);
    assert b.ProbedSet() == probed;
    if ok {
      MineSquare(b, c);
      assert c !in probed by {
        assert !old(b.Failed());
      }
      assert MarksOf(done + {MarkAt(c)}) == MarksOf(done) + {c};
    }
  }

  /** The actions for squares `cs`: probes, or flags. */
  function Acts(cs: seq<Coordinate>, probe: bool): (r: set<Action>)
    ensures forall a :: a in r <==> a.at in cs && a.ProbeAt? == probe
  {
    set c | c in cs :: if probe then ProbeAt(c) else MarkAt(c)
  }

  /** The body of the inner loops of the resolution pass: probe, or flag, `c`. */
  method ApplyOne(b: Board, c: Coordinate, probe: bool,
                  ghost ok: bool, ghost p0: set<Coordinate>, ghost m0: set<Coordinate>, ghost done: set<Action>)
    requires b.Valid() && InGrid(c, b.width, b.height)
    requires Progress(b, ok, p0, m0, done) && (ok ==> SafeAction(if probe then ProbeAt(c) else MarkAt(c), b.layout))
    modifies b.probes, b.marks
    ensures Progress(b, ok, p0, m0, done + {if probe then ProbeAt(c) else MarkAt(c)})
    ensures probe ==> b.MarkedSet() == old(b.MarkedSet())
    ensures !probe ==> b.ProbedSet() == old(b.ProbedSet())
  {
    if probe {
      ApplyProbe(b, c, ok, p0, m0, done);
    } else {
      ApplyMark(b, c, ok, p0, m0, done);
    }
  }

  lemma ActsStep(cs: seq<Coordinate>, i: nat, probe: bool)
    requires i < |cs|
    ensures Acts(cs[..i + 1], probe) == Acts(cs[..i], probe) + {if probe then ProbeAt(cs[i]) else MarkAt(cs[i])}
  {
    assert cs[..i + 1] == cs[..i] + [cs[i]];
  }

  /** The inner loops of the resolution pass: probe, or flag, every square of `cs`. */
  method ApplyEach(b: Board, cs: seq<Coordinate>, probe: bool,
                   ghost ok: bool, ghost p0: set<Coordinate>, ghost m0: set<Coordinate>, ghost done: set<Action>)
    requires b.Valid() && forall c :: c in cs ==> InGrid(c, b.width, b.height)
    requires Progress(b, ok, p0, m0, done) && (ok ==> forall a :: a in Acts(cs, probe) ==> SafeAction(a, b.layout))
    modifies b.probes, b.marks
    ensures Progress(b, ok, p0, m0, done + Acts(cs, probe))
    ensures probe ==> b.MarkedSet() == old(b.MarkedSet())
    ensures !probe ==> b.ProbedSet() == old(b.ProbedSet())
    ensures cs == [] ==> b.ProbedSet() == old(b.ProbedSet()) && b.MarkedSet() == old(b.MarkedSet())
  {
    ghost var d := done;
    for i := 0 to |cs|
      invariant d == done + Acts(cs[..i], probe)
      invariant Progress(b, ok, p0, m0, d)
      invariant probe ==> b.MarkedSet() == old(b.MarkedSet())
      invariant !probe ==> b.ProbedSet() == old(b.ProbedSet())
      invariant i == 0 ==> b.ProbedSet() == old(b.ProbedSet()) && b.MarkedSet() == old(b.MarkedSet())
    {
      ActsStep(cs, i, probe);
      var a := if probe then ProbeAt(cs[i]) else MarkAt(cs[i]);
      assert ok ==> SafeAction(a, b.layout);
      ApplyOne(b, cs[i], probe, ok, p0, m0, d);
      d := d + {a};
    }
    assert cs[..|cs|] == cs;
  }

  /** One constraint of the resolution pass: with no mines its squares are probed, with
      as many mines as squares they are flagged, otherwise nothing happens. */
  method ResolveConstraint(b: Board, e: ConstraintValue,
                           ghost ok: bool, ghost p0: set<Coordinate>, ghost m0: set<Coordinate>, ghost done: set<Action>)
    requires b.Valid() && e.cells <= GridCells(b.width, b.height)
    requires Progress(b, ok, p0, m0, done) && (ok ==> forall a :: a in ActionsOf(e) ==> SafeAction(a, b.layout))
    modifies b.probes, b.marks
    ensures Progress(b, ok, p0, m0, done + ActionsOf(e))
    ensures ActionsOf(e) == {} ==> b.ProbedSet() == old(b.ProbedSet()) && b.MarkedSet() == old(b.MarkedSet())
    ensures e.mines != 0 ==> b.ProbedSet() == old(b.ProbedSet())
  {
    var m := e.mines;
    if m == 0 {
      var cs := Snapshot(e.cells);
      assert Acts(cs, true) == ActionsOf(e);
      ApplyEach(b, cs, true, ok, p0, m0, done);
    } else if m as int == |e.cells| {
      var cs := Snapshot(e.cells);
      assert Acts(cs, false) == ActionsOf(e);
      ApplyEach(b, cs, false, ok, p0, m0, done);
    }
  }

  /** Every action planned for the constraints of `list`. */
  ghost function PlannedIn(list: seq<ConstraintValue>): set<Action> {
    set e, a | e in list && a in ActionsOf(e) :: a
  }

  lemma PlannedInStep(list: seq<ConstraintValue>, i: int)
    requires 0 <= i < |list|
    ensures PlannedIn(list[..i + 1]) == PlannedIn(list[..i]) + ActionsOf(list[i])
  {
    forall a | a in PlannedIn(list[..i + 1])
      ensures a in PlannedIn(list[..i]) || a in ActionsOf(list[i])
    {
      var e :| e in list[..i + 1] && a in ActionsOf(e);
      if e != list[i] {
        assert e in list[..i];
      }
    }
    assert list[..i + 1][i] == list[i];
  }

  /** A snapshot of a set as an array, as `toArray` and iteration give it: every element
      once, in an order the set does not fix. */
  method Snapshot<T>(s: set<T>) returns (list: seq<T>)
    ensures forall x :: x in list <==> x in s
    ensures |list| == |s|
  {
    list := [];
    var rest := s;
    while rest != {}
      invariant rest <= s
      invariant forall x :: x in list <==> x in s && x !in rest
      invariant |list| + |rest| == |s|
      decreases |rest|
    {
      var x :| x in rest;
      list := list + [x];
      rest := rest - {x};
    }
  }

  /** The pairs of `list` before `(i, j)` in row-major order have their subset-rule
      constraint in `s`. */
  ghost predicate PairsDone(list: seq<ConstraintValue>, i: int, j: int, s: set<ConstraintValue>) {
    forall a, b :: 0 <= a < |list| && 0 <= b < |list| && (a < i || (a == i && b < j)) && Applies(list[a], list[b]) ==>
      Derive(list[a], list[b]) in s
  }

  /** Pair `(i, j)` done moves the row-major position on by one. */
  lemma PairsDoneStep(list: seq<ConstraintValue>, i: int, j: int, s: set<ConstraintValue>)
    requires 0 <= i < |list| && 0 <= j < |list| && PairsDone(list, i, j, s)
    requires Applies(list[i], list[j]) ==> Derive(list[i], list[j]) in s
    ensures PairsDone(list, i, j + 1, s)
  {
  }

  /** The end of row `i` is the start of row `i + 1`. */
  lemma PairsDoneRow(list: seq<ConstraintValue>, i: int, s: set<ConstraintValue>)
    requires PairsDone(list, i, |list|, s)
    ensures PairsDone(list, i + 1, 0, s)
  {
  }

  /** Once every pair of a snapshot is done, the set it was taken from is closed. */
  lemma PairsDoneClosed(list: seq<ConstraintValue>, s: set<ConstraintValue>)
    requires forall e :: e in list <==> e in s
    requires PairsDone(list, |list|, 0, s)
    ensures Closed(s)
  {
    forall e1, e2 | e1 in s && e2 in s && Applies(e1, e2)
      ensures Derive(e1, e2) in s
    {
      var a :| 0 <= a < |list| && list[a] == e1;
      var b :| 0 <= b < |list| && list[b] == e2;
    }
  }

  /** What one neighbour test of `inspect` does with the information `i` of neighbour
      `nb`: a flagged neighbour lowers the count, an unknown one joins the constraint. */
  method Tally(con: Constraint, nb: Coordinate, i: int, n: int8) returns (n': int8)
    requires -128 < n as int
    modifies con
    ensures con.cells == old(con.cells) + (if i == UNKNOWN then {nb} else {})
    ensures n' as int == n as int - (if i == FLAGGED then 1 else 0)
    ensures con.mines == old(con.mines)
  {
    n' := n;
    if i == FLAGGED {
      n' := n - 1;
    } else if i == UNKNOWN {
      var added := con.Add(nb);
    }
  }

  /** The eight neighbour tests of `inspect` for a revealed hint square `c`: a fresh
      `Constraint` holding the unknown neighbours, and the hint less one per flagged
      neighbour. */
  method ScanNeighbours(board: Board, ghost v: map<Coordinate, int>, c: Coordinate, hint: int) returns (con: Constraint, n: int8)
    requires board.Dims() && v == View(board) && 1 <= hint <= 8
    ensures fresh(con)
    ensures con.cells == Around(v, board.width, board.height, c, 8, UNKNOWN)
    ensures n as int == hint - |Around(v, board.width, board.height, c, 8, FLAGGED)|
  {
    var w, h := board.width, board.height;
    n := hint as int8;
    con := new Constraint();
    for k := 0 to 8
      invariant fresh(con)
      invariant con.cells == Around(v, w, h, c, k, UNKNOWN)
      invariant n as int == hint - CountAround(v, w, h, c, k, FLAGGED)
    {
      var nb := Neighbour(c, k);
      assert InGrid(nb, w, h) ==> nb in v && v[nb] == board.GetInformation(nb.x, nb.y);
      n := ScanNeighbour(board, v, c, k, con, n);
    }
    CountAroundSize(v, w, h, c, 8, FLAGGED);
  }

  /** The `k`-th neighbour test: a neighbour off the board is skipped, otherwise its
      information, which `v` records, is tallied. */
  method ScanNeighbour(board: Board, ghost v: map<Coordinate, int>, c: Coordinate, k: nat, con: Constraint, n: int8) returns (n': int8)
    requires board.Dims() && k < 8 && -128 < n as int
    requires var nb := Neighbour(c, k);
      InGrid(nb, board.width, board.height) ==> nb in v && v[nb] == board.GetInformation(nb.x, nb.y)
    requires con.cells == Around(v, board.width, board.height, c, k, UNKNOWN)
    modifies con
    ensures con.cells == Around(v, board.width, board.height, c, k + 1, UNKNOWN)
    ensures var nb := Neighbour(c, k);
      n' as int == n as int - if InGrid(nb, board.width, board.height) && nb in v && v[nb] == FLAGGED then 1 else 0
  {
    var nb := Neighbour(c, k);
    n' := n;
    if InGrid(nb, board.width, board.height) {
      var i := board.GetInformation(nb.x, nb.y);
      n' := Tally(con, nb, i, n);
    }
  }

  /** The constraint `inspect` builds for a revealed hint square: the neighbour tests,
      then the lowered hint as its mine count. */
  method SeedAt(board: Board, ghost v: map<Coordinate, int>, x: int, y: int) returns (e: ConstraintValue)
    requires board.Dims() && v == View(board) && board.On(x, y) && 1 <= Info(board, Coordinate(x, y)) <= 8
    ensures e == SeedOf(v, board.width, board.height, Coordinate(x, y))
  {
    var hint := board.GetInformation(x, y);
    var con, n := ScanNeighbours(board, v, Coordinate(x, y), hint);
    con.SetMines(n);
    e := con.Value();
  }

  /** Whether square `(x, y)` seeds a constraint, and which: a revealed hint in 1..8
      whose unknown neighbours are not all gone. */
  method SeedFor(board: Board, ghost v: map<Coordinate, int>, x: int, y: int) returns (seeded: bool, e: ConstraintValue)
    requires board.Dims() && v == View(board) && board.On(x, y)
    ensures seeded <==> Seeded(v, board.width, board.height, Coordinate(x, y))
    ensures seeded ==> e == SeedOf(v, board.width, board.height, Coordinate(x, y))
    ensures seeded ==> e.cells <= GridCells(board.width, board.height)
  {
    var n := board.GetInformation(x, y);
    seeded := false;
    e := ConstraintValue({}, 0);
    if 0 < n < 9 {
      SeedOfNeighbours(board, Coordinate(x, y));
      e := SeedAt(board, v, x, y);
      seeded := e.cells != {};
    }
  }

  /** Java's `MinesweeperSolver`: the board it solves, the working set of constraints
      (a `HashSet` keyed by `equals`), the iteration counter, and whether the working
      set is current. */
  class Solver {
    const board: Board
    var sets: set<ConstraintValue>
    var count: int
    var inspected: bool

    ghost predicate Valid()
      reads this, board.values
    {
      && board.Valid()
      && IsInt32(count)
      && forall e :: e in sets ==> e.cells != {} && e.cells <= GridCells(board.width, board.height)
    }

    /** `MinesweeperSolver(board)`: an empty working set and a zero counter. */
    constructor (b: Board)
      requires b.Valid()
      ensures Valid() && board == b && sets == {} && count == 0 && !inspected
    {
      board := b;
      sets := {};
      count := 0;
      inspected := false;
    }

    /** One square of the seeding loop of `inspect`: a revealed hint in 1..8 gives a
        constraint, which joins the working set unless it is empty. */
    method SeedSquare(ghost v: map<Coordinate, int>, x: int, y: int)
      requires Valid() && v == View(board) && board.On(x, y)
      modifies this`sets
      ensures Valid()
      ensures var p := Coordinate(x, y);
        sets == old(sets) + if Seeded(v, board.width, board.height, p) then {SeedOf(v, board.width, board.height, p)} else {}
    {
      var seeded, e := SeedFor(board, v, x, y);
      if seeded {
        sets := sets + {e};
      }
    }

    /** The seeding loop of `inspect`, row by row over the board. */
    method SeedAll(ghost v: map<Coordinate, int>)
      requires Valid() && v == View(board) && sets == {}
      modifies this`sets
      ensures Valid() && sets == SeedsBefore(v, board.width, board.height, 0, board.height)
    {
      var h := board.GetHeight();
      for y := 0 to h
        invariant Valid() && sets == SeedsBefore(v, board.width, h, 0, y)
      {
        SeedRow(v, y);
        SeedsRowStep(v, board.width, h, y);
      }
    }

    /** Row `y` of the seeding loop. */
    method SeedRow(ghost v: map<Coordinate, int>, y: int)
      requires Valid() && v == View(board) && 0 <= y < board.height
      requires sets == SeedsBefore(v, board.width, board.height, 0, y)
      modifies this`sets
      ensures Valid() && sets == SeedsBefore(v, board.width, board.height, board.width, y)
    {
      var w := board.GetWidth();
      for x := 0 to w
        invariant Valid() && sets == SeedsBefore(v, w, board.height, x, y)
      {
        SeedSquare(v, x, y);
        SeedsStep(v, w, board.height, x, y);
      }
    }

    /** `inspect`: clear the working set, seed it from every revealed hint in 1..8 whose
        constraint is not empty, then close it under the subset rule. The result is the
        closure of the seeds, so it depends on the board alone. */
    method Inspect()
      requires Valid()
      modifies this`sets, this`inspected
      ensures Valid() && inspected
      ensures LeastClosed(sets, Seeds(board))
    {
      ghost var v := View(board);
      sets := {};
      SeedAll(v);
      ghost var seeds := sets;
      Close();
      inspected := true;
      assert View(board) == v;
      assert Seeds(board) == seeds;
    }

    /** The fixed-point loop of `inspect`: passes over snapshots of the working set until
        a pass adds nothing. The set only grows, and inside the finite universe of
        byte-counted constraints over the grid, so the loop ends. */
    method Close()
      requires Valid()
      modifies this`sets
      ensures Valid()
      ensures LeastClosed(sets, old(sets))
    {
      ghost var grid := GridCells(board.width, board.height);
      var changed := true;
      while changed
        invariant Valid() && old(sets) <= sets
        invariant forall t :: old(sets) <= t && Closed(t) ==> sets <= t
        invariant !changed ==> Closed(sets)
        decreases |Universe(grid) - sets| + if changed then 1 else 0
      {
        ghost var before := sets;
        changed := Pass();
        if changed {
          ghost var c :| c !in before && sets == before + {c};
          InUniverse(c, grid);
          UniverseShrinks(before, c, grid);
        }
      }
    }

    /** `sets.add(c)`: reports whether `c` was absent; it is present afterwards. */
    method Add(c: ConstraintValue) returns (added: bool)
      modifies this`sets
      ensures added <==> c !in old(sets)
      ensures sets == old(sets) + {c}
    {
      added := c !in sets;
      sets := sets + {c};
    }

    /** One pass of the fixed-point loop over a snapshot of the working set. Because
        `changed || sets.add(c)` stops calling `add` once something was added, a pass adds
        at most one constraint; a pass that adds none leaves the set closed. */
    method Pass() returns (changed: bool)
      requires Valid()
      modifies this`sets
      ensures Valid()
      ensures !changed ==> sets == old(sets) && Closed(sets)
      ensures changed ==> exists c :: c !in old(sets) && sets == old(sets) + {c}
      ensures forall t :: old(sets) <= t && Closed(t) ==> sets <= t
    {
      changed := false;
      var list := Snapshot(sets);
      for i := 0 to |list|
        invariant Valid()
        invariant !changed ==> sets == old(sets) && PairsDone(list, i, 0, sets)
        invariant changed ==> exists c :: c !in old(sets) && sets == old(sets) + {c}
        invariant forall t :: old(sets) <= t && Closed(t) ==> sets <= t
      {
        changed := PassRow(list, i, old(sets), changed);
      }
      if !changed {
        PairsDoneClosed(list, sets);
      }
    }

    /** Row `i` of a pass: `list[i]` against every constraint of the snapshot `list` of
        the working set `s0` the pass started from. */
    method PassRow(list: seq<ConstraintValue>, i: nat, ghost s0: set<ConstraintValue>, changed0: bool) returns (changed: bool)
      requires Valid() && i < |list| && forall e :: e in list <==> e in s0
      requires !changed0 ==> sets == s0 && PairsDone(list, i, 0, sets)
      requires changed0 ==> exists c :: c !in s0 && sets == s0 + {c}
      requires forall t :: s0 <= t && Closed(t) ==> sets <= t
      modifies this`sets
      ensures Valid()
      ensures !changed ==> sets == s0 && PairsDone(list, i + 1, 0, sets)
      ensures changed ==> exists c :: c !in s0 && sets == s0 + {c}
      ensures forall t :: s0 <= t && Closed(t) ==> sets <= t
    {
      changed := changed0;
      var e1 := list[i];
      for j := 0 to |list|
        invariant Valid() && s0 <= sets
        invariant !changed ==> sets == s0 && PairsDone(list, i, j, sets)
        invariant changed ==> exists c :: c !in s0 && sets == s0 + {c}
        invariant forall t :: s0 <= t && Closed(t) ==> sets <= t
      {
        var e2 := list[j];
        if e1 != e2 {
          if SetOperations.ProperSubset(e1.cells, e2.cells) {
            var c := Derive(e1, e2);
            assert e2 in sets;
            if !changed {
              changed := Add(c);
              forall t | s0 <= t && Closed(t)
                ensures sets <= t
              {
                assert e1 in t && e2 in t;
              }
            }
          }
        }
        if !changed {
          PairsDoneStep(list, i, j, sets);
        }
      }
      if !changed {
        PairsDoneRow(list, i, sets);
      }
    }

    /** The resolution loop of `iteration`, over the working set in the order a snapshot
        gives it, from revealed squares `p0` and flags `m0`. Squares are never hidden
        nor flags removed; and when `ok`, which holds when the board is consistent and
        every planned action is right for the layout, the board stays consistent, gains
        exactly the planned flags, and every planned action takes effect. */
    method Resolve(ghost ok: bool, ghost p0: set<Coordinate>, ghost m0: set<Coordinate>)
      requires Valid() && p0 == board.ProbedSet() && m0 == board.MarkedSet()
      requires ok ==> Consistent(board) && forall a :: a in Planned(sets) ==> SafeAction(a, board.layout)
      modifies board.probes, board.marks
      ensures Progress(board, ok, p0, m0, Planned(sets))
    {
      var list := Snapshot(sets);
      for i := 0 to |list|
        invariant Progress(board, ok, p0, m0, PlannedIn(list[..i]))
      {
        var e := list[i];
        assert ok ==> forall a :: a in ActionsOf(e) ==> a in Planned(sets);
        ResolveConstraint(board, e, ok, p0, m0, PlannedIn(list[..i]));
        PlannedInStep(list, i);
      }
      assert list[..|list|] == list;
      assert PlannedIn(list) == Planned(sets);
    }

    /** The body of `iteration` past its checks, for a board whose information is `v`:
        bring a stale working set up to date, then probe and flag what it determines;
        the working set is stale afterwards. `ok` says the board is consistent and the
        working set is up to date or about to be brought up to date. */
    method Step(ghost v: map<Coordinate, int>, ghost p0: set<Coordinate>, ghost m0: set<Coordinate>, ghost ok: bool)
      requires Valid() && v == View(board) && p0 == board.ProbedSet() && m0 == board.MarkedSet()
      requires ok ==> Consistent(board) && (inspected ==> LeastClosed(sets, Seeds(board)))
      modifies this`sets, this`inspected, board.probes, board.marks
      ensures Valid() && !inspected
      ensures old(inspected) ==> sets == old(sets)
      ensures !old(inspected) ==> LeastClosed(sets, SeedsBefore(v, board.width, board.height, 0, board.height))
      ensures Progress(board, ok, p0, m0, Planned(sets))
    {
      if !inspected {
        Inspect();
      }
      assert View(board) == v;
      assert board.ProbedSet() == p0 && board.MarkedSet() == m0;
      if ok {
        PlannedSafe(board, sets);
      }
      Resolve(ok, p0, m0);
      inspected := false;
    }

    /** The part of `iteration` after its check: one step on a board that is neither
        solved nor failed. */
    method Proceed()
      requires Valid()
      modifies this`sets, this`inspected, board.probes, board.marks
      ensures Valid() && !inspected
      ensures old(inspected) ==> sets == old(sets)
      ensures !old(inspected) ==> LeastClosed(sets, old(Seeds(board)))
      ensures Progress(board, old(Consistent(board) && (inspected ==> LeastClosed(sets, Seeds(board)))),
                       old(board.ProbedSet()), old(board.MarkedSet()), Planned(sets))
    {
      ghost var v, p0, m0 := View(board), board.ProbedSet(), board.MarkedSet();
      ghost var ok := Consistent(board) && (inspected ==> LeastClosed(sets, Seeds(board)));
      Step(v, p0, m0, ok);
    }

    /** `iteration`: count the call, refuse a board already solved or failed, then take
        one step. On a consistent board whose working set is the closure of its seeds or
        stale, the step probes no mine and flags no safe square, and every planned probe
        and flag takes effect. */
    method Iteration() returns (r: Outcome<string>)
      requires Valid()
      modifies this`count, this`sets, this`inspected, board.probes, board.marks
      ensures Valid()
      ensures count == Wrap32(old(count) + 1)
      ensures r.Fail? <==> old(board.Solved() || board.Failed())
      ensures r.Fail? ==> sets == old(sets) && inspected == old(inspected) && unchanged(board.probes, board.marks)
      ensures r.Pass? ==> !inspected
      ensures r.Pass? && old(inspected) ==> sets == old(sets)
      ensures r.Pass? && !old(inspected) ==> LeastClosed(sets, old(Seeds(board)))
      ensures r.Pass? ==>
        Progress(board, old(Consistent(board) && (inspected ==> LeastClosed(sets, Seeds(board)))),
                 old(board.ProbedSet()), old(board.MarkedSet()), Planned(sets))
    {
      var over := Check();
      if over {
        return Fail("The board is already solved or failed.");
      }
      Proceed();
      r := Outcome.Pass;
    }

    /** The start of `iteration`: count the call, then ask `isSolved() || isFailed()`,
        the second only when the first is false. Nothing the solver reads changes. */
    method Check() returns (over: bool)
      requires Valid()
      modifies this`count
      ensures Valid() && count == Wrap32(old(count) + 1)
      ensures over == (board.Solved() || board.Failed())
      ensures View(board) == old(View(board))
      ensures board.ProbedSet() == old(board.ProbedSet()) && board.MarkedSet() == old(board.MarkedSet())
      ensures Consistent(board) == old(Consistent(board))
    {
      count := Wrap32(count + 1);
      over := Over();
    }

    /** `isSolved() || isFailed()`, the second asked only when the first is false. */
    method Over() returns (r: bool)
      requires Valid()
      ensures r == (board.Solved() || board.Failed())
      ensures View(board) == old(View(board))
      ensures board.ProbedSet() == old(board.ProbedSet()) && board.MarkedSet() == old(board.MarkedSet())
      ensures Consistent(board) == old(Consistent(board))
    {
      r := board.IsSolved();
      if !r {
        r := board.IsFailed();
      }
    }

    /** `isFailed`: whether the board has a revealed mine. */
    method IsFailed() returns (r: bool)
      requires Valid()
      ensures r == board.Failed()
    {
      r := board.IsFailed();
    }

    /** `isSolved`: whether the board is solved. */
    method IsSolved() returns (r: bool)
      requires Valid()
      ensures r == board.Solved()
    {
      r := board.IsSolved();
    }

    /** `getSets`: the working set. */
    function GetSets(): (r: set<ConstraintValue>)
      reads this
      ensures r == sets
    {
      sets
    }

    /** `getCount`: the number of `iteration` calls, as a 32-bit int. */
    function GetCount(): (r: int)
      requires Valid()
      reads this, board.values
      ensures IsInt32(r) && r == count
    {
      count
    }
  }
}
