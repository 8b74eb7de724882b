/** Day 16: a beam of light enters a grid of mirrors and splitters.  Part 1 counts
    the cells the beam passes through; part 2 takes the best entry point on the
    edge of the grid. */
module Day16 {
  import opened Common

  datatype Direction = Up | Left | Down | Right

  function Value(d: Direction): (int, int)
  {
    match d
    case Up => (-1, 0)
    case Left => (0, -1)
    case Down => (1, 0)
    case Right => (0, 1)
  }

  predicate IsUnit(v: (int, int))
  {
    v == (-1, 0) || v == (0, -1) || v == (1, 0) || v == (0, 1)
  }

  /** `Direction(value)`. */
  function OfValue(v: (int, int)): (d: Direction)
    requires IsUnit(v)
    ensures Value(d) == v
  {
    if v == (-1, 0) then Up
    else if v == (0, -1) then Left
    else if v == (1, 0) then Down
    else Right
  }

  /** The cells of the grid: `Empty` '.', `NW` '\', `NE` '/', `Vert` '|', `Horiz` '-'. */
  datatype Mirror = Empty | NW | NE | Vert | Horiz

  /** `Mirror.reflect`: the directions a beam travelling towards `d` leaves the cell in. */
  function Reflect(m: Mirror, d: Direction): (r: set<Direction>)
    ensures 1 <= |r| <= 2
  {
    var (dr, dc) := Value(d);
    match m
    case Empty => {d}
    case NW => {OfValue((dc, dr))}
    case NE => {OfValue((-1 * dc, -1 * dr))}
    case Vert => if d in {Up, Down} then {d} else {Up, Down}
    case Horiz => if d in {Left, Right} then {d} else {Left, Right}
  }

  /** The only direction `m` sends a beam towards, when it sends it one way. */
  function Single(m: Mirror, d: Direction): (e: Direction)
    requires m == NW || m == NE
    ensures Reflect(m, d) == {e}
  {
    var (dr, dc) := Value(d);
    if m == NW then OfValue((dc, dr)) else OfValue((-1 * dc, -1 * dr))
  }

  /** '\' swaps the row and column components: right and down trade places, as do
      left and up; going through it twice restores the direction. */
  lemma BackslashSwaps(d: Direction)
    ensures Reflect(NW, Right) == {Down} && Reflect(NW, Down) == {Right}
    ensures Reflect(NW, Left) == {Up} && Reflect(NW, Up) == {Left}
    ensures Single(NW, Single(NW, d)) == d
  {
  }

  /** '/' maps (r, c) to (-c, -r): right and up trade places, as do left and down;
      going through it twice restores the direction. */
  lemma SlashSwaps(d: Direction)
    ensures Reflect(NE, Right) == {Up} && Reflect(NE, Up) == {Right}
    ensures Reflect(NE, Left) == {Down} && Reflect(NE, Down) == {Left}
    ensures Single(NE, Single(NE, d)) == d
  {
  }

  /** A splitter lets a beam along its axis pass and splits any other beam into the
      two directions along its axis. */
  lemma SplitterBehaviour(d: Direction)
    ensures d in {Up, Down} ==> Reflect(Vert, d) == {d}
    ensures d !in {Up, Down} ==> Reflect(Vert, d) == {Up, Down} && |Reflect(Vert, d)| == 2
    ensures d in {Left, Right} ==> Reflect(Horiz, d) == {d}
    ensures d !in {Left, Right} ==> Reflect(Horiz, d) == {Left, Right} && |Reflect(Horiz, d)| == 2
    ensures Reflect(Empty, d) == {d}
  {
  }

  type Loc = (int, int)
  type Grid = seq<seq<Mirror>>

  /** A beam at `loc` heading towards `dir`. */
  type Beam = (Loc, Direction)

  predicate Rectangular(g: Grid)
  {
    |g| == 0 || Rect(g, |g[0]|)
  }

  function Width(g: Grid): nat
  {
    if |g| == 0 then 0 else |g[0]|
  }

  predicate InGrid(g: Grid, loc: Loc)
  {
    0 <= loc.0 < |g| && 0 <= loc.1 < Width(g)
  }

  function Shift(loc: Loc, d: Direction): Loc
  {
    (loc.0 + Value(d).0, loc.1 + Value(d).1)
  }

  /** The beams one cell on from `b`: through the mirror at `b`'s cell, and not off the grid. */
  function Successors(g: Grid, b: Beam): set<Beam>
    requires Rectangular(g) && InGrid(g, b.0)
  {
    var (loc, d) := b;
    set e | e in Reflect(g[loc.0][loc.1], d) && InGrid(g, Shift(loc, e)) :: (Shift(loc, e), e)
  }

  /** `b` is one of the beams one cell on from `a`. */
  predicate Follows(g: Grid, a: Beam, b: Beam)
    requires Rectangular(g)
  {
    && InGrid(g, a.0) && InGrid(g, b.0)
    && b.1 in Reflect(g[a.0.0][a.0.1], a.1)
    && b.0 == Shift(a.0, b.1)
  }

  lemma SuccessorsFollow(g: Grid, a: Beam)
    requires Rectangular(g) && InGrid(g, a.0)
    ensures forall b :: b in Successors(g, a) <==> Follows(g, a, b)
  {
  }

  const AllDirections: set<Direction> := {Up, Left, Down, Right}

  lemma AllDirectionsComplete(d: Direction)
    ensures d in AllDirections
  {
  }

  lemma InBeams(g: Grid, b: Beam)
    requires InGrid(g, b.0)
    ensures b in Beams(g)
  {
    AllDirectionsComplete(b.1);
    var ((r, c), d) := b;
    assert ((r, c), d) in Beams(g);
  }

  /** Every beam inside the grid. */
  function Beams(g: Grid): set<Beam>
  {
    set r, c, d | 0 <= r < |g| && 0 <= c < Width(g) && d in AllDirections :: ((r, c), d)
  }

  /** `b` is reached from `start` in at most `k` moves. */
  ghost predicate ReachableIn(g: Grid, start: Beam, b: Beam, k: nat)
    requires Rectangular(g)
    decreases k
  {
    if k == 0 then b == start
    else ReachableIn(g, start, b, k - 1) ||
         exists a: Beam :: ReachableIn(g, start, a, k - 1) && Follows(g, a, b)
  }

  ghost predicate Reachable(g: Grid, start: Beam, b: Beam)
    requires Rectangular(g)
  {
    exists k :: ReachableIn(g, start, b, k)
  }

  /** The beams that eventually exist when `start` enters the grid. */
  ghost function Energized(g: Grid, start: Beam): set<Beam>
    requires Rectangular(g)
  {
    set b | b in Beams(g) && Reachable(g, start, b)
  }

  /** The cells some beam passes through. */
  function Cells(beams: set<Beam>): set<Loc>
  {
    set b | b in beams :: b.0
  }

  /** `beams` holds `start` and every successor of every beam it holds. */
  ghost predicate Closed(g: Grid, start: Beam, beams: set<Beam>)
    requires Rectangular(g)
  {
    && start in beams
    && (forall b :: b in beams ==> InGrid(g, b.0))
    && (forall a, b :: a in beams && Follows(g, a, b) ==> b in beams)
  }

  lemma {:induction false} ClosedHasReachable(g: Grid, start: Beam, beams: set<Beam>, b: Beam, k: nat)
    requires Rectangular(g) && Closed(g, start, beams) && ReachableIn(g, start, b, k)
    ensures b in beams
    decreases k
  {
    if k == 0 {
    } else if ReachableIn(g, start, b, k - 1) {
      ClosedHasReachable(g, start, beams, b, k - 1);
    } else {
      var a: Beam :| ReachableIn(g, start, a, k - 1) && Follows(g, a, b);
      ClosedHasReachable(g, start, beams, a, k - 1);
    }
  }

  /** The cells of a grid. */
  function Locs(h: nat, w: nat): set<Loc>
  {
    set r, c | 0 <= r < h && 0 <= c < w :: (r, c)
  }

  function RowLocs(r: int, w: nat): set<Loc>
  {
    set c | 0 <= c < w :: (r, c)
  }

  lemma {:induction false} RowLocsSize(r: int, w: nat)
    ensures |RowLocs(r, w)| == w
  {
    if w > 0 {
      assert RowLocs(r, w) == RowLocs(r, w - 1) + {(r, w - 1)};
      RowLocsSize(r, w - 1);
    } else {
      assert RowLocs(r, w) == {};
    }
  }

  lemma {:induction false} LocsSize(h: nat, w: nat)
    ensures |Locs(h, w)| <= h * w
  {
    if h > 0 {
      LocsSplit(h, w);
      LocsSize(h - 1, w);
      RowLocsSize(h - 1, w);
      UnionSize(Locs(h - 1, w), RowLocs(h - 1, w));
      assert (h - 1) * w + w == h * w;
    } else {
      assert Locs(h, w) == {};
    }
  }

  lemma LocsSplit(h: nat, w: nat)
    requires h > 0
    ensures Locs(h, w) == Locs(h - 1, w) + RowLocs(h - 1, w)
  {
  }

  lemma UnionSize<T>(a: set<T>, b: set<T>)
    ensures |a + b| <= |a| + |b|
  {
    assert a + b == a + (b - a);
    SubsetSize(b - a, b);
  }

  lemma SubsetSize<T>(a: set<T>, b: set<T>)
    requires a <= b
    ensures |a| <= |b|
  {
    assert b == a + (b - a);
  }

  /** The answer lies between 1 and the number of cells. */
  lemma EnergizedBounds(g: Grid, start: Beam, beams: set<Beam>)
    requires Rectangular(g) && start in beams && forall b :: b in beams ==> InGrid(g, b.0)
    ensures 1 <= |Cells(beams)| <= |g| * Width(g)
  {
    assert start.0 in Cells(beams);
    forall l | l in Cells(beams) ensures l in Locs(|g|, Width(g)) {
      var b :| b in beams && b.0 == l;
      assert (l.0, l.1) in Locs(|g|, Width(g));
    }
    LocsSize(|g|, Width(g));
    SubsetSize(Cells(beams), Locs(|g|, Width(g)));
  }

  /** The beams leaving `loc` towards each of `dirs`, dropping those that leave the grid. */
  function Moves(g: Grid, loc: Loc, dirs: set<Direction>): set<Beam>
  {
    set e | e in dirs && InGrid(g, Shift(loc, e)) :: (Shift(loc, e), e)
  }

  lemma MovesAdd(g: Grid, loc: Loc, dirs: set<Direction>, e: Direction)
    ensures Moves(g, loc, dirs + {e}) ==
            Moves(g, loc, dirs) + (if InGrid(g, Shift(loc, e)) then {(Shift(loc, e), e)} else {})
  {
  }

  /** One turn of the loop below: the beam towards `e` is added unless it is off
      the grid or already seen. */
  lemma ExpandOne(g: Grid, loc: Loc, done: set<Direction>, e: Direction,
                  seen0: set<Beam>, queue0: set<Beam>, seen: set<Beam>, queue: set<Beam>)
    requires e !in done
    requires seen == seen0 + Moves(g, loc, done) && queue == queue0 + (Moves(g, loc, done) - seen0)
    ensures !InGrid(g, Shift(loc, e)) || (Shift(loc, e), e) in seen ==>
              seen == seen0 + Moves(g, loc, done + {e}) &&
              queue == queue0 + (Moves(g, loc, done + {e}) - seen0)
    ensures InGrid(g, Shift(loc, e)) && (Shift(loc, e), e) !in seen ==>
              seen + {(Shift(loc, e), e)} == seen0 + Moves(g, loc, done + {e}) &&
              queue + {(Shift(loc, e), e)} == queue0 + (Moves(g, loc, done + {e}) - seen0)
  {
    MovesAdd(g, loc, done, e);
    assert (Shift(loc, e), e) !in Moves(g, loc, done);
  }

  /** The beams of the directions `done` are added to the seen beams, and those not
      seen before to the queue. */
  ghost predicate Expanded(g: Grid, loc: Loc, done: set<Direction>, seen0: set<Beam>, queue0: set<Beam>,
                           seen: set<Beam>, queue: set<Beam>)
  {
    seen == seen0 + Moves(g, loc, done) && queue == queue0 + (Moves(g, loc, done) - seen0)
  }

  /** One turn of the loop below: the beam from `loc` towards `e` is added to both the
      seen beams and the queue unless it is off the grid or already seen. */
  method ExpandTurn(g: Grid, loc: Loc, ghost done: set<Direction>, e: Direction,
                    ghost seen0: set<Beam>, ghost queue0: set<Beam>, seen: set<Beam>, queue: set<Beam>)
    returns (seen': set<Beam>, queue': set<Beam>)
    requires e !in done && Expanded(g, loc, done, seen0, queue0, seen, queue)
    ensures Expanded(g, loc, done + {e}, seen0, queue0, seen', queue')
  {
    ExpandOne(g, loc, done, e, seen0, queue0, seen, queue);
    var newLoc := Shift(loc, e);
    if !InGrid(g, newLoc) {
      return seen, queue;
    }
    if (newLoc, e) in seen {
      return seen, queue;
    }
    seen' := seen + {(newLoc, e)};
    queue' := queue + {(newLoc, e)};
  }

  /** The `for new_direction in mirror.reflect(direction)` loop: add the unseen
      successors of `b` to both the seen beams and the queue. */
  method Expand(g: Grid, b: Beam, seen0: set<Beam>, queue0: set<Beam>)
    returns (seen: set<Beam>, queue: set<Beam>)
    requires Rectangular(g) && InGrid(g, b.0)
    ensures seen == seen0 + Successors(g, b)
    ensures queue == queue0 + (Successors(g, b) - seen0)
  {
    var loc, direction := b.0, b.1;
    var mirror := g[loc.0][loc.1];
    var options := Reflect(mirror, direction);
    seen, queue := ExpandAll(g, loc, options, seen0, queue0);
    MovesAll(g, b, options, seen0, queue0, seen, queue);
  }

  /** The loop itself, over the directions `dirs`, in whatever order the set yields them. */
  method ExpandAll(g: Grid, loc: Loc, dirs: set<Direction>, seen0: set<Beam>, queue0: set<Beam>)
    returns (seen: set<Beam>, queue: set<Beam>)
    ensures Expanded(g, loc, dirs, seen0, queue0, seen, queue)
  {
    var options := dirs;
    seen, queue := seen0, queue0;
    ghost var done: set<Direction> := {};
    while options != {}
      invariant options + done == dirs && options !! done
      invariant Expanded(g, loc, done, seen0, queue0, seen, queue)
      decreases |options|
    {
      var newDirection :| newDirection in options;
      seen, queue := ExpandTurn(g, loc, done, newDirection, seen0, queue0, seen, queue);
      options := options - {newDirection};
      done := done + {newDirection};
    }
  }

  /** Once every reflected direction is done, the moves are the successors. */
  lemma MovesAll(g: Grid, b: Beam, done: set<Direction>, seen0: set<Beam>, queue0: set<Beam>,
                 seen: set<Beam>, queue: set<Beam>)
    requires Rectangular(g) && InGrid(g, b.0)
    requires done == Reflect(g[b.0.0][b.0.1], b.1) && Expanded(g, b.0, done, seen0, queue0, seen, queue)
    ensures seen == seen0 + Successors(g, b)
    ensures queue == queue0 + (Successors(g, b) - seen0)
  {
    assert Moves(g, b.0, done) == Successors(g, b);
  }

  /** The worklist invariant of `solve1`: every seen beam lies in the grid and is
      reachable, and every seen beam no longer queued has all its successors seen. */
  ghost predicate Worklist(g: Grid, start: Beam, seen: set<Beam>, queue: set<Beam>)
    requires Rectangular(g)
  {
    && queue <= seen <= Beams(g) && start in seen
    && (forall b :: b in seen ==> InGrid(g, b.0))
    && (forall b :: b in seen ==> Reachable(g, start, b))
    && (forall a, b :: a in seen && a !in queue && Follows(g, a, b) ==> b in seen)
  }

  /** Expanding a popped beam keeps the worklist invariant and lowers the measure. */
  lemma ExpandStep(g: Grid, start: Beam, seen: set<Beam>, queue: set<Beam>, b: Beam)
    requires Rectangular(g) && Worklist(g, start, seen, queue) && b in queue
    ensures InGrid(g, b.0)
    ensures Worklist(g, start, seen + Successors(g, b), (queue - {b}) + (Successors(g, b) - seen))
    ensures 2 * |Beams(g) - (seen + Successors(g, b))| + |(queue - {b}) + (Successors(g, b) - seen)|
            < 2 * |Beams(g) - seen| + |queue|
  {
    SuccessorsReachable(g, start, b);
    SuccessorsInGrid(g, b);
    SuccessorsFollow(g, b);
    var added := Successors(g, b) - seen;
    assert seen + Successors(g, b) == seen + added;
    ExpandShrinks(Beams(g), seen, added);
    assert (queue - {b}) !! added;
  }

  /** `solve1`: the number of cells energized by a beam entering at `start` towards
      `direction`. */
  method Solve1(g: Grid, start: Loc, direction: Direction) returns (r: Result<int>, ghost beams: set<Beam>)
    requires Rectangular(g) && 0 <= start.0 && 0 <= start.1
    ensures r.Err? <==> !InGrid(g, start)
    ensures r.Err? ==> r.fault == IndexError
    ensures r.Ok? ==> beams == Energized(g, (start, direction)) && r.value == |Cells(beams)|
    ensures r.Ok? ==> 1 <= r.value <= |g| * Width(g)
  {
    beams := {};
    if !InGrid(g, start) {
      return Err(IndexError), beams;
    }
    AllDirectionsComplete(direction);
    var seen := {(start, direction)};
    var queue := {(start, direction)};
    assert ReachableIn(g, (start, direction), (start, direction), 0);
    InBeams(g, (start, direction));
    while |queue| > 0
      invariant Worklist(g, (start, direction), seen, queue)
      decreases 2 * |Beams(g) - seen| + |queue|
    {
      ghost var someElement := HasElement(queue);
      var b :| b in queue;
      ExpandStep(g, (start, direction), seen, queue, b);
      seen, queue := Expand(g, b, seen, queue - {b});
    }
    forall b | b in Energized(g, (start, direction)) ensures b in seen {
      var k: nat :| ReachableIn(g, (start, direction), b, k);
      ClosedHasReachable(g, (start, direction), seen, b, k);
    }
    EnergizedBounds(g, (start, direction), seen);
    beams := seen;
    return Ok(|Cells(seen)|), beams;
  }

  lemma SuccessorsInGrid(g: Grid, b: Beam)
    requires Rectangular(g) && InGrid(g, b.0)
    ensures Successors(g, b) <= Beams(g)
    ensures forall s :: s in Successors(g, b) ==> InGrid(g, s.0)
  {
    forall s | s in Successors(g, b) ensures s in Beams(g) {
      InBeams(g, s);
    }
  }

  lemma SuccessorsReachable(g: Grid, start: Beam, b: Beam)
    requires Rectangular(g) && InGrid(g, b.0) && Reachable(g, start, b)
    ensures forall s :: s in Successors(g, b) ==> Reachable(g, start, s)
  {
    var k: nat :| ReachableIn(g, start, b, k);
    SuccessorsFollow(g, b);
    forall s | s in Successors(g, b) ensures Reachable(g, start, s) {
      assert ReachableIn(g, start, s, k + 1);
    }
  }

  /** Marking `added` beams as seen lowers the count of unseen beams by as many. */
  lemma ExpandShrinks(all: set<Beam>, seen: set<Beam>, added: set<Beam>)
    requires added <= all && added !! seen
    ensures |all - (seen + added)| == |all - seen| - |added|
  {
    assert all - seen == (all - (seen + added)) + added;
    assert (all - (seen + added)) !! added;
  }

  /** The entry points `gen_all` tries, in its order. */
  function EdgeStarts(h: nat, w: nat): (starts: seq<Beam>)
    requires h > 0 && w > 0
    ensures |starts| == 2 * h + 2 * w
    ensures forall i :: 0 <= i < |starts| ==> 0 <= starts[i].0.0 < h && 0 <= starts[i].0.1 < w
  {
    RowStarts(h, w, h) + ColumnStarts(h, w, w)
  }

  function RowStarts(h: nat, w: nat, k: nat): (starts: seq<Beam>)
    requires k <= h && w > 0
    ensures |starts| == 2 * k
    ensures forall i :: 0 <= i < |starts| ==> 0 <= starts[i].0.0 < h && 0 <= starts[i].0.1 < w
    ensures k > 0 ==> starts[0] == ((0, 0), Right)
  {
    if k == 0 then [] else RowStarts(h, w, k - 1) + [((k - 1, 0), Right), ((k - 1, w - 1), Left)]
  }

  function ColumnStarts(h: nat, w: nat, k: nat): (starts: seq<Beam>)
    requires k <= w && h > 0
    ensures |starts| == 2 * k
    ensures forall i :: 0 <= i < |starts| ==> 0 <= starts[i].0.0 < h && 0 <= starts[i].0.1 < w
  {
    if k == 0 then [] else ColumnStarts(h, w, k - 1) + [((0, k - 1), Down), ((h - 1, k - 1), Up)]
  }

  /** The energized cell counts of the edge starts. */
  ghost function EdgeCounts(g: Grid, starts: seq<Beam>): (counts: seq<int>)
    requires Rectangular(g)
    ensures |counts| == |starts|
  {
    if starts == [] then []
    else EdgeCounts(g, starts[..|starts| - 1]) + [|Cells(Energized(g, starts[|starts| - 1]))|]
  }

  /** `solve2`: the best energized count over every entry point on the edge.  It
      fails on a grid without rows or columns. */
  method Solve2(g: Grid) returns (r: Result<int>)
    requires Rectangular(g)
    ensures r.Err? <==> |g| == 0 || Width(g) == 0
    ensures r.Ok? ==> r.value == MaxOf(EdgeCounts(g, EdgeStarts(|g|, Width(g))))
    ensures r.Ok? ==> r.value >= |Cells(Energized(g, ((0, 0), Right)))|
  {
    if |g| == 0 {
      return Err(ValueError);
    }
    if Width(g) == 0 {
      return Err(IndexError);
    }
    var starts := EdgeStarts(|g|, Width(g));
    var data: seq<int> := [];
    for i := 0 to |starts|
      invariant data == EdgeCounts(g, starts[..i])
    {
      var n, _ := Solve1(g, starts[i].0, starts[i].1);
      EdgeCountsStep(g, starts, i);
      data := data + [n.value];
    }
    assert starts[..|starts|] == starts;
    EdgeCountsAt(g, starts, 0);
    return Ok(MaxOf(data));
  }

  /** The counts of one more start extend the counts so far by that start's count. */
  lemma EdgeCountsStep(g: Grid, starts: seq<Beam>, i: nat)
    requires Rectangular(g) && i < |starts|
    ensures EdgeCounts(g, starts[..i + 1]) == EdgeCounts(g, starts[..i]) + [|Cells(Energized(g, starts[i]))|]
  {
    assert starts[..i + 1][..i] == starts[..i];
  }

  /** Each count is the energized count of the start at the same position. */
  lemma {:induction false} EdgeCountsAt(g: Grid, starts: seq<Beam>, i: nat)
    requires Rectangular(g) && i < |starts|
    ensures EdgeCounts(g, starts)[i] == |Cells(Energized(g, starts[i]))|
  {
    var front := starts[..|starts| - 1];
    if i < |front| {
      EdgeCountsAt(g, front, i);
    }
  }
}
