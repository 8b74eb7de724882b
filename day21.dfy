/** Day 21: the garden plots an elf can stand on after exactly `n` steps.  A layered
    breadth-first search walks out from the start; a plot first reached at step `d` can
    be stood on again at every later step of the same parity, so the answer collects the
    layers whose step number has the parity of `n` (day21.py).  Part 2 runs the same
    search on the garden tiled over the whole plane. */
module Day21 {
  import opened Common

  type Loc = (int, int)

  // ------------------------------------------------------------ directions

  datatype Direction = Right | Down | Left | Up

  /** Member `i` of `Direction`, in declaration order. */
  function Dir(i: nat): Direction
    requires i < 4
  {
    if i == 0 then Right else if i == 1 then Down else if i == 2 then Left else Up
  }

  function Value(d: Direction): Loc
  {
    match d
    case Right => (1, 0)
    case Down => (0, -1)
    case Left => (-1, 0)
    case Up => (0, 1)
  }

  /** `Direction.shift`: one step, which moves exactly one coordinate by one. */
  function Shift(d: Direction, loc: Loc): (n: Loc)
    ensures Abs(n.0 - loc.0) + Abs(n.1 - loc.1) == 1
  {
    (loc.0 + Value(d).0, loc.1 + Value(d).1)
  }

  // ------------------------------------------------------------ the layered search

  /** The neighbours of a set of places that the search may enter. */
  ghost function Succs<T>(s: set<T>, succ: T -> set<T>): set<T>
  {
    set l, n | l in s && n in succ(l) :: n
  }

  /** `search_locs_next`: the neighbours of a layer not seen yet. */
  ghost function Expand<T>(s: set<T>, seen: set<T>, succ: T -> set<T>): set<T>
  {
    set l, n | l in s && n in succ(l) && n !in seen :: n
  }

  /** The search before step `k`: `search_locs` and `seen_locs`. */
  ghost function State<T>(start: T, succ: T -> set<T>, k: nat): (set<T>, set<T>)
  {
    if k == 0 then ({start}, {})
    else
      var (layer, seen) := State(start, succ, k - 1);
      var seen' := seen + layer;
      (Expand(layer, seen', succ), seen')
  }

  /** Layer `k` of the search. */
  ghost function Layer<T>(start: T, succ: T -> set<T>, k: nat): set<T>
  {
    State(start, succ, k).0
  }

  /** `possible_locs` after the steps `0 .. k - 1`: the layers of parity `parity`. */
  ghost function Possible<T>(start: T, succ: T -> set<T>, k: nat, parity: nat): set<T>
  {
    if k == 0 then {}
    else Possible(start, succ, k - 1, parity) + (if (k - 1) % 2 == parity then Layer(start, succ, k - 1) else {})
  }

  /** Reference definition: the places reachable in at most `k` steps. */
  ghost function Reach<T>(start: T, succ: T -> set<T>, k: nat): set<T>
  {
    if k == 0 then {start} else Reach(start, succ, k - 1) + Succs(Reach(start, succ, k - 1), succ)
  }

  lemma SuccsUnion<T>(a: set<T>, b: set<T>, c: set<T>, succ: T -> set<T>)
    requires c == a + b
    ensures Succs(c, succ) == Succs(a, succ) + Succs(b, succ)
  {
  }

  lemma ExpandSuccs<T>(s: set<T>, seen: set<T>, succ: T -> set<T>)
    ensures Expand(s, seen, succ) == Succs(s, succ) - seen
  {
  }

  /** What the search has seen before step `k` is what is reachable in fewer steps, and
      its layer holds the rest of what is reachable in `k`. */
  lemma {:induction false} StateReach<T>(start: T, succ: T -> set<T>, k: nat)
    ensures State(start, succ, k).1 == (if k == 0 then {} else Reach(start, succ, k - 1))
    ensures State(start, succ, k).0 == Reach(start, succ, k) - State(start, succ, k).1
  {
    if k == 1 {
      ExpandSuccs({start}, {start}, succ);
    } else if k > 1 {
      StateReach(start, succ, k - 1);
      ReachMonotone(start, succ, k - 2, k - 1);
      var st := State(start, succ, k - 1);
      StepAlgebra(st.0, st.1, Reach(start, succ, k - 2), Reach(start, succ, k - 1), succ);
    }
  }

  /** One step of `StateReach` on plain sets: `seen` is what is reachable in `k - 2`
      steps (`q`), `layer` the rest of what is reachable in `k - 1` (`r`). */
  lemma StepAlgebra<T>(layer: set<T>, seen: set<T>, q: set<T>, r: set<T>, succ: T -> set<T>)
    requires seen == q && layer == r - seen && q <= r && r == q + Succs(q, succ)
    ensures seen + layer == r && Expand(layer, seen + layer, succ) == (r + Succs(r, succ)) - r
  {
    Fill(seen, layer, r);
    ExpandSuccs(layer, r, succ);
    SuccsUnion(q, layer, r, succ);
    NewOnly(q, layer, r, Succs(q, succ), Succs(layer, succ), Succs(r, succ));
  }

  /** Set algebra behind one step of `StateReach`. */
  lemma Fill<T>(seen: set<T>, layer: set<T>, r: set<T>)
    requires seen <= r && layer == r - seen
    ensures seen + layer == r
  {
  }

  lemma NewOnly<T>(q: set<T>, layer: set<T>, r: set<T>, sq: set<T>, sl: set<T>, sr: set<T>)
    requires r == q + layer && r == q + sq && sr == sq + sl
    ensures sl - r == (r + sr) - r
  {
  }

  lemma {:induction false} ReachMonotone<T>(start: T, succ: T -> set<T>, j: nat, k: nat)
    requires j <= k
    ensures Reach(start, succ, j) <= Reach(start, succ, k)
    decreases k - j
  {
    if j < k {
      ReachMonotone(start, succ, j, k - 1);
    }
  }

  /** A place is in layer `k` exactly when its distance from the start is `k`: it is
      reachable in `k` steps and not in fewer. */
  lemma LayerDistance<T>(start: T, succ: T -> set<T>, k: nat, x: T)
    ensures x in Layer(start, succ, k) <==> AtDistance(start, succ, k, x)
  {
    StateReach(start, succ, k);
  }

  /** `x` is `k` steps from the start: reachable in `k` steps and not in fewer. */
  ghost predicate AtDistance<T>(start: T, succ: T -> set<T>, k: nat, x: T)
  {
    x in Reach(start, succ, k) && (k == 0 || x !in Reach(start, succ, k - 1))
  }

  /** Each place enters at most one layer. */
  lemma LayersDisjoint<T>(start: T, succ: T -> set<T>, j: nat, k: nat)
    requires j < k
    ensures Layer(start, succ, j) !! Layer(start, succ, k)
  {
    var a, b := Layer(start, succ, j), Layer(start, succ, k);
    var ra, rb, r := Reach(start, succ, j), Reach(start, succ, k - 1), Reach(start, succ, k);
    assert a <= ra by {
      StateReach(start, succ, j);
      Shrink(a, ra, State(start, succ, j).1);
    }
    assert ra <= rb by {
      ReachMonotone(start, succ, j, k - 1);
    }
    assert b == r - rb by {
      StateReach(start, succ, k);
    }
    Disjoint(a, ra, rb, b, r);
  }

  lemma Shrink<T>(a: set<T>, r: set<T>, s: set<T>)
    requires a == r - s
    ensures a <= r
  {
  }

  lemma Disjoint<T>(a: set<T>, ra: set<T>, rb: set<T>, b: set<T>, r: set<T>)
    requires a <= ra <= rb && b == r - rb
    ensures a !! b
  {
  }

  /** The answer holds exactly the layers of the parity wanted. */
  lemma {:induction false} PossibleLayers<T>(start: T, succ: T -> set<T>, k: nat, parity: nat, x: T)
    ensures x in Possible(start, succ, k, parity) <==>
            exists j :: 0 <= j < k && j % 2 == parity && x in Layer(start, succ, j)
  {
    if k > 0 {
      PossibleLayers(start, succ, k - 1, parity, x);
      if x in Possible(start, succ, k, parity) && x !in Possible(start, succ, k - 1, parity) {
        assert (k - 1) % 2 == parity && x in Layer(start, succ, k - 1);
      }
    }
  }

  /** With no steps to take the elf stays where it is. */
  lemma ZeroSteps<T>(start: T, succ: T -> set<T>)
    ensures Possible(start, succ, 1, 0) == {start}
  {
  }

  // ------------------------------------------------------------ part 1: the padded garden

  /** `np.pad(grid, 1, constant_values=False)`: a border of rocks all around. */
  function Pad(grid: seq<seq<bool>>, w: nat): (p: seq<seq<bool>>)
    requires Rect(grid, w)
    ensures |p| == |grid| + 2 && Rect(p, w + 2)
    ensures forall r, c :: 0 <= r < |p| && 0 <= c < w + 2 ==>
              p[r][c] == (1 <= r <= |grid| && 1 <= c <= w && grid[r - 1][c - 1])
  {
    seq(|grid| + 2, r requires 0 <= r < |grid| + 2 =>
      seq(w + 2, c requires 0 <= c < w + 2 => 1 <= r <= |grid| && 1 <= c <= w && grid[r - 1][c - 1]))
  }

  /** A place of a grid that holds a garden plot. */
  predicate Open(p: seq<seq<bool>>, l: Loc)
  {
    0 <= l.0 < |p| && 0 <= l.1 < |p[l.0]| && p[l.0][l.1]
  }

  /** The places off the border of the padded garden. */
  predicate Interior(h: nat, w: nat, l: Loc)
  {
    1 <= l.0 <= h && 1 <= l.1 <= w
  }

  /** Every plot of the padded garden is off its border, so stepping from one stays
      inside the padded grid: the padding replaces every bounds check. */
  lemma PadOpenInterior(grid: seq<seq<bool>>, w: nat, l: Loc)
    requires Rect(grid, w) && Open(Pad(grid, w), l)
    ensures Interior(|grid|, w, l)
  {
  }

  /** The plots next to `l`. */
  ghost function Succ1(p: seq<seq<bool>>): Loc -> set<Loc>
  {
    l => set i | 0 <= i < 4 && Open(p, Shift(Dir(i), l)) :: Shift(Dir(i), l)
  }

  /** The neighbours of `l` among the first `i` directions that `Expand` keeps. */
  ghost function FirstNeighbours(p: seq<seq<bool>>, l: Loc, seen: set<Loc>, i: nat): set<Loc>
    requires i <= 4
  {
    set j | 0 <= j < i && Open(p, Shift(Dir(j), l)) && Shift(Dir(j), l) !in seen :: Shift(Dir(j), l)
  }

  lemma ExpandAdd<T>(done: set<T>, x: T, seen: set<T>, succ: T -> set<T>)
    ensures Expand(done + {x}, seen, succ) == Expand(done, seen, succ) + (succ(x) - seen)
  {
  }

  /** Moving one element from the places still to visit to those visited. */
  lemma MoveOne<T>(done: set<T>, todo: set<T>, x: T)
    requires x in todo
    ensures (done + {x}) + (todo - {x}) == done + todo && |todo - {x}| < |todo|
  {
  }

  /** The loop over the directions from one place of the layer. */
  method Neighbours1(p: seq<seq<bool>>, h: nat, w: nat, l: Loc, seen: set<Loc>, next0: set<Loc>) returns (next: set<Loc>)
    requires |p| == h + 2 && Rect(p, w + 2) && Interior(h, w, l)
    ensures next == next0 + (Succ1(p)(l) - seen)
  {
    next := next0;
    for i := 0 to 4
      invariant next == next0 + FirstNeighbours(p, l, seen, i)
    {
      var n := Shift(Dir(i), l);
      if p[n.0][n.1] && n !in seen {
        next := next + {n};
      }
      assert FirstNeighbours(p, l, seen, i + 1) ==
             FirstNeighbours(p, l, seen, i) + (if Open(p, n) && n !in seen then {n} else {});
    }
    assert FirstNeighbours(p, l, seen, 4) == Succ1(p)(l) - seen;
  }

  /** The loop over `search_locs`: the next layer, from places off the border. */
  method Expand1(p: seq<seq<bool>>, h: nat, w: nat, layer: set<Loc>, seen: set<Loc>) returns (next: set<Loc>)
    requires |p| == h + 2 && Rect(p, w + 2) && forall l :: l in layer ==> Interior(h, w, l)
    ensures next == Expand(layer, seen, Succ1(p))
  {
    next := {};
    var todo := layer;
    ghost var done: set<Loc> := {};
    while todo != {}
      invariant done + todo == layer && next == Expand(done, seen, Succ1(p))
      decreases |todo|
    {
      ghost var someElement := HasElement(todo);
      var l :| l in todo;
      ExpandAdd(done, l, seen, Succ1(p));
      MoveOne(done, todo, l);
      next := Neighbours1(p, h, w, l, seen, next);
      todo := todo - {l};
      done := done + {l};
    }
  }

  /** Every place of the next layer is a plot. */
  lemma ExpandOpen(p: seq<seq<bool>>, layer: set<Loc>, seen: set<Loc>, x: Loc)
    requires x in Expand(layer, seen, Succ1(p))
    ensures Open(p, x)
  {
  }

  /** So the next layer is off the border too. */
  lemma ExpandInterior(grid: seq<seq<bool>>, w: nat, layer: set<Loc>, seen: set<Loc>)
    requires Rect(grid, w)
    ensures forall l :: l in Expand(layer, seen, Succ1(Pad(grid, w))) ==> Interior(|grid|, w, l)
  {
    forall l | l in Expand(layer, seen, Succ1(Pad(grid, w)))
      ensures Interior(|grid|, w, l)
    {
      ExpandOpen(Pad(grid, w), layer, seen, l);
      PadOpenInterior(grid, w, l);
    }
  }

  /** One pass of the loop of `solve1`: collect the layer if its parity is wanted,
      mark it seen, and expand it. */
  method Pass1(grid: seq<seq<bool>>, w: nat, s: Loc, parity: nat, step: nat, search: set<Loc>, seen: set<Loc>, possible: set<Loc>)
    returns (search': set<Loc>, seen': set<Loc>, possible': set<Loc>)
    requires Rect(grid, w) && (search, seen) == State(s, Succ1(Pad(grid, w)), step)
    requires possible == Possible(s, Succ1(Pad(grid, w)), step, parity)
    requires forall l :: l in search ==> Interior(|grid|, w, l)
    ensures (search', seen') == State(s, Succ1(Pad(grid, w)), step + 1)
    ensures possible' == Possible(s, Succ1(Pad(grid, w)), step + 1, parity)
    ensures forall l :: l in search' ==> Interior(|grid|, w, l)
  {
    possible' := possible;
    if step % 2 == parity {
      possible' := possible + search;
    }
    seen' := seen + search;
    ExpandInterior(grid, w, search, seen');
    search' := Expand1(Pad(grid, w), |grid|, w, search, seen');
  }

  /** The number of passes of `for step_num in range(n_steps + 1)`. */
  function Passes(nSteps: int): (k: nat)
    ensures nSteps >= 0 ==> k == nSteps + 1
    ensures nSteps < 0 ==> k == 0
  {
    if nSteps < 0 then 0 else nSteps + 1
  }

  /** `solve1`: the number of plots the elf can stand on after exactly `nSteps` steps
      from the start, in the garden padded with rocks; `None` for the start fails as
      the arithmetic on it does. */
  method Solve1(grid: seq<seq<bool>>, w: nat, start: Option<Loc>, nSteps: int) returns (res: Result<nat>)
    requires Rect(grid, w)
    requires start.Some? ==> 0 <= start.value.0 < |grid| && 0 <= start.value.1 < w
    ensures start.None? ==> res == Err(TypeError)
    ensures start.Some? ==>
              var s := (start.value.0 + 1, start.value.1 + 1);
              res == Ok(|Possible(s, Succ1(Pad(grid, w)), Passes(nSteps), nSteps % 2)|)
  {
    if start.None? {
      return Err(TypeError);
    }
    var p := Pad(grid, w);
    var s := (start.value.0 + 1, start.value.1 + 1);
    var parity := nSteps % 2;
    var seen: set<Loc> := {};
    var possible: set<Loc> := {};
    var search: set<Loc> := {s};
    for step := 0 to Passes(nSteps)
      invariant (search, seen) == State(s, Succ1(p), step)
      invariant possible == Possible(s, Succ1(p), step, parity)
      invariant forall l :: l in search ==> Interior(|grid|, w, l)
    {
      search, seen, possible := Pass1(grid, w, s, parity, step, search, seen, possible);
    }
    return Ok(|possible|);
  }

  /** The answer counts the places at distance at most `n` from the start whose
      distance has the parity of `n`. */
  lemma PossibleDistance<T>(start: T, succ: T -> set<T>, n: nat, x: T)
    ensures x in Possible(start, succ, n + 1, n % 2) <==>
            exists d :: 0 <= d <= n && d % 2 == n % 2 && AtDistance(start, succ, d, x)
  {
    PossibleLayers(start, succ, n + 1, n % 2, x);
    forall d | 0 <= d <= n
      ensures x in Layer(start, succ, d) <==> AtDistance(start, succ, d, x)
    {
      LayerDistance(start, succ, d, x);
    }
  }

  /** With no steps to take the answer is 1. */
  lemma NoSteps(grid: seq<seq<bool>>, w: nat, s: Loc)
    requires Rect(grid, w)
    ensures |Possible(s, Succ1(Pad(grid, w)), Passes(0), 0 % 2)| == 1
  {
    ZeroSteps(s, Succ1(Pad(grid, w)));
  }

  // ------------------------------------------------------------ part 2: the tiled garden

  /** A place on one copy of the garden, and which copy. */
  type InfiniteLoc = (Loc, Loc)

  /** `wrap_loc`: a place given relative to board `b` moved onto the board that holds
      it, by floor division and modulo by the garden's shape (Python's `//` and `%`
      agree with Dafny's for a positive divisor). */
  function WrapLoc(loc: Loc, b: Loc, h: nat, w: nat): (r: InfiniteLoc)
    requires h > 0 && w > 0
    ensures 0 <= r.0.0 < h && 0 <= r.0.1 < w
  {
    ((loc.0 % h, loc.1 % w), (b.0 + loc.0 / h, b.1 + loc.1 / w))
  }

  /** `board_new[k] * shape[k] + loc_new[k] == board[k] * shape[k] + loc[k]`. */
  lemma WrapGlobal(loc: Loc, b: Loc, h: nat, w: nat)
    requires h > 0 && w > 0
    ensures var r := WrapLoc(loc, b, h, w);
            r.1.0 * h + r.0.0 == b.0 * h + loc.0 && r.1.1 * w + r.0.1 == b.1 * w + loc.1
  {
    Distribute(b.0, loc.0 / h, h);
    Distribute(b.1, loc.1 / w, w);
  }

  lemma Distribute(a: int, c: int, n: int)
    ensures (a + c) * n == a * n + c * n
  {
  }

  /** The place on the plane that an `InfiniteLoc` names. */
  function Global(x: InfiniteLoc, h: nat, w: nat): Loc
  {
    (x.1.0 * h + x.0.0, x.1.1 * w + x.0.1)
  }

  /** An `InfiniteLoc` whose place lies on its board. */
  predicate OnBoard(x: InfiniteLoc, h: nat, w: nat)
  {
    0 <= x.0.0 < h && 0 <= x.0.1 < w
  }

  /** On the plane a number has one board and one offset. */
  lemma DivModUnique(x: int, n: nat, b: int, l: int)
    requires n > 0 && 0 <= l < n && x == b * n + l
    ensures x / n == b && x % n == l
  {
    var q, m := x / n, x % n;
    assert x == q * n + m;
    if q > b {
      MulMore(q - b, n);
    } else if q < b {
      MulMore(b - q, n);
    }
  }

  lemma MulMore(k: int, n: nat)
    requires k >= 1
    ensures k * n >= n
  {
  }

  /** `wrap_loc` names the same place of the plane, and it is the only name of that
      place that lies on its board. */
  lemma WrapUnique(loc: Loc, b: Loc, h: nat, w: nat, y: InfiniteLoc)
    requires h > 0 && w > 0 && OnBoard(y, h, w) && Global(y, h, w) == Global((loc, b), h, w)
    ensures WrapLoc(loc, b, h, w) == y
  {
    var r := WrapLoc(loc, b, h, w);
    WrapGlobal(loc, b, h, w);
    DivModUnique(Global(y, h, w).0, h, y.1.0, y.0.0);
    DivModUnique(Global(y, h, w).0, h, r.1.0, r.0.0);
    DivModUnique(Global(y, h, w).1, w, y.1.1, y.0.1);
    DivModUnique(Global(y, h, w).1, w, r.1.1, r.0.1);
  }

  /** The garden repeated over the whole plane. */
  predicate Tiled(grid: seq<seq<bool>>, h: nat, w: nat, q: Loc)
    requires |grid| == h > 0 && w > 0 && Rect(grid, w)
  {
    grid[q.0 % h][q.1 % w]
  }

  /** The neighbour of `x` in direction `i`, wrapped onto its board. */
  function Step2(x: InfiniteLoc, i: nat, h: nat, w: nat): InfiniteLoc
    requires h > 0 && w > 0 && i < 4
  {
    WrapLoc(Shift(Dir(i), x.0), x.1, h, w)
  }

  /** The plots among the neighbours of `x` in the first `k` directions. */
  ghost function Cand2(grid: seq<seq<bool>>, h: nat, w: nat, x: InfiniteLoc, k: nat): set<InfiniteLoc>
    requires |grid| == h > 0 && w > 0 && Rect(grid, w) && k <= 4
  {
    if k == 0 then {}
    else Cand2(grid, h, w, x, k - 1) + (if Open(grid, Step2(x, k - 1, h, w).0) then {Step2(x, k - 1, h, w)} else {})
  }

  /** The plots next to `x` on the tiled garden. */
  ghost function Succ2(grid: seq<seq<bool>>, h: nat, w: nat): InfiniteLoc -> set<InfiniteLoc>
    requires |grid| == h > 0 && w > 0 && Rect(grid, w)
  {
    (x: InfiniteLoc) => Cand2(grid, h, w, x, 4)
  }

  lemma {:induction false} CandOpen(grid: seq<seq<bool>>, h: nat, w: nat, x: InfiniteLoc, k: nat, y: InfiniteLoc)
    requires |grid| == h > 0 && w > 0 && Rect(grid, w) && k <= 4 && y in Cand2(grid, h, w, x, k)
    ensures Open(grid, y.0)
  {
    if y !in Cand2(grid, h, w, x, k - 1) {
      assert y == Step2(x, k - 1, h, w);
    } else {
      CandOpen(grid, h, w, x, k - 1, y);
    }
  }

  lemma {:induction false} CandHas(grid: seq<seq<bool>>, h: nat, w: nat, x: InfiniteLoc, k: nat, i: nat)
    requires |grid| == h > 0 && w > 0 && Rect(grid, w) && i < k <= 4 && Open(grid, Step2(x, i, h, w).0)
    ensures Step2(x, i, h, w) in Cand2(grid, h, w, x, k)
  {
    if i < k - 1 {
      CandHas(grid, h, w, x, k - 1, i);
    }
  }

  /** Part 2 walks the plane: a step of the search is a step of the plane onto a plot
      of the tiled garden, and lands on a board. */
  lemma Succ2Plane(grid: seq<seq<bool>>, h: nat, w: nat, x: InfiniteLoc, i: nat)
    requires |grid| == h > 0 && w > 0 && Rect(grid, w) && i < 4
    ensures var y := WrapLoc(Shift(Dir(i), x.0), x.1, h, w);
            OnBoard(y, h, w) && Global(y, h, w) == Shift(Dir(i), Global(x, h, w)) &&
            (y in Succ2(grid, h, w)(x) <==> Tiled(grid, h, w, Global(y, h, w)))
  {
    var y := WrapLoc(Shift(Dir(i), x.0), x.1, h, w);
    WrapShift(x, Dir(i), h, w);
    InSucc2(grid, h, w, x, i);
    TiledOnBoard(grid, h, w, y);
  }

  /** Stepping and then wrapping is stepping on the plane. */
  lemma WrapShift(x: InfiniteLoc, d: Direction, h: nat, w: nat)
    requires h > 0 && w > 0
    ensures Global(WrapLoc(Shift(d, x.0), x.1, h, w), h, w) == Shift(d, Global(x, h, w))
  {
    WrapGlobal(Shift(d, x.0), x.1, h, w);
  }

  lemma InSucc2(grid: seq<seq<bool>>, h: nat, w: nat, x: InfiniteLoc, i: nat)
    requires |grid| == h > 0 && w > 0 && Rect(grid, w) && i < 4
    ensures var y := WrapLoc(Shift(Dir(i), x.0), x.1, h, w);
            y in Succ2(grid, h, w)(x) <==> Open(grid, y.0)
  {
    var y := Step2(x, i, h, w);
    if y in Cand2(grid, h, w, x, 4) {
      CandOpen(grid, h, w, x, 4, y);
    }
    if Open(grid, y.0) {
      CandHas(grid, h, w, x, 4, i);
    }
  }

  /** The tiled garden agrees with the garden on board coordinates. */
  lemma TiledOnBoard(grid: seq<seq<bool>>, h: nat, w: nat, y: InfiniteLoc)
    requires |grid| == h > 0 && w > 0 && Rect(grid, w) && OnBoard(y, h, w)
    ensures Tiled(grid, h, w, Global(y, h, w)) == Open(grid, y.0)
  {
    DivModUnique(Global(y, h, w).0, h, y.1.0, y.0.0);
    DivModUnique(Global(y, h, w).1, w, y.1.1, y.0.1);
  }

  /** The loop over the directions from one place of the layer, on the tiled garden. */
  method Neighbours2(grid: seq<seq<bool>>, h: nat, w: nat, x: InfiniteLoc, seen: set<InfiniteLoc>, next0: set<InfiniteLoc>)
    returns (next: set<InfiniteLoc>)
    requires |grid| == h > 0 && w > 0 && Rect(grid, w)
    ensures next == next0 + (Succ2(grid, h, w)(x) - seen)
  {
    next := next0;
    for i := 0 to 4
      invariant next == next0 + (Cand2(grid, h, w, x, i) - seen)
    {
      var (loc, board) := x;
      var n := WrapLoc(Shift(Dir(i), loc), board, h, w);
      if grid[n.0.0][n.0.1] && n !in seen {
        next := next + {n};
      }
      assert n == Step2(x, i, h, w);
    }
  }

  /** The loop over `search_locs` of `solve2`. */
  method Expand2(grid: seq<seq<bool>>, h: nat, w: nat, layer: set<InfiniteLoc>, seen: set<InfiniteLoc>)
    returns (next: set<InfiniteLoc>)
    requires |grid| == h > 0 && w > 0 && Rect(grid, w)
    ensures next == Expand(layer, seen, Succ2(grid, h, w))
  {
    next := {};
    var todo := layer;
    ghost var done: set<InfiniteLoc> := {};
    while todo != {}
      invariant done + todo == layer && next == Expand(done, seen, Succ2(grid, h, w))
      decreases |todo|
    {
      ghost var someElement := HasElement(todo);
      var x :| x in todo;
      ExpandAdd(done, x, seen, Succ2(grid, h, w));
      MoveOne(done, todo, x);
      next := Neighbours2(grid, h, w, x, seen, next);
      todo := todo - {x};
      done := done + {x};
    }
  }

  /** One pass of the loop of `solve2`. */
  method Pass2(grid: seq<seq<bool>>, h: nat, w: nat, s: InfiniteLoc, parity: nat, step: nat,
               search: set<InfiniteLoc>, seen: set<InfiniteLoc>, possible: set<InfiniteLoc>)
    returns (search': set<InfiniteLoc>, seen': set<InfiniteLoc>, possible': set<InfiniteLoc>)
    requires |grid| == h > 0 && w > 0 && Rect(grid, w) && (search, seen) == State(s, Succ2(grid, h, w), step)
    requires possible == Possible(s, Succ2(grid, h, w), step, parity)
    ensures (search', seen') == State(s, Succ2(grid, h, w), step + 1)
    ensures possible' == Possible(s, Succ2(grid, h, w), step + 1, parity)
  {
    possible' := possible;
    if step % 2 == parity {
      possible' := possible + search;
    }
    seen' := seen + search;
    search' := Expand2(grid, h, w, search, seen');
  }

  /** `solve2`: the same count on the garden tiled over the plane, starting on board
      (0, 0).  With no start the first expansion fails, so only a negative step count
      gets through. */
  method Solve2(grid: seq<seq<bool>>, w: nat, start: Option<Loc>, nSteps: int) returns (res: Result<nat>)
    requires |grid| > 0 && w > 0 && Rect(grid, w)
    ensures start.None? ==> res == if nSteps < 0 then Ok(0) else Err(TypeError)
    ensures start.Some? ==> res == Ok(|Possible((start.value, (0, 0)), Succ2(grid, |grid|, w), Passes(nSteps), nSteps % 2)|)
  {
    if start.None? {
      return if nSteps < 0 then Ok(0) else Err(TypeError);
    }
    var h := |grid|;
    var s := (start.value, (0, 0));
    var parity := nSteps % 2;
    var seen: set<InfiniteLoc> := {};
    var possible: set<InfiniteLoc> := {};
    var search: set<InfiniteLoc> := {s};
    for step := 0 to Passes(nSteps)
      invariant (search, seen) == State(s, Succ2(grid, h, w), step)
      invariant possible == Possible(s, Succ2(grid, h, w), step, parity)
    {
      search, seen, possible := Pass2(grid, h, w, s, parity, step, search, seen, possible);
    }
    return Ok(|possible|);
  }
}
