/** Day 10: a grid of pipes with one start cell 'S'.  Part 1 traces the loop through
    the start and answers half its length; part 2 works out which way the loop turns
    and flood-fills the cells on its inner side. */
module Day10 {
  import opened Common

  const Start := 'S'
  const EmptyCell := '.'

  // ------------------------------------------------------------ directions

  /** The members of `Direction`, in declaration order. */
  datatype Direction = Right | Up | Left | Down

  /** `direction.value`: the (row, column) offset. */
  function Value(d: Direction): (int, int)
  {
    match d
    case Right => (0, 1)
    case Up => (-1, 0)
    case Left => (0, -1)
    case Down => (1, 0)
  }

  predicate IsUnit(v: (int, int))
  {
    v == (0, 1) || v == (-1, 0) || v == (0, -1) || v == (1, 0)
  }

  /** `Direction(value)`: the enum member with the given offset. */
  function OfValue(v: (int, int)): (d: Direction)
    requires IsUnit(v)
    ensures Value(d) == v
  {
    if v == (0, 1) then Right
    else if v == (-1, 0) then Up
    else if v == (0, -1) then Left
    else Down
  }

  lemma ValueIsUnit(d: Direction)
    ensures IsUnit(Value(d))
  {
  }

  function Opposite(d: Direction): Direction
  {
    ValueIsUnit(d);
    var (r, c) := Value(d);
    OfValue((-1 * r, -1 * c))
  }

  function Clockwise(d: Direction): Direction
  {
    ValueIsUnit(d);
    var (r, c) := Value(d);
    OfValue((c, -1 * r))
  }

  function CounterClockwise(d: Direction): Direction
  {
    ValueIsUnit(d);
    var (r, c) := Value(d);
    OfValue((-1 * c, r))
  }

  /** `opposite` is an involution without a fixed point. */
  lemma OppositeInvolution(d: Direction)
    ensures Opposite(Opposite(d)) == d
    ensures Opposite(d) != d
  {
  }

  /** `clockwise` and `counter_clockwise` undo each other. */
  lemma TurnsInverse(d: Direction)
    ensures CounterClockwise(Clockwise(d)) == d
    ensures Clockwise(CounterClockwise(d)) == d
  {
  }

  /** Two clockwise turns reverse a direction; four bring it back. */
  lemma ClockwisePowers(d: Direction)
    ensures Clockwise(Clockwise(d)) == Opposite(d)
    ensures Clockwise(Clockwise(Clockwise(Clockwise(d)))) == d
  {
  }

  type Loc = (int, int)

  function Shift(loc: Loc, d: Direction): Loc
  {
    var (dr, dc) := Value(d);
    (loc.0 + dr, loc.1 + dc)
  }

  /** Stepping forward and then back returns to the start. */
  lemma ShiftBack(loc: Loc, d: Direction)
    ensures Shift(Shift(loc, d), Opposite(d)) == loc
  {
  }

  /** Different directions lead to different cells. */
  lemma ShiftInjective(loc: Loc, d: Direction, e: Direction)
    ensures Shift(loc, d) == Shift(loc, e) <==> d == e
  {
  }

  /** `symbol_to_directions`. */
  function SymbolToDirections(sym: char): (r: Result<(Direction, Direction)>)
    ensures r.Ok? <==> sym in "-|F7JL"
    ensures r.Err? ==> r.fault == ValueError
    ensures r.Ok? ==> r.value.0 != r.value.1
  {
    if sym == '-' then Ok((Left, Right))
    else if sym == '|' then Ok((Up, Down))
    else if sym == 'F' then Ok((Right, Down))
    else if sym == '7' then Ok((Left, Down))
    else if sym == 'J' then Ok((Left, Up))
    else if sym == 'L' then Ok((Right, Up))
    else Err(ValueError)
  }

  /** `for direction in Direction`: the k-th member. */
  function DirectionAt(k: nat): Direction
    requires k < 4
  {
    if k == 0 then Right else if k == 1 then Up else if k == 2 then Left else Down
  }

  // ------------------------------------------------------------ the grid

  type Grid = seq<seq<char>>

  predicate Rectangular(g: Grid)
  {
    |g| == 0 || Rect(g, |g[0]|)
  }

  function Width(g: Grid): nat
  {
    if |g| == 0 then 0 else |g[0]|
  }

  /** `loc` indexes the array, counting negative indices from the end. */
  predicate InBounds(g: Grid, loc: Loc)
  {
    var h: int, w: int := |g|, Width(g);
    -h <= loc.0 < h && -w <= loc.1 < w
  }

  /** `grid[loc]` on a numpy array: negative indices count from the end, anything
      else outside the array raises IndexError. */
  function At(g: Grid, loc: Loc): (r: Result<char>)
    requires Rectangular(g)
    ensures r.Err? <==> !InBounds(g, loc)
    ensures r.Err? ==> r.fault == IndexError
    ensures r.Ok? && 0 <= loc.0 && 0 <= loc.1 ==> r.value == g[loc.0][loc.1]
  {
    if InBounds(g, loc) then
      var row := if loc.0 < 0 then loc.0 + |g| else loc.0;
      var col := if loc.1 < 0 then loc.1 + Width(g) else loc.1;
      Ok(g[row][col])
    else Err(IndexError)
  }

  /** The first 'S' in row-major order at or after cell (r, c). */
  function FindStartFrom(g: Grid, r: nat, c: nat): (s: Result<Loc>)
    requires Rectangular(g) && r <= |g| && c <= Width(g)
    ensures s.Ok? ==> 0 <= s.value.0 < |g| && 0 <= s.value.1 < Width(g) &&
                      g[s.value.0][s.value.1] == Start
    ensures s.Err? ==> s.fault == ValueError
    decreases |g| - r, Width(g) - c
  {
    if r == |g| then Err(ValueError)
    else if c == Width(g) then FindStartFrom(g, r + 1, 0)
    else if g[r][c] == Start then Ok((r, c))
    else FindStartFrom(g, r, c + 1)
  }

  /** Cell (r, c) comes strictly before cell (r', c') in row-major order. */
  predicate Before(a: Loc, b: Loc)
  {
    a.0 < b.0 || (a.0 == b.0 && a.1 < b.1)
  }

  lemma {:induction false} FindStartFromFirst(g: Grid, r: nat, c: nat)
    requires Rectangular(g) && r <= |g| && c <= Width(g)
    ensures FindStartFrom(g, r, c).Ok? ==>
              forall r', c' :: (0 <= r' < |g| && 0 <= c' < Width(g) && !Before((r', c'), (r, c)) &&
                                Before((r', c'), FindStartFrom(g, r, c).value)) ==> g[r'][c'] != Start
    ensures FindStartFrom(g, r, c).Err? ==>
              forall r', c' :: 0 <= r' < |g| && 0 <= c' < Width(g) && !Before((r', c'), (r, c)) ==>
                g[r'][c'] != Start
    decreases |g| - r, Width(g) - c
  {
    if r == |g| {
    } else if c == Width(g) {
      FindStartFromFirst(g, r + 1, 0);
    } else if g[r][c] != Start {
      FindStartFromFirst(g, r, c + 1);
    }
  }

  /** `find_start`: the first 'S' in row-major order, ValueError if there is none. */
  function FindStart(g: Grid): Result<Loc>
    requires Rectangular(g)
  {
    FindStartFrom(g, 0, 0)
  }

  /** `find_start` finds the first start cell, and fails only when there is none. */
  lemma FindStartFirst(g: Grid)
    requires Rectangular(g)
    ensures FindStart(g).Ok? ==>
              g[FindStart(g).value.0][FindStart(g).value.1] == Start &&
              forall r, c :: 0 <= r < |g| && 0 <= c < Width(g) && Before((r, c), FindStart(g).value) ==>
                g[r][c] != Start
    ensures FindStart(g).Err? <==>
              forall r, c :: 0 <= r < |g| && 0 <= c < Width(g) ==> g[r][c] != Start
  {
    FindStartFromFirst(g, 0, 0);
  }

  method FindStartLoop(g: Grid) returns (s: Result<Loc>)
    requires Rectangular(g)
    ensures s == FindStart(g)
  {
    for r := 0 to |g|
      invariant FindStart(g) == FindStartFrom(g, r, 0)
    {
      for c := 0 to Width(g)
        invariant FindStart(g) == FindStartFrom(g, r, c)
      {
        if g[r][c] == Start {
          return Ok((r, c));
        }
      }
    }
    return Err(ValueError);
  }

  /** The search for `start_direction`: the first direction, from the k-th on, whose
      neighbour is a pipe leading back to the start. */
  function StartDirectionFrom(g: Grid, start: Loc, k: nat): (r: Result<Option<Direction>>)
    requires Rectangular(g) && k <= 4
    ensures r.Err? ==> r.fault == IndexError || r.fault == ValueError
    decreases 4 - k
  {
    if k == 4 then Ok(None)
    else
      var d := DirectionAt(k);
      match At(g, Shift(start, d))
      case Err(e) => Err(e)
      case Ok(neighbor) =>
        if neighbor == EmptyCell then StartDirectionFrom(g, start, k + 1)
        else
          match SymbolToDirections(neighbor)
          case Err(e) => Err(e)
          case Ok(dirs) =>
            if Opposite(d) == dirs.0 || Opposite(d) == dirs.1 then Ok(Some(d))
            else StartDirectionFrom(g, start, k + 1)
  }

  method FindStartDirection(g: Grid, start: Loc) returns (r: Result<Option<Direction>>)
    requires Rectangular(g)
    ensures r == StartDirectionFrom(g, start, 0)
  {
    for k := 0 to 4
      invariant StartDirectionFrom(g, start, 0) == StartDirectionFrom(g, start, k)
    {
      var d := DirectionAt(k);
      var neighbor := At(g, Shift(start, d));
      if neighbor.Err? {
        return Err(neighbor.fault);
      }
      if neighbor.value != EmptyCell {
        var dirs := SymbolToDirections(neighbor.value);
        if dirs.Err? {
          return Err(dirs.fault);
        }
        if Opposite(d) == dirs.value.0 || Opposite(d) == dirs.value.1 {
          return Ok(Some(d));
        }
      }
    }
    return Ok(None);
  }

  /** The neighbour of `start` towards `d` is a pipe with an opening back to `start`. */
  predicate Connects(g: Grid, start: Loc, d: Direction)
    requires Rectangular(g)
  {
    && At(g, Shift(start, d)).Ok?
    && At(g, Shift(start, d)).value != EmptyCell
    && SymbolToDirections(At(g, Shift(start, d)).value).Ok?
    && var dirs := SymbolToDirections(At(g, Shift(start, d)).value).value;
       Opposite(d) == dirs.0 || Opposite(d) == dirs.1
  }

  /** A start direction found by the search leads to a pipe with an opening back
      towards the start; `None` means no neighbour of the start has one. */
  lemma {:induction false} StartDirectionConnects(g: Grid, start: Loc, k: nat)
    requires Rectangular(g) && k <= 4
    ensures StartDirectionFrom(g, start, k).Ok? && StartDirectionFrom(g, start, k).value.Some? ==>
              Connects(g, start, StartDirectionFrom(g, start, k).value.value)
    ensures StartDirectionFrom(g, start, k) == Ok(None) ==>
              forall j :: k <= j < 4 ==> !Connects(g, start, DirectionAt(j))
    decreases 4 - k
  {
    if k < 4 {
      StartDirectionConnects(g, start, k + 1);
    }
  }

  // ------------------------------------------------------------ tracing the loop

  /** `(loc, direction)`: the loop passes `loc` and leaves it towards `direction`. */
  datatype Step = Step(loc: Loc, dir: Direction)

  /** Each step leads to the next one's cell, and the last to `next`. */
  predicate Chain(loop: seq<Step>, next: Loc)
  {
    && |loop| > 0
    && (forall i :: 0 <= i < |loop| - 1 ==> Shift(loop[i].loc, loop[i].dir) == loop[i + 1].loc)
    && Shift(loop[|loop| - 1].loc, loop[|loop| - 1].dir) == next
  }

  /** The inner `for direction in symbol_to_directions(...)`: the first opening of a
      pipe that does not lead back to `previous`. */
  function Onward(loc: Loc, dirs: (Direction, Direction), previous: Loc): (r: Option<Direction>)
    ensures r.Some? ==> (r.value == dirs.0 || r.value == dirs.1) && Shift(loc, r.value) != previous
    ensures r.Some? && r.value != dirs.0 ==> Shift(loc, dirs.0) == previous
  {
    if Shift(loc, dirs.0) != previous then Some(dirs.0)
    else if Shift(loc, dirs.1) != previous then Some(dirs.1)
    else None
  }

  /** The "idk" error is never raised: the two openings of a pipe lead to two
      different cells, so at most one of them goes backwards. */
  lemma OnwardExists(loc: Loc, dirs: (Direction, Direction), previous: Loc)
    requires dirs.0 != dirs.1
    ensures Onward(loc, dirs, previous).Some?
  {
    ShiftInjective(loc, dirs.0, dirs.1);
  }

  /** The `while loc != start` loop of `solve1`, with at most `fuel` more steps. */
  function TraceFrom(g: Grid, start: Loc, loop: seq<Step>, loc: Loc, fuel: nat): (r: Result<seq<Step>>)
    requires Rectangular(g) && |loop| > 0
    ensures r.Err? ==> r.fault == IndexError || r.fault == ValueError || r.fault == OutOfFuel
    decreases fuel
  {
    if loc == start then Ok(loop)
    else if fuel == 0 then Err(OutOfFuel)
    else
      match At(g, loc)
      case Err(e) => Err(e)
      case Ok(sym) =>
        match SymbolToDirections(sym)
        case Err(e) => Err(e)
        case Ok(dirs) =>
          match Onward(loc, dirs, loop[|loop| - 1].loc)
          case None => Err(ValueError)
          case Some(d) => TraceFrom(g, start, loop + [Step(loc, d)], Shift(loc, d), fuel - 1)
  }

  /** A traced loop is a closed walk: it keeps its first step, each step leads to
      the next, and the last leads back to the start. */
  lemma {:induction false} TraceChain(g: Grid, start: Loc, loop: seq<Step>, loc: Loc, fuel: nat)
    requires Rectangular(g) && Chain(loop, loc)
    requires TraceFrom(g, start, loop, loc, fuel).Ok?
    ensures Chain(TraceFrom(g, start, loop, loc, fuel).value, start)
    ensures TraceFrom(g, start, loop, loc, fuel).value[0] == loop[0]
    decreases fuel
  {
    if loc != start {
      var dirs := SymbolToDirections(At(g, loc).value).value;
      var d := Onward(loc, dirs, loop[|loop| - 1].loc).value;
      TraceChain(g, start, loop + [Step(loc, d)], Shift(loc, d), fuel - 1);
    }
  }

  /** The parity of a cell's coordinate sum; every step flips it. */
  function Parity(loc: Loc): int
  {
    (loc.0 + loc.1) % 2
  }

  lemma ShiftParity(loc: Loc, d: Direction)
    ensures Parity(Shift(loc, d)) == 1 - Parity(loc)
  {
  }

  lemma {:induction false} ChainParity(loop: seq<Step>, next: Loc, i: nat)
    requires Chain(loop, next) && i < |loop|
    ensures Parity(loop[i].loc) == (Parity(loop[0].loc) + i) % 2
  {
    if i > 0 {
      ChainParity(loop, next, i - 1);
      ShiftParity(loop[i - 1].loc, loop[i - 1].dir);
    }
  }

  /** A closed walk on the grid has even length. */
  lemma ClosedWalkEven(loop: seq<Step>)
    requires |loop| > 0 && Chain(loop, loop[0].loc)
    ensures |loop| % 2 == 0
  {
    var n := |loop|;
    ChainParity(loop, loop[0].loc, n - 1);
    ShiftParity(loop[n - 1].loc, loop[n - 1].dir);
  }

  /** The `while` loop of `solve1`. */
  method Trace(g: Grid, start: Loc, startDirection: Direction, fuel0: nat) returns (r: Result<seq<Step>>)
    requires Rectangular(g)
    ensures r == TraceFrom(g, start, [Step(start, startDirection)], Shift(start, startDirection), fuel0)
  {
    var loop := [Step(start, startDirection)];
    var loc := Shift(start, startDirection);
    var fuel := fuel0;
    while loc != start
      invariant |loop| > 0
      invariant TraceFrom(g, start, loop, loc, fuel) ==
                TraceFrom(g, start, [Step(start, startDirection)], Shift(start, startDirection), fuel0)
      decreases fuel
    {
      if fuel == 0 {
        return Err(OutOfFuel);
      }
      var sym := At(g, loc);
      if sym.Err? {
        return Err(sym.fault);
      }
      var dirs := SymbolToDirections(sym.value);
      if dirs.Err? {
        return Err(dirs.fault);
      }
      var previous := loop[|loop| - 1].loc;
      if Shift(loc, dirs.value.0) != previous {
        loop := loop + [Step(loc, dirs.value.0)];
        loc := Shift(loc, dirs.value.0);
      } else if Shift(loc, dirs.value.1) != previous {
        loop := loop + [Step(loc, dirs.value.1)];
        loc := Shift(loc, dirs.value.1);
      } else {
        OnwardExists(loc, dirs.value, previous);
        assert false;
        return Err(ValueError);
      }
      fuel := fuel - 1;
    }
    return Ok(loop);
  }

  /** `solve1`: half the length of the loop through the start, and the loop. */
  method Solve1(g: Grid, fuel: nat) returns (r: Result<(int, seq<Step>)>)
    requires Rectangular(g)
    ensures r.Ok? ==> FindStart(g).Ok? && StartDirectionFrom(g, FindStart(g).value, 0).Ok?
    ensures r.Ok? ==> var start := FindStart(g).value;
                      var sd := StartDirectionFrom(g, start, 0).value;
                      sd.Some? &&
                      TraceFrom(g, start, [Step(start, sd.value)], Shift(start, sd.value), fuel) == Ok(r.value.1)
    ensures r.Ok? ==> 2 * r.value.0 == |r.value.1|
    ensures r.Ok? ==> |r.value.1| > 0 && Chain(r.value.1, r.value.1[0].loc) && r.value.1[0].loc == FindStart(g).value
    ensures r == Err(AssertionError) ==>
              FindStart(g).Ok? && StartDirectionFrom(g, FindStart(g).value, 0) == Ok(None)
  {
    var start := FindStartLoop(g);
    if start.Err? {
      return Err(start.fault);
    }
    var startDirection := FindStartDirection(g, start.value);
    if startDirection.Err? {
      return Err(startDirection.fault);
    }
    if startDirection.value.None? {
      return Err(AssertionError);
    }
    var sd := startDirection.value.value;
    var loop := Trace(g, start.value, sd, fuel);
    if loop.Err? {
      return Err(loop.fault);
    }
    TraceChain(g, start.value, [Step(start.value, sd)], Shift(start.value, sd), fuel);
    ClosedWalkEven(loop.value);
    var half, remainder := |loop.value| / 2, |loop.value| % 2;
    if remainder != 0 {
      assert false;
      return Err(AssertionError);
    }
    return Ok((half, loop.value));
  }

  // ------------------------------------------------------------ the inside of the loop

  /** `(a1 * b2) - (a2 * b1)` for the offsets of two directions. */
  function Cross(a: Direction, b: Direction): int
  {
    var (a1, a2) := Value(a);
    var (b1, b2) := Value(b);
    (a1 * b2) - (a2 * b1)
  }

  /** A left turn counts +1, a right turn -1; going straight or reversing counts 0. */
  lemma CrossTurns(a: Direction, b: Direction)
    ensures b == CounterClockwise(a) ==> Cross(a, b) == 1
    ensures b == Clockwise(a) ==> Cross(a, b) == -1
    ensures b == a || b == Opposite(a) ==> Cross(a, b) == 0
    ensures b == a || b == Opposite(a) || b == Clockwise(a) || b == CounterClockwise(a)
  {
  }

  /** The turn into step `i`; `loop[i - 1]` of step 0 is the last step. */
  function TurnAt(loop: seq<Step>, i: nat): int
    requires i < |loop|
  {
    var previous := if i == 0 then loop[|loop| - 1].dir else loop[i - 1].dir;
    if loop[i].dir == previous then 0 else Cross(previous, loop[i].dir)
  }

  /** The turns into steps `0 .. k - 1`. */
  function CrossSum(loop: seq<Step>, k: nat): int
    requires k <= |loop|
  {
    if k == 0 then 0 else CrossSum(loop, k - 1) + TurnAt(loop, k - 1)
  }

  /** Every step turns by at most one unit, so the total is bounded by the length. */
  lemma {:induction false} CrossSumBounded(loop: seq<Step>, k: nat)
    requires k <= |loop|
    ensures -(k as int) <= CrossSum(loop, k) <= k
  {
    if k > 0 {
      CrossSumBounded(loop, k - 1);
      var i := k - 1;
      var previous := if i == 0 then loop[|loop| - 1].dir else loop[i - 1].dir;
      CrossTurns(previous, loop[i].dir);
    }
  }

  method TurnTotal(loop: seq<Step>) returns (crossSum: int)
    ensures crossSum == CrossSum(loop, |loop|)
  {
    crossSum := 0;
    for i := 0 to |loop|
      invariant crossSum == CrossSum(loop, i)
    {
      var previous := if i == 0 then loop[|loop| - 1].dir else loop[i - 1].dir;
      if loop[i].dir == previous {
        continue;
      }
      var (a1, a2) := Value(previous);
      var (b1, b2) := Value(loop[i].dir);
      var cross := (a1 * b2) - (a2 * b1);
      crossSum := crossSum + cross;
    }
  }

  function Locs(loop: seq<Step>): set<Loc>
  {
    set i | 0 <= i < |loop| :: loop[i].loc
  }

  /** Every neighbour of a cell of `inside` is in `inside`, on the loop, or still
      waiting in `pending`. */
  predicate ClosedUpTo(inside: set<Loc>, loopLocs: set<Loc>, pending: set<Loc>)
  {
    forall x, d :: x in inside ==> Shift(x, d) in inside || Shift(x, d) in loopLocs || Shift(x, d) in pending
  }

  function Neighbors(loc: Loc): set<Loc>
  {
    {Shift(loc, Right), Shift(loc, Up), Shift(loc, Left), Shift(loc, Down)}
  }

  lemma NeighborsAll(loc: Loc)
    ensures forall d :: Shift(loc, d) in Neighbors(loc)
  {
    forall d ensures Shift(loc, d) in Neighbors(loc) {
      match d
      case Right =>
      case Up =>
      case Left =>
      case Down =>
    }
  }

  /** `cells` avoids the loop and is closed under moves that avoid the loop: a flood
      fill that starts in it never leaves it. */
  ghost predicate Fenced(cells: set<Loc>, loopLocs: set<Loc>)
  {
    cells !! loopLocs && ClosedUpTo(cells, loopLocs, {})
  }

  /** Every neighbour of a cell of a fenced set is in the set or on the loop. */
  lemma FencedNeighbors(cells: set<Loc>, loopLocs: set<Loc>, x: Loc)
    requires Fenced(cells, loopLocs) && x in cells
    ensures Neighbors(x) <= cells + loopLocs
  {
    assert Shift(x, Right) in cells + loopLocs;
    assert Shift(x, Up) in cells + loopLocs;
    assert Shift(x, Left) in cells + loopLocs;
    assert Shift(x, Down) in cells + loopLocs;
  }

  /** One `while len(bfs_locs) > 0` search of `solve2`, from `seed`, spending at most
      `fuel` pops. */
  method Flood(loopLocs: set<Loc>, seed: Loc, inside0: set<Loc>, fuel0: nat)
    returns (inside: set<Loc>, fuel: nat, ok: bool)
    requires inside0 !! loopLocs && ClosedUpTo(inside0, loopLocs, {})
    ensures inside0 <= inside && inside !! loopLocs
    ensures ok ==> ClosedUpTo(inside, loopLocs, {}) && (seed in inside || seed in loopLocs)
    ensures ok ==> forall cells :: inside0 <= cells && Fenced(cells, loopLocs) && (seed in cells || seed in loopLocs) ==>
                     inside <= cells
    ensures fuel <= fuel0
  {
    var pending := {seed};
    inside, fuel := inside0, fuel0;
    while |pending| > 0
      invariant inside0 <= inside && inside !! loopLocs
      invariant ClosedUpTo(inside, loopLocs, pending)
      invariant seed in inside || seed in loopLocs || seed in pending
      invariant forall cells :: inside0 <= cells && Fenced(cells, loopLocs) && (seed in cells || seed in loopLocs) ==>
                  inside <= cells && pending <= cells + loopLocs
      invariant fuel <= fuel0
      decreases fuel
    {
      if fuel == 0 {
        return inside, fuel, false;
      }
      fuel := fuel - 1;
      ghost var someElement := HasElement(pending);
      var searchLoc :| searchLoc in pending;
      pending := pending - {searchLoc};
      if searchLoc !in loopLocs && searchLoc !in inside {
        forall cells | inside0 <= cells && Fenced(cells, loopLocs) && (seed in cells || seed in loopLocs)
          ensures Neighbors(searchLoc) <= cells + loopLocs
        {
          FencedNeighbors(cells, loopLocs, searchLoc);
        }
        inside := inside + {searchLoc};
        NeighborsAll(searchLoc);
        pending := pending + Neighbors(searchLoc);
      }
    }
    return inside, fuel, true;
  }

  /** The cell just inside step `i` of the loop, on the side its turns say is inside. */
  function InsideSeed(loop: seq<Step>, i: nat): Loc
    requires i < |loop|
  {
    var toInside := if CrossSum(loop, |loop|) > 0 then CounterClockwise(loop[i].dir) else Clockwise(loop[i].dir);
    Shift(loop[i].loc, toInside)
  }

  /** The cells just inside the first `k` steps are in `cells` or on the loop. */
  ghost predicate HoldsSeeds(loop: seq<Step>, cells: set<Loc>, loopLocs: set<Loc>, k: nat)
    requires k <= |loop|
  {
    forall j :: 0 <= j < k ==> InsideSeed(loop, j) in cells || InsideSeed(loop, j) in loopLocs
  }

  /** `solve2`: the number of cells enclosed by the loop.  `inside` is the set of
      filled cells: the least set that avoids the loop, is closed under moves that
      avoid the loop, and holds every cell just inside a step of the loop. */
  method Solve2(loop: seq<Step>, fuel0: nat) returns (r: Result<int>, ghost inside: set<Loc>)
    ensures r.Err? ==> r.fault == AssertionError || r.fault == OutOfFuel
    ensures r.Err? && r.fault == AssertionError <==> Abs(CrossSum(loop, |loop|)) != 4
    ensures r.Ok? ==> r.value == |inside|
    ensures r.Ok? ==> Fenced(inside, Locs(loop)) && HoldsSeeds(loop, inside, Locs(loop), |loop|)
    ensures r.Ok? ==> forall cells :: Fenced(cells, Locs(loop)) && HoldsSeeds(loop, cells, Locs(loop), |loop|) ==>
                        inside <= cells
  {
    var crossSum := TurnTotal(loop);
    inside := {};
    if Abs(crossSum) != 4 {
      return Err(AssertionError), inside;
    }
    var loopLocs := Locs(loop);
    var insideLocs: set<Loc> := {};
    var fuel := fuel0;
    for i := 0 to |loop|
      invariant Fenced(insideLocs, loopLocs) && HoldsSeeds(loop, insideLocs, loopLocs, i)
      invariant forall cells :: Fenced(cells, loopLocs) && HoldsSeeds(loop, cells, loopLocs, i) ==> insideLocs <= cells
    {
      var toInside := if crossSum > 0 then CounterClockwise(loop[i].dir) else Clockwise(loop[i].dir);
      var grown, left, ok := Flood(loopLocs, Shift(loop[i].loc, toInside), insideLocs, fuel);
      if !ok {
        return Err(OutOfFuel), inside;
      }
      forall cells | Fenced(cells, loopLocs) && HoldsSeeds(loop, cells, loopLocs, i + 1) ensures grown <= cells {
        assert HoldsSeeds(loop, cells, loopLocs, i);
        assert InsideSeed(loop, i) in cells || InsideSeed(loop, i) in loopLocs;
      }
      insideLocs, fuel := grown, left;
    }
    inside := insideLocs;
    return Ok(|insideLocs|), inside;
  }
}
