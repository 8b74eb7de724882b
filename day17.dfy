/** Day 17: the least heat loss from the top-left to the bottom-right block of a
    grid, moving at most three blocks in a straight line and never reversing.  The
    search is a depth-first walk over an explicit stack of successor lists,
    pruned by the best total recorded for each (cell, direction, run) key. */
module Day17 {
  import opened Common

  const NStraightLimit := 3

  datatype Direction = Up | Left | Down | Right

  function Value(d: Direction): (int, int)
  {
    match d
    case Up => (-1, 0)
    case Left => (0, -1)
    case Down => (1, 0)
    case Right => (0, 1)
  }

  /** `Direction(value)` for the negated offset, as `opposite` builds it. */
  function Opposite(d: Direction): (e: Direction)
    ensures Value(e) == (-1 * Value(d).0, -1 * Value(d).1)
  {
    var (r, c) := Value(d);
    var v := (-1 * r, -1 * c);
    if v == (-1, 0) then Up
    else if v == (0, -1) then Left
    else if v == (1, 0) then Down
    else Right
  }

  lemma OppositeInvolution(d: Direction)
    ensures Opposite(Opposite(d)) == d && Opposite(d) != d
  {
  }

  /** `a.value > b.value` in Python's tuple order. */
  predicate ValueAbove(a: Direction, b: Direction)
  {
    Value(a).0 > Value(b).0 || (Value(a).0 == Value(b).0 && Value(a).1 > Value(b).1)
  }

  /** `d` survives the two discards of `next_direcion_options`. */
  predicate Allowed(current: Direction, nStraight: int, d: Direction)
  {
    d != Opposite(current) && !(nStraight >= NStraightLimit && d == current)
  }

  /** All four directions, largest value first. */
  function Descending(): seq<Direction>
  {
    [Down, Right, Left, Up]
  }

  lemma EveryDirection()
    ensures forall d: Direction :: d in Descending()
  {
    var all := Descending();
    forall d: Direction ensures d in all {
      if d == Down { assert all[0] == d; }
      else if d == Right { assert all[1] == d; }
      else if d == Left { assert all[2] == d; }
      else { assert all[3] == d; }
    }
  }

  /** Each direction's value is above the value of every later one. */
  predicate SortedDown(ds: seq<Direction>)
  {
    forall i, j :: 0 <= i < j < |ds| ==> ValueAbove(ds[i], ds[j])
  }

  /** The allowed directions of `ds`, in the order of `ds`. */
  function KeepAllowed(current: Direction, nStraight: int, ds: seq<Direction>): (kept: seq<Direction>)
    ensures forall d :: d in kept <==> d in ds && Allowed(current, nStraight, d)
  {
    if ds == [] then []
    else if Allowed(current, nStraight, ds[0]) then [ds[0]] + KeepAllowed(current, nStraight, ds[1..])
    else KeepAllowed(current, nStraight, ds[1..])
  }

  /** The tail of a sorted sequence is sorted and lies below its head. */
  lemma SortedTail(ds: seq<Direction>)
    requires SortedDown(ds) && ds != []
    ensures SortedDown(ds[1..])
    ensures forall d :: d in ds[1..] ==> ValueAbove(ds[0], d)
  {
    var tail := ds[1..];
    forall i, j | 0 <= i < j < |tail| ensures ValueAbove(tail[i], tail[j]) {
      assert tail[i] == ds[i + 1] && tail[j] == ds[j + 1];
    }
    forall d | d in tail ensures ValueAbove(ds[0], d) {
      var k :| 0 <= k < |tail| && tail[k] == d;
      assert tail[k] == ds[k + 1];
    }
  }

  /** A head above every direction of a sorted tail gives a sorted sequence. */
  lemma SortedCons(d: Direction, rest: seq<Direction>)
    requires SortedDown(rest) && forall e :: e in rest ==> ValueAbove(d, e)
    ensures SortedDown([d] + rest)
  {
    var ds := [d] + rest;
    forall i, j | 0 <= i < j < |ds| ensures ValueAbove(ds[i], ds[j]) {
      assert ds[j] == rest[j - 1] && rest[j - 1] in rest;
      if i > 0 {
        assert ds[i] == rest[i - 1];
      }
    }
  }

  /** Keeping some directions of a sorted sequence keeps it sorted. */
  lemma {:induction false} KeepAllowedSorted(current: Direction, nStraight: int, ds: seq<Direction>)
    requires SortedDown(ds)
    ensures SortedDown(KeepAllowed(current, nStraight, ds))
  {
    if ds != [] {
      var tail := ds[1..];
      SortedTail(ds);
      KeepAllowedSorted(current, nStraight, tail);
      if Allowed(current, nStraight, ds[0]) {
        SortedCons(ds[0], KeepAllowed(current, nStraight, tail));
      }
    }
  }

  /** `next_direcion_options`: the allowed directions, sorted by value, largest first. */
  function NextDirectionOptions(current: Direction, nStraight: int): (options: seq<Direction>)
    ensures forall d :: d in options <==> Allowed(current, nStraight, d)
    ensures SortedDown(options)
  {
    var all := Descending();
    assert SortedDown(all) by {
      forall i, j | 0 <= i < j < |all| ensures ValueAbove(all[i], all[j]) {
      }
    }
    EveryDirection();
    KeepAllowedSorted(current, nStraight, all);
    KeepAllowed(current, nStraight, all)
  }

  /** No u-turns; straight on only while the run is short; three or two options. */
  lemma OptionsShape(current: Direction, nStraight: int)
    ensures Opposite(current) !in NextDirectionOptions(current, nStraight)
    ensures current in NextDirectionOptions(current, nStraight) <==> nStraight < NStraightLimit
    ensures |NextDirectionOptions(current, nStraight)| == if nStraight >= NStraightLimit then 2 else 3
  {
    OptionsCount(current, nStraight);
  }

  /** Three options, or two once the run has reached the limit. */
  lemma OptionsCount(current: Direction, nStraight: int)
    ensures |NextDirectionOptions(current, nStraight)| == if nStraight >= NStraightLimit then 2 else 3
  {
    var all := Descending();
    assert all[1..] == [Right, Left, Up] && [Right, Left, Up][1..] == [Left, Up];
    assert [Left, Up][1..] == [Up] && [Up][1..] == [];
    KeepAllowedCons(current, nStraight, all);
    KeepAllowedCons(current, nStraight, [Right, Left, Up]);
    KeepAllowedCons(current, nStraight, [Left, Up]);
    KeepAllowedCons(current, nStraight, [Up]);
    match current
    case Up => assert Opposite(Up) == Down;
    case Left => assert Opposite(Left) == Right;
    case Down => assert Opposite(Down) == Up;
    case Right => assert Opposite(Right) == Left;
  }

  /** The first direction is kept or dropped, then the rest are filtered. */
  lemma KeepAllowedCons(current: Direction, nStraight: int, ds: seq<Direction>)
    requires ds != []
    ensures |KeepAllowed(current, nStraight, ds)|
         == |KeepAllowed(current, nStraight, ds[1..])| + if Allowed(current, nStraight, ds[0]) then 1 else 0
  {
  }

  type Loc = (int, int)
  type Grid = seq<seq<nat>>

  predicate Rectangular(g: Grid)
  {
    |g| == 0 || Rect(g, |g[0]|)
  }

  function Width(g: Grid): nat
  {
    if |g| == 0 then 0 else |g[0]|
  }

  predicate InGrid(g: Grid, loc: Loc)
  {
    0 <= loc.0 < |g| && 0 <= loc.1 < Width(g)
  }

  function Shift(loc: Loc, d: Direction): Loc
  {
    (loc.0 + Value(d).0, loc.1 + Value(d).1)
  }

  datatype State = State(loc: Loc, prevDirection: Direction, nStraight: int, totalSoFar: int)

  /** `dict_key`: everything but the total. */
  function DictKey(s: State): (Loc, Direction, int)
  {
    (s.loc, s.prevDirection, s.nStraight)
  }

  /** `step`: move one block towards `d`, paying the heat loss of the block entered. */
  function Step(g: Grid, s: State, d: Direction): (t: State)
    requires Rectangular(g) && InGrid(g, Shift(s.loc, d))
    ensures t.loc == Shift(s.loc, d) && t.prevDirection == d
    ensures t.nStraight == if d == s.prevDirection then s.nStraight + 1 else 1
    ensures t.totalSoFar == s.totalSoFar + g[t.loc.0][t.loc.1]
  {
    var newLoc := Shift(s.loc, d);
    var nStraight := if d == s.prevDirection then s.nStraight + 1 else 1;
    State(newLoc, d, nStraight, s.totalSoFar + g[newLoc.0][newLoc.1])
  }

  /** `t` is the step from `s` towards its own direction, an allowed one that stays on the grid. */
  predicate StepFrom(g: Grid, s: State, options: seq<Direction>, t: State)
    requires Rectangular(g)
  {
    t.prevDirection in options && InGrid(g, Shift(s.loc, t.prevDirection)) && t == Step(g, s, t.prevDirection)
  }

  /** The steps towards each of `options` that stay on the grid, in order. */
  function StepsTowards(g: Grid, s: State, options: seq<Direction>): (steps: seq<State>)
    requires Rectangular(g)
    ensures forall t :: t in steps ==> StepFrom(g, s, options, t)
    ensures forall d :: d in options && InGrid(g, Shift(s.loc, d)) ==> Step(g, s, d) in steps
  {
    if options == [] then []
    else
      var rest := StepsTowards(g, s, options[1..]);
      assert forall d :: d in options <==> d == options[0] || d in options[1..];
      if InGrid(g, Shift(s.loc, options[0])) then [Step(g, s, options[0])] + rest else rest
  }

  /** `gen_possible_steps`: every allowed step that stays on the grid.  A negative
      index, which numpy would wrap around, is refused like any other. */
  function PossibleSteps(g: Grid, s: State): seq<State>
    requires Rectangular(g)
  {
    StepsTowards(g, s, NextDirectionOptions(s.prevDirection, s.nStraight))
  }

  /** A state the search can produce: on the grid, with a straight run of 1 to 3. */
  predicate ValidState(g: Grid, s: State)
  {
    InGrid(g, s.loc) && 1 <= s.nStraight <= NStraightLimit && s.totalSoFar >= 0
  }

  /** Every generated state is valid when its origin is: the run only grows while
      it is below the limit, and the heat loss never goes negative. */
  lemma PossibleStepsValid(g: Grid, s: State)
    requires Rectangular(g) && ValidState(g, s)
    ensures forall t :: t in PossibleSteps(g, s) ==> ValidState(g, t)
  {
    var options := NextDirectionOptions(s.prevDirection, s.nStraight);
    forall t | t in PossibleSteps(g, s) ensures ValidState(g, t) {
      assert StepFrom(g, s, options, t);
      assert Allowed(s.prevDirection, s.nStraight, t.prevDirection);
    }
  }

  function Target(g: Grid): Loc
  {
    (|g| - 1, Width(g) - 1)
  }

  /** The state after the first move from (0, 0) towards `d`. */
  function StartState(g: Grid, d: Direction): State
    requires Rectangular(g) && InGrid(g, Shift((0, 0), d))
  {
    var loc := Shift((0, 0), d);
    State(loc, d, 1, g[loc.0][loc.1])
  }

  /** `s` is produced within `k` moves after one of the two first moves. */
  ghost predicate ReachedIn(g: Grid, s: State, k: nat)
    requires Rectangular(g)
    decreases k
  {
    if k == 0 then
      (InGrid(g, Shift((0, 0), Right)) && s == StartState(g, Right)) ||
      (InGrid(g, Shift((0, 0), Down)) && s == StartState(g, Down))
    else
      ReachedIn(g, s, k - 1) || exists p :: ReachedIn(g, p, k - 1) && s in PossibleSteps(g, p)
  }

  ghost predicate Reached(g: Grid, s: State)
    requires Rectangular(g)
  {
    exists k :: ReachedIn(g, s, k)
  }

  /** Every reachable state is valid. */
  lemma {:induction false} ReachedValid(g: Grid, s: State, k: nat)
    requires Rectangular(g) && ReachedIn(g, s, k)
    ensures ValidState(g, s)
    decreases k
  {
    if k > 0 {
      var j: nat := k - 1;
      if ReachedIn(g, s, j) {
        ReachedValid(g, s, j);
      } else {
        var p: State :| ReachedIn(g, p, j) && s in PossibleSteps(g, p);
        ReachedValid(g, p, j);
        ValidSuccessor(g, p, s);
      }
    }
  }

  lemma ValidSuccessor(g: Grid, p: State, s: State)
    requires Rectangular(g) && ValidState(g, p) && s in PossibleSteps(g, p)
    ensures ValidState(g, s)
  {
    PossibleStepsValid(g, p);
  }

  lemma PossibleStepsReached(g: Grid, s: State)
    requires Rectangular(g) && Reached(g, s)
    ensures forall t :: t in PossibleSteps(g, s) ==> Reached(g, t)
  {
    var k: nat :| ReachedIn(g, s, k);
    forall t | t in PossibleSteps(g, s) ensures Reached(g, t) {
      assert ReachedIn(g, t, k + 1);
    }
  }

  /** Every state waiting on the stack is reachable. */
  ghost predicate StackReached(g: Grid, stack: seq<seq<State>>)
    requires Rectangular(g)
  {
    forall i, j :: 0 <= i < |stack| && 0 <= j < |stack[i]| ==> Reached(g, stack[i][j])
  }

  /** Every recorded total belongs to a reachable state with that key. */
  ghost predicate Recorded(g: Grid, dijk: map<(Loc, Direction, int), int>, origins: map<(Loc, Direction, int), State>)
    requires Rectangular(g)
  {
    forall key :: key in dijk ==>
      key in origins && Reached(g, origins[key]) && DictKey(origins[key]) == key &&
      origins[key].totalSoFar == dijk[key]
  }

  /** The best total so far is the heat loss of a reachable state on the target. */
  ghost predicate BestReached(g: Grid, best: Option<int>)
    requires Rectangular(g)
  {
    best.Some? ==> exists s :: Reached(g, s) && s.loc == Target(g) && s.totalSoFar == best.value
  }

  lemma StackPop(g: Grid, stack: seq<seq<State>>)
    requires Rectangular(g) && StackReached(g, stack) && |stack| > 0
    ensures StackReached(g, stack[..|stack| - 1])
  {
    var n := |stack| - 1;
    forall i, j | 0 <= i < n && 0 <= j < |stack[..n][i]| ensures Reached(g, stack[..n][i][j]) {
      assert stack[..n][i] == stack[i];
    }
  }

  lemma StackNext(g: Grid, stack: seq<seq<State>>)
    requires Rectangular(g) && StackReached(g, stack) && |stack| > 0 && |stack[|stack| - 1]| > 0
    ensures Reached(g, stack[|stack| - 1][0])
    ensures StackReached(g, stack[..|stack| - 1] + [stack[|stack| - 1][1..]])
  {
    var n := |stack| - 1;
    var next := stack[..n] + [stack[n][1..]];
    forall i, j | 0 <= i < |next| && 0 <= j < |next[i]| ensures Reached(g, next[i][j]) {
      if i < n {
        assert next[i] == stack[i];
      } else {
        assert next[i][j] == stack[n][j + 1];
      }
    }
  }

  lemma StackPush(g: Grid, stack: seq<seq<State>>, s: State)
    requires Rectangular(g) && StackReached(g, stack) && Reached(g, s)
    ensures StackReached(g, stack + [PossibleSteps(g, s)])
  {
    PossibleStepsReached(g, s);
    var next := stack + [PossibleSteps(g, s)];
    forall i, j | 0 <= i < |next| && 0 <= j < |next[i]| ensures Reached(g, next[i][j]) {
      if i < |stack| {
        assert next[i] == stack[i];
      } else {
        assert next[i][j] in PossibleSteps(g, s);
      }
    }
  }

  /** No recorded total of `d0` is missing from `d` or smaller there. */
  predicate NoWorse(d0: map<(Loc, Direction, int), int>, d: map<(Loc, Direction, int), int>)
  {
    forall key :: key in d0 ==> key in d && d[key] <= d0[key]
  }

  /** Recording a strictly smaller total keeps every earlier total bounded. */
  lemma NoWorseUpdate(d0: map<(Loc, Direction, int), int>, d: map<(Loc, Direction, int), int>,
                      key: (Loc, Direction, int), v: int)
    requires NoWorse(d0, d) && (key in d ==> v < d[key])
    ensures NoWorse(d0, d[key := v])
  {
  }

  /** Recording a reachable state keeps every recorded total justified. */
  lemma RecordedUpdate(g: Grid, dijk: map<(Loc, Direction, int), int>,
                       origins: map<(Loc, Direction, int), State>, s: State)
    requires Rectangular(g) && Recorded(g, dijk, origins) && Reached(g, s)
    ensures Recorded(g, dijk[DictKey(s) := s.totalSoFar], origins[DictKey(s) := s])
  {
  }

  /** A reachable state on the target justifies its total as the best. */
  lemma BestUpdate(g: Grid, s: State)
    requires Rectangular(g) && Reached(g, s) && s.loc == Target(g)
    ensures BestReached(g, Some(s.totalSoFar))
  {
  }

  /** The search from one first move: the `while len(stack) > 0` loop of `solve`,
      with at most `fuel` iterations. */
  method Search(g: Grid, start: State, best0: Option<int>, dijk0: map<(Loc, Direction, int), int>,
                ghost origins0: map<(Loc, Direction, int), State>, fuel: nat)
    returns (best: Option<int>, dijk: map<(Loc, Direction, int), int>,
             ghost origins: map<(Loc, Direction, int), State>, ok: bool)
    requires Rectangular(g) && Reached(g, start)
    requires Recorded(g, dijk0, origins0) && BestReached(g, best0)
    ensures Recorded(g, dijk, origins) && BestReached(g, best)
    ensures best0.Some? ==> best.Some? && best.value <= best0.value
    ensures NoWorse(dijk0, dijk)
  {
    best, dijk, origins := best0, dijk0, origins0;
    StackPush(g, [], start);
    var stack := [PossibleSteps(g, start)];
    var n := 0;
    assert [] + [PossibleSteps(g, start)] == stack;
    while |stack| > 0 && n < fuel
      decreases fuel - n
      invariant StackReached(g, stack) && Recorded(g, dijk, origins) && BestReached(g, best)
      invariant best0.Some? ==> best.Some? && best.value <= best0.value
      invariant NoWorse(dijk0, dijk)
    {
      n := n + 1;
      var possibleNextStates := stack[|stack| - 1];
      if |possibleNextStates| == 0 {
        StackPop(g, stack);
        stack := stack[..|stack| - 1];
        continue;
      }
      StackNext(g, stack);
      var state := possibleNextStates[0];
      stack := stack[..|stack| - 1] + [possibleNextStates[1..]];
      if state.loc == Target(g) {
        if best.None? || state.totalSoFar < best.value {
          BestUpdate(g, state);
          best := Some(state.totalSoFar);
          continue;
        }
      }
      var stateKey := DictKey(state);
      if stateKey in dijk && dijk[stateKey] <= state.totalSoFar {
        continue;
      }
      NoWorseUpdate(dijk0, dijk, stateKey, state.totalSoFar);
      RecordedUpdate(g, dijk, origins, state);
      dijk := dijk[stateKey := state.totalSoFar];
      origins := origins[stateKey := state];
      StackPush(g, stack, state);
      stack := stack + [PossibleSteps(g, state)];
    }
    ok := |stack| == 0;
  }

  /** `solve`: the least heat loss found on the way to the bottom-right block, or
      `None` when no walk reaches it.  A grid without rows fails like the
      constructor of `Solver`; one with a single row or column fails on the first
      move that leaves it. */
  method Solve(g: Grid, fuel: nat) returns (r: Result<Option<int>>)
    requires Rectangular(g)
    ensures |g| == 0 ==> r == Err(ValueError)
    ensures |g| > 0 && Width(g) < 2 ==> r == Err(IndexError)
    ensures |g| == 1 ==> r.Err?
    ensures r.Err? ==> r.fault == ValueError || r.fault == IndexError || r.fault == OutOfFuel
    ensures r.Ok? && r.value.Some? ==>
              exists s :: Reached(g, s) && s.loc == Target(g) && s.totalSoFar == r.value.value
  {
    if |g| == 0 {
      return Err(ValueError);
    }
    var best: Option<int> := None;
    var dijk: map<(Loc, Direction, int), int> := map[];
    ghost var origins: map<(Loc, Direction, int), State> := map[];
    for k := 0 to 2
      invariant Recorded(g, dijk, origins) && BestReached(g, best)
      invariant k > 0 ==> Width(g) >= 2
      invariant k > 1 ==> |g| >= 2
    {
      var direction := if k == 0 then Right else Down;
      var loc := Shift((0, 0), direction);
      if !InGrid(g, loc) {
        return Err(IndexError);
      }
      var state := State(loc, direction, 1, g[loc.0][loc.1]);
      assert ReachedIn(g, state, 0);
      var ok;
      best, dijk, origins, ok := Search(g, state, best, dijk, origins, fuel);
      if !ok {
        return Err(OutOfFuel);
      }
    }
    return Ok(best);
  }
}
