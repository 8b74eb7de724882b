/** Day 18: the lagoon.  The dig plan cuts a trench, one cell per unit move, from the
    origin; the trench must close into a loop.  A flood fill from each neighbour of the
    trench decides whether the ground it reaches is shut in by the trench or escapes the
    trench's bounding box, and the answer counts the trench together with the ground it
    shuts in (day18.py). */
module Day18 {
  import opened Common

  type Loc = (int, int)

  /** The four directions, in the order the enum lists them. */
  datatype Direction = Up | Left | Down | Right

  /** `list(Direction)[i]`: the order in which `for direction in Direction` visits them. */
  function Dir(i: nat): Direction
    requires i < 4
  {
    if i == 0 then Up else if i == 1 then Left else if i == 2 then Down else Right
  }

  /** The enum value: the (row, column) offset of one step. */
  function Value(d: Direction): Loc
  {
    match d
    case Up => (-1, 0)
    case Left => (0, -1)
    case Down => (1, 0)
    case Right => (0, 1)
  }

  /** `Direction.shift`: one step from `loc`. */
  function Shift(d: Direction, loc: Loc): Loc
  {
    (loc.0 + Value(d).0, loc.1 + Value(d).1)
  }

  /** `Direction.from_letter`. */
  function FromLetter(s: string): Result<Direction>
  {
    if s == "U" then Ok(Up)
    else if s == "L" then Ok(Left)
    else if s == "D" then Ok(Down)
    else if s == "R" then Ok(Right)
    else Err(ValueError)
  }

  /** The letter of a direction in the dig plan. */
  function Letter(d: Direction): string
  {
    match d
    case Up => "U"
    case Left => "L"
    case Down => "D"
    case Right => "R"
  }

  /** Exactly the four letters are accepted, anything else is a `ValueError`, and an
      accepted letter is the letter of the direction it names. */
  lemma FromLetterSpec(s: string)
    ensures FromLetter(s).Ok? <==> s == "U" || s == "L" || s == "D" || s == "R"
    ensures FromLetter(s).Err? ==> FromLetter(s).fault == ValueError
    ensures FromLetter(s).Ok? ==> Letter(FromLetter(s).value) == s
  {
  }

  /** Reading a direction's letter gives the direction back. */
  lemma LetterRoundTrip(d: Direction)
    ensures FromLetter(Letter(d)) == Ok(d)
  {
  }

  // ----- the trench -----

  /** One line of the dig plan: a direction, a number of unit moves and a colour. */
  datatype Instruction = Instruction(dir: Direction, n: nat, color: string)

  /** Where `j` unit moves in direction `d` from `from` end. */
  function Offset(from: Loc, d: Direction, j: nat): Loc
  {
    match d
    case Up => (from.0 - j, from.1)
    case Left => (from.0, from.1 - j)
    case Down => (from.0 + j, from.1)
    case Right => (from.0, from.1 + j)
  }

  lemma OffsetStep(from: Loc, d: Direction, j: nat)
    ensures Offset(from, d, j + 1) == Shift(d, Offset(from, d, j))
  {
  }

  /** The cells stepped on by `n` unit moves from `from`, in order. */
  function Run(from: Loc, d: Direction, n: nat): (r: seq<Loc>)
    ensures |r| == n
  {
    seq(n, i requires 0 <= i < n => Offset(from, d, i + 1))
  }

  /** Where the plan ends. */
  function Final(from: Loc, plan: seq<Instruction>): Loc
  {
    if |plan| == 0 then from
    else
      var last := plan[|plan| - 1];
      Offset(Final(from, plan[..|plan| - 1]), last.dir, last.n)
  }

  /** Every cell the plan steps on, in order, one per unit move. */
  function Trace(from: Loc, plan: seq<Instruction>): seq<Loc>
  {
    if |plan| == 0 then []
    else
      var last := plan[|plan| - 1];
      Trace(from, plan[..|plan| - 1]) + Run(Final(from, plan[..|plan| - 1]), last.dir, last.n)
  }

  /** The number of unit moves in the plan. */
  function Steps(plan: seq<Instruction>): nat
  {
    if |plan| == 0 then 0 else Steps(plan[..|plan| - 1]) + plan[|plan| - 1].n
  }

  /** The net number of rows the plan moves down, and of columns it moves right. */
  function RowShift(plan: seq<Instruction>): int
  {
    if |plan| == 0 then 0
    else
      var last := plan[|plan| - 1];
      RowShift(plan[..|plan| - 1]) + (if last.dir == Down then last.n as int else if last.dir == Up then -(last.n as int) else 0)
  }

  function ColShift(plan: seq<Instruction>): int
  {
    if |plan| == 0 then 0
    else
      var last := plan[|plan| - 1];
      ColShift(plan[..|plan| - 1]) + (if last.dir == Right then last.n as int else if last.dir == Left then -(last.n as int) else 0)
  }

  /** The plan ends displaced from its start by its net row and column moves. */
  lemma {:induction false} FinalDisplacement(from: Loc, plan: seq<Instruction>)
    ensures Final(from, plan) == (from.0 + RowShift(plan), from.1 + ColShift(plan))
  {
    if |plan| > 0 {
      FinalDisplacement(from, plan[..|plan| - 1]);
    }
  }

  /** One cell of the trace per unit move. */
  lemma {:induction false} TraceLength(from: Loc, plan: seq<Instruction>)
    ensures |Trace(from, plan)| == Steps(plan)
  {
    if |plan| > 0 {
      TraceLength(from, plan[..|plan| - 1]);
    }
  }

  /** The neighbours of a cell: one step in any direction. */
  predicate Adjacent(a: Loc, b: Loc)
  {
    b == Shift(Up, a) || b == Shift(Left, a) || b == Shift(Down, a) || b == Shift(Right, a)
  }

  lemma AdjacentShift(i: nat, a: Loc)
    requires i < 4
    ensures Adjacent(a, Shift(Dir(i), a))
  {
  }

  lemma AdjacentSym(a: Loc, b: Loc)
    requires Adjacent(a, b)
    ensures Adjacent(b, a)
  {
  }

  /** The cell before position `i` of a walk that starts next to `from`. */
  function Before(from: Loc, t: seq<Loc>, i: nat): Loc
    requires i < |t|
  {
    if i == 0 then from else t[i - 1]
  }

  /** Each cell of the walk is a neighbour of the one before it. */
  predicate UnitMoves(from: Loc, t: seq<Loc>)
  {
    forall i :: 0 <= i < |t| ==> Adjacent(Before(from, t, i), t[i])
  }

  /** A run moves one cell at a time from where it starts. */
  lemma RunWalk(from: Loc, d: Direction, n: nat)
    ensures UnitMoves(from, Run(from, d, n))
  {
    var r := Run(from, d, n);
    forall i | 0 <= i < n
      ensures Adjacent(Before(from, r, i), r[i])
    {
      OffsetStep(from, d, i);
      assert Before(from, r, i) == Offset(from, d, i);
    }
  }

  /** `t` moves one cell at a time from `from` and ends at `end`. */
  predicate WalkTo(from: Loc, t: seq<Loc>, end: Loc)
  {
    UnitMoves(from, t) && (if |t| == 0 then end == from else t[|t| - 1] == end)
  }

  /** A walk followed by a walk from the cell where the first one ends. */
  lemma UnitMovesConcat(from: Loc, t: seq<Loc>, mid: Loc, r: seq<Loc>)
    requires WalkTo(from, t, mid) && UnitMoves(mid, r)
    ensures UnitMoves(from, t + r)
  {
    var u := t + r;
    forall i | 0 <= i < |u|
      ensures Adjacent(Before(from, u, i), u[i])
    {
      if i < |t| {
        assert u[i] == t[i] && Before(from, u, i) == Before(from, t, i);
      } else {
        assert u[i] == r[i - |t|] && Before(from, u, i) == Before(mid, r, i - |t|);
      }
    }
  }

  /** A walk followed by a run from where it ends. */
  lemma WalkRun(from: Loc, t: seq<Loc>, mid: Loc, d: Direction, n: nat)
    requires WalkTo(from, t, mid)
    ensures WalkTo(from, t + Run(mid, d, n), Offset(mid, d, n))
  {
    var r := Run(mid, d, n);
    RunWalk(mid, d, n);
    UnitMovesConcat(from, t, mid, r);
    if n == 0 {
      assert t + r == t;
    } else {
      assert (t + r)[|t + r| - 1] == r[n - 1];
    }
  }

  /** The trace moves one cell at a time and ends where the plan ends. */
  lemma {:induction false} TraceWalk(from: Loc, plan: seq<Instruction>)
    ensures WalkTo(from, Trace(from, plan), Final(from, plan))
  {
    if |plan| > 0 {
      var p, last := plan[..|plan| - 1], plan[|plan| - 1];
      TraceWalk(from, p);
      WalkRun(from, Trace(from, p), Final(from, p), last.dir, last.n);
    }
  }

  /** The set of cells of a sequence. */
  function Cells(t: seq<Loc>): set<Loc>
  {
    set x | x in t
  }

  lemma CellsConcat(a: seq<Loc>, b: seq<Loc>)
    ensures Cells(a + b) == Cells(a) + Cells(b)
  {
  }

  lemma CellsEmpty(t: seq<Loc>)
    ensures Cells(t) == {} <==> |t| == 0
  {
    if |t| > 0 {
      assert t[0] in Cells(t);
    }
  }

  const Origin: Loc := (0, 0)

  /** The dig loop of `solve`: `dug` is every cell stepped on and `loc` where the plan
      ends. */
  method Dig(plan: seq<Instruction>) returns (dug: set<Loc>, loc: Loc)
    ensures dug == Cells(Trace(Origin, plan))
    ensures loc == Final(Origin, plan)
  {
    dug, loc := {}, Origin;
    for k := 0 to |plan|
      invariant dug == Cells(Trace(Origin, plan[..k]))
      invariant loc == Final(Origin, plan[..k])
    {
      var d, n := plan[k].dir, plan[k].n;
      ghost var from, before := loc, dug;
      for j := 0 to n
        invariant loc == Offset(from, d, j)
        invariant dug == before + Cells(Run(from, d, j))
      {
        OffsetStep(from, d, j);
        assert Run(from, d, j + 1) == Run(from, d, j) + [Offset(from, d, j + 1)];
        CellsConcat(Run(from, d, j), [Offset(from, d, j + 1)]);
        loc := Shift(d, loc);
        dug := dug + {loc};
      }
      assert plan[..k + 1][..k] == plan[..k];
      CellsConcat(Trace(Origin, plan[..k]), Run(from, d, n));
    }
    assert plan[..|plan|] == plan;
  }

  // ----- the bounding box -----

  datatype Box = Box(top: int, bottom: int, left: int, right: int)

  predicate InBox(x: Loc, b: Box)
  {
    b.top <= x.0 <= b.bottom && b.left <= x.1 <= b.right
  }

  /** `b` is the smallest box around `cells`: every cell lies in it and a cell lies on
      each of its four sides. */
  ghost predicate Tight(b: Box, cells: set<Loc>)
  {
    (forall x :: x in cells ==> InBox(x, b))
    && (exists x :: x in cells && x.0 == b.top)
    && (exists x :: x in cells && x.0 == b.bottom)
    && (exists x :: x in cells && x.1 == b.left)
    && (exists x :: x in cells && x.1 == b.right)
  }

  /** The smallest box is unique, so the order `list(dug)` happens to list the cells in
      does not matter. */
  lemma TightUnique(b1: Box, b2: Box, cells: set<Loc>)
    requires Tight(b1, cells) && Tight(b2, cells)
    ensures b1 == b2
  {
    var t1 :| t1 in cells && t1.0 == b1.top;
    var t2 :| t2 in cells && t2.0 == b2.top;
    var u1 :| u1 in cells && u1.0 == b1.bottom;
    var u2 :| u2 in cells && u2.0 == b2.bottom;
    var l1 :| l1 in cells && l1.1 == b1.left;
    var l2 :| l2 in cells && l2.1 == b2.left;
    var r1 :| r1 in cells && r1.1 == b1.right;
    var r2 :| r2 in cells && r2.1 == b2.right;
    assert InBox(t1, b2) && InBox(t2, b1) && InBox(u1, b2) && InBox(u2, b1);
    assert InBox(l1, b2) && InBox(l2, b1) && InBox(r1, b2) && InBox(r2, b1);
  }

  /** `dug_np[:, 0].min()` and friends; an empty trench makes the column index fail. */
  method Bounds(dug: set<Loc>) returns (r: Result<Box>)
    ensures r.Err? <==> dug == {}
    ensures r.Err? ==> r.fault == IndexError
    ensures r.Ok? ==> Tight(r.value, dug)
  {
    if dug == {} {
      return Err(IndexError);
    }
    var first :| first in dug;
    var top, bottom, left, right := first.0, first.0, first.1, first.1;
    ghost var wt, wb, wl, wr := first, first, first, first;
    var rest := dug - {first};
    while rest != {}
      invariant rest <= dug
      invariant forall x :: x in dug && x !in rest ==> InBox(x, Box(top, bottom, left, right))
      invariant wt in dug && wt.0 == top && wb in dug && wb.0 == bottom
      invariant wl in dug && wl.1 == left && wr in dug && wr.1 == right
      decreases |rest|
    {
      var x :| x in rest;
      rest := rest - {x};
      if x.0 < top {
        top, wt := x.0, x;
      }
      if x.0 > bottom {
        bottom, wb := x.0, x;
      }
      if x.1 < left {
        left, wl := x.1, x;
      }
      if x.1 > right {
        right, wr := x.1, x;
      }
    }
    return Ok(Box(top, bottom, left, right));
  }

  // ----- routes through untouched ground -----

  /** A path of neighbouring cells, none of them dug. */
  ghost predicate Route(p: seq<Loc>, dug: set<Loc>)
  {
    |p| >= 1
    && (forall i :: 0 <= i < |p| ==> p[i] !in dug)
    && (forall i :: 0 <= i < |p| - 1 ==> Adjacent(p[i], p[i + 1]))
  }

  lemma RouteSnoc(p: seq<Loc>, x: Loc, dug: set<Loc>)
    requires Route(p, dug) && x !in dug && Adjacent(p[|p| - 1], x)
    ensures Route(p + [x], dug)
  {
    var q := p + [x];
    forall i | 0 <= i < |q| - 1
      ensures Adjacent(q[i], q[i + 1])
    {
      if i < |p| - 1 {
        assert q[i] == p[i] && q[i + 1] == p[i + 1];
      }
    }
  }

  lemma RouteReverse(p: seq<Loc>, dug: set<Loc>)
    requires Route(p, dug)
    ensures Route(Reverse(p), dug)
  {
    var r := Reverse(p);
    forall i | 0 <= i < |r| - 1
      ensures Adjacent(r[i], r[i + 1])
    {
      var k := |p| - 2 - i;
      assert r[i] == p[k + 1] && r[i + 1] == p[k];
      AdjacentSym(p[k], p[k + 1]);
    }
  }

  lemma RouteJoin(p: seq<Loc>, q: seq<Loc>, dug: set<Loc>)
    requires Route(p, dug) && Route(q, dug) && p[|p| - 1] == q[0]
    ensures Route(p + q[1..], dug)
  {
    var r := p + q[1..];
    forall i | 0 <= i < |r|
      ensures r[i] !in dug
    {
      if i >= |p| {
        assert r[i] == q[i - |p| + 1];
      }
    }
    forall i | 0 <= i < |r| - 1
      ensures Adjacent(r[i], r[i + 1])
    {
      if i < |p| - 1 {
        assert r[i] == p[i] && r[i + 1] == p[i + 1];
      } else if i == |p| - 1 {
        assert r[i] == q[0] && r[i + 1] == q[1];
      } else {
        var k := i - |p| + 1;
        assert r[i] == q[k] && r[i + 1] == q[k + 1];
      }
    }
  }

  /** Two routes from the same cell give a route from the end of the first to the end of
      the second: back along the first and out along the second. */
  lemma EscapeRoute(p: seq<Loc>, q: seq<Loc>, dug: set<Loc>)
    requires Route(p, dug) && Route(q, dug) && p[0] == q[0]
    ensures var e := Reverse(p) + q[1..];
      Route(e, dug) && e[0] == p[|p| - 1] && e[|e| - 1] == q[|q| - 1]
  {
    RouteReverse(p, dug);
    RouteJoin(Reverse(p), q, dug);
    var e := Reverse(p) + q[1..];
    if |q| == 1 {
      assert e == Reverse(p);
    }
  }

  /** `cells` is shut in by the trench: each step from a cell of `cells` that does not
      hit the trench stays in `cells`. */
  ghost predicate Closed(cells: set<Loc>, dug: set<Loc>)
  {
    forall x, i :: x in cells && 0 <= i < 4 && Shift(Dir(i), x) !in dug ==> Shift(Dir(i), x) in cells
  }

  lemma ClosedStep(cells: set<Loc>, dug: set<Loc>, a: Loc, b: Loc)
    requires Closed(cells, dug) && a in cells && Adjacent(a, b) && b !in dug
    ensures b in cells
  {
    if b == Shift(Up, a) {
      assert Shift(Dir(0), a) == b;
    } else if b == Shift(Left, a) {
      assert Shift(Dir(1), a) == b;
    } else if b == Shift(Down, a) {
      assert Shift(Dir(2), a) == b;
    } else {
      assert Shift(Dir(3), a) == b;
    }
  }

  /** A route that starts in a closed set never leaves it. */
  lemma {:induction false} RouteInside(cells: set<Loc>, dug: set<Loc>, p: seq<Loc>, k: nat)
    requires Closed(cells, dug) && Route(p, dug) && p[0] in cells && k < |p|
    ensures p[k] in cells
  {
    if k > 0 {
      RouteInside(cells, dug, p, k - 1);
      ClosedStep(cells, dug, p[k - 1], p[k]);
    }
  }

  /** Each cell of `cells` has, in `esc`, a route from it to a cell outside the box. */
  ghost predicate Escaping(cells: set<Loc>, dug: set<Loc>, box: Box, esc: map<Loc, seq<Loc>>)
  {
    forall y :: y in cells ==>
      y in esc && Route(esc[y], dug) && esc[y][0] == y && !InBox(esc[y][|esc[y]| - 1], box)
  }

  /** A closed set inside the box and a set with routes out of the box have no cell in
      common. */
  lemma ClosedEscapingDisjoint(inner: set<Loc>, outer: set<Loc>, dug: set<Loc>, box: Box, esc: map<Loc, seq<Loc>>)
    requires Closed(inner, dug) && (forall x :: x in inner ==> InBox(x, box))
    requires Escaping(outer, dug, box, esc)
    ensures inner !! outer
  {
    forall y | y in outer
      ensures y !in inner
    {
      var p := esc[y];
      if y in inner {
        RouteInside(inner, dug, p, |p| - 1);
      }
    }
  }

  // ----- the flood fill -----

  /** `y` is reached from `start`: `from[y]` is a route from `start` to `y`. */
  ghost predicate Reached(y: Loc, start: Loc, dug: set<Loc>, from: map<Loc, seq<Loc>>)
  {
    y in from && Route(from[y], dug) && from[y][0] == start && from[y][|from[y]| - 1] == y
  }

  /** Every cell of `cells` is reached from `start`. */
  ghost predicate AllReached(cells: set<Loc>, start: Loc, dug: set<Loc>, from: map<Loc, seq<Loc>>)
  {
    forall y :: y in cells ==> Reached(y, start, dug, from)
  }

  lemma AllReachedAvoids(cells: set<Loc>, start: Loc, dug: set<Loc>, from: map<Loc, seq<Loc>>)
    requires AllReached(cells, start, dug, from)
    ensures cells !! dug
  {
    forall y | y in cells
      ensures y !in dug
    {
      var p := from[y];
      assert p[|p| - 1] !in dug;
    }
  }

  /** Each step from a cell of `cells` hits the trench or a cell of `known`. */
  ghost predicate Expanded(cells: set<Loc>, dug: set<Loc>, known: set<Loc>)
  {
    forall y, i :: y in cells && 0 <= i < 4 ==> Shift(Dir(i), y) in dug || Shift(Dir(i), y) in known
  }

  /** The cells of the box, a finite set. */
  function BoxCells(b: Box): set<Loc>
  {
    set r: int, c: int | b.top <= r <= b.bottom && b.left <= c <= b.right :: (r, c)
  }

  lemma ShrinksBox(b: Box, searched: set<Loc>, x: Loc)
    requires InBox(x, b) && x !in searched
    ensures |BoxCells(b) - (searched + {x})| < |BoxCells(b) - searched|
  {
    assert x == (x.0, x.1);
    assert x in BoxCells(b) - searched;
    assert BoxCells(b) - (searched + {x}) == (BoxCells(b) - searched) - {x};
  }

  /** Expanding one more cell `x`, once all its neighbours are known. */
  lemma ExpandedGrow(cells: set<Loc>, x: Loc, dug: set<Loc>, known0: set<Loc>, known: set<Loc>)
    requires Expanded(cells - {x}, dug, known0) && known0 <= known
    requires forall j :: 0 <= j < 4 ==> Shift(Dir(j), x) in dug || Shift(Dir(j), x) in known
    ensures Expanded(cells, dug, known)
  {
    forall y, i | y in cells && 0 <= i < 4
      ensures Shift(Dir(i), y) in dug || Shift(Dir(i), y) in known
    {
      if y != x {
        assert y in cells - {x};
      }
    }
  }

  /** `for search_direction in Direction`: queue the neighbours of `x` that are neither
      dug, searched nor queued, extending the route to `x` by one step for each. */
  method Neighbours(dug: set<Loc>, x: Loc, searched: set<Loc>, toSearch0: set<Loc>,
                    ghost start: Loc, ghost from0: map<Loc, seq<Loc>>)
    returns (toSearch: set<Loc>, ghost from: map<Loc, seq<Loc>>)
    requires x in searched && searched !! toSearch0
    requires AllReached(searched + toSearch0, start, dug, from0)
    requires Expanded(searched - {x}, dug, searched + toSearch0)
    ensures toSearch0 <= toSearch && searched !! toSearch
    ensures AllReached(searched + toSearch, start, dug, from)
    ensures Expanded(searched, dug, searched + toSearch)
  {
    toSearch, from := toSearch0, from0;
    for i := 0 to 4
      invariant toSearch0 <= toSearch && searched !! toSearch
      invariant AllReached(searched + toSearch, start, dug, from)
      invariant forall j :: 0 <= j < i ==> Shift(Dir(j), x) in dug || Shift(Dir(j), x) in searched + toSearch
    {
      var next := Shift(Dir(i), x);
      if next in dug || next in searched || next in toSearch {
        continue;
      }
      AdjacentShift(i, x);
      RouteSnoc(from[x], next, dug);
      from := from[next := from[x] + [next]];
      toSearch := toSearch + {next};
    }
    ExpandedGrow(searched, x, dug, searched + toSearch0, searched + toSearch);
  }

  /** Once a search reaches a cell outside the box, every cell it reached has a route
      out: back to the start and on to that cell. */
  lemma EscapeAll(cells: set<Loc>, dug: set<Loc>, box: Box, start: Loc, from: map<Loc, seq<Loc>>, x: Loc)
    returns (esc: map<Loc, seq<Loc>>)
    requires AllReached(cells, start, dug, from) && x in cells && !InBox(x, box)
    ensures Escaping(cells, dug, box, esc)
  {
    esc := map y | y in cells :: Reverse(from[y]) + from[x][1..];
    forall y | y in cells
      ensures Route(esc[y], dug) && esc[y][0] == y && !InBox(esc[y][|esc[y]| - 1], box)
    {
      EscapeRoute(from[y], from[x], dug);
    }
  }

  /** The loop invariant of a search from `start`: every searched or queued cell is
      reached from `start`, every searched cell lies in the box, and every step from a
      searched cell hits the trench or a searched or queued cell. */
  ghost predicate Searching(dug: set<Loc>, box: Box, start: Loc, searched: set<Loc>, toSearch: set<Loc>,
                            from: map<Loc, seq<Loc>>)
  {
    start in searched + toSearch && searched !! toSearch
    && AllReached(searched + toSearch, start, dug, from)
    && (forall y :: y in searched ==> InBox(y, box))
    && Expanded(searched, dug, searched + toSearch)
  }

  /** One turn of the search loop for a popped cell `x` inside the box: `x` joins the
      searched cells and its new neighbours are queued. */
  method Visit(dug: set<Loc>, box: Box, x: Loc, searched0: set<Loc>, toSearch0: set<Loc>,
               ghost start: Loc, ghost from0: map<Loc, seq<Loc>>)
    returns (searched: set<Loc>, toSearch: set<Loc>, ghost from: map<Loc, seq<Loc>>)
    requires Searching(dug, box, start, searched0, toSearch0, from0) && x in toSearch0 && InBox(x, box)
    ensures searched == searched0 + {x}
    ensures Searching(dug, box, start, searched, toSearch, from)
  {
    toSearch := toSearch0 - {x};
    searched := searched0 + {x};
    assert searched + toSearch == searched0 + toSearch0 && searched - {x} == searched0;
    toSearch, from := Neighbours(dug, x, searched, toSearch, start, from0);
  }

  /** The turn of the search loop that pops a cell `x` outside the box: everything
      searched or still queued is given up as external. */
  method Leave(dug: set<Loc>, box: Box, x: Loc, searched0: set<Loc>, toSearch0: set<Loc>,
               ghost start: Loc, ghost from: map<Loc, seq<Loc>>)
    returns (searched: set<Loc>, ghost esc: map<Loc, seq<Loc>>)
    requires Searching(dug, box, start, searched0, toSearch0, from) && x in toSearch0 && !InBox(x, box)
    ensures searched == searched0 + toSearch0
    ensures start in searched && searched !! dug && Escaping(searched, dug, box, esc)
  {
    var toSearch := toSearch0 - {x};
    searched := searched0 + {x};
    searched := searched + toSearch;
    assert searched == searched0 + toSearch0;
    esc := EscapeAll(searched, dug, box, start, from, x);
    AllReachedAvoids(searched, start, dug, from);
  }

  /** The `while len(to_search) > 0` search from `start`.  It ends either when nothing is
      left to search, with the searched cells shut in by the trench and inside the box,
      or when it pops a cell outside the box, with every searched or queued cell given a
      route out of the box. */
  method Flood(dug: set<Loc>, box: Box, start: Loc) returns (cells: set<Loc>, out: bool, ghost esc: map<Loc, seq<Loc>>)
    requires start !in dug
    ensures start in cells && cells !! dug
    ensures !out ==> Closed(cells, dug) && forall x :: x in cells ==> InBox(x, box)
    ensures out ==> Escaping(cells, dug, box, esc)
  {
    var toSearch, searched := {start}, {};
    ghost var from := map[start := [start]];
    while |toSearch| > 0
      invariant Searching(dug, box, start, searched, toSearch, from)
      decreases |BoxCells(box) - searched|
    {
      var x :| x in toSearch;
      if !InBox(x, box) {
        cells, esc := Leave(dug, box, x, searched, toSearch, start, from);
        return cells, true, esc;
      }
      ShrinksBox(box, searched, x);
      searched, toSearch, from := Visit(dug, box, x, searched, toSearch, start, from);
    }
    AllReachedAvoids(searched, start, dug, from);
    assert searched + toSearch == searched;
    return searched, false, map[];
  }

  /** What the outer loop keeps: the internal cells are shut in by the trench and lie in
      the box, the external ones have routes out of the box, and neither touches the
      trench. */
  ghost predicate Classified(dug: set<Loc>, box: Box, internal: set<Loc>, external: set<Loc>, esc: map<Loc, seq<Loc>>)
  {
    internal !! dug && external !! dug
    && Closed(internal, dug) && (forall x :: x in internal ==> InBox(x, box))
    && Escaping(external, dug, box, esc)
  }

  lemma ClosedUnion(a: set<Loc>, b: set<Loc>, dug: set<Loc>)
    requires Closed(a, dug) && Closed(b, dug)
    ensures Closed(a + b, dug)
  {
  }

  lemma EscapingUnion(a: set<Loc>, b: set<Loc>, dug: set<Loc>, box: Box, ea: map<Loc, seq<Loc>>, eb: map<Loc, seq<Loc>>)
    requires Escaping(a, dug, box, ea) && Escaping(b, dug, box, eb)
    ensures Escaping(a + b, dug, box, map y | y in a + b :: if y in b then eb[y] else ea[y])
  {
  }

  /** `for direction in Direction` around one trench cell `loc`: a search from each
      neighbour not yet dug, internal or external. */
  method Around(dug: set<Loc>, box: Box, loc: Loc, internal0: set<Loc>, external0: set<Loc>, ghost esc0: map<Loc, seq<Loc>>)
    returns (internal: set<Loc>, external: set<Loc>, ghost esc: map<Loc, seq<Loc>>)
    requires Classified(dug, box, internal0, external0, esc0)
    ensures Classified(dug, box, internal, external, esc)
  {
    internal, external, esc := internal0, external0, esc0;
    for i := 0 to 4
      invariant Classified(dug, box, internal, external, esc)
    {
      var start := Shift(Dir(i), loc);
      if start in dug || start in internal || start in external {
        continue;
      }
      var cells, out, e := Flood(dug, box, start);
      if out {
        EscapingUnion(external, cells, dug, box, esc, e);
        esc := map y | y in external + cells :: if y in cells then e[y] else esc[y];
        external := external + cells;
      } else {
        ClosedUnion(internal, cells, dug);
        internal := internal + cells;
      }
    }
  }

  /** The outer loop of `solve`: `for loc in dug`, searching around each trench cell. */
  method Fill(dug: set<Loc>, box: Box) returns (internal: set<Loc>, external: set<Loc>, ghost esc: map<Loc, seq<Loc>>)
    ensures Classified(dug, box, internal, external, esc)
  {
    internal, external, esc := {}, {}, map[];
    var remaining := dug;
    while remaining != {}
      invariant Classified(dug, box, internal, external, esc)
      decreases |remaining|
    {
      var loc :| loc in remaining;
      remaining := remaining - {loc};
      internal, external, esc := Around(dug, box, loc, internal, external, esc);
    }
  }

  /** `solve`: the size of the trench together with the ground it shuts in. */
  method Solve(plan: seq<Instruction>)
    returns (res: Result<int>, ghost dug: set<Loc>, ghost box: Box, ghost internal: set<Loc>, ghost external: set<Loc>)
    ensures res.Err? ==> res.fault == AssertionError || res.fault == IndexError
    ensures (res.Err? && res.fault == AssertionError) <==> RowShift(plan) != 0 || ColShift(plan) != 0
    ensures (res.Err? && res.fault == IndexError) <==> RowShift(plan) == 0 && ColShift(plan) == 0 && Steps(plan) == 0
    ensures res.Ok? ==>
              dug == Cells(Trace(Origin, plan)) && Tight(box, dug)
              && internal !! dug && external !! dug && internal !! external
              && Closed(internal, dug) && (forall x :: x in internal ==> InBox(x, box))
              && (forall y :: y in external ==> exists p :: Route(p, dug) && p[0] == y && !InBox(p[|p| - 1], box))
              && res.value == |dug + internal| == |dug| + |internal| >= |dug|
  {
    box, internal, external := Box(0, 0, 0, 0), {}, {};
    FinalDisplacement(Origin, plan);
    TraceLength(Origin, plan);
    var d, loc := Dig(plan);
    dug := d;
    if loc != Origin {
      return Err(AssertionError), dug, box, internal, external;
    }
    var b := Bounds(d);
    if b.Err? {
      CellsEmpty(Trace(Origin, plan));
      return Err(b.fault), dug, box, internal, external;
    }
    box := b.value;
    assert Steps(plan) > 0 by {
      var x :| x in d;
    }
    var inner, outer, esc := Fill(d, b.value);
    internal, external := inner, outer;
    ClosedEscapingDisjoint(inner, outer, d, box, esc);
    forall y | y in outer
      ensures exists p :: Route(p, d) && p[0] == y && !InBox(p[|p| - 1], box)
    {
      var p := esc[y];
      assert Route(p, d) && p[0] == y && !InBox(p[|p| - 1], box);
    }
    var all := d + inner;
    return Ok(|all|), dug, box, internal, external;
  }
}
