/** Day 23: the longest hike through a maze of paths and slopes (day23.py).  The maze is
    reduced to a graph whose nodes are the start, the junctions and the end and whose
    edge weights are the lengths of the trails between them; a depth-first search then
    finds the longest simple path from the start to the end. */
module Day23 {
  import opened Common

  type Loc = (int, int)

  const Tree := '#'
  const Path := '.'

  // ------------------------------------------------------------ directions

  datatype Direction = Right | Down | Left | Up

  /** Member `i` of `Direction`, in declaration order. */
  function Dir(i: nat): Direction
    requires i < 4
  {
    if i == 0 then Right else if i == 1 then Down else if i == 2 then Left else Up
  }

  /** `direction.value`: the (row, column) offset. */
  function Value(d: Direction): Loc
  {
    match d
    case Right => (0, 1)
    case Down => (1, 0)
    case Left => (0, -1)
    case Up => (-1, 0)
  }

  /** `Direction.opposite`: the member whose offset is the negated offset. */
  function Opposite(d: Direction): (o: Direction)
    ensures Value(o) == (-Value(d).0, -Value(d).1)
  {
    match d
    case Right => Left
    case Down => Up
    case Left => Right
    case Up => Down
  }

  /** `Direction.shift`: one step in direction `d`. */
  function Shift(d: Direction, loc: Loc): Loc
  {
    (loc.0 + Value(d).0, loc.1 + Value(d).1)
  }

  /** A step moves exactly one coordinate by one. */
  lemma ShiftAdjacent(d: Direction, loc: Loc)
    ensures Abs(Shift(d, loc).0 - loc.0) + Abs(Shift(d, loc).1 - loc.1) == 1
  {
  }

  /** The offsets tell the members apart, so `opposite` is well defined and turning
      round twice faces the same way again. */
  lemma OppositeInvolution(d: Direction)
    ensures Opposite(Opposite(d)) == d && Opposite(d) != d
    ensures forall e :: Value(e) == Value(d) ==> e == d
  {
  }

  /** A step followed by a step the opposite way comes back. */
  lemma ShiftOpposite(d: Direction, loc: Loc)
    ensures Shift(Opposite(d), Shift(d, loc)) == loc
  {
  }

  /** The four neighbours of a cell are four different cells. */
  lemma ShiftInjective(i: nat, j: nat, loc: Loc)
    requires i < 4 && j < 4 && Shift(Dir(i), loc) == Shift(Dir(j), loc)
    ensures i == j
  {
  }

  predicate IsIce(c: char)
  {
    c == '>' || c == 'v' || c == '<' || c == '^'
  }

  /** `ICE_TO_DIRECTION.get(sym)`. */
  function IceDirection(c: char): (d: Option<Direction>)
    ensures d.Some? <==> IsIce(c)
  {
    match c
    case '>' => Some(Right)
    case 'v' => Some(Down)
    case '<' => Some(Left)
    case '^' => Some(Up)
    case _ => None
  }

  // ------------------------------------------------------------ the grid

  /** A numpy index into an axis of length `n`: negative indices count from the end. */
  function NpIndex(i: int, n: nat): (k: Option<nat>)
    ensures k.Some? <==> -(n as int) <= i < n
    ensures k.Some? ==> k.value < n && (k.value == i || k.value == i + n)
  {
    if 0 <= i < n then Some(i) else if -(n as int) <= i < 0 then Some(i + n) else None
  }

  /** `grid[loc]`, or the `IndexError` numpy raises. */
  function At(g: seq<seq<char>>, w: nat, loc: Loc): (r: Result<char>)
    requires Rect(g, w)
    ensures r.Err? ==> r.fault == IndexError
    ensures 0 <= loc.0 < |g| && 0 <= loc.1 < w ==> r == Ok(g[loc.0][loc.1])
  {
    match NpIndex(loc.0, |g|)
    case None => Err(IndexError)
    case Some(r) =>
      match NpIndex(loc.1, w)
      case None => Err(IndexError)
      case Some(c) => Ok(g[r][c])
  }

  /** A cell of the grid whose four neighbours are in the grid too. */
  predicate Interior(g: seq<seq<char>>, w: nat, loc: Loc)
  {
    1 <= loc.0 < |g| - 1 && 1 <= loc.1 < w - 1
  }

  /** `open_neighbors` after the first `k` directions. */
  function OpenFrom(g: seq<seq<char>>, w: nat, loc: Loc, k: nat): (s: set<Loc>)
    requires Rect(g, w) && Interior(g, w, loc) && k <= 4
  {
    if k == 0 then {}
    else
      var n := Shift(Dir(k - 1), loc);
      OpenFrom(g, w, loc, k - 1) + if g[n.0][n.1] != Tree then {n} else {}
  }

  /** The number of directions, among the first `k`, that lead off a tree. */
  function OpenCount(g: seq<seq<char>>, w: nat, loc: Loc, k: nat): nat
    requires Rect(g, w) && Interior(g, w, loc) && k <= 4
  {
    if k == 0 then 0
    else
      var n := Shift(Dir(k - 1), loc);
      OpenCount(g, w, loc, k - 1) + if g[n.0][n.1] != Tree then 1 else 0
  }

  /** Every open neighbour is one step away in one of the first `k` directions. */
  lemma {:induction false} OpenFromShifts(g: seq<seq<char>>, w: nat, loc: Loc, k: nat, x: Loc)
    requires Rect(g, w) && Interior(g, w, loc) && k <= 4 && x in OpenFrom(g, w, loc, k)
    ensures exists j :: 0 <= j < k && x == Shift(Dir(j), loc)
  {
    if x !in OpenFrom(g, w, loc, k - 1) {
      assert x == Shift(Dir(k - 1), loc);
    } else {
      OpenFromShifts(g, w, loc, k - 1, x);
    }
  }

  /** The set of open neighbours has one member per open direction. */
  lemma {:induction false} OpenFromSize(g: seq<seq<char>>, w: nat, loc: Loc, k: nat)
    requires Rect(g, w) && Interior(g, w, loc) && k <= 4
    ensures |OpenFrom(g, w, loc, k)| == OpenCount(g, w, loc, k)
  {
    if k > 0 {
      OpenFromSize(g, w, loc, k - 1);
      var n := Shift(Dir(k - 1), loc);
      if n in OpenFrom(g, w, loc, k - 1) {
        OpenFromShifts(g, w, loc, k - 1, n);
        var j :| 0 <= j < k - 1 && n == Shift(Dir(j), loc);
        ShiftInjective(j, k - 1, loc);
      }
    }
  }

  /** A junction: an interior path cell whose number of open neighbours is not 2. */
  predicate IsJunction(g: seq<seq<char>>, w: nat, loc: Loc)
    requires Rect(g, w)
  {
    Interior(g, w, loc) && g[loc.0][loc.1] == Path && |OpenFrom(g, w, loc, 4)| != 2
  }

  /** Reference definition of `find_junctions`. */
  function Junctions(g: seq<seq<char>>, w: nat): (js: set<Loc>)
    requires Rect(g, w)
    ensures forall loc :: loc in js <==> IsJunction(g, w, loc)
  {
    set r, c | 1 <= r < |g| - 1 && 1 <= c < w - 1 && IsJunction(g, w, (r, c)) :: (r, c)
  }

  /** A junction is a path cell with 0, 1, 3 or 4 open directions. */
  lemma JunctionOpenCount(g: seq<seq<char>>, w: nat, loc: Loc)
    requires Rect(g, w) && Interior(g, w, loc)
    ensures IsJunction(g, w, loc) <==> g[loc.0][loc.1] == Path && OpenCount(g, w, loc, 4) != 2
  {
    OpenFromSize(g, w, loc, 4);
  }

  /** The loop over the directions in `find_junctions`. */
  method OpenNeighbours(g: seq<seq<char>>, w: nat, loc: Loc) returns (open: set<Loc>)
    requires Rect(g, w) && Interior(g, w, loc)
    ensures open == OpenFrom(g, w, loc, 4)
  {
    open := {};
    for i := 0 to 4
      invariant open == OpenFrom(g, w, loc, i)
    {
      var neighbour := Shift(Dir(i), loc);
      if g[neighbour.0][neighbour.1] != Tree {
        open := open + {neighbour};
      }
    }
  }

  /** The body of the loop over the cells of `find_junctions`. */
  method CheckCell(g: seq<seq<char>>, w: nat, loc: Loc) returns (junction: bool)
    requires Rect(g, w) && Interior(g, w, loc)
    ensures junction == IsJunction(g, w, loc) && junction == (loc in Junctions(g, w))
  {
    if g[loc.0][loc.1] != Path {
      return false;
    }
    var open := OpenNeighbours(g, w, loc);
    return |open| != 2;
  }

  /** `find_junctions`: the nested loops over the interior cells. */
  method FindJunctions(g: seq<seq<char>>, w: nat) returns (js: set<Loc>)
    requires Rect(g, w)
    ensures js == Junctions(g, w)
  {
    ghost var all := Junctions(g, w);
    js := {};
    var r := 1;
    while r < |g| - 1
      invariant 1 <= r
      invariant forall loc :: loc in js <==> loc in all && loc.0 < r
    {
      var c := 1;
      while c < w - 1
        invariant 1 <= c
        invariant forall loc :: loc in js <==> loc in all && (loc.0 < r || (loc.0 == r && loc.1 < c))
      {
        var junction := CheckCell(g, w, (r, c));
        if junction {
          js := js + {(r, c)};
        }
        c := c + 1;
      }
      r := r + 1;
    }
    assert forall loc :: loc in all ==> loc.0 < |g| - 1;
  }

  // ------------------------------------------------------------ sorted(junctions)

  /** Python's ordering of tuples. */
  predicate LocLess(a: Loc, b: Loc)
  {
    a.0 < b.0 || (a.0 == b.0 && a.1 < b.1)
  }

  predicate Increasing(s: seq<Loc>)
  {
    forall i, j :: 0 <= i < j < |s| ==> LocLess(s[i], s[j])
  }

  predicate IsLeast(m: Loc, s: set<Loc>)
  {
    m in s && forall y :: y in s && y != m ==> LocLess(m, y)
  }

  lemma {:induction false} LeastExists(s: set<Loc>)
    requires s != {}
    ensures exists m :: IsLeast(m, s)
    decreases |s|
  {
    var x := HasElement(s);
    if s != {x} {
      LeastExists(s - {x});
      var rest :| IsLeast(rest, s - {x});
      if LocLess(x, rest) {
        forall y | y in s && y != x
          ensures LocLess(x, y)
        {
          assert y in s - {x};
        }
        assert IsLeast(x, s);
      } else {
        assert IsLeast(rest, s);
      }
    } else {
      assert IsLeast(x, s);
    }
  }

  /** The smallest location of a non-empty set. */
  function Least(s: set<Loc>): (m: Loc)
    requires s != {}
    ensures IsLeast(m, s)
  {
    LeastExists(s);
    var m :| IsLeast(m, s);
    m
  }

  /** `sorted(s)`. */
  function SortedSet(s: set<Loc>): (r: seq<Loc>)
    ensures Increasing(r) && |r| == |s| && forall x :: x in r <==> x in s
    decreases |s|
  {
    if s == {} then []
    else
      var m := Least(s);
      [m] + SortedSet(s - {m})
  }

  lemma HeadIn(s: seq<Loc>)
    ensures s != [] ==> s[0] in s
  {
  }

  /** There is only one increasing sequence of a given set of locations, so `SortedSet`
      is the sorted order. */
  lemma {:induction false} SortedUnique(a: seq<Loc>, b: seq<Loc>)
    requires Increasing(a) && Increasing(b) && forall x :: x in a <==> x in b
    ensures a == b
  {
    HeadIn(a);
    HeadIn(b);
    if a != [] && b != [] {
      var i :| 0 <= i < |b| && b[i] == a[0];
      var j :| 0 <= j < |a| && a[j] == b[0];
      assert a[0] == b[0];
      forall x
        ensures x in a[1..] <==> x in b[1..]
      {
        if x in a[1..] {
          var i :| 1 <= i < |a| && a[i] == x;
          assert LocLess(a[0], a[i]);
          assert x in a;
          var j :| 0 <= j < |b| && b[j] == x;
          assert j != 0;
          assert b[1..][j - 1] == x;
        }
        if x in b[1..] {
          var i :| 1 <= i < |b| && b[i] == x;
          assert LocLess(b[0], b[i]);
          assert x in b;
          var j :| 0 <= j < |a| && a[j] == x;
          assert j != 0;
          assert a[1..][j - 1] == x;
        }
      }
      SortedUnique(a[1..], b[1..]);
      assert a == [a[0]] + a[1..] && b == [b[0]] + b[1..];
    }
  }

  // ------------------------------------------------------------ Solver.__init__

  /** What `Solver.__init__` stores: the grid with its width, the start and the end, the
      node order `index_to_junction`, its inverse `junction_to_index`, and `n`. */
  datatype Solver = Solver(grid: seq<seq<char>>, width: nat, start: Loc, end: Loc,
                           order: seq<Loc>, index: map<Loc, nat>, n: nat)

  /** `{junction: i for i, junction in enumerate(order)}` over the first `k` entries: a
      later position overwrites an earlier one. */
  function IndexMap(order: seq<Loc>, k: nat): (m: map<Loc, nat>)
    requires k <= |order|
    ensures forall i :: 0 <= i < k ==> order[i] in m
    ensures forall x :: x in m ==> m[x] < k && order[m[x]] == x
  {
    if k == 0 then map[]
    else IndexMap(order, k - 1)[order[k - 1] := k - 1]
  }

  /** On distinct nodes a node is not yet a key before its own position. */
  lemma IndexMapFresh(order: seq<Loc>, k: nat)
    requires k < |order| && forall i, j :: 0 <= i < j < |order| ==> order[i] != order[j]
    ensures order[k] !in IndexMap(order, k)
  {
  }

  /** On distinct nodes the map is the inverse of the order. */
  lemma {:induction false} IndexMapInverse(order: seq<Loc>, k: nat)
    requires k <= |order| && forall i, j :: 0 <= i < j < |order| ==> order[i] != order[j]
    ensures forall i :: 0 <= i < k ==> order[i] in IndexMap(order, k) && IndexMap(order, k)[order[i]] == i
  {
    if k > 0 {
      IndexMapInverse(order, k - 1);
      var m := IndexMap(order, k - 1);
      var m' := IndexMap(order, k);
      assert m' == m[order[k - 1] := k - 1];
      forall i | 0 <= i < k
        ensures order[i] in m' && m'[order[i]] == i
      {
        if i < k - 1 {
          assert order[i] != order[k - 1];
        }
      }
    }
  }

  /** Adding a new key to a map adds one to its number of keys. */
  lemma KeysAdd(m: map<Loc, nat>, x: Loc, v: nat)
    requires x !in m
    ensures |m[x := v].Keys| == |m.Keys| + 1
  {
    assert m[x := v].Keys == m.Keys + {x};
  }

  /** On distinct nodes the map has one key per node. */
  lemma {:induction false} IndexMapSize(order: seq<Loc>, k: nat)
    requires k <= |order| && forall i, j :: 0 <= i < j < |order| ==> order[i] != order[j]
    ensures |IndexMap(order, k).Keys| == k
  {
    if k > 0 {
      IndexMapSize(order, k - 1);
      IndexMapFresh(order, k - 1);
      KeysAdd(IndexMap(order, k - 1), order[k - 1], k - 1);
    } else {
      assert IndexMap(order, k).Keys == {};
    }
  }

  /** The first `c` cells of a row are trees. */
  predicate TreesBefore(row: seq<char>, c: nat)
    requires c <= |row|
  {
    forall j :: 0 <= j < c ==> row[j] == Tree
  }

  /** The column of the first cell of a row that is not a tree, from column `i` on. */
  function FirstOpenFrom(row: seq<char>, i: nat): (c: Option<nat>)
    requires i <= |row|
    ensures c.Some? ==> i <= c.value < |row| && row[c.value] != Tree && forall j :: i <= j < c.value ==> row[j] == Tree
    ensures c.None? ==> forall j :: i <= j < |row| ==> row[j] == Tree
    decreases |row| - i
  {
    if i == |row| then None else if row[i] != Tree then Some(i) else FirstOpenFrom(row, i + 1)
  }

  /** The `for ... break ... else raise` scan of a row. */
  method ScanRow(row: seq<char>) returns (c: Option<nat>)
    ensures c == FirstOpenFrom(row, 0)
  {
    for i := 0 to |row|
      invariant FirstOpenFrom(row, 0) == FirstOpenFrom(row, i)
    {
      if row[i] != Tree {
        return Some(i);
      }
    }
    return None;
  }

  /** `Solver.__init__` on the grid it keeps. */
  function NewSolver(g: seq<seq<char>>, w: nat): (r: Result<Solver>)
    requires Rect(g, w)
  {
    if |g| == 0 then Err(IndexError)
    else
      match FirstOpenFrom(g[0], 0)
      case None => Err(ValueError)
      case Some(sc) =>
        match FirstOpenFrom(g[|g| - 1], 0)
        case None => Err(ValueError)
        case Some(ec) =>
          var start, end := (0, sc), (|g| - 1, ec);
          var order := [start] + SortedSet(Junctions(g, w)) + [end];
          var index := IndexMap(order, |order|);
          Ok(Solver(g, w, start, end, order, index, |index.Keys|))
  }

  /** Construction fails when the grid has no row (`IndexError`) or when the first or
      the last row is all trees (`ValueError`). */
  lemma NewSolverFails(g: seq<seq<char>>, w: nat)
    requires Rect(g, w)
    ensures NewSolver(g, w).Err? <==> |g| == 0 || TreesBefore(g[0], w) || TreesBefore(g[|g| - 1], w)
    ensures NewSolver(g, w).Err? && |g| > 0 ==> NewSolver(g, w).fault == ValueError
  {
    if |g| > 0 {
      var a, b := FirstOpenFrom(g[0], 0), FirstOpenFrom(g[|g| - 1], 0);
      if a.Some? {
        assert g[0][a.value] != Tree;
      }
      if b.Some? {
        assert g[|g| - 1][b.value] != Tree;
      }
    }
  }

  /** The start is the first open cell of row 0 and the end the first open cell of the
      last row; between them the nodes are the junctions in sorted order. */
  lemma NewSolverNodes(g: seq<seq<char>>, w: nat)
    requires Rect(g, w) && NewSolver(g, w).Ok?
    ensures var s := NewSolver(g, w).value;
            s.start.0 == 0 && 0 <= s.start.1 < w && g[0][s.start.1] != Tree && TreesBefore(g[0], s.start.1) &&
            s.end.0 == |g| - 1 && 0 <= s.end.1 < w && g[|g| - 1][s.end.1] != Tree && TreesBefore(g[|g| - 1], s.end.1) &&
            |s.order| >= 2 && s.order[0] == s.start && s.order[|s.order| - 1] == s.end &&
            Increasing(s.order[1..|s.order| - 1]) &&
            (forall x :: x in s.order[1..|s.order| - 1] <==> IsJunction(g, w, x))
  {
    var s := NewSolver(g, w).value;
    var js := SortedSet(Junctions(g, w));
    assert s.order[1..|s.order| - 1] == js;
  }

  /** `junction_to_index` and `index_to_junction` are inverse to each other, the start
      has index 0, the end the last index, and `n` is the number of nodes. */
  predicate Indexed(s: Solver)
  {
    s.n == |s.order| >= 1 &&
    s.start in s.index && s.index[s.start] == 0 && s.end in s.index && s.index[s.end] == s.n - 1 &&
    (forall i :: 0 <= i < |s.order| ==> s.order[i] in s.index && s.index[s.order[i]] == i) &&
    (forall x :: x in s.index ==> s.index[x] < |s.order| && s.order[s.index[x]] == x)
  }

  /** On distinct nodes the map built over the whole order is its inverse. */
  lemma OrderIndexed(g: seq<seq<char>>, w: nat, start: Loc, end: Loc, order: seq<Loc>)
    requires |order| >= 1 && order[0] == start && order[|order| - 1] == end
    requires forall i, j :: 0 <= i < j < |order| ==> order[i] != order[j]
    ensures var index := IndexMap(order, |order|);
            Indexed(Solver(g, w, start, end, order, index, |index.Keys|))
  {
    IndexMapInverse(order, |order|);
    IndexMapSize(order, |order|);
  }

  /** With at least two rows the start, the junctions and the end are all different,
      so the solver is `Indexed`. */
  lemma NewSolverIndex(g: seq<seq<char>>, w: nat)
    requires Rect(g, w) && NewSolver(g, w).Ok? && |g| >= 2
    ensures Indexed(NewSolver(g, w).value)
  {
    var s := NewSolver(g, w).value;
    NewSolverNodes(g, w);
    var last := |s.order| - 1;
    forall i, j | 0 <= i < j < |s.order|
      ensures s.order[i] != s.order[j]
    {
      if 0 < i && j < last {
        assert s.order[1..last][i - 1] == s.order[i] && s.order[1..last][j - 1] == s.order[j];
      } else if i == 0 && j < last {
        assert s.order[j] in s.order[1..last];
        assert IsJunction(g, w, s.order[j]);
      } else if 0 < i && j == last {
        assert s.order[i] in s.order[1..last];
        assert IsJunction(g, w, s.order[i]);
      }
    }
    OrderIndexed(g, w, s.start, s.end, s.order);
  }

  /** With a single row the start is the end, and the later position wins: the start is
      given index 1 although `n` is 1. */
  lemma NewSolverOneRow(g: seq<seq<char>>, w: nat)
    requires Rect(g, w) && NewSolver(g, w).Ok? && |g| == 1
    ensures var s := NewSolver(g, w).value;
            s.start == s.end && s.order == [s.start, s.end] && s.index[s.start] == 1 && s.n == 1
  {
    var s := NewSolver(g, w).value;
    assert forall loc :: !Interior(g, w, loc);
    var js := Junctions(g, w);
    assert js == {};
    assert SortedSet(js) == [];
    assert s.order == [s.start, s.end];
    assert s.start == s.end;
    var m := IndexMap(s.order, 2);
    assert m == IndexMap(s.order, 1)[s.end := 1];
    assert m == map[s.start := 1];
    assert m.Keys == {s.start};
  }

  /** `ignore_ice`: every slope becomes a path cell. */
  function Melted(g: seq<seq<char>>): (m: seq<seq<char>>)
    ensures |m| == |g| && forall r :: 0 <= r < |g| ==> |m[r]| == |g[r]|
    ensures forall r, c :: 0 <= r < |g| && 0 <= c < |g[r]| ==> m[r][c] == if IsIce(g[r][c]) then Path else g[r][c]
  {
    seq(|g|, r requires 0 <= r < |g| => seq(|g[r]|, c requires 0 <= c < |g[r]| => if IsIce(g[r][c]) then Path else g[r][c]))
  }

  /** The copy that `ignore_ice` rewrites; the caller's grid is left alone. */
  method MeltCopy(input: array2<char>) returns (grid: array2<char>)
    ensures fresh(grid) && unchanged(input)
    ensures Rows(grid) == Melted(Rows(input))
  {
    grid := CopyGrid(input);
    for r := 0 to grid.Length0
      invariant grid.Length0 == input.Length0 && grid.Length1 == input.Length1
      invariant forall r', c :: 0 <= r' < grid.Length0 && 0 <= c < grid.Length1 ==>
                  grid[r', c] == if r' < r && IsIce(input[r', c]) then Path else input[r', c]
    {
      for c := 0 to grid.Length1
        invariant forall r', c' :: 0 <= r' < grid.Length0 && 0 <= c' < grid.Length1 ==>
                    grid[r', c'] == if (r' < r || (r' == r && c' < c)) && IsIce(input[r', c']) then Path else input[r', c']
      {
        if IsIce(grid[r, c]) {
          grid[r, c] := Path;
        }
      }
    }
    assert Rows(grid) == Melted(Rows(input)) by {
      var a, b := Rows(grid), Melted(Rows(input));
      forall r | 0 <= r < grid.Length0
        ensures a[r] == b[r]
      {
        forall c | 0 <= c < grid.Length1
          ensures a[r][c] == b[r][c]
        {
          assert Rows(input)[r][c] == input[r, c];
        }
      }
    }
  }

  /** `Solver.__init__` once the grid to keep is fixed. */
  method Build(g: seq<seq<char>>, w: nat) returns (r: Result<Solver>)
    requires Rect(g, w)
    ensures r == NewSolver(g, w)
  {
    if |g| == 0 {
      return Err(IndexError);
    }
    var startCol := ScanRow(g[0]);
    if startCol.None? {
      return Err(ValueError);
    }
    var endCol := ScanRow(g[|g| - 1]);
    if endCol.None? {
      return Err(ValueError);
    }
    var start, end := (0, startCol.value), (|g| - 1, endCol.value);
    var junctions := FindJunctions(g, w);
    var order := [start] + SortedSet(junctions) + [end];
    var index := IndexMap(order, |order|);
    return Ok(Solver(g, w, start, end, order, index, |index.Keys|));
  }

  /** `Solver.__init__`. */
  method Init(input: array2<char>, ignoreIce: bool) returns (r: Result<Solver>)
    ensures r == NewSolver(if ignoreIce then Melted(Rows(input)) else Rows(input), input.Length1)
  {
    var grid := input;
    if ignoreIce {
      grid := MeltCopy(input);
    }
    r := Build(Rows(grid), grid.Length1);
  }

  // ------------------------------------------------------------ Solver._trailblaze

  /** Whether the walk skips direction `k` at `loc`: the neighbour there was already
      seen, is a tree, or is a slope pointing straight back. */
  predicate Skipped(g: seq<seq<char>>, w: nat, loc: Loc, seen: set<Loc>, k: nat)
    requires Rect(g, w) && k < 4
  {
    var next := Shift(Dir(k), loc);
    next in seen ||
    (At(g, w, next).Ok? && (At(g, w, next).value == Tree || IceDirection(At(g, w, next).value) == Some(Opposite(Dir(k)))))
  }

  /** The `for direction in Direction` scan off a path cell, from direction `i` on: the
      first direction that is not skipped, `None` when all are (the `else` branch), or
      the `IndexError` of reading a neighbour outside the grid. */
  function PickStep(g: seq<seq<char>>, w: nat, loc: Loc, seen: set<Loc>, i: nat): (r: Result<Option<nat>>)
    requires Rect(g, w) && i <= 4
    ensures r.Ok? && r.value.Some? ==> i <= r.value.value < 4
    ensures r.Err? ==> r.fault == IndexError
    decreases 4 - i
  {
    if i == 4 then Ok(None)
    else
      var next := Shift(Dir(i), loc);
      if next in seen then PickStep(g, w, loc, seen, i + 1)
      else
        match At(g, w, next)
        case Err(f) => Err(f)
        case Ok(sym) =>
          if sym == Tree || IceDirection(sym) == Some(Opposite(Dir(i))) then PickStep(g, w, loc, seen, i + 1)
          else Ok(Some(i))
  }

  /** The direction `PickStep` picks is the first one from `i` on that is not
      skipped; `None` means every one is. */
  lemma {:induction false} PickStepFirst(g: seq<seq<char>>, w: nat, loc: Loc, seen: set<Loc>, i: nat)
    requires Rect(g, w) && i <= 4
    ensures var r := PickStep(g, w, loc, seen, i);
            (r.Ok? && r.value.Some? ==>
               !Skipped(g, w, loc, seen, r.value.value) && forall j :: i <= j < r.value.value ==> Skipped(g, w, loc, seen, j)) &&
            (r.Ok? && r.value.None? ==> forall j :: i <= j < 4 ==> Skipped(g, w, loc, seen, j))
    decreases 4 - i
  {
    if i < 4 {
      PickStepFirst(g, w, loc, seen, i + 1);
    }
  }

  /** One step of `_trailblaze` off a cell that is not a node, with `seen` already
      holding that cell: a slope forces its own direction, a path cell takes the first
      direction that is not skipped, and `None` is the dead end. */
  function NextCell(g: seq<seq<char>>, w: nat, loc: Loc, seen: set<Loc>): (r: Result<Option<Loc>>)
    requires Rect(g, w)
    ensures r.Err? ==> r.fault == IndexError
  {
    match At(g, w, loc)
    case Err(f) => Err(f)
    case Ok(sym) =>
      match IceDirection(sym)
      case Some(d) => Ok(Some(Shift(d, loc)))
      case None =>
        match PickStep(g, w, loc, seen, 0)
        case Err(f) => Err(f)
        case Ok(None) => Ok(None)
        case Ok(Some(k)) => Ok(Some(Shift(Dir(k), loc)))
  }

  /** A step of a trail moves to one of the four neighbours. */
  lemma NextCellAdjacent(g: seq<seq<char>>, w: nat, loc: Loc, seen: set<Loc>)
    requires Rect(g, w) && NextCell(g, w, loc, seen).Ok? && NextCell(g, w, loc, seen).value.Some?
    ensures exists i :: 0 <= i < 4 && NextCell(g, w, loc, seen).value.value == Shift(Dir(i), loc)
    ensures Abs(NextCell(g, w, loc, seen).value.value.0 - loc.0) + Abs(NextCell(g, w, loc, seen).value.value.1 - loc.1) == 1
  {
    var sym := At(g, w, loc).value;
    var d := if IceDirection(sym).Some? then IceDirection(sym).value else Dir(PickStep(g, w, loc, seen, 0).value.value);
    ShiftAdjacent(d, loc);
    var i := match d case Right => 0 case Down => 1 case Left => 2 case Up => 3;
    assert Dir(i) == d;
  }

  /** Reference definition of `_trailblaze` from `loc` with `steps` counted so far:
      the node the trail reaches and the trail's length, `None` at a dead end, or an
      error.  `fuel` bounds the number of steps. */
  function TrailFrom(g: seq<seq<char>>, w: nat, index: map<Loc, nat>, loc: Loc, seen: set<Loc>, steps: int, fuel: nat)
    : (r: Result<Option<(Loc, int)>>)
    requires Rect(g, w)
    decreases fuel
  {
    if loc in index then Ok(Some((loc, steps)))
    else if fuel == 0 then Err(OutOfFuel)
    else
      match NextCell(g, w, loc, seen + {loc})
      case Err(f) => Err(f)
      case Ok(None) => Ok(None)
      case Ok(Some(next)) => TrailFrom(g, w, index, next, seen + {loc}, steps + 1, fuel - 1)
  }

  /** A trail ends on a node, after at least as many steps as it started with and at
      most one more per unit of fuel. */
  lemma {:induction false} TrailFromEnds(g: seq<seq<char>>, w: nat, index: map<Loc, nat>, loc: Loc, seen: set<Loc>, steps: int, fuel: nat)
    requires Rect(g, w) && TrailFrom(g, w, index, loc, seen, steps, fuel).Ok? && TrailFrom(g, w, index, loc, seen, steps, fuel).value.Some?
    ensures TrailFrom(g, w, index, loc, seen, steps, fuel).value.value.0 in index
    ensures steps <= TrailFrom(g, w, index, loc, seen, steps, fuel).value.value.1 <= steps + fuel
    decreases fuel
  {
    if loc !in index {
      var next := NextCell(g, w, loc, seen + {loc});
      TrailFromStep(g, w, index, loc, seen, steps, fuel);
      TrailFromEnds(g, w, index, next.value.value, seen + {loc}, steps + 1, fuel - 1);
    }
  }

  /** A trail fails only by reading outside the grid or by running out of fuel. */
  lemma {:induction false} TrailFromFaults(g: seq<seq<char>>, w: nat, index: map<Loc, nat>, loc: Loc, seen: set<Loc>, steps: int, fuel: nat)
    requires Rect(g, w) && TrailFrom(g, w, index, loc, seen, steps, fuel).Err?
    ensures TrailFrom(g, w, index, loc, seen, steps, fuel).fault == IndexError ||
            TrailFrom(g, w, index, loc, seen, steps, fuel).fault == OutOfFuel
    decreases fuel
  {
    if loc !in index && fuel > 0 {
      var next := NextCell(g, w, loc, seen + {loc});
      if next.Err? {
        assert TrailFrom(g, w, index, loc, seen, steps, fuel) == Err(next.fault);
      } else {
        TrailFromStep(g, w, index, loc, seen, steps, fuel);
        TrailFromFaults(g, w, index, next.value.value, seen + {loc}, steps + 1, fuel - 1);
      }
    }
  }

  /** One step of a trail off a cell that is not a node. */
  lemma TrailFromStep(g: seq<seq<char>>, w: nat, index: map<Loc, nat>, loc: Loc, seen: set<Loc>, steps: int, fuel: nat)
    requires Rect(g, w) && loc !in index && fuel > 0
    requires NextCell(g, w, loc, seen + {loc}).Ok? && NextCell(g, w, loc, seen + {loc}).value.Some?
    ensures TrailFrom(g, w, index, loc, seen, steps, fuel) ==
            TrailFrom(g, w, index, NextCell(g, w, loc, seen + {loc}).value.value, seen + {loc}, steps + 1, fuel - 1)
  {
  }

  /** A trail that starts on a node ends there at once. */
  lemma TrailFromNode(g: seq<seq<char>>, w: nat, index: map<Loc, nat>, loc: Loc, seen: set<Loc>, steps: int, fuel: nat)
    requires Rect(g, w) && loc in index
    ensures TrailFrom(g, w, index, loc, seen, steps, fuel) == Ok(Some((loc, steps)))
  {
  }

  /** The direction scan of `_trailblaze`. */
  method ScanDirections(g: seq<seq<char>>, w: nat, loc: Loc, seen: set<Loc>) returns (r: Result<Option<nat>>)
    requires Rect(g, w)
    ensures r == PickStep(g, w, loc, seen, 0)
  {
    for i := 0 to 4
      invariant PickStep(g, w, loc, seen, 0) == PickStep(g, w, loc, seen, i)
    {
      var next := Shift(Dir(i), loc);
      if next !in seen {
        var sym := At(g, w, next);
        if sym.Err? {
          return Err(sym.fault);
        }
        if sym.value == Tree {
          continue;
        }
        if IceDirection(sym.value) == Some(Opposite(Dir(i))) {
          continue;
        }
        return Ok(Some(i));
      }
    }
    return Ok(None);
  }

  /** One step of the loop of `_trailblaze`. */
  method Step(g: seq<seq<char>>, w: nat, loc: Loc, seen: set<Loc>) returns (r: Result<Option<Loc>>)
    requires Rect(g, w)
    ensures r == NextCell(g, w, loc, seen)
  {
    var sym := At(g, w, loc);
    if sym.Err? {
      return Err(sym.fault);
    }
    var ice := IceDirection(sym.value);
    if ice.Some? {
      return Ok(Some(Shift(ice.value, loc)));
    }
    var k := ScanDirections(g, w, loc, seen);
    if k.Err? {
      return Err(k.fault);
    }
    if k.value.None? {
      return Ok(None);
    }
    return Ok(Some(Shift(Dir(k.value.value), loc)));
  }

  /** `Solver._trailblaze`, walking at most `fuel` steps.  The caller's `seen` is a
      value here. */
  method Trailblaze(s: Solver, loc: Loc, seen: set<Loc>, fuel: nat) returns (r: Result<Option<(Loc, int)>>)
    requires Rect(s.grid, s.width)
    ensures r == TrailFrom(s.grid, s.width, s.index, loc, seen, 1, fuel)
  {
    var steps := 1;
    var cur, marked, left := loc, seen, fuel;
    while cur !in s.index
      invariant TrailFrom(s.grid, s.width, s.index, cur, marked, steps, left) == TrailFrom(s.grid, s.width, s.index, loc, seen, 1, fuel)
      decreases left
    {
      if left == 0 {
        return Err(OutOfFuel);
      }
      var next := Step(s.grid, s.width, cur, marked + {cur});
      if next.Err? {
        return Err(next.fault);
      }
      if next.value.None? {
        return Ok(None);
      }
      TrailFromStep(s.grid, s.width, s.index, cur, marked, steps, left);
      marked := marked + {cur};
      steps := steps + 1;
      cur := next.value.value;
      left := left - 1;
    }
    return Ok(Some((cur, steps)));
  }

  // ------------------------------------------------------------ Solver.dfs_longest

  /** The node indices `0 .. n-1`. */
  function Range(n: nat): set<nat>
  {
    if n == 0 then {} else Range(n - 1) + {n - 1}
  }

  /** `Range(n)` holds exactly the indices below `n`, and `n` of them. */
  lemma {:induction false} InRange(n: nat, k: int)
    ensures k in Range(n) <==> 0 <= k < n
    ensures |Range(n)| == n
  {
    if n > 0 {
      InRange(n - 1, k);
      InRange(n - 1, n - 1);
    }
  }

  /** Every node of `visited` is an index below `n`. */
  predicate Within(visited: set<nat>, n: nat)
  {
    forall v :: v in visited ==> v < n
  }

  /** A set of indices below `n` has at most `n` members. */
  lemma WithinSize(visited: set<nat>, n: nat)
    requires Within(visited, n)
    ensures |visited| <= n
  {
    forall v | v in visited
      ensures v in Range(n)
    {
      InRange(n, v);
    }
    InRange(n, 0);
    assert |visited| <= |Range(n)| by {
      SubsetSize(visited, Range(n));
    }
  }

  /** A subset has no more members than its superset. */
  lemma {:induction false} SubsetSize(a: set<nat>, b: set<nat>)
    requires a <= b
    ensures |a| <= |b|
    decreases |b|
  {
    if a != {} {
      var x :| x in a;
      SubsetSize(a - {x}, b - {x});
    }
  }

  /** A square adjacency matrix: `adj[a][b]` is the length of the trail from node `a`
      to node `b`, 0 for none. */
  predicate Square(adj: seq<seq<int>>)
  {
    forall a :: 0 <= a < |adj| ==> |adj[a]| == |adj|
  }

  /** Visiting one more node leaves fewer nodes to visit. */
  lemma Unvisited(n: nat, visited: set<nat>, k: nat)
    requires Within(visited, n) && k < n && k !in visited
    ensures Within(visited + {k}, n) && |visited + {k}| == |visited| + 1 <= n
  {
    WithinSize(visited + {k}, n);
  }

  /** `if longest is None or result > longest: longest = result`, after `result is
      None` has been skipped. */
  function Better(longest: Option<int>, result: Option<int>): (b: Option<int>)
    ensures b.None? <==> longest.None? && result.None?
    ensures b.Some? ==> (b == longest || b == result) &&
                        (longest.Some? ==> longest.value <= b.value) && (result.Some? ==> result.value <= b.value)
  {
    if result.None? then longest
    else if longest.None? || result.value > longest.value then result
    else longest
  }

  /** Reference definition of `dfs_longest(adjacency, cur, d, visited)` with `end` the
      index of the end node. */
  function Longest(adj: seq<seq<int>>, end: nat, cur: nat, d: int, visited: set<nat>): Option<int>
    requires Square(adj) && cur < |adj| && Within(visited, |adj|)
    decreases |adj| - |visited|, 1, 0
  {
    if cur == end then Some(d) else LongestUpTo(adj, end, cur, d, visited, |adj|)
  }

  /** The loop of `dfs_longest` over the first `j` entries of row `cur`. */
  function LongestUpTo(adj: seq<seq<int>>, end: nat, cur: nat, d: int, visited: set<nat>, j: nat): Option<int>
    requires Square(adj) && cur < |adj| && Within(visited, |adj|) && j <= |adj|
    decreases |adj| - |visited|, 0, j
  {
    if j == 0 then None
    else
      var best := LongestUpTo(adj, end, cur, d, visited, j - 1);
      var k := j - 1;
      if adj[cur][k] == 0 || k in visited then best
      else
        Unvisited(|adj|, visited, k);
        Better(best, Longest(adj, end, k, d + adj[cur][k], visited + {k}))
  }

  /** One more entry `k` of the loop of `dfs_longest`, when it is followed. */
  lemma LongestUpToStep(adj: seq<seq<int>>, end: nat, cur: nat, d: int, visited: set<nat>, k: nat, dist: int)
    requires Square(adj) && cur < |adj| && Within(visited, |adj|) && k < |adj|
    requires dist == adj[cur][k] != 0 && k !in visited
    ensures Within(visited + {k}, |adj|)
    ensures LongestUpTo(adj, end, cur, d, visited, k + 1) ==
            Better(LongestUpTo(adj, end, cur, d, visited, k), Longest(adj, end, k, d + dist, visited + {k}))
  {
    Unvisited(|adj|, visited, k);
  }

  /** An entry `k` that is 0, or leads back into `visited`, is passed over. */
  lemma LongestUpToSkip(adj: seq<seq<int>>, end: nat, cur: nat, d: int, visited: set<nat>, k: nat)
    requires Square(adj) && cur < |adj| && Within(visited, |adj|) && k < |adj|
    requires adj[cur][k] == 0 || k in visited
    ensures LongestUpTo(adj, end, cur, d, visited, k + 1) == LongestUpTo(adj, end, cur, d, visited, k)
  {
  }

  /** The total length of the trails along the node sequence `p` (a step off the
      graph, which no walk takes, counts as 0). */
  function Weight(adj: seq<seq<int>>, p: seq<nat>): int
    requires Square(adj)
  {
    if |p| <= 1 then 0
    else (if p[0] < |adj| && p[1] < |adj| then adj[p[0]][p[1]] else 0) + Weight(adj, p[1..])
  }

  /** A walk that `dfs_longest(adjacency, cur, d, visited)` explores, step by step as
      the search takes it: it starts at `cur`, stops at the first visit of `end`, and
      otherwise follows a nonzero entry to a node outside `visited`, which the rest of
      the walk then treats as visited. */
  predicate Walk(adj: seq<seq<int>>, end: nat, visited: set<nat>, cur: nat, p: seq<nat>)
    requires Square(adj)
    decreases |p|
  {
    |p| >= 1 && p[0] == cur && cur < |adj| &&
    if |p| == 1 then cur == end
    else cur != end && p[1] < |adj| && adj[cur][p[1]] != 0 && p[1] !in visited &&
         Walk(adj, end, visited + {p[1]}, p[1], p[1..])
  }

  /** A walk of the search from `cur` whose second node is below `j`. */
  predicate ViaBelow(adj: seq<seq<int>>, end: nat, visited: set<nat>, cur: nat, p: seq<nat>, j: nat)
    requires Square(adj)
  {
    Walk(adj, end, visited, cur, p) && |p| >= 2 && p[1] < j
  }

  /** The rest of a walk after its first step is a walk from the second node. */
  lemma WalkTail(adj: seq<seq<int>>, end: nat, visited: set<nat>, cur: nat, p: seq<nat>)
    requires Square(adj) && Walk(adj, end, visited, cur, p) && |p| >= 2
    ensures Walk(adj, end, visited + {p[1]}, p[1], p[1..])
    ensures Weight(adj, p) == adj[cur][p[1]] + Weight(adj, p[1..])
  {
  }

  /** A first step to `k` followed by a walk from `k` is a walk whose second node
      is `k`. */
  lemma WalkCons(adj: seq<seq<int>>, end: nat, visited: set<nat>, cur: nat, k: nat, q: seq<nat>)
    requires Square(adj) && cur < |adj| && k < |adj| && cur != end && adj[cur][k] != 0 && k !in visited
    requires Walk(adj, end, visited + {k}, k, q)
    ensures ViaBelow(adj, end, visited, cur, [cur] + q, k + 1)
    ensures Weight(adj, [cur] + q) == adj[cur][k] + Weight(adj, q)
  {
    assert ([cur] + q)[1..] == q;
  }

  /** Reference definition of the walks explored by `dfs_longest`, as one condition
      on the whole sequence: it starts at `cur` and ends at `end`, every step follows a
      nonzero entry, no node before the last is `end`, and after its first node the
      walk visits each node at most once and none of `visited`. */
  predicate IsPathFrom(adj: seq<seq<int>>, end: nat, visited: set<nat>, cur: nat, p: seq<nat>)
    requires Square(adj)
  {
    |p| >= 1 && p[0] == cur && p[|p| - 1] == end &&
    (forall i :: 0 <= i < |p| ==> p[i] < |adj|) &&
    (forall i :: 0 <= i < |p| - 1 ==> p[i] != end && adj[p[i]][p[i + 1]] != 0) &&
    (forall i :: 1 <= i < |p| ==> p[i] !in visited) &&
    (forall i, j :: 1 <= i < j < |p| ==> p[i] != p[j])
  }

  /** Dropping the first node of a path leaves a path from its second node with that
      node visited. */
  lemma PathTail(adj: seq<seq<int>>, end: nat, visited: set<nat>, cur: nat, p: seq<nat>)
    requires Square(adj) && IsPathFrom(adj, end, visited, cur, p) && |p| >= 2
    ensures IsPathFrom(adj, end, visited + {p[1]}, p[1], p[1..])
  {
    var q := p[1..];
    forall i, j | 1 <= i < j < |q|
      ensures q[i] != q[j]
    {
      assert q[i] == p[i + 1] && q[j] == p[j + 1];
    }
    forall i | 1 <= i < |q|
      ensures q[i] !in visited + {p[1]}
    {
      assert q[i] == p[i + 1];
    }
    forall i | 0 <= i < |q| - 1
      ensures q[i] != end && adj[q[i]][q[i + 1]] != 0
    {
      assert q[i] == p[i + 1] && q[i + 1] == p[i + 2];
    }
  }

  /** A step from `cur` to a node `k` outside `visited` followed by a path from `k` is
      a path from `cur`. */
  lemma PathCons(adj: seq<seq<int>>, end: nat, visited: set<nat>, cur: nat, k: nat, q: seq<nat>)
    requires Square(adj) && cur < |adj| && cur != end && k !in visited
    requires IsPathFrom(adj, end, visited + {k}, k, q) && adj[cur][k] != 0
    ensures IsPathFrom(adj, end, visited, cur, [cur] + q)
  {
    var p := [cur] + q;
    assert p[1..] == q;
    forall i, j | 1 <= i < j < |p|
      ensures p[i] != p[j]
    {
      assert p[i] == q[i - 1] && p[j] == q[j - 1];
    }
    forall i | 0 <= i < |p| - 1
      ensures p[i] != end && adj[p[i]][p[i + 1]] != 0
    {
      if i > 0 {
        assert p[i] == q[i - 1] && p[i + 1] == q[i];
      }
    }
  }

  /** The walks of the search are exactly the paths of the reference definition. */
  lemma {:induction false} WalkIsPath(adj: seq<seq<int>>, end: nat, visited: set<nat>, cur: nat, p: seq<nat>)
    requires Square(adj)
    ensures Walk(adj, end, visited, cur, p) <==> IsPathFrom(adj, end, visited, cur, p)
    decreases |p|
  {
    if |p| > 1 {
      WalkIsPath(adj, end, visited + {p[1]}, p[1], p[1..]);
      if IsPathFrom(adj, end, visited, cur, p) {
        PathTail(adj, end, visited, cur, p);
      }
      if Walk(adj, end, visited, cur, p) {
        assert [cur] + p[1..] == p;
        PathCons(adj, end, visited, cur, p[1], p[1..]);
      }
    }
  }

  /** No walk from `cur` is longer than what `dfs_longest` returns, and it returns
      `None` only when there is no walk. */
  lemma {:induction false} LongestBound(adj: seq<seq<int>>, end: nat, cur: nat, d: int, visited: set<nat>, p: seq<nat>)
    requires Square(adj) && cur < |adj| && Within(visited, |adj|) && Walk(adj, end, visited, cur, p)
    ensures Longest(adj, end, cur, d, visited).Some? && d + Weight(adj, p) <= Longest(adj, end, cur, d, visited).value
    decreases |p|, 1, 0
  {
    if cur != end {
      LongestUpToBound(adj, end, cur, d, visited, |adj|, p);
    }
  }

  /** The loop of `dfs_longest` after `j` entries has a value at least as great as
      every walk whose second node is below `j`. */
  lemma {:induction false} LongestUpToBound(adj: seq<seq<int>>, end: nat, cur: nat, d: int, visited: set<nat>, j: nat, p: seq<nat>)
    requires Square(adj) && cur < |adj| && Within(visited, |adj|) && j <= |adj| && cur != end
    requires ViaBelow(adj, end, visited, cur, p, j)
    ensures LongestUpTo(adj, end, cur, d, visited, j).Some?
    ensures d + Weight(adj, p) <= LongestUpTo(adj, end, cur, d, visited, j).value
    decreases |p|, 0, j
  {
    var k := j - 1;
    WalkTail(adj, end, visited, cur, p);
    if p[1] < k {
      LongestUpToBound(adj, end, cur, d, visited, k, p);
    }
    if adj[cur][k] != 0 && k !in visited {
      LongestUpToStep(adj, end, cur, d, visited, k, adj[cur][k]);
      if p[1] == k {
        LongestBound(adj, end, k, d + adj[cur][k], visited + {k}, p[1..]);
      }
    }
  }

  /** When `dfs_longest` returns a value, some walk from `cur` attains it. */
  lemma {:induction false} LongestWitness(adj: seq<seq<int>>, end: nat, cur: nat, d: int, visited: set<nat>) returns (p: seq<nat>)
    requires Square(adj) && cur < |adj| && Within(visited, |adj|) && Longest(adj, end, cur, d, visited).Some?
    ensures Walk(adj, end, visited, cur, p) && d + Weight(adj, p) == Longest(adj, end, cur, d, visited).value
    decreases |adj| - |visited|, 1, 0
  {
    if cur == end {
      p := [cur];
    } else {
      p := LongestUpToWitness(adj, end, cur, d, visited, |adj|);
    }
  }

  /** When the loop of `dfs_longest` after `j` entries holds a value, some walk whose
      second node is below `j` attains it. */
  lemma {:induction false} LongestUpToWitness(adj: seq<seq<int>>, end: nat, cur: nat, d: int, visited: set<nat>, j: nat)
    returns (p: seq<nat>)
    requires Square(adj) && cur < |adj| && Within(visited, |adj|) && j <= |adj| && cur != end
    requires LongestUpTo(adj, end, cur, d, visited, j).Some?
    ensures ViaBelow(adj, end, visited, cur, p, j) && d + Weight(adj, p) == LongestUpTo(adj, end, cur, d, visited, j).value
    decreases |adj| - |visited|, 0, j
  {
    var k := j - 1;
    var best := LongestUpTo(adj, end, cur, d, visited, k);
    if adj[cur][k] == 0 || k in visited {
      p := LongestUpToWitness(adj, end, cur, d, visited, k);
    } else {
      LongestUpToStep(adj, end, cur, d, visited, k, adj[cur][k]);
      Unvisited(|adj|, visited, k);
      var res := Longest(adj, end, k, d + adj[cur][k], visited + {k});
      if best.Some? && LongestUpTo(adj, end, cur, d, visited, j) == best {
        p := LongestUpToWitness(adj, end, cur, d, visited, k);
      } else {
        var q := LongestWitness(adj, end, k, d + adj[cur][k], visited + {k});
        WalkCons(adj, end, visited, cur, k, q);
        p := [cur] + q;
      }
    }
  }

  /** `dfs_longest` returns the greatest `d` plus walk length over the walks from
      `cur` it explores, and `None` exactly when there is no such walk. */
  lemma LongestIsMax(adj: seq<seq<int>>, end: nat, cur: nat, d: int, visited: set<nat>)
    requires Square(adj) && cur < |adj| && Within(visited, |adj|)
    ensures Longest(adj, end, cur, d, visited).None? ==> forall p :: !Walk(adj, end, visited, cur, p)
    ensures Longest(adj, end, cur, d, visited).Some? ==>
              (exists p :: Walk(adj, end, visited, cur, p) && d + Weight(adj, p) == Longest(adj, end, cur, d, visited).value) &&
              (forall p :: Walk(adj, end, visited, cur, p) ==> d + Weight(adj, p) <= Longest(adj, end, cur, d, visited).value)
  {
    if Longest(adj, end, cur, d, visited).Some? {
      var p := LongestWitness(adj, end, cur, d, visited);
      forall p | Walk(adj, end, visited, cur, p)
        ensures d + Weight(adj, p) <= Longest(adj, end, cur, d, visited).value
      {
        LongestBound(adj, end, cur, d, visited, p);
      }
    } else {
      forall p
        ensures !Walk(adj, end, visited, cur, p)
      {
        if Walk(adj, end, visited, cur, p) {
          LongestBound(adj, end, cur, d, visited, p);
        }
      }
    }
  }

  /** The walks from the start with only the start visited are the simple paths from
      the start to the end that meet the end only at their last node. */
  predicate SimplePath(adj: seq<seq<int>>, end: nat, start: nat, p: seq<nat>)
    requires Square(adj)
  {
    |p| >= 1 && p[0] == start && p[|p| - 1] == end &&
    (forall i :: 0 <= i < |p| ==> p[i] < |adj|) &&
    (forall i :: 0 <= i < |p| - 1 ==> p[i] != end && adj[p[i]][p[i + 1]] != 0) &&
    (forall i, j :: 0 <= i < j < |p| ==> p[i] != p[j])
  }

  lemma SimplePathWalk(adj: seq<seq<int>>, end: nat, start: nat, p: seq<nat>)
    requires Square(adj)
    ensures SimplePath(adj, end, start, p) <==> Walk(adj, end, {start}, start, p)
  {
    WalkIsPath(adj, end, {start}, start, p);
  }

  /** `dfs_longest(adjacency, start, 0, {start})` is the length of the longest simple
      path from the start to the end, and `None` when there is none. */
  lemma LongestSimplePath(adj: seq<seq<int>>, end: nat, start: nat)
    requires Square(adj) && start < |adj|
    ensures Longest(adj, end, start, 0, {start}).None? ==> forall p :: !SimplePath(adj, end, start, p)
    ensures Longest(adj, end, start, 0, {start}).Some? ==>
              (exists p :: SimplePath(adj, end, start, p) && Weight(adj, p) == Longest(adj, end, start, 0, {start}).value) &&
              (forall p :: SimplePath(adj, end, start, p) ==> Weight(adj, p) <= Longest(adj, end, start, 0, {start}).value)
  {
    LongestIsMax(adj, end, start, 0, {start});
    forall p
      ensures SimplePath(adj, end, start, p) <==> Walk(adj, end, {start}, start, p)
    {
      SimplePathWalk(adj, end, start, p);
    }
  }

  /** The matrix `m` holds the square adjacency `adj`. */
  predicate Holds(m: array2<int>, adj: seq<seq<int>>)
    reads m
  {
    Square(adj) && m.Length0 == |adj| && m.Length1 == |adj| &&
    forall i, j :: 0 <= i < |adj| && 0 <= j < |adj| ==> m[i, j] == adj[i][j]
  }

  /** `Solver.dfs_longest`; `adj` is the content of the matrix, which the search only
      reads. */
  method DfsLongest(adjacency: array2<int>, ghost adj: seq<seq<int>>, end: nat, cur: nat, d: int, visited: set<nat>)
    returns (longest: Option<int>)
    requires Holds(adjacency, adj) && cur < |adj| && Within(visited, |adj|)
    ensures longest == Longest(adj, end, cur, d, visited)
    decreases |adj| - |visited|
  {
    if cur == end {
      return Some(d);
    }
    longest := None;
    for next := 0 to adjacency.Length1
      invariant longest == LongestUpTo(adj, end, cur, d, visited, next)
    {
      var dist := adjacency[cur, next];
      assert dist == adj[cur][next];
      if dist == 0 || next in visited {
        LongestUpToSkip(adj, end, cur, d, visited, next);
        assert longest == LongestUpTo(adj, end, cur, d, visited, next + 1);
        continue;
      }
      Unvisited(|adj|, visited, next);
      LongestUpToStep(adj, end, cur, d, visited, next, dist);
      var result := DfsLongest(adjacency, adj, end, next, d + dist, visited + {next});
      longest := Better(longest, result);
      assert longest == LongestUpTo(adj, end, cur, d, visited, next + 1);
    }
  }

  // ------------------------------------------------------------ Solver.solve

  /** The leg `solve` follows from the node `x`: for `i < 4` the trail that leaves `x`
      in direction `Dir(i)`, `None` when that neighbour is a tree or a slope pointing
      back at `x`; `i == 4` stands for the first leg, straight down from the start. */
  function LegFrom(s: Solver, x: Loc, i: nat, fuel: nat): Result<Option<(Loc, int)>>
    requires Rect(s.grid, s.width) && i <= 4
  {
    if i == 4 then TrailFrom(s.grid, s.width, s.index, Shift(Down, x), {x}, 1, fuel)
    else
      var next := Shift(Dir(i), x);
      match At(s.grid, s.width, next)
      case Err(f) => Err(f)
      case Ok(sym) =>
        if sym == Tree || IceDirection(sym) == Some(Opposite(Dir(i))) then Ok(None)
        else TrailFrom(s.grid, s.width, s.index, next, {x}, 1, fuel)
  }

  /** A leg ends on a node after at least one step and at most one more per unit of
      fuel, and fails only by reading outside the grid or by running out of fuel. */
  lemma LegEnds(s: Solver, x: Loc, i: nat, fuel: nat)
    requires Rect(s.grid, s.width) && i <= 4
    ensures LegFrom(s, x, i, fuel).Ok? && LegFrom(s, x, i, fuel).value.Some? ==>
              LegFrom(s, x, i, fuel).value.value.0 in s.index && 1 <= LegFrom(s, x, i, fuel).value.value.1 <= 1 + fuel
    ensures LegFrom(s, x, i, fuel).Err? ==> LegFrom(s, x, i, fuel).fault == IndexError || LegFrom(s, x, i, fuel).fault == OutOfFuel
  {
    var loc := if i == 4 then Shift(Down, x) else Shift(Dir(i), x);
    var t := TrailFrom(s.grid, s.width, s.index, loc, {x}, 1, fuel);
    if t.Ok? && t.value.Some? {
      TrailFromEnds(s.grid, s.width, s.index, loc, {x}, 1, fuel);
    }
    if t.Err? {
      TrailFromFaults(s.grid, s.width, s.index, loc, {x}, 1, fuel);
    }
  }

  /** The body of the direction loop of `solve`, up to the trail it follows. */
  method Leg(s: Solver, x: Loc, i: nat, fuel: nat) returns (r: Result<Option<(Loc, int)>>)
    requires Rect(s.grid, s.width) && i < 4
    ensures r == LegFrom(s, x, i, fuel)
  {
    var next := Shift(Dir(i), x);
    var sym := At(s.grid, s.width, next);
    if sym.Err? {
      return Err(sym.fault);
    }
    if sym.value == Tree {
      return Ok(None);
    }
    if IceDirection(sym.value) == Some(Opposite(Dir(i))) {
      return Ok(None);
    }
    r := Trailblaze(s, next, {x}, fuel);
  }

  /** Why an entry of the adjacency matrix holds what it holds: the leg from `from` in
      direction `dir` reaches `to` after `steps` steps. */
  datatype Entry = Entry(from: Loc, dir: nat, to: Loc, steps: int)

  /** The entry `e` accounts for `adjacency[a, b]`: it is a leg from the node with index
      `a` to the node with index `b`. */
  predicate Explains(s: Solver, fuel: nat, a: int, b: int, e: Entry)
    requires Rect(s.grid, s.width)
  {
    e.dir <= 4 && (e.dir == 4 ==> e.from == s.start) &&
    e.from in s.index && s.index[e.from] == a && e.to in s.index && s.index[e.to] == b &&
    LegFrom(s, e.from, e.dir, fuel) == Ok(Some((e.to, e.steps)))
  }

  /** Some leg of length `st` leads from the node with index `a` to the node with
      index `b`. */
  ghost predicate Traced(s: Solver, fuel: nat, a: int, b: int, st: int)
    requires Rect(s.grid, s.width)
  {
    exists e :: Explains(s, fuel, a, b, e) && e.steps == st
  }

  /** Every nonzero entry of `m` is positive and explained by its record in `why`. */
  predicate Recorded(s: Solver, fuel: nat, m: array2<int>, why: map<(int, int), Entry>)
    requires Rect(s.grid, s.width)
    reads m
  {
    (forall a, b :: 0 <= a < m.Length0 && 0 <= b < m.Length1 && m[a, b] != 0 ==>
       (a, b) in why && why[(a, b)].steps == m[a, b] && 1 <= m[a, b]) &&
    (forall k {:trigger Explains(s, fuel, k.0, k.1, why[k])} :: k in why ==> Explains(s, fuel, k.0, k.1, why[k]))
  }

  /** Searching a new node leaves fewer nodes to search. */
  lemma Shrinks(keys: set<Loc>, seen: set<Loc>, x: Loc)
    requires x in keys && x !in seen
    ensures |keys - (seen + {x})| < |keys - seen|
  {
    assert keys - seen == (keys - (seen + {x})) + {x};
  }

  /** Popping an already searched node leaves fewer searched nodes waiting. */
  lemma Drops(t: set<Loc>, seen: set<Loc>, x: Loc)
    requires x in t && x in seen
    ensures |(t - {x}) * seen| < |t * seen|
  {
    assert t * seen == ((t - {x}) * seen) + {x};
  }

  /** The node the leg from `x` numbered `i` reaches, if it reaches one. */
  function LegEnd(s: Solver, x: Loc, i: nat, fuel: nat): Option<Loc>
    requires Rect(s.grid, s.width) && i <= 4
  {
    var leg := LegFrom(s, x, i, fuel);
    if leg.Ok? && leg.value.Some? then Some(leg.value.value.0) else None
  }

  /** Every position of `marked` lies in `m` and holds a positive entry. */
  predicate Marked(m: array2<int>, marked: set<(int, int)>)
    reads m
  {
    forall p :: p in marked ==> 0 <= p.0 < m.Length0 && 0 <= p.1 < m.Length1 && m[p.0, p.1] >= 1
  }

  /** The first `k` legs from `x` (index `xi`) that reach a node reach one of `reach`,
      and their entry in the matrix is among the `marked` positions. */
  ghost predicate LegsKept(s: Solver, fuel: nat, x: Loc, xi: int, reach: set<Loc>, marked: set<(int, int)>, k: nat)
    requires Rect(s.grid, s.width) && k <= 4
  {
    forall j :: 0 <= j < k && LegEnd(s, x, j, fuel).Some? ==>
      LegEnd(s, x, j, fuel).value in reach && LegEnd(s, x, j, fuel).value in s.index &&
      (xi, s.index[LegEnd(s, x, j, fuel).value]) in marked
  }

  /** Kept legs stay kept as the reached nodes and the marked positions grow. */
  lemma LegsKeptGrow(s: Solver, fuel: nat, x: Loc, xi: int, reach: set<Loc>, marked: set<(int, int)>,
                     reach': set<Loc>, marked': set<(int, int)>)
    requires Rect(s.grid, s.width) && LegsKept(s, fuel, x, xi, reach, marked, 4)
    requires reach <= reach' && marked <= marked'
    ensures LegsKept(s, fuel, x, xi, reach', marked', 4)
  {
  }

  /** A leg that reaches no node keeps nothing to be kept. */
  lemma LegsKeptNone(s: Solver, fuel: nat, x: Loc, xi: int, reach: set<Loc>, marked: set<(int, int)>, i: nat)
    requires Rect(s.grid, s.width) && i < 4 && LegsKept(s, fuel, x, xi, reach, marked, i)
    requires LegEnd(s, x, i, fuel).None?
    ensures LegsKept(s, fuel, x, xi, reach, marked, i + 1)
  {
  }

  /** Recording leg `i` to the node `y` extends the kept legs by one. */
  lemma LegsKeptNext(s: Solver, fuel: nat, x: Loc, xi: int, reach: set<Loc>, marked: set<(int, int)>, i: nat,
                     y: Loc, reach': set<Loc>, marked': set<(int, int)>)
    requires Rect(s.grid, s.width) && i < 4 && LegsKept(s, fuel, x, xi, reach, marked, i)
    requires reach <= reach' && marked <= marked'
    requires LegEnd(s, x, i, fuel) == Some(y) && y in reach' && y in s.index && (xi, s.index[y]) in marked'
    ensures LegsKept(s, fuel, x, xi, reach', marked', i + 1)
  {
  }

  /** `adjacency[a, b] = n_steps` for the leg `e`, with its record. */
  method RecordLeg(s: Solver, fuel: nat, adjacency: array2<int>, a: int, b: int, e: Entry,
                   ghost why0: map<(int, int), Entry>, ghost marked0: set<(int, int)>)
    returns (ghost why: map<(int, int), Entry>, ghost marked: set<(int, int)>)
    requires Rect(s.grid, s.width) && 0 <= a < adjacency.Length0 && 0 <= b < adjacency.Length1
    requires Explains(s, fuel, a, b, e) && 1 <= e.steps
    requires Recorded(s, fuel, adjacency, why0) && Marked(adjacency, marked0)
    modifies adjacency
    ensures adjacency[a, b] == e.steps
    ensures why == why0[(a, b) := e] && Recorded(s, fuel, adjacency, why)
    ensures marked == marked0 + {(a, b)} && Marked(adjacency, marked)
  {
    adjacency[a, b] := e.steps;
    why, marked := why0[(a, b) := e], marked0 + {(a, b)};
  }

  /** The node `z` keeps all four of its legs in `reach` and `marked`. */
  ghost predicate NodeKept(s: Solver, fuel: nat, z: Loc, reach: set<Loc>, marked: set<(int, int)>)
    requires Rect(s.grid, s.width)
  {
    z in s.index && LegsKept(s, fuel, z, s.index[z], reach, marked, 4)
  }

  /** Every searched node but the start and the end keeps its legs in `reach` and
      `marked`. */
  ghost predicate SearchedKept(s: Solver, fuel: nat, searched: set<Loc>, reach: set<Loc>, marked: set<(int, int)>)
    requires Rect(s.grid, s.width)
  {
    forall z {:trigger NodeKept(s, fuel, z, reach, marked)} :: z in searched && z != s.start && z != s.end ==>
      NodeKept(s, fuel, z, reach, marked)
  }

  /** After searching the node `x`, every searched node keeps its legs in the grown
      sets: those searched before by growth, `x` by its own search unless it is the end. */
  lemma KeptAfter(s: Solver, fuel: nat, before: set<Loc>, waiting: set<Loc>, marked1: set<(int, int)>, x: Loc,
                  searched: set<Loc>, toSearch: set<Loc>, marked: set<(int, int)>)
    requires Rect(s.grid, s.width) && x in s.index && SearchedKept(s, fuel, before, before + waiting, marked1)
    requires searched == before + {x} && before + waiting <= searched + toSearch && marked1 <= marked
    requires x != s.end ==> LegsKept(s, fuel, x, s.index[x], searched + toSearch, marked, 4)
    ensures SearchedKept(s, fuel, searched, searched + toSearch, marked)
  {
    forall z | z in searched && z != s.start && z != s.end
      ensures NodeKept(s, fuel, z, searched + toSearch, marked)
    {
      if z != x {
        assert NodeKept(s, fuel, z, before + waiting, marked1);
        LegsKeptGrow(s, fuel, z, s.index[z], before + waiting, marked1, searched + toSearch, marked);
      }
    }
  }

  /** The direction loop of `solve` from the node `x` with index `xi`: it records the
      legs from `x` in `adjacency` and adds the nodes they reach that are not yet
      searched to `toSearch`; `fail` is the error that stops it. */
  method Explore(s: Solver, fuel: nat, adjacency: array2<int>, x: Loc, xi: nat, searched: set<Loc>,
                 waiting: set<Loc>, ghost known: map<(int, int), Entry>, ghost marked0: set<(int, int)>)
    returns (fail: Option<Fault>, toSearch: set<Loc>, ghost why: map<(int, int), Entry>, ghost marked: set<(int, int)>)
    requires Rect(s.grid, s.width) && adjacency.Length0 == s.n && adjacency.Length1 == s.n
    requires x in s.index && s.index[x] == xi && waiting <= s.index.Keys
    requires Recorded(s, fuel, adjacency, known) && Marked(adjacency, marked0)
    modifies adjacency
    ensures fail.Some? ==> fail.value == IndexError || fail.value == OutOfFuel
    ensures fail.None? ==> toSearch <= s.index.Keys && waiting <= toSearch && toSearch * searched == waiting * searched
    ensures fail.None? ==> Recorded(s, fuel, adjacency, why)
    ensures fail.None? ==> Marked(adjacency, marked) && marked0 <= marked
    ensures fail.None? ==> LegsKept(s, fuel, x, xi, searched + toSearch, marked, 4)
  {
    toSearch, why, marked := waiting, known, marked0;
    for i := 0 to 4
      invariant toSearch <= s.index.Keys && waiting <= toSearch && toSearch * searched == waiting * searched
      invariant Recorded(s, fuel, adjacency, why)
      invariant Marked(adjacency, marked) && marked0 <= marked
      invariant LegsKept(s, fuel, x, xi, searched + toSearch, marked, i)
    {
      fail, toSearch, why, marked := ExploreLeg(s, fuel, adjacency, x, xi, i, searched, toSearch, why, marked);
      if fail.Some? {
        return;
      }
    }
    return None, toSearch, why, marked;
  }

  /** One pass of the direction loop of `solve`: follow the leg from `x` numbered `i`
      and, if it reaches a node, record it and queue the node unless it is searched. */
  method ExploreLeg(s: Solver, fuel: nat, adjacency: array2<int>, x: Loc, xi: nat, i: nat, searched: set<Loc>,
                    waiting: set<Loc>, ghost why0: map<(int, int), Entry>, ghost marked0: set<(int, int)>)
    returns (fail: Option<Fault>, toSearch: set<Loc>, ghost why: map<(int, int), Entry>, ghost marked: set<(int, int)>)
    requires Rect(s.grid, s.width) && adjacency.Length0 == s.n && adjacency.Length1 == s.n && i < 4
    requires x in s.index && s.index[x] == xi && waiting <= s.index.Keys
    requires Recorded(s, fuel, adjacency, why0) && Marked(adjacency, marked0)
    requires LegsKept(s, fuel, x, xi, searched + waiting, marked0, i)
    modifies adjacency
    ensures fail.Some? ==> fail.value == IndexError || fail.value == OutOfFuel
    ensures fail.None? ==> toSearch <= s.index.Keys && waiting <= toSearch && toSearch * searched == waiting * searched
    ensures fail.None? ==> Recorded(s, fuel, adjacency, why)
    ensures fail.None? ==> Marked(adjacency, marked) && marked0 <= marked
    ensures fail.None? ==> LegsKept(s, fuel, x, xi, searched + toSearch, marked, i + 1)
  {
    toSearch, why, marked := waiting, why0, marked0;
    var leg := Leg(s, x, i, fuel);
    LegEnds(s, x, i, fuel);
    if leg.Err? {
      return Some(leg.fault), toSearch, why, marked;
    }
    if leg.value.None? {
      LegsKeptNone(s, fuel, x, xi, searched + toSearch, marked, i);
      return None, toSearch, why, marked;
    }
    var (y, st) := leg.value.value;
    var yi := s.index[y];
    if xi >= s.n || yi >= s.n {
      return Some(IndexError), toSearch, why, marked;
    }
    why, marked := RecordLeg(s, fuel, adjacency, xi, yi, Entry(x, i, y, st), why, marked);
    if y !in searched {
      toSearch := toSearch + {y};
    }
    LegsKeptNext(s, fuel, x, xi, searched + waiting, marked0, i, y, searched + toSearch, marked);
    fail := None;
  }

  /** The worklist loop of `solve`, from the node `first` the first leg reached, with
      only the start searched; `fail` is the error that stops it.  Which node
      `to_search.pop()` returns is left open. */
  method Search(s: Solver, fuel: nat, adjacency: array2<int>, first: Loc, ghost known: map<(int, int), Entry>,
                ghost marked0: set<(int, int)>)
    returns (fail: Option<Fault>, ghost why: map<(int, int), Entry>, ghost reached: set<Loc>, ghost marked: set<(int, int)>)
    requires Rect(s.grid, s.width) && adjacency.Length0 == s.n && adjacency.Length1 == s.n
    requires first in s.index && Recorded(s, fuel, adjacency, known) && Marked(adjacency, marked0)
    modifies adjacency
    ensures fail.Some? ==> fail.value == IndexError || fail.value == OutOfFuel
    ensures fail.None? ==> Recorded(s, fuel, adjacency, why)
    ensures fail.None? ==> Marked(adjacency, marked) && marked0 <= marked
    ensures fail.None? ==> s.start in reached && first in reached && SearchedKept(s, fuel, reached, reached, marked)
  {
    why, marked := known, marked0;
    var searched, toSearch := {s.start}, {first};
    while toSearch != {}
      invariant toSearch <= s.index.Keys && s.start in searched && first in searched + toSearch
      invariant Recorded(s, fuel, adjacency, why)
      invariant Marked(adjacency, marked) && marked0 <= marked
      invariant SearchedKept(s, fuel, searched, searched + toSearch, marked)
      decreases |s.index.Keys - searched|, |toSearch * searched|
    {
      var stop;
      var x;
      stop, x, searched, toSearch, why, marked := Visit(s, fuel, adjacency, searched, toSearch, why, marked);
      if stop.Some? {
        return stop, why, searched, marked;
      }
    }
    assert searched + toSearch == searched;
    return None, why, searched, marked;
  }

  /** One pass of the worklist loop of `solve`: pop a node, mark it searched and,
      unless it is the end, explore it. */
  method Visit(s: Solver, fuel: nat, adjacency: array2<int>, before: set<Loc>, waiting: set<Loc>,
               ghost why0: map<(int, int), Entry>, ghost marked0: set<(int, int)>)
    returns (stop: Option<Fault>, x: Loc, searched: set<Loc>, toSearch: set<Loc>,
             ghost why: map<(int, int), Entry>, ghost marked: set<(int, int)>)
    requires Rect(s.grid, s.width) && adjacency.Length0 == s.n && adjacency.Length1 == s.n
    requires waiting != {} && waiting <= s.index.Keys
    requires Recorded(s, fuel, adjacency, why0) && Marked(adjacency, marked0)
    requires SearchedKept(s, fuel, before, before + waiting, marked0)
    modifies adjacency
    ensures stop.Some? ==> stop.value == IndexError || stop.value == OutOfFuel
    ensures stop.None? ==> SearchedKept(s, fuel, searched, searched + toSearch, marked)
    ensures stop.None? ==> x in s.index && searched == before + {x} && toSearch <= s.index.Keys
    ensures stop.None? ==> before + waiting <= searched + toSearch
    ensures stop.None? ==> Recorded(s, fuel, adjacency, why) && Marked(adjacency, marked) && marked0 <= marked
    ensures stop.None? && x != s.end ==> LegsKept(s, fuel, x, s.index[x], searched + toSearch, marked, 4)
    ensures stop.None? ==> |s.index.Keys - searched| < |s.index.Keys - before| ||
                           (searched == before && |toSearch * searched| < |waiting * before|)
  {
    x :| x in waiting;
    toSearch := waiting - {x};
    ghost var rest := toSearch;
    searched := before + {x};
    why, marked := why0, marked0;
    if x != s.end {
      stop, toSearch, why, marked := Explore(s, fuel, adjacency, x, s.index[x], searched, toSearch, why, marked);
      if stop.Some? {
        return;
      }
    }
    stop := None;
    KeptAfter(s, fuel, before, waiting, marked0, x, searched, toSearch, marked);
    if x !in before {
      Shrinks(s.index.Keys, before, x);
    } else {
      assert searched == before;
      Drops(waiting, before, x);
      assert toSearch * searched == rest * before;
    }
  }

  /** The nonzero entries of a recorded matrix, read as rows, are traced legs. */
  lemma RecordedTraced(s: Solver, fuel: nat, adjacency: array2<int>, why: map<(int, int), Entry>)
    requires Rect(s.grid, s.width) && Recorded(s, fuel, adjacency, why)
    ensures forall a, b :: 0 <= a < adjacency.Length0 && 0 <= b < adjacency.Length1 && Rows(adjacency)[a][b] != 0 ==>
              1 <= Rows(adjacency)[a][b] && Traced(s, fuel, a, b, Rows(adjacency)[a][b])
  {
    forall a, b | 0 <= a < adjacency.Length0 && 0 <= b < adjacency.Length1 && Rows(adjacency)[a][b] != 0
      ensures 1 <= Rows(adjacency)[a][b] && Traced(s, fuel, a, b, Rows(adjacency)[a][b])
    {
      assert Rows(adjacency)[a][b] == adjacency[a, b];
      assert Explains(s, fuel, a, b, why[(a, b)]);
    }
  }

  /** `graph` has a nonzero entry from the node `x` to the node `y`. */
  ghost predicate Edge(s: Solver, graph: seq<seq<int>>, x: Loc, y: Loc)
  {
    x in s.index && y in s.index && 0 <= s.index[x] < |graph| && 0 <= s.index[y] < |graph[s.index[x]]| &&
    graph[s.index[x]][s.index[y]] != 0
  }

  /** `reached` holds the start and is closed under legs, and `graph` has an entry for
      every leg out of it: the first leg down from the start, and every leg from every
      other node of `reached` but the end. */
  ghost predicate LegsRecorded(s: Solver, fuel: nat, graph: seq<seq<int>>, reached: set<Loc>)
    requires Rect(s.grid, s.width)
  {
    s.start in reached && LegEnd(s, s.start, 4, fuel).Some? &&
    LegEnd(s, s.start, 4, fuel).value in reached && Edge(s, graph, s.start, LegEnd(s, s.start, 4, fuel).value) &&
    forall x, j :: x in reached && x != s.start && x != s.end && 0 <= j < 4 && LegEnd(s, x, j, fuel).Some? ==>
      LegEnd(s, x, j, fuel).value in reached && Edge(s, graph, x, LegEnd(s, x, j, fuel).value)
  }

  /** The marked positions of a matrix are positive entries of its rows. */
  lemma MarkedRows(m: array2<int>, graph: seq<seq<int>>, marked: set<(int, int)>)
    requires Marked(m, marked) && Holds(m, graph)
    ensures forall p :: p in marked ==> 0 <= p.0 < |graph| && 0 <= p.1 < |graph[p.0]| && graph[p.0][p.1] >= 1
  {
    forall p | p in marked
      ensures 0 <= p.0 < |graph| && 0 <= p.1 < |graph[p.0]| && graph[p.0][p.1] >= 1
    {
      assert m[p.0, p.1] == graph[p.0][p.1];
    }
  }

  /** Kept legs whose marked positions hold positive entries of `graph` are recorded in it. */
  lemma KeptRecorded(s: Solver, fuel: nat, graph: seq<seq<int>>, reached: set<Loc>, marked: set<(int, int)>, first: Loc)
    requires Rect(s.grid, s.width)
    requires forall p :: p in marked ==> 0 <= p.0 < |graph| && 0 <= p.1 < |graph[p.0]| && graph[p.0][p.1] >= 1
    requires s.start in reached && s.start in s.index && first in reached && first in s.index
    requires LegEnd(s, s.start, 4, fuel) == Some(first) && (s.index[s.start], s.index[first]) in marked
    requires SearchedKept(s, fuel, reached, reached, marked)
    ensures LegsRecorded(s, fuel, graph, reached)
  {
    forall x, j | x in reached && x != s.start && x != s.end && 0 <= j < 4 && LegEnd(s, x, j, fuel).Some?
      ensures LegEnd(s, x, j, fuel).value in reached && Edge(s, graph, x, LegEnd(s, x, j, fuel).value)
    {
      assert NodeKept(s, fuel, x, reached, marked);
    }
  }

  /** `Solver.solve`, with every trail at most `fuel` steps long: on success it returns
      `dfs_longest` from the start over the adjacency matrix `graph` it built, and every
      nonzero entry of `graph` is the length of a leg between the two nodes.  `graph`
      is the matrix as the search reads it. */
  method Solve(s: Solver, fuel: nat) returns (res: Result<Option<int>>, ghost graph: seq<seq<int>>, ghost reached: set<Loc>)
    requires Rect(s.grid, s.width)
    ensures res.Err? ==> res.fault == IndexError || res.fault == KeyError || res.fault == AssertionError || res.fault == OutOfFuel
    ensures res.Ok? ==>
              |graph| == s.n && Square(graph) && s.start in s.index && s.end in s.index &&
              s.index[s.start] < s.n &&
              res.value == Longest(graph, s.index[s.end], s.index[s.start], 0, {s.index[s.start]}) &&
              forall a, b :: 0 <= a < s.n && 0 <= b < s.n && graph[a][b] != 0 ==> 1 <= graph[a][b] && Traced(s, fuel, a, b, graph[a][b])
    ensures res.Ok? ==> LegsRecorded(s, fuel, graph, reached)
  {
    graph, reached := [], {};
    var fault, adjacency, first;
    ghost var why, marked;
    fault, adjacency, first, why, reached, marked := FillAdjacency(s, fuel);
    if fault.Some? {
      return Err(fault.value), graph, reached;
    }
    if s.end !in s.index {
      return Err(KeyError), graph, reached;
    }
    graph := Rows(adjacency);
    assert Holds(adjacency, graph) by {
      forall i, j | 0 <= i < s.n && 0 <= j < s.n
        ensures adjacency[i, j] == graph[i][j]
      {
        assert graph[i] == RowOf(adjacency, i);
      }
    }
    var a := s.index[s.start];
    var longest := DfsLongest(adjacency, graph, s.index[s.end], a, 0, {a});
    RecordedTraced(s, fuel, adjacency, why);
    MarkedRows(adjacency, graph, marked);
    KeptRecorded(s, fuel, graph, reached, marked, first);
    return Ok(longest), graph, reached;
  }

  /** The part of `solve` that fills the adjacency matrix: the first leg down from the
      start, then the worklist loop from the node it reaches. */
  method FillAdjacency(s: Solver, fuel: nat)
    returns (fault: Option<Fault>, adjacency: array2<int>, first: Loc, ghost why: map<(int, int), Entry>,
             ghost reached: set<Loc>, ghost marked: set<(int, int)>)
    requires Rect(s.grid, s.width)
    ensures fresh(adjacency) && adjacency.Length0 == s.n && adjacency.Length1 == s.n
    ensures fault.Some? ==> fault.value in {IndexError, KeyError, AssertionError, OutOfFuel}
    ensures fault.None? ==>
              s.start in s.index && s.index[s.start] < s.n && first in s.index &&
              LegEnd(s, s.start, 4, fuel) == Some(first) && (s.index[s.start], s.index[first]) in marked
    ensures fault.None? ==> Recorded(s, fuel, adjacency, why) && Marked(adjacency, marked)
    ensures fault.None? ==> s.start in reached && first in reached && SearchedKept(s, fuel, reached, reached, marked)
  {
    why, reached, marked := map[], {}, {};
    adjacency := new int[s.n, s.n]((i, j) => 0);
    var discovery := Trailblaze(s, Shift(Down, s.start), {s.start}, fuel);
    LegEnds(s, s.start, 4, fuel);
    first := s.start;
    if discovery.Err? {
      return Some(discovery.fault), adjacency, first, why, reached, marked;
    }
    if discovery.value.None? {
      return Some(AssertionError), adjacency, first, why, reached, marked;
    }
    var steps;
    first, steps := discovery.value.value.0, discovery.value.value.1;
    if s.start !in s.index {
      return Some(KeyError), adjacency, first, why, reached, marked;
    }
    var a, b := s.index[s.start], s.index[first];
    if a >= s.n || b >= s.n {
      return Some(IndexError), adjacency, first, why, reached, marked;
    }
    adjacency[a, b] := steps;
    why, marked := map[(a, b) := Entry(s.start, 4, first, steps)], {(a, b)};
    var fail;
    ghost var marked1 := marked;
    fail, why, reached, marked := Search(s, fuel, adjacency, first, why, marked);
    if fail.Some? {
      return fail, adjacency, first, why, reached, marked;
    }
    assert (a, b) in marked1;
    return None, adjacency, first, why, reached, marked;
  }
}
