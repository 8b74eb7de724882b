/** Day 14: a platform of round rocks ('O', balls), cube rocks ('#') and empty
    space ('.').  Tilting it north rolls every ball up its column until it meets a
    cube rock, another ball or the top edge; the load counts each ball by its
    distance from the bottom edge. */
module Day14 {
  import opened Common

  const Empty := '.'
  const Rock := '#'
  const Ball := 'O'

  predicate IsCell(x: char)
  {
    x == Empty || x == Rock || x == Ball
  }

  predicate ValidUpTo(col: seq<char>, r: nat)
    requires r <= |col|
  {
    forall k :: 0 <= k < r ==> IsCell(col[k])
  }

  predicate ValidColumn(col: seq<char>)
  {
    ValidUpTo(col, |col|)
  }

  /** The number of balls among the first `k` cells of a column or row. */
  function BallsBefore(s: seq<char>, k: nat): (n: nat)
    requires k <= |s|
    ensures n <= k
  {
    if k == 0 then 0 else BallsBefore(s, k - 1) + (if s[k - 1] == Ball then 1 else 0)
  }

  function Balls(s: seq<char>): nat
  {
    BallsBefore(s, |s|)
  }

  lemma {:induction false} BallsEmptyRun(s: seq<char>, a: nat, b: nat)
    requires a <= b <= |s|
    requires forall k :: a <= k < b ==> s[k] == Empty
    ensures BallsBefore(s, b) == BallsBefore(s, a)
    decreases b
  {
    if a < b {
      BallsEmptyRun(s, a, b - 1);
    }
  }

  lemma {:induction false} BallsMonotone(s: seq<char>, a: nat, b: nat)
    requires a <= b <= |s|
    ensures BallsBefore(s, a) <= BallsBefore(s, b)
    decreases b
  {
    if a < b {
      BallsMonotone(s, a, b - 1);
    }
  }

  /** Two columns that agree on their first `n` cells count the same balls there. */
  lemma {:induction false} BallsAgree(s: seq<char>, t: seq<char>, n: nat)
    requires n <= |s| && n <= |t|
    requires forall k :: 0 <= k < n ==> s[k] == t[k]
    ensures forall k :: 0 <= k <= n ==> BallsBefore(s, k) == BallsBefore(t, k)
  {
    if n > 0 {
      BallsAgree(s, t, n - 1);
    }
  }

  /** The column while it is being tilted: its cells, and `r_last_obstacle`, the
      row of the lowest rock or ball seen so far (-1 for the top edge). */
  datatype Progress = Progress(cells: seq<char>, last: int)

  /** One pass of the inner loop of `solve`, at row `r` holding `x`: an empty cell
      is skipped, a rock becomes the last obstacle, a ball is lifted out of row `r`
      and dropped just below the last obstacle, which it then becomes. */
  function Next(p: Progress, r: nat, x: char): (q: Progress)
    requires r < |p.cells| && -1 <= p.last < r
    ensures |q.cells| == |p.cells| && -1 <= q.last <= r
    ensures forall k :: r < k < |p.cells| ==> q.cells[k] == p.cells[k]
  {
    if x == Empty then p
    else if x == Rock then Progress(p.cells, r)
    else Progress(p.cells[r := Empty][p.last + 1 := Ball], p.last + 1)
  }

  /** The column after the inner loop of `solve` has visited rows `0 .. r - 1`. */
  function TiltPrefix(col: seq<char>, r: nat): (p: Progress)
    requires r <= |col| && ValidUpTo(col, r)
    ensures |p.cells| == |col| && -1 <= p.last < r
    ensures forall k :: r <= k < |col| ==> p.cells[k] == col[k]
  {
    if r == 0 then Progress(col, -1)
    else Next(TiltPrefix(col, r - 1), r - 1, col[r - 1])
  }

  /** The column after tilting north. */
  function Tilt(col: seq<char>): (t: seq<char>)
    requires ValidColumn(col)
    ensures |t| == |col| && ValidColumn(t)
  {
    TiltPrefixInv(col, |col|);
    TiltPrefix(col, |col|).cells
  }

  /** Every ball rests directly below a rock, another ball or the top edge. */
  predicate Settled(s: seq<char>)
  {
    forall k :: 0 < k < |s| && s[k] == Ball ==> s[k - 1] != Empty
  }

  /** The visited rows `0 .. r - 1` hold valid cells, and rocks exactly where the
      column had them. */
  predicate Shape(col: seq<char>, r: nat, p: Progress)
    requires r <= |col| && |p.cells| == |col|
  {
    && (forall k :: 0 <= k < r ==> IsCell(p.cells[k]))
    && (forall k :: 0 <= k < r ==> (p.cells[k] == Rock <==> col[k] == Rock))
  }

  /** Below the last obstacle the visited rows are empty; above it every ball rests
      on something. */
  predicate Packed(r: nat, p: Progress)
    requires |p.cells| >= r && -1 <= p.last < r
  {
    && (forall k :: p.last < k < r ==> p.cells[k] == Empty)
    && (p.last >= 0 ==> p.cells[p.last] != Empty)
    && (forall k :: 0 < k <= p.last && p.cells[k] == Ball ==> p.cells[k - 1] != Empty)
  }

  /** The visited rows hold the balls the column had there, pushed upwards. */
  predicate Counted(col: seq<char>, r: nat, p: Progress)
    requires r <= |col| && |p.cells| == |col| && -1 <= p.last < r
  {
    && BallsBefore(p.cells, p.last + 1) == BallsBefore(col, r)
    && (forall k :: 0 <= k <= r ==> BallsBefore(p.cells, k) >= BallsBefore(col, k))
  }

  predicate Inv(col: seq<char>, r: nat, p: Progress)
    requires r <= |col| && |p.cells| == |col| && -1 <= p.last < r
  {
    Shape(col, r, p) && Packed(r, p) && Counted(col, r, p)
  }

  lemma StepEmpty(col: seq<char>, r: nat, p: Progress)
    requires r < |col| && |p.cells| == |col| && -1 <= p.last < r
    requires col[r] == Empty && p.cells[r] == col[r]
    requires Inv(col, r, p)
    ensures Inv(col, r + 1, p)
  {
  }

  lemma StepRock(col: seq<char>, r: nat, p: Progress)
    requires r < |col| && |p.cells| == |col| && -1 <= p.last < r
    requires col[r] == Rock && p.cells[r] == col[r]
    requires Inv(col, r, p)
    ensures Inv(col, r + 1, Progress(p.cells, r))
  {
    var q := Progress(p.cells, r);
    assert Shape(col, r + 1, q);
    assert Packed(r + 1, q);
    BallsEmptyRun(p.cells, p.last + 1, r);
    assert Counted(col, r + 1, q);
  }

  lemma StepBallShape(col: seq<char>, r: nat, p: Progress)
    requires r < |col| && |p.cells| == |col| && -1 <= p.last < r
    requires col[r] == Ball && p.cells[r] == col[r]
    requires Shape(col, r, p) && Packed(r, p)
    ensures Shape(col, r + 1, Progress(p.cells[r := Empty][p.last + 1 := Ball], p.last + 1))
    ensures Packed(r + 1, Progress(p.cells[r := Empty][p.last + 1 := Ball], p.last + 1))
  {
  }

  lemma StepBallCounted(col: seq<char>, r: nat, p: Progress)
    requires r < |col| && |p.cells| == |col| && -1 <= p.last < r
    requires col[r] == Ball && p.cells[r] == col[r]
    requires Packed(r, p) && Counted(col, r, p)
    ensures Counted(col, r + 1, Progress(p.cells[r := Empty][p.last + 1 := Ball], p.last + 1))
  {
    var d := p.last + 1;
    var q := p.cells[r := Empty][d := Ball];
    BallsAgree(q, p.cells, d);
    assert BallsBefore(q, d + 1) == BallsBefore(col, r + 1);
    forall k | 0 <= k <= r + 1
      ensures BallsBefore(q, k) >= BallsBefore(col, k)
    {
      if k > d {
        BallsEmptyRun(q, d + 1, k);
        BallsMonotone(col, k, r + 1);
      }
    }
  }

  lemma {:induction false} TiltPrefixInv(col: seq<char>, r: nat)
    requires r <= |col| && ValidUpTo(col, r)
    ensures Inv(col, r, TiltPrefix(col, r))
  {
    if r > 0 {
      TiltPrefixInv(col, r - 1);
      StepInv(col, r - 1, TiltPrefix(col, r - 1));
    }
  }

  lemma StepInv(col: seq<char>, r: nat, p: Progress)
    requires r < |col| && |p.cells| == |col| && -1 <= p.last < r
    requires IsCell(col[r]) && p.cells[r] == col[r]
    requires Inv(col, r, p)
    ensures Inv(col, r + 1, Next(p, r, col[r]))
  {
    var x := col[r];
    if x == Empty {
      StepEmpty(col, r, p);
    } else if x == Rock {
      StepRock(col, r, p);
    } else {
      StepBallShape(col, r, p);
      StepBallCounted(col, r, p);
    }
  }

  /** Tilting keeps every cube rock where it is and every ball in its column, moves
      balls only upwards (every prefix of the column holds at least as many balls as
      before), and leaves the column settled. */
  lemma TiltProperties(col: seq<char>)
    requires ValidColumn(col)
    ensures |Tilt(col)| == |col| && ValidColumn(Tilt(col))
    ensures forall k :: 0 <= k < |col| ==> (Tilt(col)[k] == Rock <==> col[k] == Rock)
    ensures Balls(Tilt(col)) == Balls(col)
    ensures forall k :: 0 <= k <= |col| ==> BallsBefore(Tilt(col), k) >= BallsBefore(col, k)
    ensures Settled(Tilt(col))
  {
    var n := |col|;
    var p := TiltPrefix(col, n);
    TiltPrefixInv(col, n);
    BallsEmptyRun(p.cells, p.last + 1, n);
  }

  /** The row of the lowest rock or ball among rows `0 .. r - 1`, or -1. */
  function LastObstacle(col: seq<char>, r: nat): (l: int)
    requires r <= |col|
    ensures -1 <= l < r
  {
    if r == 0 then -1
    else if col[r - 1] != Empty then r - 1
    else LastObstacle(col, r - 1)
  }

  lemma {:induction false} TiltPrefixSettled(col: seq<char>, r: nat)
    requires r <= |col| && ValidColumn(col) && Settled(col)
    ensures TiltPrefix(col, r) == Progress(col, LastObstacle(col, r))
  {
    if r > 0 {
      TiltPrefixSettled(col, r - 1);
      if col[r - 1] == Ball {
        assert LastObstacle(col, r - 1) == r - 2;
        assert col[r - 1 := Empty][r - 1 := Ball] == col;
      }
    }
  }

  /** A settled column does not move. */
  lemma TiltSettled(col: seq<char>)
    requires ValidColumn(col) && Settled(col)
    ensures Tilt(col) == col
  {
    TiltPrefixSettled(col, |col|);
  }

  /** Tilting twice is tilting once. */
  lemma TiltIdempotent(col: seq<char>)
    requires ValidColumn(col)
    ensures Tilt(Tilt(col)) == Tilt(col)
  {
    TiltProperties(col);
    TiltSettled(Tilt(col));
  }

  // ---------------------------------------------------------------- the platform

  function ColumnOf(a: array2<char>, c: nat): (col: seq<char>)
    requires c < a.Length1
    reads a
    ensures |col| == a.Length0
  {
    seq(a.Length0, r requires 0 <= r < a.Length0 reads a => a[r, c])
  }

  predicate ValidPlatform(a: array2<char>)
    reads a
  {
    forall r, c :: 0 <= r < a.Length0 && 0 <= c < a.Length1 ==> IsCell(a[r, c])
  }

  /** The platform as a sequence of columns. */
  function Columns(a: array2<char>): (cols: seq<seq<char>>)
    reads a
    ensures |cols| == a.Length1
    ensures forall c :: 0 <= c < a.Length1 ==> cols[c] == ColumnOf(a, c)
  {
    seq(a.Length1, c requires 0 <= c < a.Length1 reads a => ColumnOf(a, c))
  }


  /** The rows of a platform of height `n` after every column has been tilted. */
  function TiltNorth(cols: seq<seq<char>>, n: nat): (rows: seq<seq<char>>)
    requires forall c :: 0 <= c < |cols| ==> |cols[c]| == n && ValidColumn(cols[c])
    ensures |rows| == n && Rect(rows, |cols|)
  {
    seq(n, r requires 0 <= r < n =>
      seq(|cols|, c requires 0 <= c < |cols| => Tilt(cols[c])[r]))
  }

  /** The load of rows `k ..` of an `n`-row platform: every ball in row `r` counts
      `n - r`. */
  function LoadFrom(rows: seq<seq<char>>, k: nat): int
    requires k <= |rows|
    decreases |rows| - k
  {
    if k == |rows| then 0 else CellLoad(rows[k], |rows| - k) + LoadFrom(rows, k + 1)
  }

  /** The sum of `weight` over the balls among the first `k` cells of one row. */
  function CellLoadBefore(row: seq<char>, weight: int, k: nat): int
    requires k <= |row|
  {
    if k == 0 then 0 else CellLoadBefore(row, weight, k - 1) + (if row[k - 1] == Ball then weight else 0)
  }

  function CellLoad(row: seq<char>, weight: int): int
  {
    CellLoadBefore(row, weight, |row|)
  }

  /** `count * load`: a row's balls all weigh the same. */
  lemma {:induction false} CellLoadBalls(row: seq<char>, weight: int, k: nat)
    requires k <= |row|
    ensures CellLoadBefore(row, weight, k) == BallsBefore(row, k) * weight
  {
    if k > 0 {
      CellLoadBalls(row, weight, k - 1);
    }
  }

  function Load(rows: seq<seq<char>>): int
  {
    LoadFrom(rows, 0)
  }

  /** The inner loop of `solve` on column `c`: `true` when every cell of the column is
      '.', '#' or 'O', and then the column has been tilted in place. */
  method TiltColumn(grid: array2<char>, c: nat) returns (ok: bool)
    requires c < grid.Length1
    modifies grid
    ensures ok <==> ValidColumn(old(ColumnOf(grid, c)))
    ensures ok ==> ColumnOf(grid, c) == Tilt(old(ColumnOf(grid, c)))
    ensures forall r, c' :: 0 <= r < grid.Length0 && 0 <= c' < grid.Length1 && c' != c ==>
              grid[r, c'] == old(grid[r, c'])
  {
    ghost var col := ColumnOf(grid, c);
    var last := -1;
    for r := 0 to grid.Length0
      invariant ValidUpTo(col, r)
      invariant TiltPrefix(col, r).last == last
      invariant forall k :: 0 <= k < grid.Length0 ==> grid[k, c] == TiltPrefix(col, r).cells[k]
      invariant forall k, c' :: 0 <= k < grid.Length0 && 0 <= c' < grid.Length1 && c' != c ==>
                  grid[k, c'] == old(grid[k, c'])
    {
      var x := grid[r, c];
      assert x == col[r];
      if x == Empty {
        continue;
      } else if x == Rock {
        last := r;
      } else if x == Ball {
        grid[r, c] := Empty;
        var destination := last + 1;
        grid[destination, c] := Ball;
        last := destination;
      } else {
        return false;
      }
    }
    assert ColumnOf(grid, c) == TiltPrefix(col, grid.Length0).cells;
    return true;
  }

  /** `solve`: tilt a copy of the platform north, then add up the load. */
  method Solve(input: array2<char>) returns (r: Result<int>)
    ensures r.Err? <==> !ValidPlatform(input)
    ensures r.Err? ==> r.fault == ValueError
    ensures r.Ok? ==> ValidPlatform(input) && r.value == Load(TiltNorth(Columns(input), input.Length0))
  {
    var grid := CopyGrid(input);
    for c := 0 to grid.Length1
      invariant forall k, c' :: 0 <= k < grid.Length0 && c <= c' < grid.Length1 ==>
                  grid[k, c'] == input[k, c']
      invariant forall c' :: 0 <= c' < c ==> ValidColumn(ColumnOf(input, c'))
      invariant forall c' :: 0 <= c' < c ==>
                  ValidColumn(ColumnOf(input, c')) && ColumnOf(grid, c') == Tilt(ColumnOf(input, c'))
    {
      assert ColumnOf(grid, c) == ColumnOf(input, c);
      var ok := TiltColumn(grid, c);
      if !ok {
        assert !ValidPlatform(input) by {
          var k :| 0 <= k < grid.Length0 && !IsCell(ColumnOf(input, c)[k]);
          assert !IsCell(input[k, c]);
        }
        return Err(ValueError);
      }
    }
    assert ValidPlatform(input) by {
      forall k, c' | 0 <= k < input.Length0 && 0 <= c' < input.Length1
        ensures IsCell(input[k, c'])
      {
        assert IsCell(ColumnOf(input, c')[k]);
      }
    }
    ghost var rows := TiltNorth(Columns(input), input.Length0);
    assert Rows(grid) == rows by {
      forall k | 0 <= k < grid.Length0
        ensures RowOf(grid, k) == rows[k]
      {
        forall c | 0 <= c < grid.Length1
          ensures grid[k, c] == rows[k][c]
        {
          assert grid[k, c] == ColumnOf(grid, c)[k];
        }
      }
    }
    var total := LoadRows(grid);
    return Ok(total);
  }

  /** The scoring loop of `solve`: rows from the bottom, with loads 1, 2, ... */
  method LoadRows(grid: array2<char>) returns (total: int)
    ensures total == Load(Rows(grid))
  {
    ghost var rows := Rows(grid);
    var n := grid.Length0;
    total := 0;
    for load := 1 to n + 1
      invariant total == LoadFrom(rows, n - load + 1)
    {
      var row := RowOf(grid, n - load);
      var count := Balls(row);
      CellLoadBalls(rows[n - load], load, |rows[n - load]|);
      total := total + count * load;
    }
  }
}
