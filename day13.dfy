/** Day 13: each pattern is a grid of rocks (`true`) and ash (`false`).  A horizontal
    mirror line sits between two rows; it is accepted when the mirrored window around
    it differs in exactly `smudges` cells.  Vertical lines are found on the transpose. */
module Day13 {
  import opened Common

  type Grid = seq<seq<bool>>

  /** A two-dimensional array: every row as wide as the first. */
  predicate Rectangular(g: Grid)
  {
    |g| == 0 || Rect(g, |g[0]|)
  }

  function Width(g: Grid): nat
  {
    if |g| == 0 then 0 else |g[0]|
  }

  /** `n_mirrorable = min(i, n_rows - i)`: how many rows on each side of the line
      between rows `i - 1` and `i` have a partner. */
  function Mirrorable(n: nat, i: nat): (m: nat)
    requires 1 <= i < n
    ensures 1 <= m <= i && i + m <= n
    ensures m == i || i + m == n
  {
    if i < n - i then i else n - i
  }

  /** The number of cells in which two rows of equal width differ. */
  function RowMismatches(a: seq<bool>, b: seq<bool>): (k: nat)
    requires |a| == |b|
    ensures k <= |a|
  {
    if a == [] then 0
    else RowMismatches(a[..|a| - 1], b[..|b| - 1]) + (if a[|a| - 1] != b[|b| - 1] then 1 else 0)
  }

  lemma {:induction false} RowMismatchesZero(a: seq<bool>, b: seq<bool>)
    requires |a| == |b|
    ensures RowMismatches(a, b) == 0 <==> a == b
  {
    if a != [] {
      var n := |a| - 1;
      RowMismatchesZero(a[..n], b[..n]);
      assert a == a[..n] + [a[n]];
      assert b == b[..n] + [b[n]];
    }
  }

  /** Mismatching cells between the `m` rows above line `i` and their mirror images:
      row `i - 1 - j` faces row `i + j`. */
  function WindowMismatches(g: Grid, i: nat, m: nat): nat
    requires Rectangular(g) && m <= i && i + m <= |g|
  {
    if m == 0 then 0
    else WindowMismatches(g, i, m - 1) + RowMismatches(g[i - m], g[i + m - 1])
  }

  /** `np.count_nonzero(grid_above != grid_below)` for line `i`. */
  function Mismatches(g: Grid, i: nat): nat
    requires Rectangular(g) && 1 <= i < |g|
  {
    WindowMismatches(g, i, Mirrorable(|g|, i))
  }

  /** Row `i - 1 - j` equals its mirror image, row `i + j`. */
  predicate RowsMirror(g: Grid, i: nat, j: nat)
    requires j < i && i + j < |g|
  {
    g[i - 1 - j] == g[i + j]
  }

  lemma {:induction false} WindowZero(g: Grid, i: nat, m: nat)
    requires Rectangular(g) && m <= i && i + m <= |g|
    ensures WindowMismatches(g, i, m) == 0 <==> forall j :: 0 <= j < m ==> RowsMirror(g, i, j)
  {
    if m > 0 {
      WindowZero(g, i, m - 1);
      RowMismatchesZero(g[i - m], g[i + m - 1]);
      assert RowsMirror(g, i, m - 1) <==> g[i - m] == g[i + m - 1];
    }
  }

  /** With no smudge allowed, line `i` is accepted exactly when every row in the window
      equals its mirror image. */
  lemma PerfectMirror(g: Grid, i: nat)
    requires Rectangular(g) && 1 <= i < |g|
    ensures Mismatches(g, i) == 0 <==>
              forall j :: 0 <= j < Mirrorable(|g|, i) ==> RowsMirror(g, i, j)
  {
    WindowZero(g, i, Mirrorable(|g|, i));
  }

  /** Line `i` is the first line with exactly `smudges` mismatches. */
  predicate LeastReflection(g: Grid, smudges: nat, i: nat)
    requires Rectangular(g)
  {
    1 <= i < |g| && Mismatches(g, i) == smudges &&
    forall j :: 1 <= j < i ==> Mismatches(g, j) != smudges
  }

  predicate NoReflection(g: Grid, smudges: nat)
    requires Rectangular(g)
  {
    forall j :: 1 <= j < |g| ==> Mismatches(g, j) != smudges
  }

  /** The first line at or after `i` with exactly `smudges` mismatches. */
  function FirstFrom(g: Grid, smudges: nat, i: nat): (r: Option<nat>)
    requires Rectangular(g) && 1 <= i <= |g|
    ensures r.Some? ==> i <= r.value < |g| && Mismatches(g, r.value) == smudges &&
                        forall j :: i <= j < r.value ==> Mismatches(g, j) != smudges
    ensures r.None? ==> forall j :: i <= j < |g| ==> Mismatches(g, j) != smudges
    decreases |g| - i
  {
    if i == |g| then None
    else if Mismatches(g, i) == smudges then Some(i)
    else FirstFrom(g, smudges, i + 1)
  }

  /** What `_find_reflection_row_smudge` returns: the assert rejects grids of fewer
      than two rows. */
  function Reflection(g: Grid, smudges: nat): Result<Option<nat>>
    requires Rectangular(g)
  {
    if |g| <= 1 then Err(AssertionError) else Ok(FirstFrom(g, smudges, 1))
  }

  lemma ReflectionCases(g: Grid, smudges: nat)
    requires Rectangular(g) && |g| > 1
    ensures forall i: nat :: Reflection(g, smudges) == Ok(Some(i)) <==> LeastReflection(g, smudges, i)
    ensures Reflection(g, smudges) == Ok(None) <==> NoReflection(g, smudges)
  {
    var r := FirstFrom(g, smudges, 1);
    forall i | LeastReflection(g, smudges, i)
      ensures r == Some(i)
    {
      if r.Some? && r.value < i {
        assert false;
      }
    }
  }

  /** `_find_reflection_row_smudge`. */
  method FindReflectionRow(g: Grid, smudges: nat) returns (r: Result<Option<nat>>)
    requires Rectangular(g)
    ensures r == Reflection(g, smudges)
  {
    var n := |g|;
    if n <= 1 {
      return Err(AssertionError);
    }
    for i := 1 to n
      invariant forall j :: 1 <= j < i ==> Mismatches(g, j) != smudges
    {
      var count := Mismatches(g, i);
      if count == smudges {
        ReflectionCases(g, smudges);
        assert LeastReflection(g, smudges, i);
        return Ok(Some(i));
      }
    }
    ReflectionCases(g, smudges);
    return Ok(None);
  }

  /** `grid.T`. */
  function Transpose(g: Grid): (t: Grid)
    requires Rectangular(g)
    ensures |t| == Width(g) && Rect(t, |g|) && Rectangular(t)
    ensures forall c, r :: 0 <= c < |t| && 0 <= r < |g| ==> t[c][r] == g[r][c]
  {
    seq(Width(g), c requires 0 <= c < Width(g) => seq(|g|, r requires 0 <= r < |g| => g[r][c]))
  }

  lemma TransposeTwice(g: Grid)
    requires Rectangular(g) && Width(g) > 0
    ensures Transpose(Transpose(g)) == g
  {
    var t := Transpose(g);
    var tt := Transpose(t);
    assert |tt| == |g|;
    forall r | 0 <= r < |g|
      ensures tt[r] == g[r]
    {
      assert |tt[r]| == |t| == |g[r]|;
      forall c | 0 <= c < |g[r]|
        ensures tt[r][c] == g[r][c]
      {
        assert tt[r][c] == t[c][r];
      }
    }
  }

  /** Column `c - 1 - j` and column `c + j` agree in row `r`. */
  predicate ColumnsMirror(g: Grid, c: nat, j: nat, r: nat)
    requires Rectangular(g) && j < c && c + j < Width(g) && r < |g|
  {
    g[r][c - 1 - j] == g[r][c + j]
  }

  /** With no smudge allowed, line `c` of the transpose is accepted exactly when every
      column in the window equals its mirror image. */
  lemma PerfectColumnMirror(g: Grid, c: nat)
    requires Rectangular(g) && 1 <= c < Width(g)
    ensures Mismatches(Transpose(g), c) == 0 <==>
              forall j: nat, r: nat :: j < Mirrorable(Width(g), c) && r < |g| ==>
                ColumnsMirror(g, c, j, r)
  {
    var t := Transpose(g);
    PerfectMirror(t, c);
    var m := Mirrorable(Width(g), c);
    forall j | 0 <= j < m
      ensures RowsMirror(t, c, j) <==> forall r: nat :: r < |g| ==> ColumnsMirror(g, c, j, r)
    {
      ColumnMirrorAt(g, c, j);
    }
    if forall j: nat, r: nat :: j < m && r < |g| ==> ColumnsMirror(g, c, j, r) {
      forall j | 0 <= j < m
        ensures RowsMirror(t, c, j)
      {
        assert forall r: nat :: r < |g| ==> ColumnsMirror(g, c, j, r);
      }
    }
    if forall j :: 0 <= j < m ==> RowsMirror(t, c, j) {
      forall j: nat, r: nat | j < m && r < |g|
        ensures ColumnsMirror(g, c, j, r)
      {
        assert RowsMirror(t, c, j);
      }
    }
  }

  /** Line `c - 1 - j` of the transpose equals line `c + j` exactly when the two
      columns agree in every row. */
  lemma ColumnMirrorAt(g: Grid, c: nat, j: nat)
    requires Rectangular(g) && j < c && c + j < Width(g)
    ensures RowsMirror(Transpose(g), c, j) <==> forall r: nat :: r < |g| ==> ColumnsMirror(g, c, j, r)
  {
    var t := Transpose(g);
    var a, b := t[c - 1 - j], t[c + j];
    if forall r: nat :: r < |g| ==> ColumnsMirror(g, c, j, r) {
      forall r | 0 <= r < |g|
        ensures a[r] == b[r]
      {
        assert ColumnsMirror(g, c, j, r);
      }
    }
  }

  /** The score of one pattern in `solve`. */
  function GridScore(g: Grid, smudges: nat): Result<int>
    requires Rectangular(g)
  {
    match Reflection(g, smudges)
    case Err(e) => Err(e)
    case Ok(Some(row)) => Ok(100 * row)
    case Ok(None) =>
      match Reflection(Transpose(g), smudges)
      case Err(e) => Err(e)
      case Ok(Some(col)) => Ok(col)
      case Ok(None) => Err(ValueError)
  }

  /** A horizontal line scores a hundred times its row count and takes precedence. */
  lemma RowScore(g: Grid, smudges: nat, i: nat)
    requires Rectangular(g) && LeastReflection(g, smudges, i)
    ensures GridScore(g, smudges) == Ok(100 * i)
  {
    ReflectionCases(g, smudges);
  }

  /** Without a horizontal line, the first vertical line scores its column count. */
  lemma ColumnScore(g: Grid, smudges: nat, c: nat)
    requires Rectangular(g) && |g| > 1 && NoReflection(g, smudges)
    requires LeastReflection(Transpose(g), smudges, c)
    ensures GridScore(g, smudges) == Ok(c)
  {
    ReflectionCases(g, smudges);
    ReflectionCases(Transpose(g), smudges);
  }

  /** With no line in either orientation, `solve` raises ValueError. */
  lemma NoLineFails(g: Grid, smudges: nat)
    requires Rectangular(g) && |g| > 1 && Width(g) > 1
    requires NoReflection(g, smudges) && NoReflection(Transpose(g), smudges)
    ensures GridScore(g, smudges) == Err(ValueError)
  {
    ReflectionCases(g, smudges);
    ReflectionCases(Transpose(g), smudges);
  }

  function Scores(grids: seq<Grid>, smudges: nat): (s: seq<Result<int>>)
    requires forall k :: 0 <= k < |grids| ==> Rectangular(grids[k])
    ensures |s| == |grids|
  {
    seq(|grids|, k requires 0 <= k < |grids| => GridScore(grids[k], smudges))
  }

  /** One pattern of `solve`'s loop. */
  method ScoreGrid(g: Grid, smudges: nat) returns (r: Result<int>)
    requires Rectangular(g)
    ensures r == GridScore(g, smudges)
  {
    var row := FindReflectionRow(g, smudges);
    if row.Err? {
      return Err(row.fault);
    }
    if row.value.Some? {
      return Ok(100 * row.value.value);
    }
    var col := FindReflectionRow(Transpose(g), smudges);
    if col.Err? {
      return Err(col.fault);
    }
    if col.value.Some? {
      return Ok(col.value.value);
    }
    return Err(ValueError);
  }

  /** `solve`. */
  method Solve(grids: seq<Grid>, smudges: nat) returns (r: Result<int>)
    requires forall k :: 0 <= k < |grids| ==> Rectangular(grids[k])
    ensures r == SumResults(Scores(grids, smudges))
  {
    var vals := Scores(grids, smudges);
    var total := 0;
    for k := 0 to |grids|
      invariant SumResults(vals[..k]) == Ok(total)
    {
      var v := ScoreGrid(grids[k], smudges);
      assert vals[..k + 1][..k] == vals[..k];
      if v.Err? {
        SumResultsFailedPrefix(vals, k + 1);
        return Err(v.fault);
      }
      total := total + v.value;
    }
    assert vals[..|grids|] == vals;
    return Ok(total);
  }
}
