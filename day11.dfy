/** Day 11: an image of galaxies ('#', here `true`).  Every row and every column with
    no galaxy is doubled, then the answer is the sum of the Manhattan distances over
    all unordered pairs of galaxies (day11.py).  The image is a numpy array of shape
    (h, w); the model passes its rows together with the width `w`. */
module Day11 {
  import opened Common

  type Image = seq<seq<bool>>

  /** The number of galaxies in a row. */
  function RowCount(row: seq<bool>): nat
  {
    if row == [] then 0 else RowCount(row[..|row| - 1]) + (if row[|row| - 1] then 1 else 0)
  }

  /** The number of galaxies in the image. */
  function Count(g: Image): nat
  {
    if g == [] then 0 else Count(g[..|g| - 1]) + RowCount(g[|g| - 1])
  }

  lemma {:induction false} RowCountAppend(a: seq<bool>, b: seq<bool>)
    ensures RowCount(a + b) == RowCount(a) + RowCount(b)
    decreases |b|
  {
    if b == [] {
      assert a + b == a;
    } else {
      assert (a + b)[..|a + b| - 1] == a + b[..|b| - 1];
      RowCountAppend(a, b[..|b| - 1]);
    }
  }

  lemma {:induction false} CountAppend(a: Image, b: Image)
    ensures Count(a + b) == Count(a) + Count(b)
    decreases |b|
  {
    if b == [] {
      assert a + b == a;
    } else {
      assert (a + b)[..|a + b| - 1] == a + b[..|b| - 1];
      CountAppend(a, b[..|b| - 1]);
    }
  }

  predicate EmptyRow(row: seq<bool>)
  {
    forall j :: 0 <= j < |row| ==> !row[j]
  }

  lemma {:induction false} EmptyRowCount(row: seq<bool>)
    requires EmptyRow(row)
    ensures RowCount(row) == 0
  {
    if row != [] {
      EmptyRowCount(row[..|row| - 1]);
    }
  }

  /** The number of rows without galaxies. */
  function EmptyRows(g: Image): nat
  {
    if g == [] then 0 else EmptyRows(g[..|g| - 1]) + (if EmptyRow(g[|g| - 1]) then 1 else 0)
  }

  // ------------------------------------------------------------ rows

  /** The rows of `g`, each row without galaxies written twice. */
  function DoubleRows(g: Image): (out: Image)
    ensures forall i :: 0 <= i < |out| ==> out[i] in g
  {
    if g == [] then []
    else
      var row := g[|g| - 1];
      DoubleRows(g[..|g| - 1]) + (if EmptyRow(row) then [row, row] else [row])
  }

  /** Doubling adds one row per empty row, keeps every row's width and keeps every
      galaxy. */
  lemma {:induction false} DoubleRowsShape(g: Image, w: nat)
    requires Rect(g, w)
    ensures |DoubleRows(g)| == |g| + EmptyRows(g)
    ensures Rect(DoubleRows(g), w)
    ensures Count(DoubleRows(g)) == Count(g)
  {
    if g != [] {
      var row := g[|g| - 1];
      DoubleRowsShape(g[..|g| - 1], w);
      CountAppend(DoubleRows(g[..|g| - 1]), if EmptyRow(row) then [row, row] else [row]);
      assert [row][..0] == [] && Count([row]) == RowCount(row);
      if EmptyRow(row) {
        EmptyRowCount(row);
        assert [row, row][..1] == [row];
        assert Count([row, row]) == 0;
      }
    }
  }

  /** The row loop of `expand_space`: an empty row at `i` is stacked twice in its place and
      `i` steps over both copies. */
  method ExpandRows(g: Image) returns (grid: Image)
    ensures grid == DoubleRows(g)
  {
    grid := g;
    var i := 0;
    ghost var k := 0;
    while i < |grid|
      invariant 0 <= k <= |g| && grid == DoubleRows(g[..k]) + g[k..] && i == |DoubleRows(g[..k])|
      invariant |grid| == i + |g| - k
      decreases |grid| - i
    {
      var row := grid[i];
      RowsStep(g, k, grid, i);
      EmptyIffNoGalaxy(row);
      ghost var done := DoubleRows(g[..k + 1]);
      if RowCount(row) == 0 {
        grid := grid[..i] + [row, row] + grid[i + 1..];
        i := i + 2;
      } else {
        i := i + 1;
      }
      assert grid == done + g[k + 1..] && i == |done|;
      k := k + 1;
    }
    assert g[..|g|] == g;
  }

  /** One row of the loop: the row at `i` is row `k` of `g`, and doubling it (or not)
      gives the image after `k + 1` rows. */
  lemma RowsStep(g: Image, k: nat, grid: Image, i: nat)
    requires k < |g| && grid == DoubleRows(g[..k]) + g[k..] && i == |DoubleRows(g[..k])|
    ensures i < |grid| && grid[i] == g[k]
    ensures i + |g| - k == |grid|
    ensures EmptyRow(g[k]) ==> grid[..i] + [g[k], g[k]] + grid[i + 1..] == DoubleRows(g[..k + 1]) + g[k + 1..]
    ensures EmptyRow(g[k]) ==> i + 2 == |DoubleRows(g[..k + 1])|
    ensures !EmptyRow(g[k]) ==> grid == DoubleRows(g[..k + 1]) + g[k + 1..] && i + 1 == |DoubleRows(g[..k + 1])|
  {
    assert g[..k + 1][..k] == g[..k];
    assert g[..k + 1][k] == g[k];
    assert g[k..] == [g[k]] + g[k + 1..];
    assert grid[..i] == DoubleRows(g[..k]);
    assert grid[i + 1..] == g[k + 1..];
  }

  /** `np.count_nonzero(row) == 0` is the emptiness of the row. */
  lemma {:induction false} EmptyIffNoGalaxy(row: seq<bool>)
    ensures RowCount(row) == 0 <==> EmptyRow(row)
  {
    if row != [] {
      var front := row[..|row| - 1];
      EmptyIffNoGalaxy(front);
      if EmptyRow(row) {
        assert EmptyRow(front);
      }
      if RowCount(row) == 0 {
        forall j | 0 <= j < |row|
          ensures !row[j]
        {
          if j < |row| - 1 {
            assert row[j] == front[j];
          }
        }
      }
    }
  }

  // ------------------------------------------------------------ columns

  /** Column `j` holds no galaxy. */
  predicate EmptyCol(g: Image, w: nat, j: int)
    requires Rect(g, w) && 0 <= j < w
  {
    forall r :: 0 <= r < |g| ==> !g[r][j]
  }

  /** The first `k` cells of `row`, those in the empty columns of `g` written twice. */
  function DoubleCols(g: Image, w: nat, row: seq<bool>, k: nat): (out: seq<bool>)
    requires Rect(g, w) && k <= |row| == w
  {
    if k == 0 then []
    else DoubleCols(g, w, row, k - 1) + (if EmptyCol(g, w, k - 1) then [row[k - 1], row[k - 1]] else [row[k - 1]])
  }

  /** The number of empty columns among the first `k`. */
  function EmptyCols(g: Image, w: nat, k: nat): nat
    requires Rect(g, w) && k <= w
  {
    if k == 0 then 0 else EmptyCols(g, w, k - 1) + (if EmptyCol(g, w, k - 1) then 1 else 0)
  }

  /** The image with every empty column doubled. */
  function DoubleColumns(g: Image, w: nat): Image
    requires Rect(g, w)
  {
    seq(|g|, r requires 0 <= r < |g| => DoubleCols(g, w, g[r], w))
  }

  /** Doubling the first `k` columns adds one cell per empty column and keeps the
      galaxies, since an empty column has none to copy. */
  lemma {:induction false} DoubleColsShape(g: Image, w: nat, r: nat, k: nat)
    requires Rect(g, w) && r < |g| && k <= w
    ensures |DoubleCols(g, w, g[r], k)| == k + EmptyCols(g, w, k)
    ensures RowCount(DoubleCols(g, w, g[r], k)) == RowCount(g[r][..k])
  {
    if k > 0 {
      var row := g[r];
      DoubleColsShape(g, w, r, k - 1);
      var cell := if EmptyCol(g, w, k - 1) then [row[k - 1], row[k - 1]] else [row[k - 1]];
      RowCountAppend(DoubleCols(g, w, row, k - 1), cell);
      assert row[..k] == row[..k - 1] + [row[k - 1]];
      RowCountAppend(row[..k - 1], [row[k - 1]]);
      assert [row[k - 1]][..0] == [];
      if EmptyCol(g, w, k - 1) {
        assert !row[k - 1];
        assert cell[..1] == [row[k - 1]];
      }
    }
  }

  /** Doubling columns widens every row by the number of empty columns and keeps every
      galaxy. */
  lemma DoubleColumnsShape(g: Image, w: nat)
    requires Rect(g, w)
    ensures |DoubleColumns(g, w)| == |g| && Rect(DoubleColumns(g, w), w + EmptyCols(g, w, w))
    ensures Count(DoubleColumns(g, w)) == Count(g)
  {
    forall r | 0 <= r < |g|
      ensures |DoubleColumns(g, w)[r]| == w + EmptyCols(g, w, w)
      ensures RowCount(DoubleColumns(g, w)[r]) == RowCount(g[r])
    {
      DoubleColsShape(g, w, r, w);
      assert g[r][..w] == g[r];
    }
    CountRows(DoubleColumns(g, w), g);
  }

  /** Images whose rows pairwise hold as many galaxies hold as many galaxies. */
  lemma {:induction false} CountRows(a: Image, b: Image)
    requires |a| == |b| && forall r :: 0 <= r < |a| ==> RowCount(a[r]) == RowCount(b[r])
    ensures Count(a) == Count(b)
  {
    if a != [] {
      CountRows(a[..|a| - 1], b[..|b| - 1]);
    }
  }

  /** The column loop's image after the first `k` columns of `g` are done. */
  function ColsDone(g: Image, w: nat, k: nat): Image
    requires Rect(g, w) && k <= w
  {
    seq(|g|, r requires 0 <= r < |g| => DoubleCols(g, w, g[r], k) + g[r][k..])
  }

  /** Column `j` of the partly expanded image is column `k` of `g`. */
  lemma ColsDoneAt(g: Image, w: nat, k: nat, r: nat)
    requires Rect(g, w) && k < w && r < |g|
    ensures var j := k + EmptyCols(g, w, k);
            |ColsDone(g, w, k)[r]| == w + EmptyCols(g, w, k) && ColsDone(g, w, k)[r][j] == g[r][k]
  {
    DoubleColsShape(g, w, r, k);
  }

  /** One column of the loop: doubling (or keeping) the column at `j == k + EmptyCols(k)`
      of the partly expanded image gives the image after `k + 1` columns. */
  lemma ColsDoneStep(g: Image, w: nat, k: nat, grid: Image, j: nat, dbl: bool)
    requires Rect(g, w) && k < w && grid == ColsDone(g, w, k) && dbl == EmptyCol(g, w, k)
    requires j == k + EmptyCols(g, w, k)
    ensures Rect(grid, w + EmptyCols(g, w, k))
    ensures dbl ==> ColsDone(g, w, k + 1) == ColumnTwice(grid, j)
    ensures !dbl ==> ColsDone(g, w, k + 1) == grid
  {
    forall r | 0 <= r < |g|
      ensures |grid[r]| == w + EmptyCols(g, w, k)
      ensures ColsDone(g, w, k + 1)[r] == if dbl then grid[r][..j] + [grid[r][j], grid[r][j]] + grid[r][j + 1..] else grid[r]
    {
      ColsDoneAt(g, w, k, r);
      var pre := DoubleCols(g, w, g[r], k);
      assert |pre| == j;
      assert grid[r] == pre + g[r][k..];
      assert g[r][k..] == [g[r][k]] + g[r][k + 1..];
      assert grid[r][..j] == pre;
      assert grid[r][j + 1..] == g[r][k + 1..];
    }
  }

  /** The column loop of `expand_space`. */
  method ExpandCols(g: Image, w: nat) returns (grid: Image)
    requires Rect(g, w)
    ensures grid == DoubleColumns(g, w)
  {
    grid := g;
    ColsDoneNone(g, w);
    var j, width := 0, w;
    ghost var k := 0;
    while j < width
      invariant ColsLoop(g, w, k, grid, j, width)
      decreases w - k
    {
      grid, j, width := ColumnStep(g, w, k, grid, j, width);
      k := k + 1;
    }
    ColsDoneAll(g, w);
  }

  /** Before the loop no column is done. */
  lemma ColsDoneNone(g: Image, w: nat)
    requires Rect(g, w)
    ensures ColsDone(g, w, 0) == g
  {
    forall r | 0 <= r < |g|
      ensures ColsDone(g, w, 0)[r] == g[r]
    {
      assert g[r][0..] == g[r];
    }
  }

  /** The body of the column loop: column `j` is doubled when it holds no galaxy. */
  method ColumnStep(ghost g: Image, ghost w: nat, ghost k: nat, grid: Image, j: nat, width: nat)
    returns (grid': Image, j': nat, width': nat)
    requires ColsLoop(g, w, k, grid, j, width) && j < width
    ensures ColsLoop(g, w, k + 1, grid', j', width')
  {
    var isEmpty := ColumnEmpty(g, w, k, grid, j);
    ColsDoneStep(g, w, k, grid, j, isEmpty);
    if isEmpty {
      grid', j', width' := ColumnTwice(grid, j), j + 2, width + 1;
    } else {
      grid', j', width' := grid, j + 1, width;
    }
  }

  /** The invariant of the column loop: `k` columns of `g` are done, and `j` is the
      position of column `k` in the widened image of width `width`. */
  ghost predicate ColsLoop(g: Image, w: nat, k: nat, grid: Image, j: nat, width: nat)
  {
    Rect(g, w) && k <= w && grid == ColsDone(g, w, k) && j == k + EmptyCols(g, w, k) && width == w + EmptyCols(g, w, k)
  }

  /** Once every column is done the image is `DoubleColumns`. */
  lemma ColsDoneAll(g: Image, w: nat)
    requires Rect(g, w)
    ensures ColsDone(g, w, w) == DoubleColumns(g, w)
  {
    forall r | 0 <= r < |g|
      ensures ColsDone(g, w, w)[r] == DoubleColumns(g, w)[r]
    {
      assert g[r][w..] == [];
      assert ColsDone(g, w, w)[r] == DoubleCols(g, w, g[r], w) + [];
    }
  }

  /** The `np.count_nonzero(grid[:, j]) == 0` test: column `j` of the partly expanded
      image is column `k` of `g`. */
  method ColumnEmpty(ghost g: Image, ghost w: nat, ghost k: nat, grid: Image, j: nat) returns (isEmpty: bool)
    requires Rect(g, w) && k < w && grid == ColsDone(g, w, k) && j == k + EmptyCols(g, w, k)
    ensures isEmpty == EmptyCol(g, w, k)
  {
    isEmpty := true;
    for r := 0 to |grid|
      invariant isEmpty <==> forall r' :: 0 <= r' < r ==> !g[r'][k]
    {
      ColsDoneAt(g, w, k, r);
      if grid[r][j] {
        isEmpty := false;
      }
    }
  }

  /** The `np.concatenate` of the columns before `j`, column `j` twice and the columns after it. */
  function ColumnTwice(grid: Image, j: nat): (out: Image)
    requires forall r :: 0 <= r < |grid| ==> j < |grid[r]|
    ensures |out| == |grid|
  {
    seq(|grid|, r requires 0 <= r < |grid| => grid[r][..j] + [grid[r][j], grid[r][j]] + grid[r][j + 1..])
  }


  /** `expand_space`: rows first, then columns. */
  method ExpandSpace(g: Image, w: nat) returns (grid: Image)
    requires Rect(g, w)
    ensures grid == DoubleColumns(DoubleRows(g), w)
    ensures |grid| == |g| + EmptyRows(g) && Count(grid) == Count(g)
  {
    var rows := ExpandRows(g);
    DoubleRowsShape(g, w);
    grid := ExpandCols(rows, w);
    DoubleColumnsShape(rows, w);
  }

  // ------------------------------------------------------------ distances

  type Loc = (int, int)

  function Dist(a: Loc, b: Loc): nat
  {
    Abs(a.0 - b.0) + Abs(a.1 - b.1)
  }

  /** The sum of the distances from `a` to each of `locs`. */
  function DistToAll(a: Loc, locs: seq<Loc>): nat
  {
    if locs == [] then 0 else DistToAll(a, locs[..|locs| - 1]) + Dist(a, locs[|locs| - 1])
  }

  /** The sum over the pairs `i < j` of the distance from `locs[i]` to `locs[j]`. */
  function PairSum(locs: seq<Loc>): nat
  {
    if locs == [] then 0 else DistToAll(locs[0], locs[1..]) + PairSum(locs[1..])
  }

  /** One galaxy or none: no pair, no distance. */
  lemma PairSumFew(locs: seq<Loc>)
    requires |locs| < 2
    ensures PairSum(locs) == 0
  {
    if locs != [] {
      assert locs[1..] == [];
    }
  }

  /** The pairs are unordered: seen from its later end, every pair gives the same sum. */
  function PairSumBack(locs: seq<Loc>): nat
  {
    if locs == [] then 0 else PairSumBack(locs[..|locs| - 1]) + DistToAll(locs[|locs| - 1], locs[..|locs| - 1])
  }

  lemma {:induction false} DistToAllConcat(a: Loc, xs: seq<Loc>, ys: seq<Loc>)
    ensures DistToAll(a, xs + ys) == DistToAll(a, xs) + DistToAll(a, ys)
    decreases |ys|
  {
    if ys == [] {
      assert xs + ys == xs;
    } else {
      assert (xs + ys)[..|xs + ys| - 1] == xs + ys[..|ys| - 1];
      DistToAllConcat(a, xs, ys[..|ys| - 1]);
    }
  }

  /** Adding a galaxy at the end adds its distances to all the others. */
  lemma {:induction false} PairSumSnoc(locs: seq<Loc>, b: Loc)
    ensures PairSum(locs + [b]) == PairSum(locs) + DistToAll(b, locs)
    decreases |locs|
  {
    if locs == [] {
      assert (locs + [b])[1..] == [];
    } else {
      var a := locs[0];
      assert (locs + [b])[0] == a && (locs + [b])[1..] == locs[1..] + [b];
      PairSumSnoc(locs[1..], b);
      DistToAllConcat(a, locs[1..], [b]);
      assert [b][..0] == [];
      assert locs == [a] + locs[1..];
      DistToAllConcat(b, [a], locs[1..]);
      assert [a][..0] == [];
      DistCommutes(a, b);
    }
  }

  lemma DistCommutes(a: Loc, b: Loc)
    ensures Dist(a, b) == Dist(b, a)
  {
  }

  lemma {:induction false} PairSumOrder(locs: seq<Loc>)
    ensures PairSum(locs) == PairSumBack(locs)
    decreases |locs|
  {
    if locs != [] {
      var front := locs[..|locs| - 1];
      PairSumOrder(front);
      assert locs == front + [locs[|locs| - 1]];
      PairSumSnoc(front, locs[|locs| - 1]);
    }
  }

  // ------------------------------------------------------------ galaxies

  /** The galaxies of row `r` among its first `k` cells, left to right. */
  function RowGalaxies(row: seq<bool>, r: int, k: nat): (locs: seq<Loc>)
    requires k <= |row|
  {
    if k == 0 then [] else RowGalaxies(row, r, k - 1) + (if row[k - 1] then [(r, k - 1)] else [])
  }

  /** The galaxies of the first `k` rows, in the order of `itertools.product`. */
  function Galaxies(g: Image, w: nat, k: nat): (locs: seq<Loc>)
    requires Rect(g, w) && k <= |g|
  {
    if k == 0 then [] else Galaxies(g, w, k - 1) + RowGalaxies(g[k - 1], k - 1, w)
  }

  /** Strictly increasing in the lexicographic order of locations, as `sorted` orders
      tuples. */
  predicate Before(a: Loc, b: Loc)
  {
    a.0 < b.0 || (a.0 == b.0 && a.1 < b.1)
  }

  predicate Sorted(locs: seq<Loc>)
  {
    forall i, j :: 0 <= i < j < |locs| ==> Before(locs[i], locs[j])
  }

  /** What the row scan finds: exactly the galaxies of the row, in increasing column
      order, all with column below `k`. */
  lemma {:induction false} RowGalaxiesSpec(row: seq<bool>, r: int, k: nat)
    requires k <= |row|
    ensures Sorted(RowGalaxies(row, r, k))
    ensures forall l :: l in RowGalaxies(row, r, k) <==> l.0 == r && 0 <= l.1 < k && row[l.1]
    ensures |RowGalaxies(row, r, k)| == RowCount(row[..k])
  {
    if k > 0 {
      RowGalaxiesSpec(row, r, k - 1);
      assert row[..k] == row[..k - 1] + [row[k - 1]];
      RowCountAppend(row[..k - 1], [row[k - 1]]);
      assert [row[k - 1]][..0] == [];
    }
  }

  /** What the scan of the first `k` rows finds: exactly the galaxies of those rows, in
      increasing order, one per galaxy. */
  lemma {:induction false} GalaxiesSpec(g: Image, w: nat, k: nat)
    requires Rect(g, w) && k <= |g|
    ensures Sorted(Galaxies(g, w, k))
    ensures forall l :: l in Galaxies(g, w, k) <==> 0 <= l.0 < k && 0 <= l.1 < w && g[l.0][l.1]
    ensures |Galaxies(g, w, k)| == Count(g[..k])
  {
    if k > 0 {
      GalaxiesSpec(g, w, k - 1);
      var before := Galaxies(g, w, k - 1);
      var row := RowGalaxies(g[k - 1], k - 1, w);
      RowGalaxiesSpec(g[k - 1], k - 1, w);
      assert g[k - 1][..w] == g[k - 1];
      assert g[..k][..k - 1] == g[..k - 1];
      forall i, j | 0 <= i < j < |before + row|
        ensures Before((before + row)[i], (before + row)[j])
      {
        if i < |before| && j >= |before| {
          assert before[i] in before && row[j - |before|] in row;
        }
      }
    }
  }

  /** The two loops over the galaxies of `solve`: the sum over the pairs. */
  method PairDistances(locs: seq<Loc>) returns (total: nat)
    ensures total == PairSum(locs)
  {
    total := 0;
    for i := 0 to |locs|
      invariant total + PairSum(locs[i..]) == PairSum(locs)
    {
      var loc1 := locs[i];
      var rest := locs[i + 1..];
      var t := 0;
      for m := 0 to |rest|
        invariant t == DistToAll(loc1, rest[..m])
      {
        assert rest[..m + 1][..m] == rest[..m];
        t := t + Abs(loc1.0 - rest[m].0) + Abs(loc1.1 - rest[m].1);
      }
      assert rest[..|rest|] == rest;
      assert locs[i..][0] == loc1 && locs[i..][1..] == rest;
      total := total + t;
    }
  }

  /** The galaxy scan of `solve` over the expanded image. */
  method FindGalaxies(g: Image, w: nat) returns (locs: seq<Loc>)
    requires Rect(g, w)
    ensures locs == Galaxies(g, w, |g|)
  {
    locs := [];
    for r := 0 to |g|
      invariant locs == Galaxies(g, w, r)
    {
      var rowLocs: seq<Loc> := [];
      for c := 0 to w
        invariant rowLocs == RowGalaxies(g[r], r, c)
      {
        if g[r][c] {
          rowLocs := rowLocs + [(r, c)];
        }
      }
      locs := locs + rowLocs;
    }
  }

  /** The distances that `solve` sums: those between the galaxies of the expanded
      image. */
  function Answer(g: Image, w: nat): nat
    requires Rect(g, w)
  {
    DoubleColumnsShape(DoubleRows(g), w);
    DoubleRowsShape(g, w);
    var e := DoubleColumns(DoubleRows(g), w);
    PairSum(Galaxies(e, w + EmptyCols(DoubleRows(g), w, w), |e|))
  }

  /** `solve`.  The set of galaxy locations is collected in the order of
      `itertools.product`, which is already sorted, so `sorted` keeps it. */
  method Solve(g: Image, w: nat) returns (total: nat)
    requires Rect(g, w)
    ensures total == Answer(g, w)
  {
    var grid := ExpandSpace(g, w);
    DoubleRowsShape(g, w);
    DoubleColumnsShape(DoubleRows(g), w);
    var width := w + EmptyCols(DoubleRows(g), w, w);
    var locs := FindGalaxies(grid, width);
    total := PairDistances(locs);
  }

  /** The answer is 0 when the image has fewer than two galaxies, which expansion keeps. */
  lemma AnswerFew(g: Image, w: nat)
    requires Rect(g, w) && Count(g) < 2
    ensures Answer(g, w) == 0
  {
    DoubleRowsShape(g, w);
    DoubleColumnsShape(DoubleRows(g), w);
    var e := DoubleColumns(DoubleRows(g), w);
    var width := w + EmptyCols(DoubleRows(g), w, w);
    GalaxyCount(e, width);
    PairSumFew(Galaxies(e, width, |e|));
  }

  /** One location per galaxy of the whole image. */
  lemma GalaxyCount(g: Image, w: nat)
    requires Rect(g, w)
    ensures |Galaxies(g, w, |g|)| == Count(g)
  {
    GalaxiesSpec(g, w, |g|);
    assert g[..|g|] == g;
  }
}
