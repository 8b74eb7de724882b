/** Day 3: a schematic of digits, '.' and symbols.  Part 1 sums the numbers (maximal
    runs of digits in a row) that have a symbol among their neighbours; part 2 sums,
    over the '*' cells touching exactly two numbers, the product of those numbers. */
module Day03 {
  import opened Common

  const EmptyCell := '.'
  const GearCell := '*'

  type Grid = seq<seq<char>>

  /** `is_symbol`: neither a digit nor '.'. */
  predicate IsSymbol(ch: char)
  {
    !(IsDigit(ch) || ch == EmptyCell)
  }

  predicate Rectangular(g: Grid)
  {
    |g| == 0 || Rect(g, |g[0]|)
  }

  function Width(g: Grid): nat
  {
    if |g| == 0 then 0 else |g[0]|
  }

  // ------------------------------------------------------------ digit runs in a row

  /** `_count_digits`: the length of the leading run of digits.  It asserts that the
      first character is a digit (and indexing an empty row fails first). */
  function CountDigits(row: seq<char>): (r: Result<nat>)
    ensures r.Ok? <==> |row| > 0 && IsDigit(row[0])
    ensures |row| == 0 ==> r == Err(IndexError)
    ensures |row| > 0 && !IsDigit(row[0]) ==> r == Err(AssertionError)
    ensures r.Ok? ==> 1 <= r.value <= |row| && DigitsBetween(row, 0, r.value) &&
                      (r.value == |row| || !IsDigit(row[r.value]))
  {
    if |row| == 0 then Err(IndexError)
    else if !IsDigit(row[0]) then Err(AssertionError)
    else Ok(DigitsFrom(row, 0))
  }

  lemma {:induction false} DigitsFromSuffix(row: seq<char>, c: nat, k: nat)
    requires c + k <= |row|
    ensures DigitsFrom(row[c..], k) == DigitsFrom(row, c + k)
    decreases |row| - c - k
  {
    if c + k < |row| && IsDigit(row[c + k]) {
      DigitsFromSuffix(row, c, k + 1);
    }
  }

  /** `_count_digits(row[c:])` measures the run of digits starting at `c`. */
  lemma CountDigitsSuffix(row: seq<char>, c: nat)
    requires c < |row| && IsDigit(row[c])
    ensures CountDigits(row[c..]) == Ok(DigitsFrom(row, c))
  {
    DigitsFromSuffix(row, c, 0);
  }

  /** Where the `while c_start > 0 and data[new_r, c_start - 1].isdigit()` loop stops. */
  function LeftEnd(row: seq<char>, c: nat): (s: nat)
    requires c < |row|
    ensures s <= c && DigitsBetween(row, s, c)
    ensures s == 0 || !IsDigit(row[s - 1])
  {
    if c > 0 && IsDigit(row[c - 1]) then LeftEnd(row, c - 1) else c
  }

  /** `n` digits from `s` that cannot be extended either way. */
  predicate MaximalRun(row: seq<char>, s: int, n: int)
  {
    && 0 <= s && 1 <= n && s + n <= |row|
    && DigitsBetween(row, s, s + n)
    && (s == 0 || !IsDigit(row[s - 1]))
    && (s + n == |row| || !IsDigit(row[s + n]))
  }

  /** A digit belongs to exactly one maximal run. */
  lemma MaximalRunUnique(row: seq<char>, s: int, n: int, s': int, n': int, j: int)
    requires MaximalRun(row, s, n) && MaximalRun(row, s', n')
    requires s <= j < s + n && s' <= j < s' + n'
    ensures s == s' && n == n'
  {
    assert s' == 0 || s' - 1 < s || DigitAt(row, s' - 1);
    assert s == 0 || s - 1 < s' || DigitAt(row, s - 1);
    assert s + n == |row| || s' + n' <= s + n || DigitAt(row, s + n);
    assert s' + n' == |row| || s + n <= s' + n' || DigitAt(row, s' + n');
  }

  lemma DigitsSlice(row: seq<char>, s: nat, e: nat)
    requires s <= e <= |row| && DigitsBetween(row, s, e)
    ensures AllDigits(row[s..e])
  {
    forall i | 0 <= i < e - s ensures IsDigit(row[s..e][i]) {
      assert DigitAt(row, s + i) && row[s..e][i] == row[s + i];
    }
  }

  predicate AllMaximal(row: seq<char>, runs: seq<(nat, nat)>)
  {
    forall i :: 0 <= i < |runs| ==> MaximalRun(row, runs[i].0, runs[i].1)
  }

  /** The maximal runs of `row` from column `c` on, left to right, as (start, length). */
  function Runs(row: seq<char>, c: nat): (runs: seq<(nat, nat)>)
    requires c <= |row| && (c == 0 || c == |row| || !IsDigit(row[c - 1]))
    ensures forall i :: 0 <= i < |runs| ==> c <= runs[i].0
    decreases |row| - c
  {
    if c == |row| then []
    else if !IsDigit(row[c]) then Runs(row, c + 1)
    else
      var n := DigitsFrom(row, c);
      if c + n == |row| then [(c, n)] else [(c, n)] + Runs(row, c + n + 1)
  }

  /** Each run is a maximal run of digits. */
  lemma {:induction false} RunsMaximal(row: seq<char>, c: nat)
    requires c <= |row| && (c == 0 || c == |row| || !IsDigit(row[c - 1]))
    ensures AllMaximal(row, Runs(row, c))
    decreases |row| - c
  {
    if c < |row| {
      if !IsDigit(row[c]) {
        RunsMaximal(row, c + 1);
      } else {
        var n := DigitsFrom(row, c);
        var runs := Runs(row, c);
        assert runs[0] == (c, n);
        if c + n < |row| {
          RunsMaximal(row, c + n + 1);
          var rest := Runs(row, c + n + 1);
          assert runs == [(c, n)] + rest;
          forall i | 0 < i < |runs| ensures MaximalRun(row, runs[i].0, runs[i].1) {
            assert runs[i] == rest[i - 1];
          }
        }
      }
    }
  }

  /** Position `j` lies in the `i`-th run. */
  predicate RunAt(runs: seq<(nat, nat)>, i: nat, j: int)
  {
    i < |runs| && runs[i].0 <= j < runs[i].0 + runs[i].1
  }

  /** Every digit from `c` on lies in one of the runs: the `i`-th. */
  lemma {:induction false} RunsCover(row: seq<char>, c: nat, j: nat) returns (i: nat)
    requires c <= j < |row| && IsDigit(row[j]) && (c == 0 || !IsDigit(row[c - 1]))
    ensures RunAt(Runs(row, c), i, j)
    decreases |row| - c
  {
    var runs := Runs(row, c);
    if !IsDigit(row[c]) {
      assert runs == Runs(row, c + 1);
      i := RunsCover(row, c + 1, j);
    } else {
      var n := DigitsFrom(row, c);
      if j < c + n {
        assert runs[0] == (c, n);
        i := 0;
      } else {
        assert DigitAt(row, j) && j != c + n;
        var rest := Runs(row, c + n + 1);
        assert runs == [(c, n)] + rest;
        var k := RunsCover(row, c + n + 1, j);
        assert runs[k + 1] == rest[k];
        i := k + 1;
      }
    }
  }

  /** Each run ends before the next one starts. */
  predicate Increasing(runs: seq<(nat, nat)>)
  {
    forall i, j :: 0 <= i < j < |runs| ==> runs[i].0 + runs[i].1 < runs[j].0
  }

  /** The runs come left to right, each separated from the next by a non-digit, so
      no number is counted twice. */
  lemma {:induction false} RunsIncreasing(row: seq<char>, c: nat)
    requires c <= |row| && (c == 0 || c == |row| || !IsDigit(row[c - 1]))
    ensures Increasing(Runs(row, c))
    decreases |row| - c
  {
    if c < |row| {
      if !IsDigit(row[c]) {
        assert Runs(row, c) == Runs(row, c + 1);
        RunsIncreasing(row, c + 1);
      } else {
        var n := DigitsFrom(row, c);
        if c + n < |row| {
          RunsIncreasing(row, c + n + 1);
          var runs := Runs(row, c);
          var rest := Runs(row, c + n + 1);
          assert runs == [(c, n)] + rest;
          forall i, j | 0 <= i < j < |runs| ensures runs[i].0 + runs[i].1 < runs[j].0 {
            assert runs[j] == rest[j - 1] && c + n + 1 <= rest[j - 1].0;
            if i > 0 {
              assert runs[i] == rest[i - 1];
            }
          }
        }
      }
    }
  }

  // ------------------------------------------------------------ part 1

  /** The cells `_has_symbol_neighbor` looks at for the number of `n` digits at
      (r, cStart): the two bookend columns in rows r - 1 .. r + 1, and the rows above
      and below along the number, all clipped to the grid. */
  predicate Checked(g: Grid, r: int, cStart: int, n: int, rr: int, cc: int)
  {
    && 0 <= rr < |g| && r - 1 <= rr <= r + 1 && 0 <= cc < Width(g)
    && (cc == cStart - 1 || cc == cStart + n || (rr != r && cStart <= cc < cStart + n))
  }

  ghost predicate SymbolNear(g: Grid, r: int, cStart: int, n: int)
    requires Rectangular(g)
  {
    exists rr, cc :: Checked(g, r, cStart, n, rr, cc) && IsSymbol(g[rr][cc])
  }

  /** A neighbour in the bounding rectangle [r - 1, r + 1] x [cStart - 1, cStart + n],
      clipped to the grid. */
  predicate InBox(g: Grid, r: int, cStart: int, n: int, rr: int, cc: int)
  {
    0 <= rr < |g| && 0 <= cc < Width(g) && r - 1 <= rr <= r + 1 && cStart - 1 <= cc <= cStart + n
  }

  /** As the number's own cells are digits, `_has_symbol_neighbor` is exactly "some
      symbol lies in the clipped bounding rectangle". */
  lemma SymbolNearBox(g: Grid, r: int, cStart: int, n: int)
    requires Rectangular(g) && 0 <= r < |g| && 0 <= cStart && 1 <= n && cStart + n <= Width(g)
    requires DigitsBetween(g[r], cStart, cStart + n)
    ensures SymbolNear(g, r, cStart, n) <==>
            exists rr, cc :: InBox(g, r, cStart, n, rr, cc) && IsSymbol(g[rr][cc])
  {
    if exists rr, cc :: InBox(g, r, cStart, n, rr, cc) && IsSymbol(g[rr][cc]) {
      var rr: int, cc: int :| InBox(g, r, cStart, n, rr, cc) && IsSymbol(g[rr][cc]);
      assert rr != r || cc < cStart || cc >= cStart + n || DigitAt(g[r], cc);
      assert Checked(g, r, cStart, n, rr, cc);
    }
    if SymbolNear(g, r, cStart, n) {
      var rr: int, cc: int :| Checked(g, r, cStart, n, rr, cc) && IsSymbol(g[rr][cc]);
      assert InBox(g, r, cStart, n, rr, cc);
    }
  }

  /** What one maximal run adds to the part-1 total. */
  ghost function PartValue(g: Grid, r: int, run: (nat, nat)): nat
    requires Rectangular(g) && 0 <= r < |g|
  {
    if MaximalRun(g[r], run.0, run.1) && SymbolNear(g, r, run.0, run.1) then
      DigitsSlice(g[r], run.0, run.0 + run.1);
      Decimal(g[r][run.0..run.0 + run.1])
    else 0
  }

  ghost function RowParts(g: Grid, r: int, runs: seq<(nat, nat)>): nat
    requires Rectangular(g) && 0 <= r < |g|
  {
    if runs == [] then 0
    else RowParts(g, r, runs[..|runs| - 1]) + PartValue(g, r, runs[|runs| - 1])
  }

  /** The part numbers of rows `0 .. k - 1`, each maximal run counted once. */
  ghost function PartTotal(g: Grid, k: nat): nat
    requires Rectangular(g) && k <= |g|
  {
    if k == 0 then 0 else PartTotal(g, k - 1) + RowParts(g, k - 1, Runs(g[k - 1], 0))
  }


  // ------------------------------------------------------------ part 2

  /** A maximal run `len` digits long at (row, start). */
  datatype Run = Run(row: int, start: int, len: nat)

  /** The search state of `_collect_adjacent_numbers`: the blanked copy, the runs
      found and their values. */
  datatype Gathered = Gathered(data: Grid, runs: seq<Run>, nums: seq<int>)

  predicate InRun(run: Run, i: int, j: int)
  {
    run.row == i && run.start <= j < run.start + run.len
  }

  ghost predicate Covered(runs: seq<Run>, i: int, j: int)
  {
    exists t :: 0 <= t < |runs| && InRun(runs[t], i, j)
  }

  lemma CoveredExtend(runs: seq<Run>, run: Run, i: int, j: int)
    ensures Covered(runs + [run], i, j) <==> Covered(runs, i, j) || InRun(run, i, j)
  {
    var more := runs + [run];
    if Covered(runs, i, j) {
      var t :| 0 <= t < |runs| && InRun(runs[t], i, j);
      assert more[t] == runs[t];
    }
    if InRun(run, i, j) {
      assert more[|runs|] == run;
    }
    if Covered(more, i, j) {
      var t :| 0 <= t < |more| && InRun(more[t], i, j);
      assert t == |runs| || more[t] == runs[t];
    }
  }

  /** `data[r, s:e] = EMPTY`. */
  function Blank(data: Grid, r: int, s: int, e: int): (d: Grid)
    requires 0 <= r < |data|
    ensures |d| == |data| && forall i :: 0 <= i < |d| ==> |d[i]| == |data[i]|
    ensures forall i, j :: 0 <= i < |d| && 0 <= j < |d[i]| ==>
              d[i][j] == if i == r && s <= j < e then EmptyCell else data[i][j]
  {
    var row := data[r];
    data[r := seq(|row|, j requires 0 <= j < |row| => if s <= j < e then EmptyCell else row[j])]
  }

  /** The offsets the two `for ... in (-1, 0, 1)` loops visit, in order; 4 is the cell itself. */
  function Offset(k: nat): (int, int)
  {
    (k / 3 - 1, k % 3 - 1)
  }

  /** The number through (nr, nc), if that cell of the copy holds a digit: record it
      and blank it. */
  function Visit(st: Gathered, nr: int, nc: int): Gathered
  {
    var data := st.data;
    if 0 <= nr < |data| && 0 <= nc < |data[nr]| && IsDigit(data[nr][nc]) then TakeRun(st, nr, LeftEnd(data[nr], nc))
    else st
  }

  /** Record the run of digits starting at `s` in row `nr` of the copy, and blank it. */
  function TakeRun(st: Gathered, nr: nat, s: nat): Gathered
    requires nr < |st.data| && s <= |st.data[nr]|
  {
    var row := st.data[nr];
    var n := DigitsFrom(row, s);
    DigitsSlice(row, s, s + n);
    Gathered(Blank(st.data, nr, s, s + n), st.runs + [Run(nr, s, n)], st.nums + [Decimal(row[s..s + n])])
  }

  /** The state after the first `k` offsets around (r, c), each clipped to the grid. */
  function Gather(g: Grid, r: int, c: int, k: nat): Gathered
    requires k <= 9
  {
    if k == 0 then Gathered(g, [], [])
    else
      var st := Gather(g, r, c, k - 1);
      if k - 1 == 4 then st else Visit(st, r + Offset(k - 1).0, c + Offset(k - 1).1)
  }

  /** The numbers around (r, c), in the order `_collect_adjacent_numbers` meets them. */
  function Collect(g: Grid, r: int, c: int): seq<int>
  {
    Gather(g, r, c, 9).nums
  }

  ghost predicate RunOf(g: Grid, run: Run)
  {
    0 <= run.row < |g| && MaximalRun(g[run.row], run.start, run.len)
  }

  function RunValue(g: Grid, run: Run): int
    requires RunOf(g, run)
  {
    DigitsSlice(g[run.row], run.start, run.start + run.len);
    Decimal(g[run.row][run.start..run.start + run.len])
  }

  /** The copy is the grid with exactly the cells of `runs` blanked. */
  ghost predicate Blanked(g: Grid, data: Grid, runs: seq<Run>)
  {
    && |data| == |g| && (forall i :: 0 <= i < |g| ==> |data[i]| == |g[i]|)
    && (forall i, j :: 0 <= i < |g| && 0 <= j < |g[i]| ==>
          data[i][j] == if Covered(runs, i, j) then EmptyCell else g[i][j])
  }

  ghost predicate ValidRuns(g: Grid, runs: seq<Run>)
  {
    forall t :: 0 <= t < |runs| ==> RunOf(g, runs[t])
  }

  predicate Distinct(runs: seq<Run>)
  {
    forall t, u :: 0 <= t < u < |runs| ==> runs[t] != runs[u]
  }

  ghost predicate Valued(g: Grid, runs: seq<Run>, nums: seq<int>)
    requires ValidRuns(g, runs)
  {
    |nums| == |runs| && forall t :: 0 <= t < |runs| ==> nums[t] == RunValue(g, runs[t])
  }

  /** The runs found so far are distinct maximal runs of the grid, blanked in the copy,
      and `nums` holds their values. */
  ghost predicate Consistent(g: Grid, st: Gathered)
  {
    Blanked(g, st.data, st.runs) && ValidRuns(g, st.runs) && Distinct(st.runs) && Valued(g, st.runs, st.nums)
  }

  /** A maximal run covering (i, j - 1) also covers the digit at (i, j). */
  lemma UncoveredLeft(g: Grid, runs: seq<Run>, i: int, j: int)
    requires ValidRuns(g, runs) && 0 <= i < |g| && 0 < j < |g[i]| && IsDigit(g[i][j])
    requires !Covered(runs, i, j)
    ensures !Covered(runs, i, j - 1)
  {
    forall t | 0 <= t < |runs| ensures !InRun(runs[t], i, j - 1) {
      assert !InRun(runs[t], i, j);
      assert RunOf(g, runs[t]);
    }
  }

  /** A maximal run covering (i, j + 1) also covers the digit at (i, j). */
  lemma UncoveredRight(g: Grid, runs: seq<Run>, i: int, j: int)
    requires ValidRuns(g, runs) && 0 <= i < |g| && 0 <= j && j + 1 < |g[i]| && IsDigit(g[i][j])
    requires !Covered(runs, i, j)
    ensures !Covered(runs, i, j + 1)
  {
    forall t | 0 <= t < |runs| ensures !InRun(runs[t], i, j + 1) {
      assert !InRun(runs[t], i, j);
      assert RunOf(g, runs[t]);
    }
  }

  /** No cell of row `i` from `lo` to `hi - 1` is covered by `runs`. */
  ghost predicate Uncovered(runs: seq<Run>, i: int, lo: int, hi: int)
  {
    forall j :: lo <= j < hi ==> !Covered(runs, i, j)
  }

  /** The number found through a digit of the copy is the maximal run of the original
      grid through that cell, and none of it has been blanked. */
  lemma VisitFindsRun(g: Grid, st: Gathered, nr: int, nc: int) returns (s: nat, n: nat)
    requires Blanked(g, st.data, st.runs) && ValidRuns(g, st.runs)
    requires 0 <= nr < |g| && 0 <= nc < |g[nr]| && IsDigit(st.data[nr][nc])
    ensures s == LeftEnd(st.data[nr], nc) && n == DigitsFrom(st.data[nr], s)
    ensures RunOf(g, Run(nr, s, n)) && s <= nc < s + n
    ensures Uncovered(st.runs, nr, s, s + n)
    ensures st.data[nr][s..s + n] == g[nr][s..s + n]
  {
    s, n := RowRun(st.data[nr], nc);
    SameRun(g, st, nr, s, n);
  }

  /** The run of digits through column `c` of a row runs from `LeftEnd` for `DigitsFrom` cells. */
  lemma RowRun(row: seq<char>, c: nat) returns (s: nat, n: nat)
    requires c < |row| && IsDigit(row[c])
    ensures s == LeftEnd(row, c) && n == DigitsFrom(row, s)
    ensures MaximalRun(row, s, n) && s <= c < s + n
  {
    s := LeftEnd(row, c);
    n := DigitsFrom(row, s);
    assert DigitsBetween(row, s, c + 1);
    assert s + n <= c ==> DigitAt(row, s + n);
  }

  /** A maximal run of the copy is untouched by the runs blanked so far, so it is a
      maximal run of the grid with the same characters. */
  lemma SameRun(g: Grid, st: Gathered, nr: int, s: nat, n: nat)
    requires Blanked(g, st.data, st.runs) && ValidRuns(g, st.runs)
    requires 0 <= nr < |g| && MaximalRun(st.data[nr], s, n)
    ensures RunOf(g, Run(nr, s, n))
    ensures Uncovered(st.runs, nr, s, s + n)
    ensures st.data[nr][s..s + n] == g[nr][s..s + n]
  {
    var row := st.data[nr];
    forall j | s <= j < s + n ensures !Covered(st.runs, nr, j) && g[nr][j] == row[j] && IsDigit(g[nr][j]) {
      assert DigitAt(row, j);
    }
    if s > 0 {
      UncoveredLeft(g, st.runs, nr, s);
    }
    if s + n < |row| {
      UncoveredRight(g, st.runs, nr, s + n - 1);
    }
    assert DigitsBetween(g[nr], s, s + n);
  }

  lemma BlankExtend(g: Grid, data: Grid, runs: seq<Run>, run: Run)
    requires Blanked(g, data, runs) && 0 <= run.row < |g|
    ensures Blanked(g, Blank(data, run.row, run.start, run.start + run.len), runs + [run])
  {
    var d := Blank(data, run.row, run.start, run.start + run.len);
    forall i, j | 0 <= i < |g| && 0 <= j < |g[i]|
      ensures d[i][j] == if Covered(runs + [run], i, j) then EmptyCell else g[i][j]
    {
      CoveredExtend(runs, run, i, j);
    }
  }

  lemma ValuedExtend(g: Grid, runs: seq<Run>, nums: seq<int>, run: Run, v: int)
    requires ValidRuns(g, runs) && Valued(g, runs, nums) && RunOf(g, run) && v == RunValue(g, run)
    ensures ValidRuns(g, runs + [run]) && Valued(g, runs + [run], nums + [v])
  {
    assert forall t :: 0 <= t < |runs| ==> (runs + [run])[t] == runs[t] && (nums + [v])[t] == nums[t];
  }

  lemma DistinctExtend(runs: seq<Run>, run: Run, i: int, j: int)
    requires Distinct(runs) && !Covered(runs, i, j) && InRun(run, i, j)
    ensures Distinct(runs + [run])
  {
    forall t | 0 <= t < |runs| ensures runs[t] != run {
      assert !InRun(runs[t], i, j);
    }
  }

  lemma VisitShape(g: Grid, st: Gathered, nr: int, nc: int, s: nat, n: nat)
    requires 0 <= nr < |st.data| && 0 <= nc < |st.data[nr]| && IsDigit(st.data[nr][nc])
    requires s == LeftEnd(st.data[nr], nc) && n == DigitsFrom(st.data[nr], s)
    requires RunOf(g, Run(nr, s, n)) && st.data[nr][s..s + n] == g[nr][s..s + n]
    ensures Visit(st, nr, nc) == Gathered(Blank(st.data, nr, s, s + n), st.runs + [Run(nr, s, n)],
                                          st.nums + [RunValue(g, Run(nr, s, n))])
  {
    VisitTakes(st, nr, nc);
    var slice := st.data[nr][s..s + n];
    TakeRunIs(st, nr, s);
    RunValueOf(g, Run(nr, s, n), slice);
  }

  /** At a digit of the copy, `Visit` takes the run through it. */
  lemma VisitTakes(st: Gathered, nr: int, nc: int)
    requires 0 <= nr < |st.data| && 0 <= nc < |st.data[nr]| && IsDigit(st.data[nr][nc])
    ensures Visit(st, nr, nc) == TakeRun(st, nr, LeftEnd(st.data[nr], nc))
  {
  }

  /** The value of a run is that of its characters. */
  lemma RunValueOf(g: Grid, run: Run, slice: seq<char>)
    requires RunOf(g, run) && slice == g[run.row][run.start..run.start + run.len]
    ensures AllDigits(slice) && RunValue(g, run) == Decimal(slice)
  {
    DigitsSlice(g[run.row], run.start, run.start + run.len);
  }

  /** The number `TakeRun` records is the value of the run's characters. */
  lemma TakeRunNum(st: Gathered, nr: nat, s: nat, slice: seq<char>)
    requires nr < |st.data| && s <= |st.data[nr]|
    requires slice == st.data[nr][s..s + DigitsFrom(st.data[nr], s)]
    ensures AllDigits(slice) && TakeRun(st, nr, s).nums == st.nums + [Decimal(slice)]
  {
    TakeRunIs(st, nr, s);
  }

  /** `TakeRun`, unfolded. */
  lemma TakeRunIs(st: Gathered, nr: nat, s: nat)
    requires nr < |st.data| && s <= |st.data[nr]|
    ensures var n := DigitsFrom(st.data[nr], s);
            && AllDigits(st.data[nr][s..s + n])
            && TakeRun(st, nr, s) == Gathered(Blank(st.data, nr, s, s + n), st.runs + [Run(nr, s, n)],
                                              st.nums + [Decimal(st.data[nr][s..s + n])])
  {
    DigitsSlice(st.data[nr], s, s + DigitsFrom(st.data[nr], s));
  }

  /** Visiting a digit of the copy records the maximal run through it. */
  lemma VisitDigit(g: Grid, st: Gathered, nr: int, nc: int) returns (run: Run)
    requires Consistent(g, st)
    requires 0 <= nr < |g| && 0 <= nc < |g[nr]| && IsDigit(st.data[nr][nc])
    ensures Consistent(g, Visit(st, nr, nc))
    ensures InRun(run, nr, nc) && Visit(st, nr, nc).runs == st.runs + [run]
  {
    var s, n := VisitFindsRun(g, st, nr, nc);
    run := Run(nr, s, n);
    VisitShape(g, st, nr, nc, s, n);
    BlankExtend(g, st.data, st.runs, run);
    DistinctExtend(st.runs, run, nr, nc);
    ValuedExtend(g, st.runs, st.nums, run, RunValue(g, run));
  }

  lemma VisitConsistent(g: Grid, st: Gathered, nr: int, nc: int)
    requires Consistent(g, st)
    ensures Consistent(g, Visit(st, nr, nc))
    ensures |Visit(st, nr, nc).runs| >= |st.runs| && Visit(st, nr, nc).runs[..|st.runs|] == st.runs
    ensures 0 <= nr < |g| && 0 <= nc < |g[nr]| && IsDigit(g[nr][nc]) ==> Covered(Visit(st, nr, nc).runs, nr, nc)
    ensures |Visit(st, nr, nc).runs| > |st.runs| ==>
              |Visit(st, nr, nc).runs| == |st.runs| + 1 && InRun(Visit(st, nr, nc).runs[|st.runs|], nr, nc)
  {
    var data := st.data;
    if 0 <= nr < |data| && 0 <= nc < |data[nr]| && IsDigit(data[nr][nc]) {
      var run := VisitDigit(g, st, nr, nc);
      CoveredExtend(st.runs, run, nr, nc);
      assert (st.runs + [run])[..|st.runs|] == st.runs;
    } else if 0 <= nr < |g| && 0 <= nc < |g[nr]| {
      assert IsDigit(g[nr][nc]) ==> Covered(st.runs, nr, nc);
    }
  }

  /** (i, j) is one of the eight cells around (r, c). */
  predicate NearCell(i: int, j: int, r: int, c: int)
  {
    r - 1 <= i <= r + 1 && c - 1 <= j <= c + 1 && (i, j) != (r, c)
  }

  /** The run has a cell next to (r, c). */
  predicate Touches(run: Run, r: int, c: int)
  {
    exists j :: c - 1 <= j <= c + 1 && NearCell(run.row, j, r, c) && InRun(run, run.row, j)
  }

  lemma NearOffset(i: int, j: int, r: int, c: int) returns (k: nat)
    requires NearCell(i, j, r, c)
    ensures k < 9 && k != 4 && (i, j) == (r + Offset(k).0, c + Offset(k).1)
  {
    k := 3 * (i - r + 1) + (j - c + 1);
  }

  /** Every digit among the first `k` neighbours is covered by a run found by then. */
  ghost predicate Swept(g: Grid, r: int, c: int, k: nat, runs: seq<Run>)
  {
    forall m :: 0 <= m < k && m != 4 ==>
      var (i, j) := (r + Offset(m).0, c + Offset(m).1);
      0 <= i < |g| && 0 <= j < |g[i]| && IsDigit(g[i][j]) ==> Covered(runs, i, j)
  }

  lemma SweptExtend(g: Grid, r: int, c: int, k: nat, runs: seq<Run>, more: seq<Run>)
    requires Swept(g, r, c, k, runs) && |runs| <= |more| && more[..|runs|] == runs
    ensures Swept(g, r, c, k, more)
  {
    forall m | 0 <= m < k && m != 4
      ensures var (i, j) := (r + Offset(m).0, c + Offset(m).1);
              0 <= i < |g| && 0 <= j < |g[i]| && IsDigit(g[i][j]) ==> Covered(more, i, j)
    {
      var (i, j) := (r + Offset(m).0, c + Offset(m).1);
      if 0 <= i < |g| && 0 <= j < |g[i]| && IsDigit(g[i][j]) {
        var t :| 0 <= t < |runs| && InRun(runs[t], i, j);
        assert more[t] == runs[t];
      }
    }
  }

  predicate AllTouch(runs: seq<Run>, r: int, c: int)
  {
    forall t :: 0 <= t < |runs| ==> Touches(runs[t], r, c)
  }

  ghost predicate GatherInv(g: Grid, r: int, c: int, k: nat, st: Gathered)
  {
    Consistent(g, st) && AllTouch(st.runs, r, c) && Swept(g, r, c, k, st.runs)
  }

  lemma TouchExtend(runs: seq<Run>, more: seq<Run>, r: int, c: int, i: int, j: int)
    requires AllTouch(runs, r, c) && NearCell(i, j, r, c)
    requires |runs| <= |more| <= |runs| + 1 && more[..|runs|] == runs
    requires |more| > |runs| ==> InRun(more[|runs|], i, j)
    ensures AllTouch(more, r, c)
  {
    forall t | 0 <= t < |more| ensures Touches(more[t], r, c) {
      if t < |runs| {
        assert more[t] == runs[t];
      } else {
        assert InRun(more[t], more[t].row, j);
      }
    }
  }

  lemma SweptNext(g: Grid, r: int, c: int, k: nat, runs: seq<Run>)
    requires Swept(g, r, c, k, runs)
    requires var (i, j) := (r + Offset(k).0, c + Offset(k).1);
             k != 4 && 0 <= i < |g| && 0 <= j < |g[i]| && IsDigit(g[i][j]) ==> Covered(runs, i, j)
    ensures Swept(g, r, c, k + 1, runs)
  {
  }

  lemma GatherStep(g: Grid, r: int, c: int, k: nat)
    requires k < 9 && k != 4 && GatherInv(g, r, c, k, Gather(g, r, c, k))
    ensures GatherInv(g, r, c, k + 1, Gather(g, r, c, k + 1))
  {
    var st := Gather(g, r, c, k);
    var (i, j) := (r + Offset(k).0, c + Offset(k).1);
    VisitConsistent(g, st, i, j);
    var next := Visit(st, i, j);
    assert Gather(g, r, c, k + 1) == next;
    TouchExtend(st.runs, next.runs, r, c, i, j);
    SweptExtend(g, r, c, k, st.runs, next.runs);
    SweptNext(g, r, c, k, next.runs);
  }

  lemma {:induction false} GatherInvariant(g: Grid, r: int, c: int, k: nat)
    requires k <= 9
    ensures GatherInv(g, r, c, k, Gather(g, r, c, k))
  {
    if k == 0 {
      assert Gather(g, r, c, 0) == Gathered(g, [], []);
      forall i, j | 0 <= i < |g| && 0 <= j < |g[i]| ensures !Covered([], i, j) {
      }
    } else if k - 1 == 4 {
      GatherInvariant(g, r, c, k - 1);
    } else {
      GatherInvariant(g, r, c, k - 1);
      GatherStep(g, r, c, k - 1);
    }
  }

  /** `_collect_adjacent_numbers` (with every neighbour clipped to the grid) finds
      every number touching (r, c) exactly once: the runs it reports are distinct
      maximal runs of the grid that touch the cell, every such run is among them, and
      the reported numbers are their values, in the order found. */
  lemma CollectTouching(g: Grid, r: int, c: int)
    ensures var st := Gather(g, r, c, 9);
            && st.nums == Collect(g, r, c) && |st.nums| == |st.runs|
            && (forall t :: 0 <= t < |st.runs| ==>
                  RunOf(g, st.runs[t]) && Touches(st.runs[t], r, c) && st.nums[t] == RunValue(g, st.runs[t]))
            && Distinct(st.runs)
            && (forall run :: RunOf(g, run) && Touches(run, r, c) ==> run in st.runs)
  {
    GatherInvariant(g, r, c, 9);
    var st := Gather(g, r, c, 9);
    forall run | RunOf(g, run) && Touches(run, r, c) ensures run in st.runs {
      var j :| c - 1 <= j <= c + 1 && NearCell(run.row, j, r, c) && InRun(run, run.row, j);
      var m := NearOffset(run.row, j, r, c);
      assert DigitAt(g[run.row], j);
      var t :| 0 <= t < |st.runs| && InRun(st.runs[t], run.row, j);
      assert RunOf(g, st.runs[t]);
      MaximalRunUnique(g[run.row], run.start, run.len, st.runs[t].start, st.runs[t].len, j);
      assert st.runs[t] == run;
    }
  }

  // ------------------------------------------------------------ part 2 as written

  lemma VisitKeepsShape(st: Gathered, nr: int, nc: int, w: nat)
    requires Rect(st.data, w)
    ensures |Visit(st, nr, nc).data| == |st.data| && Rect(Visit(st, nr, nc).data, w)
  {
  }

  /** numpy's reading of index `i` on an axis of length `len`: a negative index counts
      from the end. */
  function Wrap(i: int, len: nat): int
  {
    if i < 0 then i + len else i
  }

  /** One neighbour as `_collect_adjacent_numbers` is written: `data[new_r, new_c]` is
      not clipped, so row or column -1 reads the last row or column and a row or
      column one past the end raises IndexError; a number found through column -1
      starts its slice at -1, and `int("")` of the empty slice `-1:0` raises
      ValueError. */
  function VisitAsWritten(st: Gathered, h: nat, w: nat, nr: int, nc: int): (res: Result<Gathered>)
    requires |st.data| == h && Rect(st.data, w)
    ensures res.Ok? ==> |res.value.data| == h && Rect(res.value.data, w)
  {
    if nr >= h || nc >= w || nr + h < 0 || nc + w < 0 then Err(IndexError)
    else
      var (i, j) := (Wrap(nr, h), Wrap(nc, w));
      if !IsDigit(st.data[i][j]) then Ok(st)
      else if nc < 0 then Err(ValueError)
      else
        VisitKeepsShape(st, i, j, w);
        Ok(Visit(st, i, j))
  }

  function GatherAsWritten(g: Grid, r: int, c: int, k: nat): (res: Result<Gathered>)
    requires k <= 9 && Rectangular(g)
    ensures res.Ok? ==> |res.value.data| == |g| && Rect(res.value.data, Width(g))
  {
    if k == 0 then Ok(Gathered(g, [], []))
    else
      match GatherAsWritten(g, r, c, k - 1)
      case Err(f) => Err(f)
      case Ok(st) =>
        if k - 1 == 4 then Ok(st) else VisitAsWritten(st, |g|, Width(g), r + Offset(k - 1).0, c + Offset(k - 1).1)
  }

  /** `_collect_adjacent_numbers` as written. */
  function CollectAsWritten(g: Grid, r: int, c: int): Result<seq<int>>
    requires Rectangular(g)
  {
    match GatherAsWritten(g, r, c, 9)
    case Err(f) => Err(f)
    case Ok(st) => Ok(st.nums)
  }

  lemma {:induction false} GatherErrPersists(g: Grid, r: int, c: int, k: nat, m: nat)
    requires k <= m <= 9 && Rectangular(g) && GatherAsWritten(g, r, c, k).Err?
    ensures GatherAsWritten(g, r, c, m) == GatherAsWritten(g, r, c, k)
    decreases m - k
  {
    if k < m {
      GatherErrPersists(g, r, c, k, m - 1);
    }
  }

  /** Away from the border the unclipped indexing reads the same cells as the clipped
      one, so the search as written agrees with `Collect`. */
  lemma {:induction false} InteriorAgrees(g: Grid, r: int, c: int, k: nat)
    requires k <= 9 && Rectangular(g) && 1 <= r && r + 1 < |g| && 1 <= c && c + 1 < Width(g)
    ensures GatherAsWritten(g, r, c, k) == Ok(Gather(g, r, c, k))
  {
    if k > 0 {
      InteriorAgrees(g, r, c, k - 1);
      var st := Gather(g, r, c, k - 1);
      if k - 1 != 4 {
        var (nr, nc) := (r + Offset(k - 1).0, c + Offset(k - 1).1);
        assert 0 <= nr < |g| && 0 <= nc < Width(g);
        assert |st.data| == |g| && Rect(st.data, Width(g)) by {
          GatherKeepsShape(g, r, c, k - 1);
        }
        assert VisitAsWritten(st, |g|, Width(g), nr, nc) == Ok(Visit(st, nr, nc));
      }
    }
  }

  lemma {:induction false} GatherKeepsShape(g: Grid, r: int, c: int, k: nat)
    requires k <= 9 && Rectangular(g)
    ensures |Gather(g, r, c, k).data| == |g| && Rect(Gather(g, r, c, k).data, Width(g))
  {
    if k > 0 {
      GatherKeepsShape(g, r, c, k - 1);
      if k - 1 != 4 {
        VisitKeepsShape(Gather(g, r, c, k - 1), r + Offset(k - 1).0, c + Offset(k - 1).1, Width(g));
      }
    }
  }

  lemma InteriorCollect(g: Grid, r: int, c: int)
    requires Rectangular(g) && 1 <= r && r + 1 < |g| && 1 <= c && c + 1 < Width(g)
    ensures CollectAsWritten(g, r, c) == Ok(Collect(g, r, c))
  {
    InteriorAgrees(g, r, c, 9);
  }

  /** A cell on the last row or in the last column always makes the search as written
      fail: the neighbour one past the end is out of bounds. */
  lemma BorderCollectFails(g: Grid, r: int, c: int)
    requires Rectangular(g) && 0 <= r < |g| && 0 <= c < Width(g) && (r + 1 == |g| || c + 1 == Width(g))
    ensures CollectAsWritten(g, r, c).Err?
  {
    var k: nat := if r + 1 == |g| then 7 else 5;
    assert Offset(k) == (if r + 1 == |g| then 1 else 0, if r + 1 == |g| then 0 else 1);
    if GatherAsWritten(g, r, c, k).Err? {
      GatherErrPersists(g, r, c, k, 9);
    } else {
      assert GatherAsWritten(g, r, c, k + 1).Err?;
      GatherErrPersists(g, r, c, k + 1, 9);
    }
  }

  /** A gear in the top row, away from the corners, collects numbers from the bottom
      row: here the numbers 2 and 3 in the last row are reported around the '*' at
      (0, 1), although nothing touches it. */
  lemma WrapCounterexample()
    ensures CollectAsWritten([".*.", "...", "2.3"], 0, 1) == Ok([2, 3])
    ensures Collect([".*.", "...", "2.3"], 0, 1) == []
  {
    var g: Grid := [".*.", "...", "2.3"];
    var st2 := Gathered([".*.", "...", "..."], [Run(2, 0, 1), Run(2, 2, 1)], [2, 3]);
    WrapFirstRow(g);
    assert GatherAsWritten(g, 0, 1, 6) == Ok(st2);
    assert GatherAsWritten(g, 0, 1, 9) == Ok(st2);
    assert Gather(g, 0, 1, 3) == Gathered(g, [], []);
    assert Gather(g, 0, 1, 6) == Gathered(g, [], []);
  }

  /** The first three offsets of the example, which wrap to the last row. */
  lemma WrapFirstRow(g: Grid)
    requires g == [".*.", "...", "2.3"]
    ensures GatherAsWritten(g, 0, 1, 3) == Ok(Gathered([".*.", "...", "..."], [Run(2, 0, 1), Run(2, 2, 1)], [2, 3]))
  {
    var d1: Grid := [".*.", "...", "..3"];
    var d2: Grid := [".*.", "...", "..."];
    var st1 := Gathered(d1, [Run(2, 0, 1)], [2]);
    var st2 := Gathered(d2, [Run(2, 0, 1), Run(2, 2, 1)], [2, 3]);
    WrapVisitTwo(g);
    WrapVisitThree(d1);
    assert GatherAsWritten(g, 0, 1, 1) == Ok(st1);
    assert GatherAsWritten(g, 0, 1, 2) == Ok(st1);
  }

  /** Offset (+1, -1) of the example reads the 2 of the last row and blanks it. */
  lemma WrapVisitTwo(g: Grid)
    requires g == [".*.", "...", "2.3"]
    ensures Visit(Gathered(g, [], []), 2, 0) == Gathered([".*.", "...", "..3"], [Run(2, 0, 1)], [2])
  {
    var d1: Grid := [".*.", "...", "..3"];
    assert LeftEnd(g[2], 0) == 0 && DigitsFrom(g[2], 0) == 1;
    assert Blank(g, 2, 0, 1)[2] == d1[2];
    assert g[2][0..1] == "2" && "2"[..0] == [];
  }

  /** Offset (+1, +1) of the example reads the 3 of the last row and blanks it. */
  lemma WrapVisitThree(d1: Grid)
    requires d1 == [".*.", "...", "..3"]
    ensures Visit(Gathered(d1, [Run(2, 0, 1)], [2]), 2, 2)
         == Gathered([".*.", "...", "..."], [Run(2, 0, 1), Run(2, 2, 1)], [2, 3])
  {
    var d2: Grid := [".*.", "...", "..."];
    assert LeftEnd(d1[2], 2) == 2 && DigitsFrom(d1[2], 2) == 1;
    assert Blank(d1, 2, 2, 3)[2] == d2[2];
    assert d1[2][2..3] == "3" && "3"[..0] == [];
  }

  // ------------------------------------------------------------ the solver over a 2-D array

  lemma RowsRectangular(a: array2<char>)
    ensures Rectangular(Rows(a)) && |Rows(a)| == a.Length0
    ensures a.Length0 > 0 ==> Width(Rows(a)) == a.Length1
  {
  }

  /** The rows r - 1, r, r + 1 that lie in the grid, in that order (`rows_to_check`). */
  function RowsAround(r: int, h: int): (rows: seq<int>)
    ensures forall x :: x in rows <==> r - 1 <= x <= r + 1 && 0 <= x < h
    ensures forall i, j :: 0 <= i < j < |rows| ==> rows[i] < rows[j]
  {
    (if 0 <= r - 1 < h then [r - 1] else []) + (if 0 <= r < h then [r] else []) +
    (if 0 <= r + 1 < h then [r + 1] else [])
  }

  /** `list.remove`: drop the first occurrence of `x` (here its only one). */
  function Remove(s: seq<int>, x: int): (t: seq<int>)
    requires x in s && forall i, j :: 0 <= i < j < |s| ==> s[i] < s[j]
    ensures forall k :: 0 <= k < |t| ==> t[k] in s && t[k] != x
    ensures forall y :: y in s && y != x ==> y in t
  {
    if s[0] == x then
      assert forall k :: 0 < k < |s| ==> s[k] != x;
      s[1..]
    else [s[0]] + Remove(s[1..], x)
  }

  /** Some row of `rows` holds a symbol in column `col`. */
  ghost predicate ColumnHasSymbol(g: Grid, rows: seq<int>, col: int)
  {
    exists k :: 0 <= k < |rows| && 0 <= rows[k] < |g| && 0 <= col < |g[rows[k]]| && IsSymbol(g[rows[k]][col])
  }

  /** Some row of `rows` holds a symbol in a column from `lo` to `hi - 1`. */
  ghost predicate BandHasSymbol(g: Grid, rows: seq<int>, lo: int, hi: int)
  {
    exists k, cc :: 0 <= k < |rows| && lo <= cc < hi && 0 <= rows[k] < |g| && 0 <= cc < |g[rows[k]]| &&
                    IsSymbol(g[rows[k]][cc])
  }

  /** Which of the three parts `_has_symbol_neighbor` checks in turn holds a symbol. */
  ghost predicate PartsHaveSymbol(g: Grid, r: int, cStart: int, n: int, rows: seq<int>, others: seq<int>)
  {
    || (cStart - 1 >= 0 && ColumnHasSymbol(g, rows, cStart - 1))
    || (cStart + n < Width(g) && ColumnHasSymbol(g, rows, cStart + n))
    || BandHasSymbol(g, others, cStart, cStart + n)
  }

  /** The three parts make up `SymbolNear`. */
  lemma SymbolNearParts(g: Grid, r: int, cStart: int, n: int, rows: seq<int>, others: seq<int>)
    requires Rectangular(g) && 0 <= r < |g| && 0 <= cStart && 1 <= n && cStart + n <= Width(g)
    requires rows == RowsAround(r, |g|) && others == Remove(rows, r)
    ensures SymbolNear(g, r, cStart, n) <==> PartsHaveSymbol(g, r, cStart, n, rows, others)
  {
    if SymbolNear(g, r, cStart, n) {
      NearInParts(g, r, cStart, n, rows, others);
    }
    if PartsHaveSymbol(g, r, cStart, n, rows, others) {
      assert AroundRows(others, r) by {
        forall k | 0 <= k < |others| ensures r - 1 <= others[k] <= r + 1 {
          assert others[k] in rows;
        }
      }
      PartsNear(g, r, cStart, n, rows, others);
    }
  }

  lemma NearInParts(g: Grid, r: int, cStart: int, n: int, rows: seq<int>, others: seq<int>)
    requires Rectangular(g) && 0 <= r < |g| && 0 <= cStart && 1 <= n && cStart + n <= Width(g)
    requires forall x :: r - 1 <= x <= r + 1 && 0 <= x < |g| ==> x in rows
    requires forall x :: x in rows && x != r ==> x in others
    requires SymbolNear(g, r, cStart, n)
    ensures PartsHaveSymbol(g, r, cStart, n, rows, others)
  {
    var rr: int, cc: int :| Checked(g, r, cStart, n, rr, cc) && IsSymbol(g[rr][cc]);
    assert rr in rows;
    var k :| 0 <= k < |rows| && rows[k] == rr;
    if rr != r && cStart <= cc < cStart + n {
      assert rr in others;
      var m :| 0 <= m < |others| && others[m] == rr;
      assert BandHasSymbol(g, others, cStart, cStart + n);
    } else if cc == cStart - 1 {
      assert ColumnHasSymbol(g, rows, cStart - 1);
    } else {
      assert ColumnHasSymbol(g, rows, cStart + n);
    }
  }

  /** Every row listed is r - 1, r or r + 1. */
  predicate AroundRows(rows: seq<int>, r: int)
  {
    forall k :: 0 <= k < |rows| ==> r - 1 <= rows[k] <= r + 1
  }

  lemma PartsNear(g: Grid, r: int, cStart: int, n: int, rows: seq<int>, others: seq<int>)
    requires Rectangular(g) && 0 <= r < |g| && 0 <= cStart && 1 <= n && cStart + n <= Width(g)
    requires AroundRows(rows, r) && AroundRows(others, r) && forall k :: 0 <= k < |others| ==> others[k] != r
    requires PartsHaveSymbol(g, r, cStart, n, rows, others)
    ensures SymbolNear(g, r, cStart, n)
  {
    if cStart - 1 >= 0 && ColumnHasSymbol(g, rows, cStart - 1) {
      var k :| 0 <= k < |rows| && 0 <= rows[k] < |g| && 0 <= cStart - 1 < |g[rows[k]]| && IsSymbol(g[rows[k]][cStart - 1]);
      assert Checked(g, r, cStart, n, rows[k], cStart - 1);
    } else if cStart + n < Width(g) && ColumnHasSymbol(g, rows, cStart + n) {
      var k :| 0 <= k < |rows| && 0 <= rows[k] < |g| && 0 <= cStart + n < |g[rows[k]]| && IsSymbol(g[rows[k]][cStart + n]);
      assert Checked(g, r, cStart, n, rows[k], cStart + n);
    } else {
      var k: int, cc: int :| 0 <= k < |others| && cStart <= cc < cStart + n && 0 <= others[k] < |g| &&
                             0 <= cc < |g[others[k]]| && IsSymbol(g[others[k]][cc]);
      assert Checked(g, r, cStart, n, others[k], cc);
    }
  }

  /** One bookend loop: `for new_r in rows_to_check: if is_symbol(...)`. */
  method ColumnScan(input: array2<char>, rows: seq<int>, col: int) returns (found: bool)
    requires forall k :: 0 <= k < |rows| ==> 0 <= rows[k] < input.Length0
    requires 0 <= col < input.Length1
    ensures found == ColumnHasSymbol(Rows(input), rows, col)
  {
    for i := 0 to |rows|
      invariant forall k :: 0 <= k < i ==> !IsSymbol(input[rows[k], col])
    {
      if IsSymbol(input[rows[i], col]) {
        assert Rows(input)[rows[i]][col] == input[rows[i], col];
        return true;
      }
    }
    return false;
  }

  /** The loops along the number, column by column. */
  method BandScan(input: array2<char>, rows: seq<int>, lo: int, hi: int) returns (found: bool)
    requires forall k :: 0 <= k < |rows| ==> 0 <= rows[k] < input.Length0
    requires 0 <= lo <= hi <= input.Length1
    ensures found == BandHasSymbol(Rows(input), rows, lo, hi)
  {
    for newC := lo to hi
      invariant forall k, cc :: 0 <= k < |rows| && lo <= cc < newC ==> !IsSymbol(input[rows[k], cc])
    {
      for i := 0 to |rows|
        invariant forall k, cc :: 0 <= k < |rows| && lo <= cc < newC ==> !IsSymbol(input[rows[k], cc])
        invariant forall k :: 0 <= k < i ==> !IsSymbol(input[rows[k], newC])
      {
        if IsSymbol(input[rows[i], newC]) {
          assert Rows(input)[rows[i]][newC] == input[rows[i], newC];
          return true;
        }
      }
    }
    return false;
  }

  /** `_has_symbol_neighbor`: the bookend columns, then the rows above and below along
      the number. */
  method HasSymbolNeighbor(input: array2<char>, r: int, cStart: int, n: int) returns (b: bool)
    requires 0 <= r < input.Length0 && 0 <= cStart && 1 <= n && cStart + n <= input.Length1
    ensures b == SymbolNear(Rows(input), r, cStart, n)
  {
    ghost var g := Rows(input);
    RowsRectangular(input);
    var rowsToCheck := RowsAround(r, input.Length0);
    var others := Remove(rowsToCheck, r);
    b := ScanParts(input, r, cStart, n, rowsToCheck, others);
    SymbolNearParts(g, r, cStart, n, rowsToCheck, others);
  }

  /** The body of `_has_symbol_neighbor` once the rows to check are known. */
  method ScanParts(input: array2<char>, r: int, cStart: int, n: int, rowsToCheck: seq<int>, others: seq<int>)
    returns (b: bool)
    requires 0 <= r < input.Length0 && 0 <= cStart && 1 <= n && cStart + n <= input.Length1
    requires forall k :: 0 <= k < |rowsToCheck| ==> 0 <= rowsToCheck[k] < input.Length0
    requires forall k :: 0 <= k < |others| ==> 0 <= others[k] < input.Length0
    ensures b == PartsHaveSymbol(Rows(input), r, cStart, n, rowsToCheck, others)
  {
    RowsRectangular(input);
    var cLeft := cStart - 1;
    if cLeft >= 0 {
      b := ColumnScan(input, rowsToCheck, cLeft);
      if b {
        return;
      }
    }
    var cRight := cStart + n;
    if cRight < input.Length1 {
      b := ColumnScan(input, rowsToCheck, cRight);
      if b {
        return;
      }
    }
    b := BandScan(input, others, cStart, cStart + n);
  }

  lemma RowPartsAppend(g: Grid, r: int, done: seq<(nat, nat)>, run: (nat, nat))
    requires Rectangular(g) && 0 <= r < |g|
    ensures RowParts(g, r, done + [run]) == RowParts(g, r, done) + PartValue(g, r, run)
  {
    assert (done + [run])[..|done|] == done;
  }

  /** Scanning past a run: the runs still ahead start after it. */
  lemma TakeStep(row: seq<char>, all: seq<(nat, nat)>, done: seq<(nat, nat)>, c: nat) returns (next: nat)
    requires c < |row| && (c == 0 || !IsDigit(row[c - 1])) && IsDigit(row[c])
    requires all == done + Runs(row, c)
    ensures next == if c + DigitsFrom(row, c) == |row| then |row| else c + DigitsFrom(row, c) + 1
    ensures next <= |row| && (next == 0 || next == |row| || !IsDigit(row[next - 1]))
    ensures all == (done + [(c, DigitsFrom(row, c))]) + Runs(row, next)
  {
    var n := DigitsFrom(row, c);
    if c + n == |row| {
      next := |row|;
    } else {
      assert !IsDigit(row[c + n]);
      next := c + n + 1;
    }
    RunsUnfold(row, c, next);
    var rest := Runs(row, next);
    assert done + ([(c, n)] + rest) == (done + [(c, n)]) + rest;
  }

  /** The runs from the start of a run are that run followed by the runs after it. */
  lemma RunsUnfold(row: seq<char>, c: nat, next: nat)
    requires c < |row| && (c == 0 || !IsDigit(row[c - 1])) && IsDigit(row[c])
    requires next == if c + DigitsFrom(row, c) == |row| then |row| else c + DigitsFrom(row, c) + 1
    ensures next <= |row| && (next == 0 || next == |row| || !IsDigit(row[next - 1]))
    ensures Runs(row, c) == [(c, DigitsFrom(row, c))] + Runs(row, next)
  {
  }

  /** Scanning past a cell outside every run. */
  lemma SkipStep(row: seq<char>, all: seq<(nat, nat)>, done: seq<(nat, nat)>, c: nat)
    requires c < |row| && (c == 0 || !IsDigit(row[c - 1])) && !IsDigit(row[c])
    requires all == done + Runs(row, c)
    ensures all == done + Runs(row, c + 1)
  {
  }

  /** The number met at (r, c) in `solve1`: measure it on the copy, add it when a
      symbol is near, and blank it.  Returns its length and what it adds. */
  method TakeNumber(input: array2<char>, data: array2<char>, ghost g: Grid, r: int, c: int) returns (n: nat, gain: nat)
    requires g == Rows(input)
    requires data != input && data.Length0 == input.Length0 && data.Length1 == input.Length1
    requires 0 <= r < input.Length0 && 0 <= c < input.Length1
    requires forall j :: c <= j < data.Length1 ==> data[r, j] == g[r][j]
    requires IsDigit(data[r, c]) && (c == 0 || !IsDigit(g[r][c - 1]))
    modifies data
    ensures n == DigitsFrom(g[r], c) && c + n <= data.Length1
    ensures gain == PartValue(g, r, (c, n))
    ensures forall j :: c <= j < c + n ==> data[r, j] == EmptyCell
    ensures forall j :: 0 <= j < data.Length1 && !(c <= j < c + n) ==> data[r, j] == old(data[r, j])
    ensures forall i, j :: 0 <= i < data.Length0 && i != r && 0 <= j < data.Length1 ==> data[i, j] == old(data[i, j])
  {
    n, gain := ReadNumber(input, data, g, r, c);
    forall j | c <= j < c + n {
      data[r, j] := EmptyCell;
    }
  }

  /** The reading half of `solve1`'s digit branch: the count and, when a symbol is
      near, the value. */
  method ReadNumber(input: array2<char>, data: array2<char>, ghost g: Grid, r: int, c: int) returns (n: nat, gain: nat)
    requires g == Rows(input)
    requires data.Length0 == input.Length0 && data.Length1 == input.Length1
    requires 0 <= r < input.Length0 && 0 <= c < input.Length1
    requires forall j :: c <= j < data.Length1 ==> data[r, j] == g[r][j]
    requires IsDigit(data[r, c]) && (c == 0 || !IsDigit(g[r][c - 1]))
    ensures n == DigitsFrom(g[r], c) && c + n <= data.Length1
    ensures gain == PartValue(g, r, (c, n))
  {
    RowsRectangular(input);
    ghost var row := g[r];
    assert RowOf(data, r)[c..] == row[c..];
    CountDigitsSuffix(row, c);
    n := CountDigits(RowOf(data, r)[c..]).value;
    assert MaximalRun(row, c, n);
    var near := HasSymbolNeighbor(input, r, c, n);
    PartValueOf(g, r, c, n, near);
    gain := 0;
    if near {
      var slice := RowOf(data, r)[c..c + n];
      assert slice == row[c..c + n];
      gain := Decimal(slice);
    }
  }

  /** The value `solve1` adds for the maximal run at (r, c). */
  lemma PartValueOf(g: Grid, r: int, c: nat, n: nat, near: bool)
    requires Rectangular(g) && 0 <= r < |g| && MaximalRun(g[r], c, n) && near == SymbolNear(g, r, c, n)
    ensures AllDigits(g[r][c..c + n])
    ensures PartValue(g, r, (c, n)) == if near then Decimal(g[r][c..c + n]) else 0
  {
    DigitsSlice(g[r], c, c + n);
  }


  /** What `solve1`'s scan of row `r` has established before column `c`: the runs
      starting before `next` are `done`, their values are in `total`, they are
      blanked in the copy, and the rest of the row is still as read. */
  ghost predicate ScanInv(input: array2<char>, data: array2<char>, g: Grid, r: int, c: int,
                          next: nat, done: seq<(nat, nat)>, total0: int, total: int)
    requires g == Rows(input) && data.Length0 == input.Length0 && data.Length1 == input.Length1
    requires 0 <= r < input.Length0
    reads input, data
  {
    0 <= c <= next <= data.Length1 &&
    (next == 0 || next == data.Length1 || !IsDigit(g[r][next - 1])) &&
    Runs(g[r], 0) == done + Runs(g[r], next) &&
    (forall j :: c <= j < next ==> !IsDigit(data[r, j])) &&
    (forall j :: next <= j < data.Length1 ==> data[r, j] == g[r][j]) &&
    total == total0 + RowParts(g, r, done)
  }

  /** One column of `solve1`'s scan of row `r`. */
  method ScanCell(input: array2<char>, data: array2<char>, ghost g: Grid, r: int, c: int,
                  ghost next: nat, ghost done: seq<(nat, nat)>, total0: int, total: int)
    returns (ghost next': nat, ghost done': seq<(nat, nat)>, total': int)
    requires g == Rows(input)
    requires data != input && data.Length0 == input.Length0 && data.Length1 == input.Length1
    requires 0 <= r < input.Length0 && c < data.Length1
    requires ScanInv(input, data, g, r, c, next, done, total0, total)
    modifies data
    ensures ScanInv(input, data, g, r, c + 1, next', done', total0, total')
    ensures forall i, j :: 0 <= i < data.Length0 && i != r && 0 <= j < data.Length1 ==> data[i, j] == old(data[i, j])
  {
    RowsRectangular(input);
    ghost var row := g[r];
    next', done', total' := next, done, total;
    if IsDigit(data[r, c]) {
      next', done', total' := ScanNumber(input, data, g, r, c, done, total0, total);
    } else if c == next {
      SkipStep(row, Runs(row, 0), done, c);
      next' := c + 1;
    }
  }

  /** The digit branch of `solve1`'s scan: the run starting at `c` is taken. */
  method ScanNumber(input: array2<char>, data: array2<char>, ghost g: Grid, r: int, c: nat,
                    ghost done: seq<(nat, nat)>, total0: int, total: int)
    returns (ghost next': nat, ghost done': seq<(nat, nat)>, total': int)
    requires g == Rows(input)
    requires data != input && data.Length0 == input.Length0 && data.Length1 == input.Length1
    requires 0 <= r < input.Length0 && c < data.Length1
    requires ScanInv(input, data, g, r, c, c, done, total0, total) && IsDigit(data[r, c])
    modifies data
    ensures ScanInv(input, data, g, r, c + 1, next', done', total0, total')
    ensures forall i, j :: 0 <= i < data.Length0 && i != r && 0 <= j < data.Length1 ==> data[i, j] == old(data[i, j])
  {
    RowsRectangular(input);
    ghost var row := g[r];
    var n, gain := TakeNumber(input, data, g, r, c);
    total' := total + gain;
    RowPartsAppend(g, r, done, (c, n));
    next' := TakeStep(row, Runs(row, 0), done, c);
    if c + n < data.Length1 {
      assert data[r, c + n] == row[c + n] && !IsDigit(row[c + n]);
    }
    forall j | c + 1 <= j < next'
      ensures !IsDigit(data[r, j])
    {
      if j < c + n {
        assert data[r, j] == EmptyCell;
      }
    }
    done' := done + [(c, n)];
  }

  /** One row of `solve1`'s scan: each run of digits met in the copy is taken in turn. */
  method ScanRow(input: array2<char>, data: array2<char>, ghost g: Grid, r: int, total0: int) returns (total: int)
    requires g == Rows(input)
    requires data != input && data.Length0 == input.Length0 && data.Length1 == input.Length1
    requires 0 <= r < input.Length0
    requires forall j :: 0 <= j < data.Length1 ==> data[r, j] == input[r, j]
    modifies data
    ensures forall i, j :: 0 <= i < data.Length0 && i != r && 0 <= j < data.Length1 ==> data[i, j] == old(data[i, j])
    ensures total == total0 + RowParts(g, r, Runs(g[r], 0))
  {
    var w := data.Length1;
    ghost var next: nat := 0;
    ghost var done: seq<(nat, nat)> := [];
    total := total0;
    for c := 0 to w
      invariant ScanInv(input, data, g, r, c, next, done, total0, total)
      invariant forall i, j :: 0 <= i < data.Length0 && i != r && 0 <= j < w ==> data[i, j] == old(data[i, j])
    {
      next, done, total := ScanCell(input, data, g, r, c, next, done, total0, total);
    }
    assert Runs(g[r], next) == [] && done + [] == done;
  }

  /** `solve1`: the sum of the numbers with a symbol near them. */
  method Solve1(input: array2<char>) returns (total: int)
    ensures total == PartTotal(Rows(input), input.Length0)
  {
    ghost var g := Rows(input);
    RowsRectangular(input);
    var data := CopyGrid(input);
    total := 0;
    for r := 0 to data.Length0
      invariant forall i, j :: r <= i < data.Length0 && 0 <= j < data.Length1 ==> data[i, j] == input[i, j]
      invariant total == PartTotal(g, r)
    {
      total := ScanRow(input, data, g, r, total);
    }
  }

  // ---------------------------------------------------------------------------
  // Part 2 on the array, as written

  /** The copy `data` holds the grid `cur`. */
  ghost predicate Holds(data: array2<char>, cur: Grid)
    reads data
  {
    && |cur| == data.Length0 && Rect(cur, data.Length1)
    && forall i, j :: 0 <= i < data.Length0 && 0 <= j < data.Length1 ==> data[i, j] == cur[i][j]
  }

  /** The body of the inner loop of `_collect_adjacent_numbers` for the neighbour
      (nr, nc): the unclipped read, then the number through it, if any. */
  method VisitNeighbour(data: array2<char>, ghost st: Gathered, ghost width: nat, nums: seq<int>, nr: int, nc: int)
    returns (res: Result<seq<int>>, ghost st': Gathered)
    requires Holds(data, st.data) && st.nums == nums
    requires Rect(st.data, width) && (data.Length0 > 0 ==> width == data.Length1)
    modifies data
    ensures VisitAsWritten(st, |st.data|, width, nr, nc) == if res.Ok? then Ok(st') else Err(res.fault)
    ensures res.Ok? ==> Holds(data, st'.data) && st'.nums == res.value
  {
    var h, w := data.Length0, data.Length1;
    VisitWidths(st, h, w, width, nr, nc);
    st' := st;
    if nr >= h || nc >= w || nr + h < 0 || nc + w < 0 {
      return Err(IndexError), st;
    }
    var i := if nr < 0 then nr + h else nr;
    var j := if nc < 0 then nc + w else nc;
    if !IsDigit(data[i, j]) {
      return Ok(nums), st;
    }
    if nc < 0 {
      // The slice starts at column -1 and ends at the count of digits, 1: `int("")`.
      return Err(ValueError), st;
    }
    var num;
    num, st' := TakeNeighbour(data, st, i, j);
    res := Ok(nums + [num]);
  }

  /** The number through the digit at (i, j) of the copy: the walk left to its start,
      the count, the conversion and the blanking. */
  method TakeNeighbour(data: array2<char>, ghost st: Gathered, i: nat, j: nat) returns (num: int, ghost st': Gathered)
    requires Holds(data, st.data) && i < data.Length0 && j < data.Length1 && IsDigit(data[i, j])
    modifies data
    ensures st' == Visit(st, i, j) && st'.nums == st.nums + [num]
    ensures Holds(data, st'.data)
  {
    var cStart := RunStart(data, st.data, i, j);
    var n;
    n, num := ReadRun(data, st, i, cStart);
    st' := TakeRun(st, i, cStart);
    TakeRunIs(st, i, cStart);
    forall k | cStart <= k < cStart + n {
      data[i, k] := EmptyCell;
    }
  }

  /** The `while c_start > 0 and data[new_r, c_start - 1].isdigit()` walk. */
  method RunStart(data: array2<char>, ghost cur: Grid, i: nat, j: nat) returns (cStart: nat)
    requires Holds(data, cur) && i < data.Length0 && j < data.Length1 && IsDigit(data[i, j])
    ensures cStart == LeftEnd(cur[i], j) && cStart < data.Length1 && IsDigit(data[i, cStart])
  {
    cStart := j;
    while cStart > 0 && IsDigit(data[i, cStart - 1])
      invariant 0 <= cStart <= j && IsDigit(data[i, cStart])
      invariant LeftEnd(cur[i], j) == LeftEnd(cur[i], cStart)
    {
      cStart := cStart - 1;
    }
  }

  /** `_count_digits` on the rest of the row and `int` of the digits it counts. */
  method ReadRun(data: array2<char>, ghost st: Gathered, i: nat, cStart: nat) returns (n: nat, num: int)
    requires Holds(data, st.data) && i < data.Length0 && cStart < data.Length1 && IsDigit(data[i, cStart])
    ensures n == DigitsFrom(st.data[i], cStart)
    ensures TakeRun(st, i, cStart).nums == st.nums + [num]
  {
    ghost var row := st.data[i];
    assert RowOf(data, i)[cStart..] == row[cStart..];
    CountDigitsSuffix(row, cStart);
    n := CountDigits(RowOf(data, i)[cStart..]).value;
    var slice := RowOf(data, i)[cStart..cStart + n];
    assert slice == row[cStart..cStart + n];
    TakeRunNum(st, i, cStart, slice);
    num := Decimal(slice);
  }

  /** Which (row shift, column shift) the offset index stands for. */
  lemma OffsetOf(rs: int, cs: int)
    requires 0 <= rs < 3 && 0 <= cs < 3
    ensures Offset(3 * rs + cs) == (rs - 1, cs - 1)
  {
    var k := 3 * rs + cs;
    assert k / 3 == rs && k % 3 == cs;
  }

  /** With at least one row the width of the array and of the grid agree; with none
      every neighbour is out of bounds. */
  lemma VisitWidths(st: Gathered, h: nat, w1: nat, w2: nat, nr: int, nc: int)
    requires |st.data| == h && Rect(st.data, w1) && Rect(st.data, w2) && (h > 0 ==> w1 == w2)
    ensures VisitAsWritten(st, h, w1, nr, nc) == VisitAsWritten(st, h, w2, nr, nc)
  {
  }

  /** One more offset of the search as written, from the state before it. */
  lemma GatherAsWrittenStep(g: Grid, r: int, c: int, rs: int, cs: int, st: Gathered)
    requires 0 <= rs < 3 && 0 <= cs < 3 && Rectangular(g) && GatherAsWritten(g, r, c, 3 * rs + cs) == Ok(st)
    ensures |st.data| == |g| && Rect(st.data, Width(g))
    ensures GatherAsWritten(g, r, c, 3 * rs + cs + 1)
            == if rs == 1 && cs == 1 then Ok(st) else VisitAsWritten(st, |g|, Width(g), r + rs - 1, c + cs - 1)
  {
    OffsetOf(rs, cs);
  }

  /** A failed step of the search as written is its result. */
  lemma CollectAsWrittenErr(g: Grid, r: int, c: int, k: nat)
    requires k <= 9 && Rectangular(g) && GatherAsWritten(g, r, c, k).Err?
    ensures CollectAsWritten(g, r, c) == Err(GatherAsWritten(g, r, c, k).fault)
  {
    GatherErrPersists(g, r, c, k, 9);
  }

  /** The loop invariant of `_collect_adjacent_numbers`: the array holds the copy after the
      first `k` offsets, and `nums` the numbers found so far. */
  ghost predicate Gathering(data: array2<char>, g: Grid, r: int, c: int, k: nat, st: Gathered, nums: seq<int>)
    reads data
  {
    k <= 9 && Rectangular(g) && GatherAsWritten(g, r, c, k) == Ok(st) && st.nums == nums && Holds(data, st.data)
  }

  /** One offset of the two `for ... in (-1, 0, 1)` loops of `_collect_adjacent_numbers`. */
  method VisitOffset(data: array2<char>, ghost g: Grid, r: int, c: int, rs: int, cs: int, ghost st: Gathered, nums: seq<int>)
    returns (res: Result<seq<int>>, ghost st': Gathered)
    requires 0 <= rs < 3 && 0 <= cs < 3 && Gathering(data, g, r, c, 3 * rs + cs, st, nums)
    modifies data
    ensures res.Ok? ==> Gathering(data, g, r, c, 3 * rs + cs + 1, st', res.value)
    ensures res.Err? ==> CollectAsWritten(g, r, c) == Err(res.fault)
  {
    if rs == 1 && cs == 1 {
      assert GatherAsWritten(g, r, c, 3 * rs + cs + 1) == Ok(st) by {
        GatherAsWrittenStep(g, r, c, rs, cs, st);
      }
      return Ok(nums), st;
    }
    GatherAsWrittenStep(g, r, c, rs, cs, st);
    assert data.Length0 > 0 ==> Width(g) == data.Length1 by {
      if data.Length0 > 0 {
        assert |st.data[0]| == data.Length1;
      }
    }
    res, st' := VisitNeighbour(data, st, Width(g), nums, r + rs - 1, c + cs - 1);
    VisitOffsetOutcome(g, r, c, rs, cs, st, res, st');
  }

  /** What one visited offset does to the gathering specification. */
  lemma VisitOffsetOutcome(g: Grid, r: int, c: int, rs: int, cs: int, st: Gathered, res: Result<seq<int>>, st': Gathered)
    requires 0 <= rs < 3 && 0 <= cs < 3 && !(rs == 1 && cs == 1)
    requires Rectangular(g) && GatherAsWritten(g, r, c, 3 * rs + cs) == Ok(st) && |st.data| == |g|
    requires VisitAsWritten(st, |g|, Width(g), r + rs - 1, c + cs - 1) == if res.Ok? then Ok(st') else Err(res.fault)
    ensures res.Ok? ==> GatherAsWritten(g, r, c, 3 * rs + cs + 1) == Ok(st')
    ensures res.Err? ==> CollectAsWritten(g, r, c) == Err(res.fault)
  {
    GatherAsWrittenStep(g, r, c, rs, cs, st);
    if res.Err? {
      CollectAsWrittenErr(g, r, c, 3 * rs + cs + 1);
    }
  }

  /** `_collect_adjacent_numbers` as written, on the array. */
  method CollectAdjacentNumbers(input: array2<char>, ghost g: Grid, r: int, c: int) returns (res: Result<seq<int>>)
    requires g == Rows(input)
    ensures res == CollectAsWritten(g, r, c)
  {
    RowsRectangular(input);
    var data := CopyGrid(input);
    assert Holds(data, g);
    res := SearchNeighbours(data, g, r, c);
  }

  /** The two `for ... in (-1, 0, 1)` loops of `_collect_adjacent_numbers`, on the copy. */
  method SearchNeighbours(data: array2<char>, ghost g: Grid, r: int, c: int) returns (res: Result<seq<int>>)
    requires Rectangular(g) && Holds(data, g)
    modifies data
    ensures res == CollectAsWritten(g, r, c)
  {
    var nums: seq<int> := [];
    ghost var st := Gathered(g, [], []);
    assert Gathering(data, g, r, c, 0, st, nums);
    for rs := 0 to 3
      invariant Gathering(data, g, r, c, 3 * rs, st, nums)
    {
      var row;
      row, st := SearchRowShift(data, g, r, c, rs, st, nums);
      if row.Err? {
        return row;
      }
      nums := row.value;
    }
    return Ok(nums);
  }

  /** The inner loop, over the column shifts of row shift `rs`. */
  method SearchRowShift(data: array2<char>, ghost g: Grid, r: int, c: int, rs: int, ghost st: Gathered, nums: seq<int>)
    returns (res: Result<seq<int>>, ghost st': Gathered)
    requires 0 <= rs < 3 && Gathering(data, g, r, c, 3 * rs, st, nums)
    modifies data
    ensures res.Ok? ==> Gathering(data, g, r, c, 3 * rs + 3, st', res.value)
    ensures res.Err? ==> res == CollectAsWritten(g, r, c)
  {
    var found := nums;
    st' := st;
    for cs := 0 to 3
      invariant Gathering(data, g, r, c, 3 * rs + cs, st', found)
    {
      var step;
      step, st' := VisitOffset(data, g, r, c, rs, cs, st', found);
      if step.Err? {
        return Err(step.fault), st';
      }
      found := step.value;
    }
    return Ok(found), st';
  }

  // ---------------------------------------------------------------------------
  // Gear ratios

  /** The ratio a gear contributes: the product of exactly two adjacent numbers. */
  function Ratio(nums: seq<int>): (ratio: int)
    ensures |nums| != 2 ==> ratio == 0
  {
    if |nums| == 2 then nums[0] * nums[1] else 0
  }

  /** `solve2` as written over the first `c` cells of row `r`: the first error raised
      by a gear's search ends the run. */
  function RowGearsAsWritten(g: Grid, r: int, c: nat): Result<int>
    requires Rectangular(g) && 0 <= r < |g| && c <= Width(g)
  {
    if c == 0 then Ok(0)
    else
      match RowGearsAsWritten(g, r, c - 1)
      case Err(f) => Err(f)
      case Ok(t) =>
        if g[r][c - 1] != GearCell then Ok(t)
        else
          match CollectAsWritten(g, r, c - 1)
          case Err(f) => Err(f)
          case Ok(nums) => Ok(t + Ratio(nums))
  }

  /** `solve2` as written over the first `r` rows. */
  function GearTotalAsWritten(g: Grid, r: nat): Result<int>
    requires Rectangular(g) && r <= |g|
  {
    if r == 0 then Ok(0)
    else
      match GearTotalAsWritten(g, r - 1)
      case Err(f) => Err(f)
      case Ok(t) =>
        match RowGearsAsWritten(g, r - 1, Width(g))
        case Err(f) => Err(f)
        case Ok(u) => Ok(t + u)
  }

  /** The intended `solve2` over the first `c` cells of row `r`, with clipped searches. */
  function RowGears(g: Grid, r: int, c: nat): int
    requires Rectangular(g) && 0 <= r < |g| && c <= Width(g)
  {
    if c == 0 then 0
    else RowGears(g, r, c - 1) + (if g[r][c - 1] == GearCell then Ratio(Collect(g, r, c - 1)) else 0)
  }

  /** The intended `solve2` over the first `r` rows. */
  function GearTotal(g: Grid, r: nat): int
    requires Rectangular(g) && r <= |g|
  {
    if r == 0 then 0 else GearTotal(g, r - 1) + RowGears(g, r - 1, Width(g))
  }

  /** Every gear of row `r` before column `c` is away from the border. */
  ghost predicate InteriorGears(g: Grid, r: int, c: nat)
    requires Rectangular(g) && 0 <= r < |g| && c <= Width(g)
  {
    forall j :: 0 <= j < c && g[r][j] == GearCell ==> 1 <= r && r + 1 < |g| && 1 <= j && j + 1 < Width(g)
  }

  lemma {:induction false} InteriorRowGears(g: Grid, r: int, c: nat)
    requires Rectangular(g) && 0 <= r < |g| && c <= Width(g) && InteriorGears(g, r, c)
    ensures RowGearsAsWritten(g, r, c) == Ok(RowGears(g, r, c))
  {
    if c > 0 {
      assert InteriorGears(g, r, c - 1);
      InteriorRowGears(g, r, c - 1);
      if g[r][c - 1] == GearCell {
        InteriorCollect(g, r, c - 1);
      }
      RowGearsStep(g, r, c);
    }
  }

  /** One more column of a row: where both searches agree, so do the row sums. */
  lemma RowGearsStep(g: Grid, r: int, c: nat)
    requires Rectangular(g) && 0 <= r < |g| && 0 < c <= Width(g)
    requires RowGearsAsWritten(g, r, c - 1) == Ok(RowGears(g, r, c - 1))
    requires g[r][c - 1] == GearCell ==> CollectAsWritten(g, r, c - 1) == Ok(Collect(g, r, c - 1))
    ensures RowGearsAsWritten(g, r, c) == Ok(RowGears(g, r, c))
  {
  }

  /** With every gear away from the border, `solve2` as written gives the intended sum. */
  lemma {:induction false} InteriorGearTotal(g: Grid, r: nat)
    requires Rectangular(g) && r <= |g|
    requires forall i :: 0 <= i < r ==> InteriorGears(g, i, Width(g))
    ensures GearTotalAsWritten(g, r) == Ok(GearTotal(g, r))
  {
    if r > 0 {
      InteriorGearTotal(g, r - 1);
      InteriorRowGears(g, r - 1, Width(g));
    }
  }

  lemma {:induction false} RowErrPersists(g: Grid, r: int, c: nat, m: nat)
    requires Rectangular(g) && 0 <= r < |g| && c <= m <= Width(g) && RowGearsAsWritten(g, r, c).Err?
    ensures RowGearsAsWritten(g, r, m) == RowGearsAsWritten(g, r, c)
    decreases m - c
  {
    if c < m {
      RowErrPersists(g, r, c, m - 1);
    }
  }

  lemma {:induction false} TotalErrPersists(g: Grid, r: nat, m: nat)
    requires Rectangular(g) && r <= m <= |g| && GearTotalAsWritten(g, r).Err?
    ensures GearTotalAsWritten(g, m) == GearTotalAsWritten(g, r)
    decreases m - r
  {
    if r < m {
      TotalErrPersists(g, r, m - 1);
    }
  }

  /** A gear on the last row or in the last column makes `solve2` as written fail. */
  lemma BorderGearFails(g: Grid, r: int, c: int)
    requires Rectangular(g) && 0 <= r < |g| && 0 <= c < Width(g) && g[r][c] == GearCell
    requires r + 1 == |g| || c + 1 == Width(g)
    ensures GearTotalAsWritten(g, |g|).Err?
  {
    BorderCollectFails(g, r, c);
    RowErrAt(g, r, c);
    TotalErrAt(g, r);
  }

  /** A gear whose search fails makes its row fail. */
  lemma RowErrAt(g: Grid, r: int, c: int)
    requires Rectangular(g) && 0 <= r < |g| && 0 <= c < Width(g) && g[r][c] == GearCell
    requires CollectAsWritten(g, r, c).Err?
    ensures RowGearsAsWritten(g, r, Width(g)).Err?
  {
    if RowGearsAsWritten(g, r, c).Ok? {
      assert RowGearsAsWritten(g, r, c + 1).Err?;
      RowErrPersists(g, r, c + 1, Width(g));
    } else {
      RowErrPersists(g, r, c, Width(g));
    }
  }

  /** A failing row makes the whole sum fail. */
  lemma TotalErrAt(g: Grid, r: int)
    requires Rectangular(g) && 0 <= r < |g| && RowGearsAsWritten(g, r, Width(g)).Err?
    ensures GearTotalAsWritten(g, |g|).Err?
  {
    if GearTotalAsWritten(g, r).Err? {
      TotalErrPersists(g, r, |g|);
    } else {
      assert GearTotalAsWritten(g, r + 1).Err?;
      TotalErrPersists(g, r + 1, |g|);
    }
  }

  /** A row without gears contributes nothing, as written and as intended. */
  lemma {:induction false} NoGearRow(g: Grid, r: int, c: nat)
    requires Rectangular(g) && 0 <= r < |g| && c <= Width(g) && GearCell !in g[r][..c]
    ensures RowGearsAsWritten(g, r, c) == Ok(0) && RowGears(g, r, c) == 0
  {
    if c > 0 {
      assert g[r][..c][c - 1] == g[r][c - 1];
      assert g[r][..c - 1] == g[r][..c][..c - 1];
      NoGearRow(g, r, c - 1);
    }
  }

  /** A gear whose search succeeds adds its ratio. */
  lemma GearStep(g: Grid, r: int, c: nat, t: int, nums: seq<int>)
    requires Rectangular(g) && 0 <= r < |g| && c < Width(g) && g[r][c] == GearCell
    requires RowGearsAsWritten(g, r, c) == Ok(t) && CollectAsWritten(g, r, c) == Ok(nums)
    ensures RowGearsAsWritten(g, r, c + 1) == Ok(t + Ratio(nums))
    ensures RowGears(g, r, c + 1) == RowGears(g, r, c) + Ratio(Collect(g, r, c))
  {
  }

  /** A cell that is not a gear adds nothing. */
  lemma NonGearStep(g: Grid, r: int, c: nat)
    requires Rectangular(g) && 0 <= r < |g| && c < Width(g) && g[r][c] != GearCell
    ensures RowGearsAsWritten(g, r, c + 1) == RowGearsAsWritten(g, r, c)
    ensures RowGears(g, r, c + 1) == RowGears(g, r, c)
  {
  }

  /** The gear of the first row finds, through row -1, the numbers of the last row:
      `solve2` as written reports a ratio the intended one does not. */
  lemma WrapGearTotal(g: Grid)
    requires g == [".*.", "...", "2.3"]
    ensures GearTotalAsWritten(g, 3) == Ok(6) && GearTotal(g, 3) == 0
  {
    WrapCounterexample();
    assert "..."[..3] == "..." && "2.3"[..3] == "2.3";
    OneGear(g);
  }

  /** Three rows of width 3 whose only gear is the middle of the first row. */
  lemma OneGear(g: Grid)
    requires |g| == 3 && Rect(g, 3)
    requires g[0][..1] == "." && g[0][1] == GearCell && g[0][2] != GearCell
    requires GearCell !in g[1][..3] && GearCell !in g[2][..3]
    requires CollectAsWritten(g, 0, 1) == Ok([2, 3]) && Collect(g, 0, 1) == []
    ensures GearTotalAsWritten(g, 3) == Ok(6) && GearTotal(g, 3) == 0
  {
    assert Rectangular(g) && Width(g) == 3;
    NoGearRow(g, 0, 1);
    GearStep(g, 0, 1, 0, [2, 3]);
    NonGearStep(g, 0, 2);
    NoGearRow(g, 1, 3);
    NoGearRow(g, 2, 3);
    assert Ratio([2, 3]) == 6 && Ratio([]) == 0;
    assert GearTotalAsWritten(g, 1) == Ok(6) && GearTotal(g, 1) == 0;
    assert GearTotalAsWritten(g, 2) == Ok(6) && GearTotal(g, 2) == 0;
  }

  /** One row of `solve2` as written. */
  method GearRow(input: array2<char>, ghost g: Grid, r: int) returns (res: Result<int>)
    requires g == Rows(input) && 0 <= r < input.Length0
    ensures Rectangular(g) && res == RowGearsAsWritten(g, r, Width(g))
  {
    RowsRectangular(input);
    var total := 0;
    for c := 0 to input.Length1
      invariant RowGearsAsWritten(g, r, c) == Ok(total)
    {
      if input[r, c] == GearCell {
        assert g[r][c] == GearCell;
        var nums := CollectAdjacentNumbers(input, g, r, c);
        if nums.Err? {
          RowErrPersists(g, r, c + 1, Width(g));
          return Err(nums.fault);
        }
        if |nums.value| == 2 {
          total := total + nums.value[0] * nums.value[1];
        }
      } else {
        assert g[r][c] != GearCell;
      }
    }
    return Ok(total);
  }

  /** `solve2` as written: the sum of the gear ratios, or the first error a gear's
      search raises. */
  method Solve2(input: array2<char>) returns (res: Result<int>)
    ensures res == GearTotalAsWritten(Rows(input), input.Length0)
  {
    ghost var g := Rows(input);
    RowsRectangular(input);
    var total := 0;
    for r := 0 to input.Length0
      invariant GearTotalAsWritten(g, r) == Ok(total)
    {
      var row := GearRow(input, g, r);
      if row.Err? {
        TotalErrPersists(g, r + 1, |g|);
        return Err(row.fault);
      }
      total := total + row.value;
    }
    return Ok(total);
  }

}
