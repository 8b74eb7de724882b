/** Day 3 in Kotlin.  `isSymbol`, `hasSymbolNeighbor` and `solve1` are the Python
    solver's scans line for line and are modelled by `Day03`; what differs is
    `countDigits`, written as a loop over the rest of the row whose `assert` goes
    unchecked, and the search around a gear, whose `data[newR][newC]` is never
    clipped and so throws on any gear of the border instead of reading the opposite
    edge. */
module Day03Kt {
  import opened Common
  import opened Day03

  /** `countDigits`: the first index after position 0 that is not a digit, found by
      the loop over `row.drop(1)`.  `assert(row[0].isDigit())` reads `row[0]`, which
      throws on an empty row, but the JVM checks the condition only when assertions
      are enabled (`-ea`); the model follows the default, where the check is skipped. */
  method CountDigits(row: seq<char>) returns (res: Result<nat>)
    ensures res.Err? <==> |row| == 0
    ensures res.Err? ==> res.fault == IndexError
    ensures res.Ok? ==> 1 <= res.value <= |row| && DigitsBetween(row, 1, res.value) &&
                        (res.value == |row| || !IsDigit(row[res.value]))
    ensures |row| > 0 && IsDigit(row[0]) ==> res == Day03.CountDigits(row)
    ensures res.Ok? && Day03.CountDigits(row).Err? <==> |row| > 0 && !IsDigit(row[0])
  {
    if |row| == 0 {
      return Err(IndexError);
    }
    for i := 0 to |row| - 1
      invariant DigitsBetween(row, 1, i + 1)
      invariant DigitsFrom(row, 1) == i + DigitsFrom(row, i + 1)
    {
      if !IsDigit(row[i + 1]) {
        return Ok(i + 1);
      }
    }
    return Ok(|row|);
  }

  /** Every neighbour of (r, c) lies inside the grid. */
  predicate Interior(g: Grid, r: int, c: int)
  {
    1 <= r && r + 1 < |g| && 1 <= c && c + 1 < Width(g)
  }

  /** Inside the grid the unclipped step of the Python search is the clipped one. */
  lemma InBoundsVisit(st: Gathered, h: nat, w: nat, i: int, j: int)
    requires |st.data| == h && Rect(st.data, w) && 0 <= i < h && 0 <= j < w
    ensures VisitAsWritten(st, h, w, i, j) == Ok(Visit(st, i, j))
    ensures !IsDigit(st.data[i][j]) ==> Visit(st, i, j) == st
  {
  }

  /** `collectAdjacentNumbers`: on a copy, the number through each of the eight
      neighbours, in the order of the two loops; indexing a row or column outside the
      grid throws, which happens exactly for a cell of the border. */
  method CollectAdjacentNumbers(input: array2<char>, ghost g: Grid, r: int, c: int) returns (res: Result<seq<int>>)
    requires g == Rows(input) && 0 <= r < input.Length0 && 0 <= c < input.Length1
    ensures res == if Interior(g, r, c) then Ok(Collect(g, r, c)) else Err(IndexError)
  {
    RowsRectangular(input);
    var data := CopyGrid(input);
    var nums: seq<int> := [];
    ghost var st := Gathered(g, [], []);
    for rs := 0 to 3
      invariant GatherAsWritten(g, r, c, 3 * rs) == Ok(st) && st.nums == nums && Holds(data, st.data)
      invariant rs > 0 ==> 1 <= r && 1 <= c && c + 1 < data.Length1
      invariant rs > 2 ==> r + 1 < data.Length0
    {
      for cs := 0 to 3
        invariant GatherAsWritten(g, r, c, 3 * rs + cs) == Ok(st) && st.nums == nums && Holds(data, st.data)
        invariant rs > 0 || cs > 0 ==> 1 <= r && 1 <= c
        invariant rs > 0 || cs > 2 ==> c + 1 < data.Length1
        invariant rs > 2 || (rs == 2 && cs > 0) ==> r + 1 < data.Length0
      {
        GatherAsWrittenStep(g, r, c, rs, cs, st);
        if rs != 1 || cs != 1 {
          var (i, j) := (r + rs - 1, c + cs - 1);
          if !(0 <= i < data.Length0 && 0 <= j < data.Length1) {
            return Err(IndexError);
          }
          InBoundsVisit(st, data.Length0, data.Length1, i, j);
          if IsDigit(data[i, j]) {
            var num;
            num, st := TakeNeighbour(data, st, i, j);
            nums := nums + [num];
          }
        }
      }
    }
    InteriorCollect(g, r, c);
    return Ok(nums);
  }

  /** Every gear of every row is away from the border. */
  ghost predicate AllInterior(g: Grid)
    requires Rectangular(g)
  {
    forall i :: 0 <= i < |g| ==> InteriorGears(g, i, Width(g))
  }

  /** One row of `solve2`: its gears' ratios, or the throw of its first border gear. */
  method GearRow(input: array2<char>, ghost g: Grid, r: int) returns (res: Result<int>)
    requires g == Rows(input) && 0 <= r < input.Length0
    ensures Rectangular(g)
    ensures res == if InteriorGears(g, r, Width(g)) then Ok(RowGears(g, r, Width(g))) else Err(IndexError)
  {
    RowsRectangular(input);
    var total := 0;
    for c := 0 to input.Length1
      invariant total == RowGears(g, r, c) && InteriorGears(g, r, c)
    {
      if input[r, c] == GearCell {
        assert g[r][c] == GearCell;
        var nums := CollectAdjacentNumbers(input, g, r, c);
        if nums.Err? {
          assert !InteriorGears(g, r, Width(g));
          return Err(IndexError);
        }
        if |nums.value| == 2 {
          total := total + nums.value[0] * nums.value[1];
        }
      } else {
        assert g[r][c] != GearCell;
      }
    }
    return Ok(total);
  }

  /** `solve2`: the sum of the ratios when no gear lies on the border, and the throw of
      the first border gear otherwise. */
  method Solve2(input: array2<char>) returns (res: Result<int>)
    ensures Rectangular(Rows(input))
    ensures res == if AllInterior(Rows(input)) then Ok(GearTotal(Rows(input), input.Length0)) else Err(IndexError)
  {
    ghost var g := Rows(input);
    RowsRectangular(input);
    var total := 0;
    for r := 0 to input.Length0
      invariant total == GearTotal(g, r)
      invariant forall i :: 0 <= i < r ==> InteriorGears(g, i, Width(g))
    {
      var row := GearRow(input, g, r);
      if row.Err? {
        return Err(IndexError);
      }
      total := total + row.value;
    }
    return Ok(total);
  }

  /** Where the Kotlin solver does not throw, it agrees with the Python one: with no gear
      on the border neither search leaves the grid. */
  lemma AgreesWithPython(g: Grid)
    requires Rectangular(g) && AllInterior(g)
    ensures GearTotalAsWritten(g, |g|) == Ok(GearTotal(g, |g|))
  {
    InteriorGearTotal(g, |g|);
  }
}
