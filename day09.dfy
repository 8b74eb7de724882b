/** Day 9: extrapolating a sequence forwards and backwards by repeated
    differences (day09.py). A row is a list of integers; numpy's `row[1:] - row[:-1]`
    is `Diff`, and indexing an empty array raises `IndexError`. */
module Day09 {
  import opened Common

  /** `row[1:] - row[:-1]`. */
  function Diff(row: seq<int>): (d: seq<int>)
    ensures |row| == 0 ==> d == []
    ensures |row| > 0 ==> |d| == |row| - 1
  {
    if |row| <= 1 then [] else [row[1] - row[0]] + Diff(row[1..])
  }

  /** Element `i` of the difference row is `row[i + 1] - row[i]`. */
  lemma {:induction false} DiffAt(row: seq<int>)
    ensures forall i :: 0 <= i < |Diff(row)| ==> Diff(row)[i] == row[i + 1] - row[i]
  {
    if |row| > 1 {
      DiffAt(row[1..]);
    }
  }

  /** `np.all(row == 0)`, which holds for an empty row. */
  predicate AllZero(row: seq<int>)
  {
    forall i :: 0 <= i < |row| ==> row[i] == 0
  }

  /** The value `solve1` computes for one row: the sum of the last elements of
      the row and of each difference row, down to the first all-zero one. */
  function NextValue(row: seq<int>): Result<int>
    decreases |row|
  {
    if |row| == 0 then Err(IndexError)
    else if AllZero(row) then Ok(row[|row| - 1])
    else Shift(NextValue(Diff(row)), row[|row| - 1])
  }

  /** The value `solve2` computes for one row: `first - cur` folded over the
      first elements, from the deepest difference row up. */
  function PrevValue(row: seq<int>): Result<int>
    decreases |row|
  {
    if |row| == 0 then Err(IndexError)
    else if AllZero(row) then Ok(row[0])
    else Shift(NegateResult(PrevValue(Diff(row))), row[0])
  }

  /** `r` with `k` added to its value. */
  function Shift(r: Result<int>, k: int): Result<int>
  {
    match r
    case Ok(v) => Ok(v + k)
    case Err(e) => Err(e)
  }

  lemma ShiftZero(r: Result<int>)
    ensures Shift(r, 0) == r
  {
  }

  lemma ShiftShift(r: Result<int>, a: int, b: int)
    ensures Shift(Shift(r, a), b) == Shift(r, a + b)
  {
  }

  /** One level of forward extrapolation, as a ground fact. */
  lemma NextValueStep(row: seq<int>)
    requires |row| > 0 && !AllZero(row)
    ensures NextValue(row) == Shift(NextValue(Diff(row)), row[|row| - 1])
  {
  }

  /** One level of backward extrapolation, as a ground fact. */
  lemma PrevValueStep(row: seq<int>)
    requires |row| > 0 && !AllZero(row)
    ensures PrevValue(row) == Shift(NegateResult(PrevValue(Diff(row))), row[0])
  {
  }

  function NegateResult(r: Result<int>): Result<int>
  {
    match r
    case Ok(v) => Ok(-v)
    case Err(e) => Err(e)
  }

  /** The sum of `s[i..]`, the order of the source's `reversed` loop. */
  lemma SumSuffix(s: seq<int>, i: int)
    requires 0 < i <= |s|
    ensures Sum(s[i - 1..]) == s[i - 1] + Sum(s[i..])
  {
    assert s[i - 1..] == [s[i - 1]] + s[i..];
    SumAppend([s[i - 1]], s[i..]);
    assert [s[i - 1]][..0] == [];
  }

  /** `cur = first - cur` over `s`, deepest (last) element first. */
  function Alternating(s: seq<int>): int
  {
    if s == [] then 0 else s[0] - Alternating(s[1..])
  }

  /** One row of `solve1`: the difference loop filling `stack_lasts`, then the
      reversed accumulation. */
  method ExtrapolateForward(input: seq<int>) returns (r: Result<int>)
    ensures r == NextValue(input)
  {
    if |input| == 0 {
      return Err(IndexError);
    }
    var row := input;
    var stackLasts := [row[|row| - 1]];
    assert Sum(stackLasts) == row[|row| - 1] by {
      assert stackLasts[..0] == [];
    }
    ShiftZero(NextValue(input));
    while !AllZero(row)
      invariant |row| >= 1 && |stackLasts| >= 1
      invariant stackLasts[|stackLasts| - 1] == row[|row| - 1]
      invariant NextValue(input) == Shift(NextValue(row), Sum(stackLasts) - row[|row| - 1])
      decreases |row|
    {
      NextValueStep(row);
      var offset := Sum(stackLasts) - row[|row| - 1];
      ShiftShift(NextValue(Diff(row)), row[|row| - 1], offset);
      row := Diff(row);
      if |row| == 0 {
        return Err(IndexError);
      }
      SumAppend(stackLasts, [row[|row| - 1]]);
      assert [row[|row| - 1]][..0] == [];
      stackLasts := stackLasts + [row[|row| - 1]];
    }
    var cur := 0;
    var i := |stackLasts|;
    while i > 0
      invariant 0 <= i <= |stackLasts|
      invariant cur == Sum(stackLasts[i..])
    {
      SumSuffix(stackLasts, i);
      cur := cur + stackLasts[i - 1];
      i := i - 1;
    }
    assert stackLasts[0..] == stackLasts;
    return Ok(cur);
  }

  lemma AlternatingSuffix(s: seq<int>, i: int)
    requires 0 < i <= |s|
    ensures Alternating(s[i - 1..]) == s[i - 1] - Alternating(s[i..])
  {
    assert s[i - 1..][1..] == s[i..];
  }

  /** `r`'s value put after `init` and folded with `Alternating`. */
  function Fold(r: Result<int>, init: seq<int>): Result<int>
  {
    match r
    case Ok(v) => Ok(Alternating(init + [v]))
    case Err(e) => Err(e)
  }

  lemma FoldSingle(r: Result<int>)
    ensures Fold(r, []) == r
  {
    if r.Ok? {
      var one: seq<int> := [r.value];
      assert [] + one == one;
      assert one[1..] == [];
      assert Alternating(one) == r.value - Alternating([]);
    }
  }

  lemma FoldStep(p: Result<int>, next: Result<int>, first: int, init: seq<int>)
    requires p == Shift(NegateResult(next), first)
    ensures Fold(p, init) == Fold(next, init + [first])
  {
    if next.Ok? {
      AlternatingSnoc(init, first, next.value);
      assert init + [first] + [next.value] == init + [first, next.value];
    }
  }

  /** One row of `solve2`: the same loop on first elements, then the
      alternating fold. */
  method ExtrapolateBackward(input: seq<int>) returns (r: Result<int>)
    ensures r == PrevValue(input)
  {
    if |input| == 0 {
      return Err(IndexError);
    }
    var row := input;
    var stackFirsts := [row[0]];
    assert stackFirsts[..0] + [row[0]] == stackFirsts;
    FoldSingle(PrevValue(input));
    while !AllZero(row)
      invariant |row| >= 1 && |stackFirsts| >= 1
      invariant stackFirsts[|stackFirsts| - 1] == row[0]
      invariant PrevValue(input) == Fold(PrevValue(row), stackFirsts[..|stackFirsts| - 1])
      decreases |row|
    {
      var init := stackFirsts[..|stackFirsts| - 1];
      PrevValueStep(row);
      FoldStep(PrevValue(row), PrevValue(Diff(row)), row[0], init);
      assert init + [row[0]] == stackFirsts;
      row := Diff(row);
      if |row| == 0 {
        return Err(IndexError);
      }
      stackFirsts := stackFirsts + [row[0]];
      assert stackFirsts[..|stackFirsts| - 1] == init + [stackFirsts[|stackFirsts| - 2]];
    }
    var cur := 0;
    var i := |stackFirsts|;
    while i > 0
      invariant 0 <= i <= |stackFirsts|
      invariant cur == Alternating(stackFirsts[i..])
    {
      AlternatingSuffix(stackFirsts, i);
      cur := stackFirsts[i - 1] - cur;
      i := i - 1;
    }
    assert stackFirsts[0..] == stackFirsts;
    assert stackFirsts[..|stackFirsts| - 1] + [row[0]] == stackFirsts;
    assert PrevValue(row) == Ok(row[0]);
    return Ok(cur);
  }

  /** The backward loop step: replacing the last element `f` by `f - v`. */
  lemma {:induction false} AlternatingSnoc(prefix: seq<int>, f: int, v: int)
    ensures Alternating(prefix + [f - v]) == Alternating(prefix + [f, v])
    decreases |prefix|
  {
    if prefix == [] {
      assert prefix + [f - v] == [f - v] && prefix + [f, v] == [f, v];
      assert [f - v][1..] == [];
      assert [f, v][1..] == [v];
      assert [v][1..] == [];
    } else {
      assert (prefix + [f - v])[1..] == prefix[1..] + [f - v];
      assert (prefix + [f, v])[1..] == prefix[1..] + [f, v];
      AlternatingSnoc(prefix[1..], f, v);
    }
  }

  // ---------------------------------------------------------------------------
  // The totals over all rows

  function NextValues(rows: seq<seq<int>>): (vs: seq<Result<int>>)
    ensures |vs| == |rows| && forall i :: 0 <= i < |rows| ==> vs[i] == NextValue(rows[i])
  {
    seq(|rows|, i requires 0 <= i < |rows| => NextValue(rows[i]))
  }

  function PrevValues(rows: seq<seq<int>>): (vs: seq<Result<int>>)
    ensures |vs| == |rows| && forall i :: 0 <= i < |rows| ==> vs[i] == PrevValue(rows[i])
  {
    seq(|rows|, i requires 0 <= i < |rows| => PrevValue(rows[i]))
  }

  /** `solve1`. */
  method Solve1(rows: seq<seq<int>>) returns (r: Result<int>)
    ensures r == SumResults(NextValues(rows))
  {
    var vals := NextValues(rows);
    var total := 0;
    for i := 0 to |rows|
      invariant SumResults(vals[..i]) == Ok(total)
    {
      var v := ExtrapolateForward(rows[i]);
      assert vals[..i + 1][..i] == vals[..i];
      if v.Err? {
        SumResultsFailedPrefix(vals, i + 1);
        return Err(v.fault);
      }
      total := total + v.value;
    }
    assert vals[..|rows|] == vals;
    return Ok(total);
  }

  /** `solve2`. */
  method Solve2(rows: seq<seq<int>>) returns (r: Result<int>)
    ensures r == SumResults(PrevValues(rows))
  {
    var vals := PrevValues(rows);
    var total := 0;
    for i := 0 to |rows|
      invariant SumResults(vals[..i]) == Ok(total)
    {
      var v := ExtrapolateBackward(rows[i]);
      assert vals[..i + 1][..i] == vals[..i];
      if v.Err? {
        SumResultsFailedPrefix(vals, i + 1);
        return Err(v.fault);
      }
      total := total + v.value;
    }
    assert vals[..|rows|] == vals;
    return Ok(total);
  }

  // ---------------------------------------------------------------------------
  // Properties

  /** An all-zero row extrapolates to 0 in both directions. */
  lemma AllZeroRow(row: seq<int>)
    requires |row| >= 1 && AllZero(row)
    ensures NextValue(row) == Ok(0) && PrevValue(row) == Ok(0)
  {
  }

  /** A single value extrapolates only when it is 0; otherwise its (empty)
      difference row is indexed. */
  lemma {:induction false} SingleValue(x: int)
    ensures NextValue([x]) == (if x == 0 then Ok(0) else Err(IndexError))
    ensures PrevValue([x]) == (if x == 0 then Ok(0) else Err(IndexError))
  {
    assert |Diff([x])| == 0;
    if x != 0 {
      assert [x][0] != 0;
    }
  }

  /** The row `a, a + d, ..., a + (n - 1) d`. */
  function Arithmetic(a: int, d: int, n: nat): (row: seq<int>)
    ensures |row| == n
    decreases n
  {
    if n == 0 then [] else [a] + Arithmetic(a + d, d, n - 1)
  }

  lemma {:induction false} ArithmeticAt(a: int, d: int, n: nat, i: nat)
    requires i < n
    ensures Arithmetic(a, d, n)[i] == a + i * d
    decreases n
  {
    if i > 0 {
      ArithmeticAt(a + d, d, n - 1, i - 1);
      StepTerm(a + d, d, i);
    }
  }

  lemma {:induction false} DiffArithmetic(a: int, d: int, n: nat)
    requires n >= 1
    ensures Diff(Arithmetic(a, d, n)) == Arithmetic(d, 0, n - 1)
    decreases n
  {
    if n >= 2 {
      var row := Arithmetic(a, d, n);
      var rest := Arithmetic(a + d, d, n - 1);
      assert row[1..] == rest;
      assert row[1] - row[0] == d;
      DiffArithmetic(a + d, d, n - 1);
    }
  }

  /** A row `a, a + d, ..., a + (n - 1) d` of at least three values is
      continued by `a + n d` and preceded by `a - d`. (With two values and
      `d != 0` the second difference row is empty and indexing it fails.) */
  lemma {:induction false} ArithmeticRow(a: int, d: int, n: nat)
    requires n >= 3
    ensures NextValue(Arithmetic(a, d, n)) == Ok(a + n * d)
    ensures PrevValue(Arithmetic(a, d, n)) == Ok(a - d)
  {
    var row := Arithmetic(a, d, n);
    if a == 0 && d == 0 {
      ZeroRow(n);
      AllZeroRow(row);
    } else {
      ArithmeticAt(a, d, n, 1);
      assert row[0] != 0 || row[1] != 0;
      ArithmeticNext(a, d, n);
      ArithmeticPrev(a, d, n);
      ArithmeticAt(a, d, n, n - 1);
      StepTerm(a, d, n);
    }
  }

  lemma ArithmeticNext(a: int, d: int, n: nat)
    requires n >= 3 && !AllZero(Arithmetic(a, d, n))
    ensures NextValue(Arithmetic(a, d, n)) == Ok(Arithmetic(a, d, n)[n - 1] + d)
  {
    var row := Arithmetic(a, d, n);
    DiffArithmetic(a, d, n);
    ConstantRow(d, n - 1);
    assert NextValue(Diff(row)) == Ok(d);
    NextValueStep(row);
  }

  lemma ArithmeticPrev(a: int, d: int, n: nat)
    requires n >= 3 && !AllZero(Arithmetic(a, d, n))
    ensures PrevValue(Arithmetic(a, d, n)) == Ok(a - d)
  {
    var row := Arithmetic(a, d, n);
    DiffArithmetic(a, d, n);
    ConstantRow(d, n - 1);
    assert PrevValue(Diff(row)) == Ok(d);
    PrevValueStep(row);
    ArithmeticAt(a, d, n, 0);
  }

  lemma ZeroRow(m: nat)
    ensures AllZero(Arithmetic(0, 0, m))
  {
    forall i | 0 <= i < m ensures Arithmetic(0, 0, m)[i] == 0 {
      ArithmeticAt(0, 0, m, i);
    }
  }

  lemma StepTerm(a: int, d: int, n: int)
    ensures a + (n - 1) * d == a - d + n * d
  {
  }

  /** A constant row of at least two values extrapolates to its value both ways. */
  lemma {:induction false} ConstantRow(d: int, m: nat)
    requires m >= 2
    ensures NextValue(Arithmetic(d, 0, m)) == Ok(d) && PrevValue(Arithmetic(d, 0, m)) == Ok(d)
  {
    var c := Arithmetic(d, 0, m);
    if d == 0 {
      ZeroRow(m);
      AllZeroRow(c);
    } else {
      assert c[0] != 0;
      DiffArithmetic(d, 0, m);
      var z := Arithmetic(0, 0, m - 1);
      ZeroRow(m - 1);
      AllZeroRow(z);
      ArithmeticAt(d, 0, m, m - 1);
      NextValueStep(c);
      PrevValueStep(c);
    }
  }

  /** Two values that differ: the second difference row is empty. */
  lemma {:induction false} TwoDistinctValues(x: int, y: int)
    requires x != y
    ensures NextValue([x, y]) == Err(IndexError) && PrevValue([x, y]) == Err(IndexError)
  {
    DiffAt([x, y]);
    assert |Diff([x, y])| == 1;
    assert Diff([x, y]) == [y - x];
    assert !AllZero([x, y]);
    SingleValue(y - x);
  }

  // The backward answer is the forward answer of the reversed row.

  function Negate(s: seq<int>): (r: seq<int>)
    ensures |r| == |s| && forall i :: 0 <= i < |s| ==> r[i] == -s[i]
  {
    seq(|s|, i requires 0 <= i < |s| => -s[i])
  }


  lemma DiffReverse(row: seq<int>)
    ensures Diff(Reverse(row)) == Negate(Reverse(Diff(row)))
  {
    var a, b := Diff(Reverse(row)), Negate(Reverse(Diff(row)));
    DiffAt(row);
    DiffAt(Reverse(row));
    assert |a| == |b|;
    forall i | 0 <= i < |a| ensures a[i] == b[i] {
      var r := Reverse(row);
      assert a[i] == r[i + 1] - r[i];
      assert b[i] == -Diff(row)[|row| - 2 - i];
    }
  }

  lemma DiffNegate(row: seq<int>)
    ensures Diff(Negate(row)) == Negate(Diff(row))
  {
    var a, b := Diff(Negate(row)), Negate(Diff(row));
    DiffAt(row);
    DiffAt(Negate(row));
    assert |a| == |b|;
    forall i | 0 <= i < |a| ensures a[i] == b[i] {
      var n := Negate(row);
      assert a[i] == n[i + 1] - n[i];
    }
  }

  lemma NegateShift(r: Result<int>, k: int)
    ensures Shift(NegateResult(r), -k) == NegateResult(Shift(r, k))
  {
  }

  /** Extrapolation is odd: negating the row negates the answer. */
  lemma {:induction false} NextNegate(row: seq<int>)
    ensures NextValue(Negate(row)) == NegateResult(NextValue(row))
    decreases |row|
  {
    var n := Negate(row);
    if |row| > 0 {
      assert AllZero(n) <==> AllZero(row) by {
        if AllZero(n) {
          assert forall i :: 0 <= i < |row| ==> row[i] == -n[i];
        }
      }
      var k := row[|row| - 1];
      assert n[|n| - 1] == -k;
      if !AllZero(row) {
        var d := Diff(row);
        DiffNegate(row);
        NextNegate(d);
        NegateShift(NextValue(d), k);
        NextValueStep(row);
        NextValueStep(n);
      }
    }
  }

  /** `solve2`'s backward extrapolation is `solve1`'s forward extrapolation of
      the reversed row, failures included. */
  lemma {:induction false} PrevIsNextOfReverse(row: seq<int>)
    ensures PrevValue(row) == NextValue(Reverse(row))
    decreases |row|
  {
    if |row| > 0 {
      var rev := Reverse(row);
      assert AllZero(rev) <==> AllZero(row) by {
        if AllZero(rev) {
          assert forall i :: 0 <= i < |row| ==> row[i] == rev[|row| - 1 - i];
        }
      }
      if !AllZero(row) {
        var d := Diff(row);
        PrevIsNextOfReverse(d);
        DiffReverse(row);
        NextNegate(Reverse(d));
        PrevValueStep(row);
        NextValueStep(rev);
        assert rev[|rev| - 1] == row[0];
      }
    }
  }

  lemma PrevValuesReverse(rows: seq<seq<int>>)
    ensures SumResults(PrevValues(rows)) ==
      SumResults(NextValues(seq(|rows|, i requires 0 <= i < |rows| => Reverse(rows[i]))))
  {
    var revs := seq(|rows|, i requires 0 <= i < |rows| => Reverse(rows[i]));
    forall i | 0 <= i < |rows| ensures PrevValues(rows)[i] == NextValues(revs)[i] {
      PrevIsNextOfReverse(rows[i]);
    }
    assert PrevValues(rows) == NextValues(revs);
  }
}
