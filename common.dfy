/** Vocabulary shared by every solver: optional values, the run-time errors the
    programs can raise, sums over sequences, decimal digits and rectangular grids. */
module Common {

  datatype Option<+T> = None | Some(value: T)

  /** The exceptions (and crashes) of the original programs that the model keeps. */
  datatype Fault =
    | ValueError      // Python `raise ValueError`, JavaScript `throw new Error`
    | AssertionError  // a failed `assert`
    | IndexError      // an index outside a list, array or string
    | KeyError        // a missing dictionary key, a Kotlin `!!` on a missing map entry
    | NoMatch         // a regular expression that finds nothing (`!!` on `find`, a JS `null` match)
    | EmptyReduce     // `reduce` or `min` over an empty collection
    | TypeError       // Python arithmetic on a missing (`None`) value
    | OutOfFuel       // the explicit step budget of the model ran out (the source would keep looping)

  datatype Result<+T> = Ok(value: T) | Err(fault: Fault)

  function Sum(s: seq<int>): int
  {
    if s == [] then 0 else Sum(s[..|s| - 1]) + s[|s| - 1]
  }

  lemma {:induction false} SumAppend(a: seq<int>, b: seq<int>)
    ensures Sum(a + b) == Sum(a) + Sum(b)
  {
    if b == [] {
      assert a + b == a;
    } else {
      assert (a + b)[..|a + b| - 1] == a + b[..|b| - 1];
      SumAppend(a, b[..|b| - 1]);
    }
  }

  lemma {:induction false} SumNonNegative(s: seq<int>)
    requires forall i :: 0 <= i < |s| ==> s[i] >= 0
    ensures Sum(s) >= 0
  {
    if s != [] {
      SumNonNegative(s[..|s| - 1]);
    }
  }

  lemma {:induction false} SumBounded(s: seq<int>, bound: int)
    requires forall i :: 0 <= i < |s| ==> 0 <= s[i] <= bound
    ensures 0 <= Sum(s) <= bound * |s|
  {
    if s != [] {
      SumBounded(s[..|s| - 1], bound);
    }
  }

  predicate IsDigit(c: char)
  {
    '0' <= c <= '9'
  }

  function DigitValue(c: char): (d: nat)
    requires IsDigit(c)
    ensures d <= 9
  {
    (c as int) - ('0' as int)
  }

  predicate AllDigits(s: seq<char>)
  {
    forall i :: 0 <= i < |s| ==> IsDigit(s[i])
  }

  /** The value of a string of decimal digits, most significant first (Python `int`,
      Kotlin `toInt`, JavaScript `parseInt` on such a string). */
  function Decimal(s: seq<char>): (v: nat)
    requires AllDigits(s)
  {
    if s == [] then 0 else 10 * Decimal(s[..|s| - 1]) + DigitValue(s[|s| - 1])
  }

  lemma DecimalTwoDigits(a: char, b: char)
    requires IsDigit(a) && IsDigit(b)
    ensures Decimal([a, b]) == 10 * DigitValue(a) + DigitValue(b)
  {
    assert [a, b][..1] == [a];
    assert [a][..0] == [];
    assert Decimal([a]) == DigitValue(a);
  }

  /** A grid every row of which has `cols` cells. */
  /** Positions `lo .. hi - 1` of `row` all hold digits. */
  predicate DigitsBetween(row: seq<char>, lo: int, hi: int)
  {
    forall j :: lo <= j < hi ==> DigitAt(row, j)
  }

  predicate DigitAt(row: seq<char>, j: int)
  {
    0 <= j < |row| && IsDigit(row[j])
  }

  /** The length of the run of digits starting at `c`. */
  function DigitsFrom(row: seq<char>, c: nat): (n: nat)
    requires c <= |row|
    ensures c + n <= |row| && DigitsBetween(row, c, c + n)
    ensures c + n == |row| || !IsDigit(row[c + n])
    decreases |row| - c
  {
    if c == |row| || !IsDigit(row[c]) then 0 else 1 + DigitsFrom(row, c + 1)
  }

  /** The run of digits starting at `c`, as a string of digits. */
  lemma DigitsFromAll(row: seq<char>, c: nat)
    requires c <= |row|
    ensures AllDigits(row[c..c + DigitsFrom(row, c)])
  {
    var t := row[c..c + DigitsFrom(row, c)];
    forall k | 0 <= k < |t|
      ensures IsDigit(t[k])
    {
      assert DigitAt(row, c + k);
    }
  }

  predicate Rect<T>(g: seq<seq<T>>, cols: nat)
  {
    forall r :: 0 <= r < |g| ==> |g[r]| == cols
  }

  function Abs(x: int): nat
  {
    if x < 0 then -x else x
  }

  function Pow2(n: nat): (p: nat)
    ensures p >= 1
  {
    if n == 0 then 1 else 2 * Pow2(n - 1)
  }

  lemma {:induction false} Pow2Monotone(m: nat, n: nat)
    requires m <= n
    ensures Pow2(m) <= Pow2(n)
  {
    if m < n {
      Pow2Monotone(m, n - 1);
    }
  }

  /** A non-empty set has an element (picked with `:|` by the set loops). */
  lemma HasElement<T>(s: set<T>) returns (w: T)
    requires s != {}
    ensures w in s
  {
    if forall x :: x !in s {
      assert false;
    }
    w :| w in s;
  }

  /** The sum of a set of numbers. */
  ghost function SetSum(s: set<int>): int
  {
    if forall y :: y !in s then 0
    else
      var x :| x in s;
      x + SetSum(s - {x})
  }

  /** Any element can be taken out first. */
  lemma SetSumRemove(s: set<int>, y: int)
    requires y in s
    ensures SetSum(s) == y + SetSum(s - {y})
    decreases |s|
  {
    var x :| x in s && SetSum(s) == x + SetSum(s - {x});
    if x != y {
      SetSumRemove(s - {x}, y);
      SetSumRemove(s - {y}, x);
      assert s - {x} - {y} == s - {y} - {x};
    }
  }

  function Pow10(n: nat): (p: nat)
    ensures p >= 1
  {
    if n == 0 then 1 else 10 * Pow10(n - 1)
  }

  function DigitChar(d: nat): (c: char)
    requires d <= 9
    ensures IsDigit(c) && DigitValue(c) == d
  {
    ('0' as int + d) as char
  }

  /** `str(n)` for a natural number: its decimal digits without leading zeros. */
  function DecimalString(n: nat): (s: string)
    ensures AllDigits(s) && |s| >= 1
    ensures Decimal(s) == n
  {
    if n < 10 then
      assert [DigitChar(n)][..0] == [];
      [DigitChar(n)]
    else
      var init := DecimalString(n / 10);
      var r := init + [DigitChar(n % 10)];
      assert r[..|r| - 1] == init;
      r
  }

  /** Reading the concatenation of two digit strings. */
  lemma {:induction false} DecimalConcat(a: string, b: string)
    requires AllDigits(a) && AllDigits(b)
    ensures AllDigits(a + b)
    ensures Decimal(a + b) == Decimal(a) * Pow10(|b|) + Decimal(b)
  {
    if b == [] {
      assert a + b == a;
    } else {
      var b', d := b[..|b| - 1], b[|b| - 1];
      assert AllDigits(a + b);
      DecimalConcat(a, b');
      DecimalSnoc(a + b', d);
      DecimalSnoc(b', d);
      assert a + b == (a + b') + [d];
      ShiftDigit(Decimal(a), Pow10(|b'|), Decimal(b'));
    }
  }

  lemma ShiftDigit(x: int, p: int, y: int)
    ensures 10 * (x * p + y) == x * (10 * p) + 10 * y
  {
  }

  /** Reading one more digit. */
  lemma DecimalSnoc(s: string, d: char)
    requires AllDigits(s) && IsDigit(d)
    ensures AllDigits(s + [d]) && Decimal(s + [d]) == 10 * Decimal(s) + DigitValue(d)
  {
    assert (s + [d])[..|s|] == s;
  }

  lemma TailMultiset<T>(a: seq<T>)
    requires a != []
    ensures multiset(a[1..]) == multiset(a) - multiset{a[0]}
  {
    assert a == [a[0]] + a[1..];
  }

  /** The sum of per-item answers computed in order: the first failure propagates
      (an exception raised inside a summing loop). */
  function SumResults(vals: seq<Result<int>>): (t: Result<int>)
    ensures t.Ok? <==> forall i :: 0 <= i < |vals| ==> vals[i].Ok?
    ensures t.Err? ==> exists i :: 0 <= i < |vals| && vals[i] == Err(t.fault)
  {
    if vals == [] then Ok(0)
    else
      var n := |vals| - 1;
      match SumResults(vals[..n])
      case Err(e) => Err(e)
      case Ok(t) =>
        match vals[n]
        case Ok(v) => Ok(t + v)
        case Err(e) => Err(e)
  }

  /** One more item: the total of the longer prefix from the total of the shorter. */
  lemma SumResultsStep(vals: seq<Result<int>>, k: nat)
    requires k < |vals|
    ensures SumResults(vals[..k + 1]) == match SumResults(vals[..k])
                                         case Err(e) => Err(e)
                                         case Ok(t) => (match vals[k] case Ok(v) => Ok(t + v) case Err(e) => Err(e))
  {
    assert vals[..k + 1][..k] == vals[..k];
  }

  /** A good item adds its value to the total of the prefix before it. */
  lemma SumResultsOk(vals: seq<Result<int>>, k: nat, t: int)
    requires k < |vals| && SumResults(vals[..k]) == Ok(t) && vals[k].Ok?
    ensures SumResults(vals[..k + 1]) == Ok(t + vals[k].value)
  {
    SumResultsStep(vals, k);
  }

  /** The first bad item decides the whole total. */
  lemma SumResultsErr(vals: seq<Result<int>>, k: nat, t: int)
    requires k < |vals| && SumResults(vals[..k]) == Ok(t) && vals[k].Err?
    ensures SumResults(vals) == Err(vals[k].fault)
  {
    SumResultsStep(vals, k);
    SumResultsFailedPrefix(vals, k + 1);
  }

  /** Once a prefix has failed, the whole total fails with the same error. */
  lemma {:induction false} SumResultsFailedPrefix(vals: seq<Result<int>>, k: nat)
    requires k <= |vals| && SumResults(vals[..k]).Err?
    ensures SumResults(vals) == SumResults(vals[..k])
    decreases |vals| - k
  {
    if k < |vals| {
      assert vals[..k + 1][..k] == vals[..k];
      SumResultsFailedPrefix(vals, k + 1);
    } else {
      assert vals[..k] == vals;
    }
  }

  /** A sequence read backwards (Python `s[::-1]`, JavaScript `reverse`, Kotlin `reversed`). */
  function Reverse<T>(s: seq<T>): (r: seq<T>)
    ensures |r| == |s| && forall i :: 0 <= i < |s| ==> r[i] == s[|s| - 1 - i]
  {
    seq(|s|, i requires 0 <= i < |s| => s[|s| - 1 - i])
  }

  /** Reversing twice gives the sequence back. */
  lemma ReverseReverse<T>(s: seq<T>)
    ensures Reverse(Reverse(s)) == s
  {
  }

  /** A slice of the reversed sequence is the reversal of the mirrored slice. */
  lemma ReverseSlice<T>(s: seq<T>, a: nat, b: nat)
    requires a <= b <= |s|
    ensures Reverse(s)[a..b] == Reverse(s[|s| - b..|s| - a])
  {
  }

  function Min(a: int, b: int): int
  {
    if a <= b then a else b
  }

  function Max(a: int, b: int): int
  {
    if a >= b then a else b
  }

  /** `max(values)` of a non-empty list: an element, and no element exceeds it. */
  function MaxOf(s: seq<int>): (m: int)
    requires |s| > 0
    ensures exists i :: 0 <= i < |s| && s[i] == m
    ensures forall i :: 0 <= i < |s| ==> s[i] <= m
  {
    if |s| == 1 then s[0]
    else
      var m := MaxOf(s[..|s| - 1]);
      if s[|s| - 1] > m then s[|s| - 1] else m
  }

  /** Row `r` of a grid held in a two-dimensional array. */
  function RowOf<T>(a: array2<T>, r: nat): (row: seq<T>)
    requires r < a.Length0
    reads a
    ensures |row| == a.Length1
  {
    seq(a.Length1, c requires 0 <= c < a.Length1 reads a => a[r, c])
  }

  /** A grid held in a two-dimensional array, as a sequence of rows. */
  function Rows<T>(a: array2<T>): (rows: seq<seq<T>>)
    reads a
    ensures |rows| == a.Length0
    ensures forall r :: 0 <= r < a.Length0 ==> rows[r] == RowOf(a, r)
  {
    seq(a.Length0, r requires 0 <= r < a.Length0 reads a => RowOf(a, r))
  }

  /** A fresh copy of a character grid (numpy's `copy()`). */
  method CopyGrid(input: array2<char>) returns (grid: array2<char>)
    ensures fresh(grid)
    ensures grid.Length0 == input.Length0 && grid.Length1 == input.Length1
    ensures forall r, c :: 0 <= r < grid.Length0 && 0 <= c < grid.Length1 ==> grid[r, c] == input[r, c]
  {
    grid := new char[input.Length0, input.Length1];
    for r := 0 to input.Length0
      invariant forall r', c :: 0 <= r' < r && 0 <= c < grid.Length1 ==> grid[r', c] == input[r', c]
    {
      for c := 0 to input.Length1
        invariant forall r', c' :: 0 <= r' < r && 0 <= c' < grid.Length1 ==> grid[r', c'] == input[r', c']
        invariant forall c' :: 0 <= c' < c ==> grid[r, c'] == input[r, c']
      {
        grid[r, c] := input[r, c];
      }
    }
  }
}
