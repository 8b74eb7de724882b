/** Day 12: rows of springs, each operational ('.'), damaged ('#') or unknown ('?'),
    with the sizes of the groups of damaged springs.  The count of arrangements is
    found by trying both states for every unknown spring and matching each completed
    row against a regular expression built from the group sizes. */
module Day12 {
  import opened Common

  const Working := '.'
  const Broken := '#'
  const Unknown := '?'

  // ------------------------------------------------------------ the regular expression

  /** The character class `[.?]`. */
  predicate DotClass(c: char)
  {
    c == Working || c == Unknown
  }

  /** The character class `[#?]`. */
  predicate HashClass(c: char)
  {
    c == Broken || c == Unknown
  }

  /** `[.?]*` matches `s[lo..hi]`. */
  predicate Dots(s: string, lo: nat, hi: nat)
    requires lo <= hi <= |s|
  {
    forall k :: lo <= k < hi ==> DotClass(s[k])
  }

  /** `[#?]{n}` matches `s[lo..lo + n]`. */
  predicate Block(s: string, lo: nat, n: nat)
    requires lo + n <= |s|
  {
    forall k :: lo <= k < lo + n ==> HashClass(s[k])
  }

  /** `"[.?]+".join("[#?]{" + str(num) + "}" for num in nums)` matches `s[lo..hi]`. */
  predicate Joined(s: string, lo: nat, hi: nat, nums: seq<nat>)
    requires lo <= hi <= |s|
    decreases |nums|
  {
    if nums == [] then lo == hi
    else if |nums| == 1 then hi == lo + nums[0] && Block(s, lo, nums[0])
    else
      lo + nums[0] <= hi && Block(s, lo, nums[0]) &&
      exists j :: lo + nums[0] < j <= hi && Dots(s, lo + nums[0], j) && Joined(s, j, hi, nums[1..])
  }

  /** `re_springs.fullmatch(s)` for the pattern `[.?]*` + joined blocks + `[.?]*`
      that `solve` compiles from the group sizes. */
  predicate SpringPattern(s: string, nums: seq<nat>)
  {
    exists i, j :: 0 <= i <= j <= |s| && Dots(s, 0, i) && Joined(s, i, j, nums) && Dots(s, j, |s|)
  }

  // ------------------------------------------------------------ runs of damaged springs

  /** A row with no unknown spring left. */
  predicate Known(s: string)
  {
    forall i :: 0 <= i < |s| ==> s[i] == Working || s[i] == Broken
  }

  predicate Positive(nums: seq<nat>)
  {
    forall k :: 0 <= k < |nums| ==> nums[k] > 0
  }

  /** The number of consecutive '#' from `lo` on. */
  function HashRun(s: string, lo: nat): (n: nat)
    requires lo <= |s|
    ensures lo + n <= |s|
    ensures forall k :: lo <= k < lo + n ==> s[k] == Broken
    ensures lo + n < |s| ==> s[lo + n] != Broken
    decreases |s| - lo
  {
    if lo == |s| || s[lo] != Broken then 0 else 1 + HashRun(s, lo + 1)
  }

  /** The number of consecutive springs that are not '#', from `lo` on. */
  function GapRun(s: string, lo: nat): (n: nat)
    requires lo <= |s|
    ensures lo + n <= |s|
    ensures forall k :: lo <= k < lo + n ==> s[k] != Broken
    ensures lo + n < |s| ==> s[lo + n] == Broken
    decreases |s| - lo
  {
    if lo == |s| || s[lo] == Broken then 0 else 1 + GapRun(s, lo + 1)
  }

  /** The lengths of the maximal runs of '#' in `s[lo..]`, from left to right. */
  function RunsFrom(s: string, lo: nat): seq<nat>
    requires lo <= |s|
    decreases |s| - lo
  {
    if lo == |s| then []
    else if s[lo] != Broken then RunsFrom(s, lo + 1)
    else [HashRun(s, lo)] + RunsFrom(s, lo + HashRun(s, lo))
  }

  function Runs(s: string): seq<nat>
  {
    RunsFrom(s, 0)
  }

  lemma {:induction false} RunsGap(s: string, lo: nat, hi: nat)
    requires lo <= hi <= |s|
    requires forall k :: lo <= k < hi ==> s[k] != Broken
    ensures RunsFrom(s, lo) == RunsFrom(s, hi)
    decreases hi - lo
  {
    if lo < hi {
      RunsGap(s, lo + 1, hi);
    }
  }

  lemma {:induction false} HashRunBlock(s: string, lo: nat, n: nat)
    requires lo + n <= |s|
    requires forall k :: lo <= k < lo + n ==> s[k] == Broken
    requires lo + n == |s| || s[lo + n] != Broken
    ensures HashRun(s, lo) == n
    decreases n
  {
    if n > 0 {
      HashRunBlock(s, lo + 1, n - 1);
    }
  }

  lemma RunsBlock(s: string, lo: nat, n: nat)
    requires n > 0 && lo + n <= |s|
    requires forall k :: lo <= k < lo + n ==> s[k] == Broken
    requires lo + n == |s| || s[lo + n] != Broken
    ensures RunsFrom(s, lo) == [n] + RunsFrom(s, lo + n)
  {
    HashRunBlock(s, lo, n);
  }

  lemma {:induction false} RunsNone(s: string, lo: nat)
    requires lo <= |s| && RunsFrom(s, lo) == []
    ensures forall k :: lo <= k < |s| ==> s[k] != Broken
    decreases |s| - lo
  {
    if lo < |s| {
      RunsNone(s, lo + 1);
    }
  }

  /** The part of the pattern after the leading `[.?]*`, starting at `lo`. */
  predicate FromBlocks(s: string, lo: nat, nums: seq<nat>)
    requires lo <= |s|
  {
    exists j :: lo <= j <= |s| && Joined(s, lo, j, nums) && Dots(s, j, |s|)
  }

  /** For a known row, a dot class only matches '.' and a block only '#'. */
  lemma KnownClasses(s: string)
    requires Known(s)
    ensures forall k :: 0 <= k < |s| && DotClass(s[k]) ==> s[k] != Broken
    ensures forall k :: 0 <= k < |s| && HashClass(s[k]) ==> s[k] == Broken
  {
  }

  lemma {:induction false} FromBlocksRuns(s: string, lo: nat, nums: seq<nat>)
    requires lo <= |s| && Known(s) && Positive(nums) && FromBlocks(s, lo, nums)
    ensures RunsFrom(s, lo) == nums
    decreases |nums|
  {
    KnownClasses(s);
    var j :| lo <= j <= |s| && Joined(s, lo, j, nums) && Dots(s, j, |s|);
    RunsGap(s, j, |s|);
    if nums == [] {
    } else if |nums| == 1 {
      RunsBlock(s, lo, nums[0]);
    } else {
      var n := nums[0];
      assert Joined(s, lo, j, nums);
      assert exists j' :: lo + n < j' <= j && Dots(s, lo + n, j') && Joined(s, j', j, nums[1..]);
      var j' :| lo + n < j' <= j && Dots(s, lo + n, j') && Joined(s, j', j, nums[1..]);
      assert FromBlocks(s, j', nums[1..]);
      FromBlocksRuns(s, j', nums[1..]);
      RunsGap(s, lo + n, j');
      RunsBlock(s, lo, n);
      assert nums == [n] + nums[1..];
    }
  }

  lemma {:induction false} RunsFromBlocks(s: string, lo: nat, nums: seq<nat>)
    requires lo <= |s| && Known(s) && Positive(nums) && RunsFrom(s, lo) == nums
    requires lo == |s| || s[lo] == Broken
    ensures FromBlocks(s, lo, nums)
    decreases |s| - lo
  {
    if lo == |s| {
      assert Joined(s, lo, lo, nums) && Dots(s, lo, |s|);
    } else {
      var n := HashRun(s, lo);
      var t := lo + n;
      assert RunsFrom(s, t) == nums[1..];
      if |nums| == 1 {
        RunsNone(s, t);
        assert Joined(s, lo, t, nums) && Dots(s, t, |s|);
      } else {
        var m := GapRun(s, t);
        RunsGap(s, t, t + m);
        RunsFromBlocks(s, t + m, nums[1..]);
        var j :| t + m <= j <= |s| && Joined(s, t + m, j, nums[1..]) && Dots(s, j, |s|);
        assert Dots(s, t, t + m);
        assert Joined(s, lo, j, nums);
      }
    }
  }

  /** On a row without unknowns, the compiled pattern matches exactly when the runs
      of damaged springs have the listed sizes, in order (group sizes are positive). */
  lemma SpringPatternRuns(s: string, nums: seq<nat>)
    requires Known(s) && Positive(nums)
    ensures SpringPattern(s, nums) <==> Runs(s) == nums
  {
    KnownClasses(s);
    if SpringPattern(s, nums) {
      var i, j :| 0 <= i <= j <= |s| && Dots(s, 0, i) && Joined(s, i, j, nums) && Dots(s, j, |s|);
      RunsGap(s, 0, i);
      assert FromBlocks(s, i, nums);
      FromBlocksRuns(s, i, nums);
    }
    if Runs(s) == nums {
      var i := GapRun(s, 0);
      RunsGap(s, 0, i);
      RunsFromBlocks(s, i, nums);
      var j :| i <= j <= |s| && Joined(s, i, j, nums) && Dots(s, j, |s|);
      assert Dots(s, 0, i);
    }
  }

  // ------------------------------------------------------------ counting arrangements

  /** The number of unknown springs. */
  function Unknowns(s: string): nat
  {
    if s == [] then 0 else (if s[0] == Unknown then 1 else 0) + Unknowns(s[1..])
  }

  lemma {:induction false} UnknownsAppend(a: string, b: string)
    ensures Unknowns(a + b) == Unknowns(a) + Unknowns(b)
  {
    if a != [] {
      assert (a + b)[1..] == a[1..] + b;
      UnknownsAppend(a[1..], b);
    } else {
      assert a + b == b;
    }
  }

  /** `spring_states.index(UNK)`, or `|s|` where the search raises ValueError. */
  function FirstUnknown(s: string): (i: nat)
    ensures i <= |s|
    ensures forall k :: 0 <= k < i ==> s[k] != Unknown
    ensures i < |s| ==> s[i] == Unknown
  {
    if s == [] || s[0] == Unknown then 0 else 1 + FirstUnknown(s[1..])
  }

  lemma {:induction false} NoUnknowns(s: string)
    requires forall k :: 0 <= k < |s| ==> s[k] != Unknown
    ensures Unknowns(s) == 0
  {
    if s != [] {
      NoUnknowns(s[1..]);
    }
  }

  lemma {:induction false} UnknownsZero(s: string)
    requires Unknowns(s) == 0
    ensures forall k :: 0 <= k < |s| ==> s[k] != Unknown
  {
    if s != [] {
      UnknownsZero(s[1..]);
      assert forall k :: 1 <= k < |s| ==> s[k] == s[1..][k - 1];
    }
  }

  /** Replacing the first unknown spring by a known state leaves one unknown fewer. */
  lemma Substitute(s: string, i: nat, c: char)
    requires i < |s| && s[i] == Unknown && c != Unknown
    ensures Unknowns(s[..i] + [c] + s[i + 1..]) + 1 == Unknowns(s)
  {
    assert s == s[..i] + [Unknown] + s[i + 1..];
    UnknownsAppend(s[..i] + [c], s[i + 1..]);
    UnknownsAppend(s[..i], [c]);
    UnknownsAppend(s[..i] + [Unknown], s[i + 1..]);
    UnknownsAppend(s[..i], [Unknown]);
    assert [c][1..] == [];
    assert [Unknown][1..] == [];
  }

  /** `_count_matches`: the number of ways to complete the row that `fullmatch`
      accepts, substituting the first unknown spring each time. */
  function CountMatches(s: string, fullmatch: string -> bool): (n: nat)
    ensures n <= Pow2(Unknowns(s))
    decreases Unknowns(s)
  {
    var i := FirstUnknown(s);
    if i == |s| then (if fullmatch(s) then 1 else 0)
    else
      var prefix, postfix := s[..i], s[i + 1..];
      Substitute(s, i, Working);
      Substitute(s, i, Broken);
      CountMatches(prefix + [Working] + postfix, fullmatch) +
      CountMatches(prefix + [Broken] + postfix, fullmatch)
  }

  /** Without unknowns the count is 1 if the row matches and 0 otherwise. */
  lemma CountKnown(s: string, fullmatch: string -> bool)
    requires Unknowns(s) == 0
    ensures CountMatches(s, fullmatch) == (if fullmatch(s) then 1 else 0)
  {
    UnknownsZero(s);
  }

  /** The states a spring may take: '.' or '#' when unknown, else its own. */
  function Options(c: char): set<char>
  {
    if c == Unknown then {Working, Broken} else {c}
  }

  /** Every way of completing the row. */
  function Completions(s: string): set<string>
  {
    if s == [] then {[]}
    else set c, t | c in Options(s[0]) && t in Completions(s[1..]) :: [c] + t
  }

  lemma {:induction false} CompletionsFit(s: string, t: string)
    requires t in Completions(s)
    ensures |t| == |s|
    ensures forall k :: 0 <= k < |s| && s[k] != Unknown ==> t[k] == s[k]
  {
    if s != [] {
      var c, t' :| c in Options(s[0]) && t' in Completions(s[1..]) && t == [c] + t';
      CompletionsFit(s[1..], t');
      assert forall k :: 1 <= k < |s| ==> s[k] == s[1..][k - 1] && t[k] == t'[k - 1];
    }
  }

  lemma {:induction false} CompletionsKnown(s: string)
    requires forall k :: 0 <= k < |s| ==> s[k] != Unknown
    ensures Completions(s) == {s}
  {
    if s != [] {
      CompletionsKnown(s[1..]);
      assert s == [s[0]] + s[1..];
    }
  }

  /** An unknown spring splits the completions by its state. */
  lemma {:induction false} CompletionsSplit(s: string, i: nat)
    requires i < |s| && s[i] == Unknown
    ensures Completions(s) == Completions(s[i := Working]) + Completions(s[i := Broken])
  {
    var w, b := s[i := Working], s[i := Broken];
    if i == 0 {
      assert w[1..] == s[1..] && b[1..] == s[1..];
    } else {
      CompletionsSplit(s[1..], i - 1);
      assert w[1..] == s[1..][i - 1 := Working];
      assert b[1..] == s[1..][i - 1 := Broken];
      assert w[0] == s[0] && b[0] == s[0];
    }
  }

  /** The completions `fullmatch` accepts. */
  function Accepted(s: string, fullmatch: string -> bool): set<string>
  {
    set t | t in Completions(s) && fullmatch(t)
  }

  /** The accepted completions split by the state given to an unknown spring, into
      two disjoint sets. */
  lemma AcceptedSplit(s: string, i: nat, fullmatch: string -> bool)
    requires i < |s| && s[i] == Unknown
    ensures Accepted(s, fullmatch) ==
            Accepted(s[i := Working], fullmatch) + Accepted(s[i := Broken], fullmatch)
    ensures Accepted(s[i := Working], fullmatch) * Accepted(s[i := Broken], fullmatch) == {}
  {
    var w, b := s[i := Working], s[i := Broken];
    CompletionsSplit(s, i);
    var aw, ab := Accepted(w, fullmatch), Accepted(b, fullmatch);
    forall t | t in aw * ab
      ensures false
    {
      assert w[i] == Working && b[i] == Broken;
      CompletionsFit(w, t);
      CompletionsFit(b, t);
      assert false;
    }
  }

  /** `_count_matches` counts exactly the accepted completions of the row. */
  lemma {:induction false} CountIsAccepted(s: string, fullmatch: string -> bool)
    ensures CountMatches(s, fullmatch) == |Accepted(s, fullmatch)|
    decreases Unknowns(s)
  {
    var i := FirstUnknown(s);
    if i == |s| {
      CompletionsKnown(s);
      if fullmatch(s) {
        assert Accepted(s, fullmatch) == {s};
      } else {
        assert Accepted(s, fullmatch) == {};
      }
    } else {
      var w := s[..i] + [Working] + s[i + 1..];
      var b := s[..i] + [Broken] + s[i + 1..];
      assert w == s[i := Working] && b == s[i := Broken];
      Substitute(s, i, Working);
      Substitute(s, i, Broken);
      CountIsAccepted(w, fullmatch);
      CountIsAccepted(b, fullmatch);
      AcceptedSplit(s, i, fullmatch);
      CardDisjoint(Accepted(w, fullmatch), Accepted(b, fullmatch));
    }
  }

  lemma CardDisjoint<T>(a: set<T>, b: set<T>)
    requires a * b == {}
    ensures |a + b| == |a| + |b|
  {
  }

  // ------------------------------------------------------------ solve

  datatype Row = Row(springs: string, numbers: seq<nat>)

  /** The arrangements of one row: the compiled pattern passed as `re_springs`. */
  function Arrangements(row: Row): nat
  {
    CountMatches(row.springs, t => SpringPattern(t, row.numbers))
  }

  /** With positive group sizes, the arrangements of a row are its completions
      whose runs of damaged springs have exactly the listed sizes. */
  lemma ArrangementsAreRuns(row: Row)
    requires Springs(row.springs) && Positive(row.numbers)
    ensures Arrangements(row) ==
            |set t | t in Completions(row.springs) && Runs(t) == row.numbers|
  {
    var f := t => SpringPattern(t, row.numbers);
    CountIsAccepted(row.springs, f);
    forall t | t in Completions(row.springs)
      ensures f(t) <==> Runs(t) == row.numbers
    {
      CompletionsAreKnown(row.springs, t);
      SpringPatternRuns(t, row.numbers);
    }
    assert Accepted(row.springs, f) ==
           set t | t in Completions(row.springs) && Runs(t) == row.numbers;
  }

  /** A row of '.', '#' and '?'. */
  predicate Springs(s: string)
  {
    forall k :: 0 <= k < |s| ==> s[k] == Working || s[k] == Broken || s[k] == Unknown
  }

  lemma {:induction false} CompletionsAreKnown(s: string, t: string)
    requires Springs(s) && t in Completions(s)
    ensures Known(t)
  {
    if s != [] {
      var c, t' :| c in Options(s[0]) && t' in Completions(s[1..]) && t == [c] + t';
      assert Springs(s[1..]) by {
        forall k | 0 <= k < |s[1..]| ensures s[1..][k] == s[k + 1] {}
      }
      CompletionsAreKnown(s[1..], t');
      assert forall k :: 1 <= k < |t| ==> t[k] == t'[k - 1];
    }
  }

  function Totals(input: seq<Row>): (s: seq<int>)
    ensures |s| == |input|
  {
    seq(|input|, k requires 0 <= k < |input| => Arrangements(input[k]) as int)
  }

  /** `solve`: the sum of the arrangements of every row. */
  method Solve(input: seq<Row>) returns (total: int)
    ensures total == Sum(Totals(input))
    ensures total >= 0
  {
    var counts := Totals(input);
    total := 0;
    for k := 0 to |input|
      invariant total == Sum(counts[..k]) && total >= 0
    {
      var n := CountMatches(input[k].springs, t => SpringPattern(t, input[k].numbers));
      assert counts[..k + 1][..k] == counts[..k];
      total := total + n;
    }
    assert counts[..|input|] == counts;
  }
}
