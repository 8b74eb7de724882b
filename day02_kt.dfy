/** Day 2 in Kotlin.  The text after `Game n:` is split at every ',' and ';', each
    fragment keeps the first match of `(\d+)\s+(red|green|blue)` if it has one, and
    `solve` sums the numbers of the games whose pairs are all within `colorMaxes`. */
module Day02Kt {
  import opened Common
  import Day02
  import Day02Ts

  predicate IsSeparator(c: char)
  {
    c == ',' || c == ';'
  }

  /** The position of the first separator at or after `i`, or `|s|`. */
  function NextSeparator(s: string, i: nat): (j: nat)
    requires i <= |s|
    ensures i <= j <= |s| && (j < |s| ==> IsSeparator(s[j]))
    ensures forall k :: i <= k < j ==> !IsSeparator(s[k])
    decreases |s| - i
  {
    if i == |s| || IsSeparator(s[i]) then i else NextSeparator(s, i + 1)
  }

  /** `split(",", ";")` of `s[i..]`. */
  function SplitFrom(s: string, i: nat): (parts: seq<string>)
    requires i <= |s|
    ensures |parts| >= 1
    decreases |s| - i
  {
    var j := NextSeparator(s, i);
    if j == |s| then [s[i..]] else [s[i..j]] + SplitFrom(s, j + 1)
  }

  /** The number of separators in `s[i..]`. */
  function Separators(s: string, i: nat): nat
    requires i <= |s|
    decreases |s| - i
  {
    if i == |s| then 0 else (if IsSeparator(s[i]) then 1 else 0) + Separators(s, i + 1)
  }

  lemma {:induction false} SeparatorsNone(s: string, i: nat, j: nat)
    requires i <= j <= |s| && forall k :: i <= k < j ==> !IsSeparator(s[k])
    ensures Separators(s, i) == Separators(s, j)
    decreases j - i
  {
    if i < j {
      SeparatorsNone(s, i + 1, j);
    }
  }

  /** The split has one fragment more than the text has separators, and no fragment
      holds a separator. */
  lemma {:induction false} SplitShape(s: string, i: nat)
    requires i <= |s|
    ensures |SplitFrom(s, i)| == Separators(s, i) + 1
    ensures forall p :: 0 <= p < |SplitFrom(s, i)| ==> forall k :: 0 <= k < |SplitFrom(s, i)[p]| ==> !IsSeparator(SplitFrom(s, i)[p][k])
    decreases |s| - i
  {
    var j := NextSeparator(s, i);
    SeparatorsNone(s, i, j);
    if j < |s| {
      SplitShape(s, j + 1);
      assert Separators(s, j) == 1 + Separators(s, j + 1);
      var parts := SplitFrom(s, i);
      assert parts == [s[i..j]] + SplitFrom(s, j + 1);
      forall p | 0 <= p < |parts|
        ensures forall k :: 0 <= k < |parts[p]| ==> !IsSeparator(parts[p][k])
      {
        if p > 0 {
          assert parts[p] == SplitFrom(s, j + 1)[p - 1];
        }
      }
    }
  }

  /** `regexColorCount.find(pullRaw)`: the first match in a fragment, as a pair. */
  function FindPair(fragment: string): (pair: Option<(string, int)>)
    ensures pair.Some? ==> pair.value.0 in Day02.Colors && pair.value.1 >= 0
  {
    match Day02Ts.FindFrom(fragment, 0, Day02.Colors)
    case None => None
    case Some(i) =>
      var f := Day02Ts.MatchAt(fragment, i, Day02.Colors).value;
      Some((f.color, f.count))
  }

  /** `mapNotNull`: the pairs of the fragments that have one, in order. */
  function MapNotNull(fragments: seq<string>): (pairs: seq<(string, int)>)
    ensures |pairs| <= |fragments|
    ensures forall k :: 0 <= k < |pairs| ==> pairs[k].0 in Day02.Colors
  {
    if fragments == [] then []
    else
      var rest := MapNotNull(fragments[1..]);
      match FindPair(fragments[0])
      case None => rest
      case Some(pair) => [pair] + rest
  }

  /** The pulls of a game: at most one pair per fragment, all of known colours. */
  function ParsePulls(pullsRaw: string): (pairs: seq<(string, int)>)
    ensures |pairs| <= Separators(pullsRaw, 0) + 1
    ensures forall k :: 0 <= k < |pairs| ==> pairs[k].0 in Day02.ColorMaxes
  {
    SplitShape(pullsRaw, 0);
    assert forall c :: c in Day02.Colors ==> c in Day02.ColorMaxes;
    MapNotNull(SplitFrom(pullsRaw, 0))
  }

  // ------------------------------------------------------------ solve

  /** `pulls.all { (color, count) -> count <= colorMaxes[color]!! }`, stopping at the
      first pair out of range, and failing at `!!` on a colour without a maximum. */
  function All(pulls: seq<(string, int)>): (r: Result<bool>)
    ensures r.Ok? && r.value ==> forall k :: 0 <= k < |pulls| ==> Day02Ts.PairOk(pulls[k])
    ensures (forall k :: 0 <= k < |pulls| ==> Day02Ts.PairOk(pulls[k])) ==> r == Ok(true)
    ensures r.Err? ==> r.fault == KeyError
  {
    if pulls == [] then Ok(true)
    else
      var (color, count) := pulls[0];
      if color !in Day02.ColorMaxes then Err(KeyError)
      else if count > Day02.ColorMaxes[color] then Ok(false)
      else All(pulls[1..])
  }

  /** `filter`, then `map` to the numbers: the first failure of `all` is the answer. */
  function Passing(games: seq<Day02Ts.Game>): (r: Result<seq<int>>)
  {
    if games == [] then Ok([])
    else
      match All(games[0].1)
      case Err(f) => Err(f)
      case Ok(ok) =>
        match Passing(games[1..])
        case Err(f) => Err(f)
        case Ok(rest) => Ok(if ok then [games[0].0] + rest else rest)
  }

  /** `solve`: `sum()` of the passing numbers, 0 when there are none. */
  function Solve(games: seq<Day02Ts.Game>): Result<int>
  {
    match Passing(games)
    case Err(f) => Err(f)
    case Ok(nums) => Ok(Sum(nums))
  }

  /** Pairs of the three colours, as `readInput` makes them. */
  predicate KnownColors(games: seq<Day02Ts.Game>)
  {
    forall k, p :: 0 <= k < |games| && 0 <= p < |games[k].1| ==> games[k].1[p].0 in Day02.ColorMaxes
  }

  lemma {:induction false} AllKnown(pulls: seq<(string, int)>)
    requires forall p :: 0 <= p < |pulls| ==> pulls[p].0 in Day02.ColorMaxes
    ensures All(pulls) == Ok(Day02Ts.Every(pulls))
  {
    if pulls != [] {
      AllKnown(pulls[1..]);
    }
  }

  /** With the colours of the parse, `!!` never fails and the passing games are those of
      the TypeScript filter. */
  lemma {:induction false} PassingKnown(games: seq<Day02Ts.Game>)
    requires KnownColors(games)
    ensures Passing(games) == Ok(Day02Ts.Passing(games))
  {
    if games != [] {
      assert forall p :: 0 <= p < |games[0].1| ==> games[0].1[p].0 in Day02.ColorMaxes;
      AllKnown(games[0].1);
      assert KnownColors(games[1..]) by {
        forall k, p | 0 <= k < |games| - 1 && 0 <= p < |games[1..][k].1|
          ensures games[1..][k].1[p].0 in Day02.ColorMaxes
        {
          assert games[1..][k] == games[k + 1];
        }
      }
      PassingKnown(games[1..]);
    }
  }

  /** The answer is the TypeScript one where that one has an answer, and 0 where the
      TypeScript `reduce` throws for want of a passing game. */
  lemma SolveKnown(games: seq<Day02Ts.Game>)
    requires KnownColors(games)
    ensures Solve(games).Ok?
    ensures Day02Ts.Solve1(games).Ok? ==> Solve(games) == Day02Ts.Solve1(games)
    ensures Day02Ts.Solve1(games).Err? ==> Solve(games) == Ok(0)
  {
    PassingKnown(games);
    Day02Ts.Solve1Spec(games);
    Day02Ts.PassingEmpty(games);
  }
}
