/** Day 2: games of cubes drawn from a bag.  A game is a list of pulls, and a pull
    counts the cubes of each colour; a game is good when no pull shows more than 12 red,
    13 green or 14 blue cubes, and the answer is the sum of the numbers of the good
    games (day02.py). */
module Day02 {
  import opened Common

  /** The keys of `COLOR_MAXES`, in order. */
  const Colors: seq<string> := ["red", "green", "blue"]

  /** `COLOR_MAXES`. */
  const ColorMaxes: map<string, int> := map["red" := 12, "green" := 13, "blue" := 14]

  // ------------------------------------------------------------ reading a pull

  /** `(\d+) {color}` matched at position `i`: a run of digits, one space, the colour.
      The run is all of the digits from `i` on, since `\d+` is greedy and a shorter run
      is followed by a digit, not by the space. */
  function CountAt(s: string, i: nat, color: string): (v: Option<nat>)
    requires i <= |s|
  {
    var d := DigitsFrom(s, i);
    var j := i + d;
    DigitsFromAll(s, i);
    if d > 0 && j + 1 + |color| <= |s| && s[j] == ' ' && s[j + 1..j + 1 + |color|] == color
    then Some(Decimal(s[i..j])) else None
  }

  /** `re.search(f"(\d+) {color}", s[i..])`: the leftmost position at which it matches. */
  function SearchAt(s: string, i: nat, color: string): (p: Option<nat>)
    requires i <= |s|
    ensures p.Some? ==> i <= p.value < |s| && CountAt(s, p.value, color).Some?
    ensures p.Some? ==> forall j :: i <= j < p.value ==> CountAt(s, j, color).None?
    ensures p.None? ==> forall j :: i <= j <= |s| ==> CountAt(s, j, color).None?
    decreases |s| - i
  {
    if i == |s| then None
    else if CountAt(s, i, color).Some? then Some(i)
    else SearchAt(s, i + 1, color)
  }

  /** The count `int(match.group(1))` of the first match, if there is one. */
  function Search(s: string, color: string): Option<nat>
  {
    match SearchAt(s, 0, color)
    case None => None
    case Some(p) => CountAt(s, p, color)
  }

  /** `counts[color]` on the `defaultdict(int)`: a colour never stored counts 0. */
  function Count(counts: map<string, int>, color: string): (n: int)
    ensures color !in counts ==> n == 0
    ensures color in counts ==> n == counts[color]
  {
    if color in counts then counts[color] else 0
  }

  /** The inner loop of `read_input`: one pull's counts, storing only the colours its
      text mentions. */
  method PullCounts(pull: string) returns (counts: map<string, int>)
    ensures forall c :: c in counts <==> c in Colors && Search(pull, c).Some?
    ensures forall c :: c in counts ==> counts[c] == Search(pull, c).value
  {
    counts := map[];
    for k := 0 to |Colors|
      invariant forall c :: c in counts <==> c in Colors[..k] && Search(pull, c).Some?
      invariant forall c :: c in counts ==> counts[c] == Search(pull, c).value
    {
      var color := Colors[k];
      var m := Search(pull, color);
      if m.Some? {
        counts := counts[color := m.value];
      }
      assert Colors[..k + 1] == Colors[..k] + [color];
    }
    assert Colors[..|Colors|] == Colors;
  }

  /** Every colour of a read pull counts what its text says, and 0 when it is absent. */
  lemma PullCountsDefault(pull: string, counts: map<string, int>, color: string)
    requires forall c :: c in counts <==> c in Colors && Search(pull, c).Some?
    requires forall c :: c in counts ==> counts[c] == Search(pull, c).value
    requires color in Colors
    ensures Count(counts, color) == match Search(pull, color) case None => 0 case Some(v) => v
  {
  }

  // ------------------------------------------------------------ good games

  /** The maximum of one of the first `colors`; `COLOR_MAXES` has a key for each. */
  function MaxFor(color: string): (m: int)
    requires color in ColorMaxes
  {
    ColorMaxes[color]
  }

  /** `all(pull[color] <= count_max for ...)` over the colours `colors`, in order. */
  function PullWithin(pull: map<string, int>, colors: seq<string>): (ok: bool)
    requires forall i :: 0 <= i < |colors| ==> colors[i] in ColorMaxes
    ensures ok <==> forall i :: 0 <= i < |colors| ==> Count(pull, colors[i]) <= ColorMaxes[colors[i]]
  {
    if colors == [] then true
    else Count(pull, colors[0]) <= MaxFor(colors[0]) && PullWithin(pull, colors[1..])
  }

  /** A pull is within the maxima: every colour of `COLOR_MAXES` within its own. */
  predicate PullOk(pull: map<string, int>)
  {
    forall c :: c in ColorMaxes ==> Count(pull, c) <= ColorMaxes[c]
  }

  /** Walking the keys in order checks exactly every key of `COLOR_MAXES`. */
  lemma PullWithinColors(pull: map<string, int>)
    ensures forall i :: 0 <= i < |Colors| ==> Colors[i] in ColorMaxes
    ensures PullWithin(pull, Colors) <==> PullOk(pull)
  {
    assert forall c :: c in ColorMaxes ==> c == Colors[0] || c == Colors[1] || c == Colors[2];
  }

  /** The outer `all` over the pulls of a game. */
  function GameGood(pulls: seq<map<string, int>>): (ok: bool)
    ensures ok <==> forall i :: 0 <= i < |pulls| ==> PullOk(pulls[i])
  {
    if pulls == [] then true
    else
      PullWithinColors(pulls[0]);
      PullWithin(pulls[0], Colors) && GameGood(pulls[1..])
  }

  /** A game without pulls is good. */
  lemma NoPullsGood()
    ensures GameGood([])
  {
  }

  /** Another pull, anywhere in the game, never turns a bad game good. */
  lemma PullMonotone(a: seq<map<string, int>>, p: map<string, int>, b: seq<map<string, int>>)
    ensures GameGood(a + [p] + b) ==> GameGood(a + b)
  {
    if GameGood(a + [p] + b) {
      forall i | 0 <= i < |a + b|
        ensures PullOk((a + b)[i])
      {
        if i < |a| {
          assert (a + b)[i] == (a + [p] + b)[i];
        } else {
          assert (a + b)[i] == (a + [p] + b)[i + 1];
        }
      }
    }
  }

  // ------------------------------------------------------------ the answer

  /** A game of `dict.items()`: its number and its pulls. */
  type Game = (int, seq<map<string, int>>)

  /** The numbers of a dictionary are distinct. */
  predicate DistinctNums(games: seq<Game>)
  {
    forall i, j :: 0 <= i < j < |games| ==> games[i].0 != games[j].0
  }

  /** `good_game_nums`. */
  function GoodSet(games: seq<Game>): (s: set<int>)
    ensures forall n :: n in s <==> exists k :: 0 <= k < |games| && games[k].0 == n && GameGood(games[k].1)
  {
    if games == [] then {}
    else
      var k := |games| - 1;
      GoodSet(games[..k]) + (if GameGood(games[k].1) then {games[k].0} else {})
  }

  /** The good game numbers in the order of the items. */
  function GoodNums(games: seq<Game>): seq<int>
  {
    if games == [] then []
    else
      var k := |games| - 1;
      GoodNums(games[..k]) + (if GameGood(games[k].1) then [games[k].0] else [])
  }

  /** `solve`: the sum of the set of good game numbers. */
  method Solve(games: seq<Game>) returns (total: int)
    ensures total == SetSum(GoodSet(games))
  {
    var goodGameNums: set<int> := {};
    for k := 0 to |games|
      invariant goodGameNums == GoodSet(games[..k])
    {
      var (gameNum, pulls) := games[k];
      assert games[..k + 1][..k] == games[..k];
      if GameGood(pulls) {
        goodGameNums := goodGameNums + {gameNum};
      }
    }
    assert games[..|games|] == games;
    total := SumSet(goodGameNums);
  }

  /** Python's `sum` over a set, in whatever order the set yields its elements. */
  method SumSet(s: set<int>) returns (total: int)
    ensures total == SetSum(s)
  {
    total := 0;
    var rest := s;
    while rest != {}
      invariant rest <= s && total + SetSum(rest) == SetSum(s)
      decreases |rest|
    {
      ghost var someElement := HasElement(rest);
      var x :| x in rest;
      SetSumRemove(rest, x);
      total := total + x;
      rest := rest - {x};
    }
  }

  /** With the distinct numbers of a dictionary, the sum of the set is the sum of the good
      numbers, each counted once. */
  lemma {:induction false} SetSumGood(games: seq<Game>)
    requires DistinctNums(games)
    ensures SetSum(GoodSet(games)) == Sum(GoodNums(games))
  {
    if games != [] {
      var k := |games| - 1;
      var front := games[..k];
      assert DistinctNums(front);
      SetSumGood(front);
      if GameGood(games[k].1) {
        var n := games[k].0;
        assert n !in GoodSet(front);
        SetSumRemove(GoodSet(games), n);
        assert GoodSet(games) - {n} == GoodSet(front);
        SumAppend(GoodNums(front), [n]);
      } else {
        assert GoodNums(games) == GoodNums(front) + [];
        assert GoodNums(games) == GoodNums(front);
        assert GoodSet(games) == GoodSet(front);
      }
    }
  }
}
