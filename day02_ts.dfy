/** Day 2 in TypeScript.  Each game keeps the `(colour, count)` pairs that the global
    expression `(\d+)\s+(red|green|blue)` finds in the text after `Game n:`; a game
    passes when every pair is within its colour's maximum, and the answer is the `reduce`
    of the passing numbers, which throws when no game passes. */
module Day02Ts {
  import opened Common
  import Day02

  // ------------------------------------------------------------ the colour expression

  /** `\s`, restricted to the ASCII white-space characters; the Unicode spaces that
      JavaScript's `\s` also matches (U+00A0, U+2028, U+FEFF and the rest) are not
      modelled. */
  predicate IsSpace(c: char)
  {
    c == ' ' || c == '\t' || c == '\n' || c == '\r' || c == '\U{B}' || c == '\U{C}'
  }

  /** The length of the run of white space starting at `i`. */
  function SpacesFrom(s: string, i: nat): (n: nat)
    requires i <= |s|
    ensures i + n <= |s| && (forall j :: i <= j < i + n ==> IsSpace(s[j]))
    ensures i + n == |s| || !IsSpace(s[i + n])
    decreases |s| - i
  {
    if i == |s| || !IsSpace(s[i]) then 0 else 1 + SpacesFrom(s, i + 1)
  }

  /** The first of the alternatives `colors[p..]` that occurs at `i`. */
  function ColorAt(s: string, i: nat, colors: seq<string>, p: nat): (m: Option<nat>)
    requires i <= |s| && p <= |colors|
    ensures m.Some? ==> p <= m.value < |colors| && i + |colors[m.value]| <= |s| && s[i..i + |colors[m.value]|] == colors[m.value]
    decreases |colors| - p
  {
    if p == |colors| then None
    else if i + |colors[p]| <= |s| && s[i..i + |colors[p]|] == colors[p] then Some(p)
    else ColorAt(s, i, colors, p + 1)
  }

  /** A match found by the expression: the colour, the count and where the match ends. */
  datatype Found = Found(color: string, count: nat, end: nat)

  /** `(\d+)\s+(c0|c1|...)` matched at `i`.  Both runs are taken whole: a shorter run of
      digits is followed by a digit, a shorter run of spaces by a space, and neither can
      start the next part of the expression. */
  function MatchAt(s: string, i: nat, colors: seq<string>): (m: Option<Found>)
    requires i <= |s|
    ensures m.Some? ==> m.value.color in colors && i < m.value.end <= |s|
  {
    var d := DigitsFrom(s, i);
    if d == 0 then None
    else
      var w := SpacesFrom(s, i + d);
      if w == 0 then None
      else
        match ColorAt(s, i + d + w, colors, 0)
        case None => None
        case Some(p) =>
          DigitsFromAll(s, i);
          Some(Found(colors[p], Decimal(s[i..i + d]), i + d + w + |colors[p]|))
  }

  /** The leftmost match at or after `pos`. */
  function FindFrom(s: string, pos: nat, colors: seq<string>): (m: Option<nat>)
    requires pos <= |s|
    ensures m.Some? ==> pos <= m.value <= |s| && MatchAt(s, m.value, colors).Some?
    ensures m.Some? ==> forall j :: pos <= j < m.value ==> MatchAt(s, j, colors).None?
    ensures m.None? ==> forall j :: pos <= j <= |s| ==> MatchAt(s, j, colors).None?
    decreases |s| - pos
  {
    if MatchAt(s, pos, colors).Some? then Some(pos)
    else if pos == |s| then None
    else FindFrom(s, pos + 1, colors)
  }

  /** `matchAll` from `pos`: each match, then the search resumes where it ended. */
  function MatchAll(s: string, pos: nat, colors: seq<string>): (pairs: seq<(string, int)>)
    requires pos <= |s|
    ensures forall k :: 0 <= k < |pairs| ==> pairs[k].0 in colors && pairs[k].1 >= 0
    decreases |s| - pos
  {
    match FindFrom(s, pos, colors)
    case None => []
    case Some(i) =>
      var f := MatchAt(s, i, colors).value;
      [(f.color, f.count)] + MatchAll(s, f.end, colors)
  }

  /** The pulls `readInput` keeps for a game: only the three colours of `COLOR_MAXES`. */
  function ParsePulls(pullsRaw: string): seq<(string, int)>
  {
    MatchAll(pullsRaw, 0, Day02.Colors)
  }

  lemma ParseColors(pullsRaw: string)
    ensures forall k :: 0 <= k < |ParsePulls(pullsRaw)| ==> ParsePulls(pullsRaw)[k].0 in Day02.ColorMaxes
  {
    assert forall c :: c in Day02.Colors ==> c in Day02.ColorMaxes;
  }

  // ------------------------------------------------------------ solve1

  /** An entry of the `Map`: the game number and its pulls. */
  type Game = (int, seq<(string, int)>)

  /** `count <= COLOR_MAXES[color]`; a colour without a maximum gives `undefined`, and no
      number is `<=` it. */
  predicate PairOk(pair: (string, int))
  {
    pair.0 in Day02.ColorMaxes && pair.1 <= Day02.ColorMaxes[pair.0]
  }

  /** `pulls.every(...)`. */
  function Every(pulls: seq<(string, int)>): (ok: bool)
    ensures ok <==> forall k :: 0 <= k < |pulls| ==> PairOk(pulls[k])
  {
    if pulls == [] then true else PairOk(pulls[0]) && Every(pulls[1..])
  }

  /** `filter(...).map(([gameNum, _]) => gameNum)`. */
  function Passing(games: seq<Game>): (nums: seq<int>)
    ensures |nums| <= |games|
    ensures forall n :: n in nums <==> exists k :: 0 <= k < |games| && games[k].0 == n && Every(games[k].1)
  {
    if games == [] then []
    else
      var rest := Passing(games[1..]);
      assert forall k :: 0 < k < |games| ==> games[k] == games[1..][k - 1];
      if Every(games[0].1) then [games[0].0] + rest else rest
  }

  /** `reduce((total, current) => total + current)` with no initial value. */
  function Reduce(xs: seq<int>): (r: Result<int>)
    ensures r.Err? <==> xs == []
    ensures r.Err? ==> r.fault == EmptyReduce
  {
    if xs == [] then Err(EmptyReduce) else Ok(FoldAdd(xs[0], xs[1..]))
  }

  /** The left fold of `+` from `acc`. */
  function FoldAdd(acc: int, xs: seq<int>): int
    decreases |xs|
  {
    if xs == [] then acc else FoldAdd(acc + xs[0], xs[1..])
  }

  lemma {:induction false} FoldAddSum(acc: int, xs: seq<int>)
    ensures FoldAdd(acc, xs) == acc + Sum(xs)
    decreases |xs|
  {
    if xs != [] {
      FoldAddSum(acc + xs[0], xs[1..]);
      assert xs == [xs[0]] + xs[1..];
      SumAppend([xs[0]], xs[1..]);
      assert [xs[0]][..0] == [];
    }
  }

  /** `solve1`. */
  function Solve1(games: seq<Game>): Result<int>
  {
    Reduce(Passing(games))
  }

  /** `reduce` of a non-empty list is its sum. */
  lemma ReduceSum(xs: seq<int>)
    requires xs != []
    ensures Reduce(xs) == Ok(Sum(xs))
  {
    FoldAddSum(xs[0], xs[1..]);
    assert xs == [xs[0]] + xs[1..];
    SumAppend([xs[0]], xs[1..]);
    assert [xs[0]][..0] == [];
  }

  /** No number passes exactly when no game passes. */
  lemma PassingEmpty(games: seq<Game>)
    ensures Passing(games) == [] <==> forall k :: 0 <= k < |games| ==> !Every(games[k].1)
  {
    var nums := Passing(games);
    if nums != [] {
      assert nums[0] in nums;
      var k :| 0 <= k < |games| && games[k].0 == nums[0] && Every(games[k].1);
    } else {
      forall k | 0 <= k < |games|
        ensures !Every(games[k].1)
      {
        assert games[k].0 !in nums;
      }
    }
  }

  /** The answer is the sum of the passing game numbers, and it throws exactly when no
      game passes. */
  lemma Solve1Spec(games: seq<Game>)
    ensures Solve1(games).Err? <==> forall k :: 0 <= k < |games| ==> !Every(games[k].1)
    ensures Solve1(games).Ok? ==> Solve1(games).value == Sum(Passing(games))
  {
    PassingEmpty(games);
    if Passing(games) != [] {
      ReduceSum(Passing(games));
    }
  }
}
