/** Day 4: scratchcards.  A card has winning numbers and the numbers you have; its
    matches are the numbers you have (each occurrence counted) that are winning.
    Part 1 scores a card 2^(matches - 1), or 0 without matches (day04.py). */
module Day04 {
  import opened Common

  datatype Card = Card(winning: seq<int>, yours: seq<int>)

  /** `set(winning)`. */
  function AsSet(s: seq<int>): (r: set<int>)
    ensures forall x :: x in r <==> x in s
  {
    set x | x in s
  }

  /** How many entries of `yours`, duplicates included, belong to `winning`. */
  function MatchCount(winning: set<int>, yours: seq<int>): (n: nat)
    ensures n <= |yours|
  {
    if yours == [] then 0
    else MatchCount(winning, yours[..|yours| - 1]) + (if yours[|yours| - 1] in winning then 1 else 0)
  }

  /** The positions of `yours` holding a winning number. */
  function MatchPositions(winning: set<int>, yours: seq<int>): set<nat>
  {
    set i: nat | i < |yours| && yours[i] in winning
  }

  /** The count is the number of positions of `yours` that hold a winning number, so a
      number you have twice is counted twice. */
  lemma {:induction false} MatchCountPositions(winning: set<int>, yours: seq<int>)
    ensures MatchCount(winning, yours) == |MatchPositions(winning, yours)|
    decreases |yours|
  {
    if yours != [] {
      var n := |yours| - 1;
      var front := yours[..n];
      MatchCountPositions(winning, front);
      var last: set<nat> := if yours[n] in winning then {n} else {};
      assert MatchPositions(winning, yours) == MatchPositions(winning, front) + last;
      assert MatchPositions(winning, front) !! last;
    }
  }

  function Matches(card: Card): nat
  {
    MatchCount(AsSet(card.winning), card.yours)
  }

  /** The order of the winning numbers and their repetitions do not matter. */
  lemma WinningAsSet(a: Card, b: Card)
    requires a.yours == b.yours && forall x :: x in a.winning <==> x in b.winning
    ensures Matches(a) == Matches(b)
  {
    assert forall x :: x in AsSet(a.winning) <==> x in AsSet(b.winning);
    assert AsSet(a.winning) == AsSet(b.winning);
  }

  /** The score of a card with `count` matches. */
  function Score(count: nat): (s: nat)
    ensures count == 0 ==> s == 0
    ensures count > 0 ==> s == Pow2(count - 1) && s >= 1
  {
    if count == 0 then 0 else Pow2(count - 1)
  }

  /** A card scores at most 2^(len(yours) - 1), and nothing when you have no numbers. */
  lemma ScoreBound(card: Card)
    ensures |card.yours| == 0 ==> Score(Matches(card)) == 0
    ensures |card.yours| > 0 ==> Score(Matches(card)) <= Pow2(|card.yours| - 1)
  {
    if Matches(card) > 0 {
      Pow2Monotone(Matches(card) - 1, |card.yours| - 1);
    }
  }

  function Scores(cards: seq<Card>): (s: seq<int>)
    ensures |s| == |cards|
    ensures forall i :: 0 <= i < |cards| ==> s[i] == Score(Matches(cards[i]))
  {
    if cards == [] then [] else Scores(cards[..|cards| - 1]) + [Score(Matches(cards[|cards| - 1]))]
  }

  /** The answer: the sum of the card scores. */
  function Total(cards: seq<Card>): int
  {
    Sum(Scores(cards))
  }

  lemma TotalNonNegative(cards: seq<Card>)
    ensures Total(cards) >= 0
  {
    SumNonNegative(Scores(cards));
  }

  /** The inner loop: `count` over the numbers you have. */
  method CountMatches(winning: set<int>, yours: seq<int>) returns (count: nat)
    ensures count == MatchCount(winning, yours)
  {
    count := 0;
    for i := 0 to |yours|
      invariant count == MatchCount(winning, yours[..i])
    {
      assert yours[..i + 1][..i] == yours[..i];
      if yours[i] in winning {
        count := count + 1;
      }
    }
    assert yours[..|yours|] == yours;
  }

  /** `solve`: the total over the cards, accumulated card by card. */
  method Solve(cards: seq<Card>) returns (total: int)
    ensures total == Total(cards) && total >= 0
  {
    total := 0;
    for k := 0 to |cards|
      invariant total == Total(cards[..k])
    {
      var winning := AsSet(cards[k].winning);
      var count := CountMatches(winning, cards[k].yours);
      var score := if count == 0 then 0 else Pow2(count - 1);
      assert cards[..k + 1][..k] == cards[..k];
      assert Scores(cards[..k + 1]) == Scores(cards[..k]) + [score];
      total := total + score;
    }
    assert cards[..|cards|] == cards;
    TotalNonNegative(cards);
  }
}
