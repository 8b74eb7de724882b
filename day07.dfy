/** Day 7: Camel Cards (day07.py). Hands of five cards are classified by the
    pattern of their card multiplicities, optionally with 'J' as a wild joker,
    then ranked by type and by a per-card key; the answer sums rank times bet. */
module Day07 {
  import opened Common

  datatype HandType = HighCard | OnePair | TwoPair | Three | FullHouse | Four | Five

  /** The numeric value of each hand type: higher is stronger. */
  function TypeValue(t: HandType): (v: nat)
    ensures 1 <= v <= 7
  {
    match t
    case Five => 7
    case Four => 6
    case FullHouse => 5
    case Three => 4
    case TwoPair => 3
    case OnePair => 2
    case HighCard => 1
  }

  /** Entry `k` of `HAND_TYPE_ORDER`, which lists the hand types from worst to best. */
  function TypeAt(k: int): (t: HandType)
    requires 0 <= k < 7
    ensures TypeValue(t) == k + 1
  {
    if k == 0 then HighCard
    else if k == 1 then OnePair
    else if k == 2 then TwoPair
    else if k == 3 then Three
    else if k == 4 then FullHouse
    else if k == 5 then Four
    else Five
  }

  /** Position `k` of `HAND_TYPE_ORDER` holds the one type of value `k + 1`. */
  lemma TypeAtUnique(t: HandType, k: int)
    requires 0 <= k < 7
    ensures TypeValue(t) == k + 1 <==> t == TypeAt(k)
  {
  }

  // ---------------------------------------------------------------------------
  // Card multiplicities (`Counter(hand).values()`)

  /** The hand with every copy of `c` removed. */
  function RemoveAll(s: string, c: char): (r: string)
    ensures multiset(r) == multiset(s)[c := 0]
    ensures |r| == |s| - multiset(s)[c]
  {
    if s == [] then []
    else if s[0] == c then
      assert s == [s[0]] + s[1..];
      RemoveAll(s[1..], c)
    else
      assert s == [s[0]] + s[1..];
      [s[0]] + RemoveAll(s[1..], c)
  }

  lemma {:induction false} RemoveAllCommute(s: string, c: char, d: char)
    ensures RemoveAll(RemoveAll(s, c), d) == RemoveAll(RemoveAll(s, d), c)
  {
    if s != [] {
      RemoveAllCommute(s[1..], c, d);
    }
  }

  /** One multiplicity per distinct card, in order of first appearance. */
  function CountsOf(s: string): (counts: seq<nat>)
    ensures forall i :: 0 <= i < |counts| ==> counts[i] >= 1
    decreases |s|
  {
    if s == [] then []
    else
      assert RemoveAll(s, s[0]) == RemoveAll(s[1..], s[0]);
      [multiset(s)[s[0]]] + CountsOf(RemoveAll(s[1..], s[0]))
  }

  /** The multiplicities add up to the number of cards. */
  lemma {:induction false} CountsOfSum(s: string)
    ensures Sum(CountsOf(s)) == |s|
    decreases |s|
  {
    if s != [] {
      CountsOfStep(s);
      CountsOfSum(RemoveAll(s, s[0]));
      SumCons(multiset(s)[s[0]], CountsOf(RemoveAll(s, s[0])));
    }
  }

  lemma CountsOfStep(s: string)
    requires s != []
    ensures CountsOf(s) == [multiset(s)[s[0]]] + CountsOf(RemoveAll(s, s[0]))
  {
    assert RemoveAll(s, s[0]) == RemoveAll(s[1..], s[0]);
  }

  /** Taking a card `c` out of the counter (`counter.pop(c)`) removes exactly its
      multiplicity from the multiset of counts. */
  lemma {:induction false} CountsOfRemove(s: string, c: char)
    requires c in s
    ensures multiset(CountsOf(s)) == multiset(CountsOf(RemoveAll(s, c))) + multiset{multiset(s)[c]}
    decreases |s|
  {
    CountsOfStep(s);
    var d := s[0];
    if d != c {
      var sd := RemoveAll(s, d);
      assert c in multiset(sd);
      CountsOfRemove(sd, c);
      CountsOfRemoveOther(s, c);
    }
  }

  /** The induction step of `CountsOfRemove` when the first card is not `c`. */
  lemma CountsOfRemoveOther(s: string, c: char)
    requires s != [] && s[0] != c
    requires multiset(CountsOf(RemoveAll(s, s[0]))) ==
      multiset(CountsOf(RemoveAll(RemoveAll(s, s[0]), c))) + multiset{multiset(RemoveAll(s, s[0]))[c]}
    ensures multiset(CountsOf(s)) == multiset(CountsOf(RemoveAll(s, c))) + multiset{multiset(s)[c]}
  {
    var d := s[0];
    var sd := RemoveAll(s, d);
    assert multiset(sd)[c] == multiset(s)[c];
    CountsOfOtherHead(s, c);
    CountsOfStep(s);
    ConsMultiset(multiset(s)[d], CountsOf(sd), CountsOf(RemoveAll(sd, c)), multiset(s)[c]);
  }

  /** Putting the same card count in front of both sides keeps the balance. */
  lemma ConsMultiset(x: nat, a: seq<nat>, b: seq<nat>, y: nat)
    requires multiset(a) == multiset(b) + multiset{y}
    ensures multiset([x] + a) == multiset([x] + b) + multiset{y}
  {
  }

  lemma CountsOfOtherHead(s: string, c: char)
    requires s != [] && s[0] != c
    ensures CountsOf(RemoveAll(s, c)) == [multiset(s)[s[0]]] + CountsOf(RemoveAll(RemoveAll(s, s[0]), c))
  {
    var sc := RemoveAll(s, c);
    assert sc != [] && sc[0] == s[0];
    assert multiset(sc)[s[0]] == multiset(s)[s[0]];
    CountsOfStep(sc);
    RemoveAllCommute(s, c, s[0]);
  }

  /** The multiset of multiplicities depends only on the multiset of cards. */
  lemma {:induction false} CountsOfPermutation(s: string, t: string)
    requires multiset(s) == multiset(t)
    ensures multiset(CountsOf(s)) == multiset(CountsOf(t))
    decreases |s|
  {
    if s != [] {
      var c := s[0];
      assert c in multiset(t);
      CountsOfStep(s);
      CountsOfRemove(t, c);
      CountsOfPermutation(RemoveAll(s, c), RemoveAll(t, c));
    }
  }

  // ---------------------------------------------------------------------------
  // Python's `sorted` on the list of counts

  predicate Ascending(s: seq<nat>)
  {
    forall i, j :: 0 <= i < j < |s| ==> s[i] <= s[j]
  }

  function InsertNat(s: seq<nat>, x: nat): (r: seq<nat>)
    requires Ascending(s)
    ensures Ascending(r)
    ensures multiset(r) == multiset(s) + multiset{x}
    ensures Sum(r) == Sum(s) + x
  {
    if s == [] then
      assert [x][..0] == [];
      [x]
    else if x <= s[0] then
      SumCons(x, s);
      [x] + s
    else
      var r' := InsertNat(s[1..], x);
      InsertNatHead(s, x, r');
      assert s == [s[0]] + s[1..];
      SumCons(s[0], s[1..]);
      SumCons(s[0], r');
      [s[0]] + r'
  }

  lemma SumCons(x: int, s: seq<int>)
    ensures Sum([x] + s) == x + Sum(s)
  {
    SumAppend([x], s);
    assert [x][..0] == [];
  }

  lemma InsertNatHead(s: seq<nat>, x: nat, r': seq<nat>)
    requires s != [] && Ascending(s) && s[0] < x
    requires Ascending(r') && multiset(r') == multiset(s[1..]) + multiset{x}
    ensures Ascending([s[0]] + r')
    ensures multiset([s[0]] + r') == multiset(s) + multiset{x}
  {
    assert s == [s[0]] + s[1..];
    forall j | 0 <= j < |r'|
      ensures s[0] <= r'[j]
    {
      assert r'[j] in multiset(r');
      if r'[j] != x {
        assert r'[j] in multiset(s[1..]);
        var k :| 0 <= k < |s[1..]| && s[1..][k] == r'[j];
        assert s[k + 1] == r'[j];
      }
    }
  }

  function SortNat(s: seq<nat>): (r: seq<nat>)
    ensures Ascending(r)
    ensures multiset(r) == multiset(s)
    ensures Sum(r) == Sum(s)
  {
    if s == [] then []
    else
      assert s == s[..|s| - 1] + [s[|s| - 1]];
      InsertNat(SortNat(s[..|s| - 1]), s[|s| - 1])
  }

  /** Two ascending sequences with the same elements are the same sequence, so
      `sorted` is determined by the multiset it is given. */
  lemma {:induction false} AscendingUnique(a: seq<nat>, b: seq<nat>)
    requires Ascending(a) && Ascending(b) && multiset(a) == multiset(b)
    ensures a == b
    decreases |a|
  {
    if a != [] {
      assert |b| == |multiset(b)| == |a|;
      assert a[0] in multiset(b) && b[0] in multiset(a);
      AscendingHead(a, b[0]);
      AscendingHead(b, a[0]);
      var a', b' := a[1..], b[1..];
      assert multiset(a') == multiset(b') by {
        TailMultiset(a);
        TailMultiset(b);
      }
      AscendingUnique(a', b');
      assert a[0] == b[0];
      assert forall i :: 1 <= i < |a| ==> a[i] == a'[i - 1] == b'[i - 1] == b[i];
    }
  }

  /** The head of an ascending sequence is its least element, and what follows
      stays ascending. */
  lemma AscendingHead(a: seq<nat>, y: nat)
    requires a != [] && Ascending(a) && y in a
    ensures a[0] <= y
    ensures Ascending(a[1..])
  {
  }

  predicate Positive(s: seq<nat>)
  {
    forall i :: 0 <= i < |s| ==> s[i] >= 1
  }

  /** `sorted(Counter(hand).values())`. */
  function SortedCounts(hand: string): (counts: seq<nat>)
    ensures Ascending(counts) && Sum(counts) == |hand| && Positive(counts)
  {
    var cs := CountsOf(hand);
    CountsOfSum(hand);
    var r := SortNat(cs);
    assert forall i :: 0 <= i < |r| ==> r[i] in multiset(cs);
    r
  }

  // ---------------------------------------------------------------------------
  // Partitions of small numbers

  // Python's list patterns `case [a, b, ...]`: a length and the elements.
  predicate Is1(c: seq<nat>, a: nat) { |c| == 1 && c[0] == a }
  predicate Is2(c: seq<nat>, a: nat, b: nat) { |c| == 2 && c[0] == a && c[1] == b }
  predicate Is3(c: seq<nat>, a: nat, b: nat, d: nat) { |c| == 3 && c[0] == a && c[1] == b && c[2] == d }
  predicate Is4(c: seq<nat>, a: nat, b: nat, d: nat, e: nat)
  {
    |c| == 4 && c[0] == a && c[1] == b && c[2] == d && c[3] == e
  }
  predicate IsOnes5(c: seq<nat>)
  {
    |c| == 5 && c[0] == 1 && c[1] == 1 && c[2] == 1 && c[3] == 1 && c[4] == 1
  }

  /** The ascending lists of positive integers with sum `k`, for `k <= 5`. */
  predicate IsPartition(c: seq<nat>, k: nat)
  {
    (k == 0 && c == []) ||
    (k == 1 && Is1(c, 1)) ||
    (k == 2 && (Is1(c, 2) || Is2(c, 1, 1))) ||
    (k == 3 && (Is1(c, 3) || Is2(c, 1, 2) || Is3(c, 1, 1, 1))) ||
    (k == 4 && (Is1(c, 4) || Is2(c, 1, 3) || Is2(c, 2, 2) || Is3(c, 1, 1, 2) || Is4(c, 1, 1, 1, 1))) ||
    (k == 5 && (Is1(c, 5) || Is2(c, 1, 4) || Is2(c, 2, 3) || Is3(c, 1, 1, 3) || Is3(c, 1, 2, 2) ||
                Is4(c, 1, 1, 1, 2) || IsOnes5(c)))
  }

  lemma {:induction false} PartitionsComplete(c: seq<nat>, k: nat)
    requires k <= 5
    requires Ascending(c) && Sum(c) == k
    requires Positive(c)
    ensures IsPartition(c, k)
    decreases |c|
  {
    if c != [] {
      var rest := c[1..];
      assert c == [c[0]] + rest;
      SumCons(c[0], rest);
      SumNonNegative(rest);
      PartitionsComplete(rest, k - c[0]);
      assert forall i :: 0 <= i < |rest| ==> c[0] <= rest[i];
      PartitionCons(c[0], rest, k);
    }
  }

  /** Putting a part no larger than the others in front of a partition of `k - x`. */
  lemma PartitionCons(x: nat, rest: seq<nat>, k: nat)
    requires 1 <= x <= k <= 5 && IsPartition(rest, k - x)
    requires forall i :: 0 <= i < |rest| ==> x <= rest[i]
    ensures IsPartition([x] + rest, k)
  {
    var c := [x] + rest;
    assert c[0] == x;
    assert forall i :: 0 <= i < |rest| ==> c[i + 1] == rest[i];
    if rest != [] {
      assert x <= rest[0];
    }
  }

  // ---------------------------------------------------------------------------
  // `HandType.from_hand`

  /** The `match counts` of `from_hand`. */
  function TypeOfCounts(counts: seq<nat>): Result<HandType>
  {
    if Is1(counts, 5) then Ok(Five)
    else if Is2(counts, 1, 4) then Ok(Four)
    else if Is2(counts, 2, 3) then Ok(FullHouse)
    else if Is3(counts, 1, 1, 3) then Ok(Three)
    else if Is3(counts, 1, 2, 2) then Ok(TwoPair)
    else if Is4(counts, 1, 1, 1, 2) then Ok(OnePair)
    else if IsOnes5(counts) then Ok(HighCard)
    else Err(ValueError)
  }

  /** The seven patterns are exactly the partitions of five. */
  lemma TypeOfCountsPartitions(counts: seq<nat>)
    ensures TypeOfCounts(counts).Ok? <==> IsPartition(counts, 5)
  {
  }

  /** `HandType.from_hand`: the assertion on the hand length fails for any other
      length; every five-card hand gets a type, since the seven patterns are all
      the partitions of five. */
  function FromHand(hand: string): (r: Result<HandType>)
    ensures r.Ok? <==> |hand| == 5
    ensures r.Err? ==> r.fault == AssertionError
  {
    if |hand| != 5 then Err(AssertionError)
    else
      PartitionsComplete(SortedCounts(hand), 5);
      TypeOfCountsPartitions(SortedCounts(hand));
      TypeOfCounts(SortedCounts(hand))
  }

  /** The type of a hand depends only on which cards it holds, not on their order. */
  lemma FromHandPermutation(h1: string, h2: string)
    requires multiset(h1) == multiset(h2)
    ensures FromHand(h1) == FromHand(h2)
  {
    assert |h1| == |multiset(h1)| == |h2|;
    CountsOfPermutation(h1, h2);
    AscendingUnique(SortedCounts(h1), SortedCounts(h2));
  }

  /** Five copies of one card are FIVE; five different cards are HIGH_CARD. */
  lemma FromHandExtremes(hand: string)
    requires |hand| == 5
    ensures |CountsOf(hand)| == 1 ==> FromHand(hand) == Ok(Five)
    ensures |CountsOf(hand)| == 5 ==> FromHand(hand) == Ok(HighCard)
  {
    var cs := CountsOf(hand);
    var sc := SortedCounts(hand);
    assert |sc| == |multiset(sc)| == |multiset(cs)| == |cs|;
    PartitionsComplete(sc, 5);
  }

  // ---------------------------------------------------------------------------
  // `HandType.from_hand_with_jokers`

  /** The joker rules once the jokers are popped from the counter: `nJokers`
      jokers, `distinct` other cards and their sorted counts. */
  function JokerType(nJokers: nat, distinct: nat, counts: seq<nat>): (r: Result<HandType>)
  {
    if distinct <= 1 then Ok(Five)
    else if nJokers == 3 then Ok(Four)
    else if nJokers == 2 then
      if Is3(counts, 1, 1, 1) then Ok(Three)
      else if Is2(counts, 1, 2) then Ok(Four)
      else Err(ValueError)
    else if nJokers != 1 then Err(AssertionError)
    else if Is2(counts, 1, 3) then Ok(Four)
    else if Is2(counts, 2, 2) then Ok(FullHouse)
    else if Is3(counts, 1, 1, 2) then Ok(Three)
    else if Is4(counts, 1, 1, 1, 1) then Ok(OnePair)
    else Err(ValueError)
  }

  function FromHandWithJokers(hand: string): (r: Result<HandType>)
  {
    if |hand| != 5 then Err(AssertionError)
    else if 'J' !in hand then FromHand(hand)
    else
      var others := RemoveAll(hand, 'J');
      JokerType(multiset(hand)['J'], |CountsOf(others)|, SortedCounts(others))
  }

  /** Without a joker the two classifications agree. */
  lemma JokersAbsent(hand: string)
    requires 'J' !in hand
    ensures FromHandWithJokers(hand) == FromHand(hand)
  {
  }

  /** One distinct non-joker card, which includes four or five jokers, gives FIVE. */
  lemma JokersOneKind(hand: string)
    requires |hand| == 5 && 'J' in hand
    requires |CountsOf(RemoveAll(hand, 'J'))| <= 1
    ensures FromHandWithJokers(hand) == Ok(Five)
  {
  }

  /** With jokers every five-card hand is classified (neither `ValueError` nor the
      assertion on the joker count is reachable), and jokers never make a hand
      weaker than `from_hand` rates it. */
  lemma JokersNeverWorse(hand: string)
    requires |hand| == 5
    ensures FromHandWithJokers(hand).Ok?
    ensures TypeValue(FromHandWithJokers(hand).value) >= TypeValue(FromHand(hand).value)
  {
    if 'J' in hand && |CountsOf(RemoveAll(hand, 'J'))| > 1 {
      JokersSeveralKinds(hand);
    }
  }

  lemma JokersSeveralKinds(hand: string)
    requires |hand| == 5 && 'J' in hand && |CountsOf(RemoveAll(hand, 'J'))| > 1
    ensures var others := RemoveAll(hand, 'J');
      var j := JokerType(multiset(hand)['J'], |CountsOf(others)|, SortedCounts(others));
      j.Ok? && TypeOfCounts(SortedCounts(hand)).Ok? &&
      TypeValue(j.value) >= TypeValue(TypeOfCounts(SortedCounts(hand)).value)
  {
    var others := RemoveAll(hand, 'J');
    var nJ := multiset(hand)['J'];
    var cs := CountsOf(others);
    var c := SortedCounts(others);
    var f := SortedCounts(hand);
    assert |c| == |cs| by {
      assert |c| == |multiset(c)| == |multiset(cs)| == |cs|;
    }
    assert multiset(f) == multiset(c) + multiset{nJ} by {
      CountsOfRemove(hand, 'J');
    }
    assert nJ >= 1 && |others| == 5 - nJ;
    JokerCounts(nJ, c, f);
  }

  /** `JokersNeverWorse` on the counts alone. */
  lemma JokerCounts(nJ: nat, c: seq<nat>, f: seq<nat>)
    requires 1 <= nJ && |c| > 1
    requires Ascending(c) && Sum(c) == 5 - nJ && Positive(c)
    requires Ascending(f) && Sum(f) == 5 && Positive(f)
    requires multiset(f) == multiset(c) + multiset{nJ}
    ensures JokerType(nJ, |c|, c).Ok? && TypeOfCounts(f).Ok?
    ensures TypeValue(JokerType(nJ, |c|, c).value) >= TypeValue(TypeOfCounts(f).value)
  {
    LastOfInsert(c, nJ, f);
    SumNonNegative(c);
    PartitionsComplete(c, 5 - nJ);
    PartitionsComplete(f, 5);
    JokerCases(nJ, c, f);
  }

  /** The largest count of the whole hand is the larger of the joker count and the
      largest count of the other cards. */
  lemma LastOfInsert(c: seq<nat>, x: nat, f: seq<nat>)
    requires c != [] && Ascending(c) && Ascending(f)
    requires multiset(f) == multiset(c) + multiset{x}
    ensures |f| == |c| + 1
    ensures f[|f| - 1] == if x < c[|c| - 1] then c[|c| - 1] else x
  {
    assert |f| == |multiset(f)| == |c| + 1;
    var top := f[|f| - 1];
    assert top in multiset(f);
    assert x in multiset(f) && c[|c| - 1] in multiset(f);
    assert top == x || top in c;
  }

  /** The joker rules case by case: `c` are the sorted counts of the other cards
      and `f` those of the whole hand. */
  lemma JokerCases(nJ: nat, c: seq<nat>, f: seq<nat>)
    requires 1 <= nJ <= 5 && IsPartition(c, 5 - nJ) && |c| > 1
    requires IsPartition(f, 5) && |f| == |c| + 1
    requires f[|f| - 1] == if nJ < c[|c| - 1] then c[|c| - 1] else nJ
    ensures JokerType(nJ, |c|, c).Ok? && TypeOfCounts(f).Ok?
    ensures TypeValue(JokerType(nJ, |c|, c).value) >= TypeValue(TypeOfCounts(f).value)
  {
  }

  // ---------------------------------------------------------------------------
  // Card values and sorting keys

  const CardOrder: string := "23456789TJQKA"

  /** `str.index`: the first position of `c` in `s`. */
  function IndexOf(s: string, c: char): (i: nat)
    requires c in s
    ensures i < |s| && s[i] == c
    ensures forall j :: 0 <= j < i ==> s[j] != c
  {
    if s[0] == c then 0 else 1 + IndexOf(s[1..], c)
  }

  /** `card_value`: one plus the position in `CardOrder`, `ValueError` for any
      other character; with jokers, 'J' gets the sentinel 0, which stands for
      the source's negative infinity (every other value is at least 1). */
  function CardValue(card: char, jIsJoker: bool): (r: Result<int>)
    ensures r.Ok? <==> card in CardOrder
    ensures r.Err? ==> r.fault == ValueError
    ensures r.Ok? && jIsJoker && card == 'J' ==> r.value == 0
    ensures r.Ok? && !(jIsJoker && card == 'J') ==> 1 <= r.value <= 13 && CardOrder[r.value - 1] == card
  {
    if jIsJoker && card == 'J' then Ok(0)
    else if card in CardOrder then Ok(1 + IndexOf(CardOrder, card))
    else Err(ValueError)
  }

  /** The thirteen cards are distinct, so their values follow their order. */
  lemma CardValueIncreasing(i: int, k: int, jIsJoker: bool)
    requires 0 <= i < k < |CardOrder|
    requires !jIsJoker || (CardOrder[i] != 'J' && CardOrder[k] != 'J')
    ensures CardValue(CardOrder[i], jIsJoker).Ok? && CardValue(CardOrder[k], jIsJoker).Ok?
    ensures CardValue(CardOrder[i], jIsJoker).value < CardValue(CardOrder[k], jIsJoker).value
  {
    assert forall a, b :: 0 <= a < b < |CardOrder| ==> CardOrder[a] != CardOrder[b];
  }

  /** With jokers, 'J' ranks below every other card. */
  lemma JokerLowest(card: char)
    requires card in CardOrder && card != 'J'
    ensures CardValue('J', true).Ok? && CardValue(card, true).Ok?
    ensures CardValue('J', true).value < CardValue(card, true).value
  {
  }

  predicate ValidCards(hand: string)
  {
    forall j :: 0 <= j < |hand| ==> hand[j] in CardOrder
  }

  /** `hand_sorting_key`: the card values in hand order. */
  function HandKey(hand: string, jIsJoker: bool): (r: Result<seq<int>>)
    ensures r.Ok? <==> ValidCards(hand)
    ensures r.Err? ==> r.fault == ValueError
    ensures r.Ok? ==> |r.value| == |hand|
    ensures r.Ok? ==> forall j {:trigger r.value[j]} :: 0 <= j < |hand| ==> CardValue(hand[j], jIsJoker) == Ok(r.value[j])
  {
    if hand == [] then Ok([])
    else
      match CardValue(hand[0], jIsJoker)
      case Err(e) => Err(e)
      case Ok(v) =>
        match HandKey(hand[1..], jIsJoker)
        case Err(e) => Err(e)
        case Ok(vs) =>
          assert ValidCards(hand) by {
            assert forall j :: 1 <= j < |hand| ==> hand[j] == hand[1..][j - 1];
          }
          MapCons(hand, c => CardValue(c, jIsJoker), v, vs);
          Ok([v] + vs)
  }

  /** A map over the characters after the first, behind the image of the first. */
  lemma MapCons(s: string, f: char -> Result<int>, x: int, ys: seq<int>)
    requires s != [] && f(s[0]) == Ok(x) && |ys| == |s| - 1
    requires forall j :: 0 <= j < |ys| ==> f(s[1..][j]) == Ok(ys[j])
    ensures forall j :: 0 <= j < |s| ==> f(s[j]) == Ok(([x] + ys)[j])
  {
    forall j | 0 <= j < |s|
      ensures f(s[j]) == Ok(([x] + ys)[j])
    {
      if j > 0 {
        assert s[j] == s[1..][j - 1];
      }
    }
  }

  // ---------------------------------------------------------------------------
  // Python's ordering of lists, strings and tuples

  /** Lexicographic order on integer lists, as Python compares lists: a proper
      prefix comes first. */
  predicate LexLe(a: seq<int>, b: seq<int>)
  {
    if a == [] then true
    else if b == [] then false
    else if a[0] != b[0] then a[0] < b[0]
    else LexLe(a[1..], b[1..])
  }

  lemma {:induction false} LexTotal(a: seq<int>, b: seq<int>)
    ensures LexLe(a, b) || LexLe(b, a)
  {
    if a != [] && b != [] && a[0] == b[0] {
      LexTotal(a[1..], b[1..]);
    }
  }

  lemma {:induction false} LexReflexive(a: seq<int>)
    ensures LexLe(a, a)
  {
    if a != [] {
      LexReflexive(a[1..]);
    }
  }

  lemma {:induction false} LexAntisymmetric(a: seq<int>, b: seq<int>)
    requires LexLe(a, b) && LexLe(b, a)
    ensures a == b
  {
    if a != [] && b != [] {
      LexAntisymmetric(a[1..], b[1..]);
      assert a == [a[0]] + a[1..] && b == [b[0]] + b[1..];
    }
  }

  lemma {:induction false} LexTransitive(a: seq<int>, b: seq<int>, c: seq<int>)
    requires LexLe(a, b) && LexLe(b, c)
    ensures LexLe(a, c)
  {
    if a != [] && b != [] && c != [] && a[0] == b[0] == c[0] {
      LexTransitive(a[1..], b[1..], c[1..]);
    }
  }

  /** For lists of one length, `a` comes strictly before `b` exactly when they
      agree up to some position where `a` holds the smaller value. */
  lemma {:induction false} LexFirstDifference(a: seq<int>, b: seq<int>)
    requires |a| == |b|
    ensures (LexLe(a, b) && a != b) <==> exists i :: 0 <= i < |a| && a[..i] == b[..i] && a[i] < b[i]
  {
    if a != [] {
      if a[0] == b[0] {
        LexFirstDifference(a[1..], b[1..]);
        if LexLe(a, b) && a != b {
          assert a[1..] != b[1..];
          var i :| 0 <= i < |a| - 1 && a[1..][..i] == b[1..][..i] && a[1..][i] < b[1..][i];
          assert a[..i + 1] == [a[0]] + a[1..][..i];
          assert b[..i + 1] == [b[0]] + b[1..][..i];
        }
        if exists i :: 0 <= i < |a| && a[..i] == b[..i] && a[i] < b[i] {
          var i :| 0 <= i < |a| && a[..i] == b[..i] && a[i] < b[i];
          assert i > 0;
          assert a[1..][..i - 1] == a[..i][1..] == b[..i][1..] == b[1..][..i - 1];
          assert a[1..][i - 1] < b[1..][i - 1];
        }
      } else {
        assert a[..0] == b[..0];
        forall i | 0 < i < |a| ensures a[..i] != b[..i] {
          assert a[..i][0] != b[..i][0];
        }
      }
    }
  }

  /** Character codes: Python compares strings by code point. */
  function Codes(s: string): (cs: seq<int>)
    ensures |cs| == |s| && forall i :: 0 <= i < |s| ==> cs[i] == s[i] as int
  {
    if s == [] then [] else [s[0] as int] + Codes(s[1..])
  }

  lemma CodesInjective(s: string, t: string)
    requires Codes(s) == Codes(t)
    ensures s == t
  {
    assert forall i :: 0 <= i < |s| ==> s[i] as int == t[i] as int;
  }

  /** One row of `hands_with_keys`: the key, the hand and the bet. */
  datatype Entry = Entry(key: seq<int>, hand: string, bet: int)

  /** Python's `<=` on `(key, hand, bet)` tuples. */
  predicate EntryLe(x: Entry, y: Entry)
  {
    if x.key != y.key then LexLe(x.key, y.key)
    else if x.hand != y.hand then LexLe(Codes(x.hand), Codes(y.hand))
    else x.bet <= y.bet
  }

  lemma EntryTotal(x: Entry, y: Entry)
    ensures EntryLe(x, y) || EntryLe(y, x)
  {
    LexTotal(x.key, y.key);
    LexTotal(Codes(x.hand), Codes(y.hand));
  }

  lemma EntryAntisymmetric(x: Entry, y: Entry)
    requires EntryLe(x, y) && EntryLe(y, x)
    ensures x == y
  {
    if x.key != y.key {
      LexAntisymmetric(x.key, y.key);
    } else if x.hand != y.hand {
      LexAntisymmetric(Codes(x.hand), Codes(y.hand));
      CodesInjective(x.hand, y.hand);
    }
  }

  lemma EntryTransitive(x: Entry, y: Entry, z: Entry)
    requires EntryLe(x, y) && EntryLe(y, z)
    ensures EntryLe(x, z)
  {
    if x.key != y.key || y.key != z.key {
      LexReflexive(x.key);
      LexReflexive(y.key);
      LexTransitive(x.key, y.key, z.key);
      if x.key == z.key {
        LexAntisymmetric(x.key, y.key);
      }
    } else if x.hand != y.hand || y.hand != z.hand {
      LexReflexive(Codes(x.hand));
      LexReflexive(Codes(y.hand));
      LexTransitive(Codes(x.hand), Codes(y.hand), Codes(z.hand));
      if x.hand == z.hand {
        LexAntisymmetric(Codes(x.hand), Codes(y.hand));
        CodesInjective(x.hand, y.hand);
      }
    }
  }

  predicate SortedEntries(s: seq<Entry>)
  {
    forall i, j :: 0 <= i < j < |s| ==> EntryLe(s[i], s[j])
  }

  function InsertEntry(s: seq<Entry>, x: Entry): (r: seq<Entry>)
    requires SortedEntries(s)
    ensures SortedEntries(r)
    ensures multiset(r) == multiset(s) + multiset{x}
  {
    if s == [] then [x]
    else if EntryLe(x, s[0]) then
      InsertEntryFront(s, x);
      [x] + s
    else
      var r' := InsertEntry(s[1..], x);
      InsertEntryAfter(s, x, r');
      [s[0]] + r'
  }

  lemma InsertEntryFront(s: seq<Entry>, x: Entry)
    requires s != [] && SortedEntries(s) && EntryLe(x, s[0])
    ensures SortedEntries([x] + s)
    ensures multiset([x] + s) == multiset(s) + multiset{x}
  {
    forall j | 0 <= j < |s| ensures EntryLe(x, s[j]) {
      if j > 0 {
        EntryTransitive(x, s[0], s[j]);
      }
    }
    assert forall j :: 0 < j <= |s| ==> ([x] + s)[j] == s[j - 1];
  }

  lemma InsertEntryAfter(s: seq<Entry>, x: Entry, r': seq<Entry>)
    requires s != [] && SortedEntries(s) && !EntryLe(x, s[0])
    requires SortedEntries(r') && multiset(r') == multiset(s[1..]) + multiset{x}
    ensures SortedEntries([s[0]] + r')
    ensures multiset([s[0]] + r') == multiset(s) + multiset{x}
  {
    assert s == [s[0]] + s[1..];
    EntryTotal(x, s[0]);
    forall j | 0 <= j < |r'|
      ensures EntryLe(s[0], r'[j])
    {
      assert r'[j] in multiset(r');
      if r'[j] != x {
        assert r'[j] in multiset(s[1..]);
        var k :| 0 <= k < |s[1..]| && s[1..][k] == r'[j];
        assert s[k + 1] == r'[j];
      }
    }
    assert forall j :: 0 < j <= |r'| ==> ([s[0]] + r')[j] == r'[j - 1];
  }

  /** Python's `sorted` on a bucket of rows. */
  function SortEntries(s: seq<Entry>): (r: seq<Entry>)
    ensures SortedEntries(r)
    ensures multiset(r) == multiset(s)
  {
    if s == [] then []
    else
      assert s == s[..|s| - 1] + [s[|s| - 1]];
      InsertEntry(SortEntries(s[..|s| - 1]), s[|s| - 1])
  }

  // ---------------------------------------------------------------------------
  // `solve`

  /** `get_hand_type`: the classifier `solve` picks. */
  function Classifier(jIsJoker: bool): string -> Result<HandType>
  {
    if jIsJoker then FromHandWithJokers else FromHand
  }

  /** Both classifiers accept exactly the five-card hands. */
  lemma ClassifierOk(jIsJoker: bool, hand: string)
    ensures Classifier(jIsJoker)(hand).Ok? <==> |hand| == 5
  {
    if jIsJoker && |hand| == 5 {
      JokersNeverWorse(hand);
    }
  }

  /** The hand-type value used for ranking (0 is never met by a five-card hand). */
  function Strength(cls: string -> Result<HandType>, hand: string): (v: nat)
    ensures v <= 7
  {
    match cls(hand)
    case Ok(t) => TypeValue(t)
    case Err(_) => 0
  }

  /** The order of `overall_sorting`: first by hand-type value, then by the tuple. */
  predicate RankLe(x: Entry, y: Entry, cls: string -> Result<HandType>)
  {
    var sx, sy := Strength(cls, x.hand), Strength(cls, y.hand);
    sx < sy || (sx == sy && EntryLe(x, y))
  }

  predicate Ranked(s: seq<Entry>, cls: string -> Result<HandType>)
  {
    forall i, k :: 0 <= i < k < |s| ==> RankLe(s[i], s[k], cls)
  }

  /** The sum of rank times bet, ranks counted from 1. */
  function Winnings(s: seq<Entry>): int
  {
    if s == [] then 0 else Winnings(s[..|s| - 1]) + |s| * s[|s| - 1].bet
  }

  predicate AllValid(input: seq<(string, int)>)
  {
    forall i :: 0 <= i < |input| ==> ValidCards(input[i].0)
  }

  /** `hands_with_keys`. */
  function Entries(input: seq<(string, int)>, jIsJoker: bool): (es: seq<Entry>)
    requires AllValid(input)
    ensures |es| == |input|
  {
    if input == [] then []
    else
      var n := |input| - 1;
      Entries(input[..n], jIsJoker) + [Entry(HandKey(input[n].0, jIsJoker).value, input[n].0, input[n].1)]
  }

  /** Row `i` holds the key, the hand and the bet of line `i`. */
  lemma {:induction false} EntriesAt(input: seq<(string, int)>, jIsJoker: bool, i: nat)
    requires AllValid(input) && i < |input|
    ensures Entries(input, jIsJoker)[i] == Entry(HandKey(input[i].0, jIsJoker).value, input[i].0, input[i].1)
    decreases |input|
  {
    var n := |input| - 1;
    if i < n {
      var init := input[..n];
      assert init[i] == input[i];
      assert AllValid(init) by {
        assert forall j :: 0 <= j < n ==> init[j] == input[j];
      }
      EntriesAt(init, jIsJoker, i);
    }
  }

  /** The bucket of hand type `t`. */
  function Group(s: seq<Entry>, t: HandType, cls: string -> Result<HandType>): (g: seq<Entry>)
    ensures forall i :: 0 <= i < |g| ==> cls(g[i].hand) == Ok(t)
  {
    if s == [] then []
    else
      var n := |s| - 1;
      Group(s[..n], t, cls) + (if cls(s[n].hand) == Ok(t) then [s[n]] else [])
  }

  /** The rows whose hand-type value is at most `v`. */
  function UpTo(s: seq<Entry>, v: int, cls: string -> Result<HandType>): seq<Entry>
  {
    if s == [] then []
    else
      var n := |s| - 1;
      UpTo(s[..n], v, cls) + (if Strength(cls, s[n].hand) <= v then [s[n]] else [])
  }

  /** A `defaultdict(list)` lookup. */
  function Bucket(groups: map<HandType, seq<Entry>>, t: HandType): seq<Entry>
  {
    if t in groups then groups[t] else []
  }

  lemma {:induction false} UpToStep(s: seq<Entry>, k: nat, cls: string -> Result<HandType>)
    requires k < 7
    requires forall i :: 0 <= i < |s| ==> cls(s[i].hand).Ok?
    ensures multiset(UpTo(s, k + 1, cls)) == multiset(UpTo(s, k, cls)) + multiset(Group(s, TypeAt(k), cls))
  {
    if s != [] {
      var n := |s| - 1;
      var s', e := s[..n], s[n];
      assert forall i :: 0 <= i < |s'| ==> s'[i] == s[i];
      UpToStep(s', k, cls);
      var v := Strength(cls, e.hand);
      var inG := cls(e.hand) == Ok(TypeAt(k));
      assert v == k + 1 <==> inG by {
        TypeAtUnique(cls(e.hand).value, k);
      }
      var a := if v <= k + 1 then [e] else [];
      var b := if v <= k then [e] else [];
      var g := if inG then [e] else [];
      assert UpTo(s, k + 1, cls) == UpTo(s', k + 1, cls) + a;
      assert UpTo(s, k, cls) == UpTo(s', k, cls) + b;
      assert Group(s, TypeAt(k), cls) == Group(s', TypeAt(k), cls) + g;
      SplitOne(e, v, k, inG);
      MultisetSnoc(UpTo(s', k + 1, cls), UpTo(s', k, cls), Group(s', TypeAt(k), cls), a, b, g);
    }
  }

  /** A row of value `v` is in the rows up to `k + 1` exactly when it is in the rows
      up to `k` or in the bucket of value `k + 1`. */
  lemma SplitOne(e: Entry, v: int, k: int, inG: bool)
    requires v == k + 1 <==> inG
    ensures multiset(if v <= k + 1 then [e] else []) ==
            multiset(if v <= k then [e] else []) + multiset(if inG then [e] else [])
  {
  }

  /** Multiset union distributes over appending. */
  lemma MultisetSnoc(x: seq<Entry>, y: seq<Entry>, z: seq<Entry>, a: seq<Entry>, b: seq<Entry>, c: seq<Entry>)
    requires multiset(x) == multiset(y) + multiset(z) && multiset(a) == multiset(b) + multiset(c)
    ensures multiset(x + a) == multiset(y + b) + multiset(z + c)
  {
  }

  lemma {:induction false} UpToAll(s: seq<Entry>, cls: string -> Result<HandType>)
    ensures UpTo(s, 7, cls) == s
  {
    if s != [] {
      UpToAll(s[..|s| - 1], cls);
    }
  }

  lemma {:induction false} UpToNone(s: seq<Entry>, cls: string -> Result<HandType>)
    requires forall i :: 0 <= i < |s| ==> cls(s[i].hand).Ok?
    ensures UpTo(s, 0, cls) == []
  {
    if s != [] {
      UpToNone(s[..|s| - 1], cls);
    }
  }

  /** Appending a sorted bucket of stronger hands keeps the ranking. */
  lemma RankedAppend(a: seq<Entry>, b: seq<Entry>, v: nat, cls: string -> Result<HandType>)
    requires Ranked(a, cls) && SortedEntries(b)
    requires forall i :: 0 <= i < |a| ==> Strength(cls, a[i].hand) < v
    requires forall i :: 0 <= i < |b| ==> Strength(cls, b[i].hand) == v
    ensures Ranked(a + b, cls)
  {
    var c := a + b;
    forall i, k | 0 <= i < k < |c| ensures RankLe(c[i], c[k], cls) {
      if k < |a| {
        assert c[i] == a[i] && c[k] == a[k];
      } else if i >= |a| {
        assert c[i] == b[i - |a|] && c[k] == b[k - |a|];
      } else {
        assert c[i] == a[i] && c[k] == b[k - |a|];
      }
    }
  }

  /** The answer is determined by the multiset of rows: two rankings of the same
      rows are the same sequence. */
  lemma {:induction false} RankedUnique(a: seq<Entry>, b: seq<Entry>, cls: string -> Result<HandType>)
    requires Ranked(a, cls) && Ranked(b, cls) && multiset(a) == multiset(b)
    ensures a == b
    decreases |a|
  {
    if a != [] {
      assert |b| == |multiset(b)| == |a|;
      assert a[0] in multiset(b) && b[0] in multiset(a);
      var i :| 0 <= i < |b| && b[i] == a[0];
      var j :| 0 <= j < |a| && a[j] == b[0];
      RankHead(a, j, cls);
      RankHead(b, i, cls);
      EntryAntisymmetric(a[0], b[0]);
      var a', b' := a[1..], b[1..];
      assert multiset(a') == multiset(b') by {
        TailMultiset(a);
        TailMultiset(b);
      }
      RankedUnique(a', b', cls);
      assert forall x :: 1 <= x < |a| ==> a[x] == a'[x - 1] == b'[x - 1] == b[x];
    }
  }

  /** The first row of a ranking is ranked no higher than any row, and the
      remaining rows are ranked. */
  lemma RankHead(a: seq<Entry>, j: int, cls: string -> Result<HandType>)
    requires Ranked(a, cls) && 0 <= j < |a|
    ensures RankLe(a[0], a[j], cls)
    ensures Ranked(a[1..], cls)
  {
    if j == 0 {
      EntryTotal(a[0], a[0]);
    }
  }

  /** The `hands_with_keys` comprehension; `ValueError` from the first bad card. */
  method KeyRows(input: seq<(string, int)>, jIsJoker: bool) returns (r: Result<seq<Entry>>)
    ensures r.Ok? <==> AllValid(input)
    ensures r.Err? ==> r.fault == ValueError
    ensures r.Ok? ==> r.value == Entries(input, jIsJoker)
  {
    var entries: seq<Entry> := [];
    for i := 0 to |input|
      invariant AllValid(input[..i]) && entries == Entries(input[..i], jIsJoker)
    {
      var next := KeyRow(input, i, jIsJoker, entries);
      if next.Err? {
        return Err(ValueError);
      }
      entries := next.value;
    }
    assert input[..|input|] == input;
    return Ok(entries);
  }

  /** One row of the comprehension: the key of line `i`, or its `ValueError`. */
  method KeyRow(input: seq<(string, int)>, i: nat, jIsJoker: bool, entries: seq<Entry>) returns (r: Result<seq<Entry>>)
    requires i < |input| && AllValid(input[..i]) && entries == Entries(input[..i], jIsJoker)
    ensures r.Err? ==> !AllValid(input)
    ensures r.Ok? ==> AllValid(input[..i + 1]) && r.value == Entries(input[..i + 1], jIsJoker)
  {
    var key := HandKey(input[i].0, jIsJoker);
    if key.Err? {
      assert !ValidCards(input[i].0);
      return Err(ValueError);
    }
    EntriesSnoc(input, i, jIsJoker);
    return Ok(entries + [Entry(key.value, input[i].0, input[i].1)]);
  }

  /** One more row of `hands_with_keys`. */
  lemma EntriesSnoc(input: seq<(string, int)>, i: nat, jIsJoker: bool)
    requires i < |input| && AllValid(input[..i]) && ValidCards(input[i].0)
    ensures AllValid(input[..i + 1])
    ensures Entries(input[..i + 1], jIsJoker) ==
            Entries(input[..i], jIsJoker) + [Entry(HandKey(input[i].0, jIsJoker).value, input[i].0, input[i].1)]
  {
    assert input[..i + 1][..i] == input[..i];
  }

  /** The bucketing loop over `hands_grouped_by_type`; the first classifier
      error propagates. */
  method GroupByType(entries: seq<Entry>, getHandType: string -> Result<HandType>)
    returns (r: Result<map<HandType, seq<Entry>>>)
    ensures r.Ok? <==> forall i :: 0 <= i < |entries| ==> getHandType(entries[i].hand).Ok?
    ensures r.Err? ==> exists i :: 0 <= i < |entries| && getHandType(entries[i].hand) == Err(r.fault)
    ensures r.Ok? ==> forall t :: Bucket(r.value, t) == Group(entries, t, getHandType)
  {
    var groups: map<HandType, seq<Entry>> := map[];
    for i := 0 to |entries|
      invariant forall t :: Bucket(groups, t) == Group(entries[..i], t, getHandType)
      invariant forall k :: 0 <= k < i ==> getHandType(entries[k].hand).Ok?
    {
      var handType := getHandType(entries[i].hand);
      if handType.Err? {
        return Err(handType.fault);
      }
      assert entries[..i + 1][..i] == entries[..i];
      var t := handType.value;
      groups := groups[t := Bucket(groups, t) + [entries[i]]];
    }
    assert entries[..|entries|] == entries;
    return Ok(groups);
  }

  /** The invariant of `overall_sorting` after the first `k` hand types. */
  predicate ConcatenatedUpTo(overall: seq<Entry>, entries: seq<Entry>, k: nat, cls: string -> Result<HandType>)
  {
    && Ranked(overall, cls)
    && (forall i :: 0 <= i < |overall| ==> Strength(cls, overall[i].hand) <= k)
    && multiset(overall) == multiset(UpTo(entries, k, cls))
  }

  /** Every row of the sorted bucket of the `k`-th hand type has strength `k + 1`. */
  lemma BlockStrength(entries: seq<Entry>, k: nat, cls: string -> Result<HandType>, block: seq<Entry>)
    requires k < 7
    requires block == SortEntries(Group(entries, TypeAt(k), cls))
    ensures forall i :: 0 <= i < |block| ==> Strength(cls, block[i].hand) == k + 1
  {
    var group := Group(entries, TypeAt(k), cls);
    forall i | 0 <= i < |block| ensures Strength(cls, block[i].hand) == k + 1 {
      assert block[i] in multiset(group);
    }
  }

  lemma ConcatenateStep(overall: seq<Entry>, entries: seq<Entry>, k: nat, cls: string -> Result<HandType>, block: seq<Entry>)
    requires k < 7
    requires forall i :: 0 <= i < |entries| ==> cls(entries[i].hand).Ok?
    requires ConcatenatedUpTo(overall, entries, k, cls)
    requires block == SortEntries(Group(entries, TypeAt(k), cls))
    ensures ConcatenatedUpTo(overall + block, entries, k + 1, cls)
  {
    BlockStrength(entries, k, cls, block);
    RankedAppend(overall, block, k + 1, cls);
    UpToStep(entries, k, cls);
  }

  /** `overall_sorting`: each bucket sorted, the buckets concatenated in
      `HAND_TYPE_ORDER`. */
  method Concatenate(entries: seq<Entry>, groups: map<HandType, seq<Entry>>, getHandType: string -> Result<HandType>)
    returns (overall: seq<Entry>)
    requires forall i :: 0 <= i < |entries| ==> getHandType(entries[i].hand).Ok?
    requires forall t :: Bucket(groups, t) == Group(entries, t, getHandType)
    ensures Ranked(overall, getHandType)
    ensures multiset(overall) == multiset(entries)
  {
    overall := [];
    UpToNone(entries, getHandType);
    for k := 0 to 7
      invariant ConcatenatedUpTo(overall, entries, k, getHandType)
    {
      var block := SortEntries(Bucket(groups, TypeAt(k)));
      ConcatenateStep(overall, entries, k, getHandType, block);
      overall := overall + block;
    }
    UpToAll(entries, getHandType);
  }

  /** `total_winnings`: the sum of rank times bet, ranks from 1. */
  method TotalWinnings(overall: seq<Entry>) returns (total: int)
    ensures total == Winnings(overall)
  {
    total := 0;
    for i := 0 to |overall|
      invariant total == Winnings(overall[..i])
    {
      assert overall[..i + 1][..i] == overall[..i];
      total := total + (i + 1) * overall[i].bet;
    }
    assert overall[..|overall|] == overall;
  }

  /** `solve`: keys first (a card outside `CardOrder` raises `ValueError`), then
      the buckets by hand type (a hand not of five cards fails the assertion),
      then the buckets sorted and concatenated from the weakest type up, and
      finally the sum of rank times bet. */
  method Solve(input: seq<(string, int)>, jIsJoker: bool) returns (r: Result<int>)
    ensures r == Err(ValueError) <==> !AllValid(input)
    ensures r == Err(AssertionError) <==>
      AllValid(input) && exists i :: 0 <= i < |input| && |input[i].0| != 5
    ensures r.Err? ==> r.fault == ValueError || r.fault == AssertionError
    ensures r.Ok? ==> AllValid(input) && exists order ::
      Ranked(order, Classifier(jIsJoker)) && multiset(order) == multiset(Entries(input, jIsJoker)) &&
      r.value == Winnings(order)
  {
    var rows := KeyRows(input, jIsJoker);
    if rows.Err? {
      return Err(ValueError);
    }
    var entries := rows.value;
    var getHandType := Classifier(jIsJoker);
    forall i | 0 <= i < |entries|
      ensures getHandType(entries[i].hand).Ok? <==> |input[i].0| == 5
      ensures getHandType(entries[i].hand).Err? ==> getHandType(entries[i].hand).fault == AssertionError
    {
      EntriesAt(input, jIsJoker, i);
      ClassifierOk(jIsJoker, entries[i].hand);
    }
    var groups := GroupByType(entries, getHandType);
    if groups.Err? {
      return Err(groups.fault);
    }
    var overall := Concatenate(entries, groups.value, getHandType);
    var total := TotalWinnings(overall);
    return Ok(total);
  }
}
