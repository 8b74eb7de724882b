/** Day 4 in Kotlin.  `solve1` is the Python score as a `sumOf`; `solve2` counts copies
    of cards: every card starts with one copy, and a card with `count` matches adds its
    copies to each of the next `count` cards.  Writing past the last card throws. */
module Day04Kt {
  import opened Common
  import opened Day04

  /** `solve1`: the sum of the scores, folded from the first card. */
  function Solve1(cards: seq<Card>): (total: int)
    ensures total == Total(cards)
    decreases |cards|
  {
    if cards == [] then 0
    else
      SumFront(Scores(cards));
      ScoresTail(cards);
      Score(Matches(cards[0])) + Solve1(cards[1..])
  }

  /** The sum of a sequence splits off its first element. */
  lemma SumFront(s: seq<int>)
    requires s != []
    ensures Sum(s) == s[0] + Sum(s[1..])
  {
    assert s == [s[0]] + s[1..];
    SumAppend([s[0]], s[1..]);
    assert [s[0]][..0] == [];
  }

  lemma ScoresTail(cards: seq<Card>)
    requires cards != []
    ensures Scores(cards)[1..] == Scores(cards[1..])
  {
  }

  /** The matches of every card. */
  function Counts(cards: seq<Card>): (ms: seq<nat>)
    ensures |ms| == |cards| && forall i :: 0 <= i < |cards| ==> ms[i] == Matches(cards[i])
  {
    seq(|cards|, i requires 0 <= i < |cards| => Matches(cards[i]))
  }

  /** Card `i` adds its copies to cards `i + 1 .. i + count`. */
  function AddCopies(copies: seq<int>, i: nat, count: nat): (next: seq<int>)
    requires i + count < |copies|
    ensures |next| == |copies|
    ensures forall j :: 0 <= j < |copies| ==>
              next[j] == if i < j <= i + count then copies[j] + copies[i] else copies[j]
  {
    seq(|copies|, j requires 0 <= j < |copies| => if i < j <= i + count then copies[j] + copies[i] else copies[j])
  }

  /** The copy counts after the first `k` cards are processed, or the throw of the first
      card whose matches reach past the last card. */
  function CopiesAfter(ms: seq<nat>, k: nat): (res: Result<seq<int>>)
    requires k <= |ms|
    ensures res.Ok? ==> |res.value| == |ms|
    ensures res.Err? ==> res.fault == IndexError
  {
    if k == 0 then Ok(seq(|ms|, _ => 1))
    else
      match CopiesAfter(ms, k - 1)
      case Err(f) => Err(f)
      case Ok(copies) =>
        if k - 1 + ms[k - 1] >= |ms| then Err(IndexError) else Ok(AddCopies(copies, k - 1, ms[k - 1]))
  }

  /** The copies of `solve2`: the final counts, or its throw. */
  function Copies(cards: seq<Card>): Result<seq<int>>
  {
    CopiesAfter(Counts(cards), |cards|)
  }

  /** Processing fails exactly when some card's matches reach past the last card. */
  lemma {:induction false} CopiesAfterFails(ms: seq<nat>, k: nat)
    requires k <= |ms|
    ensures CopiesAfter(ms, k).Err? <==> exists i :: 0 <= i < k && i + ms[i] >= |ms|
  {
    if k > 0 {
      CopiesAfterFails(ms, k - 1);
      if k - 1 + ms[k - 1] >= |ms| {
        assert exists i :: 0 <= i < k && i + ms[i] >= |ms| by {
          var i := k - 1;
          assert 0 <= i < k && i + ms[i] >= |ms|;
        }
      }
    }
  }

  /** Every count is at least one, and the counts of cards already processed are final. */
  lemma {:induction false} CopiesAfterShape(ms: seq<nat>, k: nat)
    requires k <= |ms| && CopiesAfter(ms, k).Ok?
    ensures forall j :: 0 <= j < |ms| ==> CopiesAfter(ms, k).value[j] >= 1
    ensures forall j :: k <= j < |ms| && (forall i :: 0 <= i < k ==> i + ms[i] < j) ==> CopiesAfter(ms, k).value[j] == 1
  {
    if k > 0 {
      CopiesAfterShape(ms, k - 1);
    }
  }

  /** Once card `i` is processed its count never changes again: later cards only write
      to cards after themselves. */
  lemma {:induction false} CopiesAfterFinal(ms: seq<nat>, k: nat, m: nat, i: nat)
    requires i < k <= m <= |ms| && CopiesAfter(ms, m).Ok?
    ensures CopiesAfter(ms, k).Ok? && CopiesAfter(ms, m).value[i] == CopiesAfter(ms, k).value[i]
    decreases m - k
  {
    if k < m {
      CopiesAfterFinal(ms, k, m - 1, i);
      assert CopiesAfter(ms, m - 1).Ok?;
    }
  }

  /** The answer is at least the number of cards, since every card keeps its first copy. */
  lemma AnswerBound(cards: seq<Card>)
    requires Copies(cards).Ok?
    ensures Sum(Copies(cards).value) >= |cards|
  {
    var copies := Copies(cards).value;
    CopiesAfterShape(Counts(cards), |cards|);
    SumAtLeastLength(copies);
  }

  lemma {:induction false} SumAtLeastLength(s: seq<int>)
    requires forall j :: 0 <= j < |s| ==> s[j] >= 1
    ensures Sum(s) >= |s|
  {
    if s != [] {
      SumAtLeastLength(s[..|s| - 1]);
    }
  }

  /** The inner loop of `solve2` for card `i`. */
  method AddToNext(nCopies: array<int>, i: nat, count: nat) returns (ok: bool)
    requires i < nCopies.Length
    modifies nCopies
    ensures ok <==> i + count < nCopies.Length
    ensures ok ==> nCopies[..] == AddCopies(old(nCopies[..]), i, count)
  {
    if i + count >= nCopies.Length {
      return false;
    }
    for iAdd := i + 1 to i + count + 1
      invariant forall j :: 0 <= j < nCopies.Length ==>
                  nCopies[j] == if i < j < iAdd then old(nCopies[j]) + old(nCopies[i]) else old(nCopies[j])
    {
      nCopies[iAdd] := nCopies[iAdd] + nCopies[i];
    }
    return true;
  }

  /** `solve2`: the total number of cards held at the end. */
  method Solve2(cards: seq<Card>) returns (res: Result<int>)
    ensures res == match Copies(cards) case Ok(copies) => Ok(Sum(copies)) case Err(f) => Err(f)
  {
    ghost var ms := Counts(cards);
    var nCopies := new int[|cards|](_ => 1);
    assert nCopies[..] == seq(|ms|, _ => 1);
    for i := 0 to |cards|
      invariant CopiesAfter(ms, i) == Ok(nCopies[..])
    {
      ghost var before := nCopies[..];
      var count := CountMatches(AsSet(cards[i].winning), cards[i].yours);
      assert count == ms[i];
      var ok := AddToNext(nCopies, i, count);
      if !ok {
        CopiesAfterErr(ms, i + 1);
        return Err(IndexError);
      }
      CopiesStep(ms, i, before);
    }
    return Ok(Sum(nCopies[..]));
  }

  /** One card processed without a throw. */
  lemma CopiesStep(ms: seq<nat>, i: nat, copies: seq<int>)
    requires i < |ms| && CopiesAfter(ms, i) == Ok(copies) && i + ms[i] < |ms|
    ensures CopiesAfter(ms, i + 1) == Ok(AddCopies(copies, i, ms[i]))
  {
  }

  /** A failed step stays the result. */
  lemma {:induction false} CopiesAfterErr(ms: seq<nat>, k: nat)
    requires k <= |ms| && CopiesAfter(ms, k).Err?
    ensures CopiesAfter(ms, |ms|) == Err(IndexError)
    decreases |ms| - k
  {
    if k < |ms| {
      CopiesAfterErr(ms, k + 1);
    }
  }
}
