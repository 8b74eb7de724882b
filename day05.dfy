/** Day 5: seeds pushed through a chain of range maps (day05.py).
    Part 1 moves single numbers; part 2 moves inclusive sections of numbers, split
    against each transform range and merged again between maps. */
module Day05 {
  import opened Common

  /** One line of a map: numbers in [startIn, startIn + n) move by startOut - startIn. */
  datatype Transform = Transform(startOut: int, startIn: int, n: int)

  /** An inclusive section [lo, hi] of integers (a `Section` tuple of the source). */
  datatype Section = Section(lo: int, hi: int)

  /** The sections still to be mapped and the mapped ones, after one transform. */
  datatype Pass = Pass(input: seq<Section>, output: seq<Section>)

  function Shift(t: Transform): int
  {
    t.startOut - t.startIn
  }

  predicate InTransform(x: int, t: Transform)
  {
    t.startIn <= x < t.startIn + t.n
  }

  /** The transform range as an inclusive section, `(start_in, start_in + n - 1)`. */
  function KeySection(t: Transform): Section
  {
    Section(t.startIn, t.startIn + t.n - 1)
  }

  predicate InSec(x: int, s: Section)
  {
    s.lo <= x <= s.hi
  }

  predicate WellFormed(s: Section)
  {
    s.lo <= s.hi
  }

  predicate AllWellFormed(ss: seq<Section>)
  {
    forall i :: 0 <= i < |ss| ==> WellFormed(ss[i])
  }

  /** Some section of `ss` contains `x`. */
  predicate Covered(ss: seq<Section>, x: int)
  {
    |ss| > 0 && (InSec(x, ss[0]) || Covered(ss[1..], x))
  }

  lemma {:induction false} CoveredConcat(a: seq<Section>, b: seq<Section>, x: int)
    ensures Covered(a + b, x) <==> Covered(a, x) || Covered(b, x)
  {
    if a != [] {
      assert (a + b)[0] == a[0];
      assert (a + b)[1..] == a[1..] + b;
      CoveredConcat(a[1..], b, x);
    } else {
      assert a + b == b;
    }
  }

  lemma CoveredOne(s: Section)
    ensures forall x :: Covered([s], x) <==> InSec(x, s)
  {
    assert [s][1..] == [];
  }

  lemma CoveredTwo(a: Section, b: Section)
    ensures forall x :: Covered([a, b], x) <==> InSec(x, a) || InSec(x, b)
  {
    assert [a, b][1..] == [b];
    CoveredOne(b);
  }

  lemma CoveredAt(ss: seq<Section>, j: int, x: int)
    requires 0 <= j < |ss| && InSec(x, ss[j])
    ensures Covered(ss, x)
  {
    assert ss == ss[..j] + [ss[j]] + ss[j + 1..];
    CoveredConcat(ss[..j] + [ss[j]], ss[j + 1..], x);
    CoveredConcat(ss[..j], [ss[j]], x);
    CoveredOne(ss[j]);
  }

  /** The cover of a sequence in which section i is replaced by `mid`. */
  lemma CoveredSplice(ss: seq<Section>, i: int, j: int, mid: seq<Section>, x: int)
    requires 0 <= i <= j <= |ss|
    ensures Covered(ss[..i] + mid + ss[j..], x) <==>
            Covered(ss[..i], x) || Covered(mid, x) || Covered(ss[j..], x)
  {
    CoveredConcat(ss[..i] + mid, ss[j..], x);
    CoveredConcat(ss[..i], mid, x);
  }

  lemma CoveredSplit(ss: seq<Section>, i: int, x: int)
    requires 0 <= i < |ss|
    ensures Covered(ss, x) <==> Covered(ss[..i], x) || InSec(x, ss[i]) || Covered(ss[i + 1..], x)
  {
    assert ss == ss[..i] + [ss[i]] + ss[i + 1..];
    CoveredSplice(ss, i, i + 1, [ss[i]], x);
    CoveredOne(ss[i]);
  }

  // ---------------------------------------------------------------------------
  // _range_overlap

  /** The two sections share a number (for well-formed sections). */
  predicate Meets(q: Section, k: Section)
  {
    !(q.hi < k.lo || k.hi < q.lo)
  }

  /** `_range_overlap`: split the query section against the key section. */
  function RangeOverlap(q: Section, k: Section): (r: (Option<Section>, seq<Section>))
    requires WellFormed(q) && WellFormed(k)
    ensures r.0.None? <==> !Meets(q, k)
    ensures r.0.None? ==> r.1 == [q]
    ensures r.0.Some? ==> WellFormed(r.0.value) && forall x :: InSec(x, r.0.value) <==> InSec(x, q) && InSec(x, k)
    ensures r.0.Some? ==> forall x :: Covered(r.1, x) <==> InSec(x, q) && !InSec(x, k)
    ensures AllWellFormed(r.1) && |r.1| <= 2
    ensures |r.1| == 2 ==> r.1[0].hi < r.1[1].lo
    ensures r.0.Some? ==> forall j :: 0 <= j < |r.1| ==> !Meets(r.1[j], k)
  {
    var sqLow, sqHigh := q.lo, q.hi;
    if !Meets(q, k) then
      (None, [q])
    else
      // the source nudges the key outward so that no boundary coincides
      var skLow := if sqLow == k.lo then k.lo - 1 else k.lo;
      var skHigh := if sqHigh == k.hi then k.hi + 1 else k.hi;
      if sqLow < skLow <= sqHigh < skHigh then
        CoveredOne(Section(sqLow, skLow - 1));
        (Some(Section(skLow, sqHigh)), [Section(sqLow, skLow - 1)])
      else if sqLow < skLow <= skHigh < sqHigh then
        CoveredTwo(Section(sqLow, skLow - 1), Section(skHigh + 1, sqHigh));
        (Some(Section(skLow, skHigh)), [Section(sqLow, skLow - 1), Section(skHigh + 1, sqHigh)])
      else if skLow < sqLow <= sqHigh < skHigh then
        (Some(Section(sqLow, sqHigh)), [])
      else if skLow < sqLow <= skHigh < sqHigh then
        CoveredOne(Section(skHigh + 1, sqHigh));
        (Some(Section(sqLow, skHigh)), [Section(skHigh + 1, sqHigh)])
      else
        // `raise ValueError`: no well-formed pair of sections reaches this branch
        assert false; (None, [q])
  }

  // ---------------------------------------------------------------------------
  // _simplify_sections

  predicate SortedByLo(ss: seq<Section>)
  {
    forall i, j :: 0 <= i < j < |ss| ==> ss[i].lo <= ss[j].lo
  }

  /** Neighbouring sections start in order and leave at least one number between them. */
  predicate Separated(ss: seq<Section>)
  {
    forall i :: 0 <= i < |ss| - 1 ==> ss[i].lo <= ss[i + 1].lo && ss[i].hi + 1 < ss[i + 1].lo
  }

  lemma MashCover(low: Section, high: Section)
    requires low.lo <= high.lo && low.hi + 1 >= high.lo
    ensures forall x :: InSec(x, Section(Min(low.lo, high.lo), Max(low.hi, high.hi))) <==> InSec(x, low) || InSec(x, high)
  {
  }

  /** The loop invariant of `_simplify_sections`: `s` covers what `sections` covers, and
      its first `i + 1` sections are already separated. */
  ghost predicate Simplifying(sections: seq<Section>, s: seq<Section>, i: nat)
  {
    ((s == [] && i == 0) || i < |s|)
    && |s| <= |sections| && (s == [] <==> sections == [])
    && (forall j :: 0 <= j < i ==> s[j].lo <= s[j + 1].lo && s[j].hi + 1 < s[j + 1].lo)
    && (forall x :: Covered(s, x) <==> Covered(sections, x))
    && (SortedByLo(sections) ==> SortedByLo(s))
    && (AllWellFormed(sections) ==> AllWellFormed(s))
  }

  /** Replacing two touching neighbours by the section spanning both covers the same numbers. */
  lemma MergeCovers(s: seq<Section>, i: nat, mashed: Section)
    requires i + 1 < |s| && s[i].lo <= s[i + 1].lo && s[i].hi + 1 >= s[i + 1].lo
    requires mashed == Section(Min(s[i].lo, s[i + 1].lo), Max(s[i].hi, s[i + 1].hi))
    ensures forall x :: Covered(s[..i] + [mashed] + s[i + 2..], x) <==> Covered(s, x)
  {
    var low, high := s[i], s[i + 1];
    assert s == s[..i] + [low, high] + s[i + 2..];
    CoveredOne(mashed);
    CoveredTwo(low, high);
    MashCover(low, high);
    forall x
      ensures Covered(s[..i] + [mashed] + s[i + 2..], x) <==> Covered(s, x)
    {
      CoveredSplice(s, i, i + 2, [mashed], x);
      CoveredSplice(s, i, i + 2, [low, high], x);
    }
  }

  /** One merge of `_simplify_sections`: sections `i` and `i + 1` touch, so they become one. */
  method Merge(ghost sections: seq<Section>, s: seq<Section>, i: nat) returns (s': seq<Section>)
    requires Simplifying(sections, s, i) && i + 1 < |s|
    requires s[i].lo <= s[i + 1].lo && s[i].hi + 1 >= s[i + 1].lo
    ensures Simplifying(sections, s', i) && |s'| == |s| - 1
  {
    var mashed := Section(Min(s[i].lo, s[i + 1].lo), Max(s[i].hi, s[i + 1].hi));
    s' := s[..i] + [mashed] + s[i + 2..];
    MergeCovers(s, i, mashed);
    MergeOrder(s, i, mashed);
  }

  /** The merged sequence keeps the order, separation and well-formedness the source had. */
  lemma MergeOrder(s: seq<Section>, i: nat, mashed: Section)
    requires i + 1 < |s| && s[i].lo <= s[i + 1].lo
    requires mashed == Section(Min(s[i].lo, s[i + 1].lo), Max(s[i].hi, s[i + 1].hi))
    ensures var s' := s[..i] + [mashed] + s[i + 2..];
      |s'| == |s| - 1
      && (forall j :: 0 <= j < i ==> s'[j] == s[j])
      && (SortedByLo(s) ==> SortedByLo(s'))
      && (AllWellFormed(s) ==> AllWellFormed(s'))
  {
    var s' := s[..i] + [mashed] + s[i + 2..];
    assert forall j :: 0 <= j < i ==> s'[j] == s[j];
    assert s'[i] == mashed;
    assert forall j :: i < j < |s'| ==> s'[j] == s[j + 1];
    if SortedByLo(s) {
      forall j, k | 0 <= j < k < |s'|
        ensures s'[j].lo <= s'[k].lo
      {
        if j == i {
          assert s'[k] == s[k + 1];
        } else if k == i {
          assert s'[j] == s[j];
        }
      }
    }
  }

  /** `_simplify_sections`: merge each section into its predecessor while the two touch or
      overlap. The source asserts that neighbours arrive in order of their starts; that
      assertion fails only on input that is not sorted by start. */
  method SimplifySections(sections: seq<Section>) returns (r: Result<seq<Section>>)
    ensures r.Err? ==> r.fault == AssertionError && !SortedByLo(sections)
    ensures SortedByLo(sections) ==> r.Ok? && SortedByLo(r.value)
    ensures r.Ok? ==> Separated(r.value) && |r.value| <= |sections| && (r.value == [] <==> sections == [])
    ensures r.Ok? ==> forall x :: Covered(r.value, x) <==> Covered(sections, x)
    ensures r.Ok? && AllWellFormed(sections) ==> AllWellFormed(r.value)
  {
    var s := sections;
    var i := 0;
    while i + 1 < |s|
      invariant Simplifying(sections, s, i)
      decreases |s| - i
    {
      if !(s[i].lo <= s[i + 1].lo) {
        return Err(AssertionError);
      }
      if s[i].hi + 1 >= s[i + 1].lo {
        s := Merge(sections, s, i);
      } else {
        i := i + 1;
      }
    }
    return Ok(s);
  }

  // ---------------------------------------------------------------------------
  // bisect.insort on (lo, hi) tuples

  /** Python's tuple order on sections. */
  predicate SecLe(a: Section, b: Section)
  {
    a.lo < b.lo || (a.lo == b.lo && a.hi <= b.hi)
  }

  predicate SortedLex(ss: seq<Section>)
  {
    forall i, j :: 0 <= i < j < |ss| ==> SecLe(ss[i], ss[j])
  }

  /** `bisect.insort`: `x` goes after every element that is not greater than it. */
  function Insort(ss: seq<Section>, x: Section): (r: seq<Section>)
    ensures multiset(r) == multiset(ss) + multiset{x}
    ensures forall i :: 0 <= i < |r| ==> r[i] == x || r[i] in ss
    ensures SortedLex(ss) ==> SortedLex(r)
    ensures forall y :: Covered(r, y) <==> Covered(ss, y) || InSec(y, x)
  {
    if ss == [] || SecLe(ss[|ss| - 1], x) then
      CoveredOne(x);
      forall y ensures Covered(ss + [x], y) <==> Covered(ss, y) || InSec(y, x) {
        CoveredConcat(ss, [x], y);
      }
      ss + [x]
    else
      var init, last := ss[..|ss| - 1], ss[|ss| - 1];
      assert ss == init + [last];
      var r' := Insort(init, x);
      InsortShift(init, last, x, r');
      r' + [last]
  }

  /** `x` goes before the last element `last`, which is greater than it: inserting into
      `init` and then appending `last` keeps the contents, the order and the coverage. */
  lemma InsortShift(init: seq<Section>, last: Section, x: Section, r': seq<Section>)
    requires !SecLe(last, x)
    requires multiset(r') == multiset(init) + multiset{x}
    requires forall i :: 0 <= i < |r'| ==> r'[i] == x || r'[i] in init
    requires SortedLex(init) ==> SortedLex(r')
    requires forall y :: Covered(r', y) <==> Covered(init, y) || InSec(y, x)
    ensures multiset(r' + [last]) == multiset(init + [last]) + multiset{x}
    ensures forall i :: 0 <= i < |r' + [last]| ==> (r' + [last])[i] == x || (r' + [last])[i] in init + [last]
    ensures SortedLex(init + [last]) ==> SortedLex(r' + [last])
    ensures forall y :: Covered(r' + [last], y) <==> Covered(init + [last], y) || InSec(y, x)
  {
    var r, ss := r' + [last], init + [last];
    CoveredOne(last);
    forall y ensures Covered(r, y) <==> Covered(ss, y) || InSec(y, x) {
      CoveredConcat(r', [last], y);
      CoveredConcat(init, [last], y);
    }
    forall i | 0 <= i < |r|
      ensures r[i] == x || r[i] in ss
    {
      if i < |r'| {
        assert r[i] == r'[i];
      }
    }
    if SortedLex(ss) {
      assert SortedLex(init) by {
        assert forall i :: 0 <= i < |init| ==> ss[i] == init[i];
      }
      assert ss[|init|] == last;
      forall i, j | 0 <= i < j < |r|
        ensures SecLe(r[i], r[j])
      {
        if j < |r'| {
          assert r[i] == r'[i] && r[j] == r'[j];
        } else {
          assert r[i] == r'[i] && r[j] == last;
          if r'[i] != x {
            var k :| 0 <= k < |init| && init[k] == r'[i];
            assert ss[k] == init[k];
          }
        }
      }
    }
  }

  // ---------------------------------------------------------------------------
  // part 2: one transform applied to a list of sections

  /** How many sections of `ss` meet `k`: the measure that bounds the splitting loop. */
  function MeetCount(ss: seq<Section>, k: Section): nat
  {
    if ss == [] then 0 else (if Meets(ss[0], k) then 1 else 0) + MeetCount(ss[1..], k)
  }

  lemma {:induction false} MeetCountConcat(a: seq<Section>, b: seq<Section>, k: Section)
    ensures MeetCount(a + b, k) == MeetCount(a, k) + MeetCount(b, k)
  {
    if a == [] {
      assert a + b == b;
    } else {
      assert (a + b)[1..] == a[1..] + b;
      MeetCountConcat(a[1..], b, k);
    }
  }

  lemma {:induction false} MeetCountNone(ss: seq<Section>, k: Section)
    requires forall j :: 0 <= j < |ss| ==> !Meets(ss[j], k)
    ensures MeetCount(ss, k) == 0
  {
    if ss != [] {
      MeetCountNone(ss[1..], k);
    }
  }

  /** What the splitting loop keeps while it walks the input: the first `i` sections lie
      outside the transform range, nothing outside the range has moved, every moved part is
      in the output (shifted), and the output holds nothing else. */
  ghost predicate SplitInv(input0: seq<Section>, output0: seq<Section>, t: Transform,
                           input: seq<Section>, output: seq<Section>, i: int)
  {
    InputInv(input0, t, input, i) && OutputInv(input0, output0, t, input, output)
  }

  /** The sections still to be mapped: they cover part of the original input, all of it
      outside the transform range, and the first `i` of them are well formed and miss the
      range; the rest are well formed exactly when the original input was. */
  ghost predicate InputInv(input0: seq<Section>, t: Transform, input: seq<Section>, i: int)
  {
    && 0 <= i <= |input|
    && AllWellFormed(input[..i])
    && (AllWellFormed(input) <==> AllWellFormed(input0))
    && (forall x :: Covered(input, x) ==> Covered(input0, x))
    && (forall x :: !InTransform(x, t) ==> (Covered(input, x) <==> Covered(input0, x)))
    && (forall x :: Covered(input[..i], x) ==> !InTransform(x, t))
  }

  /** The mapped sections: sorted, they keep the earlier output and hold the shifted image
      of every number in the range that has left the input, and nothing else. */
  ghost predicate OutputInv(input0: seq<Section>, output0: seq<Section>, t: Transform,
                            input: seq<Section>, output: seq<Section>)
  {
    && AllWellFormed(output) && SortedLex(output)
    && (forall y :: Covered(output0, y) ==> Covered(output, y))
    && (forall y :: Covered(input0, y - Shift(t)) && InTransform(y - Shift(t), t) && !Covered(input, y - Shift(t)) ==> Covered(output, y))
    && (forall y :: Covered(output, y) ==>
          Covered(output0, y) || (Covered(input0, y - Shift(t)) && InTransform(y - Shift(t), t)))
  }

  lemma OverlapMeetCount(input: seq<Section>, i: int, leftovers: seq<Section>, key: Section)
    requires 0 <= i < |input| && Meets(input[i], key)
    requires forall j :: 0 <= j < |leftovers| ==> !Meets(leftovers[j], key)
    ensures MeetCount(input[..i] + leftovers + input[i + 1..], key) < MeetCount(input, key)
  {
    assert input == input[..i] + [input[i]] + input[i + 1..];
    MeetCountConcat(input[..i] + [input[i]], input[i + 1..], key);
    MeetCountConcat(input[..i], [input[i]], key);
    assert [input[i]][1..] == [];
    MeetCountConcat(input[..i] + leftovers, input[i + 1..], key);
    MeetCountConcat(input[..i], leftovers, key);
    MeetCountNone(leftovers, key);
  }

  /** One splitting step keeps `SplitInv`. */
  lemma OverlapStep(input0: seq<Section>, output0: seq<Section>, t: Transform,
                    input: seq<Section>, output: seq<Section>, i: int,
                    ov: Section, leftovers: seq<Section>, input': seq<Section>, output': seq<Section>)
    requires t.n >= 1
    requires SplitInv(input0, output0, t, input, output, i) && i < |input| && WellFormed(input[i])
    requires RangeOverlap(input[i], KeySection(t)) == (Some(ov), leftovers)
    requires input' == input[..i] + leftovers + input[i + 1..]
    requires output' == Insort(output, Section(ov.lo + Shift(t), ov.hi + Shift(t)))
    ensures SplitInv(input0, output0, t, input', output', i)
  {
    var inputSec := input[i];
    assert input'[..i] == input[..i];
    forall x
      ensures Covered(input', x) <==> Covered(input[..i], x) || (InSec(x, inputSec) && !InTransform(x, t)) || Covered(input[i + 1..], x)
      ensures Covered(input, x) <==> Covered(input[..i], x) || InSec(x, inputSec) || Covered(input[i + 1..], x)
    {
      CoveredSplice(input, i, i + 1, leftovers, x);
      CoveredSplit(input, i, x);
    }
    assert forall j :: 0 <= j < |input'| ==> input'[j] in input || input'[j] in leftovers;
    WellFormedSplice(input, i, leftovers);
    assert InputInv(input0, t, input', i);
    OverlapOutput(input0, output0, t, input, output, input', ov);
  }

  /** Replacing a well-formed section by well-formed leftovers keeps the list well formed,
      and keeps it ill formed. */
  lemma WellFormedSplice(ss: seq<Section>, i: int, mid: seq<Section>)
    requires 0 <= i < |ss| && WellFormed(ss[i]) && AllWellFormed(mid)
    ensures AllWellFormed(ss[..i] + mid + ss[i + 1..]) <==> AllWellFormed(ss)
  {
    var r := ss[..i] + mid + ss[i + 1..];
    if AllWellFormed(ss) {
      forall j | 0 <= j < |r|
        ensures WellFormed(r[j])
      {
        if j < i {
          assert r[j] == ss[j];
        } else if j >= i + |mid| {
          assert r[j] == ss[j - |mid| + 1];
        }
      }
    }
    if AllWellFormed(r) {
      forall j | 0 <= j < |ss|
        ensures WellFormed(ss[j])
      {
        if j < i {
          assert ss[j] == r[j];
        } else if j > i {
          assert ss[j] == r[j + |mid| - 1];
        }
      }
    }
  }

  /** The shifted overlap joins the output: the output part of `SplitInv` holds for the
      spliced input. */
  lemma OverlapOutput(input0: seq<Section>, output0: seq<Section>, t: Transform,
                      input: seq<Section>, output: seq<Section>, input': seq<Section>, ov: Section)
    requires OutputInv(input0, output0, t, input, output) && WellFormed(ov)
    requires forall x :: InSec(x, ov) ==> Covered(input0, x) && InTransform(x, t)
    requires forall x :: Covered(input, x) && InTransform(x, t) && !Covered(input', x) ==> InSec(x, ov)
    requires forall x :: Covered(input', x) ==> Covered(input, x)
    ensures OutputInv(input0, output0, t, input', Insort(output, Section(ov.lo + Shift(t), ov.hi + Shift(t))))
  {
    var out := Section(ov.lo + Shift(t), ov.hi + Shift(t));
    var output' := Insort(output, out);
    forall j | 0 <= j < |output'|
      ensures WellFormed(output'[j])
    {
      if output'[j] != out {
        var k :| 0 <= k < |output| && output[k] == output'[j];
      }
    }
  }

  /** A section outside the transform range is passed over. */
  lemma SkipStep(input0: seq<Section>, output0: seq<Section>, t: Transform,
                 input: seq<Section>, output: seq<Section>, i: int)
    requires SplitInv(input0, output0, t, input, output, i) && i < |input| && WellFormed(input[i])
    requires !Meets(input[i], KeySection(t))
    ensures SplitInv(input0, output0, t, input, output, i + 1)
  {
    assert input[..i + 1] == input[..i] + [input[i]];
    forall x
      ensures Covered(input[..i + 1], x) ==> !InTransform(x, t)
    {
      CoveredConcat(input[..i], [input[i]], x);
      CoveredOne(input[i]);
    }
  }

  /** What one transform does to the remaining sections and the output: the remaining
      sections lose exactly the numbers in the transform range, and the output gains exactly
      those numbers, shifted, keeping what it had. */
  ghost predicate Transformed(input0: seq<Section>, output0: seq<Section>, t: Transform,
                              input: seq<Section>, output: seq<Section>)
  {
    && AllWellFormed(input) && AllWellFormed(output) && SortedLex(output)
    && (forall x :: Covered(input, x) <==> Covered(input0, x) && !InTransform(x, t))
    && (forall y :: Covered(output0, y) ==> Covered(output, y))
    && (forall y {:trigger Covered(output, y)} ::
          Covered(input0, y - Shift(t)) && InTransform(y - Shift(t), t) ==> Covered(output, y))
    && (forall y {:trigger Covered(output, y)} :: Covered(output, y) ==>
          Covered(output0, y) || (Covered(input0, y - Shift(t)) && InTransform(y - Shift(t), t)))
  }

  /** The inner `while` of `solve2` for one transform: every part of an input section inside
      the transform range moves (shifted) into the sorted output; the rest stays behind.
      `_range_overlap` asserts that both of its sections are well formed, so the loop fails
      at the first empty section it reaches, or at once when the transform range is empty;
      it reaches every section, and none at all of an empty input. */
  method ApplyTransform(input0: seq<Section>, output0: seq<Section>, t: Transform) returns (r: Result<Pass>)
    requires AllWellFormed(output0) && SortedLex(output0)
    ensures r.Err? <==> input0 != [] && (!WellFormed(KeySection(t)) || !AllWellFormed(input0))
    ensures r.Err? ==> r.fault == AssertionError
    ensures r.Ok? ==> Transformed(input0, output0, t, r.value.input, r.value.output)
  {
    var key := KeySection(t);
    var input, output := input0, output0;
    var i := 0;
    SplitStart(input0, output0, t);
    while i < |input|
      invariant SplitInv(input0, output0, t, input, output, i)
      invariant (input == input0 && i == 0) || WellFormed(key)
      decreases MeetCount(input, key), |input| - i
    {
      if !WellFormed(input[i]) || !WellFormed(key) {
        return Err(AssertionError);
      }
      input, output, i := SplitSection(input0, output0, t, input, output, i);
    }
    SplitDone(input0, output0, t, input, output);
    return Ok(Pass(input, output));
  }

  /** The body of the loop: section `i` either meets the range, and its overlap moves to
      the output while its leftovers take its place, or it is passed over. */
  method SplitSection(ghost input0: seq<Section>, ghost output0: seq<Section>, t: Transform,
                      input: seq<Section>, output: seq<Section>, i: int)
    returns (input': seq<Section>, output': seq<Section>, i': int)
    requires t.n >= 1 && SplitInv(input0, output0, t, input, output, i) && i < |input| && WellFormed(input[i])
    ensures SplitInv(input0, output0, t, input', output', i')
    ensures MeetCount(input', KeySection(t)) < MeetCount(input, KeySection(t)) ||
            (input' == input && i' == i + 1)
  {
    var key := KeySection(t);
    var inputSec := input[i];
    var (overlap, leftovers) := RangeOverlap(inputSec, key);
    if overlap.Some? {
      input', output' := MoveOverlap(input0, output0, t, input, output, i, overlap.value, leftovers);
      i' := i;
    } else {
      SkipStep(input0, output0, t, input, output, i);
      input', output', i' := input, output, i + 1;
    }
  }

  /** `bisect.insort` of the shifted overlap into the output, and the leftovers in place
      of section `i`. */
  method MoveOverlap(ghost input0: seq<Section>, ghost output0: seq<Section>, t: Transform,
                     input: seq<Section>, output: seq<Section>, i: int, ov: Section, leftovers: seq<Section>)
    returns (input': seq<Section>, output': seq<Section>)
    requires t.n >= 1 && SplitInv(input0, output0, t, input, output, i) && i < |input| && WellFormed(input[i])
    requires RangeOverlap(input[i], KeySection(t)) == (Some(ov), leftovers)
    ensures SplitInv(input0, output0, t, input', output', i)
    ensures MeetCount(input', KeySection(t)) < MeetCount(input, KeySection(t))
  {
    var shift := Shift(t);
    var overlapShifted := Section(ov.lo + shift, ov.hi + shift);
    output' := Insort(output, overlapShifted);
    input' := input[..i] + leftovers + input[i + 1..];
    OverlapStep(input0, output0, t, input, output, i, ov, leftovers, input', output');
    OverlapMeetCount(input, i, leftovers, KeySection(t));
  }

  /** Before the loop nothing has moved. */
  lemma SplitStart(input0: seq<Section>, output0: seq<Section>, t: Transform)
    requires AllWellFormed(output0) && SortedLex(output0)
    ensures SplitInv(input0, output0, t, input0, output0, 0)
  {
    assert input0[..0] == [];
  }

  /** After the loop no remaining section meets the range. */
  lemma SplitDone(input0: seq<Section>, output0: seq<Section>, t: Transform, input: seq<Section>, output: seq<Section>)
    requires SplitInv(input0, output0, t, input, output, |input|)
    ensures Transformed(input0, output0, t, input, output)
  {
    assert input[..|input|] == input;
  }

  // ---------------------------------------------------------------------------
  // Reference semantics of a map and of the chain of maps

  /** The first transform (in list order) that contains `x` moves it; if none does, `x` stays. */
  function MapNumber(ts: seq<Transform>, x: int): int
  {
    if ts == [] then x
    else if InTransform(x, ts[0]) then x + Shift(ts[0])
    else MapNumber(ts[1..], x)
  }

  /** No transform before index `t` contains `x`. */
  predicate UntouchedBefore(ts: seq<Transform>, t: int, x: int)
  {
    forall j :: 0 <= j < t && j < |ts| ==> !InTransform(x, ts[j])
  }

  lemma UntouchedStep(ts: seq<Transform>, t: int, x: int)
    requires 0 <= t < |ts|
    ensures UntouchedBefore(ts, t + 1, x) <==> UntouchedBefore(ts, t, x) && !InTransform(x, ts[t])
  {
  }

  /** A number that no transform contains passes through unchanged. */
  lemma {:induction false} MapNumberUntouched(ts: seq<Transform>, x: int)
    requires UntouchedBefore(ts, |ts|, x)
    ensures MapNumber(ts, x) == x
  {
    if ts != [] {
      MapNumberUntouched(ts[1..], x);
    }
  }

  /** A number is moved by the first transform that contains it, and by no other. */
  lemma {:induction false} MapNumberFirst(ts: seq<Transform>, t: int, x: int)
    requires 0 <= t < |ts| && UntouchedBefore(ts, t, x) && InTransform(x, ts[t])
    ensures MapNumber(ts, x) == x + Shift(ts[t])
  {
    if t > 0 {
      assert !InTransform(x, ts[0]);
      MapNumberFirst(ts[1..], t - 1, x);
    }
  }

  /** The maps applied in order: the location of seed `x` (from the back, so that
      extending the chain by one map is one unfolding). */
  function MapThrough(maps: seq<seq<Transform>>, x: int): int
  {
    if maps == [] then x else MapNumber(maps[|maps| - 1], MapThrough(maps[..|maps| - 1], x))
  }

  lemma MapThroughStep(maps: seq<seq<Transform>>, k: int, x: int)
    requires 0 <= k < |maps|
    ensures MapThrough(maps[..k + 1], x) == MapNumber(maps[k], MapThrough(maps[..k], x))
  {
    assert maps[..k + 1][..k] == maps[..k];
  }

  predicate ValidTransforms(ts: seq<Transform>)
  {
    forall j :: 0 <= j < |ts| ==> ts[j].n >= 1
  }

  // ---------------------------------------------------------------------------
  // part 2: one map applied to a list of sections

  /** Some number covered by `input` is mapped to `y`. */
  ghost predicate InImage(input: seq<Section>, ts: seq<Transform>, y: int)
  {
    exists x :: Covered(input, x) && MapNumber(ts, x) == y
  }

  /** What the loop over the transforms of one map keeps; once a transform has gone through,
      the input was well formed. */
  ghost predicate MapInv(input0: seq<Section>, ts: seq<Transform>, t: int,
                         input: seq<Section>, output: seq<Section>)
  {
    && (AllWellFormed(input) <==> AllWellFormed(input0)) && (t > 0 ==> AllWellFormed(input0))
    && AllWellFormed(output) && SortedLex(output)
    && (forall x :: Covered(input, x) <==> Covered(input0, x) && UntouchedBefore(ts, t, x))
    && (forall x {:trigger Covered(output, MapNumber(ts, x))} ::
          Covered(input0, x) && !UntouchedBefore(ts, t, x) ==> Covered(output, MapNumber(ts, x)))
    && (forall y :: Covered(output, y) ==> InImage(input0, ts, y))
  }

  lemma TransformStepComplete(input0: seq<Section>, ts: seq<Transform>, t: int,
                              input: seq<Section>, output: seq<Section>, output': seq<Section>)
    requires 0 <= t < |ts|
    requires forall x :: Covered(input, x) <==> Covered(input0, x) && UntouchedBefore(ts, t, x)
    requires forall x {:trigger Covered(output, MapNumber(ts, x))} ::
               Covered(input0, x) && !UntouchedBefore(ts, t, x) ==> Covered(output, MapNumber(ts, x))
    requires forall y :: Covered(output, y) ==> Covered(output', y)
    requires forall y {:trigger Covered(output', y)} ::
               Covered(input, y - Shift(ts[t])) && InTransform(y - Shift(ts[t]), ts[t]) ==> Covered(output', y)
    ensures forall x {:trigger Covered(output', MapNumber(ts, x))} ::
              Covered(input0, x) && !UntouchedBefore(ts, t + 1, x) ==> Covered(output', MapNumber(ts, x))
  {
    forall x | Covered(input0, x) && !UntouchedBefore(ts, t + 1, x)
      ensures Covered(output', MapNumber(ts, x))
    {
      if UntouchedBefore(ts, t, x) {
        MapNumberFirst(ts, t, x);
        var y := x + Shift(ts[t]);
        assert y - Shift(ts[t]) == x;
        assert Covered(output', y);
      } else {
        assert Covered(output, MapNumber(ts, x));
      }
    }
  }

  lemma TransformStepSound(input0: seq<Section>, ts: seq<Transform>, t: int,
                           input: seq<Section>, output: seq<Section>, output': seq<Section>)
    requires 0 <= t < |ts|
    requires forall x :: Covered(input, x) ==> Covered(input0, x) && UntouchedBefore(ts, t, x)
    requires forall y :: Covered(output, y) ==> InImage(input0, ts, y)
    requires forall y {:trigger Covered(output', y)} :: Covered(output', y) ==>
               Covered(output, y) || (Covered(input, y - Shift(ts[t])) && InTransform(y - Shift(ts[t]), ts[t]))
    ensures forall y :: Covered(output', y) ==> InImage(input0, ts, y)
  {
    forall y | Covered(output', y)
      ensures InImage(input0, ts, y)
    {
      if !Covered(output, y) {
        var x := y - Shift(ts[t]);
        assert Covered(input, x) && InTransform(x, ts[t]);
        MapNumberFirst(ts, t, x);
        assert Covered(input0, x) && MapNumber(ts, x) == y;
      }
    }
  }

  lemma TransformStep(input0: seq<Section>, ts: seq<Transform>, t: int,
                      input: seq<Section>, output: seq<Section>,
                      input': seq<Section>, output': seq<Section>)
    requires 0 <= t < |ts|
    requires MapInv(input0, ts, t, input, output) && AllWellFormed(input)
    requires Transformed(input, output, ts[t], input', output')
    ensures MapInv(input0, ts, t + 1, input', output')
  {
    TransformStepComplete(input0, ts, t, input, output, output');
    TransformStepSound(input0, ts, t, input, output, output');
  }

  /** The sections left over after every transform of the map go through unchanged. */
  lemma FinishStep(input0: seq<Section>, ts: seq<Transform>, t: int,
                   input: seq<Section>, output: seq<Section>, output': seq<Section>)
    requires 0 <= t <= |ts|
    requires MapInv(input0, ts, t, input, output)
    requires t == |ts| || input == []
    requires forall y :: Covered(output', y) <==> Covered(output, y) || Covered(input, y)
    ensures forall x :: Covered(input0, x) ==> Covered(output', MapNumber(ts, x))
    ensures forall y :: Covered(output', y) ==> InImage(input0, ts, y)
  {
    forall x | Covered(input0, x)
      ensures Covered(output', MapNumber(ts, x))
    {
      if UntouchedBefore(ts, t, x) {
        assert Covered(input, x);
        MapNumberUntouched(ts, x);
      }
    }
    forall y | Covered(output', y)
      ensures InImage(input0, ts, y)
    {
      if !Covered(output, y) {
        assert Covered(input, y);
        MapNumberUntouched(ts, y);
        assert Covered(input0, y) && MapNumber(ts, y) == y;
      } else {
        assert InImage(input0, ts, y);
      }
    }
  }

  /** One map of `solve2` (before the merge): the output covers exactly the images of the
      numbers the input covers.  It fails only when a transform meets an empty section or an
      empty transform range; a map without transforms passes every section through. */
  method ApplyMap(input0: seq<Section>, ts: seq<Transform>) returns (r: Result<seq<Section>>)
    ensures r.Err? ==> r.fault == AssertionError && input0 != [] && ts != []
    ensures r.Err? ==> !AllWellFormed(input0) || !ValidTransforms(ts)
    ensures r.Ok? ==> SortedLex(r.value) && (AllWellFormed(r.value) <==> AllWellFormed(input0))
    ensures r.Ok? && ts != [] ==> AllWellFormed(input0)
    ensures r.Ok? ==> (r.value == [] <==> input0 == [])
    ensures r.Ok? ==> forall x :: Covered(input0, x) ==> Covered(r.value, MapNumber(ts, x))
    ensures r.Ok? ==> forall y :: Covered(r.value, y) ==> InImage(input0, ts, y)
  {
    var input := input0;
    var output := [];
    var t := 0;
    MapStart(input0, ts);
    while t < |ts|
      invariant 0 <= t <= |ts|
      invariant MapInv(input0, ts, t, input, output)
      invariant t == 0 ==> input == input0
      invariant input0 == [] ==> input == []
    {
      var pass := MapTransform(input0, ts, t, input, output);
      if pass.Err? {
        return Err(AssertionError);
      }
      input, output := pass.value.input, pass.value.output;
      if input0 == [] {
        CoverNothing(input);
      }
      t := t + 1;
      if |input| == 0 {
        break;
      }
    }
    // sections that go unchanged
    var output1 := output;
    output := InsortAll(output1, input);
    FinishStep(input0, ts, t, input, output1, output);
    if input0 == [] {
      CoverNothing(output1);
    } else if input == [] {
      CoveredAt(input0, 0, input0[0].lo);
    }
    return Ok(output);
  }

  /** Well-formed sections that cover nothing are no sections at all. */
  lemma CoverNothing(ss: seq<Section>)
    requires AllWellFormed(ss) && forall x :: !Covered(ss, x)
    ensures ss == []
  {
    if ss != [] {
      CoveredAt(ss, 0, ss[0].lo);
    }
  }

  /** Before the first transform every section is unmapped. */
  lemma MapStart(input0: seq<Section>, ts: seq<Transform>)
    ensures MapInv(input0, ts, 0, input0, [])
  {
  }

  /** The body of the loop over the transforms of one map: transform `t` moves what it
      covers of the remaining sections, or meets an empty section or range. */
  method MapTransform(ghost input0: seq<Section>, ts: seq<Transform>, t: int, input: seq<Section>, output: seq<Section>)
    returns (r: Result<Pass>)
    requires 0 <= t < |ts| && MapInv(input0, ts, t, input, output)
    ensures r.Err? <==> input != [] && (!WellFormed(KeySection(ts[t])) || !AllWellFormed(input))
    ensures r.Err? ==> r.fault == AssertionError
    ensures r.Ok? ==> MapInv(input0, ts, t + 1, r.value.input, r.value.output)
  {
    r := ApplyTransform(input, output, ts[t]);
    if r.Ok? {
      assert AllWellFormed(input);
      TransformStep(input0, ts, t, input, output, r.value.input, r.value.output);
    }
  }

  /** Inserting keeps the list well formed exactly when the inserted section is. */
  lemma InsortWellFormed(ss: seq<Section>, x: Section)
    ensures |Insort(ss, x)| == |ss| + 1
    ensures AllWellFormed(Insort(ss, x)) <==> AllWellFormed(ss) && WellFormed(x)
  {
    var r := Insort(ss, x);
    assert |multiset(r)| == |multiset(ss)| + 1;
    assert x in multiset(r);
    forall j | 0 <= j < |ss|
      ensures ss[j] in r
    {
      assert ss[j] in multiset(ss);
      assert ss[j] in multiset(r);
    }
  }

  /** The closing `for input_sec in input_sections: bisect.insort(...)` loop. */
  method InsortAll(output0: seq<Section>, input: seq<Section>) returns (output: seq<Section>)
    requires AllWellFormed(output0) && SortedLex(output0)
    ensures SortedLex(output) && |output| == |output0| + |input|
    ensures AllWellFormed(output) <==> AllWellFormed(input)
    ensures forall y :: Covered(output, y) <==> Covered(output0, y) || Covered(input, y)
  {
    output := output0;
    assert input[..0] == [];
    for j := 0 to |input|
      invariant InsortedUpTo(output0, input, j, output)
    {
      InsortOne(output0, input, j, output);
      output := Insort(output, input[j]);
    }
    assert input[..|input|] == input;
  }

  /** `output` is `output0` with the first `j` sections of `input` inserted. */
  ghost predicate InsortedUpTo(output0: seq<Section>, input: seq<Section>, j: int, output: seq<Section>)
    requires 0 <= j <= |input|
  {
    && SortedLex(output) && |output| == |output0| + j
    && (AllWellFormed(output) <==> AllWellFormed(input[..j]))
    && (forall y :: Covered(output, y) <==> Covered(output0, y) || Covered(input[..j], y))
  }

  /** One pass of the closing loop. */
  lemma InsortOne(output0: seq<Section>, input: seq<Section>, j: int, output: seq<Section>)
    requires 0 <= j < |input| && InsortedUpTo(output0, input, j, output)
    ensures InsortedUpTo(output0, input, j + 1, Insort(output, input[j]))
  {
    assert input[..j + 1] == input[..j] + [input[j]];
    forall y ensures Covered(input[..j + 1], y) <==> Covered(input[..j], y) || InSec(y, input[j]) {
      CoveredConcat(input[..j], [input[j]], y);
      CoveredOne(input[j]);
    }
    InsortWellFormed(output, input[j]);
  }

  // ---------------------------------------------------------------------------
  // solve2

  /** `zip(seeds[::2], seeds[1::2])` as inclusive sections; an unpaired last number is dropped. */
  function SeedSections(seeds: seq<int>): (ss: seq<Section>)
    ensures |ss| == |seeds| / 2
    ensures forall i :: 0 <= i < |ss| ==> ss[i] == Section(seeds[2 * i], seeds[2 * i] + seeds[2 * i + 1] - 1)
  {
    if |seeds| < 2 then [] else [Section(seeds[0], seeds[0] + seeds[1] - 1)] + SeedSections(seeds[2..])
  }

  /** Every seed range has at least one number (the source asserts well-formed sections). */
  predicate ValidSeedRanges(seeds: seq<int>)
  {
    forall i :: 0 <= i < |seeds| / 2 ==> seeds[2 * i + 1] >= 1
  }

  predicate ValidMaps(maps: seq<seq<Transform>>)
  {
    forall m :: 0 <= m < |maps| ==> ValidTransforms(maps[m])
  }

  /** `sorted(...)` on sections (Python's tuple order is total, so the result is unique). */
  function SortSections(ss: seq<Section>): (r: seq<Section>)
    ensures multiset(r) == multiset(ss)
    ensures SortedLex(r)
    ensures forall i :: 0 <= i < |r| ==> r[i] in ss
    ensures forall y :: Covered(r, y) <==> Covered(ss, y)
  {
    if ss == [] then []
    else
      var init, last := ss[..|ss| - 1], ss[|ss| - 1];
      assert ss == init + [last];
      var r := Insort(SortSections(init), last);
      forall y ensures Covered(r, y) <==> Covered(ss, y) {
        CoveredConcat(init, [last], y);
        CoveredOne(last);
      }
      r
  }

  lemma SortedLexByLo(ss: seq<Section>)
    requires SortedLex(ss)
    ensures SortedByLo(ss)
  {
  }

  /** `min(low for low, _ in sections)`. */
  method MinLow(ss: seq<Section>) returns (m: int)
    requires ss != []
    ensures exists j :: 0 <= j < |ss| && m == ss[j].lo
    ensures forall j :: 0 <= j < |ss| ==> m <= ss[j].lo
  {
    m := ss[0].lo;
    for i := 1 to |ss|
      invariant exists j :: 0 <= j < i && m == ss[j].lo
      invariant forall j :: 0 <= j < i ==> m <= ss[j].lo
    {
      if ss[i].lo < m {
        m := ss[i].lo;
      }
    }
  }

  lemma CoveredWitness(ss: seq<Section>, x: int) returns (j: int)
    requires Covered(ss, x)
    ensures 0 <= j < |ss| && InSec(x, ss[j])
  {
    if InSec(x, ss[0]) {
      j := 0;
    } else {
      var j' := CoveredWitness(ss[1..], x);
      j := j' + 1;
    }
  }

  /** Some seed in the seed ranges is taken to `y` by the maps. */
  ghost predicate SeedImage(seeds: seq<int>, maps: seq<seq<Transform>>, y: int)
  {
    exists s :: Covered(SeedSections(seeds), s) && MapThrough(maps, s) == y
  }

  lemma SolveStep(seeds: seq<int>, maps: seq<seq<Transform>>, k: int,
                  sections: seq<Section>, output: seq<Section>, next: seq<Section>)
    requires 0 <= k < |maps|
    requires forall s :: Covered(SeedSections(seeds), s) ==> Covered(sections, MapThrough(maps[..k], s))
    requires forall y :: Covered(sections, y) ==> SeedImage(seeds, maps[..k], y)
    requires forall x :: Covered(sections, x) ==> Covered(output, MapNumber(maps[k], x))
    requires forall y :: Covered(output, y) ==> InImage(sections, maps[k], y)
    requires forall y :: Covered(next, y) <==> Covered(output, y)
    ensures forall s :: Covered(SeedSections(seeds), s) ==> Covered(next, MapThrough(maps[..k + 1], s))
    ensures forall y :: Covered(next, y) ==> SeedImage(seeds, maps[..k + 1], y)
  {
    forall s | Covered(SeedSections(seeds), s)
      ensures Covered(next, MapThrough(maps[..k + 1], s))
    {
      MapThroughStep(maps, k, s);
    }
    forall y | Covered(next, y)
      ensures SeedImage(seeds, maps[..k + 1], y)
    {
      var x :| Covered(sections, x) && MapNumber(maps[k], x) == y;
      var s :| Covered(SeedSections(seeds), s) && MapThrough(maps[..k], s) == x;
      MapThroughStep(maps, k, s);
    }
  }

  /** `solve2`: the lowest location reached from any seed in any seed range. */
  /** What the loop over the maps of `solve2` keeps: after `k` maps the sections cover
      the images of all seeds under those maps, and nothing else.  There are sections
      exactly when there are seed ranges, and they are well formed when every seed range
      is, or once a map with a transform has gone through. */
  ghost predicate ChainInv(seeds: seq<int>, maps: seq<seq<Transform>>, k: int, sections: seq<Section>)
    requires 0 <= k <= |maps|
  {
    && (sections == [] <==> |seeds| < 2)
    && (ValidSeedRanges(seeds) ==> AllWellFormed(sections))
    && ((exists j :: 0 <= j < k && maps[j] != []) ==> AllWellFormed(sections))
    && (forall s :: Covered(SeedSections(seeds), s) ==> Covered(sections, MapThrough(maps[..k], s)))
    && (forall y :: Covered(sections, y) ==> SeedImage(seeds, maps[..k], y))
  }

  /** Before the first map the sections are the seeds themselves. */
  lemma ChainStart(seeds: seq<int>, maps: seq<seq<Transform>>, sections: seq<Section>)
    requires sections == [] <==> |seeds| < 2
    requires ValidSeedRanges(seeds) ==> AllWellFormed(sections)
    requires forall x :: Covered(sections, x) <==> Covered(SeedSections(seeds), x)
    ensures ChainInv(seeds, maps, 0, sections)
  {
    assert maps[..0] == [];
    forall y | Covered(sections, y) ensures SeedImage(seeds, maps[..0], y) {
      assert MapThrough(maps[..0], y) == y;
    }
  }

  /** Seed ranges of at least one number give well-formed sections. */
  lemma SeedSectionsWellFormed(seeds: seq<int>)
    requires ValidSeedRanges(seeds)
    ensures AllWellFormed(SeedSections(seeds))
  {
    var ss := SeedSections(seeds);
    forall i | 0 <= i < |ss|
      ensures WellFormed(ss[i])
    {
      assert seeds[2 * i + 1] >= 1;
    }
  }

  /** The body of the loop over the maps: apply map `k`, then sort and merge. */
  method ChainStep(seeds: seq<int>, maps: seq<seq<Transform>>, k: int, sections: seq<Section>)
    returns (r: Result<seq<Section>>)
    requires 0 <= k < |maps| && ChainInv(seeds, maps, k, sections)
    ensures r.Err? ==> r.fault == AssertionError && sections != [] && maps[k] != []
    ensures r.Err? ==> !ValidSeedRanges(seeds) || !ValidTransforms(maps[k])
    ensures r.Ok? ==> ChainInv(seeds, maps, k + 1, r.value)
  {
    var output := ApplyMap(sections, maps[k]);
    if output.Err? {
      return Err(AssertionError);
    }
    SortedLexByLo(output.value);
    var merged := SimplifySections(output.value);
    SolveStep(seeds, maps, k, sections, output.value, merged.value);
    if exists j :: 0 <= j < k + 1 && maps[j] != [] {
      var j :| 0 <= j < k + 1 && maps[j] != [];
      if j < k {
        assert AllWellFormed(sections);
      }
    }
    return Ok(merged.value);
  }

  /** `solve2`: the lowest start of a section after the last map.  That start is no greater
      than the location of any seed in a seed range; it is the location of such a seed
      unless an empty seed range, never checked because no map has a transform, survives
      to the end. A transform meeting an empty section or an empty transform range fails
      the assertions of `_range_overlap`. */
  method Solve2(seeds: seq<int>, maps: seq<seq<Transform>>) returns (r: Result<int>)
    ensures |seeds| < 2 ==> r == Err(EmptyReduce)
    ensures |seeds| >= 2 ==> r.Ok? || r == Err(AssertionError)
    ensures r == Err(AssertionError) ==>
              (!ValidSeedRanges(seeds) || !ValidMaps(maps)) && exists k :: 0 <= k < |maps| && maps[k] != []
    ensures r.Ok? ==> forall s :: Covered(SeedSections(seeds), s) ==> r.value <= MapThrough(maps, s)
    ensures r.Ok? && (ValidSeedRanges(seeds) || exists k :: 0 <= k < |maps| && maps[k] != []) ==>
              SeedImage(seeds, maps, r.value)
  {
    var sections := MergeSeeds(seeds, maps);
    for k := 0 to |maps|
      invariant ChainInv(seeds, maps, k, sections)
    {
      var next := ChainStep(seeds, maps, k, sections);
      if next.Err? {
        return Err(AssertionError);
      }
      sections := next.value;
    }
    if sections == [] {
      return Err(EmptyReduce);
    }
    var m := MinLow(sections);
    LowestStart(seeds, maps, sections, m);
    return Ok(m);
  }

  /** The seed sections of `solve2`, sorted and merged. */
  method MergeSeeds(seeds: seq<int>, ghost maps: seq<seq<Transform>>) returns (sections: seq<Section>)
    ensures ChainInv(seeds, maps, 0, sections)
  {
    var seedSecs := SeedSections(seeds);
    var sorted := SortSections(seedSecs);
    assert |sorted| == |multiset(sorted)| == |seedSecs|;
    if ValidSeedRanges(seeds) {
      SeedSectionsWellFormed(seeds);
      assert forall i :: 0 <= i < |sorted| ==> sorted[i] in seedSecs;
    }
    SortedLexByLo(sorted);
    var simplified := SimplifySections(sorted);
    sections := simplified.value;
    ChainStart(seeds, maps, sections);
  }

  /** The lowest start after the last map bounds every seed's location from below, and is
      one when the sections are well formed. */
  lemma LowestStart(seeds: seq<int>, maps: seq<seq<Transform>>, sections: seq<Section>, m: int)
    requires ChainInv(seeds, maps, |maps|, sections)
    requires exists j :: 0 <= j < |sections| && m == sections[j].lo
    requires forall j :: 0 <= j < |sections| ==> m <= sections[j].lo
    ensures forall s :: Covered(SeedSections(seeds), s) ==> m <= MapThrough(maps, s)
    ensures (ValidSeedRanges(seeds) || exists k :: 0 <= k < |maps| && maps[k] != []) ==> SeedImage(seeds, maps, m)
  {
    assert maps[..|maps|] == maps;
    forall s | Covered(SeedSections(seeds), s) ensures m <= MapThrough(maps, s) {
      var j' := CoveredWitness(sections, MapThrough(maps, s));
    }
    if ValidSeedRanges(seeds) || exists k :: 0 <= k < |maps| && maps[k] != [] {
      var j :| 0 <= j < |sections| && m == sections[j].lo;
      CoveredAt(sections, j, m);
    }
  }

  // ---------------------------------------------------------------------------
  // solve1: single numbers held in sets

  /** One pass of the innermost loop: move the numbers inside the transform range into
      `newNums` and drop them from the current set. */
  method MoveNumbers(current: set<int>, newNums0: set<int>, t: Transform)
    returns (rest: set<int>, newNums: set<int>)
    ensures forall x :: x in rest <==> x in current && !InTransform(x, t)
    ensures forall y :: y in newNums <==>
              y in newNums0 || (y - Shift(t) in current && InTransform(y - Shift(t), t))
  {
    var toDiscard: set<int> := {};
    newNums := newNums0;
    var toVisit := current;
    while toVisit != {}
      invariant toVisit <= current
      invariant forall x :: x in toDiscard <==> x in current && x !in toVisit && InTransform(x, t)
      invariant forall y :: y in newNums <==>
                  y in newNums0 || (y - Shift(t) in current && y - Shift(t) !in toVisit && InTransform(y - Shift(t), t))
      decreases |toVisit|
    {
      ghost var someElement := HasElement(toVisit);
      var num :| num in toVisit;
      if InTransform(num, t) {
        newNums := newNums + {num + Shift(t)};
        toDiscard := toDiscard + {num};
      }
      toVisit := toVisit - {num};
    }
    rest := current - toDiscard;
  }

  /** The numbers of `cur0` that no transform before index `t` has moved. */
  ghost function Remaining(cur0: set<int>, ts: seq<Transform>, t: int): set<int>
  {
    set x | x in cur0 && UntouchedBefore(ts, t, x)
  }

  /** The image of a set of numbers under one map. */
  ghost function ImageSet(ts: seq<Transform>, cur: set<int>): set<int>
  {
    set x | x in cur :: MapNumber(ts, x)
  }

  /** The numbers of `cur0` that some transform before index `t` has moved, at their
      destinations. */
  ghost function Moved(cur0: set<int>, ts: seq<Transform>, t: int): set<int>
  {
    set x | x in cur0 && !UntouchedBefore(ts, t, x) :: MapNumber(ts, x)
  }

  lemma MoveStepSound(cur0: set<int>, ts: seq<Transform>, t: int, newNums: set<int>, newNums': set<int>)
    requires 0 <= t < |ts|
    requires newNums == Moved(cur0, ts, t)
    requires forall y :: y in newNums' ==>
               y in newNums || (y - Shift(ts[t]) in Remaining(cur0, ts, t) && InTransform(y - Shift(ts[t]), ts[t]))
    ensures newNums' <= Moved(cur0, ts, t + 1)
  {
    forall y | y in newNums' ensures y in Moved(cur0, ts, t + 1) {
      if y !in newNums {
        var x := y - Shift(ts[t]);
        assert x in Remaining(cur0, ts, t) && InTransform(x, ts[t]);
        MapNumberFirst(ts, t, x);
      } else {
        var x :| x in cur0 && !UntouchedBefore(ts, t, x) && y == MapNumber(ts, x);
        assert !UntouchedBefore(ts, t + 1, x);
      }
    }
  }

  lemma MoveStepComplete(cur0: set<int>, ts: seq<Transform>, t: int, newNums: set<int>, newNums': set<int>)
    requires 0 <= t < |ts|
    requires newNums == Moved(cur0, ts, t)
    requires forall y :: y in newNums || (y - Shift(ts[t]) in Remaining(cur0, ts, t) && InTransform(y - Shift(ts[t]), ts[t]))
               ==> y in newNums'
    ensures Moved(cur0, ts, t + 1) <= newNums'
  {
    forall y | y in Moved(cur0, ts, t + 1) ensures y in newNums' {
      var x :| x in cur0 && !UntouchedBefore(ts, t + 1, x) && y == MapNumber(ts, x);
      if UntouchedBefore(ts, t, x) {
        MapNumberFirst(ts, t, x);
        assert x in Remaining(cur0, ts, t);
        assert y - Shift(ts[t]) == x;
      } else {
        assert y in newNums;
      }
    }
  }

  /** One map of `solve1`: the set of images of the current numbers. */
  method MapSet(cur0: set<int>, ts: seq<Transform>) returns (next: set<int>)
    ensures next == ImageSet(ts, cur0)
  {
    var current := cur0;
    var newNums: set<int> := {};
    var t := 0;
    while t < |ts|
      invariant 0 <= t <= |ts|
      invariant current == Remaining(cur0, ts, t)
      invariant newNums == Moved(cur0, ts, t)
    {
      var rest, newNums' := MoveNumbers(current, newNums, ts[t]);
      MoveStepSound(cur0, ts, t, newNums, newNums');
      MoveStepComplete(cur0, ts, t, newNums, newNums');
      forall x ensures x in rest <==> x in Remaining(cur0, ts, t + 1) {
        UntouchedStep(ts, t, x);
      }
      assert rest == Remaining(cur0, ts, t + 1);
      current, newNums := rest, newNums';
      t := t + 1;
      if |current| == 0 {
        break;
      }
    }
    forall x | x in current ensures MapNumber(ts, x) == x {
      MapNumberUntouched(ts, x);
    }
    next := newNums + current;
  }

  /** The locations of all seeds after the first `k` maps. */
  ghost function Locations(seeds: seq<int>, maps: seq<seq<Transform>>): set<int>
  {
    set s | s in seeds :: MapThrough(maps, s)
  }

  lemma LocationsStep(seeds: seq<int>, maps: seq<seq<Transform>>, k: int)
    requires 0 <= k < |maps|
    ensures ImageSet(maps[k], Locations(seeds, maps[..k])) == Locations(seeds, maps[..k + 1])
  {
    forall s ensures MapThrough(maps[..k + 1], s) == MapNumber(maps[k], MapThrough(maps[..k], s)) {
      MapThroughStep(maps, k, s);
    }
  }

  /** `min` of a non-empty set. */
  method MinOfSet(xs: set<int>) returns (m: int)
    requires xs != {}
    ensures m in xs && forall y :: y in xs ==> m <= y
  {
    ghost var someElement := HasElement(xs);
    var first :| first in xs;
    m := first;
    var todo := xs - {first};
    while todo != {}
      invariant todo <= xs && m in xs
      invariant forall y :: y in xs && y !in todo ==> m <= y
      decreases |todo|
    {
      ghost var someElement := HasElement(todo);
      var z :| z in todo;
      if z < m {
        m := z;
      }
      todo := todo - {z};
    }
  }

  /** `solve1`: the lowest location of any seed; `min` of no seeds raises. */
  method Solve1(seeds: seq<int>, maps: seq<seq<Transform>>) returns (r: Result<int>)
    ensures seeds == [] ==> r == Err(EmptyReduce)
    ensures seeds != [] ==> r.Ok? && r.value in Locations(seeds, maps)
    ensures r.Ok? ==> forall s :: s in seeds ==> r.value <= MapThrough(maps, s)
  {
    var current := set s | s in seeds;
    forall y ensures y in current <==> y in Locations(seeds, maps[..0]) {
      assert maps[..0] == [];
      assert MapThrough(maps[..0], y) == y;
    }
    assert current == Locations(seeds, maps[..0]);
    for k := 0 to |maps|
      invariant current == Locations(seeds, maps[..k])
    {
      current := MapSet(current, maps[k]);
      LocationsStep(seeds, maps, k);
    }
    assert maps[..|maps|] == maps;
    if seeds != [] {
      assert MapThrough(maps, seeds[0]) in current;
    }
    if current == {} {
      return Err(EmptyReduce);
    }
    var m := MinOfSet(current);
    forall s | s in seeds ensures m <= MapThrough(maps, s) {
      assert MapThrough(maps, s) in current;
    }
    return Ok(m);
  }
}

