/** Day 6: boat races (day06.py). Holding the button for `held` of the race's `total`
    milliseconds gives speed `held` for the remaining time. Part 1 scans hold times, part 2
    binary-searches for the peak and for the two record-crossing hold times. */
module Day06 {
  import opened Common

  /** `_evaluate_race`: the distance covered. */
  function Distance(total: int, held: int): (d: int)
    requires 0 <= held <= total
    ensures d >= 0
    ensures held == 0 || held == total ==> d == 0
  {
    (total - held) * held
  }

  /** Holding for `held` or for `total - held` covers the same distance. */
  lemma DistanceSymmetric(total: int, held: int)
    requires 0 <= held <= total
    ensures Distance(total, held) == Distance(total, total - held)
  {
  }

  lemma MulPos(a: int, b: int)
    requires a > 0 && b > 0
    ensures a * b > 0
  {
  }

  lemma MulNonNeg(a: int, b: int)
    requires a >= 0 && b >= 0
    ensures a * b >= 0
  {
  }

  lemma MulNegPos(a: int, b: int)
    requires a < 0 && b > 0
    ensures a * b < 0
  {
  }

  lemma MulNonPos(a: int, b: int)
    requires a >= 0 && b <= 0
    ensures a * b <= 0
  {
  }

  /** The difference of two distances, factored. */
  lemma DistanceDiff(total: int, a: int, b: int)
    requires 0 <= a <= total && 0 <= b <= total
    ensures Distance(total, b) - Distance(total, a) == (b - a) * (total - a - b)
  {
    assert (total - b) * b - (total - a) * a == (b - a) * (total - a - b);
  }

  /** One more millisecond of holding gains distance exactly while 2*held + 1 < total. */
  lemma Slope(total: int, held: int)
    requires 0 <= held < total
    ensures Distance(total, held) < Distance(total, held + 1) <==> 2 * held + 1 < total
  {
    DistanceDiff(total, held, held + 1);
  }

  /** Holding for half the race (rounded down) is the best, and only its mirror ties it. */
  lemma PeakIsMax(total: int, h: int)
    requires 0 <= h <= total
    ensures Distance(total, h) <= Distance(total, total / 2)
    ensures Distance(total, h) == Distance(total, total / 2) ==> h == total / 2 || h == total - total / 2
  {
    var m := total / 2;
    DistanceDiff(total, h, m);
    if h < m {
      MulPos(m - h, total - h - m);
    } else if h > m + 1 || (h == m + 1 && total == 2 * m) {
      MulPos(h - m, h + m - total);
      assert (m - h) * (total - h - m) == (h - m) * (h + m - total);
    } else if h == m + 1 {
      assert total - h - m == 0;
    }
  }

  /** Between two hold times the distance is at least the smaller of theirs. */
  lemma Concave(total: int, lo: int, h: int, hi: int)
    requires 0 <= lo <= h <= hi <= total
    ensures Distance(total, h) >= Distance(total, lo) || Distance(total, h) >= Distance(total, hi)
  {
    DistanceDiff(total, lo, h);
    DistanceDiff(total, hi, h);
    if total - h - lo >= 0 {
      MulNonNeg(h - lo, total - lo - h);
    } else {
      MulNonNeg(hi - h, hi + h - total);
      assert (h - hi) * (total - hi - h) == (hi - h) * (hi + h - total);
    }
  }

  // ---------------------------------------------------------------------------
  // _find_peak

  /** `_find_peak`: a slope-driven binary search that stops at a window of 1 to 3 hold times,
      then `max` (the first hold time with the largest distance) over that window. */
  method FindPeak(total: int) returns (peak: int)
    requires 0 <= total
    ensures peak == total / 2
    ensures forall h :: 0 <= h <= total ==> Distance(total, h) <= Distance(total, peak)
  {
    var tLeft, tRight := 0, total;
    while 1 + tRight - tLeft >= 4
      invariant 0 <= tLeft <= total / 2 <= tRight <= total
      decreases tRight - tLeft
    {
      var tCenter := (tLeft + tRight) / 2;
      var tPreCenter := tCenter - 1;
      Slope(total, tPreCenter);
      if Distance(total, tPreCenter) < Distance(total, tCenter) {
        tLeft := tCenter;
      } else {
        tRight := tPreCenter;
      }
    }
    assert 0 < 1 + tRight - tLeft < 4;
    peak := tLeft;
    for h := tLeft + 1 to tRight + 1
      invariant tLeft <= peak < h
      invariant forall g :: tLeft <= g < h ==> Distance(total, g) <= Distance(total, peak)
      invariant forall g :: tLeft <= g < peak ==> Distance(total, g) < Distance(total, peak)
    {
      if Distance(total, h) > Distance(total, peak) {
        peak := h;
      }
    }
    PeakIsMax(total, peak);
    forall h | 0 <= h <= total ensures Distance(total, h) <= Distance(total, peak) {
      PeakIsMax(total, h);
    }
  }

  // ---------------------------------------------------------------------------
  // _find_target_distance

  /** The distance strictly rises across the window. */
  ghost predicate RisingOn(total: int, lo: int, hi: int)
    requires 0 <= lo && hi <= total
  {
    forall h, h' :: lo <= h < h' <= hi ==> Distance(total, h) < Distance(total, h')
  }

  /** The distance never rises across the window, and falls strictly after any hold time
      whose distance is not above the target. */
  ghost predicate FallingOn(total: int, lo: int, hi: int, target: int)
    requires 0 <= lo && hi <= total
  {
    forall h, h' :: lo <= h < h' <= hi ==>
      Distance(total, h') <= Distance(total, h) &&
      (Distance(total, h) <= target ==> Distance(total, h') < Distance(total, h))
  }

  lemma RisingBeforePeak(total: int)
    requires 0 <= total
    ensures RisingOn(total, 0, total / 2)
  {
    forall h, h' | 0 <= h < h' <= total / 2 ensures Distance(total, h) < Distance(total, h') {
      DistanceDiff(total, h, h');
      MulPos(h' - h, total - h - h');
    }
  }

  lemma FallingAfterPeak(total: int, target: int)
    requires 0 <= total && target < Distance(total, total / 2)
    ensures FallingOn(total, total / 2, total, target)
  {
    var m := total / 2;
    forall h, h' | m <= h < h' <= total
      ensures Distance(total, h') <= Distance(total, h)
      ensures Distance(total, h) <= target ==> Distance(total, h') < Distance(total, h)
    {
      DistanceDiff(total, h, h');
      MulNonPos(h' - h, total - h - h');
      if h > m {
        MulNegPos(total - h - h', h' - h);
      }
    }
  }

  /** `_find_target_distance`: binary search for the hold time whose distance meets the
      target, from below (`reverse` false: distances rising) or from above (`reverse` true:
      distances falling). */
  method FindTargetDistance(tLeft0: int, tRight0: int, total: int, target: int, reverse: bool)
    returns (r: Result<int>)
    requires 0 <= tLeft0 <= tRight0 <= total
    ensures r.Err? ==> r.fault == ValueError
    ensures (!reverse && Distance(total, tRight0) < target) || (reverse && target > Distance(total, tLeft0))
            ==> r.Err?
    ensures r.Ok? ==> tLeft0 <= r.value <= tRight0 && Distance(total, r.value) >= target
    ensures !reverse && RisingOn(total, tLeft0, tRight0) && Distance(total, tRight0) >= target ==>
              r.Ok? && forall h :: tLeft0 <= h < r.value ==> Distance(total, h) < target
    ensures reverse && FallingOn(total, tLeft0, tRight0, target) && Distance(total, tLeft0) >= target ==>
              r.Ok? && forall h :: r.value < h <= tRight0 ==> Distance(total, h) < target
  {
    if (!reverse && Distance(total, tRight0) < target) || (reverse && target > Distance(total, tLeft0)) {
      return Err(ValueError);  // the target value is out of range
    }
    var tLeft, tRight := tLeft0, tRight0;
    while true
      invariant tLeft0 <= tLeft <= tRight <= tRight0
      invariant !reverse ==> (tLeft == tLeft0 || Distance(total, tLeft) < target)
      invariant !reverse ==> Distance(total, tRight) >= target
      invariant reverse ==> (tRight == tRight0 || Distance(total, tRight) < target)
      invariant reverse ==> Distance(total, tLeft) >= target
      decreases tRight - tLeft
    {
      var dLeft := Distance(total, tLeft);
      if dLeft == target || (!reverse && target < dLeft) {
        return Ok(tLeft);
      }
      var dRight := Distance(total, tRight);
      if dRight == target || (reverse && dRight > target) {
        return Ok(tRight);
      }
      if dLeft == dRight || (!reverse && dLeft > dRight) || (reverse && dLeft < dRight) {
        return Err(ValueError);  // the values are not monotonic in the given direction
      }
      if tLeft + 1 == tRight {
        if !reverse {
          return Ok(tRight);
        } else {
          return Ok(tLeft);
        }
      }
      var tCenter := (tLeft + tRight) / 2;
      var dCenter := Distance(total, tCenter);
      if dCenter == target {
        return Ok(tCenter);
      }
      // the source's final `else: raise RuntimeError` cannot be reached: dCenter != target
      if (!reverse && target < dCenter) || (reverse && target > dCenter) {
        tRight := tCenter;
      } else {
        tLeft := tCenter;
      }
    }
  }

  // ---------------------------------------------------------------------------
  // counting winners

  /** The number of hold times in [lo, hi) that beat the record. */
  function Wins(total: int, record: int, lo: int, hi: int): (n: nat)
    requires 0 <= lo && hi <= total + 1
    decreases hi - lo
  {
    if hi <= lo then 0 else Wins(total, record, lo, hi - 1) + (if Distance(total, hi - 1) > record then 1 else 0)
  }

  lemma {:induction false} WinsNone(total: int, record: int, lo: int, hi: int)
    requires 0 <= lo && hi <= total + 1
    requires forall h :: lo <= h < hi ==> Distance(total, h) <= record
    ensures Wins(total, record, lo, hi) == 0
    decreases hi - lo
  {
    if lo < hi {
      WinsNone(total, record, lo, hi - 1);
    }
  }

  lemma {:induction false} WinsAll(total: int, record: int, lo: int, hi: int)
    requires 0 <= lo <= hi <= total + 1
    requires forall h :: lo <= h < hi ==> Distance(total, h) > record
    ensures Wins(total, record, lo, hi) == hi - lo
    decreases hi - lo
  {
    if lo < hi {
      WinsAll(total, record, lo, hi - 1);
    }
  }

  lemma {:induction false} WinsSplit(total: int, record: int, lo: int, mid: int, hi: int)
    requires 0 <= lo <= mid <= hi <= total + 1
    ensures Wins(total, record, lo, hi) == Wins(total, record, lo, mid) + Wins(total, record, mid, hi)
    decreases hi - mid
  {
    if mid < hi {
      WinsSplit(total, record, lo, mid, hi - 1);
    }
  }

  /** The hold times [lo, hi] all beat the record and none outside them does. */
  lemma WinsWindow(total: int, record: int, lo: int, hi: int)
    requires 0 <= lo <= hi <= total
    requires forall h :: 0 <= h < lo ==> Distance(total, h) <= record
    requires forall h :: lo <= h <= hi ==> Distance(total, h) > record
    requires forall h :: hi < h <= total ==> Distance(total, h) <= record
    ensures Wins(total, record, 0, total + 1) == 1 + hi - lo
  {
    WinsSplit(total, record, 0, lo, total + 1);
    WinsSplit(total, record, lo, hi + 1, total + 1);
    WinsNone(total, record, 0, lo);
    WinsAll(total, record, lo, hi + 1);
    WinsNone(total, record, hi + 1, total + 1);
  }

  /** `_count_ways_to_win`: the number of hold times in [0, total] that beat the record. */
  method CountWaysToWin(total: int, record: int) returns (n: nat)
    requires 0 <= total
    ensures n == Wins(total, record, 0, total + 1)
  {
    var tBest := FindPeak(total);
    if Distance(total, tBest) <= record {
      WinsNone(total, record, 0, total + 1);
      return 0;
    }
    RisingBeforePeak(total);
    FallingAfterPeak(total, record);
    var lowR := FindTargetDistance(0, tBest, total, record, false);
    var tLow := lowR.value;
    assert Distance(total, tLow) >= record;
    var highR := FindTargetDistance(tBest, total, total, record, true);
    var tHigh := highR.value;
    assert Distance(total, tHigh) >= record;
    forall h | tLow <= h <= tHigh ensures Distance(total, h) >= record {
      Concave(total, tLow, h, tHigh);
    }
    tLow := TrimLow(total, record, tLow, tHigh, tBest);
    tHigh := TrimHigh(total, record, tLow, tHigh, tBest);
    if tLow == tHigh {
      // one singular hold time: `int(distance > record)`
      var won: int := if Distance(total, tLow) > record then 1 else 0;
      WinsWindow(total, record, tLow, tHigh);
      return won;
    }
    forall h | tLow <= h <= tHigh ensures Distance(total, h) > record {
      Concave(total, tLow, h, tHigh);
    }
    WinsWindow(total, record, tLow, tHigh);
    return 1 + tHigh - tLow;
  }

  /** The first trimming loop of `_count_ways_to_win`: the low end moves right past
      hold times that only tie the record. */
  method TrimLow(total: int, record: int, tLow0: int, tHigh: int, ghost tBest: int) returns (tLow: int)
    requires 0 <= tLow0 <= tBest <= tHigh <= total && Distance(total, tBest) > record
    requires forall h :: 0 <= h < tLow0 ==> Distance(total, h) <= record
    requires forall h :: tLow0 <= h <= tHigh ==> Distance(total, h) >= record
    ensures tLow0 <= tLow <= tBest
    ensures forall h :: 0 <= h < tLow ==> Distance(total, h) <= record
    ensures tLow < tHigh ==> Distance(total, tLow) > record
  {
    tLow := tLow0;
    while Distance(total, tLow) == record && tLow < tHigh
      invariant tLow0 <= tLow <= tBest
      invariant forall h :: 0 <= h < tLow ==> Distance(total, h) <= record
      decreases tHigh - tLow
    {
      tLow := tLow + 1;
    }
  }

  /** The second trimming loop: the high end moves left past hold times that only
      tie the record. */
  method TrimHigh(total: int, record: int, tLow: int, tHigh0: int, ghost tBest: int) returns (tHigh: int)
    requires 0 <= tLow <= tBest <= tHigh0 <= total && Distance(total, tBest) > record
    requires forall h :: tHigh0 < h <= total ==> Distance(total, h) <= record
    requires forall h :: tLow <= h <= tHigh0 ==> Distance(total, h) >= record
    ensures tBest <= tHigh <= tHigh0
    ensures forall h :: tHigh < h <= total ==> Distance(total, h) <= record
    ensures tLow < tHigh ==> Distance(total, tHigh) > record
  {
    tHigh := tHigh0;
    while Distance(total, tHigh) == record && tLow < tHigh
      invariant tBest <= tHigh <= tHigh0
      invariant forall h :: tHigh < h <= total ==> Distance(total, h) <= record
      decreases tHigh - tLow
    {
      tHigh := tHigh - 1;
    }
  }

  // ---------------------------------------------------------------------------
  // solve1

  datatype Race = Race(time: nat, record: int)

  /** The inner scans of `solve1` for one race: the first winning hold time counting up from
      1, then the first counting down from `time - 1`; 0 if no hold time in 1..time-1 wins. */
  method WaysToBeat(race: Race) returns (n: nat)
    ensures n == Wins(race.time, race.record, 1, race.time)
  {
    var total, record := race.time, race.record;
    if total < 1 {
      return 0;
    }
    var minHold := 1;
    while minHold < total && Distance(total, minHold) <= record
      invariant 1 <= minHold <= total
      invariant forall h :: 1 <= h < minHold ==> Distance(total, h) <= record
    {
      minHold := minHold + 1;
    }
    if minHold == total {
      // not possible to beat the record
      WinsNone(total, record, 1, total);
      return 0;
    }
    var maxHold := total - 1;
    while maxHold > minHold && Distance(total, maxHold) <= record
      invariant minHold <= maxHold <= total - 1
      invariant forall h :: maxHold < h < total ==> Distance(total, h) <= record
    {
      maxHold := maxHold - 1;
    }
    // either a second winner was found, or `minHold` is the only one
    forall h | minHold <= h <= maxHold ensures Distance(total, h) > record {
      Concave(total, minHold, h, maxHold);
    }
    WinsSplit(total, record, 1, minHold, total);
    WinsSplit(total, record, minHold, maxHold + 1, total);
    WinsNone(total, record, 1, minHold);
    WinsAll(total, record, minHold, maxHold + 1);
    WinsNone(total, record, maxHold + 1, total);
    n := 1 + maxHold - minHold;
  }

  /** For a non-negative record the two counts agree: holding for 0 or for the whole race
      covers no distance. */
  lemma ScanMatchesSearch(total: nat, record: int)
    requires record >= 0
    ensures Wins(total, record, 1, total) == Wins(total, record, 0, total + 1)
  {
    if total >= 1 {
      WinsSplit(total, record, 0, 1, total + 1);
      WinsSplit(total, record, 1, total, total + 1);
      assert Wins(total, record, 0, 1) == 0;
      assert Wins(total, record, total, total + 1) == 0;
    } else {
      assert Wins(total, record, 0, total + 1) == 0;
    }
  }

  function Product(xs: seq<nat>): nat
  {
    if xs == [] then 1 else Product(xs[..|xs| - 1]) * xs[|xs| - 1]
  }

  /** The number of winning hold times in 1..time-1 of each race. */
  function RaceWins(races: seq<Race>): (ws: seq<nat>)
    ensures |ws| == |races|
    ensures forall i :: 0 <= i < |races| ==> ws[i] == Wins(races[i].time, races[i].record, 1, races[i].time)
  {
    if races == [] then []
    else
      var last := races[|races| - 1];
      RaceWins(races[..|races| - 1]) + [Wins(last.time, last.record, 1, last.time)]
  }

  /** `solve1`: the product over the races of the number of ways to beat each record. */
  method Solve1(races: seq<Race>) returns (answer: nat)
    ensures answer == Product(RaceWins(races))
  {
    var ways: seq<nat> := [];
    for i := 0 to |races|
      invariant ways == RaceWins(races[..i])
    {
      var n := WaysToBeat(races[i]);
      assert races[..i + 1][..i] == races[..i];
      ways := ways + [n];
    }
    assert races[..|races|] == races;
    answer := Product(ways);
  }

  // ---------------------------------------------------------------------------
  // solve2

  /** `"".join(map(str, xs))`. */
  function JoinDecimal(xs: seq<nat>): (s: string)
    ensures AllDigits(s)
  {
    if xs == [] then [] else JoinDecimal(xs[..|xs| - 1]) + DecimalString(xs[|xs| - 1])
  }

  /** Joining digits is shifting left and adding. */
  lemma JoinDecimalSnoc(xs: seq<nat>, x: nat)
    ensures Decimal(JoinDecimal(xs + [x])) == Decimal(JoinDecimal(xs)) * Pow10(|DecimalString(x)|) + x
  {
    assert (xs + [x])[..|xs|] == xs;
    DecimalConcat(JoinDecimal(xs), DecimalString(x));
  }

  /** `solve2`: one race whose time and record are the digits of all races run together;
      `int("")` raises when there are no races. */
  method Solve2(times: seq<nat>, records: seq<nat>) returns (r: Result<nat>)
    ensures times == [] || records == [] ==> r == Err(ValueError)
    ensures times != [] && records != [] ==>
              r == Ok(Wins(Decimal(JoinDecimal(times)), Decimal(JoinDecimal(records)), 0, Decimal(JoinDecimal(times)) + 1))
  {
    if times == [] || records == [] {
      return Err(ValueError);
    }
    var total := Decimal(JoinDecimal(times));
    var record := Decimal(JoinDecimal(records));
    var n := CountWaysToWin(total, record);
    return Ok(n);
  }
}
