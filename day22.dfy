/** Day 22: bricks of sand cubes fall until they rest on the ground (z = 0 is the ground,
    so the lowest free level is 1) or on another brick; then a brick may be
    disintegrated safely when every brick resting on it also rests on some other brick
    (day22.py). */
module Day22 {
  import opened Common

  type Point = (int, int, int)
  type Block = (Point, Point)
  type Heights = map<(int, int), int>

  // ------------------------------------------------------------ the cubes of a brick

  /** `range(lo, 1 + hi)`. */
  function Span(lo: int, hi: int): (s: seq<int>)
    ensures |s| == if hi < lo then 0 else hi - lo + 1
    decreases hi - lo
  {
    if hi < lo then [] else [lo] + Span(lo + 1, hi)
  }

  /** The range holds exactly the integers from `lo` to `hi`, in increasing order. */
  lemma {:induction false} SpanMember(lo: int, hi: int, x: int)
    ensures x in Span(lo, hi) <==> lo <= x <= hi
    ensures lo <= hi ==> Span(lo, hi)[0] == lo
    decreases hi - lo
  {
    if lo <= hi {
      SpanMember(lo + 1, hi, x);
    }
  }

  /** The points `(x, y)` with `y` running over `ys`, for one `x`. */
  function Column(x: int, ys: seq<int>): (c: seq<(int, int)>)
    ensures |c| == |ys| && forall j :: 0 <= j < |ys| ==> c[j] == (x, ys[j])
  {
    seq(|ys|, j requires 0 <= j < |ys| => (x, ys[j]))
  }

  /** The nested loops `for x in xs: for y in ys: yield (x, y)`. */
  function Grid2(xs: seq<int>, ys: seq<int>): seq<(int, int)>
  {
    if xs == [] then [] else Column(xs[0], ys) + Grid2(xs[1..], ys)
  }

  lemma {:induction false} Grid2Member(xs: seq<int>, ys: seq<int>, p: (int, int))
    ensures p in Grid2(xs, ys) <==> p.0 in xs && p.1 in ys
  {
    if xs != [] {
      Grid2Member(xs[1..], ys, p);
      var c := Column(xs[0], ys);
      if p in c {
        var j :| 0 <= j < |c| && c[j] == p;
        assert ys[j] == p.1;
      }
      if p.0 == xs[0] && p.1 in ys {
        var j :| 0 <= j < |ys| && ys[j] == p.1;
        assert c[j] == p;
      }
      assert xs == [xs[0]] + xs[1..];
    }
  }

  /** The loops of `gen_xyz_points`, one `x` at a time. */
  function Grid3(xs: seq<int>, ys: seq<int>, zs: seq<int>): seq<Point>
  {
    if xs == [] then [] else Layer3(xs[0], Grid2(ys, zs)) + Grid3(xs[1..], ys, zs)
  }

  function Layer3(x: int, yz: seq<(int, int)>): (c: seq<Point>)
    ensures |c| == |yz| && forall j :: 0 <= j < |yz| ==> c[j] == (x, yz[j].0, yz[j].1)
  {
    seq(|yz|, j requires 0 <= j < |yz| => (x, yz[j].0, yz[j].1))
  }

  lemma {:induction false} Grid3Member(xs: seq<int>, ys: seq<int>, zs: seq<int>, p: Point)
    ensures p in Grid3(xs, ys, zs) <==> p.0 in xs && p.1 in ys && p.2 in zs
  {
    Grid2Member(ys, zs, (p.1, p.2));
    if xs != [] {
      Grid3Member(xs[1..], ys, zs, p);
      var yz := Grid2(ys, zs);
      var c := Layer3(xs[0], yz);
      if p in c {
        var j :| 0 <= j < |c| && c[j] == p;
        assert yz[j] == (p.1, p.2);
      }
      if p.0 == xs[0] && (p.1, p.2) in yz {
        var j :| 0 <= j < |yz| && yz[j] == (p.1, p.2);
        assert c[j] == p;
      }
      assert xs == [xs[0]] + xs[1..];
    }
  }

  /** `gen_xy_points`: the footprint of a brick, `x` outermost. */
  function XYPoints(b: Block): seq<(int, int)>
  {
    var (p1, p2) := b;
    Grid2(Span(Min(p1.0, p2.0), Max(p1.0, p2.0)), Span(Min(p1.1, p2.1), Max(p1.1, p2.1)))
  }

  /** `gen_xyz_points`: the cubes of a brick, `x` outermost and `z` innermost. */
  function XYZPoints(b: Block): seq<Point>
  {
    var (p1, p2) := b;
    Grid3(Span(Min(p1.0, p2.0), Max(p1.0, p2.0)), Span(Min(p1.1, p2.1), Max(p1.1, p2.1)),
          Span(Min(p1.2, p2.2), Max(p1.2, p2.2)))
  }

  /** The footprint is the whole rectangle between the two corners, in either order, and
      is never empty. */
  lemma XYPointsCover(b: Block, q: (int, int))
    ensures q in XYPoints(b) <==> Min(b.0.0, b.1.0) <= q.0 <= Max(b.0.0, b.1.0) && Min(b.0.1, b.1.1) <= q.1 <= Max(b.0.1, b.1.1)
    ensures XYPoints(b) == XYPoints((b.1, b.0)) && |XYPoints(b)| > 0
  {
    var (p1, p2) := b;
    var xs, ys := Span(Min(p1.0, p2.0), Max(p1.0, p2.0)), Span(Min(p1.1, p2.1), Max(p1.1, p2.1));
    Grid2Member(xs, ys, q);
    SpanMember(Min(p1.0, p2.0), Max(p1.0, p2.0), q.0);
    SpanMember(Min(p1.1, p2.1), Max(p1.1, p2.1), q.1);
    assert Column(xs[0], ys)[0] == (xs[0], ys[0]);
  }

  /** The cubes are the whole box between the two corners, in either order. */
  lemma XYZPointsCover(b: Block, q: Point)
    ensures q in XYZPoints(b) <==>
              Min(b.0.0, b.1.0) <= q.0 <= Max(b.0.0, b.1.0) && Min(b.0.1, b.1.1) <= q.1 <= Max(b.0.1, b.1.1) &&
              Min(b.0.2, b.1.2) <= q.2 <= Max(b.0.2, b.1.2)
    ensures XYZPoints(b) == XYZPoints((b.1, b.0))
  {
    var (p1, p2) := b;
    Grid3Member(Span(Min(p1.0, p2.0), Max(p1.0, p2.0)), Span(Min(p1.1, p2.1), Max(p1.1, p2.1)),
                Span(Min(p1.2, p2.2), Max(p1.2, p2.2)), q);
    SpanMember(Min(p1.0, p2.0), Max(p1.0, p2.0), q.0);
    SpanMember(Min(p1.1, p2.1), Max(p1.1, p2.1), q.1);
    SpanMember(Min(p1.2, p2.2), Max(p1.2, p2.2), q.2);
  }

  // ------------------------------------------------------------ sorting by lowest z

  /** `min(p[-1] for p in block)`. */
  function MinZ(b: Block): int
  {
    Min(b.0.2, b.1.2)
  }

  function MaxZ(b: Block): int
  {
    Max(b.0.2, b.1.2)
  }

  predicate SortedByZ(bs: seq<Block>)
  {
    forall i, j :: 0 <= i < j < |bs| ==> MinZ(bs[i]) <= MinZ(bs[j])
  }

  /** Put `b` before the first brick that is not lower, keeping equal keys in order. */
  function Insert(b: Block, s: seq<Block>): (r: seq<Block>)
    requires SortedByZ(s)
    ensures SortedByZ(r) && multiset(r) == multiset(s) + multiset{b}
    ensures |r| > 0 && (MinZ(r[0]) == MinZ(b) || (s != [] && r[0] == s[0]))
  {
    if s == [] || MinZ(b) <= MinZ(s[0]) then [b] + s
    else
      var t := Insert(b, s[1..]);
      assert s == [s[0]] + s[1..];
      [s[0]] + t
  }

  /** `sorted(blocks, key=...)`: ascending lowest z, the same bricks. */
  function SortByZ(bs: seq<Block>): (r: seq<Block>)
    ensures SortedByZ(r) && multiset(r) == multiset(bs)
  {
    if bs == [] then []
    else
      assert bs == [bs[0]] + bs[1..];
      Insert(bs[0], SortByZ(bs[1..]))
  }

  // ------------------------------------------------------------ settling

  /** `xy_highest[x, y]` of a `defaultdict(int)`. */
  function Height(m: Heights, q: (int, int)): int
  {
    if q in m then m[q] else 0
  }

  /** The highest level taken over a non-empty footprint. */
  function MaxHeight(m: Heights, pts: seq<(int, int)>): (h: int)
    requires pts != []
    ensures forall i :: 0 <= i < |pts| ==> Height(m, pts[i]) <= h
    ensures exists i :: 0 <= i < |pts| && Height(m, pts[i]) == h
  {
    if |pts| == 1 then Height(m, pts[0])
    else
      var h := MaxHeight(m, pts[..|pts| - 1]);
      assert forall i :: 0 <= i < |pts| - 1 ==> pts[..|pts| - 1][i] == pts[i];
      if Height(m, pts[|pts| - 1]) > h then Height(m, pts[|pts| - 1]) else h
  }

  /** The smallest gap under a brick at level `zmin`, or the failed assertion: a gap
      below zero means the brick already overlaps what has landed. */
  function Fall(m: Heights, zmin: int, pts: seq<(int, int)>): (r: Result<int>)
    ensures r.Err? ==> r.fault == AssertionError
    ensures r.Ok? ==> r.value >= 0
  {
    if pts == [] || zmin - 1 - MaxHeight(m, pts) < 0 then Err(AssertionError) else Ok(zmin - 1 - MaxHeight(m, pts))
  }

  /** Taking one more point of the footprint. */
  lemma MaxHeightSnoc(m: Heights, pts: seq<(int, int)>, k: nat)
    requires k < |pts|
    ensures MaxHeight(m, pts[..k + 1]) == if k == 0 then Height(m, pts[0]) else Max(MaxHeight(m, pts[..k]), Height(m, pts[k]))
  {
    assert pts[..k + 1][..k] == pts[..k];
  }

  /** The gap under the first `k` points of the footprint. */
  function GapOver(m: Heights, zmin: int, pts: seq<(int, int)>, k: nat): int
    requires 0 < k <= |pts|
  {
    zmin - 1 - MaxHeight(m, pts[..k])
  }

  /** The footprint loop's step: the smallest gap so far is the smaller of the
      gap before and the gap under the next point. */
  lemma GapStep(m: Heights, zmin: int, pts: seq<(int, int)>, k: nat)
    requires k < |pts|
    ensures GapOver(m, zmin, pts, k + 1)
      == if k == 0 then zmin - Height(m, pts[0]) - 1
         else Min(GapOver(m, zmin, pts, k), zmin - Height(m, pts[k]) - 1)
  {
    MaxHeightSnoc(m, pts, k);
  }

  /** A point with a negative gap makes the whole footprint fail. */
  lemma GapBelowZero(m: Heights, zmin: int, pts: seq<(int, int)>, k: nat)
    requires k < |pts| && zmin - Height(m, pts[k]) - 1 < 0
    ensures Fall(m, zmin, pts) == Err(AssertionError)
  {
    assert Height(m, pts[k]) <= MaxHeight(m, pts);
  }

  /** The gap under the whole footprint is the fall. */
  lemma GapAll(m: Heights, zmin: int, pts: seq<(int, int)>)
    requires pts != [] && GapOver(m, zmin, pts, |pts|) >= 0
    ensures Fall(m, zmin, pts) == Ok(GapOver(m, zmin, pts, |pts|))
  {
    assert pts[..|pts|] == pts;
  }

  /** The loop over the footprint that finds `smallest_z_gap`. */
  method SmallestGap(m: Heights, zmin: int, pts: seq<(int, int)>) returns (r: Result<int>)
    ensures r == Fall(m, zmin, pts)
  {
    var smallest: Option<int> := None;
    for k := 0 to |pts|
      invariant k == 0 <==> smallest.None?
      invariant k > 0 ==> smallest == Some(GapOver(m, zmin, pts, k)) && smallest.value >= 0
    {
      var fall := zmin - Height(m, pts[k]) - 1;
      if fall < 0 {
        GapBelowZero(m, zmin, pts, k);
        return Err(AssertionError);
      }
      GapStep(m, zmin, pts, k);
      if smallest.None? || fall < smallest.value {
        smallest := Some(fall);
      }
    }
    if smallest.None? {
      return Err(AssertionError);
    }
    GapAll(m, zmin, pts);
    return Ok(smallest.value);
  }

  /** The brick moved down by `g`. */
  function Drop(b: Block, g: int): (r: Block)
    ensures r.0.0 == b.0.0 && r.0.1 == b.0.1 && r.1.0 == b.1.0 && r.1.1 == b.1.1
    ensures r.1.2 - r.0.2 == b.1.2 - b.0.2 && MinZ(r) == MinZ(b) - g && MaxZ(r) == MaxZ(b) - g
  {
    ((b.0.0, b.0.1, b.0.2 - g), (b.1.0, b.1.1, b.1.2 - g))
  }

  /** `m` after `for q in pts: m[q] = v`. */
  function Mark<K>(m: map<K, int>, pts: seq<K>, v: int): map<K, int>
  {
    if pts == [] then m else Mark(m, pts[..|pts| - 1], v)[pts[|pts| - 1] := v]
  }

  /** The loop `for xy in ...: d[xy] = v`. */
  method MarkAll<K>(m: map<K, int>, pts: seq<K>, v: int) returns (r: map<K, int>)
    ensures r == Mark(m, pts, v)
  {
    r := m;
    for k := 0 to |pts|
      invariant r == Mark(m, pts[..k], v)
    {
      assert pts[..k + 1] == pts[..k] + [pts[k]];
      r := r[pts[k] := v];
    }
    assert pts[..|pts|] == pts;
  }

  /** What the settling loop keeps: `xy_highest` and `blocks_settled`. */
  datatype Pile = Pile(heights: Heights, settled: seq<Block>)

  /** One pass of the settling loop on brick `b` with footprint `pts`: the brick falls by
      the smallest gap under its footprint, and its footprint then stands at its top. */
  function Land(st: Pile, b: Block, pts: seq<(int, int)>): (r: Result<Pile>)
    ensures r.Err? ==> r.fault == AssertionError
    ensures r.Ok? ==> |r.value.settled| == |st.settled| + 1
  {
    match Fall(st.heights, MinZ(b), pts)
    case Err(f) => Err(f)
    case Ok(g) =>
      var b' := Drop(b, g);
      Ok(Pile(Mark(st.heights, pts, MaxZ(b')), st.settled + [b']))
  }

  /** The footprint of every brick. */
  function Footprints(bs: seq<Block>): (fs: seq<seq<(int, int)>>)
    ensures |fs| == |bs| && forall i :: 0 <= i < |bs| ==> fs[i] == XYPoints(bs[i])
  {
    seq(|bs|, i requires 0 <= i < |bs| => XYPoints(bs[i]))
  }

  /** Bricks `0 .. k - 1`, with footprints `fs`, after settling, or the failed
      assertion. */
  function SettleAfter(bs: seq<Block>, fs: seq<seq<(int, int)>>, k: nat): (r: Result<Pile>)
    requires k <= |bs| == |fs|
    ensures r.Err? ==> r.fault == AssertionError
    ensures r.Ok? ==> |r.value.settled| == k
  {
    if k == 0 then Ok(Pile(map[], []))
    else
      match SettleAfter(bs, fs, k - 1)
      case Err(f) => Err(f)
      case Ok(st) => Land(st, bs[k - 1], fs[k - 1])
  }

  /** All recorded levels are at least 1. */
  predicate Positive(m: Heights)
  {
    forall q :: q in m ==> m[q] >= 1
  }

  /** A landed brick is appended to the settled ones, having fallen by a non-negative
      gap to no lower than 1. */
  lemma LandFell(st: Pile, b: Block, pts: seq<(int, int)>)
    requires Positive(st.heights) && Land(st, b, pts).Ok?
    ensures var r := Land(st, b, pts).value;
            var b' := r.settled[|st.settled|];
            r.settled == st.settled + [b'] && Fell(b, b')
  {
    LandTop(st, b, pts);
  }

  /** A brick lands with its bottom exactly one above the highest level under its
      footprint. */
  lemma LandTop(st: Pile, b: Block, pts: seq<(int, int)>)
    requires Positive(st.heights) && Land(st, b, pts).Ok?
    ensures pts != []
    ensures var r := Land(st, b, pts).value;
            var b' := r.settled[|st.settled|];
            r.settled == st.settled + [b'] && Fell(b, b') && MinZ(b') == 1 + MaxHeight(st.heights, pts)
  {
    var g := Fall(st.heights, MinZ(b), pts).value;
    assert Height(st.heights, pts[0]) >= 0;
    FellDrop(b, g);
  }

  /** After a landing the footprint stands at the brick's top, every other level is
      left alone, and all levels stay at least 1. */
  lemma LandHeights(st: Pile, b: Block, pts: seq<(int, int)>)
    requires Positive(st.heights) && Land(st, b, pts).Ok?
    ensures var r := Land(st, b, pts).value;
            var top := MaxZ(r.settled[|st.settled|]);
            Positive(r.heights) &&
            (forall q :: q in pts ==> q in r.heights && r.heights[q] == top) &&
            (forall q :: q in st.heights && q !in pts ==> q in r.heights && r.heights[q] == st.heights[q])
  {
    var m := st.heights;
    var g := Fall(m, MinZ(b), pts).value;
    var b' := Drop(b, g);
    var r := Land(st, b, pts).value;
    assert r.heights == Mark(m, pts, MaxZ(b'));
    assert r.settled[|st.settled|] == b';
    forall q | q in m || q in pts
      ensures q in r.heights
      ensures q in pts ==> r.heights[q] == MaxZ(b')
      ensures q !in pts ==> r.heights[q] == m[q]
    {
      MarkAt(m, pts, MaxZ(b'), q);
    }
    forall q | q in r.heights
      ensures r.heights[q] >= 1
    {
      MarkAt(m, pts, MaxZ(b'), q);
    }
  }

  /** `b'` is `b` moved down, by a non-negative gap, to a bottom no lower than 1. */
  predicate Fell(b: Block, b': Block)
  {
    MinZ(b') <= MinZ(b) && b' == Drop(b, MinZ(b) - MinZ(b')) && MinZ(b') >= 1
  }

  lemma FellDrop(b: Block, g: int)
    requires g >= 0 && MinZ(Drop(b, g)) >= 1
    ensures Fell(b, Drop(b, g))
  {
  }

  /** Falling keeps the footprint. */
  lemma XYPointsDrop(b: Block, g: int)
    ensures XYPoints(Drop(b, g)) == XYPoints(b)
  {
  }

  /** Every level recorded while settling is at least 1. */
  lemma {:induction false} HeightsPositive(bs: seq<Block>, fs: seq<seq<(int, int)>>, k: nat)
    requires k <= |bs| == |fs| && SettleAfter(bs, fs, k).Ok?
    ensures Positive(SettleAfter(bs, fs, k).value.heights)
  {
    if k > 0 {
      HeightsPositive(bs, fs, k - 1);
      LandHeights(SettleAfter(bs, fs, k - 1).value, bs[k - 1], fs[k - 1]);
    }
  }

  /** Settled brick `i` is brick `i` of the sorted list, fallen. */
  lemma {:induction false} SettledAt(bs: seq<Block>, fs: seq<seq<(int, int)>>, k: nat, i: nat)
    requires i < k <= |bs| == |fs| && SettleAfter(bs, fs, k).Ok?
    ensures Fell(bs[i], SettleAfter(bs, fs, k).value.settled[i])
  {
    var st := SettleAfter(bs, fs, k - 1).value;
    assert SettleAfter(bs, fs, k) == Land(st, bs[k - 1], fs[k - 1]);
    HeightsPositive(bs, fs, k - 1);
    LandFell(st, bs[k - 1], fs[k - 1]);
    var s := SettleAfter(bs, fs, k).value.settled;
    assert |st.settled| == k - 1;
    if i < k - 1 {
      SettledAt(bs, fs, k - 1, i);
      assert s[i] == st.settled[i];
      assert Fell(bs[i], s[i]);
    } else {
      assert Fell(bs[i], s[k - 1]);
    }
  }

  /** Every settled brick fell from its place in the sorted list, and every level
      recorded is at least 1. */
  lemma SettleShape(bs: seq<Block>, fs: seq<seq<(int, int)>>, k: nat)
    requires k <= |bs| == |fs| && SettleAfter(bs, fs, k).Ok?
    ensures Positive(SettleAfter(bs, fs, k).value.heights)
    ensures forall i :: 0 <= i < k ==> Fell(bs[i], SettleAfter(bs, fs, k).value.settled[i])
  {
    HeightsPositive(bs, fs, k);
    forall i | 0 <= i < k
      ensures Fell(bs[i], SettleAfter(bs, fs, k).value.settled[i])
    {
      SettledAt(bs, fs, k, i);
    }
  }

  // ------------------------------------------------------------ which brick holds which cube

  /** The cubes of every brick. */
  function CubesOf(bs: seq<Block>): (cs: seq<seq<Point>>)
    ensures |cs| == |bs| && forall i :: 0 <= i < |bs| ==> cs[i] == XYZPoints(bs[i])
  {
    seq(|bs|, i requires 0 <= i < |bs| => XYZPoints(bs[i]))
  }

  /** `point_to_block_num` after bricks `0 .. k - 1`, given their cubes. */
  function Occ<K>(cs: seq<seq<K>>, k: nat): map<K, int>
    requires k <= |cs|
  {
    if k == 0 then map[] else Mark(Occ(cs, k - 1), cs[k - 1], k - 1)
  }

  /** A cube is recorded exactly when some brick has it, and it records the last such
      brick. */
  lemma {:induction false} OccOwner<K>(cs: seq<seq<K>>, k: nat, p: K)
    requires k <= |cs|
    ensures p in Occ(cs, k) <==> exists i :: 0 <= i < k && p in cs[i]
    ensures p in Occ(cs, k) ==>
              var i := Occ(cs, k)[p];
              0 <= i < k && p in cs[i] && forall j :: i < j < k ==> p !in cs[j]
  {
    if k > 0 {
      OccOwner(cs, k - 1, p);
      MarkAt(Occ(cs, k - 1), cs[k - 1], k - 1, p);
    }
  }

  /** Every key of `pts` is set to `v`, and every other key is left as it was. */
  lemma {:induction false} MarkAt<K>(m: map<K, int>, pts: seq<K>, v: int, q: K)
    ensures q in Mark(m, pts, v) <==> q in m || q in pts
    ensures q in pts ==> Mark(m, pts, v)[q] == v
    ensures q !in pts && q in m ==> Mark(m, pts, v)[q] == m[q]
  {
    if pts != [] {
      var init := pts[..|pts| - 1];
      MarkAt(m, init, v, q);
      assert pts == init + [pts[|pts| - 1]];
    }
  }

  /** Every recorded brick number names a brick. */
  predicate ValidOcc(occ: map<Point, int>, n: nat)
  {
    forall p :: p in occ ==> 0 <= occ[p] < n
  }

  lemma OccValid(bs: seq<Block>)
    ensures ValidOcc(Occ(CubesOf(bs), |bs|), |bs|)
  {
    var cs := CubesOf(bs);
    forall p | p in Occ(cs, |bs|)
      ensures 0 <= Occ(cs, |bs|)[p] < |bs|
    {
      OccOwner(cs, |bs|, p);
    }
  }

  /** The loops over the bricks and over their cubes. */
  method OccupyCubes<K>(cs: seq<seq<K>>) returns (occ: map<K, int>)
    ensures occ == Occ(cs, |cs|)
  {
    occ := map[];
    for k := 0 to |cs|
      invariant occ == Occ(cs, k)
    {
      occ := MarkAll(occ, cs[k], k);
    }
  }

  // ------------------------------------------------------------ counting safe bricks

  /** `dict.get(p, default)`. */
  function Get(m: map<Point, int>, p: Point, d: int): int
  {
    if p in m then m[p] else d
  }

  function Up(p: Point): Point
  {
    (p.0, p.1, p.2 + 1)
  }

  function Down(p: Point): Point
  {
    (p.0, p.1, p.2 - 1)
  }

  /** The other bricks holding a cube right above one of the first `k` cubes of `cubes`,
      which belong to brick `b`. */
  function AboveUpTo(occ: map<Point, int>, cubes: seq<Point>, b: int, k: nat): (r: set<int>)
    requires k <= |cubes|
    ensures forall a :: a in r <==> a != b && exists i :: 0 <= i < k && Get(occ, Up(cubes[i]), b) == a
  {
    set i | 0 <= i < k && Get(occ, Up(cubes[i]), b) != b :: Get(occ, Up(cubes[i]), b)
  }

  /** `block_nums_above`. */
  function Above(occ: map<Point, int>, cs: seq<seq<Point>>, b: nat): set<int>
    requires b < |cs|
  {
    AboveUpTo(occ, cs[b], b, |cs[b]|)
  }

  /** Brick `a` would rest on nothing but `b` or itself if `b` went away: every cube
      right under it is empty, in `a` or in `b`. */
  predicate Rests(occ: map<Point, int>, cs: seq<seq<Point>>, b: nat, a: nat)
    requires a < |cs|
  {
    forall p :: p in cs[a] ==> Get(occ, Down(p), b) == b || Get(occ, Down(p), b) == a
  }

  /** Brick `b` is safe to disintegrate: nothing above it, or nothing above it rests on
      it alone. */
  predicate Safe(occ: map<Point, int>, cs: seq<seq<Point>>, b: nat)
    requires b < |cs| && ValidOcc(occ, |cs|)
  {
    var above := Above(occ, cs, b);
    above == {} || forall a :: a in above ==> 0 <= a < |cs| && !Rests(occ, cs, b, a)
  }

  lemma AboveValid(occ: map<Point, int>, cs: seq<seq<Point>>, b: nat)
    requires b < |cs| && ValidOcc(occ, |cs|)
    ensures forall a :: a in Above(occ, cs, b) ==> 0 <= a < |cs|
  {
  }

  /** The loop's two ways of counting a brick are `Safe`. */
  lemma SafeFound(occ: map<Point, int>, cs: seq<seq<Point>>, b: nat, found: bool)
    requires b < |cs| && ValidOcc(occ, |cs|) && Above(occ, cs, b) != {}
    requires forall a :: a in Above(occ, cs, b) ==> 0 <= a < |cs|
    requires found <==> exists a :: a in Above(occ, cs, b) && Rests(occ, cs, b, a)
    ensures Safe(occ, cs, b) <==> !found
  {
  }

  /** Which bricks are safe. */
  function SafeFlags(occ: map<Point, int>, cs: seq<seq<Point>>): (f: seq<bool>)
    requires ValidOcc(occ, |cs|)
    ensures |f| == |cs| && forall b :: 0 <= b < |cs| ==> f[b] == Safe(occ, cs, b)
  {
    seq(|cs|, b requires 0 <= b < |cs| => Safe(occ, cs, b))
  }

  /** Which bricks have nothing above them. */
  function FreeFlags(occ: map<Point, int>, cs: seq<seq<Point>>): (f: seq<bool>)
    ensures |f| == |cs| && forall b :: 0 <= b < |cs| ==> f[b] == (Above(occ, cs, b) == {})
  {
    seq(|cs|, b requires 0 <= b < |cs| => Above(occ, cs, b) == {})
  }

  /** The number of set flags among the first `k`. */
  function CountTrue(f: seq<bool>, k: nat): nat
    requires k <= |f|
  {
    if k == 0 then 0 else CountTrue(f, k - 1) + (if f[k - 1] then 1 else 0)
  }

  /** Fewer flags set means a smaller count, and no count exceeds `k`. */
  lemma {:induction false} CountTrueBounds(f: seq<bool>, g: seq<bool>, k: nat)
    requires |f| == |g| && k <= |f| && forall i :: 0 <= i < |f| && g[i] ==> f[i]
    ensures CountTrue(g, k) <= CountTrue(f, k) <= k
  {
    if k > 0 {
      CountTrueBounds(f, g, k - 1);
    }
  }

  /** The loop that collects `block_nums_above`. */
  method CollectAbove(occ: map<Point, int>, cs: seq<seq<Point>>, b: nat) returns (above: set<int>)
    requires b < |cs|
    ensures above == Above(occ, cs, b)
  {
    var cubes := cs[b];
    above := {};
    for k := 0 to |cubes|
      invariant above == AboveUpTo(occ, cubes, b, k)
    {
      var (x, y, z) := cubes[k];
      var a := Get(occ, (x, y, z + 1), b);
      if a != b {
        above := above + {a};
      }
    }
  }

  /** The `all(...)` test of one brick above. */
  method RestsOn(occ: map<Point, int>, cs: seq<seq<Point>>, b: nat, a: nat) returns (r: bool)
    requires a < |cs|
    ensures r == Rests(occ, cs, b, a)
  {
    var cubes := cs[a];
    for k := 0 to |cubes|
      invariant forall i :: 0 <= i < k ==> Get(occ, Down(cubes[i]), b) == b || Get(occ, Down(cubes[i]), b) == a
    {
      var (x, y, z) := cubes[k];
      var below := Get(occ, (x, y, z - 1), b);
      if below != b && below != a {
        assert Down(cubes[k]) == (x, y, z - 1);
        return false;
      }
    }
    return true;
  }

  /** The loop over `block_nums_above` with its `break`: whether some brick above rests
      on `b` alone. */
  method AnyRests(occ: map<Point, int>, cs: seq<seq<Point>>, b: nat, above: set<int>) returns (found: bool)
    requires forall a :: a in above ==> 0 <= a < |cs|
    ensures found <==> exists a :: a in above && Rests(occ, cs, b, a)
  {
    var todo := above;
    ghost var done: set<int> := {};
    while todo != {}
      invariant done + todo == above && done !! todo
      invariant forall a :: a in done ==> !Rests(occ, cs, b, a)
      decreases |todo|
    {
      ghost var someElement := HasElement(todo);
      var a :| a in todo;
      var r := RestsOn(occ, cs, b, a);
      if r {
        return true;
      }
      todo := todo - {a};
      done := done + {a};
    }
    return false;
  }

  /** The body of the counting loop: brick `b` is safe when nothing stands on it or
      everything on it rests on another brick too. */
  method IsSafe(occ: map<Point, int>, cs: seq<seq<Point>>, b: nat) returns (safe: bool)
    requires ValidOcc(occ, |cs|) && b < |cs|
    ensures safe == SafeFlags(occ, cs)[b]
  {
    var above := CollectAbove(occ, cs, b);
    if above == {} {
      return true;
    }
    AboveValid(occ, cs, b);
    var found := AnyRests(occ, cs, b, above);
    SafeFound(occ, cs, b, found);
    return !found;
  }

  /** The counting loop. */
  method CountLoop(occ: map<Point, int>, cs: seq<seq<Point>>) returns (count: nat)
    requires ValidOcc(occ, |cs|)
    ensures count == CountTrue(SafeFlags(occ, cs), |cs|)
  {
    count := 0;
    var b := 0;
    while b < |cs|
      invariant b <= |cs|
      invariant count == CountTrue(SafeFlags(occ, cs), b)
    {
      var safe := IsSafe(occ, cs, b);
      count := count + (if safe then 1 else 0);
      b := b + 1;
    }
  }

  // ------------------------------------------------------------ solve

  /** The settled bricks, or the failed assertion. */
  function Settled(bs: seq<Block>): Result<seq<Block>>
  {
    var sorted := SortByZ(bs);
    match SettleAfter(sorted, Footprints(sorted), |sorted|)
    case Err(f) => Err(f)
    case Ok(st) => Ok(st.settled)
  }

  /** The settling loop. */
  method Settle(bs: seq<Block>) returns (r: Result<seq<Block>>)
    ensures r == match SettleAfter(bs, Footprints(bs), |bs|) case Err(f) => Err(f) case Ok(st) => Ok(st.settled)
  {
    ghost var fs := Footprints(bs);
    var highest: Heights := map[];
    var settled: seq<Block> := [];
    for k := 0 to |bs|
      invariant SettleAfter(bs, fs, k) == Ok(Pile(highest, settled))
    {
      var st := SettleNext(bs, fs, k, highest, settled);
      if st.Err? {
        return Err(AssertionError);
      }
      highest, settled := st.value.heights, st.value.settled;
    }
    return Ok(settled);
  }

  /** One pass of the settling loop, after the first `k` bricks have settled. */
  method SettleNext(bs: seq<Block>, ghost fs: seq<seq<(int, int)>>, k: nat, highest: Heights, settled: seq<Block>)
    returns (st: Result<Pile>)
    requires k < |bs| && fs == Footprints(bs) && SettleAfter(bs, fs, k) == Ok(Pile(highest, settled))
    ensures st.Ok? ==> SettleAfter(bs, fs, k + 1) == st
    ensures st.Err? ==> SettleAfter(bs, fs, |bs|) == Err(AssertionError)
  {
    st := LandOne(highest, settled, bs[k]);
    SettleAfterStep(bs, fs, k, st);
    if st.Err? {
      SettleAfterErr(bs, fs, k + 1);
    }
  }

  /** The body of the settling loop. */
  method LandOne(highest: Heights, settled: seq<Block>, b: Block) returns (r: Result<Pile>)
    ensures r == Land(Pile(highest, settled), b, XYPoints(b))
  {
    var gap := SmallestGap(highest, MinZ(b), XYPoints(b));
    if gap.Err? {
      return Err(AssertionError);
    }
    var b' := if gap.value == 0 then b else Drop(b, gap.value);
    assert b' == Drop(b, gap.value);
    XYPointsDrop(b, gap.value);
    var h := MarkAll(highest, XYPoints(b'), MaxZ(b'));
    return Ok(Pile(h, settled + [b']));
  }

  /** One pass of the settling loop extends the settled prefix by one brick. */
  lemma SettleAfterStep(bs: seq<Block>, fs: seq<seq<(int, int)>>, k: nat, st: Result<Pile>)
    requires k < |bs| && fs == Footprints(bs) && SettleAfter(bs, fs, k).Ok?
    requires st == Land(SettleAfter(bs, fs, k).value, bs[k], XYPoints(bs[k]))
    ensures SettleAfter(bs, fs, k + 1) == st
  {
    assert fs[k] == XYPoints(bs[k]);
  }

  lemma {:induction false} SettleAfterErr(bs: seq<Block>, fs: seq<seq<(int, int)>>, k: nat)
    requires k <= |bs| == |fs| && SettleAfter(bs, fs, k).Err?
    ensures SettleAfter(bs, fs, |bs|).Err?
    decreases |bs| - k
  {
    if k < |bs| {
      SettleAfterErr(bs, fs, k + 1);
    }
  }

  /** The number of settled bricks that are safe to disintegrate. */
  function SafeCount(s: seq<Block>): nat
  {
    var cs := CubesOf(s);
    OccValid(s);
    CountTrue(SafeFlags(Occ(cs, |s|), cs), |s|)
  }

  /** The count is at most the number of bricks, and counts every brick with nothing on
      top of it. */
  lemma CountBounds(s: seq<Block>)
    ensures CountTrue(FreeFlags(Occ(CubesOf(s), |s|), CubesOf(s)), |s|) <= SafeCount(s) <= |s|
  {
    var cs := CubesOf(s);
    var occ := Occ(cs, |s|);
    OccValid(s);
    CountTrueBounds(SafeFlags(occ, cs), FreeFlags(occ, cs), |s|);
  }

  /** `solve`: sort, settle, register the cubes and count the safe bricks. */
  method Solve(blocks: seq<Block>) returns (res: Result<nat>)
    ensures res == match Settled(blocks) case Err(f) => Err(f) case Ok(s) => Ok(SafeCount(s))
  {
    var sorted := SortByZ(blocks);
    var settled := Settle(sorted);
    if settled.Err? {
      return Err(settled.fault);
    }
    var bs := settled.value;
    var cs := CubesOf(bs);
    var occ := OccupyCubes(cs);
    OccValid(bs);
    var count := CountLoop(occ, cs);
    return Ok(count);
  }
}
