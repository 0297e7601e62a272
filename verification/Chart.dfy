/** The pure part of the trend chart (web/src/chartScale.js:17-64). */
module Chart {
  import opened Wrappers

  // ---- thinning out ----

  function Ceil(n: int, d: int): int
    requires d > 0
  {
    (n + d - 1) / d
  }

  predicate StrictlyIncreasing(idx: seq<int>) {
    forall i :: 0 < i < |idx| ==> idx[i - 1] < idx[i]
  }

  lemma MulMono(a: int, b: int, s: int)
    requires s > 0 && a >= b
    ensures a * s >= b * s
  {
  }

  lemma MulLess(a: int, b: int, s: int)
    requires s > 0 && a * s < b * s
    ensures a < b
  {
    if a >= b { MulMono(a, b, s); }
  }

  lemma CeilCovers(n: int, d: int)
    requires n > 0 && d > 0
    ensures Ceil(n, d) >= 1 && Ceil(n, d) * d >= n
  {
    var q := Ceil(n, d);
    assert n + d - 1 == q * d + (n + d - 1) % d;
  }

  /** The stride is the least that covers n in d steps. */
  lemma CeilIsLeast(n: int, d: int, s: int)
    requires n > 0 && d > 0
    ensures s >= Ceil(n, d) <==> s * d >= n
  {
    CeilCovers(n, d);
    if s >= Ceil(n, d) {
      MulMono(s, Ceil(n, d), d);
    } else {
      MulMono(Ceil(n, d) - 1, s, d);
    }
  }

  /** The multiples of the stride below n. */
  predicate IsThinned(idx: seq<int>, n: int, stride: int) {
    idx != [] && (|idx| - 1) * stride < n <= |idx| * stride && forall k :: 0 <= k < |idx| ==> idx[k] == k * stride
  }

  method Multiples(n: int, stride: int) returns (idx: seq<int>)
    requires n > 0 && stride > 0
    ensures IsThinned(idx, n, stride)
  {
    idx := [];
    var i := 0;
    while i < n
      invariant i == |idx| * stride && (|idx| - 1) * stride < n
      invariant forall k :: 0 <= k < |idx| ==> idx[k] == k * stride
      decreases n - i
    {
      idx := idx + [i];
      i := i + stride;
    }
  }

  lemma ThinnedFacts(idx: seq<int>, n: int, stride: int, maxPoints: int)
    requires IsThinned(idx, n, stride) && stride > 0 && n <= maxPoints * stride
    ensures idx[0] == 0 && n - stride <= idx[|idx| - 1] < n && |idx| <= maxPoints
    ensures forall i :: 0 < i < |idx| ==> idx[i] - idx[i - 1] == stride
  {
    MulLess(|idx| - 1, maxPoints, stride);
    forall i | 0 < i < |idx| ensures idx[i] - idx[i - 1] == stride {
      assert i * stride - (i - 1) * stride == stride;
    }
  }

  method Downsample(n: int, maxPoints: int) returns (idx: seq<int>)
    requires maxPoints >= 1
    ensures n <= 0 ==> idx == []
    ensures 0 < n <= maxPoints ==> |idx| == n && forall i :: 0 <= i < n ==> idx[i] == i
    ensures n > 0 ==> idx != [] && idx[0] == 0 && idx[|idx| - 1] == n - 1
    ensures StrictlyIncreasing(idx) && |idx| <= maxPoints + 1
    ensures n > 0 ==> forall i :: 0 < i < |idx| ==> idx[i] - idx[i - 1] <= Ceil(n, maxPoints)
    ensures n > maxPoints ==> forall i :: 0 <= i < |idx| - 1 ==> idx[i] == i * Ceil(n, maxPoints)
  {
    if n <= 0 {
      return [];
    }
    CeilCovers(n, maxPoints);
    if n <= maxPoints {
      return seq(n, i => i);
    }
    var stride := Ceil(n, maxPoints);
    idx := Multiples(n, stride);
    ThinnedFacts(idx, n, stride, maxPoints);
    if idx[|idx| - 1] != n - 1 {
      idx := idx + [n - 1];
    }
  }

  // ---- segments ----

  type Sample = Option<real> // None: no sample, or not a finite number

  function At(data: seq<Sample>, i: int): Sample {
    if 0 <= i < |data| then data[i] else None
  }

  predicate Finite(data: seq<Sample>, idx: seq<int>, k: int)
    requires 0 <= k < |idx|
  {
    At(data, idx[k]).Some?
  }

  function Clamp(v: real, max: real): (r: real)
    ensures 0.0 <= r && (0.0 <= max ==> r <= max)
    ensures 0.0 <= v <= max ==> r == v
  {
    var low := if v < max then v else max;
    if low < 0.0 then 0.0 else low
  }

  /** A place on the horizontal axis and the clamped value drawn there. */
  datatype Point = Point(k: int, value: real)

  predicate AllFinite(data: seq<Sample>, idx: seq<int>, a: int, b: int)
    requires 0 <= a <= b <= |idx|
  {
    forall k :: a <= k < b ==> Finite(data, idx, k)
  }

  function PointAt(data: seq<Sample>, idx: seq<int>, max: real, k: int): Point
    requires 0 <= k < |idx| && Finite(data, idx, k)
  {
    Point(k, Clamp(At(data, idx[k]).value, max))
  }

  function Points(data: seq<Sample>, idx: seq<int>, max: real, a: int, b: int): (r: seq<Point>)
    requires 0 <= a <= b <= |idx| && AllFinite(data, idx, a, b)
    ensures |r| == b - a && forall j :: 0 <= j < b - a ==> Finite(data, idx, a + j) && r[j] == PointAt(data, idx, max, a + j)
    decreases b
  {
    if a == b then [] else Points(data, idx, max, a, b - 1) + [PointAt(data, idx, max, b - 1)]
  }

  /** The samples from a up to b are finite, and the stretch cannot be made longer at either end. */
  predicate MaximalRun(data: seq<Sample>, idx: seq<int>, a: int, b: int) {
    && 0 <= a < b <= |idx| && AllFinite(data, idx, a, b)
    && (a > 0 ==> !Finite(data, idx, a - 1))
    && (b < |idx| ==> !Finite(data, idx, b))
  }

  datatype Run = Run(a: int, b: int)

  /** Every maximal run of at least two samples that ends before `end`, and nothing else. */
  ghost predicate RunsBefore(data: seq<Sample>, idx: seq<int>, runs: seq<Run>, end: int) {
    forall a, b :: Run(a, b) in runs <==> MaximalRun(data, idx, a, b) && b - a >= 2 && b < end
  }

  predicate InOrder(runs: seq<Run>) {
    forall i, j :: 0 <= i < j < |runs| ==> runs[i].b < runs[j].a
  }

  /** The segments are drawn from these runs, one each. */
  predicate Drawn(data: seq<Sample>, idx: seq<int>, max: real, runs: seq<Run>, segments: seq<seq<Point>>) {
    && |segments| == |runs|
    && forall i :: 0 <= i < |runs| ==>
         && MaximalRun(data, idx, runs[i].a, runs[i].b)
         && segments[i] == Points(data, idx, max, runs[i].a, runs[i].b)
  }

  /** Closing the run that started at `start` when it ends at `k`. */
  lemma RunClosed(data: seq<Sample>, idx: seq<int>, runs: seq<Run>, start: int, k: int)
    requires 0 <= start <= k <= |idx| && AllFinite(data, idx, start, k)
    requires start > 0 ==> !Finite(data, idx, start - 1)
    requires k < |idx| ==> !Finite(data, idx, k)
    requires RunsBefore(data, idx, runs, start)
    ensures RunsBefore(data, idx, if k - start > 1 then runs + [Run(start, k)] else runs, k + 1)
  {
  }

  lemma OrderKept(data: seq<Sample>, idx: seq<int>, runs: seq<Run>, start: int, k: int)
    requires RunsBefore(data, idx, runs, start) && InOrder(runs)
    ensures InOrder(runs + [Run(start, k)])
  {
    forall i | 0 <= i < |runs| ensures runs[i].b < start {
      assert Run(runs[i].a, runs[i].b) in runs;
    }
  }

  /** The segments and runs once everything that ends before `end` is done. */
  ghost predicate Built(data: seq<Sample>, idx: seq<int>, max: real, runs: seq<Run>, segments: seq<seq<Point>>, end: int) {
    RunsBefore(data, idx, runs, end) && InOrder(runs) && Drawn(data, idx, max, runs, segments)
  }

  /** Exactly the maximal runs of at least two finite samples, in order. */
  ghost predicate AreSegments(data: seq<Sample>, idx: seq<int>, max: real, segments: seq<seq<Point>>) {
    exists runs :: AllBuilt(data, idx, max, runs, segments)
  }

  ghost predicate AllBuilt(data: seq<Sample>, idx: seq<int>, max: real, runs: seq<Run>, segments: seq<seq<Point>>) {
    Built(data, idx, max, runs, segments, |idx| + 1)
  }

  /** The stretch of finite samples that is still open at `k`. */
  predicate Open(data: seq<Sample>, idx: seq<int>, start: int, k: int) {
    0 <= start <= k <= |idx| && AllFinite(data, idx, start, k) && (start > 0 ==> !Finite(data, idx, start - 1))
  }

  lemma Closed(data: seq<Sample>, idx: seq<int>, max: real, runs: seq<Run>, segments: seq<seq<Point>>, start: int, k: int)
    requires Built(data, idx, max, runs, segments, start) && Open(data, idx, start, k)
    requires k < |idx| ==> !Finite(data, idx, k)
    ensures k - start > 1 ==> Built(data, idx, max, runs + [Run(start, k)],
                                    segments + [Points(data, idx, max, start, k)], k + 1)
    ensures k - start <= 1 ==> Built(data, idx, max, runs, segments, k + 1)
  {
    RunClosed(data, idx, runs, start, k);
    if k - start > 1 { OrderKept(data, idx, runs, start, k); }
  }

  method BuildSegments(data: seq<Sample>, idx: seq<int>, max: real) returns (segments: seq<seq<Point>>)
    ensures AreSegments(data, idx, max, segments)
  {
    segments := [];
    var cur: seq<Point> := [];
    ghost var runs: seq<Run> := [];
    ghost var start := 0;
    for k := 0 to |idx|
      invariant Open(data, idx, start, k) && cur == Points(data, idx, max, start, k)
      invariant Built(data, idx, max, runs, segments, start)
    {
      var v := At(data, idx[k]);
      if v.None? {
        Closed(data, idx, max, runs, segments, start, k);
        if |cur| > 1 {
          segments := segments + [cur];
          runs := runs + [Run(start, k)];
        }
        cur := [];
        start := k + 1;
        continue;
      }
      cur := cur + [Point(k, Clamp(v.value, max))];
    }
    Closed(data, idx, max, runs, segments, start, |idx|);
    if |cur| > 1 {
      segments := segments + [cur];
      runs := runs + [Run(start, |idx|)];
    }
    assert AllBuilt(data, idx, max, runs, segments);
  }

  lemma {:induction false} SameRuns(runs: seq<Run>, runs': seq<Run>)
    requires InOrder(runs) && InOrder(runs') && forall r :: r in runs <==> r in runs'
    requires forall r: Run :: r in runs ==> r.a <= r.b
    ensures runs == runs'
  {
    if runs != [] {
      assert runs[0] in runs';
      assert runs'[0] in runs;
      TailRuns(runs);
      TailRuns(runs');
      SameRuns(runs[1..], runs'[1..]);
      assert runs == [runs[0]] + runs[1..] && runs' == [runs'[0]] + runs'[1..];
    } else if runs' != [] {
      SomeRun(runs', runs);
    }
  }

  lemma SomeRun(runs: seq<Run>, more: seq<Run>)
    requires runs != [] && forall r :: r in runs ==> r in more
    ensures more != []
  {
    assert runs[0] in more;
  }

  lemma TailRuns(runs: seq<Run>)
    requires runs != [] && InOrder(runs) && forall r: Run :: r in runs ==> r.a <= r.b
    ensures InOrder(runs[1..]) && forall r :: r in runs[1..] <==> r in runs && r != runs[0]
  {
    assert runs == [runs[0]] + runs[1..];
    assert forall i :: 0 < i < |runs| ==> runs[i] in runs;
  }

  /** The samples determine the segments. */
  lemma SegmentsAreUnique(data: seq<Sample>, idx: seq<int>, max: real, segments: seq<seq<Point>>, segments': seq<seq<Point>>)
    requires AreSegments(data, idx, max, segments) && AreSegments(data, idx, max, segments')
    ensures segments == segments'
  {
    var runs: seq<Run> :| AllBuilt(data, idx, max, runs, segments);
    var runs' :| AllBuilt(data, idx, max, runs', segments');
    forall r: Run ensures r in runs <==> r in runs' {
      assert Run(r.a, r.b) == r;
    }
    forall r: Run | r in runs ensures r.a <= r.b {
      assert Run(r.a, r.b) in runs;
    }
    SameRuns(runs, runs');
  }

  // ---- the segments, point by point ----

  /** There is a sample to show at this place. */
  predicate Shown(data: seq<Sample>, idx: seq<int>, k: int) {
    0 <= k < |idx| && 0 <= idx[k] < |data| && data[idx[k]].Some?
  }

  /** Any stretch of finite samples lies in a maximal run. */
  lemma {:induction false} RunAround(data: seq<Sample>, idx: seq<int>, k: int, m: int) returns (a: int, b: int)
    requires 0 <= k < m <= |idx| && AllFinite(data, idx, k, m)
    ensures MaximalRun(data, idx, a, b) && a <= k && m <= b
    decreases k + |idx| - m
  {
    if k > 0 && Finite(data, idx, k - 1) {
      a, b := RunAround(data, idx, k - 1, m);
    } else if m < |idx| && Finite(data, idx, m) {
      a, b := RunAround(data, idx, k, m + 1);
    } else {
      a, b := k, m;
    }
  }

  /** Segment `i` has a point at this place. */
  predicate Drawing(segments: seq<seq<Point>>, i: nat, k: int) {
    i < |segments| && exists j :: 0 <= j < |segments[i]| && segments[i][j].k == k
  }

  lemma DrawnRun(data: seq<Sample>, idx: seq<int>, max: real, runs: seq<Run>, segments: seq<seq<Point>>, i: nat, k: int)
    requires Drawn(data, idx, max, runs, segments) && i < |runs| && runs[i].a <= k < runs[i].b
    ensures Drawing(segments, i, k)
  {
    assert segments[i][k - runs[i].a].k == k;
  }

  /** A finite sample with a finite neighbour is drawn, and both are in one segment. */
  lemma NeighboursAreJoined(data: seq<Sample>, idx: seq<int>, max: real, segments: seq<seq<Point>>, k: int)
      returns (i: nat)
    requires AreSegments(data, idx, max, segments) && Shown(data, idx, k) && Shown(data, idx, k + 1)
    ensures Drawing(segments, i, k) && Drawing(segments, i, k + 1)
  {
    var runs: seq<Run> :| AllBuilt(data, idx, max, runs, segments);
    var a, b := RunAround(data, idx, k, k + 2);
    assert Run(a, b) in runs;
    i :| 0 <= i < |runs| && runs[i] == Run(a, b);
    DrawnRun(data, idx, max, runs, segments, i, k);
    DrawnRun(data, idx, max, runs, segments, i, k + 1);
  }

  /** Held between 0 and the maximum. */
  function Held(v: real, max: real): real {
    if v < 0.0 || max < 0.0 then 0.0 else if v > max then max else v
  }

  /** The points at the places from a up to b, each a sample to show, and no further one before or after. */
  predicate Shows(data: seq<Sample>, idx: seq<int>, max: real, points: seq<Point>, a: int, b: int) {
    && |points| == b - a && a + 2 <= b && !Shown(data, idx, a - 1) && !Shown(data, idx, b)
    && forall j :: 0 <= j < |points| ==> ShowsAt(data, idx, max, points[j], a + j)
  }

  predicate ShowsAt(data: seq<Sample>, idx: seq<int>, max: real, p: Point, k: int) {
    Shown(data, idx, k) && p == Point(k, Held(data[idx[k]].value, max))
  }

  lemma PointsShow(data: seq<Sample>, idx: seq<int>, max: real, a: int, b: int)
    requires MaximalRun(data, idx, a, b) && b - a >= 2
    ensures Shows(data, idx, max, Points(data, idx, max, a, b), a, b)
  {
  }

  lemma DrawnShows(data: seq<Sample>, idx: seq<int>, max: real, runs: seq<Run>, segments: seq<seq<Point>>, i: nat)
    requires AllBuilt(data, idx, max, runs, segments) && i < |segments|
    ensures |runs| == |segments| && Shows(data, idx, max, segments[i], runs[i].a, runs[i].b)
  {
    assert Run(runs[i].a, runs[i].b) in runs;
    PointsShow(data, idx, max, runs[i].a, runs[i].b);
  }

  ghost predicate AllShow(data: seq<Sample>, idx: seq<int>, max: real, runs: seq<Run>, segments: seq<seq<Point>>) {
    |runs| == |segments| && forall i :: 0 <= i < |segments| ==> Shows(data, idx, max, segments[i], runs[i].a, runs[i].b)
  }

  /**
    And only those: each segment is a stretch of at least two samples to show that
    goes on at neither end, and a later one begins past a gap after an earlier one.
  */
  lemma SegmentsShow(data: seq<Sample>, idx: seq<int>, max: real, segments: seq<seq<Point>>) returns (runs: seq<Run>)
    requires AreSegments(data, idx, max, segments)
    ensures AllShow(data, idx, max, runs, segments)
    ensures forall i, j :: 0 <= i < j < |runs| ==> runs[i].b < runs[j].a
  {
    runs :| AllBuilt(data, idx, max, runs, segments);
    forall i | 0 <= i < |segments| ensures Shows(data, idx, max, segments[i], runs[i].a, runs[i].b) {
      DrawnShows(data, idx, max, runs, segments, i);
    }
  }

  // ---- hovering ----

  function Abs(x: real): real { if x < 0.0 then -x else x }

  function Distance(x: real, k: int): real { Abs(x - k as real) }

  function RoundClamp(x: real, count: int): (k: int)
    requires count > 0
    ensures 0 <= k < count
  {
    var k := (x + 0.5).Floor;
    if k < 0 then 0 else if k > count - 1 then count - 1 else k
  }

  lemma RoundIsNearest(x: real, count: int, j: int)
    requires 0 <= j < count
    ensures Distance(x, RoundClamp(x, count)) <= Distance(x, j)
  {
    var k := (x + 0.5).Floor;
    assert k as real <= x + 0.5 < k as real + 1.0;
    if j < k {
      assert j as real <= k as real - 1.0;
    } else if j > k {
      assert j as real >= k as real + 1.0;
    }
  }

  /** Where the mouse is, in steps between neighbouring points. */
  function Steps(mx: real, padLeft: real, innerW: real, count: int): real
    requires innerW > 0.0
  {
    (mx - padLeft) / innerW * (count - 1) as real
  }

  function HoverIndex(mx: real, padLeft: real, innerW: real, count: int): (k: int)
    requires innerW > 0.0
    ensures count <= 0 <==> k == -1
    ensures count > 0 ==> 0 <= k < count
  {
    if count <= 0 then -1
    else if count == 1 then 0
    else RoundClamp(Steps(mx, padLeft, innerW, count), count)
  }

  /** No point is nearer to the mouse than the one hovered. */
  lemma HoverIsNearest(mx: real, padLeft: real, innerW: real, count: int, j: int)
    requires innerW > 0.0 && 0 <= j < count
    ensures var x := Steps(mx, padLeft, innerW, count);
            Distance(x, HoverIndex(mx, padLeft, innerW, count)) <= Distance(x, j)
  {
    RoundIsNearest(Steps(mx, padLeft, innerW, count), count, j);
  }

  /** (count - 1) times the distance on the screen to point `j`, drawn at padLeft + j * innerW / (count - 1). */
  function ScreenDistance(mx: real, padLeft: real, innerW: real, count: int, j: int): real {
    Abs((mx - padLeft) * (count - 1) as real - j as real * innerW)
  }

  lemma Scaled(d: real, n: real, w: real, j: real)
    requires w > 0.0
    ensures d * n - j * w == (d / w * n - j) * w
  {
    assert d / w * w == d;
    assert d / w * n * w == d / w * w * n;
  }

  lemma AbsScales(x: real, f: real)
    requires f > 0.0
    ensures Abs(x * f) == Abs(x) * f
  {
  }

  lemma DistanceScales(mx: real, padLeft: real, innerW: real, count: int, j: int)
    requires innerW > 0.0
    ensures ScreenDistance(mx, padLeft, innerW, count, j) == Distance(Steps(mx, padLeft, innerW, count), j) * innerW
  {
    Scaled(mx - padLeft, (count - 1) as real, innerW, j as real);
    AbsScales(Steps(mx, padLeft, innerW, count) - j as real, innerW);
  }

  lemma FartherOnScreen(x: real, y: real, a: real, b: real, f: real)
    requires x == a * f && y == b * f && a <= b && f > 0.0
    ensures x <= y
  {
  }

  lemma OrderOnScreen(mx: real, padLeft: real, innerW: real, count: int, k: int, j: int, s: real)
    requires innerW > 0.0 && s == Steps(mx, padLeft, innerW, count) && Distance(s, k) <= Distance(s, j)
    ensures ScreenDistance(mx, padLeft, innerW, count, k) <= ScreenDistance(mx, padLeft, innerW, count, j)
  {
    DistanceScales(mx, padLeft, innerW, count, k);
    DistanceScales(mx, padLeft, innerW, count, j);
    FartherOnScreen(ScreenDistance(mx, padLeft, innerW, count, k), ScreenDistance(mx, padLeft, innerW, count, j),
                    Distance(s, k), Distance(s, j), innerW);
  }

  /** On the screen: no point is drawn nearer to the mouse than the one hovered. */
  lemma HoveredIsNearestDrawn(mx: real, padLeft: real, innerW: real, count: int, j: int)
    requires innerW > 0.0 && count > 1 && 0 <= j < count
    ensures ScreenDistance(mx, padLeft, innerW, count, HoverIndex(mx, padLeft, innerW, count))
            <= ScreenDistance(mx, padLeft, innerW, count, j)
  {
    HoverIsNearest(mx, padLeft, innerW, count, j);
    OrderOnScreen(mx, padLeft, innerW, count, HoverIndex(mx, padLeft, innerW, count), j, Steps(mx, padLeft, innerW, count));
  }
}
