/**
 What serial Lloyd k-means works on, as values: points that carry their cluster, per-cluster member
 lists, and centres. Distances are squared distances over the reals; the source's `sqrt` keeps their
 order, so every comparison it makes comes out the same.
 */
module KMeansCost {
  datatype Point = Point(id: nat, cluster: int, values: seq<real>)

  type Center = seq<real>

  function Sq(x: real): real {
    x * x
  }

  /** Squared distance over the first n coordinates. */
  function Dist(c: Center, x: seq<real>, n: nat): real
    requires n <= |c| && n <= |x|
  {
    if n == 0 then 0.0 else Dist(c, x, n - 1) + Sq(c[n - 1] - x[n - 1])
  }

  ghost predicate CentersFit(centers: seq<Center>, dim: nat) {
    forall c :: 0 <= c < |centers| ==> |centers[c]| == dim
  }

  ghost predicate PointsFit(points: seq<Point>, k: nat, dim: nat) {
    forall i :: 0 <= i < |points| ==> points[i].id == i && |points[i].values| == dim && -1 <= points[i].cluster < k
  }

  ghost predicate AllAssigned(points: seq<Point>) {
    forall i :: 0 <= i < |points| ==> points[i].cluster >= 0
  }

  /** The lowest-numbered centre nearest to x. */
  ghost predicate IsNearest(centers: seq<Center>, x: seq<real>, dim: nat, c: int)
    requires CentersFit(centers, dim) && |x| == dim
  {
    && 0 <= c < |centers|
    && (forall d :: 0 <= d < |centers| ==> Dist(centers[c], x, dim) <= Dist(centers[d], x, dim))
    && (forall d :: 0 <= d < c ==> Dist(centers[c], x, dim) < Dist(centers[d], x, dim))
  }

  /** There is only one such centre. */
  lemma NearestIsOne(centers: seq<Center>, x: seq<real>, dim: nat, c: int, d: int)
    requires CentersFit(centers, dim) && |x| == dim
    requires IsNearest(centers, x, dim, c) && IsNearest(centers, x, dim, d)
    ensures c == d
  {
    assert Dist(centers[c], x, dim) <= Dist(centers[d], x, dim) <= Dist(centers[c], x, dim);
  }

  // ---- the partition ----

  /** list holds each point of cluster c once, as a copy of what the point now is. */
  ghost predicate Members(points: seq<Point>, list: seq<Point>, c: int) {
    && (forall p :: 0 <= p < |list| ==> list[p].id < |points| && list[p] == points[list[p].id] && list[p].cluster == c)
    && (forall p, q :: 0 <= p < q < |list| ==> list[p].id != list[q].id)
    && (forall i :: 0 <= i < |points| && points[i].cluster == c ==> Listed(list, i))
  }

  ghost predicate Listed(list: seq<Point>, id: nat) {
    exists p :: 0 <= p < |list| && list[p].id == id
  }

  ghost predicate Partition(points: seq<Point>, lists: seq<seq<Point>>) {
    forall c :: 0 <= c < |lists| ==> Members(points, lists[c], c)
  }

  /** Each point is in the list its `cluster` names and in no other. */
  lemma PartitionIsExact(points: seq<Point>, lists: seq<seq<Point>>, i: nat, c: nat)
    requires Partition(points, lists) && i < |points| && c < |lists|
    ensures Listed(lists[c], i) <==> points[i].cluster == c
  {
    assert Members(points, lists[c], c);
  }

  /** The list after `removePoint`: the first entry with that id is gone. */
  function Without(list: seq<Point>, id: nat): (r: seq<Point>) {
    if list == [] then [] else if list[0].id == id then list[1..] else [list[0]] + Without(list[1..], id)
  }

  lemma SkipFirst(list: seq<Point>, p: nat)
    requires 0 < p < |list|
    ensures [list[0]] + (list[1..][..p - 1] + list[1..][p..]) == list[..p] + list[p + 1..]
  {
  }

  lemma {:induction false} WithoutAt(list: seq<Point>, id: nat, p: nat)
    requires p < |list| && list[p].id == id && forall q :: 0 <= q < p ==> list[q].id != id
    ensures Without(list, id) == list[..p] + list[p + 1..]
  {
    if p > 0 {
      var rest := list[1..];
      assert list[0].id != id && rest[p - 1] == list[p];
      WithoutAt(rest, id, p - 1);
      SkipFirst(list, p);
    }
  }

  lemma {:induction false} WithoutAbsent(list: seq<Point>, id: nat)
    requires forall q :: 0 <= q < |list| ==> list[q].id != id
    ensures Without(list, id) == list
  {
    if list != [] {
      WithoutAbsent(list[1..], id);
    }
  }

  /** What one pass of the assignment loop does to the lists. */
  function Reassigned(points: seq<Point>, lists: seq<seq<Point>>, i: nat, c: nat): seq<seq<Point>>
    requires i < |points| && c < |lists| && -1 <= points[i].cluster < |lists|
  {
    var was := points[i].cluster;
    if was == c then lists else
    var left := if was == -1 then lists else lists[was := Without(lists[was], points[i].id)];
    left[c := left[c] + [points[i].(cluster := c)]]
  }

  lemma WithoutKeeps(points: seq<Point>, list: seq<Point>, i: nat, c: int, p': Point)
    requires Members(points, list, c) && i < |points| && points[i].id == i && points[i].cluster == c && p'.cluster != c
    ensures Members(points[i := p'], Without(list, i), c)
  {
    assert Listed(list, i);
    var p :| 0 <= p < |list| && list[p].id == i;
    WithoutAt(list, i, p);
    DropKeeps(points, list, p, c, p');
  }

  lemma EntryLeft(list: seq<Point>, p: nat)
    requires p < |list|
    ensures var rest := list[..p] + list[p + 1..];
            |rest| == |list| - 1 && forall q :: 0 <= q < |rest| ==> rest[q] == list[if q < p then q else q + 1]
  {
  }

  lemma DropKeeps(points: seq<Point>, list: seq<Point>, p: nat, c: int, p': Point)
    requires Members(points, list, c) && p < |list| && p'.cluster != c
    ensures Members(points[list[p].id := p'], list[..p] + list[p + 1..], c)
  {
    var i, rest := list[p].id, list[..p] + list[p + 1..];
    var points' := points[i := p'];
    EntryLeft(list, p);
    assert forall q :: 0 <= q < |rest| ==> rest[q].id != i;
    forall j | 0 <= j < |points'| && points'[j].cluster == c ensures Listed(rest, j) {
      assert Listed(list, j);
      StillListed(list, p, j);
    }
  }

  lemma StillListed(list: seq<Point>, p: nat, id: nat)
    requires p < |list| && list[p].id != id && Listed(list, id)
    ensures Listed(list[..p] + list[p + 1..], id)
  {
    var rest := list[..p] + list[p + 1..];
    var q :| 0 <= q < |list| && list[q].id == id;
    assert rest[if q < p then q else q - 1].id == id;
  }

  lemma AppendKeeps(points: seq<Point>, list: seq<Point>, i: nat, c: int, p': Point)
    requires Members(points, list, c) && i < |points| && points[i].cluster != c && p'.cluster == c && p'.id == i
    ensures Members(points[i := p'], list + [p'], c)
  {
    var all := list + [p'];
    forall j | 0 <= j < |points| && points[i := p'][j].cluster == c ensures Listed(all, j) {
      if j == i {
        assert all[|list|].id == i;
      } else {
        var q :| 0 <= q < |list| && list[q].id == j;
        assert all[q].id == j;
      }
    }
  }

  lemma OtherListKept(points: seq<Point>, list: seq<Point>, i: nat, c: int, p': Point)
    requires Members(points, list, c) && i < |points| && points[i].id == i && points[i].cluster != c && p'.cluster != c
    ensures Members(points[i := p'], list, c)
  {
  }

  /** Moving one point keeps the partition. */
  lemma ReassignKeepsPartition(points: seq<Point>, lists: seq<seq<Point>>, i: nat, c: nat, dim: nat)
    requires Partition(points, lists) && PointsFit(points, |lists|, dim) && i < |points| && c < |lists|
    ensures Partition(points[i := points[i].(cluster := c)], Reassigned(points, lists, i, c))
    ensures PointsFit(points[i := points[i].(cluster := c)], |lists|, dim)
            && |Reassigned(points, lists, i, c)| == |lists|
  {
    var p', lists' := points[i].(cluster := c), Reassigned(points, lists, i, c);
    if points[i].cluster == c {
      assert points[i := p'] == points;
    } else {
      forall d | 0 <= d < |lists| ensures Members(points[i := p'], lists'[d], d) {
        assert Members(points, lists[d], d);
        if d == c {
          AppendKeeps(points, lists[d], i, d, p');
        } else if d == points[i].cluster {
          WithoutKeeps(points, lists[d], i, d, p');
        } else {
          OtherListKept(points, lists[d], i, d, p');
        }
      }
    }
  }

  // ---- sums ----

  /** Sum of f over the points of cluster c among the first n. */
  ghost function Total(points: seq<Point>, c: int, f: Point -> real, n: nat): real
    requires n <= |points|
  {
    if n == 0 then 0.0 else Total(points, c, f, n - 1) + (if points[n - 1].cluster == c then f(points[n - 1]) else 0.0)
  }

  ghost function ListTotal(list: seq<Point>, f: Point -> real): real {
    if list == [] then 0.0 else ListTotal(list[..|list| - 1], f) + f(list[|list| - 1])
  }

  lemma {:induction false} TotalWithout(points: seq<Point>, c: int, f: Point -> real, i: nat, p': Point, n: nat)
    requires i < |points| && n <= |points| && points[i].cluster == c && p'.cluster != c
    ensures Total(points[i := p'], c, f, n) == Total(points, c, f, n) - (if i < n then f(points[i]) else 0.0)
  {
    if n > 0 {
      TotalWithout(points, c, f, i, p', n - 1);
    }
  }

  lemma {:induction false} TotalOfNone(points: seq<Point>, c: int, f: Point -> real, n: nat)
    requires n <= |points| && forall i :: 0 <= i < |points| ==> points[i].cluster != c
    ensures Total(points, c, f, n) == 0.0
  {
    if n > 0 {
      TotalOfNone(points, c, f, n - 1);
    }
  }

  /** Summing along a cluster's list is summing over the points assigned to it. */
  lemma {:induction false} ListIsTotal(points: seq<Point>, list: seq<Point>, c: int, f: Point -> real)
    requires Members(points, list, c)
    ensures ListTotal(list, f) == Total(points, c, f, |points|)
    decreases |list|
  {
    if list == [] {
      assert forall i: nat :: !Listed(list, i);
      TotalOfNone(points, c, f, |points|);
    } else {
      var rest, last := list[..|list| - 1], list[|list| - 1];
      var p' := last.(cluster := c + 1);
      var points' := points[last.id := p'];
      forall i | 0 <= i < |points'| && points'[i].cluster == c ensures Listed(rest, i) {
        var q :| 0 <= q < |list| && list[q].id == i;
        assert rest[q].id == i;
      }
      ListIsTotal(points', rest, c, f);
      TotalWithout(points, c, f, last.id, p', |points|);
    }
  }

  // ---- distortion ----

  ghost predicate Ready(points: seq<Point>, centers: seq<Center>, dim: nat) {
    PointsFit(points, |centers|, dim) && CentersFit(centers, dim) && AllAssigned(points)
  }

  /** Sum over the first n points of the squared distance to the point's own centre. */
  ghost function Distortion(points: seq<Point>, centers: seq<Center>, dim: nat, n: nat): real
    requires Ready(points, centers, dim) && n <= |points|
  {
    if n == 0 then 0.0
    else Distortion(points, centers, dim, n - 1) + Dist(centers[points[n - 1].cluster], points[n - 1].values, dim)
  }

  ghost predicate SameValues(points: seq<Point>, points': seq<Point>) {
    |points| == |points'| && forall i :: 0 <= i < |points| ==> points[i].values == points'[i].values
  }

  ghost predicate AllNearest(points: seq<Point>, centers: seq<Center>, dim: nat)
    requires Ready(points, centers, dim)
  {
    forall i :: 0 <= i < |points| ==> IsNearest(centers, points[i].values, dim, points[i].cluster)
  }

  /** The assignment loop has come to point i; `done` says that nothing has moved so far. */
  ghost predicate AssignedTo(start: seq<Point>, points: seq<Point>, centers: seq<Center>, dim: nat, i: nat, done: bool)
    requires CentersFit(centers, dim)
  {
    && SameValues(start, points) && i <= |points|
    && (forall p :: 0 <= p < i ==>
          |points[p].values| == dim && IsNearest(centers, points[p].values, dim, points[p].cluster))
    && (forall p :: i <= p < |points| ==> points[p] == start[p])
    && (if done then points == start else exists p :: 0 <= p < i && points[p] != start[p])
  }

  lemma AssignedOneMore(start: seq<Point>, points: seq<Point>, centers: seq<Center>, dim: nat, i: nat, done: bool,
                        c: nat)
    requires CentersFit(centers, dim) && AssignedTo(start, points, centers, dim, i, done)
    requires i < |points| && |points[i].values| == dim && IsNearest(centers, points[i].values, dim, c)
    ensures AssignedTo(start, points[i := points[i].(cluster := c)], centers, dim, i + 1,
                       done && points[i].cluster == c)
  {
    var points' := points[i := points[i].(cluster := c)];
    if points[i].cluster != c {
      assert points'[i] != start[i];
    } else if done {
      assert points' == points;
    } else {
      var p :| 0 <= p < i && points[p] != start[p];
      assert points'[p] != start[p];
    }
  }

  /** No assignment of the same points has a smaller distortion than the nearest-centre one. */
  lemma {:induction false} NearestIsBest(points: seq<Point>, points': seq<Point>, centers: seq<Center>, dim: nat,
                                         n: nat)
    requires Ready(points, centers, dim) && Ready(points', centers, dim) && SameValues(points, points')
    requires AllNearest(points', centers, dim) && n <= |points|
    ensures Distortion(points', centers, dim, n) <= Distortion(points, centers, dim, n)
  {
    if n > 0 {
      NearestIsBest(points, points', centers, dim, n - 1);
      assert IsNearest(centers, points'[n - 1].values, dim, points'[n - 1].cluster);
    }
  }

  // ---- recentring ----

  function CoordSum(list: seq<Point>, j: nat, n: nat): real
    requires n <= |list| && forall p :: 0 <= p < |list| ==> j < |list[p].values|
  {
    if n == 0 then 0.0 else CoordSum(list, j, n - 1) + list[n - 1].values[j]
  }

  ghost predicate ListFits(list: seq<Point>, dim: nat) {
    forall p :: 0 <= p < |list| ==> |list[p].values| == dim
  }

  function Mean(list: seq<Point>, j: nat): real
    requires list != [] && forall p :: 0 <= p < |list| ==> j < |list[p].values|
  {
    CoordSum(list, j, |list|) / (|list| as real)
  }

  function WithCoord(centers: seq<Center>, c: nat, j: nat, v: real): seq<Center>
    requires c < |centers| && j < |centers[c]|
  {
    centers[c := centers[c][j := v]]
  }

  lemma {:induction false} DistWithCoord(c: Center, x: seq<real>, j: nat, v: real, n: nat)
    requires n <= |c| && n <= |x| && j < |c| && j < |x|
    ensures Dist(c[j := v], x, n) == Dist(c, x, n) + (if j < n then Sq(v - x[j]) - Sq(c[j] - x[j]) else 0.0)
  {
    if n > 0 {
      DistWithCoord(c, x, j, v, n - 1);
    }
  }

  /** What a point's squared distance gains when coordinate j of its centre goes from w to v. */
  ghost function Gain(j: nat, v: real, w: real): Point -> real {
    (p: Point) => if j < |p.values| then Sq(v - p.values[j]) - Sq(w - p.values[j]) else 0.0
  }

  /** How the distortion depends on one coordinate of one centre. */
  lemma {:induction false} DistortionWithCoord(points: seq<Point>, centers: seq<Center>, dim: nat, c: nat, j: nat,
                                               v: real, n: nat)
    requires Ready(points, centers, dim) && c < |centers| && j < dim && n <= |points|
    ensures Ready(points, WithCoord(centers, c, j, v), dim)
    ensures Distortion(points, WithCoord(centers, c, j, v), dim, n)
              == Distortion(points, centers, dim, n) + Total(points, c, Gain(j, v, centers[c][j]), n)
  {
    if n > 0 {
      DistortionWithCoord(points, centers, dim, c, j, v, n - 1);
      var p := points[n - 1];
      if p.cluster == c {
        DistWithCoord(centers[c], p.values, j, v, dim);
      }
    }
  }

  /** Change of the summed squares of n numbers with sum s when the point they are measured from goes from w to v. */
  function Shift(v: real, w: real, n: real, s: real): real {
    (Sq(v) - Sq(w)) * n - 2.0 * (v - w) * s
  }

  lemma ShiftOneMore(v: real, w: real, n: real, s: real, x: real)
    ensures Shift(v, w, n + 1.0, s + x) == Shift(v, w, n, s) + (Sq(v - x) - Sq(w - x))
  {
    assert Sq(v - x) == v * v - 2.0 * v * x + x * x;
    assert Sq(w - x) == w * w - 2.0 * w * x + x * x;
  }

  /** A gain summed over n numbers with sum s, when v is their mean. */
  predicate GainsToMean(gain: real, v: real, w: real, n: real, s: real) {
    IsMean(v, n, s) && IsShift(gain, v, w, n, s)
  }

  predicate IsMean(v: real, n: real, s: real) {
    v * n == s
  }

  predicate IsShift(gain: real, v: real, w: real, n: real, s: real) {
    gain == Shift(v, w, n, s)
  }

  /** A loss of n times the square of the move from w to v. */
  predicate LosesSquares(gain: real, v: real, w: real, n: real) {
    gain == -(n * Sq(v - w))
  }

  lemma ShiftToMean(gain: real, v: real, w: real, n: real, s: real)
    requires GainsToMean(gain, v, w, n, s)
    ensures LosesSquares(gain, v, w, n)
  {
    assert (v - w) * s == (v - w) * v * n;
    assert Sq(v - w) == v * v - 2.0 * v * w + w * w;
  }

  lemma LossIsLoss(gain: real, v: real, w: real, n: real)
    requires LosesSquares(gain, v, w, n) && n >= 0.0
    ensures gain <= 0.0
  {
    SquareSign(v - w);
    ProductSign(n, Sq(v - w));
  }

  lemma NoLossNoMove(gain: real, v: real, w: real, n: real)
    requires LosesSquares(gain, v, w, n) && n > 0.0
    ensures gain == 0.0 ==> v == w
  {
    if v != w {
      SquarePositive(v - w);
      ProductPositive(n, Sq(v - w), n * Sq(v - w));
    }
  }

  lemma ProductPositive(n: real, q: real, p: real)
    requires n > 0.0 && q > 0.0 && p == n * q
    ensures p > 0.0
  {
  }

  lemma SquareSign(x: real)
    ensures Sq(x) >= 0.0
  {
  }

  lemma SquarePositive(x: real)
    requires x != 0.0
    ensures Sq(x) > 0.0
  {
    if x > 0.0 {
      ProductPositive(x, x, Sq(x));
    } else {
      SquareOfNegation(x, -x);
      ProductPositive(-x, -x, Sq(-x));
    }
  }

  lemma SquareOfNegation(x: real, y: real)
    requires y == -x
    ensures Sq(x) == Sq(y)
  {
  }

  lemma ProductSign(n: real, q: real)
    requires n >= 0.0 && q >= 0.0
    ensures n * q >= 0.0
  {
  }

  lemma {:induction false} ListGain(list: seq<Point>, j: nat, v: real, w: real, n: nat)
    requires n <= |list| && forall p :: 0 <= p < |list| ==> j < |list[p].values|
    ensures ListTotal(list[..n], Gain(j, v, w)) == Shift(v, w, n as real, CoordSum(list, j, n))
  {
    if n == 0 {
      assert Shift(v, w, 0.0, 0.0) == 0.0;
    } else {
      ListGain(list, j, v, w, n - 1);
      assert list[..n][..n - 1] == list[..n - 1];
      ShiftOneMore(v, w, (n - 1) as real, CoordSum(list, j, n - 1), list[n - 1].values[j]);
    }
  }

  lemma RecenterGain(points: seq<Point>, list: seq<Point>, centers: seq<Center>, dim: nat, c: nat, j: nat, v: real)
    requires Ready(points, centers, dim) && c < |centers| && j < dim && Members(points, list, c)
    ensures Ready(points, WithCoord(centers, c, j, v), dim)
    ensures Distortion(points, WithCoord(centers, c, j, v), dim, |points|)
              == Distortion(points, centers, dim, |points|) + ListTotal(list, Gain(j, v, centers[c][j]))
  {
    DistortionWithCoord(points, centers, dim, c, j, v, |points|);
    ListIsTotal(points, list, c, Gain(j, v, centers[c][j]));
  }

  lemma MeanTimes(list: seq<Point>, j: nat)
    requires list != [] && forall p :: 0 <= p < |list| ==> j < |list[p].values|
    ensures IsMean(Mean(list, j), |list| as real, CoordSum(list, j, |list|))
  {
  }

  lemma WholeGain(list: seq<Point>, j: nat, v: real, w: real) returns (gain: real, n: real, s: real)
    requires list != [] && (forall p :: 0 <= p < |list| ==> j < |list[p].values|) && v == Mean(list, j)
    ensures gain == ListTotal(list, Gain(j, v, w)) && n == |list| as real
    ensures GainsToMean(gain, v, w, n, s)
  {
    gain, n, s := ListTotal(list, Gain(j, v, w)), |list| as real, CoordSum(list, j, |list|);
    MeanTimes(list, j);
    ShiftOfAll(list, j, v, w);
  }

  lemma ShiftOfAll(list: seq<Point>, j: nat, v: real, w: real)
    requires forall p :: 0 <= p < |list| ==> j < |list[p].values|
    ensures IsShift(ListTotal(list, Gain(j, v, w)), v, w, |list| as real, CoordSum(list, j, |list|))
  {
    ListGain(list, j, v, w, |list|);
    assert list[..|list|] == list;
  }

  lemma GainToMean(list: seq<Point>, j: nat, v: real, w: real) returns (gain: real, n: real)
    requires list != [] && (forall p :: 0 <= p < |list| ==> j < |list[p].values|) && v == Mean(list, j)
    ensures gain == ListTotal(list, Gain(j, v, w)) && n == |list| as real
    ensures LosesSquares(gain, v, w, n)
  {
    var s;
    gain, n, s := WholeGain(list, j, v, w);
    ShiftToMean(gain, v, w, n, s);
  }

  /**
   `setCentralValue(j, mean)` lowers the distortion by exactly the size of the cluster times the
   square of how far the coordinate moves.
   */
  lemma RecenterLowers(points: seq<Point>, list: seq<Point>, centers: seq<Center>, dim: nat, c: nat, j: nat, v: real)
    returns (change: real, n: real)
    requires Ready(points, centers, dim) && c < |centers| && j < dim
    requires Members(points, list, c) && list != [] && ListFits(list, dim) && v == Mean(list, j)
    ensures Ready(points, WithCoord(centers, c, j, v), dim)
    ensures Distortion(points, WithCoord(centers, c, j, v), dim, |points|)
              == Distortion(points, centers, dim, |points|) + change
    ensures change <= 0.0 && n == |list| as real && LosesSquares(change, v, centers[c][j], n)
    ensures change == 0.0 ==> v == centers[c][j]
  {
    change, n := GainToMean(list, j, v, centers[c][j]);
    LossIsLoss(change, v, centers[c][j], n);
    NoLossNoMove(change, v, centers[c][j], n);
    RecenterGain(points, list, centers, dim, c, j, v);
  }

  // ---- fixed points ----

  ghost predicate AtMean(list: seq<Point>, center: Center, j: nat)
    requires j < |center| && ListFits(list, |center|)
  {
    list != [] ==> center[j] == Mean(list, j)
  }

  ghost predicate ListsFit(lists: seq<seq<Point>>, dim: nat) {
    forall c :: 0 <= c < |lists| ==> ListFits(lists[c], dim)
  }

  /** The centres of the non-empty clusters below c, and the first j coordinates of c's, are means. */
  ghost predicate CenteredUpTo(lists: seq<seq<Point>>, centers: seq<Center>, dim: nat, c: nat, j: nat) {
    && |lists| == |centers| && CentersFit(centers, dim) && ListsFit(lists, dim)
    && forall d: nat, e: nat :: d < |lists| && e < dim && (d < c || (d == c && e < j)) ==>
         AtMean(lists[d], centers[d], e)
  }

  /** The centre of every non-empty cluster is the mean of its members. */
  ghost predicate Centered(lists: seq<seq<Point>>, centers: seq<Center>, dim: nat) {
    CenteredUpTo(lists, centers, dim, |lists|, 0)
  }

  /** The centres after one pass of the recentring loops. */
  function Recentered(lists: seq<seq<Point>>, centers: seq<Center>, c: nat, j: nat): seq<Center>
    requires c < |lists| == |centers| && j < |centers[c]|
    requires forall p :: 0 <= p < |lists[c]| ==> j < |lists[c][p].values|
  {
    if lists[c] == [] then centers else WithCoord(centers, c, j, Mean(lists[c], j))
  }

  lemma RecenterStep(points: seq<Point>, lists: seq<seq<Point>>, centers: seq<Center>, dim: nat, c: nat, j: nat)
    requires Ready(points, centers, dim) && Partition(points, lists) && CenteredUpTo(lists, centers, dim, c, j)
    requires c < |lists| && j < dim
    ensures Ready(points, Recentered(lists, centers, c, j), dim)
    ensures CenteredUpTo(lists, Recentered(lists, centers, c, j), dim, c, j + 1)
    ensures Recentered(lists, centers, c, j) == centers
            || Distortion(points, Recentered(lists, centers, c, j), dim, |points|)
                 < Distortion(points, centers, dim, |points|)
  {
    assert Members(points, lists[c], c) && ListFits(lists[c], dim);
    var list := lists[c];
    if list == [] {
      assert AtMean(list, centers[c], j);
    } else {
      OneCoordinate(points, list, centers, dim, c, j, Mean(list, j));
      CenteredOneMore(lists, centers, dim, c, j, Mean(list, j));
    }
  }

  lemma CenteredOneMore(lists: seq<seq<Point>>, centers: seq<Center>, dim: nat, c: nat, j: nat, v: real)
    requires CenteredUpTo(lists, centers, dim, c, j) && c < |lists| && j < dim
    requires ListFits(lists[c], dim) && lists[c] != [] && v == Mean(lists[c], j)
    ensures CenteredUpTo(lists, WithCoord(centers, c, j, v), dim, c, j + 1)
  {
    var centers' := WithCoord(centers, c, j, v);
    forall d: nat, e: nat | d < |lists| && e < dim && (d < c || (d == c && e < j + 1))
      ensures ListFits(lists[d], dim) && AtMean(lists[d], centers'[d], e)
    {
      assert ListFits(lists[d], dim);
      if d < c || e < j {
        assert AtMean(lists[d], centers[d], e) && centers'[d][e] == centers[d][e];
      }
    }
  }

  /** Means stay where they are. */
  lemma RecenterIdle(lists: seq<seq<Point>>, centers: seq<Center>, dim: nat, c: nat, j: nat)
    requires Centered(lists, centers, dim) && c < |lists| && j < dim
    ensures ListFits(lists[c], dim) && Recentered(lists, centers, c, j) == centers
  {
    assert ListFits(lists[c], dim) && AtMean(lists[c], centers[c], j);
    assert centers[c][j := centers[c][j]] == centers[c];
  }

  /** The recentring loops have come to coordinate j of cluster c. */
  ghost predicate RecenteredTo(points: seq<Point>, lists: seq<seq<Point>>, start: seq<Center>, centers: seq<Center>,
                               dim: nat, c: nat, j: nat)
  {
    && Ready(points, start, dim) && Ready(points, centers, dim) && CenteredUpTo(lists, centers, dim, c, j)
    && (centers == start || Distortion(points, centers, dim, |points|) < Distortion(points, start, dim, |points|))
    && (Centered(lists, start, dim) ==> centers == start)
    && |start| == |centers| && (forall d :: 0 <= d < |lists| && lists[d] == [] ==> centers[d] == start[d])
  }

  lemma RecenterOneMore(points: seq<Point>, lists: seq<seq<Point>>, start: seq<Center>, centers: seq<Center>, dim: nat,
                        c: nat, j: nat)
    requires RecenteredTo(points, lists, start, centers, dim, c, j) && Partition(points, lists) && c < |lists|
             && j < dim
    ensures ListFits(lists[c], dim)
            && RecenteredTo(points, lists, start, Recentered(lists, centers, c, j), dim, c, j + 1)
  {
    assert ListFits(lists[c], dim);
    RecenterStep(points, lists, centers, dim, c, j);
    if Centered(lists, start, dim) { RecenterIdle(lists, centers, dim, c, j); }
  }

  /** Choosing a first point for a new cluster. */
  lemma SeedKeeps(points: seq<Point>, lists: seq<seq<Point>>, i: nat, dim: nat)
    requires PointsFit(points, |lists|, dim) && Partition(points, lists) && i < |points| && points[i].cluster == -1
    ensures PointsFit(points[i := points[i].(cluster := |lists|)], |lists| + 1, dim)
    ensures Partition(points[i := points[i].(cluster := |lists|)], lists + [[points[i].(cluster := |lists|)]])
  {
    var p' := points[i].(cluster := |lists|);
    var lists' := lists + [[p']];
    forall c | 0 <= c < |lists'| ensures Members(points[i := p'], lists'[c], c) {
      if c < |lists| {
        OtherListKept(points, lists[c], i, c, p');
      } else {
        assert [p'][0].id == i && Listed([p'], i);
      }
    }
  }

  lemma OneIsMean(p: Point, dim: nat)
    requires |p.values| == dim
    ensures forall j :: 0 <= j < dim ==> AtMean([p], p.values, j)
  {
    forall j | 0 <= j < dim ensures AtMean([p], p.values, j) {
      assert CoordSum([p], j, 1) == CoordSum([p], j, 0) + p.values[j];
    }
  }

  ghost predicate NonIncreasing(costs: seq<real>) {
    forall i :: 0 < i < |costs| ==> costs[i] <= costs[i - 1]
  }

  lemma MembersFit(points: seq<Point>, lists: seq<seq<Point>>, k: nat, dim: nat)
    requires PointsFit(points, k, dim) && Partition(points, lists)
    ensures ListsFit(lists, dim)
  {
    forall c | 0 <= c < |lists| ensures ListFits(lists[c], dim) {
      assert Members(points, lists[c], c);
    }
  }

  /** The two agree on coordinate j of centre c and on all that come after it. */
  ghost predicate AgreeFrom(centers: seq<Center>, others: seq<Center>, dim: nat, c: nat, j: nat)
    requires |centers| == |others| && CentersFit(centers, dim) && CentersFit(others, dim)
  {
    forall d: nat, e: nat :: d < |centers| && e < dim && (d > c || (d == c && e >= j)) ==> centers[d][e] == others[d][e]
  }

  lemma AgreeOnAll(centers: seq<Center>, others: seq<Center>, dim: nat)
    requires |centers| == |others| && CentersFit(centers, dim) && CentersFit(others, dim)
    requires AgreeFrom(centers, others, dim, 0, 0)
    ensures centers == others
  {
    forall d | 0 <= d < |centers| ensures centers[d] == others[d] {
      assert forall e :: 0 <= e < dim ==> centers[d][e] == others[d][e];
    }
  }

  /** Bringing one coordinate to where the fixed point has it does not raise the distortion. */
  lemma OneCoordinate(points: seq<Point>, list: seq<Point>, others: seq<Center>, dim: nat, c: nat, j: nat, v: real)
    requires Ready(points, others, dim) && c < |others| && j < dim
    requires Members(points, list, c) && ListFits(list, dim) && (list != [] ==> v == Mean(list, j))
    ensures Ready(points, WithCoord(others, c, j, v), dim)
    ensures Distortion(points, WithCoord(others, c, j, v), dim, |points|) <= Distortion(points, others, dim, |points|)
    ensures list != [] ==>
              || WithCoord(others, c, j, v) == others
              || Distortion(points, WithCoord(others, c, j, v), dim, |points|)
                   < Distortion(points, others, dim, |points|)
  {
    if list == [] {
      RecenterGain(points, list, others, dim, c, j, v);
    } else {
      var change, n := RecenterLowers(points, list, others, dim, c, j, v);
      if change == 0.0 { assert others[c][j := others[c][j]] == others[c]; }
    }
  }

  lemma {:induction false} MeansBeat(points: seq<Point>, lists: seq<seq<Point>>, centers: seq<Center>,
                                     others: seq<Center>, dim: nat, c: nat, j: nat)
    requires Ready(points, centers, dim) && Ready(points, others, dim) && |others| == |centers| == |lists|
    requires Partition(points, lists) && Centered(lists, centers, dim)
    requires c < |centers| && j <= dim && AgreeFrom(centers, others, dim, c, j)
    ensures Distortion(points, centers, dim, |points|) <= Distortion(points, others, dim, |points|)
    decreases c, j
  {
    if j > 0 {
      assert Members(points, lists[c], c) && ListFits(lists[c], dim) && AtMean(lists[c], centers[c], j - 1);
      OneCoordinate(points, lists[c], others, dim, c, j - 1, centers[c][j - 1]);
      MeansBeat(points, lists, centers, WithCoord(others, c, j - 1, centers[c][j - 1]), dim, c, j - 1);
    } else if c > 0 {
      MeansBeat(points, lists, centers, others, dim, c - 1, dim);
    } else {
      AgreeOnAll(centers, others, dim);
    }
  }

  /** For this assignment, no centres have a smaller distortion than the means. */
  lemma MeansAreBest(points: seq<Point>, lists: seq<seq<Point>>, centers: seq<Center>, others: seq<Center>, dim: nat)
    requires Ready(points, centers, dim) && Ready(points, others, dim) && |others| == |centers| == |lists|
    requires Partition(points, lists) && Centered(lists, centers, dim)
    ensures Distortion(points, centers, dim, |points|) <= Distortion(points, others, dim, |points|)
  {
    if centers != [] {
      MeansBeat(points, lists, centers, others, dim, |centers| - 1, dim);
    } else {
      assert others == [];
    }
  }

  // ---- every round that moves a point gets somewhere ----

  ghost function IndexSum(points: seq<Point>, n: nat): int
    requires n <= |points|
  {
    if n == 0 then 0 else IndexSum(points, n - 1) + points[n - 1].cluster
  }

  /** Each of the first n points is as far from its old centre as from its new one. */
  ghost predicate Ties(points: seq<Point>, points': seq<Point>, centers: seq<Center>, dim: nat, n: nat)
    requires Ready(points, centers, dim) && Ready(points', centers, dim) && n <= |points| == |points'|
  {
    forall i :: 0 <= i < n ==>
      Dist(centers[points[i].cluster], points[i].values, dim) ==
        Dist(centers[points'[i].cluster], points'[i].values, dim)
  }

  ghost predicate SameClusters(points: seq<Point>, points': seq<Point>, n: nat)
    requires n <= |points| == |points'|
  {
    forall i :: 0 <= i < n ==> points[i].cluster == points'[i].cluster
  }

  /** One point: it comes nearer, or stays as near and moves to a lower index, or stays. */
  lemma NearestRank(p: Point, p': Point, centers: seq<Center>, dim: nat)
    requires CentersFit(centers, dim) && |p.values| == dim && p.values == p'.values && 0 <= p.cluster < |centers|
    requires IsNearest(centers, p'.values, dim, p'.cluster)
    ensures var d, d' := Dist(centers[p.cluster], p.values, dim), Dist(centers[p'.cluster], p'.values, dim);
            d' < d || (d' == d && p'.cluster <= p.cluster)
  {
  }

  /**
   Assigning every point to its nearest centre lowers the distortion, unless all moves are ties; then
   it lowers the sum of the cluster numbers, unless nothing moves.
   */
  lemma {:induction false} AssignRank(points: seq<Point>, points': seq<Point>, centers: seq<Center>, dim: nat, n: nat)
    requires Ready(points, centers, dim) && Ready(points', centers, dim) && SameValues(points, points')
    requires AllNearest(points', centers, dim) && n <= |points|
    ensures var d, d' := Distortion(points, centers, dim, n), Distortion(points', centers, dim, n);
            && d' <= d && (d' == d <==> Ties(points, points', centers, dim, n))
            && (d' == d ==> IndexSum(points', n) <= IndexSum(points, n))
            && (d' == d && IndexSum(points', n) == IndexSum(points, n) ==> SameClusters(points, points', n))
  {
    if n > 0 {
      AssignRank(points, points', centers, dim, n - 1);
      NearestRank(points[n - 1], points'[n - 1], centers, dim);
      TiesOneMore(points, points', centers, dim, n);
    }
  }

  lemma TiesOneMore(points: seq<Point>, points': seq<Point>, centers: seq<Center>, dim: nat, n: nat)
    requires Ready(points, centers, dim) && Ready(points', centers, dim) && 0 < n <= |points| == |points'|
    ensures var p, p' := points[n - 1], points'[n - 1];
            && (Ties(points, points', centers, dim, n) <==>
                  Ties(points, points', centers, dim, n - 1)
                  && Dist(centers[p.cluster], p.values, dim) == Dist(centers[p'.cluster], p'.values, dim))
            && (SameClusters(points, points', n) <==> SameClusters(points, points', n - 1) && p.cluster == p'.cluster)
  {
  }

  /** Points that are all with their nearest centre have nowhere else to go. */
  lemma NearestStays(points: seq<Point>, points': seq<Point>, centers: seq<Center>, dim: nat)
    requires Ready(points, centers, dim) && Ready(points', centers, dim) && SameValues(points, points')
    requires AllNearest(points, centers, dim) && AllNearest(points', centers, dim)
    ensures points == points'
  {
    forall i | 0 <= i < |points| ensures points[i] == points'[i] {
      assert points[i].values == points'[i].values;
      NearestIsOne(centers, points[i].values, dim, points[i].cluster, points'[i].cluster);
    }
  }

  /** The points and their cost after a round. */
  datatype Snapshot = Snapshot(points: seq<Point>, cost: real)

  ghost predicate Drops(s: Snapshot, s': Snapshot) {
    s'.cost < s.cost ||
    (s'.cost == s.cost && IndexSum(s'.points, |s'.points|) < IndexSum(s.points, |s.points|))
  }

  /** The cost is the distortion to centres that are means. */
  ghost predicate MeanCost(s: Snapshot, k: nat, dim: nat) {
    exists lists: seq<seq<Point>>, centers: seq<Center> :: CostsAt(s, k, dim, lists, centers)
  }

  ghost predicate CostsAt(s: Snapshot, k: nat, dim: nat, lists: seq<seq<Point>>, centers: seq<Center>) {
    && |lists| == |centers| == k && Ready(s.points, centers, dim) && Partition(s.points, lists)
    && Centered(lists, centers, dim) && s.cost == Distortion(s.points, centers, dim, |s.points|)
  }

  /** An assignment has one such cost, whatever the centres of its empty clusters. */
  lemma MeanCostIsOne(s: Snapshot, s': Snapshot, k: nat, dim: nat)
    requires MeanCost(s, k, dim) && MeanCost(s', k, dim) && s.points == s'.points
    ensures s.cost == s'.cost
  {
    var lists, centers :| CostsAt(s, k, dim, lists, centers);
    var lists', centers' :| CostsAt(s', k, dim, lists', centers');
    MeansAreBest(s.points, lists, centers, centers', dim);
    MeansAreBest(s.points, lists', centers', centers, dim);
  }

  ghost predicate IsAssignment(base: seq<Point>, points: seq<Point>, k: nat, dim: nat) {
    SameValues(base, points) && PointsFit(points, k, dim) && AllAssigned(points)
  }

  /** Each snapshot has lower rank than the one before it. */
  ghost predicate Descends(trace: seq<Snapshot>, base: seq<Point>, k: nat, dim: nat) {
    trace == [] ||
    (var n := |trace|;
     && Descends(trace[..n - 1], base, k, dim) && IsAssignment(base, trace[n - 1].points, k, dim)
     && MeanCost(trace[n - 1], k, dim) && (n > 1 ==> Drops(trace[n - 2], trace[n - 1])))
  }

  lemma {:induction false} DescendsAt(trace: seq<Snapshot>, base: seq<Point>, k: nat, dim: nat, i: nat)
    requires Descends(trace, base, k, dim) && i < |trace|
    ensures IsAssignment(base, trace[i].points, k, dim) && MeanCost(trace[i], k, dim)
    ensures i > 0 ==> Drops(trace[i - 1], trace[i])
  {
    if i < |trace| - 1 { DescendsAt(trace[..|trace| - 1], base, k, dim, i); }
  }

  lemma {:induction false} DropsFar(trace: seq<Snapshot>, base: seq<Point>, k: nat, dim: nat, i: nat, j: nat)
    requires Descends(trace, base, k, dim) && i < j < |trace|
    ensures Drops(trace[i], trace[j])
    decreases j
  {
    DescendsAt(trace, base, k, dim, j);
    if i < j - 1 { DropsFar(trace, base, k, dim, i, j - 1); }
  }

  function Pow(k: nat, n: nat): nat {
    if n == 0 then 1 else k * Pow(k, n - 1)
  }

  /** An assignment of n points as a number with n digits in base k. */
  ghost function Code(points: seq<Point>, k: nat, n: nat): int
    requires n <= |points|
  {
    if n == 0 then 0 else Code(points, k, n - 1) * k + points[n - 1].cluster
  }

  lemma DigitBound(q: int, r: int, k: nat, p: nat)
    requires 0 <= q < p && 0 <= r < k
    ensures 0 <= q * k + r < k * p
  {
    assert q * k >= 0;
    assert (q + 1) * k <= p * k;
  }

  lemma {:induction false} CodeInRange(points: seq<Point>, k: nat, n: nat)
    requires n <= |points| && forall i :: 0 <= i < n ==> 0 <= points[i].cluster < k
    ensures 0 <= Code(points, k, n) < Pow(k, n)
  {
    if n > 0 {
      CodeInRange(points, k, n - 1);
      DigitBound(Code(points, k, n - 1), points[n - 1].cluster, k, Pow(k, n - 1));
    }
  }

  lemma SameDigit(q: int, r: int, q': int, r': int, k: nat)
    requires q * k + r == q' * k + r' && 0 <= r < k && 0 <= r' < k
    ensures q == q' && r == r'
  {
    assert (q - q') * k == q * k - q' * k;
    SmallMultiple(q - q', k);
  }

  lemma SmallMultiple(x: int, k: nat)
    requires 0 - k < x * k < k
    ensures x == 0
  {
  }

  lemma {:induction false} CodeTells(points: seq<Point>, points': seq<Point>, k: nat, n: nat)
    requires n <= |points| == |points'| && Code(points, k, n) == Code(points', k, n)
    requires forall i :: 0 <= i < n ==> 0 <= points[i].cluster < k && 0 <= points'[i].cluster < k
    ensures SameClusters(points, points', n)
  {
    if n > 0 {
      SameDigit(Code(points, k, n - 1), points[n - 1].cluster, Code(points', k, n - 1), points'[n - 1].cluster, k);
      CodeTells(points, points', k, n - 1);
    }
  }

  lemma SameAssignment(base: seq<Point>, points: seq<Point>, points': seq<Point>, k: nat, dim: nat)
    requires IsAssignment(base, points, k, dim) && IsAssignment(base, points', k, dim)
    requires Code(points, k, |points|) == Code(points', k, |points|)
    ensures points == points'
  {
    CodeTells(points, points', k, |points|);
    forall i | 0 <= i < |points| ensures points[i] == points'[i] {
      assert points[i].values == base[i].values == points'[i].values;
    }
  }

  lemma {:induction false} Pigeonhole(codes: seq<int>, m: nat)
    requires forall i :: 0 <= i < |codes| ==> 0 <= codes[i] < m
    requires forall i, j :: 0 <= i < j < |codes| ==> codes[i] != codes[j]
    ensures |codes| <= m
    decreases m
  {
    if codes != [] {
      assert codes[0] < m;
      if i :| 0 <= i < |codes| && codes[i] == m - 1 {
        Pigeonhole(codes[..i] + codes[i + 1..], m - 1);
      } else {
        Pigeonhole(codes, m - 1);
      }
    }
  }

  /** No assignment comes twice, so there are at most k^n snapshots. */
  lemma DescentBound(trace: seq<Snapshot>, base: seq<Point>, k: nat, dim: nat)
    requires Descends(trace, base, k, dim)
    ensures |trace| <= Pow(k, |base|)
  {
    var n := |base|;
    forall i | 0 <= i < |trace| ensures IsAssignment(base, trace[i].points, k, dim) && MeanCost(trace[i], k, dim) {
      DescendsAt(trace, base, k, dim, i);
    }
    var codes := seq(|trace|, i requires 0 <= i < |trace| && |trace[i].points| == n => Code(trace[i].points, k, n));
    forall i | 0 <= i < |codes| ensures 0 <= codes[i] < Pow(k, n) {
      CodeInRange(trace[i].points, k, n);
    }
    forall i, j | 0 <= i < j < |codes| ensures codes[i] != codes[j] {
      DropsFar(trace, base, k, dim, i, j);
      if codes[i] == codes[j] {
        SameAssignment(base, trace[i].points, trace[j].points, k, dim);
        MeanCostIsOne(trace[i], trace[j], k, dim);
      }
    }
    Pigeonhole(codes, Pow(k, n));
  }

  // ---- the log of a run ----

  /**
   The costs of the rounds so far and the snapshots after those that moved a point; a settled run has one more
   round, which moved none, unless it was the first.
   */
  ghost predicate Logged(trace: seq<Snapshot>, costs: seq<real>, base: seq<Point>, k: nat, dim: nat, settled: bool) {
    && trace != [] && costs != [] && Descends(trace, base, k, dim) && NonIncreasing(costs)
    && costs[|costs| - 1] == trace[|trace| - 1].cost
    && |trace| <= |costs| <= |trace| + 1 && (!settled ==> |costs| == |trace|)
  }

  lemma LogStart(s: Snapshot, base: seq<Point>, k: nat, dim: nat, settled: bool)
    requires IsAssignment(base, s.points, k, dim) && MeanCost(s, k, dim)
    ensures Logged([s], [s.cost], base, k, dim, settled)
  {
    assert [s][..0] == [];
  }

  lemma LogMoved(trace: seq<Snapshot>, costs: seq<real>, s: Snapshot, base: seq<Point>, k: nat, dim: nat)
    requires Logged(trace, costs, base, k, dim, false) && Drops(trace[|trace| - 1], s)
    requires IsAssignment(base, s.points, k, dim) && MeanCost(s, k, dim)
    ensures Logged(trace + [s], costs + [s.cost], base, k, dim, false)
  {
    assert (trace + [s])[..|trace|] == trace;
  }

  lemma LogBound(trace: seq<Snapshot>, costs: seq<real>, base: seq<Point>, k: nat, dim: nat, settled: bool)
    requires Logged(trace, costs, base, k, dim, settled)
    ensures !settled ==> |costs| <= Pow(k, |base|)
    ensures |costs| <= Pow(k, |base|) + 1
  {
    DescentBound(trace, base, k, dim);
  }

  lemma LogSettled(trace: seq<Snapshot>, costs: seq<real>, cost: real, base: seq<Point>, k: nat, dim: nat)
    requires Logged(trace, costs, base, k, dim, false) && cost == costs[|costs| - 1]
    ensures Logged(trace, costs + [cost], base, k, dim, true)
  {
  }

  // ---- what a round does ----

  /**
   A round from assigned points does not raise the distortion; it keeps it exactly if every point is as
   far from its new centre as from its old one and no centre moves. If the distortion stays and a
   point moves, the sum of the cluster numbers drops.
   */
  ghost predicate RoundOutcome(points: seq<Point>, points': seq<Point>, centers: seq<Center>, centers': seq<Center>,
                               dim: nat, n: nat)
    requires Ready(points, centers, dim) && Ready(points', centers', dim) && n == |points| == |points'|
  {
    var d, d' := Distortion(points, centers, dim, n), Distortion(points', centers', dim, n);
    && Ready(points', centers, dim)
    && d' <= d && (d' == d <==> Ties(points, points', centers, dim, n) && centers' == centers)
    && (points' != points ==> Drops(Snapshot(points, d), Snapshot(points', d')))
    && (points' == points <==> AllNearest(points, centers, dim))
  }

  lemma OutcomeHolds(points: seq<Point>, points': seq<Point>, centers: seq<Center>, centers': seq<Center>, dim: nat)
    requires Ready(points, centers, dim) && Ready(points', centers, dim) && Ready(points', centers', dim)
    requires SameValues(points, points') && AllNearest(points', centers, dim)
    requires centers' == centers
             || Distortion(points', centers', dim, |points'|) < Distortion(points', centers, dim, |points'|)
    ensures RoundOutcome(points, points', centers, centers', dim, |points|)
  {
    AssignRank(points, points', centers, dim, |points|);
    if SameClusters(points, points', |points|) {
      assert forall i :: 0 <= i < |points| ==> points[i].values == points'[i].values;
    }
    if AllNearest(points, centers, dim) { NearestStays(points, points', centers, dim); }
  }

  lemma EachInItsList(points: seq<Point>, lists: seq<seq<Point>>)
    requires Partition(points, lists)
    ensures forall i, c :: 0 <= i < |points| && 0 <= c < |lists| ==> (Listed(lists[c], i) <==> points[i].cluster == c)
  {
    forall i, c | 0 <= i < |points| && 0 <= c < |lists| ensures Listed(lists[c], i) <==> points[i].cluster == c {
      PartitionIsExact(points, lists, i, c);
    }
  }

  // ---- the history of a run ----

  datatype Config = Config(points: seq<Point>, lists: seq<seq<Point>>, centers: seq<Center>)

  /** One iteration: points to their nearest centres, then centres to the means of their points, if they have any. */
  ghost predicate IsRound(a: Config, b: Config, dim: nat) {
    && |a.centers| == |b.centers| == |b.lists| && SameValues(a.points, b.points)
    && Ready(b.points, a.centers, dim) && AllNearest(b.points, a.centers, dim)
    && Ready(b.points, b.centers, dim) && Partition(b.points, b.lists) && Centered(b.lists, b.centers, dim)
    && (forall c :: 0 <= c < |b.lists| && b.lists[c] == [] ==> b.centers[c] == a.centers[c])
  }

  /** Iterations one after the other; only the last may have moved no point. */
  ghost predicate Rounds(history: seq<Config>, dim: nat)
    requires history != []
  {
    var n := |history|;
    n == 1 ||
    (&& Rounds(history[..n - 1], dim) && IsRound(history[n - 2], history[n - 1], dim)
     && (n > 2 ==> history[n - 2].points != history[n - 3].points))
  }

  /** At least one iteration, and `settled` says whether the last has moved no point. */
  ghost predicate Story(history: seq<Config>, dim: nat, settled: bool) {
    && |history| >= 2 && Rounds(history, dim)
    && (settled <==> history[|history| - 1].points == history[|history| - 2].points)
  }

  lemma StoryStart(a: Config, b: Config, dim: nat)
    requires IsRound(a, b, dim)
    ensures Story([a, b], dim, a.points == b.points)
  {
    assert [a, b][..1] == [a];
  }

  lemma StoryGoesOn(history: seq<Config>, dim: nat, b: Config)
    requires Story(history, dim, false) && IsRound(history[|history| - 1], b, dim)
    ensures Story(history + [b], dim, b.points == history[|history| - 1].points)
  {
    assert (history + [b])[..|history|] == history;
  }

  /** So each configuration comes from the one before by an iteration. */
  lemma {:induction false} RoundAt(history: seq<Config>, dim: nat, i: nat)
    requires history != [] && Rounds(history, dim) && 0 < i < |history|
    ensures IsRound(history[i - 1], history[i], dim)
    ensures i < |history| - 1 ==> history[i].points != history[i - 1].points
    decreases |history|
  {
    if i < |history| - 1 { RoundAt(history[..|history| - 1], dim, i); }
  }

  /** The costs are the distortions after the iterations. */
  ghost predicate CostsOf(history: seq<Config>, costs: seq<real>, dim: nat, n: nat) {
    && |history| == |costs| + 1
    && forall i :: 0 < i < |history| ==>
         var b := history[i];
         |b.points| == n && Ready(b.points, b.centers, dim) && costs[i - 1] == Distortion(b.points, b.centers, dim, n)
  }

  /** The centres are the points picked for the clusters to start from. */
  ghost predicate ArePicked(centers: seq<Center>, points: seq<Point>, picks: seq<nat>) {
    && |centers| == |picks|
    && forall c :: 0 <= c < |picks| ==> picks[c] < |points| && centers[c] == points[picks[c]].values
  }

  lemma CostsStart(a: Config, b: Config, dim: nat, n: nat, cost: real)
    requires |b.points| == n && Ready(b.points, b.centers, dim) && cost == Distortion(b.points, b.centers, dim, n)
    ensures CostsOf([a, b], [cost], dim, n)
  {
  }

  /** After the first iteration every point is with the nearest of the first centres. */
  lemma FirstRoundNearest(history: seq<Config>, dim: nat, settled: bool)
    requires Story(history, dim, settled)
    ensures Ready(history[1].points, history[0].centers, dim) && AllNearest(history[1].points, history[0].centers, dim)
  {
    RoundAt(history, dim, 1);
  }

  lemma CostsGoOn(history: seq<Config>, costs: seq<real>, dim: nat, n: nat, b: Config, cost: real)
    requires CostsOf(history, costs, dim, n) && |b.points| == n && Ready(b.points, b.centers, dim)
    requires cost == Distortion(b.points, b.centers, dim, n)
    ensures CostsOf(history + [b], costs + [cost], dim, n)
  {
  }

  /** The first i picked points have become the centres of their clusters; nothing else has changed. */
  ghost predicate PickedTo(start: seq<Point>, points: seq<Point>, picks: seq<nat>, centers: seq<Center>, i: nat) {
    && i <= |picks| && |centers| == i && |points| == |start|
    && (forall c :: 0 <= c < |picks| ==> picks[c] < |points|)
    && (forall c :: 0 <= c < i ==> centers[c] == start[picks[c]].values && points[picks[c]].cluster == c)
    && (forall p :: 0 <= p < |points| && p !in picks[..i] ==> points[p] == start[p])
  }

  lemma PickOne(start: seq<Point>, points: seq<Point>, picks: seq<nat>, centers: seq<Center>, i: nat)
    requires PickedTo(start, points, picks, centers, i) && i < |picks|
    requires forall c, d :: 0 <= c < d < |picks| ==> picks[c] != picks[d]
    ensures PickedTo(start, points[picks[i] := points[picks[i]].(cluster := i)], picks,
                     centers + [points[picks[i]].values], i + 1)
  {
    assert picks[..i + 1] == picks[..i] + [picks[i]];
    forall c | 0 <= c < i ensures picks[c] in picks[..i] && picks[c] != picks[i] { assert picks[..i][c] == picks[c]; }
    assert picks[i] !in picks[..i];
  }
}
