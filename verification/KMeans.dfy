/**
 Serial Lloyd k-means: `Cluster` keeps a centre and copies of its points, `KMeans.Run` alternates
 assignment and recentring in place until nothing moves or the iterations run out.
 */
module KMeans {
  import opened KMeansCost

  class Cluster {
    const id: nat
    var centralValues: Center
    var points: seq<Point>

    constructor (id: nat, point: Point)
      ensures this.id == id && centralValues == point.values && points == [point]
    {
      this.id := id;
      centralValues, points := [], [point];
      new;
      var i := 0;
      while i < |point.values|
        invariant 0 <= i <= |point.values| && centralValues == point.values[..i] && points == [point]
      {
        centralValues := centralValues + [point.values[i]];
        i := i + 1;
      }
    }

    method AddPoint(point: Point)
      modifies this`points
      ensures points == old(points) + [point]
    {
      points := points + [point];
    }

    method RemovePoint(pointId: nat) returns (removed: bool)
      modifies this`points
      ensures points == Without(old(points), pointId)
      ensures removed <==> Listed(old(points), pointId)
    {
      var i := 0;
      while i < |points|
        invariant 0 <= i <= |points| && points == old(points)
        invariant forall q :: 0 <= q < i ==> points[q].id != pointId
      {
        if points[i].id == pointId {
          WithoutAt(points, pointId, i);
          points := points[..i] + points[i + 1..];
          return true;
        }
        i := i + 1;
      }
      WithoutAbsent(points, pointId);
      removed := false;
    }

    method SetCentralValue(j: nat, v: real)
      requires j < |centralValues|
      modifies this`centralValues
      ensures centralValues == old(centralValues)[j := v]
    {
      centralValues := centralValues[j := v];
    }
  }

  class KMeans {
    const k: nat
    const totalPoints: nat
    const totalValues: nat
    const maxIterations: int
    var clusters: seq<Cluster>
    /** The clusters' point lists and centres. */
    ghost var lists: seq<seq<Point>>
    ghost var centers: seq<Center>

    ghost predicate Valid()
      reads this, clusters
    {
      && |clusters| == |lists| == |centers| && CentersFit(centers, totalValues)
      && (forall c, d :: 0 <= c < d < |clusters| ==> clusters[c] != clusters[d])
      && (forall c :: 0 <= c < |clusters| ==> clusters[c].points == lists[c] && clusters[c].centralValues == centers[c])
    }

    /** The points and the clusters' copies of them fit together. */
    ghost predicate Holds(ps: seq<Point>)
      reads this
    {
      |ps| == totalPoints && PointsFit(ps, |lists|, totalValues) && Partition(ps, lists)
    }

    constructor (k: nat, totalPoints: nat, totalValues: nat, maxIterations: int)
      ensures Valid() && clusters == []
      ensures this.k == k && this.totalPoints == totalPoints && this.totalValues == totalValues
      ensures this.maxIterations == maxIterations
    {
      this.k, this.totalPoints, this.totalValues, this.maxIterations := k, totalPoints, totalValues, maxIterations;
      clusters, lists, centers := [], [], [];
    }

    method DistanceTo(c: nat, point: Point) returns (sum: real)
      requires Valid() && c < |clusters| && |point.values| == totalValues
      ensures sum == Dist(centers[c], point.values, totalValues)
    {
      sum := 0.0;
      var i := 0;
      while i < totalValues
        invariant 0 <= i <= totalValues && sum == Dist(centers[c], point.values, i)
      {
        sum := sum + Sq(clusters[c].centralValues[i] - point.values[i]);
        i := i + 1;
      }
    }

    /** `getIDNearestCenter`, on squared distances. */
    method NearestCenter(point: Point) returns (nearest: nat)
      requires Valid() && clusters != [] && |point.values| == totalValues
      ensures IsNearest(centers, point.values, totalValues, nearest)
    {
      nearest := 0;
      var min := DistanceTo(0, point);
      var i := 1;
      while i < |clusters|
        invariant 1 <= i <= |clusters| && nearest < i
        invariant min == Dist(centers[nearest], point.values, totalValues)
        invariant forall d :: 0 <= d < i ==> min <= Dist(centers[d], point.values, totalValues)
        invariant forall d :: 0 <= d < nearest ==> min < Dist(centers[d], point.values, totalValues)
      {
        var dist := DistanceTo(i, point);
        if dist < min {
          min, nearest := dist, i;
        }
        i := i + 1;
      }
    }

    method Leave(c: nat, pointId: nat)
      requires Valid() && c < |clusters|
      modifies this`lists, clusters[c]
      ensures Valid() && lists == old(lists)[c := Without(old(lists)[c], pointId)]
    {
      var removed := clusters[c].RemovePoint(pointId);
      lists := lists[c := clusters[c].points];
    }

    method Join(c: nat, point: Point)
      requires Valid() && c < |clusters|
      modifies this`lists, clusters[c]
      ensures Valid() && lists == old(lists)[c := old(lists)[c] + [point]]
    {
      clusters[c].AddPoint(point);
      lists := lists[c := clusters[c].points];
    }

    /** One pass of the assignment loop. */
    method AssignPoint(points: array<Point>, i: nat) returns (moved: bool, nearest: nat)
      requires Valid() && Holds(points[..]) && clusters != [] && i < points.Length
      modifies this`lists, clusters, points
      ensures Valid() && Holds(points[..]) && |lists| == old(|lists|)
      ensures IsNearest(centers, old(points[i].values), totalValues, nearest)
      ensures points[..] == old(points[..])[i := old(points[i]).(cluster := nearest)]
      ensures lists == Reassigned(old(points[..]), old(lists), i, nearest)
      ensures moved <==> old(points[i].cluster) != nearest
    {
      var was := points[i].cluster;
      nearest := NearestCenter(points[i]);
      ReassignKeepsPartition(points[..], lists, i, nearest, totalValues);
      moved := was != nearest;
      ghost var ps := points[..];
      if moved {
        if was != -1 {
          Leave(was, points[i].id);
        }
        points[i] := points[i].(cluster := nearest);
        Join(nearest, points[i]);
      }
      assert points[..] == ps[i := ps[i].(cluster := nearest)];
    }

    /** The assignment loop. */
    method AssignAll(points: array<Point>) returns (done: bool)
      requires Valid() && Holds(points[..]) && (clusters != [] || totalPoints == 0)
      modifies this`lists, clusters, points
      ensures Valid() && Holds(points[..]) && |lists| == old(|lists|) && SameValues(old(points[..]), points[..])
      ensures Ready(points[..], centers, totalValues) && AllNearest(points[..], centers, totalValues)
      ensures done <==> points[..] == old(points[..])
      ensures done ==> lists == old(lists)
    {
      done := true;
      var i := 0;
      while i < totalPoints
        invariant 0 <= i <= totalPoints && Valid() && Holds(points[..]) && |lists| == old(|lists|)
        invariant AssignedTo(old(points[..]), points[..], centers, totalValues, i, done)
        invariant done ==> lists == old(lists)
      {
        var moved := AssignNext(points, old(points[..]), i, done);
        if moved {
          done := false;
        }
        i := i + 1;
      }
    }

    /** The same, as one more step of a pass. */
    method AssignNext(points: array<Point>, ghost start: seq<Point>, i: nat, ghost done: bool) returns (moved: bool)
      requires Valid() && Holds(points[..]) && clusters != [] && i < points.Length
      requires AssignedTo(start, points[..], centers, totalValues, i, done)
      modifies this`lists, clusters, points
      ensures Valid() && Holds(points[..]) && |lists| == old(|lists|) && (!moved ==> lists == old(lists))
      ensures AssignedTo(start, points[..], centers, totalValues, i + 1, done && !moved)
    {
      ghost var ps := points[..];
      var nearest;
      moved, nearest := AssignPoint(points, i);
      AssignedOneMore(start, ps, centers, totalValues, i, done, nearest);
    }

    /** One pass of the recentring loops: the coordinate becomes the members' mean, if there are any. */
    method RecenterValue(c: nat, j: nat)
      requires Valid() && c < |clusters| && j < totalValues && ListsFit(lists, totalValues)
      modifies this`centers, clusters[c]
      ensures Valid() && centers == Recentered(lists, old(centers), c, j)
    {
      assert ListFits(lists[c], totalValues);
      var total := |clusters[c].points|;
      if total > 0 {
        var sum := 0.0;
        var p := 0;
        while p < total
          invariant 0 <= p <= total && sum == CoordSum(lists[c], j, p)
        {
          sum := sum + clusters[c].points[p].values[j];
          p := p + 1;
        }
        clusters[c].SetCentralValue(j, sum / (total as real));
        centers := centers[c := clusters[c].centralValues];
      }
    }

    /** The recentring loops. */
    method RecenterAll(ghost ps: seq<Point>)
      requires Valid() && Holds(ps) && Ready(ps, centers, totalValues)
      modifies this`centers, clusters
      ensures Valid() && Ready(ps, centers, totalValues) && Centered(lists, centers, totalValues)
      ensures centers == old(centers)
              || Distortion(ps, centers, totalValues, |ps|) < Distortion(ps, old(centers), totalValues, |ps|)
      ensures Centered(lists, old(centers), totalValues) ==> centers == old(centers)
      ensures |centers| == old(|centers|)
      ensures forall c :: 0 <= c < |lists| && lists[c] == [] ==> centers[c] == old(centers)[c]
    {
      ghost var start := centers;
      MembersFit(ps, lists, |lists|, totalValues);
      var c := 0;
      while c < |clusters|
        invariant 0 <= c <= |clusters| && Valid()
        invariant RecenteredTo(ps, lists, start, centers, totalValues, c, 0)
      {
        RecenterCluster(ps, start, c);
        c := c + 1;
      }
    }

    method RecenterCluster(ghost ps: seq<Point>, ghost start: seq<Center>, c: nat)
      requires Valid() && c < |clusters| && Partition(ps, lists) && ListsFit(lists, totalValues)
      requires RecenteredTo(ps, lists, start, centers, totalValues, c, 0)
      modifies this`centers, clusters[c]
      ensures Valid() && RecenteredTo(ps, lists, start, centers, totalValues, c + 1, 0)
    {
      var j := 0;
      while j < totalValues
        invariant 0 <= j <= totalValues && Valid()
        invariant RecenteredTo(ps, lists, start, centers, totalValues, c, j)
      {
        RecenterOneMore(ps, lists, start, centers, totalValues, c, j);
        RecenterValue(c, j);
        j := j + 1;
      }
    }

    /** The points sit in the clusters' lists and the centres are means: how a round leaves them. */
    ghost predicate Settled(ps: seq<Point>)
      reads this, clusters
    {
      Valid() && Holds(ps) && Ready(ps, centers, totalValues) && Centered(lists, centers, totalValues)
    }

    /** Sum of the squared distances of the points to their centres. */
    ghost function Cost(ps: seq<Point>): real
      requires Settled(ps)
      reads this, clusters
    {
      Distortion(ps, centers, totalValues, totalPoints)
    }

    ghost function Now(ps: seq<Point>): Config
      reads this
    {
      Config(ps, lists, centers)
    }

    /** What one iteration does, from any points. */
    method Round(points: array<Point>) returns (done: bool, ghost cost: real)
      requires Valid() && Holds(points[..]) && (clusters != [] || totalPoints == 0)
      modifies this`lists, this`centers, clusters, points
      ensures Settled(points[..]) && |lists| == old(|lists|) && SameValues(old(points[..]), points[..])
      ensures cost == Cost(points[..])
      ensures done <==> points[..] == old(points[..])
      ensures done && old(Centered(lists, centers, totalValues)) ==>
                lists == old(lists) && centers == old(centers) && AllNearest(points[..], centers, totalValues)
      ensures IsRound(old(Now(points[..])), Now(points[..]), totalValues)
      ensures old(Ready(points[..], centers, totalValues)) ==>
                RoundOutcome(old(points[..]), points[..], old(centers), centers, totalValues, totalPoints)
    {
      done := AssignAll(points);
      ghost var ps := points[..];
      RecenterAll(ps);
      cost := Cost(ps);
      if old(Ready(points[..], centers, totalValues)) {
        OutcomeHolds(old(points[..]), ps, old(centers), centers, totalValues);
      }
    }

    /**
     One iteration after another: nothing moves exactly if every point is with its nearest centre, and
     then nothing changes; otherwise the rank drops.
     */
    method Again(points: array<Point>) returns (done: bool, ghost cost: real)
      requires Settled(points[..]) && (clusters != [] || totalPoints == 0)
      modifies this`lists, this`centers, clusters, points
      ensures Settled(points[..]) && |lists| == old(|lists|) && SameValues(old(points[..]), points[..])
      ensures cost == Cost(points[..])
      ensures done <==> old(AllNearest(points[..], centers, totalValues))
      ensures done ==>
                && points[..] == old(points[..]) && AllNearest(points[..], centers, totalValues)
                && cost == old(Cost(points[..]))
      ensures IsRound(old(Now(points[..])), Now(points[..]), totalValues)
      ensures done <==> points[..] == old(points[..])
      ensures !done ==>
                Drops(Snapshot(old(points[..]), old(Cost(points[..]))), Snapshot(points[..], cost))
    {
      done, cost := Round(points);
    }

    /** The first points of the clusters: any distinct choice. */
    method Seed(points: array<Point>, picks: seq<nat>)
      requires Valid() && clusters == [] && points.Length == totalPoints && PointsFit(points[..], 0, totalValues)
      requires |picks| == k && (forall c :: 0 <= c < k ==> picks[c] < totalPoints)
      requires forall c, d :: 0 <= c < d < k ==> picks[c] != picks[d]
      modifies this, points
      ensures Valid() && Holds(points[..]) && |lists| == k && SameValues(old(points[..]), points[..])
      ensures Centered(lists, centers, totalValues)
      ensures forall c :: 0 <= c < k ==> fresh(clusters[c])
      ensures ArePicked(centers, old(points[..]), picks)
      ensures forall c :: 0 <= c < k ==> points[picks[c]].cluster == c
      ensures forall p :: 0 <= p < totalPoints && p !in picks ==> points[p] == old(points[p])
    {
      var i := 0;
      while i < k
        invariant 0 <= i <= k && |clusters| == i && Valid() && Holds(points[..])
        invariant SameValues(old(points[..]), points[..]) && Centered(lists, centers, totalValues)
        invariant forall c :: i <= c < k ==> points[picks[c]].cluster == -1
        invariant forall c :: 0 <= c < i ==> fresh(clusters[c])
        invariant PickedTo(old(points[..]), points[..], picks, centers, i)
      {
        ghost var ps := points[..];
        PickOne(old(points[..]), ps, picks, centers, i);
        SeedOne(points, picks[i]);
        i := i + 1;
      }
    }

    method SeedOne(points: array<Point>, p: nat)
      requires Valid() && Holds(points[..]) && p < totalPoints && points[p].cluster == -1
      requires Centered(lists, centers, totalValues)
      modifies this, points
      ensures Valid() && Holds(points[..]) && Centered(lists, centers, totalValues)
      ensures points[..] == old(points[..])[p := old(points[p]).(cluster := old(|clusters|))]
      ensures centers == old(centers) + [old(points[p].values)]
      ensures |clusters| == old(|clusters|) + 1 && clusters[..old(|clusters|)] == old(clusters)
      ensures fresh(clusters[old(|clusters|)])
    {
      SeedKeeps(points[..], lists, p, totalValues);
      OneIsMean(points[p].(cluster := |clusters|), totalValues);
      ghost var ps := points[..];
      points[p] := points[p].(cluster := |clusters|);
      var cluster := new Cluster(|clusters|, points[p]);
      clusters := clusters + [cluster];
      lists, centers := lists + [[points[p]]], centers + [points[p].values];
      assert points[..] == ps[p := points[p]];
    }

    /**
     `run`, for whatever K distinct points the random choice gives; `settled` is the flag it leaves
     the loop with. The costs of the iterations never rise, a settled run is a fixed point, and there
     are at most K^n iterations that move a point, so a larger bound on the iterations is never reached.
     `history` has the picked points as its first centres, and then each iteration.
     */
    method Run(points: array<Point>, picks: seq<nat>)
      returns (settled: bool, ghost costs: seq<real>, ghost history: seq<Config>)
      requires Valid() && clusters == [] && points.Length == totalPoints && PointsFit(points[..], 0, totalValues)
      requires k > 0 || totalPoints == 0
      requires k <= totalPoints ==> |picks| == k && (forall c :: 0 <= c < k ==> picks[c] < totalPoints)
      requires k <= totalPoints ==> forall c, d :: 0 <= c < d < k ==> picks[c] != picks[d]
      modifies this, points
      ensures Valid() && SameValues(old(points[..]), points[..])
      ensures k > totalPoints ==> unchanged(this) && unchanged(points) && costs == []
      ensures k <= totalPoints ==> Outcome(old(points[..]), picks, points[..], settled, costs, history)
    {
      if k > totalPoints {
        return false, [], [];
      }
      settled, costs, history := RunPicked(points, picks);
      OutcomeFollows(old(points[..]), picks, points[..], settled, costs, history);
    }

    method RunPicked(points: array<Point>, picks: seq<nat>)
      returns (settled: bool, ghost costs: seq<real>, ghost history: seq<Config>)
      requires Valid() && clusters == [] && points.Length == totalPoints && PointsFit(points[..], 0, totalValues)
      requires |picks| == k && (k > 0 || totalPoints == 0) && (forall c :: 0 <= c < k ==> picks[c] < totalPoints)
      requires forall c, d :: 0 <= c < d < k ==> picks[c] != picks[d]
      modifies this, points
      ensures Iterated(points[..], settled, costs, history) && |lists| == k && SameValues(old(points[..]), points[..])
      ensures ArePicked(history[0].centers, old(points[..]), picks)
    {
      Seed(points, picks);
      settled, costs, history := Iterate(points);
    }

    lemma OutcomeFollows(start: seq<Point>, picks: seq<nat>, ps: seq<Point>, settled: bool, costs: seq<real>,
                         history: seq<Config>)
      requires Iterated(ps, settled, costs, history) && |lists| == k && SameValues(start, ps)
      requires ArePicked(history[0].centers, start, picks)
      ensures Outcome(start, picks, ps, settled, costs, history)
    {
      EachInItsList(ps, lists);
      FirstRoundNearest(history, totalValues, settled);
    }

    /** What the main loop comes to. */
    ghost predicate Iterated(ps: seq<Point>, settled: bool, costs: seq<real>, history: seq<Config>)
      reads this, clusters
    {
      && Settled(ps) && costs != [] && NonIncreasing(costs) && costs[|costs| - 1] == Cost(ps)
      && (settled ==> AllNearest(ps, centers, totalValues))
      && (!settled ==> |costs| == if maxIterations < 1 then 1 else maxIterations)
      && (!settled ==> |costs| <= Pow(|lists|, totalPoints))
      && (maxIterations <= 1 ==> |costs| == 1) && Told(ps, history, costs, settled)
    }

    /** What a run from the picked points comes to. */
    ghost predicate Outcome(start: seq<Point>, picks: seq<nat>, ps: seq<Point>, settled: bool, costs: seq<real>,
                            history: seq<Config>)
      reads this, clusters
    {
      && Settled(ps) && |lists| == k && SameValues(start, ps)
      && (forall i, c :: 0 <= i < totalPoints && 0 <= c < k ==> (Listed(lists[c], i) <==> ps[i].cluster == c))
      && costs != [] && NonIncreasing(costs) && costs[|costs| - 1] == Cost(ps)
      && (settled ==> AllNearest(ps, centers, totalValues))
      && (!settled ==> |costs| == if maxIterations < 1 then 1 else maxIterations)
      && (maxIterations > Pow(k, totalPoints) || |costs| > Pow(k, totalPoints) ==> settled)
      && Told(ps, history, costs, settled) && ArePicked(history[0].centers, start, picks)
      && (maxIterations <= 1 ==>
            forall p :: 0 <= p < totalPoints ==>
              IsNearest(history[0].centers, ps[p].values, totalValues, ps[p].cluster))
    }

    /** The main loop, from any clusters already at their means. */
    method Iterate(points: array<Point>)
      returns (settled: bool, ghost costs: seq<real>, ghost history: seq<Config>)
      requires Valid() && Holds(points[..]) && (clusters != [] || totalPoints == 0)
      requires Centered(lists, centers, totalValues)
      modifies this`lists, this`centers, clusters, points
      ensures Iterated(points[..], settled, costs, history) && history[0] == old(Now(points[..]))
      ensures |lists| == old(|lists|) && SameValues(old(points[..]), points[..])
    {
      ghost var trace;
      settled, costs, trace, history := FirstRound(points);
      ghost var base := points[..];
      settled, costs, trace, history := MoreRounds(points, settled, base, trace, costs, history);
      LogBound(trace, costs, base, |lists|, totalValues, settled);
    }

    /** The loop after its first round. */
    method MoreRounds(points: array<Point>, settled: bool, ghost base: seq<Point>, ghost trace: seq<Snapshot>,
                      ghost costs: seq<real>, ghost history: seq<Config>)
      returns (settled': bool, ghost costs': seq<real>, ghost trace': seq<Snapshot>, ghost history': seq<Config>)
      requires Standing(points[..], base, trace, costs, settled) && |costs| == 1
      requires Told(points[..], history, costs, settled)
      modifies this`lists, this`centers, clusters, points
      ensures Standing(points[..], base, trace', costs', settled')
      ensures |lists| == old(|lists|) && SameValues(old(points[..]), points[..])
      ensures !settled' ==> |costs'| == if maxIterations < 1 then 1 else maxIterations
      ensures maxIterations <= 1 ==> |costs'| == 1
      ensures Told(points[..], history', costs', settled') && history'[0] == history[0]
    {
      settled', costs', trace', history' := settled, costs, trace, history;
      var iter := 1;
      while !settled' && iter < maxIterations
        invariant Standing(points[..], base, trace', costs', settled') && |lists| == old(|lists|)
        invariant SameValues(old(points[..]), points[..])
        invariant Told(points[..], history', costs', settled') && history'[0] == history[0]
        invariant |costs'| == iter <= (if maxIterations < 1 then 1 else maxIterations)
        decreases maxIterations - iter
      {
        settled', costs', trace', history' := NextRound(points, base, trace', costs', history');
        iter := iter + 1;
      }
    }

    /** Where the loop stands after a round, with the log of the rounds so far. */
    ghost predicate Standing(ps: seq<Point>, base: seq<Point>, trace: seq<Snapshot>, costs: seq<real>, settled: bool)
      reads this, clusters
    {
      && Settled(ps) && (clusters != [] || totalPoints == 0) && |base| == totalPoints
      && Logged(trace, costs, base, |lists|, totalValues, settled)
      && trace[|trace| - 1] == Snapshot(ps, Cost(ps)) && costs[|costs| - 1] == Cost(ps)
      && (settled ==> AllNearest(ps, centers, totalValues))
    }

    /** What the history tells, up to the points and clusters as they are. */
    ghost predicate Told(ps: seq<Point>, history: seq<Config>, costs: seq<real>, settled: bool)
      reads this
    {
      && Story(history, totalValues, settled) && CostsOf(history, costs, totalValues, totalPoints)
      && history[|history| - 1] == Now(ps)
    }

    method FirstRound(points: array<Point>)
      returns (settled: bool, ghost costs: seq<real>, ghost trace: seq<Snapshot>, ghost history: seq<Config>)
      requires Valid() && Holds(points[..]) && (clusters != [] || totalPoints == 0)
      requires Centered(lists, centers, totalValues)
      modifies this`lists, this`centers, clusters, points
      ensures Standing(points[..], points[..], trace, costs, settled)
      ensures |lists| == old(|lists|) && SameValues(old(points[..]), points[..]) && |costs| == 1
      ensures Told(points[..], history, costs, settled) && history[0] == old(Now(points[..]))
    {
      ghost var cost;
      settled, cost := Round(points);
      trace, costs := [Snapshot(points[..], cost)], [cost];
      assert CostsAt(trace[0], |lists|, totalValues, lists, centers);
      LogStart(trace[0], points[..], |lists|, totalValues, settled);
      history := [old(Now(points[..])), Now(points[..])];
      StoryStart(history[0], history[1], totalValues);
      CostsStart(history[0], history[1], totalValues, totalPoints, cost);
    }

    method NextRound(points: array<Point>, ghost base: seq<Point>, ghost trace: seq<Snapshot>, ghost costs: seq<real>,
                     ghost history: seq<Config>)
      returns (settled: bool, ghost costs': seq<real>, ghost trace': seq<Snapshot>, ghost history': seq<Config>)
      requires Standing(points[..], base, trace, costs, false) && Told(points[..], history, costs, false)
      modifies this`lists, this`centers, clusters, points
      ensures Standing(points[..], base, trace', costs', settled)
      ensures |lists| == old(|lists|) && SameValues(old(points[..]), points[..]) && |costs'| == |costs| + 1
      ensures Told(points[..], history', costs', settled) && history'[0] == history[0]
    {
      ghost var cost;
      settled, cost := Again(points);
      costs' := costs + [cost];
      history' := history + [Now(points[..])];
      StoryGoesOn(history, totalValues, Now(points[..]));
      CostsGoOn(history, costs, totalValues, totalPoints, Now(points[..]), cost);
      if settled {
        trace' := trace;
        LogSettled(trace, costs, cost, base, |lists|, totalValues);
      } else {
        ghost var s := Snapshot(points[..], cost);
        trace' := trace + [s];
        assert CostsAt(s, |lists|, totalValues, lists, centers);
        LogMoved(trace, costs, s, base, |lists|, totalValues);
      }
    }
  }
}
