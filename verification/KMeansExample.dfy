/**
 A round that moves points and still keeps the distortion: four points, each as far from two different
 centres, change clusters, and no centre moves.
 */
module KMeansExample {
  import opened KMeansCost

  function Centres(): seq<Center> {
    [[2.0, 0.0], [0.0, 2.0], [0.0, 0.0], [2.0, 2.0]]
  }

  function PointAt(id: nat, cluster: int): Point
    requires id < 6
  {
    Point(id, cluster, [[2.0, 0.0], [0.0, 2.0], [1.0, -1.0], [-1.0, 1.0], [1.0, 3.0], [3.0, 1.0]][id])
  }

  function Before(): seq<Point> {
    [PointAt(0, 0), PointAt(1, 1), PointAt(2, 2), PointAt(3, 2), PointAt(4, 3), PointAt(5, 3)]
  }

  function After(): seq<Point> {
    [PointAt(0, 0), PointAt(1, 1), PointAt(2, 0), PointAt(3, 1), PointAt(4, 1), PointAt(5, 0)]
  }

  function ListsBefore(): seq<seq<Point>> {
    [[PointAt(0, 0)], [PointAt(1, 1)], [PointAt(2, 2), PointAt(3, 2)], [PointAt(4, 3), PointAt(5, 3)]]
  }

  function ListsAfter(): seq<seq<Point>> {
    [[PointAt(0, 0), PointAt(2, 0), PointAt(5, 0)], [PointAt(1, 1), PointAt(3, 1), PointAt(4, 1)], [], []]
  }

  lemma PlaneDist(c: Center, x: seq<real>)
    requires |c| == |x| == 2
    ensures Dist(c, x, 2) == Sq(c[0] - x[0]) + Sq(c[1] - x[1])
  {
    assert Dist(c, x, 1) == Sq(c[0] - x[0]);
  }

  lemma NearestAfter(i: nat)
    requires i < 6
    ensures CentersFit(Centres(), 2) && IsNearest(Centres(), After()[i].values, 2, After()[i].cluster)
  {
    var x := After()[i].values;
    PlaneDist(Centres()[0], x);
    PlaneDist(Centres()[1], x);
    PlaneDist(Centres()[2], x);
    PlaneDist(Centres()[3], x);
  }

  lemma TiesAfter()
    ensures Ready(Before(), Centres(), 2) && Ready(After(), Centres(), 2)
    ensures Ties(Before(), After(), Centres(), 2, 6)
  {
    BothReady();
    forall i | 0 <= i < 6
      ensures Dist(Centres()[Before()[i].cluster], Before()[i].values, 2) ==
                Dist(Centres()[After()[i].cluster], After()[i].values, 2)
    {
      TieAt(i);
    }
  }

  lemma BothReady()
    ensures Ready(Before(), Centres(), 2) && Ready(After(), Centres(), 2)
  {
  }

  lemma TieAt(i: nat)
    requires i < 6
    ensures CentersFit(Centres(), 2) && |Before()[i].values| == |After()[i].values| == 2
    ensures Dist(Centres()[Before()[i].cluster], Before()[i].values, 2) ==
              Dist(Centres()[After()[i].cluster], After()[i].values, 2)
  {
    PlaneDist(Centres()[Before()[i].cluster], Before()[i].values);
    PlaneDist(Centres()[After()[i].cluster], After()[i].values);
  }

  lemma OneMember(list: seq<Point>, center: Center)
    requires |list| == 1 && |list[0].values| == |center| == 2 && center == list[0].values
    ensures forall j :: 0 <= j < 2 ==> AtMean(list, center, j)
  {
    forall j | 0 <= j < 2 ensures AtMean(list, center, j) {
      assert CoordSum(list, j, 1) == CoordSum(list, j, 0) + list[0].values[j];
    }
  }

  lemma TwoMembers(list: seq<Point>, center: Center)
    requires |list| == 2 && ListFits(list, 2) && |center| == 2
    requires forall j :: 0 <= j < 2 ==> list[0].values[j] + list[1].values[j] == center[j] + center[j]
    ensures forall j :: 0 <= j < 2 ==> AtMean(list, center, j)
  {
    forall j | 0 <= j < 2 ensures AtMean(list, center, j) {
      assert CoordSum(list, j, 1) == list[0].values[j];
      assert CoordSum(list, j, 2) == list[0].values[j] + list[1].values[j];
    }
  }

  lemma ThreeMembers(list: seq<Point>, center: Center)
    requires |list| == 3 && ListFits(list, 2) && |center| == 2
    requires forall j :: 0 <= j < 2 ==>
               list[0].values[j] + list[1].values[j] + list[2].values[j] == center[j] + center[j] + center[j]
    ensures forall j :: 0 <= j < 2 ==> AtMean(list, center, j)
  {
    forall j | 0 <= j < 2 ensures AtMean(list, center, j) {
      assert CoordSum(list, j, 1) == list[0].values[j];
      assert CoordSum(list, j, 2) == list[0].values[j] + list[1].values[j];
      assert CoordSum(list, j, 3) == list[0].values[j] + list[1].values[j] + list[2].values[j];
    }
  }

  lemma CenteredBoth()
    ensures Centered(ListsBefore(), Centres(), 2) && Centered(ListsAfter(), Centres(), 2)
  {
    OneMember(ListsBefore()[0], Centres()[0]);
    OneMember(ListsBefore()[1], Centres()[1]);
    TwoMembers(ListsBefore()[2], Centres()[2]);
    TwoMembers(ListsBefore()[3], Centres()[3]);
    ThreeMembers(ListsAfter()[0], Centres()[0]);
    ThreeMembers(ListsAfter()[1], Centres()[1]);
  }

  lemma ListedBefore(i: nat)
    requires i < 6
    ensures Listed(ListsBefore()[Before()[i].cluster], i)
  {
    var list, p := ListsBefore()[Before()[i].cluster], if i == 3 || i == 5 then 1 else 0;
    assert list[p].id == i;
  }

  lemma ListedAfter(i: nat)
    requires i < 6
    ensures Listed(ListsAfter()[After()[i].cluster], i)
  {
    var list, p := ListsAfter()[After()[i].cluster], if i < 2 then 0 else if i < 4 then 1 else 2;
    assert list[p].id == i;
  }

  lemma PartitionBefore()
    ensures Partition(Before(), ListsBefore())
  {
    forall c | 0 <= c < 4 ensures Members(Before(), ListsBefore()[c], c) {
      forall i | 0 <= i < 6 && Before()[i].cluster == c ensures Listed(ListsBefore()[c], i) { ListedBefore(i); }
    }
  }

  lemma PartitionAfter()
    ensures Partition(After(), ListsAfter())
  {
    forall c | 0 <= c < 4 ensures Members(After(), ListsAfter()[c], c) { MembersAfter(c); }
  }

  lemma MembersAfter(c: nat)
    requires c < 4
    ensures Members(After(), ListsAfter()[c], c)
  {
    forall i | 0 <= i < 6 && After()[i].cluster == c ensures Listed(ListsAfter()[c], i) { ListedAfter(i); }
    EntriesAfter(c);
  }

  lemma EntriesAfter(c: nat)
    requires c < 4
    ensures var list := ListsAfter()[c];
            forall p :: 0 <= p < |list| ==> list[p].id < 6 && list[p] == After()[list[p].id] && list[p].cluster == c
  {
  }

  /**
   With four different centres, all of them means, the nearest-centre assignment is another one, the
   centres are its means too, and the distortion is the same. That a round moves points is not enough
   for it to lower the distortion, not even if no two centres are equal.
   */
  lemma MovesWithoutGain()
    ensures forall c, d :: 0 <= c < d < 4 ==> Centres()[c] != Centres()[d]
    ensures Ready(Before(), Centres(), 2) && Partition(Before(), ListsBefore()) && Centered(ListsBefore(), Centres(), 2)
    ensures Ready(After(), Centres(), 2) && Partition(After(), ListsAfter()) && Centered(ListsAfter(), Centres(), 2)
    ensures SameValues(Before(), After()) && AllNearest(After(), Centres(), 2) && Before() != After()
    ensures Distortion(After(), Centres(), 2, 6) == Distortion(Before(), Centres(), 2, 6)
  {
    CenteredBoth();
    PartitionBefore();
    PartitionAfter();
    assert Before()[2].cluster != After()[2].cluster;
    forall c, d | 0 <= c < d < 4 ensures Centres()[c] != Centres()[d] { CentresDiffer(c, d); }
    NoGain();
  }

  lemma NoGain()
    ensures Ready(Before(), Centres(), 2) && Ready(After(), Centres(), 2)
    ensures SameValues(Before(), After()) && AllNearest(After(), Centres(), 2)
    ensures Distortion(After(), Centres(), 2, 6) == Distortion(Before(), Centres(), 2, 6)
  {
    TiesAfter();
    forall i | 0 <= i < 6 ensures IsNearest(Centres(), After()[i].values, 2, After()[i].cluster) { NearestAfter(i); }
    AssignRank(Before(), After(), Centres(), 2, 6);
  }

  lemma CentresDiffer(c: nat, d: nat)
    requires c < d < 4
    ensures Centres()[c] != Centres()[d]
  {
    assert Centres()[c][0] != Centres()[d][0] || Centres()[c][1] != Centres()[d][1];
  }
}
