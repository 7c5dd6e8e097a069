/**
 How far an insert of the two-table cuckoo set can look: ways from the two buckets of a value over
 stored values, and what it means that there is no room near, or that two ways look the same.
 */
module CuckooReach {
  import opened CuckooCore
  import opened CuckooContents
  import PS = PathSearch

  datatype Place = Place(table: int, index: nat)

  /** Where the slots lead: from one of the two buckets always on to the other bucket of the value in the slot. */
  ghost function EndOf(cells: Cells, buckets: nat, idx1: nat, idx2: nat, root: nat, slots: seq<nat>): Place
    requires buckets > 0
  {
    if slots == [] then (if root == 0 then Place(1, idx1) else Place(2, idx2))
    else
      var p := EndOf(cells, buckets, idx1, idx2, root, slots[..|slots| - 1]);
      var val := At(cells, Cell(p.table, p.index, slots[|slots| - 1]));
      Place(3 - p.table, Hash(val, 3 - p.table, buckets))
  }

  /** There is a value in every slot on the way. */
  ghost predicate IsWay(cells: Cells, buckets: nat, idx1: nat, idx2: nat, root: nat, slots: seq<nat>)
    requires buckets > 0
  {
    && root < 2
    && (slots != [] ==>
          var init, last := slots[..|slots| - 1], slots[|slots| - 1];
          var p := EndOf(cells, buckets, idx1, idx2, root, init);
          IsWay(cells, buckets, idx1, idx2, root, init) && last < 6 && Cell(p.table, p.index, last) in cells)
  }

  ghost predicate FullBucket(cells: Cells, p: Place) {
    forall slot :: 0 <= slot < 6 ==> Cell(p.table, p.index, slot) in cells
  }

  /** Every bucket that takes at most so many hops to reach is full. */
  ghost predicate NoRoomWithin(cells: Cells, buckets: nat, idx1: nat, idx2: nat, hops: int)
    requires buckets > 0
  {
    forall root, slots :: |slots| <= hops && IsWay(cells, buckets, idx1, idx2, root, slots) ==>
      FullBucket(cells, EndOf(cells, buckets, idx1, idx2, root, slots))
  }

  /**
   The value seen at the end of a way: in the slot last taken, or in the
   first or second for the two buckets themselves.
   */
  ghost function SeenAt(cells: Cells, buckets: nat, idx1: nat, idx2: nat, root: nat, slots: seq<nat>): int
    requires buckets > 0
  {
    var p := EndOf(cells, buckets, idx1, idx2, root, slots);
    At(cells, Cell(p.table, p.index, if slots == [] then root else slots[|slots| - 1]))
  }

  /**
   Two different ways of at most so many hops see one value, the shorter ends in a full bucket and
   nothing nearer than the longer has room.
   */
  ghost predicate LooksLikeLoop(
      cells: Cells, buckets: nat, idx1: nat, idx2: nat, hops: nat,
      root: nat, slots: seq<nat>, root': nat, slots': seq<nat>)
    requires buckets > 0
  {
    && (root, slots) != (root', slots') && |slots| <= |slots'| <= hops
    && IsWay(cells, buckets, idx1, idx2, root, slots) && IsWay(cells, buckets, idx1, idx2, root', slots')
    && FullBucket(cells, EndOf(cells, buckets, idx1, idx2, root, slots))
    && SeenAt(cells, buckets, idx1, idx2, root, slots) == SeenAt(cells, buckets, idx1, idx2, root', slots')
    && NoRoomWithin(cells, buckets, idx1, idx2, |slots'| - 1)
  }

  ghost predicate HasLoop(cells: Cells, buckets: nat, idx1: nat, idx2: nat, hops: nat)
    requires buckets > 0
  {
    exists root, slots, root', slots' :: LooksLikeLoop(cells, buckets, idx1, idx2, hops, root, slots, root', slots')
  }

  // ---- the same in terms of the search ----

  lemma {:induction false} WayIsTrail(cells: Cells, buckets: nat, idx1: nat, idx2: nat, root: nat, slots: seq<nat>)
    requires buckets > 0 && forall c :: c in cells ==> cells[c] != EMPTY
    ensures var sh, look := ShapeOf(buckets, idx1, idx2), Look(cells);
            var p := EndOf(cells, buckets, idx1, idx2, root, slots);
            && PS.Walk(sh, look, root, slots) == PS.Bucket(p.table, p.index)
            && (PS.Trail(sh, look, root, slots) <==> IsWay(cells, buckets, idx1, idx2, root, slots))
            && PS.EntryOfWay(sh, look, root, slots) == SeenAt(cells, buckets, idx1, idx2, root, slots)
            && (PS.Full(sh, look, PS.Walk(sh, look, root, slots)) <==> FullBucket(cells, p))
    decreases |slots|
  {
    if slots != [] { WayIsTrail(cells, buckets, idx1, idx2, root, slots[..|slots| - 1]); }
    FullIsFull(cells, ShapeOf(buckets, idx1, idx2), EndOf(cells, buckets, idx1, idx2, root, slots));
  }

  lemma FullIsFull(cells: Cells, sh: PS.Shape, p: Place)
    requires sh.width == 6 && forall c :: c in cells ==> cells[c] != EMPTY
    ensures PS.Full(sh, Look(cells), PS.Bucket(p.table, p.index)) <==> FullBucket(cells, p)
  {
    forall slot: nat
      ensures Look(cells)(PS.Bucket(p.table, p.index), slot) != EMPTY <==> Cell(p.table, p.index, slot) in cells
    {
      assert Look(cells)(PS.Bucket(p.table, p.index), slot) == At(cells, Cell(p.table, p.index, slot));
    }
  }

  lemma NoneCloserIsNoRoom(cells: Cells, buckets: nat, idx1: nat, idx2: nat, d: nat)
    requires buckets > 0 && forall c :: c in cells ==> cells[c] != EMPTY
    requires PS.NoneCloser(ShapeOf(buckets, idx1, idx2), Look(cells), d)
    ensures NoRoomWithin(cells, buckets, idx1, idx2, d - 1)
  {
    forall root, slots | |slots| <= d - 1 && IsWay(cells, buckets, idx1, idx2, root, slots)
      ensures FullBucket(cells, EndOf(cells, buckets, idx1, idx2, root, slots))
    {
      WayIsTrail(cells, buckets, idx1, idx2, root, slots);
    }
  }

  /** A search gives up only if nothing within six hops has room, or if it sees a loop within six hops. */
  lemma GivesUpWithinSix(cells: Cells, buckets: nat, idx1: nat, idx2: nat)
    requires buckets > 0 && (forall c :: c in cells ==> cells[c] != EMPTY)
    requires PS.ShapeOk(ShapeOf(buckets, idx1, idx2)) && PS.GivesUp(ShapeOf(buckets, idx1, idx2), Look(cells))
    ensures NoRoomWithin(cells, buckets, idx1, idx2, 6) || HasLoop(cells, buckets, idx1, idx2, 6)
  {
    var sh, look := ShapeOf(buckets, idx1, idx2), Look(cells);
    if PS.NoneCloser(sh, look, sh.maxDepth) {
      NoneCloserIsNoRoom(cells, buckets, idx1, idx2, 7);
    } else {
      var p, q :| PS.LoopAt(sh, look, p, q);
      var root, slots, root', slots' := PS.LoopIsTwoWays(sh, look, p, q);
      WayIsTrail(cells, buckets, idx1, idx2, root, slots);
      WayIsTrail(cells, buckets, idx1, idx2, root', slots');
      NoneCloserIsNoRoom(cells, buckets, idx1, idx2, |slots'|);
      assert LooksLikeLoop(cells, buckets, idx1, idx2, 6, root, slots, root', slots');
    }
  }
}
