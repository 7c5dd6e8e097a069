/**
 How far an insert of the single-table map can look: ways from the two buckets of a key over stored
 keys, each by the other hash of the key before it, and what it means that there is no room near, or
 that two ways look the same.
 */
module FlatReach {
  import opened FlatStore
  import PS = PathSearch

  datatype Place = Place(table: int, index: nat)

  /** Where the slots lead: from one of the two buckets always on to the other bucket of the key in the slot. */
  ghost function EndOf(es: Entries, lay: Layout, key: int, root: nat, slots: seq<nat>): Place
    requires lay.buckets > 0
  {
    if slots == [] then (if root == 0 then Place(1, Hash(lay, key, 1)) else Place(2, Hash(lay, key, 2)))
    else
      var p := EndOf(es, lay, key, root, slots[..|slots| - 1]);
      var next := KeyAt(es, Cell(p.index, slots[|slots| - 1]));
      Place(3 - p.table, Hash(lay, next, 3 - p.table))
  }

  /** There is a key in every slot on the way. */
  ghost predicate IsWay(es: Entries, lay: Layout, key: int, root: nat, slots: seq<nat>)
    requires lay.buckets > 0
  {
    && root < 2
    && (slots != [] ==>
          var init, last := slots[..|slots| - 1], slots[|slots| - 1];
          var p := EndOf(es, lay, key, root, init);
          IsWay(es, lay, key, root, init) && last < 8 && Cell(p.index, last) in es)
  }

  ghost predicate FullBucket(es: Entries, p: Place) {
    forall slot :: 0 <= slot < 8 ==> Cell(p.index, slot) in es
  }

  /** Every bucket that takes at most so many hops to reach is full. */
  ghost predicate NoRoomWithin(es: Entries, lay: Layout, key: int, hops: int)
    requires lay.buckets > 0
  {
    forall root, slots :: |slots| <= hops && IsWay(es, lay, key, root, slots) ==>
      FullBucket(es, EndOf(es, lay, key, root, slots))
  }

  /**
   The key seen at the end of a way: in the slot last taken, or in the
   first or second for the two buckets themselves.
   */
  ghost function SeenAt(es: Entries, lay: Layout, key: int, root: nat, slots: seq<nat>): int
    requires lay.buckets > 0
  {
    var p := EndOf(es, lay, key, root, slots);
    KeyAt(es, Cell(p.index, if slots == [] then root else slots[|slots| - 1]))
  }

  /**
   Two different ways of at most so many hops see one key, the shorter ends in a full bucket and
   nothing nearer than the longer has room.
   */
  ghost predicate LooksLikeLoop(
      es: Entries, lay: Layout, key: int, hops: nat,
      root: nat, slots: seq<nat>, root': nat, slots': seq<nat>)
    requires lay.buckets > 0
  {
    && (root, slots) != (root', slots') && |slots| <= |slots'| <= hops
    && IsWay(es, lay, key, root, slots) && IsWay(es, lay, key, root', slots')
    && FullBucket(es, EndOf(es, lay, key, root, slots))
    && SeenAt(es, lay, key, root, slots) == SeenAt(es, lay, key, root', slots')
    && NoRoomWithin(es, lay, key, |slots'| - 1)
  }

  ghost predicate HasLoop(es: Entries, lay: Layout, key: int, hops: nat)
    requires lay.buckets > 0
  {
    exists root, slots, root', slots' :: LooksLikeLoop(es, lay, key, hops, root, slots, root', slots')
  }

  // ---- the same in terms of the search ----

  lemma {:induction false} WayIsTrail(es: Entries, lay: Layout, key: int, root: nat, slots: seq<nat>)
    requires lay.buckets > 0 && forall c :: c in es ==> es[c].key != EMPTY
    ensures var sh, look, p := ShapeOf(lay, key), Look(es), EndOf(es, lay, key, root, slots);
            && PS.Walk(sh, look, root, slots) == PS.Bucket(p.table, p.index)
            && (PS.Trail(sh, look, root, slots) <==> IsWay(es, lay, key, root, slots))
            && PS.EntryOfWay(sh, look, root, slots) == SeenAt(es, lay, key, root, slots)
            && (PS.Full(sh, look, PS.Walk(sh, look, root, slots)) <==> FullBucket(es, p))
    decreases |slots|
  {
    if slots != [] { WayIsTrail(es, lay, key, root, slots[..|slots| - 1]); }
    FullIsFull(es, ShapeOf(lay, key), EndOf(es, lay, key, root, slots));
  }

  lemma FullIsFull(es: Entries, sh: PS.Shape, p: Place)
    requires sh.width == 8 && forall c :: c in es ==> es[c].key != EMPTY
    ensures PS.Full(sh, Look(es), PS.Bucket(p.table, p.index)) <==> FullBucket(es, p)
  {
    forall slot: nat
      ensures Look(es)(PS.Bucket(p.table, p.index), slot) != EMPTY <==> Cell(p.index, slot) in es
    {
      assert Look(es)(PS.Bucket(p.table, p.index), slot) == KeyAt(es, Cell(p.index, slot));
    }
  }

  lemma NoneCloserIsNoRoom(es: Entries, lay: Layout, key: int, d: nat)
    requires lay.buckets > 0 && forall c :: c in es ==> es[c].key != EMPTY
    requires PS.NoneCloser(ShapeOf(lay, key), Look(es), d)
    ensures NoRoomWithin(es, lay, key, d - 1)
  {
    forall root, slots | |slots| <= d - 1 && IsWay(es, lay, key, root, slots)
      ensures FullBucket(es, EndOf(es, lay, key, root, slots))
    {
      WayIsTrail(es, lay, key, root, slots);
    }
  }

  /** A search gives up only if nothing within four hops has room, or if it sees a loop within four hops. */
  lemma GivesUpWithinFour(es: Entries, lay: Layout, key: int)
    requires lay.buckets > 0 && (forall c :: c in es ==> es[c].key != EMPTY)
    requires PS.ShapeOk(ShapeOf(lay, key)) && PS.GivesUp(ShapeOf(lay, key), Look(es))
    ensures NoRoomWithin(es, lay, key, 4) || HasLoop(es, lay, key, 4)
  {
    var sh, look := ShapeOf(lay, key), Look(es);
    if PS.NoneCloser(sh, look, sh.maxDepth) {
      NoneCloserIsNoRoom(es, lay, key, 5);
    } else {
      var p, q :| PS.LoopAt(sh, look, p, q);
      var root, slots, root', slots' := PS.LoopIsTwoWays(sh, look, p, q);
      WayIsTrail(es, lay, key, root, slots);
      WayIsTrail(es, lay, key, root', slots');
      NoneCloserIsNoRoom(es, lay, key, |slots'|);
      assert LooksLikeLoop(es, lay, key, 4, root, slots, root', slots');
    }
  }
}
