/**
 The single-table cuckoo map over one flat array, as one thread runs it. Every operation is
 specified against the key-to-value map the entries stand for; locks are left to the concurrent models.
 */
module FlatCuckoo {
  import opened FlatStore
  import opened FlatPaths
  import opened FlatReach
  import PS = PathSearch

  datatype Status = RESIZE | RETRY | DUPLICATE | SUCCESS

  class FlatCuckoo {
    const lay: Layout
    var elements: array<Node>
    /** The occupied entries, and the map they stand for. */
    ghost var entries: Entries
    ghost var pairs: map<int, int>

    ghost predicate Valid()
      reads this, elements
    {
      && lay.buckets > 0 && elements.Length == StorageSize(lay)
      && Placed(lay, entries) && Represents(entries, pairs)
      && forall c :: ValidCell(lay, c) ==> EntryAt(c)
    }

    ghost predicate EntryAt(c: Cell)
      requires ValidCell(lay, c) && elements.Length == StorageSize(lay)
      reads this, elements
    {
      if c in entries then elements[Offset(c)] == entries[c] else elements[Offset(c)].key == EMPTY
    }

    /** The lock words behind the entries; no operation of the store writes them. */
    ghost function LockWords(): seq<Node>
      requires elements.Length == StorageSize(lay)
      reads this, elements
    {
      elements[lay.buckets * ENTRY_WIDTH..]
    }

    constructor (size: nat, mix: int -> nat)
      requires size > 0
      ensures Valid() && fresh(elements) && lay == Layout(size, mix)
      ensures pairs == map[]
    {
      lay := Layout(size, mix);
      elements := new Node[size * ENTRY_WIDTH + size](i => Node(EMPTY, 0));
      entries, pairs := map[], map[];
    }

    /** `setElement` into a free entry or over the same key. */
    method SetElement(c: Cell, n: Node)
      requires Valid() && EntryPlaced(lay, c, n)
      requires if c in entries then entries[c].key == n.key else n.key !in pairs
      modifies this, elements
      ensures Valid() && elements == old(elements) && LockWords() == old(LockWords())
      ensures entries == old(entries)[c := n] && pairs == old(pairs)[n.key := n.val]
    {
      if c in entries { OverwriteEntry(entries, pairs, c, n); } else { AddEntry(entries, pairs, c, n); }
      WriteEntry(c, n);
      ghost var es := entries;
      entries, pairs := entries[c := n], pairs[n.key := n.val];
      forall d | ValidCell(lay, d) ensures EntryAt(d) { assert old(EntryAt(d)); }
      assert Placed(lay, entries) by { assert EntryPlaced(lay, c, n); }
    }

    /** `setKey(EMPTY)`: the value stays in the array. */
    method ClearKey(c: Cell)
      requires Valid() && c in entries
      modifies this, elements
      ensures Valid() && elements == old(elements) && LockWords() == old(LockWords())
      ensures entries == old(entries) - {c} && pairs == old(pairs) - {old(entries)[c].key}
    {
      RemoveEntry(entries, pairs, c);
      assert EntryPlaced(lay, c, entries[c]) && EntryAt(c);
      WriteEntry(c, Node(EMPTY, elements[Offset(c)].val));
      entries, pairs := entries - {c}, pairs - {entries[c].key};
      forall d | ValidCell(lay, d) ensures EntryAt(d) { assert old(EntryAt(d)); }
    }

    method SlotOf(key: int, index: nat) returns (slot: int)
      requires Valid() && index < lay.buckets
      ensures slot == FindSlot(entries, key, index, 0)
    {
      slot := 0;
      while slot < ENTRY_WIDTH
        invariant 0 <= slot <= ENTRY_WIDTH
        invariant FindSlot(entries, key, index, 0) == FindSlot(entries, key, index, slot)
      {
        var c := Cell(index, slot);
        assert EntryAt(c);
        if elements[Offset(c)].key == key {
          return;
        }
        slot := slot + 1;
      }
      slot := -1;
    }

    method Contains(key: int) returns (found: bool)
      requires Valid() && key != EMPTY
      ensures found <==> key in pairs
    {
      FoundIffInMap(lay, entries, pairs, key);
      var slot := SlotOf(key, Hash(lay, key, 1));
      if slot != -1 {
        return true;
      }
      slot := SlotOf(key, Hash(lay, key, 2));
      found := slot != -1;
    }

    method Remove(key: int) returns (removed: bool)
      requires Valid() && key != EMPTY
      modifies this, elements
      ensures Valid() && elements == old(elements) && LockWords() == old(LockWords())
      ensures removed <==> key in old(pairs)
      ensures pairs == old(pairs) - {key}
      ensures !removed ==> entries == old(entries)
      ensures removed ==> exists c :: c in old(entries) && old(entries)[c].key == key && entries == old(entries) - {c}
    {
      FoundIffInMap(lay, entries, pairs, key);
      var idx1, idx2 := Hash(lay, key, 1), Hash(lay, key, 2);
      var slot := SlotOf(key, idx1);
      if slot != -1 {
        ClearKey(Cell(idx1, slot));
        return true;
      }
      slot := SlotOf(key, idx2);
      if slot != -1 {
        ClearKey(Cell(idx2, slot));
      }
      removed := slot != -1;
    }

    method Size() returns (size: nat)
      requires Valid()
      ensures size == |pairs|
    {
      size := 0;
      var i := 0;
      assert Before(entries, 0, 0) == {};
      while i < lay.buckets
        invariant 0 <= i <= lay.buckets && size == |Before(entries, i, 0)|
      {
        var j := 0;
        while j < ENTRY_WIDTH
          invariant 0 <= j <= ENTRY_WIDTH && size == |Before(entries, i, j)|
        {
          assert EntryAt(Cell(i, j));
          FreeIsEmpty(lay, entries, Cell(i, j));
          BeforeStep(entries, i, j);
          if elements[Offset(Cell(i, j))].key != EMPTY {
            size := size + 1;
          }
          j := j + 1;
        }
        BeforeRow(lay, entries, i);
        i := i + 1;
      }
      BeforeEnd(lay, entries);
      RepresentsSize(entries, pairs);
    }

    /** One hop: the guard, which always tests hash 2, and the copy and clear behind it. */
    method Hop(src: Cell, dst: Cell) returns (ok: bool)
      requires Valid() && ValidCell(lay, src) && ValidCell(lay, dst)
      modifies this, elements
      ensures Valid() && elements == old(elements) && LockWords() == old(LockWords()) && pairs == old(pairs)
      ensures ok <==> dst !in old(entries) && src in old(entries) && Hash(lay, old(entries)[src].key, 2) == dst.index
      ensures !ok ==> entries == old(entries)
      ensures ok ==> entries == Moved(old(entries), src, dst)
    {
      assert EntryAt(src) && EntryAt(dst);
      var n := elements[Offset(src)];
      if elements[Offset(dst)].key != EMPTY || n.key == EMPTY || Hash(lay, n.key, 2) != dst.index {
        return false;
      }
      FreeIsEmpty(lay, entries, dst);
      Transfer(src, dst, n);
      ok := true;
    }

    /** `setElement` on the target, then `setKey(EMPTY)` on the source. */
    method Transfer(src: Cell, dst: Cell, n: Node)
      requires Valid() && src in entries && entries[src] == n && dst !in entries && EntryPlaced(lay, dst, n)
      modifies this, elements
      ensures Valid() && elements == old(elements) && LockWords() == old(LockWords()) && pairs == old(pairs)
      ensures entries == Moved(old(entries), src, dst)
    {
      MoveEntry(entries, pairs, src, dst);
      assert EntryPlaced(lay, src, n);
      WriteEntry(dst, n);
      WriteEntry(src, Node(EMPTY, elements[Offset(src)].val));
      ghost var es := entries;
      entries := Moved(entries, src, dst);
      forall c | ValidCell(lay, c) ensures EntryAt(c) { assert old(EntryAt(c)); }
      assert Placed(lay, entries) by { MovePlaced(lay, es, src, dst); }
    }

    /** One word of the flat array; no other cell and no lock word shares its offset. */
    method WriteEntry(c: Cell, n: Node)
      requires elements.Length == StorageSize(lay) && ValidCell(lay, c)
      modifies elements
      ensures elements[Offset(c)] == n && LockWords() == old(LockWords())
      ensures forall d :: ValidCell(lay, d) && d != c ==> elements[Offset(d)] == old(elements[Offset(d)])
    {
      forall d, i | ValidCell(lay, d) && 0 <= i < lay.buckets
        ensures Offset(c) < StorageSize(lay) && Offset(c) != LockOffset(lay, i) && (Offset(d) == Offset(c) <==> d == c)
      {
        OffsetsApart(lay, c, d, i, i);
      }
      elements[Offset(c)] := n;
      forall i | 0 <= i < lay.buckets ensures LockWords()[i] == old(LockWords())[i] {
        assert Offset(c) != LockOffset(lay, i);
      }
    }

    /**
     The displacement loop. However far it gets, the map is what it was. Over distinct cells it gets
     all the way exactly if the last one is free and every hop leads to its value's hash-2 bucket; along
     a path of a quiet table, exactly if every value that hops out of table 2 has two equal hashes.
     */
    method Displace(path: seq<Step>) returns (ok: bool)
      requires Valid() && PathInRange(path, lay)
      modifies this, elements
      ensures Valid() && elements == old(elements) && LockWords() == old(LockWords()) && pairs == old(pairs)
      ensures |path| > 1 && ok ==> path[0].cell !in entries
      ensures ok <==> RunsThrough(old(entries), path, lay, |path| - 1)
      ensures |path| > 1 && DistinctFrom(path, 0) ==> (ok <==> AllHopsFit(old(entries), path, lay))
      ensures SearchPath(old(entries), path, lay) ==> (ok <==> HashesAgree(old(entries), path, lay))
    {
      DisplaceExact(entries, path, lay);
      ok := MakeHops(path);
    }

    /** The loop itself, deepest hop first. */
    method MakeHops(path: seq<Step>) returns (ok: bool)
      requires Valid() && PathInRange(path, lay)
      modifies this, elements
      ensures Valid() && elements == old(elements) && LockWords() == old(LockWords()) && pairs == old(pairs)
      ensures |path| > 1 && ok ==> path[0].cell !in entries
      ensures ok <==> RunsThrough(old(entries), path, lay, |path| - 1)
    {
      var depth := |path| - 1;
      ghost var through, words := RunsThrough(entries, path, lay, |path| - 1), LockWords();
      while depth > 0
        invariant 0 <= depth < |path| && Valid() && elements == old(elements) && pairs == old(pairs)
        invariant LockWords() == words
        invariant depth < |path| - 1 ==> path[depth].cell !in entries
        invariant through <==> RunsThrough(entries, path, lay, depth)
      {
        ok := HopAt(path, depth);
        if !ok {
          return;
        }
        depth := depth - 1;
      }
      ok := true;
    }

    /** The hop at one depth of the path: made exactly if the rest of the loop can be reached at all. */
    method HopAt(path: seq<Step>, depth: nat) returns (ok: bool)
      requires Valid() && PathInRange(path, lay) && 0 < depth < |path|
      modifies this, elements
      ensures Valid() && elements == old(elements) && LockWords() == old(LockWords()) && pairs == old(pairs)
      ensures ok ==> path[depth - 1].cell !in entries
      ensures ok ==> (RunsThrough(old(entries), path, lay, depth) <==> RunsThrough(entries, path, lay, depth - 1))
      ensures !ok ==> !RunsThrough(old(entries), path, lay, depth)
    {
      assert ValidCell(lay, path[depth - 1].cell) && ValidCell(lay, path[depth].cell);
      RunsOneHop(entries, path, lay, depth);
      ok := Hop(path[depth - 1].cell, path[depth].cell);
    }

    /**
     The walk that turns decoded slots into cells, stopping at a cell that is free by now. Slots that
     name a path of the table as it stands come out as that path.
     */
    method Rewalk(idx1: nat, idx2: nat, root: nat, slots: seq<nat>, ghost along: seq<Step>) returns (path: seq<Step>)
      requires Valid() && slots != [] && (forall i :: 0 <= i < |slots| ==> slots[i] < ENTRY_WIDTH)
      requires idx1 < lay.buckets && idx2 < lay.buckets
      ensures PathInRange(path, lay) && |path| <= |slots|
      ensures path[0].cell.index == idx1 || path[0].cell.index == idx2
      ensures StepsAlong(entries, lay, idx1, idx2, root, slots, along) && SearchPath(entries, along, lay) ==>
                path == along
    {
      path := [if root == 0 then Step(1, Cell(idx1, slots[0])) else Step(2, Cell(idx2, slots[0]))];
      var free := IsFree(path[0].cell);
      ghost var first := path[0];
      ghost var quiet := StepsAlong(entries, lay, idx1, idx2, root, slots, along) && SearchPath(entries, along, lay);
      while |path| < |slots| && !free
        invariant 1 <= |path| <= |slots| && PathInRange(path, lay) && path[0] == first
        invariant free <==> path[|path| - 1].cell !in entries
        invariant quiet ==> path == along[..|path|]
        decreases |slots| - |path|
      {
        path, free := WalkOn(path, slots[|path|], quiet, idx1, idx2, root, slots, along);
      }
      if quiet && free { FreeIsLast(entries, along, lay, |path| - 1); }
    }

    method WalkOn(path: seq<Step>, slot: nat, ghost quiet: bool, ghost idx1: nat, ghost idx2: nat, ghost root: nat,
                  ghost slots: seq<nat>, ghost along: seq<Step>)
      returns (path': seq<Step>, free: bool)
      requires Valid() && PathInRange(path, lay) && |path| < |slots| && slot == slots[|path|] < ENTRY_WIDTH
      requires path[|path| - 1].cell in entries
      requires quiet ==> StepsAlong(entries, lay, idx1, idx2, root, slots, along) && SearchPath(entries, along, lay)
      requires quiet ==> path == along[..|path|]
      ensures PathInRange(path', lay) && |path'| == |path| + 1 && path'[0] == path[0]
      ensures free <==> path'[|path|].cell !in entries
      ensures quiet ==> path' == along[..|path'|]
    {
      var next;
      next, free := NextStep(path[|path| - 1], slot);
      if quiet { LinksOn(entries, lay, idx1, idx2, root, slots, along, |path|); }
      RangeGrows(path, lay, next);
      path' := path + [next];
    }

    /** The step a slot names after prev: by the other hash of prev's key. */
    method NextStep(prev: Step, slot: nat) returns (next: Step, free: bool)
      requires Valid() && ValidCell(lay, prev.cell) && prev.cell in entries && slot < ENTRY_WIDTH
      ensures prev.table == 1 || prev.table == 2 ==> next == StepAfter(entries, lay, prev, slot)
      ensures ValidCell(lay, next.cell) && (free <==> next.cell !in entries)
    {
      var table := if prev.table == 1 then 2 else 1;
      assert EntryAt(prev.cell);
      var cell := Cell(Hash(lay, elements[Offset(prev.cell)].key, table), slot);
      free := IsFree(cell);
      next := Step(table, cell);
    }

    method IsFree(c: Cell) returns (free: bool)
      requires Valid() && ValidCell(lay, c)
      ensures free <==> c !in entries
    {
      assert EntryAt(c);
      FreeIsEmpty(lay, entries, c);
      free := elements[Offset(c)].key == EMPTY;
    }

    /**
     One pass of the insert loop, for whatever the unlocked search may read: it puts the pair into
     the map or, with RESIZE or RETRY, leaves the map as it was, even after a partial displacement.
     In a table that stands still it resizes only where the search gives up, because nothing within four
     hops has room or a key is seen twice, and it comes back with
     RETRY exactly if, on the path found, some value would hop out of table 2 with unequal hashes.
     */
    method InsertAttempt(key: int, val: int, read: PS.Reader, random: nat -> nat)
      returns (status: Status, ghost path: seq<Step>)
      requires Valid() && key != EMPTY
      modifies this, elements
      ensures Valid() && elements == old(elements) && LockWords() == old(LockWords())
      ensures status == DUPLICATE <==> key in old(pairs)
      ensures status == DUPLICATE || status == SUCCESS ==> pairs == old(pairs)[key := val]
      ensures status == RESIZE || status == RETRY ==> pairs == old(pairs)
      ensures path != [] ==> PathFor(old(entries), key, path)
      ensures status == SUCCESS && path == [] ==> HasRoom(old(entries), key)
      ensures key !in old(pairs) && HasRoom(old(entries), key) ==>
                status == SUCCESS && entries == old(entries)[RoomFor(old(entries), key) := Node(key, val)]
      ensures PS.Stable(read, Look(old(entries))) ==>
                && (path != [] ==> SearchPath(old(entries), path, lay))
                && (status == RETRY <==> path != [] && !HashesAgree(old(entries), path, lay))
                && (status == RESIZE ==> PS.GivesUp(ShapeOf(lay, key), Look(old(entries))))
                && (status == RESIZE ==>
                      NoRoomWithin(old(entries), lay, key, 4) || HasLoop(old(entries), lay, key, 4))
    {
      path := [];
      var idx1, idx2 := Hash(lay, key, 1), Hash(lay, key, 2);
      FoundIffInMap(lay, entries, pairs, key);
      var put := Overwrite(idx1, Node(key, val));
      if put {
        return DUPLICATE, [];
      }
      put := Overwrite(idx2, Node(key, val));
      if put {
        return DUPLICATE, [];
      }
      put := PutIfFree(idx1, Node(key, val));
      if put {
        return SUCCESS, [];
      }
      put := PutIfFree(idx2, Node(key, val));
      if put {
        return SUCCESS, [];
      }
      var found := FindPath(key, read, random);
      if found == [] {
        return RESIZE, [];
      }
      status := Evict(found, Node(key, val));
      path := found;
    }

    /** A path in range from one of the key's two full buckets. */
    ghost predicate PathFor(es: Entries, key: int, path: seq<Step>)
      requires lay.buckets > 0
    {
      && PathInRange(path, lay) && !HasRoom(es, key)
      && (path[0].cell.index == Hash(lay, key, 1) || path[0].cell.index == Hash(lay, key, 2))
    }

    /** One of the key's two buckets has an empty entry. */
    ghost predicate HasRoom(es: Entries, key: int)
      requires lay.buckets > 0
    {
      FindSlot(es, EMPTY, Hash(lay, key, 1), 0) != -1 || FindSlot(es, EMPTY, Hash(lay, key, 2), 0) != -1
    }

    /** The first empty entry of the key's primary bucket, or of its secondary one. */
    ghost function RoomFor(es: Entries, key: int): Cell
      requires lay.buckets > 0 && HasRoom(es, key)
    {
      var idx1, idx2 := Hash(lay, key, 1), Hash(lay, key, 2);
      if FindSlot(es, EMPTY, idx1, 0) != -1 then Cell(idx1, FindSlot(es, EMPTY, idx1, 0))
      else Cell(idx2, FindSlot(es, EMPTY, idx2, 0))
    }

    method Overwrite(index: nat, n: Node) returns (put: bool)
      requires Valid() && index < lay.buckets && n.key != EMPTY
      requires index == Hash(lay, n.key, 1) || index == Hash(lay, n.key, 2)
      modifies this, elements
      ensures Valid() && elements == old(elements) && LockWords() == old(LockWords())
      ensures put <==> FindSlot(old(entries), n.key, index, 0) != -1
      ensures if put then pairs == old(pairs)[n.key := n.val] else unchanged(this)
    {
      var slot := SlotOf(n.key, index);
      if slot == -1 {
        return false;
      }
      SetElement(Cell(index, slot), n);
      put := true;
    }

    method PutIfFree(index: nat, n: Node) returns (put: bool)
      requires Valid() && index < lay.buckets && n.key != EMPTY && n.key !in pairs
      requires index == Hash(lay, n.key, 1) || index == Hash(lay, n.key, 2)
      modifies this, elements
      ensures Valid() && elements == old(elements) && LockWords() == old(LockWords())
      ensures put <==> FindSlot(old(entries), EMPTY, index, 0) != -1
      ensures if put then pairs == old(pairs)[n.key := n.val] else unchanged(this)
      ensures put ==> entries == old(entries)[Cell(index, FindSlot(old(entries), EMPTY, index, 0)) := n]
    {
      var slot := SlotOf(EMPTY, index);
      if slot == -1 {
        return false;
      }
      SetFree(Cell(index, slot), n);
      put := true;
    }

    /** What an inner insert does with a path: take its only cell if that is free, else displace along it. */
    method Evict(path: seq<Step>, n: Node) returns (status: Status)
      requires Valid() && PathInRange(path, lay) && EntryPlaced(lay, path[0].cell, n) && n.key !in pairs
      modifies this, elements
      ensures Valid() && elements == old(elements) && LockWords() == old(LockWords())
      ensures status == RETRY || status == SUCCESS
      ensures pairs == if status == SUCCESS then old(pairs)[n.key := n.val] else old(pairs)
      ensures SearchPath(old(entries), path, lay) ==> (status == RETRY <==> !HashesAgree(old(entries), path, lay))
    {
      if |path| == 1 {
        var free := IsFree(path[0].cell);
        if !free {
          return RETRY;
        }
      } else {
        var ok := Displace(path);
        if !ok {
          return RETRY;
        }
      }
      SetFree(path[0].cell, n);
      status := SUCCESS;
    }

    method SetFree(c: Cell, n: Node)
      requires Valid() && EntryPlaced(lay, c, n) && KeyAt(entries, c) == EMPTY && n.key !in pairs
      modifies this, elements
      ensures Valid() && elements == old(elements) && LockWords() == old(LockWords())
              && pairs == old(pairs)[n.key := n.val]
      ensures entries == old(entries)[c := n]
    {
      FreeIsEmpty(lay, entries, c);
      SetElement(c, n);
    }

    method FindPath(key: int, read: PS.Reader, random: nat -> nat) returns (path: seq<Step>)
      requires Valid()
      ensures path != [] ==> PathInRange(path, lay) && |path| <= MAX_SEARCH_DEPTH
      ensures path != [] ==> path[0].cell.index == Hash(lay, key, 1) || path[0].cell.index == Hash(lay, key, 2)
      ensures PS.Stable(read, Look(entries)) ==>
                if path != [] then SearchPath(entries, path, lay)
                else
                  && PS.GivesUp(ShapeOf(lay, key), Look(entries))
                  && (NoRoomWithin(entries, lay, key, 4) || HasLoop(entries, lay, key, 4))
    {
      var sh := ShapeOf(lay, key);
      var point := PS.Search(sh, read, random, Look(entries));
      if point.pathcode == -1 {
        if PS.Stable(read, Look(entries)) {
          assert forall c :: c in entries ==> EntryPlaced(lay, c, entries[c]);
          GivesUpWithinFour(entries, lay, key);
        }
        return [];
      }
      path := FollowCode(key, point);
    }

    /** The decoding of a path code, and the walk along the slots it names. */
    method FollowCode(key: int, point: PS.Point) returns (path: seq<Step>)
      requires Valid() && PS.ShapeOk(ShapeOf(lay, key)) && PS.ResultOk(ShapeOf(lay, key), point) && point != PS.NO_POINT
      ensures PathInRange(path, lay) && |path| <= MAX_SEARCH_DEPTH
      ensures path[0].cell.index == Hash(lay, key, 1) || path[0].cell.index == Hash(lay, key, 2)
      ensures PS.Shortest(ShapeOf(lay, key), Look(entries), point) ==> SearchPath(entries, path, lay)
    {
      var sh := ShapeOf(lay, key);
      var root, slots := Decode(point.pathcode, point.depth);
      ghost var along := Along(entries, sh, root, slots);
      if PS.Shortest(sh, Look(entries), point) { ShortestIsSearchPath(entries, lay, key, point); }
      path := Rewalk(sh.idx1, sh.idx2, root, slots, along);
    }

    method Decode(pathcode: nat, depth: nat) returns (root: nat, slots: seq<nat>)
      requires depth < MAX_SEARCH_DEPTH
      ensures root == PS.RootOf(pathcode, depth + 1, ENTRY_WIDTH)
      ensures slots == PS.SlotsOf(pathcode, depth + 1, ENTRY_WIDTH)
    {
      var path := new nat[MAX_SEARCH_DEPTH];
      root := PS.DecodePath(pathcode, depth, ENTRY_WIDTH, path);
      slots := path[..depth + 1];
    }
  }

  lemma DisplaceExact(es: Entries, path: seq<Step>, lay: Layout)
    requires Placed(lay, es) && path != []
    ensures |path| > 1 && DistinctFrom(path, 0) ==>
              (RunsThrough(es, path, lay, |path| - 1) <==> AllHopsFit(es, path, lay))
    ensures SearchPath(es, path, lay) ==> (RunsThrough(es, path, lay, |path| - 1) <==> HashesAgree(es, path, lay))
  {
    if |path| > 1 && DistinctFrom(path, 0) { DistinctExact(es, path, lay); }
    if SearchPath(es, path, lay) { PathFitsExactly(es, path, lay); }
  }

  ghost function Before(es: Entries, i: nat, j: nat): set<Cell> {
    set c | c in es && (c.index < i || (c.index == i && c.slot < j))
  }

  lemma BeforeStep(es: Entries, i: nat, j: nat)
    ensures |Before(es, i, j + 1)| == |Before(es, i, j)| + (if Cell(i, j) in es then 1 else 0)
  {
    var c := Cell(i, j);
    assert Before(es, i, j + 1) == if c in es then Before(es, i, j) + {c} else Before(es, i, j);
  }

  lemma BeforeRow(lay: Layout, es: Entries, i: nat)
    requires Placed(lay, es)
    ensures Before(es, i, ENTRY_WIDTH) == Before(es, i + 1, 0)
  {
    forall c ensures c in Before(es, i, ENTRY_WIDTH) <==> c in Before(es, i + 1, 0) {
      if c in es { assert EntryPlaced(lay, c, es[c]); }
    }
  }

  lemma BeforeEnd(lay: Layout, es: Entries)
    requires Placed(lay, es)
    ensures |Before(es, lay.buckets, 0)| == |es|
  {
    forall c | c in es ensures c in Before(es, lay.buckets, 0) { assert EntryPlaced(lay, c, es[c]); }
    assert Before(es, lay.buckets, 0) == es.Keys;
  }
}
