/**
 The cuckoo set as one thread runs it: the class with its two tables, and its operations with their
 loops. Locks are left to the concurrent model. What the unlocked search reads is a parameter, so
 that an insert attempt is specified both for a search misled by other threads and for one that
 sees the table as it is.
 */
module CuckooSet {
  import opened CuckooCore
  import opened CuckooContents
  import opened CuckooRehash
  import opened CuckooReach
  import PS = PathSearch

  datatype Status = RESIZE | RETRY | DUPLICATE | SUCCESS

  /**
   A displacement path that can be carried out: occupied but for its last cell,
   cell by cell distinct, each value bound for the next cell.
   */
  ghost predicate Evictable(cells: Cells, path: seq<Cell>, buckets: nat) {
    && buckets > 0 && path != []
    && (forall i, j :: 0 <= i < j < |path| ==> path[i] != path[j])
    && (forall i :: 0 <= i < |path| - 1 ==> HopFits(cells, path[i], path[i + 1], buckets))
    && path[|path| - 1] !in cells
  }

  ghost predicate HopFits(cells: Cells, src: Cell, dst: Cell, buckets: nat)
    requires buckets > 0
  {
    src in cells && Hash(cells[src], dst.table, buckets) == dst.index
  }

  class CuckooSet {
    var buckets: nat
    var table1: array2<int>
    var table2: array2<int>
    /** Both tables as one map from occupied cells to values. */
    ghost var cells: Cells

    ghost predicate Shaped()
      reads this
    {
      && buckets > 0 && table1 != table2
      && table1.Length0 == buckets && table1.Length1 == WIDTH
      && table2.Length0 == buckets && table2.Length1 == WIDTH
    }

    /** The tables hold the values of `cells`. */
    ghost predicate Sound()
      reads this, table1, table2
    {
      && Shaped() && (forall c :: c in cells ==> ValidCell(c, buckets) && cells[c] != EMPTY)
      && forall c :: ValidCell(c, buckets) ==> Read(c) == At(cells, c)
    }

    /** And every value is where its hash wants it. */
    ghost predicate Valid()
      reads this, table1, table2
    {
      Sound() && Placed(cells, buckets)
    }

    function Read(c: Cell): int
      requires Shaped() && ValidCell(c, buckets)
      reads this, table1, table2
    {
      if c.table == 1 then table1[c.index, c.slot] else table2[c.index, c.slot]
    }

    constructor (size: nat)
      requires size > 0
      ensures Valid() && buckets == size && cells == map[]
      ensures fresh(table1) && fresh(table2)
    {
      buckets := size;
      table1 := new int[size, WIDTH]((i, j) => EMPTY);
      table2 := new int[size, WIDTH]((i, j) => EMPTY);
      cells := map[];
    }

    /** A write to an element of either table. */
    method Write(c: Cell, val: int)
      requires Sound() && ValidCell(c, buckets)
      modifies this`cells, table1, table2
      ensures Sound()
      ensures cells == if val == EMPTY then old(cells) - {c} else old(cells)[c := val]
    {
      if c.table == 1 {
        table1[c.index, c.slot] := val;
      } else {
        table2[c.index, c.slot] := val;
      }
      cells := if val == EMPTY then cells - {c} else cells[c := val];
    }

    /** `findSlot`; with EMPTY it is `isAvailable`. */
    method SlotOf(val: int, table: int, index: nat) returns (slot: int)
      requires Sound() && (table == 1 || table == 2) && index < buckets
      ensures slot == FindSlot(cells, val, table, index)
    {
      slot := 0;
      while slot < WIDTH
        invariant 0 <= slot <= WIDTH
        invariant FindSlot(cells, val, table, index) == FindSlotFrom(cells, val, table, index, slot)
      {
        var c := Cell(table, index, slot);
        assert ValidCell(c, buckets);
        if Read(c) == val {
          return;
        }
        slot := slot + 1;
      }
      slot := -1;
    }

    method Contains(val: int) returns (found: bool)
      requires Sound() && val != EMPTY
      ensures found <==> Found(cells, val, buckets)
      ensures Valid() ==> (found <==> Count(cells, val) > 0)
    {
      var at1 := SlotOf(val, 1, Hash(val, 1, buckets));
      var at2 := SlotOf(val, 2, Hash(val, 2, buckets));
      found := at1 != -1 || at2 != -1;
      if Valid() { FoundIffStored(cells, buckets, val); }
    }

    method Clear(c: Cell)
      requires Valid() && c in cells
      modifies this`cells, table1, table2
      ensures Valid()
      ensures Differs(old(cells), cells, old(cells)[c], -1) && Count(old(cells), old(cells)[c]) >= 1
      ensures cells == old(cells) - {c}
    {
      CountTake(cells, c);
      Write(c, EMPTY);
    }

    method Remove(val: int) returns (removed: bool)
      requires Valid() && val != EMPTY
      modifies this`cells, table1, table2
      ensures Valid()
      ensures removed <==> Count(old(cells), val) > 0
      ensures Differs(old(cells), cells, val, if removed then -1 else 0)
      ensures !removed ==> cells == old(cells)
      ensures removed ==> exists c :: c in old(cells) && old(cells)[c] == val && cells == old(cells) - {c}
    {
      var idx1, idx2 := Hash(val, 1, buckets), Hash(val, 2, buckets);
      FoundIffStored(cells, buckets, val);
      var slot := SlotOf(val, 1, idx1);
      if slot != -1 {
        Clear(Cell(1, idx1, slot));
        return true;
      }
      slot := SlotOf(val, 2, idx2);
      if slot != -1 {
        Clear(Cell(2, idx2, slot));
      }
      removed := slot != -1;
    }

    /** Number of stored values, by a pass over both tables. */
    method Size() returns (size: nat)
      requires Valid()
      ensures size == |cells|
    {
      size := 0;
      var i := 0;
      BeforeStart(cells);
      while i < buckets
        invariant 0 <= i <= buckets && size == |Before(cells, i, 0)|
      {
        var j := 0;
        while j < WIDTH
          invariant 0 <= j <= WIDTH && size == |Before(cells, i, j)|
        {
          var c1, c2 := Cell(1, i, j), Cell(2, i, j);
          BeforeStep(cells, buckets, i, j);
          if Read(c1) != EMPTY { size := size + 1; }
          if Read(c2) != EMPTY { size := size + 1; }
          j := j + 1;
        }
        BeforeRow(cells, buckets, i);
        i := i + 1;
      }
      BeforeEnd(cells, buckets);
    }

    /** One hop: the guard of the displacement loop, and the copy and clear behind it. */
    method Hop(src: Cell, dst: Cell) returns (ok: bool)
      requires Valid() && ValidCell(src, buckets) && ValidCell(dst, buckets) && src != dst
      modifies this`cells, table1, table2
      ensures Valid()
      ensures ok <==> dst !in old(cells) && HopFits(old(cells), src, dst, buckets)
      ensures !ok ==> cells == old(cells)
      ensures ok ==> cells == Moved(old(cells), src, dst)
    {
      if Read(dst) != EMPTY || Read(src) == EMPTY || Hash(Read(src), dst.table, buckets) != dst.index {
        return false;
      }
      Write(dst, Read(src));
      Write(src, EMPTY);
      ok := true;
    }

    /** The last hop of a path. */
    method LastHop(path: seq<Cell>) returns (ok: bool)
      requires Valid() && PathInRange(path, buckets) && |path| > 1
      modifies this`cells, table1, table2
      ensures Valid()
      ensures SameContents(old(cells), cells)
      ensures ok ==> path[|path| - 2] !in cells
      ensures Evictable(old(cells), path, buckets) ==> ok && Evictable(cells, path[..|path| - 1], buckets)
    {
      var src, dst := path[|path| - 2], path[|path| - 1];
      ghost var before := cells;
      ok := Hop(src, dst);
      if ok { MoveKeepsContents(before, src, dst); }
      if Evictable(before, path, buckets) { EvictableStep(before, path, buckets); }
    }

    /** The displacement loop, deepest hop first; each hop is checked against the table before it is made. */
    method Displace(path: seq<Cell>) returns (ok: bool)
      requires Valid() && PathInRange(path, buckets)
      modifies this`cells, table1, table2
      ensures Valid()
      ensures SameContents(old(cells), cells)
      ensures |path| > 1 && ok ==> path[0] !in cells
      ensures Evictable(old(cells), path, buckets) ==> ok && path[0] !in cells
    {
      ghost var start := cells;
      var rest := path;
      while |rest| > 1
        invariant Valid() && PathInRange(rest, buckets) && rest[0] == path[0]
        invariant SameContents(start, cells)
        invariant rest != path ==> rest[|rest| - 1] !in cells
        invariant Evictable(start, path, buckets) ==> Evictable(cells, rest, buckets)
      {
        var moved := LastHop(rest);
        if !moved {
          return false;
        }
        rest := rest[..|rest| - 1];
      }
      ok := true;
    }

    /** The cell that a slot names after prev: in the other table, in the bucket of prev's value there. */
    method NextCell(prev: Cell, slot: nat) returns (next: Cell, free: bool)
      requires Valid() && ValidCell(prev, buckets) && slot < WIDTH
      ensures next == CellAfter(cells, buckets, prev, slot) && ValidCell(next, buckets)
      ensures free <==> next !in cells
    {
      var table := 3 - prev.table;
      next := Cell(table, Hash(Read(prev), table, buckets), slot);
      free := Read(next) == EMPTY;
    }

    /** The walk that turns decoded slots into cells, stopping early at a cell that is free by now. */
    method Rewalk(idx1: nat, idx2: nat, root: nat, slots: seq<nat>, ghost along: seq<Cell>) returns (path: seq<Cell>)
      requires Valid() && slots != [] && (forall i :: 0 <= i < |slots| ==> slots[i] < WIDTH)
      requires idx1 < buckets && idx2 < buckets
      ensures PathInRange(path, buckets)
      ensures path[0].index == if path[0].table == 1 then idx1 else idx2
      ensures CellsAlong(cells, buckets, idx1, idx2, root, slots, along) && Evictable(cells, along, buckets) ==>
                path == along
    {
      ghost var named := CellsAlong(cells, buckets, idx1, idx2, root, slots, along);
      path := [if root == 0 then Cell(1, idx1, slots[0]) else Cell(2, idx2, slots[0])];
      var free := Read(path[0]) == EMPTY;
      while |path| < |slots| && !free
        invariant 1 <= |path| <= |slots| && PathInRange(path, buckets)
        invariant path[0].index == if path[0].table == 1 then idx1 else idx2
        invariant named ==> path == along[..|path|]
        invariant free <==> path[|path| - 1] !in cells
        decreases |slots| - |path|
      {
        var i := |path|;
        var next;
        next, free := NextCell(path[i - 1], slots[i]);
        if named { CellsGoOn(cells, buckets, idx1, idx2, root, slots, along, i); }
        path := path + [next];
      }
      if named && free && Evictable(cells, along, buckets) { FreeIsLast(cells, along, buckets, |path| - 1); }
      assert along[..|along|] == along;
    }

    /** The write of the inserted value; whether the bucket is the value's own is up to the caller. */
    method Store(c: Cell, val: int)
      requires Valid() && val != EMPTY && ValidCell(c, buckets) && c !in cells
      modifies this`cells, table1, table2
      ensures Sound() && cells == old(cells)[c := val] && Differs(old(cells), cells, val, 1)
      ensures c.index == Hash(val, c.table, buckets) ==> Valid()
    {
      CountAdd(cells, c, val);
      Write(c, val);
    }

    /** The search and the decoding of its code into a path of cells; an empty path means none was found. */
    method FindPath(idx1: nat, idx2: nat, read: PS.Reader, random: nat -> nat) returns (path: seq<Cell>)
      requires Valid() && idx1 < buckets && idx2 < buckets
      ensures path != [] ==> PathInRange(path, buckets) && path[0].index == if path[0].table == 1 then idx1 else idx2
      ensures PS.Stable(read, Look(cells)) ==>
                if path != [] then Evictable(cells, path, buckets)
                else PS.GivesUp(ShapeOf(buckets, idx1, idx2), Look(cells)) && SeesNoRoom(cells, idx1, idx2)
    {
      var sh := ShapeOf(buckets, idx1, idx2);
      var point := PS.Search(sh, read, random, Look(cells));
      if point.pathcode == -1 {
        if PS.Stable(read, Look(cells)) { GivesUpWithinSix(cells, buckets, idx1, idx2); }
        return [];
      }
      var slots := new nat[MAX_SEARCH_DEPTH];
      var root := PS.DecodePath(point.pathcode, point.depth, WIDTH, slots);
      ghost var along := Along(cells, sh, root, slots[..point.depth + 1]);
      path := Rewalk(sh.idx1, sh.idx2, root, slots[..point.depth + 1], along);
      if PS.Stable(read, Look(cells)) { ShortestIsEvictable(cells, buckets, idx1, idx2, point); }
    }

    /** No bucket that six hops lead to has room, or two ways of at most six hops look the same. */
    ghost predicate SeesNoRoom(cells: Cells, idx1: nat, idx2: nat)
      requires buckets > 0
      reads this
    {
      NoRoomWithin(cells, buckets, idx1, idx2, 6) || HasLoop(cells, buckets, idx1, idx2, 6)
    }

    /**
     The inner insert and, on SUCCESS, the write, for indices the caller has computed: those of the
     value's hashes, or stale ones. `read` is what the unlocked search sees and `at` the cell written.
     */
    method InnerInsert(val: int, idx1: nat, idx2: nat, read: PS.Reader, random: nat -> nat)
      returns (status: Status, ghost at: Cell)
      requires Valid() && val != EMPTY && idx1 < buckets && idx2 < buckets
      modifies this`cells, table1, table2
      ensures Sound() && (status != SUCCESS ==> Valid())
      ensures status == DUPLICATE <==> Seen(old(cells), val, idx1, idx2)
      ensures status == DUPLICATE || status == RESIZE ==> cells == old(cells)
      ensures status == RETRY ==> SameContents(old(cells), cells)
      ensures status == SUCCESS ==> WrittenAt(old(cells), cells, val, at, idx1, idx2, buckets)
      ensures !Seen(old(cells), val, idx1, idx2) && Seen(old(cells), EMPTY, idx1, idx2) ==> status == SUCCESS
      ensures status == SUCCESS && TableFor(old(cells), idx1, idx2) != 0 ==>
                at.table == TableFor(old(cells), idx1, idx2)
      ensures PS.Stable(read, Look(old(cells))) ==> status != RETRY
      ensures PS.Stable(read, Look(old(cells))) && status == RESIZE ==>
                PS.GivesUp(ShapeOf(buckets, idx1, idx2), Look(old(cells))) && SeesNoRoom(old(cells), idx1, idx2)
      ensures !Seen(old(cells), val, idx1, idx2) && TableFor(old(cells), idx1, idx2) != 0 ==>
                status == SUCCESS && cells == old(cells)[FirstFree(old(cells), idx1, idx2) := val]
      ensures PS.Stable(read, Look(old(cells))) && Full(old(cells), buckets) && status != DUPLICATE ==> status == RESIZE
    {
      at := Cell(0, 0, 0);
      ghost var before := cells;
      var at1 := SlotOf(val, 1, idx1);
      var at2 := SlotOf(val, 2, idx2);
      if at1 != -1 || at2 != -1 {
        return DUPLICATE, at;
      }
      var slot := SlotOf(EMPTY, 1, idx1);
      if slot != -1 {
        at := Cell(1, idx1, slot);
        Store(Cell(1, idx1, slot), val);
        StoreIsWritten(before, cells, val, at, idx1, idx2, buckets);
        return SUCCESS, at;
      }
      slot := SlotOf(EMPTY, 2, idx2);
      if slot != -1 {
        at := Cell(2, idx2, slot);
        Store(Cell(2, idx2, slot), val);
        StoreIsWritten(before, cells, val, at, idx1, idx2, buckets);
        return SUCCESS, at;
      }
      var path := FindPath(idx1, idx2, read, random);
      if path == [] {
        return RESIZE, at;
      }
      status := Evict(path, val);
      at := path[0];
      assert PS.Stable(read, Look(before)) ==> !Full(before, buckets) by {
        if PS.Stable(read, Look(before)) { assert path[|path| - 1] !in before; }
      }
    }

    /**
     One pass of the insert loop with the indices of the value's hashes. A failed attempt leaves the
     contents alone even after a partial displacement, and an attempt whose search sees the table as
     it is never ends in RETRY, and in RESIZE only where the search gives up: within six hops of the two
     buckets nothing has room, or a value is seen twice.
     */
    method InsertAttempt(val: int, read: PS.Reader, random: nat -> nat) returns (status: Status)
      requires Valid() && val != EMPTY
      modifies this`cells, table1, table2
      ensures Valid()
      ensures status == DUPLICATE <==> Count(old(cells), val) > 0
      ensures status == DUPLICATE || status == RESIZE ==> cells == old(cells)
      ensures status == RETRY ==> SameContents(old(cells), cells)
      ensures status == SUCCESS ==> Differs(old(cells), cells, val, 1)
      ensures PS.Stable(read, Look(old(cells))) ==> status != RETRY
      ensures PS.Stable(read, Look(old(cells))) && status == RESIZE ==>
                && PS.GivesUp(ShapeOf(buckets, Hash(val, 1, buckets), Hash(val, 2, buckets)), Look(old(cells)))
                && SeesNoRoom(old(cells), Hash(val, 1, buckets), Hash(val, 2, buckets))
      ensures Count(old(cells), val) == 0 && TableFor(old(cells), Hash(val, 1, buckets), Hash(val, 2, buckets)) != 0 ==>
                && status == SUCCESS
                && cells == old(cells)[FirstFree(old(cells), Hash(val, 1, buckets), Hash(val, 2, buckets)) := val]
    {
      FoundIffStored(cells, buckets, val);
      ghost var at;
      ghost var before := cells;
      status, at := InnerInsert(val, Hash(val, 1, buckets), Hash(val, 2, buckets), read, random);
      if status == SUCCESS { WrittenIsPlaced(before, cells, val, at, buckets); }
    }

    /**
     An insert that computed its indices for b buckets, before any number of resizes: the value is
     stored, but found exactly when the index used is the one its hash has now. Which table it goes to
     is settled beforehand if one of the two buckets has room.
     */
    method StaleInsert(val: int, b: nat, read: PS.Reader, random: nat -> nat) returns (status: Status, ghost at: Cell)
      requires Valid() && val != EMPTY && 0 < b <= buckets && Count(cells, val) == 0
      modifies this`cells, table1, table2
      ensures status == SUCCESS ==> Sound() && Differs(old(cells), cells, val, 1) && (at.table == 1 || at.table == 2)
      ensures status == SUCCESS ==>
                (Found(cells, val, buckets) <==> Hash(val, at.table, b) == Hash(val, at.table, buckets))
      ensures var table := TableFor(old(cells), Hash(val, 1, b), Hash(val, 2, b));
              table != 0 ==>
                status == SUCCESS && (Found(cells, val, buckets) <==> Hash(val, table, b) == Hash(val, table, buckets))
    {
      NotSeen(cells, val, Hash(val, 1, b), Hash(val, 2, b));
      status, at := InnerInsert(val, Hash(val, 1, b), Hash(val, 2, b), read, random);
      if status == SUCCESS { StaleIndexExactly(cells, val, at, b, buckets); }
    }

    /** Puts a value of a smaller table into this one; false where `isAvailable` finds no slot. */
    method Adopt(ghost done: Cells, ghost src: Cell, val: int, table: int) returns (ok: bool)
      requires Valid() && val != EMPTY && (table == 1 || table == 2) && src.table == table
      requires Copied(done, cells, buckets) && src !in done
      modifies this`cells, table1, table2
      ensures Valid()
      ensures ok ==> Copied(done[src := val], cells, buckets)
      ensures !ok ==> cells == old(cells) && FindSlot(cells, EMPTY, table, Hash(val, table, buckets)) == -1
    {
      var index := Hash(val, table, buckets);
      var slot := SlotOf(EMPTY, table, index);
      if slot == -1 {
        return false;
      }
      CopyOne(done, cells, buckets, src, val, slot);
      Write(Cell(table, index, slot), val);
      ok := true;
    }

    /** One round of the copy loop: the two values at (i, j). */
    method CopyPair(grown: CuckooSet, ghost done: Cells, i: nat, j: nat) returns (ok: bool, ghost done': Cells)
      requires Valid() && grown.Valid() && grown.buckets == 2 * buckets && i < buckets && j < WIDTH
      requires {this, table1, table2} !! {grown, grown.table1, grown.table2}
      requires Visited(cells, done, i, j) && Copied(done, grown.cells, 2 * buckets)
      modifies grown`cells, grown.table1, grown.table2
      ensures Valid() && grown.Valid()
      ensures ok ==> Visited(cells, done', i, j + 1) && Copied(done', grown.cells, 2 * buckets)
      ensures !ok ==> Overfull(cells, grown.cells, 2 * buckets, done', Cell(2, i, j))
    {
      var c1, c2 := Cell(1, i, j), Cell(2, i, j);
      VisitStep(cells, buckets, done, i, j);
      done' := done;
      assert ValidCell(c1, buckets) && ValidCell(c2, buckets);
      var val := Read(c1);
      if val != EMPTY {
        Table1Fits(cells, done, grown.cells, buckets, c1);
        var room := grown.Adopt(done, c1, val, 1);
        done' := done[c1 := val];
      }
      ok, done' := CopySecond(grown, done, done', i, j);
    }

    /** The table-2 value at (i, j), once the table-1 value is copied. */
    method CopySecond(grown: CuckooSet, ghost done: Cells, ghost mid: Cells, i: nat, j: nat)
      returns (ok: bool, ghost done': Cells)
      requires Valid() && grown.Valid() && grown.buckets == 2 * buckets && i < buckets && j < WIDTH
      requires {this, table1, table2} !! {grown, grown.table1, grown.table2}
      requires Visited(cells, done, i, j) && mid == WithCell(done, cells, Cell(1, i, j))
      requires Copied(mid, grown.cells, 2 * buckets) && Cell(2, i, j) !in mid
      modifies grown`cells, grown.table1, grown.table2
      ensures Valid() && grown.Valid()
      ensures ok ==> done' == WithCell(mid, cells, Cell(2, i, j)) && Copied(done', grown.cells, 2 * buckets)
      ensures !ok ==> Overfull(cells, grown.cells, 2 * buckets, done', Cell(2, i, j))
    {
      var c2 := Cell(2, i, j);
      done', ok := mid, true;
      assert ValidCell(c2, buckets);
      var val := Read(c2);
      if val != EMPTY {
        ok := grown.Adopt(mid, c2, val, 2);
        if ok {
          done' := mid[c2 := val];
        } else {
          OverfullHere(cells, grown.cells, 2 * buckets, done, mid, i, j);
        }
      }
    }

    /** The inner copy loop: one old bucket of each table. */
    method CopyRow(grown: CuckooSet, ghost done: Cells, i: nat) returns (ok: bool, ghost done': Cells)
      requires Valid() && grown.Valid() && grown.buckets == 2 * buckets && i < buckets
      requires {this, table1, table2} !! {grown, grown.table1, grown.table2}
      requires Visited(cells, done, i, 0) && Copied(done, grown.cells, 2 * buckets)
      modifies grown`cells, grown.table1, grown.table2
      ensures Valid() && grown.Valid()
      ensures ok ==> Visited(cells, done', i + 1, 0) && Copied(done', grown.cells, 2 * buckets)
      ensures !ok ==> !Fits(Prefix(cells, i + 1), 2 * buckets)
    {
      var j := 0;
      done', ok := done, true;
      while j < WIDTH
        invariant 0 <= j <= WIDTH && Valid() && grown.Valid()
        invariant Visited(cells, done', i, j) && Copied(done', grown.cells, 2 * buckets)
      {
        ok, done' := CopyPair(grown, done', i, j);
        if !ok {
          OverfullPrefix(cells, grown.cells, 2 * buckets, done', Cell(2, i, j), i + 1);
          return;
        }
        j := j + 1;
      }
      ok := true;
      VisitRow(cells, buckets, done', i);
    }

    /** The outer copy loop over the first `prefix` old buckets, into an empty table. */
    method CopyRows(grown: CuckooSet, prefix: nat) returns (ok: bool)
      requires Valid() && prefix <= buckets && grown.Valid() && grown.buckets == 2 * buckets && grown.cells == map[]
      requires {this, table1, table2} !! {grown, grown.table1, grown.table2}
      modifies grown`cells, grown.table1, grown.table2
      ensures Valid() && grown.Valid()
      ensures ok <==> Fits(Prefix(cells, prefix), 2 * buckets)
      ensures ok ==> SameContents(Prefix(cells, prefix), grown.cells)
    {
      var size := 2 * buckets;
      ghost var done: Cells := map[];
      CopyStart(size);
      BeforeStart(cells);
      var i := 0;
      while i < prefix
        invariant 0 <= i <= prefix && Valid() && grown.Valid()
        invariant Visited(cells, done, i, 0) && Copied(done, grown.cells, size)
      {
        ok, done := CopyRow(grown, done, i);
        if !ok {
          MorePrefix(cells, i + 1, prefix, size);
          return;
        }
        i := i + 1;
      }
      PrefixVisited(cells, done, i);
      CopiedFits(done, grown.cells, size);
      ok := true;
    }

    /**
     A doubled table with the first `prefix` old buckets copied. Over all
     of them it keeps the whole contents if they fit.
     */
    method CopyTables(prefix: nat) returns (ok: bool, grown: CuckooSet)
      requires Valid() && prefix <= buckets
      ensures grown.Valid() && grown.buckets == 2 * buckets && fresh(grown.table1) && fresh(grown.table2)
      ensures ok <==> Fits(Prefix(cells, prefix), 2 * buckets)
      ensures ok ==> SameContents(Prefix(cells, prefix), grown.cells)
      ensures prefix == buckets ==> (ok <==> Fits(cells, 2 * buckets)) && (ok ==> SameContents(cells, grown.cells))
    {
      WholePrefix(cells, buckets);
      grown := new CuckooSet(2 * buckets);
      ok := CopyRows(grown, prefix);
    }

    /** The copy loop of the resize, a quarter of the doubled bucket count. */
    method CopyHalf() returns (ok: bool, grown: CuckooSet)
      requires Valid()
      ensures grown.Valid() && grown.buckets == 2 * buckets && fresh(grown.table1) && fresh(grown.table2)
      ensures ok <==> Fits(Prefix(cells, buckets / 2), 2 * buckets)
      ensures ok ==> SameContents(Prefix(cells, buckets / 2), grown.cells)
      ensures ok ==> (SameContents(cells, grown.cells) <==> forall c :: c in cells ==> c.index < buckets / 2)
    {
      PrefixKeepsContentsExactly(cells, buckets / 2);
      ok, grown := CopyTables(2 * buckets / 4);
      if ok { SameContentsVia(cells, Prefix(cells, buckets / 2), grown.cells); }
    }

    /**
     The resize, with the bound of its copy loop as written: a quarter of the doubled bucket count. It
     reports false where the original would write through slot -1.
     */
    method Resize() returns (ok: bool)
      requires Valid()
      modifies this
      ensures ok <==> Fits(Prefix(old(cells), old(buckets) / 2), 2 * old(buckets))
      ensures ok ==> Valid() && buckets == 2 * old(buckets) && fresh(table1) && fresh(table2)
      ensures ok ==> SameContents(Prefix(old(cells), old(buckets) / 2), cells)
      ensures ok ==> (SameContents(old(cells), cells) <==> forall c :: c in old(cells) ==> c.index < old(buckets) / 2)
      ensures !ok ==> unchanged(this)
    {
      var grown;
      ok, grown := CopyHalf();
      if ok {
        buckets, table1, table2, cells := grown.buckets, grown.table1, grown.table2, grown.cells;
      }
    }

    /** What an inner insert does with a path: take its only cell if that is free, else displace along it. */
    method Evict(path: seq<Cell>, val: int) returns (status: Status)
      requires Valid() && val != EMPTY && PathInRange(path, buckets)
      modifies this`cells, table1, table2
      ensures Sound() && (status != SUCCESS ==> Valid())
      ensures status == RETRY || status == SUCCESS
      ensures status == RETRY ==> SameContents(old(cells), cells)
      ensures status == SUCCESS ==>
                WrittenAt(old(cells), cells, val, path[0], path[0].index, path[0].index, buckets)
      ensures Evictable(old(cells), path, buckets) ==> status == SUCCESS
    {
      ghost var before := cells;
      if |path| == 1 {
        if Read(path[0]) != EMPTY {
          return RETRY;
        }
      } else {
        var ok := Displace(path);
        if !ok {
          return RETRY;
        }
      }
      ghost var mid := cells;
      Store(path[0], val);
      StoreIsWritten(mid, cells, val, path[0], path[0].index, path[0].index, buckets);
      status := SUCCESS;
    }
  }

  /** The new cells are the old contents, well placed, and one more value in a bucket with one of the two indices. */
  ghost predicate WrittenAt(before: Cells, after: Cells, val: int, at: Cell, idx1: nat, idx2: nat, buckets: nat) {
    && ValidCell(at, buckets) && at in after && after[at] == val
    && at.index == (if at.table == 1 then idx1 else idx2)
    && Differs(before, after, val, 1) && Placed(after - {at}, buckets) && SameContents(before, after - {at})
  }

  /** The table in which a bucket with one of the two indices has room, table 1 first; 0 if neither has. */
  function TableFor(cells: Cells, idx1: nat, idx2: nat): int {
    if FindSlot(cells, EMPTY, 1, idx1) != -1 then 1 else if FindSlot(cells, EMPTY, 2, idx2) != -1 then 2 else 0
  }

  /** The first empty cell of the two buckets, table 1 first. */
  function FirstFree(cells: Cells, idx1: nat, idx2: nat): Cell
    requires TableFor(cells, idx1, idx2) != 0
  {
    var table := TableFor(cells, idx1, idx2);
    var index := if table == 1 then idx1 else idx2;
    Cell(table, index, FindSlot(cells, EMPTY, table, index))
  }

  /** A value that is not stored is not found anywhere. */
  lemma NotSeen(cells: Cells, val: int, idx1: nat, idx2: nat)
    requires Count(cells, val) == 0 && val != EMPTY
    ensures !Seen(cells, val, idx1, idx2)
  {
    forall c | c in cells ensures cells[c] != val {
      assert c in Occurrences(cells, val) <==> cells[c] == val;
    }
  }

  /** Written to a bucket of its own hashes, the value is well placed. */
  lemma WrittenIsPlaced(before: Cells, after: Cells, val: int, at: Cell, buckets: nat)
    requires buckets > 0 && val != EMPTY
    requires WrittenAt(before, after, val, at, Hash(val, 1, buckets), Hash(val, 2, buckets), buckets)
    ensures Placed(after, buckets)
  {
    forall c | c in after
      ensures ValidCell(c, buckets) && after[c] != EMPTY && Hash(after[c], c.table, buckets) == c.index
    {
      if c != at { assert c in after - {at} && (after - {at})[c] == after[c]; }
    }
  }

  lemma StoreIsWritten(before: Cells, after: Cells, val: int, at: Cell, idx1: nat, idx2: nat, buckets: nat)
    requires Placed(before, buckets) && at !in before && after == before[at := val] && Differs(before, after, val, 1)
    requires ValidCell(at, buckets) && at.index == (if at.table == 1 then idx1 else idx2)
    ensures WrittenAt(before, after, val, at, idx1, idx2, buckets)
  {
    assert after - {at} == before;
  }

  /** No cell is free. */
  ghost predicate Full(cells: Cells, buckets: nat) {
    forall c :: ValidCell(c, buckets) ==> c in cells
  }

  function CellAfter(cells: Cells, buckets: nat, prev: Cell, slot: nat): Cell
    requires buckets > 0
  {
    Cell(3 - prev.table, Hash(At(cells, prev), 3 - prev.table, buckets), slot)
  }

  ghost predicate PathInRange(path: seq<Cell>, buckets: nat) {
    && path != [] && (forall i :: 0 <= i < |path| ==> ValidCell(path[i], buckets))
    && forall i :: 0 < i < |path| ==> path[i].table == 3 - path[i - 1].table
  }

  /** `along` lists the cells the slots name when read against one table. */
  ghost predicate CellsAlong(
      cells: Cells, buckets: nat, idx1: nat, idx2: nat, root: nat, slots: seq<nat>, along: seq<Cell>)
    requires buckets > 0 && slots != []
  {
    && |along| == |slots|
    && along[0] == (if root == 0 then Cell(1, idx1, slots[0]) else Cell(2, idx2, slots[0]))
    && forall i :: 0 < i < |slots| ==> along[i] == CellAfter(cells, buckets, along[i - 1], slots[i])
  }

  lemma CellsGoOn(
      cells: Cells, buckets: nat, idx1: nat, idx2: nat, root: nat, slots: seq<nat>, along: seq<Cell>, i: nat)
    requires buckets > 0 && slots != [] && CellsAlong(cells, buckets, idx1, idx2, root, slots, along) && 0 < i < |slots|
    ensures along[..i + 1] == along[..i] + [CellAfter(cells, buckets, along[i - 1], slots[i])]
  {
  }

  /** The cells a path code names in a table that stands still. */
  ghost function Along(cells: Cells, sh: PS.Shape, root: nat, slots: seq<nat>): seq<Cell> {
    seq(|slots|, i requires 0 <= i < |slots| =>
      var b := PS.Walk(sh, Look(cells), root, slots[..i]);
      Cell(b.table, b.index, slots[i]))
  }

  /** A shortest path to an empty slot can be carried out: a successful search of a quiet table never misleads. */
  lemma ShortestIsEvictable(cells: Cells, buckets: nat, idx1: nat, idx2: nat, p: PS.Point)
    requires Placed(cells, buckets) && PS.ShapeOk(ShapeOf(buckets, idx1, idx2))
    requires p.pathcode >= 0 && p.depth >= 0 && p.index >= 0
             && PS.Shortest(ShapeOf(buckets, idx1, idx2), Look(cells), p)
    ensures var sh := ShapeOf(buckets, idx1, idx2);
            var slots, root := PS.SlotsOf(p.pathcode, p.depth + 1, WIDTH), PS.RootOf(p.pathcode, p.depth + 1, WIDTH);
            && CellsAlong(cells, buckets, sh.idx1, sh.idx2, root, slots, Along(cells, sh, root, slots))
            && Evictable(cells, Along(cells, sh, root, slots), buckets)
  {
    var sh, look := ShapeOf(buckets, idx1, idx2), Look(cells);
    var slots, root := PS.SlotsOf(p.pathcode, p.depth + 1, WIDTH), PS.RootOf(p.pathcode, p.depth + 1, WIDTH);
    var along, trail := Along(cells, sh, root, slots), slots[..p.depth];
    forall i | 0 <= i < p.depth
      ensures along[i + 1] == CellAfter(cells, buckets, along[i], slots[i + 1])
      ensures HopFits(cells, along[i], along[i + 1], buckets)
    {
      AlongLinks(cells, buckets, idx1, idx2, root, slots, i);
    }
    forall i, j | 0 <= i < j < |along| ensures along[i] != along[j] {
      PS.BucketsDistinct(sh, look, root, trail, slots[p.depth], i, j);
      assert trail[..i] == slots[..i] && trail[..j] == slots[..j];
    }
    assert look(PS.Walk(sh, look, root, trail), slots[p.depth]) == At(cells, along[p.depth]);
  }

  lemma AlongLinks(cells: Cells, buckets: nat, idx1: nat, idx2: nat, root: nat, slots: seq<nat>, i: nat)
    requires buckets > 0 && i + 1 < |slots|
    requires PS.Trail(ShapeOf(buckets, idx1, idx2), Look(cells), root, slots[..|slots| - 1])
    ensures var along := Along(cells, ShapeOf(buckets, idx1, idx2), root, slots);
            along[i] in cells && along[i + 1] == CellAfter(cells, buckets, along[i], slots[i + 1])
  {
    var sh, look, trail := ShapeOf(buckets, idx1, idx2), Look(cells), slots[..|slots| - 1];
    PS.TrailPrefix(sh, look, root, trail, i);
    assert trail[..i] == slots[..i] && trail[..i + 1] == slots[..i + 1];
    assert look(PS.Walk(sh, look, root, slots[..i]), slots[i]) == At(cells, Along(cells, sh, root, slots)[i]);
  }

  lemma FreeIsLast(cells: Cells, path: seq<Cell>, buckets: nat, i: nat)
    requires Evictable(cells, path, buckets) && i < |path| && path[i] !in cells
    ensures i == |path| - 1
  {
    assert i < |path| - 1 ==> HopFits(cells, path[i], path[i + 1], buckets);
  }

  /** After its last hop, the rest of an evictable path is evictable. */
  lemma EvictableStep(cells: Cells, path: seq<Cell>, buckets: nat)
    requires Evictable(cells, path, buckets) && |path| >= 2
    ensures var n := |path|;
            && path[n - 1] !in cells && HopFits(cells, path[n - 2], path[n - 1], buckets)
            && Evictable(Moved(cells, path[n - 2], path[n - 1]), path[..n - 1], buckets)
  {
    var n := |path|;
    assert HopFits(cells, path[n - 2], path[n - 1], buckets);
    var cells' := Moved(cells, path[n - 2], path[n - 1]);
    forall i | 0 <= i < n - 2 ensures HopFits(cells', path[i], path[i + 1], buckets) {
      assert HopFits(cells, path[i], path[i + 1], buckets);
    }
  }

  // ---- the cells a pass has counted before (i, j) ----

  ghost function Before(cells: Cells, i: nat, j: nat): set<Cell> {
    set c | c in cells && (c.index < i || (c.index == i && c.slot < j))
  }

  lemma BeforeStart(cells: Cells)
    ensures Before(cells, 0, 0) == {}
  {
  }

  lemma BeforeStep(cells: Cells, buckets: nat, i: nat, j: nat)
    requires Placed(cells, buckets)
    ensures |Before(cells, i, j + 1)| == |Before(cells, i, j)|
              + (if Cell(1, i, j) in cells then 1 else 0) + (if Cell(2, i, j) in cells then 1 else 0)
  {
    var c1, c2, a := Cell(1, i, j), Cell(2, i, j), Before(cells, i, j);
    BeforeNext(cells, buckets, i, j);
    WithOne(a, c1, cells);
    WithOne(WithPresent(a, c1, cells), c2, cells);
  }

  ghost function WithPresent(seen: set<Cell>, c: Cell, cells: Cells): set<Cell> {
    if c in cells then seen + {c} else seen
  }

  lemma WithOne(seen: set<Cell>, c: Cell, cells: Cells)
    requires c !in seen
    ensures |WithPresent(seen, c, cells)| == |seen| + if c in cells then 1 else 0
  {
  }

  lemma BeforeNext(cells: Cells, buckets: nat, i: nat, j: nat)
    requires Placed(cells, buckets)
    ensures Before(cells, i, j + 1) ==
              WithPresent(WithPresent(Before(cells, i, j), Cell(1, i, j), cells), Cell(2, i, j), cells)
  {
    var a, b := Before(cells, i, j), Before(cells, i, j + 1);
    forall c ensures c in b <==> c in WithPresent(WithPresent(a, Cell(1, i, j), cells), Cell(2, i, j), cells) {
      if c in cells { assert ValidCell(c, buckets); }
    }
  }

  lemma BeforeRow(cells: Cells, buckets: nat, i: nat)
    requires Placed(cells, buckets)
    ensures Before(cells, i, WIDTH) == Before(cells, i + 1, 0)
  {
    forall c ensures c in Before(cells, i, WIDTH) <==> c in Before(cells, i + 1, 0) {
      if c in cells { assert ValidCell(c, buckets); }
    }
  }

  /** `done` is what a pass has seen before (i, j). */
  ghost predicate Visited(cells: Cells, done: Cells, i: nat, j: nat) {
    done.Keys == Before(cells, i, j) && forall c :: c in done ==> done[c] == cells[c]
  }

  /** The copy has come to a value whose new table-2 bucket is full. */
  ghost predicate Overfull(cells: Cells, grown: Cells, size: nat, done: Cells, c: Cell)
    requires size > 0
  {
    && Copied(done, grown, size) && c in cells && c !in done && c.table == 2
    && done.Keys <= Before(cells, c.index, c.slot + 1)
    && (forall d :: d in done ==> d in cells && done[d] == cells[d])
    && FindSlot(grown, EMPTY, 2, Hash(cells[c], 2, size)) == -1
  }

  lemma OverfullHere(cells: Cells, grown: Cells, size: nat, done: Cells, done': Cells, i: nat, j: nat)
    requires size > 0 && Visited(cells, done, i, j) && done' == WithCell(done, cells, Cell(1, i, j))
    requires Copied(done', grown, size) && Cell(2, i, j) in cells && Cell(2, i, j) !in done'
    requires FindSlot(grown, EMPTY, 2, Hash(cells[Cell(2, i, j)], 2, size)) == -1
    ensures Overfull(cells, grown, size, done', Cell(2, i, j))
  {
  }

  lemma OverfullPrefix(cells: Cells, grown: Cells, size: nat, done: Cells, c: Cell, prefix: nat)
    requires size > 0 && Overfull(cells, grown, size, done, c) && c.index < prefix
    ensures !Fits(Prefix(cells, prefix), size)
  {
    var all := Prefix(cells, prefix);
    forall d | d in done ensures d in all && done[d] == all[d] {
      assert d in Before(cells, c.index, c.slot + 1);
    }
    Table2Overflows(all, done, grown, size, c);
  }

  /** What overflows within a prefix overflows within a longer one. */
  lemma MorePrefix(cells: Cells, m: nat, n: nat, size: nat)
    requires size > 0 && m <= n
    ensures Fits(Prefix(cells, n), size) ==> Fits(Prefix(cells, m), size)
  {
    if Fits(Prefix(cells, n), size) {
      forall k | 0 <= k < size ensures |Bound(Prefix(cells, m), 2, k, size)| <= WIDTH {
        SubsetSize(Bound(Prefix(cells, m), 2, k, size), Bound(Prefix(cells, n), 2, k, size));
      }
    }
  }

  lemma WholePrefix(cells: Cells, buckets: nat)
    requires Placed(cells, buckets)
    ensures Prefix(cells, buckets) == cells
  {
    forall c | c in cells ensures c.index < buckets { assert ValidCell(c, buckets); }
  }

  ghost function WithCell(done: Cells, cells: Cells, c: Cell): Cells {
    if c in cells then done[c := cells[c]] else done
  }

  lemma VisitStep(cells: Cells, buckets: nat, done: Cells, i: nat, j: nat)
    requires Placed(cells, buckets) && Visited(cells, done, i, j)
    ensures Cell(1, i, j) !in done && Cell(2, i, j) !in done
    ensures Visited(cells, WithCell(WithCell(done, cells, Cell(1, i, j)), cells, Cell(2, i, j)), i, j + 1)
  {
    var done' := WithCell(WithCell(done, cells, Cell(1, i, j)), cells, Cell(2, i, j));
    forall c ensures c in done' <==> c in Before(cells, i, j + 1) {
      if c in cells { assert ValidCell(c, buckets); }
    }
  }

  lemma PrefixVisited(cells: Cells, done: Cells, i: nat)
    requires Visited(cells, done, i, 0)
    ensures done == Prefix(cells, i)
  {
  }

  lemma VisitRow(cells: Cells, buckets: nat, done: Cells, i: nat)
    requires Placed(cells, buckets) && Visited(cells, done, i, WIDTH)
    ensures Visited(cells, done, i + 1, 0)
  {
    BeforeRow(cells, buckets, i);
  }

  lemma BeforeEnd(cells: Cells, buckets: nat)
    requires Placed(cells, buckets)
    ensures |Before(cells, buckets, 0)| == |cells|
  {
    assert Before(cells, buckets, 0) == cells.Keys;
  }
}
