/** One run of the cuckoo set in which a resize loses what was stored and an insert loses its own value. */
module CuckooExamples {
  import opened CuckooCore
  import opened CuckooContents
  import opened CuckooRehash
  import opened CuckooSet
  import PS = PathSearch

  /** Values 1 to 6 in table 1 and 7 to 12 in table 2, below slot n of the one bucket. */
  ghost predicate FilledTo(cells: Cells, n: nat) {
    forall c :: c in cells <==> ValidCell(c, 1) && c.slot < n
  }

  ghost predicate Numbered(cells: Cells) {
    forall c :: c in cells ==> cells[c] == Number(c.table, c.slot)
  }

  function Number(table: int, slot: nat): int {
    (table - 1) * WIDTH + slot + 1
  }

  /** What the search reads of that table once it is full. */
  function ReadFull(n: nat, b: PS.Bucket, slot: nat): int {
    if (b.table == 1 || b.table == 2) && b.index == 0 && slot < WIDTH then Number(b.table, slot) else EMPTY
  }

  lemma OneBucketHash(val: int)
    ensures Hash(val, 1, 1) == 0 && Hash(val, 2, 1) == 0
  {
  }

  method FullTable() returns (s: CuckooSet)
    ensures fresh(s) && fresh(s.table1) && fresh(s.table2) && s.Valid() && s.buckets == 1
    ensures FilledTo(s.cells, WIDTH) && Numbered(s.cells)
  {
    s := new CuckooSet(1);
    var i := 0;
    while i < WIDTH
      invariant 0 <= i <= WIDTH && s.Valid() && s.buckets == 1
      invariant fresh(s) && fresh(s.table1) && fresh(s.table2)
      invariant FilledTo(s.cells, i) && Numbered(s.cells)
    {
      OneBucketHash(Number(1, i));
      OneBucketHash(Number(2, i));
      s.Store(Cell(1, 0, i), Number(1, i));
      s.Store(Cell(2, 0, i), Number(2, i));
      i := i + 1;
    }
  }

  lemma FullSeen(cells: Cells, val: int)
    requires FilledTo(cells, WIDTH) && Numbered(cells)
    ensures Full(cells, 1)
    ensures (val < 1 || val > 12) ==> !Seen(cells, val, 0, 0)
    ensures 1 <= val <= 12 ==> Seen(cells, val, 0, 0)
    ensures PS.Stable(ReadFull, Look(cells))
  {
    forall t: int, i: nat | (t == 1 || t == 2) && i < WIDTH ensures At(cells, Cell(t, 0, i)) == Number(t, i) {
      assert ValidCell(Cell(t, 0, i), 1);
    }
    forall n, b, slot ensures ReadFull(n, b, slot) == Look(cells)(b, slot) {
      assert Cell(b.table, b.index, slot) in cells <==> ValidCell(Cell(b.table, b.index, slot), 1);
    }
    if 1 <= val <= 12 {
      var t, i := if val <= 6 then 1 else 2, if val <= 6 then val - 1 else val - 7;
      assert At(cells, Cell(t, 0, i)) == val;
    }
  }

  lemma NothingStored(cells: Cells)
    requires forall v :: Count(cells, v) == 0
    ensures cells == map[]
  {
    forall c ensures c !in cells {
      if c in cells { CountTakeOne(cells, c, cells[c]); }
    }
  }

  lemma NothingCopied(cells: Cells)
    ensures Prefix(cells, 0) == map[] && Fits(map[], 2)
  {
    forall k | 0 <= k < 2 ensures |Bound(map[], 2, k, 2)| <= WIDTH { assert Bound(map[], 2, k, 2) == {}; }
  }

  lemma EmptyCount(v: int)
    ensures Count(map[], v) == 0
  {
    assert Occurrences(map[], v) == {};
  }

  /** Doubling one bucket copies nothing. */
  method Grow(s: CuckooSet)
    requires s.Valid() && s.buckets == 1
    modifies s
    ensures s.Valid() && s.buckets == 2 && s.cells == map[] && fresh(s.table1) && fresh(s.table2)
  {
    NothingCopied(s.cells);
    var grew := s.Resize();
    forall v ensures Count(s.cells, v) == 0 { EmptyCount(v); }
    NothingStored(s.cells);
  }

  lemma EmptySeen(val: int)
    ensures val != EMPTY ==> !Seen(map[], val, 0, 0)
    ensures Seen(map[], EMPTY, 0, 0)
  {
    assert At(map[], Cell(1, 0, 0)) == EMPTY;
  }

  lemma LateIsLost(cells: Cells, at: Cell)
    requires WrittenAt(map[], cells, 15, at, 0, 0, 2)
    ensures !Found(cells, 15, 2) && Count(cells, 15) == 1
  {
    EmptyCount(15);
    assert Hash(15, 1, 2) == 1 && Hash(15, 2, 2) == 1;
    assert Count(cells - {at}, 15) == 0;
    FoundIffInItsBucket(cells, 15, at, 2);
  }

  /** 15 written to an empty table of two buckets with the indices it had for one. */
  method LateInsert(s: CuckooSet, idx1: nat, idx2: nat) returns (status: Status, found: bool)
    requires s.Valid() && s.buckets == 2 && s.cells == map[] && idx1 == 0 && idx2 == 0
    modifies s`cells, s.table1, s.table2
    ensures status == SUCCESS && s.Sound() && Count(s.cells, 15) == 1 && !found
  {
    EmptySeen(15);
    ghost var at;
    status, at := s.InnerInsert(15, idx1, idx2, ReadFull, n => 0);
    LateIsLost(s.cells, at);
    found := s.Contains(15);
  }

  /** In a full table 1 is found and there is no room for 15. */
  method EarlyInsert(s: CuckooSet, idx1: nat, idx2: nat) returns (stored: bool, status: Status)
    requires s.Valid() && s.buckets == 1 && idx1 == 0 && idx2 == 0 && FilledTo(s.cells, WIDTH) && Numbered(s.cells)
    modifies s`cells, s.table1, s.table2
    ensures s.Valid() && stored && status == RESIZE && s.cells == old(s.cells)
  {
    FullSeen(s.cells, 15);
    FullSeen(s.cells, 1);
    OneBucketHash(1);
    stored := s.Contains(1);
    ghost var at;
    status, at := s.InnerInsert(15, idx1, idx2, ReadFull, n => 0);
  }

  /**
   A full table of one bucket: an insert of 15 has to resize, the resize keeps nothing, and the insert
   goes on with the indices it had: 15 is written to bucket 0, and not found afterwards.
   */
  method StaleExample() returns (stored: bool, first: Status, kept: bool, second: Status, found: bool)
    ensures stored && first == RESIZE && !kept && second == SUCCESS && !found
  {
    var s := FullTable();
    OneBucketHash(15);
    var idx1, idx2 := Hash(15, 1, s.buckets), Hash(15, 2, s.buckets);
    stored, first := EarlyInsert(s, idx1, idx2);
    Grow(s);
    EmptyCount(1);
    kept := s.Contains(1);
    second, found := LateInsert(s, idx1, idx2);
  }
}
