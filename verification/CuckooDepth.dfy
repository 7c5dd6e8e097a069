/**
 A run in which the room for a value is two hops away: its own two buckets and all their neighbours
 are full, and the insert still succeeds.
 */
module CuckooDepth {
  import opened CuckooCore
  import opened CuckooContents
  import opened CuckooReach
  import opened CuckooSet
  import PS = PathSearch

  /** Five groups of values with the same two hashes for eight buckets, and the bucket each group fills. */
  datatype Group = Group(first: int, table: int, index: nat)

  function GroupOf(g: nat): Group
    requires g < 5
  {
    match g
    case 0 => Group(17, 1, 1)
    case 1 => Group(1, 2, 0)
    case 2 => Group(26, 1, 2)
    case 3 => Group(10, 2, 1)
    case _ => Group(8, 1, 0)
  }

  function Number(g: nat, slot: nat): int
    requires g < 5
  {
    GroupOf(g).first + 64 * slot
  }

  function CellOf(g: nat, slot: nat): Cell
    requires g < 5
  {
    Cell(GroupOf(g).table, GroupOf(g).index, slot)
  }

  /** The group that fills the bucket of a cell, if one does. */
  function GroupAt(c: Cell): int {
    if c.table == 1 && c.index == 1 then 0
    else if c.table == 2 && c.index == 0 then 1
    else if c.table == 1 && c.index == 2 then 2
    else if c.table == 2 && c.index == 1 then 3
    else if c.table == 1 && c.index == 0 then 4
    else -1
  }

  lemma GroupOfCell(g: nat, slot: nat)
    requires g < 5
    ensures GroupAt(CellOf(g, slot)) == g
  {
  }

  lemma CellOfGroup(c: Cell)
    requires GroupAt(c) >= 0
    ensures GroupAt(c) < 5 && CellOf(GroupAt(c), c.slot) == c
  {
  }

  /** Where the values go first and second: hash 1 is the value modulo 8, hash 2 an eighth of it modulo 8. */
  lemma Hashes(g: nat, slot: nat)
    requires g < 5 && slot < WIDTH
    ensures 0 < Number(g, slot) < 1000
    ensures Hash(Number(g, slot), 1, 8) == match g case 0 => 1 case 1 => 1 case 2 => 2 case 3 => 2 case _ => 0
    ensures Hash(Number(g, slot), 2, 8) == match g case 0 => 2 case 1 => 0 case 2 => 3 case 3 => 1 case _ => 1
    ensures Hash(64, 1, 8) == 0 && Hash(64, 2, 8) == 0
  {
  }

  lemma NumbersDiffer(g: nat, slot: nat, g': nat, slot': nat)
    requires g < 5 && g' < 5 && slot < WIDTH && slot' < WIDTH && Number(g, slot) == Number(g', slot')
    ensures g == g' && slot == slot'
  {
    assert Number(g, slot) % 64 == GroupOf(g).first && Number(g', slot') % 64 == GroupOf(g').first;
  }

  // ---- the table ----

  predicate InUse(c: Cell, counts: seq<nat>) {
    |counts| == 5 && 0 <= GroupAt(c) < 5 && c.slot < WIDTH && c.slot < counts[GroupAt(c)]
  }

  /** Each group has come as far as counted. */
  ghost predicate Filled(cells: Cells, counts: seq<nat>) {
    && |counts| == 5 && (forall g :: 0 <= g < 5 ==> counts[g] <= WIDTH)
    && (forall c :: c in cells <==> InUse(c, counts))
    && (forall c :: c in cells ==> InUse(c, counts) && cells[c] == Number(GroupAt(c), c.slot))
  }

  lemma FreeSlot(cells: Cells, counts: seq<nat>, g: nat)
    requires Filled(cells, counts) && g < 5
    ensures FindSlot(cells, EMPTY, GroupOf(g).table, GroupOf(g).index) == if counts[g] < WIDTH then counts[g] else -1
  {
    forall slot | 0 <= slot < WIDTH
      ensures At(cells, Cell(GroupOf(g).table, GroupOf(g).index, slot)) == EMPTY <==> slot >= counts[g]
    {
      SlotOfGroup(cells, counts, g, slot);
    }
    FirstFreeFrom(cells, counts[g], GroupOf(g).table, GroupOf(g).index, 0);
  }

  lemma {:induction false} FirstFreeFrom(cells: Cells, count: nat, table: int, index: nat, from: nat)
    requires from <= count <= WIDTH
    requires forall slot :: from <= slot < WIDTH ==> (At(cells, Cell(table, index, slot)) == EMPTY <==> slot >= count)
    ensures FindSlotFrom(cells, EMPTY, table, index, from) == if count < WIDTH then count else -1
    decreases WIDTH - from
  {
    if from < count { FirstFreeFrom(cells, count, table, index, from + 1); }
  }

  lemma SlotOfGroup(cells: Cells, counts: seq<nat>, g: nat, slot: nat)
    requires Filled(cells, counts) && g < 5 && slot < WIDTH
    ensures CellOf(g, slot) in cells <==> slot < counts[g]
    ensures At(cells, CellOf(g, slot)) == if slot < counts[g] then Number(g, slot) else EMPTY
  {
    GroupOfCell(g, slot);
    assert CellOf(g, slot) in cells <==> InUse(CellOf(g, slot), counts);
  }

  lemma NotStored(cells: Cells, counts: seq<nat>, val: int)
    requires Filled(cells, counts)
    requires forall g, slot :: 0 <= g < 5 && 0 <= slot < counts[g] ==> Number(g, slot) != val
    ensures Count(cells, val) == 0
  {
    assert forall c :: c in cells ==> cells[c] != val;
    assert Occurrences(cells, val) == {};
  }

  lemma OneMore(cells: Cells, counts: seq<nat>, g: nat, slot: nat)
    requires Filled(cells, counts) && g < 5 && slot < WIDTH && counts[g] == slot
    ensures Filled(cells[CellOf(g, slot) := Number(g, slot)], counts[g := slot + 1])
  {
    var cells', counts' := cells[CellOf(g, slot) := Number(g, slot)], counts[g := slot + 1];
    GroupOfCell(g, slot);
    forall c ensures c in cells' <==> InUse(c, counts') {
      assert c in cells <==> InUse(c, counts);
      if GroupAt(c) == g { CellOfGroup(c); }
    }
  }

  lemma OneLess(cells: Cells, counts: seq<nat>, g: nat, slot: nat)
    requires Filled(cells, counts) && g < 5 && slot < WIDTH && counts[g] == slot + 1
    ensures Filled(cells - {CellOf(g, slot)}, counts[g := slot])
  {
    var cells', counts' := cells - {CellOf(g, slot)}, counts[g := slot];
    GroupOfCell(g, slot);
    forall c ensures c in cells' <==> InUse(c, counts') {
      assert c in cells <==> InUse(c, counts);
      if GroupAt(c) == g { CellOfGroup(c); }
    }
  }

  /** The values of groups 1 and 3 go to table 2 because table 1 has no room for them. */
  ghost predicate Ready(counts: seq<nat>, g: nat)
    requires |counts| == 5
  {
    (g == 1 ==> counts[0] == WIDTH) && (g == 3 ==> counts[2] == WIDTH)
  }

  lemma RoomFor(cells: Cells, counts: seq<nat>, g: nat, slot: nat)
    requires Filled(cells, counts) && Ready(counts, g) && g < 5 && slot < WIDTH && counts[g] == slot
    ensures var val := Number(g, slot);
            && TableFor(cells, Hash(val, 1, 8), Hash(val, 2, 8)) != 0
            && FirstFree(cells, Hash(val, 1, 8), Hash(val, 2, 8)) == CellOf(g, slot)
  {
    Hashes(g, slot);
    FreeSlot(cells, counts, g);
    if g == 1 { FreeSlot(cells, counts, 0); }
    if g == 3 { FreeSlot(cells, counts, 2); }
  }

  method Add(s: CuckooSet, g: nat, slot: nat, ghost counts: seq<nat>)
    requires s.Valid() && s.buckets == 8 && Filled(s.cells, counts) && g < 5 && slot < WIDTH && counts[g] == slot
    requires Ready(counts, g)
    modifies s`cells, s.table1, s.table2
    ensures s.Valid() && Filled(s.cells, counts[g := slot + 1])
  {
    var val := Number(g, slot);
    Hashes(g, slot);
    forall h, n | 0 <= h < 5 && 0 <= n < counts[h] ensures Number(h, n) != val {
      if Number(h, n) == val { NumbersDiffer(h, n, g, slot); }
    }
    NotStored(s.cells, counts, val);
    RoomFor(s.cells, counts, g, slot);
    OneMore(s.cells, counts, g, slot);
    var status := s.InsertAttempt(val, (n, b, t) => EMPTY, n => 0);
  }

  lemma SameCount(counts: seq<nat>, g: nat)
    requires g < |counts|
    ensures counts[g := counts[g]] == counts
  {
  }

  lemma NewCount(counts: seq<nat>, g: nat, m: nat, n: nat)
    requires g < |counts|
    ensures counts[g := m][g := n] == counts[g := n]
  {
  }

  method Fill(s: CuckooSet, g: nat, ghost counts: seq<nat>)
    requires s.Valid() && s.buckets == 8 && Filled(s.cells, counts) && g < 5 && counts[g] == 0 && Ready(counts, g)
    modifies s`cells, s.table1, s.table2
    ensures s.Valid() && Filled(s.cells, counts[g := WIDTH])
  {
    var slot := 0;
    SameCount(counts, g);
    while slot < WIDTH
      invariant 0 <= slot <= WIDTH && s.Valid() && Filled(s.cells, counts[g := slot])
    {
      NewCount(counts, g, slot, slot + 1);
      Add(s, g, slot, counts[g := slot]);
      slot := slot + 1;
    }
  }

  method Take(s: CuckooSet, slot: nat, ghost counts: seq<nat>)
    requires s.Valid() && s.buckets == 8 && Filled(s.cells, counts) && slot < WIDTH && counts[2] == slot + 1
    modifies s`cells, s.table1, s.table2
    ensures s.Valid() && Filled(s.cells, counts[2 := slot])
  {
    var val := Number(2, slot);
    ghost var before := s.cells;
    Hashes(2, slot);
    OneLess(before, counts, 2, slot);
    Stored(before, counts, 2, slot);
    var removed := s.Remove(val);
    ghost var c :| c in before && before[c] == val && s.cells == before - {c};
    OnlyThere(before, counts, 2, slot, c);
  }

  lemma Stored(cells: Cells, counts: seq<nat>, g: nat, slot: nat)
    requires Filled(cells, counts) && g < 5 && slot < counts[g]
    ensures Count(cells, Number(g, slot)) > 0
  {
    SlotOfGroup(cells, counts, g, slot);
    assert CellOf(g, slot) in Occurrences(cells, Number(g, slot));
  }

  lemma OnlyThere(cells: Cells, counts: seq<nat>, g: nat, slot: nat, c: Cell)
    requires Filled(cells, counts) && g < 5 && slot < WIDTH && c in cells && cells[c] == Number(g, slot)
    ensures c == CellOf(g, slot)
  {
    assert InUse(c, counts);
    CellOfGroup(c);
    NumbersDiffer(g, slot, GroupAt(c), c.slot);
  }

  method Drain(s: CuckooSet, ghost counts: seq<nat>)
    requires s.Valid() && s.buckets == 8 && Filled(s.cells, counts) && counts[2] == WIDTH
    modifies s`cells, s.table1, s.table2
    ensures s.Valid() && Filled(s.cells, counts[2 := 0])
  {
    var slot := WIDTH;
    SameCount(counts, 2);
    while slot > 0
      invariant 0 <= slot <= WIDTH && s.Valid() && Filled(s.cells, counts[2 := slot])
    {
      slot := slot - 1;
      NewCount(counts, 2, slot + 1, slot);
      Take(s, slot, counts[2 := slot + 1]);
    }
  }

  function Counts(a: nat, b: nat, c: nat, d: nat, e: nat): seq<nat> {
    [a, b, c, d, e]
  }

  method FillLow(s: CuckooSet)
    requires s.Valid() && s.buckets == 8 && Filled(s.cells, Counts(0, 0, 0, 0, 0))
    modifies s`cells, s.table1, s.table2
    ensures s.Valid() && Filled(s.cells, Counts(6, 6, 6, 0, 0))
  {
    assert Counts(0, 0, 0, 0, 0)[0 := 6] == Counts(6, 0, 0, 0, 0);
    assert Counts(6, 0, 0, 0, 0)[1 := 6] == Counts(6, 6, 0, 0, 0);
    assert Counts(6, 6, 0, 0, 0)[2 := 6] == Counts(6, 6, 6, 0, 0);
    Fill(s, 0, Counts(0, 0, 0, 0, 0));
    Fill(s, 1, Counts(6, 0, 0, 0, 0));
    Fill(s, 2, Counts(6, 6, 0, 0, 0));
  }

  method FillHigh(s: CuckooSet)
    requires s.Valid() && s.buckets == 8 && Filled(s.cells, Counts(6, 6, 6, 0, 0))
    modifies s`cells, s.table1, s.table2
    ensures s.Valid() && Filled(s.cells, Counts(6, 6, 0, 6, 6))
  {
    assert Counts(6, 6, 6, 0, 0)[3 := 6] == Counts(6, 6, 6, 6, 0);
    assert Counts(6, 6, 6, 6, 0)[4 := 6] == Counts(6, 6, 6, 6, 6);
    assert Counts(6, 6, 6, 6, 6)[2 := 0] == Counts(6, 6, 0, 6, 6);
    Fill(s, 3, Counts(6, 6, 6, 0, 0));
    Fill(s, 4, Counts(6, 6, 6, 6, 0));
    Drain(s, Counts(6, 6, 6, 6, 6));
  }

  // ---- ways from the two buckets of 64 ----

  /** The groups passed: from the two buckets of 64, groups 4 and 1; from these, groups 3 and 0; from these, no more. */
  lemma WaysOfOne(cells: Cells, root: nat, slot: nat)
    requires Filled(cells, Counts(6, 6, 0, 6, 6)) && root < 2 && slot < 6
    ensures EndOf(cells, 8, 0, 0, root, []) == PlaceOf(if root == 0 then 4 else 1)
    ensures EndOf(cells, 8, 0, 0, root, [slot]) == PlaceOf(if root == 0 then 3 else 0)
    ensures IsWay(cells, 8, 0, 0, root, []) && IsWay(cells, 8, 0, 0, root, [slot])
  {
    var g := if root == 0 then 4 else 1;
    SlotOfGroup(cells, Counts(6, 6, 0, 6, 6), g, slot);
    Hashes(g, slot);
    assert [slot][..0] == [];
  }

  function PlaceOf(g: nat): Place
    requires g < 5
  {
    Place(GroupOf(g).table, GroupOf(g).index)
  }

  lemma WaysOfTwo(cells: Cells, root: nat, slot: nat, slot': nat)
    requires Filled(cells, Counts(6, 6, 0, 6, 6)) && root < 2 && slot < 6 && slot' < 6
    ensures EndOf(cells, 8, 0, 0, root, [slot, slot']) == if root == 0 then Place(1, 2) else Place(2, 2)
    ensures IsWay(cells, 8, 0, 0, root, [slot, slot'])
  {
    var g := if root == 0 then 3 else 0;
    WaysOfOne(cells, root, slot);
    SlotOfGroup(cells, Counts(6, 6, 0, 6, 6), g, slot');
    Hashes(g, slot');
    assert [slot, slot'][..1] == [slot];
  }

  lemma EmptyBeyond(cells: Cells, root: nat, slot: nat)
    requires Filled(cells, Counts(6, 6, 0, 6, 6)) && root < 2
    ensures Cell(if root == 0 then 1 else 2, 2, slot) !in cells
  {
    var c := Cell(if root == 0 then 1 else 2, 2, slot);
    assert c in cells <==> InUse(c, Counts(6, 6, 0, 6, 6));
  }

  /** Shape of the ways of at most two hops. */
  lemma ShortWay(cells: Cells, root: nat, slots: seq<nat>)
    requires Filled(cells, Counts(6, 6, 0, 6, 6)) && IsWay(cells, 8, 0, 0, root, slots) && |slots| <= 2
    ensures root < 2 && forall i :: 0 <= i < |slots| ==> slots[i] < 6
    ensures |slots| == 1 ==> slots == [slots[0]]
    ensures |slots| == 2 ==> slots == [slots[0], slots[1]]
  {
    if |slots| == 2 { assert slots[..1] == [slots[0]] && IsWay(cells, 8, 0, 0, root, slots[..1]); }
  }

  /** The value seen at the end of a way of at most one hop. */
  function NearValue(root: nat, slots: seq<nat>): int
    requires root < 2 && |slots| <= 1
  {
    if slots == [] then Number(if root == 0 then 4 else 1, root)
    else Number(if root == 0 then 3 else 0, slots[0])
  }

  lemma SeenNear(cells: Cells, root: nat, slots: seq<nat>)
    requires Filled(cells, Counts(6, 6, 0, 6, 6)) && IsWay(cells, 8, 0, 0, root, slots) && |slots| <= 1
    ensures root < 2 && SeenAt(cells, 8, 0, 0, root, slots) == NearValue(root, slots) != EMPTY
    ensures FullBucket(cells, EndOf(cells, 8, 0, 0, root, slots))
  {
    ShortWay(cells, root, slots);
    var slot := if slots == [] then root else slots[0];
    var g := if slots == [] then (if root == 0 then 4 else 1) else if root == 0 then 3 else 0;
    WaysOfOne(cells, root, slot);
    SlotOfGroup(cells, Counts(6, 6, 0, 6, 6), g, slot);
    Hashes(g, slot);
    forall n | 0 <= n < 6 ensures CellOf(g, n) in cells { SlotOfGroup(cells, Counts(6, 6, 0, 6, 6), g, n); }
  }

  lemma SeenFar(cells: Cells, root: nat, slots: seq<nat>)
    requires Filled(cells, Counts(6, 6, 0, 6, 6)) && IsWay(cells, 8, 0, 0, root, slots) && |slots| == 2
    ensures root < 2 && SeenAt(cells, 8, 0, 0, root, slots) == EMPTY
    ensures !FullBucket(cells, EndOf(cells, 8, 0, 0, root, slots))
  {
    ShortWay(cells, root, slots);
    WaysOfTwo(cells, root, slots[0], slots[1]);
    EmptyBeyond(cells, root, slots[1]);
    EmptyBeyond(cells, root, 0);
  }

  lemma SeenOnce(root: nat, slots: seq<nat>, root': nat, slots': seq<nat>)
    requires root < 2 && root' < 2 && |slots| <= 1 && |slots'| <= 1
    requires (slots != [] ==> slots[0] < 6) && (slots' != [] ==> slots'[0] < 6)
    requires NearValue(root, slots) == NearValue(root', slots')
    ensures root == root' && slots == slots'
  {
    var g := if slots == [] then (if root == 0 then 4 else 1) else if root == 0 then 3 else 0;
    var g' := if slots' == [] then (if root' == 0 then 4 else 1) else if root' == 0 then 3 else 0;
    NumbersDiffer(g, if slots == [] then root else slots[0], g', if slots' == [] then root' else slots'[0]);
  }

  /** Nothing within one hop has room, but two hops away there is some. */
  lemma RoomTwoAway(cells: Cells)
    requires Filled(cells, Counts(6, 6, 0, 6, 6))
    ensures NoRoomWithin(cells, 8, 0, 0, 1)
    ensures forall hops: nat :: hops >= 2 ==> !NoRoomWithin(cells, 8, 0, 0, hops)
  {
    forall root, slots | |slots| <= 1 && IsWay(cells, 8, 0, 0, root, slots)
      ensures FullBucket(cells, EndOf(cells, 8, 0, 0, root, slots))
    {
      SeenNear(cells, root, slots);
    }
    WaysOfTwo(cells, 0, 0, 0);
    SeenFar(cells, 0, [0, 0]);
  }

  lemma NoLoop(cells: Cells, root: nat, slots: seq<nat>, root': nat, slots': seq<nat>)
    requires Filled(cells, Counts(6, 6, 0, 6, 6))
    ensures !LooksLikeLoop(cells, 8, 0, 0, 6, root, slots, root', slots')
  {
    if LooksLikeLoop(cells, 8, 0, 0, 6, root, slots, root', slots') {
      RoomTwoAway(cells);
      ShortWay(cells, root', slots');
      ShortWay(cells, root, slots);
      if |slots| == 2 {
        SeenFar(cells, root, slots);
      } else {
        SeenNear(cells, root, slots);
        if |slots'| == 2 {
          SeenFar(cells, root', slots');
        } else {
          SeenNear(cells, root', slots');
          SeenOnce(root, slots, root', slots');
        }
      }
    }
  }

  lemma NoLoopAtAll(cells: Cells)
    requires Filled(cells, Counts(6, 6, 0, 6, 6))
    ensures !HasLoop(cells, 8, 0, 0, 6)
  {
    forall root, slots, root', slots' ensures !LooksLikeLoop(cells, 8, 0, 0, 6, root, slots, root', slots') {
      NoLoop(cells, root, slots, root', slots');
    }
  }

  // ---- the run ----

  lemma NoCells(cells: Cells)
    requires cells == map[]
    ensures Filled(cells, Counts(0, 0, 0, 0, 0))
  {
  }

  /** What the search reads: the table as it is. */
  function Read(n: nat, b: PS.Bucket, slot: nat): int {
    var c := Cell(b.table, b.index, slot);
    if InUse(c, Counts(6, 6, 0, 6, 6)) then Number(GroupAt(c), slot) else EMPTY
  }

  lemma ReadsTheTable(cells: Cells)
    requires Filled(cells, Counts(6, 6, 0, 6, 6))
    ensures PS.Stable(Read, Look(cells))
  {
    forall n, b: PS.Bucket, slot ensures Read(n, b, slot) == Look(cells)(b, slot) {
      var c := Cell(b.table, b.index, slot);
      assert c in cells <==> InUse(c, Counts(6, 6, 0, 6, 6));
    }
  }

  lemma Before64(cells: Cells)
    requires Filled(cells, Counts(6, 6, 0, 6, 6))
    ensures Hash(64, 1, 8) == 0 && Hash(64, 2, 8) == 0 && Count(cells, 64) == 0
    ensures NoRoomWithin(cells, 8, 0, 0, 1) && !NoRoomWithin(cells, 8, 0, 0, 6) && !HasLoop(cells, 8, 0, 0, 6)
    ensures PS.Stable(Read, Look(cells))
  {
    Hashes(0, 0);
    forall g, slot | 0 <= g < 5 && 0 <= slot < 6 ensures Number(g, slot) != 64 {
      assert Number(g, slot) % 64 == GroupOf(g).first;
    }
    NotStored(cells, Counts(6, 6, 0, 6, 6), 64);
    RoomTwoAway(cells);
    NoLoopAtAll(cells);
    ReadsTheTable(cells);
  }

  method Prepared() returns (s: CuckooSet)
    ensures fresh(s) && fresh(s.table1) && fresh(s.table2) && s.Valid() && s.buckets == 8
    ensures Filled(s.cells, Counts(6, 6, 0, 6, 6))
  {
    s := new CuckooSet(8);
    NoCells(s.cells);
    FillLow(s);
    FillHigh(s);
  }

  /** With room two hops away the insert cannot ask for a resize; with nothing else running it cannot fail otherwise. */
  method Insert64(s: CuckooSet, random: nat -> nat) returns (status: Status)
    requires s.Valid() && s.buckets == 8 && Filled(s.cells, Counts(6, 6, 0, 6, 6))
    modifies s`cells, s.table1, s.table2
    ensures s.Valid() && status == SUCCESS && Differs(old(s.cells), s.cells, 64, 1)
  {
    Before64(s.cells);
    status := s.InsertAttempt(64, Read, random);
  }

  /**
   By inserts and removes alone, eight buckets in which neither the two buckets of 64 nor any bucket one
   hop away has room; the insert of 64 succeeds over two hops, whatever the random numbers.
   */
  method TwoHopExample(random: nat -> nat)
    returns (status: Status, found: bool, ghost before: Cells, ghost after: Cells)
    ensures NoRoomWithin(before, 8, 0, 0, 1) && Count(before, 64) == 0
    ensures status == SUCCESS && found && Differs(before, after, 64, 1)
  {
    var s := Prepared();
    before := s.cells;
    Before64(before);
    status := Insert64(s, random);
    after := s.cells;
    found := s.Contains(64);
  }
}
