/**
 A run of the single-table map of eight buckets, with the mixing function of the store, that ends in an
 insert which finds paths over two hops and cannot go along any of them, however it searches.
 */
module FlatExample {
  import opened FlatStore
  import opened FlatPaths
  import opened FlatReach
  import opened FlatCuckoo
  import PS = PathSearch
  import SH = SecondaryHash

  const KEY: int := 128

  /**
   The keys that come to fill buckets 0 to 4. Those of bucket 1 hash to 4 first and those of bucket 2 to
   3, which are full when they come; those of bucket 3 go again.
   */
  function Number(index: nat, slot: nat): int
    requires index < 5 && slot < ENTRY_WIDTH
  {
    match index
    case 0 => [112, 200, 224, 256, 304, 424, 432, 440][slot]
    case 1 => [12, 76, 236, 260, 292, 308, 340, 500][slot]
    case 2 => [115, 123, 155, 243, 371, 467, 499, 531][slot]
    case 3 => 1003 + 8 * slot
    case _ => [4, 36, 92, 124, 268, 484, 548, 564][slot]
  }

  function First(index: nat): nat {
    match index case 0 => 0 case 1 => 4 case 2 => 3 case 3 => 3 case _ => 4
  }

  function Second(index: nat): nat {
    match index case 0 => 2 case 1 => 1 case 2 => 2 case _ => 5
  }

  /** Eight buckets, and a mixing function that sends the keys to these. */
  ghost predicate Suits(lay: Layout) {
    && lay.buckets == 8 && Hash(lay, KEY, 1) == 0 && Hash(lay, KEY, 2) == 1
    && (forall i, n :: 0 <= i < 5 && 0 <= n < ENTRY_WIDTH ==> Hash(lay, Number(i, n), 1) == First(i))
    && (forall i, n :: 0 <= i < 5 && i != 3 && 0 <= n < ENTRY_WIDTH ==> Hash(lay, Number(i, n), 2) == Second(i))
  }

  // ---- the real mixing function suits ----

  lemma Words0Low()
    ensures SH.Mix(112) % 8 == SH.Mix(200) % 8 == SH.Mix(224) % 8 == 2
  {
    SH.MixOfWord(112, 112);
    SH.MixOfWord(200, 200);
    SH.MixOfWord(224, 224);
  }

  lemma Words0Middle()
    ensures SH.Mix(256) % 8 == SH.Mix(304) % 8 == SH.Mix(424) % 8 == 2
  {
    SH.MixOfWord(256, 256);
    SH.MixOfWord(304, 304);
    SH.MixOfWord(424, 424);
  }

  lemma Words0High()
    ensures SH.Mix(432) % 8 == SH.Mix(440) % 8 == 2
  {
    SH.MixOfWord(432, 432);
    SH.MixOfWord(440, 440);
  }

  lemma Keys0(mix: int -> nat, slot: nat)
    requires mix(112) % 8 == mix(200) % 8 == mix(224) % 8 == mix(256) % 8 ==
             mix(304) % 8 == mix(424) % 8 == mix(432) % 8 == mix(440) % 8 == 2
    requires slot < ENTRY_WIDTH
    ensures mix(Number(0, slot)) % 8 == 2
  {
  }

  lemma MixOfBucket0(mix: int -> nat, slot: nat)
    requires mix == SH.Mix && slot < ENTRY_WIDTH
    ensures mix(Number(0, slot)) % 8 == 2
  {
    Words0Low();
    Words0Middle();
    Words0High();
    Keys0(mix, slot);
  }

  lemma Words1Low()
    ensures SH.Mix(12) % 8 == SH.Mix(76) % 8 == SH.Mix(236) % 8 == 1
  {
    SH.MixOfWord(12, 12);
    SH.MixOfWord(76, 76);
    SH.MixOfWord(236, 236);
  }

  lemma Words1Middle()
    ensures SH.Mix(260) % 8 == SH.Mix(292) % 8 == SH.Mix(308) % 8 == 1
  {
    SH.MixOfWord(260, 260);
    SH.MixOfWord(292, 292);
    SH.MixOfWord(308, 308);
  }

  lemma Words1High()
    ensures SH.Mix(340) % 8 == SH.Mix(500) % 8 == 1
  {
    SH.MixOfWord(340, 340);
    SH.MixOfWord(500, 500);
  }

  lemma Keys1(mix: int -> nat, slot: nat)
    requires mix(12) % 8 == mix(76) % 8 == mix(236) % 8 == mix(260) % 8 ==
             mix(292) % 8 == mix(308) % 8 == mix(340) % 8 == mix(500) % 8 == 1
    requires slot < ENTRY_WIDTH
    ensures mix(Number(1, slot)) % 8 == 1
  {
  }

  lemma MixOfBucket1(mix: int -> nat, slot: nat)
    requires mix == SH.Mix && slot < ENTRY_WIDTH
    ensures mix(Number(1, slot)) % 8 == 1
  {
    Words1Low();
    Words1Middle();
    Words1High();
    Keys1(mix, slot);
  }

  lemma Words2Low()
    ensures SH.Mix(115) % 8 == SH.Mix(123) % 8 == SH.Mix(155) % 8 == 2
  {
    SH.MixOfWord(115, 115);
    SH.MixOfWord(123, 123);
    SH.MixOfWord(155, 155);
  }

  lemma Words2Middle()
    ensures SH.Mix(243) % 8 == SH.Mix(371) % 8 == SH.Mix(467) % 8 == 2
  {
    SH.MixOfWord(243, 243);
    SH.MixOfWord(371, 371);
    SH.MixOfWord(467, 467);
  }

  lemma Words2High()
    ensures SH.Mix(499) % 8 == SH.Mix(531) % 8 == 2
  {
    SH.MixOfWord(499, 499);
    SH.MixOfWord(531, 531);
  }

  lemma Keys2(mix: int -> nat, slot: nat)
    requires mix(115) % 8 == mix(123) % 8 == mix(155) % 8 == mix(243) % 8 ==
             mix(371) % 8 == mix(467) % 8 == mix(499) % 8 == mix(531) % 8 == 2
    requires slot < ENTRY_WIDTH
    ensures mix(Number(2, slot)) % 8 == 2
  {
  }

  lemma MixOfBucket2(mix: int -> nat, slot: nat)
    requires mix == SH.Mix && slot < ENTRY_WIDTH
    ensures mix(Number(2, slot)) % 8 == 2
  {
    Words2Low();
    Words2Middle();
    Words2High();
    Keys2(mix, slot);
  }

  lemma Words4Low()
    ensures SH.Mix(4) % 8 == SH.Mix(36) % 8 == SH.Mix(92) % 8 == 5
  {
    SH.MixOfWord(4, 4);
    SH.MixOfWord(36, 36);
    SH.MixOfWord(92, 92);
  }

  lemma Words4Middle()
    ensures SH.Mix(124) % 8 == SH.Mix(268) % 8 == SH.Mix(484) % 8 == 5
  {
    SH.MixOfWord(124, 124);
    SH.MixOfWord(268, 268);
    SH.MixOfWord(484, 484);
  }

  lemma Words4High()
    ensures SH.Mix(548) % 8 == SH.Mix(564) % 8 == 5
  {
    SH.MixOfWord(548, 548);
    SH.MixOfWord(564, 564);
  }

  lemma Keys4(mix: int -> nat, slot: nat)
    requires mix(4) % 8 == mix(36) % 8 == mix(92) % 8 == mix(124) % 8 ==
             mix(268) % 8 == mix(484) % 8 == mix(548) % 8 == mix(564) % 8 == 5
    requires slot < ENTRY_WIDTH
    ensures mix(Number(4, slot)) % 8 == 5
  {
  }

  lemma MixOfBucket4(mix: int -> nat, slot: nat)
    requires mix == SH.Mix && slot < ENTRY_WIDTH
    ensures mix(Number(4, slot)) % 8 == 5
  {
    Words4Low();
    Words4Middle();
    Words4High();
    Keys4(mix, slot);
  }

  lemma Rests(index: nat, slot: nat)
    requires index < 5 && slot < ENTRY_WIDTH
    ensures 0 < Number(index, slot) < 0x1_0000_0000 && Number(index, slot) % 8 == First(index)
    ensures Number(index, slot) < 1000 <==> index != 3
  {
  }

  lemma StoreMixSuits()
    ensures Suits(Layout(8, SH.Mix))
  {
    var lay := Layout(8, SH.Mix);
    SH.MixOfWord(128, 128);
    forall i, n | 0 <= i < 5 && 0 <= n < ENTRY_WIDTH ensures Hash(lay, Number(i, n), 1) == First(i) { Rests(i, n); }
    forall i, n | 0 <= i < 5 && i != 3 && 0 <= n < ENTRY_WIDTH ensures Hash(lay, Number(i, n), 2) == Second(i) {
      match i {
        case 0 => MixOfBucket0(lay.mix, n);
        case 1 => MixOfBucket1(lay.mix, n);
        case 2 => MixOfBucket2(lay.mix, n);
        case _ => MixOfBucket4(lay.mix, n);
      }
    }
  }

  // ---- all keys are different ----

  lemma Rising(index: nat, slot: nat)
    requires index < 5 && slot + 1 < ENTRY_WIDTH
    ensures Number(index, slot) < Number(index, slot + 1)
  {
  }

  lemma {:induction false} Sorted(index: nat, m: nat, n: nat)
    requires index < 5 && m < n < ENTRY_WIDTH
    ensures Number(index, m) < Number(index, n)
  {
    Rising(index, n - 1);
    if m < n - 1 { Sorted(index, m, n - 1); }
  }

  lemma NumbersDiffer(c: Cell, d: Cell)
    requires c.index < 5 && c.slot < ENTRY_WIDTH && d.index < 5 && d.slot < ENTRY_WIDTH
    requires Number(c.index, c.slot) == Number(d.index, d.slot)
    ensures c == d
  {
    Rests(c.index, c.slot);
    Rests(d.index, d.slot);
    if c.index == 1 && d.index == 4 { OnlyInOne(c.slot, d.slot); }
    if c.index == 4 && d.index == 1 { OnlyInOne(d.slot, c.slot); }
    if c.index == d.index && c.slot < d.slot { Sorted(c.index, c.slot, d.slot); }
    if c.index == d.index && d.slot < c.slot { Sorted(c.index, d.slot, c.slot); }
  }

  /** The keys of buckets 1 and 4 have the same remainder but not the same secondary hash. */
  lemma OnlyInOne(m: nat, n: nat)
    requires m < ENTRY_WIDTH && n < ENTRY_WIDTH
    ensures Number(1, m) != Number(4, n)
  {
    assert Number(1, m) in {12, 76, 236, 260, 292, 308, 340, 500};
    assert Number(4, n) in {4, 36, 92, 124, 268, 484, 548, 564};
  }

  // ---- filling the table ----

  predicate InUse(c: Cell, counts: seq<nat>) {
    |counts| == 5 && c.index < 5 && c.slot < ENTRY_WIDTH && c.slot < counts[c.index]
  }

  /** Each bucket holds as many of its keys as counted. */
  ghost predicate Filled(es: Entries, counts: seq<nat>) {
    && |counts| == 5 && (forall i :: 0 <= i < 5 ==> counts[i] <= ENTRY_WIDTH)
    && (forall c :: c in es <==> InUse(c, counts))
    && (forall c :: c in es ==> InUse(c, counts) && es[c].key == Number(c.index, c.slot))
  }

  lemma FreeSlot(es: Entries, counts: seq<nat>, index: nat)
    requires Filled(es, counts) && index < 5
    ensures FindSlot(es, EMPTY, index, 0) == if counts[index] < ENTRY_WIDTH then counts[index] else -1
  {
    forall i | 0 <= i < ENTRY_WIDTH ensures KeyAt(es, Cell(index, i)) == EMPTY <==> i >= counts[index] {
      assert Cell(index, i) in es <==> InUse(Cell(index, i), counts);
      Rests(index, i);
    }
  }

  lemma NotYet(es: Entries, m: map<int, int>, counts: seq<nat>, c: Cell)
    requires Filled(es, counts) && Represents(es, m) && c.index < 5 && c.slot < ENTRY_WIDTH && c !in es
    ensures Number(c.index, c.slot) !in m
  {
    forall d | d in es ensures es[d].key != Number(c.index, c.slot) {
      if es[d].key == Number(c.index, c.slot) { NumbersDiffer(c, d); }
    }
    assert Number(c.index, c.slot) in m ==> HasKey(es, Number(c.index, c.slot));
  }

  lemma OneMore(es: Entries, counts: seq<nat>, index: nat, slot: nat)
    requires Filled(es, counts) && index < 5 && slot < ENTRY_WIDTH && counts[index] == slot
    ensures Filled(es[Cell(index, slot) := Node(Number(index, slot), 0)], counts[index := slot + 1])
  {
    var es' := es[Cell(index, slot) := Node(Number(index, slot), 0)];
    forall c ensures c in es' <==> InUse(c, counts[index := slot + 1]) { assert c in es <==> InUse(c, counts); }
  }

  lemma OneLessKey(es: Entries, counts: seq<nat>, index: nat, slot: nat)
    requires Filled(es, counts) && index < 5 && slot < ENTRY_WIDTH && counts[index] == slot + 1
    ensures Filled(es - {Cell(index, slot)}, counts[index := slot])
  {
    var es' := es - {Cell(index, slot)};
    forall c ensures c in es' <==> InUse(c, counts[index := slot]) { assert c in es <==> InUse(c, counts); }
  }

  /** The keys of buckets 1 and 2 go there because their first bucket is full. */
  predicate Ready(counts: seq<nat>, index: nat)
    requires |counts| == 5
  {
    (index == 1 ==> counts[4] == ENTRY_WIDTH) && (index == 2 ==> counts[3] == ENTRY_WIDTH)
  }

  /** Inserts the next key of a bucket. */
  method Add(s: FlatCuckoo, index: nat, slot: nat, ghost counts: seq<nat>)
    requires s.Valid() && Suits(s.lay) && Filled(s.entries, counts) && index < 5 && slot < ENTRY_WIDTH
    requires counts[index] == slot && Ready(counts, index)
    modifies s, s.elements
    ensures s.Valid() && s.elements == old(s.elements) && Filled(s.entries, counts[index := slot + 1])
  {
    var key := Number(index, slot);
    FreeSlot(s.entries, counts, index);
    FreeSlot(s.entries, counts, First(index));
    NotYet(s.entries, s.pairs, counts, Cell(index, slot));
    Rests(index, slot);
    assert Hash(s.lay, key, 1) == First(index) && (index != 3 ==> Hash(s.lay, key, 2) == Second(index));
    assert s.HasRoom(s.entries, key) && s.RoomFor(s.entries, key) == Cell(index, slot);
    ghost var path;
    OneMore(s.entries, counts, index, slot);
    var status;
    status, path := s.InsertAttempt(key, 0, Read, n => 0);
  }

  lemma SameCount(counts: seq<nat>, index: nat)
    requires index < |counts|
    ensures counts[index := counts[index]] == counts
  {
  }

  lemma NewCount(counts: seq<nat>, index: nat, m: nat, n: nat)
    requires index < |counts|
    ensures counts[index := m][index := n] == counts[index := n]
  {
  }

  method Fill(s: FlatCuckoo, index: nat, ghost counts: seq<nat>)
    requires s.Valid() && Suits(s.lay) && Filled(s.entries, counts) && index < 5
    requires counts[index] == 0 && Ready(counts, index)
    modifies s, s.elements
    ensures s.Valid() && s.elements == old(s.elements) && Filled(s.entries, counts[index := ENTRY_WIDTH])
  {
    var slot := 0;
    SameCount(counts, index);
    while slot < ENTRY_WIDTH
      invariant 0 <= slot <= ENTRY_WIDTH && s.Valid() && s.elements == old(s.elements)
      invariant Filled(s.entries, counts[index := slot])
    {
      NewCount(counts, index, slot, slot + 1);
      Add(s, index, slot, counts[index := slot]);
      slot := slot + 1;
    }
  }

  method Take(s: FlatCuckoo, slot: nat, ghost counts: seq<nat>)
    requires s.Valid() && Filled(s.entries, counts) && slot < ENTRY_WIDTH && counts[3] == slot + 1
    modifies s, s.elements
    ensures s.Valid() && s.elements == old(s.elements) && Filled(s.entries, counts[3 := slot])
  {
    ghost var es := s.entries;
    var key, c := Number(3, slot), Cell(3, slot);
    Rests(3, slot);
    assert InUse(c, counts) && c in es;
    OneLessKey(es, counts, 3, slot);
    var removed := s.Remove(key);
    assert s.entries == es - {c} by {
      var d :| d in es && es[d].key == key && s.entries == es - {d};
      NumbersDiffer(c, d);
    }
  }

  method Drain(s: FlatCuckoo, ghost counts: seq<nat>)
    requires s.Valid() && Filled(s.entries, counts) && counts[3] == ENTRY_WIDTH
    modifies s, s.elements
    ensures s.Valid() && s.elements == old(s.elements) && Filled(s.entries, counts[3 := 0])
  {
    var slot := ENTRY_WIDTH;
    SameCount(counts, 3);
    while slot > 0
      invariant 0 <= slot <= ENTRY_WIDTH && s.Valid() && s.elements == old(s.elements)
      invariant Filled(s.entries, counts[3 := slot])
    {
      slot := slot - 1;
      NewCount(counts, 3, slot + 1, slot);
      Take(s, slot, counts[3 := slot + 1]);
    }
  }

  function Counts(a: nat, b: nat, c: nat, d: nat, e: nat): seq<nat> {
    [a, b, c, d, e]
  }

  method EmptyTable() returns (s: FlatCuckoo)
    ensures fresh(s) && fresh(s.elements) && s.Valid() && s.lay == Layout(8, SH.Mix) && Suits(s.lay)
    ensures Filled(s.entries, Counts(0, 0, 0, 0, 0))
  {
    s := new FlatCuckoo(8, SH.Mix);
    StoreMixSuits();
    NoEntries(s.entries, s.pairs);
  }

  /** Bucket 4, and the keys of bucket 1 while it is full. */
  method FillOneAndFour(s: FlatCuckoo)
    requires s.Valid() && Suits(s.lay) && Filled(s.entries, Counts(0, 0, 0, 0, 0))
    modifies s, s.elements
    ensures s.Valid() && s.elements == old(s.elements) && Filled(s.entries, Counts(0, 8, 0, 0, 8))
  {
    assert Counts(0, 0, 0, 0, 0)[4 := 8] == Counts(0, 0, 0, 0, 8);
    assert Counts(0, 0, 0, 0, 8)[1 := 8] == Counts(0, 8, 0, 0, 8);
    Fill(s, 4, Counts(0, 0, 0, 0, 0));
    Fill(s, 1, Counts(0, 0, 0, 0, 8));
  }

  /** The keys of bucket 2 while bucket 3 is full, which is emptied again. */
  method FillTwo(s: FlatCuckoo)
    requires s.Valid() && Suits(s.lay) && Filled(s.entries, Counts(0, 8, 0, 0, 8))
    modifies s, s.elements
    ensures s.Valid() && s.elements == old(s.elements) && Filled(s.entries, Counts(0, 8, 8, 0, 8))
  {
    assert Counts(0, 8, 0, 0, 8)[3 := 8] == Counts(0, 8, 0, 8, 8);
    assert Counts(0, 8, 0, 8, 8)[2 := 8] == Counts(0, 8, 8, 8, 8);
    assert Counts(0, 8, 8, 8, 8)[3 := 0] == Counts(0, 8, 8, 0, 8);
    Fill(s, 3, Counts(0, 8, 0, 0, 8));
    Fill(s, 2, Counts(0, 8, 0, 8, 8));
    Drain(s, Counts(0, 8, 8, 8, 8));
  }

  /** By inserts and removes alone: buckets 0, 1, 2 and 4 full and the others empty. */
  method FullTable() returns (s: FlatCuckoo)
    ensures fresh(s) && fresh(s.elements) && s.Valid() && s.lay == Layout(8, SH.Mix) && Suits(s.lay)
    ensures Filled(s.entries, FullCounts())
  {
    s := EmptyTable();
    FillOneAndFour(s);
    FillTwo(s);
    assert Counts(0, 8, 8, 0, 8)[0 := 8] == FullCounts();
    Fill(s, 0, Counts(0, 8, 8, 0, 8));
  }

  function FullCounts(): seq<nat> {
    Counts(8, 8, 8, 0, 8)
  }

  lemma NoEntries(es: Entries, m: map<int, int>)
    requires Represents(es, m) && m == map[]
    ensures Filled(es, Counts(0, 0, 0, 0, 0))
  {
    assert forall c :: c in es ==> es[c].key in m;
  }

  // ---- ways from the two buckets of the key ----

  /** What a search reads of the full table. */
  function Read(n: nat, b: PS.Bucket, slot: nat): int {
    if InUse(Cell(b.index, slot), FullCounts()) then Number(b.index, slot) else EMPTY
  }

  lemma FullRead(lay: Layout, es: Entries, m: map<int, int>)
    requires Suits(lay) && Filled(es, FullCounts()) && Placed(lay, es) && Represents(es, m)
    ensures PS.Stable(Read, Look(es)) && KEY !in m
    ensures FindSlot(es, EMPTY, 0, 0) == -1 && FindSlot(es, EMPTY, 1, 0) == -1
  {
    forall n, b: PS.Bucket, slot: nat ensures Look(es)(b, slot) == Read(n, b, slot) {
      var c := Cell(b.index, slot);
      assert c in es <==> InUse(c, FullCounts());
    }
    forall c | c in es ensures es[c].key != KEY { NotTheKey(c); }
    assert KEY in m ==> HasKey(es, KEY);
    FreeSlot(es, FullCounts(), 0);
    FreeSlot(es, FullCounts(), 1);
  }

  lemma NotTheKey(c: Cell)
    requires c.index < 5 && c.slot < ENTRY_WIDTH
    ensures Number(c.index, c.slot) != KEY
  {
  }

  lemma EntryAt(es: Entries, index: nat, slot: nat)
    requires Filled(es, FullCounts()) && index < 8 && slot < 8
    ensures Cell(index, slot) in es <==> index < 5 && index != 3
    ensures KeyAt(es, Cell(index, slot)) == if index < 5 && index != 3 then Number(index, slot) else EMPTY
  {
    assert Cell(index, slot) in es <==> InUse(Cell(index, slot), FullCounts());
  }

  /** From bucket 0 every key leads to bucket 2 and from there to 3; from bucket 1 to 4 and from there to 5. */
  lemma WaysOfOne(lay: Layout, es: Entries, root: nat, slot: nat)
    requires Suits(lay) && Filled(es, FullCounts()) && root < 2 && slot < 8
    ensures EndOf(es, lay, KEY, root, []) == if root == 0 then Place(1, 0) else Place(2, 1)
    ensures EndOf(es, lay, KEY, root, [slot]) == if root == 0 then Place(2, 2) else Place(1, 4)
    ensures IsWay(es, lay, KEY, root, []) && IsWay(es, lay, KEY, root, [slot])
  {
    EntryAt(es, root, slot);
    assert [slot][..0] == [];
  }

  lemma WaysOfTwo(lay: Layout, es: Entries, root: nat, slot: nat, slot': nat)
    requires Suits(lay) && Filled(es, FullCounts()) && root < 2 && slot < 8 && slot' < 8
    ensures EndOf(es, lay, KEY, root, [slot, slot']) == if root == 0 then Place(1, 3) else Place(2, 5)
    ensures IsWay(es, lay, KEY, root, [slot, slot'])
  {
    WaysOfOne(lay, es, root, slot);
    EntryAt(es, if root == 0 then 2 else 4, slot');
    assert [slot, slot'][..1] == [slot];
  }

  lemma ShortWay(lay: Layout, es: Entries, root: nat, slots: seq<nat>)
    requires Suits(lay) && IsWay(es, lay, KEY, root, slots) && |slots| <= 2
    ensures root < 2 && forall i :: 0 <= i < |slots| ==> slots[i] < 8
    ensures |slots| == 1 ==> slots == [slots[0]]
    ensures |slots| == 2 ==> slots == [slots[0], slots[1]]
  {
    if |slots| == 2 { assert slots[..1] == [slots[0]] && IsWay(es, lay, KEY, root, slots[..1]); }
  }

  /** The cell whose key is seen at the end of a way of at most one hop. */
  function NearCell(root: nat, slots: seq<nat>): Cell
    requires root < 2 && |slots| <= 1
  {
    if slots == [] then Cell(root, root) else Cell(if root == 0 then 2 else 4, slots[0])
  }

  lemma SeenNear(lay: Layout, es: Entries, root: nat, slots: seq<nat>)
    requires Suits(lay) && Filled(es, FullCounts()) && IsWay(es, lay, KEY, root, slots) && |slots| <= 1
    ensures root < 2 && (slots != [] ==> slots[0] < 8)
    ensures var c := NearCell(root, slots);
            c in es && SeenAt(es, lay, KEY, root, slots) == Number(c.index, c.slot) != EMPTY
    ensures FullBucket(es, EndOf(es, lay, KEY, root, slots))
  {
    ShortWay(lay, es, root, slots);
    var c := NearCell(root, slots);
    WaysOfOne(lay, es, root, if slots == [] then root else slots[0]);
    EntryAt(es, c.index, c.slot);
    Rests(c.index, c.slot);
    forall n | 0 <= n < 8 ensures Cell(c.index, n) in es { EntryAt(es, c.index, n); }
  }

  lemma SeenFar(lay: Layout, es: Entries, root: nat, slots: seq<nat>)
    requires Suits(lay) && Filled(es, FullCounts()) && IsWay(es, lay, KEY, root, slots) && |slots| == 2
    ensures root < 2 && SeenAt(es, lay, KEY, root, slots) == EMPTY
    ensures !FullBucket(es, EndOf(es, lay, KEY, root, slots))
  {
    ShortWay(lay, es, root, slots);
    WaysOfTwo(lay, es, root, slots[0], slots[1]);
    EntryAt(es, if root == 0 then 3 else 5, slots[1]);
    EntryAt(es, if root == 0 then 3 else 5, 0);
  }

  /** Nothing within one hop has room, but two hops away there is some. */
  lemma RoomTwoAway(lay: Layout, es: Entries)
    requires Suits(lay) && Filled(es, FullCounts())
    ensures NoRoomWithin(es, lay, KEY, 1)
    ensures forall hops: nat :: hops >= 2 ==> !NoRoomWithin(es, lay, KEY, hops)
  {
    forall root, slots | |slots| <= 1 && IsWay(es, lay, KEY, root, slots)
      ensures FullBucket(es, EndOf(es, lay, KEY, root, slots))
    {
      SeenNear(lay, es, root, slots);
    }
    WaysOfTwo(lay, es, 0, 0, 0);
    SeenFar(lay, es, 0, [0, 0]);
  }

  lemma NoLoop(lay: Layout, es: Entries, root: nat, slots: seq<nat>, root': nat, slots': seq<nat>)
    requires Suits(lay) && Filled(es, FullCounts())
    ensures !LooksLikeLoop(es, lay, KEY, 4, root, slots, root', slots')
  {
    if LooksLikeLoop(es, lay, KEY, 4, root, slots, root', slots') {
      RoomTwoAway(lay, es);
      ShortWay(lay, es, root', slots');
      ShortWay(lay, es, root, slots);
      if |slots| == 2 {
        SeenFar(lay, es, root, slots);
      } else {
        SeenNear(lay, es, root, slots);
        if |slots'| == 2 {
          SeenFar(lay, es, root', slots');
        } else {
          SeenNear(lay, es, root', slots');
          NumbersDiffer(NearCell(root, slots), NearCell(root', slots'));
        }
      }
    }
  }

  lemma NoLoopAtAll(lay: Layout, es: Entries)
    requires Suits(lay) && Filled(es, FullCounts())
    ensures !HasLoop(es, lay, KEY, 4)
  {
    forall root, slots, root', slots' ensures !LooksLikeLoop(es, lay, KEY, 4, root, slots, root', slots') {
      NoLoop(lay, es, root, slots, root', slots');
    }
  }

  // ---- and no path can be followed ----

  /** A step from an occupied cell to a free one starts in bucket 2 or bucket 4. */
  lemma IntoFree(lay: Layout, es: Entries, path: seq<Step>, i: nat)
    requires Suits(lay) && Filled(es, FullCounts()) && i + 1 < |path| && LeadsToOther(es, path, lay, i)
    requires path[i].table == 1 || path[i].table == 2
    ensures path[i].cell.index < 5 && path[i].cell.index != 3
    ensures path[i + 1].cell.index ==
              if path[i].table == 2 then First(path[i].cell.index) else Second(path[i].cell.index)
    ensures path[i].table == 2 && path[i].cell.index != 3 ==> !Agrees(es, path, lay, i)
  {
    var c := path[i].cell;
    assert InUse(c, FullCounts());
    assert Hash(lay, es[c].key, 1) == First(c.index) && Hash(lay, es[c].key, 2) == Second(c.index);
  }

  lemma SomeHopDisagrees(lay: Layout, es: Entries, path: seq<Step>)
    requires Suits(lay) && Filled(es, FullCounts())
    requires SearchPath(es, path, lay) && PathInRange(path, lay) && path[0].cell.index < 2
    ensures !HashesAgree(es, path, lay)
  {
    var n := |path| - 1;
    assert ValidCell(lay, path[n].cell) && !InUse(path[n].cell, FullCounts());
    assert path[n].cell.index == 3 || path[n].cell.index >= 5;
    assert LeadsToOther(es, path, lay, n - 1);
    IntoFree(lay, es, path, n - 1);
    if path[n - 1].table == 1 {
      assert LeadsToOther(es, path, lay, n - 2);
      IntoFree(lay, es, path, n - 2);
    }
  }

  /**
   The table is reached by inserts and removes, and nothing else is running. Neither the two buckets of 128
   nor any bucket one hop away has room, two hops away there is room: the insert of 128 does not ask for
   a resize, and comes back with RETRY for any random numbers.
   */
  method RetryExample(random: nat -> nat) returns (status: Status, ghost lay: Layout, ghost before: Entries)
    ensures lay == Layout(8, SH.Mix) && NoRoomWithin(before, lay, 128, 1) && !NoRoomWithin(before, lay, 128, 2)
    ensures status == RETRY
  {
    var s := FullTable();
    FullRead(s.lay, s.entries, s.pairs);
    ghost var path := [];
    lay, before := s.lay, s.entries;
    RoomTwoAway(lay, before);
    NoLoopAtAll(lay, before);
    status, path := s.InsertAttempt(KEY, 1, Read, random);
    if path != [] { SomeHopDisagrees(lay, before, path); }
  }
}
