/**
 The store behind the one-sided reads, as a key-to-value map: one table, each key in its primary or
 secondary bucket and at most once. The module says what map a set of entries stands for and how
 the store's writes change it.
 */
module FlatStore {
  import PS = PathSearch

  const ENTRY_WIDTH: nat := 8
  const MAX_SEARCH_DEPTH: nat := 5
  const EMPTY: int := 0

  datatype Cell = Cell(index: nat, slot: nat)
  datatype Node = Node(key: int, val: int)

  /** The occupied entries. */
  type Entries = map<Cell, Node>

  /** Bucket count and the mixing function behind hash 2. */
  datatype Layout = Layout(buckets: nat, mix: int -> nat)

  function Hash(lay: Layout, key: int, func: int): (h: nat)
    requires lay.buckets > 0
    ensures h < lay.buckets
  {
    if func == 1 then (key % 0x1_0000_0000) % lay.buckets else lay.mix(key) % lay.buckets
  }

  /** Hash 1 of an int key, which meets an unsigned bucket count. */
  lemma HashOfInt(lay: Layout, key: int)
    requires lay.buckets > 0
    ensures 0 <= key < 0x8000_0000 ==> Hash(lay, key, 1) == key % lay.buckets
    ensures -0x8000_0000 <= key < 0 ==> Hash(lay, key, 1) == (key + 4294967296) % lay.buckets
  {
  }

  predicate ValidCell(lay: Layout, c: Cell) {
    c.index < lay.buckets && c.slot < ENTRY_WIDTH
  }

  // ---- the flat array: entries first, then one lock word per bucket ----

  function Offset(c: Cell): nat {
    c.index * ENTRY_WIDTH + c.slot
  }

  function LockOffset(lay: Layout, index: nat): nat {
    lay.buckets * ENTRY_WIDTH + index
  }

  function StorageSize(lay: Layout): nat {
    lay.buckets * ENTRY_WIDTH + lay.buckets
  }

  /** Entries and lock words are in range, pairwise apart, and apart from each other. */
  lemma OffsetsApart(lay: Layout, c: Cell, d: Cell, i: nat, j: nat)
    requires ValidCell(lay, c) && ValidCell(lay, d) && i < lay.buckets && j < lay.buckets
    ensures Offset(c) < StorageSize(lay) && LockOffset(lay, i) < StorageSize(lay)
    ensures Offset(c) == Offset(d) <==> c == d
    ensures LockOffset(lay, i) == LockOffset(lay, j) <==> i == j
    ensures Offset(c) != LockOffset(lay, i)
  {
  }

  // ---- the map the entries stand for ----

  ghost predicate Placed(lay: Layout, es: Entries) {
    lay.buckets > 0 && forall c :: c in es ==> EntryPlaced(lay, c, es[c])
  }

  ghost predicate EntryPlaced(lay: Layout, c: Cell, n: Node)
    requires lay.buckets > 0
  {
    ValidCell(lay, c) && n.key != EMPTY && (c.index == Hash(lay, n.key, 1) || c.index == Hash(lay, n.key, 2))
  }

  /** No key is stored twice. */
  ghost predicate Unique(es: Entries) {
    forall c, d :: c in es && d in es && es[c].key == es[d].key ==> c == d
  }

  /** The entries are exactly the pairs of m, each stored once. */
  ghost predicate Represents(es: Entries, m: map<int, int>) {
    && Unique(es)
    && (forall c :: c in es ==> es[c].key in m && m[es[c].key] == es[c].val)
    && (forall k {:trigger HasKey(es, k)} :: k in m ==> HasKey(es, k))
  }

  ghost predicate HasKey(es: Entries, key: int) {
    exists c :: c in es && es[c].key == key
  }

  /** Entries determine the map. */
  lemma RepresentsOne(es: Entries, m: map<int, int>, m': map<int, int>)
    requires Represents(es, m) && Represents(es, m')
    ensures m == m'
  {
    forall k | k in m ensures k in m' && m'[k] == m[k] {
      assert HasKey(es, k);
      var c :| c in es && es[c].key == k;
    }
    forall k | k in m' ensures k in m {
      assert HasKey(es, k);
      var c :| c in es && es[c].key == k;
    }
  }

  /** There are as many entries as keys. */
  lemma {:induction false} RepresentsSize(es: Entries, m: map<int, int>)
    requires Represents(es, m)
    ensures |es.Keys| == |m.Keys|
    decreases |es.Keys|
  {
    if es.Keys == {} {
      NoEntriesNoKeys(es, m);
    } else {
      var c :| c in es.Keys;
      RemoveEntry(es, m, c);
      RepresentsSize(es - {c}, m - {es[c].key});
      OneLess(es, c);
      OneLess(m, es[c].key);
    }
  }

  lemma NoEntriesNoKeys(es: Entries, m: map<int, int>)
    requires Represents(es, m) && es.Keys == {}
    ensures m.Keys == {}
  {
    forall k ensures k !in m.Keys {
      if k in m { KeyNeedsEntry(es, m, k); }
    }
  }

  lemma KeyNeedsEntry(es: Entries, m: map<int, int>, k: int)
    requires Represents(es, m) && k in m
    ensures es.Keys != {}
  {
    assert HasKey(es, k);
    assert HasKey(es, k);
    var c :| c in es && es[c].key == k;
  }

  lemma OneLess<K, V>(m: map<K, V>, k: K)
    requires k in m
    ensures |m.Keys| == |(m - {k}).Keys| + 1
  {
    assert (m - {k}).Keys == m.Keys - {k};
  }

  /** Writing a new key into a free entry adds the pair. */
  lemma AddEntry(es: Entries, m: map<int, int>, c: Cell, n: Node)
    requires Represents(es, m) && c !in es && n.key !in m
    ensures Represents(es[c := n], m[n.key := n.val])
  {
    var es', m' := es[c := n], m[n.key := n.val];
    assert es'[c].key == n.key;
    forall k | k in m' ensures HasKey(es', k) {
      if k != n.key {
        assert HasKey(es, k);
        var d :| d in es && es[d].key == k;
        assert es'[d].key == k;
      }
    }
  }

  /** Writing over an entry of the same key replaces its value. */
  lemma OverwriteEntry(es: Entries, m: map<int, int>, c: Cell, n: Node)
    requires Represents(es, m) && c in es && es[c].key == n.key
    ensures Represents(es[c := n], m[n.key := n.val])
  {
    var es', m' := es[c := n], m[n.key := n.val];
    forall k | k in m' ensures HasKey(es', k) {
      if k == n.key {
        assert es'[c].key == k;
      } else {
        assert HasKey(es, k);
        var d :| d in es && es[d].key == k;
        assert es'[d].key == k;
      }
    }
  }

  lemma RemoveEntry(es: Entries, m: map<int, int>, c: Cell)
    requires Represents(es, m) && c in es
    ensures Represents(es - {c}, m - {es[c].key})
  {
    var es', m' := es - {c}, m - {es[c].key};
    forall k | k in m' ensures HasKey(es', k) {
      assert HasKey(es, k);
      var d :| d in es && es[d].key == k;
      assert d in es' && es'[d].key == k;
    }
  }

  function Moved(es: Entries, src: Cell, dst: Cell): Entries
    requires src in es
  {
    es[dst := es[src]] - {src}
  }

  /** A hop leaves the map alone. */
  lemma MoveEntry(es: Entries, m: map<int, int>, src: Cell, dst: Cell)
    requires Represents(es, m) && src in es && dst !in es
    ensures Represents(Moved(es, src, dst), m)
  {
    var es' := Moved(es, src, dst);
    forall k | k in m ensures HasKey(es', k) {
      assert HasKey(es, k);
      var d :| d in es && es[d].key == k;
      var d' := if d == src then dst else d;
      assert d' in es' && es'[d'].key == k;
    }
  }

  lemma MovePlaced(lay: Layout, es: Entries, src: Cell, dst: Cell)
    requires Placed(lay, es) && src in es && EntryPlaced(lay, dst, es[src])
    ensures Placed(lay, Moved(es, src, dst))
  {
  }

  // ---- lookups ----

  function KeyAt(es: Entries, c: Cell): int {
    if c in es then es[c].key else EMPTY
  }

  function FindSlot(es: Entries, key: int, index: nat, from: nat): (slot: int)
    requires from <= ENTRY_WIDTH
    ensures slot == -1 || from <= slot < ENTRY_WIDTH
    ensures slot >= 0 ==> KeyAt(es, Cell(index, slot)) == key
    ensures forall i :: from <= i < (if slot == -1 then ENTRY_WIDTH else slot) ==> KeyAt(es, Cell(index, i)) != key
    decreases ENTRY_WIDTH - from
  {
    if from == ENTRY_WIDTH then -1
    else if KeyAt(es, Cell(index, from)) == key then from
    else FindSlot(es, key, index, from + 1)
  }

  lemma FreeIsEmpty(lay: Layout, es: Entries, c: Cell)
    requires Placed(lay, es)
    ensures c in es <==> KeyAt(es, c) != EMPTY
  {
    assert c in es ==> EntryPlaced(lay, c, es[c]);
  }

  /** A key is in the map exactly when one of its two buckets has it. */
  lemma FoundIffInMap(lay: Layout, es: Entries, m: map<int, int>, key: int)
    requires Placed(lay, es) && Represents(es, m) && key != EMPTY
    ensures key in m <==>
              FindSlot(es, key, Hash(lay, key, 1), 0) != -1 || FindSlot(es, key, Hash(lay, key, 2), 0) != -1
  {
    var i1, i2 := Hash(lay, key, 1), Hash(lay, key, 2);
    var at1, at2 := FindSlot(es, key, i1, 0), FindSlot(es, key, i2, 0);
    if at1 != -1 { assert Cell(i1, at1) in es; }
    if at2 != -1 { assert Cell(i2, at2) in es; }
    assert key in m ==> HasKey(es, key);
    if at1 == -1 && at2 == -1 {
      forall c | c in es ensures es[c].key != key {
        assert EntryPlaced(lay, c, es[c]);
        assert KeyAt(es, Cell(c.index, c.slot)) == es[c].key;
      }
    }
  }

  // ---- the table as the path search sees it ----

  function ShapeOf(lay: Layout, key: int): PS.Shape
    requires lay.buckets > 0
  {
    PS.Shape(ENTRY_WIDTH, MAX_SEARCH_DEPTH, lay.buckets, (k: int, f: int) => Hash(lay, k, f),
             Hash(lay, key, 1), Hash(lay, key, 2))
  }

  ghost function Look(es: Entries): PS.Slots {
    (b: PS.Bucket, s: nat) => KeyAt(es, Cell(b.index, s))
  }
}
