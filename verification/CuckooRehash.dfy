/**
 Doubling the bucket count: where values go, when a new bucket can overflow, what the copy loop as
 written keeps, and what happens to bucket indices computed before a resize.
 */
module CuckooRehash {
  import opened CuckooCore
  import opened CuckooContents

  // ---- arithmetic of the two hash functions under doubling ----

  lemma UniqueDivMod(x: int, d: nat, q: int, r: int)
    requires d > 0 && x == q * d + r && 0 <= r < d
    ensures x / d == q && x % d == r
  {
    var k := x / d - q;
    assert k * d == r - x % d;
    if k >= 1 { Times(k - 1, d); } else if k <= -1 { Times(-1 - k, d); }
  }

  lemma Times(k: nat, d: nat)
    ensures k * d >= 0 && (k + 1) * d == k * d + d && (-1 - k) * d == 0 - d - k * d
  {
  }

  /** Table 1: a value in new bucket j was in old bucket j mod b. */
  lemma Table1Source(val: int, b: nat)
    requires b > 0
    ensures Hash(val, 1, b) == Hash(val, 1, 2 * b) % b
  {
    var x := Unsigned(val);
    var j := x % (2 * b);
    var q, r := j / b, j % b;
    assert x == (x / (2 * b)) * (2 * b) + j;
    assert (x / (2 * b)) * (2 * b) == (2 * (x / (2 * b))) * b;
    UniqueDivMod(x, b, 2 * (x / (2 * b)) + q, r);
  }

  /** Table 2: a value in new bucket j was in old bucket 2j mod b or (2j + 1) mod b. */
  lemma Table2Source(val: int, b: nat)
    requires b > 0
    ensures var j := Hash(val, 2, 2 * b);
            Hash(val, 2, b) == (2 * j) % b || Hash(val, 2, b) == (2 * j + 1) % b
  {
    var x := Unsigned(val);
    HalfQuotient(x, b);
    HalvedIndex(x / b, x / (2 * b), (x / b) % 2, b);
  }

  lemma HalvedIndex(y: nat, z: nat, low: nat, b: nat)
    requires b > 0 && y == 2 * z + low
    ensures y % b == (2 * (z % (2 * b)) + low) % b
  {
    var j, t := z % (2 * b), z / (2 * b);
    assert z == t * (2 * b) + j;
    assert 2 * (t * (2 * b)) == (4 * t) * b;
    ModShift(2 * j + low, b, 4 * t);
  }

  lemma HalfQuotient(x: nat, b: nat)
    requires b > 0
    ensures x / b == 2 * (x / (2 * b)) + (x / b) % 2
  {
    var y, r := x / b, x % b;
    var h, low := y / 2, y % 2;
    assert y * b == (2 * h) * b + low * b;
    assert h * (2 * b) == (2 * h) * b;
    assert low == 0 || low == 1;
    assert 0 <= low * b + r < 2 * b;
    UniqueDivMod(x, 2 * b, h, low * b + r);
  }

  lemma ModShift(x: int, b: nat, k: int)
    requires b > 0
    ensures (k * b + x) % b == x % b
  {
    assert (k + x / b) * b == k * b + (x / b) * b;
    UniqueDivMod(k * b + x, b, k + x / b, x % b);
  }

  // ---- indices computed before a resize ----

  /**
   A value that only one cell holds, written there at an index computed for b buckets, is found in a
   table of n buckets exactly when its hash is the same for both counts; in table 1, when n is a
   multiple of b as after any number of doublings, that is when the value modulo n is below b.
   */
  lemma StaleIndexExactly(cells: Cells, val: int, at: Cell, b: nat, n: nat)
    requires 0 < b <= n && ValidCell(at, n) && at in cells && cells[at] == val && val != EMPTY
    requires at.index == Hash(val, at.table, b) && Count(cells - {at}, val) == 0
    ensures Found(cells, val, n) <==> Hash(val, at.table, b) == Hash(val, at.table, n)
    ensures at.table == 1 && n % b == 0 ==> (Found(cells, val, n) <==> Unsigned(val) % n < b)
  {
    FoundIffInItsBucket(cells, val, at, n);
    if n % b == 0 { ModOfMultiple(Unsigned(val), b, n); }
  }

  /** Reducing modulo a multiple of b first makes no difference modulo b, and none at all exactly below b. */
  lemma ModOfMultiple(x: nat, b: nat, n: nat)
    requires 0 < b <= n && n % b == 0
    ensures x % b == (x % n) % b && (x % b == x % n <==> x % n < b)
  {
    var j, m, t := x % n, n / b, x / n;
    assert n == m * b && x == t * n + j;
    assert t * (m * b) == (t * m) * b;
    ModShift(j, b, t * m);
    if j < b { UniqueDivMod(j, b, 0, j); }
  }

  // ---- what the copy loop visits ----

  /** The cells in the first `prefix` buckets of both tables. */
  ghost function Prefix(cells: Cells, prefix: nat): Cells {
    map c | c in cells && c.index < prefix :: cells[c]
  }

  /** Copying a prefix keeps the contents exactly when nothing is stored beyond it. */
  lemma PrefixKeepsContentsExactly(cells: Cells, prefix: nat)
    ensures SameContents(cells, Prefix(cells, prefix)) <==> forall c :: c in cells ==> c.index < prefix
  {
    var kept := Prefix(cells, prefix);
    if forall c :: c in cells ==> c.index < prefix {
      assert kept == cells;
    } else {
      var c :| c in cells && c.index >= prefix;
      var v := cells[c];
      assert Occurrences(kept, v) <= Occurrences(cells, v) - {c};
      SubsetSize(Occurrences(kept, v), Occurrences(cells, v) - {c});
      assert c in Occurrences(cells, v);
      assert |Occurrences(cells, v) - {c}| == |Occurrences(cells, v)| - 1;
      assert Count(cells, v) != Count(kept, v);
    }
  }

  /** A well-placed table of two buckets that fits and loses its value: the second bucket is not copied. */
  lemma PrefixLosesExample()
    ensures var cells: Cells := map[Cell(1, 1, 0) := 1];
            Placed(cells, 2) && Fits(Prefix(cells, 1), 4) && !SameContents(cells, Prefix(cells, 1))
  {
    var cells: Cells := map[Cell(1, 1, 0) := 1];
    assert Hash(1, 1, 2) == 1;
    assert cells[Cell(1, 1, 0)] == 1;
    PrefixKeepsContentsExactly(cells, 1);
    forall k | 0 <= k < 4 ensures |Bound(Prefix(cells, 1), 2, k, 4)| <= WIDTH {
      assert Bound(Prefix(cells, 1), 2, k, 4) == {};
    }
  }

  /** Seven values in the first half of a well-placed table of four buckets that are all bound for one new bucket. */
  lemma OverflowExample()
    ensures Placed(OverflowCells(), 4) && !Fits(Prefix(OverflowCells(), 2), 8)
  {
    OverflowPlaced();
    var cells := OverflowCells();
    var here := Bound(Prefix(cells, 2), 2, 0, 8);
    forall c | c in cells.Keys ensures c in here { OverflowCell(c); }
    SubsetSize(cells.Keys, here);
    OverflowCount();
  }

  lemma OverflowPlaced()
    ensures Placed(OverflowCells(), 4)
  {
    forall c | c in OverflowCells()
      ensures var v := OverflowCells()[c]; ValidCell(c, 4) && v != EMPTY && Hash(v, c.table, 4) == c.index
    {
      OverflowCell(c);
    }
  }

  lemma OverflowCount()
    ensures |OverflowCells().Keys| == 7
  {
    var keys := {Cell(2, 0, 0), Cell(2, 0, 1), Cell(2, 0, 2), Cell(2, 0, 3), Cell(2, 0, 4), Cell(2, 0, 5),
                 Cell(2, 1, 0)};
    assert OverflowCells().Keys == keys;
  }

  function OverflowCells(): Cells {
    map[Cell(2, 0, 0) := 1, Cell(2, 0, 1) := 2, Cell(2, 0, 2) := 3, Cell(2, 0, 3) := 64, Cell(2, 0, 4) := 65,
        Cell(2, 0, 5) := 66, Cell(2, 1, 0) := 4]
  }

  lemma OverflowCell(c: Cell)
    requires c in OverflowCells()
    ensures var v := OverflowCells()[c];
            ValidCell(c, 4) && c.table == 2 && c.index < 2 && v != EMPTY && Hash(v, 2, 4) == c.index
              && Hash(v, 2, 8) == 0
  {
  }

  lemma {:induction false} SubsetSize(a: set<Cell>, b: set<Cell>)
    requires a <= b
    ensures |a| <= |b|
  {
    if a != {} {
      var c :| c in a;
      SubsetSize(a - {c}, b - {c});
    }
  }

  /** The values of one table bound for bucket k of b buckets. */
  ghost function Bound(cells: Cells, table: int, k: nat, b: nat): set<Cell>
    requires b > 0
  {
    set c | c in cells && c.table == table && Hash(cells[c], table, b) == k
  }

  ghost function BucketCells(cells: Cells, table: int, k: nat): set<Cell> {
    set c | c in cells && c.table == table && c.index == k
  }

  /** Every bucket of every table can take the values bound for it. */
  ghost predicate Fits(cells: Cells, b: nat)
    requires b > 0
  {
    forall k :: 0 <= k < b ==> |Bound(cells, 2, k, b)| <= WIDTH
  }

  /** The state of the copy: what has been visited has been copied, bucket by bucket and value by value. */
  ghost predicate Copied(done: Cells, grown: Cells, b: nat) {
    && Placed(grown, b) && SameContents(done, grown)
    && forall t, k :: |Bound(done, t, k, b)| == |BucketCells(grown, t, k)|
  }

  lemma CopyStart(b: nat)
    requires b > 0
    ensures Copied(map[], map[], b)
  {
    forall t, k ensures |Bound(map[], t, k, b)| == |BucketCells(map[], t, k)| {
      assert Bound(map[], t, k, b) == {} && BucketCells(map[], t, k) == {};
    }
  }

  lemma CopyOne(done: Cells, grown: Cells, b: nat, c: Cell, val: int, slot: nat)
    requires Copied(done, grown, b) && c !in done && val != EMPTY && (c.table == 1 || c.table == 2) && slot < WIDTH
    requires Cell(c.table, Hash(val, c.table, b), slot) !in grown
    ensures Copied(done[c := val], grown[Cell(c.table, Hash(val, c.table, b), slot) := val], b)
  {
    var dst := Cell(c.table, Hash(val, c.table, b), slot);
    var done', grown' := done[c := val], grown[dst := val];
    assert SameContents(done', grown') by {
      CountAdd(done, c, val);
      CountAdd(grown, dst, val);
    }
    forall t, k ensures |Bound(done', t, k, b)| == |BucketCells(grown', t, k)| {
      assert |Bound(done, t, k, b)| == |BucketCells(grown, t, k)|;
      BoundAdd(done, c, val, b, t, k);
      BucketAdd(grown, dst, val, t, k);
    }
  }

  lemma BoundAdd(done: Cells, c: Cell, val: int, b: nat, t: int, k: nat)
    requires b > 0 && c !in done
    ensures |Bound(done[c := val], t, k, b)| ==
              |Bound(done, t, k, b)| + (if t == c.table && k == Hash(val, c.table, b) then 1 else 0)
  {
    if t == c.table && k == Hash(val, c.table, b) {
      assert Bound(done[c := val], t, k, b) == Bound(done, t, k, b) + {c};
    } else {
      assert Bound(done[c := val], t, k, b) == Bound(done, t, k, b);
    }
  }

  lemma BucketAdd(grown: Cells, dst: Cell, val: int, t: int, k: nat)
    requires dst !in grown
    ensures |BucketCells(grown[dst := val], t, k)| ==
              |BucketCells(grown, t, k)| + (if t == dst.table && k == dst.index then 1 else 0)
  {
    if t == dst.table && k == dst.index {
      assert BucketCells(grown[dst := val], t, k) == BucketCells(grown, t, k) + {dst};
    } else {
      assert BucketCells(grown[dst := val], t, k) == BucketCells(grown, t, k);
    }
  }

  // ---- capacity of a bucket ----

  ghost function BucketOf(table: int, k: nat): set<Cell> {
    {Cell(table, k, 0), Cell(table, k, 1), Cell(table, k, 2), Cell(table, k, 3), Cell(table, k, 4), Cell(table, k, 5)}
  }

  lemma BucketSize(cells: Cells, b: nat, table: int, k: nat)
    requires Placed(cells, b)
    ensures |BucketCells(cells, table, k)| <= WIDTH
    ensures FindSlot(cells, EMPTY, table, k) == -1 ==> |BucketCells(cells, table, k)| == WIDTH
  {
    forall c | c in BucketCells(cells, table, k) ensures c in BucketOf(table, k) {
      assert ValidCell(c, b);
    }
    assert |BucketOf(table, k)| == WIDTH;
    SubsetSize(BucketCells(cells, table, k), BucketOf(table, k));
    if FindSlot(cells, EMPTY, table, k) == -1 {
      forall i | 0 <= i < WIDTH ensures Cell(table, k, i) in BucketCells(cells, table, k) {
        assert At(cells, Cell(table, k, i)) != EMPTY;
      }
      assert BucketCells(cells, table, k) == BucketOf(table, k);
    }
  }

  /** Table 1 never overflows: what is bound for one new bucket all comes from one old bucket. */
  lemma Table1Fits(old_: Cells, done: Cells, grown: Cells, b: nat, c: Cell)
    requires b > 0 && Placed(old_, b) && Copied(done, grown, 2 * b)
    requires done.Keys <= old_.Keys && (forall d :: d in done ==> done[d] == old_[d])
    requires c in old_ && c !in done && c.table == 1
    ensures FindSlot(grown, EMPTY, 1, Hash(old_[c], 1, 2 * b)) != -1
  {
    var k := Hash(old_[c], 1, 2 * b);
    var here := BucketCells(old_, 1, c.index);
    forall d | d in Bound(done, 1, k, 2 * b) ensures d in here - {c} {
      Table1Source(old_[d], b);
      Table1Source(old_[c], b);
    }
    SubsetSize(Bound(done, 1, k, 2 * b), here - {c});
    assert c in here;
    assert |here - {c}| == |here| - 1;
    BucketSize(old_, b, 1, c.index);
    BucketSize(grown, 2 * b, 1, k);
  }

  /** A full table-2 bucket means that more values are bound for it than it can hold. */
  lemma Table2Overflows(all: Cells, done: Cells, grown: Cells, b: nat, c: Cell)
    requires b > 0 && Copied(done, grown, b)
    requires done.Keys <= all.Keys && (forall d :: d in done ==> done[d] == all[d])
    requires c in all && c !in done && c.table == 2
    requires FindSlot(grown, EMPTY, 2, Hash(all[c], 2, b)) == -1
    ensures !Fits(all, b)
  {
    var k := Hash(all[c], 2, b);
    BucketSize(grown, b, 2, k);
    var bound := Bound(done, 2, k, b);
    assert |bound| == WIDTH && c !in bound;
    assert bound + {c} <= Bound(all, 2, k, b);
    SubsetSize(bound + {c}, Bound(all, 2, k, b));
    assert |Bound(all, 2, k, b)| > WIDTH;
  }

  lemma CopiedFits(all: Cells, grown: Cells, b: nat)
    requires b > 0 && Copied(all, grown, b)
    ensures Fits(all, b)
  {
    forall k | 0 <= k < b ensures |Bound(all, 2, k, b)| <= WIDTH {
      BucketSize(grown, b, 2, k);
      assert |Bound(all, 2, k, b)| == |BucketCells(grown, 2, k)|;
    }
  }
}
