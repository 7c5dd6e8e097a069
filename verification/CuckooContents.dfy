/** Contents of a two-table cuckoo set as a multiset: how often a value is stored, and how writes change that. */
module CuckooContents {
  import opened CuckooCore
  import PS = PathSearch

  ghost function Occurrences(cells: Cells, val: int): set<Cell> {
    set c | c in cells && cells[c] == val
  }

  /** How many cells hold val. */
  ghost function Count(cells: Cells, val: int): nat {
    |Occurrences(cells, val)|
  }

  ghost predicate SameContents(a: Cells, b: Cells) {
    forall v :: Count(a, v) == Count(b, v)
  }

  lemma SameContentsVia(a: Cells, b: Cells, c: Cells)
    requires SameContents(b, c)
    ensures SameContents(a, b) <==> SameContents(a, c)
  {
    forall v ensures Count(b, v) == Count(c, v) {}
  }

  /** The contents of b are those of a with delta more of val. */
  ghost predicate Differs(a: Cells, b: Cells, val: int, delta: int) {
    forall v :: Count(b, v) == Count(a, v) + (if v == val then delta else 0)
  }

  lemma CountAdd(cells: Cells, c: Cell, val: int)
    requires c !in cells
    ensures Differs(cells, cells[c := val], val, 1)
  {
    forall v ensures Count(cells[c := val], v) == Count(cells, v) + (if v == val then 1 else 0) {
      CountAddOne(cells, c, val, v);
    }
  }

  lemma CountAddOne(cells: Cells, c: Cell, val: int, v: int)
    requires c !in cells
    ensures Count(cells[c := val], v) == Count(cells, v) + (if v == val then 1 else 0)
  {
    var before, after := Occurrences(cells, v), Occurrences(cells[c := val], v);
    assert c !in before;
    if v == val {
      assert after == before + {c};
    } else {
      assert after == before;
    }
  }

  lemma CountTake(cells: Cells, c: Cell)
    requires c in cells
    ensures Differs(cells, cells - {c}, cells[c], -1) && Count(cells, cells[c]) >= 1
  {
    CountTakeOne(cells, c, cells[c]);
    forall v ensures Count(cells - {c}, v) == Count(cells, v) + (if v == cells[c] then -1 else 0) {
      CountTakeOne(cells, c, v);
    }
  }

  lemma CountTakeOne(cells: Cells, c: Cell, v: int)
    requires c in cells
    ensures Count(cells - {c}, v) == Count(cells, v) + (if v == cells[c] then -1 else 0)
    ensures v == cells[c] ==> Count(cells, v) >= 1
  {
    var before, after := Occurrences(cells, v), Occurrences(cells - {c}, v);
    if v == cells[c] {
      assert c in before && |before - {c}| == |before| - 1;
      assert after == before - {c};
    } else {
      assert after == before;
    }
  }

  /** One hop: the value moves from src to dst. */
  function Moved(cells: Cells, src: Cell, dst: Cell): Cells
    requires src in cells
  {
    cells[dst := cells[src]] - {src}
  }

  lemma MoveKeepsContents(cells: Cells, src: Cell, dst: Cell)
    requires src in cells && dst !in cells
    ensures SameContents(cells, Moved(cells, src, dst))
  {
    var val := cells[src];
    var mid := cells[dst := val];
    CountAdd(cells, dst, val);
    CountTake(mid, src);
    forall v ensures Count(cells, v) == Count(Moved(cells, src, dst), v) {
      assert Count(mid, v) == Count(cells, v) + (if v == val then 1 else 0);
    }
  }

  /** What `find` answers for the two buckets with these indices. */
  predicate Seen(cells: Cells, val: int, idx1: nat, idx2: nat) {
    FindSlot(cells, val, 1, idx1) != -1 || FindSlot(cells, val, 2, idx2) != -1
  }

  /** What a lookup of the value finds in a table of b buckets. */
  predicate Found(cells: Cells, val: int, b: nat)
    requires b > 0
  {
    Seen(cells, val, Hash(val, 1, b), Hash(val, 2, b))
  }

  /** A value stored in one cell only is found exactly if the cell is in the bucket its hash names. */
  lemma FoundIffInItsBucket(cells: Cells, val: int, at: Cell, b: nat)
    requires b > 0 && ValidCell(at, b) && at in cells && cells[at] == val && val != EMPTY
    requires Count(cells - {at}, val) == 0
    ensures Found(cells, val, b) <==> at.index == Hash(val, at.table, b)
  {
    forall c | c in cells && c != at ensures cells[c] != val {
      assert Occurrences(cells - {at}, val) == {};
      assert c in Occurrences(cells - {at}, val) <==> cells[c] == val;
    }
    assert at == Cell(at.table, at.index, at.slot) && At(cells, at) == val;
    forall t, k | FindSlot(cells, val, t, k) != -1 ensures Cell(t, k, FindSlot(cells, val, t, k)) == at {
      var c := Cell(t, k, FindSlot(cells, val, t, k));
      assert At(cells, c) == val;
    }
  }

  /** In a well-placed table a value is stored exactly when one of its two buckets has it. */
  lemma FoundIffStored(cells: Cells, buckets: nat, val: int)
    requires Placed(cells, buckets) && val != EMPTY
    ensures Count(cells, val) > 0 <==> Found(cells, val, buckets)
  {
    var i1, i2 := Hash(val, 1, buckets), Hash(val, 2, buckets);
    var at1, at2 := FindSlot(cells, val, 1, i1), FindSlot(cells, val, 2, i2);
    if at1 != -1 {
      assert Cell(1, i1, at1) in Occurrences(cells, val);
    } else if at2 != -1 {
      assert Cell(2, i2, at2) in Occurrences(cells, val);
    } else {
      forall c | c in cells ensures cells[c] != val {
        assert c == Cell(c.table, c.index, c.slot);
        assert At(cells, Cell(c.table, c.index, c.slot)) == cells[c];
      }
      assert Occurrences(cells, val) == {};
    }
  }

  // ---- the table as the path search sees it ----

  ghost function Look(cells: Cells): PS.Slots {
    (b: PS.Bucket, s: nat) => At(cells, Cell(b.table, b.index, s))
  }

  function ShapeOf(buckets: nat, idx1: nat, idx2: nat): PS.Shape
    requires buckets > 0
  {
    PS.Shape(WIDTH, MAX_SEARCH_DEPTH, buckets, (v: int, f: int) => Hash(v, f, buckets), idx1, idx2)
  }
}
