/** What the concurrent and the single-threaded view of the two-table cuckoo set share. */
module CuckooCore {

  const WIDTH: nat := 6
  const MAX_SEARCH_DEPTH: nat := 7
  const EMPTY: int := 0

  /** An int seen as the unsigned operand of `val % buckets`. */
  function Unsigned(val: int): (u: nat)
    ensures 0 <= val < 0x8000_0000 ==> u == val
    ensures -0x8000_0000 <= val < 0 ==> u == val + 4294967296
  {
    val % 0x1_0000_0000
  }

  function Hash(val: int, func: int, buckets: nat): (h: nat)
    requires buckets > 0
    ensures h < buckets
  {
    if func == 1 then Unsigned(val) % buckets else (Unsigned(val) / buckets) % buckets
  }

  /** The two hashes spelled out for ten buckets: the last digit, and the one before it. */
  lemma HashDigits(val: nat)
    requires val < 0x8000_0000
    ensures Hash(val, 1, 10) == val % 10 && Hash(val, 2, 10) == val / 10 % 10
    ensures Hash(-1, 1, 10) == 5 && Hash(-1, 2, 10) == 9
  {
  }

  datatype Cell = Cell(table: int, index: nat, slot: nat)

  predicate ValidCell(c: Cell, buckets: nat) {
    (c.table == 1 || c.table == 2) && c.index < buckets && c.slot < WIDTH
  }

  /** Both tables at once: the occupied cells and their values. */
  type Cells = map<Cell, int>

  function At(cells: Cells, c: Cell): int {
    if c in cells then cells[c] else EMPTY
  }

  /** Every value sits in its hash-1 bucket of table 1 or in its hash-2 bucket of table 2. */
  ghost predicate Placed(cells: Cells, buckets: nat) {
    buckets > 0 &&
    forall c :: c in cells ==> ValidCell(c, buckets) && cells[c] != EMPTY && Hash(cells[c], c.table, buckets) == c.index
  }

  /** `findSlot`: the lowest slot of the bucket that holds val, or -1; with EMPTY, `isAvailable`. */
  function FindSlot(cells: Cells, val: int, table: int, index: nat): (slot: int)
    ensures -1 <= slot < WIDTH
    ensures slot >= 0 ==> At(cells, Cell(table, index, slot)) == val
    ensures slot == -1 ==> forall i :: 0 <= i < WIDTH ==> At(cells, Cell(table, index, i)) != val
  {
    FindSlotFrom(cells, val, table, index, 0)
  }

  function FindSlotFrom(cells: Cells, val: int, table: int, index: nat, from: nat): (slot: int)
    requires from <= WIDTH
    ensures slot == -1 || from <= slot < WIDTH
    ensures slot >= 0 ==> At(cells, Cell(table, index, slot)) == val
    ensures forall i :: from <= i < (if slot == -1 then WIDTH else slot) ==> At(cells, Cell(table, index, i)) != val
    decreases WIDTH - from
  {
    if from == WIDTH then -1
    else if At(cells, Cell(table, index, from)) == val then from
    else FindSlotFrom(cells, val, table, index, from + 1)
  }

  // ---- the order in which bucket locks are taken and released ----

  function LockTwo(i: nat, j: nat): seq<nat> {
    if i < j then [i, j] else if i > j then [j, i] else [i]
  }

  function LockThree(i: nat, j: nat, k: nat): seq<nat> {
    if i == j && j == k then [i]
    else if i == j then LockTwo(i, k)
    else if j == k then LockTwo(i, j)
    else if i == k then LockTwo(i, j)
    else if i < j then
      if i < k then if j < k then [i, j, k] else [i, k, j]
      else [k, i, j]
    else
      if j < k then if i < k then [j, i, k] else [j, k, i]
      else [k, j, i]
  }

  function UnlockTwo(i: nat, j: nat): seq<nat> {
    if i != j then [i, j] else [i]
  }

  function UnlockThree(i: nat, j: nat, k: nat): seq<nat> {
    if i != j && j != k && i != k then [i, j, k]
    else if i == j && j == k then [i]
    else if i == j then [i, k]
    else [i, j]
  }

  ghost predicate Ascending(s: seq<nat>) {
    forall a, b :: 0 <= a < b < |s| ==> s[a] < s[b]
  }

  ghost predicate NoRepeats(s: seq<nat>) {
    forall a, b :: 0 <= a < b < |s| ==> s[a] != s[b]
  }

  ghost function Elements(s: seq<nat>): set<nat> {
    set x | x in s
  }

  /** Two or three indices, equal or not: each distinct lock is taken once, in ascending order. */
  lemma LockOrder(i: nat, j: nat, k: nat)
    ensures Ascending(LockTwo(i, j)) && Elements(LockTwo(i, j)) == {i, j}
    ensures Ascending(LockThree(i, j, k)) && Elements(LockThree(i, j, k)) == {i, j, k}
  {
    assert Elements(LockTwo(i, j)) == {i, j};
    var s := LockThree(i, j, k);
    assert forall x :: x in s <==> x == i || x == j || x == k;
  }

  /** Each distinct lock is released once. */
  lemma UnlockOrder(i: nat, j: nat, k: nat)
    ensures NoRepeats(UnlockTwo(i, j)) && Elements(UnlockTwo(i, j)) == {i, j}
    ensures NoRepeats(UnlockThree(i, j, k)) && Elements(UnlockThree(i, j, k)) == {i, j, k}
  {
    var s := UnlockThree(i, j, k);
    assert forall x :: x in s <==> x == i || x == j || x == k;
  }
}
