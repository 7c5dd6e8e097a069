/** What the decisive steps of an insert in the concurrent cuckoo set make of what they find under their locks. */
module CuckooOutcomes {
  import opened CuckooCore
  import opened CuckooMachine
  import opened CuckooRuns

  /** The value is in one of its two buckets. */
  ghost predicate IsThere(cells: Cells, buckets: nat, val: int)
    requires buckets > 0
  {
    exists c :: c in cells && cells[c] == val && (c.table == 1 || c.table == 2) && c.slot < WIDTH
      && c.index == Hash(val, c.table, buckets)
  }

  ghost predicate AllTaken(cells: Cells, table: int, index: nat) {
    forall slot: nat :: slot < 6 ==> Cell(table, index, slot) in cells
  }

  /** The first empty slot of a bucket. */
  ghost predicate FirstEmpty(cells: Cells, c: Cell) {
    c !in cells && c.slot < 6 && forall slot: nat :: slot < c.slot ==> Cell(c.table, c.index, slot) in cells
  }

  lemma LookFinds(cells: Cells, buckets: nat, val: int)
    requires Placed(cells, buckets) && val != EMPTY
    ensures IsThere(cells, buckets, val) <==>
              || FindSlot(cells, val, 1, Hash(val, 1, buckets)) != -1
              || FindSlot(cells, val, 2, Hash(val, 2, buckets)) != -1
  {
    forall t | t == 1 || t == 2
      ensures FindSlot(cells, val, t, Hash(val, t, buckets)) != -1 ==> IsThere(cells, buckets, val)
    {
      var slot := FindSlot(cells, val, t, Hash(val, t, buckets));
      if slot != -1 {
        var c := Cell(t, Hash(val, t, buckets), slot);
        assert At(cells, c) == val && c in cells && cells[c] == val;
      }
    }
    if c :| c in cells && cells[c] == val && (c.table == 1 || c.table == 2) && c.slot < WIDTH
            && c.index == Hash(val, c.table, buckets)
    {
      assert At(cells, Cell(c.table, c.index, c.slot)) == val;
    }
  }

  lemma RoomFinds(cells: Cells, buckets: nat, table: int, index: nat)
    requires Placed(cells, buckets)
    ensures FindSlot(cells, EMPTY, table, index) == -1 <==> AllTaken(cells, table, index)
    ensures var slot := FindSlot(cells, EMPTY, table, index); slot != -1 ==> FirstEmpty(cells, Cell(table, index, slot))
  {
    forall slot ensures At(cells, Cell(table, index, slot)) == EMPTY <==> Cell(table, index, slot) !in cells {}
    LowestFound(cells, EMPTY, table, index, 0);
  }

  lemma {:induction false} LowestFound(cells: Cells, val: int, table: int, index: nat, from: nat)
    requires from <= WIDTH
    ensures var slot := FindSlotFrom(cells, val, table, index, from);
            forall i: nat :: from <= i < (if slot == -1 then WIDTH else slot) ==>
              At(cells, Cell(table, index, i)) != val
    decreases WIDTH - from
  {
    if from < WIDTH { LowestFound(cells, val, table, index, from + 1); }
  }

  /**
   The first look of an insert, at a step of a run: FALSE exactly if the value is there; otherwise the
   first empty slot of its table-1 bucket, of its table-2 bucket, or the search exactly if both are full.
   */
  lemma LookOutcome(ss: seq<State>, acts: seq<Action>, m: nat, t: Tid)
    requires IsRun(ss, acts) && m < |acts| && acts[m].t == t && t < |ss[m].threads|
    requires ss[m].threads[t].Locked? && ss[m].threads[t].phase.First? && ss[m].threads[t].op.Insert?
    ensures t < |ss[m + 1].threads| && ss[m].buckets > 0 && ss[m + 1].cells == ss[m].cells
    ensures var cells, b, val, th := ss[m].cells, ss[m].buckets, ss[m].threads[t].op.val, ss[m + 1].threads[t];
            var i1, i2 := Hash(val, 1, b), Hash(val, 2, b);
            && (th.Unlocking? && th.next == Finish(false) <==> IsThere(cells, b, val))
            && (th.Unlocking? && th.next.Search? <==>
                  !IsThere(cells, b, val) && AllTaken(cells, 1, i1) && AllTaken(cells, 2, i2))
            && (th.Writing? <==> !IsThere(cells, b, val) && !(AllTaken(cells, 1, i1) && AllTaken(cells, 2, i2)))
            && (th.Writing? ==>
                  && FirstEmpty(cells, th.cell) && th.cell.table == (if AllTaken(cells, 1, i1) then 2 else 1)
                  && th.cell.index == (if AllTaken(cells, 1, i1) then i2 else i1))
  {
    RunInv(ss, acts, m);
    assert StepAt(ss, acts, m);
    var s, val := ss[m], ss[m].threads[t].op.val;
    LookFinds(s.cells, s.buckets, val);
    RoomFinds(s.cells, s.buckets, 1, Hash(val, 1, s.buckets));
    RoomFinds(s.cells, s.buckets, 2, Hash(val, 2, s.buckets));
  }

  /**
   A hop starts the insert over exactly if the path has changed: its target is taken, its source empty, or
   the value in the source belongs elsewhere. Otherwise the target gets the value.
   */
  lemma HopOutcome(ss: seq<State>, acts: seq<Action>, m: nat, t: Tid)
    requires IsRun(ss, acts) && m < |acts| && acts[m].t == t && t < |ss[m].threads|
    requires ss[m].threads[t].Locked? && ss[m].threads[t].phase.Hop?
    ensures t < |ss[m + 1].threads| && ss[m].buckets > 0
            && 1 <= ss[m].threads[t].phase.d < |ss[m].threads[t].phase.path|
    ensures var cells, b, Hop(path, d), th := ss[m].cells, ss[m].buckets, ss[m].threads[t].phase, ss[m + 1].threads[t];
            var src, dst := path[d - 1], path[d];
            && (th.Unlocking? && th.next.Retry? <==>
                  dst in cells || src !in cells || Hash(cells[src], dst.table, b) != dst.index)
            && (th.Unlocking? ==> ss[m + 1].cells == cells)
            && (!th.Unlocking? ==> th.Moved? && src in cells && ss[m + 1].cells == cells[dst := cells[src]])
  {
    RunInv(ss, acts, m);
    assert StepAt(ss, acts, m);
    assert ThreadOk(ss[m], ss[m].threads[t]);
  }

  /** A path of no hops starts the insert over exactly if its cell has been taken. */
  lemma DirectOutcome(ss: seq<State>, acts: seq<Action>, m: nat, t: Tid)
    requires IsRun(ss, acts) && m < |acts| && acts[m].t == t && t < |ss[m].threads|
    requires ss[m].threads[t].Locked? && ss[m].threads[t].phase.Direct?
    ensures t < |ss[m + 1].threads| && ss[m + 1].cells == ss[m].cells
    ensures var c, th := ss[m].threads[t].phase.cell, ss[m + 1].threads[t];
            && (th.Unlocking? && th.next.Retry? <==> c in ss[m].cells)
            && (c !in ss[m].cells ==> th == Writing(ss[m].threads[t].op, c))
  {
    RunInv(ss, acts, m);
    assert StepAt(ss, acts, m);
    assert ThreadOk(ss[m], ss[m].threads[t]);
  }
}
