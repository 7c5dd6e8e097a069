/**
 Displacement paths through the single-table map: which ones the search and the re-walk build in a
 table that stands still, and exactly which of them the displacement loop gets through.
 */
module FlatPaths {
  import opened FlatStore
  import PS = PathSearch

  /** A step of a path: a cell, and which hash function led to it. */
  datatype Step = Step(table: int, cell: Cell)

  ghost predicate PathInRange(path: seq<Step>, lay: Layout) {
    path != [] && forall i :: 0 <= i < |path| ==> ValidCell(lay, path[i].cell)
  }

  lemma RangeGrows(path: seq<Step>, lay: Layout, next: Step)
    requires PathInRange(path, lay) && ValidCell(lay, next.cell)
    ensures PathInRange(path + [next], lay) && (path + [next])[0] == path[0] && (path + [next])[|path|] == next
  {
  }

  // ---- the displacement loop as a function ----

  /** The guard of a hop, which always tests hash 2. */
  predicate HopOk(es: Entries, src: Cell, dst: Cell, lay: Layout)
    requires lay.buckets > 0
  {
    dst !in es && src in es && Hash(lay, es[src].key, 2) == dst.index
  }

  /** All hops from this depth up to the front of the path find their guards true. */
  ghost predicate RunsThrough(es: Entries, path: seq<Step>, lay: Layout, depth: nat)
    requires lay.buckets > 0 && depth < |path|
    decreases depth
  {
    depth == 0 ||
    (HopOk(es, path[depth - 1].cell, path[depth].cell, lay)
     && RunsThrough(Moved(es, path[depth - 1].cell, path[depth].cell), path, lay, depth - 1))
  }

  lemma RunsOneHop(es: Entries, path: seq<Step>, lay: Layout, depth: nat)
    requires lay.buckets > 0 && 0 < depth < |path|
    ensures RunsThrough(es, path, lay, depth) <==>
              && HopOk(es, path[depth - 1].cell, path[depth].cell, lay)
              && RunsThrough(Moved(es, path[depth - 1].cell, path[depth].cell), path, lay, depth - 1)
  {
  }

  ghost predicate DistinctFrom(path: seq<Step>, depth: nat) {
    forall i, j :: depth <= i < j < |path| ==> path[i].cell != path[j].cell
  }

  ghost predicate SameEntry(before: Entries, es: Entries, c: Cell) {
    (c in es <==> c in before) && (c in es ==> es[c] == before[c])
  }

  ghost predicate OffPath(path: seq<Step>, depth: nat, c: Cell) {
    forall j :: depth <= j < |path| ==> path[j].cell != c
  }

  /** The entries once the hops below the depth are made: each value one cell further, the rest as it was. */
  ghost predicate ShiftedFrom(before: Entries, es: Entries, path: seq<Step>, depth: nat)
    requires depth < |path|
  {
    && path[depth].cell !in es
    && (forall j :: depth < j < |path| ==> CameOneFurther(before, es, path, j))
    && (forall c :: OffPath(path, depth, c) ==> SameEntry(before, es, c))
  }

  ghost predicate CameOneFurther(before: Entries, es: Entries, path: seq<Step>, j: nat)
    requires 0 < j < |path|
  {
    path[j].cell in es && path[j - 1].cell in before && es[path[j].cell] == before[path[j - 1].cell]
  }

  /** The guard of the hop from step i, on the entries before the displacement. */
  ghost predicate HopFits(es: Entries, path: seq<Step>, lay: Layout, i: nat)
    requires lay.buckets > 0 && i + 1 < |path|
  {
    path[i].cell in es && Hash(lay, es[path[i].cell].key, 2) == path[i + 1].cell.index
  }

  lemma HopDecides(before: Entries, es: Entries, path: seq<Step>, lay: Layout, depth: nat)
    requires lay.buckets > 0 && 0 < depth < |path| && ShiftedFrom(before, es, path, depth)
             && DistinctFrom(path, depth - 1)
    ensures HopOk(es, path[depth - 1].cell, path[depth].cell, lay) <==> HopFits(before, path, lay, depth - 1)
    ensures path[depth - 1].cell in es ==>
              ShiftedFrom(before, Moved(es, path[depth - 1].cell, path[depth].cell), path, depth - 1)
  {
    var src, dst := path[depth - 1].cell, path[depth].cell;
    assert OffPath(path, depth, src) && SameEntry(before, es, src);
    if src in es {
      var es' := Moved(es, src, dst);
      forall j | depth - 1 < j < |path| ensures CameOneFurther(before, es', path, j) {
        if j > depth { assert CameOneFurther(before, es, path, j); }
      }
      forall c | OffPath(path, depth - 1, c) ensures SameEntry(before, es', c) {
        assert OffPath(path, depth, c) && c != src && c != dst;
        assert SameEntry(before, es, c);
      }
    }
  }

  lemma StartShifted(es: Entries, path: seq<Step>)
    requires path != [] && path[|path| - 1].cell !in es
    ensures ShiftedFrom(es, es, path, |path| - 1)
  {
  }

  ghost predicate AllHopsFit(es: Entries, path: seq<Step>, lay: Layout)
    requires lay.buckets > 0 && path != []
  {
    path[|path| - 1].cell !in es && forall i :: 0 <= i < |path| - 1 ==> HopFits(es, path, lay, i)
  }

  /** Over distinct cells the loop gets through exactly if the last one is free and every hop fits beforehand. */
  lemma DistinctExact(es: Entries, path: seq<Step>, lay: Layout)
    requires lay.buckets > 0 && |path| > 1 && DistinctFrom(path, 0)
    ensures RunsThrough(es, path, lay, |path| - 1) <==> AllHopsFit(es, path, lay)
  {
    if path[|path| - 1].cell !in es {
      StartShifted(es, path);
      DistinctExactFrom(es, es, path, lay, |path| - 1);
    }
  }

  lemma {:induction false} DistinctExactFrom(before: Entries, es: Entries, path: seq<Step>, lay: Layout, depth: nat)
    requires lay.buckets > 0 && depth < |path| && DistinctFrom(path, 0) && ShiftedFrom(before, es, path, depth)
    ensures RunsThrough(es, path, lay, depth) <==> forall i :: 0 <= i < depth ==> HopFits(before, path, lay, i)
    decreases depth
  {
    if depth > 0 {
      HopDecides(before, es, path, lay, depth);
      if HopOk(es, path[depth - 1].cell, path[depth].cell, lay) {
        DistinctExactFrom(before, Moved(es, path[depth - 1].cell, path[depth].cell), path, lay, depth - 1);
      }
    }
  }

  // ---- the paths of a quiet table ----

  /**
   What the search and the re-walk build: full cells leading to a free one, each
   value's other bucket next, no bucket twice by the same hash.
   */
  ghost predicate SearchPath(es: Entries, path: seq<Step>, lay: Layout) {
    && lay.buckets > 0 && path != [] && path[|path| - 1].cell !in es
    && (forall i :: 0 <= i < |path| ==> path[i].table == 1 || path[i].table == 2)
    && (forall i :: 0 <= i < |path| - 1 ==> LeadsToOther(es, path, lay, i))
    && (forall i, j :: 0 <= i < j < |path| ==> BucketsApart(path[i], path[j]))
  }

  ghost predicate LeadsToOther(es: Entries, path: seq<Step>, lay: Layout, i: nat)
    requires lay.buckets > 0 && i + 1 < |path|
  {
    && path[i].cell in es && path[i + 1].table == 3 - path[i].table
    && path[i + 1].cell.index == Hash(lay, es[path[i].cell].key, path[i + 1].table)
  }

  ghost predicate BucketsApart(a: Step, b: Step) {
    a.table != b.table || a.cell.index != b.cell.index
  }

  /** A hop out of table 2 goes to the hash-1 bucket, so its guard needs the two hashes to agree. */
  ghost predicate Agrees(es: Entries, path: seq<Step>, lay: Layout, i: nat)
    requires lay.buckets > 0 && i < |path|
  {
    path[i].table == 2 && path[i].cell in es ==>
      Hash(lay, es[path[i].cell].key, 1) == Hash(lay, es[path[i].cell].key, 2)
  }

  ghost predicate AgreeFrom(es: Entries, path: seq<Step>, lay: Layout, depth: nat)
    requires lay.buckets > 0
  {
    forall i :: depth <= i < |path| - 1 ==> Agrees(es, path, lay, i)
  }

  /** Every value that would hop out of table 2 has two equal hashes. */
  ghost predicate HashesAgree(es: Entries, path: seq<Step>, lay: Layout)
    requires lay.buckets > 0
  {
    AgreeFrom(es, path, lay, 0)
  }

  /** Where all hashes of table-2 hops agree, no cell comes twice. */
  lemma AgreeingDistinct(es: Entries, path: seq<Step>, lay: Layout, depth: nat)
    requires SearchPath(es, path, lay) && Placed(lay, es) && AgreeFrom(es, path, lay, depth)
    ensures DistinctFrom(path, depth)
  {
    forall a, b | depth <= a < b < |path| ensures path[a].cell != path[b].cell { NotTwice(es, path, lay, depth, a, b); }
  }

  lemma NotTwice(es: Entries, path: seq<Step>, lay: Layout, depth: nat, a: nat, b: nat)
    requires SearchPath(es, path, lay) && Placed(lay, es) && AgreeFrom(es, path, lay, depth) && depth <= a < b < |path|
    ensures path[a].cell != path[b].cell
  {
    assert LeadsToOther(es, path, lay, a) && BucketsApart(path[a], path[b]);
    if b < |path| - 1 {
      assert LeadsToOther(es, path, lay, b) && Agrees(es, path, lay, a) && Agrees(es, path, lay, b);
      assert EntryPlaced(lay, path[b].cell, es[path[b].cell]);
      assert BucketsApart(path[a], path[b + 1]);
    }
  }

  /** Out of table 1, and out of table 2 if the hashes agree, the hop fits. */
  lemma AgreeingFits(es: Entries, path: seq<Step>, lay: Layout, i: nat)
    requires SearchPath(es, path, lay) && i < |path| - 1
    ensures HopFits(es, path, lay, i) <==> Agrees(es, path, lay, i)
  {
    assert LeadsToOther(es, path, lay, i);
  }

  /** Past the deepest hop whose hashes do not agree and its target, no step is in its bucket. */
  lemma NotLater(es: Entries, path: seq<Step>, lay: Layout, i: nat, j: nat)
    requires SearchPath(es, path, lay) && Placed(lay, es) && i + 1 < j < |path|
    requires AgreeFrom(es, path, lay, i + 1) && !Agrees(es, path, lay, i)
    ensures path[j].cell.index != path[i].cell.index
  {
    assert BucketsApart(path[i], path[j]) && BucketsApart(path[i], path[j - 1]);
    assert LeadsToOther(es, path, lay, j - 1) && Agrees(es, path, lay, j - 1);
    assert EntryPlaced(lay, path[j - 1].cell, es[path[j - 1].cell]);
  }

  /**
   The deepest hop whose hashes do not agree fails, even if its cell
   came up before and holds another value by now.
   */
  lemma DisagreeingFails(before: Entries, es: Entries, path: seq<Step>, lay: Layout, depth: nat)
    requires SearchPath(before, path, lay) && Placed(lay, before) && 0 < depth < |path|
    requires ShiftedFrom(before, es, path, depth) && AgreeFrom(before, path, lay, depth)
    requires !Agrees(before, path, lay, depth - 1)
    ensures !HopOk(es, path[depth - 1].cell, path[depth].cell, lay)
  {
    var i := depth - 1;
    assert LeadsToOther(before, path, lay, i);
    forall j | depth < j < |path| ensures path[j].cell != path[i].cell { NotLater(before, path, lay, i, j); }
    assert path[depth].cell != path[i].cell ==> SameEntry(before, es, path[i].cell) by {
      assert path[depth].cell != path[i].cell ==> OffPath(path, depth, path[i].cell);
    }
  }

  lemma {:induction false} QuietExactFrom(before: Entries, es: Entries, path: seq<Step>, lay: Layout, depth: nat)
    requires SearchPath(before, path, lay) && Placed(lay, before) && depth < |path|
    requires ShiftedFrom(before, es, path, depth) && AgreeFrom(before, path, lay, depth)
    ensures RunsThrough(es, path, lay, depth) <==> HashesAgree(before, path, lay)
    decreases depth
  {
    if depth > 0 {
      if Agrees(before, path, lay, depth - 1) {
        AgreeingDistinct(before, path, lay, depth - 1);
        AgreeingFits(before, path, lay, depth - 1);
        HopDecides(before, es, path, lay, depth);
        QuietExactFrom(before, Moved(es, path[depth - 1].cell, path[depth].cell), path, lay, depth - 1);
      } else {
        DisagreeingFails(before, es, path, lay, depth);
      }
    }
  }

  /**
   A path found in a quiet table is carried out if and only if every value that would hop out of
   table 2 has two equal hashes: the guard tests hash 2 whichever way the hop goes.
   */
  lemma PathFitsExactly(es: Entries, path: seq<Step>, lay: Layout)
    requires SearchPath(es, path, lay) && Placed(lay, es)
    ensures RunsThrough(es, path, lay, |path| - 1) <==> HashesAgree(es, path, lay)
  {
    StartShifted(es, path);
    QuietExactFrom(es, es, path, lay, |path| - 1);
  }

  // ---- from path codes to paths ----

  function StepAfter(es: Entries, lay: Layout, prev: Step, slot: nat): Step
    requires lay.buckets > 0
  {
    Step(3 - prev.table, Cell(Hash(lay, KeyAt(es, prev.cell), 3 - prev.table), slot))
  }

  /** `along` lists the steps the slots name when read against one table. */
  ghost predicate StepsAlong(es: Entries, lay: Layout, idx1: nat, idx2: nat, root: nat, slots: seq<nat>,
                             along: seq<Step>)
    requires lay.buckets > 0 && slots != []
  {
    && |along| == |slots|
    && along[0] == (if root == 0 then Step(1, Cell(idx1, slots[0])) else Step(2, Cell(idx2, slots[0])))
    && forall i :: 0 < i < |slots| ==> along[i] == StepAfter(es, lay, along[i - 1], slots[i])
  }

  lemma LinksOn(es: Entries, lay: Layout, idx1: nat, idx2: nat, root: nat, slots: seq<nat>, along: seq<Step>, i: nat)
    requires lay.buckets > 0 && slots != [] && StepsAlong(es, lay, idx1, idx2, root, slots, along)
             && SearchPath(es, along, lay)
    requires 0 < i < |slots|
    ensures along[i - 1].table == 1 || along[i - 1].table == 2
    ensures along[..i + 1] == along[..i] + [StepAfter(es, lay, along[i - 1], slots[i])]
  {
  }

  /** The steps a path code names in a table that stands still. */
  ghost function Along(es: Entries, sh: PS.Shape, root: nat, slots: seq<nat>): seq<Step> {
    seq(|slots|, i requires 0 <= i < |slots| =>
      var b := PS.Walk(sh, Look(es), root, slots[..i]);
      Step(b.table, Cell(b.index, slots[i])))
  }

  lemma AlongLinks(es: Entries, lay: Layout, key: int, root: nat, slots: seq<nat>, i: nat)
    requires Placed(lay, es) && i + 1 < |slots|
    requires PS.Trail(ShapeOf(lay, key), Look(es), root, slots[..|slots| - 1])
    ensures var along := Along(es, ShapeOf(lay, key), root, slots);
            along[i].cell in es && along[i + 1] == StepAfter(es, lay, along[i], slots[i + 1])
  {
    var sh, look, trail := ShapeOf(lay, key), Look(es), slots[..|slots| - 1];
    PS.TrailPrefix(sh, look, root, trail, i);
    assert trail[..i] == slots[..i] && trail[..i + 1] == slots[..i + 1];
    var along := Along(es, sh, root, slots);
    assert look(PS.Walk(sh, look, root, slots[..i]), slots[i]) == KeyAt(es, along[i].cell);
    FreeIsEmpty(lay, es, along[i].cell);
  }

  lemma {:induction false} WalkTable(sh: PS.Shape, look: PS.Slots, root: nat, slots: seq<nat>)
    ensures var b := PS.Walk(sh, look, root, slots); b.table == 1 || b.table == 2
  {
    if slots != [] { WalkTable(sh, look, root, slots[..|slots| - 1]); }
  }

  /** A shortest path to an empty slot names the steps of a search path. */
  lemma ShortestIsSearchPath(es: Entries, lay: Layout, key: int, p: PS.Point)
    requires Placed(lay, es) && PS.ShapeOk(ShapeOf(lay, key))
    requires p.pathcode >= 0 && p.depth >= 0 && p.index >= 0 && PS.Shortest(ShapeOf(lay, key), Look(es), p)
    ensures var sh := ShapeOf(lay, key);
            var slots := PS.SlotsOf(p.pathcode, p.depth + 1, ENTRY_WIDTH);
            var root := PS.RootOf(p.pathcode, p.depth + 1, ENTRY_WIDTH);
            && StepsAlong(es, lay, sh.idx1, sh.idx2, root, slots, Along(es, sh, root, slots))
            && SearchPath(es, Along(es, sh, root, slots), lay)
  {
    var sh, look := ShapeOf(lay, key), Look(es);
    var slots := PS.SlotsOf(p.pathcode, p.depth + 1, ENTRY_WIDTH);
    var root := PS.RootOf(p.pathcode, p.depth + 1, ENTRY_WIDTH);
    var along, trail := Along(es, sh, root, slots), slots[..p.depth];
    forall i | 0 <= i < |along| ensures along[i].table == 1 || along[i].table == 2 {
      WalkTable(sh, look, root, slots[..i]);
    }
    forall i | 0 <= i < p.depth
      ensures LeadsToOther(es, along, lay, i) && along[i + 1] == StepAfter(es, lay, along[i], slots[i + 1])
    {
      AlongLinks(es, lay, key, root, slots, i);
    }
    forall i, j | 0 <= i < j < |along| ensures BucketsApart(along[i], along[j]) {
      PS.BucketsDistinct(sh, look, root, trail, slots[p.depth], i, j);
      assert trail[..i] == slots[..i] && trail[..j] == slots[..j];
    }
    assert look(PS.Walk(sh, look, root, trail), slots[p.depth]) == KeyAt(es, along[p.depth].cell);
    FreeIsEmpty(lay, es, along[p.depth].cell);
  }

  lemma FreeIsLast(es: Entries, path: seq<Step>, lay: Layout, i: nat)
    requires SearchPath(es, path, lay) && i < |path| && path[i].cell !in es
    ensures i == |path| - 1
  {
    assert i < |path| - 1 ==> LeadsToOther(es, path, lay, i);
  }
}
