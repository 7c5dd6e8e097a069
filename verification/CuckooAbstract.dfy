/**
 The abstract value of the concurrent cuckoo set is a multiset: a value counts once for each cell
 holding it, except the source cell of a hop that is still to be cleared. Every step either leaves the
 multiset alone, adds the value of one insert, or takes out the value of one remove.
 */
module CuckooAbstract {
  import opened CuckooCore
  import opened CuckooMachine
  import opened CuckooSteps

  ghost predicate HasSource(th: Thread) {
    th.Moved? && 1 <= th.d < |th.path|
  }

  ghost function SourceOf(th: Thread): Cell
    requires HasSource(th)
  {
    th.path[th.d - 1]
  }

  /** Source cells of hops that have copied but not yet cleared. */
  ghost function Sources(s: State): set<Cell> {
    set t | 0 <= t < |s.threads| && HasSource(s.threads[t]) :: SourceOf(s.threads[t])
  }

  ghost function Live(s: State): set<Cell> {
    s.cells.Keys - Sources(s)
  }

  ghost function Copies(s: State, val: int): set<Cell> {
    CopiesIn(s.cells, Sources(s), val)
  }

  /** The cells that hold val, other than the sources. */
  ghost function CopiesIn(cells: Cells, sources: set<Cell>, val: int): set<Cell> {
    set c | c in cells && cells[c] == val && c !in sources
  }

  /** How often val is in the multiset. */
  ghost function Mult(s: State, val: int): nat {
    |Copies(s, val)|
  }

  datatype Effect = Same | Added(val: int) | Taken(val: int)

  /** What an action does to the multiset. */
  ghost function EffectOf(s: State, a: Action): Effect
    requires Inv(s) && Enabled(s, a)
  {
    if !a.Advance? then Same
    else
      var th := s.threads[a.t];
      if th.Writing? then Added(th.op.val)
      else if th.Locked? && th.phase.First? && th.op.Remove?
        && (FindSlot(s.cells, th.op.val, 1, H(s, th.op.val, 1)) != -1
            || FindSlot(s.cells, th.op.val, 2, H(s, th.op.val, 2)) != -1)
      then Taken(th.op.val)
      else Same
  }

  function Delta(e: Effect, val: int): int {
    match e
    case Same => 0
    case Added(v) => if v == val then 1 else 0
    case Taken(v) => if v == val then -1 else 0
  }

  /** A mover holds the lock of its source, so no other thread's buckets contain a source cell. */
  lemma SourceElsewhere(s: State, t: Tid, c: Cell)
    requires Inv(s) && t < |s.threads| && !s.threads[t].Moved? && c.index in Held(s, s.threads[t])
    ensures c !in Sources(s)
  {
    if c in Sources(s) {
      var u :| 0 <= u < |s.threads| && HasSource(s.threads[u]) && SourceOf(s.threads[u]) == c;
      assert ThreadOk(s, s.threads[u]);
      HopLocked(s.threads[u].op, s.threads[u].path, s.threads[u].d, s.buckets);
      HeldDisjoint(s, u, t, c.index);
    }
  }

  lemma SourcesOccupied(s: State)
    requires Inv(s)
    ensures Sources(s) <= s.cells.Keys
  {
    forall c | c in Sources(s) ensures c in s.cells {
      var u :| 0 <= u < |s.threads| && HasSource(s.threads[u]) && SourceOf(s.threads[u]) == c;
      assert ThreadOk(s, s.threads[u]);
    }
  }

  /** A step of a thread that is in no hop before or after it leaves the sources alone. */
  lemma SourcesSame(s: State, t: Tid, s': State)
    requires OnlyMoves(s, t, s') && !s.threads[t].Moved? && !s'.threads[t].Moved?
    ensures Sources(s') == Sources(s)
  {
    forall c ensures c in Sources(s) <==> c in Sources(s') {
      if c in Sources(s) {
        var u :| 0 <= u < |s.threads| && HasSource(s.threads[u]) && SourceOf(s.threads[u]) == c;
        assert s'.threads[u] == s.threads[u];
      }
      if c in Sources(s') {
        var u :| 0 <= u < |s'.threads| && HasSource(s'.threads[u]) && SourceOf(s'.threads[u]) == c;
        assert s'.threads[u] == s.threads[u];
      }
    }
  }

  lemma SourcesGain(s: State, t: Tid, s': State)
    requires OnlyMoves(s, t, s') && !s.threads[t].Moved? && HasSource(s'.threads[t])
    ensures Sources(s') == Sources(s) + {SourceOf(s'.threads[t])}
  {
    forall c ensures c in Sources(s') <==> c in Sources(s) + {SourceOf(s'.threads[t])} {
      if c in Sources(s) {
        var u :| 0 <= u < |s.threads| && HasSource(s.threads[u]) && SourceOf(s.threads[u]) == c;
        assert s'.threads[u] == s.threads[u];
      }
      if c in Sources(s') {
        var u :| 0 <= u < |s'.threads| && HasSource(s'.threads[u]) && SourceOf(s'.threads[u]) == c;
        assert u != t ==> s'.threads[u] == s.threads[u];
      }
    }
    assert SourceOf(s'.threads[t]) in Sources(s');
  }

  lemma SourcesLose(s: State, t: Tid, s': State)
    requires Inv(s) && OnlyMoves(s, t, s') && HasSource(s.threads[t]) && !s'.threads[t].Moved?
    ensures Sources(s') == Sources(s) - {SourceOf(s.threads[t])}
  {
    var src := SourceOf(s.threads[t]);
    forall c ensures c in Sources(s') <==> c in Sources(s) - {src} {
      if c in Sources(s) && c != src {
        var u :| 0 <= u < |s.threads| && HasSource(s.threads[u]) && SourceOf(s.threads[u]) == c;
        assert u != t && s'.threads[u] == s.threads[u];
      }
      if c in Sources(s') { SourceWas(s, t, s', c); }
    }
  }

  lemma SourceWas(s: State, t: Tid, s': State, c: Cell)
    requires Inv(s) && OnlyMoves(s, t, s') && HasSource(s.threads[t]) && !s'.threads[t].Moved? && c in Sources(s')
    ensures c in Sources(s) && c != SourceOf(s.threads[t])
  {
    var u :| 0 <= u < |s'.threads| && HasSource(s'.threads[u]) && SourceOf(s'.threads[u]) == c;
    assert u != t && s'.threads[u] == s.threads[u];
    SourcesDiffer(s, t, u);
  }

  lemma SourcesDiffer(s: State, t: Tid, u: Tid)
    requires Inv(s) && t < |s.threads| && u < |s.threads| && t != u
    requires HasSource(s.threads[t]) && HasSource(s.threads[u])
    ensures SourceOf(s.threads[t]) != SourceOf(s.threads[u])
  {
    assert ThreadOk(s, s.threads[t]) && ThreadOk(s, s.threads[u]);
    HopLocked(s.threads[t].op, s.threads[t].path, s.threads[t].d, s.buckets);
    HopLocked(s.threads[u].op, s.threads[u].path, s.threads[u].d, s.buckets);
    HeldDisjoint(s, t, u, SourceOf(s.threads[t]).index);
  }

  // ---- the effect of each kind of step ----

  ghost predicate HasEffect(s: State, s': State, e: Effect) {
    && (forall v :: Mult(s', v) == Mult(s, v) + Delta(e, v))
    && |Live(s')| == |Live(s)| + (match e case Same => 0 case Added(_) => 1 case Taken(_) => -1)
    && s'.inserted == s.inserted + (if e.Added? then 1 else 0)
    && s'.removed == s.removed + (if e.Taken? then 1 else 0)
  }

  lemma QuietEffect(s: State, s': State)
    requires s'.cells == s.cells && Sources(s') == Sources(s)
    requires s'.inserted == s.inserted && s'.removed == s.removed
    ensures HasEffect(s, s', Same)
  {
    forall v ensures Mult(s', v) == Mult(s, v) { assert Copies(s', v) == Copies(s, v); }
  }

  lemma AddCounts(s: State, s': State, c: Cell, val: int, v: int)
    requires c !in s.cells && c !in Sources(s) && s'.cells == s.cells[c := val] && Sources(s') == Sources(s)
    ensures Mult(s', v) == Mult(s, v) + Delta(Added(val), v)
  {
    AddCopies(s.cells, Sources(s), c, val, v);
  }

  lemma AddCopies(cells: Cells, sources: set<Cell>, c: Cell, val: int, v: int)
    requires c !in cells && c !in sources
    ensures |CopiesIn(cells[c := val], sources, v)| == |CopiesIn(cells, sources, v)| + (if v == val then 1 else 0)
  {
    var before, after := CopiesIn(cells, sources, v), CopiesIn(cells[c := val], sources, v);
    assert c !in before;
    assert after == if v == val then before + {c} else before;
  }

  lemma TakeCopies(cells: Cells, sources: set<Cell>, c: Cell, v: int)
    requires c in cells && c !in sources
    ensures |CopiesIn(cells - {c}, sources, v)| == |CopiesIn(cells, sources, v)| - (if v == cells[c] then 1 else 0)
  {
    var before, after := CopiesIn(cells, sources, v), CopiesIn(cells - {c}, sources, v);
    if v == cells[c] {
      assert c in before && |before - {c}| == |before| - 1;
      assert after == before - {c};
    } else {
      assert after == before;
    }
  }

  /** The target of a copy stands in for its source. */
  lemma SwapCopies(cells: Cells, sources: set<Cell>, src: Cell, dst: Cell, v: int)
    requires src in cells && dst !in cells && src !in sources && dst !in sources
    ensures |CopiesIn(cells[dst := cells[src]], sources + {src}, v)| == |CopiesIn(cells, sources, v)|
  {
    var before, after := CopiesIn(cells, sources, v), CopiesIn(cells[dst := cells[src]], sources + {src}, v);
    if v == cells[src] {
      assert src in before && dst !in before && |before - {src}| == |before| - 1;
      assert after == before - {src} + {dst};
    } else {
      assert after == before;
    }
  }

  lemma AddEffect(s: State, s': State, c: Cell, val: int)
    requires c !in s.cells && c !in Sources(s) && s'.cells == s.cells[c := val] && Sources(s') == Sources(s)
    requires s'.inserted == s.inserted + 1 && s'.removed == s.removed
    ensures HasEffect(s, s', Added(val))
  {
    forall v ensures Mult(s', v) == Mult(s, v) + Delta(Added(val), v) { AddCounts(s, s', c, val, v); }
    AddLive(s, s', c, val);
  }

  lemma AddLive(s: State, s': State, c: Cell, val: int)
    requires c !in s.cells && c !in Sources(s) && s'.cells == s.cells[c := val] && Sources(s') == Sources(s)
    ensures |Live(s')| == |Live(s)| + 1
  {
    assert Live(s') == Live(s) + {c} && c !in Live(s);
  }

  lemma TakeCounts(s: State, s': State, c: Cell, v: int)
    requires c in s.cells && c !in Sources(s)
    requires s'.cells == s.cells - {c} && Sources(s') == Sources(s)
    ensures Mult(s', v) == Mult(s, v) + Delta(Taken(s.cells[c]), v)
  {
    TakeCopies(s.cells, Sources(s), c, v);
  }

  lemma TakeEffect(s: State, s': State, c: Cell, val: int)
    requires c in s.cells && s.cells[c] == val && c !in Sources(s)
    requires s'.cells == s.cells - {c} && Sources(s') == Sources(s)
    requires s'.inserted == s.inserted && s'.removed == s.removed + 1
    ensures HasEffect(s, s', Taken(val)) && Mult(s, val) >= 1
  {
    assert c in Copies(s, val);
    forall v ensures Mult(s', v) == Mult(s, v) + Delta(Taken(val), v) { TakeCounts(s, s', c, v); }
    assert Live(s') == Live(s) - {c} && c in Live(s);
  }

  lemma CopyCounts(s: State, s': State, src: Cell, dst: Cell, v: int)
    requires src in s.cells && dst !in s.cells && src !in Sources(s) && dst !in Sources(s)
    requires s'.cells == s.cells[dst := s.cells[src]] && Sources(s') == Sources(s) + {src}
    ensures Mult(s', v) == Mult(s, v)
  {
    SwapCopies(s.cells, Sources(s), src, dst, v);
  }

  lemma CopyEffect(s: State, s': State, src: Cell, dst: Cell)
    requires src in s.cells && dst !in s.cells && src !in Sources(s) && dst !in Sources(s)
    requires s'.cells == s.cells[dst := s.cells[src]] && Sources(s') == Sources(s) + {src}
    requires s'.inserted == s.inserted && s'.removed == s.removed
    ensures HasEffect(s, s', Same)
  {
    forall v ensures Mult(s', v) == Mult(s, v) { CopyCounts(s, s', src, dst, v); }
    assert Live(s') == Live(s) - {src} + {dst} && src in Live(s) && dst !in Live(s);
  }

  lemma ClearEffect(s: State, s': State, src: Cell)
    requires src in Sources(s) && s'.cells == s.cells - {src} && Sources(s') == Sources(s) - {src}
    requires s'.inserted == s.inserted && s'.removed == s.removed
    ensures HasEffect(s, s', Same)
  {
    forall v ensures Mult(s', v) == Mult(s, v) { assert Copies(s', v) == Copies(s, v); }
    assert Live(s') == Live(s);
  }

  lemma RemoveStepEffect(s: State, t: Tid, found: Found)
    requires Inv(s) && Enabled(s, Advance(t, found)) && s.threads[t].Locked? && s.threads[t].phase.First?
    requires s.threads[t].op.Remove?
    ensures HasEffect(s, StepOf(s, t, found), EffectOf(s, Advance(t, found)))
    ensures EffectOf(s, Advance(t, found)).Taken? ==> Mult(s, s.threads[t].op.val) >= 1
  {
    var op, s' := s.threads[t].op, StepOf(s, t, found);
    assert ThreadOk(s, s.threads[t]);
    StepShape(s, t, found);
    SourcesSame(s, t, s');
    var i1, i2 := H(s, op.val, 1), H(s, op.val, 2);
    var at1, at2 := FindSlot(s.cells, op.val, 1, i1), FindSlot(s.cells, op.val, 2, i2);
    if at1 != -1 {
      SourceElsewhere(s, t, Cell(1, i1, at1));
      TakeEffect(s, s', Cell(1, i1, at1), op.val);
    } else if at2 != -1 {
      SourceElsewhere(s, t, Cell(2, i2, at2));
      TakeEffect(s, s', Cell(2, i2, at2), op.val);
    } else {
      QuietEffect(s, s');
    }
  }

  lemma CopyStepEffect(s: State, t: Tid, found: Found)
    requires Inv(s) && Enabled(s, Advance(t, found)) && s.threads[t].Locked? && s.threads[t].phase.Hop?
    ensures HasEffect(s, StepOf(s, t, found), Same)
  {
    var Locked(op, Hop(path, d)) := s.threads[t];
    var s' := StepOf(s, t, found);
    assert ThreadOk(s, s.threads[t]);
    StepShape(s, t, found);
    HopLocked(op, path, d, s.buckets);
    if s'.threads[t].Moved? {
      SourcesGain(s, t, s');
      SourceElsewhere(s, t, path[d - 1]);
      SourceElsewhere(s, t, path[d]);
      CopyEffect(s, s', path[d - 1], path[d]);
    } else {
      SourcesSame(s, t, s');
      QuietEffect(s, s');
    }
  }

  lemma ClearStepEffect(s: State, t: Tid, found: Found)
    requires Inv(s) && Enabled(s, Advance(t, found)) && s.threads[t].Moved?
    ensures HasEffect(s, StepOf(s, t, found), Same)
  {
    assert ThreadOk(s, s.threads[t]);
    StepShape(s, t, found);
    SourcesLose(s, t, StepOf(s, t, found));
    ClearEffect(s, StepOf(s, t, found), SourceOf(s.threads[t]));
  }

  lemma WriteStepEffect(s: State, t: Tid, found: Found)
    requires Inv(s) && Enabled(s, Advance(t, found)) && s.threads[t].Writing?
    ensures HasEffect(s, StepOf(s, t, found), Added(s.threads[t].op.val))
  {
    var op, c, s' := s.threads[t].op, s.threads[t].cell, StepOf(s, t, found);
    assert ThreadOk(s, s.threads[t]);
    SourcesSame(s, t, s');
    SourcesOccupied(s);
    AddEffect(s, s', c, op.val);
  }

  lemma OtherStepEffect(s: State, a: Action)
    requires Inv(s) && Enabled(s, a)
    requires a.Advance? ==>
               var th := s.threads[a.t];
               !th.Writing? && !th.Moved? && !(th.Locked? && (th.phase.Hop? || th.op.Remove?))
    ensures HasEffect(s, Apply(s, a), Same)
  {
    assert ThreadOk(s, s.threads[a.t]);
    StepInv(s, a);
    OtherStepQuiet(s, a);
    SourcesSame(s, a.t, Apply(s, a));
    QuietEffect(s, Apply(s, a));
  }

  lemma OtherStepQuiet(s: State, a: Action)
    requires Inv(s) && Enabled(s, a) && ThreadOk(s, s.threads[a.t])
    requires a.Advance? ==>
               var th := s.threads[a.t];
               !th.Writing? && !th.Moved? && !(th.Locked? && (th.phase.Hop? || th.op.Remove?))
    ensures var s' := Apply(s, a);
            && s'.cells == s.cells && s'.inserted == s.inserted && s'.removed == s.removed
            && a.t < |s'.threads| && !s.threads[a.t].Moved? && !s'.threads[a.t].Moved?
  {
    if a.Advance? && s.threads[a.t].Locked? && s.threads[a.t].phase.First? { LookQuiet(s, a.t, s.threads[a.t].op); }
  }

  lemma LookQuiet(s: State, t: Tid, op: Op)
    requires t < |s.threads| && s.buckets > 0 && !op.Remove?
    ensures var s' := FirstLook(s, t, op);
            && s'.cells == s.cells && s'.inserted == s.inserted && s'.removed == s.removed
            && t < |s'.threads| && !s'.threads[t].Moved?
  {
  }

  /** Every step of every thread has exactly the effect `EffectOf` says. */
  lemma StepEffect(s: State, a: Action)
    requires Inv(s) && Enabled(s, a)
    ensures HasEffect(s, Apply(s, a), EffectOf(s, a))
  {
    assert ThreadOk(s, s.threads[a.t]);
    if !a.Advance? { OtherStepEffect(s, a); }
    else {
      var th := s.threads[a.t];
      if th.Writing? { WriteStepEffect(s, a.t, a.found); }
      else if th.Moved? { ClearStepEffect(s, a.t, a.found); }
      else if th.Locked? && th.phase.Hop? { CopyStepEffect(s, a.t, a.found); }
      else if th.Locked? && th.phase.First? && th.op.Remove? { RemoveStepEffect(s, a.t, a.found); }
      else if th.Locked? && th.phase.Direct? { DirectEffect(s, a.t, a.found); }
      else { OtherStepEffect(s, a); }
    }
  }

  lemma DirectEffect(s: State, t: Tid, found: Found)
    requires Inv(s) && Enabled(s, Advance(t, found)) && s.threads[t].Locked? && s.threads[t].phase.Direct?
    ensures HasEffect(s, StepOf(s, t, found), Same)
  {
    assert ThreadOk(s, s.threads[t]);
    SourcesSame(s, t, StepOf(s, t, found));
    QuietEffect(s, StepOf(s, t, found));
  }

  /** With both bucket locks of val held, a lookup finds it exactly when it is in the multiset. */
  lemma LookupIsExact(s: State, t: Tid)
    requires Inv(s) && t < |s.threads| && s.threads[t].Locked? && s.threads[t].phase.First?
    ensures var val := s.threads[t].op.val;
            (FindSlot(s.cells, val, 1, H(s, val, 1)) != -1 || FindSlot(s.cells, val, 2, H(s, val, 2)) != -1)
              <==> Mult(s, val) > 0
  {
    var val := s.threads[t].op.val;
    assert ThreadOk(s, s.threads[t]);
    var i1, i2 := H(s, val, 1), H(s, val, 2);
    var at1, at2 := FindSlot(s.cells, val, 1, i1), FindSlot(s.cells, val, 2, i2);
    if at1 != -1 {
      SourceElsewhere(s, t, Cell(1, i1, at1));
      assert Cell(1, i1, at1) in Copies(s, val);
    } else if at2 != -1 {
      SourceElsewhere(s, t, Cell(2, i2, at2));
      assert Cell(2, i2, at2) in Copies(s, val);
    } else {
      forall c | c in s.cells ensures s.cells[c] != val {
        assert At(s.cells, Cell(c.table, c.index, c.slot)) == s.cells[c];
      }
      assert Copies(s, val) == {};
    }
  }
}
