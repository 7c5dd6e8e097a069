/** Every step of the concurrent cuckoo set keeps the invariant. */
module CuckooSteps {
  import opened CuckooCore
  import opened CuckooMachine

  /** Outside the buckets t has locked, nothing changed. */
  ghost predicate WritesOnlyHeld(s: State, t: Tid, s': State)
    requires t < |s.threads| && ThreadOk(s, s.threads[t])
  {
    forall c: Cell :: c.index !in Held(s, s.threads[t]) ==>
      (c in s.cells <==> c in s'.cells) && (c in s.cells && c in s'.cells ==> s.cells[c] == s'.cells[c])
  }

  ghost predicate OnlyMoves(s: State, t: Tid, s': State) {
    && t < |s.threads| && s'.threads == s.threads[t := if t < |s'.threads| then s'.threads[t] else s.threads[t]]
    && s'.buckets == s.buckets
  }

  lemma HeldDisjoint(s: State, t: Tid, u: Tid, x: nat)
    requires Inv(s) && t < |s.threads| && u < |s.threads| && t != u
    requires x in Held(s, s.threads[t])
    ensures x !in Held(s, s.threads[u])
  {
    assert HolderOk(s, t, x) && HolderOk(s, u, x);
  }

  /** What another thread knows is protected by the locks it holds. */
  lemma OtherKept(s: State, t: Tid, s': State, u: Tid)
    requires Inv(s) && OnlyMoves(s, t, s') && WritesOnlyHeld(s, t, s')
    requires u < |s.threads| && u != t
    ensures ThreadOk(s', s.threads[u]) && Held(s', s.threads[u]) == Held(s, s.threads[u])
  {
    var th := s.threads[u];
    assert ThreadOk(s, th);
    match th {
      case Moved(op, path, d) =>
        assert path[d].index in Held(s, th) && path[d - 1].index in Held(s, th);
        HeldDisjoint(s, u, t, path[d].index);
        HeldDisjoint(s, u, t, path[d - 1].index);
      case Writing(op, c) => HeldDisjoint(s, u, t, c.index);
      case Unlocking(op, todo, next) => if next.Success? { HeldDisjoint(s, u, t, next.cell.index); }
      case _ =>
    }
  }

  /** A step that leaves every lock where it is. */
  lemma SameLocksStep(s: State, t: Tid, s': State)
    requires Inv(s) && OnlyMoves(s, t, s') && WritesOnlyHeld(s, t, s')
    requires s'.locks == s.locks && ThreadOk(s', s'.threads[t])
    requires Held(s', s'.threads[t]) == Held(s, s.threads[t])
    requires Placed(s'.cells, s'.buckets) && GlobalOk(s')
    ensures Inv(s')
  {
    forall u | 0 <= u < |s'.threads| ensures ThreadOk(s', s'.threads[u]) {
      if u != t { OtherKept(s, t, s', u); }
    }
    forall u, x | 0 <= u < |s'.threads| ensures HolderOk(s', u, x) {
      assert HolderOk(s, u, x);
      if u != t { OtherKept(s, t, s', u); }
    }
  }

  /** A step inside the read section that touches neither lock level. */
  lemma InsideStep(s: State, t: Tid, s': State)
    requires Inv(s) && OnlyMoves(s, t, s') && WritesOnlyHeld(s, t, s')
    requires s'.locks == s.locks && s'.readers == s.readers && s'.writer == s.writer
    requires ThreadOk(s', s'.threads[t]) && Placed(s'.cells, s'.buckets)
    requires Held(s', s'.threads[t]) == Held(s, s.threads[t])
    requires InRead(s.threads[t]) && InRead(s'.threads[t])
    ensures Inv(s')
  {
    SameLocksStep(s, t, s');
  }

  // ---- bucket locks ----

  /** One lock word taken or released by t. */
  lemma LockWordStep(s: State, t: Tid, s': State, x: nat, taken: bool)
    requires Inv(s) && OnlyMoves(s, t, s') && s'.cells == s.cells
    requires s'.readers == s.readers && s'.writer == s.writer
    requires s'.locks == if taken then s.locks[x := t] else s.locks - {x}
    requires taken ==> x !in s.locks && x < s.buckets
    requires !taken ==> x in Held(s, s.threads[t])
    requires ThreadOk(s', s'.threads[t]) && InRead(s.threads[t]) && InRead(s'.threads[t])
    requires Held(s', s'.threads[t]) ==
               if taken then Held(s, s.threads[t]) + {x} else Held(s, s.threads[t]) - {x}
    ensures Inv(s')
  {
    assert HolderOk(s, t, x);
    forall u | 0 <= u < |s'.threads| ensures ThreadOk(s', s'.threads[u]) {
      if u != t { OtherKept(s, t, s', u); }
    }
    forall u, y | 0 <= u < |s'.threads| ensures HolderOk(s', u, y) {
      assert HolderOk(s, u, y);
      if u != t { OtherKept(s, t, s', u); }
    }
  }

  lemma PrefixElements(ls: seq<nat>, k: nat)
    requires k < |ls|
    ensures Elements(ls[..k + 1]) == Elements(ls[..k]) + {ls[k]}
    ensures k + 1 == |ls| ==> Elements(ls[..k + 1]) == Elements(ls)
  {
    assert ls[..k + 1] == ls[..k] + [ls[k]];
    if k + 1 == |ls| { assert ls[..k + 1] == ls; }
  }

  lemma LockTaken(s: State, op: Op, phase: Phase, k: nat)
    requires ThreadOk(s, Locking(op, phase, k))
    ensures var ls := PhaseLocks(op, phase, s.buckets);
            var th' := if k + 1 < |ls| then Locking(op, phase, k + 1) else Locked(op, phase);
            ThreadOk(s, th') && Held(s, th') == Held(s, Locking(op, phase, k)) + {ls[k]}
  {
    PhaseLocksOk(op, phase, s.buckets);
    PrefixElements(PhaseLocks(op, phase, s.buckets), k);
  }

  lemma LockStep(s: State, t: Tid, found: Found)
    requires Inv(s) && Enabled(s, Advance(t, found)) && s.threads[t].Locking?
    ensures Inv(StepOf(s, t, found))
  {
    var Locking(op, phase, k) := s.threads[t];
    assert ThreadOk(s, s.threads[t]);
    var x := PhaseLocks(op, phase, s.buckets)[k];
    var s' := StepOf(s, t, found);
    LockTaken(s, op, phase, k);
    PhaseLocksInRange(s, op, phase, x);
    assert Held(s', s'.threads[t]) == Held(s, s'.threads[t]);
    LockWordStep(s, t, s', x, true);
  }

  lemma PhaseLocksInRange(s: State, op: Op, phase: Phase, x: nat)
    requires s.buckets > 0 && PhaseOk(phase, op, s.buckets)
    requires x in PhaseLocks(op, phase, s.buckets)
    ensures x < s.buckets
  {
    PhaseLocksOk(op, phase, s.buckets);
    assert x in LockSet(op, phase, s.buckets);
  }

  lemma UnlockStep(s: State, t: Tid, found: Found)
    requires Inv(s) && Enabled(s, Advance(t, found)) && s.threads[t].Unlocking? && s.threads[t].todo != []
    ensures Inv(StepOf(s, t, found))
  {
    var Unlocking(op, todo, next) := s.threads[t];
    assert ThreadOk(s, s.threads[t]);
    assert todo == [todo[0]] + todo[1..];
    assert Elements(todo) == {todo[0]} + Elements(todo[1..]);
    assert todo[0] !in Elements(todo[1..]);
    LockWordStep(s, t, StepOf(s, t, found), todo[0], false);
  }

  // ---- the global lock ----

  lemma GlobalStep(s: State, t: Tid, found: Found)
    requires Inv(s) && Enabled(s, Advance(t, found))
    requires var th := s.threads[t]; th.WantRead? || th.UnlockGlobal? || th.WantWrite? || th.Resizing?
    ensures Inv(StepOf(s, t, found))
  {
    var s' := StepOf(s, t, found);
    assert ThreadOk(s, s.threads[t]);
    if s.threads[t].WantRead? {
      PhaseLocksOk(s.threads[t].op, First, s.buckets);
    }
    SameLocksStep(s, t, s');
  }

  // ---- steps under bucket locks ----

  /** A thread about to give up the two locks of its first look still holds both. */
  lemma ReleaseThread(s: State, op: Op, next: After)
    requires s.buckets > 0 && op.val != EMPTY && (next.Finish? || (next.Search? && op.Insert?))
    ensures var th := Unlocking(op, PhaseUnlocks(op, First, s.buckets), next);
            InRead(th) && ThreadOk(s, th) && Held(s, th) == {H(s, op.val, 1), H(s, op.val, 2)}
  {
    PhaseLocksOk(op, First, s.buckets);
  }

  lemma WritingThread(s: State, op: Op, table: int, slot: int)
    requires s.buckets > 0 && op.val != EMPTY && op.Insert? && (table == 1 || table == 2)
    requires slot != -1 && slot == FindSlot(s.cells, EMPTY, table, H(s, op.val, table))
    requires Placed(s.cells, s.buckets)
    ensures ThreadOk(s, Writing(op, Cell(table, H(s, op.val, table), slot)))
  {
    var c := Cell(table, H(s, op.val, table), slot);
    assert At(s.cells, c) == EMPTY;
  }

  lemma LookThread(s: State, t: Tid)
    requires Inv(s) && t < |s.threads| && s.threads[t].Locked? && s.threads[t].phase.First?
    requires !s.threads[t].op.Remove?
    ensures var th' := FirstLook(s, t, s.threads[t].op).threads[t];
            InRead(th') && ThreadOk(s, th') && Held(s, th') == Held(s, s.threads[t])
    ensures FirstLook(s, t, s.threads[t].op) == Goto(s, t, FirstLook(s, t, s.threads[t].op).threads[t])
  {
    var op := s.threads[t].op;
    assert ThreadOk(s, s.threads[t]);
    var th' := FirstLook(s, t, op).threads[t];
    if th'.Unlocking? {
      ReleaseThread(s, op, th'.next);
    } else {
      WritingThread(s, op, th'.cell.table, th'.cell.slot);
    }
  }

  lemma LookOnly(s: State, t: Tid)
    requires Inv(s) && t < |s.threads| && s.threads[t].Locked? && s.threads[t].phase.First?
    requires !s.threads[t].op.Remove?
    ensures Inv(FirstLook(s, t, s.threads[t].op))
  {
    LookThread(s, t);
    GotoStep(s, t, FirstLook(s, t, s.threads[t].op).threads[t]);
  }

  lemma GotoStep(s: State, t: Tid, th: Thread)
    requires Inv(s) && t < |s.threads| && InRead(s.threads[t]) && InRead(th)
    requires ThreadOk(s, th) && Held(s, th) == Held(s, s.threads[t])
    ensures Inv(Goto(s, t, th))
  {
    var s' := Goto(s, t, th);
    assert ThreadOk(s', th) && Held(s', th) == Held(s, th);
    InsideStep(s, t, s');
  }

  lemma RemoveOne(s: State, t: Tid)
    requires Inv(s) && t < |s.threads| && s.threads[t].Locked? && s.threads[t].phase.First?
    requires s.threads[t].op.Remove?
    ensures Inv(FirstLook(s, t, s.threads[t].op))
  {
    var op := s.threads[t].op;
    assert ThreadOk(s, s.threads[t]);
    var at1 := FindSlot(s.cells, op.val, 1, H(s, op.val, 1));
    var at2 := FindSlot(s.cells, op.val, 2, H(s, op.val, 2));
    if at1 != -1 {
      TakeOut(s, t, op, Cell(1, H(s, op.val, 1), at1));
    } else if at2 != -1 {
      TakeOut(s, t, op, Cell(2, H(s, op.val, 2), at2));
    } else {
      ReleaseThread(s, op, Finish(false));
      GotoStep(s, t, Unlocking(op, PhaseUnlocks(op, First, s.buckets), Finish(false)));
    }
  }

  /** A remove takes a cell of its two locked buckets out. */
  lemma TakeOut(s: State, t: Tid, op: Op, c: Cell)
    requires Inv(s) && t < |s.threads| && s.threads[t] == Locked(op, First)
    requires c.index == H(s, op.val, 1) || c.index == H(s, op.val, 2)
    ensures var th := Unlocking(op, PhaseUnlocks(op, First, s.buckets), Finish(true));
            Inv(Goto(s.(cells := s.cells - {c}, removed := s.removed + 1), t, th))
  {
    assert ThreadOk(s, s.threads[t]);
    var th := Unlocking(op, PhaseUnlocks(op, First, s.buckets), Finish(true));
    var s' := Goto(s.(cells := s.cells - {c}, removed := s.removed + 1), t, th);
    ReleaseThread(s, op, Finish(true));
    ReleaseThread(s', op, Finish(true));
    InsideStep(s, t, s');
  }

  lemma FirstLookStep(s: State, t: Tid, found: Found)
    requires Inv(s) && Enabled(s, Advance(t, found)) && s.threads[t].Locked? && s.threads[t].phase.First?
    ensures Inv(StepOf(s, t, found))
  {
    if s.threads[t].op.Remove? { RemoveOne(s, t); } else { LookOnly(s, t); }
  }

  lemma DirectStep(s: State, t: Tid, found: Found)
    requires Inv(s) && Enabled(s, Advance(t, found)) && s.threads[t].Locked? && s.threads[t].phase.Direct?
    ensures Inv(StepOf(s, t, found))
  {
    var op := s.threads[t].op;
    assert ThreadOk(s, s.threads[t]);
    PhaseLocksOk(op, First, s.buckets);
    assert PathOk([s.threads[t].phase.cell], op.val, s.buckets);
    InsideStep(s, t, StepOf(s, t, found));
  }

  lemma CopyStep(s: State, t: Tid, found: Found)
    requires Inv(s) && Enabled(s, Advance(t, found)) && s.threads[t].Locked? && s.threads[t].phase.Hop?
    ensures Inv(StepOf(s, t, found))
  {
    var Locked(op, Hop(path, d)) := s.threads[t];
    var s' := StepOf(s, t, found);
    assert ThreadOk(s, s.threads[t]);
    PhaseLocksOk(op, Hop(path, d), s.buckets);
    HopLocked(op, path, d, s.buckets);
    InsideStep(s, t, s');
  }

  /** Both ends of a hop are under the locks of its phase. */
  lemma HopLocked(op: Op, path: seq<Cell>, d: nat, buckets: nat)
    requires PhaseOk(Hop(path, d), op, buckets) && buckets > 0
    ensures path[d].index in LockSet(op, Hop(path, d), buckets)
    ensures path[d - 1].index in LockSet(op, Hop(path, d), buckets)
    ensures path[d] != path[d - 1]
  {
    assert path[d].table == 3 - path[d - 1].table;
  }

  lemma ClearStep(s: State, t: Tid, found: Found)
    requires Inv(s) && Enabled(s, Advance(t, found)) && s.threads[t].Moved?
    ensures Inv(StepOf(s, t, found))
  {
    var Moved(op, path, d) := s.threads[t];
    var s' := StepOf(s, t, found);
    assert ThreadOk(s, s.threads[t]);
    PhaseLocksOk(op, Hop(path, d), s.buckets);
    HopLocked(op, path, d, s.buckets);
    AfterHopHeld(s, op, path, d);
    InsideStep(s, t, s');
  }

  lemma AfterHopHeld(s: State, op: Op, path: seq<Cell>, d: nat)
    requires s.buckets > 0 && PhaseOk(Hop(path, d), op, s.buckets) && op.val != EMPTY
    requires path[d - 1] in s.cells
    ensures var s' := s.(cells := s.cells - {path[d - 1]});
            ThreadOk(s', AfterHop(s, op, path, d))
            && Held(s', AfterHop(s, op, path, d)) == LockSet(op, Hop(path, d), s.buckets)
  {
    PhaseLocksOk(op, Hop(path, d), s.buckets);
    var x, i1, i2 := path[1].index, H(s, op.val, 1), H(s, op.val, 2);
    if d == 1 {
      assert path[0].table == 1 || path[0].table == 2;
      var third := if x != i1 && x != i2 then [x] else [];
      assert Elements(third) == if x != i1 && x != i2 then {x} else {};
    }
  }

  lemma WriteStep(s: State, t: Tid, found: Found)
    requires Inv(s) && Enabled(s, Advance(t, found)) && s.threads[t].Writing?
    ensures Inv(StepOf(s, t, found))
  {
    var op := s.threads[t].op;
    assert ThreadOk(s, s.threads[t]);
    PhaseLocksOk(op, First, s.buckets);
    InsideStep(s, t, StepOf(s, t, found));
  }

  lemma LocalStep(s: State, t: Tid, found: Found)
    requires Inv(s) && Enabled(s, Advance(t, found))
    requires s.threads[t].Searching? || (s.threads[t].Unlocking? && s.threads[t].todo == [])
    ensures Inv(StepOf(s, t, found))
  {
    var th := s.threads[t];
    assert ThreadOk(s, th);
    if th.Searching? {
      if found.Via? {
        var phase := if |found.path| == 1 then Direct(found.path[0]) else Hop(found.path, |found.path| - 1);
        assert |found.path| == 1 ==> found.path == [found.path[0]];
        PhaseLocksOk(th.op, phase, s.buckets);
      }
    } else if th.next.NextHop? {
      PhaseLocksOk(th.op, Hop(th.next.path, th.next.d), s.buckets);
    }
    InsideStep(s, t, StepOf(s, t, found));
  }

  lemma AdvanceInv(s: State, t: Tid, found: Found)
    requires Inv(s) && Enabled(s, Advance(t, found))
    ensures Inv(StepOf(s, t, found))
  {
    var th := s.threads[t];
    if th.Locking? { LockStep(s, t, found); }
    else if th.Unlocking? && th.todo != [] { UnlockStep(s, t, found); }
    else if th.Unlocking? || th.Searching? { LocalStep(s, t, found); }
    else if th.Moved? { ClearStep(s, t, found); }
    else if th.Writing? { WriteStep(s, t, found); }
    else if th.Locked? {
      match th.phase
      case First => FirstLookStep(s, t, found);
      case Direct(_) => DirectStep(s, t, found);
      case Hop(_, _) => CopyStep(s, t, found);
    } else {
      GlobalStep(s, t, found);
    }
  }

  lemma StepShape(s: State, t: Tid, found: Found)
    requires Inv(s) && Enabled(s, Advance(t, found))
    ensures OnlyMoves(s, t, StepOf(s, t, found))
  {
    assert ThreadOk(s, s.threads[t]);
    if s.threads[t].Locked? { LockedShape(s, t, found); }
  }

  lemma LockedShape(s: State, t: Tid, found: Found)
    requires Inv(s) && Enabled(s, Advance(t, found)) && ThreadOk(s, s.threads[t]) && s.threads[t].Locked?
    ensures OnlyMoves(s, t, StepOf(s, t, found))
  {
    if s.threads[t].phase.First? { LookShape(s, t, s.threads[t].op); }
  }

  lemma LookShape(s: State, t: Tid, op: Op)
    requires t < |s.threads| && s.buckets > 0
    ensures OnlyMoves(s, t, FirstLook(s, t, op))
  {
  }

  lemma StepInv(s: State, a: Action)
    requires Inv(s) && Enabled(s, a)
    ensures Inv(Apply(s, a)) && OnlyMoves(s, a.t, Apply(s, a))
  {
    assert ThreadOk(s, s.threads[a.t]);
    if a.Advance? {
      AdvanceInv(s, a.t, a.found);
      StepShape(s, a.t, a.found);
    } else {
      SameLocksStep(s, a.t, Apply(s, a));
    }
  }
}
