/** Whole runs of the concurrent cuckoo set. */
module CuckooRuns {
  import opened CuckooCore
  import opened CuckooMachine
  import opened CuckooSteps
  import opened CuckooAbstract

  ghost predicate StepAt(ss: seq<State>, acts: seq<Action>, i: nat)
    requires |ss| == |acts| + 1 && i < |acts|
  {
    && Enabled(ss[i], acts[i]) && ThreadOk(ss[i], ss[i].threads[acts[i].t])
    && ss[i + 1] == Apply(ss[i], acts[i])
  }

  ghost predicate IsRun(ss: seq<State>, acts: seq<Action>) {
    && |ss| == |acts| + 1
    && Init(ss[0])
    && forall i :: 0 <= i < |acts| ==> StepAt(ss, acts, i)
  }

  lemma {:induction false} RunInv(ss: seq<State>, acts: seq<Action>, i: nat)
    requires IsRun(ss, acts) && i < |ss|
    ensures Inv(ss[i]) && |ss[i].threads| == |ss[0].threads| && ss[i].buckets == ss[0].buckets
  {
    if i == 0 {
      InitInv(ss[0]);
    } else {
      RunInv(ss, acts, i - 1);
      assert StepAt(ss, acts, i - 1);
      StepInv(ss[i - 1], acts[i - 1]);
    }
  }

  /** No run gets stuck on an index out of range: every enabled action extends it. */
  lemma RunsExtend(ss: seq<State>, acts: seq<Action>, a: Action)
    requires IsRun(ss, acts) && Enabled(ss[|acts|], a)
    ensures ThreadOk(ss[|acts|], ss[|acts|].threads[a.t])
    ensures IsRun(ss + [Apply(ss[|acts|], a)], acts + [a])
  {
    RunInv(ss, acts, |acts|);
    var ss', acts' := ss + [Apply(ss[|acts|], a)], acts + [a];
    forall i | 0 <= i < |acts'| ensures StepAt(ss', acts', i) {
      if i < |acts| { assert StepAt(ss, acts, i); }
    }
  }

  // ---- placement and conservation ----

  /** In every reachable state each value is in its hash-1 bucket of table 1 or its hash-2 bucket of table 2. */
  lemma AlwaysPlaced(ss: seq<State>, acts: seq<Action>, i: nat)
    requires IsRun(ss, acts) && i < |ss|
    ensures Placed(ss[i].cells, ss[0].buckets)
  {
    RunInv(ss, acts, i);
  }

  /** What is live beyond the successful inserts less the successful removes. */
  ghost function Surplus(s: State): int {
    |Live(s)| - s.inserted + s.removed
  }

  lemma LiveCount(ss: seq<State>, acts: seq<Action>, i: nat)
    requires IsRun(ss, acts) && i < |ss|
    ensures Surplus(ss[i]) == |ss[0].cells|
  {
    LiveAtStart(ss[0]);
    forall j | 0 < j < |ss| ensures Surplus(ss[j]) == Surplus(ss[j - 1]) { LiveStep(ss, acts, j - 1); }
    SurplusStays(ss, i);
  }

  lemma {:induction false} SurplusStays(ss: seq<State>, i: nat)
    requires i < |ss| && forall j :: 0 < j < |ss| ==> Surplus(ss[j]) == Surplus(ss[j - 1])
    ensures Surplus(ss[i]) == Surplus(ss[0])
  {
    if i > 0 { SurplusStays(ss, i - 1); }
  }

  lemma LiveAtStart(s: State)
    requires Init(s)
    ensures Surplus(s) == |s.cells|
  {
    assert Sources(s) == {};
    assert Live(s) == s.cells.Keys;
  }

  lemma LiveStep(ss: seq<State>, acts: seq<Action>, i: nat)
    requires IsRun(ss, acts) && i < |acts|
    ensures Surplus(ss[i + 1]) == Surplus(ss[i])
  {
    RunInv(ss, acts, i);
    assert StepAt(ss, acts, i);
    StepEffect(ss[i], acts[i]);
  }

  lemma MoverHoldsLocks(s: State, t: Tid)
    requires Inv(s) && t < |s.threads| && HasSource(s.threads[t])
    ensures s.locks != map[]
  {
    var th := s.threads[t];
    assert ThreadOk(s, th);
    HopLocked(th.op, th.path, th.d, s.buckets);
    var x := th.path[th.d].index;
    assert HolderOk(s, t, x);
    assert x in s.locks;
  }

  /** With no bucket lock held, occupied cells are the initial ones plus successful inserts minus successful removes. */
  lemma Conservation(ss: seq<State>, acts: seq<Action>, i: nat)
    requires IsRun(ss, acts) && i < |ss| && ss[i].locks == map[]
    ensures |ss[i].cells| == |ss[0].cells| + ss[i].inserted - ss[i].removed
  {
    RunInv(ss, acts, i);
    LiveCount(ss, acts, i);
    var s := ss[i];
    forall t | 0 <= t < |s.threads| ensures !HasSource(s.threads[t]) {
      var th := s.threads[t];
      assert ThreadOk(s, th);
      if HasSource(th) { MoverHoldsLocks(s, t); }
    }
    assert Sources(s) == {};
    assert Live(s) == s.cells.Keys;
  }

  /** No write lands on an occupied cell: a cell occupied before and after a step keeps its value. */
  lemma NoOverwrite(ss: seq<State>, acts: seq<Action>, i: nat, c: Cell)
    requires IsRun(ss, acts) && i < |acts| && c in ss[i].cells && c in ss[i + 1].cells
    ensures ss[i].cells[c] == ss[i + 1].cells[c]
  {
    RunInv(ss, acts, i);
    assert StepAt(ss, acts, i);
    assert ThreadOk(ss[i], ss[i].threads[acts[i].t]);
  }

  // ---- linearizability as a multiset ----

  ghost predicate InCall(th: Thread, op: Op) {
    Active(th) && th.op == op
  }

  /** Thread t invokes op by action i and is first seen with its answer in state j. */
  ghost predicate Call(ss: seq<State>, acts: seq<Action>, t: Tid, i: nat, j: nat, op: Op, ans: bool)
    requires IsRun(ss, acts)
  {
    && i < j < |ss| && t < |ss[0].threads|
    && acts[i] == Invoke(t, op)
    && (forall m :: i < m < j ==> t < |ss[m].threads| && InCall(ss[m].threads[t], op))
    && t < |ss[j].threads| && ss[j].threads[t] == Returned(op, ans)
  }

  /** The step a from s to s' is one at which ans is the answer a sequential multiset gives, with its effect. */
  ghost predicate Point(s: State, a: Action, s': State, op: Op, ans: bool)
    requires Inv(s) && Enabled(s, a)
  {
    && HasEffect(s, s', EffectOf(s, a))
    && match op
       case Contains(v) => (ans <==> Mult(s, v) > 0) && EffectOf(s, a) == Same
       case Remove(v) => (ans <==> Mult(s, v) > 0) && EffectOf(s, a) == (if ans then Taken(v) else Same)
       case Insert(v) => (!ans ==> Mult(s, v) > 0) && EffectOf(s, a) == (if ans then Added(v) else Same)
  }

  ghost predicate PointAt(ss: seq<State>, acts: seq<Action>, t: Tid, m: nat, op: Op, ans: bool)
    requires IsRun(ss, acts) && m < |acts|
  {
    && acts[m].t == t && Inv(ss[m]) && Enabled(ss[m], acts[m])
    && Point(ss[m], acts[m], ss[m + 1], op, ans)
  }

  ghost predicate HasPoint(ss: seq<State>, acts: seq<Action>, t: Tid, i: nat, j: nat, op: Op, ans: bool)
    requires IsRun(ss, acts) && j <= |acts|
  {
    exists m :: i < m < j && PointAt(ss, acts, t, m, op, ans)
  }

  /** The program points at which the answer is settled. */
  ghost predicate Decided(th: Thread, ans: bool) {
    match th
    case Unlocking(_, _, Finish(a)) => a == ans
    case UnlockGlobal(_, Answer(a)) => a == ans
    case Returned(_, a) => a == ans
    case _ => false
  }

  lemma CallStep(ss: seq<State>, acts: seq<Action>, t: Tid, i: nat, j: nat, op: Op, ans: bool, m: nat)
    requires IsRun(ss, acts) && Call(ss, acts, t, i, j, op, ans) && i < m < j
    ensures Inv(ss[m]) && |ss[m].threads| == |ss[m + 1].threads| == |ss[0].threads|
    ensures Enabled(ss[m], acts[m]) && ThreadOk(ss[m], ss[m].threads[acts[m].t])
    ensures ss[m + 1] == Apply(ss[m], acts[m])
    ensures acts[m].t == t ==> acts[m].Advance?
    ensures acts[m].t != t ==> ss[m + 1].threads[t] == ss[m].threads[t]
    ensures InCall(ss[m].threads[t], op)
  {
    RunInv(ss, acts, m);
    RunInv(ss, acts, m + 1);
    assert StepAt(ss, acts, m);
    StepInv(ss[m], acts[m]);
    assert InCall(ss[m].threads[t], op);
  }

  /** The answer is settled by a write, or by the look under both locks. */
  lemma SettledWhere(s: State, t: Tid, found: Found, ans: bool)
    requires Inv(s) && Enabled(s, Advance(t, found)) && ThreadOk(s, s.threads[t])
    requires !Decided(s.threads[t], ans) && Decided(StepOf(s, t, found).threads[t], ans)
    ensures (s.threads[t].Writing? && ans) || (s.threads[t].Locked? && s.threads[t].phase.First?)
  {
    StepShape(s, t, found);
  }

  lemma LookSettles(s: State, t: Tid, found: Found, ans: bool)
    requires Inv(s) && Enabled(s, Advance(t, found)) && s.threads[t].Locked? && s.threads[t].phase.First?
    requires Decided(FirstLook(s, t, s.threads[t].op).threads[t], ans)
    ensures var op, e := s.threads[t].op, EffectOf(s, Advance(t, found));
            match op
            case Contains(v) => (ans <==> Mult(s, v) > 0) && e == Same
            case Remove(v) => (ans <==> Mult(s, v) > 0) && e == (if ans then Taken(v) else Same)
            case Insert(v) => !ans && Mult(s, v) > 0 && e == Same
  {
    LookupIsExact(s, t);
  }

  /** The step that settles the answer is the linearization point. */
  lemma SettlingIsPoint(s: State, t: Tid, found: Found, ans: bool)
    requires Inv(s) && Enabled(s, Advance(t, found)) && ThreadOk(s, s.threads[t])
    requires !Decided(s.threads[t], ans) && Decided(StepOf(s, t, found).threads[t], ans)
    ensures Point(s, Advance(t, found), StepOf(s, t, found), s.threads[t].op, ans)
  {
    SettledWhere(s, t, found, ans);
    StepEffect(s, Advance(t, found));
    if s.threads[t].Locked? { LookSettles(s, t, found, ans); }
  }

  lemma DecisionIsPoint(ss: seq<State>, acts: seq<Action>, t: Tid, i: nat, j: nat, op: Op, ans: bool, m: nat, a: bool)
    requires IsRun(ss, acts) && Call(ss, acts, t, i, j, op, ans) && i < m < j
    requires t < |ss[m].threads| && t < |ss[m + 1].threads|
    requires !Decided(ss[m].threads[t], a) && Decided(ss[m + 1].threads[t], a)
    ensures PointAt(ss, acts, t, m, op, a)
  {
    CallStep(ss, acts, t, i, j, op, ans, m);
    SettlingIsPoint(ss[m], t, acts[m].found, a);
  }

  lemma CallBegins(ss: seq<State>, acts: seq<Action>, t: Tid, i: nat, j: nat, op: Op, ans: bool)
    requires IsRun(ss, acts) && Call(ss, acts, t, i, j, op, ans)
    ensures i + 1 < j && ss[i + 1].threads[t] == WantRead(op)
  {
    RunInv(ss, acts, i);
    RunInv(ss, acts, i + 1);
    assert StepAt(ss, acts, i);
  }

  /** An answer that is not settled at i and settled at m gets settled in between. */
  lemma {:induction false} SettledBetween(ss: seq<State>, t: Tid, i: nat, m: nat, a: bool) returns (x: nat)
    requires i < m < |ss| && forall k :: i <= k <= m ==> t < |ss[k].threads|
    requires !Decided(ss[i].threads[t], a) && Decided(ss[m].threads[t], a)
    ensures i <= x < m && !Decided(ss[x].threads[t], a) && Decided(ss[x + 1].threads[t], a)
  {
    if Decided(ss[m - 1].threads[t], a) {
      x := SettledBetween(ss, t, i, m - 1, a);
    } else {
      x := m - 1;
    }
  }

  /** The main theorem: every completed call takes effect at one step of its own, inside its interval. */
  lemma Linearizable(ss: seq<State>, acts: seq<Action>, t: Tid, i: nat, j: nat, op: Op, ans: bool)
    requires IsRun(ss, acts) && Call(ss, acts, t, i, j, op, ans)
    ensures HasPoint(ss, acts, t, i, j, op, ans)
  {
    CallBegins(ss, acts, t, i, j, op, ans);
    forall k | i < k <= j ensures t < |ss[k].threads| { RunInv(ss, acts, k); }
    var x := SettledBetween(ss, t, i + 1, j, ans);
    DecisionIsPoint(ss, acts, t, i, j, op, ans, x, ans);
  }

  /** Action m changes the multiset. */
  ghost predicate Effective(ss: seq<State>, acts: seq<Action>, m: nat)
    requires IsRun(ss, acts) && m < |acts|
  {
    Inv(ss[m]) && Enabled(ss[m], acts[m]) && EffectOf(ss[m], acts[m]) != Same
  }

  /** A step of a call that changes the multiset is the linearization point of a TRUE insert or remove... */
  lemma EffectIsPoint(ss: seq<State>, acts: seq<Action>, t: Tid, i: nat, j: nat, op: Op, ans: bool, m: nat)
    requires IsRun(ss, acts) && Call(ss, acts, t, i, j, op, ans)
    requires i < m < j && acts[m].t == t && Effective(ss, acts, m)
    ensures ans && PointAt(ss, acts, t, m, op, true)
  {
    EffectMeansTrue(ss, acts, t, i, j, op, ans, m);
    EffectDecides(ss, acts, t, i, j, op, ans, m);
    DecisionIsPoint(ss, acts, t, i, j, op, ans, m, true);
  }

  lemma EffectMeansTrue(ss: seq<State>, acts: seq<Action>, t: Tid, i: nat, j: nat, op: Op, ans: bool, m: nat)
    requires IsRun(ss, acts) && Call(ss, acts, t, i, j, op, ans)
    requires i < m < j && acts[m].t == t && Effective(ss, acts, m)
    ensures ans
  {
    EffectDecides(ss, acts, t, i, j, op, ans, m);
    DecidedStays(ss, acts, t, i, j, op, ans, m + 1, j, true);
  }

  /** ...and no call has two of them. */
  lemma OneEffectPerCall(
      ss: seq<State>, acts: seq<Action>, t: Tid, i: nat, j: nat, op: Op, ans: bool, m: nat, m': nat)
    requires IsRun(ss, acts) && Call(ss, acts, t, i, j, op, ans)
    requires i < m < j && acts[m].t == t && Effective(ss, acts, m)
    requires i < m' < j && acts[m'].t == t && Effective(ss, acts, m')
    ensures m == m'
  {
    if m < m' { NoSecondEffect(ss, acts, t, i, j, op, ans, m, m'); }
    if m' < m { NoSecondEffect(ss, acts, t, i, j, op, ans, m', m); }
  }

  lemma NoSecondEffect(
      ss: seq<State>, acts: seq<Action>, t: Tid, i: nat, j: nat, op: Op, ans: bool, m: nat, m': nat)
    requires IsRun(ss, acts) && Call(ss, acts, t, i, j, op, ans)
    requires i < m < m' < j && acts[m].t == t && acts[m'].t == t && Effective(ss, acts, m)
    ensures !Effective(ss, acts, m')
  {
    EffectDecides(ss, acts, t, i, j, op, ans, m);
    DecidedStays(ss, acts, t, i, j, op, ans, m + 1, m', true);
    if Effective(ss, acts, m') { EffectDecides(ss, acts, t, i, j, op, ans, m'); }
  }

  lemma EffectDecides(ss: seq<State>, acts: seq<Action>, t: Tid, i: nat, j: nat, op: Op, ans: bool, m: nat)
    requires IsRun(ss, acts) && Call(ss, acts, t, i, j, op, ans) && i < m < j && acts[m].t == t
    requires Effective(ss, acts, m)
    ensures t < |ss[m].threads| && t < |ss[m + 1].threads|
    ensures !Decided(ss[m].threads[t], true) && Decided(ss[m + 1].threads[t], true)
  {
    CallStep(ss, acts, t, i, j, op, ans, m);
  }

  lemma {:induction false} DecidedStays(
      ss: seq<State>, acts: seq<Action>, t: Tid, i: nat, j: nat, op: Op, ans: bool, m: nat, x: nat, a: bool)
    requires IsRun(ss, acts) && Call(ss, acts, t, i, j, op, ans) && i < m <= x <= j
    requires t < |ss[m].threads| && Decided(ss[m].threads[t], a)
    ensures t < |ss[x].threads| && Decided(ss[x].threads[t], a)
  {
    if m < x {
      DecidedStays(ss, acts, t, i, j, op, ans, m, x - 1, a);
      CallStep(ss, acts, t, i, j, op, ans, x - 1);
    }
  }

  // ---- a set, when no two inserts of one value overlap ----

  ghost predicate NoOverlap(s: State) {
    forall t, u | 0 <= t < |s.threads| && 0 <= u < |s.threads| && t != u ::
      Active(s.threads[t]) && Active(s.threads[u]) && s.threads[t].op.Insert? ==> s.threads[u].op != s.threads[t].op
  }

  /** The insert has looked under both locks, found nothing, and not gone back to the start since. */
  ghost predicate PastLook(th: Thread) {
    match th
    case Locking(op, phase, _) => !phase.First?
    case Locked(op, phase) => !phase.First?
    case Moved(_, _, _) => true
    case Writing(_, _) => true
    case Searching(_) => true
    case Unlocking(_, _, next) => next.Search? || next.NextHop? || next.Success?
    case _ => false
  }

  ghost predicate AtMostOnce(s: State) {
    forall v :: Mult(s, v) <= 1
  }

  ghost predicate PastLookAbsent(s: State) {
    forall t :: 0 <= t < |s.threads| && PastLook(s.threads[t]) ==> Mult(s, s.threads[t].op.val) == 0
  }

  lemma LookLeadsPast(s: State, t: Tid, found: Found)
    requires Inv(s) && Enabled(s, Advance(t, found)) && s.threads[t].Locked? && s.threads[t].phase.First?
    requires PastLook(FirstLook(s, t, s.threads[t].op).threads[t])
    ensures s.threads[t].op.Insert? && Mult(s, s.threads[t].op.val) == 0
  {
    LookupIsExact(s, t);
  }

  /** A thread is past its look only by the look itself, or because it was already. */
  lemma PastLookFrom(s: State, t: Tid, found: Found)
    requires Inv(s) && Enabled(s, Advance(t, found)) && ThreadOk(s, s.threads[t])
    requires PastLook(StepOf(s, t, found).threads[t])
    ensures StepOf(s, t, found).threads[t].op == s.threads[t].op && !s.threads[t].Writing?
    ensures PastLook(s.threads[t]) || (s.threads[t].Locked? && s.threads[t].phase.First?)
  {
    var th := s.threads[t];
    if th.Locked? { LockedGoesOn(s, t, found); } else { OtherGoesOn(s, t, found); }
  }

  lemma LockedGoesOn(s: State, t: Tid, found: Found)
    requires Inv(s) && Enabled(s, Advance(t, found)) && ThreadOk(s, s.threads[t]) && s.threads[t].Locked?
    ensures Active(StepOf(s, t, found).threads[t]) && StepOf(s, t, found).threads[t].op == s.threads[t].op
  {
    match s.threads[t].phase {
      case First => LookGoesOn(s, t);
      case Direct(_) =>
      case Hop(_, _) =>
    }
  }

  lemma LookGoesOn(s: State, t: Tid)
    requires s.buckets > 0 && t < |s.threads| && s.threads[t].Locked?
    ensures var th' := FirstLook(s, t, s.threads[t].op).threads[t]; Active(th') && th'.op == s.threads[t].op
  {
    match s.threads[t].op {
      case Contains(_) =>
      case Remove(_) =>
      case Insert(_) =>
    }
  }

  lemma OtherGoesOn(s: State, t: Tid, found: Found)
    requires Inv(s) && Enabled(s, Advance(t, found)) && ThreadOk(s, s.threads[t]) && !s.threads[t].Locked?
    requires PastLook(StepOf(s, t, found).threads[t])
    ensures StepOf(s, t, found).threads[t].op == s.threads[t].op && !s.threads[t].Writing?
    ensures PastLook(s.threads[t])
  {
    StepShape(s, t, found);
  }

  lemma PastLookStep(s: State, a: Action, t: Tid)
    requires Inv(s) && Enabled(s, a) && NoOverlap(s) && PastLookAbsent(s) && t < |s.threads|
    requires ThreadOk(s, s.threads[a.t])
    requires t < |Apply(s, a).threads| && PastLook(Apply(s, a).threads[t])
    ensures Mult(Apply(s, a), Apply(s, a).threads[t].op.val) == 0
  {
    StepEffect(s, a);
    if a.t == t {
      PastLookFrom(s, t, a.found);
      if !PastLook(s.threads[t]) { LookLeadsPast(s, t, a.found); }
      AddedByItsInsert(s, a, s.threads[t].op.val);
    } else {
      StepInv(s, a);
      PastLookInserts(s, t);
      AddedByItsInsert(s, a, s.threads[t].op.val);
    }
  }

  lemma AddedByItsInsert(s: State, a: Action, v: int)
    requires Inv(s) && Enabled(s, a)
    ensures EffectOf(s, a) == Added(v) ==>
              a.Advance? && s.threads[a.t].Writing? && s.threads[a.t].op == Insert(v)
  {
    if EffectOf(s, a) == Added(v) { assert ThreadOk(s, s.threads[a.t]); }
  }

  lemma PastLookInserts(s: State, t: Tid)
    requires Inv(s) && t < |s.threads| && PastLook(s.threads[t])
    ensures Active(s.threads[t]) && s.threads[t].op.Insert?
  {
    assert ThreadOk(s, s.threads[t]);
  }

  lemma {:induction false} SetInv(ss: seq<State>, acts: seq<Action>, i: nat)
    requires IsRun(ss, acts) && i < |ss| && AtMostOnce(ss[0])
    requires forall m :: 0 <= m < |ss| ==> NoOverlap(ss[m])
    ensures AtMostOnce(ss[i]) && PastLookAbsent(ss[i])
  {
    if i > 0 {
      SetInv(ss, acts, i - 1);
      RunInv(ss, acts, i - 1);
      assert StepAt(ss, acts, i - 1);
      SetStep(ss[i - 1], acts[i - 1]);
    } else {
      assert forall t :: 0 <= t < |ss[0].threads| ==> !PastLook(ss[0].threads[t]);
    }
  }

  lemma SetStep(s: State, a: Action)
    requires Inv(s) && Enabled(s, a) && ThreadOk(s, s.threads[a.t])
    requires NoOverlap(s) && AtMostOnce(s) && PastLookAbsent(s)
    ensures AtMostOnce(Apply(s, a)) && PastLookAbsent(Apply(s, a))
  {
    var s' := Apply(s, a);
    StepInv(s, a);
    forall t | 0 <= t < |s'.threads| && PastLook(s'.threads[t]) ensures Mult(s', s'.threads[t].op.val) == 0 {
      PastLookStep(s, a, t);
    }
    forall v ensures Mult(s', v) <= 1 { StillAtMostOnce(s, a, v); }
  }

  lemma StillAtMostOnce(s: State, a: Action, v: int)
    requires Inv(s) && Enabled(s, a) && ThreadOk(s, s.threads[a.t]) && AtMostOnce(s) && PastLookAbsent(s)
    ensures Mult(Apply(s, a), v) <= 1
  {
    StepEffect(s, a);
    assert Mult(s, v) <= 1;
    if EffectOf(s, a) == Added(v) { assert PastLook(s.threads[a.t]); }
  }

  /** If no two inserts of one value overlap, no value is ever stored twice, and a TRUE insert found it absent. */
  lemma SetWhenInsertsDoNotOverlap(
      ss: seq<State>, acts: seq<Action>, t: Tid, i: nat, j: nat, v: int, ans: bool, m: nat)
    requires IsRun(ss, acts) && AtMostOnce(ss[0]) && (forall x :: 0 <= x < |ss| ==> NoOverlap(ss[x]))
    requires Call(ss, acts, t, i, j, Insert(v), ans)
    requires i < m < j && PointAt(ss, acts, t, m, Insert(v), ans)
    ensures forall x, w :: 0 <= x < |ss| ==> Mult(ss[x], w) <= 1
    ensures ans <==> Mult(ss[m], v) == 0
  {
    forall x, w | 0 <= x < |ss| ensures Mult(ss[x], w) <= 1 { SetInv(ss, acts, x); }
    SetInv(ss, acts, m);
    SetInv(ss, acts, m + 1);
    CallStep(ss, acts, t, i, j, Insert(v), ans, m);
    if ans { assert Mult(ss[m + 1], v) == Mult(ss[m], v) + 1; }
  }

  // ---- locks ----

  ghost function Owned(s: State, t: Tid): set<nat> {
    set x | x in s.locks && s.locks[x] == t
  }

  ghost predicate OutsideBuckets(th: Thread) {
    || th.Idle? || th.WantRead? || th.Searching? || th.UnlockGlobal? || th.WantWrite? || th.Resizing? || th.Returned?
  }

  /** A successful inner insert exits holding exactly idx1 and idx2; outside the bucket phases a thread holds none. */
  lemma LocksAtExits(ss: seq<State>, acts: seq<Action>, i: nat, t: Tid)
    requires IsRun(ss, acts) && i < |ss| && t < |ss[i].threads|
    ensures var s, th := ss[i], ss[i].threads[t];
            && (th.Writing? ==> s.buckets > 0 && Owned(s, t) == {H(s, th.op.val, 1), H(s, th.op.val, 2)})
            && (OutsideBuckets(th) ==> Owned(s, t) == {})
            && (th.Locking? && th.k == 0 ==> Owned(s, t) == {})
  {
    RunInv(ss, acts, i);
    var s, th := ss[i], ss[i].threads[t];
    assert ThreadOk(s, th);
    forall x ensures x in Owned(s, t) <==> x in Held(s, th) { assert HolderOk(s, t, x); }
    if th.Locking? && th.k == 0 { assert PhaseLocks(th.op, th.phase, s.buckets)[..0] == []; }
  }

  /** Locks of one phase are taken in strictly ascending order, so no thread waits for a lock it owns. */
  lemma TakesAscending(ss: seq<State>, acts: seq<Action>, i: nat, t: Tid)
    requires IsRun(ss, acts) && i < |ss| && t < |ss[i].threads| && ss[i].threads[t].Locking?
    ensures var s, th := ss[i], ss[i].threads[t];
            && ThreadOk(s, th)
            && (forall x :: x in Owned(s, t) ==> x < PhaseLocks(th.op, th.phase, s.buckets)[th.k])
  {
    RunInv(ss, acts, i);
    NextAbovesHeld(ss[i], t);
  }

  lemma NextAbovesHeld(s: State, t: Tid)
    requires Inv(s) && t < |s.threads| && s.threads[t].Locking?
    ensures ThreadOk(s, s.threads[t])
    ensures var th := s.threads[t];
            forall x :: x in Owned(s, t) ==> x < PhaseLocks(th.op, th.phase, s.buckets)[th.k]
  {
    var th := s.threads[t];
    assert ThreadOk(s, th);
    PhaseLocksOk(th.op, th.phase, s.buckets);
    forall x | x in Owned(s, t) ensures x < PhaseLocks(th.op, th.phase, s.buckets)[th.k] {
      assert HolderOk(s, t, x);
    }
  }

  /** The thread has a next step and need not wait for it. */
  ghost predicate CanMove(s: State, t: Tid) {
    Enabled(s, Advance(t, NoPath))
  }

  /** Following the owner of the lock one waits for leads upward, to a thread that can move. */
  lemma {:induction false} OwnerChain(s: State, t: Tid) returns (u: Tid)
    requires Inv(s) && t < |s.threads| && s.threads[t].Locking? && Blocked(s, t)
    requires ThreadOk(s, s.threads[t])
    ensures CanMove(s, u) && !s.threads[u].WantRead?
    decreases s.buckets - PhaseLocks(s.threads[t].op, s.threads[t].phase, s.buckets)[s.threads[t].k]
  {
    var th := s.threads[t];
    var x := PhaseLocks(th.op, th.phase, s.buckets)[th.k];
    u := s.locks[x];
    assert HolderOk(s, u, x) && ThreadOk(s, s.threads[u]);
    if Blocked(s, u) {
      NextAbovesHeld(s, u);
      assert x in Owned(s, u);
      var y := PhaseLocks(s.threads[u].op, s.threads[u].phase, s.buckets)[s.threads[u].k];
      PhaseLocksInRange(s, s.threads[u].op, s.threads[u].phase, y);
      u := OwnerChain(s, u);
    }
  }

  /** No deadlock: as long as some call is under way, some thread can take its next step. */
  lemma DeadlockFree(ss: seq<State>, acts: seq<Action>, i: nat, t: Tid)
    requires IsRun(ss, acts) && i < |ss| && t < |ss[i].threads| && Active(ss[i].threads[t])
    ensures exists u: nat :: CanMove(ss[i], u)
  {
    var s := ss[i];
    RunInv(ss, acts, i);
    var u := SomeoneMoves(s, t);
  }

  lemma SomeoneMoves(s: State, t: Tid) returns (u: Tid)
    requires Inv(s) && t < |s.threads| && Active(s.threads[t])
    ensures CanMove(s, u)
  {
    u := t;
    assert ThreadOk(s, s.threads[t]);
    if Blocked(s, t) {
      if s.threads[t].Locking? {
        u := OwnerChain(s, t);
      } else if s.writer.By? {
        u := s.writer.t;
      } else {
        u :| u in s.readers;
        assert ThreadOk(s, s.threads[u]);
        if Blocked(s, u) { u := OwnerChain(s, u); }
      }
    }
  }

  /**
   The same with writers preferred: even if a waiting resize holds back new readers, some thread
   that is not itself asking for the global read lock can move.
   */
  lemma DeadlockFreeWithWriterPreference(ss: seq<State>, acts: seq<Action>, i: nat, w: Tid)
    requires IsRun(ss, acts) && i < |ss| && w < |ss[i].threads| && ss[i].threads[w].WantWrite?
    ensures exists u: nat :: CanMove(ss[i], u) && !ss[i].threads[u].WantRead?
  {
    var s := ss[i];
    RunInv(ss, acts, i);
    var u := w;
    if Blocked(s, w) {
      if s.writer.By? {
        u := s.writer.t;
      } else {
        u :| u in s.readers;
        assert ThreadOk(s, s.threads[u]);
        if Blocked(s, u) {
          u := OwnerChain(s, u);
        }
      }
    }
    assert CanMove(s, u) && !s.threads[u].WantRead?;
  }
}
