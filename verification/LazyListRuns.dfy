/**
 Whole runs of the lazy list: every interleaving of any number of threads is linearizable.
 Each completed call has a moment inside its own interval at which its answer is the right one for
 the abstract set, and the set changes at no other moments than those of the successful updates.
 */
module LazyListRuns {
  import opened LazyListHeap
  import opened LazyList

  ghost predicate StepAt(ss: seq<State>, acts: seq<Action>, i: nat)
    requires |ss| == |acts| + 1 && i < |acts|
  {
    Safe(ss[i]) && Enabled(ss[i], acts[i]) && ss[i + 1] == Apply(ss[i], acts[i])
  }

  ghost predicate IsRun(ss: seq<State>, acts: seq<Action>) {
    && |ss| == |acts| + 1
    && Init(ss[0])
    && forall i :: 0 <= i < |acts| ==> StepAt(ss, acts, i)
  }

  lemma {:induction false} RunInv(ss: seq<State>, acts: seq<Action>, i: nat)
    requires IsRun(ss, acts) && i < |ss|
    ensures Inv(ss[i]) && |ss[i].threads| == |ss[0].threads|
  {
    if i == 0 {
      InitInv(ss[0]);
    } else {
      RunInv(ss, acts, i - 1);
      assert StepAt(ss, acts, i - 1);
      StepInv(ss[i - 1], acts[i - 1]);
    }
  }

  /** In every reachable state every enabled action can be taken: no pointer is followed out of the heap. */
  lemma NoBadDereference(ss: seq<State>, acts: seq<Action>, a: Action)
    requires IsRun(ss, acts) && Enabled(ss[|acts|], a)
    ensures Safe(ss[|acts|])
    ensures IsRun(ss + [Apply(ss[|acts|], a)], acts + [a])
  {
    RunInv(ss, acts, |acts|);
    var ss', acts' := ss + [Apply(ss[|acts|], a)], acts + [a];
    forall i | 0 <= i < |acts'| ensures StepAt(ss', acts', i) {
      if i < |acts| { assert StepAt(ss, acts, i); }
    }
  }

  // ---- the structural invariant, read off every reachable state ----

  /**
   Keys strictly increase along `next` from every node ever allocated, every chain ends in the tail,
   the nodes reachable from the head that are not marked carry exactly the keys of the set, each
   once, and a marked node is reachable only while its remover stands between lines 44 and 45.
   */
  lemma ReachableStateShape(ss: seq<State>, acts: seq<Action>, i: nat)
    requires IsRun(ss, acts) && i < |ss|
    ensures HeapOk(ss[i].heap)
    ensures forall n :: 0 <= n < |ss[i].heap| ==> Reach(ss[i].heap, n, TAIL)
    ensures forall n :: 0 <= n < |ss[i].heap| && !ss[i].heap[n].marked ==> Reach(ss[i].heap, HEAD, n)
    ensures forall n, m | 2 <= n < |ss[i].heap| && 2 <= m < |ss[i].heap| ::
              !ss[i].heap[n].marked && !ss[i].heap[m].marked && ss[i].heap[n].key == ss[i].heap[m].key ==> n == m
    ensures forall n :: 0 <= n < |ss[i].heap| && ss[i].heap[n].marked && Reach(ss[i].heap, HEAD, n) ==>
              exists t :: 0 <= t < |ss[i].threads| && Unlinking(ss[i].threads[t], n)
  {
    RunInv(ss, acts, i);
    var h := ss[i].heap;
    forall n | 0 <= n < |h| ensures Reach(h, n, TAIL) { ReachTail(h, n); }
    forall n | 0 <= n < |h|
      ensures !h[n].marked ==> Reach(h, HEAD, n)
      ensures h[n].marked && Reach(h, HEAD, n) ==>
                exists t :: 0 <= t < |ss[i].threads| && Unlinking(ss[i].threads[t], n)
    {
      assert NodeOk(ss[i], n);
    }
    forall n, m | 2 <= n < |h| && 2 <= m < |h| && !h[n].marked && !h[m].marked && h[n].key == h[m].key
      ensures n == m
    {
      assert NodeOk(ss[i], n) && NodeOk(ss[i], m);
      SameKeySameNode(h, HEAD, n, m);
    }
  }

  // ---- calls and their linearization points ----

  ghost predicate InCall(th: Thread, op: Op) {
    match th
    case Reading(k, _) => op == Contains(k)
    case Updating(o, _, _, _) => op == o
    case _ => false
  }

  /** Thread t invokes op by action i and is first seen with its answer in state j. */
  ghost predicate Call(ss: seq<State>, acts: seq<Action>, t: Tid, i: nat, j: nat, op: Op, ans: Answer)
    requires IsRun(ss, acts)
  {
    && i < j < |ss| && t < |ss[0].threads|
    && acts[i] == Invoke(t, op)
    && (forall m :: i < m < j ==> t < |ss[m].threads| && InCall(ss[m].threads[t], op))
    && t < |ss[j].threads| && ss[j].threads[t] == Returned(op, ans)
  }

  /** At state m the answer is the one a sequential set would give; a TRUE update is the step from m. */
  ghost predicate PointAt(ss: seq<State>, acts: seq<Action>, t: Tid, m: nat, op: Op, ans: Answer)
    requires |ss| == |acts| + 1 && m < |acts|
  {
    var before, after := Keys(ss[m].heap), Keys(ss[m + 1].heap);
    match op
    case Contains(k) => ans != ABORT_FAILURE && (ans == TRUE <==> k in before)
    case Add(k, _) =>
      (match ans
       case TRUE => acts[m] == Advance(t) && k !in before && after == before + {k}
       case FALSE => k in before
       case ABORT_FAILURE => true)
    case Remove(k) =>
      (match ans
       case TRUE => acts[m] == Advance(t) && k in before && after == before - {k}
       case FALSE => k !in before
       case ABORT_FAILURE => true)
  }

  /** The thread of a running call only moves by its own Advance steps. */
  lemma CallStep(ss: seq<State>, acts: seq<Action>, t: Tid, i: nat, j: nat, op: Op, ans: Answer, m: nat)
    requires IsRun(ss, acts) && Call(ss, acts, t, i, j, op, ans) && i < m < j
    ensures Inv(ss[m]) && Inv(ss[m + 1]) && |ss[m].threads| == |ss[m + 1].threads| == |ss[0].threads|
    ensures Enabled(ss[m], acts[m]) && ss[m + 1] == Apply(ss[m], acts[m])
    ensures acts[m].t == t ==> acts[m] == Advance(t)
    ensures acts[m].t != t ==> ss[m + 1].threads[t] == ss[m].threads[t]
    ensures ThreadOk(ss[m].heap, ss[m].threads[t])
  {
    RunInv(ss, acts, m);
    RunInv(ss, acts, m + 1);
    assert StepAt(ss, acts, m);
    assert InCall(ss[m].threads[t], op);
  }

  lemma CallBegins(ss: seq<State>, acts: seq<Action>, t: Tid, i: nat, j: nat, op: Op, ans: Answer)
    requires IsRun(ss, acts) && Call(ss, acts, t, i, j, op, ans)
    ensures i + 1 < j && ss[i + 1].threads[t] == Begin(op) && ValidOp(op)
  {
    RunInv(ss, acts, i);
    assert StepAt(ss, acts, i);
  }

  // ---- contains: the hindsight argument ----

  /** An unmarked node with key k is still ahead of `runner`. */
  ghost predicate OnPath(h: Heap, runner: nat, k: int)
    requires HeapOk(h) && runner < |h|
  {
    exists n :: 0 <= n < |h| && !h[n].marked && h[n].key == k && Reach(h, runner, n)
  }

  ghost predicate SeenAbsent(ss: seq<State>, i: nat, m: nat, k: int)
    requires m < |ss|
  {
    exists x :: i < x <= m && k !in Keys(ss[x].heap)
  }

  ghost predicate SameNodes(h: Heap, h': Heap) {
    |h| == |h'| && forall n :: 0 <= n < |h| ==> h'[n] == h[n].(lock := h'[n].lock)
  }

  lemma NodesKept(s: State, a: Action)
    requires Inv(s) && Enabled(s, a) && !(a.Advance? && WritesNode(s.threads[a.t]))
    ensures SameNodes(s.heap, Apply(s, a).heap)
  {
    if a.Advance? { LinesKeepNodes(s.heap, a.t, s.threads[a.t]); }
  }

  lemma LinesKeepNodes(h: Heap, t: Tid, th: Thread)
    requires HeapOk(h) && ThreadOk(h, th) && (th.Reading? || th.Updating?) && !WritesNode(th)
    ensures SameNodes(h, StepOf(h, t, th).0)
  {
    if th.Updating? && !TouchesLock(th.line) { assert StepOf(h, t, th).0 == h; }
  }

  /** As long as k stays in the set, no step of any thread can hide it from a traversal. */
  lemma OnPathKept(s: State, a: Action, runner: nat, k: int)
    requires Inv(s) && Enabled(s, a) && UserKey(k) && runner < |s.heap|
    requires OnPath(s.heap, runner, k)
    requires k in Keys(Apply(s, a).heap)
    ensures runner < |Apply(s, a).heap| && HeapOk(Apply(s, a).heap)
    ensures OnPath(Apply(s, a).heap, runner, k)
  {
    var h := s.heap;
    StepInv(s, a);
    var n :| 0 <= n < |h| && !h[n].marked && h[n].key == k && Reach(h, runner, n);
    if a.Advance? && WritesNode(s.threads[a.t]) {
      WriteKeepsPath(s, a.t, runner, n);
    } else {
      NodesKept(s, a);
      ReachSameLinks(h, Apply(s, a).heap, runner, n);
      var h' := Apply(s, a).heap;
      assert !h'[n].marked && h'[n].key == k && Reach(h', runner, n);
    }
  }

  lemma WriteKeepsPath(s: State, t: Tid, runner: nat, n: nat)
    requires Inv(s) && t < |s.threads| && WritesNode(s.threads[t])
    requires HeapOk(Apply(s, Advance(t)).heap)
    requires runner < |s.heap| && n < |s.heap| && !s.heap[n].marked && Reach(s.heap, runner, n)
    requires s.heap[n].key in Keys(Apply(s, Advance(t)).heap)
    ensures OnPath(Apply(s, Advance(t)).heap, runner, s.heap[n].key)
  {
    var h, h', th := s.heap, Apply(s, Advance(t)).heap, s.threads[t];
    assert ThreadOk(h, th);
    match th.line {
      case Mark =>
        MarkStep(s, t);
        assert n != th.runner;
        ReachSameLinks(h, h', runner, n);
      case Unlink(succ) =>
        ReachUnlinked(h, th.pred, th.runner, runner, n);
      case Link =>
        assert LinkOk(h, th.pred);
        ReachLinked(h, th.pred, th.op.key, th.op.val, runner, n);
    }
    assert !h'[n].marked && h'[n].key == h[n].key && Reach(h', runner, n);
  }

  /** One step of some thread, seen by a traversal that stands at `ss[m].threads[t].runner`. */
  lemma TraversalStep(ss: seq<State>, acts: seq<Action>, t: Tid, i: nat, j: nat, k: int, ans: Answer, m: nat)
    requires IsRun(ss, acts) && Call(ss, acts, t, i, j, Contains(k), ans) && UserKey(k)
    requires i < m < j - 1 && t < |ss[m].threads| && ss[m].threads[t].Reading? && ss[m].threads[t].key == k
    requires HeapOk(ss[m].heap) && ss[m].threads[t].runner < |ss[m].heap|
    requires OnPath(ss[m].heap, ss[m].threads[t].runner, k)
    requires k in Keys(ss[m + 1].heap)
    ensures t < |ss[m + 1].threads| && ss[m + 1].threads[t].Reading?
    ensures HeapOk(ss[m + 1].heap) && ss[m + 1].threads[t].runner < |ss[m + 1].heap|
    ensures OnPath(ss[m + 1].heap, ss[m + 1].threads[t].runner, k)
  {
    CallStep(ss, acts, t, i, j, Contains(k), ans, m);
    assert InCall(ss[m + 1].threads[t], Contains(k));
    var h, r := ss[m].heap, ss[m].threads[t].runner;
    if acts[m].t == t {
      assert LinkOk(h, r);
      var n :| 0 <= n < |h| && !h[n].marked && h[n].key == k && Reach(h, r, n);
      assert Reach(h, h[r].next, n);
    } else {
      OnPathKept(ss[m], acts[m], r, k);
    }
  }

  lemma {:induction false} Hindsight(
      ss: seq<State>, acts: seq<Action>, t: Tid, i: nat, j: nat, k: int, ans: Answer, m: nat)
    requires IsRun(ss, acts) && Call(ss, acts, t, i, j, Contains(k), ans) && UserKey(k)
    requires i < m < j
    ensures Inv(ss[m]) && t < |ss[m].threads| && ss[m].threads[t].Reading?
    ensures ss[m].threads[t].runner < |ss[m].heap| && ss[m].threads[t].key == k
    ensures SeenAbsent(ss, i, m, k) || OnPath(ss[m].heap, ss[m].threads[t].runner, k)
  {
    RunInv(ss, acts, m);
    assert InCall(ss[m].threads[t], Contains(k));
    assert ThreadOk(ss[m].heap, ss[m].threads[t]);
    if m == i + 1 {
      CallBegins(ss, acts, t, i, j, Contains(k), ans);
      if k in Keys(ss[m].heap) {
        var n :| 2 <= n < |ss[m].heap| && !ss[m].heap[n].marked && ss[m].heap[n].key == k;
        assert NodeOk(ss[m], n);
        assert OnPath(ss[m].heap, HEAD, k);
      } else {
        assert SeenAbsent(ss, i, m, k);
      }
    } else {
      Hindsight(ss, acts, t, i, j, k, ans, m - 1);
      if SeenAbsent(ss, i, m - 1, k) {
        var x :| i < x <= m - 1 && k !in Keys(ss[x].heap);
        assert SeenAbsent(ss, i, m, k);
      } else if k in Keys(ss[m].heap) {
        TraversalStep(ss, acts, t, i, j, k, ans, m - 1);
      } else {
        assert SeenAbsent(ss, i, m, k);
      }
    }
  }

  /**
   Every `contains` answer is right at some moment of the call, even when the traversal walked
   through nodes that were marked and unlinked under it.
   */
  lemma ContainsLinearizes(ss: seq<State>, acts: seq<Action>, t: Tid, i: nat, j: nat, k: int, ans: Answer)
    requires IsRun(ss, acts) && Call(ss, acts, t, i, j, Contains(k), ans) && UserKey(k)
    ensures ans != ABORT_FAILURE
    ensures exists m :: i < m < j && (ans == TRUE <==> k in Keys(ss[m].heap))
  {
    CallBegins(ss, acts, t, i, j, Contains(k), ans);
    var m := j - 1;
    Hindsight(ss, acts, t, i, j, k, ans, m);
    CallStep(ss, acts, t, i, j, Contains(k), ans, m);
    var h, r := ss[m].heap, ss[m].threads[t].runner;
    if ans == TRUE {
      assert 2 <= r && !h[r].marked && h[r].key == k;
      assert k in Keys(h);
    } else if OnPath(h, r, k) {
      var n :| 0 <= n < |h| && !h[n].marked && h[n].key == k && Reach(h, r, n);
      ReachKey(h, r, n);
      assert false;
    } else {
      var x :| i < x <= m && k !in Keys(ss[x].heap);
      assert i < x < j && (ans == TRUE <==> k in Keys(ss[x].heap));
    }
  }

  /** At a sentinel key the answer says nothing about the set: it is always TRUE. */
  lemma ContainsSentinel(ss: seq<State>, acts: seq<Action>, t: Tid, i: nat, j: nat, k: int, ans: Answer)
    requires IsRun(ss, acts) && Call(ss, acts, t, i, j, Contains(k), ans)
    requires k == INT_MIN || k == INT_MAX
    ensures ans == TRUE && k !in Keys(ss[j].heap)
  {
    CallBegins(ss, acts, t, i, j, Contains(k), ans);
    var m := j - 1;
    CallStep(ss, acts, t, i, j, Contains(k), ans, m);
    assert InCall(ss[m].threads[t], Contains(k));
    var h, r := ss[m].heap, ss[m].threads[t].runner;
    if k == INT_MIN { AtHead(ss, acts, t, i, j, ans, m); }
    assert forall n :: 2 <= n < |h| ==> UserKey(h[n].key);
    RunInv(ss, acts, j);
  }

  lemma {:induction false} AtHead(ss: seq<State>, acts: seq<Action>, t: Tid, i: nat, j: nat, ans: Answer, m: nat)
    requires IsRun(ss, acts) && Call(ss, acts, t, i, j, Contains(INT_MIN), ans)
    requires i < m < j
    ensures t < |ss[m].threads| && ss[m].threads[t] == Reading(INT_MIN, HEAD)
  {
    if m == i + 1 {
      CallBegins(ss, acts, t, i, j, Contains(INT_MIN), ans);
    } else {
      AtHead(ss, acts, t, i, j, ans, m - 1);
      CallStep(ss, acts, t, i, j, Contains(INT_MIN), ans, m - 1);
      assert InCall(ss[m].threads[t], Contains(INT_MIN));
    }
  }

  // ---- add and remove ----

  /** The answer this program point is already committed to, if any. */
  ghost function Verdict(th: Thread): Answer {
    match th
    case Updating(_, line, _, _) =>
      (match line
       case ReadNext => TRUE
       case Unlink(_) => TRUE
       case UnlockPred(ans) => ans
       case UnlockRunner(ans) => ans
       case _ => ABORT_FAILURE)
    case Returned(_, ans) => ans
    case _ => ABORT_FAILURE
  }

  ghost predicate HasPoint(
      ss: seq<State>, acts: seq<Action>, t: Tid, i: nat, m: nat, op: Op, ans: Answer)
    requires |ss| == |acts| + 1 && m <= |acts|
  {
    exists x :: i < x < m && PointAt(ss, acts, t, x, op, ans)
  }

  /** A step of t that reaches a verdict is itself the linearization point. */
  lemma VerdictReached(ss: seq<State>, acts: seq<Action>, t: Tid, i: nat, j: nat, op: Op, ans: Answer, m: nat)
    requires IsRun(ss, acts) && Call(ss, acts, t, i, j, op, ans) && !op.Contains? && i < m < j
    requires t < |ss[m].threads| && Verdict(ss[m].threads[t]) == ABORT_FAILURE
    ensures t < |ss[m + 1].threads|
    ensures Verdict(ss[m + 1].threads[t]) != ABORT_FAILURE ==>
              PointAt(ss, acts, t, m, op, Verdict(ss[m + 1].threads[t]))
  {
    CallStep(ss, acts, t, i, j, op, ans, m);
    var s, th := ss[m], ss[m].threads[t];
    assert InCall(th, op);
    if Verdict(ss[m + 1].threads[t]) == ABORT_FAILURE {
    } else if th.line.Mark? {
      MarkStep(s, t);
    } else if th.line.Link? {
      LinkStep(s, t);
    } else {
      assert th.line.CheckRunner?;
      var r := th.runner;
      if s.heap[r].key == op.key {
        assert 2 <= r && !s.heap[r].marked;
        assert op.key in Keys(s.heap);
      } else {
        assert LinkOk(s.heap, th.pred);
        AbsentInState(s, th.pred, op.key);
      }
    }
  }

  lemma VerdictStep(h: Heap, t: Tid, th: Thread)
    requires HeapOk(h) && ThreadOk(h, th) && th.Updating? && Verdict(th) != ABORT_FAILURE
    ensures Verdict(StepOf(h, t, th).1) == Verdict(th)
  {
  }

  /** A verdict once reached stays. */
  lemma VerdictKept(ss: seq<State>, acts: seq<Action>, t: Tid, i: nat, j: nat, op: Op, ans: Answer, m: nat)
    requires IsRun(ss, acts) && Call(ss, acts, t, i, j, op, ans) && !op.Contains? && i < m < j
    requires t < |ss[m].threads| && Verdict(ss[m].threads[t]) != ABORT_FAILURE
    ensures t < |ss[m + 1].threads| && Verdict(ss[m + 1].threads[t]) == Verdict(ss[m].threads[t])
  {
    CallStep(ss, acts, t, i, j, op, ans, m);
    assert InCall(ss[m].threads[t], op);
    if acts[m].t == t { VerdictStep(ss[m].heap, t, ss[m].threads[t]); }
  }

  lemma {:induction false} VerdictHasPoint(
      ss: seq<State>, acts: seq<Action>, t: Tid, i: nat, j: nat, op: Op, ans: Answer, m: nat)
    requires IsRun(ss, acts) && Call(ss, acts, t, i, j, op, ans) && !op.Contains? && i < m <= j
    ensures t < |ss[m].threads|
    ensures Verdict(ss[m].threads[t]) != ABORT_FAILURE ==>
              HasPoint(ss, acts, t, i, m, op, Verdict(ss[m].threads[t]))
  {
    if m == i + 1 {
      CallBegins(ss, acts, t, i, j, op, ans);
    } else {
      VerdictHasPoint(ss, acts, t, i, j, op, ans, m - 1);
      if Verdict(ss[m - 1].threads[t]) != ABORT_FAILURE {
        VerdictKept(ss, acts, t, i, j, op, ans, m - 1);
        var x :| i < x < m - 1 && PointAt(ss, acts, t, x, op, Verdict(ss[m].threads[t]));
      } else {
        VerdictReached(ss, acts, t, i, j, op, ans, m - 1);
      }
    }
  }

  /** The main theorem: every completed call on a user key has a linearization point inside its interval. */
  lemma Linearizable(ss: seq<State>, acts: seq<Action>, t: Tid, i: nat, j: nat, op: Op, ans: Answer)
    requires IsRun(ss, acts) && Call(ss, acts, t, i, j, op, ans) && UserKey(op.key)
    ensures exists m :: i < m < j && PointAt(ss, acts, t, m, op, ans)
  {
    CallBegins(ss, acts, t, i, j, op, ans);
    if op.Contains? {
      ContainsLinearizes(ss, acts, t, i, j, op.key, ans);
      var m :| i < m < j && (ans == TRUE <==> op.key in Keys(ss[m].heap));
      assert PointAt(ss, acts, t, m, op, ans);
    } else if ans == ABORT_FAILURE {
      assert PointAt(ss, acts, t, i + 1, op, ans);
    } else {
      VerdictHasPoint(ss, acts, t, i, j, op, ans, j);
    }
  }

  // ---- the set changes at those points and nowhere else ----

  /** A thread that has written a node is bound to answer TRUE. */
  lemma {:induction false} CommittedStays(
      ss: seq<State>, acts: seq<Action>, t: Tid, i: nat, j: nat, op: Op, ans: Answer, m: nat, x: nat)
    requires IsRun(ss, acts) && Call(ss, acts, t, i, j, op, ans) && i < m <= x <= j
    requires t < |ss[m].threads| && Verdict(ss[m].threads[t]) == TRUE && !op.Contains?
    ensures t < |ss[x].threads| && Verdict(ss[x].threads[t]) == TRUE
  {
    if m < x {
      CommittedStays(ss, acts, t, i, j, op, ans, m, x - 1);
      VerdictKept(ss, acts, t, i, j, op, ans, x - 1);
    }
  }

  ghost predicate SetChanges(ss: seq<State>, m: nat)
    requires m + 1 < |ss|
  {
    Keys(ss[m + 1].heap) != Keys(ss[m].heap)
  }

  /** Only a Mark or a Link step changes the set. */
  lemma OnlyUpdatesChangeSet(ss: seq<State>, acts: seq<Action>, m: nat)
    requires IsRun(ss, acts) && m < |acts| && SetChanges(ss, m)
    ensures acts[m].Advance? && acts[m].t < |ss[m].threads| && ChangesSet(ss[m].threads[acts[m].t])
  {
    RunInv(ss, acts, m);
    assert StepAt(ss, acts, m);
    StepInv(ss[m], acts[m]);
  }

  /** The step of a call that changes the set is its linearization point and settles its answer. */
  lemma ChangeCommits(ss: seq<State>, acts: seq<Action>, t: Tid, i: nat, j: nat, op: Op, ans: Answer, m: nat)
    requires IsRun(ss, acts) && Call(ss, acts, t, i, j, op, ans) && i < m < j && acts[m].t == t && SetChanges(ss, m)
    ensures t < |ss[m].threads| == |ss[m + 1].threads|
    ensures Verdict(ss[m].threads[t]) == ABORT_FAILURE && Verdict(ss[m + 1].threads[t]) == TRUE
    ensures !op.Contains? && PointAt(ss, acts, t, m, op, TRUE)
  {
    OnlyUpdatesChangeSet(ss, acts, m);
    CallStep(ss, acts, t, i, j, op, ans, m);
    assert InCall(ss[m].threads[t], op);
    VerdictReached(ss, acts, t, i, j, op, ans, m);
  }

  /**
   A call changes the set exactly once when it is a TRUE `add` or `remove`, at its linearization
   point, and never otherwise.
   */
  lemma SetChangesOnlyAtPoints(
      ss: seq<State>, acts: seq<Action>, t: Tid, i: nat, j: nat, op: Op, ans: Answer, m: nat, m': nat)
    requires IsRun(ss, acts) && Call(ss, acts, t, i, j, op, ans)
    requires i < m < j && acts[m].t == t && SetChanges(ss, m)
    requires i < m' < j && acts[m'].t == t && SetChanges(ss, m')
    ensures ans == TRUE && !op.Contains? && PointAt(ss, acts, t, m, op, TRUE)
    ensures m == m'
  {
    ChangeCommits(ss, acts, t, i, j, op, ans, m);
    ChangeCommits(ss, acts, t, i, j, op, ans, m');
    CommittedStays(ss, acts, t, i, j, op, ans, m + 1, j);
    if m < m' { CommittedStays(ss, acts, t, i, j, op, ans, m + 1, m'); }
    if m' < m { CommittedStays(ss, acts, t, i, j, op, ans, m' + 1, m); }
  }

  /** A call that aborts, or answers FALSE, or only reads, writes nothing but lock words. */
  lemma UnsuccessfulCallWritesNoNode(
      ss: seq<State>, acts: seq<Action>, t: Tid, i: nat, j: nat, op: Op, ans: Answer, m: nat)
    requires IsRun(ss, acts) && Call(ss, acts, t, i, j, op, ans)
    requires ans != TRUE || op.Contains?
    requires i < m < j && acts[m].t == t
    ensures SameNodes(ss[m].heap, ss[m + 1].heap)
  {
    CallStep(ss, acts, t, i, j, op, ans, m);
    assert InCall(ss[m].threads[t], op);
    if WritesNode(ss[m].threads[t]) {
      CommittedStays(ss, acts, t, i, j, op, ans, m + 1, j);
    } else {
      NodesKept(ss[m], acts[m]);
    }
  }

  /** No step changes a node's key or value, and a new node has those of the `add` that links it. */
  lemma ValuesComeFromAdds(ss: seq<State>, acts: seq<Action>, m: nat)
    requires IsRun(ss, acts) && m < |acts|
    ensures |ss[m].heap| <= |ss[m + 1].heap| <= |ss[m].heap| + 1
    ensures forall n :: 0 <= n < |ss[m].heap| ==>
              ss[m + 1].heap[n].key == ss[m].heap[n].key && ss[m + 1].heap[n].val == ss[m].heap[n].val
    ensures |ss[m + 1].heap| > |ss[m].heap| ==>
              && acts[m].t < |ss[m].threads| && ss[m].threads[acts[m].t].Updating?
              && var op, node := ss[m].threads[acts[m].t].op, ss[m + 1].heap[|ss[m].heap|];
              && op == Add(node.key, node.val) && !node.marked
  {
    RunInv(ss, acts, m);
    assert StepAt(ss, acts, m);
    assert acts[m].t < |ss[m].threads| ==> ThreadOk(ss[m].heap, ss[m].threads[acts[m].t]);
  }

  /** Lock words: at most one holder, and a thread whose call has ended holds none. */
  lemma LocksInEveryRun(ss: seq<State>, acts: seq<Action>, i: nat, n: nat, t: Tid, u: Tid)
    requires IsRun(ss, acts) && i < |ss| && n < |ss[i].heap|
    requires t < |ss[i].threads| && u < |ss[i].threads|
    ensures Holds(ss[i].threads[t], n) && Holds(ss[i].threads[u], n) ==> t == u
    ensures ss[i].threads[t].Idle? || ss[i].threads[t].Returned? ==> ss[i].heap[n].lock != HeldBy(t)
  {
    RunInv(ss, acts, i);
  }
}
