/**
 When an update of the lazy list gives up: exactly if it asks for the lock of one of its two nodes
 while another thread holds it.
 */
module LazyListAborts {
  import opened LazyListHeap
  import opened LazyList
  import opened LazyListRuns

  /** Thread t is about to try the lock of node n, which thread u holds. */
  ghost predicate FindsHeld(s: State, t: Tid, n: nat, u: Tid) {
    && t < |s.threads| && s.threads[t].Updating? && n < |s.heap| && s.heap[n].lock == HeldBy(u) && u != t
    && ((s.threads[t].line.LockPred? && n == s.threads[t].pred)
        || (s.threads[t].line.LockRunner? && n == s.threads[t].runner))
  }

  /** Action m is a step of thread t that finds such a lock. */
  ghost predicate FindsHeldAt(ss: seq<State>, acts: seq<Action>, t: Tid, m: nat)
    requires |ss| == |acts| + 1 && m < |acts|
  {
    acts[m] == Advance(t) && exists n: nat, u: Tid :: FindsHeld(ss[m], t, n, u)
  }

  ghost predicate Aborting(th: Thread) {
    (th.Updating? && th.line.BackOut?) || (th.Returned? && th.ans == ABORT_FAILURE)
  }

  /** A lock that a thread asks for and cannot have is another thread's. */
  lemma NotOwn(s: State, t: Tid, n: nat)
    requires Inv(s) && t < |s.threads| && s.threads[t].Updating? && n < |s.heap| && s.heap[n].lock != Free
    requires (s.threads[t].line.LockPred? && n == s.threads[t].pred)
             || (s.threads[t].line.LockRunner? && n == s.threads[t].runner)
    ensures exists u: Tid :: FindsHeld(s, t, n, u)
  {
    assert ThreadOk(s.heap, s.threads[t]);
    var u := s.heap[n].lock.owner;
    assert !Holds(s.threads[t], n);
    assert FindsHeld(s, t, n, u);
  }

  /** An own step starts the abort exactly if it finds such a lock, and nothing but the answer stops it. */
  lemma AbortStep(s: State, t: Tid)
    requires Inv(s) && t < |s.threads| && s.threads[t].Updating?
    ensures Enabled(s, Advance(t)) && t < |Apply(s, Advance(t)).threads|
    ensures Aborting(Apply(s, Advance(t)).threads[t]) <==>
              Aborting(s.threads[t]) || exists n: nat, u: Tid :: FindsHeld(s, t, n, u)
  {
    var th := s.threads[t];
    assert ThreadOk(s.heap, th);
    if th.line.LockPred? && s.heap[th.pred].lock != Free { NotOwn(s, t, th.pred); }
    if th.line.LockRunner? && s.heap[th.runner].lock != Free { NotOwn(s, t, th.runner); }
  }

  lemma AbortingStep(ss: seq<State>, acts: seq<Action>, t: Tid, i: nat, j: nat, op: Op, ans: Answer, m: nat)
    requires IsRun(ss, acts) && Call(ss, acts, t, i, j, op, ans) && i < m < j && !op.Contains?
    ensures t < |ss[m].threads| && t < |ss[m + 1].threads|
    ensures Aborting(ss[m + 1].threads[t]) <==> Aborting(ss[m].threads[t]) || FindsHeldAt(ss, acts, t, m)
  {
    CallStep(ss, acts, t, i, j, op, ans, m);
    if acts[m].t == t { AbortStep(ss[m], t); }
  }

  lemma {:induction false} AbortsSoFar(
      ss: seq<State>, acts: seq<Action>, t: Tid, i: nat, j: nat, op: Op, ans: Answer, m: nat)
    requires IsRun(ss, acts) && Call(ss, acts, t, i, j, op, ans) && i < m <= j && !op.Contains?
    requires t < |ss[m].threads|
    ensures Aborting(ss[m].threads[t]) <==> exists x :: i < x < m && FindsHeldAt(ss, acts, t, x)
  {
    if m == i + 1 {
      CallBegins(ss, acts, t, i, j, op, ans);
    } else {
      AbortingStep(ss, acts, t, i, j, op, ans, m - 1);
      AbortsSoFar(ss, acts, t, i, j, op, ans, m - 1);
    }
  }

  /**
   An `add` or `remove` answers ABORT_FAILURE exactly if one of its own
   steps finds a lock it needs held by another thread.
   */
  lemma AbortsExactly(ss: seq<State>, acts: seq<Action>, t: Tid, i: nat, j: nat, op: Op, ans: Answer)
    requires IsRun(ss, acts) && Call(ss, acts, t, i, j, op, ans) && !op.Contains?
    ensures ans == ABORT_FAILURE <==> exists m :: i < m < j && FindsHeldAt(ss, acts, t, m)
  {
    AbortsSoFar(ss, acts, t, i, j, op, ans, j);
  }

  /** A call during which no other thread holds a node lock does not abort. */
  lemma AloneNeverAborts(ss: seq<State>, acts: seq<Action>, t: Tid, i: nat, j: nat, op: Op, ans: Answer)
    requires IsRun(ss, acts) && Call(ss, acts, t, i, j, op, ans) && !op.Contains?
    requires forall m, n :: i < m < j && 0 <= n < |ss[m].heap| && ss[m].heap[n].lock.HeldBy? ==>
               ss[m].heap[n].lock.owner == t
    ensures ans != ABORT_FAILURE
  {
    AbortsExactly(ss, acts, t, i, j, op, ans);
  }
}
