/**
 The lazy concurrent list, as any number of threads taking atomic steps over one shared heap.
 One step is one access to a shared `next`, `marked` or lock word; keys never change, so a key
 comparison is folded into the access next to it, and the private initialisation of a fresh node
 is folded into the write that publishes it. Memory is sequentially consistent.
 */
module LazyList {
  import opened LazyListHeap

  datatype Op = Contains(key: int) | Remove(key: int) | Add(key: int, val: int)

  datatype Answer = TRUE | FALSE | ABORT_FAILURE

  /** Where an `add` or `remove` stands. */
  datatype Line =
    | Restart                  // pred = head, runner = head -> next
    | Seek                     // while (runner -> key < key)
    | LockPred
    | LockRunner
    | BackOut                  // runner's lock was taken: release pred's and abort
    | CheckLink                // prev -> next == next
    | CheckPred                // !prev -> marked
    | CheckRunner              // !next -> marked
    | RetryPred | RetryRunner  // validation failed: release both and start over
    | Mark                     // runner -> marked = true
    | ReadNext                 // the right-hand side of pred -> next = runner -> next
    | Unlink(succ: int)        // its assignment
    | Link                     // pred -> next = insertion
    | UnlockPred(ans: Answer)
    | UnlockRunner(ans: Answer)

  datatype Thread =
    | Idle
    | Reading(key: int, runner: nat)
    | Updating(op: Op, line: Line, pred: nat, runner: nat)
    | Returned(op: Op, ans: Answer)

  datatype State = State(heap: Heap, threads: seq<Thread>)

  datatype Action = Invoke(t: Tid, op: Op) | Advance(t: Tid) | Return(t: Tid)

  /** What callers may ask: `contains` takes any 32-bit key, updates only keys between the sentinels. */
  predicate ValidOp(op: Op) {
    if op.Contains? then INT_MIN <= op.key <= INT_MAX else UserKey(op.key)
  }

  // ---- the steps ----

  ghost predicate Enabled(s: State, a: Action) {
    && a.t < |s.threads|
    && match a
       case Invoke(t, op) => s.threads[t].Idle? && ValidOp(op)
       case Advance(t) => s.threads[t].Reading? || s.threads[t].Updating?
       case Return(t) => s.threads[t].Returned?
  }

  ghost function Begin(op: Op): Thread {
    match op
    case Contains(k) => Reading(k, HEAD)
    case _ => Updating(op, Restart, HEAD, HEAD)
  }

  ghost function Apply(s: State, a: Action): State
    requires Safe(s) && Enabled(s, a)
  {
    match a
    case Invoke(t, op) => s.(threads := s.threads[t := Begin(op)])
    case Return(t) => s.(threads := s.threads[t := Idle])
    case Advance(t) =>
      var (h, th) := StepOf(s.heap, t, s.threads[t]);
      State(h, s.threads[t := th])
  }

  /** Every pointer a thread may dereference is in the heap. */
  ghost predicate Safe(s: State) {
    HeapOk(s.heap) && forall t :: 0 <= t < |s.threads| ==> ThreadOk(s.heap, s.threads[t])
  }

  ghost function Lock(h: Heap, n: nat, w: LockWord): Heap
    requires n < |h|
  {
    h[n := h[n].(lock := w)]
  }

  ghost function StepOf(h: Heap, t: Tid, th: Thread): (Heap, Thread)
    requires HeapOk(h) && ThreadOk(h, th)
    requires th.Reading? || th.Updating?
  {
    match th
    case Reading(k, r) =>
      if h[r].key < k then
        assert LinkOk(h, r);
        (h, Reading(k, h[r].next))
      else
        (h, Returned(Contains(k), if h[r].key == k && !h[r].marked then TRUE else FALSE))
    case Updating(op, line, p, r) =>
      match line
      case Restart =>
        assert LinkOk(h, HEAD);
        (h, th.(line := Seek, pred := HEAD, runner := h[HEAD].next))
      case Seek =>
        if h[r].key < op.key then
          assert LinkOk(h, r);
          (h, th.(pred := r, runner := h[r].next))
        else
          (h, th.(line := LockPred))
      case LockPred =>
        if h[p].lock == Free then (Lock(h, p, HeldBy(t)), th.(line := LockRunner))
        else (h, Returned(op, ABORT_FAILURE))
      case LockRunner =>
        if h[r].lock == Free then (Lock(h, r, HeldBy(t)), th.(line := CheckLink))
        else (h, th.(line := BackOut))
      case BackOut => (Lock(h, p, Free), Returned(op, ABORT_FAILURE))
      case CheckLink => (h, th.(line := if h[p].next == r then CheckPred else RetryPred))
      case CheckPred => (h, th.(line := if !h[p].marked then CheckRunner else RetryPred))
      case CheckRunner => (h, th.(line := if !h[r].marked then Decide(h, op, r) else RetryPred))
      case RetryPred => (Lock(h, p, Free), th.(line := RetryRunner))
      case RetryRunner => (Lock(h, r, Free), th.(line := Restart))
      case Mark => (h[r := h[r].(marked := true)], th.(line := ReadNext))
      case ReadNext => (h, th.(line := Unlink(h[r].next)))
      case Unlink(succ) => (Unlinked(h, p, succ), th.(line := UnlockPred(TRUE)))
      case Link => (Linked(h, p, op.key, op.val, r), th.(line := UnlockPred(TRUE)))
      case UnlockPred(ans) => (Lock(h, p, Free), th.(line := UnlockRunner(ans)))
      case UnlockRunner(ans) => (Lock(h, r, Free), Returned(op, ans))
  }

  /** After a successful validation: write, or answer FALSE. */
  ghost function Decide(h: Heap, op: Op, r: nat): Line
    requires r < |h|
  {
    match op
    case Add(k, _) => if h[r].key != k then Link else UnlockPred(FALSE)
    case _ => if h[r].key == op.key then Mark else UnlockPred(FALSE)
  }

  // ---- what each thread knows, line by line ----

  ghost predicate ThreadOk(h: Heap, th: Thread)
    requires HeapOk(h)
  {
    match th
    case Idle => true
    case Returned(op, ans) => true
    case Reading(k, r) => INT_MIN <= k <= INT_MAX && r < |h|
    case Updating(op, line, p, r) =>
      && !op.Contains? && UserKey(op.key)
      && p < |h| && r < |h|
      && (line != Restart ==> p != TAIL && h[p].key < op.key && h[p].key < h[r].key)
      && (line != Restart && line != Seek ==> op.key <= h[r].key)
      && LineOk(h, op, line, p, r)
  }

  ghost predicate LineOk(h: Heap, op: Op, line: Line, p: nat, r: nat)
    requires p < |h| && r < |h|
  {
    match line
    case CheckPred => h[p].next == r
    case CheckRunner => h[p].next == r && !h[p].marked
    case Mark => h[p].next == r && !h[p].marked && !h[r].marked && op.Remove? && h[r].key == op.key
    case ReadNext => Doomed(h, op, p, r)
    case Unlink(succ) => Doomed(h, op, p, r) && h[r].next == succ
    case Link => h[p].next == r && !h[p].marked && op.Add? && h[r].key != op.key
    case UnlockPred(ans) => ans != ABORT_FAILURE
    case UnlockRunner(ans) => ans != ABORT_FAILURE
    case _ => true
  }

  /** Between lines 44 and 45: the victim is marked but still linked. */
  ghost predicate Doomed(h: Heap, op: Op, p: nat, r: nat)
    requires p < |h| && r < |h|
  {
    h[p].next == r && !h[p].marked && h[r].marked && op.Remove? && h[r].key == op.key
  }

  ghost predicate Holds(th: Thread, n: nat) {
    th.Updating? &&
    match th.line
    case LockRunner => n == th.pred
    case BackOut => n == th.pred
    case CheckLink => n == th.pred || n == th.runner
    case CheckPred => n == th.pred || n == th.runner
    case CheckRunner => n == th.pred || n == th.runner
    case RetryPred => n == th.pred || n == th.runner
    case Mark => n == th.pred || n == th.runner
    case ReadNext => n == th.pred || n == th.runner
    case Unlink(_) => n == th.pred || n == th.runner
    case Link => n == th.pred || n == th.runner
    case UnlockPred(_) => n == th.pred || n == th.runner
    case RetryRunner => n == th.runner
    case UnlockRunner(_) => n == th.runner
    case _ => false
  }

  ghost predicate Unlinking(th: Thread, n: nat) {
    th.Updating? && (th.line.ReadNext? || th.line.Unlink?) && th.runner == n
  }

  // ---- the invariant ----

  /** A lock word names exactly the thread whose program point says it holds the lock. */
  ghost predicate LocksOk(s: State) {
    && (forall n, t :: 0 <= n < |s.heap| && 0 <= t < |s.threads| ==>
          (s.heap[n].lock == HeldBy(t) <==> Holds(s.threads[t], n)))
    && (forall n :: 0 <= n < |s.heap| && s.heap[n].lock.HeldBy? ==> s.heap[n].lock.owner < |s.threads|)
  }

  /** Unmarked nodes are reachable; a marked one is only while its remover is between lines 44 and 45. */
  ghost predicate ListOk(s: State)
    requires HeapOk(s.heap)
  {
    forall n :: 0 <= n < |s.heap| ==> NodeOk(s, n)
  }

  ghost predicate NodeOk(s: State, n: nat)
    requires HeapOk(s.heap) && n < |s.heap|
  {
    if !s.heap[n].marked then Reach(s.heap, HEAD, n)
    else Reach(s.heap, HEAD, n) ==> BeingUnlinked(s, n)
  }

  ghost predicate BeingUnlinked(s: State, n: nat)
    requires n < |s.heap|
  {
    && s.heap[n].lock.HeldBy? && s.heap[n].lock.owner < |s.threads|
    && Unlinking(s.threads[s.heap[n].lock.owner], n)
  }

  ghost predicate Inv(s: State) {
    Safe(s) && LocksOk(s) && ListOk(s)
  }

  ghost predicate Init(s: State) {
    && |s.heap| == 2
    && s.heap[HEAD] == Node(INT_MIN, INT_MIN, false, Free, TAIL)
    && s.heap[TAIL] == Node(INT_MAX, INT_MAX, false, Free, NULL)
    && forall t :: 0 <= t < |s.threads| ==> s.threads[t].Idle?
  }

  lemma InitInv(s: State)
    requires Init(s)
    ensures Inv(s) && Keys(s.heap) == {}
  {
    assert LinkOk(s.heap, HEAD);
    assert Reach(s.heap, HEAD, HEAD);
    assert Reach(s.heap, TAIL, TAIL);
    assert Reach(s.heap, HEAD, TAIL);
  }

  // ---- preservation, one kind of write at a time ----

  /** Steps that touch no more than the acting thread and the lock words. */
  lemma QuietStep(s: State, t: Tid, s': State)
    requires Inv(s) && t < |s.threads| && |s'.threads| == |s.threads|
    requires SameLinks(s.heap, s'.heap)
    requires forall n :: 0 <= n < |s.heap| ==> s'.heap[n].marked == s.heap[n].marked
    requires s'.threads == s.threads[t := s'.threads[t]]
    requires LocksOk(s')
    requires HeapOk(s'.heap) ==> ThreadOk(s'.heap, s'.threads[t])
    requires forall n :: 0 <= n < |s.heap| && Unlinking(s.threads[t], n) ==> Unlinking(s'.threads[t], n)
    ensures Inv(s') && Keys(s'.heap) == Keys(s.heap)
  {
    var h, h' := s.heap, s'.heap;
    assert HeapOk(h') by {
      forall n | 0 <= n < |h'| && n != TAIL ensures LinkOk(h', n) { assert LinkOk(h, n); }
    }
    forall u | 0 <= u < |s.threads| && u != t ensures ThreadOk(h', s'.threads[u]) {
      assert ThreadOk(h, s.threads[u]);
    }
    forall n | 0 <= n < |h'| ensures NodeOk(s', n) {
      assert NodeOk(s, n);
      ReachSameLinks(h, h', HEAD, n);
      if BeingUnlinked(s, n) {
        var o := h[n].lock.owner;
        assert Unlinking(s'.threads[o], n);
        assert Holds(s'.threads[o], n);
      }
    }
  }

  lemma LockStep(s: State, t: Tid, n: nat, w: LockWord, th: Thread)
    requires Inv(s) && t < |s.threads| && n < |s.heap|
    requires w == HeldBy(t) || w == Free
    requires w == HeldBy(t) ==> s.heap[n].lock == Free
    requires w == Free ==> s.heap[n].lock == HeldBy(t)
    requires Holds(th, n) <==> w == HeldBy(t)
    requires forall m :: 0 <= m < |s.heap| && m != n ==> (Holds(th, m) <==> Holds(s.threads[t], m))
    requires forall m :: 0 <= m < |s.heap| ==> !Unlinking(s.threads[t], m)
    requires HeapOk(Lock(s.heap, n, w)) ==> ThreadOk(Lock(s.heap, n, w), th)
    ensures Inv(State(Lock(s.heap, n, w), s.threads[t := th]))
    ensures Keys(Lock(s.heap, n, w)) == Keys(s.heap)
  {
    var s' := State(Lock(s.heap, n, w), s.threads[t := th]);
    assert LocksOk(s');
    QuietStep(s, t, s');
  }

  lemma LocalStep(s: State, t: Tid, th: Thread)
    requires Inv(s) && t < |s.threads|
    requires forall m :: 0 <= m < |s.heap| ==> (Holds(th, m) <==> Holds(s.threads[t], m))
    requires forall m :: 0 <= m < |s.heap| && Unlinking(s.threads[t], m) ==> Unlinking(th, m)
    requires ThreadOk(s.heap, th)
    ensures Inv(State(s.heap, s.threads[t := th]))
  {
    QuietStep(s, t, State(s.heap, s.threads[t := th]));
  }

  lemma OthersSeeNoChange(s: State, t: Tid, u: Tid, n: nat)
    requires Inv(s) && t < |s.threads| && u < |s.threads| && t != u
    requires n < |s.heap| && Holds(s.threads[t], n)
    ensures !Holds(s.threads[u], n)
  {
    assert s.heap[n].lock == HeldBy(t);
  }

  lemma MarkStep(s: State, t: Tid)
    requires Inv(s) && t < |s.threads| && s.threads[t].Updating? && s.threads[t].line.Mark?
    ensures Inv(Apply(s, Advance(t)))
    ensures var k := s.threads[t].op.key;
            k in Keys(s.heap) && Keys(Apply(s, Advance(t)).heap) == Keys(s.heap) - {k}
  {
    var s' := Apply(s, Advance(t));
    var h, h' := s.heap, s'.heap;
    var p, r := s.threads[t].pred, s.threads[t].runner;
    assert ThreadOk(h, s.threads[t]);
    assert r != HEAD && r != TAIL;
    assert HeapOk(h') by {
      forall n | 0 <= n < |h'| && n != TAIL ensures LinkOk(h', n) { assert LinkOk(h, n); }
    }
    assert Holds(s.threads[t], r) && Holds(s'.threads[t], r);
    forall u | 0 <= u < |s.threads| && u != t ensures ThreadOk(h', s'.threads[u]) {
      assert ThreadOk(h, s.threads[u]);
      OthersSeeNoChange(s, t, u, r);
    }
    forall n | 0 <= n < |h'| ensures NodeOk(s', n) {
      assert NodeOk(s, n);
      ReachSameLinks(h, h', HEAD, n);
      if n == r { assert BeingUnlinked(s', n); }
    }
    InvLinked(s);
    MarkKeys(h, r);
  }

  /** Every unmarked node is linked. */
  ghost predicate UnmarkedLinked(h: Heap) {
    HeapOk(h) && forall n :: 0 <= n < |h| && !h[n].marked ==> Reach(h, HEAD, n)
  }

  lemma InvLinked(s: State)
    requires Inv(s)
    ensures UnmarkedLinked(s.heap)
  {
    forall n | 0 <= n < |s.heap| && !s.heap[n].marked ensures Reach(s.heap, HEAD, n) { assert NodeOk(s, n); }
  }

  /** Marking a node takes its key, and no other, out of the set. */
  lemma MarkKeys(h: Heap, r: nat)
    requires UnmarkedLinked(h) && 2 <= r < |h| && !h[r].marked
    ensures h[r].key in Keys(h)
    ensures Keys(h[r := h[r].(marked := true)]) == Keys(h) - {h[r].key}
  {
    var h' := h[r := h[r].(marked := true)];
    forall n | 2 <= n < |h| && !h[n].marked && h[n].key == h[r].key ensures n == r {
      SameKeySameNode(h, HEAD, n, r);
    }
    forall k | k in Keys(h) && k != h[r].key ensures k in Keys(h') {
      var n :| 2 <= n < |h| && !h[n].marked && h[n].key == k;
      assert !h'[n].marked && h'[n].key == k;
    }
    forall k | k in Keys(h') ensures k in Keys(h) && k != h[r].key {
      var n :| 2 <= n < |h'| && !h'[n].marked && h'[n].key == k;
      assert n != r && !h[n].marked && h[n].key == k;
    }
  }

  lemma UnlinkStep(s: State, t: Tid)
    requires Inv(s) && t < |s.threads| && s.threads[t].Updating? && s.threads[t].line.Unlink?
    ensures Inv(Apply(s, Advance(t)))
    ensures Keys(Apply(s, Advance(t)).heap) == Keys(s.heap)
  {
    var s' := Apply(s, Advance(t));
    var h, h' := s.heap, s'.heap;
    var p, r := s.threads[t].pred, s.threads[t].runner;
    assert ThreadOk(h, s.threads[t]);
    UnlinkedOk(h, p, r);
    assert Holds(s.threads[t], p) && Holds(s'.threads[t], p);
    forall u | 0 <= u < |s.threads| && u != t ensures ThreadOk(h', s'.threads[u]) {
      assert ThreadOk(h, s.threads[u]);
      OthersSeeNoChange(s, t, u, p);
    }
    forall n | 0 <= n < |h'| ensures NodeOk(s', n) {
      assert NodeOk(s, n) && NodeOk(s, p);
      if n == r {
        UnlinkedIsGone(h, p, r, HEAD);
      } else {
        if Reach(h, HEAD, n) { ReachUnlinked(h, p, r, HEAD, n); }
        if Reach(h', HEAD, n) {
          ReachUnlinkedBack(h, p, r, HEAD, n);
          if h[n].marked {
            var o := h[n].lock.owner;
            assert Unlinking(s.threads[o], n);
            assert o != t;
            assert BeingUnlinked(s', n);
          }
        }
      }
    }
    KeysSame(h, h');
  }

  lemma KeysSame(h: Heap, h': Heap)
    requires |h| == |h'|
    requires forall n :: 0 <= n < |h| ==> h[n].key == h'[n].key && h[n].marked == h'[n].marked
    ensures Keys(h) == Keys(h')
  {
    forall k | k in Keys(h) ensures k in Keys(h') {
      var n :| 2 <= n < |h| && !h[n].marked && h[n].key == k;
      assert !h'[n].marked && h'[n].key == k;
    }
    forall k | k in Keys(h') ensures k in Keys(h) {
      var n :| 2 <= n < |h'| && !h'[n].marked && h'[n].key == k;
      assert !h[n].marked && h[n].key == k;
    }
  }

  /** Thread t has just linked a new node in after p, whose lock it holds. */
  ghost predicate JustLinked(s: State, t: Tid, s': State, p: nat, key: int, val: int)
    requires HeapOk(s.heap)
  {
    && t < |s.threads| == |s'.threads| && s'.threads == s.threads[t := s'.threads[t]]
    && p < |s.heap| && p != TAIL && !s.heap[p].marked && LinkOk(s.heap, p) && Holds(s.threads[t], p)
    && s'.heap == Linked(s.heap, p, key, val, s.heap[p].next) && HeapOk(s'.heap)
    && (forall n: nat :: Holds(s'.threads[t], n) <==> Holds(s.threads[t], n))
    && (forall n: nat :: !Unlinking(s.threads[t], n))
  }

  lemma LinkedSafe(s: State, t: Tid, s': State, p: nat, key: int, val: int)
    requires Inv(s) && JustLinked(s, t, s', p, key, val) && ThreadOk(s'.heap, s'.threads[t])
    ensures Safe(s')
  {
    forall u | 0 <= u < |s.threads| && u != t ensures ThreadOk(s'.heap, s'.threads[u]) {
      assert ThreadOk(s.heap, s.threads[u]);
      OthersSeeNoChange(s, t, u, p);
    }
  }

  lemma LinkedLocks(s: State, t: Tid, s': State, p: nat, key: int, val: int)
    requires Inv(s) && JustLinked(s, t, s', p, key, val)
    ensures LocksOk(s')
  {
    FreshNodeUnheld(s, |s.heap|);
  }

  lemma LinkedNodes(s: State, t: Tid, s': State, p: nat, key: int, val: int)
    requires Inv(s) && JustLinked(s, t, s', p, key, val)
    ensures ListOk(s')
  {
    var h, h' := s.heap, s'.heap;
    forall n | 0 <= n < |h'| ensures NodeOk(s', n) {
      assert NodeOk(s, p);
      if n < |h| {
        assert NodeOk(s, n);
        ReachLinked(h, p, key, val, HEAD, n);
        if h[n].marked && Reach(h, HEAD, n) {
          assert BeingUnlinked(s, n) && !Unlinking(s.threads[t], n);
          assert h[n].lock.owner != t && h'[n].lock == h[n].lock;
          assert BeingUnlinked(s', n);
        }
      } else {
        NewNodeReached(h, p, key, val, HEAD);
      }
    }
  }

  lemma LinkStep(s: State, t: Tid)
    requires Inv(s) && t < |s.threads| && s.threads[t].Updating? && s.threads[t].line.Link?
    ensures Inv(Apply(s, Advance(t)))
    ensures var k := s.threads[t].op.key;
            k !in Keys(s.heap) && Keys(Apply(s, Advance(t)).heap) == Keys(s.heap) + {k}
  {
    var s' := Apply(s, Advance(t));
    var h := s.heap;
    var p, op := s.threads[t].pred, s.threads[t].op;
    assert ThreadOk(h, s.threads[t]);
    assert LinkOk(h, p);
    LinkedOk(h, p, op.key, op.val);
    assert JustLinked(s, t, s', p, op.key, op.val);
    LinkedSafe(s, t, s', p, op.key, op.val);
    LinkedLocks(s, t, s', p, op.key, op.val);
    LinkedNodes(s, t, s', p, op.key, op.val);
    AbsentInState(s, p, op.key);
    LinkKeys(h, p, op.key, op.val);
  }

  lemma FreshNodeUnheld(s: State, n: nat)
    requires Safe(s) && n >= |s.heap|
    ensures forall u :: 0 <= u < |s.threads| ==> !Holds(s.threads[u], n)
  {
    forall u | 0 <= u < |s.threads| ensures !Holds(s.threads[u], n) {
      assert ThreadOk(s.heap, s.threads[u]);
    }
  }

  lemma LinkKeys(h: Heap, p: nat, key: int, val: int)
    requires 2 <= |h| && p < |h|
    ensures Keys(Linked(h, p, key, val, h[p].next)) == Keys(h) + {key}
  {
    var h' := Linked(h, p, key, val, h[p].next);
    forall k | k in Keys(h) ensures k in Keys(h') {
      var n :| 2 <= n < |h| && !h[n].marked && h[n].key == k;
      assert !h'[n].marked && h'[n].key == k;
    }
    assert !h'[|h|].marked && h'[|h|].key == key;
    forall k | k in Keys(h') ensures k in Keys(h) + {key} {
      var n :| 2 <= n < |h'| && !h'[n].marked && h'[n].key == k;
      assert n < |h| ==> !h[n].marked && h[n].key == k;
    }
  }

  /** A key strictly between an unmarked node and its successor is not in the set. */
  lemma AbsentBetween(h: Heap, p: nat, k: int)
    requires UnmarkedLinked(h) && p < |h| && p != TAIL && !h[p].marked
    requires LinkOk(h, p) && h[p].key < k < h[h[p].next].key
    ensures k !in Keys(h)
  {
    if k in Keys(h) {
      var n :| 2 <= n < |h| && !h[n].marked && h[n].key == k;
      NothingBetween(h, p, n);
    }
  }

  lemma AbsentInState(s: State, p: nat, k: int)
    requires Inv(s) && p < |s.heap| && p != TAIL && !s.heap[p].marked
    requires LinkOk(s.heap, p) && s.heap[p].key < k < s.heap[s.heap[p].next].key
    ensures k !in Keys(s.heap)
  {
    InvLinked(s);
    AbsentBetween(s.heap, p, k);
  }

  // ---- every step keeps the invariant ----

  ghost predicate TouchesLock(line: Line) {
    || line.LockPred? || line.LockRunner? || line.BackOut? || line.RetryPred? || line.RetryRunner?
    || line.UnlockPred? || line.UnlockRunner?
  }

  lemma LockLineInv(s: State, t: Tid)
    requires Inv(s) && t < |s.threads| && s.threads[t].Updating? && TouchesLock(s.threads[t].line)
    ensures Inv(Apply(s, Advance(t)))
    ensures Keys(Apply(s, Advance(t)).heap) == Keys(s.heap)
  {
    var h, th := s.heap, s.threads[t];
    var th' := Apply(s, Advance(t)).threads[t];
    var p, r := th.pred, th.runner;
    assert ThreadOk(h, th);
    match th.line {
      case LockPred => if h[p].lock == Free { LockStep(s, t, p, HeldBy(t), th'); } else { LocalStep(s, t, th'); }
      case LockRunner => if h[r].lock == Free { LockStep(s, t, r, HeldBy(t), th'); } else { LocalStep(s, t, th'); }
      case BackOut => LockStep(s, t, p, Free, th');
      case RetryPred => LockStep(s, t, p, Free, th');
      case UnlockPred(ans) => LockStep(s, t, p, Free, th');
      case RetryRunner => LockStep(s, t, r, Free, th');
      case UnlockRunner(ans) => LockStep(s, t, r, Free, th');
    }
  }

  lemma ReadLineInv(s: State, t: Tid)
    requires Inv(s) && t < |s.threads| && (s.threads[t].Reading? || s.threads[t].Updating?)
    requires s.threads[t].Updating? ==> !TouchesLock(s.threads[t].line) && !WritesNode(s.threads[t])
    ensures Inv(Apply(s, Advance(t)))
    ensures Apply(s, Advance(t)).heap == s.heap
  {
    var h, th := s.heap, s.threads[t];
    assert ThreadOk(h, th);
    assert LinkOk(h, HEAD);
    if th.Reading? && h[th.runner].key < th.key { assert LinkOk(h, th.runner); }
    if th.Updating? && h[th.runner].key < th.op.key { assert LinkOk(h, th.runner); }
    LocalStep(s, t, Apply(s, Advance(t)).threads[t]);
  }

  lemma AdvanceInv(s: State, t: Tid)
    requires Inv(s) && Enabled(s, Advance(t))
    ensures Inv(Apply(s, Advance(t)))
    ensures !ChangesSet(s.threads[t]) ==> Keys(Apply(s, Advance(t)).heap) == Keys(s.heap)
  {
    var th := s.threads[t];
    if WritesNode(th) {
      if th.line.Mark? { MarkStep(s, t); } else if th.line.Unlink? { UnlinkStep(s, t); } else { LinkStep(s, t); }
    } else if th.Updating? && TouchesLock(th.line) {
      LockLineInv(s, t);
    } else {
      ReadLineInv(s, t);
    }
  }

  /** The three lines that write a node's `marked` or `next`. */
  ghost predicate WritesNode(th: Thread) {
    th.Updating? && (th.line.Mark? || th.line.Unlink? || th.line.Link?)
  }

  /** The two lines at which the abstract set changes. */
  ghost predicate ChangesSet(th: Thread) {
    th.Updating? && (th.line.Mark? || th.line.Link?)
  }

  lemma StepInv(s: State, a: Action)
    requires Inv(s) && Enabled(s, a)
    ensures Inv(Apply(s, a))
    ensures !(a.Advance? && ChangesSet(s.threads[a.t])) ==> Keys(Apply(s, a).heap) == Keys(s.heap)
  {
    match a
    case Invoke(t, op) => LocalStep(s, t, Begin(op));
    case Return(t) => LocalStep(s, t, Idle);
    case Advance(t) => AdvanceInv(s, t);
  }
}
