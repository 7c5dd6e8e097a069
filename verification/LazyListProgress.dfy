/**
 An update of the lazy list that finds no node lock held and runs undisturbed gets through: it answers
 TRUE or FALSE as the set has it, whatever was done to the list before.
 */
module LazyListProgress {
  import opened LazyListHeap
  import opened LazyList
  import opened LazyListRuns

  function Right(op: Op, before: set<int>): Answer
    requires !op.Contains?
  {
    if op.Add? == (op.key in before) then FALSE else TRUE
  }

  function After(op: Op, before: set<int>): set<int>
    requires !op.Contains?
  {
    if op.Add? then before + {op.key} else before - {op.key}
  }

  ghost predicate OnlyHolder(s: State, t: Tid) {
    forall n :: 0 <= n < |s.heap| && s.heap[n].lock.HeldBy? ==> s.heap[n].lock.owner == t
  }

  ghost predicate Adjacent(h: Heap, p: nat, r: nat) {
    HeapOk(h) && p < |h| && Reach(h, HEAD, p) && h[p].next == r
  }

  /** Thread t is on its way through the update, of a set that was `before`, and nobody else holds a node lock. */
  ghost predicate OnTrack(s: State, t: Tid, op: Op, before: set<int>) {
    && t < |s.threads| && OnlyHolder(s, t) && s.threads[t].Updating? && s.threads[t].op == op && !op.Contains?
    && var Updating(_, line, p, r) := s.threads[t];
    && match line
       case Restart => Keys(s.heap) == before
       case Seek => Keys(s.heap) == before && Adjacent(s.heap, p, r)
       case LockPred => Keys(s.heap) == before && Adjacent(s.heap, p, r)
       case LockRunner => Keys(s.heap) == before && Adjacent(s.heap, p, r)
       case CheckLink => Keys(s.heap) == before && Adjacent(s.heap, p, r)
       case CheckPred => Keys(s.heap) == before && Adjacent(s.heap, p, r)
       case CheckRunner => Keys(s.heap) == before && Adjacent(s.heap, p, r)
       case Mark => Keys(s.heap) == before
       case Link => Keys(s.heap) == before
       case ReadNext => Keys(s.heap) == After(op, before) && op.key in before
       case Unlink(_) => Keys(s.heap) == After(op, before) && op.key in before
       case UnlockPred(ans) => Keys(s.heap) == After(op, before) && ans == Right(op, before)
       case UnlockRunner(ans) => Keys(s.heap) == After(op, before) && ans == Right(op, before)
       case _ => false
  }

  ghost predicate Done(s: State, t: Tid, op: Op, before: set<int>) {
    && t < |s.threads| && !op.Contains? && s.threads[t] == Returned(op, Right(op, before))
    && Keys(s.heap) == After(op, before)
  }

  // ---- how far it is ----

  function LinesLeft(line: Line): nat {
    match line
    case Restart => 12
    case Seek => 11
    case LockPred => 10
    case LockRunner => 9
    case CheckLink => 8
    case CheckPred => 7
    case CheckRunner => 6
    case Mark => 5
    case ReadNext => 4
    case Unlink(_) => 3
    case Link => 3
    case UnlockPred(_) => 2
    case UnlockRunner(_) => 1
    case _ => 0
  }

  ghost function KeysLeft(s: State, t: Tid): int
    requires t < |s.threads|
  {
    if s.threads[t].Updating? && s.threads[t].line.Seek? && s.threads[t].runner < |s.heap|
    then INT_MAX - s.heap[s.threads[t].runner].key else 0
  }

  ghost predicate Nearer(s: State, t: Tid, s': State) {
    && t < |s.threads| && t < |s'.threads| && s.threads[t].Updating? && s'.threads[t].Updating?
    && (LinesLeft(s'.threads[t].line) < LinesLeft(s.threads[t].line)
        || (LinesLeft(s'.threads[t].line) == LinesLeft(s.threads[t].line)
            && 0 <= KeysLeft(s', t) < KeysLeft(s, t)))
  }

  // ---- one step ----

  /** A node that is linked is not marked, but for the one t itself is unlinking. */
  lemma LinkedIsUnmarked(s: State, t: Tid, n: nat)
    requires Inv(s) && t < |s.threads| && OnlyHolder(s, t) && n < |s.heap| && Reach(s.heap, HEAD, n)
    requires !Unlinking(s.threads[t], n)
    ensures !s.heap[n].marked
  {
    assert NodeOk(s, n);
  }

  lemma NextLinked(h: Heap, p: nat)
    requires HeapOk(h) && p < |h| && p != TAIL && Reach(h, HEAD, p)
    ensures LinkOk(h, p) && Reach(h, HEAD, h[p].next)
  {
    assert LinkOk(h, p);
    assert Reach(h, h[p].next, h[p].next);
    ReachTrans(h, HEAD, p, h[p].next);
  }

  /** What a step that only reads leads to. */
  lemma ReadingStep(s: State, t: Tid, op: Op, before: set<int>)
    requires Inv(s) && OnTrack(s, t, op, before)
    requires var line := s.threads[t].line;
             line.Restart? || line.Seek? || line.CheckLink? || line.CheckPred? || line.ReadNext?
    ensures var s' := Apply(s, Advance(t)); OnTrack(s', t, op, before) && Nearer(s, t, s')
  {
    var h, p, r := s.heap, s.threads[t].pred, s.threads[t].runner;
    assert ThreadOk(h, s.threads[t]);
    match s.threads[t].line {
      case Restart =>
        assert Reach(h, HEAD, HEAD) && LinkOk(h, HEAD);
      case Seek =>
        NextLinked(h, p);
        if h[r].key < op.key { NextLinked(h, r); }
      case CheckPred => LinkedIsUnmarked(s, t, p);
      case _ =>
    }
  }

  /** The last check, after which the answer is settled or the write comes. */
  lemma DecidingStep(s: State, t: Tid, op: Op, before: set<int>)
    requires Inv(s) && OnTrack(s, t, op, before) && s.threads[t].line.CheckRunner?
    ensures var s' := Apply(s, Advance(t)); OnTrack(s', t, op, before) && Nearer(s, t, s')
  {
    var h, p, r := s.heap, s.threads[t].pred, s.threads[t].runner;
    assert ThreadOk(h, s.threads[t]);
    NextLinked(h, p);
    LinkedIsUnmarked(s, t, r);
    if h[r].key == op.key {
      assert r != HEAD && r != TAIL && h[r].key in Keys(h);
    } else {
      AbsentInState(s, p, op.key);
    }
    assert op.key in before <==> h[r].key == op.key;
    assert op.key in before ==> before + {op.key} == before;
    assert op.key !in before ==> before - {op.key} == before;
  }

  lemma LockKeepsAdjacent(h: Heap, h': Heap, p: nat, r: nat)
    requires Adjacent(h, p, r) && HeapOk(h') && SameLinks(h, h')
    ensures Adjacent(h', p, r)
  {
    ReachSameLinks(h, h', HEAD, p);
  }

  lemma NotHeldIsFree(s: State, t: Tid, n: nat)
    requires Inv(s) && t < |s.threads| && OnlyHolder(s, t) && n < |s.heap| && !Holds(s.threads[t], n)
    ensures s.heap[n].lock == Free
  {
  }

  lemma LockingStep(s: State, t: Tid, op: Op, before: set<int>)
    requires Inv(s) && OnTrack(s, t, op, before) && (s.threads[t].line.LockPred? || s.threads[t].line.LockRunner?)
    ensures var s' := Apply(s, Advance(t)); OnTrack(s', t, op, before) && Nearer(s, t, s')
  {
    var h, p, r := s.heap, s.threads[t].pred, s.threads[t].runner;
    assert ThreadOk(h, s.threads[t]);
    var n := if s.threads[t].line.LockPred? then p else r;
    NotHeldIsFree(s, t, n);
    LockLineInv(s, t);
    LockKeepsAdjacent(h, Apply(s, Advance(t)).heap, p, r);
  }

  lemma UnlockingStep(s: State, t: Tid, op: Op, before: set<int>)
    requires Inv(s) && OnTrack(s, t, op, before) && (s.threads[t].line.UnlockPred? || s.threads[t].line.UnlockRunner?)
    ensures var s' := Apply(s, Advance(t));
            Done(s', t, op, before) || (OnTrack(s', t, op, before) && Nearer(s, t, s'))
  {
    assert ThreadOk(s.heap, s.threads[t]);
    LockLineInv(s, t);
  }

  lemma WritingStep(s: State, t: Tid, op: Op, before: set<int>)
    requires Inv(s) && OnTrack(s, t, op, before) && WritesNode(s.threads[t])
    ensures var s' := Apply(s, Advance(t)); OnTrack(s', t, op, before) && Nearer(s, t, s')
  {
    assert ThreadOk(s.heap, s.threads[t]);
    match s.threads[t].line {
      case Mark => MarkStep(s, t);
      case Unlink(_) => UnlinkStep(s, t);
      case Link => LinkStep(s, t);
    }
  }

  lemma NextStep(s: State, t: Tid, op: Op, before: set<int>)
    requires Inv(s) && OnTrack(s, t, op, before)
    ensures Enabled(s, Advance(t))
    ensures var s' := Apply(s, Advance(t));
            Done(s', t, op, before) || (OnTrack(s', t, op, before) && Nearer(s, t, s'))
  {
    var line := s.threads[t].line;
    if line.CheckRunner? { DecidingStep(s, t, op, before); }
    else if line.LockPred? || line.LockRunner? { LockingStep(s, t, op, before); }
    else if line.UnlockPred? || line.UnlockRunner? { UnlockingStep(s, t, op, before); }
    else if WritesNode(s.threads[t]) { WritingStep(s, t, op, before); }
    else { ReadingStep(s, t, op, before); }
  }

  // ---- to the end ----

  ghost predicate GoesOn(ss: seq<State>, acts: seq<Action>, ss': seq<State>, acts': seq<Action>, t: Tid) {
    IsRun(ss', acts') && ss <= ss' && acts <= acts' && forall i :: |acts| <= i < |acts'| ==> acts'[i].t == t
  }

  lemma {:induction false} Finishes(ss: seq<State>, acts: seq<Action>, t: Tid, op: Op, before: set<int>)
    returns (ss': seq<State>, acts': seq<Action>)
    requires IsRun(ss, acts) && OnTrack(ss[|acts|], t, op, before)
    ensures GoesOn(ss, acts, ss', acts', t) && Done(ss'[|acts'|], t, op, before)
    decreases LinesLeft(ss[|acts|].threads[t].line), KeysLeft(ss[|acts|], t)
  {
    var s, a := ss[|acts|], Advance(t);
    RunInv(ss, acts, |acts|);
    NextStep(s, t, op, before);
    NoBadDereference(ss, acts, a);
    ss', acts' := ss + [Apply(s, a)], acts + [a];
    if !Done(ss'[|acts'|], t, op, before) {
      ss', acts' := Finishes(ss', acts', t, op, before);
    }
  }

  ghost predicate CompletesAlone(
      ss: seq<State>, acts: seq<Action>, ss': seq<State>, acts': seq<Action>, t: Tid, op: Op)
  {
    && |acts| < |acts'| && |ss| == |acts| + 1 && GoesOn(ss, acts, ss', acts', t) && acts'[|acts|] == Invoke(t, op)
    && Done(ss'[|acts'|], t, op, Keys(ss[|acts|].heap))
  }

  /**
   From any reachable state in which no node lock is held, an idle thread's `add` or `remove` can run by
   its own steps to the answer the set has for it, and changes the set accordingly.
   */
  lemma UpdateCompletes(ss: seq<State>, acts: seq<Action>, t: Tid, op: Op)
    requires IsRun(ss, acts) && t < |ss[|acts|].threads| && ss[|acts|].threads[t].Idle?
    requires !op.Contains? && ValidOp(op)
    requires forall n :: 0 <= n < |ss[|acts|].heap| ==> ss[|acts|].heap[n].lock == Free
    ensures exists ss', acts' :: CompletesAlone(ss, acts, ss', acts', t, op)
  {
    var s, a := ss[|acts|], Invoke(t, op);
    RunInv(ss, acts, |acts|);
    NoBadDereference(ss, acts, a);
    var ss1, acts1 := ss + [Apply(s, a)], acts + [a];
    assert OnTrack(ss1[|acts1|], t, op, Keys(s.heap));
    var ss', acts' := Finishes(ss1, acts1, t, op, Keys(s.heap));
    assert CompletesAlone(ss, acts, ss', acts', t, op);
  }
}
