/** Safety of the replicated write protocol over whole runs. */
module ReplicaRuns {
  import opened ReplicaLocks
  import opened ReplicaSteps

  ghost predicate StepAt(ss: seq<State>, acts: seq<Action>, i: nat)
    requires |ss| == |acts| + 1 && i < |acts|
  {
    && Enabled(ss[i], acts[i]) && ClientOk(ss[i].clients[acts[i].c], N(ss[i]))
    && ss[i + 1] == Apply(ss[i], acts[i])
  }

  ghost predicate IsRun(ss: seq<State>, acts: seq<Action>) {
    && |ss| == |acts| + 1
    && Init(ss[0])
    && forall i :: 0 <= i < |acts| ==> StepAt(ss, acts, i)
  }

  lemma {:induction false} RunInv(ss: seq<State>, acts: seq<Action>, i: nat)
    requires IsRun(ss, acts) && i < |ss|
    ensures Inv(ss[i]) && N(ss[i]) == N(ss[0])
  {
    if i == 0 {
      InitInv(ss[0]);
    } else {
      RunInv(ss, acts, i - 1);
      assert StepAt(ss, acts, i - 1);
      StepInv(ss[i - 1], acts[i - 1]);
    }
  }

  /** A run never gets stuck on an index out of range: every enabled action extends it. */
  lemma RunsExtend(ss: seq<State>, acts: seq<Action>, a: Action)
    requires IsRun(ss, acts) && Enabled(ss[|acts|], a)
    ensures ClientOk(ss[|acts|].clients[a.c], N(ss[|acts|]))
    ensures IsRun(ss + [Apply(ss[|acts|], a)], acts + [a])
  {
    RunInv(ss, acts, |acts|);
    var ss', acts' := ss + [Apply(ss[|acts|], a)], acts + [a];
    forall i | 0 <= i < |acts'| ensures StepAt(ss', acts', i) {
      if i < |acts| { assert StepAt(ss, acts, i); }
    }
  }

  /** Client c set all n lock words of the index and has not released them. */
  ghost predicate OwnsAll(s: State, c: nat, index: int) {
    forall r :: 0 <= r < N(s) ==> LockId(r, index) in s.owner && s.owner[LockId(r, index)] == c
  }

  // ---- agreement ----

  /**
   Any two replicas have been delivered the same writes of an index in the same order, except for
   at most the last one, which belongs to the one client that owns every lock word of the index
   and is in its send loop; with no client in its send loop the sequences are equal.
   */
  lemma ReplicasAgree(ss: seq<State>, acts: seq<Action>, i: nat, a: nat, b: nat, index: int)
    requires IsRun(ss, acts) && i < |ss| && a < N(ss[i]) && b < N(ss[i])
    ensures var pa, pb := Project(ss[i].logs[a], index), Project(ss[i].logs[b], index);
            || pa == pb
            || exists c: nat :: Writes(ss[i], c, index) && OwnsAll(ss[i], c, index)
                 && (pa == pb + [ss[i].clients[c].call.elem] || pb == pa + [ss[i].clients[c].call.elem])
    ensures forall c: nat, d: nat :: Writes(ss[i], c, index) && Writes(ss[i], d, index) ==> c == d
    ensures (forall c: nat :: !Writes(ss[i], c, index)) ==>
              Project(ss[i].logs[a], index) == Project(ss[i].logs[b], index)
  {
    var s := ss[i];
    RunInv(ss, acts, i);
    assert LogOk(s, a, index) && LogOk(s, b, index);
    forall c: nat, d: nat | Writes(s, c, index) && Writes(s, d, index) ensures c == d { OneWriter(s, c, d, index); }
    if c: nat :| Writes(s, c, index) {
      forall r | 0 <= r < N(s) ensures LockId(r, index) in s.owner && s.owner[LockId(r, index)] == c {
        SenderOwnsAll(s, c, 0, r);
      }
      assert OwnsAll(s, c, index);
    }
  }

  // ---- lock words ----

  /** A lock word is 0 or 1, and 1 exactly while one client has set it and not yet released it. */
  lemma WordsMatchOwners(ss: seq<State>, acts: seq<Action>, i: nat, l: LockId)
    requires IsRun(ss, acts) && i < |ss|
    ensures Word(ss[i], l) == 0 || Word(ss[i], l) == 1
    ensures Word(ss[i], l) == 1 <==> l in ss[i].owner
    ensures l in ss[i].owner ==>
              && ss[i].owner[l] < |ss[i].clients|
              && var cl := ss[i].clients[ss[i].owner[l]];
              && !cl.Idle? && !cl.Finished?
  {
    RunInv(ss, acts, i);
    assert Word(ss[i], l) == if l in ss[i].owner then 1 else 0;
    if l in ss[i].owner {
      assert BagOk(ss[i], ss[i].owner[l], l);
    }
  }

  /** At most one client owns every lock word of an index, and a client that sends owns them all. */
  lemma OneHolderPerIndex(ss: seq<State>, acts: seq<Action>, i: nat, c: nat, d: nat, index: int)
    requires IsRun(ss, acts) && i < |ss|
    ensures OwnsAll(ss[i], c, index) && OwnsAll(ss[i], d, index) ==> c == d
    ensures Writes(ss[i], c, index) ==> OwnsAll(ss[i], c, index)
  {
    RunInv(ss, acts, i);
    var s := ss[i];
    if Writes(s, c, index) {
      forall r | 0 <= r < N(s) ensures LockId(r, index) in s.owner && s.owner[LockId(r, index)] == c {
        SenderOwnsAll(s, c, 0, r);
      }
    }
    if OwnsAll(s, c, index) && OwnsAll(s, d, index) {
      assert LockId(0, index) in s.owner;
    }
  }

  /** Every release swap finds 1, and it is the releasing client that had set it. */
  lemma ReleasesFindOne(ss: seq<State>, acts: seq<Action>, i: nat, c: nat)
    requires IsRun(ss, acts) && i < |ss| && c < |ss[i].clients|
    requires ss[i].clients[c].Releasing? && ss[i].clients[c].plan != []
    ensures var l := ss[i].clients[c].plan[0];
            Word(ss[i], l) == 1 && l in ss[i].owner && ss[i].owner[l] == c
  {
    RunInv(ss, acts, i);
    ReleaseFindsOne(ss[i], c);
  }

  /** Once every call has finished or aborted, every lock word of every replica is 0 again. */
  lemma QuietMeansUnlocked(ss: seq<State>, acts: seq<Action>, i: nat)
    requires IsRun(ss, acts) && i < |ss|
    requires forall c :: 0 <= c < |ss[i].clients| ==> ss[i].clients[c].Idle? || ss[i].clients[c].Finished?
    ensures forall l :: Word(ss[i], l) == 0
  {
    forall l ensures Word(ss[i], l) == 0 { WordsMatchOwners(ss, acts, i, l); }
  }

  /** A multi-key call two of whose keys share an index can only abort: it blocks on its own lock. */
  lemma SharedIndexAborts(ss: seq<State>, acts: seq<Action>, i: nat, c: nat, j: nat, k: nat)
    requires IsRun(ss, acts) && i < |ss| && c < |ss[i].clients| && ss[i].clients[c].Finished?
    requires j < k < |Elems(ss[i].clients[c].call)|
    requires Primary(Elems(ss[i].clients[c].call)[j].key) == Primary(Elems(ss[i].clients[c].call)[k].key)
    ensures ss[i].clients[c].ans == ABORT_FAILURE
  {
    RunInv(ss, acts, i);
    assert ClientOk(ss[i].clients[c], N(ss[i]));
  }

  // ---- what one insert sends ----

  /** Client c invokes the call by action k and is still in it, or just back from it, in state i. */
  ghost predicate InCall(acts: seq<Action>, c: nat, k: nat, i: nat, call: Call) {
    && k < i <= |acts| && acts[k].Invoke? && acts[k].c == c && acts[k].call == call
    && forall j :: k < j < i && acts[j].c == c ==> acts[j].Advance?
  }

  /** Action j is a send of e to replica r by client c. */
  ghost predicate SendsAt(ss: seq<State>, acts: seq<Action>, c: nat, r: nat, e: Elem, j: nat) {
    && j < |acts| && j + 1 < |ss| && acts[j].c == c && c < |ss[j].clients| && ss[j].clients[c].Sending?
    && r < N(ss[j]) == N(ss[j + 1]) && ss[j + 1].logs[r] == ss[j].logs[r] + [e]
  }

  /** If action j is one of client c, it delivers nothing to replica r. */
  ghost predicate SilentAt(ss: seq<State>, acts: seq<Action>, c: nat, r: nat, j: nat) {
    && j < |acts| && j + 1 < |ss| && r < N(ss[j]) == N(ss[j + 1])
    && (acts[j].c == c ==> ss[j + 1].logs[r] == ss[j].logs[r])
  }

  /** Between the states k and i client c sends e to replica r once, and nothing else. */
  ghost predicate SentOnce(ss: seq<State>, acts: seq<Action>, c: nat, r: nat, e: Elem, k: nat, i: nat) {
    exists j :: k < j < i && SendsAt(ss, acts, c, r, e, j)
      && forall h :: k <= h < i && h != j ==> SilentAt(ss, acts, c, r, h)
  }

  ghost predicate NotSent(ss: seq<State>, acts: seq<Action>, c: nat, r: nat, k: nat, i: nat) {
    forall h :: k <= h < i ==> SilentAt(ss, acts, c, r, h)
  }

  /** The client's write has reached the replica. */
  ghost predicate Reached(cl: Client, r: nat) {
    match cl
    case Sending(_, groups, sent) => groups != [] && sent <= |groups[0]| && r in groups[0][..sent]
    case Releasing(_, _, ans) => ans == TRUE
    case Finished(_, ans) => ans == TRUE
    case _ => false
  }

  /** One own step within the call: it sends to replica r exactly if that replica is reached by it. */
  lemma OwnStepSends(s: State, c: nat, random: nat, r: nat, e: Elem)
    requires Inv(s) && Enabled(s, Advance(c, random)) && ClientOk(s.clients[c], N(s)) && r < N(s)
    requires s.clients[c].call == One(e)
    ensures var s', cl := Apply(s, Advance(c, random)), s.clients[c];
            && N(s') == N(s) && |s'.clients| == |s.clients| && !s'.clients[c].Idle? && s'.clients[c].call == One(e)
            && (Reached(s'.clients[c], r) <==> Reached(cl, r) || s'.logs[r] != s.logs[r])
            && (s'.logs[r] != s.logs[r] ==> cl.Sending? && !Reached(cl, r) && s'.logs[r] == s.logs[r] + [e])
  {
    var cl := s.clients[c];
    if cl.Sending? { SendReaches(s, c, r); }
  }

  lemma SendReaches(s: State, c: nat, r: nat)
    requires Inv(s) && c < |s.clients| && s.clients[c].Sending? && ClientOk(s.clients[c], N(s)) && r < N(s)
    requires s.clients[c].call.One?
    ensures var s', cl := Send(s, c), s.clients[c];
            && N(s') == N(s) && |s'.clients| == |s.clients| && !s'.clients[c].Idle? && s'.clients[c].call == cl.call
            && (Reached(s'.clients[c], r) <==> Reached(cl, r) || s'.logs[r] != s.logs[r])
            && (s'.logs[r] != s.logs[r] ==> !Reached(cl, r) && s'.logs[r] == s.logs[r] + [cl.call.elem])
  {
    var cl := s.clients[c];
    var g, k := cl.groups[0], cl.sent;
    assert Around(g, N(s));
    PrefixGrows(g, N(s), k, r);
    assert (s.logs[r] + [cl.call.elem])[|s.logs[r]|] == cl.call.elem;
    if k + 1 == N(s) {
      AroundCovers(g, N(s), r);
      assert g[..k + 1] == g;
    }
  }

  /** What has been sent of a call so far. */
  ghost predicate SentSoFar(ss: seq<State>, acts: seq<Action>, c: nat, r: nat, e: Elem, k: nat, m: nat) {
    && m < |ss| && c < |ss[m].clients| && !ss[m].clients[c].Idle? && ss[m].clients[c].call == One(e)
    && if Reached(ss[m].clients[c], r) then SentOnce(ss, acts, c, r, e, k, m) else NotSent(ss, acts, c, r, k, m)
  }

  /** What is known of a step of a run. */
  lemma RunStep(ss: seq<State>, acts: seq<Action>, m: nat)
    requires IsRun(ss, acts) && m < |acts|
    ensures Inv(ss[m]) && Enabled(ss[m], acts[m]) && ClientOk(ss[m].clients[acts[m].c], N(ss[m]))
    ensures ss[m + 1] == Apply(ss[m], acts[m]) && N(ss[m + 1]) == N(ss[m])
    ensures |ss[m + 1].clients| == |ss[m].clients|
    ensures forall d :: 0 <= d < |ss[m].clients| && d != acts[m].c ==> ss[m + 1].clients[d] == ss[m].clients[d]
  {
    RunInv(ss, acts, m);
    assert StepAt(ss, acts, m);
    StepInv(ss[m], acts[m]);
    OthersStay(ss[m], acts[m]);
  }

  lemma OthersStay(s: State, a: Action)
    requires Inv(s) && Enabled(s, a) && ClientOk(s.clients[a.c], N(s)) && |Apply(s, a).clients| == |s.clients|
    ensures forall d :: 0 <= d < |s.clients| && d != a.c ==> Apply(s, a).clients[d] == s.clients[d]
  {
  }

  lemma SentFirst(ss: seq<State>, acts: seq<Action>, c: nat, r: nat, e: Elem, k: nat)
    requires IsRun(ss, acts) && k < |acts| && acts[k].Invoke? && acts[k].c == c && acts[k].call == One(e)
             && r < N(ss[0])
    ensures SentSoFar(ss, acts, c, r, e, k, k + 1)
  {
    RunStep(ss, acts, k);
    RunInv(ss, acts, k);
    assert SilentAt(ss, acts, c, r, k);
  }

  lemma SentNext(ss: seq<State>, acts: seq<Action>, c: nat, r: nat, e: Elem, k: nat, m: nat)
    requires IsRun(ss, acts) && k < m < |acts| && SentSoFar(ss, acts, c, r, e, k, m) && r < N(ss[0])
    requires acts[m].c == c ==> acts[m].Advance?
    ensures SentSoFar(ss, acts, c, r, e, k, m + 1)
  {
    RunStep(ss, acts, m);
    RunInv(ss, acts, m);
    if acts[m].c == c { OwnStepSends(ss[m], c, acts[m].random, r, e); }
    SentOneMore(ss, acts, c, r, e, k, m);
  }

  lemma SentOneMore(ss: seq<State>, acts: seq<Action>, c: nat, r: nat, e: Elem, k: nat, m: nat)
    requires |ss| == |acts| + 1 && k < m < |acts| && SentSoFar(ss, acts, c, r, e, k, m) && r < N(ss[m]) == N(ss[m + 1])
    requires |ss[m + 1].clients| == |ss[m].clients| && !ss[m + 1].clients[c].Idle?
             && ss[m + 1].clients[c].call == One(e)
    requires acts[m].c != c ==> ss[m + 1].clients[c] == ss[m].clients[c]
    requires acts[m].c == c ==>
               && (Reached(ss[m + 1].clients[c], r) <==>
                    Reached(ss[m].clients[c], r) || ss[m + 1].logs[r] != ss[m].logs[r])
               && (ss[m + 1].logs[r] != ss[m].logs[r] ==>
                     && ss[m].clients[c].Sending? && !Reached(ss[m].clients[c], r)
                     && ss[m + 1].logs[r] == ss[m].logs[r] + [e])
    ensures SentSoFar(ss, acts, c, r, e, k, m + 1)
  {
    if Reached(ss[m].clients[c], r) {
      assert SilentAt(ss, acts, c, r, m);
      var j :| k < j < m && SendsAt(ss, acts, c, r, e, j)
               && forall h :: k <= h < m && h != j ==> SilentAt(ss, acts, c, r, h);
      assert k < j < m + 1 && forall h :: k <= h < m + 1 && h != j ==> SilentAt(ss, acts, c, r, h);
    } else if Reached(ss[m + 1].clients[c], r) {
      assert SendsAt(ss, acts, c, r, e, m);
    } else {
      assert SilentAt(ss, acts, c, r, m);
    }
  }

  lemma {:induction false} SentUpTo(ss: seq<State>, acts: seq<Action>, c: nat, r: nat, e: Elem, k: nat, m: nat, i: nat)
    requires IsRun(ss, acts) && InCall(acts, c, k, i, One(e)) && k < m <= i && r < N(ss[0])
    ensures SentSoFar(ss, acts, c, r, e, k, m)
  {
    if m == k + 1 {
      SentFirst(ss, acts, c, r, e, k);
    } else {
      SentUpTo(ss, acts, c, r, e, k, m - 1, i);
      SentNext(ss, acts, c, r, e, k, m - 1);
    }
  }

  /**
   A finished single-element insert has, between its invocation and its answer, sent its element to
   every replica exactly once if it answers TRUE, and to none if it aborts.
   */
  lemma TrueInsertIsEverywhere(ss: seq<State>, acts: seq<Action>, k: nat, i: nat, c: nat, e: Elem, ans: Answer, r: nat)
    requires IsRun(ss, acts) && InCall(acts, c, k, i, One(e)) && r < N(ss[0])
    requires c < |ss[i].clients| && ss[i].clients[c] == Finished(One(e), ans)
    ensures if ans == TRUE then SentOnce(ss, acts, c, r, e, k, i) else NotSent(ss, acts, c, r, k, i)
  {
    SentUpTo(ss, acts, c, r, e, k, i, i);
  }

  /** So the replica has it once more than before the call. */
  lemma TrueInsertAddsOne(ss: seq<State>, acts: seq<Action>, k: nat, i: nat, c: nat, e: Elem, r: nat)
    requires IsRun(ss, acts) && InCall(acts, c, k, i, One(e)) && r < N(ss[0])
    requires c < |ss[i].clients| && ss[i].clients[c] == Finished(One(e), TRUE)
    ensures N(ss[k]) == N(ss[i]) == N(ss[0])
    ensures multiset(ss[i].logs[r])[e] > multiset(ss[k].logs[r])[e]
  {
    TrueInsertIsEverywhere(ss, acts, k, i, c, e, TRUE, r);
    var j :| k < j < i && SendsAt(ss, acts, c, r, e, j);
    LogsGrow(ss, acts, k, j, r);
    LogsGrow(ss, acts, j + 1, i, r);
    CountGrows(ss[k].logs[r], ss[j].logs[r], e);
    CountGrows(ss[j + 1].logs[r], ss[i].logs[r], e);
  }

  lemma CountGrows(a: seq<Elem>, b: seq<Elem>, e: Elem)
    requires a <= b
    ensures multiset(a)[e] <= multiset(b)[e]
  {
    assert b == a + b[|a|..];
  }

  /** Logs are only ever appended to. */
  lemma {:induction false} LogsGrow(ss: seq<State>, acts: seq<Action>, k: nat, i: nat, r: nat)
    requires IsRun(ss, acts) && k <= i < |ss| && r < N(ss[0])
    ensures N(ss[k]) == N(ss[i]) == N(ss[0]) && ss[k].logs[r] <= ss[i].logs[r]
  {
    RunInv(ss, acts, i);
    if k < i {
      LogsGrow(ss, acts, k, i - 1, r);
      RunStep(ss, acts, i - 1);
      StepAppends(ss[i - 1], acts[i - 1], r);
    }
  }

  lemma StepAppends(s: State, a: Action, r: nat)
    requires Inv(s) && Enabled(s, a) && ClientOk(s.clients[a.c], N(s)) && r < N(s) == N(Apply(s, a))
    ensures s.logs[r] <= Apply(s, a).logs[r]
  {
  }

  // ---- why an insert aborts ----

  /** The lock word client c swaps next is 1. */
  ghost predicate MeetsOne(s: State, c: nat) {
    && c < |s.clients| && s.clients[c].Acquiring? && N(s) >= 1 && ClientOk(s.clients[c], N(s))
    && var Acquiring(call, groups, start, owned) := s.clients[c];
    && Word(s, LockId((start + |owned|) % N(s), Primary(Elems(call)[|groups|].key))) == 1
  }

  ghost predicate MeetsOneAt(ss: seq<State>, acts: seq<Action>, c: nat, m: nat) {
    m < |acts| && m < |ss| && acts[m].Advance? && acts[m].c == c && MeetsOne(ss[m], c)
  }

  ghost predicate Failing(cl: Client) {
    (cl.Releasing? || cl.Finished?) && cl.ans == ABORT_FAILURE
  }

  lemma OwnStepFails(s: State, c: nat, random: nat)
    requires Inv(s) && Enabled(s, Advance(c, random)) && ClientOk(s.clients[c], N(s))
    ensures c < |Apply(s, Advance(c, random)).clients|
    ensures Failing(Apply(s, Advance(c, random)).clients[c]) <==> Failing(s.clients[c]) || MeetsOne(s, c)
  {
  }

  lemma {:induction false} FailsSoFar(ss: seq<State>, acts: seq<Action>, c: nat, call: Call, k: nat, m: nat, i: nat)
    requires IsRun(ss, acts) && InCall(acts, c, k, i, call) && k < m <= i
    ensures c < |ss[m].clients|
    ensures Failing(ss[m].clients[c]) <==> exists x :: k < x < m && MeetsOneAt(ss, acts, c, x)
  {
    if m == k + 1 {
      RunStep(ss, acts, k);
    } else {
      FailsSoFar(ss, acts, c, call, k, m - 1, i);
      FailingStep(ss, acts, c, m - 1);
    }
  }

  lemma FailingStep(ss: seq<State>, acts: seq<Action>, c: nat, m: nat)
    requires IsRun(ss, acts) && m < |acts| && c < |ss[m].clients| && (acts[m].c == c ==> acts[m].Advance?)
    ensures c < |ss[m + 1].clients|
    ensures Failing(ss[m + 1].clients[c]) <==> Failing(ss[m].clients[c]) || MeetsOneAt(ss, acts, c, m)
  {
    RunStep(ss, acts, m);
    if acts[m].c == c { OwnStepFails(ss[m], c, acts[m].random); }
  }

  /** A finished insert has aborted exactly if one of its own swaps met a word that was 1. */
  lemma AbortsExactly(ss: seq<State>, acts: seq<Action>, k: nat, i: nat, c: nat, call: Call, ans: Answer)
    requires IsRun(ss, acts) && InCall(acts, c, k, i, call)
    requires c < |ss[i].clients| && ss[i].clients[c] == Finished(call, ans)
    ensures ans == ABORT_FAILURE <==> exists x :: k < x < i && MeetsOneAt(ss, acts, c, x)
  {
    FailsSoFar(ss, acts, c, call, k, i, i);
  }
}
