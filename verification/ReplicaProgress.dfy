/**
 When an insert can complete: with no lock word set, a client that takes all steps itself gets
 through exactly if the keys of its call have pairwise different indices.
 */
module ReplicaProgress {
  import opened ReplicaLocks
  import opened ReplicaRuns

  /** The longer run goes on from the shorter one by steps of client c alone. */
  ghost predicate ExtendsAlone(ss: seq<State>, acts: seq<Action>, ss': seq<State>, acts': seq<Action>, c: nat) {
    && IsRun(ss', acts') && ss <= ss' && acts <= acts'
    && forall i :: |acts| <= i < |acts'| ==> acts'[i].c == c
  }

  ghost predicate OnlyOwner(s: State, c: nat) {
    forall l :: l in s.owner ==> s.owner[l] == c
  }

  /** Client c is on its way to TRUE and nobody else owns a word. */
  ghost predicate OnItsWay(s: State, c: nat) {
    && c < |s.clients| && OnlyOwner(s, c)
    && var cl := s.clients[c];
    && (cl.Acquiring? || cl.Sending? || (cl.Releasing? && cl.ans == TRUE))
    && DistinctIndexes(Elems(cl.call))
  }

  lemma {:induction false} GroupLocksIndex(es: seq<Elem>, gs: seq<seq<nat>>, l: LockId)
    requires |gs| <= |es| && l in GroupLocks(es, gs)
    ensures exists j :: 0 <= j < |gs| && l.index == Primary(es[j].key)
  {
    var last := |gs| - 1;
    if l in GroupLocks(es, gs[..last]) {
      GroupLocksIndex(es, gs[..last], l);
      var j :| 0 <= j < last && l.index == Primary(es[j].key);
    } else {
      assert l in Locks(gs[last], Primary(es[last].key));
      assert l.index == Primary(es[last].key);
    }
  }

  /** With different indices the next lock word is not one the client already has. */
  lemma NextLockNew(cl: Client, n: nat)
    requires n >= 1 && cl.Acquiring? && ClientOk(cl, n) && DistinctIndexes(Elems(cl.call))
    ensures NextLock(cl, n) !in Bag(cl)
  {
    var es, l, k := Elems(cl.call), NextLock(cl, n), |cl.groups|;
    if l in GroupLocks(es, cl.groups) { GroupLocksIndex(es, cl.groups, l); }
    forall i | 0 <= i < |cl.owned| ensures cl.owned[i] != l.replica {
      if cl.owned[i] == l.replica { AroundDistinct(cl.start, n, i, |cl.owned|); }
    }
    assert l !in Locks(cl.owned, Primary(es[k].key));
  }

  lemma NextLockFree(s: State, c: nat)
    requires Inv(s) && OnItsWay(s, c) && s.clients[c].Acquiring?
    ensures ClientOk(s.clients[c], N(s)) && Word(s, NextLock(s.clients[c], N(s))) == 0
  {
    assert ClientOk(s.clients[c], N(s));
    var l := NextLock(s.clients[c], N(s));
    NextLockNew(s.clients[c], N(s));
    assert BagOk(s, c, l);
    assert Word(s, l) == if l in s.owner then 1 else 0;
  }

  /** How much the client still has to do. */
  ghost function Phase(cl: Client): nat {
    if cl.Acquiring? then 2 else if cl.Sending? then 1 else 0
  }

  ghost function Left(cl: Client, n: nat): int {
    match cl
    case Acquiring(call, groups, _, _) => |Elems(call)| - |groups|
    case Sending(_, _, sent) => n - sent
    case Releasing(_, plan, _) => |plan|
    case _ => 0
  }

  ghost function LeftOfKey(cl: Client, n: nat): int {
    if cl.Acquiring? then n - |cl.owned| else 0
  }

  ghost predicate Nearer(cl: Client, cl': Client, n: nat) {
    || Phase(cl') < Phase(cl)
    || (Phase(cl') == Phase(cl) && 0 <= Left(cl', n) < Left(cl, n))
    || (Phase(cl') == Phase(cl) && Left(cl', n) == Left(cl, n) && 0 <= LeftOfKey(cl', n) < LeftOfKey(cl, n))
  }

  /** Its next step brings it nearer, or finishes with TRUE, whatever `fastrand()` draws. */
  lemma NextStep(s: State, c: nat, random: nat)
    requires Inv(s) && OnItsWay(s, c)
    ensures Enabled(s, Advance(c, random)) && ClientOk(s.clients[c], N(s))
    ensures var s', call := Apply(s, Advance(c, random)), s.clients[c].call;
            || s'.clients[c] == Finished(call, TRUE)
            || (OnItsWay(s', c) && s'.clients[c].call == call && N(s') == N(s)
               && Nearer(s.clients[c], s'.clients[c], N(s)))
  {
    var cl := s.clients[c];
    assert ClientOk(cl, N(s));
    if cl.Acquiring? { NextLockFree(s, c); }
  }

  lemma {:induction false} Finishes(ss: seq<State>, acts: seq<Action>, c: nat)
    returns (ss': seq<State>, acts': seq<Action>)
    requires IsRun(ss, acts) && OnItsWay(ss[|acts|], c)
    ensures ExtendsAlone(ss, acts, ss', acts', c)
    ensures c < |ss'[|acts'|].clients| && ss'[|acts'|].clients[c] == Finished(ss[|acts|].clients[c].call, TRUE)
    decreases Phase(ss[|acts|].clients[c]), Left(ss[|acts|].clients[c], N(ss[|acts|])),
      LeftOfKey(ss[|acts|].clients[c], N(ss[|acts|]))
  {
    var s, a := ss[|acts|], Advance(c, 0);
    RunInv(ss, acts, |acts|);
    NextStep(s, c, 0);
    RunsExtend(ss, acts, a);
    ss', acts' := ss + [Apply(s, a)], acts + [a];
    if !ss'[|acts'|].clients[c].Finished? {
      ss', acts' := Finishes(ss', acts', c);
    }
  }

  /**
   From any reachable state with no word set, an idle client's call can run to TRUE by steps of that
   client alone if and only if the keys of the call have pairwise different indices; and if they have,
   no such steps, whatever they draw at random, lead to ABORT_FAILURE.
   */
  lemma CompletesExactly(ss: seq<State>, acts: seq<Action>, c: nat, call: Call)
    requires IsRun(ss, acts) && ss[|acts|].owner == map[] && c < |ss[|acts|].clients| && ss[|acts|].clients[c].Idle?
    ensures (exists ss', acts' :: CompletesAlone(ss, acts, ss', acts', c, call)) <==> DistinctIndexes(Elems(call))
    ensures DistinctIndexes(Elems(call)) ==>
              forall ss', acts' :: RunsAlone(ss, acts, ss', acts', c, call) ==> !HasAborted(ss'[|acts'|], c)
  {
    if DistinctIndexes(Elems(call)) {
      forall ss', acts' | RunsAlone(ss, acts, ss', acts', c, call) ensures !HasAborted(ss'[|acts'|], c) {
        StaysOnItsWay(ss, acts, ss', acts', c, call, |acts'|);
      }
      var s, a := ss[|acts|], Invoke(c, call, 0);
      RunInv(ss, acts, |acts|);
      RunsExtend(ss, acts, a);
      var ss1, acts1 := ss + [Apply(s, a)], acts + [a];
      var ss', acts' := Finishes(ss1, acts1, c);
      assert CompletesAlone(ss, acts, ss', acts', c, call);
    } else {
      forall ss', acts' ensures !CompletesAlone(ss, acts, ss', acts', c, call) {
        if CompletesAlone(ss, acts, ss', acts', c, call) { RunInv(ss', acts', |acts'|); }
      }
    }
  }

  /** The longer run invokes the call and goes on with it by steps of client c alone. */
  ghost predicate RunsAlone(
      ss: seq<State>, acts: seq<Action>, ss': seq<State>, acts': seq<Action>, c: nat, call: Call)
  {
    ExtendsAlone(ss, acts, ss', acts', c) && InCall(acts', c, |acts|, |acts'|, call)
  }

  ghost predicate HasAborted(s: State, c: nat) {
    c < |s.clients| && s.clients[c].Finished? && s.clients[c].ans == ABORT_FAILURE
  }

  lemma {:induction false} StaysOnItsWay(
      ss: seq<State>, acts: seq<Action>, ss': seq<State>, acts': seq<Action>, c: nat, call: Call, m: nat)
    requires IsRun(ss, acts) && ss[|acts|].owner == map[] && DistinctIndexes(Elems(call))
    requires RunsAlone(ss, acts, ss', acts', c, call) && |acts| < m <= |acts'|
    ensures OnItsWay(ss'[m], c) || (c < |ss'[m].clients| && ss'[m].clients[c] == Finished(call, TRUE))
    ensures OnItsWay(ss'[m], c) ==> ss'[m].clients[c].call == call
  {
    RunStep(ss', acts', m - 1);
    if m > |acts| + 1 {
      StaysOnItsWay(ss, acts, ss', acts', c, call, m - 1);
      assert acts'[m - 1].c == c && acts'[m - 1].Advance?;
      NextStep(ss'[m - 1], c, acts'[m - 1].random);
    } else {
      assert ss'[|acts|] == ss[|acts|];
    }
  }

  ghost predicate CompletesAlone(
      ss: seq<State>, acts: seq<Action>, ss': seq<State>, acts': seq<Action>, c: nat, call: Call)
  {
    && ExtendsAlone(ss, acts, ss', acts', c) && |acts'| > |acts| && acts'[|acts|].Invoke? && acts'[|acts|].call == call
    && c < |ss'[|acts'|].clients| && ss'[|acts'|].clients[c] == Finished(call, TRUE)
  }
}
