/** Every step of the replicated write protocol keeps the invariant. */
module ReplicaSteps {
  import opened ReplicaLocks

  // ---- acquiring ----

  lemma LocksAppend(g: seq<nat>, r: nat, index: int)
    ensures Locks(g + [r], index) == Locks(g, index) + [LockId(r, index)]
  {
  }

  lemma GroupLocksAppend(es: seq<Elem>, gs: seq<seq<nat>>, g: seq<nat>)
    requires |gs| < |es|
    ensures GroupLocks(es, gs + [g]) == GroupLocks(es, gs) + Locks(g, Primary(es[|gs|].key))
  {
    assert (gs + [g])[..|gs|] == gs;
  }

  lemma ConflictClient(cl: Client, n: nat)
    requires n >= 1 && cl.Acquiring? && ClientOk(cl, n)
    ensures ClientOk(AfterConflict(cl), n)
    ensures Bag(AfterConflict(cl)) == Bag(cl)
  {
    BackwardsSameLocks(Elems(cl.call), cl.groups);
    AbortPlanInRange(Elems(cl.call), cl.groups, cl.owned, n);
  }

  lemma SwapPartial(cl: Client, n: nat, random: nat)
    requires n >= 1 && cl.Acquiring? && ClientOk(cl, n) && |cl.owned| + 1 < n
    ensures ClientOk(AfterSwap(cl, n, random), n)
    ensures Bag(AfterSwap(cl, n, random)) == Bag(cl) + multiset{NextLock(cl, n)}
  {
    var l := NextLock(cl, n);
    LocksAppend(cl.owned, l.replica, l.index);
  }

  lemma SwapLast(cl: Client, n: nat, random: nat)
    requires n >= 1 && cl.Acquiring? && ClientOk(cl, n) && |cl.owned| + 1 == n
    ensures ClientOk(AfterSwap(cl, n, random), n)
    ensures Bag(AfterSwap(cl, n, random)) == Bag(cl) + multiset{NextLock(cl, n)}
  {
    LastGroup(cl, n, random);
    LastBag(cl, n, random);
  }

  lemma LastGroup(cl: Client, n: nat, random: nat)
    requires n >= 1 && cl.Acquiring? && ClientOk(cl, n) && |cl.owned| + 1 == n
    ensures ClientOk(AfterSwap(cl, n, random), n)
  {
    var owned := cl.owned + [NextLock(cl, n).replica];
    Wrap(cl.start, n);
    assert Around(owned, n);
  }

  lemma LastBag(cl: Client, n: nat, random: nat)
    requires n >= 1 && cl.Acquiring? && ClientOk(cl, n) && |cl.owned| + 1 == n && ClientOk(AfterSwap(cl, n, random), n)
    ensures Bag(AfterSwap(cl, n, random)) == Bag(cl) + multiset{NextLock(cl, n)}
  {
    var es, l, i := Elems(cl.call), NextLock(cl, n), |cl.groups|;
    var owned := cl.owned + [l.replica];
    LocksAppend(cl.owned, l.replica, l.index);
    GroupLocksAppend(es, cl.groups, owned);
    assert Bag(AfterSwap(cl, n, random)) == multiset(GroupLocks(es, cl.groups + [owned]));
  }

  lemma SwapClient(cl: Client, n: nat, random: nat)
    requires n >= 1 && cl.Acquiring? && ClientOk(cl, n)
    ensures ClientOk(AfterSwap(cl, n, random), n)
    ensures Bag(AfterSwap(cl, n, random)) == Bag(cl) + multiset{NextLock(cl, n)}
  {
    if |cl.owned| + 1 < n { SwapPartial(cl, n, random); } else { SwapLast(cl, n, random); }
  }

  lemma {:induction false} BackwardsInRange(es: seq<Elem>, gs: seq<seq<nat>>, n: nat)
    requires |gs| <= |es|
    requires forall j :: 0 <= j < |gs| ==> Around(gs[j], n)
    ensures forall l :: l in Backwards(es, gs) ==> l.replica < n
  {
    if gs != [] { BackwardsInRange(es, gs[..|gs| - 1], n); }
  }

  lemma AbortPlanInRange(es: seq<Elem>, gs: seq<seq<nat>>, owned: seq<nat>, n: nat)
    requires |gs| < |es|
    requires forall j :: 0 <= j < |gs| ==> Around(gs[j], n)
    requires forall i :: 0 <= i < |owned| ==> owned[i] < n
    ensures forall l :: l in Locks(owned, Primary(es[|gs|].key)) + Backwards(es, gs) ==> l.replica < n
  {
    BackwardsInRange(es, gs, n);
  }

  /** What the acting client holds grows by the word it swapped, if it found 0. */
  lemma AcquireClients(s: State, c: nat, random: nat)
    requires Inv(s) && c < |s.clients| && s.clients[c].Acquiring? && ClientOk(s.clients[c], N(s))
    ensures ClientsOk(Acquire(s, c, random)) && ClientOk(Acquire(s, c, random).clients[c], N(s))
    ensures Bag(Acquire(s, c, random).clients[c])
              == if Word(s, NextLock(s.clients[c], N(s))) == 1 then Bag(s.clients[c])
                 else Bag(s.clients[c]) + multiset{NextLock(s.clients[c], N(s))}
  {
    ConflictClient(s.clients[c], N(s));
    SwapClient(s.clients[c], N(s), random);
  }

  lemma AcquireOwners(s: State, c: nat, random: nat)
    requires Inv(s) && c < |s.clients| && s.clients[c].Acquiring? && ClientOk(s.clients[c], N(s))
    ensures ClientsOk(Acquire(s, c, random)) && OwnersOk(Acquire(s, c, random))
  {
    var l0 := NextLock(s.clients[c], N(s));
    assert Word(s, l0) == if l0 in s.owner then 1 else 0;
    AcquireClients(s, c, random);
    if Word(s, l0) == 1 {
      OwnersSame(s, Acquire(s, c, random), c);
    } else {
      OwnersGrow(s, Acquire(s, c, random), c, l0);
    }
  }

  /** The others are as they were, and so is what client c holds. */
  lemma OwnersSame(s: State, s': State, c: nat)
    requires N(s) >= 1 && ClientsOk(s) && OwnersOk(s) && ClientsOk(s') && N(s') == N(s)
             && c < |s.clients| == |s'.clients|
    requires s'.clients == s.clients[c := s'.clients[c]] && s'.owner == s.owner && s'.words == s.words
    requires ClientOk(s'.clients[c], N(s)) && ClientOk(s.clients[c], N(s)) && Bag(s'.clients[c]) == Bag(s.clients[c])
    ensures OwnersOk(s')
  {
    forall d, l | 0 <= d < |s'.clients| ensures BagOk(s', d, l) { assert BagOk(s, d, l); }
    forall l ensures Word(s', l) == if l in s'.owner then 1 else 0 {
      assert Word(s, l) == if l in s.owner then 1 else 0;
    }
  }

  /** Client c has set one more word. */
  lemma OwnersGrow(s: State, s': State, c: nat, l0: LockId)
    requires N(s) >= 1 && ClientsOk(s) && OwnersOk(s) && ClientsOk(s') && N(s') == N(s)
             && c < |s.clients| == |s'.clients|
    requires s'.clients == s.clients[c := s'.clients[c]] && l0 !in s.owner
    requires s'.owner == s.owner[l0 := c] && s'.words == s.words[l0 := 1]
    requires ClientOk(s'.clients[c], N(s)) && ClientOk(s.clients[c], N(s))
    requires Bag(s'.clients[c]) == Bag(s.clients[c]) + multiset{l0}
    ensures OwnersOk(s')
  {
    forall d, l | 0 <= d < |s'.clients| ensures BagOk(s', d, l) { BagGrows(s, s', c, l0, d, l); }
    WordsFollow(s, s');
  }

  lemma BagGrows(s: State, s': State, c: nat, l0: LockId, d: nat, l: LockId)
    requires ClientsOk(s) && ClientsOk(s') && N(s') == N(s) && c < |s.clients| == |s'.clients| && d < |s.clients|
    requires s'.clients == s.clients[c := s'.clients[c]] && l0 !in s.owner && s'.owner == s.owner[l0 := c]
    requires ClientOk(s'.clients[c], N(s)) && ClientOk(s.clients[c], N(s))
    requires Bag(s'.clients[c]) == Bag(s.clients[c]) + multiset{l0} && BagOk(s, d, l)
    ensures BagOk(s', d, l)
  {
  }

  /** Lock words follow their owners where both change for the same words. */
  lemma WordsFollow(s: State, s': State)
    requires forall l :: Word(s, l) == if l in s.owner then 1 else 0
    requires forall l :: Word(s', l) != Word(s, l) || (l in s'.owner) != (l in s.owner) ==>
               Word(s', l) == if l in s'.owner then 1 else 0
    ensures forall l :: Word(s', l) == if l in s'.owner then 1 else 0
  {
    forall l ensures Word(s', l) == if l in s'.owner then 1 else 0 {
      assert Word(s, l) == if l in s.owner then 1 else 0;
    }
  }

  lemma AcquireLogs(s: State, c: nat, random: nat)
    requires Inv(s) && c < |s.clients| && s.clients[c].Acquiring? && ClientOk(s.clients[c], N(s))
    requires ClientsOk(Acquire(s, c, random))
    ensures LogsOk(Acquire(s, c, random))
  {
    var s' := Acquire(s, c, random);
    var l0 := NextLock(s.clients[c], N(s));
    forall r, index | 0 <= r < N(s') ensures LogOk(s', r, index) {
      assert LogOk(s, r, index);
      if Writes(s', c, index) {
        assert Elems(s.clients[c].call) == [s.clients[c].call.elem];
        assert l0.index == index && Word(s, l0) != 1;
        forall d: nat ensures !Writes(s, d, index) {
          if Writes(s, d, index) { SenderOwnsAll(s, d, 0, l0.replica); }
        }
      }
      forall d: nat | d != c ensures Writes(s', d, index) == Writes(s, d, index) {}
      assert !Writes(s, c, index);
    }
  }

  lemma AcquireInv(s: State, c: nat, random: nat)
    requires Inv(s) && c < |s.clients| && s.clients[c].Acquiring? && ClientOk(s.clients[c], N(s))
    ensures Inv(Acquire(s, c, random))
  {
    AcquireOwners(s, c, random);
    AcquireLogs(s, c, random);
  }

  // ---- sending ----

  lemma {:induction false} GroupLocksInRange(es: seq<Elem>, gs: seq<seq<nat>>, n: nat)
    requires |gs| <= |es|
    requires forall j :: 0 <= j < |gs| ==> Around(gs[j], n)
    ensures forall l :: l in GroupLocks(es, gs) ==> l.replica < n
  {
    if gs != [] { GroupLocksInRange(es, gs[..|gs| - 1], n); }
  }

  lemma SendClients(s: State, c: nat)
    requires Inv(s) && c < |s.clients| && s.clients[c].Sending? && ClientOk(s.clients[c], N(s))
    ensures ClientsOk(Send(s, c)) && OwnersOk(Send(s, c))
  {
    var s', cl := Send(s, c), s.clients[c];
    GroupLocksInRange(Elems(cl.call), cl.groups, N(s));
    SendingMeansDistinct(s, c);
    assert ClientOk(s'.clients[c], N(s'));
    assert Bag(s'.clients[c]) == Bag(cl);
    forall d, l | 0 <= d < |s'.clients| ensures BagOk(s', d, l) {
      assert BagOk(s, d, l);
    }
    forall l ensures Word(s', l) == if l in s'.owner then 1 else 0 {
      assert Word(s, l) == if l in s.owner then 1 else 0;
    }
  }

  /** Around the ring, the first k+1 replicas are the first k and one not among them. */
  lemma PrefixGrows(g: seq<nat>, n: nat, k: nat, r: nat)
    requires Around(g, n) && k < n
    ensures r in g[..k + 1] <==> r in g[..k] || r == g[k]
    ensures g[k] !in g[..k]
  {
    assert g[..k + 1] == g[..k] + [g[k]];
    if g[k] in g[..k] {
      var i :| 0 <= i < k && g[i] == g[k];
      AroundDistinct(g[0], n, i, k);
    }
  }

  /** What a send of a single-element insert does, apart from the release it may lead to. */
  ghost predicate Delivers(s: State, c: nat, s': State) {
    && N(s) >= 1 && c < |s.clients| && s.clients[c].Sending? && ClientOk(s.clients[c], N(s))
    && s.clients[c].call.One?
    && var cl := s.clients[c];
    && var e, r0 := cl.call.elem, cl.groups[0][cl.sent];
    && s'.logs == s.logs[r0 := s.logs[r0] + [e]]
    && |s'.clients| == |s.clients|
    && (forall d :: 0 <= d < |s.clients| && d != c ==> s'.clients[d] == s.clients[d])
    && (if cl.sent + 1 < N(s) then s'.clients[c] == cl.(sent := cl.sent + 1) && s'.committed == s.committed
        else !s'.clients[c].Sending? && s'.committed == s.committed + [e])
  }

  lemma SendDelivers(s: State, c: nat)
    requires Inv(s) && c < |s.clients| && s.clients[c].Sending? && ClientOk(s.clients[c], N(s))
    requires s.clients[c].call.One?
    ensures Delivers(s, c, Send(s, c))
  {
    assert Around(s.clients[c].groups[0], N(s));
  }

  /** What replica r has of the written index after the send. */
  lemma SentProjection(s: State, c: nat, s': State, r: nat)
    requires Inv(s) && Delivers(s, c, s') && r < N(s)
    ensures var cl := s.clients[c];
            var index := Primary(cl.call.elem.key);
            Project(s'.logs[r], index) ==
              Project(s.committed, index) + (if r in cl.groups[0][..cl.sent + 1] then [cl.call.elem] else [])
  {
    var cl := s.clients[c];
    var e, g, k := cl.call.elem, cl.groups[0], cl.sent;
    var index := Primary(e.key);
    assert LogOk(s, r, index) && Writes(s, c, index);
    PrefixGrows(g, N(s), k, r);
    ProjectAppend(s.logs[g[k]], e, index);
  }

  lemma StillOneWriter(s: State, c: nat, s': State, d: nat)
    requires Inv(s) && Delivers(s, c, s') && d != c
    ensures !Writes(s', d, Primary(s.clients[c].call.elem.key))
  {
    var index := Primary(s.clients[c].call.elem.key);
    if Writes(s', d, index) {
      assert Writes(s, d, index) && Writes(s, c, index);
      OneWriter(s, c, d, index);
    }
  }

  lemma SendLogSameIndex(s: State, c: nat, s': State, r: nat)
    requires Inv(s) && Delivers(s, c, s') && ClientsOk(s') && r < N(s)
    ensures LogOk(s', r, Primary(s.clients[c].call.elem.key))
  {
    var cl := s.clients[c];
    var e, g, k := cl.call.elem, cl.groups[0], cl.sent;
    var index := Primary(e.key);
    SentProjection(s, c, s', r);
    forall d: nat | d != c ensures !Writes(s', d, index) { StillOneWriter(s, c, s', d); }
    if k + 1 == N(s) {
      AroundCovers(g, N(s), r);
      assert g[..k + 1] == g;
      ProjectAppend(s.committed, e, index);
    } else {
      assert Writes(s', c, index);
    }
  }

  lemma SendLogOtherIndex(s: State, c: nat, s': State, r: nat, index: int)
    requires Inv(s) && Delivers(s, c, s') && ClientsOk(s') && r < N(s)
    requires index != Primary(s.clients[c].call.elem.key)
    ensures LogOk(s', r, index)
  {
    var e := s.clients[c].call.elem;
    assert LogOk(s, r, index);
    ProjectAppend(s.logs[r], e, index);
    ProjectAppend(s.committed, e, index);
    SameWriters(s, s', c, r, index);
  }

  lemma SameWriters(s: State, s': State, c: nat, r: nat, index: int)
    requires ClientsOk(s) && ClientsOk(s') && |s.clients| == |s'.clients| && r < N(s) == N(s')
    requires forall d :: 0 <= d < |s.clients| && d != c ==> s'.clients[d] == s.clients[d]
    requires !Writes(s, c, index) && !Writes(s', c, index)
    requires Project(s'.logs[r], index) == Project(s.logs[r], index)
    requires Project(s'.committed, index) == Project(s.committed, index)
    requires LogOk(s, r, index)
    ensures LogOk(s', r, index)
  {
    forall d: nat ensures Writes(s', d, index) == Writes(s, d, index) {}
  }

  lemma SendInv(s: State, c: nat)
    requires Inv(s) && c < |s.clients| && s.clients[c].Sending? && ClientOk(s.clients[c], N(s))
    ensures Inv(Send(s, c))
  {
    SendClients(s, c);
    if s.clients[c].call.One? { SendDelivers(s, c); }
    SendLogs(s, c, Send(s, c));
  }

  lemma SendLogs(s: State, c: nat, s': State)
    requires Inv(s) && c < |s.clients| && s.clients[c].Sending? && ClientsOk(s') && |s'.clients| == |s.clients|
    requires s.clients[c].call.One? ==> Delivers(s, c, s')
    requires s.clients[c].call.Many? ==> s'.logs == s.logs && s'.committed == s.committed
    requires s.clients[c].call.Many? ==> s'.clients == s.clients[c := s'.clients[c]] && !s'.clients[c].Sending?
    ensures LogsOk(s')
  {
    var call := s.clients[c].call;
    forall r, index | 0 <= r < N(s') ensures LogOk(s', r, index) {
      if call.Many? {
        assert LogOk(s, r, index);
        SameWriters(s, s', c, r, index);
      } else if index == Primary(call.elem.key) {
        SendLogSameIndex(s, c, s', r);
      } else {
        SendLogOtherIndex(s, c, s', r, index);
      }
    }
  }

  // ---- releasing ----

  /** Every release swap finds 1, set by the releasing client itself. */
  lemma ReleaseFindsOne(s: State, c: nat)
    requires Inv(s) && c < |s.clients| && s.clients[c].Releasing? && s.clients[c].plan != []
    ensures var l := s.clients[c].plan[0];
            Word(s, l) == 1 && l in s.owner && s.owner[l] == c && Bag(s.clients[c])[l] == 1
  {
    var l := s.clients[c].plan[0];
    assert BagOk(s, c, l);
    assert Bag(s.clients[c])[l] >= 1;
  }

  lemma ReleaseInv(s: State, c: nat)
    requires Inv(s) && c < |s.clients| && s.clients[c].Releasing?
    ensures Inv(Release(s, c))
  {
    var s', cl := Release(s, c), s.clients[c];
    assert ClientOk(cl, N(s));
    ReleaseClients(s, c);
    if cl.plan != [] {
      ReleaseFindsOne(s, c);
      assert cl.plan == [cl.plan[0]] + cl.plan[1..];
      OwnersShrink(s, s', c, cl.plan[0]);
    } else {
      OwnersSame(s, s', c);
    }
    LogsUntouched(s, s', c);
  }

  lemma ReleaseClients(s: State, c: nat)
    requires Inv(s) && c < |s.clients| && s.clients[c].Releasing?
    ensures ClientsOk(Release(s, c)) && ClientOk(Release(s, c).clients[c], N(s))
  {
    var s', cl := Release(s, c), s.clients[c];
    assert ClientOk(cl, N(s));
    assert ClientOk(s'.clients[c], N(s));
  }

  /** Client c has released one of its words. */
  lemma OwnersShrink(s: State, s': State, c: nat, l0: LockId)
    requires N(s) >= 1 && ClientsOk(s) && OwnersOk(s) && ClientsOk(s') && N(s') == N(s)
             && c < |s.clients| == |s'.clients|
    requires s'.clients == s.clients[c := s'.clients[c]] && l0 in s.owner && s.owner[l0] == c
    requires s'.owner == s.owner - {l0} && s'.words == s.words[l0 := 0]
    requires ClientOk(s'.clients[c], N(s)) && ClientOk(s.clients[c], N(s))
    requires Bag(s.clients[c]) == Bag(s'.clients[c]) + multiset{l0}
    ensures OwnersOk(s')
  {
    forall d, l | 0 <= d < |s'.clients| ensures BagOk(s', d, l) { BagShrinks(s, s', c, l0, d, l); }
    WordsFollow(s, s');
  }

  lemma BagShrinks(s: State, s': State, c: nat, l0: LockId, d: nat, l: LockId)
    requires ClientsOk(s) && ClientsOk(s') && N(s') == N(s) && c < |s.clients| == |s'.clients| && d < |s.clients|
    requires s'.clients == s.clients[c := s'.clients[c]] && l0 in s.owner && s.owner[l0] == c
    requires s'.owner == s.owner - {l0} && ClientOk(s'.clients[c], N(s)) && ClientOk(s.clients[c], N(s))
    requires Bag(s.clients[c]) == Bag(s'.clients[c]) + multiset{l0} && BagOk(s, d, l)
    ensures BagOk(s', d, l)
  {
  }

  lemma LogsUntouched(s: State, s': State, c: nat)
    requires Inv(s) && ClientsOk(s') && c < |s.clients| == |s'.clients|
    requires s'.logs == s.logs && s'.committed == s.committed
    requires forall d :: 0 <= d < |s.clients| && d != c ==> s'.clients[d] == s.clients[d]
    requires forall index :: !Writes(s, c, index) && !Writes(s', c, index)
    ensures LogsOk(s')
  {
    forall r, index | 0 <= r < N(s') ensures LogOk(s', r, index) {
      assert LogOk(s, r, index);
      SameWriters(s, s', c, r, index);
    }
  }

  // ---- all steps ----

  lemma IdleStepInv(s: State, c: nat, cl: Client)
    requires Inv(s) && c < |s.clients| && ClientOk(cl, N(s))
    requires s.clients[c].Idle? || s.clients[c].Finished?
    requires Bag(cl) == multiset{} && (cl.Sending? ==> cl.call.Many?)
    ensures Inv(s.(clients := s.clients[c := cl]))
  {
    var s' := s.(clients := s.clients[c := cl]);
    forall d, l | 0 <= d < |s'.clients| ensures BagOk(s', d, l) {
      assert BagOk(s, d, l);
    }
    forall l ensures Word(s', l) == if l in s'.owner then 1 else 0 {
      assert Word(s, l) == if l in s.owner then 1 else 0;
    }
    LogsUntouched(s, s', c);
  }

  lemma StepInv(s: State, a: Action)
    requires Inv(s) && Enabled(s, a) && ClientOk(s.clients[a.c], N(s))
    ensures Inv(Apply(s, a)) && N(Apply(s, a)) == N(s) && |Apply(s, a).clients| == |s.clients|
  {
    match a
    case Invoke(c, call, random) => IdleStepInv(s, c, Begin(call, random, N(s)));
    case Return(c) => IdleStepInv(s, c, Idle);
    case Advance(c, random) =>
      if s.clients[c].Acquiring? { AcquireInv(s, c, random); }
      else if s.clients[c].Sending? { SendInv(s, c); }
      else { ReleaseInv(s, c); }
  }
}
