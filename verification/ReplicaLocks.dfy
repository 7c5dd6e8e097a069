/**
 The replicated write protocol: clients try-lock one lock word on every replica, in cyclic order
 from a random replica, back out on a conflict, send the write to every replica, and release.
 Any number of clients and replicas; one step is one compare-and-swap or one completed send.
 */
module ReplicaLocks {

  const SIZE: int := 1000000 / 8

  datatype Elem = Elem(key: int, val: int)

  /** `key % SIZE` with the remainder truncated toward zero, as for a 32-bit int key. */
  function Primary(key: int): int {
    if key >= 0 then key % SIZE else -((-key) % SIZE)
  }

  /**
   Two keys share an index exactly if they differ by a multiple of 125000 and, unless they are multiples
   of it themselves, have the same sign.
   */
  lemma SharesIndex(a: int, b: int)
    ensures Primary(a) == Primary(b) <==>
              (a - b) % 125000 == 0 && (a % 125000 == 0 || (a < 0 <==> b < 0))
    ensures 0 <= a < 125000 && 0 <= b < 125000 && a != b ==> Primary(a) != Primary(b)
  {
    RestOfKey(a);
    RestOfKey(b);
    SameRest(a, b);
  }

  lemma RestOfKey(a: int)
    ensures a >= 0 ==> Primary(a) == a % 125000
    ensures a < 0 ==> Primary(a) == if a % 125000 == 0 then 0 else a % 125000 - 125000
  {
  }

  lemma SameRest(a: int, b: int)
    ensures (a - b) % 125000 == 0 <==> a % 125000 == b % 125000
  {
  }

  datatype LockId = LockId(replica: nat, index: int)

  datatype Call = One(elem: Elem) | Many(elems: seq<Elem>)

  function Elems(call: Call): seq<Elem> {
    match call
    case One(e) => [e]
    case Many(es) => es
  }

  datatype Answer = TRUE | ABORT_FAILURE

  /** `groups` are the ownership sets of the keys already locked; `owned` is the one being built. */
  datatype Client =
    | Idle
    | Acquiring(call: Call, groups: seq<seq<nat>>, start: nat, owned: seq<nat>)
    | Sending(call: Call, groups: seq<seq<nat>>, sent: nat)
    | Releasing(call: Call, plan: seq<LockId>, ans: Answer)
    | Finished(call: Call, ans: Answer)

  /**
   `words` are the lock words (zero unless listed), `logs` the single-element writes delivered to each replica in
   order. Two history variables: `owner` says which client's swap set a word that has not been
   swapped back since, and `committed` lists the writes that reached every replica.
   */
  datatype State = State(
    words: map<LockId, int>, logs: seq<seq<Elem>>, clients: seq<Client>,
    owner: map<LockId, nat>, committed: seq<Elem>)

  /** `random` is the value drawn by `fastrand()` if the step begins a `prepareMessage`. */
  datatype Action = Invoke(c: nat, call: Call, random: nat) | Advance(c: nat, random: nat) | Return(c: nat)

  function N(s: State): nat { |s.logs| }

  function Word(s: State, l: LockId): int {
    if l in s.words then s.words[l] else 0
  }

  // ---- the steps ----

  ghost predicate Enabled(s: State, a: Action) {
    && N(s) >= 1 && a.c < |s.clients|
    && match a
       case Invoke(c, _, _) => s.clients[c].Idle?
       case Advance(c, _) => !s.clients[c].Idle? && !s.clients[c].Finished?
       case Return(c) => s.clients[c].Finished?
  }

  function Begin(call: Call, random: nat, n: nat): Client
    requires n >= 1
  {
    if |Elems(call)| == 0 then Sending(call, [], 0) else Acquiring(call, [], random % n, [])
  }

  ghost function Apply(s: State, a: Action): State
    requires Enabled(s, a) && ClientOk(s.clients[a.c], N(s))
  {
    match a
    case Invoke(c, call, random) => s.(clients := s.clients[c := Begin(call, random, N(s))])
    case Return(c) => s.(clients := s.clients[c := Idle])
    case Advance(c, random) =>
      (match s.clients[c]
       case Acquiring(_, _, _, _) => Acquire(s, c, random)
       case Sending(_, _, _) => Send(s, c)
       case Releasing(_, _, _) => Release(s, c))
  }

  /** The lock word the next iteration of `prepareMessage` swaps. */
  function NextLock(cl: Client, n: nat): LockId
    requires n >= 1 && cl.Acquiring? && |cl.groups| < |Elems(cl.call)|
  {
    LockId((cl.start + |cl.owned|) % n, Primary(Elems(cl.call)[|cl.groups|].key))
  }

  /** The client once its swap found 1: it releases what this key took, then the earlier keys. */
  function AfterConflict(cl: Client): Client
    requires cl.Acquiring? && |cl.groups| < |Elems(cl.call)|
  {
    var es := Elems(cl.call);
    Releasing(cl.call, Locks(cl.owned, Primary(es[|cl.groups|].key)) + Backwards(es, cl.groups), ABORT_FAILURE)
  }

  /** The client once its swap found 0. */
  function AfterSwap(cl: Client, n: nat, random: nat): Client
    requires n >= 1 && cl.Acquiring? && |cl.groups| < |Elems(cl.call)|
  {
    var owned := cl.owned + [NextLock(cl, n).replica];
    if |owned| < n then cl.(owned := owned)
    else if |cl.groups| + 1 < |Elems(cl.call)| then Acquiring(cl.call, cl.groups + [owned], random % n, [])
    else Sending(cl.call, cl.groups + [owned], 0)
  }

  /** One iteration of the loop in `prepareMessage`: swap 0 to 1, and back out if the word was 1. */
  ghost function Acquire(s: State, c: nat, random: nat): State
    requires N(s) >= 1 && c < |s.clients| && s.clients[c].Acquiring? && ClientOk(s.clients[c], N(s))
  {
    var cl := s.clients[c];
    var l := NextLock(cl, N(s));
    if Word(s, l) == 1 then
      s.(clients := s.clients[c := AfterConflict(cl)])
    else
      var s' := if Word(s, l) == 0 then s.(words := s.words[l := 1], owner := s.owner[l := c]) else s;
      s'.(clients := s.clients[c := AfterSwap(cl, N(s), random)])
  }

  /** One send of a single-element insert; the sends of a multi-element insert are not modelled. */
  ghost function Send(s: State, c: nat): State
    requires c < |s.clients| && s.clients[c].Sending? && ClientOk(s.clients[c], N(s))
  {
    var Sending(call, groups, sent) := s.clients[c];
    var release := Releasing(call, GroupLocks(Elems(call), groups), TRUE);
    if call.Many? then
      s.(clients := s.clients[c := release])
    else
      var r := groups[0][sent];
      var s' := s.(logs := s.logs[r := s.logs[r] + [call.elem]]);
      if sent + 1 < |groups[0]| then
        s'.(clients := s'.clients[c := Sending(call, groups, sent + 1)])
      else
        s'.(clients := s'.clients[c := release], committed := s'.committed + [call.elem])
  }

  /** One iteration of `release`: swap 1 to 0. */
  ghost function Release(s: State, c: nat): State
    requires c < |s.clients| && s.clients[c].Releasing?
  {
    var Releasing(call, plan, ans) := s.clients[c];
    if plan == [] then
      s.(clients := s.clients[c := Finished(call, ans)])
    else
      var s' := if Word(s, plan[0]) == 1 then s.(words := s.words[plan[0] := 0], owner := s.owner - {plan[0]}) else s;
      s'.(clients := s'.clients[c := Releasing(call, plan[1..], ans)])
  }

  // ---- lock lists ----

  function Locks(g: seq<nat>, index: int): (ls: seq<LockId>)
    ensures |ls| == |g| && forall i :: 0 <= i < |g| ==> ls[i] == LockId(g[i], index)
  {
    seq(|g|, i requires 0 <= i < |g| => LockId(g[i], index))
  }

  /** The locks of the first |gs| keys, in the order taken, which is also the order of a final release. */
  function GroupLocks(es: seq<Elem>, gs: seq<seq<nat>>): seq<LockId>
    requires |gs| <= |es|
  {
    if gs == [] then []
    else GroupLocks(es, gs[..|gs| - 1]) + Locks(gs[|gs| - 1], Primary(es[|gs| - 1].key))
  }

  /** The same locks, last key first, as an aborting multi-key call releases them. */
  function Backwards(es: seq<Elem>, gs: seq<seq<nat>>): seq<LockId>
    requires |gs| <= |es|
  {
    if gs == [] then []
    else Locks(gs[|gs| - 1], Primary(es[|gs| - 1].key)) + Backwards(es, gs[..|gs| - 1])
  }

  lemma {:induction false} BackwardsSameLocks(es: seq<Elem>, gs: seq<seq<nat>>)
    requires |gs| <= |es|
    ensures multiset(Backwards(es, gs)) == multiset(GroupLocks(es, gs))
  {
    if gs != [] { BackwardsSameLocks(es, gs[..|gs| - 1]); }
  }

  // ---- what a client has acquired and not yet released ----

  function Bag(cl: Client): multiset<LockId>
    requires cl.Acquiring? ==> |cl.groups| < |Elems(cl.call)|
    requires cl.Sending? ==> |cl.groups| <= |Elems(cl.call)|
  {
    match cl
    case Acquiring(call, groups, _, owned) =>
      multiset(GroupLocks(Elems(call), groups)) + multiset(Locks(owned, Primary(Elems(call)[|groups|].key)))
    case Sending(call, groups, _) => multiset(GroupLocks(Elems(call), groups))
    case Releasing(_, plan, _) => multiset(plan)
    case _ => multiset{}
  }

  /** A complete ownership set runs once around all n replicas. */
  ghost predicate Around(g: seq<nat>, n: nat) {
    n >= 1 && |g| == n && g[0] < n && forall i :: 0 <= i < n ==> g[i] == (g[0] + i) % n
  }

  ghost predicate DistinctIndexes(es: seq<Elem>) {
    forall i, j :: 0 <= i < j < |es| ==> Primary(es[i].key) != Primary(es[j].key)
  }

  ghost predicate ClientOk(cl: Client, n: nat) {
    match cl
    case Acquiring(call, groups, start, owned) =>
      && |groups| < |Elems(call)| && start < n && |owned| < n
      && (forall i :: 0 <= i < |owned| ==> owned[i] == (start + i) % n)
      && (forall j :: 0 <= j < |groups| ==> Around(groups[j], n))
    case Sending(call, groups, sent) =>
      && |groups| == |Elems(call)|
      && (forall j :: 0 <= j < |groups| ==> Around(groups[j], n))
      && (call.One? ==> sent < n)
    case Releasing(call, plan, ans) =>
      && (forall l :: l in plan ==> l.replica < n)
      && (ans == TRUE ==> DistinctIndexes(Elems(call)))
    case Finished(call, ans) => ans == TRUE ==> DistinctIndexes(Elems(call))
    case Idle => true
  }

  lemma Wrap(a: nat, n: nat)
    requires a < n + n && n >= 1
    ensures a % n == if a < n then a else a - n
  {
    if a >= n { assert a == n + (a - n); assert (a - n) / n == 0; assert a / n == 1; }
  }

  /** Going around reaches every replica... */
  lemma AroundCovers(g: seq<nat>, n: nat, r: nat)
    requires Around(g, n) && r < n
    ensures r in g
  {
    var i := if r >= g[0] then r - g[0] else r + n - g[0];
    Wrap(g[0] + i, n);
    assert g[i] == r;
  }

  /** ...and never twice. */
  lemma AroundDistinct(start: nat, n: nat, i: nat, j: nat)
    requires start < n && i < n && j < n && (start + i) % n == (start + j) % n
    ensures i == j
  {
    Wrap(start + i, n);
    Wrap(start + j, n);
  }

  lemma {:induction false} GroupLocksHas(es: seq<Elem>, gs: seq<seq<nat>>, n: nat, j: nat, r: nat)
    requires |gs| <= |es| && j < |gs| && r < n
    requires forall i :: 0 <= i < |gs| ==> Around(gs[i], n)
    ensures LockId(r, Primary(es[j].key)) in GroupLocks(es, gs)
  {
    var last := |gs| - 1;
    if j == last {
      AroundCovers(gs[last], n, r);
      var i :| 0 <= i < n && gs[last][i] == r;
      assert Locks(gs[last], Primary(es[last].key))[i] == LockId(r, Primary(es[j].key));
    } else {
      GroupLocksHas(es, gs[..last], n, j, r);
    }
  }

  /** Two keys of one call with the same index would make the call own one lock twice. */
  lemma {:induction false} SharedIndexCountsTwice(es: seq<Elem>, gs: seq<seq<nat>>, n: nat, i: nat, j: nat)
    requires |gs| <= |es| && i < j < |gs| && n >= 1
    requires forall k :: 0 <= k < |gs| ==> Around(gs[k], n)
    requires Primary(es[i].key) == Primary(es[j].key)
    ensures multiset(GroupLocks(es, gs))[LockId(0, Primary(es[j].key))] >= 2
  {
    var last := |gs| - 1;
    if j == last {
      GroupLocksHas(es, gs[..last], n, i, 0);
      GroupLocksHas([es[last]], [gs[last]], n, 0, 0);
      assert GroupLocks([es[last]], [gs[last]]) == Locks(gs[last], Primary(es[last].key));
    } else {
      SharedIndexCountsTwice(es, gs[..last], n, i, j);
    }
  }

  // ---- delivered writes of one index ----

  function Project(log: seq<Elem>, index: int): seq<Elem> {
    if log == [] then []
    else
      var e := log[|log| - 1];
      Project(log[..|log| - 1], index) + (if Primary(e.key) == index then [e] else [])
  }

  lemma ProjectAppend(log: seq<Elem>, e: Elem, index: int)
    ensures Project(log + [e], index) == Project(log, index) + (if Primary(e.key) == index then [e] else [])
  {
    assert (log + [e])[..|log|] == log;
  }

  /** Client c is between the first and the last send of a write to this index. */
  ghost predicate Writes(s: State, c: nat, index: int) {
    c < |s.clients| && s.clients[c].Sending? && s.clients[c].call.One? && Primary(s.clients[c].call.elem.key) == index
  }

  // ---- the invariant ----

  ghost predicate ClientsOk(s: State) {
    forall c :: 0 <= c < |s.clients| ==> ClientOk(s.clients[c], N(s))
  }

  ghost predicate OwnersOk(s: State)
    requires ClientsOk(s)
  {
    && (forall l :: Word(s, l) == if l in s.owner then 1 else 0)
    && (forall l :: l in s.owner ==> s.owner[l] < |s.clients|)
    && (forall c, l :: 0 <= c < |s.clients| ==> BagOk(s, c, l))
  }

  ghost predicate BagOk(s: State, c: nat, l: LockId)
    requires ClientsOk(s) && c < |s.clients|
  {
    assert ClientOk(s.clients[c], N(s));
    Bag(s.clients[c])[l] == if l in s.owner && s.owner[l] == c then 1 else 0
  }

  /** Replica r has every committed write of the index, then the one in flight if it was sent there. */
  ghost predicate LogOk(s: State, r: nat, index: int)
    requires ClientsOk(s) && r < N(s)
  {
    && (forall c: nat :: Writes(s, c, index) ==>
          var cl := s.clients[c];
          Project(s.logs[r], index) ==
            Project(s.committed, index) + (if r in cl.groups[0][..cl.sent] then [cl.call.elem] else []))
    && ((forall c: nat :: !Writes(s, c, index)) ==> Project(s.logs[r], index) == Project(s.committed, index))
  }

  ghost predicate LogsOk(s: State)
    requires ClientsOk(s)
  {
    forall r, index :: 0 <= r < N(s) ==> LogOk(s, r, index)
  }

  ghost predicate Inv(s: State) {
    N(s) >= 1 && ClientsOk(s) && OwnersOk(s) && LogsOk(s)
  }

  ghost predicate Init(s: State) {
    && N(s) >= 1 && s.words == map[] && s.owner == map[] && s.committed == []
    && (forall r :: 0 <= r < N(s) ==> s.logs[r] == [])
    && (forall c :: 0 <= c < |s.clients| ==> s.clients[c] == Idle)
  }

  lemma InitInv(s: State)
    requires Init(s)
    ensures Inv(s)
  {
    forall r, index | 0 <= r < N(s) ensures LogOk(s, r, index) {
      assert s.logs[r] == [];
    }
  }

  /** A sending client owns the lock word of its index on every replica. */
  lemma SenderOwnsAll(s: State, c: nat, j: nat, r: nat)
    requires N(s) >= 1 && ClientsOk(s) && OwnersOk(s) && c < |s.clients| && s.clients[c].Sending?
    requires j < |Elems(s.clients[c].call)| && r < N(s)
    ensures var l := LockId(r, Primary(Elems(s.clients[c].call)[j].key));
            l in s.owner && s.owner[l] == c && Word(s, l) == 1
  {
    var cl := s.clients[c];
    assert ClientOk(cl, N(s));
    var l := LockId(r, Primary(Elems(cl.call)[j].key));
    GroupLocksHas(Elems(cl.call), cl.groups, N(s), j, r);
    assert BagOk(s, c, l);
    assert Bag(cl)[l] >= 1;
  }

  lemma OneWriter(s: State, c: nat, d: nat, index: int)
    requires N(s) >= 1 && ClientsOk(s) && OwnersOk(s) && Writes(s, c, index) && Writes(s, d, index)
    ensures c == d
  {
    SenderOwnsAll(s, c, 0, 0);
    SenderOwnsAll(s, d, 0, 0);
  }

  lemma NoSharedIndex(es: seq<Elem>, gs: seq<seq<nat>>, n: nat, i: nat, j: nat)
    requires |gs| == |es| && i < j < |gs| && n >= 1
    requires forall k :: 0 <= k < |gs| ==> Around(gs[k], n)
    requires multiset(GroupLocks(es, gs))[LockId(0, Primary(es[j].key))] <= 1
    ensures Primary(es[i].key) != Primary(es[j].key)
  {
    if Primary(es[i].key) == Primary(es[j].key) {
      SharedIndexCountsTwice(es, gs, n, i, j);
    }
  }

  lemma SendingMeansDistinct(s: State, c: nat)
    requires N(s) >= 1 && ClientsOk(s) && OwnersOk(s) && c < |s.clients| && s.clients[c].Sending?
    ensures DistinctIndexes(Elems(s.clients[c].call))
  {
    var es := Elems(s.clients[c].call);
    forall i, j | 0 <= i < j < |es| ensures Primary(es[i].key) != Primary(es[j].key) {
      SendingPairDistinct(s, c, i, j);
    }
  }

  lemma SendingPairDistinct(s: State, c: nat, i: nat, j: nat)
    requires N(s) >= 1 && ClientsOk(s) && OwnersOk(s) && c < |s.clients| && s.clients[c].Sending?
    requires i < j < |Elems(s.clients[c].call)|
    ensures Primary(Elems(s.clients[c].call)[i].key) != Primary(Elems(s.clients[c].call)[j].key)
  {
    var cl := s.clients[c];
    var es := Elems(cl.call);
    assert ClientOk(cl, N(s));
    assert BagOk(s, c, LockId(0, Primary(es[j].key)));
    NoSharedIndex(es, cl.groups, N(s), i, j);
  }
}
