/** Every step of the bank keeps the lock words right and no money is lost. */
module BankerSteps {
  import opened Banker

  lemma InitInv(s: State)
    requires Init(s)
    ensures Inv(s)
  {
    forall key: int ensures AccountOk(s, key) {}
  }

  // ---- locks ----

  /** A step that touches no lock and leaves what the thread holds as it was. */
  lemma ThreadOnly(s: State, s': State, t: nat)
    requires LocksOk(s) && t < |s.threads| && |s'.threads| == |s.threads| && s'.threads == s.threads[t := s'.threads[t]]
    requires s'.locks == s.locks && s'.buckets == s.buckets && InRange(s', s'.threads[t])
    requires forall i: nat :: i < s.buckets ==> SameHeld(s, s.threads[t], s'.threads[t], i)
    ensures LocksOk(s')
  {
    forall i, u | 0 <= i < s'.buckets && 0 <= u < |s'.threads| ensures WordOk(s', i, u) {
      assert WordOk(s, i, u) && SameHeld(s, s.threads[t], s'.threads[t], i);
    }
    forall i | 0 <= i < s'.buckets ensures LockOk(s', i) { assert LockOk(s, i); }
  }

  ghost predicate SameHeld(s: State, th: Thread, th': Thread, i: nat)
    requires s.buckets > 0
  {
    (HoldsWrite(s, th, i) <==> HoldsWrite(s, th', i)) && (HoldsRead(s, th, i) <==> HoldsRead(s, th', i))
  }

  /** A step that changes lock l for thread t only. */
  lemma LockAndThread(s: State, s': State, t: nat, l: nat)
    requires LocksOk(s) && t < |s.threads| && |s'.threads| == |s.threads| && s'.threads == s.threads[t := s'.threads[t]]
    requires l < s.buckets == s'.buckets == |s'.locks| && s'.locks == s.locks[l := s'.locks[l]]
    requires forall i: nat :: i < s.buckets && i != l ==> SameHeld(s, s.threads[t], s'.threads[t], i)
    requires WellFormed(s') && LockOk(s', l) && forall u :: 0 <= u < |s.threads| ==> WordOk(s', l, u)
    ensures LocksOk(s')
  {
    forall i, u | 0 <= i < s'.buckets && 0 <= u < |s'.threads| ensures WordOk(s', i, u) {
      assert WordOk(s, i, u);
      if i != l { assert SameHeld(s, s.threads[t], s'.threads[t], i); }
    }
    forall i | 0 <= i < s'.buckets ensures LockOk(s', i) { assert LockOk(s, i); }
  }

  lemma TakeWriteLocks(s: State, t: nat)
    requires LocksOk(s) && t < |s.threads| && (s.threads[t].TakeFirst? || s.threads[t].TakeSecond?) && !Blocked(s, t)
    ensures LocksOk(Step(s, t))
  {
    var s', th := Step(s, t), s.threads[t];
    var l := Wanted(s, th);
    assert LockOk(s, l);
    forall u | 0 <= u < |s.threads| ensures WordOk(s', l, u) { assert WordOk(s, l, u); }
    LockAndThread(s, s', t, l);
  }

  lemma DropWriteLocks(s: State, t: nat)
    requires LocksOk(s) && t < |s.threads| && (s.threads[t].DropFirst? || s.threads[t].DropSecond?)
    ensures LocksOk(Step(s, t))
  {
    var s', th := Step(s, t), s.threads[t];
    var l := if th.DropFirst? then First(s, th.d) else Second(s, th.d);
    assert LockOk(s, l) && WordOk(s, l, t);
    forall u | 0 <= u < |s.threads| ensures WordOk(s', l, u) { assert WordOk(s, l, u); }
    LockAndThread(s, s', t, l);
  }

  lemma ReadLocks(s: State, t: nat)
    requires LocksOk(s) && t < |s.threads| && (s.threads[t].TakeReads? || s.threads[t].DropReads?) && !Blocked(s, t)
    ensures LocksOk(Step(s, t))
  {
    var s', th := Step(s, t), s.threads[t];
    var l := th.next;
    assert LockOk(s, l) && WordOk(s, l, t);
    forall u | 0 <= u < |s.threads| ensures WordOk(s', l, u) { assert WordOk(s, l, u); }
    assert LockOk(s', l);
    LockAndThread(s, s', t, l);
  }

  lemma StepLocks(s: State, t: nat)
    requires LocksOk(s) && t < |s.threads| && !s.threads[t].Idle? && !Blocked(s, t)
    ensures LocksOk(Step(s, t))
  {
    var th := s.threads[t];
    if th.TakeFirst? || th.TakeSecond? {
      TakeWriteLocks(s, t);
    } else if th.DropFirst? || th.DropSecond? {
      DropWriteLocks(s, t);
    } else if th.TakeReads? || th.DropReads? {
      ReadLocks(s, t);
    } else {
      ThreadOnly(s, Step(s, t), t);
    }
  }

  // ---- money ----

  /** Money moves only under the write locks of the buckets it moves between. */
  predicate Applying(th: Thread) {
    th.ReadSource? || th.WriteSource? || th.ReadTarget? || th.WriteTarget? || th.Restore?
  }

  lemma BucketsHeld(s: State, th: Thread)
    requires s.buckets > 0 && Applying(th)
    ensures HoldsWrite(s, th, Hash(s, th.d.src)) && HoldsWrite(s, th, Hash(s, th.d.dst))
  {
  }

  /** No other thread is applying a deposit to these accounts, and none is summing. */
  lemma Alone(s: State, t: nat, u: nat)
    requires LocksOk(s) && t < |s.threads| && u < |s.threads| && t != u && Applying(s.threads[t])
    ensures !s.threads[u].Summing?
    ensures Applying(s.threads[u]) ==>
              var d, e := s.threads[t].d, s.threads[u].d;
              d.src != e.src && d.src != e.dst && d.dst != e.src && d.dst != e.dst
  {
    var th := s.threads[t];
    BucketsHeld(s, th);
    Exclusion(s, t, u, Hash(s, th.d.src));
    Exclusion(s, t, u, Hash(s, th.d.dst));
    if Applying(s.threads[u]) { BucketsHeld(s, s.threads[u]); }
  }

  lemma NetOneMore(ledger: seq<Deposit>, d: Deposit, key: int)
    ensures Net(ledger + [d], key) == Net(ledger, key) + Delta(d, key)
  {
    assert (ledger + [d])[..|ledger|] == ledger;
  }

  /** A step that changes no account and posts nothing. */
  lemma SameMoney(s: State, s': State, t: nat)
    requires MoneyOk(s) && t < |s.threads| && |s'.threads| == |s.threads| && s'.threads == s.threads[t := s'.threads[t]]
    requires s'.accounts == s.accounts && s'.initial == s.initial && s'.ledger == s.ledger && s'.range == s.range
    requires ThreadOk(s', s'.threads[t]) && DepositOk(s', s'.threads[t])
    requires forall key: int :: InFlight(s.threads[t], key) <==> InFlight(s'.threads[t], key)
    ensures MoneyOk(s')
  {
    forall u | 0 <= u < |s'.threads| ensures ThreadOk(s', s'.threads[u]) && DepositOk(s', s'.threads[u]) {
      if u != t { assert ThreadOk(s, s.threads[u]) && DepositOk(s, s.threads[u]); }
    }
    forall key: int ensures AccountOk(s', key) {
      assert AccountOk(s, key);
      if Settled(s', key) {
        forall u | 0 <= u < |s.threads| ensures !InFlight(s.threads[u], key) {
          assert !InFlight(s'.threads[u], key);
        }
      }
    }
  }

  /** Only accounts of deposit d change, and other threads' views of theirs do not. */
  lemma OthersOk(s: State, s': State, t: nat, u: nat)
    requires Inv(s) && t < |s.threads| && u < |s.threads| && t != u && Applying(s.threads[t])
    requires s'.initial == s.initial && s'.range == s.range
    requires s'.accounts.Keys == s.accounts.Keys
    requires forall key: int | key != s.threads[t].d.src && key != s.threads[t].d.dst ::
               BalanceOf(s'.accounts, key) == BalanceOf(s.accounts, key) && Posted(s', key) == Posted(s, key)
    ensures ThreadOk(s', s.threads[u])
  {
    Alone(s, t, u);
    assert ThreadOk(s, s.threads[u]);
    var th := s.threads[u];
    if Applying(th) {
      assert BalanceOf(s'.accounts, th.d.src) == BalanceOf(s.accounts, th.d.src);
      assert BalanceOf(s'.accounts, th.d.dst) == BalanceOf(s.accounts, th.d.dst);
      assert Posted(s', th.d.src) == Posted(s, th.d.src);
    }
  }

  lemma WriteSourceMoney(s: State, t: nat)
    requires Inv(s) && t < |s.threads| && s.threads[t].WriteSource?
    ensures MoneyOk(Step(s, t))
  {
    var s', th := Step(s, t), s.threads[t];
    assert ThreadOk(s, th) && AccountOk(s, th.d.src);
    NotInFlight(s, t);
    forall u | 0 <= u < |s'.threads| ensures ThreadOk(s', s'.threads[u]) && DepositOk(s', s'.threads[u]) {
      if u != t { OthersOk(s, s', t, u); } else { assert DepositOk(s, th); }
    }
    forall key: int ensures AccountOk(s', key) {
      assert AccountOk(s, key);
      if key == th.d.src {
        assert InFlight(s'.threads[t], key);
      } else if Settled(s', key) {
        SettledBefore(s, s', t, key);
      }
    }
  }

  lemma SettledBefore(s: State, s': State, t: nat, key: int)
    requires t < |s.threads| == |s'.threads| && s'.threads == s.threads[t := s'.threads[t]]
    requires Settled(s', key) && !InFlight(s.threads[t], key)
    ensures Settled(s, key)
  {
    forall u | 0 <= u < |s.threads| ensures !InFlight(s.threads[u], key) { assert !InFlight(s'.threads[u], key); }
  }

  /** While one thread applies a deposit, no other has money of its accounts in flight. */
  lemma NotInFlight(s: State, t: nat)
    requires LocksOk(s) && t < |s.threads| && Applying(s.threads[t])
    ensures forall u :: 0 <= u < |s.threads| && u != t ==>
              !InFlight(s.threads[u], s.threads[t].d.src) && !InFlight(s.threads[u], s.threads[t].d.dst)
  {
    forall u | 0 <= u < |s.threads| && u != t
      ensures !InFlight(s.threads[u], s.threads[t].d.src) && !InFlight(s.threads[u], s.threads[t].d.dst)
    {
      Alone(s, t, u);
    }
  }

  lemma RestoreMoney(s: State, t: nat)
    requires Inv(s) && t < |s.threads| && s.threads[t].Restore?
    ensures MoneyOk(Step(s, t))
  {
    var s', th := Step(s, t), s.threads[t];
    assert ThreadOk(s, th) && AccountOk(s, th.d.src);
    forall u | 0 <= u < |s'.threads| ensures ThreadOk(s', s'.threads[u]) && DepositOk(s', s'.threads[u]) {
      if u != t { OthersOk(s, s', t, u); } else { assert DepositOk(s, th); }
    }
    forall key: int ensures AccountOk(s', key) {
      assert AccountOk(s, key);
      if key != th.d.src && Settled(s', key) {
        SettledBefore(s, s', t, key);
      }
    }
  }

  lemma WriteTargetMoney(s: State, t: nat)
    requires Inv(s) && t < |s.threads| && s.threads[t].WriteTarget?
    ensures MoneyOk(Step(s, t))
  {
    var s', th := Step(s, t), s.threads[t];
    var d := th.d;
    assert ThreadOk(s, th) && AccountOk(s, d.src) && AccountOk(s, d.dst) && DepositOk(s, th);
    forall key: int ensures Posted(s', key) == Posted(s, key) + Delta(d, key) { NetOneMore(s.ledger, d, key); }
    forall u | 0 <= u < |s'.threads| ensures ThreadOk(s', s'.threads[u]) && DepositOk(s', s'.threads[u]) {
      if u != t { OthersOk(s, s', t, u); }
    }
    NotInFlight(s, t);
    forall key: int ensures AccountOk(s', key) {
      assert AccountOk(s, key);
      NetOneMore(s.ledger, d, key);
      if key != d.src && Settled(s', key) {
        SettledBefore(s, s', t, key);
      }
    }
  }

  /** With nothing in flight the accounts add up to what they did at the start. */
  lemma {:induction false} SettledSum(s: State, n: nat)
    requires MoneyOk(s) && (forall key: int :: Settled(s, key)) && n <= s.range
    ensures Sum(s.accounts, n) == Sum(s.initial, n) + NetSum(s.ledger, n)
  {
    if n > 0 {
      SettledSum(s, n - 1);
      assert AccountOk(s, n - 1) && Settled(s, n - 1);
    }
  }

  function NetSum(ledger: seq<Deposit>, n: nat): real {
    if n == 0 then 0.0 else NetSum(ledger, n - 1) + Net(ledger, n - 1)
  }

  lemma {:induction false} DeltaSum(ledger: seq<Deposit>, n: nat)
    requires ledger != []
    ensures var d := ledger[|ledger| - 1];
            NetSum(ledger, n) == NetSum(ledger[..|ledger| - 1], n)
              + (if d.dst < n then d.amount else 0.0) - (if d.src < n then d.amount else 0.0)
  {
    if n > 0 { DeltaSum(ledger, n - 1); }
  }

  /** Deposits within the range cancel out. */
  lemma {:induction false} NetCancels(ledger: seq<Deposit>, n: nat)
    requires forall i :: 0 <= i < |ledger| ==> ledger[i].src < n && ledger[i].dst < n
    ensures NetSum(ledger, n) == 0.0
  {
    if ledger == [] {
      NothingPosted(n);
    } else {
      NetCancels(ledger[..|ledger| - 1], n);
      DeltaSum(ledger, n);
    }
  }

  lemma {:induction false} NothingPosted(n: nat)
    ensures NetSum([], n) == 0.0
  {
    if n > 0 { NothingPosted(n - 1); }
  }

  /** A balance that has read every account has the initial total. */
  lemma SummingMoney(s: State, t: nat)
    requires Inv(s) && t < |s.threads| && s.threads[t].Summing?
    ensures MoneyOk(Step(s, t))
  {
    var s', th := Step(s, t), s.threads[t];
    assert ThreadOk(s, th);
    if th.next == s.range {
      forall key: int ensures Settled(s, key) {
        forall u | 0 <= u < |s.threads| ensures !InFlight(s.threads[u], key) {
          if InFlight(s.threads[u], key) { Alone(s, u, t); }
        }
      }
      SettledSum(s, s.range);
      NetCancels(s.ledger, s.range);
    }
    SameMoney(s, s', t);
  }

  lemma StepMoney(s: State, t: nat)
    requires Inv(s) && t < |s.threads| && !s.threads[t].Idle? && !Blocked(s, t)
    ensures MoneyOk(Step(s, t))
  {
    var th := s.threads[t];
    assert ThreadOk(s, th) && DepositOk(s, th);
    if th.WriteSource? {
      WriteSourceMoney(s, t);
    } else if th.WriteTarget? {
      WriteTargetMoney(s, t);
    } else if th.Restore? {
      RestoreMoney(s, t);
    } else if th.Summing? {
      SummingMoney(s, t);
    } else {
      SameMoney(s, Step(s, t), t);
    }
  }

  /** Every step keeps the invariant. */
  lemma StepInv(s: State, t: nat)
    requires Inv(s) && t < |s.threads| && !s.threads[t].Idle? && !Blocked(s, t)
    ensures Inv(Step(s, t))
  {
    StepLocks(s, t);
    StepMoney(s, t);
  }

  lemma StartDepositInv(s: State, t: nat, d: Deposit)
    requires Inv(s) && CanStart(s, t, d)
    ensures Inv(StartDeposit(s, t, d))
  {
    ThreadOnly(s, StartDeposit(s, t, d), t);
    SameMoney(s, StartDeposit(s, t, d), t);
  }

  lemma StartBalanceInv(s: State, t: nat)
    requires Inv(s) && t < |s.threads| && s.threads[t].Idle?
    ensures Inv(StartBalance(s, t))
  {
    ThreadOnly(s, StartBalance(s, t), t);
    SameMoney(s, StartBalance(s, t), t);
  }
}
