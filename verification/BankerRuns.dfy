/** What holds of the bank over whole runs: exact balances, conservation, no deadlock. */
module BankerRuns {
  import opened Banker
  import opened BankerSteps
  import opened BankTotals

  datatype Action = Begin(t: nat, d: Deposit) | BeginBalance(t: nat) | Go(t: nat)

  ghost predicate StepAt(ss: seq<State>, acts: seq<Action>, i: nat)
    requires |ss| == |acts| + 1 && i < |acts|
  {
    match acts[i]
    case Begin(t, d) => CanStart(ss[i], t, d) && ss[i + 1] == StartDeposit(ss[i], t, d)
    case BeginBalance(t) => t < |ss[i].threads| && ss[i].threads[t].Idle? && ss[i + 1] == StartBalance(ss[i], t)
    case Go(t) => CanGo(ss[i], t) && ss[i + 1] == Step(ss[i], t)
  }

  /** Thread t is inside a call and not waiting for a lock. */
  ghost predicate CanGo(s: State, t: nat) {
    WellFormed(s) && t < |s.threads| && !s.threads[t].Idle? && !Blocked(s, t)
  }

  ghost predicate IsRun(ss: seq<State>, acts: seq<Action>) {
    |ss| == |acts| + 1 && Init(ss[0]) && forall i :: 0 <= i < |acts| ==> StepAt(ss, acts, i)
  }

  lemma {:induction false} RunInv(ss: seq<State>, acts: seq<Action>, i: nat)
    requires IsRun(ss, acts) && i < |ss|
    ensures Inv(ss[i]) && ss[i].initial == ss[0].accounts && ss[i].range == ss[0].range
            && ss[i].buckets == ss[0].buckets
  {
    if i == 0 {
      InitInv(ss[0]);
    } else {
      RunInv(ss, acts, i - 1);
      assert StepAt(ss, acts, i - 1);
      match acts[i - 1]
      case Begin(t, d) => StartDepositInv(ss[i - 1], t, d);
      case BeginBalance(t) => StartBalanceInv(ss[i - 1], t);
      case Go(t) => StepInv(ss[i - 1], t);
    }
  }

  /** Every locked balance returns exactly the total the accounts started with, whatever deposits overlap it. */
  lemma BalanceIsExact(ss: seq<State>, acts: seq<Action>, i: nat, t: nat)
    requires IsRun(ss, acts) && i < |ss| && t < |ss[i].threads| && ss[i].threads[t].DropReads?
    ensures IsTotal(ss[i].threads[t].total, ss[0].accounts, ss[0].range)
    ensures ss[i].threads[t].total == Sum(ss[0].accounts, ss[0].range)
  {
    RunInv(ss, acts, i);
    TotalIsSum(ss[0].accounts, ss[0].range, ss[i].threads[t].total);
    assert ThreadOk(ss[i], ss[i].threads[t]);
  }

  /**
   While a balance is adding up, no account changes and no money is out of the table: the accounts
   are those of one moment, in which each deposit is wholly in or wholly out.
   */
  lemma BalanceSeesOneMoment(ss: seq<State>, acts: seq<Action>, i: nat, t: nat)
    requires IsRun(ss, acts) && i < |ss| && t < |ss[i].threads| && ss[i].threads[t].Summing?
    ensures i < |acts| && acts[i] != Go(t) ==> ss[i + 1].accounts == ss[i].accounts
    ensures forall key: int :: key in ss[i].accounts ==> ss[i].accounts[key] == Posted(ss[i], key)
  {
    var s := ss[i];
    RunInv(ss, acts, i);
    forall u: nat | u < |s.threads| ensures !Applying(s.threads[u]) {
      if Applying(s.threads[u]) { Alone(s, u, t); }
    }
    forall key: int | key in s.accounts ensures s.accounts[key] == Posted(s, key) {
      assert AccountOk(s, key) && Settled(s, key);
    }
    if i < |acts| { assert StepAt(ss, acts, i); }
  }

  ghost predicate AllIdle(s: State) {
    forall t :: 0 <= t < |s.threads| ==> s.threads[t].Idle?
  }

  /** Between calls every account holds its first balance plus its deposits in and minus its deposits out. */
  lemma Conservation(ss: seq<State>, acts: seq<Action>, i: nat)
    requires IsRun(ss, acts) && i < |ss| && AllIdle(ss[i])
    ensures ss[i].accounts.Keys == ss[0].accounts.Keys
    ensures forall key :: key in ss[i].accounts ==> ss[i].accounts[key] == ss[0].accounts[key] + Net(ss[i].ledger, key)
    ensures Sum(ss[i].accounts, ss[0].range) == Sum(ss[0].accounts, ss[0].range)
  {
    var s := ss[i];
    RunInv(ss, acts, i);
    forall key: int
      ensures Settled(s, key) && (key in s.accounts <==> key in s.initial)
      ensures key in s.accounts ==> s.accounts[key] == s.initial[key] + Net(s.ledger, key)
    {
      assert AccountOk(s, key);
    }
    assert forall key :: key in s.accounts.Keys <==> key in s.initial.Keys;
    SettledSum(s, s.range);
    NetCancels(s.ledger, s.range);
  }

  /**
   A deposit returns true exactly when both accounts exist, and the step that makes it so is the one
   that posts it; no other step posts anything.
   */
  lemma DepositResult(ss: seq<State>, acts: seq<Action>, i: nat, t: nat)
    requires IsRun(ss, acts) && i < |acts| && acts[i] == Go(t)
    ensures t < |ss[i].threads| == |ss[i + 1].threads|
    ensures ss[i + 1].threads[t].DropFirst? ==>
              (ss[i + 1].threads[t].ok <==>
               ss[i + 1].threads[t].d.src in ss[0].accounts && ss[i + 1].threads[t].d.dst in ss[0].accounts)
    ensures ss[i + 1].threads[t].DropFirst? && ss[i + 1].threads[t].ok ==>
              ss[i + 1].ledger == ss[i].ledger + [ss[i + 1].threads[t].d]
    ensures !(ss[i + 1].threads[t].DropFirst? && ss[i + 1].threads[t].ok) ==> ss[i + 1].ledger == ss[i].ledger
  {
    assert StepAt(ss, acts, i);
    RunInv(ss, acts, i);
    RunInv(ss, acts, i + 1);
    var s, s' := ss[i], ss[i + 1];
    assert ThreadOk(s, s.threads[t]) && ThreadOk(s', s'.threads[t]);
    if s'.threads[t].DropFirst? {
      assert AccountOk(s', s'.threads[t].d.src) && AccountOk(s', s'.threads[t].d.dst);
    }
  }

  /** The step m is one of thread t and posts d. */
  ghost predicate PostsAt(ss: seq<State>, acts: seq<Action>, t: nat, m: nat, d: Deposit)
    requires |ss| == |acts| + 1 && m < |acts|
  {
    acts[m] == Go(t) && ss[m + 1].ledger == ss[m].ledger + [d]
  }

  /** The step m is not one of thread t that posts anything. */
  ghost predicate NoPostAt(ss: seq<State>, acts: seq<Action>, t: nat, m: nat)
    requires |ss| == |acts| + 1 && m < |acts|
  {
    acts[m] == Go(t) ==> ss[m + 1].ledger == ss[m].ledger
  }

  /** Between the call's first step and state m, thread t posted d exactly once, or nothing. */
  ghost predicate PostedBetween(ss: seq<State>, acts: seq<Action>, t: nat, i: nat, m: nat, d: Deposit, once: bool)
    requires |ss| == |acts| + 1 && m <= |acts|
  {
    if once then
      exists p :: i < p < m && PostsAt(ss, acts, t, p, d)
        && forall q :: i <= q < m && q != p ==> NoPostAt(ss, acts, t, q)
    else
      forall q :: i <= q < m ==> NoPostAt(ss, acts, t, q)
  }

  predicate Dropping(th: Thread) {
    th.DropFirst? || th.DropSecond?
  }

  /** Thread t calls `deposit` with action i and is back with answer ok in state j. */
  ghost predicate DepositCall(ss: seq<State>, acts: seq<Action>, t: nat, i: nat, j: nat, d: Deposit, ok: bool) {
    && |ss| == |acts| + 1 && i + 1 < j < |ss| && acts[i] == Begin(t, d)
    && (forall m :: i < m < j ==> t < |ss[m].threads| && Depositing(ss[m].threads[t]) && ss[m].threads[t].d == d)
    && t < |ss[j].threads| && ss[j].threads[t].Idle?
    && Dropping(ss[j - 1].threads[t]) && ss[j - 1].threads[t].ok == ok
  }

  ghost predicate HasPosted(th: Thread) {
    Dropping(th) && th.ok
  }

  /** A deposit's own step posts exactly when it leads to the answer true; other steps leave its thread alone. */
  ghost predicate PostsIfNew(ss: seq<State>, acts: seq<Action>, t: nat, m: nat, d: Deposit)
    requires |ss| == |acts| + 1 && m < |acts| && t < |ss[m].threads| && t < |ss[m + 1].threads|
  {
    var th, th' := ss[m].threads[t], ss[m + 1].threads[t];
    if HasPosted(th') && !HasPosted(th) then PostsAt(ss, acts, t, m, d)
    else (HasPosted(th') <==> HasPosted(th)) && NoPostAt(ss, acts, t, m)
  }

  lemma DepositTransition(ss: seq<State>, acts: seq<Action>, t: nat, m: nat, d: Deposit)
    requires IsRun(ss, acts) && m < |acts| && t < |ss[m].threads| && t < |ss[m + 1].threads|
    requires Depositing(ss[m].threads[t]) && ss[m].threads[t].d == d
    requires Depositing(ss[m + 1].threads[t]) && ss[m + 1].threads[t].d == d
    ensures PostsIfNew(ss, acts, t, m, d)
  {
    assert StepAt(ss, acts, m);
    if acts[m] == Go(t) { OwnStepPosts(ss[m], t); } else { OthersLeaveAlone(ss, acts, t, m); }
  }

  lemma OwnStepPosts(s: State, t: nat)
    requires CanGo(s, t) && Depositing(s.threads[t]) && Depositing(Step(s, t).threads[t])
    ensures var th, th' := s.threads[t], Step(s, t).threads[t];
            if HasPosted(th') && !HasPosted(th) then Step(s, t).ledger == s.ledger + [th.d]
            else (HasPosted(th') <==> HasPosted(th)) && Step(s, t).ledger == s.ledger
  {
  }

  lemma OthersLeaveAlone(ss: seq<State>, acts: seq<Action>, t: nat, m: nat)
    requires |ss| == |acts| + 1 && m < |acts| && StepAt(ss, acts, m) && acts[m] != Go(t)
    requires t < |ss[m].threads| && !ss[m].threads[t].Idle?
    ensures t < |ss[m + 1].threads| && ss[m + 1].threads[t] == ss[m].threads[t]
  {
    if acts[m].Go? { StepLeavesAlone(ss[m], acts[m].t, t); }
  }

  lemma StepLeavesAlone(s: State, u: nat, t: nat)
    requires CanGo(s, u) && t < |s.threads| && t != u
    ensures t < |Step(s, u).threads| && Step(s, u).threads[t] == s.threads[t]
  {
    match s.threads[u] {
      case TakeFirst(_) =>
      case TakeSecond(_) =>
      case DropFirst(_, _) =>
      case DropSecond(_, _) =>
      case _ =>
    }
  }

  lemma AnswerRight(ss: seq<State>, acts: seq<Action>, t: nat, m: nat)
    requires IsRun(ss, acts) && m < |ss| && t < |ss[m].threads| && Dropping(ss[m].threads[t])
    ensures var th := ss[m].threads[t]; th.ok <==> th.d.src in ss[0].accounts && th.d.dst in ss[0].accounts
  {
    RunInv(ss, acts, m);
    var th := ss[m].threads[t];
    assert ThreadOk(ss[m], th) && AccountOk(ss[m], th.d.src) && AccountOk(ss[m], th.d.dst);
  }

  lemma {:induction false} PostedSoFar(
      ss: seq<State>, acts: seq<Action>, t: nat, i: nat, j: nat, d: Deposit, ok: bool, m: nat)
    requires IsRun(ss, acts) && DepositCall(ss, acts, t, i, j, d, ok) && i < m < j
    ensures PostedBetween(ss, acts, t, i, m, d, HasPosted(ss[m].threads[t]))
  {
    if m - 1 > i {
      PostedSoFar(ss, acts, t, i, j, d, ok, m - 1);
      DepositTransition(ss, acts, t, m - 1, d);
      PostedStep(ss, acts, t, i, m - 1, d);
    } else {
      assert StepAt(ss, acts, i) && NoPostAt(ss, acts, t, i);
    }
  }

  lemma PostedStep(ss: seq<State>, acts: seq<Action>, t: nat, i: nat, m: nat, d: Deposit)
    requires |ss| == |acts| + 1 && i < m < |acts| && t < |ss[m].threads| && t < |ss[m + 1].threads|
    requires PostedBetween(ss, acts, t, i, m, d, HasPosted(ss[m].threads[t])) && PostsIfNew(ss, acts, t, m, d)
    ensures PostedBetween(ss, acts, t, i, m + 1, d, HasPosted(ss[m + 1].threads[t]))
  {
    if HasPosted(ss[m].threads[t]) {
      var p :| i < p < m && PostsAt(ss, acts, t, p, d) && forall q :: i <= q < m && q != p ==> NoPostAt(ss, acts, t, q);
      assert i < p < m + 1 && forall q :: i <= q < m + 1 && q != p ==> NoPostAt(ss, acts, t, q);
    } else if PostsAt(ss, acts, t, m, d) {
      assert i < m < m + 1 && forall q :: i <= q < m + 1 && q != m ==> NoPostAt(ss, acts, t, q);
    }
  }

  /**
   A completed deposit answers true if and only if both accounts exist, and its own steps post it
   exactly once in that case and nothing otherwise.
   */
  lemma DepositPostsOnce(ss: seq<State>, acts: seq<Action>, t: nat, i: nat, j: nat, d: Deposit, ok: bool)
    requires IsRun(ss, acts) && DepositCall(ss, acts, t, i, j, d, ok)
    ensures ok <==> d.src in ss[0].accounts && d.dst in ss[0].accounts
    ensures PostedBetween(ss, acts, t, i, j, d, ok)
  {
    PostedSoFar(ss, acts, t, i, j, d, ok, j - 1);
    AnswerRight(ss, acts, t, j - 1);
    BackIsNoPost(ss, acts, t, j - 1);
    if ok {
      var p :| i < p < j - 1 && PostsAt(ss, acts, t, p, d)
               && forall q :: i <= q < j - 1 && q != p ==> NoPostAt(ss, acts, t, q);
      assert i < p < j && forall q :: i <= q < j && q != p ==> NoPostAt(ss, acts, t, q);
    }
  }

  lemma BackIsNoPost(ss: seq<State>, acts: seq<Action>, t: nat, m: nat)
    requires IsRun(ss, acts) && m < |acts| && t < |ss[m + 1].threads| && ss[m + 1].threads[t].Idle?
    ensures NoPostAt(ss, acts, t, m)
  {
    if acts[m] == Go(t) { DepositResult(ss, acts, m, t); }
  }

  /** Idle threads hold nothing: with all of them idle every lock is free. */
  lemma QuietMeansUnlocked(ss: seq<State>, acts: seq<Action>, i: nat, l: nat)
    requires IsRun(ss, acts) && i < |ss| && AllIdle(ss[i]) && l < ss[i].buckets
    ensures |ss[i].locks| == ss[i].buckets && ss[i].locks[l] == Lock(Nobody, {})
  {
    var s := ss[i];
    RunInv(ss, acts, i);
    assert LockOk(s, l);
    forall t: nat ensures s.locks[l].writer != By(t) && t !in s.locks[l].readers {
      if t < |s.threads| { assert WordOk(s, l, t); }
    }
    var lock := s.locks[l];
    var holder := if lock.writer.By? then lock.writer.t else 0;
    assert lock.writer != By(holder) && lock.readers == {};
  }

  // ---- deadlock ----

  /** Blocked even under a lock that holds back new readers while a writer waits. */
  ghost predicate Stuck(s: State, t: nat)
    requires WellFormed(s) && t < |s.threads|
  {
    || Blocked(s, t)
    || (s.threads[t].TakeReads? && exists u :: 0 <= u < |s.threads| && WaitsToWrite(s, u, s.threads[t].next))
  }

  ghost predicate WaitsToWrite(s: State, u: nat, i: nat)
    requires WellFormed(s) && u < |s.threads|
  {
    (s.threads[u].TakeFirst? || s.threads[u].TakeSecond?) && Wanted(s, s.threads[u]) == i && Blocked(s, u)
  }

  /** A thread holds only locks below the one it waits for. */
  lemma HeldBelowWanted(s: State, t: nat, i: nat)
    requires Inv(s) && t < |s.threads| && Taking(s.threads[t]) && i < s.buckets
    requires HoldsWrite(s, s.threads[t], i) || HoldsRead(s, s.threads[t], i)
    ensures i < Wanted(s, s.threads[t])
  {
  }

  /** From a blocked thread, following holders upward reaches one that can go. */
  lemma {:induction false} HolderChain(s: State, t: nat) returns (u: nat)
    requires Inv(s) && t < |s.threads| && Blocked(s, t)
    ensures u < |s.threads| && !s.threads[u].Idle? && !Stuck(s, u)
    decreases s.buckets - Wanted(s, s.threads[t])
  {
    var i := Wanted(s, s.threads[t]);
    u := Owner(s, i);
    if Stuck(s, u) {
      HeldBelowWanted(s, u, i);
      if Blocked(s, u) {
        u := HolderChain(s, u);
      } else {
        var w :| 0 <= w < |s.threads| && WaitsToWrite(s, w, s.threads[u].next);
        u := HolderChain(s, w);
      }
    }
  }

  lemma Owner(s: State, i: nat) returns (u: nat)
    requires Inv(s) && i < s.buckets && (s.locks[i].writer.By? || s.locks[i].readers != {})
    ensures u < |s.threads| && (HoldsWrite(s, s.threads[u], i) || HoldsRead(s, s.threads[u], i))
  {
    assert LockOk(s, i);
    if s.locks[i].writer.By? { u := s.locks[i].writer.t; } else { u :| u in s.locks[i].readers; }
    assert WordOk(s, i, u);
  }

  /** In no reachable state are all unfinished calls stuck, even if waiting writers hold back new readers. */
  lemma DeadlockFree(ss: seq<State>, acts: seq<Action>, i: nat, t: nat)
    requires IsRun(ss, acts) && i < |ss| && t < |ss[i].threads| && !ss[i].threads[t].Idle?
    ensures WellFormed(ss[i]) && exists u: nat :: CanGo(ss[i], u) && !Stuck(ss[i], u)
  {
    var s := ss[i];
    RunInv(ss, acts, i);
    var u := t;
    if Stuck(s, t) {
      if Blocked(s, t) {
        u := HolderChain(s, t);
      } else {
        var w :| 0 <= w < |s.threads| && WaitsToWrite(s, w, s.threads[t].next);
        u := HolderChain(s, w);
      }
    }
    assert CanGo(s, u);
  }
}
