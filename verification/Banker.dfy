/**
 The bank: threads that move money between two accounts under two bucket write locks, and threads
 that add up all accounts under every read lock. One step per lock operation and per map access;
 any interleaving. `initial` and `ledger` (the deposits made so far) are history.
 */
module Banker {
  datatype Deposit = Deposit(src: nat, dst: nat, amount: real)

  datatype Holder = Nobody | By(t: nat)

  /** A reader/writer lock. */
  datatype Lock = Lock(writer: Holder, readers: set<nat>)

  datatype Thread =
    | Idle
    | TakeFirst(d: Deposit)
    | TakeSecond(d: Deposit)
    | ReadSource(d: Deposit)
    | WriteSource(d: Deposit, bal: real)
    | ReadTarget(d: Deposit, bal: real)
    | WriteTarget(d: Deposit, bal: real, target: real)
    | Restore(d: Deposit, bal: real)
    | DropFirst(d: Deposit, ok: bool)
    | DropSecond(d: Deposit, ok: bool)
    | TakeReads(next: nat)
    | Summing(next: nat, total: real)
    | DropReads(next: nat, total: real)

  type Accounts = map<int, real>

  datatype State = State(buckets: nat, range: nat, accounts: Accounts, locks: seq<Lock>, threads: seq<Thread>,
                         initial: Accounts, ledger: seq<Deposit>)

  function Hash(s: State, key: nat): nat
    requires s.buckets > 0
  {
    key % s.buckets
  }

  function First(s: State, d: Deposit): nat
    requires s.buckets > 0
  {
    if Hash(s, d.src) < Hash(s, d.dst) then Hash(s, d.src) else Hash(s, d.dst)
  }

  function Second(s: State, d: Deposit): nat
    requires s.buckets > 0
  {
    if Hash(s, d.src) < Hash(s, d.dst) then Hash(s, d.dst) else Hash(s, d.src)
  }

  /** A missing account reads as 0. */
  function BalanceOf(accounts: Accounts, key: int): real {
    if key in accounts then accounts[key] else 0.0
  }

  // ---- steps ----

  ghost predicate WellFormed(s: State) {
    && s.buckets > 0 && |s.locks| == s.buckets
    && forall t :: 0 <= t < |s.threads| ==> InRange(s, s.threads[t])
  }

  /** Lock indices are within the lock table, and a second lock is not the first again. */
  predicate InRange(s: State, th: Thread)
    requires s.buckets > 0
  {
    && ((th.TakeReads? || th.DropReads?) ==> th.next < s.buckets)
    && (th.TakeSecond? ==> First(s, th.d) != Second(s, th.d))
  }

  /** The lock a thread is about to take. */
  function Wanted(s: State, th: Thread): nat
    requires s.buckets > 0 && (th.TakeFirst? || th.TakeSecond? || th.TakeReads?)
  {
    match th
    case TakeFirst(d) => First(s, d)
    case TakeSecond(d) => Second(s, d)
    case TakeReads(i) => i
  }

  predicate Taking(th: Thread) {
    th.TakeFirst? || th.TakeSecond? || th.TakeReads?
  }

  ghost predicate Blocked(s: State, t: nat)
    requires WellFormed(s) && t < |s.threads|
  {
    var th := s.threads[t];
    Taking(th) && var lock := s.locks[Wanted(s, th)]; lock.writer.By? || (!th.TakeReads? && lock.readers != {})
  }

  function SetThread(s: State, t: nat, th: Thread): State
    requires t < |s.threads|
  {
    s.(threads := s.threads[t := th])
  }

  function SetLock(s: State, i: nat, lock: Lock): State
    requires i < |s.locks|
  {
    s.(locks := s.locks[i := lock])
  }

  function Locked(s: State, t: nat, i: nat): State
    requires i < |s.locks|
  {
    SetLock(s, i, Lock(By(t), {}))
  }

  function Unlocked(s: State, i: nat): State
    requires i < |s.locks|
  {
    SetLock(s, i, Lock(Nobody, {}))
  }

  function Stored(s: State, key: int, v: real): State {
    s.(accounts := if key in s.accounts then s.accounts[key := v] else s.accounts)
  }

  ghost predicate CanStart(s: State, t: nat, d: Deposit) {
    t < |s.threads| && s.threads[t].Idle? && d.src < s.range && d.dst < s.range
  }

  function StartDeposit(s: State, t: nat, d: Deposit): State
    requires t < |s.threads|
  {
    SetThread(s, t, TakeFirst(d))
  }

  function StartBalance(s: State, t: nat): State
    requires t < |s.threads|
  {
    SetThread(s, t, TakeReads(0))
  }

  /** The next step of a thread inside a call. */
  ghost function Step(s: State, t: nat): State
    requires WellFormed(s) && t < |s.threads| && !s.threads[t].Idle? && !Blocked(s, t)
  {
    match s.threads[t]
    case TakeFirst(d) =>
      SetThread(Locked(s, t, First(s, d)), t, if First(s, d) == Second(s, d) then ReadSource(d) else TakeSecond(d))
    case TakeSecond(d) =>
      SetThread(Locked(s, t, Second(s, d)), t, ReadSource(d))
    case ReadSource(d) =>
      SetThread(s, t, if d.src in s.accounts then WriteSource(d, s.accounts[d.src]) else DropFirst(d, false))
    case WriteSource(d, bal) =>
      SetThread(Stored(s, d.src, bal - d.amount), t, ReadTarget(d, bal))
    case ReadTarget(d, bal) =>
      SetThread(s, t, if d.dst in s.accounts then WriteTarget(d, bal, s.accounts[d.dst]) else Restore(d, bal))
    case WriteTarget(d, bal, target) =>
      SetThread(Stored(s, d.dst, target + d.amount).(ledger := s.ledger + [d]), t, DropFirst(d, true))
    case Restore(d, bal) =>
      SetThread(Stored(s, d.src, bal), t, DropFirst(d, false))
    case DropFirst(d, ok) =>
      SetThread(Unlocked(s, First(s, d)), t, if First(s, d) == Second(s, d) then Idle else DropSecond(d, ok))
    case DropSecond(d, _) =>
      SetThread(Unlocked(s, Second(s, d)), t, Idle)
    case TakeReads(i) =>
      SetThread(SetLock(s, i, s.locks[i].(readers := s.locks[i].readers + {t})), t,
                if i + 1 == s.buckets then Summing(0, 0.0) else TakeReads(i + 1))
    case Summing(k, total) =>
      SetThread(s, t, if k < s.range then Summing(k + 1, total + BalanceOf(s.accounts, k)) else DropReads(0, total))
    case DropReads(i, total) =>
      SetThread(SetLock(s, i, s.locks[i].(readers := s.locks[i].readers - {t})), t,
                if i + 1 == s.buckets then Idle else DropReads(i + 1, total))
  }

  // ---- locks held ----

  predicate HoldsWrite(s: State, th: Thread, i: nat)
    requires s.buckets > 0
  {
    match th
    case TakeSecond(d) => i == First(s, d)
    case DropSecond(d, _) => i == Second(s, d)
    case ReadSource(d) => i == First(s, d) || i == Second(s, d)
    case WriteSource(d, _) => i == First(s, d) || i == Second(s, d)
    case ReadTarget(d, _) => i == First(s, d) || i == Second(s, d)
    case WriteTarget(d, _, _) => i == First(s, d) || i == Second(s, d)
    case Restore(d, _) => i == First(s, d) || i == Second(s, d)
    case DropFirst(d, _) => i == First(s, d) || i == Second(s, d)
    case _ => false
  }

  predicate HoldsRead(s: State, th: Thread, i: nat) {
    match th
    case TakeReads(n) => i < n
    case Summing(_, _) => true
    case DropReads(n, _) => n <= i
    case _ => false
  }

  /** Lock i says of thread t what the thread's state says. */
  ghost predicate WordOk(s: State, i: nat, t: nat)
    requires WellFormed(s) && i < s.buckets && t < |s.threads|
  {
    && (s.locks[i].writer == By(t) <==> HoldsWrite(s, s.threads[t], i))
    && (t in s.locks[i].readers <==> HoldsRead(s, s.threads[t], i))
  }

  ghost predicate LockOk(s: State, i: nat)
    requires WellFormed(s) && i < s.buckets
  {
    && (s.locks[i].writer.By? ==> s.locks[i].writer.t < |s.threads| && s.locks[i].readers == {})
    && forall t :: t in s.locks[i].readers ==> t < |s.threads|
  }

  ghost predicate LocksOk(s: State) {
    && WellFormed(s)
    && (forall i :: 0 <= i < s.buckets ==> LockOk(s, i))
    && (forall i, t :: 0 <= i < s.buckets && 0 <= t < |s.threads| ==> WordOk(s, i, t))
  }

  /** Two deposits never hold the same bucket; a balance that is reading excludes them all. */
  lemma Exclusion(s: State, t: nat, u: nat, i: nat)
    requires LocksOk(s) && t < |s.threads| && u < |s.threads| && t != u && i < s.buckets
    requires HoldsWrite(s, s.threads[t], i)
    ensures !HoldsWrite(s, s.threads[u], i) && !HoldsRead(s, s.threads[u], i)
  {
    assert LockOk(s, i) && WordOk(s, i, t) && WordOk(s, i, u);
  }

  // ---- money ----

  function Delta(d: Deposit, key: int): real {
    (if key == d.dst then d.amount else 0.0) - (if key == d.src then d.amount else 0.0)
  }

  function Net(ledger: seq<Deposit>, key: int): real {
    if ledger == [] then 0.0 else Net(ledger[..|ledger| - 1], key) + Delta(ledger[|ledger| - 1], key)
  }

  /** What the account holds by the ledger. */
  function Posted(s: State, key: int): real {
    BalanceOf(s.initial, key) + Net(s.ledger, key)
  }

  function Sum(accounts: Accounts, n: nat): real {
    if n == 0 then 0.0 else Sum(accounts, n - 1) + BalanceOf(accounts, n - 1)
  }

  /** Money of this account is out of the table. */
  predicate InFlight(th: Thread, key: int) {
    (th.ReadTarget? || th.WriteTarget? || th.Restore?) && th.d.src == key
  }

  ghost predicate ThreadOk(s: State, th: Thread) {
    match th
    case WriteSource(d, bal) => d.src in s.accounts && s.accounts[d.src] == bal
    case ReadTarget(d, bal) => SourceOut(s, d, bal)
    case WriteTarget(d, bal, target) => SourceOut(s, d, bal) && d.dst in s.accounts && s.accounts[d.dst] == target
    case Restore(d, bal) => SourceOut(s, d, bal) && d.dst !in s.accounts
    case DropFirst(d, ok) => ok <==> d.src in s.accounts && d.dst in s.accounts
    case DropSecond(d, ok) => ok <==> d.src in s.accounts && d.dst in s.accounts
    case Summing(k, total) => k <= s.range && total == Sum(s.accounts, k)
    case DropReads(_, total) => total == Sum(s.initial, s.range)
    case _ => true
  }

  ghost predicate SourceOut(s: State, d: Deposit, bal: real) {
    d.src in s.accounts && s.accounts[d.src] == bal - d.amount && bal == Posted(s, d.src)
  }

  predicate DepositOk(s: State, th: Thread) {
    (Depositing(th) ==> th.d.src < s.range && th.d.dst < s.range)
  }

  predicate Depositing(th: Thread) {
    !th.Idle? && !th.TakeReads? && !th.Summing? && !th.DropReads?
  }

  ghost predicate Settled(s: State, key: int) {
    forall t :: 0 <= t < |s.threads| ==> !InFlight(s.threads[t], key)
  }

  ghost predicate AccountOk(s: State, key: int) {
    && (key in s.accounts <==> key in s.initial)
    && (key in s.accounts && Settled(s, key) ==> s.accounts[key] == Posted(s, key))
    && (key !in s.accounts ==> Net(s.ledger, key) == 0.0)
  }

  ghost predicate MoneyOk(s: State) {
    && (forall t :: 0 <= t < |s.threads| ==> ThreadOk(s, s.threads[t]) && DepositOk(s, s.threads[t]))
    && (forall key: int :: AccountOk(s, key))
    && (forall i :: 0 <= i < |s.ledger| ==> s.ledger[i].src < s.range && s.ledger[i].dst < s.range)
  }

  ghost predicate Inv(s: State) {
    LocksOk(s) && MoneyOk(s)
  }

  ghost predicate Init(s: State) {
    && s.buckets > 0 && s.accounts == s.initial && s.ledger == []
    && |s.locks| == s.buckets && (forall i :: 0 <= i < s.buckets ==> s.locks[i] == Lock(Nobody, {}))
    && (forall t :: 0 <= t < |s.threads| ==> s.threads[t].Idle?)
  }
}
