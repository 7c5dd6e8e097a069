/**
 The concurrent cuckoo set at a fixed bucket count: any number of threads inserting, removing and
 looking up under striped spinlocks, below a global reader/writer lock that a resize takes for
 writing. A step is one lock operation or one table write; the reads of locked buckets are folded
 into the step they decide. The unlocked path search is an arbitrary in-bounds path: the
 displacement loop re-checks every hop. A thread that owns the write lock gives it back and starts
 over, as a resize does that finds the bucket count changed.
 */
module CuckooMachine {
  import opened CuckooCore

  type Tid = nat

  datatype Op = Insert(val: int) | Remove(val: int) | Contains(val: int)

  /** What a lock acquisition is for: the first look, the cell a zero-hop path found, or hop d of a path. */
  datatype Phase = First | Direct(cell: Cell) | Hop(path: seq<Cell>, d: nat)

  /** Where control goes once the listed bucket locks are released. */
  datatype After =
    | Finish(ans: bool)
    | Retry
    | Search
    | NextHop(path: seq<Cell>, d: nat)
    | Success(cell: Cell)                // the third lock of the last hop; idx1 and idx2 stay held

  datatype Exit = Answer(ans: bool) | TryAgain | Grow

  datatype Thread =
    | Idle
    | WantRead(op: Op)
    | Locking(op: Op, phase: Phase, k: nat)   // holds the first k locks of the phase
    | Locked(op: Op, phase: Phase)
    | Moved(op: Op, path: seq<Cell>, d: nat)  // copied to path[d], path[d - 1] not yet cleared
    | Writing(op: Op, cell: Cell)             // an inner insert has returned SUCCESS
    | Unlocking(op: Op, todo: seq<nat>, next: After)
    | Searching(op: Op)
    | UnlockGlobal(op: Op, exit: Exit)
    | WantWrite(op: Op)
    | Resizing(op: Op)
    | Returned(op: Op, ans: bool)

  datatype Writer = Nobody | By(t: Tid)

  /** `inserted` and `removed` count the successful writes since the start of the run. */
  datatype State = State(
    buckets: nat, cells: Cells, locks: map<nat, Tid>, readers: set<Tid>, writer: Writer,
    threads: seq<Thread>, inserted: nat, removed: nat)

  /** What the unlocked search came back with. */
  datatype Found = NoPath | Via(path: seq<Cell>)

  datatype Action = Invoke(t: Tid, op: Op) | Advance(t: Tid, found: Found) | Return(t: Tid)

  function H(s: State, val: int, func: int): nat
    requires s.buckets > 0
  {
    Hash(val, func, s.buckets)
  }

  /**
   A path the search may return: at most MAX_SEARCH_DEPTH cells in
   range, tables alternating, rooted at idx1 or idx2.
   */
  ghost predicate PathOk(path: seq<Cell>, val: int, buckets: nat) {
    && buckets > 0 && 1 <= |path| <= MAX_SEARCH_DEPTH
    && (forall i :: 0 <= i < |path| ==> ValidCell(path[i], buckets))
    && (forall i :: 0 < i < |path| ==> path[i].table == 3 - path[i - 1].table)
    && path[0].index == Hash(val, path[0].table, buckets)
  }

  ghost predicate PhaseOk(phase: Phase, op: Op, buckets: nat) {
    match phase
    case First => true
    case Direct(c) => op.Insert? && PathOk([c], op.val, buckets)
    case Hop(path, d) => op.Insert? && PathOk(path, op.val, buckets) && 1 <= d < |path|
  }

  /** The locks a phase takes, in the order it takes them. */
  function PhaseLocks(op: Op, phase: Phase, buckets: nat): seq<nat>
    requires buckets > 0 && (phase.Hop? ==> 1 <= phase.d < |phase.path|)
  {
    var i1, i2 := Hash(op.val, 1, buckets), Hash(op.val, 2, buckets);
    match phase
    case First => LockTwo(i1, i2)
    case Direct(_) => LockTwo(i1, i2)
    case Hop(path, d) =>
      if d == 1 then LockThree(i1, i2, path[1].index) else LockTwo(path[d].index, path[d - 1].index)
  }

  function PhaseUnlocks(op: Op, phase: Phase, buckets: nat): seq<nat>
    requires buckets > 0 && (phase.Hop? ==> 1 <= phase.d < |phase.path|)
  {
    var i1, i2 := Hash(op.val, 1, buckets), Hash(op.val, 2, buckets);
    match phase
    case First => UnlockTwo(i1, i2)
    case Direct(_) => UnlockTwo(i1, i2)
    case Hop(path, d) =>
      if d == 1 then UnlockThree(i1, i2, path[1].index) else UnlockTwo(path[d].index, path[d - 1].index)
  }

  ghost function LockSet(op: Op, phase: Phase, buckets: nat): set<nat>
    requires buckets > 0 && (phase.Hop? ==> 1 <= phase.d < |phase.path|)
  {
    var i1, i2 := Hash(op.val, 1, buckets), Hash(op.val, 2, buckets);
    match phase
    case First => {i1, i2}
    case Direct(_) => {i1, i2}
    case Hop(path, d) => if d == 1 then {i1, i2, path[1].index} else {path[d].index, path[d - 1].index}
  }

  lemma PhaseLocksOk(op: Op, phase: Phase, buckets: nat)
    requires buckets > 0 && (phase.Hop? ==> 1 <= phase.d < |phase.path|)
    ensures Ascending(PhaseLocks(op, phase, buckets)) && |PhaseLocks(op, phase, buckets)| >= 1
    ensures Elements(PhaseLocks(op, phase, buckets)) == LockSet(op, phase, buckets)
    ensures NoRepeats(PhaseUnlocks(op, phase, buckets))
    ensures Elements(PhaseUnlocks(op, phase, buckets)) == LockSet(op, phase, buckets)
  {
    var i1, i2 := Hash(op.val, 1, buckets), Hash(op.val, 2, buckets);
    match phase {
      case First => TwoLocksOk(i1, i2);
      case Direct(_) => TwoLocksOk(i1, i2);
      case Hop(path, d) =>
        if d == 1 { ThreeLocksOk(i1, i2, path[1].index); } else { TwoLocksOk(path[d].index, path[d - 1].index); }
    }
  }

  lemma TwoLocksOk(i: nat, j: nat)
    ensures Ascending(LockTwo(i, j)) && |LockTwo(i, j)| >= 1 && Elements(LockTwo(i, j)) == {i, j}
    ensures NoRepeats(UnlockTwo(i, j)) && Elements(UnlockTwo(i, j)) == {i, j}
  {
    LockOrder(i, j, i);
    UnlockOrder(i, j, i);
  }

  lemma ThreeLocksOk(i: nat, j: nat, k: nat)
    ensures Ascending(LockThree(i, j, k)) && |LockThree(i, j, k)| >= 1 && Elements(LockThree(i, j, k)) == {i, j, k}
    ensures NoRepeats(UnlockThree(i, j, k)) && Elements(UnlockThree(i, j, k)) == {i, j, k}
  {
    LockOrder(i, j, k);
    UnlockOrder(i, j, k);
  }

  // ---- the steps ----

  ghost predicate Enabled(s: State, a: Action) {
    && a.t < |s.threads|
    && match a
       case Invoke(t, op) => s.threads[t].Idle? && op.val != EMPTY
       case Return(t) => s.threads[t].Returned?
       case Advance(t, found) => Active(s.threads[t]) && !Blocked(s, t) && FoundOk(s, t, found)
  }

  ghost predicate FoundOk(s: State, t: Tid, found: Found)
    requires t < |s.threads|
  {
    s.threads[t].Searching? && found.Via? ==> PathOk(found.path, s.threads[t].op.val, s.buckets)
  }

  ghost predicate Active(th: Thread) {
    !th.Idle? && !th.Returned?
  }

  /** The thread is waiting for a lock that it cannot get now. */
  ghost predicate Blocked(s: State, t: Tid)
    requires t < |s.threads|
  {
    match s.threads[t]
    case WantRead(_) => s.writer != Nobody
    case WantWrite(_) => s.writer != Nobody || s.readers != {}
    case Locking(op, phase, k) => ThreadOk(s, s.threads[t]) && PhaseLocks(op, phase, s.buckets)[k] in s.locks
    case _ => false
  }

  ghost function Apply(s: State, a: Action): State
    requires Enabled(s, a) && ThreadOk(s, s.threads[a.t])
  {
    match a
    case Invoke(t, op) => Goto(s, t, WantRead(op))
    case Return(t) => Goto(s, t, Idle)
    case Advance(t, found) => StepOf(s, t, found)
  }

  function Goto(s: State, t: Tid, th: Thread): State
    requires t < |s.threads|
  {
    s.(threads := s.threads[t := th])
  }

  ghost function StepOf(s: State, t: Tid, found: Found): State
    requires Enabled(s, Advance(t, found)) && ThreadOk(s, s.threads[t])
  {
    match s.threads[t]
    case WantRead(op) => Goto(s.(readers := s.readers + {t}), t, Locking(op, First, 0))
    case Locking(op, phase, k) =>
      var ls := PhaseLocks(op, phase, s.buckets);
      Goto(s.(locks := s.locks[ls[k] := t]), t,
           if k + 1 < |ls| then Locking(op, phase, k + 1) else Locked(op, phase))
    case Locked(op, First) => FirstLook(s, t, op)
    case Locked(op, Direct(c)) =>
      if c in s.cells then Goto(s, t, Unlocking(op, PhaseUnlocks(op, First, s.buckets), Retry))
      else Goto(s, t, Writing(op, c))
    case Locked(op, Hop(path, d)) =>
      var dst, src := path[d], path[d - 1];
      if dst in s.cells || src !in s.cells || H(s, s.cells[src], dst.table) != dst.index then
        Goto(s, t, Unlocking(op, PhaseUnlocks(op, Hop(path, d), s.buckets), Retry))
      else
        Goto(s.(cells := s.cells[dst := s.cells[src]]), t, Moved(op, path, d))
    case Moved(op, path, d) =>
      Goto(s.(cells := s.cells - {path[d - 1]}), t, AfterHop(s, op, path, d))
    case Writing(op, c) =>
      Goto(s.(cells := s.cells[c := op.val], inserted := s.inserted + 1), t,
           Unlocking(op, PhaseUnlocks(op, First, s.buckets), Finish(true)))
    case Unlocking(op, todo, next) =>
      if todo != [] then Goto(s.(locks := s.locks - {todo[0]}), t, Unlocking(op, todo[1..], next))
      else Goto(s, t, Continue(op, next))
    case Searching(op) =>
      Goto(s, t,
        match found
        case NoPath => UnlockGlobal(op, Grow)
        case Via(path) => Locking(op, if |path| == 1 then Direct(path[0]) else Hop(path, |path| - 1), 0))
    case UnlockGlobal(op, exit) =>
      Goto(s.(readers := s.readers - {t}), t,
        match exit
        case Answer(ans) => Returned(op, ans)
        case TryAgain => WantRead(op)
        case Grow => WantWrite(op))
    case WantWrite(op) => Goto(s.(writer := By(t)), t, Resizing(op))
    case Resizing(op) => Goto(s.(writer := Nobody), t, WantRead(op))
  }

  /** With both bucket locks held: look for the value, and act on the operation. */
  ghost function FirstLook(s: State, t: Tid, op: Op): State
    requires t < |s.threads| && s.buckets > 0
  {
    var i1, i2 := H(s, op.val, 1), H(s, op.val, 2);
    var at1, at2 := FindSlot(s.cells, op.val, 1, i1), FindSlot(s.cells, op.val, 2, i2);
    var release := PhaseUnlocks(op, First, s.buckets);
    match op
    case Contains(_) => Goto(s, t, Unlocking(op, release, Finish(at1 != -1 || at2 != -1)))
    case Remove(_) =>
      if at1 != -1 then
        Goto(s.(cells := s.cells - {Cell(1, i1, at1)}, removed := s.removed + 1), t,
             Unlocking(op, release, Finish(true)))
      else if at2 != -1 then
        Goto(s.(cells := s.cells - {Cell(2, i2, at2)}, removed := s.removed + 1), t,
             Unlocking(op, release, Finish(true)))
      else
        Goto(s, t, Unlocking(op, release, Finish(false)))
    case Insert(_) =>
      var free1, free2 := FindSlot(s.cells, EMPTY, 1, i1), FindSlot(s.cells, EMPTY, 2, i2);
      if at1 != -1 || at2 != -1 then Goto(s, t, Unlocking(op, release, Finish(false)))
      else if free1 != -1 then Goto(s, t, Writing(op, Cell(1, i1, free1)))
      else if free2 != -1 then Goto(s, t, Writing(op, Cell(2, i2, free2)))
      else Goto(s, t, Unlocking(op, release, Search))
  }

  /** After the source is cleared: on the last hop keep idx1 and idx2, else release both and go one hop up. */
  ghost function AfterHop(s: State, op: Op, path: seq<Cell>, d: nat): Thread
    requires s.buckets > 0 && 1 <= d < |path|
  {
    if d == 1 then
      var x := path[1].index;
      var third := if x != H(s, op.val, 1) && x != H(s, op.val, 2) then [x] else [];
      Unlocking(op, third, Success(path[0]))
    else
      Unlocking(op, PhaseUnlocks(op, Hop(path, d), s.buckets), NextHop(path, d - 1))
  }

  function Continue(op: Op, next: After): Thread {
    match next
    case Finish(ans) => UnlockGlobal(op, Answer(ans))
    case Retry => UnlockGlobal(op, TryAgain)
    case Search => Searching(op)
    case NextHop(path, d) => Locking(op, Hop(path, d), 0)
    case Success(c) => Writing(op, c)
  }

  // ---- what a thread holds and knows ----

  ghost function Held(s: State, th: Thread): set<nat>
    requires ThreadOk(s, th)
  {
    match th
    case Locking(op, phase, k) => Elements(PhaseLocks(op, phase, s.buckets)[..k])
    case Locked(op, phase) => LockSet(op, phase, s.buckets)
    case Moved(op, path, d) => LockSet(op, Hop(path, d), s.buckets)
    case Writing(op, _) => {H(s, op.val, 1), H(s, op.val, 2)}
    case Unlocking(op, todo, next) =>
      Elements(todo) + (if next.Success? then {H(s, op.val, 1), H(s, op.val, 2)} else {})
    case _ => {}
  }

  /** The cell an inner insert hands back is empty and in one of the value's own buckets. */
  ghost predicate TargetOk(s: State, op: Op, c: Cell) {
    && op.Insert? && s.buckets > 0 && ValidCell(c, s.buckets)
    && c.index == Hash(op.val, c.table, s.buckets) && c !in s.cells
  }

  ghost predicate ThreadOk(s: State, th: Thread) {
    && s.buckets > 0
    && (Active(th) ==> th.op.val != EMPTY)
    && match th
       case Locking(op, phase, k) => PhaseOk(phase, op, s.buckets) && k < |PhaseLocks(op, phase, s.buckets)|
       case Locked(op, phase) => PhaseOk(phase, op, s.buckets)
       case Moved(op, path, d) =>
         && PhaseOk(Hop(path, d), op, s.buckets)
         && path[d] in s.cells && path[d - 1] in s.cells && s.cells[path[d]] == s.cells[path[d - 1]]
       case Writing(op, c) => TargetOk(s, op, c)
       case Unlocking(op, todo, next) =>
         && NoRepeats(todo)
         && (next.NextHop? ==> PhaseOk(Hop(next.path, next.d), op, s.buckets))
         && (next.Search? || next.Retry? ==> op.Insert?)
         && (next.Success? ==>
               TargetOk(s, op, next.cell) && Elements(todo) !! {Hash(op.val, 1, s.buckets), Hash(op.val, 2, s.buckets)})
       case Searching(op) => op.Insert?
       case UnlockGlobal(op, exit) => exit.Answer? || op.Insert?
       case WantWrite(op) => op.Insert?
       case Resizing(op) => op.Insert?
       case _ => true
  }

  /** Between `rdlock` and the matching unlock. */
  ghost predicate InRead(th: Thread) {
    th.Locking? || th.Locked? || th.Moved? || th.Writing? || th.Unlocking? || th.Searching? || th.UnlockGlobal?
  }

  // ---- the invariant ----

  ghost predicate ThreadsOk(s: State) {
    forall t :: 0 <= t < |s.threads| ==> ThreadOk(s, s.threads[t])
  }

  ghost predicate LocksOk(s: State)
    requires ThreadsOk(s)
  {
    && (forall x :: x in s.locks ==> x < s.buckets && s.locks[x] < |s.threads|)
    && (forall t, x :: 0 <= t < |s.threads| ==> HolderOk(s, t, x))
  }

  ghost predicate HolderOk(s: State, t: Tid, x: nat)
    requires t < |s.threads| && ThreadOk(s, s.threads[t])
  {
    (x in s.locks && s.locks[x] == t) <==> x in Held(s, s.threads[t])
  }

  ghost predicate GlobalOk(s: State) {
    && (forall t :: t in s.readers ==> t < |s.threads|)
    && (forall t :: 0 <= t < |s.threads| ==> (t in s.readers <==> InRead(s.threads[t])))
    && (forall t :: 0 <= t < |s.threads| ==> (s.writer == By(t) <==> s.threads[t].Resizing?))
    && (s.writer.By? ==> s.writer.t < |s.threads| && s.readers == {})
  }

  ghost predicate Inv(s: State) {
    s.buckets > 0 && Placed(s.cells, s.buckets) && ThreadsOk(s) && LocksOk(s) && GlobalOk(s)
  }

  ghost predicate Init(s: State) {
    && s.buckets > 0 && Placed(s.cells, s.buckets)
    && s.locks == map[] && s.readers == {} && s.writer == Nobody
    && (forall t :: 0 <= t < |s.threads| ==> s.threads[t].Idle?)
    && s.inserted == 0 && s.removed == 0
  }

  lemma InitInv(s: State)
    requires Init(s)
    ensures Inv(s)
  {
  }
}
