/**
 Why the set property needs the condition on overlapping inserts: with one bucket, both tables full,
 two inserts of one value and two removals, the value ends up stored twice.
 */
module CuckooOverlap {
  import opened CuckooCore
  import opened CuckooMachine
  import opened CuckooAbstract
  import opened CuckooRuns

  /** The last state of some run from first. */
  ghost predicate Reachable(first: State, s: State) {
    exists ss: seq<State>, acts: seq<Action> :: IsRun(ss, acts) && ss[0] == first && ss[|acts|] == s
  }

  lemma ReachStep(first: State, s: State, a: Action) returns (s': State)
    requires Reachable(first, s) && Enabled(s, a)
    ensures ThreadOk(s, s.threads[a.t]) && s' == Apply(s, a) && Reachable(first, s')
  {
    var ss: seq<State>, acts: seq<Action> :| IsRun(ss, acts) && ss[0] == first && ss[|acts|] == s;
    RunsExtend(ss, acts, a);
    s' := Apply(s, a);
    assert (ss + [s'])[|acts + [a]|] == s' && (ss + [s'])[0] == first;
  }

  /** One bucket, nobody waiting for a resize, and the bucket's lock free. */
  ghost predicate Calm(first: State, s: State) {
    Reachable(first, s) && s.buckets == 1 && s.locks == map[] && s.writer == Nobody
  }

  lemma OneBucket(val: int)
    ensures Hash(val, 1, 1) == 0 && Hash(val, 2, 1) == 0
  {
  }

  /** Thread t comes as far as holding the bucket's lock for its first look. */
  lemma Arrives(first: State, s: State, t: Tid, op: Op) returns (s': State)
    requires Calm(first, s) && t < |s.threads| && s.threads[t].Idle? && op.val != EMPTY
    ensures Reachable(first, s')
    ensures s' == s.(locks := map[0 := t], readers := s.readers + {t}, threads := s.threads[t := Locked(op, First)])
  {
    OneBucket(op.val);
    s' := ReachStep(first, s, Invoke(t, op));
    s' := ReachStep(first, s', Advance(t, NoPath));
    assert PhaseLocks(op, First, 1) == [0];
    s' := ReachStep(first, s', Advance(t, NoPath));
    assert s'.threads == s.threads[t := Locked(op, First)];
  }

  /** Thread t lets go of the bucket's lock. */
  lemma LetsGo(first: State, s: State, t: Tid, next: After) returns (s': State)
    requires Reachable(first, s) && s.locks == map[0 := t] && t < |s.threads|
    requires s.threads[t].Unlocking? && s.threads[t].todo == [0] && s.threads[t].next == next
    ensures Reachable(first, s')
    ensures s' == s.(locks := map[], threads := s.threads[t := Continue(s.threads[t].op, next)])
  {
    s' := ReachStep(first, s, Advance(t, NoPath));
    assert s.threads[t].todo[1..] == [] && s.locks - {0} == map[];
    s' := ReachStep(first, s', Advance(t, NoPath));
    assert s'.threads == s.threads[t := Continue(s.threads[t].op, next)];
  }

  ghost predicate Absent(cells: Cells, val: int) {
    FindSlot(cells, val, 1, 0) == -1 && FindSlot(cells, val, 2, 0) == -1
  }

  /** An insert that finds neither its value nor room goes off to search. */
  lemma GoesSearching(first: State, s: State, t: Tid, val: int) returns (s': State)
    requires Calm(first, s) && t < |s.threads| && s.threads[t].Idle? && val != EMPTY
    requires Absent(s.cells, val) && Absent(s.cells, EMPTY)
    ensures Calm(first, s')
    ensures s' == s.(readers := s.readers + {t}, threads := s.threads[t := Searching(Insert(val))])
  {
    OneBucket(val);
    s' := Arrives(first, s, t, Insert(val));
    s' := ReachStep(first, s', Advance(t, NoPath));
    s' := LetsGo(first, s', t, Search);
    assert s'.threads == s.threads[t := Searching(Insert(val))];
  }

  /** A removal takes the value out of its slot in table 1. */
  lemma TakesOut(first: State, s: State, t: Tid, val: int, slot: nat) returns (s': State)
    requires Calm(first, s) && t < |s.threads| && s.threads[t].Idle? && val != EMPTY
    requires FindSlot(s.cells, val, 1, 0) == slot
    ensures Calm(first, s')
    ensures s' == s.(cells := s.cells - {Cell(1, 0, slot)}, removed := s.removed + 1, readers := s.readers + {t},
                     threads := s.threads[t := UnlockGlobal(Remove(val), Answer(true))])
  {
    OneBucket(val);
    s' := Arrives(first, s, t, Remove(val));
    s' := ReachStep(first, s', Advance(t, NoPath));
    s' := LetsGo(first, s', t, Finish(true));
    assert s'.threads == s.threads[t := UnlockGlobal(Remove(val), Answer(true))];
  }

  /** A searching insert is handed a free slot of table 1 and writes its value there. */
  lemma PutsIn(first: State, s: State, t: Tid, val: int, slot: nat) returns (s': State)
    requires Calm(first, s) && t < |s.threads| && s.threads[t] == Searching(Insert(val))
    requires slot < WIDTH && Cell(1, 0, slot) !in s.cells
    ensures Calm(first, s')
    ensures s' == s.(cells := s.cells[Cell(1, 0, slot) := val], inserted := s.inserted + 1,
                     threads := s.threads[t := UnlockGlobal(Insert(val), Answer(true))])
  {
    OneBucket(val);
    var c, op := Cell(1, 0, slot), Insert(val);
    assert PathOk([c], val, 1);
    s' := ReachStep(first, s, Advance(t, Via([c])));
    assert PhaseLocks(op, Direct(c), 1) == [0];
    s' := ReachStep(first, s', Advance(t, NoPath));
    s' := ReachStep(first, s', Advance(t, NoPath));
    s' := ReachStep(first, s', Advance(t, NoPath));
    s' := LetsGo(first, s', t, Finish(true));
    assert s'.threads == s.threads[t := UnlockGlobal(op, Answer(true))];
  }

  // ---- the run ----

  /** Values 1 to 6 in table 1, 7 to 12 in table 2. */
  function FullCells(): Cells {
    map[Cell(1, 0, 0) := 1, Cell(1, 0, 1) := 2, Cell(1, 0, 2) := 3, Cell(1, 0, 3) := 4, Cell(1, 0, 4) := 5,
        Cell(1, 0, 5) := 6, Cell(2, 0, 0) := 7, Cell(2, 0, 1) := 8, Cell(2, 0, 2) := 9, Cell(2, 0, 3) := 10,
        Cell(2, 0, 4) := 11, Cell(2, 0, 5) := 12]
  }

  function FullState(): State {
    State(1, FullCells(), map[], {}, Nobody, [Idle, Idle, Idle, Idle], 0, 0)
  }

  lemma FullFacts()
    ensures Absent(FullCells(), 13) && Absent(FullCells(), EMPTY)
    ensures FindSlot(FullCells(), 1, 1, 0) == 0
    ensures FindSlot(FullCells() - {Cell(1, 0, 0)}, 2, 1, 0) == 1
  {
    var es := FullCells();
    forall t: int, i: nat | (t == 1 || t == 2) && i < WIDTH
      ensures At(es, Cell(t, 0, i)) == (t - 1) * 6 + i + 1
    {
    }
    assert At(es, Cell(1, 0, 0)) == 1;
    var left := es - {Cell(1, 0, 0)};
    assert At(left, Cell(1, 0, 1)) == 2 && At(left, Cell(1, 0, 0)) == EMPTY;
  }

  lemma FullCell(c: Cell)
    requires c in FullCells()
    ensures ValidCell(c, 1) && c.index == 0 && FullCells()[c] == (c.table - 1) * 6 + c.slot + 1
  {
  }

  lemma FullPlaced()
    ensures Placed(FullCells(), 1)
  {
    forall c | c in FullCells()
      ensures ValidCell(c, 1) && FullCells()[c] != EMPTY && Hash(FullCells()[c], c.table, 1) == c.index
    {
      FullCell(c);
      OneBucket(FullCells()[c]);
    }
  }

  lemma FullOnce()
    ensures Init(FullState()) && AtMostOnce(FullState())
  {
    FullPlaced();
    forall v ensures Mult(FullState(), v) <= 1 {
      var copies := Copies(FullState(), v);
      if only :| only in copies {
        forall c | c in copies ensures c == only { FullCell(c); FullCell(only); }
        OneAtMost(copies, only);
      } else {
        assert copies == {};
      }
    }
  }

  lemma OneAtMost(cells: set<Cell>, only: Cell)
    requires forall c :: c in cells ==> c == only
    ensures |cells| <= 1
  {
    assert cells == {} || cells == {only};
  }

  ghost predicate FourThreads(s: State, a: Thread, b: Thread, c: Thread, d: Thread) {
    s.threads == [a, b, c, d]
  }

  lemma BothSearch(first: State) returns (s: State)
    requires Calm(first, first) && first.cells == FullCells() && FourThreads(first, Idle, Idle, Idle, Idle)
    ensures Calm(first, s) && s.cells == FullCells()
    ensures FourThreads(s, Searching(Insert(13)), Searching(Insert(13)), Idle, Idle)
  {
    FullFacts();
    s := GoesSearching(first, first, 0, 13);
    s := GoesSearching(first, s, 1, 13);
  }

  lemma RoomForBoth(first: State, s: State, th: Thread) returns (s': State)
    requires Calm(first, s) && s.cells == FullCells() && FourThreads(s, th, th, Idle, Idle)
    ensures Calm(first, s') && Cell(1, 0, 0) !in s'.cells && Cell(1, 0, 1) !in s'.cells
    ensures exists c, d :: FourThreads(s', th, th, c, d) && !c.Moved? && !d.Moved?
  {
    s' := FirstOut(first, s, th);
    s' := SecondOut(first, s', th, UnlockGlobal(Remove(1), Answer(true)));
  }

  lemma FirstOut(first: State, s: State, th: Thread) returns (s': State)
    requires Calm(first, s) && s.cells == FullCells() && FourThreads(s, th, th, Idle, Idle)
    ensures Calm(first, s') && s'.cells == FullCells() - {Cell(1, 0, 0)}
    ensures FourThreads(s', th, th, UnlockGlobal(Remove(1), Answer(true)), Idle)
  {
    FullFacts();
    s' := TakesOut(first, s, 2, 1, 0);
  }

  lemma SecondOut(first: State, s: State, th: Thread, done: Thread) returns (s': State)
    requires Calm(first, s) && s.cells == FullCells() - {Cell(1, 0, 0)} && FourThreads(s, th, th, done, Idle)
    ensures Calm(first, s') && s'.cells == s.cells - {Cell(1, 0, 1)}
    ensures FourThreads(s', th, th, done, UnlockGlobal(Remove(2), Answer(true)))
  {
    FullFacts();
    s' := TakesOut(first, s, 3, 2, 1);
  }

  lemma BothWrite(first: State, s: State, c: Thread, d: Thread) returns (s': State)
    requires Calm(first, s) && Cell(1, 0, 0) !in s.cells && Cell(1, 0, 1) !in s.cells
    requires FourThreads(s, Searching(Insert(13)), Searching(Insert(13)), c, d) && !c.Moved? && !d.Moved?
    ensures Reachable(first, s') && Mult(s', 13) >= 2
  {
    s' := PutsIn(first, s, 0, 13, 0);
    s' := PutsIn(first, s', 1, 13, 1);
    StoredTwice(s', 13, Cell(1, 0, 0), Cell(1, 0, 1));
  }

  /**
   From a table that stores every value once, two overlapping inserts of 13 both succeed: the re-lock
   after the search does not look for the value again.
   */
  lemma OverlappingInsertsStoreTwice()
    ensures Init(FullState()) && AtMostOnce(FullState())
    ensures exists s :: Reachable(FullState(), s) && Mult(s, 13) >= 2
  {
    FullOnce();
    var first := FullState();
    var ss: seq<State>, acts: seq<Action> := [first], [];
    assert IsRun(ss, acts) && ss[0] == first && ss[|acts|] == first;
    var s := BothSearch(first);
    s := RoomForBoth(first, s, Searching(Insert(13)));
    var c, d :| FourThreads(s, Searching(Insert(13)), Searching(Insert(13)), c, d) && !c.Moved? && !d.Moved?;
    s := BothWrite(first, s, c, d);
  }

  lemma StoredTwice(s: State, val: int, a: Cell, b: Cell)
    requires a != b && a in s.cells && b in s.cells && s.cells[a] == s.cells[b] == val
    requires forall t :: 0 <= t < |s.threads| ==> !s.threads[t].Moved?
    ensures Mult(s, val) >= 2
  {
    assert forall t :: 0 <= t < |s.threads| ==> !HasSource(s.threads[t]);
    assert Sources(s) == {};
    TwoAtLeast(Copies(s, val), a, b);
  }

  lemma TwoAtLeast(cells: set<Cell>, a: Cell, b: Cell)
    requires a in cells && b in cells && a != b
    ensures |cells| >= 2
  {
    assert |cells| == |cells - {a}| + 1 && |cells - {a}| == |cells - {a} - {b}| + 1;
  }
}
