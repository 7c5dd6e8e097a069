/**
 One-sided reads of a replica's store while its worker threads displace, insert and remove.

 The store is one table; a key may be in its primary or its secondary bucket. Each write the store's code
 makes is one action here, guarded by the locks the code holds and the test it has just made under them;
 in which order locks are taken and which path a displacement follows is left open. A reader reads the
 primary bucket in one step and, if the key is not there, the secondary bucket in another. It holds no lock.
 */
module OneSidedGet {

  import opened FlatStore

  datatype HopState = NoHop | Copied(src: Cell, dst: Cell)
  datatype Writer = Writer(held: set<nat>, hop: HopState)

  datatype Reader = Idle | AtPrimary(key: int) | AtSecondary(key: int) | Answered(key: int, found: bool)

  /** `cells` are the occupied entries. */
  datatype State = State(cells: Entries, writers: seq<Writer>, readers: seq<Reader>)

  datatype Action =
    | Lock(t: nat, index: nat)
    | Unlock(t: nat, index: nat)
    | Put(t: nat, cell: Cell, node: Node)         // insert: into an empty entry, or over the same key
    | CopyEntry(t: nat, src: Cell, dst: Cell)     // hop: setElement on the destination
    | ClearSource(t: nat)                         // hop: setKey(EMPTY) on the source
    | Erase(t: nat, cell: Cell, key: int)         // remove
    | Get(r: nat, key: int)
    | ReadPrimary(r: nat)
    | ReadSecondary(r: nat)
    | Finish(r: nat)

  ghost predicate InBucket(cells: Entries, index: nat, key: int) {
    exists c :: c in cells && c.index == index && cells[c].key == key
  }

  ghost predicate HoldsBoth(lay: Layout, w: Writer, key: int)
    requires lay.buckets > 0
  {
    Hash(lay, key, 1) in w.held && Hash(lay, key, 2) in w.held
  }

  ghost predicate Enabled(lay: Layout, s: State, a: Action)
    requires lay.buckets > 0
  {
    match a
    case Lock(t, x) =>
      t < |s.writers| && s.writers[t].hop.NoHop? && forall u :: 0 <= u < |s.writers| ==> x !in s.writers[u].held
    case Unlock(t, x) => t < |s.writers| && s.writers[t].hop.NoHop? && x in s.writers[t].held
    case Put(t, c, n) =>
      && t < |s.writers| && s.writers[t].hop.NoHop? && HoldsBoth(lay, s.writers[t], n.key) && n.key != EMPTY
      && (c.index == Hash(lay, n.key, 1) || c.index == Hash(lay, n.key, 2)) && c.slot < ENTRY_WIDTH
      && (c in s.cells ==> s.cells[c].key == n.key)
    case CopyEntry(t, src, dst) =>
      && t < |s.writers| && s.writers[t].hop.NoHop?
      && src.index in s.writers[t].held && dst.index in s.writers[t].held && dst.slot < ENTRY_WIDTH
      && dst !in s.cells && src in s.cells && Hash(lay, s.cells[src].key, 2) == dst.index
    case ClearSource(t) => t < |s.writers| && s.writers[t].hop.Copied?
    case Erase(t, c, key) =>
      && t < |s.writers| && s.writers[t].hop.NoHop? && HoldsBoth(lay, s.writers[t], key)
      && c in s.cells && s.cells[c].key == key
      && (c.index == Hash(lay, key, 1) || (c.index == Hash(lay, key, 2) && !InBucket(s.cells, Hash(lay, key, 1), key)))
    case Get(r, key) => r < |s.readers| && s.readers[r].Idle? && key != EMPTY
    case ReadPrimary(r) => r < |s.readers| && s.readers[r].AtPrimary?
    case ReadSecondary(r) => r < |s.readers| && s.readers[r].AtSecondary?
    case Finish(r) => r < |s.readers| && s.readers[r].Answered?
  }

  ghost function Apply(lay: Layout, s: State, a: Action): State
    requires lay.buckets > 0 && Enabled(lay, s, a)
  {
    match a
    case Lock(t, x) => s.(writers := s.writers[t := s.writers[t].(held := s.writers[t].held + {x})])
    case Unlock(t, x) => s.(writers := s.writers[t := s.writers[t].(held := s.writers[t].held - {x})])
    case Put(t, c, n) => s.(cells := s.cells[c := n])
    case CopyEntry(t, src, dst) =>
      s.(cells := s.cells[dst := s.cells[src]], writers := s.writers[t := s.writers[t].(hop := Copied(src, dst))])
    case ClearSource(t) =>
      s.(cells := s.cells - {s.writers[t].hop.src}, writers := s.writers[t := s.writers[t].(hop := NoHop)])
    case Erase(t, c, key) => s.(cells := s.cells - {c})
    case Get(r, key) => s.(readers := s.readers[r := AtPrimary(key)])
    case ReadPrimary(r) =>
      var key := s.readers[r].key;
      s.(readers := s.readers[r :=
           if InBucket(s.cells, Hash(lay, key, 1), key) then Answered(key, true) else AtSecondary(key)])
    case ReadSecondary(r) =>
      var key := s.readers[r].key;
      s.(readers := s.readers[r := Answered(key, InBucket(s.cells, Hash(lay, key, 2), key))])
    case Finish(r) => s.(readers := s.readers[r := Idle])
  }

  // ---- the invariant ----

  /** A hop that has copied still has the same key at both ends, under both locks. */
  ghost predicate HopOk(lay: Layout, s: State, w: Writer)
    requires lay.buckets > 0
  {
    w.hop.Copied? ==>
      var src, dst := w.hop.src, w.hop.dst;
      && src.index in w.held && dst.index in w.held && src != dst
      && src in s.cells && dst in s.cells && s.cells[src].key == s.cells[dst].key
      && dst.index == Hash(lay, s.cells[dst].key, 2)
  }

  ghost predicate Inv(lay: Layout, s: State) {
    && Placed(lay, s.cells)
    && (forall t :: 0 <= t < |s.writers| ==> HopOk(lay, s, s.writers[t]))
    && (forall t, u | 0 <= t < |s.writers| && 0 <= u < |s.writers| && t != u :: s.writers[t].held !! s.writers[u].held)
  }

  lemma StepInv(lay: Layout, s: State, a: Action)
    requires Inv(lay, s) && Enabled(lay, s, a)
    ensures Inv(lay, Apply(lay, s, a))
  {
    var s' := Apply(lay, s, a);
    forall t | 0 <= t < |s'.writers| ensures HopOk(lay, s', s'.writers[t]) {
      assert HopOk(lay, s, s.writers[t]);
      if a.Put? || a.Erase? || a.CopyEntry? || a.ClearSource? {
        assert t != a.t ==> s.writers[t].held !! s.writers[a.t].held;
        assert HopOk(lay, s, s.writers[a.t]);
      }
    }
  }

  /** As long as the key stays in the store, no write takes it out of its secondary bucket. */
  lemma SecondaryKept(lay: Layout, s: State, a: Action, key: int)
    requires Inv(lay, s) && Enabled(lay, s, a) && InBucket(s.cells, Hash(lay, key, 2), key)
    requires HasKey(Apply(lay, s, a).cells, key)
    ensures InBucket(Apply(lay, s, a).cells, Hash(lay, key, 2), key)
  {
    var s' := Apply(lay, s, a);
    var c :| c in s.cells && c.index == Hash(lay, key, 2) && s.cells[c].key == key;
    if c in s'.cells {
      assert s'.cells[c].key == key;
    } else if a.ClearSource? {
      assert HopOk(lay, s, s.writers[a.t]);
      var dst := s.writers[a.t].hop.dst;
      assert dst in s'.cells && s'.cells[dst].key == key;
    } else {
      assert a.Erase? && a.cell == c && a.key == key;
      var d :| d in s'.cells && s'.cells[d].key == key;
      assert d in s.cells && s.cells[d].key == key;
    }
  }

  // ---- runs ----

  ghost predicate StepAt(lay: Layout, ss: seq<State>, acts: seq<Action>, i: nat)
    requires lay.buckets > 0 && |ss| == |acts| + 1 && i < |acts|
  {
    Enabled(lay, ss[i], acts[i]) && ss[i + 1] == Apply(lay, ss[i], acts[i])
  }

  /** A run from any well-placed table on which no lock is held. */
  ghost predicate IsRun(lay: Layout, ss: seq<State>, acts: seq<Action>) {
    && |ss| == |acts| + 1
    && Placed(lay, ss[0].cells) && (forall t :: 0 <= t < |ss[0].writers| ==> ss[0].writers[t] == Writer({}, NoHop))
    && forall i :: 0 <= i < |acts| ==> StepAt(lay, ss, acts, i)
  }

  lemma {:induction false} RunInv(lay: Layout, ss: seq<State>, acts: seq<Action>, i: nat)
    requires IsRun(lay, ss, acts) && i < |ss|
    ensures Inv(lay, ss[i]) && |ss[i].readers| == |ss[0].readers|
  {
    if i > 0 {
      RunInv(lay, ss, acts, i - 1);
      assert StepAt(lay, ss, acts, i - 1);
      StepInv(lay, ss[i - 1], acts[i - 1]);
    }
  }

  /** Reader r starts `get(key)` with action i and is first seen with its answer in state j. */
  ghost predicate GetCall(lay: Layout, ss: seq<State>, acts: seq<Action>, r: nat, i: nat, j: nat, key: int, found: bool)
    requires IsRun(lay, ss, acts)
  {
    && i < j < |ss| && r < |ss[0].readers| && acts[i] == Get(r, key)
    && (forall m :: i < m < j ==>
          r < |ss[m].readers| && (ss[m].readers[r] == AtPrimary(key) || ss[m].readers[r] == AtSecondary(key)))
    && r < |ss[j].readers| && ss[j].readers[r] == Answered(key, found)
  }

  ghost predicate PresentThroughout(ss: seq<State>, i: nat, j: nat, key: int) {
    forall m :: i <= m <= j && m < |ss| ==> HasKey(ss[m].cells, key)
  }

  lemma {:induction false} MissedPrimary(
      lay: Layout, ss: seq<State>, acts: seq<Action>, r: nat, i: nat, j: nat, key: int, found: bool, m: nat)
    requires IsRun(lay, ss, acts) && GetCall(lay, ss, acts, r, i, j, key, found)
    requires PresentThroughout(ss, i, j, key) && i < m < j
    ensures r < |ss[m].readers|
    ensures ss[m].readers[r] == AtSecondary(key) ==> InBucket(ss[m].cells, Hash(lay, key, 2), key)
  {
    RunInv(lay, ss, acts, m);
    RunInv(lay, ss, acts, m - 1);
    assert StepAt(lay, ss, acts, m - 1);
    if m > i + 1 && ss[m].readers[r] == AtSecondary(key) {
      MissedPrimary(lay, ss, acts, r, i, j, key, found, m - 1);
      var s, a := ss[m - 1], acts[m - 1];
      assert HasKey(s.cells, key) && HasKey(ss[m].cells, key);
      if s.readers[r] == AtSecondary(key) {
        SecondaryKept(lay, s, a, key);
      } else {
        assert a == ReadPrimary(r) && !InBucket(s.cells, Hash(lay, key, 1), key);
        var c :| c in s.cells && s.cells[c].key == key;
        assert InBucket(s.cells, c.index, key);
      }
    }
  }

  /** A one-sided get never misses a key that is in the store throughout, whatever the writers do meanwhile. */
  lemma GetNeverMisses(
      lay: Layout, ss: seq<State>, acts: seq<Action>, r: nat, i: nat, j: nat, key: int, found: bool)
    requires IsRun(lay, ss, acts) && GetCall(lay, ss, acts, r, i, j, key, found)
    requires PresentThroughout(ss, i, j, key)
    ensures found
  {
    RunInv(lay, ss, acts, j - 1);
    RunInv(lay, ss, acts, i);
    assert StepAt(lay, ss, acts, j - 1) && StepAt(lay, ss, acts, i);
    assert i < j - 1;
    MissedPrimary(lay, ss, acts, r, i, j, key, found, j - 1);
  }

  /**
   A FALSE answer means the key was absent at some moment of the call, a
   TRUE answer that it was present at some moment.
   */
  lemma GetIsRightAtSomeMoment(
      lay: Layout, ss: seq<State>, acts: seq<Action>, r: nat, i: nat, j: nat, key: int, found: bool)
    requires IsRun(lay, ss, acts) && GetCall(lay, ss, acts, r, i, j, key, found)
    ensures exists m :: i <= m <= j && (found <==> HasKey(ss[m].cells, key))
  {
    if !found {
      if PresentThroughout(ss, i, j, key) { GetNeverMisses(lay, ss, acts, r, i, j, key, found); }
    } else {
      RunInv(lay, ss, acts, j - 1);
      RunInv(lay, ss, acts, i);
      assert StepAt(lay, ss, acts, j - 1) && StepAt(lay, ss, acts, i);
      assert i < j - 1;
      var s := ss[j - 1];
      assert HasKey(s.cells, key);
    }
  }
}
