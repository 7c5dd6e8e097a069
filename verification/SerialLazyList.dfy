/**
 The lazy list as one thread runs it: the loops and in-place writes of each operation, against the
 key set. Other threads may have stopped with locks held, as long as they left no node half removed;
 an operation that needs such a lock aborts and changes nothing.
 */
module SerialLazyList {
  import opened LazyListHeap
  import opened LazyList

  /** No node is half removed: exactly the unmarked ones are linked. */
  ghost predicate Quiet(h: Heap) {
    UnmarkedLinked(h) && forall n :: 0 <= n < |h| && Reach(h, HEAD, n) ==> !h[n].marked
  }

  lemma QuietNode(h: Heap, n: nat)
    requires Quiet(h) && n < |h|
    ensures HeapOk(h) && (!h[n].marked <==> Reach(h, HEAD, n))
  {
  }

  /** The linked node p and its successor enclose the key: the two nodes an update locks. */
  ghost predicate Encloses(h: Heap, p: int, key: int) {
    && HeapOk(h) && 0 <= p < |h| && p != TAIL && !h[p].marked && LinkOk(h, p)
    && h[p].key < key <= h[h[p].next].key
  }

  /** There is one such pair only. */
  lemma EnclosesOne(h: Heap, p: int, q: int, key: int)
    requires Quiet(h) && Encloses(h, p, key) && Encloses(h, q, key)
    ensures p == q
  {
    NothingBetween(h, p, q);
    NothingBetween(h, q, p);
    SameKeySameNode(h, HEAD, p, q);
  }

  ghost predicate BothFree(h: Heap, p: int)
    requires HeapOk(h) && 0 <= p < |h| && p != TAIL && LinkOk(h, p)
  {
    h[p].lock == Free && h[h[p].next].lock == Free
  }

  /** A key is in the set exactly when it is the key of the node the search stops at. */
  lemma FoundIffInSet(h: Heap, p: nat, key: int)
    requires Quiet(h) && p < |h| && p != TAIL && !h[p].marked && LinkOk(h, p) && UserKey(key)
    requires h[p].key < key <= h[h[p].next].key
    ensures key in Keys(h) <==> h[h[p].next].key == key
  {
    var r := h[p].next;
    QuietNode(h, p);
    QuietNode(h, r);
    ReachTrans(h, HEAD, p, r);
    if h[r].key != key { AbsentBetween(h, p, key); }
  }

  /** Marking and unlinking the node takes its key out and leaves everything else as it was. */
  lemma RemoveEffect(h: Heap, p: nat, r: nat)
    requires Quiet(h) && p < |h| && p != TAIL && !h[p].marked && LinkOk(h, p) && h[p].next == r && r != TAIL
    ensures var h' := Unlinked(h[r := h[r].(marked := true)], p, h[r].next);
            Quiet(h') && Keys(h') == Keys(h) - {h[r].key}
  {
    var m := h[r := h[r].(marked := true)];
    var h' := Unlinked(m, p, h[r].next);
    QuietNode(h, p);
    QuietNode(h, r);
    assert h[r].key > INT_MIN && r >= 2;
    assert HeapOk(m) by { forall n | 0 <= n < |m| && n != TAIL ensures LinkOk(m, n) { assert LinkOk(h, n); } }
    ReachTrans(h, HEAD, p, r);
    MarkKeys(h, r);
    KeysSame(m, h');
    UnlinkedOk(m, p, r);
    forall n | 0 <= n < |h'| ensures !h'[n].marked <==> Reach(h', HEAD, n) {
      QuietNode(h, n);
      ReachSameLinks(h, m, HEAD, n);
      ReachSameLinks(h, m, HEAD, p);
      if n == r {
        UnlinkedIsGone(m, p, r, HEAD);
      } else if Reach(m, HEAD, n) {
        ReachUnlinked(m, p, r, HEAD, n);
      } else if Reach(h', HEAD, n) {
        ReachUnlinkedBack(m, p, r, HEAD, n);
      }
    }
  }

  /** Linking a new node in puts its key in. */
  lemma AddEffect(h: Heap, p: nat, key: int, val: int)
    requires Quiet(h) && p < |h| && p != TAIL && !h[p].marked && LinkOk(h, p) && UserKey(key)
    requires h[p].key < key < h[h[p].next].key
    ensures var h' := Linked(h, p, key, val, h[p].next);
            Quiet(h') && Keys(h') == Keys(h) + {key}
  {
    var h' := Linked(h, p, key, val, h[p].next);
    QuietNode(h, p);
    LinkedOk(h, p, key, val);
    LinkKeys(h, p, key, val);
    forall n | 0 <= n < |h'| ensures !h'[n].marked <==> Reach(h', HEAD, n) {
      if n < |h| {
        QuietNode(h, n);
        ReachLinked(h, p, key, val, HEAD, n);
      } else {
        NewNodeReached(h, p, key, val, HEAD);
      }
    }
  }

  // ---- counting ----

  ghost function KeysBelow(h: Heap, bound: int): set<int> {
    set k | k in Keys(h) && k < bound
  }

  /** Between a linked node and its successor there is one key more. */
  lemma OneKeyMore(h: Heap, p: nat)
    requires Quiet(h) && p < |h| && p != TAIL && !h[p].marked && LinkOk(h, p)
    ensures |KeysBelow(h, h[h[p].next].key)| == |KeysBelow(h, h[p].key)| + (if p == HEAD then 0 else 1)
    ensures !h[h[p].next].marked
  {
    QuietNode(h, p);
    QuietNode(h, h[p].next);
    ReachTrans(h, HEAD, p, h[p].next);
    var low, high := KeysBelow(h, h[p].key), KeysBelow(h, h[h[p].next].key);
    var own := if p == HEAD then {} else {h[p].key};
    forall k ensures k in high <==> k in low + own {
      if k in high && k !in low && k != h[p].key { AbsentBetween(h, p, k); }
      UserKeys(h, k);
    }
    assert high == low + own;
  }

  lemma UserKeys(h: Heap, k: int)
    requires HeapOk(h)
    ensures k in Keys(h) ==> UserKey(k)
  {
  }

  class SerialLazyList {
    var heap: Heap

    ghost predicate Valid()
      reads this
    {
      Quiet(heap)
    }

    constructor ()
      ensures Valid() && Keys(heap) == {}
    {
      heap := [Node(INT_MIN, INT_MIN, false, Free, TAIL), Node(INT_MAX, INT_MAX, false, Free, NULL)];
      new;
      assert LinkOk(heap, HEAD);
      assert Reach(heap, HEAD, HEAD) && Reach(heap, TAIL, TAIL) && Reach(heap, HEAD, TAIL);
    }

    /** `while (runner -> key < key)` from the head on. */
    method Find(key: int) returns (pred: nat, runner: nat)
      requires Valid() && UserKey(key)
      ensures pred < |heap| && pred != TAIL && !heap[pred].marked && LinkOk(heap, pred) && heap[pred].next == runner
      ensures heap[pred].key < key <= heap[runner].key && runner < |heap| && !heap[runner].marked
    {
      QuietNode(heap, HEAD);
      assert LinkOk(heap, HEAD);
      pred, runner := HEAD, heap[HEAD].next;
      OneKeyMore(heap, HEAD);
      while heap[runner].key < key
        invariant pred < |heap| && pred != TAIL && !heap[pred].marked && LinkOk(heap, pred) && heap[pred].next == runner
        invariant runner < |heap| && !heap[runner].marked && heap[pred].key < key
        decreases INT_MAX - heap[pred].key
      {
        assert LinkOk(heap, runner);
        OneKeyMore(heap, runner);
        pred := runner;
        runner := heap[runner].next;
      }
    }

    /** The sentinels' keys are answered TRUE. */
    method Contains(key: int) returns (ans: Answer)
      requires Valid() && INT_MIN <= key <= INT_MAX
      ensures ans == if key in Keys(heap) || key == INT_MIN || key == INT_MAX then TRUE else FALSE
    {
      var runner: nat := HEAD;
      ghost var pred: nat := HEAD;
      QuietNode(heap, HEAD);
      while heap[runner].key < key
        invariant runner < |heap| && !heap[runner].marked && pred < |heap|
        invariant runner == HEAD || Stops(pred, runner, key)
        decreases INT_MAX - heap[runner].key
      {
        assert LinkOk(heap, runner);
        OneKeyMore(heap, runner);
        pred := runner;
        runner := heap[runner].next;
      }
      if runner != HEAD && UserKey(key) { FoundIffInSet(heap, pred, key); }
      UserKeys(heap, key);
      ans := if heap[runner].key == key && !heap[runner].marked then TRUE else FALSE;
    }

    /** The search came to runner from pred, whose key is smaller. */
    ghost predicate Stops(pred: nat, runner: nat, key: int)
      requires Valid() && pred < |heap|
      reads this
    {
      pred != TAIL && !heap[pred].marked && LinkOk(heap, pred) && heap[pred].next == runner && heap[pred].key < key
    }

    method TryLock(n: nat) returns (busy: bool)
      requires n < |heap|
      modifies this
      ensures busy <==> old(heap[n].lock) != Free
      ensures heap == if busy then old(heap) else old(heap)[n := old(heap[n]).(lock := HeldBy(0))]
    {
      busy := heap[n].lock != Free;
      if !busy {
        heap := heap[n := heap[n].(lock := HeldBy(0))];
      }
    }

    method Unlock(n: nat)
      requires n < |heap|
      modifies this
      ensures heap == old(heap)[n := old(heap[n]).(lock := Free)]
    {
      heap := heap[n := heap[n].(lock := Free)];
    }

    /** Takes both locks, or aborts with the lock words as they were. */
    method LockBoth(pred: nat, runner: nat) returns (busy: bool)
      requires pred < |heap| && runner < |heap| && pred != runner
      modifies this
      ensures busy <==> old(heap[pred].lock) != Free || old(heap[runner].lock) != Free
      ensures busy ==> heap == old(heap)
      ensures !busy ==> heap == old(heap)[pred := old(heap[pred]).(lock := HeldBy(0))]
                                         [runner := old(heap[runner]).(lock := HeldBy(0))]
    {
      busy := TryLock(pred);
      if busy {
        return;
      }
      busy := TryLock(runner);
      if busy {
        Unlock(pred);
      }
    }

    method UnlockBoth(pred: nat, runner: nat)
      requires pred < |heap| && runner < |heap|
      modifies this
      ensures heap == old(heap)[pred := old(heap[pred]).(lock := Free)][runner := old(heap[runner]).(lock := Free)]
                        || pred == runner
    {
      Unlock(pred);
      Unlock(runner);
    }

    /** Alone, the link found always validates, so there is no retry. */
    method Remove(key: int) returns (ans: Answer)
      requires Valid() && UserKey(key)
      modifies this
      ensures Valid()
      ensures forall p :: Encloses(old(heap), p, key) ==> (ans == ABORT_FAILURE <==> !BothFree(old(heap), p))
      ensures ans == ABORT_FAILURE ==> heap == old(heap)
      ensures ans != ABORT_FAILURE ==> ans == if key in old(Keys(heap)) then TRUE else FALSE
      ensures ans != ABORT_FAILURE ==> Keys(heap) == old(Keys(heap)) - {key}
      ensures ans == FALSE ==> heap == old(heap)
      ensures |heap| == |old(heap)| && forall n :: 0 <= n < |heap| ==> heap[n].lock == old(heap)[n].lock
    {
      var pred, runner := Find(key);
      FoundIffInSet(heap, pred, key);
      ghost var h := heap;
      forall p | Encloses(h, p, key) ensures p == pred { EnclosesOne(h, p, pred, key); }
      var busy := LockBoth(pred, runner);
      if busy {
        return ABORT_FAILURE;
      }
      assert heap[pred].next == runner && !heap[pred].marked && !heap[runner].marked;
      ans := FALSE;
      if heap[runner].key == key {
        RemoveEffect(h, pred, runner);
        heap := heap[runner := heap[runner].(marked := true)];
        heap := heap[pred := heap[pred].(next := heap[runner].next)];
        ans := TRUE;
      }
      UnlockBoth(pred, runner);
      assert heap == if ans == TRUE then Unlinked(h[runner := h[runner].(marked := true)], pred, h[runner].next) else h;
    }

    method Add(key: int, val: int) returns (ans: Answer)
      requires Valid() && UserKey(key)
      modifies this
      ensures Valid()
      ensures forall p :: Encloses(old(heap), p, key) ==> (ans == ABORT_FAILURE <==> !BothFree(old(heap), p))
      ensures ans == ABORT_FAILURE ==> heap == old(heap)
      ensures ans != ABORT_FAILURE ==> ans == if key in old(Keys(heap)) then FALSE else TRUE
      ensures ans != ABORT_FAILURE ==> Keys(heap) == old(Keys(heap)) + {key}
      ensures ans == FALSE ==> heap == old(heap)
      ensures ans == TRUE ==> |heap| == |old(heap)| + 1 && heap[|old(heap)|].key == key && heap[|old(heap)|].val == val
      ensures |old(heap)| <= |heap| && forall n :: 0 <= n < |old(heap)| ==> heap[n].lock == old(heap)[n].lock
    {
      var pred, runner := Find(key);
      FoundIffInSet(heap, pred, key);
      ghost var h := heap;
      forall p | Encloses(h, p, key) ensures p == pred { EnclosesOne(h, p, pred, key); }
      var busy := LockBoth(pred, runner);
      if busy {
        return ABORT_FAILURE;
      }
      assert heap[pred].next == runner && !heap[pred].marked && !heap[runner].marked;
      ans := FALSE;
      if heap[runner].key != key {
        AddEffect(h, pred, key, val);
        heap := heap + [Node(key, val, false, Free, runner)];
        heap := heap[pred := heap[pred].(next := |heap| - 1)];
        ans := TRUE;
      }
      UnlockBoth(pred, runner);
      assert heap == if ans == TRUE then Linked(h, pred, key, val, h[pred].next) else h;
    }

    method Size() returns (size: int)
      requires Valid()
      ensures size == |Keys(heap)|
    {
      size := -2;
      var runner: int := HEAD;
      QuietNode(heap, HEAD);
      assert KeysBelow(heap, INT_MIN) == {} by {
        forall k ensures k !in KeysBelow(heap, INT_MIN) { UserKeys(heap, k); }
      }
      while runner != NULL
        invariant runner == NULL || (0 <= runner < |heap| && !heap[runner].marked)
        invariant runner != NULL ==> size == |KeysBelow(heap, heap[runner].key)| - (if runner == HEAD then 2 else 1)
        invariant runner == NULL ==> size == |KeysBelow(heap, INT_MAX)|
        decreases if runner == NULL then -1 else INT_MAX - heap[runner].key
      {
        size := size + 1;
        if runner != TAIL {
          assert LinkOk(heap, runner);
          OneKeyMore(heap, runner);
        }
        runner := heap[runner].next;
      }
      assert KeysBelow(heap, INT_MAX) == Keys(heap) by {
        forall k ensures k in Keys(heap) ==> k < INT_MAX { UserKeys(heap, k); }
      }
    }
  }
}
