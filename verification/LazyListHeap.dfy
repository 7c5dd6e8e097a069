/**
 The node heap of the lazy list: nodes are addressed by index, never freed, and linked by
 `next`. The module states when a heap is well formed, what is reachable, and how the four
 kinds of write (lock word, `marked`, unlink, link) act on reachability and on the key set.
 */
module LazyListHeap {

  const INT_MIN := -0x8000_0000
  const INT_MAX := 0x7fff_ffff

  type Tid = nat

  const HEAD: nat := 0
  const TAIL: nat := 1
  const NULL: int := -1

  datatype LockWord = Free | HeldBy(owner: Tid)

  datatype Node = Node(key: int, val: int, marked: bool, lock: LockWord, next: int)

  type Heap = seq<Node>

  /** Keys a caller may store: strictly between the two sentinels. */
  predicate UserKey(k: int): (ok: bool)
    ensures ok <==> -2147483648 < k < 2147483647
  {
    INT_MIN < k < INT_MAX
  }

  /** Both sentinels are in place and keys strictly increase along every `next`. */
  ghost predicate HeapOk(h: Heap) {
    && |h| >= 2
    && h[HEAD].key == INT_MIN && !h[HEAD].marked
    && h[TAIL].key == INT_MAX && !h[TAIL].marked && h[TAIL].next == NULL
    && (forall n :: 0 <= n < |h| && n != HEAD && n != TAIL ==> UserKey(h[n].key))
    && (forall n :: 0 <= n < |h| && n != TAIL ==> LinkOk(h, n))
  }

  ghost predicate LinkOk(h: Heap, n: nat)
    requires n < |h|
  {
    0 <= h[n].next < |h| && h[n].key < h[h[n].next].key
  }

  /** `b` can be reached from `a` along `next`. */
  ghost predicate Reach(h: Heap, a: nat, b: nat)
    requires HeapOk(h) && a < |h| && b < |h|
    decreases INT_MAX - h[a].key
  {
    a == b || (a != TAIL && LinkOk(h, a) && Reach(h, h[a].next, b))
  }

  /** The abstract set: keys of the unmarked nodes other than the sentinels. */
  ghost function Keys(h: Heap): set<int> {
    set n | 2 <= n < |h| && !h[n].marked :: h[n].key
  }

  lemma {:induction false} ReachKey(h: Heap, a: nat, b: nat)
    requires HeapOk(h) && a < |h| && b < |h| && Reach(h, a, b)
    ensures a == b || h[a].key < h[b].key
    decreases INT_MAX - h[a].key
  {
    if a != b {
      assert LinkOk(h, a);
      ReachKey(h, h[a].next, b);
    }
  }

  /** Every chain ends in the tail. */
  lemma {:induction false} ReachTail(h: Heap, a: nat)
    requires HeapOk(h) && a < |h|
    ensures Reach(h, a, TAIL)
    decreases INT_MAX - h[a].key
  {
    if a != TAIL {
      assert LinkOk(h, a);
      ReachTail(h, h[a].next);
    }
  }

  lemma {:induction false} ReachTrans(h: Heap, a: nat, b: nat, c: nat)
    requires HeapOk(h) && a < |h| && b < |h| && c < |h|
    requires Reach(h, a, b) && Reach(h, b, c)
    ensures Reach(h, a, c)
    decreases INT_MAX - h[a].key
  {
    if a != b {
      assert LinkOk(h, a);
      ReachTrans(h, h[a].next, b, c);
    }
  }

  /** Nodes reachable from one node lie on one chain. */
  lemma {:induction false} ReachLinear(h: Heap, a: nat, x: nat, y: nat)
    requires HeapOk(h) && a < |h| && x < |h| && y < |h|
    requires Reach(h, a, x) && Reach(h, a, y)
    ensures Reach(h, x, y) || Reach(h, y, x)
    decreases INT_MAX - h[a].key
  {
    if a != x && a != y {
      assert LinkOk(h, a);
      ReachLinear(h, h[a].next, x, y);
    }
  }

  lemma SameKeySameNode(h: Heap, a: nat, x: nat, y: nat)
    requires HeapOk(h) && a < |h| && x < |h| && y < |h|
    requires Reach(h, a, x) && Reach(h, a, y) && h[x].key == h[y].key
    ensures x == y
  {
    ReachLinear(h, a, x, y);
    if Reach(h, x, y) { ReachKey(h, x, y); } else { ReachKey(h, y, x); }
  }

  /** No reachable node lies strictly between a reachable node and its successor. */
  lemma NothingBetween(h: Heap, p: nat, n: nat)
    requires HeapOk(h) && p < |h| && n < |h| && p != TAIL
    requires Reach(h, HEAD, p) && Reach(h, HEAD, n)
    ensures LinkOk(h, p)
    ensures h[n].key <= h[p].key || h[h[p].next].key <= h[n].key
  {
    assert LinkOk(h, p);
    ReachLinear(h, HEAD, p, n);
    if Reach(h, n, p) {
      ReachKey(h, n, p);
    } else {
      ReachKey(h, h[p].next, n);
    }
  }

  // ---- writes that leave the links alone: lock words and `marked` ----

  ghost predicate SameLinks(h: Heap, h': Heap) {
    |h| == |h'| && forall n :: 0 <= n < |h| ==> h[n].key == h'[n].key && h[n].next == h'[n].next
  }

  lemma {:induction false} ReachSameLinks(h: Heap, h': Heap, a: nat, b: nat)
    requires HeapOk(h) && HeapOk(h') && SameLinks(h, h') && a < |h| && b < |h|
    ensures Reach(h, a, b) == Reach(h', a, b)
    decreases INT_MAX - h[a].key
  {
    if a != TAIL {
      assert LinkOk(h, a) && LinkOk(h', a);
      ReachSameLinks(h, h', h[a].next, b);
    }
  }

  // ---- unlinking m from its predecessor p ----

  function Unlinked(h: Heap, p: nat, succ: int): Heap
    requires p < |h|
  {
    h[p := h[p].(next := succ)]
  }

  lemma UnlinkedOk(h: Heap, p: nat, m: nat)
    requires HeapOk(h) && p < |h| && m < |h| && p != TAIL && m != TAIL
    requires h[p].next == m
    ensures HeapOk(Unlinked(h, p, h[m].next))
  {
    var h' := Unlinked(h, p, h[m].next);
    assert LinkOk(h, p) && LinkOk(h, m);
    forall n | 0 <= n < |h'| && n != TAIL ensures LinkOk(h', n) {
      assert LinkOk(h, n);
    }
  }

  /** Unlinking m loses no other node... */
  lemma {:induction false} ReachUnlinked(h: Heap, p: nat, m: nat, a: nat, b: nat)
    requires HeapOk(h) && p < |h| && m < |h| && p != TAIL && m != TAIL && h[p].next == m
    requires HeapOk(Unlinked(h, p, h[m].next))
    requires a < |h| && b < |h| && b != m && Reach(h, a, b)
    ensures Reach(Unlinked(h, p, h[m].next), a, b)
    decreases INT_MAX - h[a].key
  {
    var h' := Unlinked(h, p, h[m].next);
    if a != b {
      assert LinkOk(h, a) && LinkOk(h', a);
      if a == p {
        assert LinkOk(h, m);
        assert Reach(h, m, b);
        ReachUnlinked(h, p, m, h[m].next, b);
      } else {
        ReachUnlinked(h, p, m, h[a].next, b);
      }
    }
  }

  /** ...and adds none. */
  lemma {:induction false} ReachUnlinkedBack(h: Heap, p: nat, m: nat, a: nat, b: nat)
    requires HeapOk(h) && p < |h| && m < |h| && p != TAIL && m != TAIL && h[p].next == m
    requires HeapOk(Unlinked(h, p, h[m].next))
    requires a < |h| && b < |h| && Reach(Unlinked(h, p, h[m].next), a, b)
    ensures Reach(h, a, b)
    decreases INT_MAX - h[a].key
  {
    var h' := Unlinked(h, p, h[m].next);
    if a != b {
      assert LinkOk(h, a) && LinkOk(h', a);
      if a == p {
        assert LinkOk(h, m);
        ReachUnlinkedBack(h, p, m, h[m].next, b);
        assert Reach(h, m, b);
      } else {
        ReachUnlinkedBack(h, p, m, h[a].next, b);
      }
    }
  }

  /** After the unlink, m itself is gone from every chain that ran through p. */
  lemma {:induction false} UnlinkedIsGone(h: Heap, p: nat, m: nat, a: nat)
    requires HeapOk(h) && p < |h| && m < |h| && p != TAIL && m != TAIL && h[p].next == m
    requires HeapOk(Unlinked(h, p, h[m].next))
    requires a < |h| && Reach(h, a, p)
    ensures !Reach(Unlinked(h, p, h[m].next), a, m)
    decreases INT_MAX - h[a].key
  {
    var h' := Unlinked(h, p, h[m].next);
    assert LinkOk(h, p) && LinkOk(h, m) && LinkOk(h', p);
    ReachKey(h, a, p);
    if a == p {
      if Reach(h', h[m].next, m) { ReachKey(h', h[m].next, m); }
    } else {
      assert LinkOk(h, a) && LinkOk(h', a);
      UnlinkedIsGone(h, p, m, h[a].next);
    }
  }

  // ---- linking a fresh node after p ----

  function Linked(h: Heap, p: nat, key: int, val: int, succ: int): Heap
    requires p < |h|
  {
    h[p := h[p].(next := |h|)] + [Node(key, val, false, Free, succ)]
  }

  lemma LinkedOk(h: Heap, p: nat, key: int, val: int)
    requires HeapOk(h) && p < |h| && p != TAIL && LinkOk(h, p)
    requires UserKey(key) && h[p].key < key < h[h[p].next].key
    ensures HeapOk(Linked(h, p, key, val, h[p].next))
  {
    var h' := Linked(h, p, key, val, h[p].next);
    forall n | 0 <= n < |h'| && n != TAIL ensures LinkOk(h', n) {
      if n < |h| { assert LinkOk(h, n); }
    }
  }

  lemma {:induction false} ReachLinked(h: Heap, p: nat, key: int, val: int, a: nat, b: nat)
    requires HeapOk(h) && p < |h| && p != TAIL && LinkOk(h, p)
    requires HeapOk(Linked(h, p, key, val, h[p].next))
    requires a < |h| && b < |h|
    ensures Reach(h, a, b) == Reach(Linked(h, p, key, val, h[p].next), a, b)
    decreases INT_MAX - h[a].key
  {
    var h' := Linked(h, p, key, val, h[p].next);
    if a != TAIL {
      assert LinkOk(h, a) && LinkOk(h', a);
      ReachLinked(h, p, key, val, h[a].next, b);
      if a == p {
        assert LinkOk(h', |h|);
        assert Reach(h', |h|, b) == Reach(h', h[p].next, b);
      }
    }
  }

  lemma {:induction false} NewNodeReached(h: Heap, p: nat, key: int, val: int, a: nat)
    requires HeapOk(h) && p < |h| && p != TAIL && LinkOk(h, p)
    requires HeapOk(Linked(h, p, key, val, h[p].next))
    requires a < |h| && Reach(h, a, p)
    ensures Reach(Linked(h, p, key, val, h[p].next), a, |h|)
    decreases INT_MAX - h[a].key
  {
    var h' := Linked(h, p, key, val, h[p].next);
    assert LinkOk(h', a) || a == TAIL;
    if a == p {
      assert Reach(h', |h|, |h|);
    } else {
      assert LinkOk(h, a) && LinkOk(h', a);
      NewNodeReached(h, p, key, val, h[a].next);
    }
  }
}
