/**
 The sorted bucket-list map the bank keeps its accounts in: an array of sentinel nodes, each the
 head of a linked list that is spliced, overwritten and cut in place, against a key-to-value map.
 */
module SimpleMap {
  class Node {
    const key: int
    var val: real
    var next: Node?
    /** Which list the node was made for, and whether as its sentinel. */
    ghost const bucket: nat
    ghost const sentinel: bool

    constructor (key: int, val: real, ghost bucket: nat, ghost sentinel: bool)
      ensures this.key == key && this.val == val && next == null
      ensures this.bucket == bucket && this.sentinel == sentinel
    {
      this.key, this.val, next := key, val, null;
      this.bucket, this.sentinel := bucket, sentinel;
    }
  }

  type Chain = seq<Node>

  /** Node i of the chain links to node i + 1; the last one links to nothing. */
  ghost predicate LinkAt(chain: Chain, i: nat)
    requires i < |chain|
    reads chain[i]
  {
    chain[i].next == if i + 1 < |chain| then chain[i + 1] else null
  }

  /** A sentinel followed by nodes of this bucket in strictly ascending order of their keys. */
  ghost predicate ChainShape(chain: Chain, b: nat, buckets: nat)
    requires buckets > 0
  {
    && chain != [] && chain[0].sentinel
    && (forall i :: 0 <= i < |chain| ==> chain[i].bucket == b)
    && (forall i :: 1 <= i < |chain| ==> !chain[i].sentinel && HashOf(chain[i].key, buckets) == b)
    && (forall i, j :: 1 <= i < j < |chain| ==> chain[i].key < chain[j].key)
  }

  function HashOf(key: int, buckets: nat): (h: nat)
    requires buckets > 0
    ensures h < buckets
  {
    (key % 0x1_0000_0000) % buckets
  }

  class SimpleMap {
    const buckets: nat
    const values: array<Node?>
    /** The nodes of each list, sentinel first; all of them; and the map they stand for. */
    ghost var chains: seq<Chain>
    ghost var nodes: set<Node>
    ghost var pairs: map<int, real>

    ghost predicate Valid()
      reads this, values, nodes
    {
      && buckets > 0 && values.Length == buckets == |chains|
      && (forall b :: 0 <= b < buckets ==> BucketOk(b))
      && (forall key :: key in pairs ==> Stored(key))
    }

    ghost predicate BucketOk(b: nat)
      requires buckets > 0 && values.Length == buckets == |chains| && b < buckets
      reads this, values, nodes
    {
      && ChainShape(chains[b], b, buckets) && values[b] == chains[b][0]
      && (forall i :: 0 <= i < |chains[b]| ==> chains[b][i] in nodes)
      && (forall i :: 0 <= i < |chains[b]| ==> LinkAt(chains[b], i))
      && (forall i :: 1 <= i < |chains[b]| ==> PairAt(chains[b][i]))
    }

    ghost predicate PairAt(n: Node)
      reads this, n
    {
      n.key in pairs && pairs[n.key] == n.val
    }

    ghost predicate Stored(key: int)
      requires buckets > 0 && |chains| == buckets
      reads this
    {
      exists i :: 1 <= i < |chains[HashOf(key, buckets)]| && chains[HashOf(key, buckets)][i].key == key
    }

    constructor (buckets: nat)
      requires buckets > 0
      ensures Valid() && this.buckets == buckets && pairs == map[] && fresh(values) && fresh(nodes)
    {
      this.buckets := buckets;
      values := new Node?[buckets](i => null);
      chains, nodes, pairs := [], {}, map[];
      new;
      var i := 0;
      while i < buckets
        invariant 0 <= i <= buckets && |chains| == i && pairs == map[] && fresh(nodes)
        invariant forall b :: 0 <= b < i ==> EmptyBucket(b)
        modifies this, values
      {
        AddSentinel(i);
        i := i + 1;
      }
      forall b | 0 <= b < buckets ensures BucketOk(b) {
        assert EmptyBucket(b);
      }
    }

    method AddSentinel(i: nat)
      requires i == |chains| < values.Length && forall b :: 0 <= b < i ==> EmptyBucket(b)
      modifies this`chains, this`nodes, values
      ensures |chains| == i + 1 && (forall b :: 0 <= b <= i ==> EmptyBucket(b)) && fresh(nodes - old(nodes))
    {
      var node := new Node(0, 0.0, i, true);
      ghost var before := chains;
      forall b | 0 <= b < i ensures before[b] == chains[b] && EmptyBucket(b) {
        assert old(EmptyBucket(b));
      }
      values[i] := node;
      chains, nodes := chains + [[node]], nodes + {node};
      forall b | 0 <= b < i ensures EmptyBucket(b) {
        assert old(EmptyBucket(b));
      }
    }

    ghost predicate EmptyBucket(b: nat)
      requires b < |chains| && b < values.Length
      reads this, values, nodes
    {
      && |chains[b]| == 1 && chains[b][0].sentinel && chains[b][0].bucket == b && values[b] == chains[b][0]
      && chains[b][0] in nodes && chains[b][0].next == null
    }

    /** Where a key belongs: node i has a smaller key or is the sentinel, node i + 1 has not. */
    ghost predicate Between(key: int, i: nat)
      requires buckets > 0 && |chains| == buckets
      reads this
    {
      var chain := chains[HashOf(key, buckets)];
      && i < |chain|
      && (forall j :: 1 <= j <= i ==> chain[j].key < key)
      && (forall j :: i < j < |chain| ==> key <= chain[j].key)
    }

    /** The search loop every operation runs. */
    method Seek(key: int) returns (prv: Node, curr: Node?, ghost i: nat)
      requires Valid()
      ensures Between(key, i)
      ensures prv == chains[HashOf(key, buckets)][i] && curr == prv.next
      ensures curr != null ==> i + 1 < |chains[HashOf(key, buckets)]| && curr == chains[HashOf(key, buckets)][i + 1]
      ensures curr == null ==> i + 1 == |chains[HashOf(key, buckets)]|
      ensures key in pairs <==> curr != null && curr.key == key
    {
      ghost var b := HashOf(key, buckets);
      ghost var chain := chains[b];
      assert BucketOk(b) && LinkAt(chain, 0);
      prv := values[HashOf(key, buckets)];
      curr := prv.next;
      i := 0;
      while curr != null && curr.key < key
        invariant i < |chain| && prv == chain[i] && curr == prv.next && LinkAt(chain, i)
        invariant forall j :: 1 <= j <= i ==> chain[j].key < key
        decreases |chain| - i
      {
        prv := curr;
        curr := curr.next;
        i := i + 1;
        assert LinkAt(chain, i);
      }
      if key in pairs {
        assert Stored(key);
      } else if curr != null {
        assert PairAt(chain[i + 1]);
      }
    }

    method Lookup(key: int) returns (val: real, found: bool)
      requires Valid()
      ensures found <==> key in pairs
      ensures val == if key in pairs then pairs[key] else 0.0
    {
      var prv, curr, i := Seek(key);
      if curr != null && curr.key == key {
        assert BucketOk(HashOf(key, buckets)) && PairAt(chains[HashOf(key, buckets)][i + 1]);
        return curr.val, true;
      }
      return 0.0, false;
    }

    method Update(key: int, val: real) returns (updated: bool)
      requires Valid()
      modifies this`pairs, nodes
      ensures Valid()
      ensures updated <==> key in old(pairs)
      ensures pairs == if updated then old(pairs)[key := val] else old(pairs)
    {
      var prv, curr, i := Seek(key);
      updated := curr != null && curr.key == key;
      if updated {
        ghost var b := HashOf(key, buckets);
        assert BucketOk(b);
        curr.val := val;
        pairs := pairs[key := val];
        forall c | 0 <= c < buckets ensures BucketOk(c) {
          assert old(BucketOk(c));
          KeptLinks(c);
          forall j | 1 <= j < |chains[c]| ensures PairAt(chains[c][j]) {
            assert old(PairAt(chains[c][j]));
          }
        }
      }
    }

    twostate lemma KeptLinks(c: nat)
      requires old(buckets > 0 && values.Length == buckets == |chains| && c < buckets && BucketOk(c))
      requires chains == old(chains)
      requires forall j :: 0 <= j < |chains[c]| ==> chains[c][j].next == old(chains[c][j].next)
      ensures forall j :: 0 <= j < |chains[c]| ==> LinkAt(chains[c], j)
    {
      forall j | 0 <= j < |chains[c]| ensures LinkAt(chains[c], j) {
        assert old(LinkAt(chains[c], j));
      }
    }

    method Remove(key: int) returns (removed: bool)
      requires Valid()
      modifies this, nodes
      ensures Valid() && nodes <= old(nodes)
      ensures removed <==> key in old(pairs)
      ensures pairs == old(pairs) - {key}
    {
      var prv, curr, i := Seek(key);
      removed := curr != null && curr.key == key;
      if removed {
        assert BucketOk(HashOf(key, buckets));
        Cut(prv, curr, i);
      }
    }

    /** Links past a node. */
    method Cut(prv: Node, curr: Node, ghost i: nat)
      requires Valid() && curr in nodes && curr.bucket == HashOf(curr.key, buckets)
      requires i + 1 < |chains[curr.bucket]| && chains[curr.bucket][i] == prv && chains[curr.bucket][i + 1] == curr
      modifies this, nodes
      ensures Valid() && nodes == old(nodes) - {curr}
      ensures pairs == old(pairs) - {curr.key}
    {
      ghost var b := curr.bucket;
      ghost var chain := chains[b];
      assert BucketOk(b) && LinkAt(chain, i);
      Distinct(chain, i, i + 1, b, buckets);
      prv.next := curr.next;
      chains := chains[b := chain[..i + 1] + chain[i + 2..]];
      nodes := nodes - {curr};
      pairs := pairs - {curr.key};
      CutShape(chain, i, b, buckets);
      WasCut(b, i);
    }

    /** The new state after node i + 1 of chain b went out. */
    twostate predicate CutOut(b: nat, i: nat)
      reads this, values, nodes
    {
      && old(Valid()) && b < buckets && i + 1 < old(|chains[b]|) && |chains| == buckets
      && var n := old(chains[b][i + 1]);
      && n.bucket == b == HashOf(n.key, buckets)
      && nodes == old(nodes) - {n} && pairs == old(pairs) - {n.key} && values[..] == old(values[..])
      && chains == old(chains)[b := old(chains[b])[..i + 1] + old(chains[b])[i + 2..]]
      && old(chains[b][i]) in nodes && old(chains[b][i]).next == old(n.next)
      && forall m :: m in nodes ==> m.val == old(m.val) && (m != old(chains[b][i]) ==> m.next == old(m.next))
    }

    twostate lemma WasCut(b: nat, new i: nat)
      requires CutOut(b, i) && ChainShape(chains[b], b, buckets)
      ensures Valid()
    {
      assert old(BucketOk(b));
      assert forall c :: 0 <= c < buckets ==> values[..][c] == old(values[..])[c];
      forall c | 0 <= c < buckets ensures BucketOk(c) {
        if c != b { CutElsewhere(b, i, c); } else { CutBucket(b, i); }
      }
      CutKeys(b, i);
    }

    twostate lemma CutBucket(b: nat, new i: nat)
      requires CutOut(b, i) && ChainShape(chains[b], b, buckets) && values[b] == old(values[b])
      ensures BucketOk(b)
    {
      var chain, chain' := old(chains[b]), chains[b];
      assert old(BucketOk(b)) && old(LinkAt(chain, i + 1));
      forall j | 0 <= j < |chain'| ensures chain'[j] in nodes && LinkAt(chain', j) && (j >= 1 ==> PairAt(chain'[j])) {
        var k := if j <= i then j else j + 1;
        assert chain'[j] == chain[k] && old(LinkAt(chain, k)) && chain[k] in old(nodes);
        Distinct(chain, k, i + 1, b, buckets);
        if j >= 1 { assert old(PairAt(chain[k])); }
        if k != i { Distinct(chain, k, i, b, buckets); }
      }
    }

    twostate lemma CutElsewhere(b: nat, new i: nat, new c: nat)
      requires CutOut(b, i) && c < buckets && c != b && values[c] == old(values[c])
      ensures BucketOk(c)
    {
      assert old(BucketOk(b)) && old(BucketOk(c));
      forall j | 0 <= j < |chains[c]| ensures LinkAt(chains[c], j) { assert old(LinkAt(chains[c], j)); }
      forall j | 1 <= j < |chains[c]| ensures PairAt(chains[c][j]) { assert old(PairAt(chains[c][j])); }
    }

    twostate lemma CutKeys(b: nat, new i: nat)
      requires CutOut(b, i)
      ensures forall key :: key in pairs ==> Stored(key)
    {
      forall key | key in pairs ensures Stored(key) {
        assert old(Stored(key));
        var h := HashOf(key, buckets);
        var j :| 1 <= j < |old(chains)[h]| && old(chains)[h][j].key == key;
        var l := if h == b && j > i then j - 1 else j;
        assert chains[h][l].key == key;
      }
    }

    method Insert(key: int, val: real) returns (inserted: bool)
      requires Valid()
      modifies this, nodes
      ensures Valid() && fresh(nodes - old(nodes))
      ensures inserted <==> key !in old(pairs)
      ensures pairs == if inserted then old(pairs)[key := val] else old(pairs)
    {
      var prv, curr, i := Seek(key);
      inserted := curr == null || curr.key != key;
      if inserted {
        ghost var b := HashOf(key, buckets);
        assert BucketOk(b);
        var insertion := new Node(key, val, b, false);
        Splice(prv, curr, insertion, i);
      }
    }

    /** Links a node in between two neighbours. */
    method Splice(prv: Node, curr: Node?, insertion: Node, ghost i: nat)
      requires Valid() && insertion !in nodes && insertion.key !in pairs
      requires !insertion.sentinel && insertion.bucket == HashOf(insertion.key, buckets)
      requires Between(insertion.key, i) && prv == chains[insertion.bucket][i] && curr == prv.next
      modifies this, nodes, insertion
      ensures Valid() && nodes == old(nodes) + {insertion} && insertion.val == old(insertion.val)
      ensures pairs == old(pairs)[insertion.key := insertion.val]
    {
      ghost var b, key := insertion.bucket, insertion.key;
      ghost var chain := chains[b];
      assert BucketOk(b) && LinkAt(chain, i);
      insertion.next := curr;
      prv.next := insertion;
      chains := chains[b := chain[..i + 1] + [insertion] + chain[i + 1..]];
      nodes := nodes + {insertion};
      pairs := pairs[key := insertion.val];
      SplicedChain(chain, i, insertion, buckets);
      Spliced(b, i);
    }

    /** The new state after a node came in as node i + 1 of chain b. */
    twostate predicate SplicedIn(b: nat, i: nat)
      reads this, values, nodes
    {
      && old(Valid()) && b < buckets && i < old(|chains[b]|) && |chains| == buckets && i + 1 < |chains[b]|
      && var n := chains[b][i + 1];
      && n !in old(nodes) && n.key !in old(pairs) && n.bucket == b == HashOf(n.key, buckets)
      && nodes == old(nodes) + {n} && pairs == old(pairs)[n.key := n.val] && values[..] == old(values[..])
      && chains == old(chains)[b := old(chains[b])[..i + 1] + [n] + old(chains[b])[i + 1..]]
      && old(chains[b][i]) in nodes && n.next == old(chains[b][i].next) && old(chains[b][i]).next == n
      && forall m :: m in old(nodes) ==> m.val == old(m.val) && (m != old(chains[b][i]) ==> m.next == old(m.next))
    }

    twostate lemma Spliced(b: nat, new i: nat)
      requires SplicedIn(b, i) && ChainShape(chains[b], b, buckets)
      ensures Valid()
    {
      assert old(BucketOk(b));
      assert forall c :: 0 <= c < buckets ==> values[..][c] == old(values[..])[c];
      forall c | 0 <= c < buckets ensures BucketOk(c) {
        if c != b { SplicedElsewhere(b, i, c); } else { SplicedBucket(b, i); }
      }
      SplicedKeys(b, i);
    }

    twostate lemma SplicedBucket(b: nat, new i: nat)
      requires SplicedIn(b, i) && ChainShape(chains[b], b, buckets) && values[b] == old(values[b])
      ensures BucketOk(b)
    {
      var chain, chain' := old(chains[b]), chains[b];
      assert old(BucketOk(b));
      forall j | 0 <= j < |chain'| ensures chain'[j] in nodes && LinkAt(chain', j) && (j >= 1 ==> PairAt(chain'[j])) {
        if j != i + 1 {
          var k := if j <= i then j else j - 1;
          assert chain'[j] == chain[k] && old(LinkAt(chain, k)) && chain[k] in old(nodes);
          if j >= 1 { assert old(PairAt(chain[k])); }
          if k != i { Distinct(chain, k, i, b, buckets); }
        } else {
          assert old(LinkAt(chain, i));
        }
      }
    }

    twostate lemma SplicedElsewhere(b: nat, new i: nat, new c: nat)
      requires SplicedIn(b, i) && c < buckets && c != b && values[c] == old(values[c])
      ensures BucketOk(c)
    {
      assert old(BucketOk(b)) && old(BucketOk(c));
      forall j | 0 <= j < |chains[c]| ensures LinkAt(chains[c], j) { assert old(LinkAt(chains[c], j)); }
      forall j | 1 <= j < |chains[c]| ensures PairAt(chains[c][j]) { assert old(PairAt(chains[c][j])); }
    }

    twostate lemma SplicedKeys(b: nat, new i: nat)
      requires SplicedIn(b, i)
      ensures forall key :: key in pairs ==> Stored(key)
    {
      var chain' := chains[b];
      var n := chain'[i + 1];
      forall key | key in pairs ensures Stored(key) {
        if key != n.key {
          assert old(Stored(key));
          var h := HashOf(key, buckets);
          var j :| 1 <= j < |old(chains)[h]| && old(chains)[h][j].key == key;
          var l := if h == b && j > i then j + 1 else j;
          assert chains[h][l].key == key;
        }
      }
    }
  }

  lemma Distinct(chain: Chain, i: nat, j: nat, b: nat, buckets: nat)
    requires buckets > 0 && ChainShape(chain, b, buckets) && i < |chain| && j < |chain| && i != j
    ensures chain[i] != chain[j]
  {
  }

  lemma CutShape(chain: Chain, i: nat, b: nat, buckets: nat)
    requires buckets > 0 && ChainShape(chain, b, buckets) && i + 1 < |chain|
    ensures ChainShape(chain[..i + 1] + chain[i + 2..], b, buckets)
  {
    var chain' := chain[..i + 1] + chain[i + 2..];
    forall j | 0 <= j < |chain'| ensures chain'[j] == chain[if j <= i then j else j + 1] {}
  }

  lemma SplicedChain(chain: Chain, i: nat, n: Node, buckets: nat)
    requires buckets > 0 && ChainShape(chain, n.bucket, buckets) && i < |chain|
    requires !n.sentinel && HashOf(n.key, buckets) == n.bucket
    requires forall j :: 1 <= j <= i ==> chain[j].key < n.key
    requires forall j :: i < j < |chain| ==> n.key < chain[j].key
    ensures ChainShape(chain[..i + 1] + [n] + chain[i + 1..], n.bucket, buckets)
  {
    var chain' := chain[..i + 1] + [n] + chain[i + 1..];
    forall j | 0 <= j < |chain'|
      ensures chain'[j] == if j <= i then chain[j] else if j == i + 1 then n else chain[j - 1] {}
  }
}
