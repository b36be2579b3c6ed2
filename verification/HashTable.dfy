/**
The hash table of `hash.c`: an array of buckets, each the head of a doubly linked chain
of nodes that are relinked in place. It refines a finite map.
*/
module HashTable {
  import opened Process

  class Node<K, V> {
    const key: K
    var value: V
    var prev: Node?<K, V>
    var next: Node?<K, V>

    constructor (key: K, value: V)
      ensures this.key == key && this.value == value && prev == null && next == null
    {
      this.key, this.value := key, value;
      prev, next := null, null;
    }
  }

  /** `c` is doubly linked from `head`: prev and next are mutually inverse, the ends are null. */
  ghost predicate Linked<K, V>(head: Node?<K, V>, c: seq<Node<K, V>>)
    reads c`prev, c`next
  {
    head == (if c == [] then null else c[0]) &&
    (forall i {:trigger c[i].prev} :: 0 <= i < |c| ==> c[i].prev == if i == 0 then null else c[i - 1]) &&
    (forall i {:trigger c[i].next} :: 0 <= i < |c| ==> c[i].next == if i == |c| - 1 then null else c[i + 1])
  }

  /** Where every key is: in the bucket its hash names, at a known place of that chain; and
      the chains hold the nodes, each once, and nothing else. */
  ghost predicate Indexed<K(!new), V>(buckets: nat, hash: (nat, K) -> nat, chains: seq<seq<Node<K, V>>>,
                                      pos: map<K, nat>, nodes: set<Node<K, V>>) {
    |chains| == buckets &&
    (forall k :: k in pos ==> Placed(buckets, hash, chains, pos, k)) &&
    (forall n :: n in nodes ==> n.key in pos && chains[hash(buckets, n.key)][pos[n.key]] == n) &&
    (forall b, i {:trigger chains[b][i]} :: 0 <= b < buckets && 0 <= i < |chains[b]| ==>
       chains[b][i] in nodes && pos[chains[b][i].key] == i && hash(buckets, chains[b][i].key) == b)
  }

  ghost predicate Placed<K(!new), V>(buckets: nat, hash: (nat, K) -> nat, chains: seq<seq<Node<K, V>>>,
                                     pos: map<K, nat>, k: K)
    requires k in pos && |chains| == buckets
  {
    var b := hash(buckets, k);
    b < buckets && pos[k] < |chains[b]| && chains[b][pos[k]].key == k
  }

  lemma IndexedAdd<K(!new), V>(buckets: nat, hash: (nat, K) -> nat, chains: seq<seq<Node<K, V>>>,
                               pos: map<K, nat>, nodes: set<Node<K, V>>, n: Node<K, V>)
      returns (chains': seq<seq<Node<K, V>>>, pos': map<K, nat>)
    requires Indexed(buckets, hash, chains, pos, nodes) && n.key !in pos && hash(buckets, n.key) < buckets
    ensures var b := hash(buckets, n.key); chains' == chains[b := [n] + chains[b]]
    ensures Indexed(buckets, hash, chains', pos', nodes + {n})
    ensures pos'.Keys == pos.Keys + {n.key}
  {
    var b := hash(buckets, n.key);
    pos' := map k | k in pos.Keys + {n.key} ::
      if k == n.key then 0 else if hash(buckets, k) == b then pos[k] + 1 else pos[k];
    var c := [n] + chains[b];
    chains' := chains[b := c];
    assert forall i :: 0 < i < |c| ==> c[i] == chains[b][i - 1];
    forall k | k in pos' ensures Placed(buckets, hash, chains', pos', k) {
      assert k != n.key ==> Placed(buckets, hash, chains, pos, k);
    }
  }

  lemma IndexedRemove<K(!new), V>(buckets: nat, hash: (nat, K) -> nat, chains: seq<seq<Node<K, V>>>,
                                  pos: map<K, nat>, nodes: set<Node<K, V>>, n: Node<K, V>)
      returns (chains': seq<seq<Node<K, V>>>, pos': map<K, nat>)
    requires Indexed(buckets, hash, chains, pos, nodes) && n in nodes
    ensures var b := hash(buckets, n.key); var c := chains[b]; var k := pos[n.key];
            chains' == chains[b := c[..k] + c[k + 1..]]
    ensures Indexed(buckets, hash, chains', pos', nodes - {n})
    ensures pos'.Keys == pos.Keys - {n.key}
  {
    var b, k := hash(buckets, n.key), pos[n.key];
    var c := chains[b];
    var d := c[..k] + c[k + 1..];
    chains' := chains[b := d];
    pos' := map x | x in pos.Keys - {n.key} ::
      if hash(buckets, x) == b && pos[x] > k then pos[x] - 1 else pos[x];
    assert forall x :: x in pos' ==> Placed(buckets, hash, chains', pos', x) && x in pos &&
                                     chains'[hash(buckets, x)][pos'[x]] == chains[hash(buckets, x)][pos[x]] by {
      forall x | x in pos'
        ensures Placed(buckets, hash, chains', pos', x) && x in pos
        ensures chains'[hash(buckets, x)][pos'[x]] == chains[hash(buckets, x)][pos[x]]
      {
        assert Placed(buckets, hash, chains, pos, x);
        if hash(buckets, x) == b { assert d[pos'[x]] == c[pos[x]]; }
      }
    }
    forall i | 0 <= i < |d| ensures d[i] in nodes - {n} && pos'[d[i].key] == i && hash(buckets, d[i].key) == b {
      var j := if i < k then i else i + 1;
      assert d[i] == chains[b][j];
    }
  }

  /** Put the unlinked node `n` in front of the chain at `head`. */
  method LinkFront<K, V>(head: Node?<K, V>, n: Node<K, V>, ghost c: seq<Node<K, V>>)
    requires Linked(head, c) && n !in c && n.prev == null && n.next == null
    requires forall i, j :: 0 <= i < j < |c| ==> c[i] != c[j]
    modifies n`next, (if head == null then {} else {head})`prev
    ensures Linked(n, [n] + c)
  {
    if head != null {
      n.next := head;
      head.prev := n;
    }
    ghost var d := [n] + c;
    forall i | 0 < i < |d|
      ensures d[i].prev == d[i - 1] && d[i].next == if i == |d| - 1 then null else d[i + 1]
    {
      assert d[i] == c[i - 1];
      assert old(c[i - 1].prev) == if i == 1 then null else c[i - 2];
      assert old(c[i - 1].next) == if i - 1 == |c| - 1 then null else c[i];
    }
  }

  /** The nodes around `p`, whose links change when it is cut out. */
  ghost function Around<K, V>(p: Node?<K, V>): set<Node<K, V>> {
    if p == null then {} else {p}
  }

  /** Cut node number `k` out of the chain at `head`; the result is the new head. */
  method CutOut<K, V>(head: Node?<K, V>, p: Node<K, V>, ghost c: seq<Node<K, V>>, ghost k: nat)
      returns (head': Node?<K, V>)
    requires Linked(head, c) && k < |c| && p == c[k]
    requires forall i, j :: 0 <= i < j < |c| ==> c[i] != c[j]
    modifies Around(p.prev)`next, Around(p.next)`prev
    ensures Linked(head', c[..k] + c[k + 1..])
  {
    assert c[k].prev == (if k == 0 then null else c[k - 1]) && c[k].next == if k == |c| - 1 then null else c[k + 1];
    head' := head;
    if p.prev != null {
      p.prev.next := p.next;
    } else {
      head' := p.next;
    }
    if p.next != null {
      p.next.prev := p.prev;
    }
    ghost var d := c[..k] + c[k + 1..];
    forall i | 0 <= i < |d|
      ensures d[i].prev == if i == 0 then null else d[i - 1]
      ensures d[i].next == if i == |d| - 1 then null else d[i + 1]
    {
      var j := if i < k then i else i + 1;
      assert d[i] == c[j];
      assert old(c[j].prev) == if j == 0 then null else c[j - 1];
      assert old(c[j].next) == if j == |c| - 1 then null else c[j + 1];
    }
  }

  class Hash<K(!new, ==), V> {
    const buckets: nat
    const hashFunc: (nat, K) -> nat
    const heads: array<Node?<K, V>>
    ghost var chains: seq<seq<Node<K, V>>>
    ghost var pos: map<K, nat>
    ghost var nodes: set<Node<K, V>>

    /** The abstract value: the finite map the table stands for. */
    ghost var content: map<K, V>

    /** The objects that make up the table. */
    ghost var Repr: set<object>

    ghost predicate Valid()
      reads this, Repr
      ensures Valid() ==> this in Repr
    {
      this in Repr && heads in Repr && nodes <= Repr &&
      heads.Length == buckets && Indexed(buckets, hashFunc, chains, pos, nodes) &&
      (forall b :: 0 <= b < buckets ==> Linked(heads[b], chains[b])) &&
      content.Keys == pos.Keys && forall n :: n in nodes ==> n.value == content[n.key]
    }

    /** The node that holds `key`. */
    ghost function NodeOf(key: K): Node<K, V>
      requires Indexed(buckets, hashFunc, chains, pos, nodes) && key in pos
      reads this
    {
      chains[hashFunc(buckets, key)][pos[key]]
    }

    constructor (buckets: nat, hashFunc: (nat, K) -> nat)
      ensures Valid() && content == map[] && this.buckets == buckets && this.hashFunc == hashFunc
      ensures fresh(Repr)
    {
      this.buckets := buckets;
      this.hashFunc := hashFunc;
      heads := new Node?<K, V>[buckets](_ => null);
      chains := seq(buckets, _ => []);
      nodes, pos, content := {}, map[], map[];
      Repr := {this, heads};
    }

    /** `hash_get_bucket`: a hash function that leaves the table is a trap. */
    method GetBucket(key: K) returns (st: Status, b: nat)
      ensures st == if hashFunc(buckets, key) < buckets then Running else Bug
      ensures b == hashFunc(buckets, key)
    {
      b := hashFunc(buckets, key);
      st := if b >= buckets then Bug else Running;
    }

    /** `hash_get_node_by_key`: walk the chain of the key's bucket. */
    method GetNodeByKey(key: K) returns (st: Status, p: Node?<K, V>)
      requires Valid()
      ensures st == if hashFunc(buckets, key) < buckets then Running else Bug
      ensures st.Running? ==> p == if key in content then NodeOf(key) else null
    {
      p := null;
      var bst, b := GetBucket(key);
      if bst.IsFailure() { return bst, null; }
      p := heads[b];
      ghost var i, c := 0, chains[b];
      while p != null && p.key != key
        invariant 0 <= i <= |c|
        invariant p == if i == |c| then null else c[i]
        invariant forall j :: 0 <= j < i ==> c[j].key != key
        decreases |c| - i
      {
        assert c[i].next == if i == |c| - 1 then null else c[i + 1];
        p := p.next;
        i := i + 1;
      }
      assert p != null ==> p == chains[b][i];
      st := Running;
    }

    /** `hash_lookup_entry`: the node whose value can be read and written in place, or null. */
    method Lookup(key: K) returns (st: Status, p: Node?<K, V>)
      requires Valid()
      ensures st == if hashFunc(buckets, key) < buckets then Running else Bug
      ensures st.Running? ==> (p != null <==> key in content)
      ensures st.Running? && p != null ==> p in nodes && p in Repr && p.key == key && p.value == content[key]
    {
      st, p := GetNodeByKey(key);
      if st.Running? && p != null { assert chains[hashFunc(buckets, key)][pos[key]] == p; }
    }

    /** A write through the pointer that a lookup returned. */
    method SetValue(p: Node<K, V>, v: V)
      requires Valid() && p in nodes
      modifies p`value, `content
      ensures Valid() && content == old(content)[p.key := v]
    {
      p.value := v;
      content := content[p.key := v];
    }

    /** `hash_add_entry`: a new node in front of its bucket's chain; a present key is a trap. */
    method Add(key: K, value: V) returns (st: Status)
      requires Valid()
      modifies Repr
      ensures Valid() && fresh(Repr - old(Repr))
      ensures st == if hashFunc(buckets, key) >= buckets || key in old(content) then Bug else Running
      ensures content == if st.Running? then old(content)[key := value] else old(content)
    {
      var st0, found := Lookup(key);
      if st0.IsFailure() { return st0; }
      if found != null { return Bug; }
      var st1, b := GetBucket(key);
      if st1.IsFailure() { return st1; }
      var n := new Node(key, value);
      Insert(b, n);
      return Running;
    }

    method Insert(b: nat, n: Node<K, V>)
      requires Valid() && b == hashFunc(buckets, n.key) < buckets && n.key !in content
      requires n !in nodes && n.prev == null && n.next == null
      modifies `chains, `pos, `nodes, `content, `Repr, heads, n`next, nodes`prev
      ensures Valid() && content == old(content)[n.key := n.value] && Repr == old(Repr) + {n}
    {
      hide Linked;
      LinkIn(b, n);
      ghost var content' := content[n.key := n.value];
      assert forall x :: x in nodes + {n} ==> x.value == content'[x.key];
      ghost var chains', pos' := IndexedAdd(buckets, hashFunc, chains, pos, nodes, n);
      Describe(chains', pos', nodes + {n}, content');
    }

    /** Bring the ghost fields in line with a table that is already linked as they say. */
    ghost method Describe(
        chains': seq<seq<Node<K, V>>>, pos': map<K, nat>, nodes': set<Node<K, V>>, content': map<K, V>)
      requires this in Repr && heads in Repr && heads.Length == buckets
      requires Indexed(buckets, hashFunc, chains', pos', nodes')
      requires forall d :: 0 <= d < buckets ==> Linked(heads[d], chains'[d])
      requires content'.Keys == pos'.Keys && forall n :: n in nodes' ==> n.value == content'[n.key]
      modifies `chains, `pos, `nodes, `content, `Repr
      ensures Valid() && nodes == nodes' && content == content' && Repr == old(Repr) + nodes'
    {
      hide Indexed, Linked;
      chains, pos, nodes, content, Repr := chains', pos', nodes', content', Repr + nodes';
    }

    /** The pointer updates of an insertion. */
    method LinkIn(b: nat, n: Node<K, V>)
      requires Valid() && b < buckets && n !in nodes && n.prev == null && n.next == null
      modifies heads, n`next, nodes`prev
      ensures forall d :: 0 <= d < buckets ==> Linked(heads[d], if d == b then [n] + chains[b] else chains[d])
    {
      ghost var h := heads[b];
      assert h != null ==> h == chains[b][0] && h in nodes;
      LinkFront(heads[b], n, chains[b]);
      forall d | 0 <= d < buckets && d != b ensures Linked(heads[d], chains[d]) {
        assert h !in chains[d] && n !in chains[d];
      }
      heads[b] := n;
    }

    /** `hash_free_entry`: the node of the key leaves its chain; a missing key is a trap. */
    method Free(key: K) returns (st: Status)
      requires Valid()
      modifies Repr
      ensures Valid() && Repr == old(Repr)
      ensures st == if key in old(content) then Running else Bug
      ensures content == old(content) - {key}
    {
      var st0, p := Lookup(key);
      if st0.IsFailure() || p == null { return Bug; }
      Remove(p);
      return Running;
    }

    method Remove(p: Node<K, V>)
      requires Valid() && p in nodes
      modifies `chains, `pos, `nodes, `content, `Repr, heads, nodes`prev, nodes`next
      ensures Valid() && content == old(content) - {p.key} && Repr == old(Repr)
    {
      hide Linked;
      UnlinkOut(p);
      ghost var content' := content - {p.key};
      assert forall x :: x in nodes - {p} ==> x.value == content'[x.key];
      ghost var chains', pos' := IndexedRemove(buckets, hashFunc, chains, pos, nodes, p);
      Describe(chains', pos', nodes - {p}, content');
    }

    /** The pointer updates of a removal. */
    method UnlinkOut(p: Node<K, V>)
      requires Valid() && p in nodes
      modifies heads, nodes`prev, nodes`next
      ensures var b := hashFunc(buckets, p.key); var c := chains[b]; var k := pos[p.key];
              forall d :: 0 <= d < buckets ==> Linked(heads[d], if d == b then c[..k] + c[k + 1..] else chains[d])
    {
      var b := hashFunc(buckets, p.key);
      ghost var k := pos[p.key];
      Neighbours(p);
      hide Linked;
      ghost var around := Around(p.prev) + Around(p.next);
      var head := CutOut(heads[b], p, chains[b], k);
      forall d | 0 <= d < buckets && d != b ensures Linked(heads[d], chains[d]) {
        assert forall x :: x in around ==> x !in chains[d];
      }
      heads[b] := head;
    }

    /** The neighbours of a node are nodes of its own bucket. */
    lemma Neighbours(p: Node<K, V>)
      requires Valid() && p in nodes
      ensures var around := Around(p.prev) + Around(p.next);
              around <= nodes &&
              forall x, d :: x in around && 0 <= d < buckets && d != hashFunc(buckets, p.key) ==> x !in chains[d]
    {
      var b, k := hashFunc(buckets, p.key), pos[p.key];
      assert chains[b][k].prev == if k == 0 then null else chains[b][k - 1];
      assert chains[b][k].next == if k == |chains[b]| - 1 then null else chains[b][k + 1];
    }
  }
}
