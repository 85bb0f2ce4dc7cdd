/**
  The LRU cache of the feed: a hash map over a doubly linked list whose nodes are
  spliced in place.  Every method refines the operation of the same name on the list
  of entries in recency order.
 */
module LruCaches {
  import opened Wrappers
  import opened RecencyList

  class Node<K, V> {
    const key: K
    var value: V
    var expiry: int
    var prev: Node?<K, V>
    var next: Node?<K, V>

    constructor (key: K, value: V, expiry: int)
      ensures this.key == key && this.value == value && this.expiry == expiry
      ensures prev == null && next == null
    {
      this.key, this.value, this.expiry := key, value, expiry;
      prev, next := null, null;
    }
  }

  ghost predicate Injective<T>(s: seq<T>) {
    forall i, j :: 0 <= i < j < |s| ==> s[i] != s[j]
  }

  /** The map holds exactly the nodes of `s`, each under its own key. */
  ghost predicate Indexed<K, V>(m: map<K, Node<K, V>>, s: seq<Node<K, V>>) {
    && (forall n :: n in s ==> n.key in m && m[n.key] == n)
    && (forall k :: k in m ==> m[k] in s && m[k].key == k)
  }

  lemma SpliceMembers<T>(s: seq<T>, i: nat)
    requires i < |s| && Injective(s)
    ensures forall n :: n in s[..i] + s[i + 1..] <==> n in s && n != s[i]
    ensures Injective(s[..i] + s[i + 1..])
  {
    assert s == s[..i] + [s[i]] + s[i + 1..];
  }

  /** The neighbours of the `j`-th node once the `i`-th is taken out. */
  ghost function PrevWithout<K, V>(s: seq<Node<K, V>>, i: nat, j: nat): Node?<K, V>
    requires i < |s| && j < |s| && j != i
  {
    if j == 0 || (j == 1 && i == 0) then null else if j == i + 1 then s[i - 1] else s[j - 1]
  }

  ghost function NextWithout<K, V>(s: seq<Node<K, V>>, i: nat, j: nat): Node?<K, V>
    requires i < |s| && j < |s| && j != i
  {
    if j == |s| - 1 || (j == |s| - 2 && i == |s| - 1) then null else if j == i - 1 then s[i + 1] else s[j + 1]
  }

  lemma NeighboursWithout<K, V>(s: seq<Node<K, V>>, i: nat, k: nat)
    requires i < |s| && k < |s| - 1
    ensures var t, j := s[..i] + s[i + 1..], if k < i then k else k + 1;
            && t[k] == s[j]
            && PrevWithout(s, i, j) == (if k == 0 then null else t[k - 1])
            && NextWithout(s, i, j) == (if k == |t| - 1 then null else t[k + 1])
  {
  }

  /** Nodes that skip the `i`-th of `s` are threaded along `s` without it. */
  lemma Rethreaded<K, V>(s: seq<Node<K, V>>, i: nat)
    requires i < |s|
    requires forall j {:trigger s[j].prev} {:trigger s[j].next} :: 0 <= j < |s| && j != i ==>
               s[j].prev == PrevWithout(s, i, j) && s[j].next == NextWithout(s, i, j)
    ensures var t := s[..i] + s[i + 1..];
            && (forall k {:trigger t[k].prev} :: 0 <= k < |t| ==> t[k].prev == if k == 0 then null else t[k - 1])
            && (forall k {:trigger t[k].next} :: 0 <= k < |t| ==> t[k].next == if k == |t| - 1 then null else t[k + 1])
  {
    var t := s[..i] + s[i + 1..];
    forall k | 0 <= k < |t|
      ensures t[k].prev == if k == 0 then null else t[k - 1]
      ensures t[k].next == if k == |t| - 1 then null else t[k + 1]
    {
      NeighboursWithout(s, i, k);
    }
  }

  lemma IndexedRemove<K, V>(m: map<K, Node<K, V>>, s: seq<Node<K, V>>, i: nat)
    requires i < |s| && Injective(s) && Indexed(m, s)
    ensures Indexed(m - {s[i].key}, s[..i] + s[i + 1..])
  {
    SpliceMembers(s, i);
    assert s[i] in s;
  }

  lemma IndexedInsert<K, V>(m: map<K, Node<K, V>>, s: seq<Node<K, V>>, n: Node<K, V>)
    requires n.key !in m && Indexed(m, s)
    ensures n !in s && Indexed(m[n.key := n], [n] + s)
  {
  }

  lemma IndexedMove<K, V>(m: map<K, Node<K, V>>, s: seq<Node<K, V>>, i: nat)
    requires i < |s| && Injective(s) && Indexed(m, s)
    ensures Indexed(m, [s[i]] + (s[..i] + s[i + 1..]))
  {
    IndexedRemove(m, s, i);
    assert s[i] in s;
    IndexedInsert(m - {s[i].key}, s[..i] + s[i + 1..], s[i]);
    assert (m - {s[i].key})[s[i].key := s[i]] == m;
  }

  class LruCache<K(==), V> {
    const max: int
    const ttl: int
    var nodes: map<K, Node<K, V>>
    var head: Node?<K, V>
    var tail: Node?<K, V>
    /** The nodes on the list, from head to tail. */
    ghost var spine: seq<Node<K, V>>
    /** Every node the cache ever linked. */
    ghost var repr: set<Node<K, V>>
    /** What the cache holds, in recency order. */
    ghost var contents: seq<Entry<K, V>>
    /** The operations since the cache was created. */
    ghost var trace: seq<Op<K, V>>

    /** The pointers thread exactly the nodes of the spine, in both directions. */
    ghost predicate Threaded()
      reads `head, `tail, `spine, `repr, repr`prev, repr`next
    {
      && Injective(spine)
      && (forall n :: n in spine ==> n in repr)
      && (forall i {:trigger spine[i].prev} :: 0 <= i < |spine| ==>
            spine[i].prev == if i == 0 then null else spine[i - 1])
      && (forall i {:trigger spine[i].next} :: 0 <= i < |spine| ==>
            spine[i].next == if i == |spine| - 1 then null else spine[i + 1])
      && head == (if |spine| == 0 then null else spine[0])
      && tail == (if |spine| == 0 then null else spine[|spine| - 1])
    }

    /** The contents are what the nodes of the spine hold. */
    ghost predicate Mirrored()
      reads `spine, `contents, `repr, repr`value, repr`expiry
    {
      && (forall n :: n in spine ==> n in repr)
      && |contents| == |spine|
      && (forall i {:trigger contents[i]} :: 0 <= i < |spine| ==>
            contents[i] == Entry(spine[i].key, spine[i].value, spine[i].expiry))
    }

    ghost predicate Linked()
      reads `head, `tail, `spine, `contents, `repr, repr
    {
      Threaded() && Mirrored()
    }

    ghost predicate Consistent()
      reads `nodes, `head, `tail, `spine, `contents, `repr, repr
    {
      Linked() && Indexed(nodes, spine)
    }

    /** The nodes are consistent, and hold what the trace leaves in a list of capacity `max`. */
    ghost predicate Valid()
      reads this, repr
    {
      Consistent() && contents == Run(trace, ttl, Some(max))
    }

    constructor (max: int, ttl: int)
      ensures Valid() && contents == [] && trace == []
      ensures this.max == max && this.ttl == ttl && spine == [] && repr == {}
    {
      this.max, this.ttl := max, ttl;
      nodes := map[];
      head, tail := null, null;
      spine, contents, repr, trace := [], [], {}, [];
    }

    lemma ContentsDistinct()
      requires Consistent()
      ensures Distinct(contents)
    {
      forall i, j | 0 <= i < j < |spine|
        ensures spine[i].key != spine[j].key
      {
        assert spine[i] in spine && spine[j] in spine;
      }
    }

    lemma LookupContents(k: K)
      requires Consistent()
      ensures Lookup(contents, k) == if k in nodes then Some(Entry(k, nodes[k].value, nodes[k].expiry)) else None
    {
      ContentsDistinct();
      if k in nodes {
        var i :| 0 <= i < |spine| && spine[i] == nodes[k];
        LookupAt(contents, i);
      } else {
        forall i | 0 <= i < |spine|
          ensures contents[i].key != k
        {
          assert spine[i] in spine;
        }
      }
    }

    lemma SizeIsLength()
      requires Consistent()
      ensures |nodes| == |contents|
    {
      KeysOf(spine);
      assert nodes.Keys == set n | n in spine :: n.key;
    }

    static lemma {:induction false} KeysOf(s: seq<Node<K, V>>)
      requires forall i, j :: 0 <= i < j < |s| ==> s[i].key != s[j].key
      ensures |set n | n in s :: n.key| == |s|
    {
      if s != [] {
        var rest := s[..|s| - 1];
        KeysOf(rest);
        var last := s[|s| - 1];
        assert (set n | n in s :: n.key) == (set n | n in rest :: n.key) + {last.key};
        assert last.key !in set n | n in rest :: n.key;
      }
    }

    /** Following `next` from the head meets the nodes of the spine, all of them and in order. */
    ghost predicate Walk(n: Node?<K, V>, s: seq<Node<K, V>>)
      reads s
    {
      if s == [] then n == null else n == s[0] && Walk(s[0].next, s[1..])
    }

    lemma {:induction false} WalkFrom(i: nat)
      requires Linked() && i <= |spine|
      ensures Walk(if i == |spine| then null else spine[i], spine[i..])
      decreases |spine| - i
    {
      if i < |spine| {
        WalkFrom(i + 1);
        assert spine[i].next == if i == |spine| - 1 then null else spine[i + 1];
        assert spine[i..][1..] == spine[i + 1..];
      }
    }

    /** Over every trace the map stays within `max`; a negative `max` keeps it empty. */
    lemma SizeWithinMax()
      requires Valid()
      ensures |nodes| <= if max < 0 then 0 else max
    {
      SizeIsLength();
      RunBounded(trace, ttl, Some(max));
    }

    lemma TraceExtends(op: Op<K, V>)
      ensures Run(trace + [op], ttl, Some(max)) == RecencyList.Step(Run(trace, ttl, Some(max)), op, ttl, Some(max))
    {
      assert (trace + [op])[..|trace|] == trace;
    }

    method Get(key: K, now: int) returns (r: Option<V>)
      requires Valid()
      modifies this, repr
      ensures Valid() && repr == old(repr)
      ensures trace == old(trace) + [Op.Get(key, now)]
      ensures (contents, r) == AfterGet(old(contents), key, now)
    {
      TraceExtends(Op.Get(key, now));
      LookupContents(key);
      trace := trace + [Op.Get(key, now)];
      if key !in nodes {
        return None;
      }
      var node := nodes[key];
      if now > node.expiry {
        DeleteKey(key);
        return None;
      }
      MoveToHead(node);
      return Some(node.value);
    }

    method Set(key: K, value: V, now: int)
      requires Valid()
      modifies this, repr
      ensures Valid() && fresh(repr - old(repr))
      ensures trace == old(trace) + [Op.Set(key, value, now)]
      ensures contents == AfterSet(old(contents), Entry(key, value, now + ttl), Some(max))
    {
      TraceExtends(Op.Set(key, value, now));
      Put(key, value, now);
      trace := trace + [Op.Set(key, value, now)];
    }

    method Delete(key: K)
      requires Valid()
      modifies this, repr
      ensures Valid() && repr == old(repr)
      ensures trace == old(trace) + [Op.Delete(key)]
      ensures contents == AfterDelete(old(contents), key)
    {
      TraceExtends(Op.Delete(key));
      DeleteKey(key);
      trace := trace + [Op.Delete(key)];
    }

    /** `set`, apart from the trace. */
    method Put(key: K, value: V, now: int)
      requires Consistent()
      modifies this`nodes, this`head, this`tail, this`spine, this`contents, this`repr, repr
      ensures Consistent() && fresh(repr - old(repr))
      ensures contents == AfterSet(old(contents), Entry(key, value, now + ttl), Some(max))
    {
      LookupContents(key);
      if key in nodes {
        Refresh(key, value, now + ttl);
        return;
      }
      Insert(key, value, now + ttl);
      SizeIsLength();
      assert contents == ToFront(old(contents), Entry(key, value, now + ttl));
      if |nodes| > max {
        EvictLru();
      }
    }

    /** The branch of `Put` for a key that is present. */
    method Refresh(key: K, value: V, expiry: int)
      requires Consistent() && key in nodes
      modifies this`nodes, this`head, this`tail, this`spine, this`contents, this`repr, repr
      ensures Consistent() && repr == old(repr)
      ensures contents == ToFront(old(contents), Entry(key, value, expiry))
    {
      var node := nodes[key];
      ghost var i :| 0 <= i < |spine| && spine[i] == node;
      ContentsDistinct();
      UpdateThenToFront(contents, i, Entry(key, value, expiry));
      assert node.key == key;
      Overwrite(node, i, value, expiry);
      MoveToHead(node);
    }

    /** The entry is overwritten where it is. */
    method Overwrite(node: Node<K, V>, ghost i: nat, value: V, expiry: int)
      requires Consistent() && i < |spine| && spine[i] == node
      modifies this`contents, node`value, node`expiry
      ensures Consistent() && node.value == value && node.expiry == expiry
      ensures contents == old(contents)[i := Entry(node.key, value, expiry)]
    {
      node.value := value;
      node.expiry := expiry;
      contents := contents[i := Entry(node.key, value, expiry)];
    }

    /** The branch of `Put` for a new key, up to the size check. */
    method Insert(key: K, value: V, expiry: int)
      requires Consistent() && key !in nodes
      modifies this`nodes, this`head, this`tail, this`spine, this`contents, this`repr, repr
      ensures Consistent() && fresh(repr - old(repr))
      ensures contents == ToFront(old(contents), Entry(key, value, expiry))
    {
      LookupContents(key);
      WithoutAbsent(contents, key);
      var node := new Node(key, value, expiry);
      IndexedInsert(nodes, spine, node);
      ghost var extended := [node] + spine;
      nodes := nodes[key := node];
      repr := repr + {node};
      AddToHead(node);
      assert spine == extended && Indexed(nodes, extended);
    }

    /** Where the node is, and what taking it out means for the map and the contents. */
    lemma Position(node: Node<K, V>) returns (i: nat)
      requires Consistent() && node in spine
      ensures i < |spine| && spine[i] == node
      ensures Without(contents, node.key) == contents[..i] + contents[i + 1..]
      ensures contents[i] == Entry(node.key, node.value, node.expiry)
      ensures Indexed(nodes - {node.key}, spine[..i] + spine[i + 1..])
      ensures Indexed(nodes, [node] + (spine[..i] + spine[i + 1..]))
    {
      i :| 0 <= i < |spine| && spine[i] == node;
      ContentsDistinct();
      WithoutAt(contents, i);
      IndexedRemove(nodes, spine, i);
      IndexedMove(nodes, spine, i);
    }

    /** `delete`, as expiry and eviction use it. */
    method DeleteKey(key: K)
      requires Consistent()
      modifies this`nodes, this`head, this`tail, this`spine, this`contents, this`repr, repr
      ensures Consistent() && repr == old(repr)
      ensures contents == AfterDelete(old(contents), key)
    {
      LookupContents(key);
      if key !in nodes {
        WithoutAbsent(contents, key);
        return;
      }
      var node := nodes[key];
      ghost var i := Position(node);
      ghost var remaining := spine[..i] + spine[i + 1..];
      RemoveNode(node, i);
      nodes := nodes - {key};
      assert spine == remaining && Indexed(nodes, remaining);
    }

    method AddToHead(node: Node<K, V>)
      requires Linked() && node !in spine && node in repr
      modifies this`head, this`tail, this`spine, this`contents, repr
      ensures Linked() && spine == [node] + old(spine)
      ensures contents == [Entry(node.key, node.value, node.expiry)] + old(contents)
      ensures node.value == old(node.value) && node.expiry == old(node.expiry)
    {
      node.next := head;
      node.prev := null;
      if head != null {
        head.prev := node;
      }
      head := node;
      if tail == null {
        tail := node;
      }
      spine, contents := [node] + spine, [Entry(node.key, node.value, node.expiry)] + contents;
    }

    method RemoveNode(node: Node<K, V>, ghost i: nat)
      requires Linked() && i < |spine| && spine[i] == node
      modifies this`head, this`tail, this`spine, this`contents, repr
      ensures Linked() && spine == old(spine)[..i] + old(spine)[i + 1..]
      ensures node !in spine
      ensures contents == old(contents)[..i] + old(contents)[i + 1..]
      ensures node.value == old(node.value) && node.expiry == old(node.expiry)
    {
      Splice(node, i);
      contents := contents[..i] + contents[i + 1..];
    }

    /** The pointer surgery of `RemoveNode`. */
    method Splice(node: Node<K, V>, ghost i: nat)
      requires Threaded() && i < |spine| && spine[i] == node
      modifies this`head, this`tail, this`spine, repr`prev, repr`next
      ensures Threaded() && spine == old(spine)[..i] + old(spine)[i + 1..] && node !in spine
    {
      ghost var s := spine;
      SpliceMembers(s, i);
      assert node.prev == (if i == 0 then null else s[i - 1]) && node.next == (if i == |s| - 1 then null else s[i + 1]);
      if node.prev != null {
        node.prev.next := node.next;
      } else {
        head := node.next;
      }
      if node.next != null {
        node.next.prev := node.prev;
      } else {
        tail := node.prev;
      }
      assert forall j {:trigger s[j].prev} {:trigger s[j].next} :: 0 <= j < |s| && j != i ==>
          s[j].prev == PrevWithout(s, i, j) && s[j].next == NextWithout(s, i, j);
      Rethreaded(s, i);
      spine := s[..i] + s[i + 1..];
    }

    method MoveToHead(node: Node<K, V>)
      requires Consistent() && node in spine
      modifies this`head, this`tail, this`spine, this`contents, repr
      ensures Consistent() && repr == old(repr)
      ensures contents == ToFront(old(contents), old(Entry(node.key, node.value, node.expiry)))
      ensures node.value == old(node.value)
    {
      ghost var i := Position(node);
      ghost var moved := [node] + (spine[..i] + spine[i + 1..]);
      RemoveNode(node, i);
      AddToHead(node);
      assert spine == moved && Indexed(nodes, moved);
    }

    method EvictLru()
      requires Consistent()
      modifies this`nodes, this`head, this`tail, this`spine, this`contents, this`repr, repr
      ensures Consistent() && repr == old(repr)
      ensures contents == if |old(contents)| == 0 then [] else old(contents)[..|old(contents)| - 1]
    {
      if tail == null {
        return;
      }
      var lru := tail;
      ghost var n := |spine| - 1;
      ContentsDistinct();
      WithoutAt(contents, n);
      assert lru in spine;
      DeleteKey(lru.key);
    }
  }
}
