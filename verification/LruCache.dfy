/** The LRU cache as it is built: a doubly linked list threaded through heap nodes and a
    map from keys to nodes, proved to implement the recency list of Recency.dfy. */
module LruCache {
  import opened Wrappers
  import opened Recency

  class Node<K, V> {
    var next: Node?<K, V>
    var prev: Node?<K, V>
    var val: V
    var key: K

    constructor (k: K, v: V)
      ensures key == k && val == v && next == null && prev == null
    {
      next, prev, val, key := null, null, v, k;
    }
  }

  /** s without its i-th element. */
  ghost function Without<T>(s: seq<T>, i: nat): seq<T>
    requires i < |s|
  {
    s[..i] + s[i + 1..]
  }

  /** The chain's nodes hold the entries. */
  ghost predicate Stores<K, V>(ns: seq<Node<K, V>>, cs: seq<Entry<K, V>>)
    reads ns
  {
    |ns| == |cs| && forall i :: 0 <= i < |ns| ==> ns[i].key == cs[i].key && ns[i].val == cs[i].val
  }

  /** The map leads to exactly the nodes of the chain, each under its own key. */
  ghost predicate Indexed<K, V>(index: map<K, Node<K, V>>, ns: seq<Node<K, V>>, cs: seq<Entry<K, V>>) {
    && |ns| == |cs|
    && index.Keys == Keys(cs)
    && (forall i :: 0 <= i < |cs| ==> cs[i].key in index && index[cs[i].key] == ns[i])
  }

  lemma IndexedFront<K, V>(index: map<K, Node<K, V>>, ns: seq<Node<K, V>>, cs: seq<Entry<K, V>>, i: nat)
    requires Indexed(index, ns, cs) && Distinct(cs) && i < |ns|
    ensures Indexed(index, [ns[i]] + Without(ns, i), [cs[i]] + Without(cs, i))
  {
    hide Find, Touch, Remove, Keys;
    RemoveAt(cs, i);
    TouchKeys(cs, cs[i].key);
  }

  lemma IndexedWithout<K, V>(index: map<K, Node<K, V>>, ns: seq<Node<K, V>>, cs: seq<Entry<K, V>>, i: nat)
    requires Indexed(index, ns, cs) && Distinct(cs) && i < |ns|
    ensures Indexed(index - {cs[i].key}, Without(ns, i), Without(cs, i))
  {
    hide Find, Remove, Keys;
    RemoveAt(cs, i);
    RemoveKeys(cs, cs[i].key);
  }

  lemma IndexedCons<K, V>(
      index: map<K, Node<K, V>>, ns: seq<Node<K, V>>, cs: seq<Entry<K, V>>, n: Node<K, V>, e: Entry<K, V>)
    requires Indexed(index, ns, cs) && e.key !in index
    ensures Indexed(index[e.key := n], [n] + ns, [e] + cs)
  {
    ConsKeys(e, cs);
  }

  /** Moving the i-th of both lists to the front, or dropping it, keeps them in step. */
  lemma StoresRearranged<K, V>(ns: seq<Node<K, V>>, cs: seq<Entry<K, V>>, i: nat)
    requires Stores(ns, cs) && i < |ns|
    requires forall j, m :: 0 <= j < m < |ns| ==> ns[j] != ns[m]
    ensures Stores(Without(ns, i), Without(cs, i))
    ensures Stores([ns[i]] + Without(ns, i), [cs[i]] + Without(cs, i))
    ensures (set n | n in Without(ns, i)) == (set n | n in ns) - {ns[i]}
    ensures (set n | n in [ns[i]] + Without(ns, i)) == (set n | n in ns)
  {
    assert ns == ns[..i] + [ns[i]] + ns[i + 1..];
  }

  /** The position of a key is its only occurrence, so removing by key is removing there. */
  lemma RemoveAt<K, V>(cs: seq<Entry<K, V>>, i: nat)
    requires Distinct(cs) && i < |cs|
    ensures Remove(cs, cs[i].key) == Without(cs, i)
    ensures Touch(cs, cs[i].key) == [cs[i]] + Without(cs, i)
  {
    FindAt(cs, i);
  }

  /** Moving the i-th node and entry to the front is what a hit on its key does. */
  lemma FrontKeepsValid<K, V>(index: map<K, Node<K, V>>, ns: seq<Node<K, V>>, cs: seq<Entry<K, V>>, i: nat)
    requires Stores(ns, cs) && Indexed(index, ns, cs) && Distinct(cs) && i < |ns|
    requires forall j, m :: 0 <= j < m < |ns| ==> ns[j] != ns[m]
    ensures |ns| == |cs|
    ensures var ns', cs' := [ns[i]] + Without(ns, i), [cs[i]] + Without(cs, i);
            && cs' == Touch(cs, ns[i].key) && Distinct(cs')
            && Stores(ns', cs') && Indexed(index, ns', cs')
            && (set n | n in ns') == (set n | n in ns)
            && (i == 0 ==> cs' == cs)
  {
    RemoveAt(cs, i);
    TouchKeys(cs, cs[i].key);
    IndexedFront(index, ns, cs, i);
    StoresRearranged(ns, cs, i);
    if i == 0 { assert cs == [cs[0]] + Without(cs, 0); }
  }

  /** Dropping the i-th node and entry is what erasing its key does. */
  lemma DropKeepsValid<K, V>(index: map<K, Node<K, V>>, ns: seq<Node<K, V>>, cs: seq<Entry<K, V>>, i: nat)
    requires Stores(ns, cs) && Indexed(index, ns, cs) && Distinct(cs) && i < |ns|
    requires forall j, m :: 0 <= j < m < |ns| ==> ns[j] != ns[m]
    ensures |ns| == |cs|
    ensures var ns', cs' := Without(ns, i), Without(cs, i);
            && cs' == Remove(cs, ns[i].key) && Distinct(cs')
            && Stores(ns', cs') && Indexed(index - {ns[i].key}, ns', cs')
            && (set n | n in ns') == (set n | n in ns) - {ns[i]}
            && (i == |cs| - 1 ==> cs' == cs[..i])
  {
    RemoveAt(cs, i);
    RemoveKeys(cs, cs[i].key);
    IndexedWithout(index, ns, cs, i);
    StoresRearranged(ns, cs, i);
  }

  /** A new key in front of the others. */
  lemma ConsKeepsValid<K, V>(
      index: map<K, Node<K, V>>, ns: seq<Node<K, V>>, cs: seq<Entry<K, V>>, n: Node<K, V>, e: Entry<K, V>)
    requires Indexed(index, ns, cs) && Distinct(cs) && e.key !in index
    ensures Distinct([e] + cs) && Indexed(index[e.key := n], [n] + ns, [e] + cs)
  {
    HasIsKeys(cs, e.key);
    ConsKeys(e, cs);
    IndexedCons(index, ns, cs, n, e);
  }

  /** Storing a new value under the i-th key changes neither keys nor map. */
  lemma UpdateKeepsValid<K, V>(index: map<K, Node<K, V>>, ns: seq<Node<K, V>>, cs: seq<Entry<K, V>>, i: nat, v: V)
    requires Indexed(index, ns, cs) && Distinct(cs) && i < |cs|
    ensures var cs' := cs[i := Entry(cs[i].key, v)];
            && Distinct(cs') && Indexed(index, ns, cs')
            && Touch(cs', cs[i].key) == [Entry(cs[i].key, v)] + Remove(cs, cs[i].key)
  {
    hide Find, Touch, Remove, Keys;
    var cs' := cs[i := Entry(cs[i].key, v)];
    RemoveAt(cs, i);
    RemoveAt(cs', i);
    assert Without(cs', i) == Without(cs, i);
    KeysUpdate(cs, i, v);
  }

  class LruCache<K(==), V> {
    var index: map<K, Node<K, V>>
    var hd: Node?<K, V>
    var tl: Node?<K, V>
    var maxSize: nat

    /** The chain from hd, the entries it stands for, and the nodes allocated and not
        yet deleted. */
    ghost var nodes: seq<Node<K, V>>
    ghost var contents: seq<Entry<K, V>>
    ghost var live: set<Node<K, V>>

    /** ns is the list from hd: prev inverts next, both ends are closed, no node repeats.
        tl is meaningful only while hd is not null. */
    ghost predicate Chain(ns: seq<Node<K, V>>)
      reads this`hd, this`tl, ns
    {
      && (hd == if ns == [] then null else ns[0])
      && (ns != [] ==> tl == ns[|ns| - 1] && ns[0].prev == null && ns[|ns| - 1].next == null)
      && (forall i, j :: 0 <= i < j < |ns| ==> ns[i] != ns[j])
      && (forall i {:trigger ns[i].next} :: 0 <= i < |ns| - 1 ==> ns[i].next == ns[i + 1])
      && (forall i {:trigger ns[i].prev} :: 1 <= i < |ns| ==> ns[i].prev == ns[i - 1])
    }

    /** Nothing deleted is reachable from hd or from the map, and nothing live is lost. */
    ghost predicate Valid()
      reads this, nodes
    {
      && Chain(nodes)
      && Distinct(contents)
      && Stores(nodes, contents)
      && Indexed(index, nodes, contents)
      && live == (set n | n in nodes)
    }

    lemma Shape(key: K)
      requires Valid()
      ensures |contents| == |nodes| == |index|
      ensures hd == null <==> contents == []
      ensures key in index <==> Has(contents, key)
      ensures key in index ==>
                && Find(contents, key) < |nodes| && nodes[Find(contents, key)] == index[key]
                && index[key].key == key
      ensures hd != null ==> hd in live
      ensures |nodes| >= 2 ==> tl != null && tl.prev in live
    {
      HasIsKeys(contents, key);
      KeysSize(contents);
      assert |index| == |index.Keys|;
    }

    constructor (size: nat)
      ensures Valid() && contents == [] && maxSize == size && live == {}
    {
      index, hd, tl, maxSize := map[], null, null, size;
      nodes, contents, live := [], [], {};
    }

    method SetMaxSize(size: nat)
      requires Valid()
      modifies this`maxSize
      ensures Valid() && maxSize == size
    {
      maxSize := size;
    }

    /** delete: n must still be live. */
    ghost method Delete(n: Node<K, V>)
      requires n in live
      modifies this`live
      ensures live == old(live) - {n}
    {
      live := live - {n};
    }

    // ----- the pointer updates that the operations are made of -----

    /** ptr, neither first nor last, is bridged over by its neighbours. */
    method Bypass(ptr: Node<K, V>, ghost i: nat, ghost ns: seq<Node<K, V>>)
      requires Chain(ns) && 0 < i < |ns| - 1 && ns[i] == ptr
      modifies ptr.prev`next, ptr.next`prev
      ensures Chain(Without(ns, i))
    {
      ptr.prev.next := ptr.next;
      ptr.next.prev := ptr.prev;
    }

    /** The last of at least two nodes is cut off. */
    method CutTail(ghost ns: seq<Node<K, V>>)
      requires Chain(ns) && |ns| >= 2
      modifies this`tl, tl.prev`next
      ensures Chain(Without(ns, |ns| - 1))
    {
      tl := tl.prev;
      tl.next := null;
    }

    /** ptr, not on the list ns, becomes its first node. */
    method LinkFront(ptr: Node<K, V>, ghost ns: seq<Node<K, V>>)
      requires Chain(ns) && hd != null && ptr !in ns
      modifies this`hd, hd`prev, ptr`next, ptr`prev
      ensures Chain([ptr] + ns)
    {
      hd.prev := ptr;
      ptr.next := hd;
      hd := ptr;
      ptr.prev := null;
    }

    /** Takes the i-th node out of the list and puts it in front; no node changes its
        payload. */
    method Relink(ptr: Node<K, V>, ghost i: nat, ghost ns: seq<Node<K, V>>, ghost cs: seq<Entry<K, V>>)
      requires Chain(ns) && 0 < i < |ns| && ns[i] == ptr && Stores([ptr] + Without(ns, i), cs)
      modifies this`hd, this`tl, ns
      ensures Chain([ptr] + Without(ns, i)) && Stores([ptr] + Without(ns, i), cs)
      ensures ptr.key == old(ptr.key) && ptr.val == old(ptr.val)
    {
      ghost var rest := Without(ns, i);
      if ptr == tl {
        CutTail(ns);
      } else {
        Bypass(ptr, i, ns);
      }
      LinkFront(ptr, rest);
    }

    method MoveToHead(ptr: Node<K, V>, ghost i: nat)
      requires Valid() && i < |nodes| && nodes[i] == ptr
      modifies this`hd, this`tl, this`nodes, this`contents, live
      ensures Valid()
      ensures contents == Touch(old(contents), ptr.key)
      ensures ptr.key == old(ptr.key) && ptr.val == old(ptr.val)
    {
      hide Distinct, Touch, Indexed, Stores, Without;
      FrontKeepsValid(index, nodes, contents, i);
      if ptr == hd { return; }
      contents := [contents[i]] + Without(contents, i);
      Relink(ptr, i, nodes, contents);
      nodes := [ptr] + Without(nodes, i);
    }

    method Get(key: K) returns (r: Option<V>)
      requires Valid()
      modifies this`hd, this`tl, this`nodes, this`contents, live
      ensures Valid() && contents == Touch(old(contents), key) && live == old(live)
      ensures r == Lookup(old(contents), key)
    {
      hide Distinct, Indexed, Chain, Find;
      Shape(key);
      if key !in index { return None; }
      var ptr := index[key];
      MoveToHead(ptr, Find(contents, key));
      return Some(ptr.val);
    }

    /** The only node of a full cache has no predecessor to become the new tail, so a
        new key must not find the cache in that state. */
    ghost predicate CanInsert(key: K)
      reads this
    {
      Has(contents, key) || |contents| != 1 || maxSize >= 2
    }

    method Insert(key: K, val: V)
      requires Valid() && CanInsert(key)
      modifies this`index, this`hd, this`tl, this`nodes, this`contents, this`live, live
      ensures Valid() && contents == Recency.Insert(old(contents), maxSize, key, val)
      ensures fresh(live - old(live))
    {
      hide Distinct, Indexed, Stores, Chain, Has, Find;
      Shape(key);
      if hd == null {
        InsertFirst(key, val);
        return;
      }
      if key in index {
        Overwrite(index[key], Find(contents, key), val);
        return;
      }
      if |index| >= maxSize {
        Evict();
        Shape(key);
      }
      PushFront(key, val);
    }

    method InsertFirst(key: K, val: V)
      requires Valid() && hd == null
      modifies this`index, this`hd, this`tl, this`nodes, this`contents, this`live
      ensures Valid() && contents == [Entry(key, val)] && fresh(live)
    {
      hd := new Node(key, val);
      tl := hd;
      index := index[key := hd];
      nodes, contents, live := [hd], [Entry(key, val)], {hd};
    }

    /** Replaces the value of the i-th node and moves it to the front. */
    method Overwrite(ptr: Node<K, V>, ghost i: nat, val: V)
      requires Valid() && i < |nodes| && ptr == nodes[i]
      modifies this`hd, this`tl, this`nodes, this`contents, live
      ensures Valid() && contents == [Entry(old(ptr.key), val)] + Remove(old(contents), old(ptr.key))
    {
      hide Distinct, Indexed, Touch, Remove;
      assert ptr.key == contents[i].key;
      UpdateKeepsValid(index, nodes, contents, i, val);
      ptr.val := val;
      contents := contents[i := Entry(contents[i].key, val)];
      MoveToHead(ptr, i);
    }

    /** Deletes the last of at least two nodes. */
    method Evict()
      requires Valid() && |nodes| >= 2
      modifies this`index, this`tl, this`nodes, this`contents, this`live, tl.prev`next
      ensures Valid() && contents == old(contents)[..|old(contents)| - 1]
      ensures live <= old(live) && index.Keys <= old(index.Keys) && hd == old(hd)
    {
      hide Distinct, Indexed, Without;
      ghost var last := |nodes| - 1;
      DropKeepsValid(index, nodes, contents, last);
      var ptr := tl;
      index := index - {tl.key};
      contents := Without(contents, last);
      CutTail(nodes);
      nodes := Without(nodes, last);
      Delete(ptr);
    }

    /** Puts a new node in front of hd. */
    method PushFront(key: K, val: V)
      requires Valid() && hd != null && key !in index
      modifies this`index, this`hd, this`nodes, this`contents, this`live, hd`prev
      ensures Valid() && contents == [Entry(key, val)] + old(contents)
      ensures fresh(live - old(live))
    {
      var n := new Node(key, val);
      hide Distinct, Indexed;
      ConsKeepsValid(index, nodes, contents, n, Entry(key, val));
      assert n !in nodes;
      LinkFront(n, nodes);
      index := index[key := n];
      nodes := [n] + nodes;
      contents := [Entry(key, val)] + contents;
      live := live + {n};
    }

    /** The first node is cut off. */
    method CutHead(ghost ns: seq<Node<K, V>>)
      requires Chain(ns) && hd != null
      modifies this`hd, ns
      ensures Chain(Without(ns, 0))
      ensures forall n :: n in ns ==> n.key == old(n.key) && n.val == old(n.val)
    {
      hd := hd.next;
      if hd != null { hd.prev := null; }
    }

    /** Takes the i-th node out of the list, wherever it is. Emptying the list leaves tl
        pointing at the removed node. */
    method Unlink(ptr: Node<K, V>, ghost i: nat, ghost ns: seq<Node<K, V>>, ghost cs: seq<Entry<K, V>>)
      requires Chain(ns) && i < |ns| && ns[i] == ptr && Stores(Without(ns, i), cs)
      modifies this`hd, this`tl, ns
      ensures Chain(Without(ns, i)) && Stores(Without(ns, i), cs)
    {
      if ptr == hd {
        CutHead(ns);
      } else if ptr == tl {
        CutTail(ns);
      } else {
        Bypass(ptr, i, ns);
      }
    }

    method Erase(key: K)
      requires Valid()
      modifies this`index, this`hd, this`tl, this`nodes, this`contents, this`live, live
      ensures Valid() && contents == Remove(old(contents), key)
      ensures live <= old(live)
    {
      hide Distinct, Indexed, Find, Without;
      Shape(key);
      if key !in index { return; }
      var ptr := index[key];
      ghost var i := Find(contents, key);
      DropKeepsValid(index, nodes, contents, i);
      contents := Without(contents, i);
      Unlink(ptr, i, nodes, contents);
      nodes := Without(nodes, i);
      index := index - {key};
      Delete(ptr);
    }

    /** Deletes every node, reading its successor first. */
    method FreeCache()
      requires Chain(nodes) && live == (set n | n in nodes)
      modifies this`hd, this`tl, this`nodes, this`live
      ensures hd == null && tl == null && nodes == [] && live == {}
    {
      var ptr := hd;
      ghost var i := 0;
      while ptr != null
        invariant Chain(nodes) && i <= |nodes| && ptr == if i < |nodes| then nodes[i] else null
        invariant live == (set n | n in nodes[i..])
        decreases |nodes| - i
      {
        var current := ptr;
        ptr := ptr.next;
        assert nodes[i..] == [current] + nodes[i + 1..] && current !in nodes[i + 1..];
        Delete(current);
        i := i + 1;
      }
      hd, tl := null, null;
      nodes := [];
    }

    method Clear()
      requires Valid()
      modifies this`index, this`hd, this`tl, this`nodes, this`contents, this`live
      ensures Valid() && contents == [] && live == {}
    {
      index, contents := map[], [];
      FreeCache();
    }
  }
}
