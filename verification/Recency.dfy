/** What an LRU cache is: a list of entries, most recently used first.
    The pointer structure in LruCache.dfy is proved to implement these functions. */
module Recency {
  import opened Wrappers

  datatype Entry<+K, +V> = Entry(key: K, val: V)

  predicate Has<K(==), V>(s: seq<Entry<K, V>>, k: K) {
    exists i :: 0 <= i < |s| && s[i].key == k
  }

  /** The position of k, or |s| if k is absent. */
  function Find<K(==), V>(s: seq<Entry<K, V>>, k: K): (i: nat)
    ensures i <= |s|
    ensures i < |s| ==> s[i].key == k
    ensures forall j :: 0 <= j < i ==> s[j].key != k
  {
    if s == [] || s[0].key == k then 0 else 1 + Find(s[1..], k)
  }

  predicate Distinct<K(==), V>(s: seq<Entry<K, V>>) {
    forall i, j :: 0 <= i < j < |s| ==> s[i].key != s[j].key
  }

  function Lookup<K(==), V>(s: seq<Entry<K, V>>, k: K): (r: Option<V>)
    ensures r.Some? <==> Has(s, k)
  {
    var i := Find(s, k);
    if i < |s| then Some(s[i].val) else None
  }

  function Remove<K(==), V>(s: seq<Entry<K, V>>, k: K): seq<Entry<K, V>> {
    var i := Find(s, k);
    if i < |s| then s[..i] + s[i + 1..] else s
  }

  /** A hit moves the entry to the front; a miss changes nothing. */
  function Touch<K(==), V>(s: seq<Entry<K, V>>, k: K): seq<Entry<K, V>> {
    var i := Find(s, k);
    if i < |s| then [s[i]] + Remove(s, k) else s
  }

  /** A present key gets the new value and moves to the front; a new key at capacity
      first drops the least recently used entry. */
  function Insert<K(==), V>(s: seq<Entry<K, V>>, capacity: nat, k: K, v: V): seq<Entry<K, V>> {
    [Entry(k, v)] + Room(s, capacity, k)
  }

  function Room<K(==), V>(s: seq<Entry<K, V>>, capacity: nat, k: K): seq<Entry<K, V>> {
    if Has(s, k) then Remove(s, k)
    else if s != [] && |s| >= capacity then s[..|s| - 1]
    else s
  }

  // ----- keys -----

  ghost function Keys<K, V>(s: seq<Entry<K, V>>): set<K> {
    set e | e in s :: e.key
  }

  lemma FindAt<K, V>(s: seq<Entry<K, V>>, i: nat)
    requires i < |s| && Distinct(s)
    ensures Find(s, s[i].key) == i
  {
  }

  lemma HasIsKeys<K, V>(s: seq<Entry<K, V>>, k: K)
    ensures Has(s, k) <==> k in Keys(s)
  {
    if k in Keys(s) {
      var e :| e in s && e.key == k;
      var i :| 0 <= i < |s| && s[i] == e;
      assert s[i].key == k;
    }
    if Has(s, k) {
      var i :| 0 <= i < |s| && s[i].key == k;
      assert s[i] in s;
    }
  }

  lemma KeysUpdate<K, V>(s: seq<Entry<K, V>>, i: nat, v: V)
    requires i < |s|
    ensures Keys(s[i := Entry(s[i].key, v)]) == Keys(s)
  {
    var e := Entry(s[i].key, v);
    assert s == s[..i] + [s[i]] + s[i + 1..] && s[i := e] == s[..i] + [e] + s[i + 1..];
  }

  /** Distinct keys: the length is the number of keys. */
  lemma {:induction false} KeysSize<K, V>(s: seq<Entry<K, V>>)
    requires Distinct(s)
    ensures |Keys(s)| == |s|
  {
    if s != [] {
      var last := s[|s| - 1];
      KeysSize(s[..|s| - 1]);
      assert s == s[..|s| - 1] + [last];
      assert Keys(s) == Keys(s[..|s| - 1]) + {last.key};
      assert last.key !in Keys(s[..|s| - 1]);
    } else {
      assert Keys(s) == {};
    }
  }

  lemma DropAt<K, V>(s: seq<Entry<K, V>>, i: nat)
    requires Distinct(s) && i < |s|
    ensures Distinct(s[..i] + s[i + 1..]) && Keys(s[..i] + s[i + 1..]) == Keys(s) - {s[i].key}
  {
    var t := s[..i] + s[i + 1..];
    assert forall j :: 0 <= j < |t| ==> t[j] == if j < i then s[j] else s[j + 1];
    forall k | k in Keys(s) && k != s[i].key ensures k in Keys(t) {
      var j :| 0 <= j < |s| && s[j].key == k;
      assert t[if j < i then j else j - 1] in t;
    }
    forall k | k in Keys(t) ensures k in Keys(s) && k != s[i].key {
      var j :| 0 <= j < |t| && t[j].key == k;
      assert s[if j < i then j else j + 1] in s;
    }
  }

  /** What each operation does to the keys, and that keys stay distinct. */
  lemma RemoveKeys<K, V>(s: seq<Entry<K, V>>, k: K)
    requires Distinct(s)
    ensures Distinct(Remove(s, k)) && Keys(Remove(s, k)) == Keys(s) - {k}
    ensures |Remove(s, k)| == |s| - (if Has(s, k) then 1 else 0)
  {
    hide Distinct, Keys;
    HasIsKeys(s, k);
    if Has(s, k) { DropAt(s, Find(s, k)); }
  }

  lemma ConsKeys<K, V>(e: Entry<K, V>, s: seq<Entry<K, V>>)
    ensures Keys([e] + s) == {e.key} + Keys(s)
    ensures Distinct(s) && !Has(s, e.key) ==> Distinct([e] + s)
  {
  }

  lemma TouchKeys<K, V>(s: seq<Entry<K, V>>, k: K)
    requires Distinct(s)
    ensures Distinct(Touch(s, k)) && Keys(Touch(s, k)) == Keys(s) && |Touch(s, k)| == |s|
  {
    var i := Find(s, k);
    if i < |s| {
      RemoveKeys(s, k);
      HasIsKeys(s, k);
      HasIsKeys(Remove(s, k), k);
      ConsKeys(s[i], Remove(s, k));
    }
  }

  lemma InsertKeys<K, V>(s: seq<Entry<K, V>>, capacity: nat, k: K, v: V)
    requires Distinct(s)
    ensures Distinct(Insert(s, capacity, k, v))
    ensures Keys(Insert(s, capacity, k, v)) ==
            {k} + (if Has(s, k) || s == [] || |s| < capacity then Keys(s) else Keys(s) - {s[|s| - 1].key})
    ensures |Insert(s, capacity, k, v)| ==
            (if Has(s, k) then |s| else if s == [] || |s| < capacity then |s| + 1 else |s|)
  {
    hide Find, Remove, Distinct, Keys;
    HasIsKeys(s, k);
    if Has(s, k) {
      RemoveKeys(s, k);
    } else if s != [] && |s| >= capacity {
      DropLastKeys(s);
    }
    HasIsKeys(Room(s, capacity, k), k);
    ConsKeys(Entry(k, v), Room(s, capacity, k));
  }

  lemma DropLastKeys<K, V>(s: seq<Entry<K, V>>)
    requires Distinct(s) && s != []
    ensures Distinct(s[..|s| - 1]) && Keys(s[..|s| - 1]) == Keys(s) - {s[|s| - 1].key}
  {
    assert s == s[..|s| - 1] + [s[|s| - 1]];
  }

  // ----- values -----

  /** Lists with distinct keys and the same entries answer alike. */
  lemma LookupIs<K, V>(s: seq<Entry<K, V>>, e: Entry<K, V>)
    requires Distinct(s)
    ensures e in s <==> Lookup(s, e.key) == Some(e.val)
  {
    if e in s {
      var i :| 0 <= i < |s| && s[i] == e;
      FindAt(s, i);
    } else if Has(s, e.key) {
      assert s[Find(s, e.key)] in s;
    }
  }

  /** No operation changes what another key answers, except that an insert may evict. */
  lemma RemoveLookup<K, V>(s: seq<Entry<K, V>>, k: K, x: K)
    requires Distinct(s)
    ensures Lookup(Remove(s, k), x) == if x == k then None else Lookup(s, x)
  {
    RemoveKeys(s, k);
    HasIsKeys(s, x);
    HasIsKeys(Remove(s, k), x);
    if Has(s, x) && x != k {
      var i := Find(s, k);
      var e := s[Find(s, x)];
      if i < |s| { assert s == s[..i] + [s[i]] + s[i + 1..]; }
      assert e in Remove(s, k);
      LookupIs(Remove(s, k), e);
    }
  }

  lemma ConsLookup<K, V>(e: Entry<K, V>, s: seq<Entry<K, V>>, x: K)
    ensures Lookup([e] + s, x) == if x == e.key then Some(e.val) else Lookup(s, x)
  {
    assert ([e] + s)[1..] == s;
  }

  lemma DropLastLookup<K, V>(s: seq<Entry<K, V>>, x: K)
    requires Distinct(s) && s != []
    ensures Lookup(s[..|s| - 1], x) == if x == s[|s| - 1].key then None else Lookup(s, x)
  {
    var i := Find(s, x);
    if i < |s| - 1 {
      assert s[..|s| - 1][i] == s[i];
      FindAt(s[..|s| - 1], i);
    }
  }

  lemma TouchLookup<K, V>(s: seq<Entry<K, V>>, k: K, x: K)
    requires Distinct(s)
    ensures Lookup(Touch(s, k), x) == Lookup(s, x)
  {
    TouchKeys(s, k);
    RemoveLookup(s, k, x);
    var i := Find(s, k);
    if i < |s| { ConsLookup(s[i], Remove(s, k), x); }
  }

  lemma InsertLookup<K, V>(s: seq<Entry<K, V>>, capacity: nat, k: K, v: V, x: K)
    requires Distinct(s)
    ensures Lookup(Insert(s, capacity, k, v), x) ==
            if x == k then Some(v)
            else if !Has(s, k) && s != [] && |s| >= capacity && x == s[|s| - 1].key then None
            else Lookup(s, x)
  {
    ConsLookup(Entry(k, v), Room(s, capacity, k), x);
    if Has(s, k) {
      RemoveLookup(s, k, x);
    } else if s != [] && |s| >= capacity {
      DropLastLookup(s, x);
    }
  }
}
