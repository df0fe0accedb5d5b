/** How long an LRU cache keeps an entry. */
module Retention {
  import opened FiniteSets
  import opened Inclusion
  import opened Recency

  /** The keys other than k that a stretch of operations inserts or looks up. */
  function Rivals<K(==), V>(ops: seq<Op<K, V>>, k: K): set<K> {
    if ops == [] then {}
    else
      var rest, op := Rivals(ops[..|ops| - 1], k), ops[|ops| - 1];
      if op.EraseOp? || op.key == k then rest else rest + {op.key}
  }

  function RunFrom<K(==), V>(s: seq<Entry<K, V>>, capacity: nat, ops: seq<Op<K, V>>): seq<Entry<K, V>> {
    if ops == [] then s
    else Apply(RunFrom(s, capacity, ops[..|ops| - 1]), capacity, ops[|ops| - 1])
  }

  /** k is cached, and only keys from `rivals` have been used more recently. */
  ghost predicate Ahead<K, V>(s: seq<Entry<K, V>>, k: K, rivals: set<K>) {
    && Distinct(s) && Has(s, k)
    && forall i :: 0 <= i < Find(s, k) ==> s[i].key in rivals
  }

  /** The entries ahead of k are at most as many as the rivals. */
  lemma AheadCount<K, V>(s: seq<Entry<K, V>>, k: K, rivals: set<K>)
    requires Ahead(s, k, rivals)
    ensures Find(s, k) <= |rivals|
  {
    var front := s[..Find(s, k)];
    KeysSize(front);
    assert Keys(front) <= rivals;
    SubsetSize(Keys(front), rivals);
  }

  /** An entry e in front of what is left of s once e's key is gone from it. */
  lemma AheadCons<K, V>(s: seq<Entry<K, V>>, k: K, rivals: set<K>, e: Entry<K, V>, t: seq<Entry<K, V>>)
    requires Ahead(t, k, rivals) && !Has(t, e.key)
    ensures e.key != k
    ensures Ahead([e] + t, k, rivals + {e.key})
  {
    ConsKeys(e, t);
    assert ([e] + t)[1..] == t;
    assert ([e] + t)[Find(t, k) + 1].key == k;
    assert Find([e] + t, k) == 1 + Find(t, k);
  }

  lemma AheadRemove<K, V>(s: seq<Entry<K, V>>, k: K, rivals: set<K>, x: K)
    requires Ahead(s, k, rivals) && x != k
    ensures Ahead(Remove(s, x), k, rivals)
  {
    hide Keys;
    RemoveKeys(s, x);
    var i, j := Find(s, k), Find(s, x);
    if j < |s| {
      var t := Remove(s, x);
      var i' := if j < i then i - 1 else i;
      assert t[i'] == s[i];
      FindAt(t, i');
      forall m | 0 <= m < i' ensures t[m].key in rivals {
        assert t[m] == if m < j then s[m] else s[m + 1];
      }
    }
  }

  lemma AheadDropLast<K, V>(s: seq<Entry<K, V>>, k: K, rivals: set<K>)
    requires Ahead(s, k, rivals) && Find(s, k) < |s| - 1
    ensures Ahead(s[..|s| - 1], k, rivals)
  {
    var i := Find(s, k);
    assert s[..|s| - 1][i].key == k;
    FindAt(s[..|s| - 1], i);
  }

  lemma AheadFront<K, V>(t: seq<Entry<K, V>>, e: Entry<K, V>, rivals: set<K>)
    requires Distinct([e] + t)
    ensures Ahead([e] + t, e.key, rivals)
  {
    assert ([e] + t)[0].key == e.key;
  }

  lemma AheadStep<K, V>(s: seq<Entry<K, V>>, capacity: nat, k: K, rivals: set<K>, op: Op<K, V>)
    requires Ahead(s, k, rivals) && op != EraseOp(k)
    requires !op.EraseOp? && op.key != k ==> |rivals + {op.key}| < capacity
    ensures Ahead(Apply(s, capacity, op), k, if op.EraseOp? || op.key == k then rivals else rivals + {op.key})
  {
    match op
    case EraseOp(x) => AheadRemove(s, k, rivals, x);
    case GetOp(x) =>
      TouchKeys(s, x);
      if x == k {
        AheadFront(Remove(s, k), s[Find(s, k)], rivals);
      } else if Has(s, x) {
        AheadRemove(s, k, rivals, x);
        RemoveLookup(s, x, x);
        AheadCons(s, k, rivals, s[Find(s, x)], Remove(s, x));
      }
    case InsertOp(x, v) =>
      InsertKeys(s, capacity, x, v);
      if x == k {
        AheadFront(Room(s, capacity, k), Entry(k, v), rivals);
      } else {
        if Has(s, x) {
          AheadRemove(s, k, rivals, x);
          RemoveLookup(s, x, x);
        } else if |s| >= capacity {
          NotLast(s, capacity, k, rivals, x);
          AheadDropLast(s, k, rivals);
        }
        AheadCons(s, k, rivals, Entry(x, v), Room(s, capacity, x));
      }
  }

  /** While fewer than `capacity` rivals have appeared, k is not the one to be evicted. */
  lemma NotLast<K, V>(s: seq<Entry<K, V>>, capacity: nat, k: K, rivals: set<K>, x: K)
    requires Ahead(s, k, rivals) && !Has(s, x)
    requires |s| >= capacity && |rivals + {x}| < capacity
    ensures Find(s, k) < |s| - 1
  {
    AheadCount(s, k, rivals - {x});
    assert rivals - {x} == (rivals + {x}) - {x};
  }

  /** After an operation that leaves k at the front, k stays cached until it is erased or
      at least `capacity` distinct other keys have been used. */
  lemma {:induction false} RetentionTheorem<K, V>(s: seq<Entry<K, V>>, capacity: nat, ops: seq<Op<K, V>>, k: K)
    requires Distinct(s) && s != [] && s[0].key == k
    requires EraseOp(k) !in ops && |Rivals(ops, k)| < capacity
    ensures Ahead(RunFrom(s, capacity, ops), k, Rivals(ops, k))
    ensures Has(RunFrom(s, capacity, ops), k)
  {
    if ops == [] {
      AheadFront(s[1..], s[0], {});
      assert s == [s[0]] + s[1..];
    } else {
      var rest, op := ops[..|ops| - 1], ops[|ops| - 1];
      SubsetSize(Rivals(rest, k), Rivals(ops, k));
      RetentionTheorem(s, capacity, rest, k);
      AheadStep(RunFrom(s, capacity, rest), capacity, k, Rivals(rest, k), op);
    }
  }
}
