/** Comparing two caches of different capacity fed the same operations. */
module Inclusion {
  import opened Recency

  datatype Op<+K, +V> = InsertOp(key: K, val: V) | GetOp(key: K) | EraseOp(key: K)

  function Apply<K(==), V>(s: seq<Entry<K, V>>, capacity: nat, op: Op<K, V>): seq<Entry<K, V>> {
    match op
    case InsertOp(k, v) => Insert(s, capacity, k, v)
    case GetOp(k) => Touch(s, k)
    case EraseOp(k) => Remove(s, k)
  }

  /** The recency list after a sequence of operations on an empty cache. */
  function Run<K(==), V>(ops: seq<Op<K, V>>, capacity: nat): seq<Entry<K, V>> {
    if ops == [] then []
    else Apply(Run(ops[..|ops| - 1], capacity), capacity, ops[|ops| - 1])
  }

  /** a is b with some entries left out. */
  ghost predicate Subsequence<T>(a: seq<T>, b: seq<T>) {
    a == [] ||
    (b != [] && (Subsequence(a, b[1..]) || (a[0] == b[0] && Subsequence(a[1..], b[1..]))))
  }

  // ----- subsequences -----

  lemma SubsequenceCons<T>(e: T, a: seq<T>, b: seq<T>)
    requires Subsequence(a, b)
    ensures Subsequence([e] + a, [e] + b)
  {
    assert ([e] + a)[1..] == a && ([e] + b)[1..] == b;
  }

  lemma SubsequenceSkip<T>(a: seq<T>, e: T, b: seq<T>)
    requires Subsequence(a, b)
    ensures Subsequence(a, [e] + b)
  {
    assert ([e] + b)[1..] == b;
  }

  lemma {:induction false} SubsequenceMember<T>(a: seq<T>, b: seq<T>, e: T)
    requires Subsequence(a, b) && e in a
    ensures e in b
  {
    if Subsequence(a, b[1..]) {
      SubsequenceMember(a, b[1..], e);
    } else if e != a[0] {
      SubsequenceMember(a[1..], b[1..], e);
    }
  }

  lemma {:induction false} SubsequenceLength<T>(a: seq<T>, b: seq<T>)
    requires Subsequence(a, b)
    ensures |a| <= |b|
  {
    if a == [] {
    } else if Subsequence(a, b[1..]) {
      SubsequenceLength(a, b[1..]);
    } else {
      SubsequenceLength(a[1..], b[1..]);
    }
  }

  /** Dropping the last entry of both, or only of the shorter list. */
  lemma {:induction false} SubsequenceDropLast<T>(a: seq<T>, b: seq<T>)
    requires Subsequence(a, b) && a != []
    ensures Subsequence(a[..|a| - 1], b[..|b| - 1]) && Subsequence(a[..|a| - 1], b)
  {
    if Subsequence(a, b[1..]) {
      SubsequenceLength(a, b[1..]);
      SubsequenceDropLast(a, b[1..]);
      SubsequenceSkip(a[..|a| - 1], b[0], b[1..][..|b| - 2]);
      assert b[..|b| - 1] == [b[0]] + b[1..][..|b| - 2];
    } else if |a| > 1 {
      SubsequenceLength(a[1..], b[1..]);
      SubsequenceDropLast(a[1..], b[1..]);
      var a', b' := a[1..][..|a| - 2], b[1..][..|b| - 2];
      SubsequenceCons(a[0], a', b');
      SubsequenceCons(a[0], a', b[1..]);
      assert a[..|a| - 1] == [a[0]] + a' && b[..|b| - 1] == [b[0]] + b' && b == [b[0]] + b[1..];
    }
  }

  lemma MemberHas<K, V>(a: seq<Entry<K, V>>, b: seq<Entry<K, V>>, k: K)
    requires Subsequence(a, b) && Distinct(a) && Distinct(b) && Has(a, k)
    ensures Lookup(b, k) == Lookup(a, k)
  {
    var e := a[Find(a, k)];
    SubsequenceMember(a, b, e);
    LookupIs(b, e);
  }

  lemma {:induction false} SubsequenceRemove<K, V>(a: seq<Entry<K, V>>, b: seq<Entry<K, V>>, k: K)
    requires Subsequence(a, b) && Distinct(a) && Distinct(b)
    ensures Subsequence(Remove(a, k), Remove(b, k))
  {
    RemoveMiss(a, k);
    hide Remove, Lookup, Find;
    if a == [] {
    } else if Subsequence(a, b[1..]) {
      assert b == [b[0]] + b[1..];
      RemoveCons(b[0], b[1..], k);
      if b[0].key == k {
        if Has(a, k) {
          MemberHas(a, b[1..], k);
          assert false;
        }
      } else {
        SubsequenceRemove(a, b[1..], k);
        SubsequenceSkip(Remove(a, k), b[0], Remove(b[1..], k));
      }
    } else {
      assert a == [a[0]] + a[1..] && b == [b[0]] + b[1..];
      RemoveCons(a[0], a[1..], k);
      RemoveCons(b[0], b[1..], k);
      if a[0].key != k {
        SubsequenceRemove(a[1..], b[1..], k);
        SubsequenceCons(a[0], Remove(a[1..], k), Remove(b[1..], k));
      }
    }
  }

  lemma RemoveMiss<K, V>(s: seq<Entry<K, V>>, k: K)
    ensures !Has(s, k) ==> Remove(s, k) == s
  {
  }

  lemma RemoveCons<K, V>(e: Entry<K, V>, s: seq<Entry<K, V>>, k: K)
    ensures Remove([e] + s, k) == if e.key == k then s else [e] + Remove(s, k)
  {
    var t := [e] + s;
    assert t[1..] == s;
    if e.key != k {
      var i := Find(s, k);
      assert Find(t, k) == 1 + i;
      if i < |s| { assert t[..1 + i] == [e] + s[..i] && t[1 + i + 1..] == s[i + 1..]; }
    }
  }

  // ----- the comparison -----

  /** The smaller cache's list sits inside the larger's, and the smaller never has more
      room left than the larger. */
  ghost predicate Below<K, V>(small: seq<Entry<K, V>>, c1: nat, large: seq<Entry<K, V>>, c2: nat) {
    && Distinct(small) && Distinct(large)
    && Subsequence(small, large)
    && |small| <= c1 && |large| <= c2
    && c1 - |small| <= c2 - |large|
  }

  lemma BelowErase<K, V>(small: seq<Entry<K, V>>, c1: nat, large: seq<Entry<K, V>>, c2: nat, k: K)
    requires Below(small, c1, large, c2)
    ensures Below(Remove(small, k), c1, Remove(large, k), c2)
  {
    RemoveKeys(small, k);
    RemoveKeys(large, k);
    SubsequenceRemove(small, large, k);
    if Has(small, k) { MemberHas(small, large, k); }
  }

  lemma BelowGet<K, V>(small: seq<Entry<K, V>>, c1: nat, large: seq<Entry<K, V>>, c2: nat, k: K)
    requires Below(small, c1, large, c2)
    ensures Below(Touch(small, k), c1, Touch(large, k), c2)
  {
    TouchKeys(small, k);
    TouchKeys(large, k);
    SubsequenceRemove(small, large, k);
    if Has(small, k) {
      MemberHas(small, large, k);
      SubsequenceCons(small[Find(small, k)], Remove(small, k), Remove(large, k));
    } else if Has(large, k) {
      SubsequenceSkip(small, large[Find(large, k)], Remove(large, k));
    }
  }

  lemma BelowInsert<K, V>(small: seq<Entry<K, V>>, c1: nat, large: seq<Entry<K, V>>, c2: nat, k: K, v: V)
    requires Below(small, c1, large, c2) && c1 >= 1
    ensures Below(Insert(small, c1, k, v), c1, Insert(large, c2, k, v), c2)
  {
    InsertKeys(small, c1, k, v);
    InsertKeys(large, c2, k, v);
    var e := Entry(k, v);
    if Has(large, k) {
      SubsequenceRemove(small, large, k);
      if Has(small, k) {
        SubsequenceCons(e, Remove(small, k), Remove(large, k));
      } else {
        var kept := if |small| >= c1 then small[..|small| - 1] else small;
        if |small| >= c1 { SubsequenceDropLast(small, Remove(large, k)); }
        SubsequenceCons(e, kept, Remove(large, k));
      }
    } else {
      if Has(small, k) { MemberHas(small, large, k); }
      if |small| >= c1 {
        SubsequenceDropLast(small, large);
        SubsequenceCons(e, small[..|small| - 1], large[..|large| - 1]);
        SubsequenceCons(e, small[..|small| - 1], large);
      } else {
        SubsequenceCons(e, small, large);
      }
    }
  }

  /** At every point of every run of inserts, gets and erases, the smaller cache holds a
      subsequence of what the larger one holds, although a missed get inserts nothing. */
  lemma {:induction false} InclusionTheorem<K, V>(ops: seq<Op<K, V>>, c1: nat, c2: nat)
    requires 2 <= c1 <= c2
    ensures Below(Run(ops, c1), c1, Run(ops, c2), c2)
  {
    if ops != [] {
      var rest := ops[..|ops| - 1];
      InclusionTheorem(rest, c1, c2);
      match ops[|ops| - 1]
      case InsertOp(k, v) => BelowInsert(Run(rest, c1), c1, Run(rest, c2), c2, k, v);
      case GetOp(k) => BelowGet(Run(rest, c1), c1, Run(rest, c2), c2, k);
      case EraseOp(k) => BelowErase(Run(rest, c1), c1, Run(rest, c2), c2, k);
    }
  }

  /** Hence a hit in the smaller cache is a hit, with the same value, in the larger. */
  lemma LargerNeverMissesMore<K, V>(ops: seq<Op<K, V>>, c1: nat, c2: nat, k: K)
    requires 2 <= c1 <= c2
    ensures var answer := Lookup(Run(ops, c1), k);
            answer.Some? ==> Lookup(Run(ops, c2), k) == answer
  {
    InclusionTheorem(ops, c1, c2);
    if Has(Run(ops, c1), k) {
      MemberHas(Run(ops, c1), Run(ops, c2), k);
    }
  }
}
