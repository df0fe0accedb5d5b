/** A cache of API objects with a time to live, over the LRU cache. */
module DiscordCache {
  import opened Wrappers
  import opened Recency
  import opened Inclusion
  import Retention
  import L = LruCache

  /** Ten minutes, in nanoseconds of the clock. */
  const TTL: int := 600_000_000_000
  const CACHE_SIZE: nat := 1000

  datatype CacheObject<+T> = CacheObject(item: T, made: int)

  /** An object is served while it is not older than the time to live. */
  predicate Fresh<T>(o: CacheObject<T>, now: int) {
    now - o.made <= TTL
  }

  function Answer<T>(s: seq<Entry<string, CacheObject<T>>>, key: string, now: int): Option<T> {
    match Lookup(s, key)
    case None => None
    case Some(o) => if Fresh(o, now) then Some(o.item) else None
  }

  // ----- runs -----

  datatype Event<+T> = InsertAt(key: string, item: T, now: int) | EraseAt(key: string) | ReadAt(key: string)

  /** `prepare` is what insert does to its copy: for users it clears the guild, for every
      other type nothing. */
  function ToOp<T>(prepare: T -> T, e: Event<T>): Op<string, CacheObject<T>> {
    match e
    case InsertAt(key, item, now) => InsertOp(key, CacheObject(prepare(item), now))
    case EraseAt(key) => EraseOp(key)
    case ReadAt(key) => GetOp(key)
  }

  function Ops<T>(prepare: T -> T, events: seq<Event<T>>): (ops: seq<Op<string, CacheObject<T>>>)
    ensures |ops| == |events|
    ensures forall i :: 0 <= i < |events| ==> ops[i] == ToOp(prepare, events[i])
  {
    if events == [] then []
    else Ops(prepare, events[..|events| - 1]) + [ToOp(prepare, events[|events| - 1])]
  }

  datatype Insertion<+T> = Insertion(item: T, now: int)

  /** The last insertion under key that no later event erased. */
  function Latest<T>(events: seq<Event<T>>, key: string): Option<Insertion<T>> {
    if events == [] then None
    else
      var e := events[|events| - 1];
      if e.key != key || e.ReadAt? then Latest(events[..|events| - 1], key)
      else if e.InsertAt? then Some(Insertion(e.item, e.now))
      else None
  }

  lemma {:induction false} RunDistinct<K, V>(ops: seq<Op<K, V>>, capacity: nat)
    ensures Distinct(Run(ops, capacity))
  {
    if ops != [] {
      var s := Run(ops[..|ops| - 1], capacity);
      RunDistinct(ops[..|ops| - 1], capacity);
      match ops[|ops| - 1]
      case InsertOp(k, v) => InsertKeys(s, capacity, k, v);
      case GetOp(k) => TouchKeys(s, k);
      case EraseOp(k) => RemoveKeys(s, k);
    }
  }

  /** Whatever was evicted or promoted in between, what is cached under a key is what was
      last inserted there, stamped with that moment. */
  lemma {:induction false} CachedIsLatest<T>(prepare: T -> T, events: seq<Event<T>>, capacity: nat, key: string)
    ensures var cached := Lookup(Run(Ops(prepare, events), capacity), key);
            cached.Some? ==>
              && Latest(events, key).Some?
              && cached.value == CacheObject(prepare(Latest(events, key).value.item), Latest(events, key).value.now)
  {
    if events != [] {
      var rest := events[..|events| - 1];
      var ops := Ops(prepare, rest);
      var s := Run(ops, capacity);
      CachedIsLatest(prepare, rest, capacity, key);
      assert Ops(prepare, events)[..|events| - 1] == ops;
      RunDistinct(ops, capacity);
      match ToOp(prepare, events[|events| - 1])
      case InsertOp(k, v) => InsertLookup(s, capacity, k, v, key);
      case GetOp(k) => TouchLookup(s, k, key);
      case EraseOp(k) => RemoveLookup(s, k, key);
    }
  }

  /** A hit is never wrong: it is the object last inserted under that key, not erased
      since, and not older than the time to live. */
  lemma HitsAreNeverWrong<T>(prepare: T -> T, events: seq<Event<T>>, key: string, now: int)
    ensures var answer := Answer(Run(Ops(prepare, events), CACHE_SIZE), key, now);
            answer.Some? ==>
              && Latest(events, key).Some?
              && answer.value == prepare(Latest(events, key).value.item)
              && now - Latest(events, key).value.now <= 600_000_000_000
  {
    CachedIsLatest(prepare, events, CACHE_SIZE, key);
  }

  lemma {:induction false} RunSplits<K, V>(ops: seq<Op<K, V>>, more: seq<Op<K, V>>, capacity: nat)
    ensures Run(ops + more, capacity) == Retention.RunFrom(Run(ops, capacity), capacity, more)
  {
    hide Apply;
    if more == [] {
      assert ops + more == ops;
    } else {
      RunSplits(ops, more[..|more| - 1], capacity);
      assert (ops + more)[..|ops + more| - 1] == ops + more[..|more| - 1];
    }
  }

  /** And a miss is never gratuitous: with neither an erase nor an insert of the key since,
      and fewer than a thousand other keys used since, the object is served exactly until
      its time to live runs out. */
  lemma HitsAreGuaranteed<T>(prepare: T -> T, before: seq<Event<T>>, key: string, item: T, made: int,
                             after: seq<Event<T>>, now: int)
    requires forall e :: e in after && e.key == key ==> e.ReadAt?
    requires |Retention.Rivals(Ops(prepare, after), key)| < 1000
    ensures var events := before + [InsertAt(key, item, made)] + after;
            Answer(Run(Ops(prepare, events), CACHE_SIZE), key, now)
              == if now - made <= 600_000_000_000 then Some(prepare(item)) else None
  {
    hide Run, Retention.RunFrom, Find, Distinct;
    var head := before + [InsertAt(key, item, made)];
    var events := head + after;
    OpsConcat(prepare, head, after);
    RunSplits(Ops(prepare, head), Ops(prepare, after), CACHE_SIZE);
    RunDistinct(Ops(prepare, head), CACHE_SIZE);
    InsertedFirst(prepare, before, key, item, made);
    AfterOps(prepare, after, key);
    Retention.RetentionTheorem(Run(Ops(prepare, head), CACHE_SIZE), CACHE_SIZE, Ops(prepare, after), key);
    CachedIsLatest(prepare, events, CACHE_SIZE, key);
    LatestIs(head, after, key);
  }

  lemma AfterOps<T>(prepare: T -> T, after: seq<Event<T>>, key: string)
    requires forall e :: e in after && e.key == key ==> e.ReadAt?
    ensures EraseOp(key) !in Ops(prepare, after)
  {
    forall i | 0 <= i < |after| ensures Ops(prepare, after)[i] != EraseOp(key) {
      assert after[i] in after;
    }
  }

  lemma InsertedFirst<T>(prepare: T -> T, before: seq<Event<T>>, key: string, item: T, made: int)
    ensures var head := before + [InsertAt(key, item, made)];
            && Run(Ops(prepare, head), CACHE_SIZE) != []
            && Run(Ops(prepare, head), CACHE_SIZE)[0].key == key
            && Latest(head, key) == Some(Insertion(item, made))
  {
    var head := before + [InsertAt(key, item, made)];
    assert Ops(prepare, head)[..|head| - 1] == Ops(prepare, before) by { assert head[..|head| - 1] == before; }
  }

  lemma {:induction false} OpsConcat<T>(prepare: T -> T, a: seq<Event<T>>, b: seq<Event<T>>)
    ensures Ops(prepare, a + b) == Ops(prepare, a) + Ops(prepare, b)
  {
    forall i | 0 <= i < |a + b| ensures Ops(prepare, a + b)[i] == (Ops(prepare, a) + Ops(prepare, b))[i] {
    }
  }

  lemma {:induction false} LatestIs<T>(head: seq<Event<T>>, after: seq<Event<T>>, key: string)
    requires forall e :: e in after && e.key == key ==> e.ReadAt?
    ensures Latest(head + after, key) == Latest(head, key)
  {
    if after == [] {
      assert head + after == head;
    } else {
      var events := head + after;
      assert events[|events| - 1] == after[|after| - 1] && after[|after| - 1] in after;
      assert events[..|events| - 1] == head + after[..|after| - 1];
      LatestIs(head, after[..|after| - 1], key);
    }
  }

  // ----- users -----

  datatype GuildUser = GuildUser(nick: Option<string>, roles: seq<string>)
  datatype User = User(id: string, username: string, guild: Option<GuildUser>)

  function ClearGuild(u: User): User {
    u.(guild := None)
  }

  /** A user served from the cache never carries guild data, though guild members are
      inserted with it; everything else about the user is as inserted. */
  lemma UsersHaveNoGuild(events: seq<Event<User>>, key: string, now: int)
    ensures var answer := Answer(Run(Ops(ClearGuild, events), CACHE_SIZE), key, now);
            answer.Some? ==>
              && Latest(events, key).Some?
              && var inserted := Latest(events, key).value.item;
                 answer.value == User(inserted.id, inserted.username, None)
  {
    HitsAreNeverWrong(ClearGuild, events, key, now);
  }

  // ----- the object -----

  class GenericDiscordCache<T> {
    const cache: L.LruCache<string, CacheObject<T>>
    const prepare: T -> T
    var hits: nat
    var misses: nat

    /** Everything done to the cache so far; its contents are what that leaves. */
    ghost var history: seq<Event<T>>

    ghost predicate Valid()
      reads this, cache, cache.nodes
    {
      cache.Valid() && cache.maxSize == CACHE_SIZE && cache.contents == Run(Ops(prepare, history), CACHE_SIZE)
    }

    constructor (prepare: T -> T)
      ensures Valid() && history == [] && this.prepare == prepare && hits == misses == 0
      ensures fresh(cache) && cache.live == {}
    {
      cache := new L.LruCache(CACHE_SIZE);
      this.prepare := prepare;
      hits, misses, history := 0, 0, [];
    }

    /** Records one event, once the cache reflects it. */
    ghost method Extend(e: Event<T>)
      requires cache.Valid() && cache.maxSize == CACHE_SIZE
      requires cache.contents == Apply(Run(Ops(prepare, history), CACHE_SIZE), CACHE_SIZE, ToOp(prepare, e))
      modifies this`history
      ensures Valid() && history == old(history) + [e]
    {
      hide L.LruCache.Valid;
      var h := history + [e];
      assert h[..|h| - 1] == history;
      assert Ops(prepare, h)[..|h| - 1] == Ops(prepare, history);
      history := h;
    }

    method Insert(key: string, item: T, now: int)
      requires Valid()
      modifies this`history, cache, cache.live
      ensures Valid() && fresh(cache.live - old(cache.live))
      ensures history == old(history) + [InsertAt(key, item, now)]
    {
      hide Recency.Insert, L.LruCache.Valid;
      cache.Insert(key, CacheObject(prepare(item), now));
      Extend(InsertAt(key, item, now));
    }

    method Erase(key: string)
      requires Valid()
      modifies this`history, cache, cache.live
      ensures Valid() && cache.live <= old(cache.live)
      ensures history == old(history) + [EraseAt(key)]
    {
      hide Remove, L.LruCache.Valid;
      cache.Erase(key);
      Extend(EraseAt(key));
    }

    /** An expired entry is promoted like any other, but not served. What is served is what
        was last inserted under the key, not erased since and within its time to live. */
    method GetFromCache(id: string, now: int) returns (r: Option<T>)
      requires Valid()
      modifies this`history, cache, cache.live
      ensures Valid() && cache.live == old(cache.live)
      ensures history == old(history) + [ReadAt(id)]
      ensures r == Answer(Run(Ops(prepare, old(history)), CACHE_SIZE), id, now)
      ensures r.Some? ==>
                && Latest(old(history), id).Some?
                && r.value == prepare(Latest(old(history), id).value.item)
                && now - Latest(old(history), id).value.now <= TTL
    {
      hide Touch, Lookup, L.LruCache.Valid, Run, Latest;
      HitsAreNeverWrong(prepare, history, id, now);
      var item := cache.Get(id);
      Extend(ReadAt(id));
      if item.None? || now - item.value.made > TTL { return None; }
      return Some(item.value.item);
    }

    /** fetched is the API's answer, consulted only on a miss or when forced; later is the
        time at which it arrives. None is an error. A forced or missed get serves exactly
        what the API answered, and caches it. */
    method Get(id: string, force: bool, now: int, fetched: Option<T>, later: int) returns (r: Option<T>)
      requires Valid()
      modifies this, cache, cache.live
      ensures Valid() && fresh(cache.live - old(cache.live))
      ensures var cached := Answer(Run(Ops(prepare, old(history)), CACHE_SIZE), id, now);
              var hit := cached.Some? && !force;
              && r == (if hit then cached else fetched)
              && hits == old(hits) + (if hit then 1 else 0)
              && misses == old(misses) + (if hit then 0 else 1)
              && history == old(history) + [ReadAt(id)]
                            + (if hit || fetched.None? then [] else [InsertAt(id, fetched.value, later)])
    {
      hide Answer, Run, Latest, L.LruCache.Valid;
      var item := GetFromCache(id, now);
      if item.Some? && !force {
        hits := hits + 1;
        return item;
      }
      misses := misses + 1;
      if fetched.None? { return None; }
      Insert(id, fetched.value, later);
      return fetched;
    }
  }
}
