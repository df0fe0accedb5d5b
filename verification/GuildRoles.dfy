/** The roles of one guild: a set of known ids beside an LRU cache of role objects. */
module GuildRoles {
  import opened Wrappers
  import opened Recency
  import opened Inclusion
  import opened DiscordCache
  import FiniteSets
  import L = LruCache

  datatype Role = Role(id: string, name: string, position: int, permissions: string)

  type History = seq<Event<Role>>

  function Same(r: Role): Role { r }

  /** What the LRU cache of a guild with this history holds. */
  function Cached(h: History): seq<Entry<string, CacheObject<Role>>> {
    Run(Ops(Same, h), CACHE_SIZE)
  }

  /** Roles are inserted under their own id. */
  predicate WellFormed(h: History) {
    forall e :: e in h && e.InsertAt? ==> e.item.id == e.key
  }

  /** The ids inserted and not removed since. */
  function Known(h: History): set<string> {
    if h == [] then {}
    else
      var before := Known(h[..|h| - 1]);
      match h[|h| - 1]
      case InsertAt(key, _, _) => before + {key}
      case EraseAt(key) => before - {key}
      case ReadAt(_) => before
  }

  /** When the whole role list can be answered without the API: there is something to
      answer, and every known id is cached and fresh. */
  predicate Served(h: History, now: int) {
    Known(h) != {} && forall id :: id in Known(h) ==> Answer(Cached(h), id, now).Some?
  }

  lemma {:induction false} KnownIffLatest(h: History, id: string)
    ensures id in Known(h) <==> Latest(h, id).Some?
  {
    if h != [] {
      KnownIffLatest(h[..|h| - 1], id);
    }
  }

  /** In every run: only known ids are cached, each role sits under its own id and is the
      version last inserted, and there are at most a thousand of them. */
  lemma Coherence(h: History)
    requires WellFormed(h)
    ensures Distinct(Cached(h)) && Keys(Cached(h)) <= Known(h) && |Cached(h)| <= 1000
    ensures forall e :: e in Cached(h) ==>
              e.val.item.id == e.key && Latest(h, e.key) == Some(Insertion(e.val.item, e.val.made))
  {
    RunDistinct(Ops(Same, h), CACHE_SIZE);
    RunSize(Ops(Same, h), CACHE_SIZE);
    forall e | e in Cached(h)
      ensures e.key in Known(h) && e.val.item.id == e.key
      ensures Latest(h, e.key) == Some(Insertion(e.val.item, e.val.made))
    {
      LookupIs(Cached(h), e);
      CachedIsLatest(Same, h, CACHE_SIZE, e.key);
      KnownIffLatest(h, e.key);
      LatestOwnId(h, e.key);
    }
  }

  lemma {:induction false} LatestOwnId(h: History, id: string)
    requires WellFormed(h)
    ensures Latest(h, id).Some? ==> Latest(h, id).value.item.id == id
  {
    if h != [] {
      LatestOwnId(h[..|h| - 1], id);
    }
  }

  lemma {:induction false} RunSize<K, V>(ops: seq<Op<K, V>>, capacity: nat)
    requires capacity > 0
    ensures |Run(ops, capacity)| <= capacity
  {
    if ops != [] {
      var s := Run(ops[..|ops| - 1], capacity);
      RunSize(ops[..|ops| - 1], capacity);
      RunDistinct(ops[..|ops| - 1], capacity);
      match ops[|ops| - 1]
      case InsertOp(k, v) => InsertKeys(s, capacity, k, v);
      case GetOp(k) => TouchKeys(s, k);
      case EraseOp(k) => RemoveKeys(s, k);
    }
  }

  lemma CachedUnderOwnId(h: History, id: string)
    requires WellFormed(h)
    ensures Lookup(Cached(h), id).Some? ==> Lookup(Cached(h), id).value.item.id == id
  {
    CachedIsLatest(Same, h, CACHE_SIZE, id);
    LatestOwnId(h, id);
  }

  /** A guild with more than a thousand known roles is never served from the cache. */
  lemma TooManyRoles(h: History, now: int)
    requires WellFormed(h) && |Known(h)| > 1000
    ensures !Served(h, now)
  {
    if Served(h, now) {
      Coherence(h);
      forall id | id in Known(h) ensures id in Keys(Cached(h)) {
        assert Answer(Cached(h), id, now).Some?;
        HasIsKeys(Cached(h), id);
      }
      KeysSize(Cached(h));
      FiniteSets.SubsetSize(Known(h), Keys(Cached(h)));
    }
  }

  /** The guild has never had more than a thousand known roles. */
  ghost predicate NeverCrowded(h: History) {
    forall n :: 0 <= n <= |h| ==> |Known(h[..n])| <= 1000
  }

  lemma CachedStep(h: History)
    requires h != []
    ensures Cached(h) == Apply(Cached(h[..|h| - 1]), CACHE_SIZE, ToOp(Same, h[|h| - 1]))
    ensures Distinct(Cached(h[..|h| - 1]))
  {
    assert Ops(Same, h)[..|h| - 1] == Ops(Same, h[..|h| - 1]);
    RunDistinct(Ops(Same, h[..|h| - 1]), CACHE_SIZE);
  }

  lemma InsertFits<K, V>(s: seq<Entry<K, V>>, capacity: nat, k: K, v: V)
    requires Distinct(s) && |Keys(s) + {k}| <= capacity
    ensures Keys(Insert(s, capacity, k, v)) == Keys(s) + {k}
  {
    hide Keys, Distinct, Insert;
    InsertKeys(s, capacity, k, v);
    HasIsKeys(s, k);
    KeysSize(s);
  }

  /** As long as a guild has never had more than a thousand known roles, none of them has left
      the cache: eviction takes only what was removed or what does not fit. */
  lemma {:induction false} NothingLost(h: History)
    requires NeverCrowded(h)
    ensures Keys(Cached(h)) == Known(h)
  {
    if h != [] {
      var rest := h[..|h| - 1];
      assert NeverCrowded(rest) by {
        assert forall n :: 0 <= n <= |rest| ==> rest[..n] == h[..n];
      }
      NothingLost(rest);
      CachedStep(h);
      hide Run, Ops, Keys, Distinct, Insert, Remove, Touch;
      var s := Cached(rest);
      match h[|h| - 1]
      case InsertAt(k, item, now) =>
        assert h[..|h|] == h && |Known(h)| <= CACHE_SIZE;
        InsertFits(s, CACHE_SIZE, k, CacheObject(Same(item), now));
      case EraseAt(k) => RemoveKeys(s, k);
      case ReadAt(k) => TouchKeys(s, k);
    }
  }

  /** So cache and id set agree at every moment of a history if and only if the guild has never
      had more than a thousand known roles. */
  lemma AgreeIffNeverCrowded(h: History)
    requires WellFormed(h)
    ensures (forall n :: 0 <= n <= |h| ==> Keys(Cached(h[..n])) == Known(h[..n])) <==> NeverCrowded(h)
  {
    forall n | 0 <= n <= |h|
      ensures NeverCrowded(h) ==> Keys(Cached(h[..n])) == Known(h[..n])
      ensures Keys(Cached(h[..n])) == Known(h[..n]) ==> |Known(h[..n])| <= CACHE_SIZE
    {
      Coherence(h[..n]);
      KeysSize(Cached(h[..n]));
      if NeverCrowded(h) {
        assert forall m :: 0 <= m <= n ==> h[..n][..m] == h[..m];
        NothingLost(h[..n]);
      }
    }
  }

  /** An id of n characters. */
  function IdOfLength(n: nat): (id: string)
    ensures |id| == n
  {
    seq(n, i => '1')
  }

  /** Roles with ids of one to n characters, all inserted at time zero. */
  function Crowd(n: nat): History {
    if n == 0 then [] else Crowd(n - 1) + [InsertAt(IdOfLength(n), Role(IdOfLength(n), "", 0, ""), 0)]
  }

  lemma KnownInsert(h: History, id: string, role: Role, now: int)
    ensures Known(h + [InsertAt(id, role, now)]) == Known(h) + {id}
  {
    assert (h + [InsertAt(id, role, now)])[..|h|] == h;
  }

  lemma {:induction false} CrowdWellFormed(n: nat)
    ensures WellFormed(Crowd(n))
  {
    hide IdOfLength;
    if n > 0 {
      CrowdWellFormed(n - 1);
    }
  }

  lemma {:induction false} CrowdKnown(n: nat)
    ensures |Known(Crowd(n))| == n && forall id :: id in Known(Crowd(n)) ==> |id| <= n
  {
    hide IdOfLength, Known;
    if n == 0 {
      NobodyKnown();
    } else {
      CrowdKnown(n - 1);
      KnownInsert(Crowd(n - 1), IdOfLength(n), Role(IdOfLength(n), "", 0, ""), 0);
      OneMoreId(Known(Crowd(n - 1)), IdOfLength(n));
    }
  }

  lemma NobodyKnown()
    ensures Known([]) == {}
  {
  }

  lemma OneMoreId(ids: set<string>, id: string)
    requires forall x :: x in ids ==> |x| < |id|
    ensures |ids + {id}| == |ids| + 1 && forall x :: x in ids + {id} ==> |x| <= |id|
  {
    assert id !in ids;
  }

  /** With a thousand and one roles the cache has lost one and serves nothing, however fresh. */
  lemma CrowdedGuild(now: int)
    ensures var h := Crowd(1001);
            WellFormed(h) && !NeverCrowded(h) && Keys(Cached(h)) != Known(h) && !Served(h, now)
  {
    hide Crowd, Run, Ops;
    var h := Crowd(1001);
    CrowdWellFormed(1001);
    CrowdKnown(1001);
    TooManyRoles(h, now);
    Coherence(h);
    KeysSize(Cached(h));
    assert h[..|h|] == h;
  }

  /** Where it never happens, the role list is served without the API exactly when there is something to list
      and every known role was inserted within the time to live. */
  lemma ServedIff(h: History, now: int)
    requires NeverCrowded(h)
    ensures Served(h, now)
       <==> Known(h) != {} && forall id :: id in Known(h) ==>
              Latest(h, id).Some? && now - Latest(h, id).value.now <= 600_000_000_000
  {
    NothingLost(h);
    forall id | id in Known(h)
      ensures Latest(h, id).Some?
      ensures Answer(Cached(h), id, now).Some? <==> now - Latest(h, id).value.now <= TTL
    {
      HasIsKeys(Cached(h), id);
      CachedIsLatest(Same, h, CACHE_SIZE, id);
    }
  }

  /** Reading an id only promotes it: no answer and no known id changes. */
  lemma ReadKeeps(h: History, id: string, x: string)
    ensures Known(h + [ReadAt(id)]) == Known(h)
    ensures Lookup(Cached(h + [ReadAt(id)]), x) == Lookup(Cached(h), x)
  {
    var h' := h + [ReadAt(id)];
    assert h'[..|h'| - 1] == h;
    assert Ops(Same, h')[..|h'| - 1] == Ops(Same, h);
    RunDistinct(Ops(Same, h), CACHE_SIZE);
    TouchLookup(Cached(h), id, x);
  }

  /** The caches of two histories answer every key alike. */
  ghost predicate SameAnswers(h: History, h': History) {
    forall x :: Lookup(Cached(h'), x) == Lookup(Cached(h), x)
  }

  /** list holds, in some order, what the cache serves for each of ids. */
  ghost predicate Lists(h: History, now: int, list: seq<Role>, ids: set<string>) {
    && |list| == |ids|
    && (set x | x in list :: x.id) == ids
    && (forall x :: x in list ==> Answer(Cached(h), x.id, now) == Some(x))
  }

  lemma NothingListed(h: History, now: int, ids: set<string>)
    ensures SameAnswers(h, h) && Lists(h, now, [], ids - ids)
  {
    assert ids - ids == {};
  }

  lemma ListsOneMore(h: History, now: int, list: seq<Role>, ids: set<string>, todo: set<string>, id: string)
    requires WellFormed(h) && Lists(h, now, list, ids - todo) && id in todo && todo <= ids
    requires Answer(Cached(h), id, now).Some?
    ensures Lists(h, now, list + [Answer(Cached(h), id, now).value], ids - (todo - {id}))
  {
    hide Cached;
    CachedUnderOwnId(h, id);
    var role := Answer(Cached(h), id, now).value;
    assert (set x | x in list + [role] :: x.id) == (set x | x in list :: x.id) + {role.id};
    assert ids - (todo - {id}) == (ids - todo) + {id};
  }

  lemma ListsServed(h: History, now: int, list: seq<Role>)
    requires Lists(h, now, list, Known(h)) && Known(h) != {}
    ensures Served(h, now)
  {
    forall id | id in Known(h) ensures Answer(Cached(h), id, now).Some? {
      assert id in (set x | x in list :: x.id);
    }
  }

  lemma AnswersChain(h: History, h': History, h'': History, id: string)
    requires SameAnswers(h, h') && SameAnswers(h', h'')
    ensures SameAnswers(h, h'') && Lookup(Cached(h'), id) == Lookup(Cached(h), id)
  {
  }

  lemma AnswerIs(h: History, id: string, now: int)
    ensures id in Known(h) && Answer(Cached(h), id, now).None? ==> !Served(h, now)
    ensures var o := Lookup(Cached(h), id);
            Answer(Cached(h), id, now) == if o.Some? && now - o.value.made <= TTL then Some(o.value.item) else None
  {
  }

  function Reads(ids: seq<string>): History {
    if ids == [] then [] else Reads(ids[..|ids| - 1]) + [ReadAt(ids[|ids| - 1])]
  }

  lemma ReadsMore(h: History, ids: seq<string>, id: string)
    ensures Reads([]) == [] && h + [] == h
    ensures h + Reads(ids + [id]) == h + Reads(ids) + [ReadAt(id)]
  {
    assert (ids + [id])[..|ids|] == ids;
  }

  /** However many ids are looked at, in whatever order: no key comes or goes, and no answer
      changes. */
  lemma {:induction false} ReadsKeep(h: History, ids: seq<string>, x: string)
    ensures Known(h + Reads(ids)) == Known(h)
    ensures Keys(Cached(h + Reads(ids))) == Keys(Cached(h))
    ensures Lookup(Cached(h + Reads(ids)), x) == Lookup(Cached(h), x)
  {
    hide Lookup, Keys, Known;
    if ids == [] {
      assert h + Reads(ids) == h;
    } else {
      var init, id := ids[..|ids| - 1], ids[|ids| - 1];
      ReadsKeep(h, init, x);
      ReadsMore(h, init, id);
      assert ids == init + [id];
      var g := h + Reads(init);
      ReadKeeps(g, id, x);
      ReadKeys(g, id);
    }
  }

  lemma ReadKeys(h: History, id: string)
    ensures Keys(Cached(h + [ReadAt(id)])) == Keys(Cached(h))
  {
    hide Keys;
    var h' := h + [ReadAt(id)];
    assert h'[..|h'| - 1] == h;
    assert Ops(Same, h')[..|h'| - 1] == Ops(Same, h);
    RunDistinct(Ops(Same, h), CACHE_SIZE);
    TouchKeys(Cached(h), id);
  }

  function Inserts(roles: seq<Role>, now: int): (h: History)
    ensures WellFormed(h)
  {
    if roles == [] then []
    else Inserts(roles[..|roles| - 1], now) + [InsertAt(roles[|roles| - 1].id, roles[|roles| - 1], now)]
  }

  /** What a fetch adds to the history: nothing if it fails. */
  function Stored(fetched: Option<seq<Role>>, later: int): History {
    if fetched.None? then [] else Inserts(fetched.value, later)
  }

  /** A stored list adds one insertion a role, each under its own id at that moment. */
  lemma {:induction false} InsertsAre(roles: seq<Role>, now: int, i: nat)
    ensures |Inserts(roles, now)| == |roles|
    ensures i < |roles| ==> Inserts(roles, now)[i] == InsertAt(roles[i].id, roles[i], now)
  {
    if roles != [] {
      InsertsAre(roles[..|roles| - 1], now, i);
    }
  }

  /** The last role of a list with this id. */
  function LastWith(roles: seq<Role>, id: string): (r: Option<Role>)
    ensures r.None? ==> forall k :: 0 <= k < |roles| ==> roles[k].id != id
    ensures r.Some? ==> exists k :: 0 <= k < |roles| && roles[k] == r.value && r.value.id == id
                                    && forall m :: k < m < |roles| ==> roles[m].id != id
  {
    if roles == [] then None
    else if roles[|roles| - 1].id == id then Some(roles[|roles| - 1])
    else LastWith(roles[..|roles| - 1], id)
  }

  lemma LatestInsert(h: History, role: Role, now: int, id: string)
    ensures Latest(h + [InsertAt(role.id, role, now)], id)
         == if role.id == id then Some(Insertion(role, now)) else Latest(h, id)
  {
    assert (h + [InsertAt(role.id, role, now)])[..|h|] == h;
  }

  /** After a fetch, what counts as the latest version of a role in the answer is the last of its
      id there, as of now; roles not in the answer are as they were, and so are all of them
      after a fetch that failed. */
  lemma {:induction false} FetchStores(h: History, roles: seq<Role>, now: int, id: string)
    ensures h + Stored(None, now) == h
    ensures Latest(h + Stored(Some(roles), now), id)
         == match LastWith(roles, id)
            case Some(role) => Some(Insertion(role, now))
            case None => Latest(h, id)
  {
    hide Latest;
    if roles == [] {
      assert h + Inserts(roles, now) == h;
    } else {
      var init, last := roles[..|roles| - 1], roles[|roles| - 1];
      FetchStores(h, init, now, id);
      LatestInsert(h + Inserts(init, now), last, now, id);
      assert h + Inserts(roles, now) == h + Inserts(init, now) + [InsertAt(last.id, last, now)];
    }
  }

  class GuildRoleCache {
    var roles: set<string>
    const roleCache: L.LruCache<string, CacheObject<Role>>
    ghost var history: History

    ghost predicate Valid()
      reads this, roleCache, roleCache.nodes
    {
      && roleCache.Valid() && roleCache.maxSize == CACHE_SIZE
      && WellFormed(history)
      && roles == Known(history)
      && roleCache.contents == Cached(history)
    }

    constructor ()
      ensures Valid() && history == [] && fresh(roleCache) && roleCache.live == {}
    {
      roles, history := {}, [];
      roleCache := new L.LruCache(CACHE_SIZE);
    }

    method InsertGuildRole(role: Role, now: int)
      requires Valid()
      modifies this, roleCache, roleCache.live
      ensures Valid() && fresh(roleCache.live - old(roleCache.live))
      ensures history == old(history) + [InsertAt(role.id, role, now)]
    {
      hide L.LruCache.Valid, Recency.Insert, Distinct;
      roles := roles + {role.id};
      roleCache.Insert(role.id, CacheObject(role, now));
      Extend(InsertAt(role.id, role, now));
    }

    /** Records one event, once fields and cache reflect it. */
    ghost method Extend(e: Event<Role>)
      requires roleCache.Valid() && roleCache.maxSize == CACHE_SIZE
      requires WellFormed(history) && (e.InsertAt? ==> e.item.id == e.key)
      requires roles == Known(history + [e])
      requires roleCache.contents == Apply(Cached(history), CACHE_SIZE, ToOp(Same, e))
      modifies this`history
      ensures Valid() && history == old(history) + [e]
    {
      var h := history + [e];
      assert h[..|h| - 1] == history;
      assert Ops(Same, h)[..|h| - 1] == Ops(Same, history);
      history := h;
    }

    /** The loop over a list of roles that both the gateway and a fetch end in. */
    method InsertGuildRoles(list: seq<Role>, now: int)
      requires Valid()
      modifies this, roleCache, roleCache.live
      ensures Valid() && fresh(roleCache.live - old(roleCache.live))
      ensures history == old(history) + Inserts(list, now)
    {
      hide Valid;
      for i := 0 to |list|
        invariant Valid() && fresh(roleCache.live - old(roleCache.live))
        invariant history == old(history) + Inserts(list[..i], now)
      {
        InsertGuildRole(list[i], now);
        assert list[..i + 1][..i] == list[..i];
      }
      assert list[..|list|] == list;
    }

    method RemoveGuildRole(id: string)
      requires Valid()
      modifies this, roleCache, roleCache.live
      ensures Valid() && fresh(roleCache.live - old(roleCache.live))
      ensures history == old(history) + [EraseAt(id)]
    {
      hide L.LruCache.Valid, Remove, Distinct;
      roles := roles - {id};
      roleCache.Erase(id);
      Extend(EraseAt(id));
    }

    /** One lookup in the role cache. */
    method Read(id: string) returns (r: Option<CacheObject<Role>>)
      requires Valid()
      modifies this, roleCache, roleCache.live
      ensures Valid() && roleCache.live == old(roleCache.live)
      ensures history == old(history) + [ReadAt(id)] && roles == old(roles)
      ensures r == Lookup(Cached(old(history)), id)
      ensures SameAnswers(old(history), history)
    {
      hide L.LruCache.Valid, Touch, Lookup, Distinct;
      r := roleCache.Get(id);
      forall x ensures Lookup(Cached(history + [ReadAt(id)]), x) == Lookup(Cached(history), x) {
        ReadKeeps(history, id, x);
      }
      ReadKeeps(history, id, id);
      Extend(ReadAt(id));
    }

    /** fetched is the API's answer and arrives at `later`; None is an error. */
    method FetchGuildRoles(fetched: Option<seq<Role>>, later: int) returns (r: Option<seq<Role>>)
      requires Valid()
      modifies this, roleCache, roleCache.live
      ensures Valid() && fresh(roleCache.live - old(roleCache.live))
      ensures r == fetched
      ensures history == old(history) + Stored(fetched, later)
    {
      if fetched.None? {
        assert history + [] == history;
        return None;
      }
      InsertGuildRoles(fetched.value, later);
      return fetched;
    }

    /** The loop over the known ids: it stops at the first that is not cached or not
        fresh, so it gives a list exactly when there is none. */
    method CollectRoles(now: int) returns (r: Option<seq<Role>>, ghost touched: seq<string>)
      requires Valid() && roles != {}
      modifies this, roleCache, roleCache.live
      ensures Valid() && roleCache.live == old(roleCache.live)
      ensures history == old(history) + Reads(touched)
      ensures r.Some? <==> Served(old(history), now)
      ensures r.Some? ==> Lists(old(history), now, r.value, Known(old(history)))
    {
      assert WellFormed(history) && roles == Known(history);
      hide Valid, Cached, Lookup, Answer, Lists, SameAnswers, WellFormed, Served, Known, Reads;
      touched := [];
      ghost var h := history;
      var todo, list: seq<Role> := roles, [];
      NothingListed(h, now, roles);
      ReadsMore(h, [], "");
      while todo != {}
        invariant Valid() && roleCache.live == old(roleCache.live)
        invariant history == h + Reads(touched) && SameAnswers(h, history)
        invariant roles == Known(h) && todo <= roles && Lists(h, now, list, roles - todo)
        decreases |todo|
      {
        var a :| a in todo;
        ghost var before := history;
        var b := Read(a);
        AnswersChain(h, before, history, a);
        AnswerIs(h, a, now);
        ReadsMore(h, touched, a);
        touched := touched + [a];
        if b.None? || now - b.value.made > TTL { return None, touched; }
        ListsOneMore(h, now, list, roles, todo, a);
        list := list + [b.value.item];
        todo := todo - {a};
      }
      assert roles - {} == roles;
      ListsServed(h, now, list);
      r := Some(list);
    }

    lemma EmptyNotServed(now: int)
      requires Valid()
      ensures roles == {} ==> !Served(history, now)
    {
    }

    /** Serves the role list from the cache exactly when every known id is cached and
        fresh; then the list holds one role per known id, the version last inserted, in
        some order. Otherwise, or when forced, it fetches. `touched` are the ids looked at. */
    method GetGuildRoles(force: bool, now: int, fetched: Option<seq<Role>>, later: int)
      returns (r: Option<seq<Role>>, ghost touched: seq<string>)
      requires Valid()
      modifies this, roleCache, roleCache.live
      ensures Valid() && fresh(roleCache.live - old(roleCache.live))
      ensures !force && Served(old(history), now) ==>
                && r.Some? && Lists(old(history), now, r.value, Known(old(history)))
                && history == old(history) + Reads(touched)
      ensures force || !Served(old(history), now) ==>
                && r == fetched
                && history == old(history) + Reads(touched) + Stored(fetched, later)
    {
      EmptyNotServed(now);
      hide Valid, Cached, Stored, Lists, Served, Known, Reads;
      touched := [];
      ReadsMore(history, touched, "");
      if !force && roles != {} {
        r, touched := CollectRoles(now);
        if r.Some? { return; }
      }
      r := FetchGuildRoles(fetched, later);
    }

    /** A single role. A role that is not a known id is fetched without consulting the
        cache; the answer of a fetch is stored under its own id, whatever was asked for. */
    method GetGuildRole(roleId: string, force: bool, now: int, fetched: Option<Role>, later: int)
      returns (r: Option<Role>)
      requires Valid()
      modifies this, roleCache, roleCache.live
      ensures Valid() && fresh(roleCache.live - old(roleCache.live))
      ensures var cached := Answer(Cached(old(history)), roleId, now);
              var asked := !force && roleId in Known(old(history));
              && r == (if asked && cached.Some? then cached else fetched)
              && history == old(history) + (if asked then [ReadAt(roleId)] else [])
                            + (if (asked && cached.Some?) || fetched.None? then []
                               else [InsertAt(fetched.value.id, fetched.value, later)])
    {
      hide Cached, Known, Distinct, Find, WellFormed, L.LruCache.Valid;
      if !force && roleId in roles {
        var a := Read(roleId);
        if a.Some? && now - a.value.made <= TTL { return Some(a.value.item); }
      }
      if fetched.None? { return None; }
      InsertGuildRole(fetched.value, later);
      return fetched;
    }
  }

  /** Served or not, what a caller is given for an id from the cache is the version last
      inserted and not removed since, at most the time to live old. */
  lemma ServedIsCurrent(h: History, id: string, now: int)
    requires WellFormed(h)
    ensures var a := Answer(Cached(h), id, now);
            a.Some? ==>
              && id in Known(h) && a.value.id == id
              && Latest(h, id).Some? && Latest(h, id).value.item == a.value
              && now - Latest(h, id).value.now <= TTL
  {
    HitsAreNeverWrong(Same, h, id, now);
    KnownIffLatest(h, id);
    LatestOwnId(h, id);
  }
}
