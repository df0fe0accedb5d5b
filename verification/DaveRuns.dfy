/** What the DAVE session guarantees over whole runs. */
module ProposalCache {
  import opened Wrappers
  import opened Bytes
  import opened Mls
  import opened DaveSession
  import Snowflake

  // ----- revoking -----

  function Refs(cache: seq<ProposalData>): seq<seq<byte>> {
    if cache == [] then [] else [cache[0].ref] + Refs(cache[1..])
  }

  /** The cache without the proposals named in refs, in order. */
  function Survivors(cache: seq<ProposalData>, refs: seq<seq<byte>>): seq<ProposalData> {
    if cache == [] then []
    else (if cache[0].ref in refs then [] else [cache[0]]) + Survivors(cache[1..], refs)
  }

  function Count(refs: seq<seq<byte>>, r: seq<byte>): nat {
    multiset(refs)[r]
  }

  lemma CountCons(x: seq<byte>, s: seq<seq<byte>>, r: seq<byte>)
    ensures Count([x] + s, r) == Count(s, r) + (if x == r then 1 else 0)
    ensures Count(s + [x], r) == Count(s, r) + (if x == r then 1 else 0)
  {
    assert multiset([x] + s) == multiset{x} + multiset(s);
    assert multiset(s + [x]) == multiset(s) + multiset{x};
  }

  lemma CountNone(r: seq<byte>)
    ensures Count([], r) == 0
  {
  }

  lemma {:induction false} RemoveFirstCount(cache: seq<ProposalData>, ref: seq<byte>, r: seq<byte>)
    ensures Count(Refs(RemoveFirst(cache, ref)), r) ==
            (if r == ref && Count(Refs(cache), r) > 0 then Count(Refs(cache), r) - 1 else Count(Refs(cache), r))
  {
    if cache != [] {
      CountCons(cache[0].ref, Refs(cache[1..]), r);
      if cache[0].ref != ref {
        RemoveFirstCount(cache[1..], ref, r);
        CountCons(cache[0].ref, Refs(RemoveFirst(cache[1..], ref)), r);
        assert RemoveFirst(cache, ref)[1..] == RemoveFirst(cache[1..], ref);
      }
    }
  }

  /** Each revocation removes one occurrence while there is one. */
  lemma {:induction false} RemoveEachCount(cache: seq<ProposalData>, refs: seq<seq<byte>>, r: seq<byte>)
    ensures var had, revoked := Count(Refs(cache), r), Count(refs, r);
            Count(Refs(RemoveEach(cache, refs)), r) == if had > revoked then had - revoked else 0
  {
    CountNone(r);
    hide Count, RemoveFirst, Refs;
    if refs != [] {
      var init, x := refs[..|refs| - 1], refs[|refs| - 1];
      RemoveEachCount(cache, init, r);
      RemoveFirstCount(RemoveEach(cache, init), x, r);
      CountCons(x, init, r);
      assert refs == init + [x];
    }
  }

  lemma SurvivorsCons(d: ProposalData, cache: seq<ProposalData>, refs: seq<seq<byte>>)
    ensures Survivors([d] + cache, refs) == (if d.ref in refs then [] else [d]) + Survivors(cache, refs)
  {
    assert ([d] + cache)[1..] == cache;
  }

  lemma RemoveFirstCons(d: ProposalData, cache: seq<ProposalData>, ref: seq<byte>)
    ensures RemoveFirst([], ref) == []
    ensures RemoveFirst([d] + cache, ref) == if d.ref == ref then cache else [d] + RemoveFirst(cache, ref)
  {
    assert ([d] + cache)[1..] == cache;
  }

  lemma {:induction false} SurvivorsOfRemoveFirst(cache: seq<ProposalData>, ref: seq<byte>, refs: seq<seq<byte>>)
    requires ref in refs
    ensures Survivors(RemoveFirst(cache, ref), refs) == Survivors(cache, refs)
  {
    hide Survivors;
    if cache != [] {
      var d, rest := cache[0], cache[1..];
      assert cache == [d] + rest;
      RemoveFirstCons(d, rest, ref);
      SurvivorsCons(d, rest, refs);
      SurvivorsCons(d, RemoveFirst(rest, ref), refs);
      SurvivorsOfRemoveFirst(rest, ref, refs);
    }
  }

  lemma {:induction false} SurvivorsOfRemoveEach(cache: seq<ProposalData>, done: seq<seq<byte>>, refs: seq<seq<byte>>)
    requires forall r :: r in done ==> r in refs
    ensures Survivors(RemoveEach(cache, done), refs) == Survivors(cache, refs)
  {
    if done != [] {
      var init, x := done[..|done| - 1], done[|done| - 1];
      SurvivorsOfRemoveEach(cache, init, refs);
      assert x in refs;
      SurvivorsOfRemoveFirst(RemoveEach(cache, init), x, refs);
    }
  }

  lemma {:induction false} SurvivorsCount(cache: seq<ProposalData>, refs: seq<seq<byte>>, r: seq<byte>)
    ensures r in refs ==> Count(Refs(Survivors(cache, refs)), r) == 0
  {
    if cache != [] {
      SurvivorsCount(cache[1..], refs, r);
      if cache[0].ref !in refs {
        assert Survivors(cache, refs)[1..] == Survivors(cache[1..], refs);
        CountCons(cache[0].ref, Refs(Survivors(cache[1..], refs)), r);
      } else {
        assert Survivors(cache, refs) == Survivors(cache[1..], refs);
      }
    }
  }

  lemma {:induction false} NothingRevoked(cache: seq<ProposalData>, refs: seq<seq<byte>>)
    requires forall r :: r in refs ==> Count(Refs(cache), r) == 0
    ensures Survivors(cache, refs) == cache
  {
    if cache != [] {
      forall r | r in refs ensures Count(Refs(cache[1..]), r) == 0 && cache[0].ref != r {
        CountCons(cache[0].ref, Refs(cache[1..]), r);
      }
      NothingRevoked(cache[1..], refs);
    }
  }

  /** The nested revoke loop leaves exactly the cached proposals not named in the message,
      in their order, if and only if no revoked reference is cached more often than it is
      revoked. */
  lemma RevokeIsFilter(cache: seq<ProposalData>, refs: seq<seq<byte>>)
    ensures RemoveEach(cache, refs) == Survivors(cache, refs)
       <==> forall r :: r in refs ==> Count(Refs(cache), r) <= Count(refs, r)
  {
    var left := RemoveEach(cache, refs);
    forall r | r in refs
      ensures left == Survivors(cache, refs) ==> Count(Refs(cache), r) <= Count(refs, r)
      ensures Count(Refs(cache), r) <= Count(refs, r) ==> Count(Refs(left), r) == 0
    {
      RemoveEachCount(cache, refs, r);
      SurvivorsCount(cache, refs, r);
    }
    if forall r :: r in refs ==> Count(Refs(cache), r) <= Count(refs, r) {
      NothingRevoked(left, refs);
      SurvivorsOfRemoveEach(cache, refs, refs);
    }
  }

  /** In particular when no two cached proposals share a reference. */
  lemma DistinctRefsRevoke(cache: seq<ProposalData>, refs: seq<seq<byte>>)
    requires forall i, j :: 0 <= i < j < |cache| ==> cache[i].ref != cache[j].ref
    ensures RemoveEach(cache, refs) == Survivors(cache, refs)
  {
    forall r | r in refs ensures Count(Refs(cache), r) <= Count(refs, r) {
      AtMostOnce(cache, r);
      assert r in multiset(refs);
    }
    RevokeIsFilter(cache, refs);
  }

  lemma {:induction false} AtMostOnce(cache: seq<ProposalData>, r: seq<byte>)
    requires forall i, j :: 0 <= i < j < |cache| ==> cache[i].ref != cache[j].ref
    ensures Count(Refs(cache), r) <= 1
    ensures Count(Refs(cache), r) > 0 ==> exists i :: 0 <= i < |cache| && cache[i].ref == r
  {
    if cache != [] {
      AtMostOnce(cache[1..], r);
      CountCons(cache[0].ref, Refs(cache[1..]), r);
      if Count(Refs(cache[1..]), r) > 0 {
        var i :| 0 <= i < |cache[1..]| && cache[1..][i].ref == r;
        assert cache[i + 1].ref == r;
      }
      if cache[0].ref == r { assert cache[0].ref == r; }
    }
  }

  /** A proposal delivered twice and revoked once stays: the loop stops at the first match. */
  lemma DuplicateSurvives(p: ProposalData)
    ensures RemoveEach([p, p], [p.ref]) == [p] && Survivors([p, p], [p.ref]) == []
  {
    assert RemoveEach([p, p], []) == [p, p];
    assert [p, p][1..] == [p] && Survivors([p], [p.ref]) == [];
  }

  // ----- what the commit state stands for -----

  function Contents(cache: seq<ProposalData>): seq<Content> {
    if cache == [] then [] else Contents(cache[..|cache| - 1]) + [cache[|cache| - 1].content]
  }

  lemma {:induction false} ContentsLength(cache: seq<ProposalData>)
    ensures |Contents(cache)| == |cache|
  {
    if cache != [] {
      ContentsLength(cache[..|cache| - 1]);
    }
  }

  lemma {:induction false} ContentsConcat(a: seq<ProposalData>, b: seq<ProposalData>)
    ensures Contents(a + b) == Contents(a) + Contents(b)
  {
    if b == [] {
      assert a + b == a;
    } else {
      assert (a + b)[..|a + b| - 1] == a + b[..|b| - 1];
      ContentsConcat(a, b[..|b| - 1]);
    }
  }

  lemma {:induction false} ReplayHandles(lib: Library, base: State, cache: seq<ProposalData>)
    ensures Replay(lib, base, cache).cache == cache
    ensures Replay(lib, base, cache).ok ==>
              Replay(lib, base, cache).commit == base.(handled := base.handled + Contents(cache))
  {
    if cache != [] {
      ReplayHandles(lib, base, cache[..|cache| - 1]);
    }
  }

  /** The answer commits to the commit state: what was cached is the state after that commit,
      and the bytes sent are the opcode 28, the commit, and the welcome if it welcomes anyone. */
  ghost predicate AnsweredWith(lib: Library, s: Session, a: Answer, secret: nat) {
    s.commit.Some? &&
    var out := lib.commit(s.commit.value, secret);
    && out.Some? && s.cached == Some(out.value.next)
    && a.Sends? && a.reply.CommitWelcome?
    && a.reply.bytes == [28] + out.value.commit + (if out.value.welcomes > 0 then out.value.welcome else [])
  }

  /** After a revoke that is answered, the cache holds what survived, the commit state is the
      base with exactly the survivors handled, in order, and the answer commits to that. */
  lemma RevokeRebuilds(lib: Library, s: Session, refs: seq<seq<byte>>, secret: nat)
    requires s.pending.Some? || s.current.Some?
    ensures var o := ProcessProposals(lib, s, Revoke(Some(refs)), secret);
            && o.state.cache == RemoveEach(s.cache, refs)
            && (o.answer.Sends? ==>
                 && o.state.commit == Some(Base(s).(handled := Base(s).handled + Contents(o.state.cache)))
                 && AnsweredWith(lib, o.state, o.answer, secret))
  {
    ReplayHandles(lib, Base(s), RemoveEach(s.cache, refs));
  }

  /** One more message adds at most its own proposal, and only a valid one. */
  lemma AcceptOne(lib: Library, users: set<nat>, q: Progress, m: Message)
    ensures var r := Accept(lib, users, q, m);
            && (r.cache == q.cache
                || (&& |r.cache| == |q.cache| + 1 && r.cache[..|q.cache|] == q.cache
                    && IsValidProposal(users, r.cache[|q.cache|].content)
                    && r.cache[|q.cache|].ref == lib.ref(r.cache[|q.cache|].content)))
            && (r.ok ==> q.ok && |r.cache| == |q.cache| + 1
                         && r.commit == Handle(q.commit, r.cache[|q.cache|].content))
  {
    hide IsValidProposal;
  }

  /** A replay handles the cache from the front, up to the first proposal that the state throws
      on; what it handled is what the commit state has beyond the base. */
  lemma {:induction false} ReplayStops(lib: Library, base: State, cache: seq<ProposalData>)
    ensures var p := Replay(lib, base, cache);
            exists n: nat :: n <= |cache| && p.commit == base.(handled := base.handled + Contents(cache[..n]))
              && (p.ok <==> n == |cache|) && (n < |cache| ==> !lib.accepts(p.commit, cache[n].content))
  {
    ReplayHandles(lib, base, cache);
    assert cache[..|cache|] == cache;
    if cache != [] && !Replay(lib, base, cache).ok {
      var init := cache[..|cache| - 1];
      ReplayStops(lib, base, init);
      ReplayHandles(lib, base, init);
      var p := Replay(lib, base, init);
      var n: nat :| n <= |init| && p.commit == base.(handled := base.handled + Contents(init[..n]))
                    && (p.ok <==> n == |init|) && (n < |init| ==> !lib.accepts(p.commit, init[n].content));
      assert init[..n] == cache[..n];
    }
  }

  /** What accepting messages adds: proposals that were valid, at the end of the cache. */
  lemma {:induction false} AcceptedAreValid(lib: Library, users: set<nat>, p: Progress, messages: seq<Message>)
    requires p.ok
    ensures var q := AcceptAll(lib, users, p, messages);
            && |q.cache| >= |p.cache| && q.cache[..|p.cache|] == p.cache
            && (forall i :: |p.cache| <= i < |q.cache| ==>
                  IsValidProposal(users, q.cache[i].content) && q.cache[i].ref == lib.ref(q.cache[i].content))
            && (q.ok ==> q.commit == p.commit.(handled := p.commit.handled + Contents(q.cache[|p.cache|..]))
                         && |q.cache| == |p.cache| + |messages|)
  {
    hide IsValidProposal, Accept;
    if messages != [] {
      var init, m := messages[..|messages| - 1], messages[|messages| - 1];
      AcceptedAreValid(lib, users, p, init);
      var q := AcceptAll(lib, users, p, init);
      var r := Accept(lib, users, q, m);
      AcceptOne(lib, users, q, m);
      if r.ok {
        var n := |p.cache|;
        assert r.cache[n..][..|r.cache| - n - 1] == q.cache[n..];
      }
    }
  }

  /** r is what becomes of q at a message that is not taken in: one that does not unwrap or is
      not permitted leaves everything as it is, one that the state throws on is cached. */
  ghost predicate StopsWith(lib: Library, users: set<nat>, q: Progress, m: Message, r: Progress) {
    var c := lib.unwrap(q.commit, m);
    if c.None? || !Permitted(users, c.value) then r == q.(ok := false)
    else
      && !lib.accepts(q.commit, c.value)
      && r == Progress(q.commit, q.cache + [ProposalData(c.value, lib.ref(c.value))], false)
  }

  /** An append that is not taken in whole stops at one message: everything before it has been
      cached and handled, and nothing behind it is looked at. */
  lemma {:induction false} AppendStops(lib: Library, users: set<nat>, p: Progress, messages: seq<Message>)
    requires p.ok && !AcceptAll(lib, users, p, messages).ok
    ensures exists n: nat :: n < |messages| && AcceptAll(lib, users, p, messages[..n]).ok
              && StopsWith(lib, users, AcceptAll(lib, users, p, messages[..n]), messages[n],
                           AcceptAll(lib, users, p, messages))
  {
    var k := |messages| - 1;
    var init := messages[..k];
    if AcceptAll(lib, users, p, init).ok {
      var q := AcceptAll(lib, users, p, init);
      assert StopsWith(lib, users, q, messages[k], AcceptAll(lib, users, p, messages));
    } else {
      AppendStops(lib, users, p, init);
      var n: nat :| n < |init| && AcceptAll(lib, users, p, init[..n]).ok
                    && StopsWith(lib, users, AcceptAll(lib, users, p, init[..n]), init[n],
                                 AcceptAll(lib, users, p, init));
      assert init[..n] == messages[..n];
    }
  }

  lemma AcceptLeaves(lib: Library, users: set<nat>, p: Progress, messages: seq<Message>)
    requires p.ok
    ensures var q := AcceptAll(lib, users, p, messages);
            && |q.cache| >= |p.cache| && q.cache[..|p.cache|] == p.cache
            && var added := q.cache[|p.cache|..];
               exists n: nat :: n <= |messages| && n <= |added| <= n + 1
                 && q.commit == p.commit.(handled := p.commit.handled + Contents(added[..n]))
                 && (|added| == n + 1 ==> n < |messages| && !lib.accepts(q.commit, added[n].content))
  {
    hide IsValidProposal, Permitted, Accept, AcceptAll, Contents;
    AcceptedAreValid(lib, users, p, messages);
    var q := AcceptAll(lib, users, p, messages);
    var added := q.cache[|p.cache|..];
    assert added[..|added|] == added;
    if !q.ok {
      AppendStops(lib, users, p, messages);
      var n: nat :| n < |messages| && AcceptAll(lib, users, p, messages[..n]).ok
                    && StopsWith(lib, users, AcceptAll(lib, users, p, messages[..n]), messages[n], q);
      AcceptedAreValid(lib, users, p, messages[..n]);
      assert AcceptAll(lib, users, p, messages[..n]).cache[|p.cache|..] == added[..n];
    }
  }

  /** Whether it is answered or not, an append leaves in the commit state the base with the first n
      proposals it added; they are all it added, except that one the state threw on is cached
      behind them. */
  lemma AppendLeaves(lib: Library, s: Session, messages: seq<Message>, secret: nat)
    requires s.pending.Some? || s.current.Some?
    ensures var t := ProcessProposals(lib, s, Append(Some(messages)), secret).state;
            && |t.cache| >= |s.cache| && t.cache[..|s.cache|] == s.cache
            && var added := t.cache[|s.cache|..];
               exists n: nat :: n <= |messages| && n <= |added| <= n + 1
                 && t.commit == Some(Base(s).(handled := Base(s).handled + Contents(added[..n])))
                 && (|added| == n + 1 ==> n < |messages| && !lib.accepts(t.commit.value, added[n].content))
  {
    hide AcceptAll, Contents;
    AcceptLeaves(lib, s.users, Progress(Base(s), s.cache, true), messages);
  }

  /** After an append that is answered, the commit state is the base with only this message's
      proposals: it stands for the whole cache if and only if the cache was empty before. The
      answer commits to it. */
  lemma AppendCoversCache(lib: Library, s: Session, messages: seq<Message>, secret: nat)
    requires s.pending.Some? || s.current.Some?
    requires ProcessProposals(lib, s, Append(Some(messages)), secret).answer.Sends?
    ensures var o := ProcessProposals(lib, s, Append(Some(messages)), secret);
            var s' := o.state;
            && AnsweredWith(lib, s', o.answer, secret)
            && |s'.cache| == |s.cache| + |messages| && s'.cache[..|s.cache|] == s.cache
            && s'.commit == Some(Base(s).(handled := Base(s).handled + Contents(s'.cache[|s.cache|..])))
            && (s'.commit == Some(Base(s).(handled := Base(s).handled + Contents(s'.cache))) <==> s.cache == [])
  {
    AcceptedAreValid(lib, s.users, Progress(Base(s), s.cache, true), messages);
    var s' := ProcessProposals(lib, s, Append(Some(messages)), secret).state;
    var added := s'.cache[|s.cache|..];
    assert s'.cache == s.cache + added;
    ContentsConcat(s.cache, added);
    ContentsLength(s.cache);
    var h := Base(s).handled;
    if h + Contents(added) == h + Contents(s'.cache) {
      assert |h + Contents(added)| == |h| + |Contents(added)|;
      assert |Contents(s'.cache)| == |Contents(added)|;
    }
  }

  // ----- over runs -----

  /** Every cached proposal came from the gateway, carries its own reference, and is an add
      or a remove; and a commit state is there whenever one could be asked for. */
  ghost predicate CacheOk(lib: Library, s: Session) {
    && (forall d :: d in s.cache ==> IsGatewayProposal(d.content) && d.ref == lib.ref(d.content))
    && (s.cache != [] || s.cached.Some? ==> s.commit.Some?)
  }

  lemma {:induction false} RemoveEachSubset(cache: seq<ProposalData>, refs: seq<seq<byte>>)
    ensures forall d :: d in RemoveEach(cache, refs) ==> d in cache
  {
    if refs != [] {
      RemoveEachSubset(cache, refs[..|refs| - 1]);
      RemoveFirstSubset(RemoveEach(cache, refs[..|refs| - 1]), refs[|refs| - 1]);
    }
  }

  lemma {:induction false} RemoveFirstSubset(cache: seq<ProposalData>, ref: seq<byte>)
    ensures forall d :: d in RemoveFirst(cache, ref) ==> d in cache
  {
    if cache != [] {
      RemoveFirstSubset(cache[1..], ref);
    }
  }

  /** The session enters a new epoch, or starts over. */
  predicate ChangesEpoch(lib: Library, s: Session, e: Event)
    requires Defined(lib, s, e)
  {
    (e.PrepareEpoch? && e.epoch == 1) ||
    ((e.AnnounceCommit? || e.Welcome?) &&
      var a := Step(lib, s, e).answer; a.Silent? || (a.Sends? && a.reply.Ready?))
  }

  /** What a proposal must be to be taken in: sent by the gateway, and a remove, or an add of
      somebody in the call. */
  predicate Permitted(users: set<nat>, c: Content) {
    && c.sender == External && c.body.Proposal?
    && (|| c.body.kind == Remove
        || (c.body.kind.Add? && c.body.kind.credential.Basic?
            && Snowflake.IdOf(c.body.kind.credential.identity) in users))
  }

  lemma PermittedIsValid(users: set<nat>, c: Content)
    ensures IsValidProposal(users, c) <==> Permitted(users, c)
  {
  }

  /** Where a cached proposal can come from: it was there before the step, or the step is an
      append under whose users it is permitted. */
  lemma StepCaches(lib: Library, s: Session, e: Event, d: ProposalData)
    requires Defined(lib, s, e) && d in Step(lib, s, e).state.cache
    ensures !ChangesEpoch(lib, s, e)
    ensures d in s.cache || (&& e.Proposals? && e.payload.Append?
                             && Permitted(s.users, d.content) && d.ref == lib.ref(d.content))
  {
    if e.Proposals? {
      match e.payload
      case Revoke(Some(refs)) =>
        ReplayHandles(lib, Base(s), RemoveEach(s.cache, refs));
        RemoveEachSubset(s.cache, refs);
      case Append(Some(messages)) =>
        AcceptedAreValid(lib, s.users, Progress(Base(s), s.cache, true), messages);
        var cache := Step(lib, s, e).state.cache;
        var i :| 0 <= i < |cache| && cache[i] == d;
        if i < |s.cache| { assert cache[..|s.cache|][i] == d; }
      case _ =>
    }
  }

  lemma StepKeepsCacheOk(lib: Library, s: Session, e: Event)
    requires Defined(lib, s, e) && CacheOk(lib, s)
    ensures CacheOk(lib, Step(lib, s, e).state)
  {
    forall d | d in Step(lib, s, e).state.cache ensures IsGatewayProposal(d.content) && d.ref == lib.ref(d.content) {
      StepCaches(lib, s, e, d);
    }
  }

  /** Event j is an append that brought in the proposal, permitted to the users of that moment;
      since then up to i it has stayed in the cache, and the session has accepted no commit
      and no welcome and has not started over. */
  ghost predicate ArrivedAt(lib: Library, events: seq<Event>, states: seq<Session>, d: ProposalData, j: nat, i: nat)
    requires i <= |events| < |states|
    requires forall k :: 0 <= k < |events| ==> Defined(lib, states[k], events[k])
  {
    && j < i && events[j].Proposals? && events[j].payload.Append?
    && Permitted(states[j].users, d.content) && d.ref == lib.ref(d.content)
    && d !in states[j].cache && (forall k :: j < k <= i ==> d in states[k].cache)
    && forall k :: j <= k < i ==> !ChangesEpoch(lib, states[k], events[k])
  }

  /** In every run, every cached proposal was brought in by an append, valid for the users of
      that moment, and has been cached since, with no commit or welcome accepted and no reset;
      and commit states are where they are needed. */
  lemma {:induction false} CacheTheorem(
      lib: Library, events: seq<Event>, states: seq<Session>, answers: seq<Answer>, i: nat)
    requires IsRun(lib, events, states, answers) && i <= |events|
    ensures CacheOk(lib, states[i])
    ensures forall d :: d in states[i].cache ==> exists j: nat :: ArrivedAt(lib, events, states, d, j, i)
  {
    hide Step, Defined, ChangesEpoch, Permitted;
    if i > 0 {
      CacheTheorem(lib, events, states, answers, i - 1);
      hide CacheOk;
      var s, e := states[i - 1], events[i - 1];
      assert Step(lib, s, e) == Outcome(states[i], answers[i - 1]);
      StepKeepsCacheOk(lib, s, e);
      forall d | d in states[i].cache ensures exists j: nat :: ArrivedAt(lib, events, states, d, j, i) {
        StepCaches(lib, s, e, d);
        if d in s.cache {
          var j: nat :| ArrivedAt(lib, events, states, d, j, i - 1);
          assert ArrivedAt(lib, events, states, d, j, i);
        } else {
          assert ArrivedAt(lib, events, states, d, i - 1, i);
        }
      }
    }
  }

  // ----- when a commit can be taken -----

  predicate IsAnswer(a: Answer) {
    a.Sends? && a.reply.CommitWelcome?
  }

  /** What a step does to the two states a commit is checked and handled with, and that only
      proposals and a new epoch touch the cache. */
  lemma StepReadies(lib: Library, s: Session, e: Event)
    requires Defined(lib, s, e)
    ensures var o, lasts := Step(lib, s, e), !ChangesEpoch(lib, s, e);
            && (o.state.commit.Some? <==>
                  lasts && (s.commit.Some? || (e.Proposals? && e.payload != Revoke(None))))
            && (o.state.cached.Some? <==> lasts && (s.cached.Some? || IsAnswer(o.answer)))
            && (lasts && !IsAnswer(o.answer) ==> o.state.cached == s.cached)
            && (lasts && !e.Proposals? ==> o.state.commit == s.commit && o.state.cache == s.cache)
            && (!lasts ==> o.state.cache == [])
            && (IsAnswer(o.answer) ==> e.Proposals? && AnsweredWith(lib, o.state, o.answer, e.secret))
  {
    hide AcceptAll, Replay, RemoveEach;
  }

  /** Event j was a proposals message that parsed as far as the commit state needs. */
  ghost predicate ProposedAt(lib: Library, events: seq<Event>, states: seq<Session>, j: nat, i: nat)
    requires i <= |events| < |states|
    requires forall k :: 0 <= k < |events| ==> Defined(lib, states[k], events[k])
  {
    && j < i && events[j].Proposals? && events[j].payload != Revoke(None)
    && forall k :: j <= k < i ==> !ChangesEpoch(lib, states[k], events[k])
  }

  /** Event j was a proposals message answered with a commit to the commit state it left. */
  ghost predicate AnsweredAt(
      lib: Library, events: seq<Event>, states: seq<Session>, answers: seq<Answer>, j: nat, i: nat)
    requires i <= |events| < |states| && |answers| == |events|
    requires forall k :: 0 <= k < |events| ==> Defined(lib, states[k], events[k])
  {
    && j < i && events[j].Proposals? && IsAnswer(answers[j])
    && AnsweredWith(lib, states[j + 1], answers[j], events[j].secret)
    && forall k :: j <= k < i ==> !ChangesEpoch(lib, states[k], events[k])
  }

  /** In every run there is a commit state exactly if the epoch that still lasts has seen
      proposals, and a cached state exactly if it has answered some with a commit. */
  lemma {:induction false} CommitReadiness(
      lib: Library, events: seq<Event>, states: seq<Session>, answers: seq<Answer>, i: nat)
    requires IsRun(lib, events, states, answers) && i <= |events|
    ensures states[i].commit.Some? <==> exists j: nat :: ProposedAt(lib, events, states, j, i)
    ensures states[i].cached.Some? <==> exists j: nat :: AnsweredAt(lib, events, states, answers, j, i)
  {
    hide Step, Defined, ChangesEpoch, AnsweredWith;
    if i > 0 {
      var h: nat := i - 1;
      CommitReadiness(lib, events, states, answers, h);
      var s, e := states[h], events[h];
      assert Step(lib, s, e) == Outcome(states[i], answers[h]);
      StepReadies(lib, s, e);
      if j: nat :| ProposedAt(lib, events, states, j, h) {
        assert !ChangesEpoch(lib, s, e) ==> ProposedAt(lib, events, states, j, i);
      }
      if j: nat :| AnsweredAt(lib, events, states, answers, j, h) {
        assert !ChangesEpoch(lib, s, e) ==> AnsweredAt(lib, events, states, answers, j, i);
      }
      if j: nat :| ProposedAt(lib, events, states, j, i) {
        assert j < h ==> ProposedAt(lib, events, states, j, h);
      }
      if j: nat :| AnsweredAt(lib, events, states, answers, j, i) {
        assert j < h ==> AnsweredAt(lib, events, states, answers, j, h);
      }
      assert !ChangesEpoch(lib, s, e) && e.Proposals? && e.payload != Revoke(None) ==>
          ProposedAt(lib, events, states, h, i);
      assert !ChangesEpoch(lib, s, e) && IsAnswer(answers[h]) ==> AnsweredAt(lib, events, states, answers, h, i);
    }
  }

  /** In every run the cached state is the one after the commit that was answered last. */
  lemma {:induction false} CachedIsLastAnswer(
      lib: Library, events: seq<Event>, states: seq<Session>, answers: seq<Answer>, i: nat)
    requires IsRun(lib, events, states, answers) && i <= |events| && states[i].cached.Some?
    ensures exists j: nat ::
              && AnsweredAt(lib, events, states, answers, j, i) && states[i].cached == states[j + 1].cached
              && forall k :: j < k < i ==> !IsAnswer(answers[k])
  {
    hide Step, Defined, ChangesEpoch, AnsweredWith;
    if i > 0 {
      var h: nat := i - 1;
      assert Step(lib, states[h], events[h]) == Outcome(states[i], answers[h]);
      StepReadies(lib, states[h], events[h]);
      if IsAnswer(answers[h]) {
        assert AnsweredAt(lib, events, states, answers, h, i);
      } else {
        CachedIsLastAnswer(lib, events, states, answers, h);
        var j: nat :| AnsweredAt(lib, events, states, answers, j, h) && states[h].cached == states[j + 1].cached
                      && forall k :: j < k < h ==> !IsAnswer(answers[k]);
        assert AnsweredAt(lib, events, states, answers, j, i);
      }
    }
  }

  predicate IsCommitFor(lib: Library, s: Session, message: Message) {
    s.commit.Some? &&
    var c := lib.unwrap(s.commit.value, message);
    c.Some? && IsValidCommit(c.value)
  }

  /** So an announced commit dereferences nothing absent if and only if the lasting epoch has
      seen proposals and, where the message is a valid commit, answered some. */
  lemma CommitGuard(
      lib: Library, events: seq<Event>, states: seq<Session>, answers: seq<Answer>, i: nat, id: nat, message: Message)
    requires IsRun(lib, events, states, answers) && i <= |events|
    ensures Defined(lib, states[i], AnnounceCommit(id, message))
       <==> && (exists j: nat :: ProposedAt(lib, events, states, j, i))
            && (IsCommitFor(lib, states[i], message) ==>
                  exists j: nat :: AnsweredAt(lib, events, states, answers, j, i))
  {
    CommitReadiness(lib, events, states, answers, i);
  }
}

/** The handshake around a transition. */
module TransitionSafety {
  import opened Wrappers
  import opened Mls
  import opened DaveSession

  predicate IsReady(a: Answer) {
    a.Sends? && a.reply.Ready?
  }

  /** An execute that takes effect. */
  predicate Executes(s: Session, e: Event) {
    e.ExecuteTransition? && Known(s, e.executeId)
  }

  /** The event that leaves t prepared, which it acknowledges: an announced transition, prepared
      as announced, or an accepted commit or welcome, prepared towards version 1. */
  predicate Prepares(e: Event, a: Answer, t: TransitionInfo) {
    && a == Sends(Ready(t.transitionId))
    && match e
       case PrepareTransition(id, version) => t == TransitionInfo(id, version)
       case AnnounceCommit(id, _) => t == TransitionInfo(id, 1)
       case Welcome(id, _) => t == TransitionInfo(id, 1)
       case _ => false
  }

  /** j acknowledged id, and up to i nothing was acknowledged or executed after it. */
  ghost predicate OpenSince(events: seq<Event>, states: seq<Session>, answers: seq<Answer>, j: nat, i: nat, id: int)
    requires |answers| == |events| < |states| && i <= |events|
  {
    && j < i && answers[j] == Sends(Ready(id))
    && forall k :: j < k < i ==> !IsReady(answers[k]) && !Executes(states[k], events[k])
  }

  /** Announcing transition zero only forgets what is prepared. */
  predicate Cancels(e: Event) {
    e.PrepareTransition? && e.id == 0
  }

  /** What one step does to the prepared transition. */
  lemma StepTransition(lib: Library, s: Session, e: Event)
    requires Defined(lib, s, e)
    ensures var o := Step(lib, s, e);
            && (IsReady(o.answer) ==> o.answer.reply.id != 0 && o.state.transition.Some?
                                      && Prepares(e, o.answer, o.state.transition.value))
            && (Executes(s, e) ==> o.state.transition.None? && o.answer == Silent)
            && (!IsReady(o.answer) ==>
                  o.state.transition == if Executes(s, e) || Cancels(e) then None else s.transition)
  {
    hide AcceptAll, Replay, RemoveEach;
  }

  /** In every run, a prepared transition has a non-zero id, was prepared by the event that
      acknowledged it, with the version that event calls for, and nothing has been acknowledged
      or executed since. */
  lemma {:induction false} PreparedIsOpen(
      lib: Library, events: seq<Event>, states: seq<Session>, answers: seq<Answer>, i: nat)
    requires IsRun(lib, events, states, answers) && i <= |events|
    ensures states[i].transition.Some? ==>
              var id := states[i].transition.value.transitionId;
              id != 0 && exists j: nat ::
                && OpenSince(events, states, answers, j, i, id)
                && Prepares(events[j], answers[j], states[i].transition.value)
  {
    hide Step, Defined;
    if i > 0 && states[i].transition.Some? {
      var id := states[i].transition.value.transitionId;
      PreparedIsOpen(lib, events, states, answers, i - 1);
      assert Step(lib, states[i - 1], events[i - 1]) == Outcome(states[i], answers[i - 1]);
      StepTransition(lib, states[i - 1], events[i - 1]);
      if IsReady(answers[i - 1]) {
        assert OpenSince(events, states, answers, i - 1, i, id);
      } else {
        var j: nat :| OpenSince(events, states, answers, j, i - 1, id)
                      && Prepares(events[j], answers[j], states[i].transition.value);
        assert OpenSince(events, states, answers, j, i, id);
      }
    }
  }

  /** And it stays prepared: until something else is acknowledged, or it is executed or cancelled,
      the transition is the one that event j prepared. */
  lemma {:induction false} StaysPrepared(
      lib: Library, events: seq<Event>, states: seq<Session>, answers: seq<Answer>, j: nat, i: nat)
    requires IsRun(lib, events, states, answers) && i <= |events| && j < i && IsReady(answers[j])
    requires OpenSince(events, states, answers, j, i, answers[j].reply.id)
    requires forall k :: j < k < i ==> !Cancels(events[k])
    ensures states[i].transition.Some? && Prepares(events[j], answers[j], states[i].transition.value)
  {
    hide Step, Defined;
    assert Step(lib, states[i - 1], events[i - 1]) == Outcome(states[i], answers[i - 1]);
    StepTransition(lib, states[i - 1], events[i - 1]);
    if j < i - 1 {
      StaysPrepared(lib, events, states, answers, j, i - 1);
    }
  }

  /** Every executed transition was acknowledged before, and was not executed in between. */
  lemma ExecutedWasAcknowledged(lib: Library, events: seq<Event>, states: seq<Session>, answers: seq<Answer>, i: nat)
    requires IsRun(lib, events, states, answers) && i < |events| && Executes(states[i], events[i])
    ensures events[i].executeId != 0
    ensures exists j: nat :: OpenSince(events, states, answers, j, i, events[i].executeId)
  {
    PreparedIsOpen(lib, events, states, answers, i);
  }

  /** No acknowledgement is executed twice: between two executions there is a fresh
      acknowledgement of the second one's id. */
  lemma ExecutedOnce(lib: Library, events: seq<Event>, states: seq<Session>, answers: seq<Answer>, i1: nat, i2: nat)
    requires IsRun(lib, events, states, answers) && i1 < i2 < |events|
    requires Executes(states[i1], events[i1]) && Executes(states[i2], events[i2])
    ensures exists j :: i1 < j < i2 && answers[j] == Sends(Ready(events[i2].executeId))
  {
    ExecutedWasAcknowledged(lib, events, states, answers, i2);
    var j: nat :| OpenSince(events, states, answers, j, i2, events[i2].executeId);
    assert Step(lib, states[i1], events[i1]) == Outcome(states[i1 + 1], answers[i1]);
    StepTransition(lib, states[i1], events[i1]);
  }

  /** Naming a transition that is not prepared changes nothing and is not answered. */
  lemma UnknownIdsChangeNothing(lib: Library, s: Session, id: int)
    requires !Known(s, id)
    ensures Defined(lib, s, ExecuteTransition(id)) && Step(lib, s, ExecuteTransition(id)) == Outcome(s, Silent)
  {
  }

  /** An executed transition to the protocol leaves encryption on and, if there is a group,
      keyed from it; one to version zero leaves it off. */
  lemma ExecuteSwitches(lib: Library, s: Session, id: int)
    requires Known(s, id) && CanExecute(s, id)
    ensures var s' := Step(lib, s, ExecuteTransition(id)).state;
            && s'.transition.None? && s'.current == s.current && s'.cache == s.cache
            && (s.transition.value.protocolVersion != 0 ==>
                 && s'.encryptor.Some? && !s'.encryptor.value.passthrough
                 && (s.current.Some? ==> s'.encryptor.value.keyed == s.current.value))
            && (s.transition.value.protocolVersion == 0 && s'.encryptor.Some? ==> s'.encryptor.value.passthrough)
  {
  }

  /** A transition that the gateway announces and then executes, in a session with an encryptor,
      ends with media passed through if and only if it was announced to version zero, and
      otherwise with media keyed from the current state, if there is one. */
  lemma AnnouncedAndExecuted(lib: Library, s: Session, id: int, version: int)
    requires id != 0 && s.encryptor.Some?
    ensures var o := Step(lib, s, PrepareTransition(id, version));
            && o.answer == Sends(Ready(id)) && Defined(lib, o.state, ExecuteTransition(id))
            && var t, was := Step(lib, o.state, ExecuteTransition(id)).state, s.encryptor.value;
               && t.transition.None? && t.current == s.current && t.encryptor.Some?
               && (t.encryptor.value.passthrough <==> version == 0)
               && (version == 0 || s.current.None? ==>
                     t.encryptor.value.keyed == was.keyed && t.encryptor.value.counters == was.counters)
               && (version != 0 && s.current.Some? ==> t.encryptor.value.keyed == s.current.value)
  {
  }

  /** An execute that names the prepared transition can be carried out exactly when the
      transition is to version zero or creating an encryptor leaves one in place. */
  lemma ExecuteGuard(lib: Library, s: Session, id: int)
    requires Known(s, id)
    ensures Defined(lib, s, ExecuteTransition(id))
       <==> (s.transition.value.protocolVersion == 0 || DaveSession.CreateEncryptor(s).encryptor.Some?)
  {
  }

  /** Executing dereferences an absent encryptor when a transition is prepared before the
      session has been in any group: already the second event of a session. */
  lemma ExecuteBeforeGroup(lib: Library, user: nat, id: int, version: int)
    requires id != 0 && version != 0
    ensures var e := PrepareTransition(id, version);
            && Defined(lib, Init(user), e)
            && !Defined(lib, Step(lib, Init(user), e).state, ExecuteTransition(id))
  {
  }

  /** The same happens to a transition prepared before a reset, which keeps it. */
  lemma ExecuteAfterReset(lib: Library, s: Session, seed: nat)
    requires s.sender.Some? && s.transition.Some?
    ensures var s' := Step(lib, s, PrepareEpoch(1, seed)).state;
            && s'.transition == s.transition
            && (Defined(lib, s', ExecuteTransition(s.transition.value.transitionId)) <==>
                  s.transition.value.protocolVersion == 0)
  {
  }
}

/** The check of a welcome against the users known to be in the call. */
module WelcomeCheck {
  import opened Wrappers
  import opened Bytes
  import opened FiniteSets
  import opened Mls
  import opened DaveSession
  import Snowflake

  predicate AllBasic(roster: seq<Credential>) {
    forall c :: c in roster ==> c.Basic?
  }

  function Ids(roster: seq<Credential>): seq<nat>
    requires AllBasic(roster)
  {
    if roster == [] then [] else [Snowflake.IdOf(roster[0].identity)] + Ids(roster[1..])
  }

  function AsSet(ids: seq<nat>): set<nat> {
    set id | id in ids
  }

  predicate NoRepeats(ids: seq<nat>) {
    forall i, j :: 0 <= i < j < |ids| ==> ids[i] != ids[j]
  }

  lemma {:induction false} IdsAre(roster: seq<Credential>)
    requires AllBasic(roster)
    ensures |Ids(roster)| == |roster|
    ensures forall i :: 0 <= i < |roster| ==> Ids(roster)[i] == Snowflake.IdOf(roster[i].identity)
  {
    if roster != [] {
      IdsAre(roster[1..]);
    }
  }

  lemma {:induction false} SetSize(ids: seq<nat>)
    ensures |AsSet(ids)| <= |ids|
    ensures |AsSet(ids)| == |ids| <==> NoRepeats(ids)
  {
    if ids == [] {
      assert AsSet(ids) == {};
    } else {
      var rest := ids[1..];
      SetSize(rest);
      assert AsSet(ids) == {ids[0]} + AsSet(rest);
      if ids[0] in rest {
        var i :| 0 <= i < |rest| && rest[i] == ids[0];
        assert ids[i + 1] == ids[0];
        assert AsSet(ids) == AsSet(rest);
      } else {
        assert ids[0] !in AsSet(rest);
        assert NoRepeats(rest) ==> NoRepeats(ids);
      }
      assert NoRepeats(ids) ==> NoRepeats(rest) by {
        assert forall i :: 0 <= i < |rest| ==> rest[i] == ids[i + 1];
      }
    }
  }

  /** The walk over the roster comes to credential i, which is no member's. */
  predicate StopsAt(roster: seq<Credential>, users: set<nat>, i: nat) {
    i < |roster| && !IsMember(users, roster[i]) && forall j :: 0 <= j < i ==> IsMember(users, roster[j])
  }

  lemma {:induction false} VerdictAtStop(roster: seq<Credential>, users: set<nat>, i: nat)
    requires StopsAt(roster, users, i)
    ensures RosterVerdict(roster, users) == if roster[i].OtherCredential? then Threw else Rejected
  {
    if i > 0 {
      assert IsMember(users, roster[0]);
      VerdictAtStop(roster[1..], users, i - 1);
    }
  }

  lemma {:induction false} VerdictUnlessStopped(roster: seq<Credential>, users: set<nat>)
    ensures RosterVerdict(roster, users) == Accepted <==> forall c :: c in roster ==> IsMember(users, c)
    ensures RosterVerdict(roster, users) != Accepted ==> exists i: nat :: StopsAt(roster, users, i)
  {
    if roster != [] {
      VerdictUnlessStopped(roster[1..], users);
      assert roster == [roster[0]] + roster[1..];
      if !IsMember(users, roster[0]) {
        assert StopsAt(roster, users, 0);
      } else if RosterVerdict(roster[1..], users) != Accepted {
        var i: nat :| StopsAt(roster[1..], users, i);
        assert StopsAt(roster, users, i + 1) by {
          assert forall j :: 0 < j < i + 1 ==> roster[j] == roster[1..][j - 1];
        }
      }
    }
  }

  /** The walk accepts if every credential is a member's. Otherwise it ends at the first that
      is not, and throws if that one is not a basic credential. */
  lemma RosterVerdictIs(roster: seq<Credential>, users: set<nat>)
    ensures RosterVerdict(roster, users) == Accepted <==> forall c :: c in roster ==> IsMember(users, c)
    ensures RosterVerdict(roster, users) == Threw
       <==> exists i: nat :: StopsAt(roster, users, i) && roster[i].OtherCredential?
  {
    VerdictUnlessStopped(roster, users);
    forall i: nat | StopsAt(roster, users, i)
      ensures RosterVerdict(roster, users) == if roster[i].OtherCredential? then Threw else Rejected
    {
      VerdictAtStop(roster, users, i);
    }
  }

  /** A group is accepted exactly when it is valid. The check throws exactly when everything
      that is looked at before the roster is in order and the walk over the roster comes to
      a credential that is not a basic one. */
  lemma WelcomeVerdictIs(g: Group, users: set<nat>, sender: Option<ExternalSender>)
    ensures WelcomeVerdict(g, users, sender) == Accepted <==> IsValidWelcome(g, users, sender)
    ensures WelcomeVerdict(g, users, sender) == Threw
       <==> && IsValidWelcome(g.(roster := []), {}, sender) && |g.roster| == |users|
            && exists i: nat :: StopsAt(g.roster, users, i) && g.roster[i].OtherCredential?
  {
    RosterVerdictIs(g.roster, users);
  }

  /** In a group that passes the check, the members are exactly the expected users if and
      only if no id occurs twice in the roster. */
  lemma AcceptedRoster(g: Group, users: set<nat>, sender: Option<ExternalSender>)
    requires IsValidWelcome(g, users, sender)
    ensures AllBasic(g.roster)
    ensures AsSet(Ids(g.roster)) == users <==> NoRepeats(Ids(g.roster))
  {
    assert AllBasic(g.roster);
    IdsAre(g.roster);
    SetSize(Ids(g.roster));
    forall id | id in AsSet(Ids(g.roster)) ensures id in users {
      var i :| 0 <= i < |g.roster| && Ids(g.roster)[i] == id;
      assert g.roster[i] in g.roster;
    }
    SubsetSize(AsSet(Ids(g.roster)), users);
  }

  /** A group that passes although an expected user is missing: one member is there twice. */
  lemma RepeatedMemberPasses()
    ensures var twice := Basic(ToBE(1, 8));
            && IsValidWelcome(Group(1, Some([[7]]), [twice, twice]), {1, 2}, Some([7]))
            && Ids([twice, twice]) == [1, 1] && 2 !in AsSet(Ids([twice, twice]))
  {
    Snowflake.IdRoundTrip(1);
    var twice := Basic(ToBE(1, 8));
    IdsAre([twice, twice]);
    assert |{1, 2}| == 2;
  }

  /** And a group whose members are the expected users, each once, passes the roster part. */
  lemma ExactRosterPasses(g: Group, users: set<nat>)
    requires AllBasic(g.roster) && AsSet(Ids(g.roster)) == users && NoRepeats(Ids(g.roster))
    ensures |g.roster| == |users| && RosterVerdict(g.roster, users) == Accepted
  {
    IdsAre(g.roster);
    SetSize(Ids(g.roster));
    forall c | c in g.roster ensures IsMember(users, c) {
      var i :| 0 <= i < |g.roster| && g.roster[i] == c;
      assert Ids(g.roster)[i] in Ids(g.roster);
    }
    RosterVerdictIs(g.roster, users);
  }
}

/** How a group comes to be current. */
module CurrentGroup {
  import opened Wrappers
  import opened Mls
  import opened DaveSession
  import Snowflake
  import WelcomeCheck

  /** An accepted commit led to g, by a message that is a commit, with every proposal in it
      given by reference. */
  predicate CommittedTo(lib: Library, s: Session, e: Event, a: Answer, g: State) {
    && e.AnnounceCommit? && s.commit.Some? && s.cached.Some? && !a.Throws?
    && lib.handleCommit(s.commit.value, e.message, s.cached.value) == Some(g)
    && var c := lib.unwrap(s.commit.value, e.message);
       c.Some? && c.value.body.Commit? && false !in c.value.body.byReference
  }

  /** A welcome led to g: its one extension names the sender of that moment as the only one who
      may send from outside, and its members are as many as the users, each one of them. */
  predicate WelcomedTo(lib: Library, s: Session, e: Event, g: State) {
    && e.Welcome? && s.keyPackage.Some? && lib.join(s.keyPackage.value, e.welcome) == Some(g)
    && var group := lib.group(g);
       && group.extensions == 1 && s.sender.Some? && group.senders == Some([s.sender.value])
       && |group.roster| == |s.users|
       && forall c :: c in group.roster ==> c.Basic? && Snowflake.IdOf(c.identity) in s.users
  }

  /** What ends the stay in a group without another: starting over, and a rejected welcome. */
  predicate Leaves(e: Event, a: Answer) {
    (e.PrepareEpoch? && e.epoch == 1) || (e.Welcome? && a.Sends? && a.reply.Invalid?)
  }

  predicate Enters(e: Event, a: Answer) {
    (e.AnnounceCommit? || e.Welcome?) && (a.Silent? || (a.Sends? && a.reply.Ready?))
  }

  lemma CurrentStep(lib: Library, s: Session, e: Event)
    requires Defined(lib, s, e) && !Step(lib, s, e).answer.Throws?
    ensures var o := Step(lib, s, e);
            && (Enters(e, o.answer) ==>
                 o.state.current.Some? && (CommittedTo(lib, s, e, o.answer, o.state.current.value)
                                           || WelcomedTo(lib, s, e, o.state.current.value)))
            && (!Enters(e, o.answer) ==> o.state.current == if Leaves(e, o.answer) then None else s.current)
  {
    if e.Welcome? {
      var joined := lib.join(s.keyPackage.value, e.welcome);
      if joined.Some? {
        var group := lib.group(joined.value);
        WelcomeCheck.WelcomeVerdictIs(group, s.users, s.sender);
        assert group.senders.Some? && |group.senders.value| == 1 ==>
            group.senders.value == [group.senders.value[0]];
      }
    }
  }

  /** The group was entered before i, and has been current since. */
  ghost predicate EnteredAt(
      lib: Library, events: seq<Event>, states: seq<Session>, answers: seq<Answer>, g: State, j: nat, i: nat)
    requires i <= |events| < |states| && |answers| == |events|
  {
    && j < i
    && (CommittedTo(lib, states[j], events[j], answers[j], g) || WelcomedTo(lib, states[j], events[j], g))
    && forall k :: j < k <= i ==> states[k].current == Some(g)
  }

  /** In every run, every group that an event finds current, and that is current at the end
      unless a handler threw, was entered by an accepted commit or by a welcome, and then it
      passed the check for the users and the sender of that moment. */
  lemma {:induction false} EnteredBy(
      lib: Library, events: seq<Event>, states: seq<Session>, answers: seq<Answer>, i: nat)
    requires IsRun(lib, events, states, answers) && i <= |events| && states[i].current.Some?
    requires i < |events| || i == 0 || !answers[i - 1].Throws?
    ensures exists j: nat :: EnteredAt(lib, events, states, answers, states[i].current.value, j, i)
  {
    hide Step, Defined, CommittedTo, WelcomedTo;
    if i > 0 {
      var s, e, g := states[i - 1], events[i - 1], states[i].current.value;
      assert Step(lib, s, e) == Outcome(states[i], answers[i - 1]);
      CurrentStep(lib, s, e);
      if !Enters(e, answers[i - 1]) {
        EnteredBy(lib, events, states, answers, i - 1);
        var j: nat :| EnteredAt(lib, events, states, answers, g, j, i - 1);
        assert EnteredAt(lib, events, states, answers, g, j, i);
      } else {
        assert EnteredAt(lib, events, states, answers, g, i - 1, i);
      }
    }
  }
}
