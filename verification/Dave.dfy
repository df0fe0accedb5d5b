/** The DAVE session object: handlers that update its fields in place, each proved to take
    the step DaveSession.dfy describes. */
module DaveObject {
  import opened Wrappers
  import opened Bytes
  import opened Mls
  import opened DaveSession
  import ProposalCache
  import Rotation
  import Snowflake

  class Dave {
    var currentState: Option<State>
    var pendingState: Option<State>
    var cachedState: Option<State>
    var commitState: Option<State>
    var transitionInfo: Option<TransitionInfo>
    var proposalCache: seq<ProposalData>
    var users: set<nat>
    var externalSender: Option<ExternalSender>
    var keyPackage: Option<KeyPackage>
    var encryptor: Option<EncryptorInfo>
    const lib: Library

    function View(): Session
      reads this
    {
      Session(currentState, pendingState, cachedState, commitState, transitionInfo, proposalCache, users,
              externalSender, keyPackage, encryptor)
    }

    constructor (user: nat, lib: Library)
      ensures View() == Init(user) && this.lib == lib
    {
      currentState, pendingState, cachedState, commitState := None, None, None, None;
      transitionInfo, proposalCache, users := None, [], {user};
      externalSender, keyPackage, encryptor := None, None, None;
      this.lib := lib;
    }

    // ----- proposals -----

    /** Walks the cache and erases the first entry with this reference. */
    method EraseFirst(ref: seq<byte>)
      modifies this`proposalCache
      ensures proposalCache == RemoveFirst(old(proposalCache), ref)
    {
      hide RemoveFirst;
      var it := 0;
      FirstFrom(proposalCache, 0, ref);
      while it < |proposalCache|
        invariant it <= |proposalCache| && proposalCache == old(proposalCache)
        invariant RemoveFirst(proposalCache, ref) == proposalCache[..it] + RemoveFirst(proposalCache[it..], ref)
      {
        FirstFrom(proposalCache, it, ref);
        if ref == proposalCache[it].ref {
          proposalCache := proposalCache[..it] + proposalCache[it + 1..];
          return;
        }
        it := it + 1;
      }
      FirstFrom(proposalCache, it, ref);
    }

    method RevokeAll(revokes: seq<seq<byte>>)
      modifies this`proposalCache
      ensures proposalCache == RemoveEach(old(proposalCache), revokes)
    {
      for i := 0 to |revokes|
        invariant proposalCache == RemoveEach(old(proposalCache), revokes[..i])
      {
        EraseFirst(revokes[i]);
        assert revokes[..i + 1][..i] == revokes[..i];
      }
      assert revokes[..|revokes|] == revokes;
    }

    /** Hands the cache to the commit state; ok is false when a call throws. */
    method ReplayAll() returns (ok: bool)
      requires commitState.Some?
      modifies this`commitState
      ensures commitState.Some?
      ensures Replay(lib, old(commitState.value), proposalCache) == Progress(commitState.value, proposalCache, ok)
    {
      for i := 0 to |proposalCache|
        invariant commitState.Some?
        invariant Replay(lib, old(commitState.value), proposalCache[..i])
                  == Progress(commitState.value, proposalCache[..i], true)
      {
        assert proposalCache[..i + 1][..i] == proposalCache[..i];
        if !lib.accepts(commitState.value, proposalCache[i].content) {
          ReplayStuck(lib, old(commitState.value), proposalCache, i + 1);
          return false;
        }
        commitState := Some(Handle(commitState.value, proposalCache[i].content));
      }
      assert proposalCache[..|proposalCache|] == proposalCache;
      return true;
    }

    /** Unwraps, checks, caches and handles one message after the other; ok is false when
        one is refused or a call throws. */
    method AcceptMessages(messages: seq<Message>) returns (ok: bool)
      requires commitState.Some?
      modifies this`commitState, this`proposalCache
      ensures commitState.Some?
      ensures AcceptAll(lib, users, Progress(old(commitState.value), old(proposalCache), true), messages)
              == Progress(commitState.value, proposalCache, ok)
    {
      ghost var start := Progress(commitState.value, proposalCache, true);
      for i := 0 to |messages|
        invariant commitState.Some?
        invariant AcceptAll(lib, users, start, messages[..i]) == Progress(commitState.value, proposalCache, true)
      {
        assert messages[..i + 1][..i] == messages[..i];
        var msg := lib.unwrap(commitState.value, messages[i]);
        if msg.None? || !IsValidProposal(users, msg.value) {
          AcceptStuck(lib, users, start, messages, i + 1);
          return false;
        }
        proposalCache := proposalCache + [ProposalData(msg.value, lib.ref(msg.value))];
        if !lib.accepts(commitState.value, msg.value) {
          AcceptStuck(lib, users, start, messages, i + 1);
          return false;
        }
        commitState := Some(Handle(commitState.value, msg.value));
      }
      assert messages[..|messages|] == messages;
      return true;
    }

    method ProcessProposals(payload: ProposalsPayload, secret: nat) returns (a: Answer)
      requires Defined(lib, View(), Proposals(payload, secret))
      modifies this
      ensures Outcome(View(), a) == Step(lib, old(View()), Proposals(payload, secret))
    {
      var ok: bool;
      if payload.Revoke? {
        if payload.refs.None? { return Silent; }
        RevokeAll(payload.refs.value);
        commitState := if pendingState.Some? then pendingState else currentState;
        ProposalCache.ReplayHandles(lib, commitState.value, proposalCache);
        ok := ReplayAll();
      } else {
        commitState := if pendingState.Some? then pendingState else currentState;
        if payload.messages.None? { return Silent; }
        ok := AcceptMessages(payload.messages.value);
      }
      if !ok { return Silent; }
      var committed := lib.commit(commitState.value, secret);
      if committed.None? { return Silent; }
      cachedState := Some(committed.value.next);
      return Sends(CommitWelcome(Marshal(committed.value)));
    }

    // ----- epochs and transitions -----

    method CreateEncryptor()
      modifies this`encryptor
      ensures View() == DaveSession.CreateEncryptor(old(View()))
    {
      if currentState.None? { return; }
      if encryptor.None? {
        encryptor := Some(EncryptorInfo(currentState.value, false, Rotation.FRESH));
      } else {
        encryptor := Some(encryptor.value.(keyed := currentState.value, counters := Rotation.FRESH));
      }
    }

    /** The common end of an accepted commit and an accepted welcome. */
    method EnterEpoch(id: nat) returns (a: Answer)
      requires currentState.Some?
      modifies this
      ensures Outcome(View(), a) == DaveSession.EnterEpoch(old(View()), old(currentState.value), id)
    {
      cachedState, commitState, pendingState, proposalCache := None, None, None, [];
      if id != 0 {
        transitionInfo := Some(TransitionInfo(id, DAVE_VERSION));
        return Sends(Ready(id));
      }
      CreateEncryptor();
      return Silent;
    }

    method ProcessCommitTransition(id: nat, message: Message) returns (a: Answer)
      requires Defined(lib, View(), AnnounceCommit(id, message))
      modifies this
      ensures Outcome(View(), a) == Step(lib, old(View()), AnnounceCommit(id, message))
    {
      var msg := lib.unwrap(commitState.value, message);
      if msg.None? { return Throws; }
      if !IsValidCommit(msg.value) { return Sends(Invalid(id)); }
      var state := lib.handleCommit(commitState.value, message, cachedState.value);
      if state.None? { return Throws; }
      currentState := state;
      a := EnterEpoch(id);
    }

    /** The checks on a group just joined, in the order of the source; Threw stands for the
        exception of a credential that holds no identity. */
    method IsValidWelcomeState() returns (verdict: Verdict)
      requires currentState.Some?
      requires var g := lib.group(currentState.value);
               g.extensions == 1 ==> g.senders.Some? && (|g.senders.value| == 1 ==> externalSender.Some?)
      ensures verdict == WelcomeVerdict(lib.group(currentState.value), users, externalSender)
    {
      var g := lib.group(currentState.value);
      if g.extensions != 1 { return Rejected; }
      if |g.senders.value| != 1 { return Rejected; }
      if g.senders.value[0] != externalSender.value { return Rejected; }
      if |g.roster| != |users| { return Rejected; }
      assert g.roster[0..] == g.roster;
      for i := 0 to |g.roster|
        invariant RosterVerdict(g.roster[i..], users) == RosterVerdict(g.roster, users)
      {
        assert g.roster[i..][1..] == g.roster[i + 1..];
        if g.roster[i].OtherCredential? { return Threw; }
        var snowflake := Snowflake.SnowflakeFromCredential(g.roster[i].identity);
        if snowflake !in users { return Rejected; }
      }
      return Accepted;
    }

    method ProcessWelcome(id: nat, welcome: Message) returns (a: Answer)
      requires Defined(lib, View(), Welcome(id, welcome))
      modifies this
      ensures Outcome(View(), a) == Step(lib, old(View()), Welcome(id, welcome))
    {
      var joined := lib.join(keyPackage.value, welcome);
      if joined.None? { return Throws; }
      currentState := joined;
      var verdict := IsValidWelcomeState();
      if verdict == Threw { return Throws; }
      if verdict == Rejected {
        currentState := None;
        return Sends(Invalid(id));
      }
      a := EnterEpoch(id);
    }

    method PrepareTransition(id: int, version: int) returns (a: Answer)
      modifies this`transitionInfo
      ensures Outcome(View(), a) == Step(lib, old(View()), Event.PrepareTransition(id, version))
    {
      transitionInfo := Some(TransitionInfo(id, version));
      if transitionInfo.value.transitionId == 0 {
        transitionInfo := None;
        return Silent;
      }
      return Sends(Ready(transitionInfo.value.transitionId));
    }

    method ExecuteTransition(id: int) returns (a: Answer)
      requires Defined(lib, View(), Event.ExecuteTransition(id))
      modifies this
      ensures Outcome(View(), a) == Step(lib, old(View()), Event.ExecuteTransition(id))
    {
      a := Silent;
      if transitionInfo.None? || id != transitionInfo.value.transitionId { return; }
      if transitionInfo.value.protocolVersion == 0 {
        if encryptor.Some? {
          encryptor := Some(encryptor.value.(passthrough := true));
        }
      } else {
        CreateEncryptor();
        encryptor := Some(encryptor.value.(passthrough := false));
      }
      transitionInfo := None;
    }

    /** The prepared transition is not part of what a reset forgets. */
    method Reset()
      modifies this
      ensures View() == DaveSession.Reset(old(View()))
    {
      encryptor, currentState, commitState, cachedState, pendingState := None, None, None, None, None;
      proposalCache := [];
    }

    method GetKeyPackagePayload(seed: nat) returns (a: Answer)
      modifies this`keyPackage
      ensures Outcome(View(), a) == Step(lib, old(View()), SendKeyPackage(seed))
    {
      keyPackage := Some(lib.newKeyPackage(seed));
      return Sends(Package(keyPackage.value));
    }

    method PrepareEpoch(epoch: int, seed: nat) returns (a: Answer)
      requires Defined(lib, View(), Event.PrepareEpoch(epoch, seed))
      modifies this
      ensures Outcome(View(), a) == Step(lib, old(View()), Event.PrepareEpoch(epoch, seed))
    {
      if epoch != 1 { return Silent; }
      Reset();
      pendingState := Some(lib.newGroup(externalSender.value, seed));
      a := GetKeyPackagePayload(seed);
    }

    method ProcessExternalSender(sender: ExternalSender, seed: nat) returns (a: Answer)
      modifies this
      ensures Outcome(View(), a) == Step(lib, old(View()), SetExternalSender(sender, seed))
    {
      externalSender := Some(sender);
      pendingState := Some(lib.newGroup(sender, seed));
      return Silent;
    }

    method AddUsers(ids: seq<nat>) returns (a: Answer)
      modifies this`users
      ensures Outcome(View(), a) == Step(lib, old(View()), Event.AddUsers(ids))
    {
      for i := 0 to |ids|
        invariant users == old(users) + (set id | id in ids[..i])
      {
        users := users + {ids[i]};
        assert ids[..i + 1] == ids[..i] + [ids[i]];
      }
      assert ids[..|ids|] == ids;
      return Silent;
    }

    method RemoveUsers(ids: seq<nat>) returns (a: Answer)
      modifies this`users
      ensures Outcome(View(), a) == Step(lib, old(View()), Event.RemoveUsers(ids))
    {
      for i := 0 to |ids|
        invariant users == old(users) - (set id | id in ids[..i])
      {
        users := users - {ids[i]};
        assert ids[..i + 1] == ids[..i] + [ids[i]];
      }
      assert ids[..|ids|] == ids;
      return Silent;
    }

    // ----- media -----

    /** What the voice thread does for each packet; ok is what sealing comes to. */
    method EncryptFrame(ok: bool) returns (a: Answer)
      modifies this`encryptor
      ensures Outcome(View(), a) == Step(lib, old(View()), Event.EncryptFrame(ok))
    {
      if currentState.None? || encryptor.None? { return Silent; }
      if encryptor.value.passthrough { return Silent; }
      var counters := Rotation.Rotate(encryptor.value.counters);
      encryptor := Some(encryptor.value.(counters := counters));
      if !ok { return Silent; }
      a := Emits(Use(encryptor.value.keyed, Rotation.AsUInt32(counters.generation), counters.nonce));
      encryptor := Some(encryptor.value.(counters := counters.(nonce := (counters.nonce + 1) % TWO32)));
    }

    // ----- the gateway's side -----

    /** Whatever arrives reaches its handler. */
    method Receive(e: Event) returns (a: Answer)
      requires Defined(lib, View(), e)
      modifies this
      ensures Outcome(View(), a) == Step(lib, old(View()), e)
    {
      hide Step, Defined;
      match e
      case SetExternalSender(sender, seed) => a := ProcessExternalSender(sender, seed);
      case PrepareEpoch(epoch, seed) => a := this.PrepareEpoch(epoch, seed);
      case Proposals(payload, secret) => a := ProcessProposals(payload, secret);
      case AnnounceCommit(id, message) => a := ProcessCommitTransition(id, message);
      case Welcome(id, welcome) => a := ProcessWelcome(id, welcome);
      case PrepareTransition(id, version) => a := this.PrepareTransition(id, version);
      case ExecuteTransition(id) => a := this.ExecuteTransition(id);
      case AddUsers(joined) => a := this.AddUsers(joined);
      case RemoveUsers(left) => a := this.RemoveUsers(left);
      case SendKeyPackage(seed) => a := GetKeyPackagePayload(seed);
      case EncryptFrame(ok) => a := this.EncryptFrame(ok);
    }

    /** A session fed events from its creation on goes through a run, for as long as no
        handler throws and the events come when the source can take them. */
    method Serve(events: seq<Event>, ghost user: nat)
      returns (served: nat, ghost states: seq<Session>, ghost answers: seq<Answer>)
      requires View() == Init(user)
      modifies this
      ensures served <= |events| && IsRun(lib, events[..served], states, answers) && states[served] == View()
      ensures || served == |events| || !Defined(lib, View(), events[served])
              || (served > 0 && answers[served - 1].Throws?)
    {
      hide Step, Defined;
      served, states, answers := 0, [View()], [];
      assert states[0] == Init(user);
      var thrown := false;
      while served < |events| && !thrown && Defined(lib, View(), events[served])
        invariant served <= |events| && |states| == served + 1
        invariant IsRun(lib, events[..served], states, answers) && states[served] == View()
        invariant thrown == (served > 0 && answers[served - 1].Throws?)
      {
        var a := Receive(events[served]);
        thrown := a == Throws;
        ExtendRun(lib, events[..served], states, answers, events[served]);
        assert events[..served + 1] == events[..served] + [events[served]];
        states, answers, served := states + [View()], answers + [a], served + 1;
      }
    }
  }

  /** The search at position `it` of the cache. */
  lemma FirstFrom(cache: seq<ProposalData>, it: nat, ref: seq<byte>)
    requires it <= |cache|
    ensures it == 0 ==> cache[..0] + RemoveFirst(cache[0..], ref) == RemoveFirst(cache, ref)
    ensures it == |cache| ==> cache[..it] + RemoveFirst(cache[it..], ref) == cache
    ensures it < |cache| && cache[it].ref == ref ==> RemoveFirst(cache[it..], ref) == cache[it + 1..]
    ensures it < |cache| && cache[it].ref != ref ==>
              cache[..it] + RemoveFirst(cache[it..], ref) == cache[..it + 1] + RemoveFirst(cache[it + 1..], ref)
  {
    assert cache[0..] == cache;
    if it < |cache| {
      assert cache[it..][1..] == cache[it + 1..];
      assert cache[..it + 1] == cache[..it] + [cache[it]];
    }
  }

  /** Once a message has been refused, the rest makes no difference. */
  lemma {:induction false} AcceptStuck(lib: Library, users: set<nat>, p: Progress, messages: seq<Message>, n: nat)
    requires n <= |messages| && !AcceptAll(lib, users, p, messages[..n]).ok
    ensures AcceptAll(lib, users, p, messages) == AcceptAll(lib, users, p, messages[..n])
    decreases |messages| - n
  {
    if n == |messages| {
      assert messages[..n] == messages;
    } else {
      assert messages[..n + 1][..n] == messages[..n];
      AcceptStuck(lib, users, p, messages, n + 1);
    }
  }

  /** Once a replay has stopped, the rest of the cache makes no difference. */
  lemma {:induction false} ReplayStuck(lib: Library, base: State, cache: seq<ProposalData>, n: nat)
    requires n <= |cache| && !Replay(lib, base, cache[..n]).ok
    ensures Replay(lib, base, cache) == Replay(lib, base, cache[..n]).(cache := cache)
    decreases |cache| - n
  {
    if n == |cache| {
      assert cache[..n] == cache;
    } else {
      assert cache[..n + 1][..n] == cache[..n];
      ReplayStuck(lib, base, cache, n + 1);
    }
  }
}
