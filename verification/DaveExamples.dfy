/** Runs of the session on which an expected law fails. */
module SessionExamples {
  import opened Wrappers
  import opened Bytes
  import opened Mls
  import opened DaveSession
  import opened MediaKeys
  import ProposalCache
  import Rotation
  import Snowflake

  const GROUP: State := State([], [])
  const REMOVE: Content := Content(Proposal(Remove), External, [])

  /** A library with one group, of this roster, that takes every message for a remove proposal
      of the gateway. */
  function OneGroup(roster: seq<Credential>): Library {
    Library((sender, seed) => GROUP,
            seed => [],
            (s, m) => Some(REMOVE),
            (s, c) => true,
            c => [],
            (s, secret) => Some(CommitOutput([], 0, [], s)),
            (s, m, c) => None,
            (package, m) => Some(GROUP),
            s => Group(1, Some([[7]]), roster))
  }

  ghost function Last(r: Run): Session
    requires r.Valid()
  {
    r.states[|r.events|]
  }

  /** User 1 before the first welcome. */
  const WAITING: Session := Init(1).(sender := Some([7]), pending := Some(GROUP))
  const ASKING: Session := WAITING.(keyPackage := Some([]))

  /** User 1 in the group. */
  function InGroup(transition: Option<TransitionInfo>, encryptor: Option<EncryptorInfo>): Session {
    Session(Some(GROUP), None, None, None, transition, [], {1}, Some([7]), Some([]), encryptor)
  }

  function Keyed(frames: nat): Option<EncryptorInfo> {
    Some(EncryptorInfo(GROUP, false, Rotation.EncState(frames, 0, 0)))
  }

  ghost predicate Takes(lib: Library, s: Session, e: Event, s': Session, a: Answer) {
    Defined(lib, s, e) && Step(lib, s, e) == Outcome(s', a)
  }

  /** A list of steps from creation on is a run. */
  lemma IsARun(r: Run)
    requires |r.states| == |r.events| + 1 && |r.answers| == |r.events| && r.states[0] == Init(1)
    requires forall i :: 0 <= i < |r.events| ==>
               Takes(r.lib, r.states[i], r.events[i], r.states[i + 1], r.answers[i]) && !r.answers[i].Throws?
    ensures r.Valid()
  {
    hide Step, Defined;
    assert exists user :: r.states[0] == Init(user);
    forall i | 0 <= i < |r.events|
      ensures Defined(r.lib, r.states[i], r.events[i])
      ensures Step(r.lib, r.states[i], r.events[i]) == Outcome(r.states[i + 1], r.answers[i])
    {
      assert Takes(r.lib, r.states[i], r.events[i], r.states[i + 1], r.answers[i]);
    }
  }

  lemma Opening(lib: Library, roster: seq<Credential>)
    requires lib == OneGroup(roster)
    ensures Takes(lib, Init(1), SetExternalSender([7], 0), WAITING, Silent)
    ensures Takes(lib, WAITING, SendKeyPackage(0), ASKING, Sends(Package([])))
  {
  }

  /** Waiting, with this cache, after an answered append of one proposal. */
  function Proposed(cache: seq<ProposalData>): Session {
    var handled := State([], [REMOVE]);
    WAITING.(commit := Some(handled), cached := Some(handled), cache := cache)
  }

  /** An append of one proposal, the first or a later one. */
  lemma NextProposal(lib: Library, cache: seq<ProposalData>)
    requires lib == OneGroup([])
    ensures var append, more := Proposals(Append(Some([[]])), 0), Proposed(cache + [ProposalData(REMOVE, [])]);
            && Takes(lib, Proposed(cache), append, more, Sends(CommitWelcome([28])))
            && (cache == [] ==> Takes(lib, WAITING, append, more, Sends(CommitWelcome([28]))))
  {
    var m: Message := [];
    assert Handle(GROUP, REMOVE) == State([], [REMOVE]);
    assert Marshal(CommitOutput([], 0, [], State([], [REMOVE]))) == [28];
    assert AcceptAll(lib, {1}, Progress(GROUP, cache, true), [m][..0]) == Progress(GROUP, cache, true);
  }

  function TwoAppends(): Run {
    var d, append := ProposalData(REMOVE, []), Proposals(Append(Some([[]])), 0);
    Run(OneGroup([]), [SetExternalSender([7], 0), append, append],
        [Init(1), WAITING, Proposed([d]), Proposed([d, d])],
        [Silent, Sends(CommitWelcome([28])), Sends(CommitWelcome([28]))])
  }

  lemma TwoAppendsRun()
    ensures TwoAppends().Valid()
  {
    hide Step, Defined, Takes, OneGroup, Proposed;
    var lib, d := OneGroup([]), ProposalData(REMOVE, []);
    Opening(lib, []);
    NextProposal(lib, []);
    NextProposal(lib, [d]);
    assert [] + [d] == [d] && [d] + [d] == [d, d];
    IsARun(TwoAppends());
  }

  /** Two appends in one epoch, both answered: the commit state has handled only the second,
      though the cache holds both. */
  lemma SecondAppendForgets()
    ensures var r := TwoAppends();
            && r.Valid() && r.answers[1].Sends? && r.answers[2].Sends?
            && |Last(r).cache| == 2 && Last(r).pending == Some(GROUP)
            && Last(r).commit == Some(GROUP.(handled := GROUP.handled + ProposalCache.Contents(Last(r).cache[1..])))
            && Last(r).commit != Some(GROUP.(handled := GROUP.handled + ProposalCache.Contents(Last(r).cache)))
  {
    TwoAppendsRun();
    hide OneGroup, IsRun;
    var d := ProposalData(REMOVE, []);
    ProposalCache.ContentsLength([d, d]);
    ProposalCache.ContentsLength([d]);
    assert [d, d][1..] == [d] && [d][..0] == [];
    assert ProposalCache.Contents([d]) == [REMOVE];
  }

  const COMMIT: Content := Content(Commit([]), Member, [])

  /** The group of OneGroup, when every message is a commit. */
  function OnlyCommits(): Library {
    OneGroup([]).(unwrap := (s, m) => Some(COMMIT))
  }

  /** An append whose message is not a proposal. */
  function RefusedAppend(): Run {
    Run(OnlyCommits(), [SetExternalSender([7], 0), Proposals(Append(Some([[]])), 0)],
        [Init(1), WAITING, WAITING.(commit := Some(GROUP))], [Silent, Silent])
  }

  /** A valid commit that is announced after an append was refused dereferences an absent
      cached state. */
  lemma UnansweredCommit()
    ensures var r := RefusedAppend();
            && r.Valid() && ProposalCache.IsCommitFor(r.lib, Last(r), [])
            && !Defined(r.lib, Last(r), AnnounceCommit(1, []))
  {
    var m: Message := [];
    var r, lib := RefusedAppend(), OnlyCommits();
    assert Takes(lib, Init(1), r.events[0], WAITING, Silent);
    assert AcceptAll(lib, {1}, Progress(GROUP, [], true), [m][..0]) == Progress(GROUP, [], true);
    assert Takes(lib, WAITING, r.events[1], r.states[2], Silent);
    IsARun(r);
  }

  lemma Joins(lib: Library, me: Credential)
    requires lib == OneGroup([me]) && IsMember({1}, me)
    ensures Takes(lib, ASKING, Welcome(0, []), InGroup(None, Keyed(0)), Silent)
  {
    assert [me][1..] == [];
    assert RosterVerdict([], {1}) == Accepted;
    assert RosterVerdict([me], {1}) == Accepted;
  }

  lemma InTheGroup(lib: Library)
    ensures Takes(lib, InGroup(None, Keyed(0)), EncryptFrame(true), InGroup(None, Keyed(1)), Emits(Use(GROUP, 0, 0)))
    ensures var prepared := Some(TransitionInfo(7, 1));
            && Takes(lib, InGroup(None, Keyed(1)), PrepareTransition(7, 1),
                     InGroup(prepared, Keyed(1)), Sends(Ready(7)))
            && Takes(lib, InGroup(prepared, Keyed(1)), ExecuteTransition(7), InGroup(None, Keyed(0)), Silent)
  {
  }

  /** The gateway prepares and executes a transition, without a new epoch. */
  function Rekeying(): Run {
    var prepared := Some(TransitionInfo(7, 1));
    Run(OneGroup([Basic(ToBE(1, 8))]),
        [SetExternalSender([7], 0), SendKeyPackage(0), Welcome(0, []), EncryptFrame(true),
         PrepareTransition(7, 1), ExecuteTransition(7), EncryptFrame(true)],
        [Init(1), WAITING, ASKING, InGroup(None, Keyed(0)), InGroup(None, Keyed(1)),
         InGroup(prepared, Keyed(1)), InGroup(None, Keyed(0)), InGroup(None, Keyed(1))],
        [Silent, Sends(Package([])), Silent, Emits(Use(GROUP, 0, 0)),
         Sends(Ready(7)), Silent, Emits(Use(GROUP, 0, 0))])
  }

  lemma RekeyingRun()
    ensures Rekeying().Valid()
  {
    hide Step, Defined, Takes, ToBE, OneGroup, InGroup;
    Snowflake.IdRoundTrip(1);
    var me := Basic(ToBE(1, 8));
    var lib := OneGroup([me]);
    Opening(lib, [me]);
    Joins(lib, me);
    InTheGroup(lib);
    IsARun(Rekeying());
  }

  /** Media is keyed a second time from the group it is keyed from: the first frames before and
      after share group state, generation and nonce. */
  lemma KeyedTwice()
    ensures var r := Rekeying();
            && r.Valid() && Redundant(r, 5) && SameUse(r, 3, 6)
            && r.answers[3] == Emits(Use(GROUP, 0, 0))
  {
    RekeyingRun();
    hide OneGroup, IsRun, Step, Defined, ToBE;
  }
}
