/** The DAVE session as a state machine: one step per gateway event. */
module DaveSession {
  import opened Wrappers
  import opened Bytes
  import opened Mls
  import Rotation
  import Snowflake

  const DAVE_VERSION: int := 1

  datatype TransitionInfo = TransitionInfo(transitionId: int, protocolVersion: int)
  datatype ProposalData = ProposalData(content: Content, ref: seq<byte>)

  /** An encryptor is keyed from the group state it was last created for, and counts from then. */
  datatype EncryptorInfo = EncryptorInfo(keyed: State, passthrough: bool, counters: Rotation.EncState)

  datatype Session = Session(
    current: Option<State>, pending: Option<State>, cached: Option<State>, commit: Option<State>,
    transition: Option<TransitionInfo>, cache: seq<ProposalData>, users: set<nat>,
    sender: Option<ExternalSender>, keyPackage: Option<KeyPackage>, encryptor: Option<EncryptorInfo>)

  function Init(user: nat): Session {
    Session(None, None, None, None, None, [], {user}, None, None, None)
  }

  /** The payload of a proposals message; None where the list does not parse. */
  datatype ProposalsPayload = Revoke(refs: Option<seq<seq<byte>>>) | Append(messages: Option<seq<Message>>)

  datatype Event =
    | SetExternalSender(sender: ExternalSender, seed: nat)
    | PrepareEpoch(epoch: int, seed: nat)
    | Proposals(payload: ProposalsPayload, secret: nat)
    | AnnounceCommit(commitId: nat, message: Message)
    | Welcome(welcomeId: nat, welcome: Message)
    | PrepareTransition(id: int, version: int)
    | ExecuteTransition(executeId: int)
    | AddUsers(joined: seq<nat>)
    | RemoveUsers(left: seq<nat>)
    | SendKeyPackage(packageSeed: nat)
    | EncryptFrame(ok: bool)

  datatype Reply = Ready(id: int) | Invalid(id: int) | CommitWelcome(bytes: seq<byte>) | Package(keyPackage: KeyPackage)

  /** What a frame is sealed under: the group state its ratchet was exported from, the
      generation of the ratchet's key, and the nonce. */
  datatype Use = Use(keyed: State, generation: nat, nonce: nat)

  /** Throws: an exception leaves the handler, and no caller catches it. Emits: a media frame
      was sealed. */
  datatype Answer = Silent | Sends(reply: Reply) | Throws | Emits(use: Use)

  datatype Outcome = Outcome(state: Session, answer: Answer)

  // ----- validators -----

  /** The part of proposal validity that does not depend on who is in the call. */
  predicate IsGatewayProposal(c: Content) {
    c.body.Proposal? && (c.body.kind.Add? || c.body.kind.Remove?) && c.sender.External?
  }

  predicate IsMember(users: set<nat>, c: Credential) {
    c.Basic? && Snowflake.IdOf(c.identity) in users
  }

  /** An add whose credential is not a basic one throws inside the proposals handler, which
      ends like a refusal. */
  predicate IsValidProposal(users: set<nat>, c: Content) {
    IsGatewayProposal(c) && (c.body.kind.Add? ==> IsMember(users, c.body.kind.credential))
  }

  predicate IsValidCommit(c: Content) {
    c.body.Commit? && forall r :: r in c.body.byReference ==> r
  }

  predicate IsValidWelcome(g: Group, users: set<nat>, sender: Option<ExternalSender>) {
    && g.extensions == 1
    && g.senders.Some? && |g.senders.value| == 1 && sender == Some(g.senders.value[0])
    && |g.roster| == |users|
    && forall c :: c in g.roster ==> IsMember(users, c)
  }

  datatype Verdict = Accepted | Rejected | Threw

  /** Walks the roster up to the first credential that is no member's, or is no basic one. */
  function RosterVerdict(roster: seq<Credential>, users: set<nat>): Verdict {
    if roster == [] then Accepted
    else if roster[0].OtherCredential? then Threw
    else if !IsMember(users, roster[0]) then Rejected
    else RosterVerdict(roster[1..], users)
  }

  /** What the checks on a group just joined come to. */
  function WelcomeVerdict(g: Group, users: set<nat>, sender: Option<ExternalSender>): Verdict {
    if g.extensions != 1 || g.senders.None? || |g.senders.value| != 1 then Rejected
    else if sender != Some(g.senders.value[0]) || |g.roster| != |users| then Rejected
    else RosterVerdict(g.roster, users)
  }

  // ----- proposals -----

  /** Erases the first cached proposal with this reference. */
  function RemoveFirst(cache: seq<ProposalData>, ref: seq<byte>): seq<ProposalData> {
    if cache == [] then []
    else if cache[0].ref == ref then cache[1..]
    else [cache[0]] + RemoveFirst(cache[1..], ref)
  }

  function RemoveEach(cache: seq<ProposalData>, refs: seq<seq<byte>>): seq<ProposalData> {
    if refs == [] then cache
    else RemoveFirst(RemoveEach(cache, refs[..|refs| - 1]), refs[|refs| - 1])
  }

  datatype Progress = Progress(commit: State, cache: seq<ProposalData>, ok: bool)

  /** Hands cached proposals to the state, without validating them, until one throws. */
  function Replay(lib: Library, base: State, cache: seq<ProposalData>): Progress {
    if cache == [] then Progress(base, [], true)
    else
      var p, d := Replay(lib, base, cache[..|cache| - 1]), cache[|cache| - 1];
      if p.ok && lib.accepts(p.commit, d.content) then Progress(Handle(p.commit, d.content), cache, true)
      else Progress(p.commit, cache, false)
  }

  /** Takes in messages until one is refused. A proposal is cached before the state
      handles it, so one that the state throws on stays in the cache. */
  function Accept(lib: Library, users: set<nat>, p: Progress, m: Message): Progress {
    if !p.ok then p
    else
      match lib.unwrap(p.commit, m)
      case None => p.(ok := false)
      case Some(c) =>
        if !IsValidProposal(users, c) then p.(ok := false)
        else
          var cache := p.cache + [ProposalData(c, lib.ref(c))];
          if lib.accepts(p.commit, c) then Progress(Handle(p.commit, c), cache, true)
          else Progress(p.commit, cache, false)
  }

  function AcceptAll(lib: Library, users: set<nat>, p: Progress, messages: seq<Message>): Progress {
    if messages == [] then p
    else Accept(lib, users, AcceptAll(lib, users, p, messages[..|messages| - 1]), messages[|messages| - 1])
  }

  /** The state that proposals are applied to: the pending group before the first epoch,
      the current one afterwards. */
  function Base(s: Session): State
    requires s.pending.Some? || s.current.Some?
  {
    if s.pending.Some? then s.pending.value else s.current.value
  }

  function Marshal(o: CommitOutput): seq<byte> {
    [28] + o.commit + (if o.welcomes > 0 then o.welcome else [])
  }

  /** Commits to everything handled, unless something threw on the way. */
  function Conclude(lib: Library, s: Session, p: Progress, secret: nat): Outcome {
    var s' := s.(commit := Some(p.commit), cache := p.cache);
    if !p.ok then Outcome(s', Silent)
    else
      match lib.commit(p.commit, secret)
      case None => Outcome(s', Silent)
      case Some(o) => Outcome(s'.(cached := Some(o.next)), Sends(CommitWelcome(Marshal(o))))
  }

  function ProcessProposals(lib: Library, s: Session, payload: ProposalsPayload, secret: nat): Outcome
    requires payload != Revoke(None) ==> s.pending.Some? || s.current.Some?
  {
    match payload
    case Revoke(None) => Outcome(s, Silent)
    case Revoke(Some(refs)) => Conclude(lib, s, Replay(lib, Base(s), RemoveEach(s.cache, refs)), secret)
    case Append(None) => Outcome(s.(commit := Some(Base(s))), Silent)
    case Append(Some(messages)) =>
      Conclude(lib, s, AcceptAll(lib, s.users, Progress(Base(s), s.cache, true), messages), secret)
  }

  // ----- epochs and transitions -----

  function CreateEncryptor(s: Session): Session {
    if s.current.None? then s
    else
      var passthrough := s.encryptor.Some? && s.encryptor.value.passthrough;
      s.(encryptor := Some(EncryptorInfo(s.current.value, passthrough, Rotation.FRESH)))
  }

  /** A new epoch: what led to it is forgotten, and either a transition to it is
      acknowledged or, for the initial group, it takes effect at once. */
  function EnterEpoch(s: Session, epoch: State, id: int): Outcome {
    var s' := s.(current := Some(epoch), cached := None, commit := None, pending := None, cache := []);
    if id != 0 then Outcome(s'.(transition := Some(TransitionInfo(id, DAVE_VERSION))), Sends(Ready(id)))
    else Outcome(CreateEncryptor(s'), Silent)
  }

  /** The commit state is dereferenced at once, the cached state only for a valid commit. */
  predicate CanCommit(lib: Library, s: Session, message: Message) {
    s.commit.Some? &&
    var c := lib.unwrap(s.commit.value, message);
    (c.Some? && IsValidCommit(c.value) ==> s.cached.Some?)
  }

  function ProcessCommit(lib: Library, s: Session, id: nat, message: Message): Outcome
    requires CanCommit(lib, s, message)
  {
    match lib.unwrap(s.commit.value, message)
    case None => Outcome(s, Throws)
    case Some(c) =>
      if !IsValidCommit(c) then Outcome(s, Sends(Invalid(id)))
      else
        match lib.handleCommit(s.commit.value, message, s.cached.value)
        case None => Outcome(s, Throws)
        case Some(epoch) => EnterEpoch(s, epoch, id)
  }

  /** The welcome check dereferences the senders extension once there is one extension, and
      the session's own sender once that extension holds one sender. */
  predicate CanJoin(lib: Library, s: Session, welcome: Message) {
    s.keyPackage.Some? &&
    var epoch := lib.join(s.keyPackage.value, welcome);
    (epoch.Some? && lib.group(epoch.value).extensions == 1 ==>
      var senders := lib.group(epoch.value).senders;
      senders.Some? && (|senders.value| == 1 ==> s.sender.Some?))
  }

  /** The group is current before it is checked, also when the check throws. */
  function ProcessWelcome(lib: Library, s: Session, id: nat, welcome: Message): Outcome
    requires CanJoin(lib, s, welcome)
  {
    match lib.join(s.keyPackage.value, welcome)
    case None => Outcome(s, Throws)
    case Some(epoch) =>
      match WelcomeVerdict(lib.group(epoch), s.users, s.sender)
      case Accepted => EnterEpoch(s, epoch, id)
      case Rejected => Outcome(s.(current := None), Sends(Invalid(id)))
      case Threw => Outcome(s.(current := Some(epoch)), Throws)
  }

  function PrepareTransitionStep(s: Session, id: int, version: int): Outcome {
    if id == 0 then Outcome(s.(transition := None), Silent)
    else Outcome(s.(transition := Some(TransitionInfo(id, version))), Sends(Ready(id)))
  }

  /** Whether an execute names the transition that is prepared. */
  predicate Known(s: Session, id: int) {
    s.transition.Some? && s.transition.value.transitionId == id
  }

  /** Executing towards a non-zero version dereferences the encryptor, which exists by then
      if it did before or if there is a current state to create it from. */
  predicate CanExecute(s: Session, id: int) {
    Known(s, id) && s.transition.value.protocolVersion != 0 ==> s.current.Some? || s.encryptor.Some?
  }

  function Execute(s: Session, id: int): Session
    requires CanExecute(s, id)
  {
    if !Known(s, id) then s
    else if s.transition.value.protocolVersion == 0 then
      if s.encryptor.None? then s.(transition := None)
      else s.(encryptor := Some(s.encryptor.value.(passthrough := true)), transition := None)
    else
      var s' := CreateEncryptor(s);
      s'.(encryptor := Some(s'.encryptor.value.(passthrough := false)), transition := None)
  }

  function Reset(s: Session): Session {
    s.(encryptor := None, current := None, commit := None, cached := None, pending := None, cache := [])
  }

  // ----- media -----

  /** Whether a voice packet is sealed at all: there are a current state and an encryptor,
      and the encryptor does not pass packets through. */
  predicate Seals(s: Session) {
    s.current.Some? && s.encryptor.Some? && !s.encryptor.value.passthrough
  }

  /** The voice thread frames a packet; ok is false when AES-GCM reports a failure. */
  function EncryptStep(s: Session, ok: bool): Outcome {
    if !Seals(s) then Outcome(s, Silent)
    else
      var e := s.encryptor.value;
      var r := Rotation.Rotate(e.counters);
      Outcome(s.(encryptor := Some(e.(counters := Rotation.Advance(e.counters, ok)))),
              if ok then Emits(Use(e.keyed, Rotation.AsUInt32(r.generation), r.nonce)) else Silent)
  }

  /** What the source demands of the moment an event arrives: each clause is an optional or
      pointer that its handler dereferences. */
  predicate Defined(lib: Library, s: Session, e: Event) {
    match e
    case PrepareEpoch(epoch, _) => epoch == 1 ==> s.sender.Some?
    case Proposals(payload, _) => payload != Revoke(None) ==> s.pending.Some? || s.current.Some?
    case AnnounceCommit(_, message) => CanCommit(lib, s, message)
    case Welcome(_, welcome) => CanJoin(lib, s, welcome)
    case ExecuteTransition(id) => CanExecute(s, id)
    case _ => true
  }

  function Step(lib: Library, s: Session, e: Event): Outcome
    requires Defined(lib, s, e)
  {
    match e
    case SetExternalSender(sender, seed) =>
      Outcome(s.(sender := Some(sender), pending := Some(lib.newGroup(sender, seed))), Silent)
    case PrepareEpoch(epoch, seed) =>
      if epoch != 1 then Outcome(s, Silent)
      else
        var package := lib.newKeyPackage(seed);
        Outcome(Reset(s).(pending := Some(lib.newGroup(s.sender.value, seed)), keyPackage := Some(package)),
                Sends(Package(package)))
    case Proposals(payload, secret) => ProcessProposals(lib, s, payload, secret)
    case AnnounceCommit(id, message) => ProcessCommit(lib, s, id, message)
    case Welcome(id, welcome) => ProcessWelcome(lib, s, id, welcome)
    case PrepareTransition(id, version) => PrepareTransitionStep(s, id, version)
    case ExecuteTransition(id) => Outcome(Execute(s, id), Silent)
    case AddUsers(joined) => Outcome(s.(users := s.users + (set id | id in joined)), Silent)
    case RemoveUsers(left) => Outcome(s.(users := s.users - (set id | id in left)), Silent)
    case SendKeyPackage(seed) =>
      var package := lib.newKeyPackage(seed);
      Outcome(s.(keyPackage := Some(package)), Sends(Package(package)))
    case EncryptFrame(ok) => EncryptStep(s, ok)
  }

  // ----- runs -----

  /** states and answers are what the session goes through on these events. An exception that
      leaves a handler ends the listening thread and with it the process: it is the last thing
      in a run. */
  ghost predicate IsRun(lib: Library, events: seq<Event>, states: seq<Session>, answers: seq<Answer>) {
    && |states| == |events| + 1 && |answers| == |events|
    && (exists user :: states[0] == Init(user))
    && forall i :: 0 <= i < |events| ==>
         && Defined(lib, states[i], events[i])
         && Step(lib, states[i], events[i]) == Outcome(states[i + 1], answers[i])
         && (answers[i].Throws? ==> i + 1 == |events|)
  }

  lemma ExtendRun(lib: Library, events: seq<Event>, states: seq<Session>, answers: seq<Answer>, e: Event)
    requires IsRun(lib, events, states, answers) && |states| == |events| + 1
    requires Defined(lib, states[|events|], e)
    requires events == [] || !answers[|events| - 1].Throws?
    ensures var o := Step(lib, states[|events|], e);
            IsRun(lib, events + [e], states + [o.state], answers + [o.answer])
  {
    hide Step, Defined;
    var user :| states[0] == Init(user);
    var o := Step(lib, states[|events|], e);
    assert (states + [o.state])[0] == Init(user);
  }
}
