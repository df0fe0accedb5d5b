/** The messaging-layer-security vocabulary the DAVE session works with (RFC 9420, section
    12), as far as the session looks at it. A group state is an opaque base plus the
    proposals it has handled; the library itself is a record of functions. */
module Mls {
  import opened Wrappers
  import opened Bytes

  /** Only a basic credential holds an identity; asking another for one throws. */
  datatype Credential = Basic(identity: seq<byte>) | OtherCredential

  datatype ProposalKind = Add(credential: Credential) | Remove | OtherProposal
  datatype Body = Application | Proposal(kind: ProposalKind) | Commit(byReference: seq<bool>)
  datatype SenderType = Member | External | NewMember
  datatype Content = Content(body: Body, sender: SenderType, bytes: seq<byte>)

  type Message = seq<byte>
  type ExternalSender = seq<byte>
  type KeyPackage = seq<byte>

  datatype State = State(base: seq<byte>, handled: seq<Content>)

  /** What a welcome check reads off a group: the number of extensions, the external
      senders extension if it is among them, and the members' credentials. */
  datatype Group = Group(extensions: nat, senders: Option<seq<ExternalSender>>, roster: seq<Credential>)

  datatype CommitOutput = CommitOutput(commit: seq<byte>, welcomes: nat, welcome: seq<byte>, next: State)

  /** None stands for an exception. Randomness is passed in as a seed. */
  datatype Library = Library(
    newGroup: (ExternalSender, nat) -> State,
    newKeyPackage: nat -> KeyPackage,
    unwrap: (State, Message) -> Option<Content>,
    accepts: (State, Content) -> bool,
    ref: Content -> seq<byte>,
    commit: (State, nat) -> Option<CommitOutput>,
    handleCommit: (State, Message, State) -> Option<State>,
    join: (KeyPackage, Message) -> Option<State>,
    group: State -> Group)

  function Handle(s: State, c: Content): State {
    s.(handled := s.handled + [c])
  }
}
