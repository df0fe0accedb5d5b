/** Which handler a DAVE opcode reaches, and what the gateway connection does next. */
module Dispatch {
  import opened Wrappers
  import opened Mls
  import opened DaveSession

  datatype Handler = OnPrepareTransition | OnExecuteTransition | OnPrepareEpoch | OnExternalSender
                   | OnProposals | OnAnnounceCommit | OnWelcome

  datatype Route = OutOfRange | NotImplemented | To(handler: Handler)

  /** The eleven-entry table, indexed by opcode - 21; the index is checked. */
  function RouteOf(opcode: nat): Route {
    var table := [To(OnPrepareTransition), To(OnExecuteTransition), NotImplemented, To(OnPrepareEpoch),
                  To(OnExternalSender), NotImplemented, To(OnProposals), NotImplemented,
                  To(OnAnnounceCommit), To(OnWelcome), NotImplemented];
    if 21 <= opcode < 21 + |table| then table[opcode - 21] else OutOfRange
  }

  function HandlerOf(e: Event): Option<Handler> {
    match e
    case PrepareTransition(_, _) => Some(OnPrepareTransition)
    case ExecuteTransition(_) => Some(OnExecuteTransition)
    case PrepareEpoch(_, _) => Some(OnPrepareEpoch)
    case SetExternalSender(_, _) => Some(OnExternalSender)
    case Proposals(_, _) => Some(OnProposals)
    case AnnounceCommit(_, _) => Some(OnAnnounceCommit)
    case Welcome(_, _) => Some(OnWelcome)
    case _ => None
  }

  /** The opcode a reply carries. */
  function OpcodeOf(r: Reply): nat {
    match r
    case Ready(_) => 23
    case Package(_) => 26
    case CommitWelcome(_) => 28
    case Invalid(_) => 31
  }

  /** The resend decision, made from the opcode received and the reply about to be sent. */
  predicate ShouldSendKeyPackage(opcode: nat, a: Answer) {
    (opcode == 30 || opcode == 29) && a.Sends? && OpcodeOf(a.reply) != 23
  }

  /** A fresh key package follows exactly the replies that reject a commit or a welcome; and
      after a rejected welcome the session is in no group, with no transition newly prepared. */
  lemma ResendIffRejected(lib: Library, s: Session, e: Event, opcode: nat)
    requires Defined(lib, s, e)
    requires RouteOf(opcode).To? && HandlerOf(e) == Some(RouteOf(opcode).handler)
    ensures var o := Step(lib, s, e);
            && (ShouldSendKeyPackage(opcode, o.answer) <==> o.answer.Sends? && o.answer.reply.Invalid?)
            && (o.answer.Sends? && o.answer.reply.Invalid? ==>
                 && o.state.transition == s.transition && o.state.cache == s.cache
                 && (e.Welcome? ==> o.state.current.None?)
                 && (e.AnnounceCommit? ==> o.state == s))
  {
    Routes(opcode);
  }

  /** A commit is rejected exactly if it unwraps to something other than a commit, or to one that
      holds a proposal by value; a welcome exactly if it opens and the group does not pass. The
      rejection names the transition of the message. */
  lemma RejectedIff(lib: Library, s: Session, e: Event)
    requires Defined(lib, s, e) && (e.AnnounceCommit? || e.Welcome?)
    ensures var a := Step(lib, s, e).answer;
            && (a.Sends? && a.reply.Invalid? <==>
                 match e
                 case AnnounceCommit(_, message) =>
                   var c := lib.unwrap(s.commit.value, message);
                   c.Some? && !(c.value.body.Commit? && false !in c.value.body.byReference)
                 case Welcome(_, welcome) =>
                   var g := lib.join(s.keyPackage.value, welcome);
                   g.Some? && WelcomeVerdict(lib.group(g.value), s.users, s.sender) == Rejected)
            && (a.Sends? && a.reply.Invalid? ==>
                 a.reply.id == match e case AnnounceCommit(id, _) => id case Welcome(id, _) => id)
  {
  }

  lemma Routes(opcode: nat)
    ensures RouteOf(opcode) == To(OnPrepareTransition) <==> opcode == 21
    ensures RouteOf(opcode) == To(OnExecuteTransition) <==> opcode == 22
    ensures RouteOf(opcode) == To(OnPrepareEpoch) <==> opcode == 24
    ensures RouteOf(opcode) == To(OnExternalSender) <==> opcode == 25
    ensures RouteOf(opcode) == To(OnProposals) <==> opcode == 27
    ensures RouteOf(opcode) == To(OnAnnounceCommit) <==> opcode == 29
    ensures RouteOf(opcode) == To(OnWelcome) <==> opcode == 30
    ensures RouteOf(opcode) == NotImplemented <==> opcode in {23, 26, 28, 31}
    ensures RouteOf(opcode) == OutOfRange <==> opcode < 21 || opcode > 31
  {
  }

  /** Which events an opcode brings in, and under which opcode a reply goes out. */
  lemma EventsByOpcode(opcode: nat, e: Event, r: Reply)
    ensures RouteOf(opcode).To? && HandlerOf(e) == Some(RouteOf(opcode).handler)
       <==> || (opcode == 21 && e.PrepareTransition?) || (opcode == 22 && e.ExecuteTransition?)
            || (opcode == 24 && e.PrepareEpoch?) || (opcode == 25 && e.SetExternalSender?)
            || (opcode == 27 && e.Proposals?) || (opcode == 29 && e.AnnounceCommit?)
            || (opcode == 30 && e.Welcome?)
    ensures opcode == OpcodeOf(r)
       <==> || (opcode == 23 && r.Ready?) || (opcode == 26 && r.Package?)
            || (opcode == 28 && r.CommitWelcome?) || (opcode == 31 && r.Invalid?)
  {
  }
}
