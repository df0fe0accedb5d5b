/** What the session remembers of what it was told, over whole runs. */
module SessionInputs {
  import opened Wrappers
  import opened Mls
  import opened DaveSession

  /** The external sender named last. */
  function LastSender(events: seq<Event>): Option<ExternalSender> {
    if events == [] then None
    else
      match events[|events| - 1]
      case SetExternalSender(sender, _) => Some(sender)
      case _ => LastSender(events[..|events| - 1])
  }

  /** Whether somebody has joined, or was there from the start, and has not left since. */
  predicate InCall(user: nat, events: seq<Event>, id: nat) {
    if events == [] then id == user
    else
      match events[|events| - 1]
      case AddUsers(joined) => id in joined || InCall(user, events[..|events| - 1], id)
      case RemoveUsers(left) => id !in left && InCall(user, events[..|events| - 1], id)
      case _ => InCall(user, events[..|events| - 1], id)
  }

  /** The key package sent last. */
  function LastPackage(answers: seq<Answer>): Option<KeyPackage> {
    if answers == [] then None
    else
      match answers[|answers| - 1]
      case Sends(Package(package)) => Some(package)
      case _ => LastPackage(answers[..|answers| - 1])
  }

  predicate Accepted(a: Answer) {
    a.Silent? || (a.Sends? && a.reply.Ready?)
  }

  /** The group started last, for the sender named last, unless an epoch has been entered since. */
  function PendingGroup(lib: Library, events: seq<Event>, answers: seq<Answer>): Option<State>
    requires |events| == |answers|
  {
    if events == [] then None
    else
      var init, before := events[..|events| - 1], answers[..|answers| - 1];
      var a := answers[|answers| - 1];
      match events[|events| - 1]
      case SetExternalSender(sender, seed) => Some(lib.newGroup(sender, seed))
      case PrepareEpoch(epoch, seed) =>
        if epoch == 1 && LastSender(init).Some? then Some(lib.newGroup(LastSender(init).value, seed))
        else PendingGroup(lib, init, before)
      case AnnounceCommit(_, _) => if Accepted(a) then None else PendingGroup(lib, init, before)
      case Welcome(_, _) => if Accepted(a) then None else PendingGroup(lib, init, before)
      case _ => PendingGroup(lib, init, before)
  }

  /** What one event does to these four. */
  lemma StepInputs(lib: Library, s: Session, e: Event)
    requires Defined(lib, s, e)
    ensures var o := Step(lib, s, e);
            && o.state.sender == (if e.SetExternalSender? then Some(e.sender) else s.sender)
            && o.state.keyPackage ==
               (if o.answer.Sends? && o.answer.reply.Package? then Some(o.answer.reply.keyPackage) else s.keyPackage)
            && (e.SendKeyPackage? ==> o.answer == Sends(Package(lib.newKeyPackage(e.packageSeed))))
            && (e.PrepareEpoch? && e.epoch == 1 ==>
                 s.sender.Some? && o.answer == Sends(Package(lib.newKeyPackage(e.seed))))
            && o.state.pending ==
               (if e.SetExternalSender? then Some(lib.newGroup(e.sender, e.seed))
                else if e.PrepareEpoch? && e.epoch == 1 then Some(lib.newGroup(s.sender.value, e.seed))
                else if (e.AnnounceCommit? || e.Welcome?) && Accepted(o.answer) then None
                else s.pending)
  {
  }

  lemma StepUsers(lib: Library, s: Session, e: Event, id: nat)
    requires Defined(lib, s, e)
    ensures id in Step(lib, s, e).state.users <==>
              match e
              case AddUsers(joined) => id in joined || id in s.users
              case RemoveUsers(left) => id !in left && id in s.users
              case _ => id in s.users
  {
  }

  /** In every run the session's external sender is the one named last, its key package is the one
      it sent last, and proposals are applied to the group started last until an epoch is
      entered, from then on to the current group. */
  lemma {:induction false} InputsTheorem(
      lib: Library, events: seq<Event>, states: seq<Session>, answers: seq<Answer>, i: nat)
    requires IsRun(lib, events, states, answers) && i <= |events|
    ensures states[i].sender == LastSender(events[..i])
    ensures states[i].keyPackage == LastPackage(answers[..i])
    ensures states[i].pending == PendingGroup(lib, events[..i], answers[..i])
    ensures states[i].pending.Some? || states[i].current.Some? ==>
              Base(states[i]) == if PendingGroup(lib, events[..i], answers[..i]).Some?
                                 then PendingGroup(lib, events[..i], answers[..i]).value
                                 else states[i].current.value
  {
    hide Step, Defined;
    if i > 0 {
      InputsTheorem(lib, events, states, answers, i - 1);
      assert Step(lib, states[i - 1], events[i - 1]) == Outcome(states[i], answers[i - 1]);
      StepInputs(lib, states[i - 1], events[i - 1]);
      assert events[..i][..i - 1] == events[..i - 1] && answers[..i][..i - 1] == answers[..i - 1];
    }
  }

  /** In every run the users are those who have joined, or were there from the start, and have
      not left since. */
  lemma {:induction false} UsersTheorem(
      lib: Library, events: seq<Event>, states: seq<Session>, answers: seq<Answer>, user: nat, i: nat, id: nat)
    requires IsRun(lib, events, states, answers) && states[0] == Init(user) && i <= |events|
    ensures id in states[i].users <==> InCall(user, events[..i], id)
  {
    hide Step, Defined;
    if i > 0 {
      UsersTheorem(lib, events, states, answers, user, i - 1, id);
      assert Step(lib, states[i - 1], events[i - 1]) == Outcome(states[i], answers[i - 1]);
      StepUsers(lib, states[i - 1], events[i - 1], id);
      assert events[..i][..i - 1] == events[..i - 1];
    }
  }
}
