/** What media frames are sealed under, over whole runs of the session. */
module MediaKeys {
  import opened Wrappers
  import opened Bytes
  import opened Mls
  import opened DaveSession
  import CurrentGroup
  import Rotation

  const PAIRS: nat := TWO24 * TWO32

  function MediaKey(s: Session): Option<State> {
    if s.encryptor.Some? then Some(s.encryptor.value.keyed) else None
  }

  /** The events that create an encryptor: a transition executed in a group, towards a version
      other than zero, and an accepted commit or welcome for the initial group (transition 0). */
  predicate Rekeys(lib: Library, s: Session, e: Event)
    requires Defined(lib, s, e)
  {
    match e
    case ExecuteTransition(id) => Known(s, id) && s.transition.value.protocolVersion != 0 && s.current.Some?
    case AnnounceCommit(id, _) => id == 0 && Step(lib, s, e).answer == Silent
    case Welcome(id, _) => id == 0 && Step(lib, s, e).answer == Silent
    case _ => false
  }

  /** One of these keys media from the state that is current after it and starts the counters
      over, whatever media was keyed from before. Every other event leaves the key alone, or
      drops it in a reset, and only sealing a frame advances the counters. Media is passed
      through, or no longer, only when a transition is executed. */
  lemma KeyChanges(lib: Library, s: Session, e: Event)
    requires Defined(lib, s, e)
    ensures var s', kept := Step(lib, s, e).state, s.encryptor;
            && (Rekeys(lib, s, e) ==>
                 s'.encryptor.Some? && MediaKey(s') == s'.current && s'.encryptor.value.counters == Rotation.FRESH)
            && (!Rekeys(lib, s, e) && s'.encryptor.Some? ==>
                 && kept.Some? && MediaKey(s') == MediaKey(s)
                 && s'.encryptor.value.counters == if e.EncryptFrame? && Seals(s)
                                                   then Rotation.Advance(kept.value.counters, e.ok)
                                                   else kept.value.counters)
            && (kept.Some? && s'.encryptor.None? ==> e.PrepareEpoch? && e.epoch == 1)
            && (e.PrepareEpoch? && e.epoch == 1 ==> s'.encryptor.None? && s'.current.None?)
            && (s'.encryptor.Some? ==>
                 s'.encryptor.value.passthrough == if e.ExecuteTransition? && Known(s, e.executeId)
                                                   then s.transition.value.protocolVersion == 0
                                                   else kept.Some? && kept.value.passthrough)
  {
  }

  // ----- frames in a run -----

  datatype Run = Run(lib: Library, events: seq<Event>, states: seq<Session>, answers: seq<Answer>)
  {
    ghost predicate Valid() {
      IsRun(lib, events, states, answers)
    }

    ghost predicate Rekeyed(k: nat)
      requires Valid()
    {
      k < |events| && Rekeys(lib, states[k], events[k])
    }

    ghost predicate Emitted(i: nat)
      requires Valid()
    {
      i < |events| && answers[i].Emits?
    }

    /** How many frames have been emitted since the last key change, up to event i. */
    ghost function Number(i: nat): nat
      requires Valid() && i <= |events|
    {
      if i == 0 || Rekeyed(i - 1) then 0
      else Number(i - 1) + (if Emitted(i - 1) then 1 else 0)
    }
  }

  lemma StepAt(r: Run, i: nat)
    requires r.Valid() && i < |r.events|
    ensures Defined(r.lib, r.states[i], r.events[i])
    ensures Step(r.lib, r.states[i], r.events[i]) == Outcome(r.states[i + 1], r.answers[i])
  {
  }

  /** A frame is sealed exactly when there are a current state and an encryptor, and the
      encryptor does not pass frames through. */
  lemma OnlySealedFrames(lib: Library, s: Session, e: Event)
    requires Defined(lib, s, e)
    ensures Step(lib, s, e).answer.Emits? <==>
              e == EncryptFrame(true) && s.current.Some? && s.encryptor.Some? && !s.encryptor.value.passthrough
  {
  }

  /** A step keeps the counters where the frames since the last key change have taken them. */
  lemma CountersStep(lib: Library, s: Session, e: Event, n: nat)
    requires Defined(lib, s, e)
    requires s.encryptor.Some? ==> Rotation.CountersAt(s.encryptor.value.counters, n)
    ensures var o := Step(lib, s, e);
            o.state.encryptor.Some? ==>
              Rotation.CountersAt(o.state.encryptor.value.counters,
                                  if Rekeys(lib, s, e) then 0 else if o.answer.Emits? then n + 1 else n)
  {
    KeyChanges(lib, s, e);
    OnlySealedFrames(lib, s, e);
    hide Step, Rekeys, Rotation.CountersAt, Rotation.Advance;
    FreshAtZero();
    if e.EncryptFrame? && Seals(s) {
      Rotation.AdvanceCounts(s.encryptor.value.counters, n, e.ok);
    }
  }

  /** In every run the counters stand where the frames since the last key change took them. */
  lemma {:induction false} CountersFollow(r: Run, i: nat)
    requires r.Valid() && i <= |r.events|
    ensures r.states[i].encryptor.Some? ==> Rotation.CountersAt(r.states[i].encryptor.value.counters, r.Number(i))
  {
    if i > 0 {
      CountersFollow(r, i - 1);
      StepAt(r, i - 1);
      hide Step, Defined, Rekeys, Rotation.CountersAt;
      CountersStep(r.lib, r.states[i - 1], r.events[i - 1], r.Number(i - 1));
    }
  }

  lemma FreshAtZero()
    ensures Rotation.CountersAt(Rotation.FRESH, 0)
  {
  }

  /** An emitted frame is sealed under the state that media is keyed from and the pair of its
      number since the last key change. */
  lemma FrameUse(r: Run, i: nat)
    requires r.Valid() && r.Emitted(i)
    ensures MediaKey(r.states[i]).Some?
    ensures r.answers[i].use == Use(MediaKey(r.states[i]).value, Rotation.GenerationOf(r.Number(i)),
                                    Rotation.NonceOf(r.Number(i)))
  {
    CountersFollow(r, i);
    StepAt(r, i);
    OnlySealedFrames(r.lib, r.states[i], r.events[i]);
    var n := r.Number(i);
    Rotation.RotateSettles(r.states[i].encryptor.value.counters, n);
    Rotation.Int32Steps(n / TWO24);
  }

  /** Two frames of a run are sealed under the same use if and only if media was keyed from the
      same state for both and their numbers, each since its own key change, agree modulo 2^56. */
  lemma UsesAgree(r: Run, i: nat, j: nat)
    requires r.Valid() && r.Emitted(i) && r.Emitted(j)
    ensures r.answers[i].use == r.answers[j].use
       <==> MediaKey(r.states[i]) == MediaKey(r.states[j]) && r.Number(i) % PAIRS == r.Number(j) % PAIRS
  {
    FrameUse(r, i);
    FrameUse(r, j);
    Rotation.PairsDistinct(r.Number(i), r.Number(j));
  }

  // ----- key periods -----

  /** Media that is keyed was keyed by an event p, from the state current then, and neither
      key nor numbering has started over since. */
  ghost predicate Period(r: Run, p: nat, j: nat)
    requires r.Valid() && j <= |r.events|
  {
    && p < j && r.Rekeyed(p) && r.states[p + 1].current == MediaKey(r.states[j])
    && forall k :: p < k < j ==> !r.Rekeyed(k)
  }

  lemma {:induction false} PeriodOf(r: Run, j: nat)
    requires r.Valid() && j <= |r.events| && MediaKey(r.states[j]).Some?
    ensures exists p: nat :: Period(r, p, j)
  {
    if j > 0 {
      StepAt(r, j - 1);
      KeyChanges(r.lib, r.states[j - 1], r.events[j - 1]);
      hide Step;
      if r.Rekeyed(j - 1) {
        assert Period(r, j - 1, j);
      } else {
        PeriodOf(r, j - 1);
        var p: nat :| Period(r, p, j - 1);
        assert Period(r, p, j);
      }
    }
  }

  /** In every run, media is keyed from a group state that the session has been in. */
  lemma KeyWasCurrent(r: Run, i: nat)
    requires r.Valid() && i <= |r.events| && MediaKey(r.states[i]).Some?
    ensures exists m :: 0 <= m <= i && r.states[m].current == MediaKey(r.states[i])
  {
    PeriodOf(r, i);
    var p: nat :| Period(r, p, i);
  }

  /** Whenever an event arrives, the group that media is keyed from was entered by an accepted
      commit, or by a welcome that passed the check. */
  lemma KeyedFromChecked(r: Run, i: nat)
    requires r.Valid() && i < |r.events| && MediaKey(r.states[i]).Some?
    ensures exists j: nat, m: nat :: m <= i &&
              CurrentGroup.EnteredAt(r.lib, r.events, r.states, r.answers, MediaKey(r.states[i]).value, j, m)
  {
    hide Step, Defined;
    KeyWasCurrent(r, i);
    var m: nat :| m <= i && r.states[m].current == MediaKey(r.states[i]);
    CurrentGroup.EnteredBy(r.lib, r.events, r.states, r.answers, m);
  }

  /** Without a key change in between, a later frame has a greater number. */
  lemma {:induction false} NumbersGrow(r: Run, i: nat, j: nat)
    requires r.Valid() && i < j <= |r.events| && forall k :: i <= k < j ==> !r.Rekeyed(k)
    ensures r.Number(j) >= r.Number(i) + (if r.Emitted(i) then 1 else 0)
  {
    if i < j - 1 {
      NumbersGrow(r, i, j - 1);
    }
  }

  /** Every number below the present one was given to a frame of the same period. */
  lemma {:induction false} NumberGiven(r: Run, p: nat, j: nat, n: nat)
    requires r.Valid() && p < j <= |r.events| && r.Rekeyed(p) && (forall k :: p < k < j ==> !r.Rekeyed(k))
    requires n < r.Number(j)
    ensures exists f :: p < f < j && r.Emitted(f) && r.Number(f) == n
  {
    if n < r.Number(j - 1) {
      NumberGiven(r, p, j - 1, n);
      var f :| p < f < j - 1 && r.Emitted(f) && r.Number(f) == n;
    } else {
      assert r.Emitted(j - 1) && r.Number(j - 1) == n;
    }
  }

  lemma SamePeriodSameKey(r: Run, p: nat, f: nat, j: nat)
    requires r.Valid() && f <= j <= |r.events| && Period(r, p, j) && p < f
    requires MediaKey(r.states[f]).Some?
    ensures MediaKey(r.states[f]) == MediaKey(r.states[j])
  {
    PeriodOf(r, f);
    var q: nat :| Period(r, q, f);
    assert p == q;
  }

  /** A frame of the same period, with any number below this one's. */
  lemma EarlierFrame(r: Run, p: nat, j: nat, n: nat)
    requires r.Valid() && r.Emitted(j) && MediaKey(r.states[j]).Some? && Period(r, p, j) && n <= r.Number(j)
    ensures exists f :: p < f <= j && r.Emitted(f) && r.Number(f) == n && MediaKey(r.states[f]) == MediaKey(r.states[j])
  {
    if n < r.Number(j) {
      NumberGiven(r, p, j, n);
      var f :| p < f < j && r.Emitted(f) && r.Number(f) == n;
      FrameUse(r, f);
      SamePeriodSameKey(r, p, f, j);
    }
  }

  // ----- when a use repeats -----

  ghost predicate SameUse(r: Run, i: nat, j: nat)
    requires r.Valid()
  {
    i < j && r.Emitted(i) && r.Emitted(j) && r.answers[i].use == r.answers[j].use
  }

  /** Between two frames keyed from the same state, an event k keys media again. */
  ghost predicate KeyedAgain(r: Run, i: nat, k: nat, j: nat)
    requires r.Valid()
  {
    i < k < j && r.Emitted(i) && r.Emitted(j) && MediaKey(r.states[i]) == MediaKey(r.states[j]) && r.Rekeyed(k)
  }

  ghost predicate Exhausted(r: Run, j: nat)
    requires r.Valid()
  {
    r.Emitted(j) && r.Number(j) >= PAIRS
  }

  /** Some use repeats in a run if and only if one key period emits more than 2^56 frames, or
      media is keyed again, between two frames, from the state both are keyed from. */
  lemma RepeatsIff(r: Run)
    requires r.Valid()
    ensures (exists i: nat, j: nat :: SameUse(r, i, j))
       <==> (exists j: nat :: Exhausted(r, j)) || (exists i: nat, k: nat, j: nat :: KeyedAgain(r, i, k, j))
  {
    if i: nat, j: nat :| SameUse(r, i, j) {
      RepeatHasCause(r, i, j);
    }
    if j: nat :| Exhausted(r, j) {
      ExhaustedRepeats(r, j);
    }
    if i: nat, k: nat, j: nat :| KeyedAgain(r, i, k, j) {
      KeyedAgainRepeats(r, i, k, j);
    }
  }

  lemma CongruentAbove(m: nat, n: nat)
    requires m % PAIRS == n % PAIRS
    ensures m < n ==> n >= PAIRS
  {
    if n < PAIRS {
      ModUnique(n, PAIRS, 0, n);
      if m < n { ModUnique(m, PAIRS, 0, m); }
    }
  }

  /** The frames of a repeated use have the same key; if the later has the greater number,
      that number has gone around. */
  lemma SameUseMeans(r: Run, i: nat, j: nat)
    requires r.Valid() && SameUse(r, i, j)
    ensures MediaKey(r.states[i]) == MediaKey(r.states[j]) && !r.Rekeyed(i)
    ensures r.Number(i) < r.Number(j) ==> Exhausted(r, j)
  {
    hide r.Number, Step, Rekeys;
    UsesAgree(r, i, j);
    CongruentAbove(r.Number(i), r.Number(j));
    FramesNeverRekey(r, i);
  }

  lemma FramesNeverRekey(r: Run, i: nat)
    requires r.Valid() && r.Emitted(i)
    ensures !r.Rekeyed(i)
  {
    StepAt(r, i);
    OnlySealedFrames(r.lib, r.states[i], r.events[i]);
  }

  lemma RepeatHasCause(r: Run, i: nat, j: nat)
    requires r.Valid() && SameUse(r, i, j)
    ensures Exhausted(r, j) || exists k: nat :: KeyedAgain(r, i, k, j)
  {
    SameUseMeans(r, i, j);
    if k: nat :| i < k < j && r.Rekeyed(k) {
      assert KeyedAgain(r, i, k, j);
    } else {
      NumbersGrow(r, i, j);
    }
  }

  lemma OnceAround(r: Run, i: nat, j: nat)
    requires r.Valid() && i < j && r.Emitted(i) && r.Emitted(j)
    requires MediaKey(r.states[i]) == MediaKey(r.states[j]) && r.Number(j) == r.Number(i) + PAIRS
    ensures SameUse(r, i, j)
  {
    hide r.Number;
    var n := r.Number(i);
    ModUnique(n + PAIRS, PAIRS, n / PAIRS + 1, n % PAIRS);
    UsesAgree(r, i, j);
  }

  lemma ExhaustedRepeats(r: Run, j: nat)
    requires r.Valid() && Exhausted(r, j)
    ensures exists i: nat :: SameUse(r, i, j)
  {
    hide r.Number;
    FrameUse(r, j);
    PeriodOf(r, j);
    var p: nat :| Period(r, p, j);
    EarlierFrame(r, p, j, r.Number(j) - PAIRS);
    var f: nat :| p < f <= j && r.Emitted(f) && r.Number(f) == r.Number(j) - PAIRS
                  && MediaKey(r.states[f]) == MediaKey(r.states[j]);
    OnceAround(r, f, j);
  }

  /** The first frames of both periods share their use. */
  lemma KeyedAgainRepeats(r: Run, i: nat, k: nat, j: nat)
    requires r.Valid() && KeyedAgain(r, i, k, j)
    ensures exists f: nat, g: nat :: SameUse(r, f, g)
  {
    FrameUse(r, i);
    FrameUse(r, j);
    PeriodOf(r, i);
    PeriodOf(r, j);
    var p: nat :| Period(r, p, i);
    var q: nat :| Period(r, q, j);
    EarlierFrame(r, p, i, 0);
    EarlierFrame(r, q, j, 0);
    var f: nat :| p < f <= i && r.Emitted(f) && r.Number(f) == 0 && MediaKey(r.states[f]) == MediaKey(r.states[i]);
    var g: nat :| q < g <= j && r.Emitted(g) && r.Number(g) == 0 && MediaKey(r.states[g]) == MediaKey(r.states[j]);
    UsesAgree(r, f, g);
    assert SameUse(r, f, g);
  }

  // ----- the guard -----

  /** No group state becomes current a second time: what an MLS group promises of its epochs. */
  ghost predicate FreshEpochs(r: Run)
    requires r.Valid()
  {
    forall k, m :: 0 <= m <= k < |r.events| && r.states[k + 1].current.Some?
                   && r.states[k + 1].current != r.states[k].current ==>
                     r.states[k + 1].current != r.states[m].current
  }

  /** Media is keyed from the state it is keyed from already. */
  ghost predicate Redundant(r: Run, k: nat)
    requires r.Valid()
  {
    r.Rekeyed(k) && MediaKey(r.states[k]) == r.states[k + 1].current
  }

  lemma {:induction false} CurrentBetween(r: Run, m: nat, x: nat, j: nat)
    requires r.Valid() && FreshEpochs(r) && m <= x <= j <= |r.events|
    requires r.states[m].current == r.states[j].current && r.states[j].current.Some?
    ensures r.states[x].current == r.states[j].current
  {
    if x < j {
      assert r.states[j - 1].current == r.states[j].current;
      CurrentBetween(r, m, x, j - 1);
    }
  }

  /** While the state that media is keyed from stays current, media stays keyed from it. */
  lemma {:induction false} KeyStays(r: Run, i: nat, k: nat)
    requires r.Valid() && i <= k <= |r.events| && MediaKey(r.states[i]).Some?
    requires forall x :: i < x <= k ==> r.states[x].current == MediaKey(r.states[i])
    ensures MediaKey(r.states[k]) == MediaKey(r.states[i])
  {
    if i < k {
      KeyStays(r, i, k - 1);
      StepAt(r, k - 1);
      KeyChanges(r.lib, r.states[k - 1], r.events[k - 1]);
    }
  }

  /** Where epochs are fresh, keying again from a state used before is always redundant: the
      encryptor is keyed from that very state when it is created anew. */
  lemma KeyedAgainIsRedundant(r: Run, i: nat, k: nat, j: nat)
    requires r.Valid() && FreshEpochs(r) && KeyedAgain(r, i, k, j)
    ensures Redundant(r, k)
  {
    hide Step, Defined, Rekeys, r.Number;
    FrameUse(r, i);
    FrameUse(r, j);
    KeyWasCurrent(r, i);
    var m :| 0 <= m <= i && r.states[m].current == MediaKey(r.states[i]);
    PeriodOf(r, j);
    var p: nat :| Period(r, p, j);
    forall x | i < x <= p + 1 ensures r.states[x].current == MediaKey(r.states[i]) {
      CurrentBetween(r, m, x, p + 1);
    }
    KeyStays(r, i, k);
    assert k <= p;
  }

  /** So where epochs are fresh, some use repeats if and only if one key period emits more
      than 2^56 frames, or an encryptor in use is created anew for the very state it is keyed
      from, and used again. */
  lemma RepeatsIffRedundant(r: Run)
    requires r.Valid() && FreshEpochs(r)
    ensures (exists i: nat, j: nat :: SameUse(r, i, j))
       <==> (exists j: nat :: Exhausted(r, j))
            || (exists i: nat, k: nat, j: nat :: KeyedAgain(r, i, k, j) && Redundant(r, k))
  {
    RepeatsIff(r);
    forall i: nat, k: nat, j: nat | KeyedAgain(r, i, k, j) ensures Redundant(r, k) {
      KeyedAgainIsRedundant(r, i, k, j);
    }
  }
}
