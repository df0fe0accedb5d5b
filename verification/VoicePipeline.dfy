/** The voice send pipeline as interleaved atomic steps: producers that enqueue, the sender
    thread, the gateway that interrupts or stops it, and the silence sent on close. */
module VoicePipeline {
  import opened Wrappers
  import opened Bytes
  import opened Rtp

  datatype VoiceData = VoiceData(payload: seq<byte>, duration: nat, samples: int)

  /** A framed packet as it is queued. `source` (None for silence) and `index` (how many
      frames were built before it) are bookkeeping for the proofs; the code reads only the
      bytes. */
  datatype Framed = Framed(bytes: seq<byte>, duration: nat, samples: int, source: Option<VoiceData>, index: nat)

  datatype Counters = Counters(rtpSeq: nat, timestamp: nat, pNonce: nat)

  /** Where the sender thread is. */
  datatype Pc =
    | NotStarted
    | Top                      // about to test the stop flag
    | Waiting                  // in the wait for something to send
    | Sending                  // a packet is ready to be taken and sent
    | Checking                 // sent; about to look for the next frame to prepare
    | Taking                   // saw a waiting frame; about to take it
    | Framing(data: VoiceData) // took it; about to frame it
    | Done

  datatype Pipe = Pipe(
    waiting: seq<VoiceData>, prepared: seq<Framed>, counters: Counters,
    stop: bool, interrupt: bool, silenceSent: bool, pc: Pc,
    enqueued: seq<VoiceData>, attempted: seq<Framed>, discarded: seq<Framed>, framed: nat)

  /** ssrc and the transport are fixed for the run. The nonce starts anywhere. */
  datatype Config = Config(ssrc: nat, transport: Transport, start: Counters)

  predicate ConfigOk(c: Config) {
    c.ssrc < TWO32 && c.start.rtpSeq < TWO16 && c.start.timestamp < TWO32 && c.start.pNonce < TWO32
  }

  function Init(c: Config): Pipe {
    Pipe([], [], c.start, false, false, false, NotStarted, [], [], [], 0)
  }

  /** Twenty milliseconds at 48 kHz. */
  const SILENCE_SAMPLES: int := 960

  datatype Action =
    | Enqueue(data: VoiceData)
    | SetInterrupt(on: bool)
    | RequestStop
    | Start
    | LoopTop
    | Wake(opus: seq<byte>)
    | Attempt
    | Check
    | Take
    | Prepare(prepOpus: seq<byte>)
    | SendSilence(opuses: seq<seq<byte>>)

  // ----- framing -----

  function HeaderNow(c: Config, n: Counters): Header {
    Header(n.rtpSeq, n.timestamp, c.ssrc)
  }

  /** opus is what the DAVE layer made of the payload. */
  function FrameOf(c: Config, s: Pipe, opus: seq<byte>, duration: nat, samples: int,
                   source: Option<VoiceData>): Framed
  {
    Framed(Packet(c.transport, HeaderNow(c, s.counters), s.counters.pNonce, opus),
           duration, samples, source, s.framed)
  }

  /** Building a frame uses up a sequence number, its samples and a nonce. */
  function Count(s: Pipe, samples: int): Pipe {
    s.(counters := Counters((s.counters.rtpSeq + 1) % TWO16, (s.counters.timestamp + samples) % TWO32,
                            (s.counters.pNonce + 1) % TWO32),
       framed := s.framed + 1)
  }

  /** Takes the counters of the discarded packet back from its header bytes; the nonce
      counter is left alone. */
  function Rewind(s: Pipe): Pipe
    requires s.prepared != [] ==> |s.prepared[0].bytes| >= HEADER_SIZE
  {
    if s.prepared == [] then s
    else
      var h := DecodeHeader(s.prepared[0].bytes);
      s.(counters := s.counters.(rtpSeq := h.seqNo, timestamp := h.ts),
         prepared := [], discarded := s.discarded + s.prepared)
  }

  function SilenceFrame(c: Config, s: Pipe, opus: seq<byte>): Pipe {
    Count(s, SILENCE_SAMPLES).(attempted := s.attempted + [FrameOf(c, s, opus, 20, SILENCE_SAMPLES, None)])
  }

  function SilenceFrames(c: Config, s: Pipe, opuses: seq<seq<byte>>): Pipe {
    if opuses == [] then s
    else SilenceFrame(c, SilenceFrames(c, s, opuses[..|opuses| - 1]), opuses[|opuses| - 1])
  }

  // ----- steps -----

  /** When a step can happen. */
  predicate Enabled(s: Pipe, a: Action) {
    match a
    case Enqueue(_) => true
    case SetInterrupt(_) => true
    case RequestStop => true
    case Start => s.pc.NotStarted? && !s.silenceSent // silence waits for the thread that starts the sender
    case LoopTop => s.pc.Top?
    case Wake(_) => s.pc.Waiting? && (((s.waiting != [] || s.prepared != []) && !s.interrupt) || s.stop)
    case Attempt => s.pc.Sending?
    case Check => s.pc.Checking?
    case Take => s.pc.Taking?
    case Prepare(_) => s.pc.Framing?
    case SendSilence(opuses) => s.stop && (s.pc.NotStarted? || s.pc.Done?) && |opuses| == 5
  }

  /** What the step demands of the queues: no front or pop of an empty one, and a header's
      worth of bytes in a packet that is rewound. */
  predicate Demands(s: Pipe, a: Action) {
    match a
    case Wake(_) => !s.stop && s.prepared == [] ==> s.waiting != []
    case Attempt => s.prepared != []
    case Take => s.waiting != []
    case SendSilence(_) => s.prepared != [] ==> |s.prepared[0].bytes| >= HEADER_SIZE
    case _ => true
  }

  function Step(c: Config, s: Pipe, a: Action): Pipe
    requires Enabled(s, a) && Demands(s, a)
  {
    match a
    case Enqueue(d) => s.(waiting := s.waiting + [d], enqueued := s.enqueued + [d])
    case SetInterrupt(on) => s.(interrupt := on)
    case RequestStop => s.(stop := true)
    case Start => s.(pc := Top)
    case LoopTop => s.(pc := if s.stop then Done else Waiting)
    case Wake(opus) =>
      if s.stop then s.(pc := Done)
      else if s.prepared != [] then s.(pc := Sending)
      else
        var b := s.waiting[0];
        Count(s, b.samples).(waiting := s.waiting[1..],
                             prepared := [FrameOf(c, s, opus, b.duration, b.samples, Some(b))],
                             pc := Sending)
    case Attempt => s.(attempted := s.attempted + [s.prepared[0]], prepared := s.prepared[1..], pc := Checking)
    case Check => s.(pc := if s.waiting != [] && !s.interrupt then Taking else Top)
    case Take => s.(waiting := s.waiting[1..], pc := Framing(s.waiting[0]))
    case Prepare(opus) =>
      var b := s.pc.data;
      Count(s, b.samples).(prepared := [FrameOf(c, s, opus, b.duration, b.samples, Some(b))] + s.prepared, pc := Top)
    case SendSilence(opuses) =>
      if s.silenceSent then s else SilenceFrames(c, Rewind(s), opuses).(silenceSent := true)
  }

  // ----- the invariant -----

  function Sum(ps: seq<Framed>): int {
    if ps == [] then 0 else Sum(ps[..|ps| - 1]) + ps[|ps| - 1].samples
  }

  /** The header of the k-th packet on the wire, when the packets before it are ps. */
  function WireHeader(c: Config, ps: seq<Framed>): Header {
    Header((c.start.rtpSeq + |ps|) % TWO16, (c.start.timestamp + Sum(ps)) % TWO32, c.ssrc)
  }

  function NonceAt(c: Config, index: nat): nat {
    (c.start.pNonce + index) % TWO32
  }

  /** p was built by framing some opus data under this header and its own nonce. */
  ghost predicate BuiltAs(c: Config, p: Framed, h: Header) {
    exists opus :: p.bytes == Packet(c.transport, h, NonceAt(c, p.index), opus)
  }

  /** Packets in the order they go out: contiguous numbering, growing frame indices. */
  ghost predicate Contiguous(c: Config, ps: seq<Framed>) {
    && (forall i :: 0 <= i < |ps| ==> BuiltAs(c, ps[i], WireHeader(c, ps[..i])))
    && (forall i, j :: 0 <= i < j < |ps| ==> ps[i].index < ps[j].index)
  }

  /** A packet made of data has that data's samples and duration, and a packet of silence lasts
      twenty milliseconds at 48 kHz. */
  predicate Timed(p: Framed) {
    match p.source
    case Some(d) => p.samples == d.samples && p.duration == d.duration
    case None => p.samples == 960 && p.duration == 20
  }

  /** ps is the line of packets so far, and the next frame built will continue it. */
  ghost predicate InLine(c: Config, counters: Counters, framed: nat, ps: seq<Framed>) {
    && Contiguous(c, ps)
    && (forall p :: p in ps ==> p.index < framed && Timed(p))
    && HeaderNow(c, counters) == WireHeader(c, ps)
    && counters.pNonce == NonceAt(c, framed)
  }

  function Sources(ps: seq<Framed>): seq<VoiceData> {
    if ps == [] then []
    else
      var p := ps[|ps| - 1];
      Sources(ps[..|ps| - 1]) + (if p.source.Some? then [p.source.value] else [])
  }

  function InHand(pc: Pc): seq<VoiceData> {
    if pc.Framing? then [pc.data] else []
  }

  /** Everything enqueued is on the wire, discarded, prepared, in the sender's hand or
      waiting, in that order. */
  predicate Conserved(s: Pipe) {
    Sources(s.attempted) + Sources(s.discarded) + Sources(s.prepared) + InHand(s.pc) + s.waiting == s.enqueued
  }

  predicate Control(s: Pipe) {
    && |s.prepared| <= 1 && |s.discarded| <= 1
    && (s.pc.Sending? ==> |s.prepared| == 1)
    && (s.pc.Checking? || s.pc.Taking? || s.pc.Framing? ==> s.prepared == [])
    && (s.pc.Taking? ==> s.waiting != [])
    && (s.silenceSent ==> s.stop && (s.pc.NotStarted? || s.pc.Done?) && s.prepared == [])
    && (!s.silenceSent ==> s.discarded == [])
  }

  ghost predicate Inv(c: Config, s: Pipe) {
    && Control(s)
    && InLine(c, s.counters, s.framed, s.attempted + s.prepared)
    && Conserved(s)
  }

  // ----- appending a packet -----

  lemma SumAppend(ps: seq<Framed>, p: Framed)
    ensures Sum(ps + [p]) == Sum(ps) + p.samples
  {
    assert (ps + [p])[..|ps|] == ps;
  }

  lemma {:induction false} SourcesConcat(ps: seq<Framed>, qs: seq<Framed>)
    ensures Sources(ps + qs) == Sources(ps) + Sources(qs)
  {
    if qs == [] {
      assert ps + qs == ps;
    } else {
      assert (ps + qs)[..|ps + qs| - 1] == ps + qs[..|qs| - 1];
      SourcesConcat(ps, qs[..|qs| - 1]);
    }
  }

  lemma SourcesOne(p: Framed)
    ensures Sources([p]) == if p.source.Some? then [p.source.value] else []
  {
    assert [p][..0] == [];
  }

  lemma ContiguousAppend(c: Config, ps: seq<Framed>, p: Framed)
    requires Contiguous(c, ps) && BuiltAs(c, p, WireHeader(c, ps))
    requires forall q :: q in ps ==> q.index < p.index
    ensures Contiguous(c, ps + [p])
  {
    hide BuiltAs, WireHeader;
    var qs := ps + [p];
    assert qs[..|ps|] == ps;
    forall i | 0 <= i < |qs| ensures BuiltAs(c, qs[i], WireHeader(c, qs[..i])) {
      if i < |ps| { assert qs[..i] == ps[..i]; }
    }
  }

  lemma ContiguousPrefix(c: Config, ps: seq<Framed>, qs: seq<Framed>)
    requires Contiguous(c, ps + qs)
    ensures Contiguous(c, ps)
  {
    hide BuiltAs, WireHeader;
    forall i | 0 <= i < |ps| ensures BuiltAs(c, ps[i], WireHeader(c, ps[..i])) {
      assert (ps + qs)[..i] == ps[..i];
      assert BuiltAs(c, (ps + qs)[i], WireHeader(c, (ps + qs)[..i]));
    }
    forall i, j | 0 <= i < j < |ps| ensures ps[i].index < ps[j].index {
      assert (ps + qs)[i] == ps[i] && (ps + qs)[j] == ps[j];
    }
  }

  lemma AddMod(x: int, k: int, m: int)
    requires m > 0
    ensures (x % m + k) % m == (x + k) % m
  {
    var q, r := (x % m + k) / m, (x % m + k) % m;
    assert x % m + k == m * q + r;
    assert x + k == m * (x / m + q) + r;
    ModUnique(x + k, m, x / m + q, r);
  }

  lemma CountersContinue(c: Config, s: Pipe, ps: seq<Framed>, p: Framed)
    requires HeaderNow(c, s.counters) == WireHeader(c, ps) && s.counters.pNonce == NonceAt(c, s.framed)
    ensures var s' := Count(s, p.samples);
            HeaderNow(c, s'.counters) == WireHeader(c, ps + [p]) && s'.counters.pNonce == NonceAt(c, s'.framed)
  {
    SumAppend(ps, p);
    AddMod(c.start.rtpSeq + |ps|, 1, TWO16);
    AddMod(c.start.timestamp + Sum(ps), p.samples, TWO32);
    AddMod(c.start.pNonce + s.framed, 1, TWO32);
  }

  lemma FrameIsBuilt(c: Config, s: Pipe, opus: seq<byte>, duration: nat, samples: int, source: Option<VoiceData>)
    requires s.counters.pNonce == NonceAt(c, s.framed)
    ensures BuiltAs(c, FrameOf(c, s, opus, duration, samples, source), HeaderNow(c, s.counters))
  {
    hide Packet, NonceAt;
  }

  /** Framing with counters in line yields the next packet, and leaves the counters in line
      with it. */
  lemma FrameContinues(
      c: Config, s: Pipe, ps: seq<Framed>, opus: seq<byte>, duration: nat, samples: int, source: Option<VoiceData>)
    requires InLine(c, s.counters, s.framed, ps)
    requires Timed(Framed([], duration, samples, source, 0))
    ensures var p, s' := FrameOf(c, s, opus, duration, samples, source), Count(s, samples);
            InLine(c, s'.counters, s'.framed, ps + [p])
  {
    hide BuiltAs, Contiguous, WireHeader, NonceAt, Packet, HeaderNow;
    var p := FrameOf(c, s, opus, duration, samples, source);
    FrameIsBuilt(c, s, opus, duration, samples, source);
    ContiguousAppend(c, ps, p);
    CountersContinue(c, s, ps, p);
  }

  lemma InLinePrefix(c: Config, counters: Counters, framed: nat, ps: seq<Framed>, qs: seq<Framed>)
    requires InLine(c, counters, framed, ps + qs)
    ensures Contiguous(c, ps) && forall p :: p in ps ==> p.index < framed && Timed(p)
  {
    hide Contiguous, WireHeader, NonceAt, HeaderNow, Timed;
    ContiguousPrefix(c, ps, qs);
    forall p | p in ps ensures p.index < framed && Timed(p) { assert p in ps + qs; }
  }

  // ----- every step keeps the invariant -----

  lemma InvInit(c: Config)
    requires ConfigOk(c)
    ensures Inv(c, Init(c))
  {
    hide BuiltAs;
    assert Init(c).attempted + Init(c).prepared == [];
  }

  /** No step ever takes from an empty queue or rewinds from a short packet, whatever the
      interleaving. */
  lemma InvDemands(c: Config, s: Pipe, a: Action)
    requires ConfigOk(c) && Inv(c, s) && Enabled(s, a)
    ensures Demands(s, a)
  {
    if a.SendSilence? && s.prepared != [] {
      PreparedHeader(c, s);
    }
  }

  lemma NoSources()
    ensures Sources([]) == []
  {
  }

  /** Wake and Prepare: the queue of prepared packets is empty, so the new one is next. */
  lemma FrameStep(c: Config, s: Pipe, a: Action)
    requires Inv(c, s) && Enabled(s, a) && Demands(s, a)
    requires (a.Wake? && !s.stop && s.prepared == []) || a.Prepare?
    ensures Inv(c, Step(c, s, a))
  {
    hide InLine, Sources, FrameOf;
    var b := if a.Wake? then s.waiting[0] else s.pc.data;
    var opus := if a.Wake? then a.opus else a.prepOpus;
    var p := FrameOf(c, s, opus, b.duration, b.samples, Some(b));
    var s' := Step(c, s, a);
    assert s.attempted + s.prepared == s.attempted;
    FrameContinues(c, s, s.attempted, opus, b.duration, b.samples, Some(b));
    assert s'.prepared == [p];
    FrameSource(c, s, opus, b);
    NoSources();
    assert a.Wake? ==> s.waiting == [b] + s'.waiting;
    var before := Sources(s.attempted) + Sources(s.discarded);
    assert before + [b] + InHand(s'.pc) + s'.waiting == before + [] + InHand(s.pc) + s.waiting;
  }

  lemma FrameSource(c: Config, s: Pipe, opus: seq<byte>, b: VoiceData)
    ensures Sources([FrameOf(c, s, opus, b.duration, b.samples, Some(b))]) == [b]
  {
    hide Packet;
    SourcesOne(FrameOf(c, s, opus, b.duration, b.samples, Some(b)));
  }

  lemma AttemptStep(c: Config, s: Pipe)
    requires Inv(c, s) && Enabled(s, Attempt) && Demands(s, Attempt)
    ensures Inv(c, Step(c, s, Attempt))
  {
    hide InLine, Sources;
    var s', p := Step(c, s, Attempt), s.prepared[0];
    assert s.prepared == [p] && s'.prepared == [];
    assert s'.attempted + s'.prepared == s.attempted + s.prepared;
    SourcesConcat(s.attempted, [p]);
    NoSources();
    assert Sources(s'.attempted) + [] + [] + [] + s'.waiting
        == Sources(s.attempted) + [] + Sources([p]) + [] + s.waiting;
  }

  /** Discarding the prepared packet and taking its header back puts the counters in line
      with what was attempted. */
  lemma RewindStep(c: Config, s: Pipe)
    requires ConfigOk(c) && Inv(c, s) && Demands(s, SendSilence([])) && s.stop && (s.pc.NotStarted? || s.pc.Done?)
    requires !s.silenceSent
    ensures var r := Rewind(s);
            && r == s.(counters := r.counters, prepared := [], discarded := s.prepared)
            && Conserved(r) && InLine(c, r.counters, r.framed, r.attempted)
  {
    hide Contiguous, Sources, BuiltAs, NonceAt, DecodeHeader, WireHeader;
    var r := Rewind(s);
    InLinePrefix(c, s.counters, s.framed, s.attempted, s.prepared);
    NoSources();
    if s.prepared == [] {
      assert s.attempted + s.prepared == s.attempted;
    } else {
      PreparedHeader(c, s);
      assert [] + s.prepared == s.prepared;
    }
  }

  lemma PreparedHeader(c: Config, s: Pipe)
    requires ConfigOk(c) && Inv(c, s) && s.prepared != []
    ensures |s.prepared[0].bytes| >= HEADER_SIZE
    ensures DecodeHeader(s.prepared[0].bytes) == WireHeader(c, s.attempted)
    ensures WireHeader(c, s.attempted).ssrc == c.ssrc
  {
    hide BuiltAs, WireHeader, HeaderNow, NonceAt, Sources;
    var ps := s.attempted + s.prepared;
    assert ps[|s.attempted|] == s.prepared[0] && ps[..|s.attempted|] == s.attempted;
    WireInRange(c, s.attempted);
    HeaderOfBuilt(c, s.prepared[0], WireHeader(c, s.attempted));
  }

  lemma WireInRange(c: Config, ps: seq<Framed>)
    requires ConfigOk(c)
    ensures InRange(WireHeader(c, ps)) && WireHeader(c, ps).ssrc == c.ssrc
  {
  }

  lemma HeaderOfBuilt(c: Config, p: Framed, h: Header)
    requires ConfigOk(c) && BuiltAs(c, p, h) && InRange(h)
    ensures |p.bytes| >= HEADER_SIZE + NONCE_SIZE
    ensures DecodeHeader(p.bytes) == h && Parse(p.bytes).nonce == NonceAt(c, p.index)
  {
    var opus :| p.bytes == Packet(c.transport, h, NonceAt(c, p.index), opus);
    ParsePacket(c.transport, h, NonceAt(c, p.index), opus);
  }

  /** The silence frames continue the line where the last packet on the wire left it. */
  lemma {:induction false} SilenceStep(c: Config, s: Pipe, opuses: seq<seq<byte>>)
    requires s.prepared == [] && InLine(c, s.counters, s.framed, s.attempted)
    ensures var t := SilenceFrames(c, s, opuses);
            && t == s.(counters := t.counters, framed := t.framed, attempted := t.attempted)
            && Sources(t.attempted) == Sources(s.attempted)
            && |t.attempted| == |s.attempted| + |opuses|
            && InLine(c, t.counters, t.framed, t.attempted)
  {
    hide InLine, Sources, SilenceFrame;
    if opuses != [] {
      SilenceStep(c, s, opuses[..|opuses| - 1]);
      OneSilence(c, SilenceFrames(c, s, opuses[..|opuses| - 1]), opuses[|opuses| - 1]);
    }
  }

  lemma OneSilence(c: Config, s: Pipe, opus: seq<byte>)
    requires InLine(c, s.counters, s.framed, s.attempted)
    ensures var t := SilenceFrame(c, s, opus);
            && t == s.(counters := t.counters, framed := t.framed, attempted := t.attempted)
            && Sources(t.attempted) == Sources(s.attempted)
            && |t.attempted| == |s.attempted| + 1
            && InLine(c, t.counters, t.framed, t.attempted)
  {
    hide InLine, Sources, FrameOf;
    FrameContinues(c, s, s.attempted, opus, 20, SILENCE_SAMPLES, None);
    var p := FrameOf(c, s, opus, 20, SILENCE_SAMPLES, None);
    SilenceSource(c, s, opus);
    SourcesConcat(s.attempted, [p]);
  }

  lemma SilenceSource(c: Config, s: Pipe, opus: seq<byte>)
    ensures Sources([FrameOf(c, s, opus, 20, SILENCE_SAMPLES, None)]) == []
  {
    hide Packet;
    SourcesOne(FrameOf(c, s, opus, 20, SILENCE_SAMPLES, None));
  }

  /** r is s rewound, t is r with silence on the wire. */
  lemma SilentInv(c: Config, s: Pipe, r: Pipe, t: Pipe)
    requires Control(s) && !s.silenceSent && s.stop && (s.pc.NotStarted? || s.pc.Done?)
    requires r == s.(counters := r.counters, prepared := [], discarded := s.prepared) && Conserved(r)
    requires t == r.(counters := t.counters, framed := t.framed, attempted := t.attempted)
    requires Sources(t.attempted) == Sources(r.attempted) && InLine(c, t.counters, t.framed, t.attempted)
    ensures Inv(c, t.(silenceSent := true))
  {
    hide InLine, Sources;
    assert t.attempted + t.prepared == t.attempted;
  }

  lemma CloseStep(c: Config, s: Pipe, opuses: seq<seq<byte>>)
    requires ConfigOk(c) && Inv(c, s) && Enabled(s, SendSilence(opuses)) && Demands(s, SendSilence(opuses))
    ensures Inv(c, Step(c, s, SendSilence(opuses)))
  {
    if !s.silenceSent {
      hide InLine, Sources, SilenceFrames, Rewind, Conserved;
      RewindStep(c, s);
      var r := Rewind(s);
      SilenceStep(c, r, opuses);
      SilentInv(c, s, r, SilenceFrames(c, r, opuses));
    }
  }

  lemma EnqueueStep(c: Config, s: Pipe, d: VoiceData)
    requires Inv(c, s)
    ensures Inv(c, Step(c, s, Enqueue(d)))
  {
    hide InLine, Sources;
    var before := Sources(s.attempted) + Sources(s.discarded) + Sources(s.prepared) + InHand(s.pc);
    assert before + (s.waiting + [d]) == (before + s.waiting) + [d];
  }

  lemma TakeStep(c: Config, s: Pipe)
    requires Inv(c, s) && Enabled(s, Take) && Demands(s, Take)
    ensures Inv(c, Step(c, s, Take))
  {
    hide InLine, Sources;
    var before := Sources(s.attempted) + Sources(s.discarded) + Sources(s.prepared);
    assert before + [s.waiting[0]] + s.waiting[1..] == before + [] + s.waiting;
  }

  lemma InvStep(c: Config, s: Pipe, a: Action)
    requires ConfigOk(c) && Inv(c, s) && Enabled(s, a) && Demands(s, a)
    ensures Inv(c, Step(c, s, a))
  {
    hide Inv, Step;
    match a
    case Enqueue(d) => EnqueueStep(c, s, d);
    case Attempt => AttemptStep(c, s);
    case Take => TakeStep(c, s);
    case Prepare(_) => FrameStep(c, s, a);
    case SendSilence(opuses) => CloseStep(c, s, opuses);
    case Wake(_) => WakeStep(c, s, a);
    case _ => ControlStep(c, s, a);
  }

  lemma ControlStep(c: Config, s: Pipe, a: Action)
    requires Inv(c, s) && Enabled(s, a)
    requires a.SetInterrupt? || a.RequestStop? || a.Start? || a.LoopTop? || a.Check?
    ensures Inv(c, Step(c, s, a))
  {
    hide InLine, Sources;
  }

  lemma WakeStep(c: Config, s: Pipe, a: Action)
    requires Inv(c, s) && Enabled(s, a) && Demands(s, a) && a.Wake?
    ensures Inv(c, Step(c, s, a))
  {
    hide InLine, Sources;
    if !s.stop && s.prepared == [] { FrameStep(c, s, a); }
  }

  // ----- runs -----

  ghost predicate IsRun(c: Config, actions: seq<Action>, states: seq<Pipe>) {
    && ConfigOk(c)
    && |states| == |actions| + 1 && states[0] == Init(c)
    && forall i :: 0 <= i < |actions| ==>
         && Enabled(states[i], actions[i])
         && (Demands(states[i], actions[i]) ==> states[i + 1] == Step(c, states[i], actions[i]))
  }

  lemma ExtendRun(c: Config, actions: seq<Action>, states: seq<Pipe>, a: Action)
    requires IsRun(c, actions, states) && |states| == |actions| + 1
    requires Enabled(states[|actions|], a) && Demands(states[|actions|], a)
    ensures IsRun(c, actions + [a], states + [Step(c, states[|actions|], a)])
  {
    hide Enabled, Demands, Step, Init;
  }

  /** In every interleaving, the queues are never popped empty and the invariant holds. */
  lemma {:induction false} PipelineTheorem(c: Config, actions: seq<Action>, states: seq<Pipe>, i: nat)
    requires IsRun(c, actions, states) && i <= |actions|
    ensures Inv(c, states[i])
    ensures i < |actions| ==> Demands(states[i], actions[i])
  {
    if i == 0 {
      InvInit(c);
    } else {
      PipelineTheorem(c, actions, states, i - 1);
      assert Enabled(states[i - 1], actions[i - 1]);
      InvStep(c, states[i - 1], actions[i - 1]);
    }
    if i < |actions| {
      assert Enabled(states[i], actions[i]);
      InvDemands(c, states[i], actions[i]);
    }
  }

  lemma WirePacket(c: Config, s: Pipe, k: nat)
    requires ConfigOk(c) && Inv(c, s) && k < |s.attempted|
    ensures |s.attempted[k].bytes| >= HEADER_SIZE + NONCE_SIZE
    ensures Parse(s.attempted[k].bytes).header == WireHeader(c, s.attempted[..k])
    ensures Parse(s.attempted[k].bytes).nonce == NonceAt(c, s.attempted[k].index)
  {
    hide BuiltAs, WireHeader, NonceAt, InLine, Sources;
    InLinePrefix(c, s.counters, s.framed, s.attempted, s.prepared);
    WireInRange(c, s.attempted[..k]);
    HeaderOfBuilt(c, s.attempted[k], WireHeader(c, s.attempted[..k]));
  }

  /** The samples that the data in these packets stands for, with 960 for each of silence. */
  function SamplesOf(ps: seq<Framed>): int {
    if ps == [] then 0
    else
      SamplesOf(ps[..|ps| - 1]) +
      (match ps[|ps| - 1].source
       case Some(d) => d.samples
       case None => 960)
  }

  lemma {:induction false} SumIsSamples(ps: seq<Framed>)
    requires forall p :: p in ps ==> Timed(p)
    ensures Sum(ps) == SamplesOf(ps)
  {
    if ps != [] {
      SumIsSamples(ps[..|ps| - 1]);
      assert Timed(ps[|ps| - 1]);
    }
  }

  /** What a receiver sees: the k-th packet ever attempted, silence included, carries the
      k-th sequence number and, as its timestamp, the samples of the data attempted before it;
      and every packet is recorded with the time its own data takes. */
  lemma WireTheorem(c: Config, actions: seq<Action>, states: seq<Pipe>, i: nat, k: nat)
    requires IsRun(c, actions, states) && i <= |actions| && k < |states[i].attempted|
    ensures var wire := states[i].attempted;
            && |wire[k].bytes| >= HEADER_SIZE + NONCE_SIZE
            && Parse(wire[k].bytes).header
               == Header((c.start.rtpSeq + k) % 0x1_0000,
                         (c.start.timestamp + SamplesOf(wire[..k])) % 0x1_0000_0000, c.ssrc)
            && Parse(wire[k].bytes).nonce == (c.start.pNonce + wire[k].index) % 0x1_0000_0000
            && Timed(wire[k])
  {
    hide Inv, Step, Parse, Timed, SamplesOf, Sum;
    PipelineTheorem(c, actions, states, i);
    WirePacket(c, states[i], k);
    WireTimes(c, states[i], k);
  }

  lemma WireTimes(c: Config, s: Pipe, k: nat)
    requires Inv(c, s) && k < |s.attempted|
    ensures Sum(s.attempted[..k]) == SamplesOf(s.attempted[..k]) && Timed(s.attempted[k])
  {
    hide Contiguous, WireHeader, NonceAt, HeaderNow, Timed, Sum, SamplesOf, Sources;
    InLinePrefix(c, s.counters, s.framed, s.attempted, s.prepared);
    assert forall p :: p in s.attempted[..k] ==> p in s.attempted;
    SumIsSamples(s.attempted[..k]);
  }

  lemma Increasing(c: Config, s: Pipe, k: nat, m: nat)
    requires Inv(c, s) && k < m < |s.attempted|
    ensures s.attempted[k].index < s.attempted[m].index < s.framed
  {
    hide BuiltAs, WireHeader, InLine, Sources;
    InLinePrefix(c, s.counters, s.framed, s.attempted, s.prepared);
    assert s.attempted[m] in s.attempted;
  }

  /** Transport nonces are never rewound: two packets on the wire share one only if a
      multiple of 2^32 frames were built from one to the other. */
  lemma NonceTheorem(c: Config, actions: seq<Action>, states: seq<Pipe>, i: nat, k: nat, m: nat)
    requires IsRun(c, actions, states) && i <= |actions| && k < m < |states[i].attempted|
    ensures var wire := states[i].attempted;
            && wire[k].index < wire[m].index < states[i].framed
            && |wire[k].bytes| >= HEADER_SIZE + NONCE_SIZE && |wire[m].bytes| >= HEADER_SIZE + NONCE_SIZE
            && (Parse(wire[k].bytes).nonce == Parse(wire[m].bytes).nonce <==>
                  (wire[m].index - wire[k].index) % TWO32 == 0)
            && (states[i].framed <= TWO32 ==> Parse(wire[k].bytes).nonce != Parse(wire[m].bytes).nonce)
  {
    hide Inv, Step, Parse;
    PipelineTheorem(c, actions, states, i);
    WirePacket(c, states[i], k);
    WirePacket(c, states[i], m);
    Increasing(c, states[i], k, m);
    var wire := states[i].attempted;
    SameResidue(c.start.pNonce + wire[k].index, c.start.pNonce + wire[m].index, TWO32);
  }

  lemma SameResidue(a: int, b: int, m: int)
    requires m > 0
    ensures a % m == b % m <==> (b - a) % m == 0
  {
    if a % m == b % m {
      assert b - a == m * (b / m - a / m);
      ModUnique(b - a, m, b / m - a / m, 0);
    }
    if (b - a) % m == 0 {
      assert b == m * ((b - a) / m + a / m) + a % m;
      ModUnique(b, m, (b - a) / m + a / m, a % m);
    }
  }

  // ----- a run on which a transport nonce repeats -----

  const ANY_DATA: VoiceData := VoiceData([], 20, SILENCE_SAMPLES)

  /** Between two rounds, with nothing queued, after n packets without a loss. */
  predicate Idle(s: Pipe, n: nat) {
    && s.pc == Top && !s.stop && !s.interrupt && s.waiting == [] && s.prepared == []
    && |s.attempted| == n == s.framed && forall k :: 0 <= k < n ==> s.attempted[k].index == k
  }

  ghost predicate Reachable(c: Config, s: Pipe) {
    exists actions, states :: IsRun(c, actions, states) && states[|actions|] == s
  }

  lemma ReachNext(c: Config, s: Pipe, a: Action)
    requires Reachable(c, s) && Enabled(s, a) && Demands(s, a)
    ensures Reachable(c, Step(c, s, a))
  {
    hide Enabled, Demands, Step;
    var actions, states :| IsRun(c, actions, states) && states[|actions|] == s;
    ExtendRun(c, actions, states, a);
    assert (states + [Step(c, s, a)])[|actions + [a]|] == Step(c, s, a);
  }

  /** A packet comes in, is framed when the sender wakes up, and is attempted. */
  lemma OneRound(c: Config, s: Pipe, n: nat)
    requires Reachable(c, s) && Idle(s, n)
    ensures exists t :: Reachable(c, t) && Idle(t, n + 1)
  {
    hide Reachable, FrameOf;
    ReachNext(c, s, Enqueue(ANY_DATA));
    var s1 := Step(c, s, Enqueue(ANY_DATA));
    ReachNext(c, s1, LoopTop);
    var s2 := Step(c, s1, LoopTop);
    ReachNext(c, s2, Wake([]));
    var s3 := Step(c, s2, Wake([]));
    ReachNext(c, s3, Attempt);
    var s4 := Step(c, s3, Attempt);
    ReachNext(c, s4, Check);
    var t := Step(c, s4, Check);
    FrameIndex(c, s2);
    assert Idle(t, n + 1);
  }

  lemma FrameIndex(c: Config, s: Pipe)
    ensures FrameOf(c, s, [], ANY_DATA.duration, ANY_DATA.samples, Some(ANY_DATA)).index == s.framed
  {
  }

  lemma {:induction false} AnyLength(c: Config, n: nat)
    requires ConfigOk(c)
    ensures exists s :: Reachable(c, s) && Idle(s, n)
  {
    if n == 0 {
      var none: seq<Action> := [];
      assert IsRun(c, none, [Init(c)]) && [Init(c)][|none|] == Init(c);
      ReachNext(c, Init(c), Start);
      assert Idle(Step(c, Init(c), Start), 0);
    } else {
      AnyLength(c, n - 1);
      var s :| Reachable(c, s) && Idle(s, n - 1);
      OneRound(c, s, n - 1);
    }
  }

  predicate ShareNonce(wire: seq<Framed>, k: nat, m: nat) {
    && k < m < |wire|
    && |wire[k].bytes| >= HEADER_SIZE + NONCE_SIZE && |wire[m].bytes| >= HEADER_SIZE + NONCE_SIZE
    && Parse(wire[k].bytes).nonce == Parse(wire[m].bytes).nonce
  }

  /** From any start, packet 2^32 of a sender that is never interrupted repeats the nonce of
      packet 0. */
  lemma NonceRepeats(c: Config)
    requires ConfigOk(c)
    ensures exists s :: Reachable(c, s) && |s.attempted| == TWO32 + 1 && ShareNonce(s.attempted, 0, TWO32)
  {
    hide Step, Parse;
    AnyLength(c, TWO32 + 1);
    var s :| Reachable(c, s) && Idle(s, TWO32 + 1);
    var actions, states :| IsRun(c, actions, states) && states[|actions|] == s;
    NonceTheorem(c, actions, states, |actions|, 0, TWO32);
  }

  // ----- conservation -----

  /** In every state, everything ever enqueued is accounted for, once and in order: attempted,
      discarded, prepared, in the sender's hand, or waiting. Nothing is discarded until
      silence is sent, and then at most one packet. */
  lemma ConservationTheorem(c: Config, actions: seq<Action>, states: seq<Pipe>, i: nat)
    requires IsRun(c, actions, states) && i <= |actions|
    ensures var s := states[i];
            && Sources(s.attempted) + Sources(s.discarded) + Sources(s.prepared) + InHand(s.pc) + s.waiting
               == s.enqueued
            && |s.prepared| <= 1 && |s.discarded| <= 1
            && (!s.silenceSent ==> s.discarded == [])
            && (s.silenceSent ==> s.prepared == [] && InHand(s.pc) == [])
            && Sources(s.attempted) <= s.enqueued
  {
    hide InLine, Step, Sources;
    PipelineTheorem(c, actions, states, i);
    var s := states[i];
    assert Sources(s.attempted) + Sources(s.discarded) + Sources(s.prepared) + InHand(s.pc) + s.waiting
        == Sources(s.attempted) + (Sources(s.discarded) + Sources(s.prepared) + InHand(s.pc) + s.waiting);
  }

  // ----- interruption -----

  /** How many packets the sender may still attempt, and frames it may still build, without
      waking up again. */
  function Sends(pc: Pc): nat {
    if pc.Sending? then 1 else 0
  }

  function Frames(pc: Pc): nat {
    match pc
    case Sending => 1
    case Checking => 1
    case Taking => 1
    case Framing(_) => 1
    case _ => 0
  }

  lemma HaltedStep(c: Config, s: Pipe, a: Action)
    requires Enabled(s, a) && Demands(s, a) && (s.interrupt || s.stop) && !a.SendSilence?
    ensures var t := Step(c, s, a);
            && |t.attempted| + Sends(t.pc) <= |s.attempted| + Sends(s.pc)
            && t.framed + Frames(t.pc) <= s.framed + Frames(s.pc)
  {
    hide FrameOf;
  }

  lemma RunStep(c: Config, actions: seq<Action>, states: seq<Pipe>, i: nat)
    requires IsRun(c, actions, states) && i < |actions|
    ensures Enabled(states[i], actions[i]) && Demands(states[i], actions[i])
    ensures states[i + 1] == Step(c, states[i], actions[i])
  {
    hide Inv, Step;
    PipelineTheorem(c, actions, states, i);
  }

  /** While the sender is interrupted or stopped, and before silence is sent, it attempts at
      most one more packet and builds at most one more frame: what it was already doing. */
  lemma {:induction false} HaltTheorem(c: Config, actions: seq<Action>, states: seq<Pipe>, i: nat, j: nat)
    requires IsRun(c, actions, states) && i <= j <= |actions| == |states| - 1
    requires forall k :: i <= k < j ==> (states[k].interrupt || states[k].stop) && !actions[k].SendSilence?
    ensures |states[j].attempted| + Sends(states[j].pc) <= |states[i].attempted| + Sends(states[i].pc)
    ensures states[j].framed + Frames(states[j].pc) <= states[i].framed + Frames(states[i].pc)
    ensures |states[j].attempted| <= |states[i].attempted| + 1 && states[j].framed <= states[i].framed + 1
  {
    if i < j {
      hide Step, Enabled, Demands, IsRun;
      RunStep(c, actions, states, j - 1);
      HaltTheorem(c, actions, states, i, j - 1);
      HaltedStep(c, states[j - 1], actions[j - 1]);
    }
  }

  /** Of these, an interrupted sender builds only the one it had taken already. */
  function Taken(pc: Pc): nat {
    if pc.Taking? || pc.Framing? then 1 else 0
  }

  lemma InterruptedStep(c: Config, s: Pipe, a: Action)
    requires Enabled(s, a) && Demands(s, a) && s.interrupt && !a.SendSilence?
    ensures var t := Step(c, s, a);
            && t.framed + Taken(t.pc) <= s.framed + Taken(s.pc)
            && (t.waiting == s.waiting || a.Enqueue? || a.Take?)
  {
    hide FrameOf;
  }

  /** While the sender is interrupted, and before silence is sent, it builds no frame but one it
      was already taking. */
  lemma {:induction false} InterruptTheorem(c: Config, actions: seq<Action>, states: seq<Pipe>, i: nat, j: nat)
    requires IsRun(c, actions, states) && i <= j <= |actions| == |states| - 1
    requires forall k :: i <= k < j ==> states[k].interrupt && !actions[k].SendSilence?
    ensures states[j].framed + Taken(states[j].pc) <= states[i].framed + Taken(states[i].pc)
  {
    if i < j {
      hide Step, Enabled, Demands, IsRun;
      RunStep(c, actions, states, j - 1);
      InterruptTheorem(c, actions, states, i, j - 1);
      InterruptedStep(c, states[j - 1], actions[j - 1]);
    }
  }

  /** After an attempt the sender goes on to take a frame exactly if it sees one waiting and is
      not interrupted. */
  lemma LooksAhead(c: Config, actions: seq<Action>, states: seq<Pipe>, i: nat)
    requires IsRun(c, actions, states) && i < |actions| && actions[i].Check?
    ensures var s, t := states[i], states[i + 1];
            && (t.pc == Taking <==> s.waiting != [] && !s.interrupt)
            && (t.pc != Taking ==> t.pc == Top)
            && t.framed == s.framed && t.waiting == s.waiting
  {
    RunStep(c, actions, states, i);
  }

  // ----- closing -----

  lemma {:induction false} SilenceAppends(c: Config, s: Pipe, opuses: seq<seq<byte>>)
    ensures var t := SilenceFrames(c, s, opuses);
            && t == s.(counters := t.counters, framed := t.framed, attempted := t.attempted)
            && |t.attempted| == |s.attempted| + |opuses| && t.attempted[..|s.attempted|] == s.attempted
            && forall i :: |s.attempted| <= i < |t.attempted| ==> t.attempted[i].source.None?
  {
    hide FrameOf;
    if opuses != [] {
      var t := SilenceFrames(c, s, opuses[..|opuses| - 1]);
      SilenceAppends(c, s, opuses[..|opuses| - 1]);
      SilenceIsSilent(c, t, opuses[|opuses| - 1]);
    }
  }

  lemma SilenceIsSilent(c: Config, s: Pipe, opus: seq<byte>)
    ensures FrameOf(c, s, opus, 20, SILENCE_SAMPLES, None).source.None?
  {
  }

  /** On close, five packets of silence follow what was attempted and what was prepared is
      dropped; what waits stays. A second close does nothing. */
  lemma SilenceTheorem(c: Config, actions: seq<Action>, states: seq<Pipe>, i: nat)
    requires IsRun(c, actions, states) && i < |actions| && actions[i].SendSilence?
    ensures var s, t := states[i], states[i + 1];
            && t.silenceSent && t.waiting == s.waiting && t.enqueued == s.enqueued
            && (s.silenceSent ==> t == s)
            && (!s.silenceSent ==>
                 && |t.attempted| == |s.attempted| + 5 && t.attempted[..|s.attempted|] == s.attempted
                 && (forall k :: |s.attempted| <= k < |t.attempted| ==> t.attempted[k].source.None?)
                 && t.prepared == [] && t.discarded == s.discarded + s.prepared)
  {
    RunStep(c, actions, states, i);
    hide SilenceFrames, DecodeHeader;
    if !states[i].silenceSent {
      SilenceAppends(c, Rewind(states[i]), actions[i].opuses);
    }
  }
}
