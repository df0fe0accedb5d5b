/** The sending half of a voice connection as an object. Its methods are the stretches of code
    that the threads run undisturbed; the object records the run they make up, so that every
    history of the object is a run of the pipeline and has its properties. */
module VoiceSender {
  import opened Wrappers
  import opened Bytes
  import opened Rtp
  import opened VoicePipeline

  /** What producers and the gateway may do at any time. */
  predicate FromOutside(actions: seq<Action>) {
    forall a :: a in actions ==> a.Enqueue? || a.SetInterrupt? || a.RequestStop?
  }

  /** What happens around the sender during one round of its loop: the actions of others at
      every point where they can come in between, and what the DAVE layer makes of payloads. */
  datatype Turn = Turn(whileWaiting: seq<Action>, opus: seq<byte>, beforeSend: seq<Action>, whileSending: seq<Action>,
                       afterLook: seq<Action>, afterTake: seq<Action>, prepOpus: seq<byte>, whileSleeping: seq<Action>)

  predicate TurnOk(t: Turn) {
    && FromOutside(t.whileWaiting) && FromOutside(t.beforeSend) && FromOutside(t.whileSending)
    && FromOutside(t.afterLook) && FromOutside(t.afterTake) && FromOutside(t.whileSleeping)
  }

  class VoiceConnection {
    var voiceDataQueue: seq<VoiceData>
    var sendDataQueue: seq<Framed>
    var rtpSeq: nat
    var timestamp: nat
    var pNonce: nat
    var stop: bool
    var udpInterrupt: bool
    var silenceSent: bool
    var framed: nat
    const config: Config

    ghost var pc: Pc
    ghost var enqueued: seq<VoiceData>
    ghost var attempted: seq<Framed>
    ghost var discarded: seq<Framed>

    /** The run so far. */
    ghost var log: seq<Action>
    ghost var states: seq<Pipe>

    ghost function View(): Pipe
      reads this
    {
      Pipe(voiceDataQueue, sendDataQueue, Counters(rtpSeq, timestamp, pNonce), stop, udpInterrupt, silenceSent, pc,
           enqueued, attempted, discarded, framed)
    }

    ghost predicate Valid()
      reads this
    {
      TagLength(config.transport) && IsRun(config, log, states) && |states| == |log| + 1 && states[|log|] == View()
    }

    constructor (c: Config)
      requires ConfigOk(c) && TagLength(c.transport)
      ensures Valid() && config == c && View() == Init(c) && log == []
    {
      config := c;
      voiceDataQueue, sendDataQueue := [], [];
      rtpSeq, timestamp, pNonce := c.start.rtpSeq, c.start.timestamp, c.start.pNonce;
      stop, udpInterrupt, silenceSent := false, false, false;
      pc, enqueued, attempted, discarded, framed := NotStarted, [], [], [], 0;
      log, states := [], [Init(c)];
    }

    /** An enabled step of a valid object never takes from an empty queue. */
    lemma Safe(a: Action)
      requires Valid() && Enabled(View(), a)
      ensures Demands(View(), a)
    {
      hide IsRun, Inv;
      PipelineTheorem(config, log, states, |log|);
      RunConfig(config, log, states);
      InvDemands(config, View(), a);
    }

    /** The object has taken this step of the pipeline, which was possible and safe. */
    ghost predicate Took(before: Pipe, a: Action)
      reads this
    {
      Enabled(before, a) && Demands(before, a) && View() == Step(config, before, a)
    }

    /** Adds a step just taken to the run. */
    ghost method Record(a: Action, before: Pipe)
      requires TagLength(config.transport) && IsRun(config, log, states) && |states| == |log| + 1
      requires states[|log|] == before && Took(before, a)
      modifies this`log, this`states
      ensures Valid() && View() == old(View()) && Took(before, a) && log == old(log) + [a]
    {
      ExtendRun(config, log, states, a);
      log := log + [a];
      states := states + [View()];
    }

    /** Builds one frame and advances the three counters. */
    method FrameRtp(opus: seq<byte>, duration: nat, samples: int, source: Option<VoiceData>) returns (f: Framed)
      requires TagLength(config.transport)
      modifies this`rtpSeq, this`timestamp, this`pNonce, this`framed
      ensures f == FrameOf(config, old(View()), opus, duration, samples, source)
      ensures View() == Count(old(View()), samples)
    {
      var frame := FillFrame(config.transport, Header(rtpSeq, timestamp, config.ssrc), pNonce, opus);
      f := Framed(frame, duration, samples, source, framed);
      pNonce := (pNonce + 1) % TWO32;
      rtpSeq := (rtpSeq + 1) % TWO16;
      timestamp := (timestamp + samples) % TWO32;
      framed := framed + 1;
    }

    // ----- what others do -----

    method AddToQueue(data: VoiceData)
      requires Valid()
      modifies this
      ensures Valid() && Took(old(View()), Enqueue(data)) && log == old(log) + [Enqueue(data)]
    {
      hide IsRun;
      voiceDataQueue := voiceDataQueue + [data];
      enqueued := enqueued + [data];
      Record(Enqueue(data), old(View()));
    }

    /** Producers and the gateway come in between. */
    method Outside(actions: seq<Action>)
      requires Valid() && FromOutside(actions)
      modifies this
      ensures Valid() && log == old(log) + actions && pc == old(pc) && attempted == old(attempted)
      ensures old(voiceDataQueue) <= voiceDataQueue && sendDataQueue == old(sendDataQueue) && (old(stop) ==> stop)
    {
      hide IsRun;
      for i := 0 to |actions|
        invariant Valid() && log == old(log) + actions[..i] && pc == old(pc) && attempted == old(attempted)
        invariant old(voiceDataQueue) <= voiceDataQueue && sendDataQueue == old(sendDataQueue) && (old(stop) ==> stop)
      {
        assert actions[..i + 1] == actions[..i] + [actions[i]];
        ghost var before := View();
        assert actions[i] in actions;
        if actions[i].Enqueue? {
          AddToQueue(actions[i].data);
        } else if actions[i].SetInterrupt? {
          udpInterrupt := actions[i].on;
          Record(actions[i], before);
        } else {
          stop := true;
          Record(actions[i], before);
        }
      }
      assert actions[..|actions|] == actions;
    }

    method StartSender()
      requires Valid() && Enabled(View(), Start)
      modifies this
      ensures Valid() && Took(old(View()), Start) && log == old(log) + [Start]
    {
      hide IsRun;
      pc := Top;
      Record(Start, old(View()));
    }

    // ----- what the sender does -----

    /** The test of the loop. */
    method TestStop() returns (go: bool)
      requires Valid() && pc == Top
      modifies this
      ensures Valid() && Took(old(View()), LoopTop) && log == old(log) + [LoopTop]
      ensures go == !stop && stop == old(stop) && attempted == old(attempted) && pc == if go then Waiting else Done
    {
      hide IsRun;
      go := !stop;
      pc := if stop then Done else Waiting;
      Record(LoopTop, old(View()));
    }

    /** The sender, woken with the queue lock held: it leaves if it was stopped, and frames
        the front of the queue if nothing is prepared. */
    method WakeUp(opus: seq<byte>)
      requires Valid() && Enabled(View(), Wake(opus))
      modifies this
      ensures Valid() && Took(old(View()), Wake(opus)) && log == old(log) + [Wake(opus)]
      ensures stop == old(stop) && attempted == old(attempted) && pc == if stop then Done else Sending
    {
      hide IsRun, Packet;
      Safe(Wake(opus));
      if stop {
        pc := Done;
      } else {
        if sendDataQueue == [] {
          var b := voiceDataQueue[0];
          voiceDataQueue := voiceDataQueue[1..];
          var f := FrameRtp(opus, b.duration, b.samples, Some(b));
          sendDataQueue := [f] + sendDataQueue;
          assert sendDataQueue == [f];
        }
        pc := Sending;
      }
      Record(Wake(opus), old(View()));
    }

    /** Takes the prepared packet and tries to send it, whatever comes of that. */
    method TakeAndSend() returns (packet: Framed)
      requires Valid() && pc == Sending
      modifies this
      ensures Valid() && Took(old(View()), Attempt) && log == old(log) + [Attempt]
      ensures attempted == old(attempted) + [packet] && pc == Checking
    {
      hide IsRun;
      Safe(Attempt);
      packet := sendDataQueue[0];
      sendDataQueue := sendDataQueue[1..];
      attempted := attempted + [packet];
      pc := Checking;
      Record(Attempt, old(View()));
    }

    /** Looks, without the lock, for a frame to prepare. */
    method LookForNext() returns (more: bool)
      requires Valid() && pc == Checking
      modifies this
      ensures Valid() && Took(old(View()), Check) && log == old(log) + [Check]
      ensures attempted == old(attempted) && pc == if more then Taking else Top
    {
      hide IsRun;
      more := voiceDataQueue != [] && !udpInterrupt;
      pc := if more then Taking else Top;
      Record(Check, old(View()));
    }

    /** Takes the next waiting frame, which nobody else can have taken since it was seen. */
    method TakeNext() returns (b: VoiceData)
      requires Valid() && pc == Taking
      modifies this
      ensures Valid() && Took(old(View()), Take) && log == old(log) + [Take]
      ensures attempted == old(attempted) && pc == Framing(b)
    {
      hide IsRun;
      Safe(Take);
      b := voiceDataQueue[0];
      voiceDataQueue := voiceDataQueue[1..];
      pc := Framing(b);
      Record(Take, old(View()));
    }

    method PrepareNext(b: VoiceData, opus: seq<byte>)
      requires Valid() && pc == Framing(b)
      modifies this
      ensures Valid() && Took(old(View()), Prepare(opus)) && log == old(log) + [Prepare(opus)]
      ensures attempted == old(attempted) && pc == Top
    {
      hide IsRun;
      var f := FrameRtp(opus, b.duration, b.samples, Some(b));
      sendDataQueue := [f] + sendDataQueue;
      pc := Top;
      Record(Prepare(opus), old(View()));
    }

    /** Sends what is prepared, then prepares the next frame if one is seen waiting. */
    method SendAndPrepare(t: Turn)
      requires Valid() && pc == Sending && TurnOk(t)
      modifies this
      ensures Valid() && old(log) <= log && pc == Top
      ensures |attempted| == |old(attempted)| + 1 && old(attempted) <= attempted
    {
      hide IsRun, Took, Valid, FromOutside;
      Outside(t.beforeSend);
      var a := TakeAndSend();
      Outside(t.whileSending);
      var more := LookForNext();
      Outside(t.afterLook);
      if more {
        var b := TakeNext();
        Outside(t.afterTake);
        PrepareNext(b, t.prepOpus);
      }
      Outside(t.whileSleeping);
    }

    /** The sender's loop, for as many rounds as the history around it lasts. Every round
        attempts one packet. The loop ends early only when it is stopped or blocked in the wait,
        and all of it is a continuation of the run. */
    method UdpLoop(turns: seq<Turn>) returns (rounds: nat)
      requires Valid() && pc == Top && forall t :: t in turns ==> TurnOk(t)
      modifies this
      ensures Valid() && old(log) <= log
      ensures rounds <= |turns| && |attempted| == |old(attempted)| + rounds && old(attempted) <= attempted
      ensures || (pc == Top && rounds == |turns|) || (pc == Done && stop)
              || (pc == Waiting && !stop && (udpInterrupt || (voiceDataQueue == [] && sendDataQueue == [])))
    {
      hide IsRun, Took, Valid, FromOutside;
      rounds := 0;
      for i := 0 to |turns|
        invariant Valid() && old(log) <= log && pc == Top
        invariant rounds == i && |attempted| == |old(attempted)| + i && old(attempted) <= attempted
      {
        var t := turns[i];
        assert t in turns;
        var go := TestStop();
        if !go { return; }
        Outside(t.whileWaiting);
        if !(((voiceDataQueue != [] || sendDataQueue != []) && !udpInterrupt) || stop) { return; }
        WakeUp(t.opus);
        if stop { return; }
        SendAndPrepare(t);
        rounds := rounds + 1;
      }
    }

    // ----- closing -----

    method TakeBackPrepared()
      requires sendDataQueue != [] ==> |sendDataQueue[0].bytes| >= HEADER_SIZE
      modifies this`sendDataQueue, this`discarded, this`rtpSeq, this`timestamp
      ensures View() == Rewind(old(View()))
    {
      if sendDataQueue != [] {
        var h := DecodeHeader(sendDataQueue[0].bytes);
        discarded := discarded + sendDataQueue;
        sendDataQueue := [];
        rtpSeq := h.seqNo;
        timestamp := h.ts;
      }
    }

    /** After both threads are joined: the prepared packet is dropped, its numbers are taken
        back, and five frames of silence follow. opuses are what the DAVE layer makes of them. */
    method SendSilence(opuses: seq<seq<byte>>)
      requires Valid() && Enabled(View(), Action.SendSilence(opuses))
      modifies this
      ensures Valid() && Took(old(View()), Action.SendSilence(opuses)) && log == old(log) + [Action.SendSilence(opuses)]
    {
      hide IsRun, SilenceFrames, Rewind;
      Safe(Action.SendSilence(opuses));
      if !silenceSent {
        TakeBackPrepared();
        EmitSilence(opuses);
        silenceSent := true;
      }
      Record(Action.SendSilence(opuses), old(View()));
    }

    method EmitSilence(opuses: seq<seq<byte>>)
      requires TagLength(config.transport) && |opuses| == 5
      modifies this`rtpSeq, this`timestamp, this`pNonce, this`framed, this`attempted
      ensures View() == SilenceFrames(config, old(View()), opuses)
    {
      hide FrameOf;
      for i := 0 to 5
        invariant View() == SilenceFrames(config, old(View()), opuses[..i])
      {
        assert opuses[..i + 1][..i] == opuses[..i];
        var f := FrameRtp(opuses[i], 20, SILENCE_SAMPLES, None);
        attempted := attempted + [f];
      }
      assert opuses[..5] == opuses;
    }

    // ----- what that guarantees -----

    /** Whatever has been called on the object in whatever order, the packets it has attempted
        are numbered without gaps, carry the data in order, and repeat no nonce before 2^32
        frames; and all data enqueued but for at most one packet is on the wire or still held. */
    lemma Guarantees(k: nat, m: nat)
      requires Valid() && k < m < |attempted|
      ensures |attempted[k].bytes| >= HEADER_SIZE + NONCE_SIZE && |attempted[m].bytes| >= HEADER_SIZE + NONCE_SIZE
      ensures Parse(attempted[k].bytes).header
           == Header((config.start.rtpSeq + k) % 0x1_0000,
                     (config.start.timestamp + SamplesOf(attempted[..k])) % 0x1_0000_0000, config.ssrc)
      ensures Timed(attempted[k])
      ensures framed <= TWO32 ==> Parse(attempted[k].bytes).nonce != Parse(attempted[m].bytes).nonce
      ensures Sources(attempted) <= enqueued && |discarded| <= 1
      ensures Sources(attempted) + Sources(discarded) + Sources(sendDataQueue) + InHand(pc) + voiceDataQueue == enqueued
    {
      hide IsRun, Parse, Sum, SamplesOf, Timed, Sources;
      WireTheorem(config, log, states, |log|, k);
      NonceTheorem(config, log, states, |log|, k, m);
      ConservationTheorem(config, log, states, |log|);
    }
  }

  lemma RunConfig(c: Config, actions: seq<Action>, states: seq<Pipe>)
    requires IsRun(c, actions, states)
    ensures ConfigOk(c)
  {
  }
}
