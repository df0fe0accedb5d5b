/** The frame trailer that the encryptor appends, and a reader for it. */
module FrameTrailer {
  import opened Wrappers
  import opened Bytes
  import U = Uleb128

  const TRUNC_TAG_SIZE: nat := 8
  const MAGIC: seq<byte> := [0xFA, 0xFA]

  /** The size byte counts the tag, the encoded nonce, the magic and itself. */
  function SupplementalSize(nonce: nat): nat {
    TRUNC_TAG_SIZE + |U.Encode(nonce)| + |MAGIC| + 1
  }

  /** sealed is the ciphertext followed by its truncated tag. */
  function Frame(sealed: seq<byte>, nonce: nat): seq<byte>
    requires nonce < TWO32
  {
    SizeByte(nonce);
    sealed + U.Encode(nonce) + [SupplementalSize(nonce)] + MAGIC
  }

  datatype Trailer = Trailer(ciphertext: seq<byte>, tag: seq<byte>, nonce: nat)

  /** Reads a frame from its last byte backwards. */
  function Read(frame: seq<byte>): Option<Trailer> {
    var n := |frame|;
    if n < 3 || frame[n - 2..] != MAGIC then None
    else
      var size := frame[n - 3];
      if size < TRUNC_TAG_SIZE + 3 || size > n then None
      else
        var start := n - size;
        var code := U.Decode(frame[start + TRUNC_TAG_SIZE..n - 3]);
        if code.None? || code.value.rest != [] then None
        else Some(Trailer(frame[..start], frame[start..start + TRUNC_TAG_SIZE], code.value.value))
  }

  /** The size always fits its byte. */
  lemma SizeByte(nonce: nat)
    requires nonce < TWO32
    ensures 12 <= SupplementalSize(nonce) <= 16
  {
    U.LengthBounds(nonce);
  }

  /** The bytes behind what was sealed: the encoded nonce, a byte that counts it together with
      the eight bytes of tag and the last three, and twice 0xFA. */
  lemma Layout(sealed: seq<byte>, nonce: nat)
    requires nonce < 0x1_0000_0000
    ensures var frame, m, code := Frame(sealed, nonce), |sealed|, U.Encode(nonce);
            && |frame| == m + |code| + 3
            && frame[..m] == sealed && frame[m..m + |code|] == code
            && frame[m + |code|] == 8 + |code| + 3
            && frame[m + |code| + 1] == 0xFA && frame[m + |code| + 2] == 0xFA
  {
    SizeByte(nonce);
    var frame, code := Frame(sealed, nonce), U.Encode(nonce);
    assert frame == sealed + (code + ([SupplementalSize(nonce)] + MAGIC));
    assert frame[|sealed|..|sealed| + |code|] == code;
  }

  /** A reader recovers ciphertext, tag and nonce of every frame, whatever their bytes. */
  lemma RoundTrip(ciphertext: seq<byte>, tag: seq<byte>, nonce: nat)
    requires |tag| == TRUNC_TAG_SIZE && nonce < TWO32
    ensures Read(Frame(ciphertext + tag, nonce)) == Some(Trailer(ciphertext, tag, nonce))
  {
    SizeByte(nonce);
    var frame, code := Frame(ciphertext + tag, nonce), U.Encode(nonce);
    var n, start := |frame|, |ciphertext|;
    assert frame == ciphertext + tag + code + [SupplementalSize(nonce)] + MAGIC;
    assert frame[n - 2..] == MAGIC;
    assert frame[n - 3] == SupplementalSize(nonce);
    assert n - SupplementalSize(nonce) == start;
    assert frame[start + TRUNC_TAG_SIZE..n - 3] == code;
    assert frame[..start] == ciphertext;
    assert frame[start..start + TRUNC_TAG_SIZE] == tag;
    U.RoundTrip(nonce, []);
    assert code + [] == code;
  }
}

/** Nonce and key-generation rotation of the DAVE frame encryptor. */
module Rotation {
  import opened Bytes
  import opened FrameTrailer

  type Key = seq<byte>

  /** What the encryptor calls into: the hash ratchet and AES-128-GCM. */
  datatype Crypto = Crypto(ratchet: nat -> Key, seal: (Key, seq<byte>, seq<byte>) -> seq<byte>)

  /** GCM preserves the length; the tag is truncated to eight bytes. */
  ghost predicate TagLength(c: Crypto) {
    forall k, iv, pt :: |c.seal(k, iv, pt)| == |pt| + TRUNC_TAG_SIZE
  }

  /** nonce is 32 bits wide, previousNonce 8 and generation a signed 32-bit integer. */
  datatype EncState = EncState(nonce: nat, previousNonce: nat, generation: int)

  const FRESH := EncState(0, 0, 0)

  function IncrementInt32(g: int): int {
    if g == 0x7FFF_FFFF then -0x8000_0000 else g + 1
  }

  /** The conversion of a signed generation to the ratchet's unsigned parameter. */
  function AsUInt32(g: int): nat {
    g % TWO32
  }

  /** Before sealing, the generation follows the top byte of the nonce. */
  function Rotate(s: EncState): EncState {
    var high := s.nonce / TWO24;
    EncState(s.nonce, high % 256, if high != s.previousNonce then IncrementInt32(s.generation) else s.generation)
  }

  /** One call of encrypt: the nonce advances only if sealing succeeds. */
  function Advance(s: EncState, ok: bool): EncState {
    var r := Rotate(s);
    if ok then r.(nonce := (r.nonce + 1) % TWO32) else r
  }

  /** The twelve-byte IV: eight zero bytes, then the nonce in little-endian order. */
  function Iv(nonce: nat): seq<byte> {
    [0, 0, 0, 0, 0, 0, 0, 0] + ToLE(nonce, 4)
  }

  /** The frame sealed under a generation's key and a nonce. */
  function SealedFrame(c: Crypto, generation: nat, nonce: nat, plaintext: seq<byte>): seq<byte>
    requires nonce < TWO32
  {
    Frame(c.seal(c.ratchet(generation), Iv(nonce), plaintext), nonce)
  }

  // ----- runs -----

  datatype Attempt = Attempt(plaintext: seq<byte>, ok: bool)

  datatype Outcome = Outcome(state: EncState, frames: seq<seq<byte>>)

  predicate InRange(s: EncState) {
    s.nonce < TWO32 && s.previousNonce < 256
  }

  /** All frames emitted by a sequence of encrypt calls after a key change. */
  function Run(c: Crypto, attempts: seq<Attempt>): (o: Outcome)
    ensures InRange(o.state)
  {
    if attempts == [] then Outcome(FRESH, [])
    else
      var before := Run(c, attempts[..|attempts| - 1]);
      var a := attempts[|attempts| - 1];
      var r := Rotate(before.state);
      Outcome(Advance(before.state, a.ok),
              if a.ok then before.frames + [SealedFrame(c, AsUInt32(r.generation), r.nonce, a.plaintext)]
              else before.frames)
  }

  /** The plaintexts whose sealing succeeded, in order. */
  function Succeeded(attempts: seq<Attempt>): seq<seq<byte>> {
    if attempts == [] then []
    else
      var a := attempts[|attempts| - 1];
      Succeeded(attempts[..|attempts| - 1]) + (if a.ok then [a.plaintext] else [])
  }

  /** The pair under which the n-th frame of an epoch is sealed. */
  function GenerationOf(n: nat): nat { n / TWO24 % TWO32 }
  function NonceOf(n: nat): nat { n % TWO32 }

  function Int32(g: nat): int {
    var m := g % TWO32;
    if m < 0x8000_0000 then m else m - TWO32
  }

  predicate Settled(s: EncState, g: nat) {
    s.previousNonce == g % 256 && s.generation == Int32(g)
  }

  /** After n emitted frames the counters stand at n; a generation change that is
      due at n may still be outstanding. */
  predicate CountersAt(s: EncState, n: nat) {
    s.nonce == NonceOf(n) &&
    (Settled(s, n / TWO24) || (n > 0 && n % TWO24 == 0 && Settled(s, n / TWO24 - 1)))
  }

  lemma Int32Steps(g: nat)
    ensures IncrementInt32(Int32(g)) == Int32(g + 1)
    ensures AsUInt32(Int32(g)) == g % TWO32
  {
  }

  lemma HighByte(n: nat)
    ensures NonceOf(n) / TWO24 == n / TWO24 % 256
  {
  }

  lemma RotateSettles(s: EncState, n: nat)
    requires CountersAt(s, n)
    ensures Settled(Rotate(s), n / TWO24) && Rotate(s).nonce == NonceOf(n)
  {
    HighByte(n);
    if n > 0 { Int32Steps(n / TWO24 - (if n >= TWO24 then 1 else 0)); }
  }

  lemma AdvanceCounts(s: EncState, n: nat, ok: bool)
    requires CountersAt(s, n)
    ensures CountersAt(Advance(s, ok), if ok then n + 1 else n)
  {
    RotateSettles(s, n);
    Successor(n, TWO24);
    Successor(n, TWO32);
  }

  lemma Successor(n: nat, m: nat)
    requires m > 0
    ensures (n + 1) % m == (if n % m + 1 == m then 0 else n % m + 1)
    ensures (n + 1) / m == n / m + (if n % m + 1 == m then 1 else 0)
  {
    var q, r := n / m, n % m;
    if r + 1 == m {
      assert m * (q + 1) == m * q + m;
      ModUnique(n + 1, m, q + 1, 0);
    } else {
      ModUnique(n + 1, m, q, r + 1);
    }
  }

  /** The n-th frame of an epoch is sealed with nonce n mod 2^32 under the key of
      generation n / 2^24 (as a 32-bit number), however many attempts fail in between,
      and the frames carry exactly the plaintexts that succeeded, in order. */
  lemma {:induction false} RotationTheorem(c: Crypto, attempts: seq<Attempt>)
    ensures var o, sent := Run(c, attempts), Succeeded(attempts);
            && |o.frames| == |sent|
            && CountersAt(o.state, |sent|)
            && forall i :: 0 <= i < |sent| ==>
                 var key, nonce := c.ratchet(i / 0x100_0000 % 0x1_0000_0000), i % 0x1_0000_0000;
                 o.frames[i] == Frame(c.seal(key, Iv(nonce), sent[i]), nonce)
  {
    if attempts != [] {
      var rest, a := attempts[..|attempts| - 1], attempts[|attempts| - 1];
      RotationTheorem(c, rest);
      var n := |Succeeded(rest)|;
      var s := Run(c, rest).state;
      RotateSettles(s, n);
      AdvanceCounts(s, n, a.ok);
      Int32Steps(n / TWO24);
    }
  }

  /** Within one key change no (generation, nonce) pair repeats before 2^56 frames, and it
      repeats exactly then. */
  lemma PairsDistinct(i: nat, j: nat)
    ensures GenerationOf(i) == GenerationOf(j) && NonceOf(i) == NonceOf(j)
       <==> i % (TWO24 * TWO32) == j % (TWO24 * TWO32)
  {
    hide GenerationOf, NonceOf;
    PairDecomposition(i);
    PairDecomposition(j);
    LowBits(i);
    LowBits(j);
  }

  lemma LowBits(n: nat)
    ensures NonceOf(n) % TWO24 == n % TWO24
  {
    ModUnique(n, TWO24, n / TWO32 * 256 + NonceOf(n) / TWO24, NonceOf(n) % TWO24);
  }

  lemma PairDecomposition(n: nat)
    ensures n % (TWO24 * TWO32) == GenerationOf(n) * TWO24 + n % TWO24
    ensures n % (TWO24 * TWO32) / TWO24 == GenerationOf(n) && n % (TWO24 * TWO32) % TWO32 == NonceOf(n)
  {
    var q, low := n / TWO24, n % TWO24;
    var r := GenerationOf(n) * TWO24 + low;
    ModUnique(n, TWO24 * TWO32, q / TWO32, r);
    ModUnique(r, TWO24, GenerationOf(n), low);
    ModUnique(n, TWO32, q / TWO32 * TWO24 + r / TWO32, r % TWO32);
  }

  /** Where the nonce lies in the IV: behind eight zero bytes, least significant byte first. */
  lemma IvLayout(n: nat)
    requires n < 0x1_0000_0000
    ensures |Iv(n)| == 12 && (forall i :: 0 <= i < 8 ==> Iv(n)[i] == 0)
    ensures Word32(Iv(n)[11], Iv(n)[10], Iv(n)[9], Iv(n)[8]) == n
  {
    FourBytesLE(n);
    assert Iv(n)[8..] == ToLE(n, 4);
  }

  /** Distinct nonces make distinct IVs. */
  lemma IvDistinct(m: nat, n: nat)
    requires m < TWO32 && n < TWO32
    ensures Iv(m) == Iv(n) <==> m == n
  {
    hide ToLE, FromLE;
    if Iv(m) == Iv(n) {
      assert Iv(m)[8..] == ToLE(m, 4) && Iv(n)[8..] == ToLE(n, 4);
      FromToLE(m, 4);
      FromToLE(n, 4);
      Powers();
    }
  }

  /** A receiver can tell a frame's generation modulo 256 from the nonce alone. */
  lemma GenerationFromNonce(n: nat)
    ensures NonceOf(n) / TWO24 == GenerationOf(n) % 256
  {
    HighByte(n);
    var q := n / TWO24;
    assert q % TWO32 % 256 == q % 256;
  }

  /** Whoever holds the ratchet can undo the n-th frame of an epoch: the trailer yields
      the nonce and what was sealed, and opening inverts sealing. */
  lemma ReceiverRecovers(c: Crypto, open: (Key, seq<byte>, seq<byte>) -> seq<byte>, attempts: seq<Attempt>, i: nat)
    requires TagLength(c)
    requires forall k, iv, pt :: open(k, iv, c.seal(k, iv, pt)) == pt
    requires i < |Run(c, attempts).frames|
    ensures i < |Succeeded(attempts)|
    ensures var t := Read(Run(c, attempts).frames[i]);
            && t.Some?
            && t.value.nonce == NonceOf(i)
            && |t.value.ciphertext| == |Succeeded(attempts)[i]|
            && open(c.ratchet(GenerationOf(i)), Iv(t.value.nonce), t.value.ciphertext + t.value.tag)
               == Succeeded(attempts)[i]
  {
    RotationTheorem(c, attempts);
    var pt := Succeeded(attempts)[i];
    var sealed := c.seal(c.ratchet(GenerationOf(i)), Iv(NonceOf(i)), pt);
    assert sealed == sealed[..|pt|] + sealed[|pt|..];
    FrameTrailer.RoundTrip(sealed[..|pt|], sealed[|pt|..], NonceOf(i));
  }
}

/** The encryptor object of a DAVE session. */
module FrameEncryptor {
  import opened Bytes
  import opened FrameTrailer
  import opened Rotation
  import U = Uleb128

  class Encryptor {
    var nonce: nat
    var previousNonce: nat
    var generation: int
    var passthrough: bool
    var key: Key
    ghost var crypto: Crypto

    /** The encrypt calls that were not passed through since the last key change. */
    ghost var attempts: seq<Attempt>

    ghost function View(): EncState
      reads this
    {
      EncState(nonce, previousNonce, generation)
    }

    /** The stored key is always the one of the current generation, and the counters are where
        the attempts have taken them. */
    ghost predicate Valid()
      reads this
    {
      TagLength(crypto) && key == crypto.ratchet(AsUInt32(generation)) && View() == Run(crypto, attempts).state
    }

    constructor (c: Crypto)
      requires TagLength(c)
      ensures Valid() && crypto == c && attempts == [] && !passthrough
    {
      nonce, previousNonce, generation, passthrough := 0, 0, 0, false;
      key := c.ratchet(0);
      crypto := c;
      attempts := [];
    }

    /** What createEncryptor does to an encryptor it finds in place: the counters start
        over under the new ratchet. */
    method Rekey(c: Crypto)
      requires TagLength(c)
      modifies this
      ensures Valid() && crypto == c && attempts == [] && View() == FRESH && passthrough == old(passthrough)
    {
      nonce, previousNonce, generation := 0, 0, 0;
      ChangeKey(c.ratchet(0));
      crypto := c;
      attempts := [];
    }

    method ChangeKey(k: Key)
      modifies this`key
      ensures key == k
    {
      key := k;
    }

    /** c must be the collaborators the encryptor was keyed with; ok is false when AES-GCM
        reports a failure. Passthrough returns the plaintext and touches nothing; otherwise
        the n-th success since the key change is the n-th frame of the epoch. */
    method Encrypt(vec: seq<byte>, c: Crypto, ok: bool) returns (data: seq<byte>)
      requires Valid() && c == crypto
      modifies this
      ensures Valid() && crypto == c && passthrough == old(passthrough)
      ensures passthrough ==> data == vec && View() == old(View()) && attempts == old(attempts)
      ensures !passthrough ==> attempts == old(attempts) + [Attempt(vec, ok)] && View() == Advance(old(View()), ok)
      ensures !passthrough && !ok ==> data == [] && nonce == old(nonce)
      ensures !passthrough && ok ==>
                var n := |Succeeded(old(attempts))|;
                data == SealedFrame(c, GenerationOf(n), NonceOf(n), vec)
    {
      hide Frame, GenerationOf, NonceOf, Run, Iv, IncrementInt32, AsUInt32, Succeeded;
      if passthrough { return vec; }
      NextFrame(c, attempts);
      OneMoreAttempt(c, attempts, Attempt(vec, ok));
      attempts := attempts + [Attempt(vec, ok)];
      if nonce / TWO24 != previousNonce {
        generation := IncrementInt32(generation);
        ChangeKey(c.ratchet(AsUInt32(generation)));
      }
      previousNonce := nonce / TWO24 % 256;
      if !ok { return []; }
      data := c.seal(key, Iv(nonce), vec);
      var used := nonce;
      nonce := (nonce + 1) % TWO32;
      data := AppendTrailer(data, used);
    }

    method AppendTrailer(sealed: seq<byte>, used: nat) returns (data: seq<byte>)
      requires used < TWO32
      ensures data == Frame(sealed, used)
    {
      var code := U.EncodeLoop(used);
      SizeByte(used);
      data := sealed + code + [TRUNC_TAG_SIZE + |code| + |MAGIC| + 1] + MAGIC;
    }
  }

  lemma OneMoreAttempt(c: Crypto, attempts: seq<Attempt>, a: Attempt)
    ensures Run(c, attempts + [a]).state == Advance(Run(c, attempts).state, a.ok)
  {
    assert (attempts + [a])[..|attempts|] == attempts;
  }

  /** Where the counters stand when the next frame is due. */
  lemma NextFrame(c: Crypto, attempts: seq<Attempt>)
    ensures var n, r := |Succeeded(attempts)|, Rotate(Run(c, attempts).state);
            r.nonce == NonceOf(n) && AsUInt32(r.generation) == GenerationOf(n)
  {
    var n := |Succeeded(attempts)|;
    RotationTheorem(c, attempts);
    RotateSettles(Run(c, attempts).state, n);
    Int32Steps(n / TWO24);
  }
}
