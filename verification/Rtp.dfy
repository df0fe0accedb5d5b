/** The packet that carries one opus frame: a twelve-byte RTP header (RFC 3550, section 5.1),
    the transport ciphertext, and the transport nonce. */
module Rtp {
  import opened Bytes

  const HEADER_SIZE: nat := 12
  const TAG_SIZE: nat := 16
  const NONCE_SIZE: nat := 4

  datatype Header = Header(seqNo: nat, ts: nat, ssrc: nat)

  predicate InRange(h: Header) {
    h.seqNo < TWO16 && h.ts < TWO32 && h.ssrc < TWO32
  }

  /** Version 2, payload type 0x78, then sequence number, timestamp and source in network
      byte order. */
  function EncodeHeader(h: Header): (s: seq<byte>)
    ensures |s| == HEADER_SIZE
  {
    [0x80, 0x78] + ToBE(h.seqNo, 2) + ToBE(h.ts, 4) + ToBE(h.ssrc, 4)
  }

  function DecodeHeader(s: seq<byte>): Header
    requires |s| >= HEADER_SIZE
  {
    Header(FromBE(s[2..4]), FromBE(s[4..8]), FromBE(s[8..12]))
  }

  lemma HeaderRoundTrip(h: Header, rest: seq<byte>)
    requires InRange(h)
    ensures DecodeHeader(EncodeHeader(h) + rest) == h
  {
    hide FromBE, ToBE;
    var s := EncodeHeader(h) + rest;
    var a, b, c := ToBE(h.seqNo, 2), ToBE(h.ts, 4), ToBE(h.ssrc, 4);
    assert s == [0x80, 0x78] + a + b + c + rest;
    assert s[2..4] == a && s[4..8] == b && s[8..12] == c;
    FromToBE(h.seqNo, 2);
    FromToBE(h.ts, 4);
    FromToBE(h.ssrc, 4);
    Powers();
  }

  /** The twelve bytes of a header, the most significant byte of each field first. */
  lemma HeaderLayout(h: Header)
    requires h.seqNo < 0x1_0000 && h.ts < 0x1_0000_0000 && h.ssrc < 0x1_0000_0000
    ensures var s := EncodeHeader(h);
            && |s| == 12 && s[0] == 0x80 && s[1] == 0x78
            && Word16(s[2], s[3]) == h.seqNo
            && Word32(s[4], s[5], s[6], s[7]) == h.ts
            && Word32(s[8], s[9], s[10], s[11]) == h.ssrc
  {
    var s := EncodeHeader(h);
    TwoBytesBE(h.seqNo);
    FourBytesBE(h.ts);
    FourBytesBE(h.ssrc);
    hide ToBE;
    assert s == [0x80, 0x78] + ToBE(h.seqNo, 2) + ToBE(h.ts, 4) + ToBE(h.ssrc, 4);
    assert s[2..4] == ToBE(h.seqNo, 2) && s[4..8] == ToBE(h.ts, 4) && s[8..12] == ToBE(h.ssrc, 4);
  }

  /** The bytes of a packet: the header, what was sealed, the nonce, least significant first. */
  lemma PacketLayout(t: Transport, h: Header, nonce: nat, opus: seq<byte>)
    requires TagLength(t) && nonce < 0x1_0000_0000
    ensures var s, n := Packet(t, h, nonce, opus), 12 + |opus| + 16;
            && |s| == n + 4 && s[..12] == EncodeHeader(h)
            && s[12..n] == t.seal(Iv(t.cipher, nonce), EncodeHeader(h), opus)
            && Word32(s[n + 3], s[n + 2], s[n + 1], s[n]) == nonce
  {
    hide EncodeHeader, ToLE;
    var s, n := Packet(t, h, nonce, opus), 12 + |opus| + 16;
    FourBytesLE(nonce);
    assert s[n..] == ToLE(nonce, 4);
    assert s[12..n] == Ciphertext(t, h, nonce, opus);
  }

  /** And any header with these first two bytes is the encoding of what it decodes to. */
  lemma HeaderIsEncoding(s: seq<byte>)
    requires |s| == HEADER_SIZE && s[0] == 0x80 && s[1] == 0x78
    ensures EncodeHeader(DecodeHeader(s)) == s
  {
    ToFromBE(s[2..4]);
    ToFromBE(s[4..8]);
    ToFromBE(s[8..12]);
    assert s == [s[0], s[1]] + s[2..4] + s[4..8] + s[8..12];
  }

  // ----- the transport layer -----

  datatype Cipher = Aes256Gcm | XChaCha20Poly1305

  function IvSize(c: Cipher): nat {
    if c.Aes256Gcm? then 12 else 24
  }

  /** The nonce in little-endian order, padded with zeros. */
  function Iv(c: Cipher, nonce: nat): (iv: seq<byte>)
    ensures |iv| == IvSize(c)
  {
    ToLE(nonce, NONCE_SIZE) + seq(IvSize(c) - NONCE_SIZE, i => 0)
  }

  /** Where the nonce lies in the IV: in the first four bytes, least significant first, with
      zeros behind, twelve bytes in all for AES-GCM and twenty-four for XChaCha20. */
  lemma IvLayout(c: Cipher, n: nat)
    requires n < 0x1_0000_0000
    ensures |Iv(c, n)| == match c { case Aes256Gcm => 12 case XChaCha20Poly1305 => 24 }
    ensures Word32(Iv(c, n)[3], Iv(c, n)[2], Iv(c, n)[1], Iv(c, n)[0]) == n
    ensures forall i :: 4 <= i < |Iv(c, n)| ==> Iv(c, n)[i] == 0
  {
    FourBytesLE(n);
    assert Iv(c, n)[..4] == ToLE(n, 4);
  }

  /** Distinct nonces make distinct IVs. */
  lemma IvDistinct(c: Cipher, m: nat, n: nat)
    requires m < TWO32 && n < TWO32
    ensures Iv(c, m) == Iv(c, n) <==> m == n
  {
    hide ToLE, FromLE;
    if Iv(c, m) == Iv(c, n) {
      assert Iv(c, m)[..NONCE_SIZE] == ToLE(m, NONCE_SIZE) && Iv(c, n)[..NONCE_SIZE] == ToLE(n, NONCE_SIZE);
      FromToLE(m, NONCE_SIZE);
      FromToLE(n, NONCE_SIZE);
      Powers();
    }
  }

  /** Authenticated encryption under the session's secret key: (iv, associated data,
      plaintext) to ciphertext and tag. Assumed to succeed. */
  datatype Transport = Transport(cipher: Cipher, seal: (seq<byte>, seq<byte>, seq<byte>) -> seq<byte>)

  ghost predicate TagLength(t: Transport) {
    forall iv, aad, pt :: |t.seal(iv, aad, pt)| == |pt| + TAG_SIZE
  }

  function Ciphertext(t: Transport, h: Header, nonce: nat, opus: seq<byte>): seq<byte> {
    t.seal(Iv(t.cipher, nonce), EncodeHeader(h), opus)
  }

  function Packet(t: Transport, h: Header, nonce: nat, opus: seq<byte>): seq<byte> {
    EncodeHeader(h) + Ciphertext(t, h, nonce, opus) + ToLE(nonce, NONCE_SIZE)
  }

  datatype Parsed = Parsed(header: Header, ciphertext: seq<byte>, nonce: nat)

  function Parse(s: seq<byte>): Parsed
    requires |s| >= HEADER_SIZE + NONCE_SIZE
  {
    Parsed(DecodeHeader(s), s[HEADER_SIZE..|s| - NONCE_SIZE], FromLE(s[|s| - NONCE_SIZE..]))
  }

  /** Parsing a packet recovers header, ciphertext and nonce, so whoever can open what the
      transport seals recovers the payload. */
  lemma PacketRoundTrip(t: Transport, h: Header, nonce: nat, opus: seq<byte>,
                        open: (seq<byte>, seq<byte>, seq<byte>) -> seq<byte>)
    requires TagLength(t) && InRange(h) && nonce < TWO32
    requires forall iv, aad, pt :: open(iv, aad, t.seal(iv, aad, pt)) == pt
    ensures var s := Packet(t, h, nonce, opus);
            && |s| == HEADER_SIZE + |opus| + TAG_SIZE + NONCE_SIZE
            && Parse(s) == Parsed(h, Ciphertext(t, h, nonce, opus), nonce)
            && open(Iv(t.cipher, Parse(s).nonce), s[..HEADER_SIZE], Parse(s).ciphertext) == opus
  {
    ParsePacket(t, h, nonce, opus);
    assert Packet(t, h, nonce, opus)[..HEADER_SIZE] == EncodeHeader(h);
  }

  lemma ParsePacket(t: Transport, h: Header, nonce: nat, opus: seq<byte>)
    requires InRange(h) && nonce < TWO32
    ensures var s := Packet(t, h, nonce, opus);
            |s| >= HEADER_SIZE + NONCE_SIZE && Parse(s) == Parsed(h, Ciphertext(t, h, nonce, opus), nonce)
  {
    hide FromLE, ToLE, EncodeHeader, DecodeHeader;
    var s, ct, tail := Packet(t, h, nonce, opus), Ciphertext(t, h, nonce, opus), ToLE(nonce, NONCE_SIZE);
    assert s == EncodeHeader(h) + (ct + tail);
    HeaderRoundTrip(h, ct + tail);
    assert s[HEADER_SIZE..|s| - NONCE_SIZE] == ct;
    assert s[|s| - NONCE_SIZE..] == tail;
    FromToLE(nonce, NONCE_SIZE);
    Powers();
  }

  /** memcpy(dest + offset, src). */
  method CopyInto(dest: array<byte>, offset: nat, src: seq<byte>)
    requires offset + |src| <= dest.Length
    modifies dest
    ensures dest[..] == old(dest[..offset]) + src + old(dest[offset + |src|..])
  {
    for i := 0 to |src|
      invariant dest[..] == old(dest[..offset]) + src[..i] + old(dest[offset + i..])
    {
      dest[offset + i] := src[i];
      assert src[..i + 1] == src[..i] + [src[i]];
    }
    assert src[..|src|] == src;
  }

  /** The buffer is sized for the tag and filled in three copies. */
  method FillFrame(t: Transport, h: Header, nonce: nat, opus: seq<byte>) returns (frame: seq<byte>)
    requires TagLength(t)
    ensures frame == Packet(t, h, nonce, opus)
  {
    var buffer := new byte[|opus| + HEADER_SIZE + NONCE_SIZE + TAG_SIZE](_ => 0);
    CopyInto(buffer, 0, EncodeHeader(h));
    var encrypted := Ciphertext(t, h, nonce, opus);
    CopyInto(buffer, HEADER_SIZE, encrypted);
    assert buffer[..HEADER_SIZE + |encrypted|] == EncodeHeader(h) + encrypted;
    CopyInto(buffer, HEADER_SIZE + |encrypted|, ToLE(nonce, NONCE_SIZE));
    frame := buffer[..];
  }
}

/** Cutting PCM data into whole opus frames. */
module PcmFrames {
  import opened Bytes

  /** 60 ms of 16-bit stereo at 48 kHz. */
  const PCM_DATA_SIZE: nat := 960 * 3 * 2 * 2

  function Padding(n: nat): nat {
    if n % PCM_DATA_SIZE != 0 then PCM_DATA_SIZE - n % PCM_DATA_SIZE else 0
  }

  function Concat(frames: seq<seq<byte>>): seq<byte> {
    if frames == [] then [] else Concat(frames[..|frames| - 1]) + frames[|frames| - 1]
  }

  lemma ConcatMore(frames: seq<seq<byte>>, d: seq<byte>)
    ensures Concat(frames + [d]) == Concat(frames) + d
  {
    assert (frames + [d])[..|frames|] == frames;
  }

  lemma PaddedSize(n: nat)
    ensures Padding(n) < PCM_DATA_SIZE
    ensures n + Padding(n) == (n + Padding(n)) / PCM_DATA_SIZE * PCM_DATA_SIZE
    ensures (n + Padding(n)) / PCM_DATA_SIZE == (n + PCM_DATA_SIZE - 1) / PCM_DATA_SIZE
  {
  }

  /** The loop over whole frames. */
  method Cut(data: seq<byte>) returns (frames: seq<seq<byte>>)
    requires |data| % PCM_DATA_SIZE == 0
    ensures |frames| == |data| / PCM_DATA_SIZE
    ensures forall f :: f in frames ==> |f| == PCM_DATA_SIZE
    ensures Concat(frames) == data
  {
    frames := [];
    assert Concat(frames) == data[..0];
    hide Concat;
    for i := 0 to |data| / PCM_DATA_SIZE
      invariant |frames| == i && forall f :: f in frames ==> |f| == PCM_DATA_SIZE
      invariant Concat(frames) == data[..i * PCM_DATA_SIZE]
    {
      ghost var at := i * PCM_DATA_SIZE;
      assert at + PCM_DATA_SIZE <= |data|;
      var d := data[i * PCM_DATA_SIZE..(i + 1) * PCM_DATA_SIZE];
      ConcatMore(frames, d);
      assert data[..at + PCM_DATA_SIZE] == data[..at] + d;
      frames := frames + [d];
    }
    assert data[..|data|] == data;
  }

  /** Every frame is full, there are just as many as needed, and together they are the data
      followed by fewer than a frame's worth of zeros. */
  method Slice(pcm: seq<byte>) returns (frames: seq<seq<byte>>)
    ensures |frames| == (|pcm| + 11519) / 11520
    ensures forall f :: f in frames ==> |f| == 11520
    ensures Concat(frames) == pcm + seq(Padding(|pcm|), i => 0)
  {
    var data := pcm;
    if |data| % PCM_DATA_SIZE != 0 {
      data := data + seq(PCM_DATA_SIZE - |data| % PCM_DATA_SIZE, i => 0);
    }
    PaddedSize(|pcm|);
    assert data == pcm + seq(Padding(|pcm|), i => 0);
    frames := Cut(data);
  }
}
