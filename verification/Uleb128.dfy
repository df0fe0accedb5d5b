/** The variable-length nonce encoding of the DAVE frame trailer. */
module Uleb128 {
  import opened Wrappers
  import opened Bytes

  /** Seven bits a byte, low group first, the high bit set on all but the last. */
  function Encode(a: nat): (s: seq<byte>)
    ensures |s| > 0
  {
    if a >= 0x80 then [0x80 + a % 0x80] + Encode(a / 0x80) else [a]
  }

  datatype Decoded = Decoded(value: nat, rest: seq<byte>)

  /** Reads one encoded number off the front of s. */
  function Decode(s: seq<byte>): Option<Decoded> {
    if s == [] then None
    else if s[0] < 0x80 then Some(Decoded(s[0], s[1..]))
    else
      match Decode(s[1..])
      case None => None
      case Some(d) => Some(Decoded(s[0] - 0x80 + 0x80 * d.value, d.rest))
  }

  function Pow128(n: nat): (p: nat)
    ensures p > 0
  {
    if n == 0 then 1 else 0x80 * Pow128(n - 1)
  }

  /** The loop of the source: emit a group and shift while a group is left over. */
  method EncodeLoop(value: nat) returns (buf: seq<byte>)
    requires value < TWO64
    ensures buf == Encode(value)
  {
    var a := value;
    buf := [];
    while a >= 0x80
      invariant buf + Encode(a) == Encode(value)
    {
      assert Encode(a) == [0x80 + a % 0x80] + Encode(a / 0x80);
      assert buf + Encode(a) == (buf + [0x80 + a % 0x80]) + Encode(a / 0x80);
      buf := buf + [0x80 + a % 0x80];
      a := a / 0x80;
    }
    buf := buf + [a];
  }

  /** Byte i holds the i-th group of seven bits, counted from the lowest, and its high bit is
      set exactly if another byte follows. */
  lemma {:induction false} Groups(a: nat, i: nat)
    requires i < |Encode(a)|
    ensures Encode(a)[i] % 128 == a / Pow128(i) % 128
    ensures Encode(a)[i] >= 128 <==> i + 1 < |Encode(a)|
  {
    if a >= 0x80 {
      if i > 0 {
        Groups(a / 0x80, i - 1);
        DivTwice(a, 0x80, Pow128(i - 1));
      }
    }
  }

  /** Decoding inverts encoding whatever follows, so no encoding is a proper
      prefix of another. */
  lemma {:induction false} RoundTrip(a: nat, rest: seq<byte>)
    ensures Decode(Encode(a) + rest) == Some(Decoded(a, rest))
  {
    var s := Encode(a) + rest;
    if a >= 0x80 {
      RoundTrip(a / 0x80, rest);
      assert s[1..] == Encode(a / 0x80) + rest;
    } else {
      assert s[1..] == rest;
    }
  }

  lemma PrefixFree(a: nat, b: nat, tail: seq<byte>)
    requires Encode(a) + tail == Encode(b)
    ensures a == b && tail == []
  {
    RoundTrip(a, tail);
    RoundTrip(b, []);
    assert Encode(b) + [] == Encode(b);
  }

  /** No byte string that decodes to a is shorter than its encoding, and the
      only one of that length is the encoding itself. */
  lemma {:induction false} Minimal(s: seq<byte>, a: nat)
    requires Decode(s) == Some(Decoded(a, []))
    ensures |Encode(a)| <= |s|
    ensures |Encode(a)| == |s| ==> s == Encode(a)
  {
    if s[0] < 0x80 {
      assert s == [s[0]] + s[1..];
    } else {
      var d := Decode(s[1..]).value;
      assert a == s[0] - 0x80 + 0x80 * d.value;
      Minimal(s[1..], d.value);
      ModUnique(a, 0x80, d.value, s[0] - 0x80);
      assert s == [s[0]] + s[1..];
    }
  }

  /** n bytes suffice exactly for the numbers below 128^n. */
  lemma {:induction false} Length(a: nat, n: nat)
    requires n > 0
    ensures |Encode(a)| <= n <==> a < Pow128(n)
  {
    if n == 1 {
      assert Pow128(1) == 0x80 * Pow128(0);
    } else if a >= 0x80 {
      Length(a / 0x80, n - 1);
      var q, r := a / 0x80, a % 0x80;
      assert a == 0x80 * q + r;
      assert q < Pow128(n - 1) <==> 0x80 * q + r < 0x80 * Pow128(n - 1);
    } else {
      assert Pow128(n) == 0x80 * Pow128(n - 1);
    }
  }

  /** At most ten bytes for 64-bit values and five for 32-bit values. */
  lemma LengthBounds(a: nat)
    ensures a < TWO64 ==> |Encode(a)| <= 10
    ensures a < TWO32 ==> |Encode(a)| <= 5
  {
    Length(a, 10);
    Length(a, 5);
    assert Pow128(1) == 0x80 * Pow128(0);
    assert Pow128(2) == 0x80 * Pow128(1);
    assert Pow128(3) == 0x80 * Pow128(2);
    assert Pow128(4) == 0x80 * Pow128(3);
    assert Pow128(5) == 0x80 * Pow128(4);
    assert Pow128(6) == 0x80 * Pow128(5);
    assert Pow128(7) == 0x80 * Pow128(6);
    assert Pow128(8) == 0x80 * Pow128(7);
    assert Pow128(9) == 0x80 * Pow128(8);
    assert Pow128(10) == 0x80 * Pow128(9);
  }
}
