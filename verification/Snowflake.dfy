/** User ids as credential bytes: the loops that build and read them. */
module Snowflake {
  import opened Bytes

  /** The id a credential stands for: its bytes, most significant first, in a
      64-bit accumulator. */
  function IdOf(credential: seq<byte>): (id: nat)
    ensures id < TWO64
  {
    FromBE(credential) % TWO64
  }

  /** value without its lowest i bytes, dropped one at a time. */
  function Shift(v: nat, i: nat): nat {
    if i == 0 then v else Shift(v / 256, i - 1)
  }

  lemma {:induction false} ShiftStep(v: nat, i: nat)
    ensures Shift(v, 0) == v
    ensures Shift(v, i) / 256 == Shift(v, i + 1)
  {
    if i > 0 {
      ShiftStep(v / 256, i - 1);
    }
  }

  /** Pushes the bytes of value from the highest of the `size` requested down. */
  method GenBEBytes(value: nat, size: nat) returns (buf: seq<byte>)
    requires value < TWO64 && size <= 8
    ensures buf == ToBE(value, size)
  {
    buf := [];
    var i: int := size - 1;
    assert i + 1 == size;
    hide Shift;
    while i >= 0
      invariant -1 <= i < size
      invariant buf == ToBE(Shift(value, i + 1), size - 1 - i)
    {
      ShiftStep(value, i);
      buf := buf + [Shift(value, i) % 256];
      i := i - 1;
    }
    ShiftStep(value, 0);
  }

  /** Reads the object representation of value on a little-endian machine. */
  method LEBytesFrom(value: nat, size: nat) returns (bytes: seq<byte>)
    requires value < TWO64 && size <= 8
    ensures bytes == ToLE(value, size)
    ensures bytes == Reverse(ToBE(value, size))
  {
    hide Shift;
    bytes := [];
    ShiftStep(value, 0);
    for i := 0 to size
      invariant bytes + ToLE(Shift(value, i), size - i) == ToLE(value, size)
    {
      ShiftStep(value, i);
      var b := Shift(value, i) % 256;
      assert ToLE(Shift(value, i), size - i) == [b] + ToLE(Shift(value, i + 1), size - i - 1);
      assert bytes + ([b] + ToLE(Shift(value, i + 1), size - i - 1))
          == bytes + [b] + ToLE(Shift(value, i + 1), size - i - 1);
      bytes := bytes + [b];
    }
    assert bytes + [] == bytes;
    LEReversesBE(value, size);
  }

  /** Folds the credential into a 64-bit word: shift left by eight, then or in the
      next byte. The shifted word has its low byte clear, so the or is a sum. */
  method SnowflakeFromCredential(val: seq<byte>) returns (a: nat)
    ensures a == IdOf(val)
  {
    a := 0;
    for i := 0 to |val|
      invariant a == IdOf(val[..i])
    {
      FoldStep(val[..i], val[i]);
      assert val[..i + 1] == val[..i] + [val[i]];
      a := (a * 256) % TWO64 + val[i];
    }
    assert val[..|val|] == val;
  }

  lemma FoldStep(s: seq<byte>, b: byte)
    ensures IdOf(s + [b]) == (IdOf(s) * 256) % TWO64 + b
  {
    var p: nat := 0x100_0000_0000_0000;
    assert (s + [b])[..|s|] == s;
    var hi := FromBE(s);
    ModSplit(hi * 256 + b, p);
    ModUnique(hi * 256 + b, 256, hi, b);
    ModSplit(hi % TWO64 * 256, p);
    ModUnique(hi % TWO64 * 256, 256, hi % TWO64, 0);
    assert hi % TWO64 % p == hi % p by {
      ModUnique(hi, p, 256 * (hi / TWO64) + hi % TWO64 / p, hi % TWO64 % p);
    }
  }

  /** Every 64-bit id survives being written as a credential and read back. */
  lemma IdRoundTrip(id: nat)
    requires id < TWO64
    ensures |ToBE(id, 8)| == 8 && IdOf(ToBE(id, 8)) == id
  {
    FromToBE(id, 8);
    Powers();
  }

  /** Two eight-byte credentials stand for the same id only if they are equal. */
  lemma EightBytesFaithful(c: seq<byte>, d: seq<byte>)
    requires |c| == |d| == 8
    ensures IdOf(c) == IdOf(d) <==> c == d
  {
    EightBytes(c);
    EightBytes(d);
  }

  lemma EightBytes(c: seq<byte>)
    requires |c| == 8
    ensures FromBE(c) < TWO64 && ToBE(IdOf(c), 8) == c
  {
    hide FromBE, ToBE;
    Powers();
    FromBEBound(c);
    ToFromBE(c);
  }

  /** A longer credential stands for the id in its last eight bytes. */
  lemma LongCredential(c: seq<byte>)
    requires |c| >= 8
    ensures IdOf(c) == FromBE(c[|c| - 8..])
  {
    var hi, lo := c[..|c| - 8], c[|c| - 8..];
    assert c == hi + lo;
    FromBEAppend(hi, lo);
    FromBEBound(lo);
    Powers();
    ModUnique(FromBE(c), TWO64, FromBE(hi), FromBE(lo));
  }
}
