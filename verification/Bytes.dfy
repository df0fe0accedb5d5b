/** Bytes and fixed-width integer layouts shared by the voice code.

    Every integer in the model is a mathematical `nat`; where the C++ field has a
    width, the width appears as an explicit modulus. */
module Bytes {
  type byte = x: int | 0 <= x < 256

  const TWO16: nat := 0x1_0000
  const TWO24: nat := 0x100_0000
  const TWO32: nat := 0x1_0000_0000
  const TWO64: nat := 0x1_0000_0000_0000_0000

  /** 256^n, the number of values n bytes can hold. */
  function Pow256(n: nat): (p: nat)
    ensures p > 0
  {
    if n == 0 then 1 else 256 * Pow256(n - 1)
  }

  /** The n low bytes of v, most significant first. */
  function ToBE(v: nat, n: nat): (s: seq<byte>)
    ensures |s| == n
  {
    if n == 0 then [] else ToBE(v / 256, n - 1) + [v % 256]
  }

  /** The n low bytes of v, least significant first. */
  function ToLE(v: nat, n: nat): (s: seq<byte>)
    ensures |s| == n
  {
    if n == 0 then [] else [v % 256] + ToLE(v / 256, n - 1)
  }

  function FromBE(s: seq<byte>): nat {
    if s == [] then 0 else FromBE(s[..|s| - 1]) * 256 + s[|s| - 1]
  }

  function FromLE(s: seq<byte>): nat {
    if s == [] then 0 else s[0] + 256 * FromLE(s[1..])
  }

  function Reverse<T>(s: seq<T>): (r: seq<T>)
    ensures |r| == |s|
  {
    if s == [] then [] else Reverse(s[1..]) + [s[0]]
  }

  /** Splitting off the low byte before or after reducing modulo 256^n is the same. */
  lemma ModSplit(v: nat, p: nat)
    requires p > 0
    ensures v % (256 * p) == (v / 256 % p) * 256 + v % 256
  {
    var q, r := v / 256, v % 256;
    var m, d := q % p, q / p;
    assert q == d * p + m;
    assert v == (256 * p) * d + (m * 256 + r) by {
      calc {
        v;
        256 * q + r;
        256 * (d * p + m) + r;
        (256 * p) * d + (m * 256 + r);
      }
    }
    assert m * 256 + r < 256 * p by {
      assert m + 1 <= p;
      assert (m + 1) * 256 <= p * 256;
    }
    ModUnique(v, 256 * p, d, m * 256 + r);
  }

  /** Euclidean division determines its remainder. */
  lemma ModUnique(v: int, m: int, q: int, r: int)
    requires m > 0 && v == m * q + r && 0 <= r < m
    ensures v % m == r && v / m == q
  {
    var q', r' := v / m, v % m;
    assert m * (q - q') == r' - r;
    MulMono(m, 1, q - q');
    MulMono(m, q - q', -1);
  }

  lemma MulMono(m: int, a: int, b: int)
    requires m >= 0
    ensures a <= b ==> m * a <= m * b
  {
    if a > b { return; }
    assert m * (b - a) >= 0;
    assert m * b == m * a + m * (b - a);
  }

  /** Big-endian decoding inverts big-endian encoding, up to truncation to n bytes. */
  lemma {:induction false} FromToBE(v: nat, n: nat)
    ensures FromBE(ToBE(v, n)) == v % Pow256(n)
  {
    if n > 0 {
      FromToBE(v / 256, n - 1);
      ModSplit(v, Pow256(n - 1));
      assert ToBE(v, n)[..n - 1] == ToBE(v / 256, n - 1);
    }
  }

  /** Little-endian decoding inverts little-endian encoding, up to truncation to n bytes. */
  lemma {:induction false} FromToLE(v: nat, n: nat)
    ensures FromLE(ToLE(v, n)) == v % Pow256(n)
  {
    if n > 0 {
      FromToLE(v / 256, n - 1);
      ModSplit(v, Pow256(n - 1));
      assert ToLE(v, n)[1..] == ToLE(v / 256, n - 1);
    }
  }

  lemma {:induction false} FromBEBound(s: seq<byte>)
    ensures FromBE(s) < Pow256(|s|)
  {
    if s != [] {
      FromBEBound(s[..|s| - 1]);
    }
  }

  /** Any n bytes are the big-endian layout of the number they decode to. */
  lemma {:induction false} ToFromBE(s: seq<byte>)
    ensures ToBE(FromBE(s), |s|) == s
  {
    if s != [] {
      var hi, lo := FromBE(s[..|s| - 1]), s[|s| - 1];
      ToFromBE(s[..|s| - 1]);
      ModUnique(hi * 256 + lo, 256, hi, lo);
      assert s == s[..|s| - 1] + [lo];
    }
  }

  /** Decoding a concatenation: the leading part carries the higher weights. */
  lemma {:induction false} FromBEAppend(a: seq<byte>, b: seq<byte>)
    ensures FromBE(a + b) == FromBE(a) * Pow256(|b|) + FromBE(b)
  {
    if b == [] {
      assert a + b == a;
    } else {
      var b', lo := b[..|b| - 1], b[|b| - 1];
      FromBEAppend(a, b');
      assert (a + b)[..|a + b| - 1] == a + b';
      calc {
        FromBE(a + b);
        (FromBE(a) * Pow256(|b'|) + FromBE(b')) * 256 + lo;
        FromBE(a) * (256 * Pow256(|b'|)) + (FromBE(b') * 256 + lo);
      }
    }
  }

  /** The two layouts are mirror images. */
  lemma {:induction false} LEReversesBE(v: nat, n: nat)
    ensures ToLE(v, n) == Reverse(ToBE(v, n))
  {
    if n > 0 {
      LEReversesBE(v / 256, n - 1);
      ReverseAppend<byte>(ToBE(v / 256, n - 1), v % 256);
    }
  }

  lemma {:induction false} ReverseAppend<T>(s: seq<T>, x: T)
    ensures Reverse(s + [x]) == [x] + Reverse(s)
  {
    if s == [] {
    } else {
      ReverseAppend(s[1..], x);
      assert (s + [x])[1..] == s[1..] + [x];
    }
  }

  /** The powers the code uses, as literals. */
  lemma Powers()
    ensures Pow256(1) == 256 && Pow256(2) == TWO16 && Pow256(4) == TWO32 && Pow256(8) == TWO64
  {
    assert Pow256(1) == 256 * Pow256(0);
    assert Pow256(2) == 256 * Pow256(1);
    assert Pow256(3) == 256 * Pow256(2);
    assert Pow256(4) == 256 * Pow256(3);
    assert Pow256(5) == 256 * Pow256(4);
    assert Pow256(6) == 256 * Pow256(5);
    assert Pow256(7) == 256 * Pow256(6);
    assert Pow256(8) == 256 * Pow256(7);
  }

  // ----- what the layouts mean, byte by byte -----

  function Word16(b1: int, b0: int): int {
    0x100 * b1 + b0
  }

  function Word32(b3: int, b2: int, b1: int, b0: int): int {
    0x100_0000 * b3 + 0x1_0000 * b2 + 0x100 * b1 + b0
  }

  lemma TwoBytesBE(v: nat)
    requires v < 0x1_0000
    ensures |ToBE(v, 2)| == 2 && Word16(ToBE(v, 2)[0], ToBE(v, 2)[1]) == v
  {
    assert ToBE(v, 2) == ToBE(v / 256, 1) + [v % 256];
    assert ToBE(v / 256, 1) == ToBE(v / 256 / 256, 0) + [v / 256 % 256];
  }

  lemma FourBytesBE(v: nat)
    requires v < 0x1_0000_0000
    ensures var s := ToBE(v, 4);
            |s| == 4 && Word32(s[0], s[1], s[2], s[3]) == v
  {
    var a := v / 256;
    var b := a / 256;
    var c := b / 256;
    assert ToBE(v, 4) == ToBE(a, 3) + [v % 256];
    assert ToBE(a, 3) == ToBE(b, 2) + [a % 256];
    assert ToBE(b, 2) == ToBE(c, 1) + [b % 256];
    assert ToBE(c, 1) == ToBE(c / 256, 0) + [c % 256];
  }

  lemma FourBytesLE(v: nat)
    requires v < 0x1_0000_0000
    ensures var s := ToLE(v, 4);
            |s| == 4 && Word32(s[3], s[2], s[1], s[0]) == v
  {
    var a := v / 256;
    var b := a / 256;
    var c := b / 256;
    assert ToLE(v, 4) == [v % 256] + ToLE(a, 3);
    assert ToLE(a, 3) == [a % 256] + ToLE(b, 2);
    assert ToLE(b, 2) == [b % 256] + ToLE(c, 1);
    assert ToLE(c, 1) == [c % 256] + ToLE(c / 256, 0);
  }

  /** Byte i of either layout is the digit of its place in base 256. */
  lemma {:induction false} LEDigit(v: nat, n: nat, i: nat)
    requires i < n
    ensures ToLE(v, n)[i] == v / Pow256(i) % 256
  {
    if i > 0 {
      LEDigit(v / 256, n - 1, i - 1);
      DivTwice(v, 256, Pow256(i - 1));
    }
  }

  lemma {:induction false} BEDigit(v: nat, n: nat, i: nat)
    requires i < n
    ensures ToBE(v, n)[n - 1 - i] == v / Pow256(i) % 256
  {
    if i > 0 {
      BEDigit(v / 256, n - 1, i - 1);
      DivTwice(v, 256, Pow256(i - 1));
    }
  }

  lemma DivTwice(a: nat, m: nat, p: nat)
    requires m > 0 && p > 0
    ensures m * p > 0 && a / m / p == a / (m * p)
  {
    DivByParts(a, m, p, a / m, a % m, a / m / p, a / m % p);
  }

  lemma DivByParts(a: nat, m: nat, p: nat, q: nat, r: nat, u: nat, w: nat)
    requires a == m * q + r && r < m && q == p * u + w && w < p
    ensures m * p > 0 && a / (m * p) == u
  {
    Regroup(m, p, u, w, r);
    MulMono(m, 1, p);
    MulMono(m, w + 1, p);
    assert m * (w + 1) == m * w + m;
    var n := m * p;
    assert a == n * u + (m * w + r) && m * w + r < n;
    ModUnique(a, n, u, m * w + r);
  }

  lemma Regroup(m: nat, p: nat, u: nat, w: nat, r: nat)
    ensures m * (p * u + w) + r == m * p * u + (m * w + r)
  {
    assert m * (p * u + w) == m * (p * u) + m * w;
    assert m * (p * u) == m * p * u;
  }
}
