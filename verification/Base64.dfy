/** Base64 encoding, against a strict decoder of section 4 of RFC 4648. */
module Base64 {
  import opened Wrappers
  import opened Bytes

  /** n characters from c on. */
  function Range(c: char, n: nat): (s: string)
    requires c as nat + n < 0x80
    ensures |s| == n
  {
    seq(n, i requires 0 <= i < n => c + i as char)
  }

  /** The sixty-four characters, written as their runs. */
  const BASE64_MAP: string := Range('A', 26) + Range('a', 26) + Range('0', 10) + "+/"

  /** The i-th group of six bits of a 24-bit value, counted from the lowest. */
  function Digit(val: nat, i: nat): (d: nat)
    requires i <= 3
    ensures d < 64
  {
    if i == 0 then val % 64
    else if i == 1 then val / 0x40 % 64
    else if i == 2 then val / 0x1000 % 64
    else val / 0x40000 % 64
  }

  function Char(d: nat): char
    requires d < 64
  {
    BASE64_MAP[d]
  }

  /** The characters for digits 3, 2, ... down to lo. */
  function Digits(val: nat, lo: nat): (s: string)
    requires lo <= 3
    ensures |s| == 4 - lo
    decreases 3 - lo
  {
    if lo == 3 then [Char(Digit(val, 3))] else Digits(val, lo + 1) + [Char(Digit(val, lo))]
  }

  /** Three bytes as one number, most significant first. */
  function Group(b0: nat, b1: nat, b2: nat): nat {
    b0 * 0x10000 + b1 * 0x100 + b2
  }

  function Encode(s: seq<byte>): (t: string) {
    if s == [] then ""
    else if |s| == 1 then Digits(Group(s[0], 0, 0), 2) + "=="
    else if |s| == 2 then Digits(Group(s[0], s[1], 0), 1) + "="
    else Digits(Group(s[0], s[1], s[2]), 0) + Encode(s[3..])
  }

  // ----- the loop -----

  method EmitDigits(val: nat, lo: nat) returns (out: string)
    requires lo <= 3
    ensures out == Digits(val, lo)
  {
    out := "";
    for i := 4 downto lo
      invariant out == if i == 4 then "" else Digits(val, i)
    {
      out := out + [Char(Digit(val, i))];
    }
  }

  /** Shrinks str from the front, three bytes a round. The last round writes a lone byte's two
      digits by mask and shift, which are digits 3 and 2 of the byte in third place. */
  method EncodeB64(a: seq<byte>) returns (encoded: string)
    ensures encoded == Encode(a)
  {
    var str := a;
    encoded := "";
    hide Digits, Char, Group;
    while |str| > 0
      invariant encoded + Encode(str) == Encode(a)
      decreases |str|
    {
      if |str| >= 3 {
        var chars := EmitDigits(Group(str[0], str[1], str[2]), 0);
        assert encoded + (chars + Encode(str[3..])) == encoded + chars + Encode(str[3..]);
        encoded := encoded + chars;
        str := str[3..];
      } else if |str| == 2 {
        var chars := EmitDigits(Group(str[0], str[1], 0), 1);
        encoded := encoded + (chars + "=");
        return;
      } else {
        LoneByte(str[0]);
        encoded := encoded + ([Char(str[0] / 4), Char(str[0] % 4 * 16)] + "==");
        return;
      }
    }
    assert encoded + [] == encoded;
  }

  lemma LoneByte(b: byte)
    ensures Digits(Group(b, 0, 0), 2) == [Char(b / 4), Char(b % 4 * 16)]
  {
    hide Char, Digit;
    LoneDigits(b);
    DigitsAre(Group(b, 0, 0));
  }

  lemma LoneDigits(b: byte)
    ensures Digit(Group(b, 0, 0), 3) == b / 4 && Digit(Group(b, 0, 0), 2) == b % 4 * 16
  {
    var q, r := b / 4, b % 4;
    ModUnique(b * 0x10000, 0x40000, q, r * 0x10000);
    ModUnique(b * 0x10000, 0x1000, 16 * b, 0);
    ModUnique(16 * b, 64, q, 16 * r);
  }

  lemma DigitsAre(val: nat)
    ensures Digits(val, 2) == [Char(Digit(val, 3)), Char(Digit(val, 2))]
    ensures Digits(val, 1) == [Char(Digit(val, 3)), Char(Digit(val, 2)), Char(Digit(val, 1))]
    ensures Digits(val, 0) == [Char(Digit(val, 3)), Char(Digit(val, 2)), Char(Digit(val, 1)), Char(Digit(val, 0))]
  {
    hide Char, Digit;
    assert Digits(val, 3) == [Char(Digit(val, 3))];
    assert Digits(val, 2) == Digits(val, 3) + [Char(Digit(val, 2))];
    assert Digits(val, 1) == Digits(val, 2) + [Char(Digit(val, 1))];
  }

  // ----- the decoder -----

  /** The six bits a character stands for, or 64 if it stands for none. */
  function Value(c: char): (v: nat)
    ensures v <= 64
  {
    if 'A' <= c <= 'Z' then (c - 'A') as nat
    else if 'a' <= c <= 'z' then (c - 'a') as nat + 26
    else if '0' <= c <= '9' then (c - '0') as nat + 52
    else if c == '+' then 62
    else if c == '/' then 63
    else 64
  }

  function Number(v3: nat, v2: nat, v1: nat, v0: nat): nat {
    ((v3 * 64 + v2) * 64 + v1) * 64 + v0
  }

  function High(n: nat): byte { n / 0x10000 % 0x100 }
  function Middle(n: nat): byte { n / 0x100 % 0x100 }
  function Low(n: nat): byte { n % 0x100 }

  /** Four characters at a time; padding only in the last four, and its unused bits zero. */
  function Decode(t: string): Option<seq<byte>> {
    if t == "" then Some([])
    else if |t| < 4 then None
    else
      var v3, v2, v1, v0 := Value(t[0]), Value(t[1]), Value(t[2]), Value(t[3]);
      if v3 == 64 || v2 == 64 then None
      else if t[2..] == "==" then
        var n := Number(v3, v2, 0, 0);
        if n % 0x10000 == 0 then Some([High(n)]) else None
      else if v1 == 64 then None
      else if t[3..] == "=" then
        var n := Number(v3, v2, v1, 0);
        if n % 0x100 == 0 then Some([High(n), Middle(n)]) else None
      else if v0 == 64 then None
      else
        var n := Number(v3, v2, v1, v0);
        match Decode(t[4..])
        case None => None
        case Some(rest) => Some([High(n), Middle(n), Low(n)] + rest)
  }

  lemma ValueOfChar(d: nat)
    requires d < 64
    ensures Value(Char(d)) == d && Char(d) != '='
  {
  }

  lemma CharOfValue(c: char)
    requires Value(c) < 64
    ensures Char(Value(c)) == c
  {
  }

  lemma NumberOfDigits(val: nat)
    requires val < 0x100_0000
    ensures Number(Digit(val, 3), Digit(val, 2), Digit(val, 1), Digit(val, 0)) == val
  {
    var q1, q2, q3 := val / 0x40, val / 0x1000, val / 0x40000;
    assert q1 / 64 == q2 && q2 / 64 == q3;
    assert q3 < 64;
    SplitSix(val);
    SplitSix(q1);
    SplitSix(q2);
  }

  lemma SplitSix(v: nat)
    ensures v == v / 64 * 64 + v % 64
  {
  }

  lemma DigitsOfNumber(v3: nat, v2: nat, v1: nat, v0: nat)
    requires v3 < 64 && v2 < 64 && v1 < 64 && v0 < 64
    ensures var n := Number(v3, v2, v1, v0);
            n < 0x100_0000 && Digit(n, 3) == v3 && Digit(n, 2) == v2 && Digit(n, 1) == v1 && Digit(n, 0) == v0
  {
  }

  lemma BytesOfGroup(b0: byte, b1: byte, b2: byte)
    ensures var n := Group(b0, b1, b2);
            n < 0x100_0000 && High(n) == b0 && Middle(n) == b1 && Low(n) == b2
  {
  }

  lemma GroupOfBytes(n: nat)
    requires n < 0x100_0000
    ensures Group(High(n), Middle(n), Low(n)) == n
  {
  }

  /** The four characters of a full group, and what they decode to. */
  lemma GroupRoundTrip(b0: byte, b1: byte, b2: byte, rest: string)
    ensures var t := Digits(Group(b0, b1, b2), 0) + rest;
            && t[4..] == rest
            && Decode(t) == match Decode(rest) case None => None case Some(r) => Some([b0, b1, b2] + r)
  {
    hide Char, Value, Digit, Number, High, Middle, Low, Group;
    var n := Group(b0, b1, b2);
    var t := Digits(n, 0) + rest;
    DigitsAre(n);
    BytesOfGroup(b0, b1, b2);
    NumberOfDigits(n);
    ValueOfChar(Digit(n, 3));
    ValueOfChar(Digit(n, 2));
    ValueOfChar(Digit(n, 1));
    ValueOfChar(Digit(n, 0));
    assert t[4..] == rest;
    assert t[2..][0] == t[2] && t[3..][0] == t[3];
  }

  lemma LastTwo(b0: byte, b1: byte)
    ensures Decode(Digits(Group(b0, b1, 0), 1) + "=") == Some([b0, b1])
  {
    hide Char, Value, Digit, Number, High, Middle, Low, Group;
    var n := Group(b0, b1, 0);
    var t := Digits(n, 1) + "=";
    DigitsAre(n);
    BytesOfGroup(b0, b1, 0);
    PaddedGroups(b0, b1);
    NumberOfDigits(n);
    ValueOfChar(Digit(n, 3));
    ValueOfChar(Digit(n, 2));
    ValueOfChar(Digit(n, 1));
    assert t[2..][0] == t[2] && t[3..] == "=";
  }

  lemma LastOne(b0: byte)
    ensures Decode(Digits(Group(b0, 0, 0), 2) + "==") == Some([b0])
  {
    hide Char, Value, Digit, Number, High, Middle, Low, Group;
    var n := Group(b0, 0, 0);
    var t := Digits(n, 2) + "==";
    DigitsAre(n);
    BytesOfGroup(b0, 0, 0);
    PaddedGroups(b0, 0);
    NumberOfDigits(n);
    ValueOfChar(Digit(n, 3));
    ValueOfChar(Digit(n, 2));
    assert t[2..] == "==";
  }

  lemma PaddedGroups(b0: byte, b1: byte)
    ensures Group(b0, b1, 0) % 0x100 == 0 && Digit(Group(b0, b1, 0), 0) == 0
    ensures b1 == 0 ==> Group(b0, b1, 0) % 0x10000 == 0 && Digit(Group(b0, b1, 0), 1) == 0
  {
    var n := Group(b0, b1, 0);
    ModUnique(n, 0x100, 0x100 * b0 + b1, 0);
    ModUnique(n, 64, 0x400 * b0 + 4 * b1, 0);
    if b1 == 0 {
      ModUnique(n, 0x10000, b0, 0);
      ModUnique(n / 64, 64, 0x10 * b0, 0);
    }
  }

  // ----- what the encoding promises -----

  /** Decoding inverts encoding on every byte string. */
  lemma {:induction false} RoundTrip(s: seq<byte>)
    ensures Decode(Encode(s)) == Some(s)
  {
    hide Digits, Group;
    if s == [] {
    } else if |s| == 1 {
      LastOne(s[0]);
      assert s == [s[0]];
    } else if |s| == 2 {
      LastTwo(s[0], s[1]);
      assert s == [s[0], s[1]];
    } else {
      RoundTrip(s[3..]);
      GroupRoundTrip(s[0], s[1], s[2], Encode(s[3..]));
      assert s == [s[0], s[1], s[2]] + s[3..];
    }
  }

  /** And nothing else decodes: every string the strict decoder accepts is the encoding of
      what it decodes to. */
  lemma {:induction false} DecodesOnlyEncodings(t: string)
    ensures Decode(t).Some? ==> Encode(Decode(t).value) == t
  {
    hide Char, Value, Digit, Number, High, Middle, Low, Group, Digits;
    if Decode(t).Some? && t != "" {
      var v3, v2, v1, v0 := Value(t[0]), Value(t[1]), Value(t[2]), Value(t[3]);
      CharOfValue(t[0]);
      CharOfValue(t[1]);
      if t[2..] == "==" {
        RebuildGroup(v3, v2, 0, 0);
        assert t == [t[0], t[1]] + t[2..];
      } else if t[3..] == "=" {
        CharOfValue(t[2]);
        RebuildGroup(v3, v2, v1, 0);
        assert t == [t[0], t[1], t[2]] + t[3..];
      } else {
        CharOfValue(t[2]);
        CharOfValue(t[3]);
        RebuildGroup(v3, v2, v1, v0);
        DecodesOnlyEncodings(t[4..]);
        assert Decode(t).value[3..] == Decode(t[4..]).value;
        assert t == [t[0], t[1], t[2], t[3]] + t[4..];
      }
    }
  }

  /** The characters of the bytes of four digits are the digits' characters. */
  lemma RebuildGroup(v3: nat, v2: nat, v1: nat, v0: nat)
    requires v3 < 64 && v2 < 64 && v1 < 64 && v0 < 64
    ensures var n := Number(v3, v2, v1, v0);
            && Digits(Group(High(n), Middle(n), Low(n)), 0) == [Char(v3), Char(v2), Char(v1), Char(v0)]
            && (n % 0x100 == 0 ==> Digits(Group(High(n), Middle(n), 0), 1) == [Char(v3), Char(v2), Char(v1)])
            && (n % 0x10000 == 0 ==> Digits(Group(High(n), 0, 0), 2) == [Char(v3), Char(v2)])
  {
    hide Char, Digit, Number, Digits;
    var n := Number(v3, v2, v1, v0);
    DigitsOfNumber(v3, v2, v1, v0);
    GroupOfBytes(n);
    DigitsAre(n);
  }

  /** Four characters for every three bytes begun. */
  lemma {:induction false} Length(s: seq<byte>)
    ensures |Encode(s)| == 4 * ((|s| + 2) / 3)
  {
    hide Digits;
    if |s| >= 3 {
      Length(s[3..]);
    }
  }

  /** Whole groups encode independently of what follows. */
  lemma {:induction false} Concatenation(a: seq<byte>, b: seq<byte>)
    requires |a| % 3 == 0
    ensures Encode(a + b) == Encode(a) + Encode(b)
  {
    hide Digits;
    if a == [] {
      assert a + b == b;
    } else {
      Concatenation(a[3..], b);
      assert (a + b)[3..] == a[3..] + b;
      var g := Digits(Group(a[0], a[1], a[2]), 0);
      assert g + (Encode(a[3..]) + Encode(b)) == g + Encode(a[3..]) + Encode(b);
    }
  }
}
