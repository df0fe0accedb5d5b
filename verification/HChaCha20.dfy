/** The key derivation of XChaCha20 (section 2.2 of draft-irtf-cfrg-xchacha), over the
    ChaCha quarter round (section 2.1 of RFC 8439). */
module HChaCha20 {
  type State = s: seq<bv32> | |s| == 16 witness seq(16, i => 0)

  // ----- the quarter round -----

  function Rotl(x: bv32, n: bv6): bv32
    requires 0 < n < 32
  {
    (x << n) | (x >> (32 - n))
  }

  function Rotr(x: bv32, n: bv6): bv32
    requires 0 < n < 32
  {
    (x >> n) | (x << (32 - n))
  }

  function Add(x: bv32, y: bv32): bv32 { x + y }
  function Sub(x: bv32, y: bv32): bv32 { x - y }
  function Xor(x: bv32, y: bv32): bv32 { x ^ y }

  datatype Pair = Pair(x: bv32, z: bv32)
  datatype Quad = Quad(a: bv32, b: bv32, c: bv32, d: bv32)

  /** y is added into x; then x is mixed into z, which is rotated by n bits. */
  function Mix(p: Pair, y: bv32, n: bv6): Pair
    requires 0 < n < 32
  {
    Pair(Add(p.x, y), Rotl(Xor(p.z, Add(p.x, y)), n))
  }

  function Unmix(p: Pair, y: bv32, n: bv6): Pair
    requires 0 < n < 32
  {
    Pair(Sub(p.x, y), Xor(Rotr(p.z, n), p.x))
  }

  function QuarterRound(q: Quad): Quad {
    var ad := Mix(Pair(q.a, q.d), q.b, 16);
    var cb := Mix(Pair(q.c, q.b), ad.z, 12);
    var ad' := Mix(ad, cb.z, 8);
    var cb' := Mix(Pair(cb.x, cb.z), ad'.z, 7);
    Quad(ad'.x, cb'.z, cb'.x, ad'.z)
  }

  function InverseQuarterRound(q: Quad): Quad {
    var cb := Unmix(Pair(q.c, q.b), q.d, 7);
    var ad := Unmix(Pair(q.a, q.d), cb.z, 8);
    var cb' := Unmix(cb, ad.z, 12);
    var ad' := Unmix(ad, cb'.z, 16);
    Quad(ad'.x, cb'.z, cb'.x, ad'.z)
  }

  lemma RotrRotl7(x: bv32)
    ensures Rotr(Rotl(x, 7), 7) == x
  {
  }

  lemma RotrRotl8(x: bv32)
    ensures Rotr(Rotl(x, 8), 8) == x
  {
  }

  lemma RotrRotl12(x: bv32)
    ensures Rotr(Rotl(x, 12), 12) == x
  {
  }

  lemma RotrRotl16(x: bv32)
    ensures Rotr(Rotl(x, 16), 16) == x
  {
  }

  lemma XorCancel(x: bv32, y: bv32)
    ensures Xor(Xor(x, y), y) == x
  {
  }

  lemma AddCancel(x: bv32, y: bv32)
    ensures Sub(Add(x, y), y) == x
  {
    assert Add(x, y) == x + y && Sub(x + y, y) == x;
  }

  lemma UnmixMix(p: Pair, y: bv32, n: bv6)
    requires n == 7 || n == 8 || n == 12 || n == 16
    ensures Unmix(Mix(p, y, n), y, n) == p
  {
    hide Rotl, Rotr, Add, Sub, Xor;
    var w := Xor(p.z, Add(p.x, y));
    if n == 7 { RotrRotl7(w); }
    else if n == 8 { RotrRotl8(w); }
    else if n == 12 { RotrRotl12(w); }
    else { RotrRotl16(w); }
    AddCancel(p.x, y);
    XorCancel(p.z, Add(p.x, y));
  }

  lemma QuarterRoundInverse(q: Quad)
    ensures InverseQuarterRound(QuarterRound(q)) == q
  {
    hide Mix, Unmix;
    var ad := Mix(Pair(q.a, q.d), q.b, 16);
    var cb := Mix(Pair(q.c, q.b), ad.z, 12);
    var ad' := Mix(ad, cb.z, 8);
    UnmixMix(Pair(q.a, q.d), q.b, 16);
    UnmixMix(Pair(q.c, q.b), ad.z, 12);
    UnmixMix(ad, cb.z, 8);
    UnmixMix(cb, ad'.z, 7);
  }

  /** The example of section 2.1.1 of RFC 8439. */
  lemma QuarterRoundVector()
    ensures QuarterRound(Quad(0x1111_1111, 0x0102_0304, 0x9b8d_6f43, 0x0123_4567))
         == Quad(0xea2a_92f4, 0xcb1c_f8ce, 0x4581_472e, 0x5881_c4bb)
  {
    assert Mix(Pair(0x1111_1111, 0x0123_4567), 0x0102_0304, 16) == Pair(0x1213_1415, 0x5172_1330);
  }

  // ----- rounds on the sixteen words -----

  function QuadAt(s: State, a: nat, b: nat, c: nat, d: nat): Quad
    requires a < 16 && b < 16 && c < 16 && d < 16
  {
    Quad(s[a], s[b], s[c], s[d])
  }

  function Put(s: State, a: nat, b: nat, c: nat, d: nat, q: Quad): State
    requires a < 16 && b < 16 && c < 16 && d < 16
  {
    s[a := q.a][b := q.b][c := q.c][d := q.d]
  }

  /** The quarter round on four words of the state. */
  function QuarterRoundAt(s: State, a: nat, b: nat, c: nat, d: nat): State
    requires a < 16 && b < 16 && c < 16 && d < 16
  {
    Put(s, a, b, c, d, QuarterRound(QuadAt(s, a, b, c, d)))
  }

  predicate FourDistinct(a: nat, b: nat, c: nat, d: nat) {
    a < 16 && b < 16 && c < 16 && d < 16 && a != b && a != c && a != d && b != c && b != d && c != d
  }

  predicate Disjoint(a: nat, b: nat, c: nat, d: nat, e: nat, f: nat, g: nat, h: nat) {
    && e != a && e != b && e != c && e != d
    && f != a && f != b && f != c && f != d
    && g != a && g != b && g != c && g != d
    && h != a && h != b && h != c && h != d
  }

  /** Quarter rounds on disjoint words can be done in either order. */
  lemma QuarterRoundsCommute(s: State, a: nat, b: nat, c: nat, d: nat, e: nat, f: nat, g: nat, h: nat)
    requires FourDistinct(a, b, c, d) && FourDistinct(e, f, g, h) && Disjoint(a, b, c, d, e, f, g, h)
    ensures QuarterRoundAt(QuarterRoundAt(s, a, b, c, d), e, f, g, h)
         == QuarterRoundAt(QuarterRoundAt(s, e, f, g, h), a, b, c, d)
  {
    hide QuarterRound;
    var p, q := QuarterRound(QuadAt(s, a, b, c, d)), QuarterRound(QuadAt(s, e, f, g, h));
    assert QuadAt(Put(s, a, b, c, d, p), e, f, g, h) == QuadAt(s, e, f, g, h);
    assert QuadAt(Put(s, e, f, g, h, q), a, b, c, d) == QuadAt(s, a, b, c, d);
    PutsCommute(s, a, b, c, d, e, f, g, h, p, q);
  }

  lemma PutAt(s: State, a: nat, b: nat, c: nat, d: nat, q: Quad, i: nat)
    requires FourDistinct(a, b, c, d) && i < 16
    ensures Put(s, a, b, c, d, q)[i]
         == if i == a then q.a else if i == b then q.b else if i == c then q.c else if i == d then q.d else s[i]
  {
  }

  lemma PutsCommute(s: State, a: nat, b: nat, c: nat, d: nat, e: nat, f: nat, g: nat, h: nat, p: Quad, q: Quad)
    requires FourDistinct(a, b, c, d) && FourDistinct(e, f, g, h) && Disjoint(a, b, c, d, e, f, g, h)
    ensures Put(Put(s, a, b, c, d, p), e, f, g, h, q) == Put(Put(s, e, f, g, h, q), a, b, c, d, p)
  {
    hide Put;
    var l, r := Put(Put(s, a, b, c, d, p), e, f, g, h, q), Put(Put(s, e, f, g, h, q), a, b, c, d, p);
    forall i | 0 <= i < 16 ensures l[i] == r[i] {
      PutAt(s, a, b, c, d, p, i);
      PutAt(s, e, f, g, h, q, i);
      PutAt(Put(s, a, b, c, d, p), e, f, g, h, q, i);
      PutAt(Put(s, e, f, g, h, q), a, b, c, d, p, i);
    }
  }

  // The state as a four-by-four matrix, word i in row i / 4 and column i % 4.

  function Column(s: State, k: nat): Quad
    requires k < 4
  {
    QuadAt(s, k, 4 + k, 8 + k, 12 + k)
  }

  /** The matrix with these columns. */
  function FromColumns(c0: Quad, c1: Quad, c2: Quad, c3: Quad): State {
    [c0.a, c1.a, c2.a, c3.a,
     c0.b, c1.b, c2.b, c3.b,
     c0.c, c1.c, c2.c, c3.c,
     c0.d, c1.d, c2.d, c3.d]
  }

  /** A quarter round down every column at once. */
  function ColumnRound(s: State): State {
    FromColumns(QuarterRound(Column(s, 0)), QuarterRound(Column(s, 1)),
                QuarterRound(Column(s, 2)), QuarterRound(Column(s, 3)))
  }

  function InverseColumnRound(s: State): State {
    FromColumns(InverseQuarterRound(Column(s, 0)), InverseQuarterRound(Column(s, 1)),
                InverseQuarterRound(Column(s, 2)), InverseQuarterRound(Column(s, 3)))
  }

  /** Row r rotated left by r places, which stands the diagonals up as columns. */
  function Skew(s: State): State {
    [s[0], s[1], s[2], s[3],
     s[5], s[6], s[7], s[4],
     s[10], s[11], s[8], s[9],
     s[15], s[12], s[13], s[14]]
  }

  function Unskew(s: State): State {
    [s[0], s[1], s[2], s[3],
     s[7], s[4], s[5], s[6],
     s[10], s[11], s[8], s[9],
     s[13], s[14], s[15], s[12]]
  }

  function DiagonalRound(s: State): State {
    Unskew(ColumnRound(Skew(s)))
  }

  function DoubleRound(s: State): State {
    DiagonalRound(ColumnRound(s))
  }

  function Rounds(s: State, n: nat): State {
    if n == 0 then s else DoubleRound(Rounds(s, n - 1))
  }

  // ----- the inverse -----

  lemma ColumnsOf(c0: Quad, c1: Quad, c2: Quad, c3: Quad)
    ensures Column(FromColumns(c0, c1, c2, c3), 0) == c0 && Column(FromColumns(c0, c1, c2, c3), 1) == c1
    ensures Column(FromColumns(c0, c1, c2, c3), 2) == c2 && Column(FromColumns(c0, c1, c2, c3), 3) == c3
  {
  }

  lemma SameState(s: State, t: State)
    requires s[0] == t[0] && s[1] == t[1] && s[2] == t[2] && s[3] == t[3]
    requires s[4] == t[4] && s[5] == t[5] && s[6] == t[6] && s[7] == t[7]
    requires s[8] == t[8] && s[9] == t[9] && s[10] == t[10] && s[11] == t[11]
    requires s[12] == t[12] && s[13] == t[13] && s[14] == t[14] && s[15] == t[15]
    ensures s == t
  {
  }

  lemma FromOwnColumns(s: State)
    ensures FromColumns(Column(s, 0), Column(s, 1), Column(s, 2), Column(s, 3)) == s
  {
    assert s == [s[0], s[1], s[2], s[3], s[4], s[5], s[6], s[7], s[8], s[9], s[10], s[11], s[12], s[13], s[14], s[15]];
  }

  lemma ColumnRoundInverse(s: State)
    ensures InverseColumnRound(ColumnRound(s)) == s
  {
    hide QuarterRound, InverseQuarterRound, Column, FromColumns;
    ColumnsOf(QuarterRound(Column(s, 0)), QuarterRound(Column(s, 1)),
              QuarterRound(Column(s, 2)), QuarterRound(Column(s, 3)));
    QuarterRoundInverse(Column(s, 0));
    QuarterRoundInverse(Column(s, 1));
    QuarterRoundInverse(Column(s, 2));
    QuarterRoundInverse(Column(s, 3));
    FromOwnColumns(s);
  }

  lemma SkewInverse(s: State)
    ensures Skew(Unskew(s)) == s && Unskew(Skew(s)) == s
  {
    SameState(Skew(Unskew(s)), s);
    SameState(Unskew(Skew(s)), s);
  }

  function InverseDoubleRound(s: State): State {
    InverseColumnRound(Unskew(InverseColumnRound(Skew(s))))
  }

  lemma DoubleRoundInverse(s: State)
    ensures InverseDoubleRound(DoubleRound(s)) == s
  {
    hide ColumnRound, InverseColumnRound, Skew, Unskew;
    var t := ColumnRound(s);
    SkewInverse(ColumnRound(Skew(t)));
    ColumnRoundInverse(Skew(t));
    SkewInverse(t);
    ColumnRoundInverse(s);
  }

  function InverseRounds(s: State, n: nat): State {
    if n == 0 then s else InverseDoubleRound(InverseRounds(s, n - 1))
  }

  lemma {:induction false} InverseRoundsFirst(s: State, n: nat)
    ensures InverseRounds(s, n + 1) == InverseRounds(InverseDoubleRound(s), n)
  {
    hide InverseDoubleRound;
    if n > 0 {
      InverseRoundsFirst(s, n - 1);
    }
  }

  lemma {:induction false} RoundsInverse(s: State, n: nat)
    ensures InverseRounds(Rounds(s, n), n) == s
  {
    hide DoubleRound, InverseDoubleRound;
    if n > 0 {
      DoubleRoundInverse(Rounds(s, n - 1));
      InverseRoundsFirst(Rounds(s, n), n - 1);
      RoundsInverse(s, n - 1);
    }
  }

  /** Twenty rounds lose nothing. */
  lemma RoundsInjective(s: State, t: State, n: nat)
    ensures Rounds(s, n) == Rounds(t, n) <==> s == t
  {
    RoundsInverse(s, n);
    RoundsInverse(t, n);
  }

  // ----- the array loop does the same -----

  lemma OneColumn(s: State, k: nat, j: nat)
    requires k < 4 && j < 4
    ensures Column(QuarterRoundAt(s, k, 4 + k, 8 + k, 12 + k), j)
         == if j == k then QuarterRound(Column(s, k)) else Column(s, j)
  {
    hide QuarterRound;
  }

  lemma AColumn(s: State, k: nat)
    requires k < 4
    ensures var t := QuarterRoundAt(s, k, 4 + k, 8 + k, 12 + k);
            && Column(t, 0) == (if k == 0 then QuarterRound(Column(s, k)) else Column(s, 0))
            && Column(t, 1) == (if k == 1 then QuarterRound(Column(s, k)) else Column(s, 1))
            && Column(t, 2) == (if k == 2 then QuarterRound(Column(s, k)) else Column(s, 2))
            && Column(t, 3) == (if k == 3 then QuarterRound(Column(s, k)) else Column(s, 3))
  {
    hide QuarterRound, Column, QuarterRoundAt;
    OneColumn(s, k, 0);
    OneColumn(s, k, 1);
    OneColumn(s, k, 2);
    OneColumn(s, k, 3);
  }

  lemma ColumnsInTurn(s: State)
    ensures var s1 := QuarterRoundAt(s, 0, 4, 8, 12);
            var s2 := QuarterRoundAt(s1, 1, 5, 9, 13);
            var s3 := QuarterRoundAt(s2, 2, 6, 10, 14);
            QuarterRoundAt(s3, 3, 7, 11, 15) == ColumnRound(s)
  {
    hide QuarterRound, QuarterRoundAt, Column, FromColumns;
    var s1 := QuarterRoundAt(s, 0, 4, 8, 12);
    var s2 := QuarterRoundAt(s1, 1, 5, 9, 13);
    var s3 := QuarterRoundAt(s2, 2, 6, 10, 14);
    var s4 := QuarterRoundAt(s3, 3, 7, 11, 15);
    AColumn(s, 0);
    AColumn(s1, 1);
    AColumn(s2, 2);
    AColumn(s3, 3);
    FromOwnColumns(s4);
  }

  /** Where Skew takes word i from. */
  function SkewSource(i: nat): nat
    requires i < 16
  {
    if i < 4 then i
    else if i < 8 then (if i < 7 then i + 1 else 4)
    else if i < 12 then (if i < 10 then i + 2 else i - 2)
    else if i == 12 then 15 else i - 1
  }

  lemma SkewAt(s: State, i: nat)
    requires i < 16
    ensures SkewSource(i) < 16 && Skew(s)[i] == s[SkewSource(i)]
  {
  }

  lemma SkewPut(s: State, q: Quad, a: nat, b: nat, c: nat, d: nat, e: nat, f: nat, g: nat, h: nat)
    requires FourDistinct(a, b, c, d) && FourDistinct(e, f, g, h)
    requires a == SkewSource(e) && b == SkewSource(f) && c == SkewSource(g) && d == SkewSource(h)
    ensures Skew(Put(s, a, b, c, d, q)) == Put(Skew(s), e, f, g, h, q)
  {
    hide Skew, Put, SkewSource;
    var l, r := Skew(Put(s, a, b, c, d, q)), Put(Skew(s), e, f, g, h, q);
    forall i | 0 <= i < 16 ensures l[i] == r[i] {
      SkewAt(Put(s, a, b, c, d, q), i);
      SkewAt(s, i);
      PutAt(s, a, b, c, d, q, SkewSource(i));
      PutAt(Skew(s), e, f, g, h, q, i);
      SkewInjective(i, e);
      SkewInjective(i, f);
      SkewInjective(i, g);
      SkewInjective(i, h);
    }
  }

  lemma SkewInjective(i: nat, j: nat)
    requires i < 16 && j < 16
    ensures SkewSource(i) == SkewSource(j) ==> i == j
  {
  }

  lemma SkewQuads(s: State)
    ensures QuadAt(Skew(s), 0, 4, 8, 12) == QuadAt(s, 0, 5, 10, 15)
    ensures QuadAt(Skew(s), 1, 5, 9, 13) == QuadAt(s, 1, 6, 11, 12)
    ensures QuadAt(Skew(s), 2, 6, 10, 14) == QuadAt(s, 2, 7, 8, 13)
    ensures QuadAt(Skew(s), 3, 7, 11, 15) == QuadAt(s, 3, 4, 9, 14)
  {
  }

  /** A quarter round down a diagonal is one down a column of the skewed matrix. */
  lemma SkewedDiagonals(s: State)
    ensures Skew(QuarterRoundAt(s, 0, 5, 10, 15)) == QuarterRoundAt(Skew(s), 0, 4, 8, 12)
    ensures Skew(QuarterRoundAt(s, 1, 6, 11, 12)) == QuarterRoundAt(Skew(s), 1, 5, 9, 13)
    ensures Skew(QuarterRoundAt(s, 2, 7, 8, 13)) == QuarterRoundAt(Skew(s), 2, 6, 10, 14)
    ensures Skew(QuarterRoundAt(s, 3, 4, 9, 14)) == QuarterRoundAt(Skew(s), 3, 7, 11, 15)
  {
    hide QuarterRound, Skew, Put;
    SkewQuads(s);
    SkewPut(s, QuarterRound(QuadAt(s, 0, 5, 10, 15)), 0, 5, 10, 15, 0, 4, 8, 12);
    SkewPut(s, QuarterRound(QuadAt(s, 1, 6, 11, 12)), 1, 6, 11, 12, 1, 5, 9, 13);
    SkewPut(s, QuarterRound(QuadAt(s, 2, 7, 8, 13)), 2, 7, 8, 13, 2, 6, 10, 14);
    SkewPut(s, QuarterRound(QuadAt(s, 3, 4, 9, 14)), 3, 4, 9, 14, 3, 7, 11, 15);
  }

  lemma DiagonalsInTurn(s: State)
    ensures var s1 := QuarterRoundAt(s, 0, 5, 10, 15);
            var s2 := QuarterRoundAt(s1, 1, 6, 11, 12);
            var s3 := QuarterRoundAt(s2, 2, 7, 8, 13);
            QuarterRoundAt(s3, 3, 4, 9, 14) == DiagonalRound(s)
  {
    hide QuarterRoundAt, Skew, Unskew, ColumnRound;
    var s1 := QuarterRoundAt(s, 0, 5, 10, 15);
    var s2 := QuarterRoundAt(s1, 1, 6, 11, 12);
    var s3 := QuarterRoundAt(s2, 2, 7, 8, 13);
    SkewedDiagonals(s);
    SkewedDiagonals(s1);
    SkewedDiagonals(s2);
    SkewedDiagonals(s3);
    ColumnsInTurn(Skew(s));
    SkewInverse(QuarterRoundAt(s3, 3, 4, 9, 14));
  }

  /** Adds word b into word a, then mixes word a into word d and rotates that by n bits. */
  method MixInPlace(x: array<bv32>, a: nat, b: nat, d: nat, n: bv6)
    requires a < x.Length && b < x.Length && d < x.Length && a != b && a != d && b != d && 0 < n < 32
    modifies x
    ensures var m := Mix(Pair(old(x[a]), old(x[d])), old(x[b]), n);
            x[a] == m.x && x[d] == m.z && forall i :: 0 <= i < x.Length && i != a && i != d ==> x[i] == old(x[i])
  {
    hide Rotl, Xor, Add;
    x[a] := Add(x[a], x[b]);
    x[d] := Rotl(Xor(x[d], x[a]), n);
  }

  /** The eight statements of the source, two at a time, on four words of an array. */
  method QuarterRoundInPlace(x: array<bv32>, a: nat, b: nat, c: nat, d: nat)
    requires x.Length == 16 && FourDistinct(a, b, c, d)
    modifies x
    ensures x[..] == QuarterRoundAt(old(x[..]), a, b, c, d)
  {
    hide Mix, Put;
    ghost var s: State := x[..];
    MixInPlace(x, a, b, d, 16);
    MixInPlace(x, c, d, b, 12);
    MixInPlace(x, a, b, d, 8);
    MixInPlace(x, c, d, b, 7);
    forall i | 0 <= i < 16 ensures x[i] == QuarterRoundAt(s, a, b, c, d)[i] {
      PutAt(s, a, b, c, d, QuarterRound(QuadAt(s, a, b, c, d)), i);
    }
  }

  method RoundsInPlace(x: array<bv32>)
    requires x.Length == 16
    modifies x
    ensures x[..] == Rounds(old(x[..]), 10)
  {
    hide QuarterRoundAt, ColumnRound, DiagonalRound;
    var i := 0;
    while i < 20
      invariant i % 2 == 0 && 0 <= i <= 20
      invariant x[..] == Rounds(old(x[..]), i / 2)
    {
      ghost var s: State := x[..];
      QuarterRoundInPlace(x, 0, 4, 8, 12);
      QuarterRoundInPlace(x, 1, 5, 9, 13);
      QuarterRoundInPlace(x, 2, 6, 10, 14);
      QuarterRoundInPlace(x, 3, 7, 11, 15);
      ColumnsInTurn(s);
      ghost var t: State := x[..];
      QuarterRoundInPlace(x, 0, 5, 10, 15);
      QuarterRoundInPlace(x, 1, 6, 11, 12);
      QuarterRoundInPlace(x, 2, 7, 8, 13);
      QuarterRoundInPlace(x, 3, 4, 9, 14);
      DiagonalsInTurn(t);
      i := i + 2;
      assert i / 2 == (i - 2) / 2 + 1;
    }
  }

  // ----- bytes in, bytes out -----

  type Bytes = seq<bv8>

  /** Four bytes as a little-endian word. */
  function Word(b0: bv8, b1: bv8, b2: bv8, b3: bv8): bv32 {
    (b0 as bv32) | ((b1 as bv32) << 8) | ((b2 as bv32) << 16) | ((b3 as bv32) << 24)
  }

  function ByteOf(w: bv32, shift: bv6): bv8
    requires shift <= 24
  {
    ((w >> shift) & 0xFF) as bv8
  }

  function WordAt(s: Bytes, i: nat): bv32
    requires 4 * i + 4 <= |s|
  {
    Word(s[4 * i], s[4 * i + 1], s[4 * i + 2], s[4 * i + 3])
  }

  function WordBytes(w: bv32): Bytes {
    [ByteOf(w, 0), ByteOf(w, 8), ByteOf(w, 16), ByteOf(w, 24)]
  }

  lemma WordByte0(b0: bv8, b1: bv8, b2: bv8, b3: bv8)
    ensures ByteOf(Word(b0, b1, b2, b3), 0) == b0
  {
  }

  lemma WordByte1(b0: bv8, b1: bv8, b2: bv8, b3: bv8)
    ensures ByteOf(Word(b0, b1, b2, b3), 8) == b1
  {
  }

  lemma WordByte2(b0: bv8, b1: bv8, b2: bv8, b3: bv8)
    ensures ByteOf(Word(b0, b1, b2, b3), 16) == b2
  {
  }

  lemma WordByte3(b0: bv8, b1: bv8, b2: bv8, b3: bv8)
    ensures ByteOf(Word(b0, b1, b2, b3), 24) == b3
  {
  }

  lemma BytesWord(w: bv32)
    ensures Word(ByteOf(w, 0), ByteOf(w, 8), ByteOf(w, 16), ByteOf(w, 24)) == w
  {
  }

  /** "expand 32-byte k" */
  const ARFF: Bytes := [0x65, 0x78, 0x70, 0x61, 0x6E, 0x64, 0x20, 0x33, 0x32, 0x2D, 0x62, 0x79, 0x74, 0x65, 0x20, 0x6B]

  function Words(s: Bytes): (w: seq<bv32>)
    ensures |w| == |s| / 4
  {
    seq(|s| / 4, i requires 0 <= i < |s| / 4 => WordAt(s, i))
  }

  function InitialState(key: Bytes, nonce: Bytes): State
    requires |key| == 32 && |nonce| == 16
  {
    Words(ARFF) + Words(key) + Words(nonce)
  }

  function FourWords(w0: bv32, w1: bv32, w2: bv32, w3: bv32): Bytes {
    WordBytes(w0) + WordBytes(w1) + WordBytes(w2) + WordBytes(w3)
  }

  /** The first and the last four words of the final state. */
  function DerivedKey(s: State): Bytes {
    FourWords(s[0], s[1], s[2], s[3]) + FourWords(s[12], s[13], s[14], s[15])
  }

  lemma FourWordsAt(w0: bv32, w1: bv32, w2: bv32, w3: bv32)
    ensures var s := FourWords(w0, w1, w2, w3);
            |s| == 16 && WordAt(s, 0) == w0 && WordAt(s, 1) == w1 && WordAt(s, 2) == w2 && WordAt(s, 3) == w3
  {
    hide Word, ByteOf;
    BytesWord(w0);
    BytesWord(w1);
    BytesWord(w2);
    BytesWord(w3);
  }

  lemma WordAtConcat(s: Bytes, t: Bytes, i: nat)
    requires |s| % 4 == 0 && 4 * i + 4 <= |s| + |t|
    ensures 4 * i < |s| ==> 4 * i + 4 <= |s| && WordAt(s + t, i) == WordAt(s, i)
    ensures 4 * i >= |s| ==> i >= |s| / 4 && WordAt(s + t, i) == WordAt(t, i - |s| / 4)
  {
    hide Word;
    assert 4 * (|s| / 4) == |s|;
  }

  /** Read back as words, the derived key is words 0 to 3 and 12 to 15 of the state. */
  lemma DerivedWords(s: State)
    ensures |DerivedKey(s)| == 32
    ensures forall j :: 0 <= j < 4 ==> WordAt(DerivedKey(s), j) == s[j]
    ensures forall j :: 4 <= j < 8 ==> WordAt(DerivedKey(s), j) == s[8 + j]
  {
    hide WordAt, FourWords;
    FourWordsAt(s[0], s[1], s[2], s[3]);
    FourWordsAt(s[12], s[13], s[14], s[15]);
    var front, back := FourWords(s[0], s[1], s[2], s[3]), FourWords(s[12], s[13], s[14], s[15]);
    forall j | 0 <= j < 4 ensures WordAt(front + back, j) == s[j] {
      WordAtConcat(front, back, j);
      assert j == 0 || j == 1 || j == 2 || j == 3;
    }
    forall j | 4 <= j < 8 ensures WordAt(front + back, j) == s[8 + j] {
      WordAtConcat(front, back, j);
      assert j == 4 || j == 5 || j == 6 || j == 7;
    }
  }

  lemma WordsFaithful(s: Bytes, t: Bytes, i: nat)
    requires |s| == |t| && 4 * i + 4 <= |s| && WordAt(s, i) == WordAt(t, i)
    ensures s[4 * i] == t[4 * i] && s[4 * i + 1] == t[4 * i + 1]
    ensures s[4 * i + 2] == t[4 * i + 2] && s[4 * i + 3] == t[4 * i + 3]
  {
    hide Word, ByteOf;
    WordByte0(s[4 * i], s[4 * i + 1], s[4 * i + 2], s[4 * i + 3]);
    WordByte1(s[4 * i], s[4 * i + 1], s[4 * i + 2], s[4 * i + 3]);
    WordByte2(s[4 * i], s[4 * i + 1], s[4 * i + 2], s[4 * i + 3]);
    WordByte3(s[4 * i], s[4 * i + 1], s[4 * i + 2], s[4 * i + 3]);
    WordByte0(t[4 * i], t[4 * i + 1], t[4 * i + 2], t[4 * i + 3]);
    WordByte1(t[4 * i], t[4 * i + 1], t[4 * i + 2], t[4 * i + 3]);
    WordByte2(t[4 * i], t[4 * i + 1], t[4 * i + 2], t[4 * i + 3]);
    WordByte3(t[4 * i], t[4 * i + 1], t[4 * i + 2], t[4 * i + 3]);
  }

  lemma AllWordsFaithful(s: Bytes, t: Bytes)
    requires |s| == |t| && |s| % 4 == 0 && Words(s) == Words(t)
    ensures s == t
  {
    hide WordAt;
    forall j | 0 <= j < |s| ensures s[j] == t[j] {
      var i := j / 4;
      assert Words(s)[i] == WordAt(s, i) && Words(t)[i] == WordAt(t, i);
      WordsFaithful(s, t, i);
      assert j == 4 * i + j % 4;
    }
  }

  /** Different keys or nonces never lead to the same sixteen words. */
  lemma DistinctInputsDistinctStates(key: Bytes, nonce: Bytes, key': Bytes, nonce': Bytes)
    requires |key| == |key'| == 32 && |nonce| == |nonce'| == 16
    ensures Rounds(InitialState(key, nonce), 10) == Rounds(InitialState(key', nonce'), 10)
       <==> key == key' && nonce == nonce'
  {
    hide Rounds, Words;
    RoundsInjective(InitialState(key, nonce), InitialState(key', nonce'), 10);
    if InitialState(key, nonce) == InitialState(key', nonce') {
      var s, s' := InitialState(key, nonce), InitialState(key', nonce');
      assert Words(key) == s[4..12] && Words(key') == s'[4..12];
      assert Words(nonce) == s[12..] && Words(nonce') == s'[12..];
      AllWordsFaithful(key, key');
      AllWordsFaithful(nonce, nonce');
    }
  }

  /** memcpy of bytes into words from index `at` on. */
  method LoadWords(x: array<bv32>, at: nat, s: Bytes)
    requires |s| % 4 == 0 && at + |s| / 4 <= x.Length
    modifies x
    ensures x[..] == old(x[..at]) + Words(s) + old(x[at + |s| / 4..])
  {
    hide WordAt;
    for j := 0 to |s| / 4
      invariant x[..] == old(x[..at]) + Words(s)[..j] + old(x[at + j..])
    {
      x[at + j] := WordAt(s, j);
    }
  }

  /** memcpy of the first and the last four words into the output. */
  method StoreKey(x: array<bv32>) returns (out: Bytes)
    requires x.Length == 16
    ensures out == DerivedKey(x[..])
  {
    out := FourWords(x[0], x[1], x[2], x[3]) + FourWords(x[12], x[13], x[14], x[15]);
  }

  method LoadState(key: Bytes, nonce: Bytes) returns (x: array<bv32>)
    requires |key| == 32 && |nonce| == 16
    ensures fresh(x) && x[..] == InitialState(key, nonce)
  {
    hide Words;
    x := new bv32[16](_ => 0);
    LoadWords(x, 0, ARFF);
    LoadWords(x, 4, key);
    assert x[..12] == Words(ARFF) + Words(key);
    LoadWords(x, 12, nonce);
  }

  /** The derived key, read as words, is words 0 to 3 and 12 to 15 of the final state. */
  method Derive(key: Bytes, nonce: Bytes) returns (out: Bytes)
    requires |key| == 32 && |nonce| == 16
    ensures out == DerivedKey(Rounds(InitialState(key, nonce), 10))
    ensures var final := Rounds(InitialState(key, nonce), 10);
            && |out| == 32
            && (forall j :: 0 <= j < 4 ==> WordAt(out, j) == final[j])
            && (forall j :: 4 <= j < 8 ==> WordAt(out, j) == final[8 + j])
  {
    hide Rounds, WordAt, InitialState, DerivedKey;
    var x := LoadState(key, nonce);
    RoundsInPlace(x);
    out := StoreKey(x);
    DerivedWords(Rounds(InitialState(key, nonce), 10));
  }
}
