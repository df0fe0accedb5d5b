/** The example of section 2.2.1 of draft-irtf-cfrg-xchacha, round by round. */
module HChaChaVector {
  import opened HChaCha20

  // ----- the states before the rounds and after each half of a double round -----

  const S0: State := [
    0x61707865, 0x3320646e, 0x79622d32, 0x6b206574,
    0x03020100, 0x07060504, 0x0b0a0908, 0x0f0e0d0c,
    0x13121110, 0x17161514, 0x1b1a1918, 0x1f1e1d1c,
    0x09000000, 0x4a000000, 0x00000000, 0x27594131]
  const C0: State := [
    0xbc6aa25c, 0x222a51ea, 0x6db4fbdf, 0x91a8685c,
    0xdf42d865, 0x54dcfe98, 0x4e4abd1b, 0xbea9f4bd,
    0x9c46ad47, 0xd8aa5185, 0xdfd450df, 0x6c04a635,
    0x0fcf2ec5, 0x5821cc4b, 0x8e7fb35b, 0x19352ba2]
  const S1: State := [
    0x7bc434f3, 0x6a045b3d, 0xa9b6a717, 0xe97301f1,
    0x61ba01e7, 0x8d245f4b, 0x33708154, 0xd31e1023,
    0x3af18a5b, 0xb644b533, 0xfd66db41, 0x51e9ad3a,
    0xc424874b, 0x61d36895, 0xe9ff651a, 0x923c81f0]
  const C1: State := [
    0x67a35fad, 0x585f0adc, 0x663c0005, 0xf94d5581,
    0x7659ac4a, 0xe411f655, 0x8c1d6f08, 0xfaa59e59,
    0x1ec99b8b, 0xcafe73b8, 0x980ced44, 0x8f490851,
    0x3246f7d6, 0x429c278a, 0x4d34dd2b, 0xa97b2c6a]
  const S2: State := [
    0x8e19d568, 0x4f94b2fa, 0xe2e6b081, 0xe3471ee3,
    0x5d8dc91e, 0xe4843060, 0x7c532d54, 0x9ad42044,
    0x0b30ba63, 0x4f1b068a, 0x83ad7706, 0xc3e09f4c,
    0xa664c0c1, 0x3292fc5b, 0xa73c703f, 0x7137a6f4]
  const C2: State := [
    0x47bb21d5, 0xb7f02c03, 0x135fd2b1, 0xf6ff0b9d,
    0xfbceb81c, 0x48ef0aee, 0x736b8aa9, 0xadc9c8f8,
    0x65e41e3f, 0x5f4696bc, 0xe6c323c9, 0x89b85fe7,
    0xfc6c1619, 0xf12a89a8, 0xb52ab4be, 0x2c04b16f]
  const S3: State := [
    0x9f53c98b, 0x87372c3c, 0x8995494b, 0x2939b691,
    0xaa53ec91, 0xa64cd8c6, 0x591beafb, 0x1a9dbfe2,
    0x0c5e96dd, 0x153f5501, 0x83e50579, 0xad694245,
    0x82fb0b27, 0x9479489b, 0x3ef1765e, 0xff752502]
  const C3: State := [
    0xe2923c58, 0x8ae7914b, 0x43655e14, 0xb7e7c817,
    0xbdf05275, 0x3124c65e, 0x9a0e3a11, 0xaff2b7f1,
    0x73916698, 0xe101c5c5, 0x438035ba, 0x974fb4cb,
    0xa9f7045f, 0x7e28b6c7, 0x7d825401, 0x9674b5e4]
  const S4: State := [
    0x7b893f75, 0xfcb39b21, 0x0797b1bf, 0x5f9ec3b3,
    0x4e0f0bd5, 0xafa77b58, 0xea5562e0, 0xd7ac0abe,
    0x6990c3af, 0x435ab730, 0xd68d7249, 0x16696500,
    0xb0162333, 0x553ccfa7, 0x13cbe911, 0xdbbab6cc]
  const C4: State := [
    0x1d06d50a, 0x991811a2, 0x85560883, 0xecffb3f9,
    0x6c243901, 0x4f477f04, 0x3705019f, 0x195f0632,
    0x51b6c1b2, 0xe42275d7, 0xad06f9e7, 0xd1865b84,
    0x7fac8475, 0xc6e8c540, 0xd8eaa578, 0x425f0994]
  const S5: State := [
    0xd1de186c, 0xb0c7b93c, 0xd078df04, 0x660e0112,
    0x67e36bdb, 0xac30ed15, 0xbd9ed3dd, 0x7851b2cd,
    0xab33732a, 0xba25d2cf, 0x4ed7a584, 0x5bd1985c,
    0xf3168d27, 0x8d87591b, 0x8c80db2f, 0x44367d8c]
  const C5: State := [
    0xaf1f317e, 0x618e57a5, 0x45d41334, 0x26603906,
    0xe9254820, 0xb167dc3c, 0x85958a32, 0xe413c50a,
    0x348fe7a7, 0x7df77eec, 0xd2b74b47, 0x5dc8a2ad,
    0x7ffba9a6, 0xc486da9e, 0x1a11a32c, 0x33a36fe8]
  const S6: State := [
    0x44ac8600, 0xe23f5411, 0x5ae80570, 0x5d4f85b8,
    0x2de236d4, 0xfddd6beb, 0x0e3b8a87, 0x8c65a958,
    0x8018e660, 0xe591c0ff, 0x33dec291, 0xf507052f,
    0x4eccc9aa, 0x48e81158, 0x45902c7f, 0xfed52426]
  const C6: State := [
    0xc3d62a5b, 0x903e469a, 0x3f7fcd8c, 0x7512a7d5,
    0x7528efe6, 0x82af57cf, 0x8a09ba8c, 0xd8556457,
    0x9dad3c58, 0x2f24d831, 0xcf482ee0, 0x24edd20d,
    0xa81619b6, 0x9aee6e3e, 0xf7e13f9c, 0x24b0b57e]
  const S7: State := [
    0x82f32a6d, 0x8e367c9d, 0x12b17440, 0x1bda71e1,
    0x9375cc72, 0xc4a0c4c8, 0xd199bb4b, 0x2c035ec8,
    0x6a8444e0, 0xd4b831be, 0xade4e9ca, 0xe44d4801,
    0xa6cec396, 0x6cf97b4d, 0xfd6c3bb3, 0xa74858b5]
  const C7: State := [
    0x9a0837aa, 0x5d898e09, 0x2fe6d0c3, 0xdf43b4af,
    0x65217f31, 0x116dfbdd, 0xbea30a75, 0x6dc375ae,
    0xe1550235, 0xb0909753, 0xa0e6e72c, 0xcbbe62ed,
    0x41870caf, 0xa1b02767, 0xdec9e43b, 0x5f543a57]
  const S8: State := [
    0x4d7f6f44, 0xe8db7660, 0x2268596b, 0x195222b4,
    0x64520ce3, 0x2d3d17fc, 0x0aa8fb53, 0x375eb422,
    0xc0d0af92, 0x12244acd, 0x5a534192, 0x6abb8c14,
    0x0a2bcb7c, 0x7e657143, 0x89b818ce, 0xaf9b6644]
  const C8: State := [
    0x98486dee, 0x0063f223, 0xdee7df84, 0x54a2a997,
    0x3a473e35, 0xcab8c733, 0xf4cc85c7, 0x2a4d7124,
    0x8c027fbb, 0x8dde1249, 0x3e3f13cd, 0x4ba54823,
    0x13d6142f, 0x7c9a5eff, 0x977b2d92, 0x3056bce4]
  const S9: State := [
    0x2d02a54c, 0x6fdd5da4, 0x517a3ba9, 0x4048cdf3,
    0x2735a16f, 0xfdf971a2, 0x454a57d9, 0xf1886447,
    0xc7a7fbc9, 0x6f108d65, 0x8ffa82c8, 0xc8267115,
    0x18bb420c, 0x2d4e065f, 0x16d4618a, 0xc7f61ba4]
  const C9: State := [
    0x02ca8571, 0x799ccba3, 0x2c14aff6, 0x0208e23e,
    0x5d827272, 0x387af85b, 0xb17ae105, 0xf71831ab,
    0x4a293a52, 0xbdb509ad, 0x9e32e9b6, 0x87d98067,
    0x7dc9f206, 0x858b3bb0, 0x1c2fe6de, 0x9614192b]
  const S10: State := [
    0x423b4182, 0xfe7bb227, 0x50420ed3, 0x737d878a,
    0x0aa76448, 0x7954cdf3, 0x846acd37, 0x7b3c58ad,
    0x77e35583, 0x83e77c12, 0xe0076a2d, 0xbc6cd0e5,
    0xd5e4f9a0, 0x53a8748a, 0x13c42ec1, 0xdcecd326]

  lemma Columns0()
    ensures ColumnRound(S0) == C0
  {
  }

  lemma Diagonals0()
    ensures DiagonalRound(C0) == S1
  {
  }

  lemma Columns1()
    ensures ColumnRound(S1) == C1
  {
  }

  lemma Diagonals1()
    ensures DiagonalRound(C1) == S2
  {
  }

  lemma Columns2()
    ensures ColumnRound(S2) == C2
  {
  }

  lemma Diagonals2()
    ensures DiagonalRound(C2) == S3
  {
  }

  lemma Columns3()
    ensures ColumnRound(S3) == C3
  {
  }

  lemma Diagonals3()
    ensures DiagonalRound(C3) == S4
  {
  }

  lemma Columns4()
    ensures ColumnRound(S4) == C4
  {
  }

  lemma Diagonals4()
    ensures DiagonalRound(C4) == S5
  {
  }

  lemma Columns5()
    ensures ColumnRound(S5) == C5
  {
  }

  lemma Diagonals5()
    ensures DiagonalRound(C5) == S6
  {
  }

  lemma Columns6()
    ensures ColumnRound(S6) == C6
  {
  }

  lemma Diagonals6()
    ensures DiagonalRound(C6) == S7
  {
  }

  lemma Columns7()
    ensures ColumnRound(S7) == C7
  {
  }

  lemma Diagonals7()
    ensures DiagonalRound(C7) == S8
  {
  }

  lemma Columns8()
    ensures ColumnRound(S8) == C8
  {
  }

  lemma Diagonals8()
    ensures DiagonalRound(C8) == S9
  {
  }

  lemma Columns9()
    ensures ColumnRound(S9) == C9
  {
  }

  lemma Diagonals9()
    ensures DiagonalRound(C9) == S10
  {
  }

  lemma TenDoubleRounds()
    ensures Rounds(S0, 10) == S10
  {
    hide ColumnRound, DiagonalRound, Rounds;
    Columns0(); Diagonals0(); OneDoubleRound(S0, 0);
    Columns1(); Diagonals1(); OneDoubleRound(S0, 1);
    Columns2(); Diagonals2(); OneDoubleRound(S0, 2);
    Columns3(); Diagonals3(); OneDoubleRound(S0, 3);
    Columns4(); Diagonals4(); OneDoubleRound(S0, 4);
    Columns5(); Diagonals5(); OneDoubleRound(S0, 5);
    Columns6(); Diagonals6(); OneDoubleRound(S0, 6);
    Columns7(); Diagonals7(); OneDoubleRound(S0, 7);
    Columns8(); Diagonals8(); OneDoubleRound(S0, 8);
    Columns9(); Diagonals9(); OneDoubleRound(S0, 9);
    NoRounds(S0);
  }

  lemma OneDoubleRound(s: State, n: nat)
    ensures Rounds(s, n + 1) == DiagonalRound(ColumnRound(Rounds(s, n)))
  {
  }

  lemma NoRounds(s: State)
    ensures Rounds(s, 0) == s
  {
  }

  const KEY: Bytes := [
    0x00, 0x01, 0x02, 0x03, 0x04, 0x05, 0x06, 0x07, 0x08, 0x09, 0x0a, 0x0b, 0x0c, 0x0d, 0x0e, 0x0f,
    0x10, 0x11, 0x12, 0x13, 0x14, 0x15, 0x16, 0x17, 0x18, 0x19, 0x1a, 0x1b, 0x1c, 0x1d, 0x1e, 0x1f]
  const NONCE: Bytes := [
    0x00, 0x00, 0x00, 0x09, 0x00, 0x00, 0x00, 0x4a, 0x00, 0x00, 0x00, 0x00, 0x31, 0x41, 0x59, 0x27]

  lemma ConstantWords()
    ensures Words(ARFF) == S0[..4]
  {
  }

  lemma KeyWords()
    ensures Words(KEY) == S0[4..12]
  {
  }

  lemma NonceWords()
    ensures Words(NONCE) == S0[12..]
  {
  }

  lemma Loaded()
    ensures InitialState(KEY, NONCE) == S0
  {
    hide Words;
    ConstantWords();
    KeyWords();
    NonceWords();
    assert S0 == S0[..4] + S0[4..12] + S0[12..];
  }

  lemma Stored()
    ensures DerivedKey(S10) == [
      0x82, 0x41, 0x3b, 0x42, 0x27, 0xb2, 0x7b, 0xfe, 0xd3, 0x0e, 0x42, 0x50, 0x8a, 0x87, 0x7d, 0x73,
      0xa0, 0xf9, 0xe4, 0xd5, 0x8a, 0x74, 0xa8, 0x53, 0xc1, 0x2e, 0xc4, 0x13, 0x26, 0xd3, 0xec, 0xdc]
  {
  }

  lemma HChaCha20Vector()
    ensures DerivedKey(Rounds(InitialState(KEY, NONCE), 10)) == [
      0x82, 0x41, 0x3b, 0x42, 0x27, 0xb2, 0x7b, 0xfe, 0xd3, 0x0e, 0x42, 0x50, 0x8a, 0x87, 0x7d, 0x73,
      0xa0, 0xf9, 0xe4, 0xd5, 0x8a, 0x74, 0xa8, 0x53, 0xc1, 0x2e, 0xc4, 0x13, 0x26, 0xd3, 0xec, 0xdc]
  {
    hide DerivedKey, InitialState, Rounds;
    Loaded();
    TenDoubleRounds();
    Stored();
  }
}
