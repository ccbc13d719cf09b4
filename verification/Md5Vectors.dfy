/** The test suite of section A.5 of RFC 1321 for "" and "abc", worked out with the unrolled steps:
    this ties the reference itself to published digests. */
module Md5Vectors {
  import opened LittleEndian
  import opened Md5
  import opened R = Md5Spec

  /** The sixteen words of the one block of a message of fewer than four bytes. */
  function ShortWords(first: bv32, bits: bv32): (x: seq<bv32>)
    ensures |x| == 16
  {
    [first, 0, 0, 0, 0, 0, 0, 0, 0, 0, 0, 0, 0, 0, bits, 0]
  }

  lemma EmptyRound1()
    ensures UnrolledRound1(State(0x67452301, 0xefcdab89, 0x98badcfe, 0x10325476), ShortWords(0x00000080, 0)) ==
      State(0xf56c7cf1, 0xd6819c6a, 0x5aa53f75, 0x374943a7)
  {
    EmptyQuad0();
    EmptyQuad1();
    EmptyQuad2();
    EmptyQuad3();
    hide Quad1;
  }

  lemma EmptyRound2()
    ensures UnrolledRound2(State(0xf56c7cf1, 0xd6819c6a, 0x5aa53f75, 0x374943a7), ShortWords(0x00000080, 0)) ==
      State(0x13707036, 0xa2205f1f, 0x1c31c384, 0xae7813db)
  {
    EmptyQuad4();
    EmptyQuad5();
    EmptyQuad6();
    EmptyQuad7();
    hide Quad2;
  }

  lemma EmptyRound3()
    ensures UnrolledRound3(State(0x13707036, 0xa2205f1f, 0x1c31c384, 0xae7813db), ShortWords(0x00000080, 0)) ==
      State(0x3f55edfd, 0xca7d2dbd, 0x68d84ea2, 0x22a31f54)
  {
    EmptyQuad8();
    EmptyQuad9();
    EmptyQuad10();
    EmptyQuad11();
    hide Quad3;
  }

  lemma EmptyRound4()
    ensures UnrolledRound4(State(0x3f55edfd, 0xca7d2dbd, 0x68d84ea2, 0x22a31f54), ShortWords(0x00000080, 0)) ==
      State(0x7246fad3, 0x14e45506, 0xff4ea3eb, 0x6e10a476)
  {
    EmptyQuad12();
    EmptyQuad13();
    EmptyQuad14();
    EmptyQuad15();
    hide Quad4;
  }

  lemma EmptyQuad0()
    ensures Quad1(State(0x67452301, 0xefcdab89, 0x98badcfe, 0x10325476),
                  0x00000080, 0xd76aa478, 0, 0xe8c7b756, 0, 0x242070db, 0, 0xc1bdceee) ==
      State(0xa5202774, 0x1b163203, 0xe7f06b23, 0xf59592dd)
  {}

  lemma EmptyQuad1()
    ensures Quad1(State(0xa5202774, 0x1b163203, 0xe7f06b23, 0xf59592dd),
                  0, 0xf57c0faf, 0, 0x4787c62a, 0, 0xa8304613, 0, 0xfd469501) ==
      State(0x32033344, 0x9bc13ce9, 0xf5b158db, 0x2f35d494)
  {}

  lemma EmptyQuad2()
    ensures Quad1(State(0x32033344, 0x9bc13ce9, 0xf5b158db, 0x2f35d494),
                  0, 0x698098d8, 0, 0x8b44f7af, 0, 0xffff5bb1, 0, 0x895cd7be) ==
      State(0x3893b991, 0x70768a29, 0xe1ef0576, 0xfce4a312)
  {}

  lemma EmptyQuad3()
    ensures Quad1(State(0x3893b991, 0x70768a29, 0xe1ef0576, 0xfce4a312),
                  0, 0x6b901122, 0, 0xfd987193, 0, 0xa679438e, 0, 0x49b40821) ==
      State(0xf56c7cf1, 0xd6819c6a, 0x5aa53f75, 0x374943a7)
  {}

  lemma EmptyQuad4()
    ensures Quad2(State(0xf56c7cf1, 0xd6819c6a, 0x5aa53f75, 0x374943a7),
                  0, 0xf61e2562, 0, 0xc040b340, 0, 0x265e5a51, 0x00000080, 0xe9b6c7aa) ==
      State(0x1c7d7513, 0xbd782e17, 0xc095f13a, 0x7bd57a3a)
  {}

  lemma EmptyQuad5()
    ensures Quad2(State(0x1c7d7513, 0xbd782e17, 0xc095f13a, 0x7bd57a3a),
                  0, 0xd62f105d, 0, 0x02441453, 0, 0xd8a1e681, 0, 0xe7d3fbc8) ==
      State(0x3d1e3e6c, 0xe422531a, 0xeb41643e, 0x68b7b3e3)
  {}

  lemma EmptyQuad6()
    ensures Quad2(State(0x3d1e3e6c, 0xe422531a, 0xeb41643e, 0x68b7b3e3),
                  0, 0x21e1cde6, 0, 0xc33707d6, 0, 0xf4d50d87, 0, 0x455a14ed) ==
      State(0x306ec122, 0xa0572807, 0xa3c663da, 0xd28c77c2)
  {}

  lemma EmptyQuad7()
    ensures Quad2(State(0x306ec122, 0xa0572807, 0xa3c663da, 0xd28c77c2),
                  0, 0xa9e3e905, 0, 0xfcefa3f8, 0, 0x676f02d9, 0, 0x8d2a4c8a) ==
      State(0x13707036, 0xa2205f1f, 0x1c31c384, 0xae7813db)
  {}

  lemma EmptyQuad8()
    ensures Quad3(State(0x13707036, 0xa2205f1f, 0x1c31c384, 0xae7813db),
                  0, 0xfffa3942, 0, 0x8771f681, 0, 0x6d9d6122, 0, 0xfde5380c) ==
      State(0xdf63eaa1, 0x004b6669, 0x12f3e755, 0xc3689f5b)
  {}

  lemma EmptyQuad9()
    ensures Quad3(State(0xdf63eaa1, 0x004b6669, 0x12f3e755, 0xc3689f5b),
                  0, 0xa4beea44, 0, 0x4bdecfa9, 0, 0xf6bb4b60, 0, 0xbebfbc70) ==
      State(0x5f7a9b2e, 0xc5dc8c15, 0x91ca4cb7, 0xabc34e16)
  {}

  lemma EmptyQuad10()
    ensures Quad3(State(0x5f7a9b2e, 0xc5dc8c15, 0x91ca4cb7, 0xabc34e16),
                  0, 0x289b7ec6, 0x00000080, 0xeaa127fa, 0, 0xd4ef3085, 0, 0x04881d05) ==
      State(0x4497169d, 0x0fe32453, 0xfd95f243, 0x76fd93d4)
  {}

  lemma EmptyQuad11()
    ensures Quad3(State(0x4497169d, 0x0fe32453, 0xfd95f243, 0x76fd93d4),
                  0, 0xd9d4d039, 0, 0xe6db99e5, 0, 0x1fa27cf8, 0, 0xc4ac5665) ==
      State(0x3f55edfd, 0xca7d2dbd, 0x68d84ea2, 0x22a31f54)
  {}

  lemma EmptyQuad12()
    ensures Quad4(State(0x3f55edfd, 0xca7d2dbd, 0x68d84ea2, 0x22a31f54),
                  0x00000080, 0xf4292244, 0, 0x432aff97, 0, 0xab9423a7, 0, 0xfc93a039) ==
      State(0x93aa2577, 0x561e0689, 0xcd85b8cb, 0x1688dc85)
  {}

  lemma EmptyQuad13()
    ensures Quad4(State(0x93aa2577, 0x561e0689, 0xcd85b8cb, 0x1688dc85),
                  0, 0x655b59c3, 0, 0x8f0ccc92, 0, 0xffeff47d, 0, 0x85845dd1) ==
      State(0x5625a114, 0x1e77fa61, 0x392ad0d0, 0x3450f42b)
  {}

  lemma EmptyQuad14()
    ensures Quad4(State(0x5625a114, 0x1e77fa61, 0x392ad0d0, 0x3450f42b),
                  0, 0x6fa87e4f, 0, 0xfe2ce6e0, 0, 0xa3014314, 0, 0x4e0811a1) ==
      State(0x474a9c8c, 0x30130182, 0x36594b14, 0xdfce00bc)
  {}

  lemma EmptyQuad15()
    ensures Quad4(State(0x474a9c8c, 0x30130182, 0x36594b14, 0xdfce00bc),
                  0, 0xf7537e82, 0, 0xbd3af235, 0, 0x2ad7d2bb, 0, 0xeb86d391) ==
      State(0x7246fad3, 0x14e45506, 0xff4ea3eb, 0x6e10a476)
  {}

  lemma EmptyRun()
    ensures Run(0, 64, INIT, ShortWords(0x00000080, 0)) == State(0x7246fad3, 0x14e45506, 0xff4ea3eb, 0x6e10a476)
  {
    hide Run, UnrolledRound1, UnrolledRound2, UnrolledRound3, UnrolledRound4;
    EmptyRound1();
    EmptyRound2();
    EmptyRound3();
    EmptyRound4();
    UnrolledIsRfc(INIT, ShortWords(0x00000080, 0));
  }

  lemma AbcRound1()
    ensures UnrolledRound1(State(0x67452301, 0xefcdab89, 0x98badcfe, 0x10325476), ShortWords(0x80636261, 0x00000018)) ==
      State(0xdda9b9a6, 0x72aff2e0, 0xe396856b, 0xa1051895)
  {
    AbcQuad0();
    AbcQuad1();
    AbcQuad2();
    AbcQuad3();
    hide Quad1;
  }

  lemma AbcRound2()
    ensures UnrolledRound2(State(0xdda9b9a6, 0x72aff2e0, 0xe396856b, 0xa1051895), ShortWords(0x80636261, 0x00000018)) ==
      State(0x790a77fb, 0x726342d3, 0xa62884aa, 0x9f47e4f8)
  {
    AbcQuad4();
    AbcQuad5();
    AbcQuad6();
    AbcQuad7();
    hide Quad2;
  }

  lemma AbcRound3()
    ensures UnrolledRound3(State(0x790a77fb, 0x726342d3, 0xa62884aa, 0x9f47e4f8), ShortWords(0x80636261, 0x00000018)) ==
      State(0x7f2e507b, 0x7beb9700, 0x8fae6399, 0x99d9679d)
  {
    AbcQuad8();
    AbcQuad9();
    AbcQuad10();
    AbcQuad11();
    hide Quad3;
  }

  lemma AbcRound4()
    ensures UnrolledRound4(State(0x7f2e507b, 0x7beb9700, 0x8fae6399, 0x99d9679d), ShortWords(0x80636261, 0x00000018)) ==
      State(0x310ade8f, 0xc08226b3, 0xe484b9d8, 0x624d8cb2)
  {
    AbcQuad12();
    AbcQuad13();
    AbcQuad14();
    AbcQuad15();
    hide Quad4;
  }

  lemma AbcQuad0()
    ensures Quad1(State(0x67452301, 0xefcdab89, 0x98badcfe, 0x10325476),
                  0x80636261, 0xd76aa478, 0, 0xe8c7b756, 0, 0x242070db, 0, 0xc1bdceee) ==
      State(0xd6d117b4, 0x7ad956f2, 0x2f6fbd72, 0x344a8432)
  {}

  lemma AbcQuad1()
    ensures Quad1(State(0xd6d117b4, 0x7ad956f2, 0x2f6fbd72, 0x344a8432),
                  0, 0xf57c0faf, 0, 0x4787c62a, 0, 0xa8304613, 0, 0xfd469501) ==
      State(0xc73741ef, 0x928d99f6, 0x207dc67b, 0x8bac3051)
  {}

  lemma AbcQuad2()
    ensures Quad1(State(0xc73741ef, 0x928d99f6, 0x207dc67b, 0x8bac3051),
                  0, 0x698098d8, 0, 0x8b44f7af, 0, 0xffff5bb1, 0, 0x895cd7be) ==
      State(0x854b3712, 0x5ed49596, 0x3020401c, 0x74e2f284)
  {}

  lemma AbcQuad3()
    ensures Quad1(State(0x854b3712, 0x5ed49596, 0x3020401c, 0x74e2f284),
                  0, 0x6b901122, 0, 0xfd987193, 0x00000018, 0xa679438e, 0, 0x49b40821) ==
      State(0xdda9b9a6, 0x72aff2e0, 0xe396856b, 0xa1051895)
  {}

  lemma AbcQuad4()
    ensures Quad2(State(0xdda9b9a6, 0x72aff2e0, 0xe396856b, 0xa1051895),
                  0, 0xf61e2562, 0, 0xc040b340, 0, 0x265e5a51, 0x80636261, 0xe9b6c7aa) ==
      State(0x3e9e9126, 0xb5b204e4, 0xe25e1652, 0x4a1d804e)
  {}

  lemma AbcQuad5()
    ensures Quad2(State(0x3e9e9126, 0xb5b204e4, 0xe25e1652, 0x4a1d804e),
                  0, 0xd62f105d, 0, 0x02441453, 0, 0xd8a1e681, 0, 0xe7d3fbc8) ==
      State(0x59a8ffda, 0x47092c07, 0xabfc7920, 0x6d002f1e)
  {}

  lemma AbcQuad6()
    ensures Quad2(State(0x59a8ffda, 0x47092c07, 0xabfc7920, 0x6d002f1e),
                  0, 0x21e1cde6, 0x00000018, 0xc33707d6, 0, 0xf4d50d87, 0, 0x455a14ed) ==
      State(0xb7f268cf, 0x786acb8f, 0xfe1623b1, 0x09388eff)
  {}

  lemma AbcQuad7()
    ensures Quad2(State(0xb7f268cf, 0x786acb8f, 0xfe1623b1, 0x09388eff),
                  0, 0xa9e3e905, 0, 0xfcefa3f8, 0, 0x676f02d9, 0, 0x8d2a4c8a) ==
      State(0x790a77fb, 0x726342d3, 0xa62884aa, 0x9f47e4f8)
  {}

  lemma AbcQuad8()
    ensures Quad3(State(0x790a77fb, 0x726342d3, 0xa62884aa, 0x9f47e4f8),
                  0, 0xfffa3942, 0, 0x8771f681, 0, 0x6d9d6122, 0x00000018, 0xfde5380c) ==
      State(0xb3707ebf, 0x3b0875c7, 0x8d212ff5, 0x60127b2e)
  {}

  lemma AbcQuad9()
    ensures Quad3(State(0xb3707ebf, 0x3b0875c7, 0x8d212ff5, 0x60127b2e),
                  0, 0xa4beea44, 0, 0x4bdecfa9, 0, 0xf6bb4b60, 0, 0xbebfbc70) ==
      State(0x21b117b9, 0x5a2f5ea5, 0x3575227e, 0x6e7429d5)
  {}

  lemma AbcQuad10()
    ensures Quad3(State(0x21b117b9, 0x5a2f5ea5, 0x3575227e, 0x6e7429d5),
                  0, 0x289b7ec6, 0x80636261, 0xeaa127fa, 0, 0xd4ef3085, 0, 0x04881d05) ==
      State(0x11de1779, 0x4c6124f4, 0x31c465ca, 0xfadcaa38)
  {}

  lemma AbcQuad11()
    ensures Quad3(State(0x11de1779, 0x4c6124f4, 0x31c465ca, 0xfadcaa38),
                  0, 0xd9d4d039, 0, 0xe6db99e5, 0, 0x1fa27cf8, 0, 0xc4ac5665) ==
      State(0x7f2e507b, 0x7beb9700, 0x8fae6399, 0x99d9679d)
  {}

  lemma AbcQuad12()
    ensures Quad4(State(0x7f2e507b, 0x7beb9700, 0x8fae6399, 0x99d9679d),
                  0x80636261, 0xf4292244, 0, 0x432aff97, 0x00000018, 0xab9423a7, 0, 0xfc93a039) ==
      State(0x7b201df8, 0x8bf025c4, 0xb298cefd, 0xf4e8e96e)
  {}

  lemma AbcQuad13()
    ensures Quad4(State(0x7b201df8, 0x8bf025c4, 0xb298cefd, 0xf4e8e96e),
                  0, 0x655b59c3, 0, 0x8f0ccc92, 0, 0xffeff47d, 0, 0x85845dd1) ==
      State(0x06cc5e8a, 0x3bfa2c27, 0x7d632dd0, 0x5b0d97aa)
  {}

  lemma AbcQuad14()
    ensures Quad4(State(0x06cc5e8a, 0x3bfa2c27, 0x7d632dd0, 0x5b0d97aa),
                  0, 0x6fa87e4f, 0, 0xfe2ce6e0, 0, 0xa3014314, 0, 0x4e0811a1) ==
      State(0x7f81cc35, 0x7327d604, 0x4f9dbe3f, 0x094454ab)
  {}

  lemma AbcQuad15()
    ensures Quad4(State(0x7f81cc35, 0x7327d604, 0x4f9dbe3f, 0x094454ab),
                  0, 0xf7537e82, 0, 0xbd3af235, 0, 0x2ad7d2bb, 0, 0xeb86d391) ==
      State(0x310ade8f, 0xc08226b3, 0xe484b9d8, 0x624d8cb2)
  {}

  lemma AbcRun()
    ensures Run(0, 64, INIT, ShortWords(0x80636261, 0x00000018)) == State(0x310ade8f, 0xc08226b3, 0xe484b9d8, 0x624d8cb2)
  {
    hide Run, UnrolledRound1, UnrolledRound2, UnrolledRound3, UnrolledRound4;
    AbcRound1();
    AbcRound2();
    AbcRound3();
    AbcRound4();
    UnrolledIsRfc(INIT, ShortWords(0x80636261, 0x00000018));
  }

  lemma ZeroWord(s: seq<Byte>)
    requires |s| == 4 && s == [0, 0, 0, 0]
    ensures Word(s) == 0
  {}

  lemma LeZero(count: nat)
    ensures LeBytes(0, count) == Zeros(count)
  {}

  /** Such a message, padded: the marker, zeros, and the length in one byte. */
  lemma ShortPadded(msg: seq<Byte>)
    requires |msg| < 4
    ensures Padded(msg) == msg + [0x80] + Zeros(55 - |msg|) + [8 * |msg|] + Zeros(7)
  {
    hide Zeros, LeBytes;
    LeZero(7);
    LengthByte(8 * |msg|);
  }

  lemma LengthByte(n: nat)
    requires n < 256
    ensures LeBytes(n, 8) == [n] + LeBytes(0, 7)
  {
    assert n % 256 == n && n / 256 == 0;
  }

  lemma ShortBlock(msg: seq<Byte>, first: seq<Byte>)
    requires |msg| < 4 && first == msg + [0x80] + Zeros(3 - |msg|)
    ensures Words(Padded(msg)) == ShortWords(Word(first), Word([8 * |msg|, 0, 0, 0]))
  {
    hide Word, Padded;
    ShortPadded(msg);
    var s := Padded(msg);
    assert s[0..4] == first;
    assert s[56..60] == [8 * |msg|, 0, 0, 0];
    forall k | 0 < k < 16 && k != 14 ensures Word(s[4 * k..4 * k + 4]) == 0 {
      assert s[4 * k..4 * k + 4] == [0, 0, 0, 0];
      ZeroWord(s[4 * k..4 * k + 4]);
    }
  }

  /** One block. */
  lemma ShortDigest(msg: seq<Byte>, first: seq<Byte>, end: State)
    requires |msg| < 4 && first == msg + [0x80] + Zeros(3 - |msg|)
    requires Run(0, 64, INIT, ShortWords(Word(first), Word([8 * |msg|, 0, 0, 0]))) == end
    ensures R.Md5(msg) == Output(Plus(end, INIT))
  {
    hide Word, Run, Output, Plus, ShortWords;
    ShortPadded(msg);
    ShortBlock(msg, first);
    OneBlock(Padded(msg));
  }

  lemma OneBlock(s: seq<Byte>)
    requires |s| == 64
    ensures Fold(INIT, s) == Plus(Run(0, 64, INIT, Words(s)), INIT)
  {
    hide Run, Plus, Words;
    assert s[..64] == s && s[64..] == [];
    assert Fold(Block(INIT, s), []) == Block(INIT, s);
  }

  /** MD5 ("") = d41d8cd98f00b204e9800998ecf8427e */
  lemma DigestOfEmpty()
    ensures R.Md5([]) ==
      [0xd4, 0x1d, 0x8c, 0xd9, 0x8f, 0x00, 0xb2, 0x04, 0xe9, 0x80, 0x09, 0x98, 0xec, 0xf8, 0x42, 0x7e]
  {
    hide R.Md5, Run, Word, Output, Plus;
    EmptyWords();
    EmptyRun();
    ShortDigest([], [0x80, 0x00, 0x00, 0x00], State(0x7246fad3, 0x14e45506, 0xff4ea3eb, 0x6e10a476));
    EmptyOutput();
  }

  lemma EmptyWords()
    ensures Word([0x80, 0x00, 0x00, 0x00]) == 0x00000080 && Word([0, 0, 0, 0]) == 0
    ensures [0x80, 0x00, 0x00, 0x00] == [] + [0x80] + Zeros(3)
  {
    hide Word;
    EmptyFirst([0x80, 0x00, 0x00, 0x00]);
    EmptyBits([0, 0, 0, 0]);
  }

  lemma EmptyFirst(s: seq<Byte>)
    requires |s| == 4 && s[0] == 128 && s[1] == 0 && s[2] == 0 && s[3] == 0
    ensures Word(s) == 0x00000080
  {}

  lemma EmptyBits(s: seq<Byte>)
    requires |s| == 4 && s[0] == 0 && s[1] == 0 && s[2] == 0 && s[3] == 0
    ensures Word(s) == 0
  {}

  lemma EmptyOutput()
    ensures Output(Plus(State(0x7246fad3, 0x14e45506, 0xff4ea3eb, 0x6e10a476), INIT)) ==
      [0xd4, 0x1d, 0x8c, 0xd9, 0x8f, 0x00, 0xb2, 0x04, 0xe9, 0x80, 0x09, 0x98, 0xec, 0xf8, 0x42, 0x7e]
  {}

  /** MD5 ("abc") = 900150983cd24fb0d6963f7d28e17f72 */
  lemma DigestOfAbc()
    ensures R.Md5([0x61, 0x62, 0x63]) ==
      [0x90, 0x01, 0x50, 0x98, 0x3c, 0xd2, 0x4f, 0xb0, 0xd6, 0x96, 0x3f, 0x7d, 0x28, 0xe1, 0x7f, 0x72]
  {
    hide R.Md5, Run, Word, Output, Plus;
    AbcWords();
    AbcRun();
    ShortDigest([0x61, 0x62, 0x63], [0x61, 0x62, 0x63, 0x80], State(0x310ade8f, 0xc08226b3, 0xe484b9d8, 0x624d8cb2));
    AbcOutput();
  }

  lemma AbcWords()
    ensures Word([0x61, 0x62, 0x63, 0x80]) == 0x80636261 && Word([24, 0, 0, 0]) == 0x00000018
    ensures [0x61, 0x62, 0x63, 0x80] == [0x61, 0x62, 0x63] + [0x80] + Zeros(0)
  {
    hide Word;
    AbcFirst([0x61, 0x62, 0x63, 0x80]);
    AbcBits([24, 0, 0, 0]);
  }

  lemma AbcFirst(s: seq<Byte>)
    requires |s| == 4 && s[0] == 97 && s[1] == 98 && s[2] == 99 && s[3] == 128
    ensures Word(s) == 0x80636261
  {}

  lemma AbcBits(s: seq<Byte>)
    requires |s| == 4 && s[0] == 24 && s[1] == 0 && s[2] == 0 && s[3] == 0
    ensures Word(s) == 0x00000018
  {}

  lemma AbcOutput()
    ensures Output(Plus(State(0x310ade8f, 0xc08226b3, 0xe484b9d8, 0x624d8cb2), INIT)) ==
      [0x90, 0x01, 0x50, 0x98, 0x3c, 0xd2, 0x4f, 0xb0, 0xd6, 0x96, 0x3f, 0x7d, 0x28, 0xe1, 0x7f, 0x72]
  {}
}
