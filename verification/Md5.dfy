/** The incremental MD5 of the flashing tool: optimised round functions, an unrolled
    block function, a byte counter split into 29 + 32 bits and a 64-byte buffer that
    holds the bytes of an unfinished block. */
module Md5 {
  import R = Md5Spec
  import opened LittleEndian
  import opened Md5Spec
  import opened Sequences

  // ------------------------------------------------------------- round functions

  function OptF(x: bv32, y: bv32, z: bv32): bv32 { z ^ (x & (y ^ z)) }
  function OptG(x: bv32, y: bv32, z: bv32): bv32 { y ^ (z & (x ^ y)) }
  function OptH(x: bv32, y: bv32, z: bv32): bv32 { (x ^ y) ^ z }
  function OptH2(x: bv32, y: bv32, z: bv32): bv32 { x ^ (y ^ z) }
  function OptI(x: bv32, y: bv32, z: bv32): bv32 { y ^ (x | !z) }

  lemma OptFIsF(x: bv32, y: bv32, z: bv32)
    ensures OptF(x, y, z) == R.F(x, y, z)
  {
    assert z ^ (x & (y ^ z)) == (x & y) | (!x & z);
  }

  lemma OptGIsG(x: bv32, y: bv32, z: bv32)
    ensures OptG(x, y, z) == R.G(x, y, z)
  {
    assert y ^ (z & (x ^ y)) == (x & z) | (y & !z);
  }

  lemma OptHIsH(x: bv32, y: bv32, z: bv32)
    ensures OptH(x, y, z) == OptH2(x, y, z) == R.H(x, y, z)
    ensures OptI(x, y, z) == R.I(x, y, z)
  {}

  // ------------------------------------------------------------- the block function

  /** The STEP macro: a += f + x + t, rotate, a += b. */
  function Step(f: bv32, a: bv32, b: bv32, x: bv32, t: bv32, s: bv6): bv32
    requires 0 < s < 32
  {
    Rotl(a + (f + x + t), s) + b
  }

  lemma AddAssoc(a: bv32, f: bv32, x: bv32, t: bv32)
    ensures a + (f + x + t) == a + f + x + t
  {}

  lemma AddComm(a: bv32, b: bv32)
    ensures a + b == b + a
  {}

  lemma StepIsOp(f: bv32, a: bv32, b: bv32, x: bv32, t: bv32, s: bv6)
    requires 0 < s < 32
    ensures Step(f, a, b, x, t, s) == Op(f, a, b, x, t, s)
  {
    hide Rotl;
    AddAssoc(a, f, x, t);
    AddComm(Rotl(a + f + x + t, s), b);
  }

  // Four consecutive STEPs of each round; after four the registers are back in place.

  function Quad1(st: State, x0: bv32, t0: bv32, x1: bv32, t1: bv32, x2: bv32, t2: bv32, x3: bv32, t3: bv32): State {
    var State(a, b, c, d) := st;
    var a := Step(OptF(b, c, d), a, b, x0, t0, 7);
    var d := Step(OptF(a, b, c), d, a, x1, t1, 12);
    var c := Step(OptF(d, a, b), c, d, x2, t2, 17);
    var b := Step(OptF(c, d, a), b, c, x3, t3, 22);
    State(a, b, c, d)
  }

  function Quad2(st: State, x0: bv32, t0: bv32, x1: bv32, t1: bv32, x2: bv32, t2: bv32, x3: bv32, t3: bv32): State {
    var State(a, b, c, d) := st;
    var a := Step(OptG(b, c, d), a, b, x0, t0, 5);
    var d := Step(OptG(a, b, c), d, a, x1, t1, 9);
    var c := Step(OptG(d, a, b), c, d, x2, t2, 14);
    var b := Step(OptG(c, d, a), b, c, x3, t3, 20);
    State(a, b, c, d)
  }

  function Quad3(st: State, x0: bv32, t0: bv32, x1: bv32, t1: bv32, x2: bv32, t2: bv32, x3: bv32, t3: bv32): State {
    var State(a, b, c, d) := st;
    var a := Step(OptH(b, c, d), a, b, x0, t0, 4);
    var d := Step(OptH2(a, b, c), d, a, x1, t1, 11);
    var c := Step(OptH(d, a, b), c, d, x2, t2, 16);
    var b := Step(OptH2(c, d, a), b, c, x3, t3, 23);
    State(a, b, c, d)
  }

  function Quad4(st: State, x0: bv32, t0: bv32, x1: bv32, t1: bv32, x2: bv32, t2: bv32, x3: bv32, t3: bv32): State {
    var State(a, b, c, d) := st;
    var a := Step(OptI(b, c, d), a, b, x0, t0, 6);
    var d := Step(OptI(a, b, c), d, a, x1, t1, 10);
    var c := Step(OptI(d, a, b), c, d, x2, t2, 15);
    var b := Step(OptI(c, d, a), b, c, x3, t3, 21);
    State(a, b, c, d)
  }

  /** The 64 unrolled steps on one block. */
  function Unrolled(st: State, x: seq<bv32>): State
    requires |x| == 16
  {
    UnrolledRound4(UnrolledRound3(UnrolledRound2(UnrolledRound1(st, x), x), x), x)
  }

  function UnrolledRound1(st: State, x: seq<bv32>): State
    requires |x| == 16
  {
    var st := Quad1(st, x[0], 0xd76aa478, x[1], 0xe8c7b756, x[2], 0x242070db, x[3], 0xc1bdceee);
    var st := Quad1(st, x[4], 0xf57c0faf, x[5], 0x4787c62a, x[6], 0xa8304613, x[7], 0xfd469501);
    var st := Quad1(st, x[8], 0x698098d8, x[9], 0x8b44f7af, x[10], 0xffff5bb1, x[11], 0x895cd7be);
    Quad1(st, x[12], 0x6b901122, x[13], 0xfd987193, x[14], 0xa679438e, x[15], 0x49b40821)
  }

  function UnrolledRound2(st: State, x: seq<bv32>): State
    requires |x| == 16
  {
    var st := Quad2(st, x[1], 0xf61e2562, x[6], 0xc040b340, x[11], 0x265e5a51, x[0], 0xe9b6c7aa);
    var st := Quad2(st, x[5], 0xd62f105d, x[10], 0x02441453, x[15], 0xd8a1e681, x[4], 0xe7d3fbc8);
    var st := Quad2(st, x[9], 0x21e1cde6, x[14], 0xc33707d6, x[3], 0xf4d50d87, x[8], 0x455a14ed);
    Quad2(st, x[13], 0xa9e3e905, x[2], 0xfcefa3f8, x[7], 0x676f02d9, x[12], 0x8d2a4c8a)
  }

  function UnrolledRound3(st: State, x: seq<bv32>): State
    requires |x| == 16
  {
    var st := Quad3(st, x[5], 0xfffa3942, x[8], 0x8771f681, x[11], 0x6d9d6122, x[14], 0xfde5380c);
    var st := Quad3(st, x[1], 0xa4beea44, x[4], 0x4bdecfa9, x[7], 0xf6bb4b60, x[10], 0xbebfbc70);
    var st := Quad3(st, x[13], 0x289b7ec6, x[0], 0xeaa127fa, x[3], 0xd4ef3085, x[6], 0x04881d05);
    Quad3(st, x[9], 0xd9d4d039, x[12], 0xe6db99e5, x[15], 0x1fa27cf8, x[2], 0xc4ac5665)
  }

  function UnrolledRound4(st: State, x: seq<bv32>): State
    requires |x| == 16
  {
    var st := Quad4(st, x[0], 0xf4292244, x[7], 0x432aff97, x[14], 0xab9423a7, x[5], 0xfc93a039);
    var st := Quad4(st, x[12], 0x655b59c3, x[3], 0x8f0ccc92, x[10], 0xffeff47d, x[1], 0x85845dd1);
    var st := Quad4(st, x[8], 0x6fa87e4f, x[15], 0xfe2ce6e0, x[6], 0xa3014314, x[13], 0x4e0811a1);
    Quad4(st, x[4], 0xf7537e82, x[11], 0xbd3af235, x[2], 0x2ad7d2bb, x[9], 0xeb86d391)
  }

  // The operations of the RFC, one quad at a time.

  lemma RunFour(i: nat, st: State, x: seq<bv32>)
    requires i + 4 <= 64 && |x| == 16
    ensures Run(i, 4, st, x) == R.Step(i + 3, R.Step(i + 2, R.Step(i + 1, R.Step(i, st, x), x), x), x)
  {
    hide R.Step;
    var s1 := R.Step(i, st, x);
    var s2 := R.Step(i + 1, s1, x);
    var s3 := R.Step(i + 2, s2, x);
    assert Run(i + 4, 0, R.Step(i + 3, s3, x), x) == R.Step(i + 3, s3, x);
    assert Run(i + 3, 1, s3, x) == Run(i + 4, 0, R.Step(i + 3, s3, x), x);
    assert Run(i + 2, 2, s2, x) == Run(i + 3, 1, s3, x);
    assert Run(i + 1, 3, s1, x) == Run(i + 2, 2, s2, x);
  }

  /** The rotations of a quad are those of its round. */
  lemma ShiftsOf(i: nat)
    requires i <= 60 && i % 4 == 0
    ensures i < 16 ==> Shift(i) == 7 && Shift(i + 1) == 12 && Shift(i + 2) == 17 && Shift(i + 3) == 22
    ensures 16 <= i < 32 ==> Shift(i) == 5 && Shift(i + 1) == 9 && Shift(i + 2) == 14 && Shift(i + 3) == 20
    ensures 32 <= i < 48 ==> Shift(i) == 4 && Shift(i + 1) == 11 && Shift(i + 2) == 16 && Shift(i + 3) == 23
    ensures 48 <= i ==> Shift(i) == 6 && Shift(i + 1) == 10 && Shift(i + 2) == 15 && Shift(i + 3) == 21
  {}

  lemma OneStep1(i: nat, st: State, x: seq<bv32>)
    requires 0 <= i < 16 && |x| == 16
    ensures R.Step(i, st, x) == State(st.d, Step(OptF(st.b, st.c, st.d), st.a, st.b, x[K(i)], T(i), Shift(i)), st.b, st.c)
  {
    hide Step, Op, OptF, OptG, OptH, OptH2, OptI, F, G, H, I, K, T, Shift;
    OptFIsF(st.b, st.c, st.d);
    StepIsOp(OptF(st.b, st.c, st.d), st.a, st.b, x[K(i)], T(i), Shift(i));
  }

  lemma QuadIsRun1(i: nat, st: State, x: seq<bv32>)
    requires 0 <= i <= 12 && i % 4 == 0 && |x| == 16
    ensures Quad1(st, x[K(i)], T(i), x[K(i + 1)], T(i + 1), x[K(i + 2)], T(i + 2), x[K(i + 3)], T(i + 3))
         == Run(i, 4, st, x)
  {
    hide Step, R.Step, K, T, OptF, OptG, OptH, OptH2, OptI, Shift, Run;
    RunFour(i, st, x);
    ShiftsOf(i);
    var s1 := R.Step(i, st, x);
    var s2 := R.Step(i + 1, s1, x);
    var s3 := R.Step(i + 2, s2, x);
    OneStep1(i, st, x);
    OneStep1(i + 1, s1, x);
    OneStep1(i + 2, s2, x);
    OneStep1(i + 3, s3, x);
  }

  lemma KTable1()
    ensures K(0) == 0 && K(1) == 1 && K(2) == 2 && K(3) == 3
    ensures K(4) == 4 && K(5) == 5 && K(6) == 6 && K(7) == 7
    ensures K(8) == 8 && K(9) == 9 && K(10) == 10 && K(11) == 11
    ensures K(12) == 12 && K(13) == 13 && K(14) == 14 && K(15) == 15
  {}

  lemma TTable1()
    ensures T(0) == 0xd76aa478 && T(1) == 0xe8c7b756 && T(2) == 0x242070db && T(3) == 0xc1bdceee
    ensures T(4) == 0xf57c0faf && T(5) == 0x4787c62a && T(6) == 0xa8304613 && T(7) == 0xfd469501
    ensures T(8) == 0x698098d8 && T(9) == 0x8b44f7af && T(10) == 0xffff5bb1 && T(11) == 0x895cd7be
    ensures T(12) == 0x6b901122 && T(13) == 0xfd987193 && T(14) == 0xa679438e && T(15) == 0x49b40821
  {
    hide T2, T3, T4;
  }

  lemma RoundIsRun1(st: State, x: seq<bv32>)
    requires |x| == 16
    ensures UnrolledRound1(st, x) == Run(0, 16, st, x)
  {
    hide Quad1, Run, K, T;
    KTable1();
    TTable1();
    var i := 0;
    var s1, s2, s3 := Run(i, 4, st, x), Run(i, 8, st, x), Run(i, 12, st, x);
    QuadIsRun1(i, st, x);
    QuadIsRun1(i + 4, s1, x);
    QuadIsRun1(i + 8, s2, x);
    QuadIsRun1(i + 12, s3, x);
    RunSplit(i, 4, 4, st, x);
    RunSplit(i, 8, 4, st, x);
    RunSplit(i, 12, 4, st, x);
  }

  lemma OneStep2(i: nat, st: State, x: seq<bv32>)
    requires 16 <= i < 32 && |x| == 16
    ensures R.Step(i, st, x) == State(st.d, Step(OptG(st.b, st.c, st.d), st.a, st.b, x[K(i)], T(i), Shift(i)), st.b, st.c)
  {
    hide Step, Op, OptF, OptG, OptH, OptH2, OptI, F, G, H, I, K, T, Shift;
    OptGIsG(st.b, st.c, st.d);
    StepIsOp(OptG(st.b, st.c, st.d), st.a, st.b, x[K(i)], T(i), Shift(i));
  }

  lemma QuadIsRun2(i: nat, st: State, x: seq<bv32>)
    requires 16 <= i <= 28 && i % 4 == 0 && |x| == 16
    ensures Quad2(st, x[K(i)], T(i), x[K(i + 1)], T(i + 1), x[K(i + 2)], T(i + 2), x[K(i + 3)], T(i + 3))
         == Run(i, 4, st, x)
  {
    hide Step, R.Step, K, T, OptF, OptG, OptH, OptH2, OptI, Shift, Run;
    RunFour(i, st, x);
    ShiftsOf(i);
    var s1 := R.Step(i, st, x);
    var s2 := R.Step(i + 1, s1, x);
    var s3 := R.Step(i + 2, s2, x);
    OneStep2(i, st, x);
    OneStep2(i + 1, s1, x);
    OneStep2(i + 2, s2, x);
    OneStep2(i + 3, s3, x);
  }

  lemma KTable2()
    ensures K(16) == 1 && K(17) == 6 && K(18) == 11 && K(19) == 0
    ensures K(20) == 5 && K(21) == 10 && K(22) == 15 && K(23) == 4
    ensures K(24) == 9 && K(25) == 14 && K(26) == 3 && K(27) == 8
    ensures K(28) == 13 && K(29) == 2 && K(30) == 7 && K(31) == 12
  {}

  lemma TTable2()
    ensures T(16) == 0xf61e2562 && T(17) == 0xc040b340 && T(18) == 0x265e5a51 && T(19) == 0xe9b6c7aa
    ensures T(20) == 0xd62f105d && T(21) == 0x02441453 && T(22) == 0xd8a1e681 && T(23) == 0xe7d3fbc8
    ensures T(24) == 0x21e1cde6 && T(25) == 0xc33707d6 && T(26) == 0xf4d50d87 && T(27) == 0x455a14ed
    ensures T(28) == 0xa9e3e905 && T(29) == 0xfcefa3f8 && T(30) == 0x676f02d9 && T(31) == 0x8d2a4c8a
  {
    hide T1, T3, T4;
  }

  lemma RoundIsRun2(st: State, x: seq<bv32>)
    requires |x| == 16
    ensures UnrolledRound2(st, x) == Run(16, 16, st, x)
  {
    hide Quad2, Run, K, T;
    KTable2();
    TTable2();
    var i := 16;
    var s1, s2, s3 := Run(i, 4, st, x), Run(i, 8, st, x), Run(i, 12, st, x);
    QuadIsRun2(i, st, x);
    QuadIsRun2(i + 4, s1, x);
    QuadIsRun2(i + 8, s2, x);
    QuadIsRun2(i + 12, s3, x);
    RunSplit(i, 4, 4, st, x);
    RunSplit(i, 8, 4, st, x);
    RunSplit(i, 12, 4, st, x);
  }

  lemma OneStep3(i: nat, st: State, x: seq<bv32>)
    requires 32 <= i < 48 && |x| == 16
    ensures R.Step(i, st, x) == State(st.d, Step(OptH2(st.b, st.c, st.d), st.a, st.b, x[K(i)], T(i), Shift(i)), st.b, st.c)
    ensures OptH(st.b, st.c, st.d) == OptH2(st.b, st.c, st.d)
  {
    hide Step, Op, OptF, OptG, OptH, OptH2, OptI, F, G, H, I, K, T, Shift;
    OptHIsH(st.b, st.c, st.d);
    StepIsOp(OptH2(st.b, st.c, st.d), st.a, st.b, x[K(i)], T(i), Shift(i));
  }

  lemma QuadIsRun3(i: nat, st: State, x: seq<bv32>)
    requires 32 <= i <= 44 && i % 4 == 0 && |x| == 16
    ensures Quad3(st, x[K(i)], T(i), x[K(i + 1)], T(i + 1), x[K(i + 2)], T(i + 2), x[K(i + 3)], T(i + 3))
         == Run(i, 4, st, x)
  {
    hide Step, R.Step, K, T, OptF, OptG, OptH, OptH2, OptI, Shift, Run;
    RunFour(i, st, x);
    ShiftsOf(i);
    var s1 := R.Step(i, st, x);
    var s2 := R.Step(i + 1, s1, x);
    var s3 := R.Step(i + 2, s2, x);
    OneStep3(i, st, x);
    OneStep3(i + 1, s1, x);
    OneStep3(i + 2, s2, x);
    OneStep3(i + 3, s3, x);
  }

  lemma KTable3()
    ensures K(32) == 5 && K(33) == 8 && K(34) == 11 && K(35) == 14
    ensures K(36) == 1 && K(37) == 4 && K(38) == 7 && K(39) == 10
    ensures K(40) == 13 && K(41) == 0 && K(42) == 3 && K(43) == 6
    ensures K(44) == 9 && K(45) == 12 && K(46) == 15 && K(47) == 2
  {}

  lemma TTable3()
    ensures T(32) == 0xfffa3942 && T(33) == 0x8771f681 && T(34) == 0x6d9d6122 && T(35) == 0xfde5380c
    ensures T(36) == 0xa4beea44 && T(37) == 0x4bdecfa9 && T(38) == 0xf6bb4b60 && T(39) == 0xbebfbc70
    ensures T(40) == 0x289b7ec6 && T(41) == 0xeaa127fa && T(42) == 0xd4ef3085 && T(43) == 0x04881d05
    ensures T(44) == 0xd9d4d039 && T(45) == 0xe6db99e5 && T(46) == 0x1fa27cf8 && T(47) == 0xc4ac5665
  {
    hide T1, T2, T4;
  }

  lemma RoundIsRun3(st: State, x: seq<bv32>)
    requires |x| == 16
    ensures UnrolledRound3(st, x) == Run(32, 16, st, x)
  {
    hide Quad3, Run, K, T;
    KTable3();
    TTable3();
    var i := 32;
    var s1, s2, s3 := Run(i, 4, st, x), Run(i, 8, st, x), Run(i, 12, st, x);
    QuadIsRun3(i, st, x);
    QuadIsRun3(i + 4, s1, x);
    QuadIsRun3(i + 8, s2, x);
    QuadIsRun3(i + 12, s3, x);
    RunSplit(i, 4, 4, st, x);
    RunSplit(i, 8, 4, st, x);
    RunSplit(i, 12, 4, st, x);
  }

  lemma OneStep4(i: nat, st: State, x: seq<bv32>)
    requires 48 <= i < 64 && |x| == 16
    ensures R.Step(i, st, x) == State(st.d, Step(OptI(st.b, st.c, st.d), st.a, st.b, x[K(i)], T(i), Shift(i)), st.b, st.c)
  {
    hide Step, Op, OptF, OptG, OptH, OptH2, OptI, F, G, H, I, K, T, Shift;
    OptHIsH(st.b, st.c, st.d);
    StepIsOp(OptI(st.b, st.c, st.d), st.a, st.b, x[K(i)], T(i), Shift(i));
  }

  lemma QuadIsRun4(i: nat, st: State, x: seq<bv32>)
    requires 48 <= i <= 60 && i % 4 == 0 && |x| == 16
    ensures Quad4(st, x[K(i)], T(i), x[K(i + 1)], T(i + 1), x[K(i + 2)], T(i + 2), x[K(i + 3)], T(i + 3))
         == Run(i, 4, st, x)
  {
    hide Step, R.Step, K, T, OptF, OptG, OptH, OptH2, OptI, Shift, Run;
    RunFour(i, st, x);
    ShiftsOf(i);
    var s1 := R.Step(i, st, x);
    var s2 := R.Step(i + 1, s1, x);
    var s3 := R.Step(i + 2, s2, x);
    OneStep4(i, st, x);
    OneStep4(i + 1, s1, x);
    OneStep4(i + 2, s2, x);
    OneStep4(i + 3, s3, x);
  }

  lemma KTable4()
    ensures K(48) == 0 && K(49) == 7 && K(50) == 14 && K(51) == 5
    ensures K(52) == 12 && K(53) == 3 && K(54) == 10 && K(55) == 1
    ensures K(56) == 8 && K(57) == 15 && K(58) == 6 && K(59) == 13
    ensures K(60) == 4 && K(61) == 11 && K(62) == 2 && K(63) == 9
  {}

  lemma TTable4()
    ensures T(48) == 0xf4292244 && T(49) == 0x432aff97 && T(50) == 0xab9423a7 && T(51) == 0xfc93a039
    ensures T(52) == 0x655b59c3 && T(53) == 0x8f0ccc92 && T(54) == 0xffeff47d && T(55) == 0x85845dd1
    ensures T(56) == 0x6fa87e4f && T(57) == 0xfe2ce6e0 && T(58) == 0xa3014314 && T(59) == 0x4e0811a1
    ensures T(60) == 0xf7537e82 && T(61) == 0xbd3af235 && T(62) == 0x2ad7d2bb && T(63) == 0xeb86d391
  {
    hide T1, T2, T3;
  }

  lemma RoundIsRun4(st: State, x: seq<bv32>)
    requires |x| == 16
    ensures UnrolledRound4(st, x) == Run(48, 16, st, x)
  {
    hide Quad4, Run, K, T;
    KTable4();
    TTable4();
    var i := 48;
    var s1, s2, s3 := Run(i, 4, st, x), Run(i, 8, st, x), Run(i, 12, st, x);
    QuadIsRun4(i, st, x);
    QuadIsRun4(i + 4, s1, x);
    QuadIsRun4(i + 8, s2, x);
    QuadIsRun4(i + 12, s3, x);
    RunSplit(i, 4, 4, st, x);
    RunSplit(i, 8, 4, st, x);
    RunSplit(i, 12, 4, st, x);
  }

  /** The unrolled block function with its own round functions and operation order
      computes the 64 operations of section 3.4. */
  lemma UnrolledIsRfc(st: State, x: seq<bv32>)
    requires |x| == 16
    ensures Unrolled(st, x) == Run(0, 64, st, x)
  {
    hide Run, UnrolledRound1, UnrolledRound2, UnrolledRound3, UnrolledRound4;
    RoundIsRun1(st, x);
    RoundIsRun2(Run(0, 16, st, x), x);
    RoundIsRun3(Run(0, 32, st, x), x);
    RoundIsRun4(Run(0, 48, st, x), x);
    RunSplit(0, 16, 16, st, x);
    RunSplit(0, 32, 16, st, x);
    RunSplit(0, 48, 16, st, x);
  }

  // ------------------------------------------------------------- the context

  const LO_MOD := 0x2000_0000      // lo keeps 29 bits
  const WORD_MOD := 0x1_0000_0000  // hi is a 32-bit word

  /** The two halves of the counter hold n, the upper one modulo 2^32. */
  ghost predicate Counts(lo: nat, hi: nat, n: nat) {
    lo == n % LO_MOD && hi == n / LO_MOD % WORD_MOD
  }

  /** A word with its low-order byte first. */
  predicate LowFirst(w: bv32, s: seq<Byte>) {
    && |s| == 4 && s[0] == (w & 0xff) as int && s[1] == ((w >> 8) & 0xff) as int
    && s[2] == ((w >> 16) & 0xff) as int && s[3] == ((w >> 24) & 0xff) as int
  }

  /** The digest: the words A, B, C and D. */
  predicate PutOut(st: State, result: seq<Byte>) {
    && |result| == 16
    && LowFirst(st.a, result[0..4]) && LowFirst(st.b, result[4..8])
    && LowFirst(st.c, result[8..12]) && LowFirst(st.d, result[12..16])
  }

  lemma FourFours<A>(p: seq<A>, q: seq<A>, r: seq<A>, s: seq<A>)
    requires |p| == |q| == |r| == |s| == 4
    ensures var t := p + q + r + s; t[0..4] == p && t[4..8] == q && t[8..12] == r && t[12..16] == s
  {}

  lemma BytesLowFirst(w: bv32)
    ensures LowFirst(w, WordBytes(w))
  {}

  class Context {
    var lo: nat
    var hi: nat
    var a: bv32
    var b: bv32
    var c: bv32
    var d: bv32
    const buffer: array<Byte>

    ghost predicate Valid()
      reads this
    {
      buffer.Length == 64
    }

    ghost function Words(): State
      reads this
    {
      State(a, b, c, d)
    }

    /** The context stands for exactly the bytes of msg: the counter holds their number,
        the words the digest of the whole blocks, the buffer the unfinished block. */
    ghost predicate Absorbed(msg: seq<Byte>)
      reads this, buffer
    {
      && Valid()
      && Counts(lo, hi, |msg|)
      && Words() == Fold(INIT, Whole(msg))
      && buffer[..|msg| % 64] == Rest(msg)
    }

    /** md5_begin */
    constructor ()
      ensures fresh(buffer) && Absorbed([])
    {
      a, b, c, d := 0x67452301, 0xefcdab89, 0x98badcfe, 0x10325476;
      lo, hi := 0, 0;
      buffer := new Byte[64];
    }

    /** body: runs the block function over the blocks of data. */
    method Body(data: seq<Byte>)
      requires data != [] && |data| % 64 == 0
      modifies `a, `b, `c, `d
      ensures Words() == Fold(old(Words()), data)
    {
      hide Block, Unrolled;
      var ptr := 0;
      ghost var start := Words();
      while true
        invariant 0 <= ptr < |data| && ptr % 64 == 0
        invariant Fold(start, data) == Fold(Words(), data[ptr..])
        decreases |data| - ptr
      {
        var block := data[ptr..ptr + 64];
        var saved := State(a, b, c, d);
        var st := Unrolled(saved, R.Words(block));
        var sum := Plus(st, saved);
        a, b, c, d := sum.a, sum.b, sum.c, sum.d;
        UnrolledIsBlock(saved, block);
        assert data[ptr..][..64] == block && data[ptr..][64..] == data[ptr + 64..];
        ptr := ptr + 64;
        if ptr == |data| {
          assert data[ptr..] == [];
          break;
        }
      }
    }

    /** md5_hash: takes in one more piece of the message. */
    method Hash(data: seq<Byte>, ghost msg: seq<Byte>)
      requires Absorbed(msg)
      modifies this, buffer
      ensures Absorbed(msg + data)
    {
      hide Fold, Counts, Whole, Rest;
      var savedLo := lo;
      BlockOffset(lo, hi, |msg|);
      Count(|data|, |msg|);
      WholeRest(msg);
      var used := savedLo % 64;
      if used != 0 {
        var available := 64 - used;
        if |data| < available {
          Copy(used, data);
          ShortAppend(msg, data);
          return;
        }
        Copy(used, data[..available]);
        ghost var first := buffer[..];
        assert first == Rest(msg) + data[..available];
        FoldAppend(INIT, Whole(msg), first);
        Body(buffer[..]);
        BlockAppend(msg, data, Whole(msg), available);
        HashBlocks(data[available..], Whole(msg) + first);
        assert (Whole(msg) + first) + data[available..] == msg + data;
      } else {
        assert Whole(msg) == msg;
        HashBlocks(data, msg);
      }
    }

    /** The byte counter at the head of md5_hash. */
    method Count(k: nat, ghost n: nat)
      requires Counts(lo, hi, n)
      modifies `lo, `hi
      ensures Counts(lo, hi, n + k)
    {
      hide Counts;
      CounterCarry(lo, hi, n, k);
      var savedLo := lo;
      lo := (savedLo + k) % LO_MOD;
      if lo < savedLo { hi := (hi + 1) % WORD_MOD; }
      hi := (hi + k / LO_MOD) % WORD_MOD;
    }

    /** The end of md5_hash: all the whole blocks, then the rest into the buffer. */
    method HashBlocks(data: seq<Byte>, ghost done: seq<Byte>)
      requires Valid() && |done| % 64 == 0 && Words() == Fold(INIT, done)
      modifies `a, `b, `c, `d, buffer
      ensures Words() == Fold(INIT, Whole(done + data))
      ensures buffer[..|done + data| % 64] == Rest(done + data)
    {
      hide Fold, Whole, Rest;
      var rest := data;
      ghost var all := done;
      if |data| >= 64 {
        var whole := |data| / 64 * 64;
        assert data[..whole] + data[whole..] == data;
        SeqAssoc(done, data[..whole], data[whole..]);
        FoldAppend(INIT, done, data[..whole]);
        Body(data[..whole]);
        all := done + data[..whole];
        rest := data[whole..];
      }
      WholeIs(all, rest);
      Copy(0, rest);
      assert buffer[..|rest|] == rest;
    }

    /** memcpy(&buffer[at], data, size) */
    method Copy(at: nat, data: seq<Byte>)
      requires Valid() && at + |data| <= 64
      modifies buffer
      ensures buffer[..] == old(buffer[..at]) + data + old(buffer[at + |data|..])
    {
      forall k | 0 <= k < |data| {
        buffer[at + k] := data[k];
      }
    }

    /** md5_end: pads, appends the length in bits and puts out the digest. */
    method End(ghost msg: seq<Byte>) returns (result: seq<Byte>)
      requires Absorbed(msg)
      modifies this, buffer
      ensures result == R.Md5(msg)
      ensures PutOut(Fold(INIT, Padded(msg)), result)
      ensures Valid() && lo == 0 && hi == 0 && Words() == State(0, 0, 0, 0) && buffer[..] == Zeros(64)
    {
      hide Fold, Padded, Counts, PutOut, Output;
      ghost var done := Pad(msg);
      PaddedLength(|msg|);
      FoldAppend(INIT, done, buffer[..]);
      Body(buffer[..]);

      result := Result();
      Wipe();
    }

    /** md5_end up to its last block: whatever did not fit before it has gone through the
        block function, and the buffer is the last block of the padded message. */
    method Pad(ghost msg: seq<Byte>) returns (ghost done: seq<Byte>)
      requires Absorbed(msg)
      modifies `a, `b, `c, `d, buffer
      ensures |done| % 64 == 0 && Words() == Fold(INIT, done) && done + buffer[..] == Padded(msg)
    {
      hide Fold, LeBytes, Counts, Padded, PadZeros, Whole, Rest, Marked;
      ghost var tail;
      var used;
      done, tail, used := PadMarker(msg);
      ghost var zeros := Zeros(56 - used);
      Copy(used, Zeros(56 - used));
      assert buffer[..56] == tail + zeros;
      PutLength();
      LengthBytes(|msg|, lo, hi);
      assert buffer[..] == buffer[..56] + buffer[56..];
      PaddedBuffer(msg, done, tail);
    }

    /** The marker byte, and the extra block when the length does not fit behind it. */
    method PadMarker(ghost msg: seq<Byte>) returns (ghost done: seq<Byte>, ghost tail: seq<Byte>, used: nat)
      requires Absorbed(msg)
      modifies `a, `b, `c, `d, buffer
      ensures |done| % 64 == 0 && Words() == Fold(INIT, done)
      ensures used == |tail| && |tail| <= 56 && buffer[..used] == tail
      ensures Marked(Whole(msg), Rest(msg), done, tail)
    {
      hide Fold, LeBytes, Counts, Whole, Rest;
      used := lo % 64;
      BlockOffset(lo, hi, |msg|);
      WholeRest(msg);
      done := Whole(msg);
      buffer[used] := 0x80;
      used := used + 1;
      var available := 64 - used;
      tail := Rest(msg) + [0x80];
      assert buffer[..used] == tail;
      if available < 8 {
        Copy(used, Zeros(available));
        assert buffer[..] == tail + Zeros(available);
        FoldAppend(INIT, done, buffer[..]);
        Body(buffer[..]);
        done := done + buffer[..];
        tail := [];
        used := 0;
      }
    }

    /** lo <<= 3, then the eight length bytes of md5_end. */
    method PutLength()
      requires Valid()
      modifies buffer
      ensures buffer[..56] == old(buffer[..56])
      ensures buffer[56..] == LeBytes(lo * 8 % WORD_MOD, 4) + LeBytes(hi, 4)
    {
      hide LeBytes;
      var bits := lo * 8 % WORD_MOD;
      buffer[56] := bits % 256;
      buffer[57] := bits / 0x100 % 256;
      buffer[58] := bits / 0x1_0000 % 256;
      buffer[59] := bits / 0x100_0000 % 256;
      buffer[60] := hi % 256;
      buffer[61] := hi / 0x100 % 256;
      buffer[62] := hi / 0x1_0000 % 256;
      buffer[63] := hi / 0x100_0000 % 256;
      LeFour(bits);
      LeFour(hi);
    }

    /** The sixteen assignments to result. */
    method Result() returns (result: seq<Byte>)
      ensures PutOut(Words(), result) && result == Output(Words())
    {
      hide LowFirst, WordBytes;
      BytesLowFirst(a);
      BytesLowFirst(b);
      BytesLowFirst(c);
      BytesLowFirst(d);
      result := WordBytes(a) + WordBytes(b) + WordBytes(c) + WordBytes(d);
      FourFours(WordBytes(a), WordBytes(b), WordBytes(c), WordBytes(d));
    }

    /** memset(ctx, 0, sizeof(*ctx)) */
    method Wipe()
      requires Valid()
      modifies this, buffer
      ensures Valid() && lo == 0 && hi == 0 && Words() == State(0, 0, 0, 0) && buffer[..] == Zeros(64)
    {
      a, b, c, d, lo, hi := 0, 0, 0, 0, 0, 0;
      forall k | 0 <= k < 64 {
        buffer[k] := 0;
      }
    }
  }

  /** The whole blocks of a message, and what is left over. */
  ghost function Whole(msg: seq<Byte>): (s: seq<Byte>)
    ensures |s| % 64 == 0
  {
    msg[..|msg| / 64 * 64]
  }

  ghost function Rest(msg: seq<Byte>): (s: seq<Byte>)
    ensures |s| == |msg| % 64
  {
    msg[|msg| / 64 * 64..]
  }

  lemma UnrolledIsBlock(st: State, block: seq<Byte>)
    requires |block| == 64
    ensures Plus(Unrolled(st, R.Words(block)), st) == Block(st, block)
  {
    hide Unrolled, Run, Plus, R.Words;
    UnrolledIsRfc(st, R.Words(block));
  }

  /** Carrying out of the 29-bit half, in 32-bit arithmetic, keeps the count. */
  lemma CounterCarry(lo: nat, hi: nat, n: nat, k: nat)
    requires Counts(lo, hi, n)
    ensures var lo' := (lo + k) % LO_MOD;
            var hi' := if lo' < lo then (hi + 1) % WORD_MOD else hi;
            Counts(lo', (hi' + k / LO_MOD) % WORD_MOD, n + k)
  {
    var q, p := n / LO_MOD, k / LO_MOD;
    var r := k % LO_MOD;
    DivMod(lo + k, LO_MOD, if lo + r < LO_MOD then p else p + 1);
    DivMod(n + k, LO_MOD, if lo + r < LO_MOD then q + p else q + p + 1);
    ModPlus(q, p);
    ModPlus(q, 1);
    ModPlus(q + 1, p);
  }

  lemma DivMod(x: nat, d: nat, q: nat)
    requires d == LO_MOD && q * d <= x < q * d + d
    ensures x / d == q && x % d == x - q * d
  {
  }

  lemma ModPlus(x: nat, y: nat)
    ensures (x % WORD_MOD + y) % WORD_MOD == (x + y) % WORD_MOD
  {
  }

  lemma BlockOffset(lo: nat, hi: nat, n: nat)
    requires Counts(lo, hi, n)
    ensures lo % 64 == n % 64
  {
    var q := n / LO_MOD;
    assert n == 64 * (8388608 * q) + lo;
  }

  lemma WholeRest(msg: seq<Byte>)
    ensures Whole(msg) + Rest(msg) == msg
  {
  }

  lemma ShortAppend(msg: seq<Byte>, data: seq<Byte>)
    requires |msg| % 64 + |data| < 64
    ensures Whole(msg + data) == Whole(msg)
    ensures Rest(msg + data) == Rest(msg) + data
  {
    assert |msg + data| / 64 == |msg| / 64;
  }

  lemma BlockAppend(msg: seq<Byte>, data: seq<Byte>, w: seq<Byte>, k: nat)
    requires w <= msg && k <= |data|
    ensures w + (msg[|w|..] + data[..k]) + data[k..] == msg + data
  {
    assert w + msg[|w|..] == msg && data[..k] + data[k..] == data;
    SeqAssoc(w, msg[|w|..], data[..k]);
    SeqAssoc(msg, data[..k], data[k..]);
  }

  lemma WholeIs(done: seq<Byte>, rest: seq<Byte>)
    requires |done| % 64 == 0 && |rest| < 64
    ensures Whole(done + rest) == done && Rest(done + rest) == rest
  {
    assert |done + rest| / 64 * 64 == |done|;
  }

  /** The four bytes of lo << 3 and the four of hi are the low 64 bits of the length
      in bits. */
  lemma LengthBytes(n: nat, lo: nat, hi: nat)
    requires Counts(lo, hi, n)
    ensures LeBytes(lo * 8 % WORD_MOD, 4) + LeBytes(hi, 4) == LeBytes(8 * n, 8)
  {
    hide LeBytes;
    var q := n / LO_MOD;
    assert n == q * LO_MOD + lo;
    assert 8 * n == lo * 8 + P(4) * q;
    assert lo * 8 % WORD_MOD == lo * 8;
    LeJoin(lo * 8, q, 4, 4);
    LeTrunc(q);
  }

  lemma LeFour(n: nat)
    ensures LeBytes(n, 4) == [n % 256, n / 0x100 % 256, n / 0x1_0000 % 256, n / 0x100_0000 % 256]
  {
    assert n / 0x100 / 0x100 == n / 0x1_0000;
    assert n / 0x1_0000 / 0x100 == n / 0x100_0000;
    assert LeBytes(n / 0x100_0000 / 0x100, 0) == [];
    assert LeBytes(n / 0x100_0000, 1) == [n / 0x100_0000 % 256];
    assert LeBytes(n / 0x1_0000, 2) == [n / 0x1_0000 % 256] + LeBytes(n / 0x100_0000, 1);
    assert LeBytes(n / 0x100, 3) == [n / 0x100 % 256] + LeBytes(n / 0x1_0000, 2);
  }

  ghost function P(c: nat): nat {
    if c == 0 then 1 else 256 * P(c - 1)
  }

  lemma {:induction false} LeJoin(low: nat, high: nat, c: nat, d: nat)
    requires low < P(c)
    ensures LeBytes(low + P(c) * high, c + d) == LeBytes(low, c) + LeBytes(high, d)
  {
    if c == 0 {
      assert LeBytes(low, 0) + LeBytes(high, d) == LeBytes(high, d);
    } else {
      var k := P(c - 1) * high;
      assert P(c) * high == 256 * k;
      DivLinear(low, k);
      LeJoin(low / 256, high, c - 1, d);
      assert LeBytes(low + 256 * k, c + d) == [low % 256] + LeBytes(low / 256 + k, c - 1 + d);
      assert LeBytes(low, c) == [low % 256] + LeBytes(low / 256, c - 1);
      SeqAssoc([low % 256], LeBytes(low / 256, c - 1), LeBytes(high, d));
    }
  }

  lemma DivLinear(low: nat, k: nat)
    ensures (low + 256 * k) % 256 == low % 256 && (low + 256 * k) / 256 == low / 256 + k
  {
  }

  lemma LeTrunc(n: nat)
    ensures LeBytes(n % WORD_MOD, 4) == LeBytes(n, 4)
  {
    hide LeBytes;
    var q := n / WORD_MOD;
    assert P(4) == WORD_MOD;
    assert n == n % WORD_MOD + P(4) * q;
    LeJoin(n % WORD_MOD, q, 4, 0);
    assert LeBytes(n % WORD_MOD, 4) + LeBytes(q, 0) == LeBytes(n % WORD_MOD, 4);
  }

  lemma PadCount(n: nat)
    ensures PadZeros(n) == if n % 64 < 56 then 55 - n % 64 else 119 - n % 64
  {
    assert 55 - n == 64 * -(n / 64) + (55 - n % 64);
  }

  /** The padded message, when the marker and the length fit in the last block ... */
  lemma PaddedInPlace(msg: seq<Byte>, w: seq<Byte>, rest: seq<Byte>, z: nat)
    requires w + rest == msg && z == PadZeros(|msg|)
    ensures w + (rest + [0x80] + Zeros(z) + LeBytes(8 * |msg|, 8)) == Padded(msg)
  {
    hide LeBytes, Zeros, PadZeros;
    SeqAssoc(w, rest + [0x80] + Zeros(z), LeBytes(8 * |msg|, 8));
    SeqAssoc(w, rest + [0x80], Zeros(z));
    SeqAssoc(w, rest, [0x80]);
  }

  /** ... and when they need one block more. */
  lemma PaddedExtraBlock(msg: seq<Byte>, w: seq<Byte>, rest: seq<Byte>, z: nat, y: nat)
    requires w + rest == msg && z + y == PadZeros(|msg|)
    ensures w + (rest + [0x80] + Zeros(z)) + (Zeros(y) + LeBytes(8 * |msg|, 8)) == Padded(msg)
  {
    ZerosSplit(z, y);
    hide LeBytes, Zeros, PadZeros;
    SeqAssoc(w, rest + [0x80], Zeros(z));
    SeqAssoc(w, rest, [0x80]);
    SeqAssoc(msg + [0x80] + Zeros(z), Zeros(y), LeBytes(8 * |msg|, 8));
    SeqAssoc(msg + [0x80], Zeros(z), Zeros(y));
  }

  lemma PaddedTail(msg: seq<Byte>, w: seq<Byte>, rest: seq<Byte>, done: seq<Byte>, tail: seq<Byte>)
    requires w + rest == msg
    requires PadZeros(|msg|) == if |rest| < 56 then 55 - |rest| else 119 - |rest|
    requires |tail| <= 56 && Marked(w, rest, done, tail)
    ensures done + (tail + Zeros(56 - |tail|) + LeBytes(8 * |msg|, 8)) == Padded(msg)
  {
    hide LeBytes, Padded, Zeros, PadZeros;
    var z := 56 - |tail|;
    if |rest| < 56 {
      assert z == 55 - |rest|;
      PaddedInPlace(msg, w, rest, z);
    } else {
      assert tail + Zeros(z) == Zeros(56);
      PaddedExtraBlock(msg, w, rest, 63 - |rest|, 56);
    }
  }

  lemma PaddedBuffer(msg: seq<Byte>, done: seq<Byte>, tail: seq<Byte>)
    requires |tail| <= 56 && Marked(Whole(msg), Rest(msg), done, tail)
    ensures done + (tail + Zeros(56 - |tail|) + LeBytes(8 * |msg|, 8)) == Padded(msg)
  {
    hide LeBytes, Padded, Zeros, PadZeros, Whole, Rest, Marked;
    PadCount(|msg|);
    WholeRest(msg);
    PaddedTail(msg, Whole(msg), Rest(msg), done, tail);
  }

  /** After the marker byte: done is through the block function, tail is in the buffer. */
  ghost predicate Marked(w: seq<Byte>, rest: seq<Byte>, done: seq<Byte>, tail: seq<Byte>) {
    if |rest| < 56 then done == w && tail == rest + [0x80]
    else |rest| < 64 && done == w + (rest + [0x80] + Zeros(63 - |rest|)) && tail == []
  }

  lemma ZerosSplit(z: nat, y: nat)
    ensures Zeros(z) + Zeros(y) == Zeros(z + y)
  {
  }

  // ------------------------------------------------------------- whole messages

  /** However a message is cut into md5_hash calls, the digest is that of the whole. */
  method DigestOfPieces(pieces: seq<seq<Byte>>) returns (digest: seq<Byte>)
    ensures digest == R.Md5(Concat(pieces))
  {
    hide R.Md5, Fold;
    var ctx := new Context();
    ghost var msg: seq<Byte> := [];
    for i := 0 to |pieces|
      invariant fresh(ctx) && fresh(ctx.buffer)
      invariant msg == Concat(pieces[..i]) && ctx.Absorbed(msg)
    {
      ctx.Hash(pieces[i], msg);
      ConcatNext(pieces, i);
      msg := msg + pieces[i];
    }
    assert pieces[..|pieces|] == pieces;
    digest := ctx.End(msg);
  }

  /** A count kept in an int, which wraps around at 2^31. */
  function Int32(n: int): int {
    var m := n % 0x1_0000_0000;
    if m < 0x8000_0000 then m else m - 0x1_0000_0000
  }

  lemma Int32Zero()
    ensures Int32(0) == 0
  {}

  lemma Int32Plus(n: int, k: int)
    ensures Int32(Int32(n) + k) == Int32(n + k)
  {}

  /** md5sum: reads the file 256 bytes at a time. */
  method Md5Sum(file: seq<Byte>) returns (count: int, digest: seq<Byte>)
    ensures count == Int32(|file|) && digest == R.Md5(file)
  {
    hide R.Md5, Fold, Int32;
    var ctx := new Context();
    var pos := 0;
    count := 0;
    assert count == Int32(0) by { Int32Zero(); }
    while true
      invariant fresh(ctx) && fresh(ctx.buffer)
      invariant 0 <= pos <= |file| && count == Int32(pos) && ctx.Absorbed(file[..pos])
      decreases |file| - pos
    {
      var len := if |file| - pos < 256 then |file| - pos else 256;
      if len == 0 { break; }
      ctx.Hash(file[pos..pos + len], file[..pos]);
      assert file[..pos] + file[pos..pos + len] == file[..pos + len];
      Int32Plus(pos, len);
      pos, count := pos + len, Int32(count + len);
    }
    assert file[..pos] == file;
    digest := ctx.End(file);
  }
}
