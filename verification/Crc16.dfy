/** The 16-bit CRC of the streaming-download link: the table-driven loop, the
    bit-serial CRC it stands for, and which errors it detects. */
module Crc16 {

  type Byte = bv8

  const SEED: bv16 := 0xFFFF
  const POLY: bv16 := 0x8408

  /** The check value of appendix C.2 of RFC 1662: the register after a frame that
      carries its own FCS. */
  const GOOD_FCS: bv16 := 0xF0B8

  // ------------------------------------------------------------- bit by bit

  /** One shift of the reflected CRC register. */
  function Shift1(c: bv16): bv16 {
    if c & 1 == 1 then (c >> 1) ^ POLY else c >> 1
  }

  function Xor(x: bv16, y: bv16): bv16 { x ^ y }

  function Unit(b: bool): bv16 { if b then 1 else 0 }

  function Half(x: bv16): bv16 { x >> 1 }

  predicate Odd(x: bv16) { x & 1 == 1 }

  function BitStep(c: bv16, b: bool): bv16 {
    Shift1(Xor(c, Unit(b)))
  }

  /** The bit-serial CRC: the reference. */
  function CrcBits(c: bv16, w: seq<bool>): bv16
    decreases |w|
  {
    if w == [] then c else CrcBits(BitStep(c, w[0]), w[1..])
  }

  /** The n low bits of v, least significant first, as they go over the line. */
  function BitsOf(v: bv16, n: nat): (w: seq<bool>)
    ensures |w| == n
    decreases n
  {
    if n == 0 then [] else [Odd(v)] + BitsOf(Half(v), n - 1)
  }

  function AllBits(buf: seq<Byte>): (w: seq<bool>)
    ensures |w| == 8 * |buf|
  {
    if buf == [] then [] else BitsOf(Wide(buf[0]), 8) + AllBits(buf[1..])
  }

  /** The FCS field of a frame: the complement of the CRC of its bits. */
  function Fcs(buf: seq<Byte>): bv16 {
    !CrcBits(SEED, AllBits(buf))
  }

  // ------------------------------------------------------------- the table

  function Row0(j: bv8): bv16 {
    if j == 0 then 0x0000 else if j == 1 then 0x1189 else if j == 2 then 0x2312 else if j == 3 then 0x329b else
    if j == 4 then 0x4624 else if j == 5 then 0x57ad else if j == 6 then 0x6536 else if j == 7 then 0x74bf else
    if j == 8 then 0x8c48 else if j == 9 then 0x9dc1 else if j == 10 then 0xaf5a else if j == 11 then 0xbed3 else
    if j == 12 then 0xca6c else if j == 13 then 0xdbe5 else if j == 14 then 0xe97e else 0xf8f7
  }

  function Row1(j: bv8): bv16 {
    if j == 0 then 0x1081 else if j == 1 then 0x0108 else if j == 2 then 0x3393 else if j == 3 then 0x221a else
    if j == 4 then 0x56a5 else if j == 5 then 0x472c else if j == 6 then 0x75b7 else if j == 7 then 0x643e else
    if j == 8 then 0x9cc9 else if j == 9 then 0x8d40 else if j == 10 then 0xbfdb else if j == 11 then 0xae52 else
    if j == 12 then 0xdaed else if j == 13 then 0xcb64 else if j == 14 then 0xf9ff else 0xe876
  }

  function Row2(j: bv8): bv16 {
    if j == 0 then 0x2102 else if j == 1 then 0x308b else if j == 2 then 0x0210 else if j == 3 then 0x1399 else
    if j == 4 then 0x6726 else if j == 5 then 0x76af else if j == 6 then 0x4434 else if j == 7 then 0x55bd else
    if j == 8 then 0xad4a else if j == 9 then 0xbcc3 else if j == 10 then 0x8e58 else if j == 11 then 0x9fd1 else
    if j == 12 then 0xeb6e else if j == 13 then 0xfae7 else if j == 14 then 0xc87c else 0xd9f5
  }

  function Row3(j: bv8): bv16 {
    if j == 0 then 0x3183 else if j == 1 then 0x200a else if j == 2 then 0x1291 else if j == 3 then 0x0318 else
    if j == 4 then 0x77a7 else if j == 5 then 0x662e else if j == 6 then 0x54b5 else if j == 7 then 0x453c else
    if j == 8 then 0xbdcb else if j == 9 then 0xac42 else if j == 10 then 0x9ed9 else if j == 11 then 0x8f50 else
    if j == 12 then 0xfbef else if j == 13 then 0xea66 else if j == 14 then 0xd8fd else 0xc974
  }

  function Row4(j: bv8): bv16 {
    if j == 0 then 0x4204 else if j == 1 then 0x538d else if j == 2 then 0x6116 else if j == 3 then 0x709f else
    if j == 4 then 0x0420 else if j == 5 then 0x15a9 else if j == 6 then 0x2732 else if j == 7 then 0x36bb else
    if j == 8 then 0xce4c else if j == 9 then 0xdfc5 else if j == 10 then 0xed5e else if j == 11 then 0xfcd7 else
    if j == 12 then 0x8868 else if j == 13 then 0x99e1 else if j == 14 then 0xab7a else 0xbaf3
  }

  function Row5(j: bv8): bv16 {
    if j == 0 then 0x5285 else if j == 1 then 0x430c else if j == 2 then 0x7197 else if j == 3 then 0x601e else
    if j == 4 then 0x14a1 else if j == 5 then 0x0528 else if j == 6 then 0x37b3 else if j == 7 then 0x263a else
    if j == 8 then 0xdecd else if j == 9 then 0xcf44 else if j == 10 then 0xfddf else if j == 11 then 0xec56 else
    if j == 12 then 0x98e9 else if j == 13 then 0x8960 else if j == 14 then 0xbbfb else 0xaa72
  }

  function Row6(j: bv8): bv16 {
    if j == 0 then 0x6306 else if j == 1 then 0x728f else if j == 2 then 0x4014 else if j == 3 then 0x519d else
    if j == 4 then 0x2522 else if j == 5 then 0x34ab else if j == 6 then 0x0630 else if j == 7 then 0x17b9 else
    if j == 8 then 0xef4e else if j == 9 then 0xfec7 else if j == 10 then 0xcc5c else if j == 11 then 0xddd5 else
    if j == 12 then 0xa96a else if j == 13 then 0xb8e3 else if j == 14 then 0x8a78 else 0x9bf1
  }

  function Row7(j: bv8): bv16 {
    if j == 0 then 0x7387 else if j == 1 then 0x620e else if j == 2 then 0x5095 else if j == 3 then 0x411c else
    if j == 4 then 0x35a3 else if j == 5 then 0x242a else if j == 6 then 0x16b1 else if j == 7 then 0x0738 else
    if j == 8 then 0xffcf else if j == 9 then 0xee46 else if j == 10 then 0xdcdd else if j == 11 then 0xcd54 else
    if j == 12 then 0xb9eb else if j == 13 then 0xa862 else if j == 14 then 0x9af9 else 0x8b70
  }

  function Row8(j: bv8): bv16 {
    if j == 0 then 0x8408 else if j == 1 then 0x9581 else if j == 2 then 0xa71a else if j == 3 then 0xb693 else
    if j == 4 then 0xc22c else if j == 5 then 0xd3a5 else if j == 6 then 0xe13e else if j == 7 then 0xf0b7 else
    if j == 8 then 0x0840 else if j == 9 then 0x19c9 else if j == 10 then 0x2b52 else if j == 11 then 0x3adb else
    if j == 12 then 0x4e64 else if j == 13 then 0x5fed else if j == 14 then 0x6d76 else 0x7cff
  }

  function Row9(j: bv8): bv16 {
    if j == 0 then 0x9489 else if j == 1 then 0x8500 else if j == 2 then 0xb79b else if j == 3 then 0xa612 else
    if j == 4 then 0xd2ad else if j == 5 then 0xc324 else if j == 6 then 0xf1bf else if j == 7 then 0xe036 else
    if j == 8 then 0x18c1 else if j == 9 then 0x0948 else if j == 10 then 0x3bd3 else if j == 11 then 0x2a5a else
    if j == 12 then 0x5ee5 else if j == 13 then 0x4f6c else if j == 14 then 0x7df7 else 0x6c7e
  }

  function RowA(j: bv8): bv16 {
    if j == 0 then 0xa50a else if j == 1 then 0xb483 else if j == 2 then 0x8618 else if j == 3 then 0x9791 else
    if j == 4 then 0xe32e else if j == 5 then 0xf2a7 else if j == 6 then 0xc03c else if j == 7 then 0xd1b5 else
    if j == 8 then 0x2942 else if j == 9 then 0x38cb else if j == 10 then 0x0a50 else if j == 11 then 0x1bd9 else
    if j == 12 then 0x6f66 else if j == 13 then 0x7eef else if j == 14 then 0x4c74 else 0x5dfd
  }

  function RowB(j: bv8): bv16 {
    if j == 0 then 0xb58b else if j == 1 then 0xa402 else if j == 2 then 0x9699 else if j == 3 then 0x8710 else
    if j == 4 then 0xf3af else if j == 5 then 0xe226 else if j == 6 then 0xd0bd else if j == 7 then 0xc134 else
    if j == 8 then 0x39c3 else if j == 9 then 0x284a else if j == 10 then 0x1ad1 else if j == 11 then 0x0b58 else
    if j == 12 then 0x7fe7 else if j == 13 then 0x6e6e else if j == 14 then 0x5cf5 else 0x4d7c
  }

  function RowC(j: bv8): bv16 {
    if j == 0 then 0xc60c else if j == 1 then 0xd785 else if j == 2 then 0xe51e else if j == 3 then 0xf497 else
    if j == 4 then 0x8028 else if j == 5 then 0x91a1 else if j == 6 then 0xa33a else if j == 7 then 0xb2b3 else
    if j == 8 then 0x4a44 else if j == 9 then 0x5bcd else if j == 10 then 0x6956 else if j == 11 then 0x78df else
    if j == 12 then 0x0c60 else if j == 13 then 0x1de9 else if j == 14 then 0x2f72 else 0x3efb
  }

  function RowD(j: bv8): bv16 {
    if j == 0 then 0xd68d else if j == 1 then 0xc704 else if j == 2 then 0xf59f else if j == 3 then 0xe416 else
    if j == 4 then 0x90a9 else if j == 5 then 0x8120 else if j == 6 then 0xb3bb else if j == 7 then 0xa232 else
    if j == 8 then 0x5ac5 else if j == 9 then 0x4b4c else if j == 10 then 0x79d7 else if j == 11 then 0x685e else
    if j == 12 then 0x1ce1 else if j == 13 then 0x0d68 else if j == 14 then 0x3ff3 else 0x2e7a
  }

  function RowE(j: bv8): bv16 {
    if j == 0 then 0xe70e else if j == 1 then 0xf687 else if j == 2 then 0xc41c else if j == 3 then 0xd595 else
    if j == 4 then 0xa12a else if j == 5 then 0xb0a3 else if j == 6 then 0x8238 else if j == 7 then 0x93b1 else
    if j == 8 then 0x6b46 else if j == 9 then 0x7acf else if j == 10 then 0x4854 else if j == 11 then 0x59dd else
    if j == 12 then 0x2d62 else if j == 13 then 0x3ceb else if j == 14 then 0x0e70 else 0x1ff9
  }

  function RowF(j: bv8): bv16 {
    if j == 0 then 0xf78f else if j == 1 then 0xe606 else if j == 2 then 0xd49d else if j == 3 then 0xc514 else
    if j == 4 then 0xb1ab else if j == 5 then 0xa022 else if j == 6 then 0x92b9 else if j == 7 then 0x8330 else
    if j == 8 then 0x7bc7 else if j == 9 then 0x6a4e else if j == 10 then 0x58d5 else if j == 11 then 0x495c else
    if j == 12 then 0x3de3 else if j == 13 then 0x2c6a else if j == 14 then 0x1ef1 else 0x0f78
  }


  /** crc_16_l_table, sixteen entries a row. */
  function Table(i: bv8): bv16 {
    var j := i & 0xF;
    var r := i >> 4;
    if r == 0 then Row0(j) else if r == 1 then Row1(j) else if r == 2 then Row2(j) else if r == 3 then Row3(j)
    else if r == 4 then Row4(j) else if r == 5 then Row5(j) else if r == 6 then Row6(j) else if r == 7 then Row7(j)
    else if r == 8 then Row8(j) else if r == 9 then Row9(j) else if r == 10 then RowA(j) else if r == 11 then RowB(j)
    else if r == 12 then RowC(j) else if r == 13 then RowD(j) else if r == 14 then RowE(j) else RowF(j)
  }

  function Low(x: bv16): Byte { (x & 0xFF) as bv8 }
  function High(x: bv16): bv16 { x >> 8 }
  function Wide(b: Byte): bv16 { b as bv16 }

  function TableStep(c: bv16, b: Byte): bv16 {
    Xor(Table(Low(Xor(c, Wide(b)))), High(c))
  }

  /** crc_16_l_calc on whole bytes (its caller passes eight times the byte count). */
  method Crc16Calc(buf: seq<Byte>) returns (crc: bv16)
    ensures crc == Fcs(buf)
  {
    hide TableStep, BitsOf;
    var c := SEED;
    var i := 0;
    while i < |buf|
      invariant 0 <= i <= |buf|
      invariant CrcBits(SEED, AllBits(buf)) == CrcBits(c, AllBits(buf[i..]))
    {
      TableStepIsBitSerial(c, buf[i]);
      CrcAppend(c, BitsOf(Wide(buf[i]), 8), AllBits(buf[i + 1..]));
      assert buf[i..][1..] == buf[i + 1..];
      c := TableStep(c, buf[i]);
      i := i + 1;
    }
    crc := !c;
  }

  // ------------------------------------------------------------- table = bit serial

  function Shift8(c: bv16): bv16 {
    Shift1(Shift1(Shift1(Shift1(Shift1(Shift1(Shift1(Shift1(c))))))))
  }

  lemma TableQuarter0(i: bv8)
    requires i < 0x40
    ensures Table(i) == Shift8(Wide(i))
  {}

  lemma TableQuarter1(i: bv8)
    requires 0x40 <= i < 0x80
    ensures Table(i) == Shift8(Wide(i))
  {}

  lemma TableQuarter2(i: bv8)
    requires 0x80 <= i < 0xC0
    ensures Table(i) == Shift8(Wide(i))
  {}

  lemma TableQuarter3(i: bv8)
    requires 0xC0 <= i
    ensures Table(i) == Shift8(Wide(i))
  {}

  lemma TableIsShift8(i: bv8)
    ensures Table(i) == Shift8(Wide(i))
  {
    hide Table, Shift8, Wide;
    if i < 0x40 {
      TableQuarter0(i);
    } else if i < 0x80 {
      TableQuarter1(i);
    } else if i < 0xC0 {
      TableQuarter2(i);
    } else {
      TableQuarter3(i);
    }
  }

  lemma Shift8Linear(x: bv16, y: bv16)
    ensures Shift8(Xor(x, y)) == Xor(Shift8(x), Shift8(y))
  {
    hide Shift1, Xor;
    var a, b, c := Shift1(x), Shift1(Shift1(x)), Shift1(Shift1(Shift1(x)));
    var d, e, f := Shift1(y), Shift1(Shift1(y)), Shift1(Shift1(Shift1(y)));
    Shift1Linear(x, y);
    Shift1Linear(a, d);
    Shift1Linear(b, e);
    Shift1Linear(c, f);
    var g, h := Shift1(c), Shift1(f);
    Shift1Linear(g, h);
    Shift1Linear(Shift1(g), Shift1(h));
    Shift1Linear(Shift1(Shift1(g)), Shift1(Shift1(h)));
    Shift1Linear(Shift1(Shift1(Shift1(g))), Shift1(Shift1(Shift1(h))));
  }

  /** The upper byte has no bit to lose in eight shifts. */
  lemma Shift8High(c: bv16)
    ensures Shift8(c & 0xFF00) == High(c)
  {}

  lemma LowAndHigh(c: bv16)
    ensures c == Xor(Wide(Low(c)), c & 0xFF00)
  {}

  lemma Shift8Halves(c: bv16)
    ensures Shift8(c) == Xor(Shift8(Wide(Low(c))), High(c))
  {
    hide Shift8, Xor, Wide, Low, High;
    LowAndHigh(c);
    Shift8Linear(Wide(Low(c)), c & 0xFF00);
    Shift8High(c);
  }

  lemma HighByte(c: bv16, b: Byte)
    ensures High(Xor(c, Wide(b))) == High(c)
  {
  }

  lemma TableStepIsShift8(c: bv16, b: Byte)
    ensures TableStep(c, b) == Shift8(Xor(c, Wide(b)))
  {
    hide Table, Shift8, Xor, Wide, Low, High;
    TableIsShift8(Low(Xor(c, Wide(b))));
    Shift8Halves(Xor(c, Wide(b)));
    HighByte(c, b);
  }

  /** Feeding the bits one at a time is feeding them all at once and then shifting. */
  lemma BitStepDefers(c: bv16, v: bv16)
    ensures Xor(BitStep(c, Odd(v)), Half(v)) == Shift1(Xor(c, v))
  {
    hide Shift1, Xor;
    var u := Unit(Odd(v));
    Shift1Linear(Xor(c, u), Xor(v, u));
    XorCancel(c, v, u);
    EvenShift(v);
  }

  lemma XorCancel(c: bv16, v: bv16, u: bv16)
    ensures Xor(Xor(c, u), Xor(v, u)) == Xor(c, v)
  {
    assert (c ^ u) ^ (v ^ u) == c ^ v;
  }

  lemma EvenShift(v: bv16)
    ensures Shift1(Xor(v, Unit(Odd(v)))) == Half(v)
  {
  }

  function ShiftN(c: bv16, n: nat): bv16
    decreases n
  {
    if n == 0 then c else ShiftN(Shift1(c), n - 1)
  }

  predicate Fits(v: bv16, n: nat)
    decreases n
  {
    if n == 0 then v == 0 else Fits(Half(v), n - 1)
  }

  lemma {:induction false} CrcOfValue(c: bv16, v: bv16, n: nat)
    requires Fits(v, n)
    ensures CrcBits(c, BitsOf(v, n)) == ShiftN(Xor(c, v), n)
    decreases n
  {
    hide BitStep, Shift1;
    if n == 0 {
      assert Xor(c, v) == c;
    } else {
      BitStepDefers(c, v);
      assert BitsOf(v, n)[1..] == BitsOf(Half(v), n - 1);
      CrcOfValue(BitStep(c, Odd(v)), Half(v), n - 1);
    }
  }

  lemma ByteFits(b: Byte)
    ensures Fits(Wide(b), 8)
  {
    var v2 := (b as bv16 >> 1) >> 1;
    var v4 := (v2 >> 1) >> 1;
    var v6 := (v4 >> 1) >> 1;
    assert (v6 >> 1) >> 1 == 0;
    assert Fits((v6 >> 1) >> 1, 0);
    assert Fits(v6, 2);
    assert Fits(v4, 4);
    assert Fits(v2, 6);
  }

  lemma ShiftEight(c: bv16)
    ensures ShiftN(c, 8) == Shift8(c)
  {
    hide Shift1;
    var c2 := Shift1(Shift1(c));
    var c4 := Shift1(Shift1(c2));
    var c6 := Shift1(Shift1(c4));
    assert ShiftN(c6, 2) == Shift1(Shift1(c6));
    assert ShiftN(c4, 4) == ShiftN(c6, 2);
    assert ShiftN(c2, 6) == ShiftN(c4, 4);
  }

  /** One step through the table is eight steps of the bit-serial CRC. */
  lemma TableStepIsBitSerial(c: bv16, b: Byte)
    ensures TableStep(c, b) == CrcBits(c, BitsOf(Wide(b), 8))
  {
    hide TableStep, Shift8, ShiftN, BitsOf, Fits, Xor, Wide;
    TableStepIsShift8(c, b);
    ByteFits(b);
    CrcOfValue(c, Wide(b), 8);
    ShiftEight(Xor(c, Wide(b)));
  }

  lemma {:induction false} CrcAppend(c: bv16, u: seq<bool>, v: seq<bool>)
    ensures CrcBits(c, u + v) == CrcBits(CrcBits(c, u), v)
    decreases |u|
  {
    hide BitStep;
    if u == [] {
      assert u + v == v;
    } else {
      assert (u + v)[1..] == u[1..] + v;
      CrcAppend(BitStep(c, u[0]), u[1..], v);
    }
  }

  lemma {:induction false} AllBitsAppend(s: seq<Byte>, t: seq<Byte>)
    ensures AllBits(s + t) == AllBits(s) + AllBits(t)
    decreases |s|
  {
    hide BitsOf;
    if s == [] {
      assert s + t == t;
    } else {
      assert (s + t)[1..] == s[1..] + t;
      AllBitsAppend(s[1..], t);
    }
  }

  // ------------------------------------------------------------- the good FCS

  /** The two bytes compute_reply_crc puts behind a message. */
  function FcsBytes(buf: seq<Byte>): (s: seq<Byte>)
    ensures |s| == 2
  {
    [Low(Fcs(buf)), Low(High(Fcs(buf)))]
  }

  lemma FcsStates(s: bv16)
    ensures Shift8(Xor(Shift8(Xor(s, Wide(Low(!s)))), Wide(Low(High(!s))))) == GOOD_FCS
  {
    hide Shift8, Xor, Wide, Low, High;
    var x := Xor(s, Wide(Low(!s)));
    Shift8Halves(x);
    FcsMask(s, Shift8(Wide(Low(x))));
    GoodFcsValue();
  }

  lemma FcsMask(s: bv16, y: bv16)
    ensures Low(Xor(s, Wide(Low(!s)))) == 0xFF
    ensures Xor(Xor(y, High(Xor(s, Wide(Low(!s))))), Wide(Low(High(!s)))) == Xor(y, 0xFF)
  {
  }

  lemma GoodFcsValue()
    ensures Shift8(Xor(Shift8(Wide(0xFF)), 0xFF)) == GOOD_FCS
  {
  }

  /** A receiver that runs the CRC over any message and its FCS sees the good FCS. */
  lemma GoodFcs(buf: seq<Byte>)
    ensures CrcBits(SEED, AllBits(buf + FcsBytes(buf))) == GOOD_FCS
  {
    hide BitsOf, Shift8, TableStep;
    var s := CrcBits(SEED, AllBits(buf));
    var lo, hi := FcsBytes(buf)[0], FcsBytes(buf)[1];
    AllBitsAppend(buf, FcsBytes(buf));
    CrcAppend(SEED, AllBits(buf), AllBits(FcsBytes(buf)));
    CrcTwoBytes(s, lo, hi);
    FcsStates(s);
  }

  lemma OneByteBits(x: Byte)
    ensures AllBits([x]) == BitsOf(Wide(x), 8)
  {
    hide BitsOf, Wide;
    assert AllBits([x][1..]) == [];
    assert BitsOf(Wide(x), 8) + [] == BitsOf(Wide(x), 8);
  }

  lemma TwoBytesBits(x: Byte, y: Byte)
    ensures AllBits([x, y]) == BitsOf(Wide(x), 8) + BitsOf(Wide(y), 8)
  {
    hide BitsOf, Wide;
    assert [x, y] == [x] + [y];
    AllBitsAppend([x], [y]);
    OneByteBits(x);
    OneByteBits(y);
  }

  lemma CrcTwoBytes(s: bv16, x: Byte, y: Byte)
    ensures CrcBits(s, AllBits([x, y])) == Shift8(Xor(Shift8(Xor(s, Wide(x))), Wide(y)))
  {
    hide BitsOf, Shift8, TableStep, Xor, Wide;
    var wx, wy := BitsOf(Wide(x), 8), BitsOf(Wide(y), 8);
    TwoBytesBits(x, y);
    CrcAppend(s, wx, wy);
    TableStepIsBitSerial(s, x);
    TableStepIsShift8(s, x);
    TableStepIsBitSerial(CrcBits(s, wx), y);
    TableStepIsShift8(CrcBits(s, wx), y);
  }

  // ------------------------------------------------------------- what the CRC detects

  /** The bits in which two bit strings differ. */
  function Diff(u: seq<bool>, v: seq<bool>): (e: seq<bool>)
    requires |u| == |v|
    ensures |e| == |u|
  {
    seq(|u|, k requires 0 <= k < |u| => u[k] != v[k])
  }

  lemma Shift1Linear11(x: bv16, y: bv16)
    requires x & 1 == 1 && y & 1 == 1
    ensures Shift1(x ^ y) == Shift1(x) ^ Shift1(y)
  {}

  lemma Shift1Linear10(x: bv16, y: bv16)
    requires x & 1 == 1 && y & 1 != 1
    ensures Shift1(x ^ y) == Shift1(x) ^ Shift1(y)
  {}

  lemma Shift1Linear01(x: bv16, y: bv16)
    requires x & 1 != 1 && y & 1 == 1
    ensures Shift1(x ^ y) == Shift1(x) ^ Shift1(y)
  {}

  lemma Shift1Linear00(x: bv16, y: bv16)
    requires x & 1 != 1 && y & 1 != 1
    ensures Shift1(x ^ y) == Shift1(x) ^ Shift1(y)
  {}

  /** Shifting the register is linear over exclusive or. */
  lemma Shift1Linear(x: bv16, y: bv16)
    ensures Shift1(Xor(x, y)) == Xor(Shift1(x), Shift1(y))
  {
    hide Shift1;
    if x & 1 == 1 {
      if y & 1 == 1 { Shift1Linear11(x, y); } else { Shift1Linear10(x, y); }
    } else {
      if y & 1 == 1 { Shift1Linear01(x, y); } else { Shift1Linear00(x, y); }
    }
  }

  lemma XorAssoc(x: bv16, y: bv16, z: bv16)
    ensures Xor(Xor(x, y), z) == Xor(x, Xor(y, z))
  {
  }

  lemma XorComm(x: bv16, y: bv16)
    ensures Xor(x, y) == Xor(y, x)
  {
  }

  lemma XorMedial(x: bv16, y: bv16, z: bv16, w: bv16)
    ensures Xor(Xor(x, z), Xor(y, w)) == Xor(Xor(x, y), Xor(z, w))
  {
    hide Xor;
    XorAssoc(x, z, Xor(y, w));
    XorAssoc(z, y, w);
    XorComm(z, y);
    XorAssoc(y, z, w);
    XorAssoc(x, y, Xor(z, w));
  }

  lemma BitStepLinear(c: bv16, d: bv16, a: bool, b: bool)
    ensures BitStep(Xor(c, d), a != b) == Xor(BitStep(c, a), BitStep(d, b))
  {
    hide Shift1, Xor;
    UnitXor(a, b);
    XorMedial(c, d, Unit(a), Unit(b));
    Shift1Linear(Xor(c, Unit(a)), Xor(d, Unit(b)));
  }

  lemma UnitXor(a: bool, b: bool)
    ensures Xor(Unit(a), Unit(b)) == Unit(a != b)
  {}

  lemma {:induction false} CrcLinear(c: bv16, d: bv16, u: seq<bool>, v: seq<bool>)
    requires |u| == |v|
    ensures CrcBits(Xor(c, d), Diff(u, v)) == Xor(CrcBits(c, u), CrcBits(d, v))
    decreases |u|
  {
    hide BitStep, Xor;
    if u != [] {
      BitStepLinear(c, d, u[0], v[0]);
      assert Diff(u, v)[1..] == Diff(u[1..], v[1..]);
      CrcLinear(BitStep(c, u[0]), BitStep(d, v[0]), u[1..], v[1..]);
    }
  }

  /** Two strings collide exactly when their difference alone leaves a zero register. */
  lemma CollideIff(c: bv16, u: seq<bool>, v: seq<bool>)
    requires |u| == |v|
    ensures CrcBits(c, u) == CrcBits(c, v) <==> CrcBits(0, Diff(u, v)) == 0
  {
    hide CrcBits, Xor;
    CrcLinear(c, c, u, v);
    XorZero(c, c);
    XorZero(CrcBits(c, u), CrcBits(c, v));
  }

  lemma XorZero(x: bv16, y: bv16)
    ensures Xor(x, y) == 0 <==> x == y
  {
    hide Xor;
    XorBack(x, y);
    XorBack(0, y);
    XorNothing(y);
  }

  lemma XorBack(x: bv16, y: bv16)
    ensures Xor(Xor(x, y), y) == x
  {}

  lemma XorNothing(y: bv16)
    ensures Xor(0, y) == y
  {}

  function Falses(n: nat): (w: seq<bool>)
    ensures |w| == n
  {
    seq(n, _ => false)
  }

  lemma ShiftZero(x: bv16)
    ensures Shift1(x) == 0 <==> x == 0
    ensures BitStep(x, false) == 0 <==> x == 0
  {
  }

  lemma {:induction false} FalsesKeepZero(x: bv16, n: nat)
    ensures CrcBits(x, Falses(n)) == 0 <==> x == 0
    decreases n
  {
    hide BitStep;
    if n > 0 {
      assert Falses(n)[1..] == Falses(n - 1);
      ShiftZero(x);
      FalsesKeepZero(BitStep(x, false), n - 1);
    }
  }

  /** The top bit is clear. */
  predicate Clear(x: bv16) { x & 0x8000 == 0 }

  function Push(x: bv16, b: bool): bv16 { (x << 1) | Unit(b) }

  /** The value whose bits are w. */
  function Value(w: seq<bool>): bv16
    decreases |w|
  {
    if w == [] then 0 else Push(Value(w[1..]), w[0])
  }

  lemma {:induction false} FitsMore(v: bv16, n: nat)
    requires Fits(v, n)
    ensures Fits(v, n + 1)
    decreases n
  {
    if n > 0 {
      FitsMore(Half(v), n - 1);
    } else {
      assert Half(v) == 0;
    }
  }

  lemma {:induction false} FitsTop(v: bv16, n: nat)
    requires Fits(v, n) && n <= 15
    ensures Clear(v)
    decreases 15 - n
  {
    if n < 15 {
      FitsMore(v, n);
      FitsTop(v, n + 1);
    } else {
      FitsFifteen(v);
    }
  }

  function Eighth(x: bv16): bv16 { Half(Half(Half(x))) }

  lemma FitsEighth(v: bv16, n: nat)
    requires Fits(v, n + 3)
    ensures Fits(Eighth(v), n)
  {
    hide Half;
    assert Fits(Half(v), n + 2);
    assert Fits(Half(Half(v)), n + 1);
  }

  lemma EighthFiveTimes(v: bv16)
    ensures Eighth(Eighth(Eighth(Eighth(Eighth(v))))) == v >> 15
  {
  }

  lemma TopBit(v: bv16)
    requires v >> 15 == 0
    ensures Clear(v)
  {
  }

  lemma FitsFifteen(v: bv16)
    requires Fits(v, 15)
    ensures Clear(v)
  {
    hide Half, Eighth, Clear;
    FitsEighth(v, 12);
    FitsEighth(Eighth(v), 9);
    FitsEighth(Eighth(Eighth(v)), 6);
    FitsEighth(Eighth(Eighth(Eighth(v))), 3);
    FitsEighth(Eighth(Eighth(Eighth(Eighth(v)))), 0);
    EighthFiveTimes(v);
    TopBit(v);
  }

  lemma PushShift(x: bv16, b: bool)
    requires Clear(x)
    ensures Half(Push(x, b)) == x
  {
  }

  lemma PushBit(x: bv16, b: bool)
    ensures Odd(Push(x, b)) == b
  {
  }

  lemma {:induction false} ValueBits(w: seq<bool>)
    requires |w| <= 16
    ensures Fits(Value(w), |w|) && BitsOf(Value(w), |w|) == w
    decreases |w|
  {
    hide Push, Half, Odd, Clear;
    if w != [] {
      ValueBits(w[1..]);
      FitsTop(Value(w[1..]), |w| - 1);
      PushShift(Value(w[1..]), w[0]);
      PushBit(Value(w[1..]), w[0]);
      assert w == [w[0]] + w[1..];
    }
  }

  lemma {:induction false} ShiftNZero(x: bv16, n: nat)
    requires ShiftN(x, n) == 0
    ensures x == 0
    decreases n
  {
    hide Shift1;
    if n > 0 {
      ShiftNZero(Shift1(x), n - 1);
      ShiftZero(x);
    }
  }

  lemma {:induction false} ZeroBits(n: nat)
    ensures BitsOf(0, n) == Falses(n)
    decreases n
  {
    if n > 0 {
      assert Half(0) == 0 && !Odd(0);
      ZeroBits(n - 1);
    }
  }

  /** At most sixteen bits that leave a zero register are all zero. */
  lemma ShortNonzero(w: seq<bool>)
    requires |w| <= 16 && CrcBits(0, w) == 0
    ensures w == Falses(|w|)
  {
    hide CrcBits, BitsOf, Fits, ShiftN, Value;
    var v := Value(w);
    ValueBits(w);
    CrcOfValue(0, v, |w|);
    assert Xor(0, v) == v;
    ShiftNZero(v, |w|);
    ZeroBits(|w|);
  }

  /** u and v differ at most in the sixteen bits from position i. */
  predicate Burst16(u: seq<bool>, v: seq<bool>, i: nat) {
    |u| == |v| && forall k :: 0 <= k < |u| && !(i <= k < i + 16) ==> u[k] == v[k]
  }

  lemma NoDifference(u: seq<bool>, v: seq<bool>, j: nat, k: nat)
    requires |u| == |v| && j <= k <= |u|
    requires var e := Diff(u, v); e[..j] == Falses(j) && e[j..k] == Falses(k - j) && e[k..] == Falses(|e| - k)
    ensures u == v
  {
    var e := Diff(u, v);
    forall m | 0 <= m < |u| ensures u[m] == v[m] {
      if m < j { assert e[..j][m] == e[m]; }
      else if m < k { assert e[j..k][m - j] == e[m]; }
      else { assert e[k..][m - k] == e[m]; }
    }
  }

  /** No burst of up to sixteen bits goes unseen, whatever the register holds. */
  lemma BurstDetected(c: bv16, u: seq<bool>, v: seq<bool>, i: nat)
    requires Burst16(u, v, i) && u != v
    ensures CrcBits(c, u) != CrcBits(c, v)
  {
    hide CrcBits, Diff;
    CollideIff(c, u, v);
    var e := Diff(u, v);
    if CrcBits(0, e) == 0 {
      var j := if i < |e| then i else |e|;
      var k := if i + 16 < |e| then i + 16 else |e|;
      assert e[..j] == Falses(j) && e[k..] == Falses(|e| - k) by { FalseOutside(u, v, i, j, k); }
      ZeroMiddle(e, j, k);
      ShortNonzero(e[j..k]);
      NoDifference(u, v, j, k);
    }
  }

  lemma FalseOutside(u: seq<bool>, v: seq<bool>, i: nat, j: nat, k: nat)
    requires Burst16(u, v, i) && j == (if i < |u| then i else |u|) && k == if i + 16 < |u| then i + 16 else |u|
    ensures Diff(u, v)[..j] == Falses(j) && Diff(u, v)[k..] == Falses(|u| - k)
  {}

  /** Zeros around a string do not hide it. */
  lemma ZeroMiddle(e: seq<bool>, j: nat, k: nat)
    requires j <= k <= |e| && e[..j] == Falses(j) && e[k..] == Falses(|e| - k)
    ensures CrcBits(0, e) == 0 <==> CrcBits(0, e[j..k]) == 0
  {
    hide CrcBits;
    assert e == e[..j] + (e[j..k] + e[k..]);
    CrcAppend(0, e[..j], e[j..k] + e[k..]);
    FalsesKeepZero(0, j);
    CrcAppend(0, e[j..k], e[k..]);
    FalsesKeepZero(CrcBits(0, e[j..k]), |e| - k);
  }

  lemma HalvesDetermine(x: bv16, y: bv16)
    requires Half(x) == Half(y) && Odd(x) == Odd(y)
    ensures x == y
  {
  }

  lemma {:induction false} BitsDetermine(x: bv16, y: bv16, n: nat)
    requires Fits(x, n) && Fits(y, n) && BitsOf(x, n) == BitsOf(y, n)
    ensures x == y
    decreases n
  {
    hide Half, Odd;
    if n > 0 {
      assert BitsOf(x, n)[0] == BitsOf(y, n)[0];
      assert BitsOf(x, n)[1..] == BitsOf(Half(x), n - 1);
      assert BitsOf(y, n)[1..] == BitsOf(Half(y), n - 1);
      BitsDetermine(Half(x), Half(y), n - 1);
      HalvesDetermine(x, y);
    }
  }

  lemma WideInjective(x: Byte, y: Byte)
    requires Wide(x) == Wide(y)
    ensures x == y
  {
  }

  lemma {:induction false} AllBitsInjective(s: seq<Byte>, t: seq<Byte>)
    requires |s| == |t| && AllBits(s) == AllBits(t)
    ensures s == t
    decreases |s|
  {
    hide BitsOf, Wide, Fits;
    if s != [] {
      var u, v := BitsOf(Wide(s[0]), 8), BitsOf(Wide(t[0]), 8);
      assert AllBits(s)[..8] == u && AllBits(t)[..8] == v;
      assert AllBits(s)[8..] == AllBits(s[1..]) && AllBits(t)[8..] == AllBits(t[1..]);
      ByteFits(s[0]);
      ByteFits(t[0]);
      BitsDetermine(Wide(s[0]), Wide(t[0]), 8);
      WideInjective(s[0], t[0]);
      AllBitsInjective(s[1..], t[1..]);
      assert s == [s[0]] + s[1..] && t == [t[0]] + t[1..];
    }
  }

  /** A frame that carries its FCS, hit anywhere by a burst of up to sixteen bits, no
      longer shows the good FCS. */
  lemma CorruptFrameDetected(buf: seq<Byte>, frame: seq<Byte>, i: nat)
    requires frame != buf + FcsBytes(buf) && |frame| == |buf| + 2
    requires Burst16(AllBits(buf + FcsBytes(buf)), AllBits(frame), i)
    ensures CrcBits(SEED, AllBits(frame)) != GOOD_FCS
  {
    hide CrcBits, AllBits, FcsBytes, Burst16;
    GoodFcs(buf);
    if AllBits(buf + FcsBytes(buf)) == AllBits(frame) {
      AllBitsInjective(buf + FcsBytes(buf), frame);
    }
    BurstDetected(SEED, AllBits(buf + FcsBytes(buf)), AllBits(frame), i);
  }

  /** The generator polynomial as a string of seventeen bits. */
  const GENERATOR: seq<bool> := [true] + BitsOf(POLY, 16)

  /** Sixteen is the limit: a burst of seventeen bits with the pattern of the generator is
      never seen, wherever it falls and whatever it falls on. */
  lemma SeventeenBitsUndetected(c: bv16, u: seq<bool>, v: seq<bool>, i: nat, n: nat)
    requires |u| == |v| && Diff(u, v) == Falses(i) + (GENERATOR + Falses(n))
    ensures CrcBits(c, u) == CrcBits(c, v)
  {
    CollideIff(c, u, v);
    CrcAppend(0, Falses(i), GENERATOR + Falses(n));
    FalsesKeepZero(0, i);
    CrcAppend(0, GENERATOR, Falses(n));
    GeneratorLeavesZero();
    FalsesKeepZero(0, n);
  }

  lemma GeneratorLeavesZero()
    ensures CrcBits(0, GENERATOR) == 0
  {
    var w := BitsOf(POLY, 16);
    assert GENERATOR[0] && GENERATOR[1..] == w;
    assert BitStep(0, true) == POLY;
    assert CrcBits(0, GENERATOR) == CrcBits(POLY, w);
    WordFits(POLY);
    CrcOfValue(POLY, POLY, 16);
    assert Xor(POLY, POLY) == 0;
    ShiftZeros(16);
  }

  lemma {:induction false} ShiftZeros(n: nat)
    ensures ShiftN(0, n) == 0
    decreases n
  {
    if n > 0 {
      assert Shift1(0) == 0;
      ShiftZeros(n - 1);
    }
  }

  lemma {:induction false} FitsDouble(v: bv16, n: nat)
    requires Fits(Half(v), n)
    ensures Fits(v, n + 1)
  {
  }

  lemma HighFits(v: bv16)
    ensures Fits(v >> 8, 8)
  {
    hide Fits;
    ByteFits(Low(v >> 8));
    assert Wide(Low(v >> 8)) == v >> 8;
  }

  lemma WordFits(v: bv16)
    ensures Fits(v, 16)
  {
    hide Half, Fits;
    var v1 := Half(v);
    var v2 := Half(v1);
    var v3 := Half(v2);
    var v4 := Half(v3);
    var v5 := Half(v4);
    var v6 := Half(v5);
    var v7 := Half(v6);
    HighFits(v);
    HalfEightTimes(v);
    FitsDouble(v7, 8);
    FitsDouble(v6, 9);
    FitsDouble(v5, 10);
    FitsDouble(v4, 11);
    FitsDouble(v3, 12);
    FitsDouble(v2, 13);
    FitsDouble(v1, 14);
    FitsDouble(v, 15);
  }

  lemma HalfEightTimes(v: bv16)
    ensures Half(Half(Half(Half(Half(Half(Half(Half(v)))))))) == v >> 8
  {
  }

  // ------------------------------------------------------------- the published check value

  /** The text "123456789". */
  const CHECK: seq<Byte> := [0x31, 0x32, 0x33, 0x34, 0x35, 0x36, 0x37, 0x38, 0x39]

  lemma CheckStep(i: nat, c: bv16, d: bv16)
    requires i < |CHECK| && TableStep(c, CHECK[i]) == d
    ensures CrcBits(c, AllBits(CHECK[i..])) == CrcBits(d, AllBits(CHECK[i + 1..]))
  {
    hide TableStep, CrcBits, BitsOf;
    assert CHECK[i..][1..] == CHECK[i + 1..];
    TableStepIsBitSerial(c, CHECK[i]);
    CrcAppend(c, BitsOf(Wide(CHECK[i]), 8), AllBits(CHECK[i + 1..]));
  }

  lemma CheckEntry0()
    ensures TableStep(0xFFFF, 0x31) == 0x2F8D
  {}

  lemma CheckEntry1()
    ensures TableStep(0x2F8D, 0x32) == 0x4D53
  {}

  lemma CheckEntry2()
    ensures TableStep(0x4D53, 0x33) == 0x634B
  {}

  lemma CheckEntry3()
    ensures TableStep(0x634B, 0x34) == 0x8B13
  {}

  lemma CheckEntry4()
    ensures TableStep(0x8B13, 0x35) == 0x44BF
  {}

  lemma CheckEntry5()
    ensures TableStep(0x44BF, 0x36) == 0x198D
  {}

  lemma CheckEntry6()
    ensures TableStep(0x198D, 0x37) == 0x1AC8
  {}

  lemma CheckEntry7()
    ensures TableStep(0x1AC8, 0x38) == 0xF795
  {}

  lemma CheckEntry8()
    ensures TableStep(0xF795, 0x39) == 0x6F91
  {}

  /** The FCS of "123456789" is the check value under which this CRC is published. */
  lemma CheckValue()
    ensures Fcs(CHECK) == 0x906E
  {
    hide CrcBits, AllBits, TableStep;
    CheckEntry0();
    CheckEntry1();
    CheckEntry2();
    CheckEntry3();
    CheckEntry4();
    CheckEntry5();
    CheckEntry6();
    CheckEntry7();
    CheckEntry8();
    CheckStep(0, 0xFFFF, 0x2F8D);
    CheckStep(1, 0x2F8D, 0x4D53);
    CheckStep(2, 0x4D53, 0x634B);
    CheckStep(3, 0x634B, 0x8B13);
    CheckStep(4, 0x8B13, 0x44BF);
    CheckStep(5, 0x44BF, 0x198D);
    CheckStep(6, 0x198D, 0x1AC8);
    CheckStep(7, 0x1AC8, 0xF795);
    CheckStep(8, 0xF795, 0x6F91);
    assert CHECK[0..] == CHECK && CHECK[9..] == [];
    NoBits(0x6F91);
  }

  lemma NoBits(c: bv16)
    ensures CrcBits(c, AllBits([])) == c
  {}
}
