/** The MD5 digest as sections 3.1 to 3.5 of RFC 1321 define it: the reference that
    the incremental implementation is compared with. */
module Md5Spec {
  import opened LittleEndian

  /** The four-word MD buffer (A, B, C, D) of section 3.3. */
  datatype State = State(a: bv32, b: bv32, c: bv32, d: bv32)

  const INIT := State(0x67452301, 0xefcdab89, 0x98badcfe, 0x10325476)

  // ---------------------------------------------------------------- section 3.4

  function F(x: bv32, y: bv32, z: bv32): bv32 { (x & y) | (!x & z) }
  function G(x: bv32, y: bv32, z: bv32): bv32 { (x & z) | (y & !z) }
  function H(x: bv32, y: bv32, z: bv32): bv32 { x ^ y ^ z }
  function I(x: bv32, y: bv32, z: bv32): bv32 { y ^ (x | !z) }

  /** The auxiliary function of operation i, counting operations from 0 to 63. */
  function Aux(i: nat, x: bv32, y: bv32, z: bv32): bv32
    requires i < 64
  {
    if i < 16 then F(x, y, z)
    else if i < 32 then G(x, y, z)
    else if i < 48 then H(x, y, z)
    else I(x, y, z)
  }

  /** X <<< s, the circular left shift. */
  function Rotl(x: bv32, s: bv6): bv32
    requires 0 < s < 32
  {
    (x << s) | (x >> (32 - s))
  }

  /** Which message word operation i uses. */
  function K(i: nat): (k: nat)
    requires i < 64
    ensures k < 16
  {
    if i < 16 then i
    else if i < 32 then (5 * i + 1) % 16
    else if i < 48 then (3 * i + 5) % 16
    else 7 * i % 16
  }

  /** By how much operation i rotates. */
  function Shift(i: nat): (s: bv6)
    requires i < 64
    ensures 0 < s < 32
  {
    var j := i % 4;
    if i < 16 then (if j == 0 then 7 else if j == 1 then 12 else if j == 2 then 17 else 22)
    else if i < 32 then (if j == 0 then 5 else if j == 1 then 9 else if j == 2 then 14 else 20)
    else if i < 48 then (if j == 0 then 4 else if j == 1 then 11 else if j == 2 then 16 else 23)
    else (if j == 0 then 6 else if j == 1 then 10 else if j == 2 then 15 else 21)
  }

  /** The sine table T[i + 1] of the RFC, one function for each round. */
  function T(i: nat): bv32
    requires i < 64
  {
    if i < 16 then T1(i) else if i < 32 then T2(i - 16) else if i < 48 then T3(i - 32) else T4(i - 48)
  }

  function T1(j: nat): bv32
    requires j < 16
  {
    match j
    case 0 => 0xd76aa478
    case 1 => 0xe8c7b756
    case 2 => 0x242070db
    case 3 => 0xc1bdceee
    case 4 => 0xf57c0faf
    case 5 => 0x4787c62a
    case 6 => 0xa8304613
    case 7 => 0xfd469501
    case 8 => 0x698098d8
    case 9 => 0x8b44f7af
    case 10 => 0xffff5bb1
    case 11 => 0x895cd7be
    case 12 => 0x6b901122
    case 13 => 0xfd987193
    case 14 => 0xa679438e
    case _ => 0x49b40821
  }

  function T2(j: nat): bv32
    requires j < 16
  {
    match j
    case 0 => 0xf61e2562
    case 1 => 0xc040b340
    case 2 => 0x265e5a51
    case 3 => 0xe9b6c7aa
    case 4 => 0xd62f105d
    case 5 => 0x02441453
    case 6 => 0xd8a1e681
    case 7 => 0xe7d3fbc8
    case 8 => 0x21e1cde6
    case 9 => 0xc33707d6
    case 10 => 0xf4d50d87
    case 11 => 0x455a14ed
    case 12 => 0xa9e3e905
    case 13 => 0xfcefa3f8
    case 14 => 0x676f02d9
    case _ => 0x8d2a4c8a
  }

  function T3(j: nat): bv32
    requires j < 16
  {
    match j
    case 0 => 0xfffa3942
    case 1 => 0x8771f681
    case 2 => 0x6d9d6122
    case 3 => 0xfde5380c
    case 4 => 0xa4beea44
    case 5 => 0x4bdecfa9
    case 6 => 0xf6bb4b60
    case 7 => 0xbebfbc70
    case 8 => 0x289b7ec6
    case 9 => 0xeaa127fa
    case 10 => 0xd4ef3085
    case 11 => 0x04881d05
    case 12 => 0xd9d4d039
    case 13 => 0xe6db99e5
    case 14 => 0x1fa27cf8
    case _ => 0xc4ac5665
  }

  function T4(j: nat): bv32
    requires j < 16
  {
    match j
    case 0 => 0xf4292244
    case 1 => 0x432aff97
    case 2 => 0xab9423a7
    case 3 => 0xfc93a039
    case 4 => 0x655b59c3
    case 5 => 0x8f0ccc92
    case 6 => 0xffeff47d
    case 7 => 0x85845dd1
    case 8 => 0x6fa87e4f
    case 9 => 0xfe2ce6e0
    case 10 => 0xa3014314
    case 11 => 0x4e0811a1
    case 12 => 0xf7537e82
    case 13 => 0xbd3af235
    case 14 => 0x2ad7d2bb
    case _ => 0xeb86d391
  }

  /** a = b + ((a + f + X[k] + T[i]) <<< s) */
  function Op(f: bv32, a: bv32, b: bv32, x: bv32, t: bv32, s: bv6): bv32
    requires 0 < s < 32
  {
    b + Rotl(a + f + x + t, s)
  }

  /** One operation, after which the four words change places. */
  function Step(i: nat, st: State, x: seq<bv32>): State
    requires i < 64 && |x| == 16
  {
    State(st.d, Op(Aux(i, st.b, st.c, st.d), st.a, st.b, x[K(i)], T(i), Shift(i)), st.b, st.c)
  }

  /** Operations i to i + n - 1. */
  function Run(i: nat, n: nat, st: State, x: seq<bv32>): State
    requires i + n <= 64 && |x| == 16
    decreases |x|, n
  {
    if n == 0 then st else Run(i + 1, n - 1, Step(i, st, x), x)
  }

  function Plus(s: State, t: State): State {
    State(s.a + t.a, s.b + t.b, s.c + t.c, s.d + t.d)
  }

  /** Four bytes make a word, low-order byte first (section 2). */
  function Word(s: seq<Byte>): bv32
    requires |s| == 4
  {
    s[0] as bv32 | (s[1] as bv32 << 8) | (s[2] as bv32 << 16) | (s[3] as bv32 << 24)
  }

  function Words(block: seq<Byte>): (x: seq<bv32>)
    requires |block| == 64
    ensures |x| == 16
  {
    seq(16, k requires 0 <= k < 16 => Word(block[4 * k..4 * k + 4]))
  }

  function Block(st: State, block: seq<Byte>): State
    requires |block| == 64
  {
    Plus(Run(0, 64, st, Words(block)), st)
  }

  /** All the 64-byte blocks of s in turn. */
  function Fold(st: State, s: seq<Byte>): State
    requires |s| % 64 == 0
    decreases |s|
  {
    if s == [] then st else Fold(Block(st, s[..64]), s[64..])
  }

  // ------------------------------------------------------- sections 3.1, 3.2, 3.5

  /** The count low-order bytes of n, least significant first. */
  function LeBytes(n: nat, count: nat): (s: seq<Byte>)
    ensures |s| == count
    decreases count
  {
    if count == 0 then [] else [n % 256] + LeBytes(n / 256, count - 1)
  }

  function Zeros(n: nat): (s: seq<Byte>)
    ensures |s| == n
  {
    seq(n, _ => 0)
  }

  /** How many zero bytes follow the byte 0x80. */
  function PadZeros(n: nat): (z: nat)
    ensures z < 64
  {
    (55 - n) % 64
  }

  lemma PaddedLength(n: nat)
    ensures (n + 1 + PadZeros(n) + 8) % 64 == 0
  {
    assert n + 1 + (55 - n) % 64 + 8 == 64 * (1 - (55 - n) / 64);
  }

  /** A single 1 bit, then 0 bits up to 448 modulo 512, then the low 64 bits of the
      length in bits. */
  function Padded(msg: seq<Byte>): (s: seq<Byte>)
    ensures |s| % 64 == 0
  {
    PaddedLength(|msg|);
    msg + [0x80] + Zeros(PadZeros(|msg|)) + LeBytes(8 * |msg|, 8)
  }

  /** The low-order byte of a word. */
  function Low(w: bv32): Byte {
    (w & 0xff) as int
  }

  function WordBytes(w: bv32): (s: seq<Byte>)
    ensures |s| == 4
  {
    [Low(w), Low(w >> 8), Low(w >> 16), Low(w >> 24)]
  }

  function Output(st: State): (digest: seq<Byte>)
    ensures |digest| == 16
  {
    WordBytes(st.a) + WordBytes(st.b) + WordBytes(st.c) + WordBytes(st.d)
  }

  function Md5(msg: seq<Byte>): (digest: seq<Byte>)
    ensures |digest| == 16
  {
    Output(Fold(INIT, Padded(msg)))
  }

  // ---------------------------------------------------------------- about the fold

  lemma {:induction false} FoldAppend(st: State, s: seq<Byte>, t: seq<Byte>)
    requires |s| % 64 == 0 && |t| % 64 == 0
    ensures |s + t| % 64 == 0
    ensures Fold(st, s + t) == Fold(Fold(st, s), t)
    decreases |s|
  {
    hide Block;
    if s == [] {
      assert s + t == t;
    } else {
      assert (s + t)[..64] == s[..64] && (s + t)[64..] == s[64..] + t;
      FoldAppend(Block(st, s[..64]), s[64..], t);
    }
  }

  lemma {:induction false} RunSplit(i: nat, m: nat, n: nat, st: State, x: seq<bv32>)
    requires i + m + n <= 64 && |x| == 16
    ensures Run(i, m + n, st, x) == Run(i + m, n, Run(i, m, st, x), x)
    decreases m
  {
    hide Step;
    if m > 0 {
      RunSplit(i + 1, m - 1, n, Step(i, st, x), x);
    }
  }
}
