/** Bytes, and little-endian numbers in them. */
module LittleEndian {

  type Byte = x: int | 0 <= x < 256

  function Put16(n: nat): (s: seq<Byte>)
    ensures |s| == 2
  {
    [n % 256, n / 256 % 256]
  }

  function Put32(n: nat): (s: seq<Byte>)
    ensures |s| == 4
  {
    Put16(n) + Put16(n / 0x1_0000)
  }

  function Get16(s: seq<Byte>, at: nat): (n: nat)
    requires at + 2 <= |s|
    ensures n < 0x1_0000
  {
    var low: int, high: int := s[at], s[at + 1];
    low + 256 * high
  }

  function Get32(s: seq<Byte>, at: nat): (n: nat)
    requires at + 4 <= |s|
    ensures n < 0x1_0000_0000
  {
    Get16(s, at) + 0x1_0000 * Get16(s, at + 2)
  }

  /** The low-order byte comes first. */
  lemma LowByteFirst(n: nat)
    ensures Put16(n) == [n % 256, n / 0x100 % 256]
    ensures Put32(n) == [n % 256, n / 0x100 % 256, n / 0x1_0000 % 256, n / 0x100_0000 % 256]
  {
    assert n / 0x1_0000 / 256 == n / 0x100_0000;
  }

  lemma PutGet16(n: nat, s: seq<Byte>, at: nat)
    requires n < 0x1_0000 && at + 2 <= |s| && s[at..at + 2] == Put16(n)
    ensures Get16(s, at) == n
  {
    assert s[at] == s[at..at + 2][0] && s[at + 1] == s[at..at + 2][1];
  }

  lemma Put16Low(n: nat)
    ensures Put16(n) == Put16(n % 0x1_0000)
  {
    assert n % 0x1_0000 % 256 == n % 256;
    assert n % 0x1_0000 / 256 % 256 == n / 256 % 256;
  }

  lemma PutGet32(n: nat, s: seq<Byte>, at: nat)
    requires n < 0x1_0000_0000 && at + 4 <= |s| && s[at..at + 4] == Put32(n)
    ensures Get32(s, at) == n
  {
    hide Put16, Get16;
    Put16Low(n);
    assert s[at..at + 2] == s[at..at + 4][..2] == Put16(n);
    assert s[at + 2..at + 4] == s[at..at + 4][2..] == Put16(n / 0x1_0000);
    PutGet16(n % 0x1_0000, s, at);
    PutGet16(n / 0x1_0000, s, at + 2);
  }
}
