/** QMI requests as type-length-value lists: built in a fixed buffer, found again by GetTLV. */
module QmiTlv {
  import opened LittleEndian
  import opened Options
  import opened Sequences

  const BUFSIZE := 256          // WDM_DEFAULT_BUFSIZE
  const PREFIX := 13            // QCQMI_HDR, QCQMUX_HDR and QCQMUX_MSG_HDR
  const TLV_HDR := 3
  const BY_INDEX := 0x1000

  datatype Tlv = Tlv(kind: Byte, value: seq<Byte>)

  // ------------------------------------------------------------- encoding

  function EncodeOne(t: Tlv): (s: seq<Byte>)
    ensures |s| == TLV_HDR + |t.value|
  {
    [t.kind] + Put16(|t.value|) + t.value
  }

  function Encode(ts: seq<Tlv>): seq<Byte> {
    if ts == [] then [] else EncodeOne(ts[0]) + Encode(ts[1..])
  }

  lemma {:induction false} EncodeSnoc(ts: seq<Tlv>, t: Tlv)
    ensures Encode(ts + [t]) == Encode(ts) + EncodeOne(t)
    decreases |ts|
  {
    hide EncodeOne;
    if ts == [] {
      assert ts + [t] == [t];
      assert Encode([t]) == EncodeOne(t) + Encode([]);
    } else {
      assert (ts + [t])[1..] == ts[1..] + [t];
      EncodeSnoc(ts[1..], t);
    }
  }

  lemma {:induction false} EncodeSize(a: seq<Tlv>, b: seq<Tlv>)
    ensures |Encode(a + b)| == |Encode(a)| + |Encode(b)|
    decreases |a|
  {
    hide EncodeOne;
    if a == [] {
      assert a + b == b;
    } else {
      assert (a + b)[1..] == a[1..] + b;
      EncodeSize(a[1..], b);
    }
  }

  lemma EncodeSingle(t: Tlv)
    ensures |Encode([t])| == TLV_HDR + |t.value|
  {
    assert Encode([t]) == EncodeOne(t) + Encode([]);
  }

  /** A message with its three nested headers: the length of the whole less one, of the parts
      behind the QMUX header, and of each TLV. */
  function Message(qmiType: Byte, tid: nat, kind: nat, ts: seq<Tlv>): (s: seq<Byte>)
    ensures |s| == PREFIX + |Encode(ts)|
  {
    [0x01] + Put16(PREFIX + |Encode(ts)| - 1) + [0x00, qmiType, 0x00]
    + [0x00] + Put16(tid) + Put16(kind) + Put16(|Encode(ts)|) + Encode(ts)
  }

  // ------------------------------------------------------------- the intended lists

  /** The connection settings the builders read; the strings are NUL-terminated in the source. */
  datatype Profile = Profile(apn: Option<seq<Byte>>, user: Option<seq<Byte>>, password: Option<seq<Byte>>,
                             auth: Byte, ipFamily: Byte, ipType: Byte, index: Byte)

  const CDMA_USER: seq<Byte> := [99, 116, 110, 101, 116, 64, 109, 121, 99, 100, 109, 97, 46, 99, 110]
  const CDMA_PASSWORD: seq<Byte> := [118, 110, 101, 116, 46, 109, 111, 98, 105]

  predicate Blank(s: Option<seq<Byte>>) { s.None? || s.value == [] }

  /** A CDMA profile without credentials gets the operator's. */
  function Credentials(p: Profile, cdma: bool): Profile {
    if cdma && Blank(p.user) && Blank(p.password) then
      p.(user := Some(CDMA_USER), password := Some(CDMA_PASSWORD), auth := 2)
    else p
  }

  function Text(kind: Byte, s: Option<seq<Byte>>): seq<Tlv> {
    if s.Some? then [Tlv(kind, s.value)] else []
  }

  function Auth(kind: Byte, p: Profile): seq<Tlv> {
    if p.user.Some? && p.password.Some? then [Tlv(kind, [p.auth])] else []
  }

  function StartTlvs(profile: Profile, cdma: bool): seq<Tlv> {
    var p := Credentials(profile, cdma);
    [Tlv(0x30, [if cdma then 2 else 1])]
    + (if cdma then [] else Text(0x14, p.apn))
    + Text(0x17, p.user)
    + Text(0x18, p.password)
    + Auth(0x16, p)
    + [Tlv(0x19, [p.ipFamily])]
    + (if p.index != 0 && !cdma then [Tlv(0x31, [p.index])] else [])
  }

  function ModifyTlvs(p: Profile): seq<Tlv> {
    [Tlv(0x01, [0x00, p.index])]
    + [Tlv(0x11, [p.ipType])]
    + Text(0x14, p.apn)
    + Text(0x1B, p.user)
    + Text(0x1C, p.password)
    + Auth(0x1D, p)
  }

  function TextSize(s: Option<seq<Byte>>): nat {
    if s.Some? then TLV_HDR + |s.value| else 0
  }

  function AuthSize(p: Profile): nat {
    if p.user.Some? && p.password.Some? then TLV_HDR + 1 else 0
  }

  lemma TextEncodes(kind: Byte, s: Option<seq<Byte>>)
    ensures |Encode(Text(kind, s))| == TextSize(s)
  {
    hide Encode;
    if s.Some? {
      EncodeSingle(Tlv(kind, s.value));
    } else {
      EncodeNothing();
    }
  }

  lemma EncodeNothing()
    ensures Encode([]) == []
  {}

  lemma AuthEncodes(kind: Byte, p: Profile)
    ensures |Encode(Auth(kind, p))| == AuthSize(p)
  {
    hide Encode;
    EncodeSingle(Tlv(kind, [p.auth]));
    EncodeNothing();
  }

  lemma StartEncodes(profile: Profile, cdma: bool)
    ensures
      var p := Credentials(profile, cdma);
      |Encode(StartTlvs(profile, cdma))| ==
        4 + (if cdma then 0 else TextSize(p.apn)) + TextSize(p.user) + TextSize(p.password) + AuthSize(p)
        + 4 + (if p.index != 0 && !cdma then 4 else 0)
  {
    hide Encode, Text, Auth, Credentials, TextSize, AuthSize;
    var p := Credentials(profile, cdma);
    var a := [Tlv(0x30, [if cdma then 2 else 1])];
    var b := if cdma then [] else Text(0x14, p.apn);
    var c, d, e := Text(0x17, p.user), Text(0x18, p.password), Auth(0x16, p);
    var f := [Tlv(0x19, [p.ipFamily])];
    var g := if p.index != 0 && !cdma then [Tlv(0x31, [p.index])] else [];
    EncodeSize(a, b);
    EncodeSize(a + b, c);
    EncodeSize(a + b + c, d);
    EncodeSize(a + b + c + d, e);
    EncodeSize(a + b + c + d + e, f);
    EncodeSize(a + b + c + d + e + f, g);
    EncodeSingle(a[0]);
    EncodeSingle(f[0]);
    EncodeSingle(Tlv(0x31, [p.index]));
    EncodeNothing();
    TextEncodes(0x14, p.apn);
    TextEncodes(0x17, p.user);
    TextEncodes(0x18, p.password);
    AuthEncodes(0x16, p);
  }

  lemma ModifyEncodes(p: Profile)
    ensures |Encode(ModifyTlvs(p))| ==
      5 + 4 + TextSize(p.apn) + TextSize(p.user) + TextSize(p.password) + AuthSize(p)
  {
    hide Encode, Text, Auth, TextSize, AuthSize;
    var a, b := [Tlv(0x01, [0x00, p.index])], [Tlv(0x11, [p.ipType])];
    var c, d, e, f := Text(0x14, p.apn), Text(0x1B, p.user), Text(0x1C, p.password), Auth(0x1D, p);
    EncodeSize(a, b);
    EncodeSize(a + b, c);
    EncodeSize(a + b + c, d);
    EncodeSize(a + b + c + d, e);
    EncodeSize(a + b + c + d + e, f);
    EncodeSingle(a[0]);
    EncodeSingle(b[0]);
    TextEncodes(0x14, p.apn);
    TextEncodes(0x1B, p.user);
    TextEncodes(0x1C, p.password);
    AuthEncodes(0x1D, p);
  }

  /** A string at the very end needs one more byte for its NUL. */
  function Spill(p: Profile): nat {
    if (p.user.Some? && p.password.Some?) || (p.apn.None? && p.user.None? && p.password.None?) then 0 else 1
  }

  // ------------------------------------------------------------- building

  /** The message buffer on the stack and the TLVLength of the builder under way. */
  class Builder {
    const buf: array<Byte>
    var length: nat
    ghost var tlvs: seq<Tlv>

    ghost predicate Valid()
      reads this, buf
    {
      && buf.Length == BUFSIZE && PREFIX + length <= BUFSIZE
      && buf[PREFIX..PREFIX + length] == Encode(tlvs)
    }

    constructor ()
      ensures Valid() && length == 0 && tlvs == [] && fresh(buf)
    {
      buf := new Byte[BUFSIZE](_ => 0);
      length, tlvs := 0, [];
    }

    /** The type and the length of the TLV at the end. */
    method PutHeader(kind: Byte, n: nat)
      requires Valid() && PREFIX + length + TLV_HDR <= BUFSIZE
      modifies buf
      ensures Valid() && buf[PREFIX + length..PREFIX + length + TLV_HDR] == [kind] + Put16(n)
    {
      var at := PREFIX + length;
      ghost var before := buf[PREFIX..at];
      buf[at] := kind;
      buf[at + 1] := n % 256;
      buf[at + 2] := n / 256 % 256;
      assert buf[PREFIX..at] == before;
    }

    /** qstrcpy of a string to a position, with its NUL. */
    method CopyString(at: nat, s: seq<Byte>)
      requires at + |s| < buf.Length
      modifies buf
      ensures buf[at..at + |s|] == s && buf[at + |s|] == 0
      ensures forall i :: 0 <= i < at || at + |s| < i < buf.Length ==> buf[i] == old(buf[i])
    {
      for k := 0 to |s|
        invariant forall i :: 0 <= i < k ==> buf[at + i] == s[i]
        invariant forall i :: 0 <= i < at || at + k <= i < buf.Length ==> buf[i] == old(buf[i])
      {
        buf[at + k] := s[k];
      }
      buf[at + |s|] := 0;
    }

    ghost method Commit(kind: Byte, value: seq<Byte>, n: nat)
      requires buf.Length == BUFSIZE && n <= length <= BUFSIZE - PREFIX && length == n + TLV_HDR + |value|
      requires buf[PREFIX..PREFIX + n] == Encode(tlvs)
      requires buf[PREFIX + n..PREFIX + n + TLV_HDR] == [kind] + Put16(|value|)
      requires buf[PREFIX + n + TLV_HDR..PREFIX + length] == value
      modifies this`tlvs
      ensures Valid() && tlvs == old(tlvs) + [Tlv(kind, value)]
    {
      hide Encode, Put16;
      EncodeSnoc(tlvs, Tlv(kind, value));
      var s := buf[..];
      assert s[PREFIX..PREFIX + length] == buf[PREFIX..PREFIX + length];
      assert s[PREFIX..PREFIX + n] == buf[PREFIX..PREFIX + n];
      assert s[PREFIX + n..PREFIX + n + TLV_HDR] == buf[PREFIX + n..PREFIX + n + TLV_HDR];
      assert s[PREFIX + n + TLV_HDR..PREFIX + length] == buf[PREFIX + n + TLV_HDR..PREFIX + length];
      ThreeSlices(s, PREFIX, PREFIX + n, PREFIX + n + TLV_HDR, PREFIX + length);
      SeqAssoc(Encode(tlvs), [kind] + Put16(|value|), value);
      tlvs := tlvs + [Tlv(kind, value)];
    }

    /** A TLV with one byte. */
    method PutByte(kind: Byte, value: Byte)
      requires Valid() && PREFIX + length + TLV_HDR + 1 <= BUFSIZE
      modifies this`length, this`tlvs, buf
      ensures Valid() && tlvs == old(tlvs) + [Tlv(kind, [value])] && length == old(length) + TLV_HDR + 1
    {
      hide Encode, Put16;
      PutHeader(kind, 1);
      var at := PREFIX + length + TLV_HDR;
      ghost var front, head := buf[PREFIX..PREFIX + length], buf[PREFIX + length..at];
      buf[at] := value;
      assert buf[PREFIX..PREFIX + length] == front && buf[PREFIX + length..at] == head;
      length := length + TLV_HDR + 1;
      Commit(kind, [value], length - TLV_HDR - 1);
    }

    /** A TLV with a string. The NUL behind it is left for the next TLV to write over. */
    method PutString(kind: Byte, s: seq<Byte>)
      requires Valid() && PREFIX + length + TLV_HDR + |s| < BUFSIZE
      modifies this`length, this`tlvs, buf
      ensures Valid() && tlvs == old(tlvs) + [Tlv(kind, s)] && length == old(length) + TLV_HDR + |s|
    {
      hide Encode, Put16;
      PutHeader(kind, |s|);
      var at := PREFIX + length + TLV_HDR;
      ghost var front, head := buf[PREFIX..PREFIX + length], buf[PREFIX + length..at];
      CopyString(at, s);
      assert buf[PREFIX..PREFIX + length] == front && buf[PREFIX + length..at] == head;
      length := length + TLV_HDR + |s|;
      Commit(kind, s, length - TLV_HDR - |s|);
    }

    method PutText(kind: Byte, s: Option<seq<Byte>>)
      requires Valid() && (s.Some? ==> PREFIX + length + TLV_HDR + |s.value| < BUFSIZE)
      modifies this`length, this`tlvs, buf
      ensures Valid() && tlvs == old(tlvs) + Text(kind, s) && length == old(length) + TextSize(s)
    {
      hide Encode;
      if s.Some? {
        PutString(kind, s.value);
      } else {
        assert tlvs + [] == tlvs;
      }
    }

    method PutAuth(kind: Byte, p: Profile)
      requires Valid() && PREFIX + length + AuthSize(p) <= BUFSIZE
      modifies this`length, this`tlvs, buf
      ensures Valid() && tlvs == old(tlvs) + Auth(kind, p) && length == old(length) + AuthSize(p)
    {
      hide Encode;
      if p.user.Some? && p.password.Some? {
        PutByte(kind, p.auth);
      } else {
        assert tlvs + [] == tlvs;
      }
    }

    /** The fixed part of a modify-profile request is a TLV of two bytes. */
    method PutProfile(index: Byte)
      requires Valid() && length == 0 && tlvs == []
      modifies this`length, this`tlvs, buf
      ensures Valid() && tlvs == [Tlv(0x01, [0x00, index])] && length == 5
    {
      hide Encode, Put16;
      PutHeader(0x01, 2);
      ghost var front, head := buf[PREFIX..PREFIX], buf[PREFIX..PREFIX + TLV_HDR];
      buf[PREFIX + TLV_HDR] := 0x00;
      buf[PREFIX + TLV_HDR + 1] := index;
      assert buf[PREFIX..PREFIX] == front && buf[PREFIX..PREFIX + TLV_HDR] == head;
      length := 5;
      Commit(0x01, [0x00, index], 0);
    }

    /** WdsStartNwInterfaceReq */
    method StartNwInterface(profile: Profile, cdma: bool)
      requires Valid() && length == 0 && tlvs == []
      requires PREFIX + |Encode(StartTlvs(profile, cdma))| <= BUFSIZE
      modifies this`length, this`tlvs, buf
      ensures Valid() && tlvs == StartTlvs(profile, cdma)
    {
      StartEncodes(profile, cdma);
      var p := Credentials(profile, cdma);
      hide Encode, Text, Auth, Credentials, Valid;
      PutByte(0x30, if cdma then 2 else 1);
      ghost var a := [Tlv(0x30, [if cdma then 2 else 1])];
      assert tlvs == a;
      if !cdma {
        PutText(0x14, p.apn);
      }
      ghost var b := if cdma then [] else Text(0x14, p.apn);
      assert tlvs == a + b;
      PutText(0x17, p.user);
      PutText(0x18, p.password);
      PutAuth(0x16, p);
      PutByte(0x19, p.ipFamily);
      if p.index != 0 && !cdma {
        PutByte(0x31, p.index);
      }
    }

    /** WdsModifyProfileSettingsReq */
    method ModifyProfileSettings(p: Profile)
      requires Valid() && length == 0 && tlvs == []
      requires PREFIX + |Encode(ModifyTlvs(p))| + Spill(p) <= BUFSIZE
      modifies this`length, this`tlvs, buf
      ensures Valid() && tlvs == ModifyTlvs(p)
    {
      ModifyEncodes(p);
      hide Encode, Text, Auth, Valid;
      PutProfile(p.index);
      PutByte(0x11, p.ipType);
      PutText(0x14, p.apn);
      PutText(0x1B, p.user);
      PutText(0x1C, p.password);
      PutAuth(0x1D, p);
    }

    /** The rest of ComposeQMUXMsg: the nested headers, and the copy of as many bytes as they say. */
    method Compose(qmiType: Byte, tid: nat, kind: nat) returns (msg: seq<Byte>)
      requires Valid()
      modifies buf
      ensures msg == Message(qmiType, tid, kind, tlvs)
    {
      hide Encode, Put16;
      ghost var body := buf[PREFIX..PREFIX + length];
      Outer(qmiType, tid);
      Put2(9, kind);
      Put2(11, length);
      msg := buf[..PREFIX + length];
      HeaderParts(msg);
      assert msg[PREFIX..] == body;
    }

    /** The QMI and the QMUX header. */
    method Outer(qmiType: Byte, tid: nat)
      requires buf.Length == BUFSIZE && PREFIX + length <= BUFSIZE
      modifies buf
      ensures forall i :: 9 <= i < buf.Length ==> buf[i] == old(buf[i])
      ensures buf[0] == 0x01 && buf[3] == 0x00 && buf[4] == qmiType && buf[5] == 0x00 && buf[6] == 0x00
      ensures [buf[1], buf[2]] == Put16(PREFIX + length - 1) && [buf[7], buf[8]] == Put16(tid)
    {
      hide Put16;
      buf[0] := 0x01;
      Put2(1, PREFIX + length - 1);
      buf[3], buf[4], buf[5] := 0x00, qmiType, 0x00;
      buf[6] := 0x00;
      Put2(7, tid);
    }

    method Put2(at: nat, n: nat)
      requires buf.Length == BUFSIZE && at + 2 <= PREFIX
      modifies buf
      ensures buf[at..at + 2] == Put16(n)
      ensures forall i :: 0 <= i < buf.Length && i != at && i != at + 1 ==> buf[i] == old(buf[i])
      ensures buf[at] == Put16(n)[0] && buf[at + 1] == Put16(n)[1]
    {
      buf[at] := n % 256;
      buf[at + 1] := n / 256 % 256;
    }
  }

  lemma HeaderParts(m: seq<Byte>)
    requires |m| >= PREFIX
    ensures m == [m[0]] + [m[1], m[2]] + [m[3], m[4], m[5]] + [m[6]] + [m[7], m[8]] + [m[9], m[10]]
      + [m[11], m[12]] + m[PREFIX..]
  {}

  // ------------------------------------------------------------- finding

  predicate Holds(msg: seq<Byte>, ts: seq<Tlv>) {
    && |msg| >= PREFIX && msg[PREFIX..] == Encode(ts) && Get16(msg, 11) == |Encode(ts)|
    && forall t <- ts :: |t.value| < 0x1_0000
  }

  /** The TLV whose header is at a position. */
  function TlvAt(msg: seq<Byte>, at: nat): Tlv
    requires at + TLV_HDR <= |msg| && at + TLV_HDR + Get16(msg, at + 1) <= |msg|
  {
    Tlv(msg[at], msg[at + TLV_HDR..at + TLV_HDR + Get16(msg, at + 1)])
  }

  function FirstOf(ts: seq<Tlv>, kind: int): (r: Option<Tlv>)
    ensures r.Some? ==> r.value in ts && r.value.kind == kind
    ensures r.None? ==> forall t <- ts :: t.kind != kind
  {
    if ts == [] then None else if ts[0].kind == kind then Some(ts[0]) else FirstOf(ts[1..], kind)
  }

  /** By index from 0x1001 on, or the first of a type. */
  function Lookup(ts: seq<Tlv>, want: nat): Option<Tlv> {
    if want > BY_INDEX then
      (if want - BY_INDEX <= |ts| then Some(ts[want - BY_INDEX - 1]) else None)
    else FirstOf(ts, want)
  }

  /** The k-th TLV is asked for as 0x1000 + k; any smaller number is a type, of which the first is found. */
  lemma {:induction false} LookupMeans(ts: seq<Tlv>, want: nat, k: nat)
    requires 0 < k
    ensures Lookup(ts, 0x1000 + k) == if k <= |ts| then Some(ts[k - 1]) else None
    ensures want <= 0x1000 && k <= |ts| && ts[k - 1].kind == want && (forall j :: 0 <= j < k - 1 ==> ts[j].kind != want) ==>
        Lookup(ts, want) == Some(ts[k - 1])
    ensures want <= 0x1000 && (forall t <- ts :: t.kind != want) ==> Lookup(ts, want) == None
    decreases k
  {
    if k > 1 && ts != [] {
      LookupMeans(ts[1..], want, k - 1);
    }
  }

  lemma Parts(r: seq<Byte>, k: Byte, h: seq<Byte>, v: seq<Byte>, w: seq<Byte>)
    requires r == [k] + h + v + w && |h| == 2
    ensures |r| == TLV_HDR + |v| + |w| && r[0] == k && r[1..3] == h
    ensures r[TLV_HDR..TLV_HDR + |v|] == v && r[TLV_HDR + |v|..] == w
  {}

  /** Positions in a message, seen from one of them. */
  lemma From(msg: seq<Byte>, at: nat, n: nat)
    requires at + TLV_HDR + n <= |msg|
    ensures msg[at] == msg[at..][0] && msg[at + 1..at + 3] == msg[at..][1..3]
    ensures msg[at + TLV_HDR..at + TLV_HDR + n] == msg[at..][TLV_HDR..TLV_HDR + n]
    ensures msg[at + TLV_HDR + n..] == msg[at..][TLV_HDR + n..]
  {}

  lemma FirstTlv(msg: seq<Byte>, at: nat, ts: seq<Tlv>)
    requires at <= |msg| && msg[at..] == Encode(ts) && ts != [] && |ts[0].value| < 0x1_0000
    ensures at + TLV_HDR + |ts[0].value| <= |msg| && Get16(msg, at + 1) == |ts[0].value|
    ensures TlvAt(msg, at) == ts[0]
    ensures msg[at + TLV_HDR + |ts[0].value|..] == Encode(ts[1..])
    ensures |Encode(ts)| == TLV_HDR + |ts[0].value| + |Encode(ts[1..])|
  {
    hide Encode, Put16, Get16;
    var t := ts[0];
    EncodeFirst(ts);
    Parts(msg[at..], t.kind, Put16(|t.value|), t.value, Encode(ts[1..]));
    From(msg, at, |t.value|);
    PutGet16(|t.value|, msg, at + 1);
  }

  lemma EncodeFirst(ts: seq<Tlv>)
    requires ts != []
    ensures Encode(ts) == [ts[0].kind] + Put16(|ts[0].value|) + ts[0].value + Encode(ts[1..])
  {
    hide Put16;
  }

  lemma EncodeLong(ts: seq<Tlv>)
    ensures |Encode(ts)| < TLV_HDR ==> ts == []
    ensures ts == [] ==> |Encode(ts)| == 0
  {}

  lemma LookupStep(ts: seq<Tlv>, k: nat, want: nat)
    requires k < |ts|
    ensures want <= BY_INDEX ==>
      FirstOf(ts[k..], want) == if ts[k].kind == want then Some(ts[k]) else FirstOf(ts[k + 1..], want)
  {
    assert ts[k..][1..] == ts[k + 1..];
  }

  /** GetTLV; the position of the header for a pointer, None for NULL. */
  method GetTlv(msg: seq<Byte>, want: nat, ghost ts: seq<Tlv>) returns (at: Option<nat>)
    requires Holds(msg, ts)
    ensures at.Some? == Lookup(ts, want).Some?
    ensures at.Some? ==>
      && at.value + TLV_HDR <= |msg| && at.value + TLV_HDR + Get16(msg, at.value + 1) <= |msg|
      && Some(TlvAt(msg, at.value)) == Lookup(ts, want)
  {
    hide Encode, Get16, TlvAt;
    var found: nat := 0;
    var length: nat := Get16(msg, 11);
    var pos: nat := PREFIX;
    assert ts[0..] == ts;
    while length >= TLV_HDR
      invariant found <= |ts| && pos <= |msg| && msg[pos..] == Encode(ts[found..]) && length == |Encode(ts[found..])|
      invariant want > BY_INDEX ==> found + BY_INDEX < want
      invariant want <= BY_INDEX ==> FirstOf(ts, want) == FirstOf(ts[found..], want)
      decreases length
    {
      EncodeLong(ts[found..]);
      assert ts[found..] != [];
      assert ts[found] in ts && ts[found..][0] == ts[found] && ts[found..][1..] == ts[found + 1..];
      FirstTlv(msg, pos, ts[found..]);
      LookupStep(ts, found, want);
      KindAt(msg, pos);
      found := found + 1;
      if want > BY_INDEX {
        if found + BY_INDEX == want { return Some(pos); }
      } else if msg[pos] == want {
        return Some(pos);
      }
      length := length - (Get16(msg, pos + 1) + TLV_HDR);
      pos := pos + Get16(msg, pos + 1) + TLV_HDR;
    }
    EncodeLong(ts[found..]);
    at := None;
  }

  lemma KindAt(msg: seq<Byte>, at: nat)
    requires at + TLV_HDR <= |msg| && at + TLV_HDR + Get16(msg, at + 1) <= |msg|
    ensures TlvAt(msg, at).kind == msg[at]
  {}

  /** All TLVs by index, until GetTLV gives NULL. */
  method Enumerate(msg: seq<Byte>, ghost ts: seq<Tlv>) returns (list: seq<Tlv>)
    requires Holds(msg, ts)
    ensures list == ts
  {
    hide Holds, Get16, TlvAt;
    list := [];
    while true
      invariant list <= ts
      decreases |ts| - |list|
    {
      var at := GetTlv(msg, BY_INDEX + 1 + |list|, ts);
      if at == None { break; }
      list := list + [TlvAt(msg, at.value)];
    }
  }

  // ------------------------------------------------------------- round trips

  lemma {:induction false} ShortValues(ts: seq<Tlv>)
    requires |Encode(ts)| < 0x1_0000
    ensures forall t <- ts :: |t.value| < 0x1_0000
    decreases |ts|
  {
    if ts != [] {
      ShortValues(ts[1..]);
    }
  }

  lemma MessageHolds(qmiType: Byte, tid: nat, kind: nat, ts: seq<Tlv>)
    requires PREFIX + |Encode(ts)| <= BUFSIZE
    ensures Holds(Message(qmiType, tid, kind, ts), ts)
    ensures Get16(Message(qmiType, tid, kind, ts), 1) + 1 == PREFIX + |Encode(ts)|
  {
    ShortValues(ts);
    var msg := Message(qmiType, tid, kind, ts);
    hide Encode, Put16, Get16;
    assert msg[PREFIX..] == Encode(ts);
    assert msg[11..13] == Put16(|Encode(ts)|);
    PutGet16(|Encode(ts)|, msg, 11);
    assert msg[1..3] == Put16(PREFIX + |Encode(ts)| - 1);
    PutGet16(PREFIX + |Encode(ts)| - 1, msg, 1);
  }

  /** A start-network request built and read back gives the intended TLVs. */
  method StartRoundTrip(profile: Profile, cdma: bool, tid: nat) returns (msg: seq<Byte>, list: seq<Tlv>)
    requires PREFIX + |Encode(StartTlvs(profile, cdma))| <= BUFSIZE
    ensures list == StartTlvs(profile, cdma)
    ensures msg == Message(0x01, tid, 0x0020, StartTlvs(profile, cdma))
  {
    hide Encode, StartTlvs, Message, Holds;
    var b := new Builder();
    b.StartNwInterface(profile, cdma);
    msg := b.Compose(0x01, tid, 0x0020);
    MessageHolds(0x01, tid, 0x0020, StartTlvs(profile, cdma));
    list := Enumerate(msg, StartTlvs(profile, cdma));
  }

  /** The same for a modify-profile request. */
  method ModifyRoundTrip(profile: Profile, tid: nat) returns (msg: seq<Byte>, list: seq<Tlv>)
    requires PREFIX + |Encode(ModifyTlvs(profile))| + Spill(profile) <= BUFSIZE
    ensures list == ModifyTlvs(profile)
    ensures msg == Message(0x01, tid, 0x0028, ModifyTlvs(profile))
  {
    hide Encode, ModifyTlvs, Message, Holds;
    var b := new Builder();
    b.ModifyProfileSettings(profile);
    msg := b.Compose(0x01, tid, 0x0028);
    MessageHolds(0x01, tid, 0x0028, ModifyTlvs(profile));
    list := Enumerate(msg, ModifyTlvs(profile));
  }

  // ------------------------------------------------------------- what the device reads

  /** The value of the first TLV of a type. */
  function ValueOf(ts: seq<Tlv>, kind: int): (v: Option<seq<Byte>>)
    ensures v.Some? ==> exists t <- ts :: t.kind == kind && t.value == v.value
    ensures v.None? <==> forall t <- ts :: t.kind != kind
  {
    var r := FirstOf(ts, kind);
    if r.Some? then Some(r.value.value) else None
  }

  lemma {:induction false} ValueAppend(a: seq<Tlv>, b: seq<Tlv>, kind: int)
    ensures ValueOf(a + b, kind) == if ValueOf(a, kind).Some? then ValueOf(a, kind) else ValueOf(b, kind)
    decreases |a|
  {
    if a == [] {
      assert a + b == b;
    } else {
      assert (a + b)[1..] == a[1..] + b;
      ValueAppend(a[1..], b, kind);
    }
  }

  lemma ValueSingle(t: Tlv, kind: int)
    ensures ValueOf([t], kind) == if t.kind == kind then Some(t.value) else None
  {}

  lemma ValueNone(kind: int)
    ensures ValueOf([], kind) == None
  {}

  lemma ValueText(k: Byte, s: Option<seq<Byte>>, kind: int)
    ensures ValueOf(Text(k, s), kind) == if k == kind then s else None
  {}

  lemma ValueAuth(k: Byte, p: Profile, kind: int)
    ensures ValueOf(Auth(k, p), kind) == if k == kind && p.user.Some? && p.password.Some? then Some([p.auth]) else None
  {}

  function Ascii(s: string): seq<int> { seq(|s|, i requires 0 <= i < |s| => s[i] as int) }

  /** A CDMA profile without a user and a password. */
  predicate Operators(p: Profile, cdma: bool) {
    cdma && (p.user.None? || p.user == Some([])) && (p.password.None? || p.password == Some([]))
  }

  lemma OperatorTexts()
    ensures CDMA_USER == Ascii("ctnet@mycdma.cn") && CDMA_PASSWORD == Ascii("vnet.mobi")
  {}

  /** What a start request says, type by type. */
  lemma StartValues(p: Profile, cdma: bool, kind: int)
    ensures
      var ts, op := StartTlvs(p, cdma), Operators(p, cdma);
      ValueOf(ts, kind) ==
        match kind
        case 0x30 => Some([if cdma then 2 else 1])
        case 0x14 => if cdma then None else p.apn
        case 0x17 => if op then Some(CDMA_USER) else p.user
        case 0x18 => if op then Some(CDMA_PASSWORD) else p.password
        case 0x16 => if op then Some([2]) else if p.user.Some? && p.password.Some? then Some([p.auth]) else None
        case 0x19 => Some([p.ipFamily])
        case 0x31 => if p.index != 0 && !cdma then Some([p.index]) else None
        case _ => None
  {
    hide ValueOf, Text, Auth;
    var q := Credentials(p, cdma);
    var a, b := [Tlv(0x30, [if cdma then 2 else 1])], if cdma then [] else Text(0x14, q.apn);
    var c, d, e := Text(0x17, q.user), Text(0x18, q.password), Auth(0x16, q);
    var f, g := [Tlv(0x19, [q.ipFamily])], if q.index != 0 && !cdma then [Tlv(0x31, [q.index])] else [];
    ValueAppend(a + b + c + d + e + f, g, kind);
    ValueAppend(a + b + c + d + e, f, kind);
    ValueAppend(a + b + c + d, e, kind);
    ValueAppend(a + b + c, d, kind);
    ValueAppend(a + b, c, kind);
    ValueAppend(a, b, kind);
    ValueSingle(a[0], kind);
    ValueSingle(f[0], kind);
    ValueSingle(Tlv(0x31, [q.index]), kind);
    ValueNone(kind);
    ValueText(0x14, q.apn, kind);
    ValueText(0x17, q.user, kind);
    ValueText(0x18, q.password, kind);
    ValueAuth(0x16, q, kind);
  }

  /** What a modify request says, type by type. */
  lemma ModifyValues(p: Profile, kind: int)
    ensures
      ValueOf(ModifyTlvs(p), kind) ==
        match kind
        case 0x01 => Some([0x00, p.index])
        case 0x11 => Some([p.ipType])
        case 0x14 => p.apn
        case 0x1B => p.user
        case 0x1C => p.password
        case 0x1D => if p.user.Some? && p.password.Some? then Some([p.auth]) else None
        case _ => None
  {
    hide ValueOf, Text, Auth;
    var a, b := [Tlv(0x01, [0x00, p.index])], [Tlv(0x11, [p.ipType])];
    var c, d, e, f := Text(0x14, p.apn), Text(0x1B, p.user), Text(0x1C, p.password), Auth(0x1D, p);
    ValueAppend(a + b + c + d + e, f, kind);
    ValueAppend(a + b + c + d, e, kind);
    ValueAppend(a + b + c, d, kind);
    ValueAppend(a + b, c, kind);
    ValueAppend(a, b, kind);
    ValueSingle(a[0], kind);
    ValueSingle(b[0], kind);
    ValueText(0x14, p.apn, kind);
    ValueText(0x1B, p.user, kind);
    ValueText(0x1C, p.password, kind);
    ValueAuth(0x1D, p, kind);
  }

  /** GetTLV by type, and the value behind the header it points at. */
  method ReadValue(msg: seq<Byte>, kind: nat, ghost ts: seq<Tlv>) returns (value: Option<seq<Byte>>)
    requires Holds(msg, ts) && kind <= 0x1000
    ensures value == ValueOf(ts, kind)
  {
    hide Holds, Get16;
    var at := GetTlv(msg, kind, ts);
    if at == None { return None; }
    value := Some(msg[at.value + 3..at.value + 3 + Get16(msg, at.value + 1)]);
  }

  /** A start-network request composed and searched by type. */
  method StartLookup(p: Profile, cdma: bool, tid: nat, kind: nat) returns (value: Option<seq<Byte>>)
    requires PREFIX + |Encode(StartTlvs(p, cdma))| <= BUFSIZE && kind <= 0x1000
    ensures kind == 0x30 ==> value == Some([if cdma then 2 else 1])
    ensures kind == 0x14 ==> value == if cdma then None else p.apn
    ensures kind == 0x17 ==> value == if Operators(p, cdma) then Some(Ascii("ctnet@mycdma.cn")) else p.user
    ensures kind == 0x18 ==> value == if Operators(p, cdma) then Some(Ascii("vnet.mobi")) else p.password
    ensures kind == 0x16 ==>
      value == if Operators(p, cdma) then Some([2]) else if p.user.Some? && p.password.Some? then Some([p.auth]) else None
    ensures kind == 0x19 ==> value == Some([p.ipFamily])
    ensures kind == 0x31 ==> value == if p.index != 0 && !cdma then Some([p.index]) else None
    ensures kind !in {0x30, 0x14, 0x17, 0x18, 0x16, 0x19, 0x31} ==> value == None
  {
    hide Encode, StartTlvs, Message, Holds, Operators, Ascii;
    var msg, _ := StartRoundTrip(p, cdma, tid);
    MessageHolds(0x01, tid, 0x0020, StartTlvs(p, cdma));
    value := ReadValue(msg, kind, StartTlvs(p, cdma));
    StartValues(p, cdma, kind);
    OperatorTexts();
  }

  /** The same for a modify-profile request. */
  method ModifyLookup(p: Profile, tid: nat, kind: nat) returns (value: Option<seq<Byte>>)
    requires PREFIX + |Encode(ModifyTlvs(p))| + Spill(p) <= BUFSIZE && kind <= 0x1000
    ensures kind == 0x01 ==> value == Some([0x00, p.index])
    ensures kind == 0x11 ==> value == Some([p.ipType])
    ensures kind == 0x14 ==> value == p.apn
    ensures kind == 0x1B ==> value == p.user
    ensures kind == 0x1C ==> value == p.password
    ensures kind == 0x1D ==> value == if p.user.Some? && p.password.Some? then Some([p.auth]) else None
    ensures kind !in {0x01, 0x11, 0x14, 0x1B, 0x1C, 0x1D} ==> value == None
  {
    hide Encode, ModifyTlvs, Message, Holds;
    var msg, _ := ModifyRoundTrip(p, tid);
    MessageHolds(0x01, tid, 0x0028, ModifyTlvs(p));
    value := ReadValue(msg, kind, ModifyTlvs(p));
    ModifyValues(p, kind);
  }

  /** The header of a composed message, byte by byte. */
  lemma MessageBytes(qmiType: Byte, tid: nat, kind: nat, ts: seq<Tlv>)
    requires PREFIX + |Encode(ts)| <= BUFSIZE
    ensures
      var m, n := Message(qmiType, tid, kind, ts), |Encode(ts)|;
      && |m| == 13 + n && m[0] == 0x01 && m[3] == 0x00 && m[4] == qmiType && m[5] == 0x00 && m[6] == 0x00
      && m[1] == (12 + n) % 256 && m[2] == (12 + n) / 256 && m[7] == tid % 256 && m[8] == tid / 256 % 256
      && m[9] == kind % 256 && m[10] == kind / 256 % 256 && m[11] == n % 256 && m[12] == n / 256
  {
    hide Encode;
  }
}
