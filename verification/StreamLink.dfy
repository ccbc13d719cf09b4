/** The streaming-download link layer: composing a packet, the FCS, byte stuffing as in
    section 4.2 of RFC 1662, and a receiver that is fed by reads of any size and removes
    the stuffing in place. */
module StreamLink {
  import opened Crc16
  import opened Sequences

  const FLAG: Byte := 0x7E
  const ESC: Byte := 0x7D
  const FLIP: Byte := 0x20
  const MAX_BUFFER := 1280

  // ------------------------------------------------------------- stuffing

  function Stuff1(x: Byte): (s: seq<Byte>)
    ensures s != [] && FLAG !in s
  {
    if x == FLAG || x == ESC then Flipped(x) else [x]
  }

  function Flipped(x: Byte): (s: seq<Byte>)
    requires x == FLAG || x == ESC
    ensures |s| == 2 && FLAG !in s
  {
    [ESC, FLIP ^ x]
  }

  function Stuff(p: seq<Byte>): (s: seq<Byte>)
    ensures FLAG !in s && |s| >= |p|
  {
    if p == [] then [] else Stuff(p[..|p| - 1]) + Stuff1(p[|p| - 1])
  }

  /** What goes over the line for one packet. */
  function Wire(flag: bool, p: seq<Byte>): (s: seq<Byte>)
    ensures |s| >= |p| + 1 && s[|s| - 1] == FLAG
  {
    (if flag then [FLAG] else []) + Stuff(p) + [FLAG]
  }

  /** Byte by byte: 0x7E goes out as 0x7D 0x5E and 0x7D as 0x7D 0x5D, every other byte as itself. */
  lemma StuffedAs(p: seq<Byte>, x: Byte)
    ensures Stuff([]) == []
    ensures Stuff(p + [x]) == Stuff(p) + if x == 0x7E then [0x7D, 0x5E] else if x == 0x7D then [0x7D, 0x5D] else [x]
  {
    assert (p + [x])[..|p|] == p;
    assert FLIP ^ FLAG == 0x5E && FLIP ^ ESC == 0x5D;
  }

  /** A frame ends in 0x7E, and begins with one if the flag is set. */
  lemma FramedAs(flag: bool, p: seq<Byte>)
    ensures Wire(flag, p) == (if flag then [0x7E] else []) + Stuff(p) + [0x7E]
  {
    hide Stuff;
  }

  /** The unstuffer: the bytes put out so far and whether an escape is pending. */
  datatype Scan = Scan(out: seq<Byte>, escape: bool)

  function Unstuff1(u: Scan, x: Byte): Scan {
    if x == ESC then Scan(u.out, true)
    else Scan(u.out + [if u.escape then x ^ FLIP else x], false)
  }

  function Unstuff(s: seq<Byte>): (u: Scan)
    ensures |u.out| <= |s|
  {
    if s == [] then Scan([], false) else Unstuff1(Unstuff(s[..|s| - 1]), s[|s| - 1])
  }

  lemma UnstuffNil()
    ensures Unstuff([]) == Scan([], false)
  {}

  lemma UnstuffSnoc(s: seq<Byte>, x: Byte)
    ensures Unstuff(s + [x]) == Unstuff1(Unstuff(s), x)
  {
    assert (s + [x])[..|s|] == s;
  }

  lemma FlipBack(x: Byte)
    ensures (FLIP ^ x) ^ FLIP == x
  {}

  lemma UnstuffStuff1(s: seq<Byte>, x: Byte)
    requires !Unstuff(s).escape
    ensures Unstuff(s + Stuff1(x)) == Scan(Unstuff(s).out + [x], false)
  {
    hide Unstuff;
    if x == FLAG || x == ESC {
      assert s + Stuff1(x) == (s + [ESC]) + [FLIP ^ x];
      UnstuffSnoc(s, ESC);
      UnstuffSnoc(s + [ESC], FLIP ^ x);
      FlipBack(x);
      assert FLIP ^ x != ESC;
    } else {
      UnstuffSnoc(s, x);
    }
  }

  /** Removing the stuffing gives back every payload, in any position. */
  lemma {:induction false} UnstuffStuff(s: seq<Byte>, p: seq<Byte>)
    requires !Unstuff(s).escape
    ensures Unstuff(s + Stuff(p)) == Scan(Unstuff(s).out + p, false)
    decreases |p|
  {
    hide Unstuff, Stuff1;
    if p == [] {
      assert s + Stuff(p) == s && Unstuff(s).out + p == Unstuff(s).out;
    } else {
      var q, x := p[..|p| - 1], p[|p| - 1];
      UnstuffStuff(s, q);
      assert s + Stuff(p) == (s + Stuff(q)) + Stuff1(x);
      UnstuffStuff1(s + Stuff(q), x);
      assert (Unstuff(s).out + q) + [x] == Unstuff(s).out + p;
    }
  }

  /** The receiver's unstuffer keeps the closing flag. */
  lemma UnstuffFrame(s: seq<Byte>, p: seq<Byte>)
    requires !Unstuff(s).escape
    ensures Unstuff(s + (Stuff(p) + [FLAG])).out == Unstuff(s).out + p + [FLAG]
  {
    hide Unstuff, Stuff;
    UnstuffStuff(s, p);
    UnstuffSnoc(s + Stuff(p), FLAG);
    assert s + (Stuff(p) + [FLAG]) == (s + Stuff(p)) + [FLAG];
  }

  lemma {:induction false} StuffHead(p: seq<Byte>)
    requires p != []
    ensures Stuff(p) != [] && Stuff(p)[0] != FLAG
  {
    assert Stuff(p)[0] in Stuff(p);
  }

  // ------------------------------------------------------------- reads

  lemma {:induction false} ConcatPrefix(pieces: seq<seq<Byte>>, k: nat)
    requires k <= |pieces|
    ensures |Concat(pieces[..k])| <= |Concat(pieces)| && Concat(pieces[..k]) == Concat(pieces)[..|Concat(pieces[..k])|]
    decreases |pieces| - k
  {
    if k == |pieces| {
      assert pieces[..k] == pieces;
    } else {
      ConcatPrefix(pieces, k + 1);
      ConcatNext(pieces, k);
    }
  }

  /** The k-th piece of a prefix of w stands in w behind the pieces before it. */
  lemma PieceAt(pieces: seq<seq<Byte>>, w: seq<Byte>, k: nat)
    requires Concat(pieces) <= w && k < |pieces|
    ensures var n := |Concat(pieces[..k])|;
            && n + |pieces[k]| <= |w| && pieces[k] == w[n..n + |pieces[k]|]
            && |Concat(pieces[..k + 1])| == n + |pieces[k]|
  {
    hide Concat;
    ConcatNext(pieces, k);
    ConcatPrefix(pieces, k + 1);
    var n, m := |Concat(pieces[..k])|, |Concat(pieces[..k + 1])|;
    assert w[..m] == Concat(pieces)[..m] == Concat(pieces[..k]) + pieces[k];
    assert w[..m][n..] == pieces[k];
  }

  /** The length of the run of flags at the front. */
  function LeadingFlags(s: seq<Byte>): (n: nat)
    ensures n <= |s| && (forall k :: 0 <= k < n ==> s[k] == FLAG) && (n < |s| ==> s[n] != FLAG)
  {
    if s == [] || s[0] != FLAG then 0 else 1 + LeadingFlags(s[1..])
  }

  lemma LeadingFlagsAt(s: seq<Byte>, n: nat)
    requires n < |s| && s[n] != FLAG && forall k :: 0 <= k < n ==> s[k] == FLAG
    ensures LeadingFlags(s) == n
  {
  }

  /** When reception goes wrong: a read ended right behind the opening flag, and the byte
      left over in the buffer behind it happens to be a flag too. */
  predicate Spoiled(flag: bool, pieces: seq<seq<Byte>>, stale: Byte) {
    flag && pieces != [] && pieces[0] == [FLAG] && stale == FLAG
  }

  /** The frame as it stands in the receive buffer. */
  function Stored(flag: bool, p: seq<Byte>, spoiled: bool): (s: seq<Byte>)
    ensures |s| == |Wire(flag, p)|
  {
    if spoiled then Wire(flag, p)[0 := 0] else Wire(flag, p)
  }

  lemma OpeningPiece(flag: bool, p: seq<Byte>, piece: seq<Byte>)
    requires |piece| <= |Wire(flag, p)| && piece == Wire(flag, p)[0..|piece|]
    ensures flag && |piece| == 1 ==> piece == [FLAG]
  {
  }

  /** Flags stand only at the two ends of a frame. */
  lemma WireFlags(flag: bool, p: seq<Byte>, k: nat)
    requires k < |Wire(flag, p)| && p != []
    ensures Wire(flag, p)[k] == FLAG <==> (flag && k == 0) || k == |Wire(flag, p)| - 1
    ensures |Wire(flag, p)| >= (if flag then 3 else 2)
  {
    StuffHead(p);
    var lead := if flag then 1 else 0;
    if lead <= k < |Wire(flag, p)| - 1 {
      assert Wire(flag, p)[k] == Stuff(p)[k - lead];
      assert Stuff(p)[k - lead] in Stuff(p);
    }
  }

  /** Unstuffing a whole stored frame from its first byte that is not a flag. */
  lemma StoredFrame(flag: bool, p: seq<Byte>, spoiled: bool)
    requires p != [] && (spoiled ==> flag)
    ensures var s := Stored(flag, p, spoiled);
            var lead := if flag && !spoiled then 1 else 0;
            && |s| >= 2 && s[lead] != FLAG && (lead == 1 ==> s[0] == FLAG)
            && Unstuff(s[lead..]).out == (if spoiled then [0] else []) + p + [FLAG]
  {
    hide Unstuff, Stuff;
    StuffHead(p);
    var s := Stored(flag, p, spoiled);
    var lead := if flag && !spoiled then 1 else 0;
    UnstuffNil();
    if spoiled {
      UnstuffSnoc([], 0);
      assert [] + [0 as Byte] == [0];
      UnstuffFrame([0], p);
      assert s[lead..] == [0] + (Stuff(p) + [FLAG]);
    } else {
      UnstuffFrame([], p);
      assert s[lead..] == [] + (Stuff(p) + [FLAG]);
    }
  }

  /** A read appends to what is stored of the frame. */
  lemma StoredGrows(flag: bool, p: seq<Byte>, spoiled: bool, s: seq<Byte>, n: nat, piece: seq<Byte>)
    requires n + |piece| <= |Wire(flag, p)| && Wire(flag, p)[n..n + |piece|] == piece
    requires s == Stored(flag, p, spoiled)[..n] && (spoiled ==> n > 0)
    ensures s + piece == Stored(flag, p, spoiled)[..n + |piece|]
  {
  }

  /** A stored beginning of a frame ends in a flag only right behind the opening flag, or
      when it is whole. */
  lemma LastByte(flag: bool, p: seq<Byte>, spoiled: bool, now: seq<Byte>, n: nat)
    requires p != [] && 0 < n <= |Wire(flag, p)| <= |now| && now[..n] == Stored(flag, p, spoiled)[..n]
    requires spoiled ==> n > 1
    ensures now[n - 1] == FLAG <==> (flag && n == 1) || n == |Wire(flag, p)|
    ensures |Wire(flag, p)| >= (if flag then 3 else 2)
  {
    WireFlags(flag, p, n - 1);
    assert now[n - 1] == now[..n][n - 1];
  }

  lemma OpeningScan(now: seq<Byte>, was: seq<Byte>)
    requires |now| == |was| == MAX_BUFFER && now[..1] == [FLAG] && now[1..] == was[1..]
    requires LeadingFlags(was[1..]) < MAX_BUFFER - 1
    ensures LeadingFlags(now) < MAX_BUFFER
    ensures LeadingFlags(now) == 1 <==> was[1] != FLAG
    ensures LeadingFlags(now) >= 1
  {
    assert now[0] == now[..1][0];
    assert now[1] == now[1..][0] == was[1..][0] == was[1];
    assert LeadingFlags(now) == 1 + LeadingFlags(now[1..]);
  }

  lemma FrameScan(now: seq<Byte>, flag: bool, p: seq<Byte>, spoiled: bool)
    requires p != [] && (spoiled ==> flag)
    requires |Stored(flag, p, spoiled)| < MAX_BUFFER == |now|
    requires now[..|Stored(flag, p, spoiled)|] == Stored(flag, p, spoiled)
    ensures var n := |Stored(flag, p, spoiled)|;
            && LeadingFlags(now) < n
            && Unstuff(now[LeadingFlags(now)..n]).out == (if spoiled then [0] else []) + p + [FLAG]
  {
    hide Unstuff, Stuff;
    var s := Stored(flag, p, spoiled);
    StoredFrame(flag, p, spoiled);
    var lead := if flag && !spoiled then 1 else 0;
    assert now[lead] == s[lead] && now[0] == s[0];
    LeadingFlagsAt(now, lead);
    assert now[lead..|s|] == s[lead..];
  }

  class Link {
    const tx: array<Byte>     // g_Transmit_Buffer
    var txLength: nat
    const wire: array<Byte>   // stream_tx_buf
    const rx: array<Byte>     // g_Receive_Buffer
    var received: nat

    ghost predicate Valid()
      reads this
    {
      && tx.Length == wire.Length == rx.Length == MAX_BUFFER && txLength <= MAX_BUFFER
      && tx != wire && tx != rx && wire != rx
    }

    /** The file-level buffers, all zero. */
    constructor ()
      ensures Valid() && txLength == 0 && received == 0 && fresh(tx) && fresh(wire) && fresh(rx)
      ensures forall i :: 0 <= i < MAX_BUFFER ==> rx[i] == 0
    {
      tx := new Byte[MAX_BUFFER](_ => 0);
      wire := new Byte[MAX_BUFFER](_ => 0);
      rx := new Byte[MAX_BUFFER](_ => 0);
      txLength, received := 0, 0;
    }

    /** compose_packet; a NULL parameter or data pointer is an empty sequence. */
    method ComposePacket(cmd: Byte, parameter: seq<Byte>, data: seq<Byte>)
      requires Valid() && 1 + |parameter| + |data| < MAX_BUFFER
      modifies `txLength, tx
      ensures Valid() && tx[..txLength] == [cmd] + parameter + data
    {
      tx[0] := cmd;
      assert tx[..1] == [cmd];
      PutBytes(1, parameter);
      PutBytes(1 + |parameter|, data);
      txLength := 1 + |parameter| + |data|;
      ghost var packet := tx[..txLength];
      tx[txLength] := 0;
      assert tx[..txLength] == packet;
    }

    /** The copying loops of compose_packet. */
    method PutBytes(at: nat, bytes: seq<Byte>)
      requires Valid() && at + |bytes| <= MAX_BUFFER
      modifies tx
      ensures tx[..at + |bytes|] == old(tx[..at]) + bytes
    {
      var i := 0;
      while i < |bytes|
        invariant 0 <= i <= |bytes| && tx[..at + i] == old(tx[..at]) + bytes[..i]
      {
        tx[at + i] := bytes[i];
        i := i + 1;
      }
    }

    /** compute_reply_crc: puts the FCS behind the packet, low byte first. */
    method ComputeReplyCrc()
      requires Valid() && txLength + 2 <= MAX_BUFFER
      modifies `txLength, tx
      ensures Valid() && tx[..txLength] == old(tx[..txLength]) + FcsBytes(old(tx[..txLength]))
    {
      hide Fcs, Low, High;
      var crc := Crc16Calc(tx[..txLength]);
      tx[txLength] := Low(crc);
      tx[txLength + 1] := Low(High(crc));
      txLength := txLength + 2;
    }

    /** send_packet: the bytes that went out, and whether they are all. */
    method SendPacket(flag: bool) returns (sent: seq<Byte>, ok: bool)
      requires Valid() && |Wire(flag, tx[..txLength])| <= MAX_BUFFER
      modifies wire
      ensures sent <= Wire(flag, tx[..txLength])
      ensures ok <==> sent == Wire(flag, tx[..txLength])
    {
      hide Stuff, Stuff1;
      var j := 0;
      ghost var front := if flag then [FLAG] else [];
      ghost var p := tx[..txLength];
      StuffNil();
      if flag {
        wire[j] := FLAG;
        j := j + 1;
      }
      var i := 0;
      while i < txLength
        invariant 0 <= i <= txLength && j == |front| + |Stuff(p[..i])| <= MAX_BUFFER
        invariant wire[..j] == front + Stuff(p[..i])
        invariant tx[..txLength] == p
      {
        StuffNext(p, i);
        assert tx[i] == p[i];
        var ch := tx[i];
        j := TransmitStuffed(j, ch);
        i := i + 1;
        SeqAssoc(front, Stuff(p[..i - 1]), Stuff1(ch));
      }
      assert p[..i] == p;
      wire[j] := FLAG;
      j := j + 1;
      var written: nat :| written <= j;
      sent := wire[..written];
      ok := written == j;
    }

    /** remove_escape_hdlc_flag on the receive buffer. The scan for leading flags is not
        bounded by len: it stops at the first byte of the buffer that is not a flag. */
    method RemoveEscape(len: nat) returns (index: nat)
      requires Valid() && len < MAX_BUFFER && LeadingFlags(rx[..]) < MAX_BUFFER
      modifies rx
      ensures len == 0 || LeadingFlags(old(rx[..])) == len ==> index == 0 && rx[..] == old(rx[..])
      ensures 0 < len < LeadingFlags(old(rx[..])) ==> index == 0 && rx[..] == old(rx[..])[0 := 0]
      ensures LeadingFlags(old(rx[..])) < len ==>
                && index <= len && rx[..index] == Unstuff(old(rx[LeadingFlags(rx[..])..len])).out
                && rx[len + 1..] == old(rx[len + 1..])
    {
      index := 0;
      if len == 0 { return; }
      ghost var stop := LeadingFlags(rx[..]);
      assert rx[..][stop] != FLAG && forall k :: 0 <= k < stop ==> rx[k] == rx[..][k] == FLAG;
      var i := 0;
      while rx[i] == FLAG
        invariant 0 <= i <= stop
        decreases MAX_BUFFER - i
      {
        i := i + 1;
      }
      if i == len { return; }
      if i < len {
        index := UnstuffInPlace(i, len);
      }
      rx[index] := 0;
    }

    /** Its main loop: the write index never passes the read index. */
    method UnstuffInPlace(from: nat, len: nat) returns (index: nat)
      requires Valid() && from < len < MAX_BUFFER
      modifies rx
      ensures index <= len - from && rx[..index] == Unstuff(old(rx[from..len])).out
      ensures rx[len..] == old(rx[len..])
    {
      hide Unstuff;
      index := 0;
      var escape := false;
      var i := from;
      ghost var was := rx[..];
      UnstuffNil();
      while i < len
        invariant from <= i <= len && index <= i - from
        invariant rx[i..] == was[i..]
        invariant Unstuff(was[from..i]) == Scan(rx[..index], escape)
      {
        assert was[from..i + 1] == was[from..i] + [was[i]];
        UnstuffSnoc(was[from..i], was[i]);
        assert rx[i] == rx[i..][0] == was[i];
        if rx[i] == ESC {
          escape := true;
        } else {
          PutOut(i, index, escape);
          escape := false;
          index := index + 1;
        }
        i := i + 1;
      }
    }

    /** buffer[i] ^= 0x20 after an escape, then buffer[index] = buffer[i] */
    method PutOut(i: nat, index: nat, escape: bool)
      requires Valid() && index <= i < MAX_BUFFER
      modifies rx
      ensures rx[..index + 1] == old(rx[..index]) + [if escape then old(rx[i]) ^ FLIP else old(rx[i])]
      ensures rx[i + 1..] == old(rx[i + 1..])
    {
      if escape {
        rx[i] := rx[i] ^ FLIP;
      }
      rx[index] := rx[i];
    }

    /** receive_packet, with the successive non-empty reads as a parameter; running out of
        reads is the timeout. The reads are cut anywhere in a frame, or in its beginning.

        A whole frame is delivered as its payload and the closing flag, however it was cut,
        exactly unless the cut and the stale byte behind the opening flag conspire. */
    method ReceivePacket(pieces: seq<seq<Byte>>, ghost flag: bool, ghost p: seq<Byte>) returns (r: int)
      requires Valid() && p != [] && |Wire(flag, p)| < MAX_BUFFER
      requires Concat(pieces) <= Wire(flag, p) && [] !in pieces
      requires LeadingFlags(rx[1..]) < MAX_BUFFER - 1
      modifies `received, rx
      ensures r == if Concat(pieces) == Wire(flag, p) then 1 else 0
      ensures r == 1 ==> received <= MAX_BUFFER
      ensures r == 1 && !Spoiled(flag, pieces, old(rx[1])) ==> rx[..received] == p + [FLAG]
      ensures r == 1 && Spoiled(flag, pieces, old(rx[1])) ==> rx[..received] == [0] + p + [FLAG]
    {
      hide Stuff, Unstuff, Concat, Wire, Stored, LeadingFlags;
      ghost var w := Wire(flag, p);
      ghost var was := rx[..];
      ghost var spoiled := false;
      var idx := 0;
      var k := 0;
      assert pieces[..0] == [];
      ConcatNil<Byte>();
      while k < |pieces|
        invariant 0 <= k <= |pieces| && idx == |Concat(pieces[..k])| && idx < |w|
        invariant k <= idx && (k == 0 ==> idx == 0)
        invariant rx[idx..] == was[idx..]
        invariant rx[..idx] == Stored(flag, p, spoiled)[..idx]
        invariant spoiled == (k > 0 && Spoiled(flag, pieces, was[1]))
      {
        PieceAt(pieces, w, k);
        var piece := pieces[k];
        assert piece in pieces;
        if k == 0 { OpeningPiece(flag, p, piece); }
        var got := TakeRead(idx, piece, flag, p, spoiled, was);
        idx := idx + |piece|;
        k := k + 1;
        if got != 0 {
          received := got;
          ConcatPrefix(pieces, k);
          return 1;
        }
        spoiled := spoiled || (flag && idx == 1 && was[1] == FLAG);
      }
      assert pieces[..|pieces|] == pieces;
      r := 0;
    }

    /** One turn of the loop: the read, and the check for the end of a frame. */
    method TakeRead(idx: nat, piece: seq<Byte>, ghost flag: bool, ghost p: seq<Byte>, ghost spoiled: bool,
                    ghost was: seq<Byte>) returns (got: nat)
      requires Valid() && p != [] && |Wire(flag, p)| < MAX_BUFFER == |was|
      requires piece != [] && idx + |piece| <= |Wire(flag, p)| && piece == Wire(flag, p)[idx..idx + |piece|]
      requires rx[idx..] == was[idx..] && rx[..idx] == Stored(flag, p, spoiled)[..idx]
      requires spoiled ==> idx > 0 && flag
      requires LeadingFlags(was[1..]) < MAX_BUFFER - 1
      modifies rx
      ensures got <= MAX_BUFFER
      ensures idx + |piece| == |Wire(flag, p)| ==> got != 0 && rx[..got] == (if spoiled then [0] else []) + p + [FLAG]
      ensures idx + |piece| < |Wire(flag, p)| ==>
                && got == 0 && rx[idx + |piece|..] == was[idx + |piece|..]
                && rx[..idx + |piece|] == Stored(flag, p, spoiled || (flag && idx + |piece| == 1 && was[1] == FLAG))[..idx + |piece|]
    {
      hide Stuff, Unstuff, Wire, LeadingFlags;
      StoredGrows(flag, p, spoiled, rx[..idx], idx, piece);
      ghost var a := rx[..];
      assert a[..idx] == rx[..idx] && a[idx..] == rx[idx..];
      ReadInto(idx, piece);
      var n := idx + |piece|;
      ghost var now := rx[..];
      assert now == a[..idx] + piece + a[n..];
      ReadPlaced(a, was, piece, idx, now);
      assert rx[..n] == now[..n] && rx[n..] == now[n..];
      got := CheckFrame(n, flag, p, spoiled, was);
    }

    /** The unstuffing, when the last byte read is a flag. */
    method CheckFrame(n: nat, ghost flag: bool, ghost p: seq<Byte>, ghost spoiled: bool, ghost was: seq<Byte>)
      returns (got: nat)
      requires Valid() && p != [] && 0 < n <= |Wire(flag, p)| < MAX_BUFFER == |was|
      requires rx[n..] == was[n..] && rx[..n] == Stored(flag, p, spoiled)[..n]
      requires spoiled ==> n > 1 && flag
      requires LeadingFlags(was[1..]) < MAX_BUFFER - 1
      modifies rx
      ensures got <= MAX_BUFFER
      ensures n == |Wire(flag, p)| ==> got != 0 && rx[..got] == (if spoiled then [0] else []) + p + [FLAG]
      ensures n < |Wire(flag, p)| ==>
                && got == 0 && rx[n..] == was[n..]
                && rx[..n] == Stored(flag, p, spoiled || (flag && n == 1 && was[1] == FLAG))[..n]
    {
      hide Stuff, Unstuff, Wire, LeadingFlags;
      ghost var now := rx[..];
      assert now[..n] == rx[..n] && now[n..] == rx[n..];
      LastByte(flag, p, spoiled, now, n);
      got := 0;
      if rx[n - 1] == FLAG {
        if n < |Wire(flag, p)| {
          OpeningScan(now, was);
        } else {
          FrameScan(now, flag, p, spoiled);
        }
        got := RemoveEscape(n);
      }
    }

    /** qusb_noblock_read into &buff[idx] */
    method ReadInto(idx: nat, piece: seq<Byte>)
      requires Valid() && idx + |piece| <= MAX_BUFFER
      modifies rx
      ensures rx[..] == old(rx[..idx]) + piece + old(rx[idx + |piece|..])
    {
      forall m | 0 <= m < |piece| {
        rx[idx + m] := piece[m];
      }
    }

    /** The body of the loop of send_packet. */
    method TransmitStuffed(j: nat, ch: Byte) returns (j': nat)
      requires Valid() && j + |Stuff1(ch)| <= MAX_BUFFER
      modifies wire
      ensures j' == j + |Stuff1(ch)| && wire[..j'] == old(wire[..j]) + Stuff1(ch)
    {
      if ch == FLAG || ch == ESC {
        wire[j] := ESC;
        wire[j + 1] := FLIP ^ ch;
        j' := j + 2;
      } else {
        wire[j] := ch;
        j' := j + 1;
      }
    }
  }

  lemma ReadPlaced(a: seq<Byte>, was: seq<Byte>, piece: seq<Byte>, idx: nat, now: seq<Byte>)
    requires idx + |piece| <= |a| == |was| && a[idx..] == was[idx..] && now == a[..idx] + piece + a[idx + |piece|..]
    ensures var n := idx + |piece|; |now| == |was| && now[..n] == a[..idx] + piece && now[n..] == was[n..]
  {
    assert a[idx + |piece|..] == a[idx..][|piece|..] == was[idx..][|piece|..] == was[idx + |piece|..];
  }

  lemma StuffNil()
    ensures Stuff([]) == []
  {}

  /** One byte more: what it adds, and that the whole packet takes no less room. */
  lemma {:induction false} StuffNext(p: seq<Byte>, i: nat)
    requires i < |p|
    ensures Stuff(p[..i + 1]) == Stuff(p[..i]) + Stuff1(p[i]) && |Stuff(p[..i + 1])| <= |Stuff(p)|
    decreases |p|
  {
    assert p[..i + 1][..i] == p[..i];
    if i + 1 == |p| {
      assert p[..i + 1] == p;
    } else {
      var q := p[..|p| - 1];
      assert q[..i + 1] == p[..i + 1] && q[..i] == p[..i];
      StuffNext(q, i);
    }
  }
}
