/** USB over TCP: payloads in length-prefixed frames, in both directions. */
module Tunnel {
  import opened Arith
  import opened LittleEndian
  import opened Sequences

  const TAG := 0x12345678       // Q_USB2TCP_VERSION
  const LIMIT := 0x8000_0000    // int
  const TLV_SIZE := 8

  // ------------------------------------------------------------- frames

  function Header(n: nat): (h: seq<Byte>)
    ensures |h| == TLV_SIZE
  {
    Put32(TAG) + Put32(n)
  }

  function Frame(p: seq<Byte>): seq<Byte> {
    Header(|p|) + p
  }

  function Wire(ps: seq<seq<Byte>>): seq<Byte> {
    if ps == [] then [] else Frame(ps[0]) + Wire(ps[1..])
  }

  lemma {:induction false} WireSnoc(ps: seq<seq<Byte>>, p: seq<Byte>)
    ensures Wire(ps + [p]) == Wire(ps) + Frame(p)
    decreases |ps|
  {
    hide Frame;
    if ps == [] {
      assert ps + [p] == [p];
      assert Wire([p]) == Frame(p) + Wire([]);
    } else {
      assert (ps + [p])[1..] == ps[1..] + [p];
      WireSnoc(ps[1..], p);
    }
  }

  lemma HeaderFields(n: nat, rest: seq<Byte>)
    requires n < LIMIT
    ensures Get32(Header(n) + rest, 0) == TAG && Get32(Header(n) + rest, 4) == n
  {
    var s := Header(n) + rest;
    hide Put32, Get32;
    assert s[0..4] == Put32(TAG);
    assert s[4..8] == Put32(n);
    PutGet32(TAG, s, 0);
    PutGet32(n, s, 4);
  }

  /** The header on the wire: 0x12345678 and the length, low-order bytes first. */
  lemma HeaderBytes(n: nat)
    ensures Header(n) == [0x78, 0x56, 0x34, 0x12, n % 256, n / 0x100 % 256, n / 0x1_0000 % 256, n / 0x100_0000 % 256]
  {
    LowByteFirst(n);
    LowByteFirst(TAG);
  }

  // ------------------------------------------------------------- sockets

  /** One direction of a connection: the bytes that have arrived and those still on their way. */
  class Socket {
    var data: seq<Byte>
    var transit: seq<Byte>

    constructor ()
      ensures data == [] && transit == []
    {
      data, transit := [], [];
    }

    ghost function Stream(): seq<Byte>
      reads this
    {
      data + transit
    }

    method Arrive(n: nat)
      modifies this
      ensures Stream() == old(Stream())
      ensures |data| == |old(data)| + Min(n, |old(transit)|)
    {
      var m := Min(n, |transit|);
      assert transit == transit[..m] + transit[m..];
      SeqAssoc(data, transit[..m], transit[m..]);
      data, transit := data + transit[..m], transit[m..];
    }

    /** read(2): some of what has arrived, at least one byte unless nothing has. */
    method Read(max: nat) returns (got: seq<Byte>)
      modifies this`data
      ensures got + Stream() == old(Stream()) && |got| <= max
      ensures |data| == |old(data)| - |got|
      ensures max > 0 && old(data) != [] ==> got != []
    {
      var most := Min(max, |data|);
      assert most == 0 || most > 0;
      var n: nat :| n <= most && (most > 0 ==> n > 0);
      got := data[..n];
      assert data == data[..n] + data[n..];
      SeqAssoc(data[..n], data[n..], transit);
      data := data[n..];
    }

    /** write(2): some of it, at least one byte of a non-empty buffer. */
    method Write(bytes: seq<Byte>) returns (n: nat)
      modifies this`transit
      ensures n <= |bytes| && Stream() == old(Stream()) + bytes[..n] && data == old(data)
      ensures bytes != [] ==> n > 0
    {
      assert |bytes| > 0 || bytes == [];
      n :| n <= |bytes| && (bytes != [] ==> n > 0);
      SeqAssoc(data, transit, bytes[..n]);
      transit := transit + bytes[..n];
    }
  }

  /** What is left of here after n bytes were taken, the last of them perhaps as they arrived. */
  function Unread(here: nat, n: nat): nat { if here > n then here - n else 0 }

  /** noblock_full_read, and the loop of qtcp_read. While it polls, bytes it waits for may arrive; it
      gives up when none do. */
  method FullRead(s: Socket, size: nat) returns (got: seq<Byte>, whole: bool)
    modifies s
    ensures got + s.Stream() == old(s.Stream()) && |got| <= size
    ensures whole <==> |got| == size
    ensures size <= |old(s.data)| ==> whole
    ensures |s.data| == Unread(|old(s.data)|, |got|)
  {
    got := [];
    assert [] + s.Stream() == s.Stream();
    while |got| < size
      invariant got + s.Stream() == old(s.Stream()) && |got| <= size
      invariant |got| + |s.data| == |old(s.data)| || |old(s.data)| <= |got| + |s.data| <= size
      decreases size - |got|
    {
      if s.data == [] {
        var n: nat :| n <= size - |got|;
        s.Arrive(n);
      }
      var more := s.Read(size - |got|);
      if more == [] { break; }
      SeqAssoc(got, more, s.Stream());
      got := got + more;
    }
    whole := |got| == size;
  }

  /** noblock_full_write, and the loop of qtcp_write. */
  method FullWrite(s: Socket, bytes: seq<Byte>) returns (n: nat)
    modifies s`transit
    ensures n <= |bytes| && s.Stream() == old(s.Stream()) + bytes[..n] && s.data == old(s.data)
  {
    n := 0;
    assert s.Stream() + [] == s.Stream();
    while n < |bytes|
      invariant n <= |bytes| && s.Stream() == old(s.Stream()) + bytes[..n] && s.data == old(s.data)
      decreases |bytes| - n
    {
      var go: bool := *;
      if !go { break; }
      var k := s.Write(bytes[n..]);
      assert bytes[..n] + bytes[n..][..k] == bytes[..n + k];
      SeqAssoc(old(s.Stream()), bytes[..n], bytes[n..][..k]);
      n := n + k;
    }
  }

  /** The header and the payload, as usb2tcp_main and qtcp_write send them. */
  method SendFrame(s: Socket, p: seq<Byte>) returns (whole: bool)
    modifies s`transit
    ensures s.data == old(s.data)
    ensures whole ==> s.Stream() == old(s.Stream()) + Frame(p)
    ensures exists n :: 0 <= n <= |Frame(p)| && s.Stream() == old(s.Stream()) + Frame(p)[..n]
  {
    hide Header;
    var h := Header(|p|);
    var n := FullWrite(s, h);
    if n != TLV_SIZE {
      assert h[..n] == Frame(p)[..n];
      return false;
    }
    var k := FullWrite(s, p);
    assert h[..n] == h;
    SeqAssoc(old(s.Stream()), h, p[..k]);
    assert h + p[..k] == Frame(p)[..TLV_SIZE + k];
    assert k == |p| ==> Frame(p)[..TLV_SIZE + k] == Frame(p);
    whole := k == |p|;
  }

  // ------------------------------------------------------------- device to client

  /** What the client has, what is left of its frame, the frames behind it, and how much of all that
      has arrived. */
  datatype View = View(received: seq<Byte>, left: seq<Byte>, frames: seq<seq<Byte>>, here: nat)

  function Opened(v: View): View {
    if v.left == [] && v.frames != [] then View(v.received, v.frames[0], v.frames[1..], Unread(v.here, TLV_SIZE)) else v
  }

  /** A complete read of up to size bytes: nothing while no header has come, and never across the end
      of a frame. */
  function Taken(v: View, size: nat): View {
    if v.left == [] && v.here == 0 then v
    else
      var o := Opened(v);
      var n := Min(size, |o.left|);
      View(o.received + o.left[..n], o.left[n..], o.frames, Unread(o.here, n))
  }

  /** The bytes of a length that a torn header leaves in a word of zeros. */
  function Torn(h: seq<Byte>): nat
    requires |h| < TLV_SIZE
  {
    if |h| <= 4 then 0 else Get32(h + [0, 0, 0], 4)
  }

  datatype Head = Empty | Cut | Whole

  /** usb2tcp frames what the device sends; qtcp_read hands it out in pieces of any size. left is
      the rest of the frame under way, frames are those behind it. */
  class Upload {
    const socket: Socket
    var length: nat               // the static tlv.length of qtcp_read
    ghost var left: seq<Byte>
    ghost var frames: seq<seq<Byte>>
    ghost var sent: seq<seq<Byte>>
    ghost var received: seq<Byte>

    /** The reader is in step: length is the unread rest of its frame, and nothing is lost. */
    ghost predicate InStep()
      reads this, socket
    {
      && length == |left|
      && socket.Stream() == left + Wire(frames)
      && (forall f <- frames :: f != [] && |f| < LIMIT)
      && received + left + Concat(frames) == Concat(sent)
    }

    ghost function Seen(): View
      reads this, socket
    {
      View(received, left, frames, |socket.data|)
    }

    constructor ()
      ensures InStep() && sent == [] && Seen() == View([], [], [], 0) && fresh(socket)
      ensures socket.transit == []
    {
      socket := new Socket();
      length, left, frames, sent, received := 0, [], [], [], [];
    }

    /** The branch of usb2tcp_main for a read from the device. */
    method Forward(p: seq<Byte>) returns (ok: bool)
      requires InStep() && p != [] && |p| < LIMIT
      modifies this`frames, this`sent, socket`transit
      ensures ok ==> InStep() && sent == old(sent) + [p] && frames == old(frames) + [p]
      ensures !ok ==> frames == old(frames) && sent == old(sent)
      ensures socket.data == old(socket.data)
    {
      hide Frame, Wire, Concat;
      ok := SendFrame(socket, p);
      if ok {
        WireSnoc(frames, p);
        SeqAssoc(left, Wire(frames), Frame(p));
        ConcatSnoc(frames, p);
        ConcatSnoc(sent, p);
        SeqAssoc(received + left, Concat(frames), p);
        frames, sent := frames + [p], sent + [p];
      }
    }

    /** The header of the next frame, read when the last one is used up. */
    method NextFrame() returns (head: Head)
      requires InStep() && left == []
      modifies this`length, this`left, this`frames, socket`data
      ensures received == old(received) && sent == old(sent)
      ensures received + left + Concat(frames) == Concat(sent)
      ensures head.Cut? <==> !InStep()
      ensures head.Cut? ==> 0 < |old(socket.data)| - |socket.data| < 8
      ensures head.Empty? <==> old(socket.data) == []
      ensures head.Empty? ==> Seen() == old(Seen())
      ensures head.Whole? ==> left != [] && Seen() == Opened(old(Seen()))
    {
      hide Frame, Concat, Header, Get32, Put32, Wire;
      assert left + Wire(frames) == Wire(frames);
      var h := socket.Read(TLV_SIZE);
      if h == [] {
        assert [] + socket.Stream() == socket.Stream();
        return Empty;
      }
      WireFirst(frames);
      if |h| != TLV_SIZE {
        length := Torn(h);
        OutOfStep(h, socket.Stream(), left + Wire(frames));
        return Cut;
      }
      ghost var f := frames[0];
      assert f in frames;
      Divide(h, socket.Stream(), Header(|f|), f + Wire(frames[1..]));
      assert Header(|f|)[TLV_SIZE..] + (f + Wire(frames[1..])) == f + Wire(frames[1..]) && h == Header(|f|) + [];
      HeaderFields(|f|, []);
      length := Get32(h, 4);
      if Get32(h, 0) != TAG { return Cut; }
      left, frames := f, frames[1..];
      ConcatFirst(old(frames));
      assert received + [] == received;
      SeqAssoc(received, f, Concat(frames));
      head := Whole;
    }

    /** The rest of qtcp_read: from the frame under way. */
    method ReadLeft(size: nat) returns (got: seq<Byte>, whole: bool)
      requires InStep()
      modifies this`length, this`left, this`received, socket
      ensures got <= old(left) && |got| <= size
      ensures received == old(received) + got && received + left + Concat(frames) == Concat(sent)
      ensures whole <==> InStep()
      ensures whole <==> |got| == Min(size, |old(left)|)
      ensures whole ==> left == old(left)[|got|..]
      ensures Min(size, |old(left)|) <= |old(socket.data)| ==> whole
      ensures |socket.data| == Unread(|old(socket.data)|, |got|)
    {
      hide Wire, Concat;
      var n := Min(size, length);
      length := length - n;
      got, whole := FullRead(socket, n);
      Divide(got, socket.Stream(), left, Wire(frames));
      Regroup(received, left, |got|, Concat(frames));
      left := left[|got|..];
      received := received + got;
    }

    /** qtcp_read. The reader stays in step exactly when the transfer was complete: no header cut in
        two, no payload cut short. */
    method QtcpRead(size: nat) returns (got: seq<Byte>, whole: bool)
      requires InStep()
      modifies this`length, this`left, this`frames, this`received, socket
      ensures |got| <= size && received == old(received) + got && received <= Concat(sent)
      ensures whole <==> InStep()
      ensures whole ==> Seen() == Taken(old(Seen()), size)
      ensures old(left) == [] && old(socket.data) == [] ==> whole && got == []
      ensures old(left) != [] && Min(size, |old(left)|) <= |old(socket.data)| ==> whole
      ensures !whole && old(left) == [] ==>
        (got == [] && 0 < |old(socket.data)| - |socket.data| < 8) || (old(frames) != [] && |got| < Min(size, |old(frames)[0]|))
      ensures whole && old(left) != [] ==> |got| == if size < |old(left)| then size else |old(left)|
      ensures whole && old(left) == [] && old(socket.data) != [] ==> old(frames) != []
      ensures
        whole && old(left) == [] && old(socket.data) != [] ==>
          |got| == if size < |old(frames)[0]| then size else |old(frames)[0]|
    {
      hide Wire, Concat, InStep, Unread;
      AllRead();
      if length == 0 {
        assert left == [];
        var head := NextFrame();
        Conserved(received, left + Concat(frames), Concat(sent));
        assert received + left + Concat(frames) == received + (left + Concat(frames));
        if !head.Whole? {
          assert received + [] == received;
          return [], head.Empty?;
        }
        AllRead();
      }
      got, whole := ReadLeft(size);
      assert received + left + Concat(frames) == received + (left + Concat(frames));
      Conserved(received, left + Concat(frames), Concat(sent));
    }

    lemma SeenReceived()
      ensures Seen().received == received
    {}

    /** Nothing is outstanding exactly when everything sent has been received. */
    lemma AllRead()
      requires InStep()
      ensures received <= Concat(sent)
      ensures length == |left|
      ensures received == Concat(sent) <==> left == [] && frames == []
    {
      assert received + left + Concat(frames) == received + (left + Concat(frames));
      if left == [] && frames == [] {
        assert left + Concat(frames) == [];
      } else if frames != [] {
        assert frames[0] in frames;
        ConcatFirst(frames);
      }
    }
  }

  lemma Conserved(r: seq<Byte>, rest: seq<Byte>, all: seq<Byte>)
    ensures r + rest == all ==> r <= all
  {}

  /** Some bytes gone, the stream is no longer what is to be read. */
  lemma OutOfStep(h: seq<Byte>, d: seq<Byte>, all: seq<Byte>)
    requires h + d == all && h != []
    ensures d != all
  {
    assert |d| < |all|;
  }

  lemma Divide(got: seq<Byte>, d: seq<Byte>, left: seq<Byte>, w: seq<Byte>)
    requires got + d == left + w && |got| <= |left|
    ensures got == left[..|got|] && d == left[|got|..] + w
  {
    assert got == (got + d)[..|got|] == (left + w)[..|got|];
    assert d == (got + d)[|got|..] == (left + w)[|got|..];
  }

  lemma Regroup(r: seq<Byte>, left: seq<Byte>, n: nat, rest: seq<Byte>)
    requires n <= |left|
    ensures r + left[..n] + left[n..] + rest == r + left + rest
  {
    assert left == left[..n] + left[n..];
    SeqAssoc(r, left[..n], left[n..]);
  }

  // ------------------------------------------------------------- client to device

  const BUFFER := 0x4000  // MAX_USBFS_BULK_OUT_SIZE

  /** qtcp_write frames what the client writes; usb2tcp gives each frame to the device as one
      transfer, of which the device may take a part. */
  class Download {
    const socket: Socket
    var transfers: seq<seq<Byte>>
    var taken: seq<nat>  // how much of each the device took
    ghost var frames: seq<seq<Byte>>
    ghost var sent: seq<seq<Byte>>

    ghost predicate InStep()
      reads this, socket
    {
      && socket.Stream() == Wire(frames)
      && (forall f <- frames :: |f| <= BUFFER)
      && transfers + frames == sent
      && Counts(transfers, taken)
    }

    constructor ()
      ensures InStep() && sent == [] && transfers == [] && taken == [] && fresh(socket)
    {
      socket := new Socket();
      transfers, taken, frames, sent := [], [], [], [];
    }

    method QtcpWrite(p: seq<Byte>) returns (whole: bool)
      requires InStep() && |p| <= BUFFER
      modifies this`frames, this`sent, socket`transit
      ensures whole ==> InStep() && sent == old(sent) + [p]
    {
      hide Frame, Wire;
      whole := SendFrame(socket, p);
      if whole {
        WireSnoc(frames, p);
        SeqAssoc(transfers, frames, [p]);
        frames, sent := frames + [p], sent + [p];
      }
    }

    /** qusb_noblock_write to the device; its result is not looked at. */
    method UsbWrite(p: seq<Byte>) returns (n: nat)
      ensures n <= |p|
    {
      n :| 0 <= n <= |p|;
    }

    /** The branch of usb2tcp_main for data from the client; false is the hangup. */
    method Forward() returns (ok: bool)
      requires InStep()
      modifies this`transfers, this`taken, this`frames, socket
      ensures ok ==> InStep() && old(frames) != [] && transfers == old(transfers) + [old(frames)[0]]
      ensures ok ==> old(taken) < taken
      ensures !ok ==> transfers == old(transfers) && taken == old(taken)
      ensures transfers <= sent
    {
      hide Frame, Wire, Header, Get32, Put32, Counts;
      var h, whole := FullRead(socket, TLV_SIZE);
      if !whole { return false; }
      WireFirst(frames);
      ghost var f, w := frames[0], Wire(frames[1..]);
      assert f in frames;
      Divide(h, socket.Stream(), Header(|f|), f + w);
      assert Header(|f|)[TLV_SIZE..] + (f + w) == f + w && h == Header(|f|) + [];
      HeaderFields(|f|, []);
      if Get32(h, 0) != TAG { return false; }
      var n := Get32(h, 4);
      var p;
      p, whole := FullRead(socket, n);
      if !whole { return false; }
      Divide(p, socket.Stream(), f, w);
      assert p == f && f[|p|..] + w == w;
      var count := UsbWrite(p);
      CountsSnoc(transfers, taken, p, count);
      transfers, taken := transfers + [p], taken + [count];
      frames := frames[1..];
      assert sent == old(transfers) + ([f] + frames);
      ok := true;
    }
  }

  predicate Counts(transfers: seq<seq<Byte>>, taken: seq<nat>) {
    |transfers| == |taken| && forall i :: 0 <= i < |taken| ==> taken[i] <= |transfers[i]|
  }

  lemma CountsSnoc(transfers: seq<seq<Byte>>, taken: seq<nat>, p: seq<Byte>, n: nat)
    requires Counts(transfers, taken) && n <= |p|
    ensures Counts(transfers + [p], taken + [n])
  {}

  /** What reaches the device. */
  function Reached(transfers: seq<seq<Byte>>, taken: seq<nat>): seq<Byte>
    requires Counts(transfers, taken)
    decreases |taken|
  {
    if taken == [] then []
    else
      var n := |taken| - 1;
      Reached(transfers[..n], taken[..n]) + transfers[n][..taken[n]]
  }

  /** The device has all the bytes exactly when it took every transfer whole; nothing in the protocol
      tells the client. */
  lemma {:induction false} ReachedIff(transfers: seq<seq<Byte>>, taken: seq<nat>)
    requires Counts(transfers, taken)
    ensures |Reached(transfers, taken)| <= |Concat(transfers)|
    ensures Reached(transfers, taken) == Concat(transfers) <==> forall i :: 0 <= i < |taken| ==> taken[i] == |transfers[i]|
    ensures |Reached(transfers, taken)| == |Concat(transfers)| ==> Reached(transfers, taken) == Concat(transfers)
    decreases |taken|
  {
    hide Concat;
    if taken == [] {
      ConcatNil<Byte>();
    } else {
      var n := |taken| - 1;
      var front, last := transfers[..n], transfers[n];
      assert transfers == front + [last];
      ReachedIff(front, taken[..n]);
      ConcatSnoc(front, last);
      assert last[..|last|] == last;
    }
  }

  // ------------------------------------------------------------- any interleaving

  /** A payload sent, bytes that arrive on their own, and a read or a forwarded frame. */
  datatype Op = Send(payload: seq<Byte>) | Arrival(n: nat) | Receive(size: nat)

  function Payloads(ops: seq<Op>): seq<seq<Byte>> {
    if ops == [] then []
    else
      var n := |ops| - 1;
      Payloads(ops[..n]) + if ops[n].Send? then [ops[n].payload] else []
  }

  lemma PayloadsStep(ops: seq<Op>, i: nat)
    requires i < |ops|
    ensures Payloads(ops[..i + 1]) ==
      if ops[i].Send? then Payloads(ops[..i]) + [ops[i].payload] else Payloads(ops[..i])
  {
    assert ops[..i + 1][..i] == ops[..i];
  }

  /** How many bytes a client that took everything up to its view would still find on the stream. */
  function Ahead(v: View): nat { |v.left| + |Wire(v.frames)| }

  function Step(v: View, op: Op): View {
    match op
    case Send(p) => v.(frames := v.frames + [p])
    case Arrival(n) => v.(here := v.here + Min(n, Unread(Ahead(v), v.here)))
    case Receive(size) => Taken(v, size)
  }

  function Model(ops: seq<Op>): View {
    if ops == [] then View([], [], [], 0) else Step(Model(ops[..|ops| - 1]), ops[|ops| - 1])
  }

  lemma ModelStep(ops: seq<Op>, i: nat)
    requires i < |ops|
    ensures Model(ops[..i + 1]) == Step(Model(ops[..i]), ops[i])
  {
    assert ops[..i + 1][..i] == ops[..i];
  }

  lemma NothingYet(ops: seq<Op>)
    ensures Payloads(ops[..0]) == [] && Model(ops[..0]) == View([], [], [], 0)
  {}

  // ------------------------------------------------------------- everything gets through

  /** What the client has, what it is about to get, and what has been sent. */
  predicate Complete(v: View, sent: seq<seq<Byte>>) {
    && v.received + v.left + Concat(v.frames) == Concat(sent) && v.here <= Ahead(v)
  }

  lemma AheadSnoc(v: View, p: seq<Byte>)
    ensures Ahead(v.(frames := v.frames + [p])) == Ahead(v) + 8 + |p|
  {
    hide Wire;
    WireSnoc(v.frames, p);
  }

  lemma AheadFirst(v: View)
    requires v.frames != []
    ensures Ahead(v) == |v.left| + 8 + |v.frames[0]| + |Wire(v.frames[1..])|
    ensures Concat(v.frames) == v.frames[0] + Concat(v.frames[1..])
  {}

  lemma {:induction false} CompleteStep(v: View, sent: seq<seq<Byte>>, op: Op)
    requires Complete(v, sent)
    ensures Complete(Step(v, op), if op.Send? then sent + [op.payload] else sent)
  {
    match op
    case Send(p) =>
      hide Concat, Wire;
      AheadSnoc(v, p);
      ConcatSnoc(v.frames, p);
      ConcatSnoc(sent, p);
      SeqAssoc(v.received + v.left, Concat(v.frames), p);
    case Arrival(n) =>
      hide Concat, Wire;
    case Receive(size) =>
      TakenComplete(v, sent, size);
  }

  lemma TakenComplete(v: View, sent: seq<seq<Byte>>, size: nat)
    requires Complete(v, sent)
    ensures Complete(Taken(v, size), sent)
  {
    hide Concat, Wire;
    if v.left == [] && v.frames != [] {
      AheadFirst(v);
      assert v.received + [] == v.received;
      SeqAssoc(v.received, v.frames[0], Concat(v.frames[1..]));
    }
    var o := Opened(v);
    var n := Min(size, |o.left|);
    Regroup(o.received, o.left, n, Concat(o.frames));
  }

  lemma {:induction false} ModelComplete(ops: seq<Op>)
    ensures Complete(Model(ops), Payloads(ops))
    decreases |ops|
  {
    hide Complete, Step;
    if ops == [] {
      NothingSent();
    } else {
      var front, op := ops[..|ops| - 1], ops[|ops| - 1];
      ModelComplete(front);
      assert Payloads(front) + [] == Payloads(front);
      CompleteStep(Model(front), Payloads(front), op);
    }
  }

  lemma NothingSent()
    ensures Complete(View([], [], [], 0), [])
  {
    NoWire();
    assert [] + [] + Concat<Byte>([]) == Concat<Byte>([]);
  }

  /** Reads of the given sizes, one after the other. */
  function Reads(v: View, sizes: seq<nat>): View
    decreases |sizes|
  {
    if sizes == [] then v else Reads(Taken(v, sizes[0]), sizes[1..])
  }

  /** A read that is not of size zero takes something off the way while there is anything. */
  lemma TakesSome(v: View, size: nat)
    requires size > 0 && v.here == Ahead(v)
    ensures
      var t := Taken(v, size);
      && t.here == Ahead(t) && (Ahead(v) == 0 ==> t == v) && (Ahead(v) > 0 ==> Ahead(t) < Ahead(v))
      && t.received + t.left + Concat(t.frames) == v.received + v.left + Concat(v.frames)
  {
    hide Concat, Wire;
    AheadNothing(v);
    if v.left == [] && v.frames != [] {
      AheadFirst(v);
      assert v.received + [] == v.received;
      SeqAssoc(v.received, v.frames[0], Concat(v.frames[1..]));
    }
    var o := Opened(v);
    Regroup(o.received, o.left, Min(size, |o.left|), Concat(o.frames));
  }

  lemma NoWire()
    ensures Wire([]) == [] && Concat<Byte>([]) == []
  {}

  lemma {:induction false} ReadsDrain(v: View, sizes: seq<nat>)
    requires v.here == Ahead(v) && forall n <- sizes :: n > 0
    requires Ahead(v) <= |sizes|
    ensures Reads(v, sizes).received == v.received + v.left + Concat(v.frames)
    decreases |sizes|
  {
    hide Taken, Concat, Wire;
    NoWire();
    if sizes == [] {
      AheadNothing(v);
      assert v.received + [] + [] == v.received;
    } else {
      assert sizes[0] in sizes && forall n <- sizes[1..] :: n in sizes;
      TakesSome(v, sizes[0]);
      ReadsDrain(Taken(v, sizes[0]), sizes[1..]);
    }
  }

  lemma AheadNothing(v: View)
    ensures Ahead(v) == 0 <==> v.left == [] && v.frames == []
  {}

  /** Whatever was done before: once everything has arrived, as many reads as there are bytes on the
      way, of any sizes but zero, give the client all that was sent. */
  lemma EverythingRead(ops: seq<Op>, sizes: seq<nat>)
    requires Model(ops).here == Ahead(Model(ops)) && Ahead(Model(ops)) <= |sizes| && forall n <- sizes :: n > 0
    ensures Reads(Model(ops), sizes).received == Concat(Payloads(ops))
  {
    hide Model, Ahead, Reads, Concat, Payloads;
    ModelComplete(ops);
    ReadsDrain(Model(ops), sizes);
  }

  /** One operation: the client's view follows the model. */
  method UploadStep(u: Upload, op: Op) returns (more: seq<Byte>, ok: bool)
    requires u.InStep() && (op.Send? ==> op.payload != [] && |op.payload| < LIMIT)
    modifies u`length, u`left, u`frames, u`sent, u`received, u.socket
    ensures u.received == old(u.received) + more && u.received <= Concat(u.sent)
    ensures ok ==> u.InStep() && u.Seen() == Step(old(u.Seen()), op)
    ensures (op.Arrival? ==> ok) && (op.Receive? ==> (ok <==> u.InStep()))
    ensures u.sent == if op.Send? && ok then old(u.sent) + [op.payload] else old(u.sent)
  {
    hide Concat, Wire, Frame, Taken;
    u.AllRead();
    more, ok := [], true;
    assert u.received + [] == u.received;
    match op
    case Send(p) =>
      ok := u.Forward(p);
      if ok { u.AllRead(); }
    case Arrival(n) =>
      u.socket.Arrive(n);
    case Receive(size) =>
      more, ok := u.QtcpRead(size);
  }

  /** All the operations, on a connection nothing has passed over yet. */
  method RunFrom(u: Upload, ops: seq<Op>) returns (got: seq<Byte>, done: nat, whole: bool)
    requires u.InStep() && u.received == [] && u.sent == [] && u.Seen() == View([], [], [], 0)
    requires forall op <- ops :: op.Send? ==> op.payload != [] && |op.payload| < LIMIT
    modifies u`length, u`left, u`frames, u`sent, u`received, u.socket
    ensures done <= |ops| && (whole ==> done == |ops|)
    ensures !whole ==> (done < |ops| && ops[done].Send?) || (done > 0 && ops[done - 1].Receive?)
    ensures got == u.received && u.received <= Concat(u.sent) && u.sent == Payloads(ops[..done])
    ensures whole ==> u.Seen() == Model(ops[..done])
  {
    hide Concat, Wire, Payloads, Frame, Model, Step, Upload.InStep, Upload.Seen;
    got, done, whole := [], 0, true;
    NothingYet(ops);
    while done < |ops|
      invariant done <= |ops| && u.InStep() && u.received == got && u.sent == Payloads(ops[..done])
      invariant u.Seen() == Model(ops[..done])
    {
      PayloadsStep(ops, done);
      ModelStep(ops, done);
      assert ops[done] in ops;
      var more, ok := UploadStep(u, ops[done]);
      got := got + more;
      if !ok { return got, if ops[done].Send? then done else done + 1, false; }
      done := done + 1;
    }
    u.AllRead();
  }

  /** Whatever is sent and read, in any order and sizes and however the bytes arrive, the client has
      read a prefix of what the device sent; while every transfer completes, each read gives all it
      can from one frame. */
  method RunUpload(ops: seq<Op>) returns (got: seq<Byte>, done: nat, whole: bool)
    requires forall op <- ops :: op.Send? ==> op.payload != [] && |op.payload| < LIMIT
    ensures done <= |ops| && (whole ==> done == |ops|)
    ensures got <= Concat(Payloads(ops[..done]))
    ensures whole ==> got == Model(ops).received
  {
    hide Concat, Wire, Payloads, Frame, Model, Step, Upload.InStep, Upload.Seen;
    var u := new Upload();
    u.SeenReceived();
    got, done, whole := RunFrom(u, ops);
    u.SeenReceived();
    assert ops[..|ops|] == ops;
  }

  function Receives(ops: seq<Op>): nat {
    if ops == [] then 0 else Receives(ops[..|ops| - 1]) + if ops[|ops| - 1].Receive? then 1 else 0
  }

  lemma ReceivesStep(ops: seq<Op>, i: nat)
    requires i < |ops|
    ensures Receives(ops[..i + 1]) == Receives(ops[..i]) + (if ops[i].Receive? then 1 else 0) && Receives(ops[..0]) == 0
  {
    assert ops[..i + 1][..i] == ops[..i];
  }

  /** The device is given the client's payloads, each as one transfer, in order: as many as there were
      turns to forward one. Of each it takes as much as it takes. */
  method RunDownload(ops: seq<Op>) returns (transfers: seq<seq<Byte>>, taken: seq<nat>, done: nat, whole: bool)
    requires forall op <- ops :: op.Send? ==> |op.payload| <= BUFFER
    ensures done <= |ops| && (whole ==> done == |ops|)
    ensures !whole ==> done < |ops| && !ops[done].Arrival?
    ensures transfers <= Payloads(ops[..done])
    ensures |transfers| == Receives(ops[..done]) && Counts(transfers, taken)
  {
    hide Wire, Payloads, Frame, Receives, Counts;
    var d := new Download();
    transfers, taken, done, whole := [], [], 0, true;
    NothingYet(ops);
    assert Receives(ops[..0]) == 0 by { NoReceives(ops); }
    while done < |ops|
      invariant done <= |ops| && d.InStep() && d.transfers == transfers && d.sent == Payloads(ops[..done])
      invariant |transfers| == Receives(ops[..done]) && d.taken == taken
      invariant fresh(d) && fresh(d.socket)
    {
      PayloadsStep(ops, done);
      ReceivesStep(ops, done);
      assert ops[done] in ops;
      match ops[done] {
        case Send(p) =>
          var ok := d.QtcpWrite(p);
          if !ok { return transfers, taken, done, false; }
        case Arrival(n) =>
          d.socket.Arrive(n);
        case Receive(_) =>
          var ok := d.Forward();
          if !ok { return transfers, taken, done, false; }
          transfers, taken := d.transfers, d.taken;
      }
      done := done + 1;
    }
  }

  lemma NoReceives(ops: seq<Op>)
    ensures Receives(ops[..0]) == 0
  {}

  lemma WireFirst(ps: seq<seq<Byte>>)
    requires |Wire(ps)| > 0
    ensures ps != [] && Wire(ps) == Header(|ps[0]|) + (ps[0] + Wire(ps[1..]))
    ensures Wire(ps)[TLV_SIZE..] == ps[0] + Wire(ps[1..])
  {
    hide Header;
    SeqAssoc(Header(|ps[0]|), ps[0], Wire(ps[1..]));
  }

  lemma ConcatFirst(ps: seq<seq<Byte>>)
    requires ps != []
    ensures Concat(ps) == ps[0] + Concat(ps[1..])
  {}
}
