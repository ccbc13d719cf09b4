/** Sahara: the handshake that uploads the flash programmer, over whole runs with any device. */
module Sahara {
  import opened Arith
  import opened LittleEndian

  const RAW_BUF := 4096         // Q_SAHARA_RAW_BUF_SZ
  const WORD := 0x1_0000_0000   // uint32_t
  const HELLO := 0x01
  const READ := 0x03
  const END := 0x04
  const READ64 := 0x12
  const RESPONSE_SIZE := 48     // the hello response with its header
  const DONE_SIZE := 8          // the DONE packet is a header

  /** The fields of a received packet, whichever of them its command gives a meaning. */
  datatype Packet = Packet(cmd: nat, version: nat, supported: nat, mode: nat,
                           imageId: nat, offset: nat, length: nat, status: nat, txStatus: nat)

  /** A write goes out in part when the device does not take it in time; written counts the bytes. */
  datatype Event =
    | Received(packet: Packet)
    | Silence                                  // no packet, or one that is refused
    | Nudge                                    // one byte to a silent device
    | Reset
    | HelloResponse(version: nat, supported: nat, mode: nat, written: nat)
    | Image(piece: seq<Byte>, written: nat)
    | Done(written: nat)

  // ------------------------------------------------------------- the runs allowed

  datatype Phase =
    | Waiting
    | Mute
    | Nudged
    | Greeted(hello: Packet)
    | Ready                                    // hello answered, or what passes for it
    | Serving(offset: nat, length: nat, sent: nat)
    | Refused                                  // a reset is due
    | Ended(imageId: nat)                      // DONE is due
    | Confirming(imageId: nat)                 // DONE written, or tried
    | Finished(imageId: nat, txStatus: nat)
    | Failed
    | Unconfirmed
    | Broken

  function Request(p: Packet): Phase {
    Serving(p.offset % WORD, p.length % WORD, 0)
  }

  /** The piece to send next. */
  function PieceSize(length: nat, sent: nat): nat
    requires sent <= length
  {
    Min(length - sent, RAW_BUF)
  }

  /** The file has no further piece of the range. */
  predicate Exhausted(file: seq<Byte>, offset: nat, length: nat, sent: nat) {
    sent >= length || offset + sent + PieceSize(length, sent) > |file|
  }

  function Served(p: Packet): Phase {
    if p.cmd == READ || p.cmd == READ64 then Request(p)
    else if p.cmd == END then (if p.status == 0 then Ended(p.imageId) else Failed)
    else if p.cmd == HELLO then Ready
    else Refused
  }

  /** What may follow. In a burst, only the next bytes of the file in pieces of full size, all of
      them before anything else is heard unless the file is too short or nothing of a piece went
      out. A write that took any bytes passes for a whole one. */
  function Next(file: seq<Byte>, p: Phase, e: Event): Phase {
    match (p, e)
    case (Waiting, Silence) => Mute
    case (Mute, Nudge) => Nudged
    case (Nudged, Silence) => Failed
    case (Ready, Silence) => Failed
    case (Serving(o, l, n), Silence) => if Exhausted(file, o, l, n) then Failed else Broken
    case (Confirming(_), Silence) => Unconfirmed
    case (Waiting, Received(k)) => if k.cmd == HELLO then Greeted(k) else Refused
    case (Nudged, Received(k)) => if k.cmd == HELLO then Greeted(k) else Refused
    case (Greeted(k), HelloResponse(v, s, m, written)) =>
      if v == k.version && s == k.supported && m == 0 && written <= RESPONSE_SIZE then
        (if written > 0 then Ready else Failed)
      else Broken
    case (Ready, Received(k)) => Served(k)
    case (Serving(o, l, n), Image(piece, written)) =>
      if && n < l && |piece| == PieceSize(l, n) && o + n + |piece| <= |file|
         && piece == file[o + n..o + n + |piece|] && written <= |piece|
      then (if written > 0 then Serving(o, l, n + |piece|) else Ready)
      else Broken
    case (Serving(o, l, n), Received(k)) => if Exhausted(file, o, l, n) then Served(k) else Broken
    case (Refused, Reset) => Failed
    case (Ended(id), Done(written)) => if written <= DONE_SIZE then Confirming(id) else Broken
    case (Confirming(id), Received(k)) => Finished(id, k.txStatus)
    case _ => Broken
  }

  function After(file: seq<Byte>, log: seq<Event>): Phase {
    if log == [] then Waiting
    else Next(file, After(file, log[..|log| - 1]), log[|log| - 1])
  }

  lemma AfterSnoc(file: seq<Byte>, log: seq<Event>, e: Event)
    ensures After(file, log + [e]) == Next(file, After(file, log), e)
  {
    assert (log + [e])[..|log|] == log;
  }

  /** The answers that count as success. */
  predicate Accepts(p: Phase) {
    p.Finished? && (p.txStatus == 1 || (p.txStatus == 0 && p.imageId in {13, 7, 21}))
  }

  // ------------------------------------------------------------- the host

  datatype Rx = Nothing | Got(packet: Packet)

  /** What the device sends in turn; it falls silent at the end. */
  function At(incoming: seq<Rx>, i: nat): Rx {
    if i < |incoming| then incoming[i] else Nothing
  }

  function Script(incoming: seq<Rx>, n: nat): seq<Rx> {
    if n == 0 then [] else Script(incoming, n - 1) + [At(incoming, n - 1)]
  }

  function Heard(log: seq<Event>): seq<Rx> {
    if log == [] then []
    else
      var n := |log| - 1;
      match log[n]
      case Received(k) => Heard(log[..n]) + [Got(k)]
      case Silence => Heard(log[..n]) + [Nothing]
      case _ => Heard(log[..n])
  }

  lemma HeardSnoc(log: seq<Event>, e: Event)
    ensures e.Received? ==> Heard(log + [e]) == Heard(log) + [Got(e.packet)]
    ensures e.Silence? ==> Heard(log + [e]) == Heard(log) + [Nothing]
    ensures !e.Received? && !e.Silence? ==> Heard(log + [e]) == Heard(log)
  {
    assert (log + [e])[..|log|] == log;
  }

  // ------------------------------------------------------------- what the device says

  /** A request or another hello, after which the host goes on listening. */
  predicate Serviced(x: Rx) { x.Got? && x.packet.cmd in {0x01, 0x03, 0x12} }

  /** The hello packet is the i-th thing heard: the first, or the second after a silence. */
  predicate HelloAt(incoming: seq<Rx>, i: nat) {
    && (i == 0 || (i == 1 && At(incoming, 0).Nothing?))
    && At(incoming, i).Got? && At(incoming, i).packet.cmd == 0x01
  }

  /** Requests up to the end of an image with status 0, and a confirmation: status 1, or status 0 for
      the image 13, 7 or 21. */
  ghost predicate ConfirmedAt(incoming: seq<Rx>, i: nat, j: nat) {
    && i < j && (forall n :: i < n < j ==> Serviced(At(incoming, n)))
    && At(incoming, j).Got? && At(incoming, j).packet.cmd == 0x04 && At(incoming, j).packet.status == 0
    && At(incoming, j + 1).Got?
    && var status, id := At(incoming, j + 1).packet.txStatus, At(incoming, j).packet.imageId;
       status == 1 || (status == 0 && (id == 13 || id == 7 || id == 21))
  }

  ghost predicate Confirms(incoming: seq<Rx>) {
    exists i, j :: HelloAt(incoming, i) && ConfirmedAt(incoming, i, j)
  }

  /** At least a byte of a hello response went out. */
  ghost predicate Begun(log: seq<Event>) {
    exists i :: 0 <= i < |log| && log[i].HelloResponse? && log[i].written > 0
  }

  class Host {
    const file: seq<Byte>
    const incoming: seq<Rx>
    var heard: nat
    var log: seq<Event>

    /** The log shows what the device sent, and nothing else as heard from it. */
    ghost predicate Truthful()
      reads this
    {
      Heard(log) == Script(incoming, heard)
    }

    constructor (file: seq<Byte>, incoming: seq<Rx>)
      ensures this.file == file && this.incoming == incoming && log == [] && heard == 0 && Truthful()
    {
      this.file, this.incoming, log, heard := file, incoming, [], 0;
    }

    method Note(e: Event)
      requires Truthful() && !e.Received? && !e.Silence?
      modifies this`log
      ensures Truthful() && After(file, log) == Next(file, old(After(file, log)), e) && log == old(log) + [e]
    {
      AfterSnoc(file, log, e);
      HeardSnoc(log, e);
      log := log + [e];
    }

    /** sahara_rx_data */
    method Rx() returns (rx: Rx)
      requires Truthful()
      modifies this`heard, this`log
      ensures Truthful() && heard == old(heard) + 1 && (rx.Got? ==> heard <= |incoming|)
      ensures rx == At(incoming, old(heard)) && log == old(log) + [if rx.Got? then Received(rx.packet) else Silence]
      ensures After(file, log) == Next(file, old(After(file, log)), if rx.Got? then Received(rx.packet) else Silence)
    {
      rx := At(incoming, heard);
      var e := if rx.Got? then Received(rx.packet) else Silence;
      AfterSnoc(file, log, e);
      HeardSnoc(log, e);
      log := log + [e];
      heard := heard + 1;
    }

    /** sahara_tx_data: how many of n bytes the device took, the rest being dropped. */
    method Tx(n: nat) returns (written: nat)
      ensures written <= n
    {
      written :| 0 <= written <= n;
    }

    /** send_hello_response */
    method SendHelloResponse(k: Packet) returns (ok: bool)
      requires Truthful() && After(file, log) == Greeted(k)
      modifies this`log
      ensures Truthful() && After(file, log) == if ok then Ready else Failed
      ensures exists w :: log == old(log) + [HelloResponse(k.version, k.supported, 0, w)] && (ok <==> w > 0)
    {
      var mode := k.mode;
      if k.mode != 0 {
        mode := 0;
      }
      var written := Tx(RESPONSE_SIZE);
      Note(HelloResponse(k.version, k.supported, mode, written));
      ok := written != 0;
    }

    /** start_image_transfer: the pieces of the range, until the file ends or nothing goes out. */
    method ImageTransfer(k: Packet) returns (ok: bool)
      requires Truthful() && After(file, log) == Request(k)
      modifies this`log
      ensures Truthful() && old(log) <= log
      ensures
        var p := After(file, log);
        p.Ready? || (p.Serving? && Exhausted(file, p.offset, p.length, p.sent))
      ensures ok ==> After(file, log) == Serving(k.offset % WORD, k.length % WORD, k.length % WORD)
    {
      hide After, Next, Heard, Script;
      var dataOffset, dataLength := k.offset % WORD, k.length % WORD;
      var bytesRead := 0;
      while bytesRead < dataLength
        invariant old(log) <= log
        invariant Truthful() && bytesRead <= dataLength && After(file, log) == Serving(dataOffset, dataLength, bytesRead)
        decreases dataLength - bytesRead
      {
        var n := Min(dataLength - bytesRead, RAW_BUF);
        if dataOffset + bytesRead + n > |file| { return false; }
        var written := Tx(n);
        PieceDue(file, dataOffset, dataLength, bytesRead, written);
        Note(Image(file[dataOffset + bytesRead..dataOffset + bytesRead + n], written));
        if written == 0 { return false; }
        bytesRead := bytesRead + n;
      }
      ok := true;
    }

    /** The first packet, with one byte to a device that is silent. */
    method Listen() returns (rx: Rx)
      requires log == [] && heard == 0
      modifies this`heard, this`log
      ensures Truthful() && heard == (if At(incoming, 0).Got? then 1 else 2) && rx == At(incoming, heard - 1)
      ensures
        if At(incoming, 0).Got? then log == [Received(rx.packet)]
        else log == [Silence, Nudge] + [if rx.Got? then Received(rx.packet) else Silence]
    {
      rx := Rx();
      if rx.Nothing? {
        Note(Nudge);
        rx := Rx();
      }
    }

    /** The wait for the hello packet. */
    method Greet() returns (ok: bool)
      requires log == [] && heard == 0
      modifies this`heard, this`log
      ensures Truthful() && After(file, log) == if ok then Ready else Failed
      ensures ok <==> Begun(log)
      ensures ok ==> heard > 0 && HelloAt(incoming, heard - 1)
      ensures |log| >= 2 && (log[1].Nudge? <==> At(incoming, 0).Nothing?)
      ensures
        var x := At(incoming, if At(incoming, 0).Got? then 0 else 1);
        log[|log| - 1].Reset? <==> x.Got? && x.packet.cmd != 0x01
    {
      hide After, Next, Heard, Script, Begun;
      var rx := Listen();
      FirstPhase(file, rx, log);
      ghost var l := log;
      NotBegun(l);
      if rx.Nothing? { return false; }
      if rx.packet.cmd != HELLO {
        ResetDue(file);
        Note(Reset);
        BegunSnoc(l, Reset);
        return false;
      }
      ok := SendHelloResponse(rx.packet);
      ghost var w :| log == l + [HelloResponse(rx.packet.version, rx.packet.supported, 0, w)] && (ok <==> w > 0);
      BegunSnoc(l, log[|log| - 1]);
    }

    /** The requests of the device, up to the end of an image and the DONE packet. */
    method Serve() returns (ok: bool, imageId: nat)
      requires Truthful() && After(file, log) == Ready
      modifies this`heard, this`log
      ensures Truthful() && After(file, log) == if ok then Confirming(imageId) else Failed
      ensures old(log) <= log && old(heard) < heard && forall n :: old(heard) <= n < heard - 1 ==> Serviced(At(incoming, n))
      ensures
        var x := At(incoming, heard - 1);
        && !Serviced(x)
        && (ok <==> x.Got? && x.packet.cmd == 0x04 && x.packet.status == 0) && (ok ==> imageId == x.packet.imageId)
        && (log[|log| - 1].Reset? <==> x.Got? && x.packet.cmd != 0x04)
        && (ok ==> log[|log| - 1].Done?)
    {
      hide Next, After, Heard, Script;
      imageId := 0;
      while true
        invariant Truthful() && old(log) <= log && old(heard) <= heard
        invariant forall n :: old(heard) <= n < heard ==> Serviced(At(incoming, n))
        invariant
          var p := After(file, log);
          p.Ready? || (p.Serving? && Exhausted(file, p.offset, p.length, p.sent))
        decreases |incoming| - heard
      {
        Hears(file, After(file, log));
        var rx := Rx();
        if rx.Nothing? { return false, imageId; }
        var k := rx.packet;
        if k.cmd == READ || k.cmd == READ64 {
          var whole := ImageTransfer(k);
        } else if k.cmd == END {
          if k.status != 0 { return false, imageId; }
          var written := Tx(DONE_SIZE);
          DoneDue(file, k.imageId, written);
          Note(Done(written));
          return true, k.imageId;
        } else if k.cmd != HELLO {
          ResetDue(file);
          Note(Reset);
          return false, imageId;
        }
      }
    }

    /** sahara_flash_all, which always comes to an end, and to success exactly when the device
        confirms. */
    method FlashAll() returns (r: bool)
      requires log == [] && heard == 0
      modifies this`heard, this`log
      ensures Truthful()
      ensures After(file, log).Failed? || After(file, log).Unconfirmed? || After(file, log).Finished?
      ensures r <==> Accepts(After(file, log))
      ensures r <==> Begun(log) && Confirms(incoming)
    {
      hide Begun, Confirms, HelloAt, Serviced, Heard, Script;
      r := Greet();
      if !r { return; }
      ghost var i, greeted := heard - 1, log;
      var imageId;
      r, imageId := Serve();
      BegunStays(greeted, log);
      ghost var j := heard - 1;
      ConfirmsIff(incoming, i, j);
      if !r { return; }
      var rx := Rx();
      BegunStays(greeted, log);
      if rx.Nothing? { return false; }
      r := rx.packet.txStatus == 1;
      if rx.packet.txStatus == 0 {
        r := imageId == 13 || imageId == 7 || imageId == 21;
      }
    }
  }

  /** Where the first packet leaves the host. */
  lemma FirstPhase(file: seq<Byte>, rx: Rx, log: seq<Event>)
    requires
      var e := if rx.Got? then Received(rx.packet) else Silence;
      (rx.Got? && log == [e]) || log == [Silence, Nudge] + [e]
    ensures After(file, log) == if rx.Nothing? then Failed else if rx.packet.cmd == HELLO then Greeted(rx.packet) else Refused
  {
    hide Next;
    assert After(file, []) == Waiting;
    var e := if rx.Got? then Received(rx.packet) else Silence;
    if rx.Got? && log == [e] {
      assert [] + [e] == log;
      AfterSnoc(file, [], e);
      FirstSteps(file, rx);
    } else {
      AfterSnoc(file, [], Silence);
      AfterSnoc(file, [] + [Silence], Nudge);
      assert [] + [Silence] + [Nudge] == [Silence, Nudge];
      AfterSnoc(file, [Silence, Nudge], e);
      FirstSteps(file, rx);
    }
  }

  lemma FirstSteps(file: seq<Byte>, rx: Rx)
    ensures Next(file, Next(file, Waiting, Silence), Nudge) == Nudged
    ensures rx.Got? ==> Next(file, Waiting, Received(rx.packet)) == Next(file, Nudged, Received(rx.packet))
                     == if rx.packet.cmd == HELLO then Greeted(rx.packet) else Refused
    ensures Next(file, Nudged, Silence) == Failed
  {}

  lemma NotBegun(log: seq<Event>)
    requires forall e <- log :: !e.HelloResponse?
    ensures !Begun(log)
  {
    assert forall i :: 0 <= i < |log| ==> log[i] in log;
  }

  lemma BegunSnoc(log: seq<Event>, e: Event)
    ensures Begun(log + [e]) <==> Begun(log) || (e.HelloResponse? && e.written > 0)
  {
    assert (log + [e])[|log|] == e && forall i :: 0 <= i < |log| ==> (log + [e])[i] == log[i];
    if Begun(log) {
      BegunStays(log, log + [e]);
    }
  }

  lemma BegunStays(log: seq<Event>, more: seq<Event>)
    requires Begun(log) && log <= more
    ensures Begun(more)
  {
    var i :| 0 <= i < |log| && log[i].HelloResponse? && log[i].written > 0;
    assert more[i] == log[i];
  }

  /** The first thing heard that is neither a request nor a hello decides. */
  lemma ConfirmsIff(incoming: seq<Rx>, i: nat, j: nat)
    requires HelloAt(incoming, i) && i < j && !Serviced(At(incoming, j))
    requires forall n :: i < n < j ==> Serviced(At(incoming, n))
    ensures Confirms(incoming) <==> ConfirmedAt(incoming, i, j)
  {
    forall k: nat, l: nat | HelloAt(incoming, k) && ConfirmedAt(incoming, k, l) ensures k == i && l == j {
      assert l < j ==> Serviced(At(incoming, l));
    }
  }

  /** While it serves, the host may hear any packet. */
  lemma Hears(file: seq<Byte>, p: Phase)
    requires p.Ready? || (p.Serving? && Exhausted(file, p.offset, p.length, p.sent))
    ensures forall k :: Next(file, p, Received(k)) == Served(k)
    ensures Next(file, p, Silence) == Failed
  {}

  lemma PieceDue(file: seq<Byte>, o: nat, l: nat, n: nat, written: nat)
    requires n < l && o + n + PieceSize(l, n) <= |file| && written <= PieceSize(l, n)
    ensures
      var piece := file[o + n..o + n + PieceSize(l, n)];
      Next(file, Serving(o, l, n), Image(piece, written)) ==
        if written > 0 then Serving(o, l, n + |piece|) else Ready
  {}

  lemma DoneDue(file: seq<Byte>, id: nat, written: nat)
    requires written <= DONE_SIZE
    ensures Next(file, Ended(id), Done(written)) == Confirming(id)
  {}

  lemma ResetDue(file: seq<Byte>)
    ensures Next(file, Refused, Reset) == Failed
  {}

  // ------------------------------------------------------------- what goes over the wire

  /** The size of piece k of a range of l bytes. */
  function Size(l: nat, k: nat): nat {
    if RAW_BUF * k >= l then 0 else Min(l - RAW_BUF * k, RAW_BUF)
  }

  /** Piece k lies in the range and in a file of n bytes, and w bytes of it can have gone out. */
  predicate Possible(n: nat, o: nat, l: nat, k: nat, w: nat) {
    RAW_BUF * k < l && w <= Size(l, k) && o + RAW_BUF * k + Size(l, k) <= n
  }

  /** The counts of a burst, one for each piece; only the last may be zero. */
  predicate Legal(n: nat, o: nat, l: nat, ws: seq<nat>) {
    && (forall k :: 0 <= k < |ws| ==> Possible(n, o, l, k, ws[k]))
    && (forall k :: 0 <= k < |ws| - 1 ==> ws[k] > 0)
  }

  /** The bytes the device gets: of each piece as many as were written. */
  function Wire(file: seq<Byte>, o: nat, l: nat, ws: seq<nat>): seq<Byte>
    requires Legal(|file|, o, l, ws)
  {
    if ws == [] then []
    else
      var m := |ws| - 1;
      assert Possible(|file|, o, l, m, ws[m]);
      Wire(file, o, l, ws[..m]) + file[o + RAW_BUF * m..o + RAW_BUF * m + ws[m]]
  }

  predicate AllWhole(l: nat, ws: seq<nat>) {
    forall k :: 0 <= k < |ws| ==> ws[k] == Size(l, k)
  }

  /** Every piece with something behind it went out whole. */
  predicate NoHole(l: nat, ws: seq<nat>) {
    forall j, k :: 0 <= j < k < |ws| && ws[k] > 0 ==> ws[j] == Size(l, j)
  }

  lemma Join(file: seq<Byte>, a: nat, b: nat, c: nat)
    requires a <= b <= c <= |file|
    ensures file[a..b] + file[b..c] == file[a..c]
  {}

  lemma WireSnoc(file: seq<Byte>, o: nat, l: nat, ws: seq<nat>, w: nat)
    requires Legal(|file|, o, l, ws + [w])
    ensures Legal(|file|, o, l, ws) && Possible(|file|, o, l, |ws|, w)
    ensures Wire(file, o, l, ws + [w]) ==
      Wire(file, o, l, ws) + file[o + RAW_BUF * |ws|..o + RAW_BUF * |ws| + w]
  {
    var t := ws + [w];
    assert t[..|ws|] == ws && t[|ws|] == w;
    assert forall k :: 0 <= k < |ws| ==> t[k] == ws[k];
  }

  /** Whole pieces with more of the range behind them have the buffer's size. */
  lemma WholeSize(n: nat, o: nat, l: nat, ws: seq<nat>, w: nat)
    requires Legal(n, o, l, ws + [w])
    ensures forall k :: 0 <= k < |ws| ==> Size(l, k) == RAW_BUF
  {
    assert (ws + [w])[|ws|] == w;
    assert Possible(n, o, l, |ws|, (ws + [w])[|ws|]);
  }

  /** Whole pieces are the start of the range. */
  lemma {:induction false} WireWhole(file: seq<Byte>, o: nat, l: nat, ws: seq<nat>, w: nat)
    requires Legal(|file|, o, l, ws + [w]) && AllWhole(l, ws)
    ensures Legal(|file|, o, l, ws) && o + RAW_BUF * |ws| + w <= |file|
    ensures Wire(file, o, l, ws) == file[o..o + RAW_BUF * |ws|]
    ensures Wire(file, o, l, ws + [w]) == file[o..o + RAW_BUF * |ws| + w]
    decreases |ws|
  {
    hide Legal, Wire, Size;
    WireSnoc(file, o, l, ws, w);
    WholeSize(|file|, o, l, ws, w);
    Fits(|file|, o, l, |ws|, w);
    if ws == [] {
      WireNone(file, o, l);
    } else {
      var front, v := ws[..|ws| - 1], ws[|ws| - 1];
      assert ws == front + [v];
      WireWhole(file, o, l, front, v);
    }
    Join(file, o, o + RAW_BUF * |ws|, o + RAW_BUF * |ws| + w);
  }

  lemma Fits(n: nat, o: nat, l: nat, k: nat, w: nat)
    requires Possible(n, o, l, k, w)
    ensures o + RAW_BUF * k + w <= n
  {}

  lemma WireNone(file: seq<Byte>, o: nat, l: nat)
    ensures Legal(|file|, o, l, []) && Wire(file, o, l, []) == []
  {}

  /** Without a hole the device has the start of the range. */
  lemma {:induction false} NoHoleIsPrefix(file: seq<Byte>, o: nat, l: nat, ws: seq<nat>)
    requires Legal(|file|, o, l, ws) && NoHole(l, ws) && o <= |file|
    ensures Wire(file, o, l, ws) <= file[o..]
    decreases |ws|
  {
    hide Legal, Wire, Size;
    if ws == [] {
      WireNone(file, o, l);
    } else {
      var front, w := ws[..|ws| - 1], ws[|ws| - 1];
      assert ws == front + [w] && forall k :: 0 <= k < |front| ==> front[k] == ws[k];
      if w == 0 {
        WireSnoc(file, o, l, front, w);
        assert NoHole(l, front);
        NoHoleIsPrefix(file, o, l, front);
        assert file[o + RAW_BUF * |front|..o + RAW_BUF * |front| + w] == [] by { Fits(|file|, o, l, |front|, w); }
      } else {
        assert AllWhole(l, front);
        WireWhole(file, o, l, front, w);
      }
    }
  }

  lemma {:induction false} WirePrefix(file: seq<Byte>, o: nat, l: nat, ws: seq<nat>, m: nat)
    requires Legal(|file|, o, l, ws) && m <= |ws|
    ensures Legal(|file|, o, l, ws[..m]) && Wire(file, o, l, ws[..m]) <= Wire(file, o, l, ws)
    decreases |ws|
  {
    hide Legal, Wire;
    if m == |ws| {
      assert ws[..m] == ws;
    } else {
      var front, w := ws[..|ws| - 1], ws[|ws| - 1];
      assert ws == front + [w] && front[..m] == ws[..m];
      WireSnoc(file, o, l, front, w);
      WirePrefix(file, o, l, front, m);
    }
  }

  /** The first piece that is short although something follows. */
  lemma FirstHole(n: nat, o: nat, l: nat, ws: seq<nat>) returns (j: nat)
    requires Legal(n, o, l, ws) && !NoHole(l, ws)
    ensures j + 1 < |ws| && ws[j] < Size(l, j) && ws[j + 1] > 0 && AllWhole(l, ws[..j])
  {
    hide Size;
    var a, b :| 0 <= a < b < |ws| && ws[b] > 0 && ws[a] != Size(l, a);
    j := 0;
    while ws[j] == Size(l, j)
      invariant j <= a && AllWhole(l, ws[..j])
      decreases a - j
    {
      j := j + 1;
    }
    assert Possible(n, o, l, j, ws[j]);
  }

  lemma LegalAt(n: nat, o: nat, l: nat, ws: seq<nat>, k: nat)
    requires Legal(n, o, l, ws) && k < |ws|
    ensures Possible(n, o, l, k, ws[k]) && Size(l, k) <= RAW_BUF
  {}

  /** A byte that tells the gap: where the hole begins the device gets the first byte of the next
      piece. */
  lemma HoleByte(file: seq<Byte>, o: nat, l: nat, ws: seq<nat>, j: nat)
    requires Legal(|file|, o, l, ws) && j + 1 < |ws| && ws[j] < Size(l, j) && ws[j + 1] > 0 && AllWhole(l, ws[..j])
    ensures RAW_BUF * j + ws[j] < RAW_BUF * (j + 1) && o + RAW_BUF * (j + 1) < |file|
    ensures RAW_BUF * j + ws[j] < |Wire(file, o, l, ws)|
    ensures Wire(file, o, l, ws)[RAW_BUF * j + ws[j]] == file[o + RAW_BUF * (j + 1)]
  {
    hide Legal, Wire, Size, AllWhole, Possible;
    LegalAt(|file|, o, l, ws, j);
    LegalAt(|file|, o, l, ws, j + 1);
    WirePrefix(file, o, l, ws, j + 2);
    WirePrefix(file, o, l, ws, j + 1);
    assert ws[..j + 1] == ws[..j] + [ws[j]] && ws[..j + 2] == ws[..j + 1] + [ws[j + 1]];
    WireWhole(file, o, l, ws[..j], ws[j]);
    WireSnoc(file, o, l, ws[..j + 1], ws[j + 1]);
    Fits(|file|, o, l, j + 1, ws[j + 1]);
    var h := RAW_BUF * j + ws[j];
    assert Wire(file, o, l, ws[..j + 2])[h] == file[o + RAW_BUF * (j + 1)];
  }

  /** The device gets the start of the requested range, whatever the file holds, exactly when every
      piece with something behind it was written whole. */
  lemma BurstPrefixIff(n: nat, o: nat, l: nat, ws: seq<nat>)
    requires Legal(n, o, l, ws) && o <= n
    ensures (forall file: seq<Byte> :: |file| == n ==> Wire(file, o, l, ws) <= file[o..]) <==> NoHole(l, ws)
  {
    hide Legal, Wire, Size;
    if NoHole(l, ws) {
      forall file: seq<Byte> | |file| == n ensures Wire(file, o, l, ws) <= file[o..] {
        NoHoleIsPrefix(file, o, l, ws);
      }
    } else {
      var j := FirstHole(n, o, l, ws);
      var at := o + RAW_BUF * (j + 1);
      var file: seq<Byte> := seq(n, i => if i == at then 1 else 0);
      HoleByte(file, o, l, ws, j);
      var h := RAW_BUF * j + ws[j];
      assert Wire(file, o, l, ws)[h] == 1;
      assert h < |file[o..]| && file[o..][h] == 0;
    }
  }

  /** A request for 8192 bytes, the first piece cut off after one byte: the host goes on to the end of
      the range, and what the device has is not the start of the file. */
  lemma ShortWriteLeavesHole(file: seq<Byte>)
    requires |file| == 8192 && file[1] != file[4096]
    ensures Legal(|file|, 0, 8192, [1, 4096]) && !(Wire(file, 0, 8192, [1, 4096]) <= file)
    ensures
      var p0, p1 := file[0..4096], file[4096..8192];
      Next(file, Next(file, Serving(0, 8192, 0), Image(p0, 1)), Image(p1, 4096)) == Serving(0, 8192, 8192)
  {
    hide Legal, Wire, Size, Next;
    ShortLegal();
    HoleByte(file, 0, 8192, [1, 4096], 0);
    PieceDue(file, 0, 8192, 0, 1);
    PieceDue(file, 0, 8192, 4096, 4096);
  }

  lemma ShortLegal()
    ensures Legal(8192, 0, 8192, [1, 4096]) && Size(8192, 0) == 4096 && AllWhole(8192, [1, 4096][..0])
  {
    var ws: seq<nat> := [1, 4096];
    assert Possible(8192, 0, 8192, 0, ws[0]) && Possible(8192, 0, 8192, 1, ws[1]);
  }

  /** The device has the whole range exactly when every piece was written whole. */
  lemma {:induction false} WireLength(file: seq<Byte>, o: nat, l: nat, ws: seq<nat>)
    requires Legal(|file|, o, l, ws)
    ensures |Wire(file, o, l, ws)| <= Covered(l, |ws|)
    ensures |Wire(file, o, l, ws)| == Covered(l, |ws|) <==> AllWhole(l, ws)
    decreases |ws|
  {
    hide Legal, Wire, Size, AllWhole, Covered, Possible;
    if ws == [] {
      WireNone(file, o, l);
      NoneWhole(l);
    } else {
      var front, w := ws[..|ws| - 1], ws[|ws| - 1];
      assert ws == front + [w];
      WireSnoc(file, o, l, front, w);
      Fits(|file|, o, l, |front|, w);
      CoveredNext(|file|, o, l, |front|, w);
      WholeSnoc(l, front, w);
      WireLength(file, o, l, front);
    }
  }

  lemma NoneWhole(l: nat)
    ensures Covered(l, 0) == 0 && AllWhole(l, [])
  {}

  lemma WholeSnoc(l: nat, ws: seq<nat>, w: nat)
    ensures AllWhole(l, ws + [w]) <==> AllWhole(l, ws) && w == Size(l, |ws|)
  {
    hide Size;
    var t := ws + [w];
    assert t[|ws|] == w && forall k :: 0 <= k < |ws| ==> t[k] == ws[k];
  }

  lemma CoveredNext(n: nat, o: nat, l: nat, k: nat, w: nat)
    requires Possible(n, o, l, k, w)
    ensures Covered(l, k) == RAW_BUF * k && Covered(l, k + 1) == Covered(l, k) + Size(l, k) && w <= Size(l, k)
  {}

  /** How much of the range the first k pieces are. */
  function Covered(l: nat, k: nat): nat {
    Min(RAW_BUF * k, l)
  }

  // ------------------------------------------------------------- what every run shows

  /** The packet the device was last heard with. */
  function Heeded(log: seq<Event>): Rx {
    if log == [] then Nothing
    else if log[|log| - 1].Received? then Got(log[|log| - 1].packet)
    else Heeded(log[..|log| - 1])
  }

  /** Since then: the pieces handed to the device, how much of each went out, and what did. */
  datatype Burst = Burst(offered: seq<Byte>, counts: seq<nat>, sent: seq<Byte>)

  function Longer(b: Burst, e: Event): Burst
    requires e.Image?
  {
    Burst(b.offered + e.piece, b.counts + [e.written], b.sent + e.piece[..Min(e.written, |e.piece|)])
  }

  function Since(log: seq<Event>): Burst {
    if log == [] then Burst([], [], [])
    else
      var b := Since(log[..|log| - 1]);
      match log[|log| - 1]
      case Received(_) => Burst([], [], [])
      case Image(_, _) => Longer(b, log[|log| - 1])
      case _ => b
  }

  function Dones(log: seq<Event>): nat {
    if log == [] then 0
    else Dones(log[..|log| - 1]) + if log[|log| - 1].Done? then 1 else 0
  }

  /** The DONE packets the device got in full. */
  function DonesDelivered(log: seq<Event>): nat {
    if log == [] then 0
    else DonesDelivered(log[..|log| - 1]) + if log[|log| - 1] == Done(DONE_SIZE) then 1 else 0
  }

  predicate AnsweredBy(log: seq<Event>, i: nat, j: nat) {
    && i < j < |log| && log[i].Received? && log[i].packet.cmd == 0x01
    && log[j].HelloResponse? && 0 < log[j].written <= 48
    && log[j] == HelloResponse(log[i].packet.version, log[i].packet.supported, 0, log[j].written)
  }

  /** A hello packet was received, and at least the start of the right answer went out. */
  ghost predicate Answered(log: seq<Event>) {
    exists i, j :: AnsweredBy(log, i, j)
  }

  predicate Greeting(p: Phase) {
    p.Waiting? || p.Mute? || p.Nudged? || p.Greeted? || p.Refused? || p.Failed?
  }

  ghost predicate GreetingOk(p: Phase, log: seq<Event>) {
    && (p.Greeted? ==> log != [] && log[|log| - 1] == Received(p.hello) && p.hello.cmd == HELLO)
    && (!Greeting(p) ==> Answered(log))
  }

  /** What a burst consists of, for the request last heard. */
  predicate BurstOk(file: seq<Byte>, h: Rx, b: Burst) {
    if b.counts == [] then b.offered == [] && b.sent == []
    else
      && h.Got? && h.packet.cmd in {READ, READ64}
      && var o, l := h.packet.offset % WORD, h.packet.length % WORD;
         && Legal(|file|, o, l, b.counts) && b.sent == Wire(file, o, l, b.counts)
         && o + Covered(l, |b.counts|) <= |file| && b.offered == file[o..o + Covered(l, |b.counts|)]
  }

  predicate ServingOk(p: Phase, h: Rx, b: Burst) {
    p.Serving? ==>
      && h.Got? && h.packet.cmd in {READ, READ64}
      && p.offset == h.packet.offset % WORD && p.length == h.packet.length % WORD
      && p.sent == Covered(p.length, |b.counts|)
      && (forall k :: 0 <= k < |b.counts| ==> b.counts[k] > 0)
  }

  predicate DoneOk(p: Phase, log: seq<Event>) {
    && Dones(log) == (if p.Confirming? || p.Unconfirmed? || p.Finished? then 1 else 0)
    && (p.Ended? ==> Heeded(log).Got? && Heeded(log).packet.cmd == END && Heeded(log).packet.status == 0)
  }

  lemma Snoc(log: seq<Event>, e: Event)
    ensures Heeded(log + [e]) == if e.Received? then Got(e.packet) else Heeded(log)
    ensures e.Received? ==> Since(log + [e]) == Burst([], [], [])
    ensures !e.Received? && !e.Image? ==> Since(log + [e]) == Since(log)
    ensures e.Image? ==> Since(log + [e]) == Longer(Since(log), e)
    ensures Dones(log + [e]) == Dones(log) + if e.Done? then 1 else 0
  {
    assert (log + [e])[..|log|] == log;
  }

  lemma {:induction false} AnsweredStays(log: seq<Event>, e: Event)
    requires Answered(log)
    ensures Answered(log + [e])
  {
    var i, j :| AnsweredBy(log, i, j);
    assert AnsweredBy(log + [e], i, j);
  }

  lemma GreetingStep(file: seq<Byte>, p: Phase, log: seq<Event>, e: Event)
    requires GreetingOk(p, log) && Next(file, p, e) != Broken
    ensures GreetingOk(Next(file, p, e), log + [e])
  {
    hide PieceSize, Exhausted;
    if Answered(log) {
      AnsweredStays(log, e);
    }
    if p.Greeted? && e.HelloResponse? && e.written > 0 {
      assert AnsweredBy(log + [e], |log| - 1, |log|);
    }
  }

  /** One more piece of a burst. */
  lemma PieceStep(file: seq<Byte>, p: Phase, h: Rx, b: Burst, e: Event)
    requires p.Serving? && e.Image? && Next(file, p, e) != Broken && BurstOk(file, h, b) && ServingOk(p, h, b)
    ensures BurstOk(file, h, Longer(b, e)) && ServingOk(Next(file, p, e), h, Longer(b, e))
  {
    hide Wire, Next, Legal, Possible, Size;
    ImageInBurst(file, p, e);
    var o, l, k := p.offset, p.length, |b.counts|;
    PieceFits(|file|, o, l, k, |e.piece|, e.written);
    if k == 0 {
      WireNone(file, o, l);
    }
    PieceBytes(file, o, l, b.counts, e.written, e.piece);
  }

  lemma PieceFits(n: nat, o: nat, l: nat, k: nat, m: nat, w: nat)
    requires Covered(l, k) < l && m == PieceSize(l, Covered(l, k)) && o + Covered(l, k) + m <= n && w <= m
    ensures Possible(n, o, l, k, w) && Covered(l, k) == RAW_BUF * k && Covered(l, k + 1) == Covered(l, k) + m
  {}

  /** What one more piece adds to the wire and to the range covered. */
  lemma PieceBytes(file: seq<Byte>, o: nat, l: nat, ws: seq<nat>, w: nat, piece: seq<Byte>)
    requires Legal(|file|, o, l, ws) && Possible(|file|, o, l, |ws|, w) && forall k :: 0 <= k < |ws| ==> ws[k] > 0
    requires w <= |piece| && o + RAW_BUF * |ws| + |piece| <= |file|
    requires piece == file[o + RAW_BUF * |ws|..o + RAW_BUF * |ws| + |piece|]
    ensures Legal(|file|, o, l, ws + [w]) && Wire(file, o, l, ws + [w]) == Wire(file, o, l, ws) + piece[..w]
    ensures file[o..o + RAW_BUF * |ws|] + piece == file[o..o + RAW_BUF * |ws| + |piece|]
  {
    hide Wire, Legal, Possible;
    var n := o + RAW_BUF * |ws|;
    OneMore(|file|, o, l, ws, w);
    WireSnoc(file, o, l, ws, w);
    Join(file, o, n, n + |piece|);
    assert piece[..w] == file[n..n + w];
  }

  lemma OneMore(n: nat, o: nat, l: nat, ws: seq<nat>, w: nat)
    requires Legal(n, o, l, ws) && Possible(n, o, l, |ws|, w) && forall k :: 0 <= k < |ws| ==> ws[k] > 0
    ensures Legal(n, o, l, ws + [w])
  {
    var t := ws + [w];
    forall k | 0 <= k < |t| ensures Possible(n, o, l, k, t[k]) {
      assert k < |ws| ==> t[k] == ws[k];
    }
  }

  lemma ImageInBurst(file: seq<Byte>, p: Phase, e: Event)
    requires e.Image? && Next(file, p, e) != Broken
    ensures p.Serving? && p.sent < p.length && |e.piece| == PieceSize(p.length, p.sent)
    ensures p.offset + p.sent + |e.piece| <= |file| && e.written <= |e.piece|
    ensures e.piece == file[p.offset + p.sent..p.offset + p.sent + |e.piece|]
    ensures Next(file, p, e) ==
      if e.written > 0 then Serving(p.offset, p.length, p.sent + |e.piece|) else Ready
  {
    hide PieceSize;
  }

  lemma BurstStep(file: seq<Byte>, p: Phase, log: seq<Event>, e: Event)
    requires Next(file, p, e) != Broken
    requires BurstOk(file, Heeded(log), Since(log)) && ServingOk(p, Heeded(log), Since(log))
    ensures BurstOk(file, Heeded(log + [e]), Since(log + [e]))
    ensures ServingOk(Next(file, p, e), Heeded(log + [e]), Since(log + [e]))
  {
    hide BurstOk, Heeded, Since, Longer;
    Snoc(log, e);
    if e.Image? {
      ImageInBurst(file, p, e);
      PieceStep(file, p, Heeded(log), Since(log), e);
    } else if e.Received? {
      NoBurst(file, Got(e.packet));
    }
  }

  lemma NoBurst(file: seq<Byte>, h: Rx)
    ensures BurstOk(file, h, Burst([], [], []))
  {}

  lemma DoneStep(file: seq<Byte>, p: Phase, log: seq<Event>, e: Event)
    requires DoneOk(p, log) && Next(file, p, e) != Broken
    ensures DoneOk(Next(file, p, e), log + [e])
  {
    hide PieceSize, Exhausted, Heeded, Dones, Since, Longer;
    Snoc(log, e);
  }

  lemma {:induction false} RunOk(file: seq<Byte>, log: seq<Event>)
    requires After(file, log) != Broken
    ensures GreetingOk(After(file, log), log)
    ensures BurstOk(file, Heeded(log), Since(log)) && ServingOk(After(file, log), Heeded(log), Since(log))
    ensures DoneOk(After(file, log), log)
    decreases |log|
  {
    hide Next, GreetingOk, BurstOk, ServingOk, DoneOk, Heeded, Since;
    if log == [] {
      StartOk(file);
    } else {
      var l, e := log[..|log| - 1], log[|log| - 1];
      assert log == l + [e];
      BrokenStays(file, e);
      RunOk(file, l);
      var p := After(file, l);
      GreetingStep(file, p, l, e);
      BurstStep(file, p, l, e);
      DoneStep(file, p, l, e);
    }
  }

  lemma StartOk(file: seq<Byte>)
    ensures GreetingOk(Waiting, []) && DoneOk(Waiting, [])
    ensures BurstOk(file, Heeded([]), Since([])) && ServingOk(Waiting, Heeded([]), Since([]))
  {}

  lemma BrokenStays(file: seq<Byte>, e: Event)
    ensures Next(file, Broken, e) == Broken
  {}

  lemma {:induction false} PrefixOk(file: seq<Byte>, log: seq<Event>, n: nat)
    requires After(file, log) != Broken && n <= |log|
    ensures After(file, log[..n]) != Broken
    ensures n < |log| ==> Next(file, After(file, log[..n]), log[n]) != Broken
    decreases |log|
  {
    hide Next;
    if n < |log| {
      var l, e := log[..|log| - 1], log[|log| - 1];
      BrokenStays(file, e);
      PrefixOk(file, l, n);
      assert l[..n] == log[..n];
    } else {
      assert log[..n] == log;
    }
  }

  // ------------------------------------------------------------- main results

  /** Before any image byte a hello packet was received and its answer begun, and no DONE was
      tried. */
  lemma HelloFirst(file: seq<Byte>, log: seq<Event>, i: nat)
    requires After(file, log) != Broken && i < |log| && log[i].Image?
    ensures Answered(log[..i]) && Dones(log[..i]) == 0 && |log[i].piece| <= 4096
  {
    hide Answered, After, Next, Dones;
    PrefixOk(file, log, i);
    RunOk(file, log[..i]);
    ImageInBurst(file, After(file, log[..i]), log[i]);
  }

  /** At every moment of a burst the pieces offered are the requested part of the file from its start,
      and what the device got is of each piece as much as was written. */
  lemma ImageBytes(file: seq<Byte>, log: seq<Event>)
    requires After(file, log) != Broken && Since(log).counts != []
    ensures Heeded(log).Got? && Heeded(log).packet.cmd in {0x03, 0x12}
    ensures
      var b, o, l := Since(log), Heeded(log).packet.offset % 0x1_0000_0000, Heeded(log).packet.length % 0x1_0000_0000;
      && Legal(|file|, o, l, b.counts)
      && o + |b.offered| <= |file| && |b.offered| <= l && b.offered == file[o..o + |b.offered|]
      && b.sent == Wire(file, o, l, b.counts)
  {
    hide Heeded, Since, After, Wire, Legal;
    RunOk(file, log);
  }

  /** So the device has the start of the requested range if no piece with something behind it was cut
      short; BurstPrefixIff says that otherwise it depends on luck. */
  lemma BurstInOrder(file: seq<Byte>, log: seq<Event>)
    requires After(file, log) != Broken && Since(log).counts != []
    requires Heeded(log).Got? && NoHole(Heeded(log).packet.length % WORD, Since(log).counts)
    ensures
      var o := Heeded(log).packet.offset % WORD;
      o <= |file| && Since(log).sent <= file[o..]
  {
    hide Heeded, Since, After, Wire, Legal, NoHole;
    ImageBytes(file, log);
    NoHoleIsPrefix(file, Heeded(log).packet.offset % WORD, Heeded(log).packet.length % WORD, Since(log).counts);
  }

  /** When the device is heard again and no piece came to nothing, it has the whole range that the file
      holds exactly when every piece was written whole. */
  lemma BurstWholeIff(file: seq<Byte>, log: seq<Event>, i: nat)
    requires After(file, log) != Broken && i < |log| && log[i].Received? && After(file, log[..i]).Serving?
    ensures Heeded(log[..i]).Got?
    ensures
      var b, k := Since(log[..i]), Heeded(log[..i]).packet;
      var o, l := k.offset % WORD, k.length % WORD;
      0 < l && o + l <= |file| ==> (b.sent == file[o..o + l] <==> AllWhole(l, b.counts))
  {
    hide Heeded, Since, After, Wire, Legal, AllWhole, Next;
    PrefixOk(file, log, i);
    RunOk(file, log[..i]);
    var p, b := After(file, log[..i]), Since(log[..i]);
    HeardWhenExhausted(file, p, log[i]);
    var o, l := p.offset, p.length;
    if 0 < l && o + l <= |file| {
      assert p.sent == l;
      WireLength(file, o, l, b.counts);
      if AllWhole(l, b.counts) {
        WholeRange(file, o, l, b.counts);
      }
    }
  }

  lemma WholeRange(file: seq<Byte>, o: nat, l: nat, ws: seq<nat>)
    requires Legal(|file|, o, l, ws) && AllWhole(l, ws) && Covered(l, |ws|) == l && ws != []
    ensures o + l <= |file| && Wire(file, o, l, ws) == file[o..o + l]
  {
    var front, w := ws[..|ws| - 1], ws[|ws| - 1];
    assert ws == front + [w] && forall k :: 0 <= k < |front| ==> front[k] == ws[k];
    assert Possible(|file|, o, l, |front|, w) && w == Size(l, |front|);
    hide Legal, Wire;
    WireWhole(file, o, l, front, w);
  }

  lemma HeardWhenExhausted(file: seq<Byte>, p: Phase, e: Event)
    requires p.Serving? && e.Received? && Next(file, p, e) != Broken
    ensures Exhausted(file, p.offset, p.length, p.sent)
  {}

  /** A DONE is tried at once on the end of an image with status 0, and only once. */
  lemma DoneAfterEnd(file: seq<Byte>, log: seq<Event>, i: nat)
    requires After(file, log) != Broken && i < |log| && log[i].Done?
    ensures Heeded(log[..i]).Got? && Heeded(log[..i]).packet.cmd == 0x04 && Heeded(log[..i]).packet.status == 0
    ensures Dones(log[..i]) == 0
  {
    hide Heeded, Dones, After;
    PrefixOk(file, log, i);
    RunOk(file, log[..i]);
    assert After(file, log[..i]).Ended?;
  }

  /** A run that succeeds tried exactly one DONE, which the device got exactly when its write was
      whole, after the hello was answered. */
  lemma Success(file: seq<Byte>, log: seq<Event>)
    requires Accepts(After(file, log))
    ensures Dones(log) == 1 && Answered(log)
    ensures DonesDelivered(log) == 1 <==> exists i :: 0 <= i < |log| && log[i] == Done(8)
    ensures DonesDelivered(log) <= 1
  {
    hide After, Dones, Answered;
    RunOk(file, log);
    Delivered(log);
  }

  lemma {:induction false} Delivered(log: seq<Event>)
    ensures DonesDelivered(log) <= Dones(log)
    ensures DonesDelivered(log) > 0 <==> exists i :: 0 <= i < |log| && log[i] == Done(DONE_SIZE)
    decreases |log|
  {
    if log != [] {
      var l := log[..|log| - 1];
      Delivered(l);
      assert forall i :: 0 <= i < |l| ==> l[i] == log[i];
    }
  }

  /** A run can succeed although one byte of the hello response and none of the DONE went out. */
  lemma SuccessUnheard(file: seq<Byte>, hello: Packet, end: Packet, last: Packet)
    requires hello.cmd == HELLO && end.cmd == END && end.status == 0 && last.txStatus == 1
    ensures
      var log := [Received(hello), HelloResponse(hello.version, hello.supported, 0, 1), Received(end),
                  Done(0), Received(last)];
      Accepts(After(file, log)) && DonesDelivered(log) == 0
  {
    hide After, DonesDelivered;
    var a, b, c, d, e := Received(hello), HelloResponse(hello.version, hello.supported, 0, 1), Received(end),
      Done(0), Received(last);
    After0(file);
    After1(file, [], a);
    After1(file, [] + [a], b);
    After1(file, [] + [a] + [b], c);
    After1(file, [] + [a] + [b] + [c], d);
    After1(file, [] + [a] + [b] + [c] + [d], e);
    assert [] + [a] + [b] + [c] + [d] + [e] == [a, b, c, d, e];
  }

  lemma After0(file: seq<Byte>)
    ensures After(file, []) == Waiting && DonesDelivered([]) == 0
  {}

  lemma After1(file: seq<Byte>, log: seq<Event>, e: Event)
    ensures After(file, log + [e]) == Next(file, After(file, log), e)
    ensures DonesDelivered(log + [e]) == DonesDelivered(log) + if e == Done(DONE_SIZE) then 1 else 0
  {
    assert (log + [e])[..|log|] == log;
  }
}
