/** Programming an image that is not sparse: the number of sectors announced, and the
    pieces in which the file is streamed. */
module RawImage {
  import opened Arith
  import opened LittleEndian
  import opened SparseProgram
  import opened Sequences

  const GPT_CUT := 512
  const SIZE_MOD := 0x1_0000_0000_0000_0000  // size_t

  /** fh_fixup_program_cmd: the sectors announced for a file of n bytes. */
  function AnnouncedSectors(n: nat, size: nat, gptEmpty: bool): int
    requires size > 0
  {
    CeilDiv(n, size) - if gptEmpty then 1 else 0
  }

  /** How many bytes fh_send_rawmode_image means to send; for gpt_empty0.bin 512 less, in
      size_t arithmetic. */
  function BytesToSend(n: nat, gptEmpty: bool): nat {
    if gptEmpty then (n - GPT_CUT) % SIZE_MOD else n
  }

  /** The pieces written from position pos of the file on, sent bytes having gone out. */
  function Pieces(file: seq<Byte>, pos: nat, sent: nat, total: nat, max: nat, size: nat): seq<seq<Byte>>
    requires size > 0 && pos <= |file|
    decreases |file| - pos
  {
    if sent >= total then []
    else
      var n := Min(Wanted(sent, total, max), |file| - pos);
      if n == 0 then []
      else
        var piece := PadTo(file[pos..pos + n], size);
        [piece] + Pieces(file, pos + n, sent + |piece|, total, max, size)
  }

  function Wanted(sent: nat, total: nat, max: nat): nat
    requires sent < total
  {
    if total < sent + max then total - sent else max
  }

  lemma PiecesMore(file: seq<Byte>, pos: nat, sent: nat, total: nat, max: nat, size: nat, n: nat)
    requires size > 0 && pos <= |file| && sent < total
    requires n == Min(Wanted(sent, total, max), |file| - pos) && n > 0
    ensures
      var piece := PadTo(file[pos..pos + n], size);
      Pieces(file, pos, sent, total, max, size) == [piece] + Pieces(file, pos + n, sent + |piece|, total, max, size)
  {
    hide PadTo;
  }

  lemma PiecesDone(file: seq<Byte>, pos: nat, sent: nat, total: nat, max: nat, size: nat)
    requires size > 0 && pos <= |file|
    requires sent >= total || Min(Wanted(sent, total, max), |file| - pos) == 0
    ensures Pieces(file, pos, sent, total, max, size) == []
  {
    hide PadTo;
  }

  /** The size the loop starts from, with the cut for the empty partition table. */
  method ToSend(n: nat, gptEmpty: bool) returns (filesize: nat)
    requires n < SIZE_MOD
    ensures filesize == BytesToSend(n, gptEmpty)
  {
    filesize := n;
    if gptEmpty {
      filesize := (filesize - GPT_CUT) % SIZE_MOD;
    }
  }

  /** fh_send_rawmode_image on a plain image: the pieces that went out whole. The first write that
      is short ends the loop. */
  method SendRawmodeImage(file: seq<Byte>, size: nat, max: nat, gptEmpty: bool)
    returns (pieces: seq<seq<Byte>>, short: bool, ok: bool)
    requires size > 0 && |file| < SIZE_MOD
    ensures
      var all := Pieces(file, 0, 0, BytesToSend(|file|, gptEmpty), max, size);
      if short then pieces < all && !ok else pieces == all
    ensures ok <==> |Concat(pieces)| >= BytesToSend(|file|, gptEmpty)
  {
    hide PadTo, Concat, Pieces, BytesToSend;
    pieces := [];
    var filesize := ToSend(|file|, gptEmpty);
    var filesend: nat := 0;
    var pos: nat := 0;
    ghost var all := Pieces(file, 0, 0, filesize, max, size);
    assert [] + Pieces(file, 0, 0, filesize, max, size) == all;
    ConcatNil<Byte>();
    short := false;
    while filesend < filesize
      invariant pos <= |file| && all == pieces + Pieces(file, pos, filesend, filesize, max, size)
      invariant filesend == |Concat(pieces)|
      decreases |file| - pos
    {
      var n := Min(Wanted(filesend, filesize, max), |file| - pos);
      if n > 0 {
        var piece := PadTo(file[pos..pos + n], size);
        PiecesMore(file, pos, filesend, filesize, max, size, n);
        SeqAssoc(pieces, [piece], Pieces(file, pos + n, filesend + |piece|, filesize, max, size));
        ConcatSnoc(pieces, piece);
        var taken: bool := *;
        if !taken { return pieces, true, false; }
        pieces := pieces + [piece];
        filesend := filesend + |piece|;
        pos := pos + n;
      } else {
        break;
      }
    }
    PiecesDone(file, pos, filesend, filesize, max, size);
    assert pieces + [] == pieces;
    ok := filesend >= filesize;
  }

  // ------------------------------------------------------------- what is sent

  lemma {:induction false} AlignedPieces(file: seq<Byte>, pos: nat, total: nat, max: nat, size: nat)
    requires size > 0 && max > 0 && max % size == 0 && pos <= total <= |file|
    requires pos % size == 0
    ensures Concat(Pieces(file, pos, pos, total, max, size)) == PadTo(file[pos..total], size)
    ensures forall p <- Pieces(file, pos, pos, total, max, size) :: |p| <= max && |p| % size == 0
    decreases total - pos
  {
    hide PadTo, Concat;
    if pos == total {
      assert file[pos..total] == [];
      PadLonger([], size);
      ConcatNil<Byte>();
    } else {
      if total <= pos + max {
        var piece := PadTo(file[pos..total], size);
        PadLength(file[pos..total], size);
        CeilWithin(total - pos, max, size);
        LastPiece(file, pos, total, max, size);
        ConcatOne(piece);
      } else {
        var piece := file[pos..pos + max];
        PadPiece(file, pos, max, total - pos, size);
        ModSkip(pos, max, size);
        AlignedPieces(file, pos + max, total, max, size);
        ConcatCons(piece, Pieces(file, pos + max, pos + max, total, max, size));
      }
    }
  }

  lemma PadLength(s: seq<Byte>, size: nat)
    requires size > 0
    ensures |PadTo(s, size)| == CeilDiv(|s|, size) * size && |PadTo(s, size)| % size == 0
  {
    var q := |s| / size;
    assert |s| == q * size + |s| % size;
    Distribute(q, 1, size);
    Multiple(CeilDiv(|s|, size), size);
  }

  lemma CeilWithin(n: nat, max: nat, size: nat)
    requires size > 0 && n <= max && max % size == 0
    ensures CeilDiv(n, size) * size <= max
  {
    var q := max / size;
    assert max == q * size;
    CeilAtMost(n, q, size);
    NotNegative(q - CeilDiv(n, size), size);
    Distribute(q - CeilDiv(n, size), CeilDiv(n, size), size);
  }

  /** The piece that reaches the total is the last. */
  lemma LastPiece(file: seq<Byte>, pos: nat, total: nat, max: nat, size: nat)
    requires size > 0 && pos < total <= |file| && total <= pos + max
    ensures Pieces(file, pos, pos, total, max, size) == [PadTo(file[pos..total], size)]
  {
    hide PadTo;
    PadLonger(file[pos..total], size);
    var piece := PadTo(file[pos..total], size);
    assert Pieces(file, pos, pos, total, max, size) == [piece] + Pieces(file, total, pos + |piece|, total, max, size);
  }

  /** The pieces stay within the payload buffer, which has the size of the limit, and are the file
      padded with zeros once at the end. */
  ghost predicate SentRight(file: seq<Byte>, max: nat, size: nat)
    requires size > 0
  {
    var pieces := Pieces(file, 0, 0, |file|, max, size);
    (forall p <- pieces :: |p| <= max) && Concat(pieces) == PadTo(file, size)
  }

  /** Every file of n bytes goes out right. */
  ghost predicate Faithful(n: nat, max: nat, size: nat)
    requires size > 0
  {
    forall file: seq<Byte> :: |file| == n ==> SentRight(file, max, size)
  }

  /** That is so exactly when the payload limit is a whole number of sectors, or the padded file fits
      into one piece. */
  lemma FaithfulIff(n: nat, max: nat, size: nat)
    requires size > 0 && n > 0
    ensures Faithful(n, max, size) <==> max > 0 && (max % size == 0 || CeilDiv(n, size) * size <= max)
  {
    hide SentRight;
    if max > 0 && (max % size == 0 || CeilDiv(n, size) * size <= max) {
      forall file: seq<Byte> | |file| == n ensures SentRight(file, max, size) {
        AllRight(file, max, size);
      }
    } else {
      var file: seq<Byte> := seq(n, _ => 1);
      NotRight(file, max, size);
    }
  }

  lemma AllRight(file: seq<Byte>, max: nat, size: nat)
    requires size > 0 && max > 0 && (max % size == 0 || CeilDiv(|file|, size) * size <= max) && file != []
    ensures SentRight(file, max, size)
  {
    hide PadTo, Concat, Pieces, CeilDiv;
    assert file[0..|file|] == file;
    if max % size == 0 {
      AlignedPieces(file, 0, |file|, max, size);
    } else {
      PadLength(file, size);
      PadLonger(file, size);
      LastPiece(file, 0, |file|, max, size);
      ConcatOne(PadTo(file, size));
    }
  }

  lemma NotRight(file: seq<Byte>, max: nat, size: nat)
    requires size > 0 && file != [] && (max == 0 || (max % size != 0 && CeilDiv(|file|, size) * size > max))
    ensures !SentRight(file, max, size)
  {
    hide PadTo, Concat, Pieces, CeilDiv;
    assert file[0..|file|] == file;
    var pieces := Pieces(file, 0, 0, |file|, max, size);
    if max == 0 {
      NothingSent(file, |file|, size);
      PadLonger(file, size);
    } else if |file| <= max {
      PadLength(file, size);
      LastPiece(file, 0, |file|, max, size);
      assert PadTo(file, size) in pieces;
    } else {
      ZerosInside(file, max, size);
      assert pieces[0] in pieces;
    }
  }

  lemma NothingSent(file: seq<Byte>, n: nat, size: nat)
    requires size > 0
    ensures Concat(Pieces(file, 0, 0, n, 0, size)) == []
  {
    ConcatNil<Byte>();
  }

  /** A payload limit that ends inside a sector: the first piece of every longer file is padded past
      the limit, and if that does no other harm, zeros stand in the middle of what arrives. */
  lemma ZerosInside(file: seq<Byte>, max: nat, size: nat)
    requires size > 0 && 0 < max < |file| && max % size != 0
    ensures
      var pieces := Pieces(file, 0, 0, |file|, max, size);
      var sent := Concat(pieces);
      && pieces != [] && |pieces[0]| == CeilDiv(max, size) * size
      && |sent| >= CeilDiv(max, size) * size > max
      && sent[..max] == file[..max]
      && (forall i :: max <= i < CeilDiv(max, size) * size ==> sent[i] == 0)
      && (file[max] != 0 ==> sent != PadTo(file, size))
  {
    hide Concat;
    var first := PadTo(file[0..max], size);
    PadLength(file[0..max], size);
    ConcatCons(first, Pieces(file, max, |first|, |file|, max, size));
    assert first[..max] == file[..max];
    assert PadTo(file, size)[max] == file[max];
  }

  lemma CeilAsFloor(n: nat, d: nat)
    requires n > 0 && d > 0
    ensures CeilDiv(n, d) == (n - 1) / d + 1
  {
    var q, r := (n - 1) / d, (n - 1) % d;
    assert n - 1 == q * d + r;
    if r + 1 < d {
      ModUnique(n, d, q, r + 1);
    } else {
      Distribute(q, 1, d);
      ModUnique(n, d, q + 1, 0);
    }
  }

  /** The bytes sent fill exactly the sectors announced: for every plain image ... */
  lemma SectorsAnnounced(file: seq<Byte>, max: nat, size: nat)
    requires size > 0 && max > 0 && max % size == 0 && file != []
    ensures |Concat(Pieces(file, 0, 0, BytesToSend(|file|, false), max, size))| == AnnouncedSectors(|file|, size, false) * size
    ensures forall p <- Pieces(file, 0, 0, BytesToSend(|file|, false), max, size) :: |p| <= max
  {
    hide PadTo, Concat, Pieces;
    AlignedPieces(file, 0, |file|, max, size);
    assert file[0..|file|] == file;
    PadLength(file, size);
  }

  /** ... and for gpt_empty0.bin exactly when leaving out 512 bytes frees just one sector. */
  lemma GptSectorsIff(file: seq<Byte>, max: nat, size: nat)
    requires size > 0 && max > 0 && max % size == 0 && GPT_CUT <= |file| < SIZE_MOD
    ensures |Concat(Pieces(file, 0, 0, BytesToSend(|file|, true), max, size))| == AnnouncedSectors(|file|, size, true) * size
       <==> GPT_CUT - size <= (|file| - 1) % size < GPT_CUT
  {
    hide PadTo, Concat, Pieces;
    var n := |file|;
    var m := n - GPT_CUT;
    AlignedPieces(file, 0, m, max, size);
    PadLength(file[0..m], size);
    CeilAsFloor(n, size);
    var q, r := (n - 1) / size, (n - 1) % size;
    assert n - 1 == q * size + r;
    CutSectors(n, size);
    SameProduct(CeilDiv(m, size), q, size);
  }

  lemma SameProduct(a: int, b: int, size: nat)
    requires size > 0
    ensures a * size == b * size <==> a == b
  {
    MulBound(a - b, size);
    Distribute(a - b, b, size);
  }

  lemma CutSectors(n: nat, size: nat)
    requires size > 0 && n >= GPT_CUT
    ensures CeilDiv(n - GPT_CUT, size) == (n - 1) / size <==> GPT_CUT - size <= (n - 1) % size < GPT_CUT
  {
    var m := n - GPT_CUT;
    var q, r := (n - 1) / size, (n - 1) % size;
    assert n - 1 == q * size + r;
    var c := CeilDiv(m, size);
    CeilBounds(m, size);
    Distribute(c, -1, size);
    Distribute(q, -1, size);
    MulBound(c - q, size);
    Distribute(c - q, q, size);
  }

  lemma CeilBounds(m: nat, size: nat)
    requires size > 0
    ensures CeilDiv(m, size) * size - size < m <= CeilDiv(m, size) * size
  {
    var q := m / size;
    assert m == q * size + m % size;
    Distribute(q, 1, size);
  }

  /** With sectors of 512 bytes it always does; with sectors of 4096 bytes it need not. */
  lemma GptSectorSizes(file: seq<Byte>, max: nat)
    requires max > 0 && GPT_CUT <= |file| < SIZE_MOD
    ensures max % 512 == 0 ==>
              |Concat(Pieces(file, 0, 0, BytesToSend(|file|, true), max, 512))| == AnnouncedSectors(|file|, 512, true) * 512
    ensures max % 4096 == 0 && |file| == 8192 ==>
              |Concat(Pieces(file, 0, 0, BytesToSend(|file|, true), max, 4096))| != AnnouncedSectors(|file|, 4096, true) * 4096
  {
    hide PadTo, Concat, Pieces;
    if max % 512 == 0 {
      GptSectorsIff(file, max, 512);
    }
    if max % 4096 == 0 {
      GptSectorsIff(file, max, 4096);
    }
  }
}
