/** When programming a sparse image means what the format says, fill chunks included. */
module SparseTheorem {
  import opened Arith
  import opened LittleEndian
  import opened SparseImage
  import opened SparseProgram
  import opened SparseMeaning
  import opened SparseWrap

  function Fills(cs: seq<Chunk>): nat {
    if cs == [] then 0 else (if cs[0].Fill? then 1 else 0) + Fills(cs[1..])
  }

  function FillBlocks(cs: seq<Chunk>): nat {
    if cs == [] then 0 else (if cs[0].Fill? then cs[0].blocks else 0) + FillBlocks(cs[1..])
  }

  const ZERO: seq<Byte> := [0, 0, 0, 0]

  /** A fill chunk is streamed as its four bytes padded with zeros. That is right for single blocks
      of one sector only: in sectors of four bytes, or for one chunk of zeros. */
  predicate FillsFit(img: Image, size: nat) {
    forall c <- img.chunks :: c.Fill? ==>
      && img.blockSize == size && c.blocks == 1
      && (size == 4 || (c.value == ZERO && Fills(img.chunks) == 1))
  }

  /** The images that are written as the format says. */
  predicate Supported(img: Image, size: nat) {
    AllGap(img.chunks) || (Placed(img, size) && FillsFit(img, size))
  }

  // ------------------------------------------------------------- counting, in blocks of one sector

  /** The announced sectors are as many as the blocks. */
  predicate GoodRun(run: seq<Chunk>, size: nat) {
    Singles(run) && (size == 4 || Fills(run) <= 1)
  }

  lemma {:induction false} RunNumbers(run: seq<Chunk>, size: nat)
    requires DataRun(run, size)
    ensures Fills(run) <= FillBlocks(run) <= Sum(run).blocks
    ensures Sum(run).bytes == (Sum(run).blocks - FillBlocks(run)) * size + 4 * Fills(run)
    decreases |run|
  {
    if run != [] {
      var c, rest := run[0], run[1..];
      assert c in run && forall x <- rest :: x in run;
      RunNumbers(rest, size);
      Distribute(if c.Fill? then 0 else c.blocks, Sum(rest).blocks - FillBlocks(rest), size);
    }
  }

  predicate Singles(run: seq<Chunk>) {
    forall c <- run :: c.Fill? ==> c.blocks == 1
  }

  lemma {:induction false} FillsSingle(run: seq<Chunk>, size: nat)
    requires DataRun(run, size)
    ensures Fills(run) <= FillBlocks(run)
    ensures FillBlocks(run) == Fills(run) <==> Singles(run)
    decreases |run|
  {
    if run != [] {
      var c, rest := run[0], run[1..];
      assert c in run && forall x <- rest :: x in run;
      assert WellFormedChunk(c, size);
      FillsSingle(rest, size);
      hide Singles, DataRun;
      SinglesFirst(run);
    }
  }

  lemma SinglesFirst(run: seq<Chunk>)
    requires run != []
    ensures Singles(run) <==> (run[0].Fill? ==> run[0].blocks == 1) && Singles(run[1..])
  {
    assert forall x :: x in run <==> x == run[0] || x in run[1..];
  }

  /** Never more sectors are announced than the run has blocks, and fewer unless it is good. */
  lemma RunCeil(run: seq<Chunk>, size: nat)
    requires size >= 4 && size % 4 == 0 && DataRun(run, size)
    ensures CeilDiv(Sum(run).bytes, size) <= Sum(run).blocks
    ensures !GoodRun(run, size) ==> CeilDiv(Sum(run).bytes, size) < Sum(run).blocks
  {
    hide Sum, DataRun, Fills, FillBlocks, CeilDiv, Singles;
    RunNumbers(run, size);
    FillsSingle(run, size);
    var b, f, g := Sum(run).blocks, Fills(run), FillBlocks(run);
    FourTimes(f, size);
    Distribute(b - g, f, size);
    CeilAtMost(Sum(run).bytes, b - g + f, size);
    if g == f && size != 4 && f > 1 {
      FourLess(f, size);
      Distribute(b - g, f - 1, size);
      CeilAtMost(Sum(run).bytes, b - 1, size);
    }
  }

  lemma FourTimes(f: nat, size: nat)
    requires size >= 4
    ensures 4 * f <= f * size
  {}

  lemma FourLess(f: nat, size: nat)
    requires size >= 8 && f >= 2
    ensures 4 * f <= (f - 1) * size
  {
    FourTimes(f - 1, size - 4);
    Distribute(f - 1, 0, size);
    assert (f - 1) * size == (f - 1) * (size - 4) + (f - 1) * 4;
  }

  predicate AllGood(us: seq<Unit>, size: nat) {
    forall u <- us :: GoodRun(u.run, size)
  }

  lemma {:induction false} SectorsCount(us: seq<Unit>, s: nat, o: nat, size: nat)
    requires size >= 4 && size % 4 == 0 && forall u <- us :: DataRun(u.run, size)
    ensures TotalSectors(Commands(us, s, o, size)) <= RunBlocks(us)
    ensures !AllGood(us, size) ==> TotalSectors(Commands(us, s, o, size)) < RunBlocks(us)
    decreases |us|
  {
    hide Sum, Commands, TotalSectors, DataRun, GoodRun;
    if us == [] {
      CommandsNil(s, o, size);
      TotalNil();
    } else {
      var u, rest := us[0], us[1..];
      assert u in us && us == [u] + rest;
      var n := CeilDiv(Sum(u.run).bytes, size);
      RunCeil(u.run, size);
      TotalCons(us, s, o, size);
      SectorsCount(rest, s + n + 8 * Sum(u.Gap()).blocks, o + |EncodeChunks(u.Chunks())|, size);
    }
  }

  lemma BadRunNotPreserved(img: Image, start: nat, size: nat)
    requires WellFormed(img, size) && size >= 4 && img.blockSize == size && !AllGap(img.chunks)
    requires !AllGood(Split(img.chunks), size)
    ensures !Preserves(img, start, size)
  {
    hide Split, Sum, Execute, Unsparse, Commands, WellFormedChunk, Flatten, AllGood, Wrapped;
    var us := Split(img.chunks);
    ImageUnits(img, size);
    var cmds := SentCommands(us, start, size);
    SectorsCount(us, start, HEADER_SIZE, size);
    WrappedTotal(Commands(us, start, HEADER_SIZE, size));
    ExecuteCount(map[], cmds, size);
    UnsparseCount(map[], img.chunks, start, 1, size);
    FlattenBlocks(us);
    assert Execute(map[], cmds, size) != Unsparse(map[], img.chunks, start, img.blockSize, size);
  }

  // ------------------------------------------------------------- what is sent and what is meant

  /** A raw chunk that is streamed like this one ... */
  function SentAs(c: Chunk, size: nat): Chunk
    requires size > 0
  {
    if c.Fill? then Raw(1, PadTo(c.value, size)) else c
  }

  /** ... and one that means the same. */
  function MeantAs(c: Chunk, size: nat): Chunk {
    if c.Fill? then Raw(c.blocks, Repeat(c.value, c.blocks * size / 4)) else c
  }

  function AllSentAs(cs: seq<Chunk>, size: nat): (r: seq<Chunk>)
    requires size > 0
    ensures |r| == |cs|
  {
    if cs == [] then [] else [SentAs(cs[0], size)] + AllSentAs(cs[1..], size)
  }

  function AllMeantAs(cs: seq<Chunk>, size: nat): (r: seq<Chunk>)
    ensures |r| == |cs|
  {
    if cs == [] then [] else [MeantAs(cs[0], size)] + AllMeantAs(cs[1..], size)
  }

  function SentUnits(us: seq<Unit>, size: nat): (r: seq<Unit>)
    requires size > 0
    ensures |r| == |us|
  {
    if us == [] then []
    else [Unit(us[0].pre, AllSentAs(us[0].run, size), us[0].post)] + SentUnits(us[1..], size)
  }

  function MeantUnits(us: seq<Unit>, size: nat): (r: seq<Unit>)
    ensures |r| == |us|
  {
    if us == [] then []
    else [Unit(us[0].pre, AllMeantAs(us[0].run, size), us[0].post)] + MeantUnits(us[1..], size)
  }

  lemma {:induction false} SentRun(run: seq<Chunk>, size: nat)
    requires size >= 4 && DataRun(run, size) && Singles(run)
    ensures RawRun(AllSentAs(run, size), 1 * size) && Sum(AllSentAs(run, size)).blocks == Sum(run).blocks
    decreases |run|
  {
    hide PadTo, WellFormedChunk, SentAs;
    if run != [] {
      var c, rest := run[0], run[1..];
      assert c in run && forall x <- rest :: x in run;
      SentRun(rest, size);
      SentChunk(c, size);
      assert AllSentAs(run, size) == [SentAs(c, size)] + AllSentAs(rest, size);
      RawRunCons(SentAs(c, size), AllSentAs(rest, size), size);
    }
  }

  lemma SentChunk(c: Chunk, size: nat)
    requires size >= 4 && !c.DontCare? && WellFormedChunk(c, size) && (c.Fill? ==> c.blocks == 1)
    ensures SentAs(c, size).Raw? && SentAs(c, size).blocks == c.blocks && WellFormedChunk(SentAs(c, size), size)
  {
    hide PadTo;
    if c.Fill? {
      PaddedSector(c.value, size);
    }
  }

  lemma RawRunCons(c: Chunk, run: seq<Chunk>, size: nat)
    requires c.Raw? && WellFormedChunk(c, size) && RawRun(run, 1 * size)
    ensures RawRun([c] + run, 1 * size) && Sum([c] + run).blocks == c.blocks + Sum(run).blocks
  {
    assert ([c] + run)[1..] == run;
  }

  lemma PaddedSector(v: seq<Byte>, size: nat)
    requires |v| == 4 && size >= 4
    ensures |PadTo(v, size)| == size
  {
    if size == 4 {
      assert 4 % size == 0;
    } else {
      ModUnique(4, size, 0, 4);
    }
  }

  lemma {:induction false} MeantRun(run: seq<Chunk>, size: nat)
    requires size >= 4 && size % 4 == 0 && DataRun(run, size)
    ensures RawRun(AllMeantAs(run, size), 1 * size) && Sum(AllMeantAs(run, size)).blocks == Sum(run).blocks
    decreases |run|
  {
    hide WellFormedChunk, MeantAs;
    if run != [] {
      var c, rest := run[0], run[1..];
      assert c in run && forall x <- rest :: x in run;
      MeantRun(rest, size);
      MeantChunk(c, size);
      assert AllMeantAs(run, size) == [MeantAs(c, size)] + AllMeantAs(rest, size);
      RawRunCons(MeantAs(c, size), AllMeantAs(rest, size), size);
    }
  }

  lemma MeantChunk(c: Chunk, size: nat)
    requires size % 4 == 0 && !c.DontCare? && WellFormedChunk(c, size)
    ensures MeantAs(c, size).Raw? && MeantAs(c, size).blocks == c.blocks && WellFormedChunk(MeantAs(c, size), size)
  {
    if c.Fill? {
      QuarterTimesFour(c.blocks, size);
    }
  }

  /** A good run is streamed to its last chunk. */
  lemma {:induction false} StreamGood(run: seq<Chunk>, rest: seq<Chunk>, sent: nat, total: nat, size: nat)
    requires size >= 4 && run != [] && DataRun(run, size) && Singles(run)
    requires sent + |Bytes(AllSentAs(run, size))| - size < total <= sent + |Bytes(AllSentAs(run, size))|
    ensures Streamed(run + rest, sent, total, size) == Bytes(AllSentAs(run, size))
    decreases |run|
  {
    hide PadTo, Streamed, Sum, DataRun;
    var c, more := run[0], run[1..];
    assert c in run && (run + rest)[1..] == more + rest;
    SentPayload(run, size);
    StreamedFirst(run + rest, sent, total, size);
    BytesFirst(AllSentAs(run, size));
    assert AllSentAs(run, size)[1..] == AllSentAs(more, size);
    if more == [] {
      assert Bytes(AllSentAs(more, size)) == [];
    } else {
      TailRun(run, size);
      SectorAtLeast(more, size);
      StreamGood(more, rest, sent + |PadTo(c.Payload(), size)|, total, size);
    }
  }

  lemma SentPayload(run: seq<Chunk>, size: nat)
    requires size >= 4 && run != [] && DataRun(run, size)
    ensures AllSentAs(run, size)[0].Payload() == PadTo(run[0].Payload(), size)
  {
    var c := run[0];
    assert c in run && WellFormedChunk(c, size);
    if c.Raw? {
      Multiple(c.blocks, size);
      PadWhole(c.data, size);
    }
  }

  lemma BytesFirst(run: seq<Chunk>)
    requires run != []
    ensures Bytes(run) == run[0].Payload() + Bytes(run[1..])
  {}

  lemma TailRun(run: seq<Chunk>, size: nat)
    requires run != [] && DataRun(run, size) && Singles(run)
    ensures DataRun(run[1..], size) && Singles(run[1..])
  {
    assert forall c <- run[1..] :: c in run;
  }

  lemma SectorAtLeast(run: seq<Chunk>, size: nat)
    requires size >= 4 && run != [] && DataRun(run, size) && Singles(run)
    ensures |Bytes(AllSentAs(run, size))| >= size
  {
    hide Bytes, AllSentAs, Sum, DataRun, Singles, RawRun;
    SentRun(run, size);
    RawLength(AllSentAs(run, size), 1 * size);
    RunPositive(run, size);
    MulBound(Sum(run).blocks, size);
  }

  lemma RunPositive(run: seq<Chunk>, size: nat)
    requires run != [] && DataRun(run, size)
    ensures Sum(run).blocks > 0
  {
    assert run[0] in run && WellFormedChunk(run[0], size);
  }

  /** The command of a unit whose run is good. */
  lemma GoodCommand(u: Unit, rest: seq<Chunk>, size: nat)
    requires size >= 4 && size % 4 == 0 && IsUnit(u) && DataRun(u.run, size) && GoodRun(u.run, size)
    ensures var t := Sum(u.run);
            && CeilDiv(t.bytes, size) == t.blocks && |Bytes(AllSentAs(u.run, size))| == t.blocks * size
            && Streamed(u.Chunks() + rest, 0, t.bytes, size) == Bytes(AllSentAs(u.run, size))
  {
    hide Streamed, Bytes, Sum, AllSentAs, DataRun, CeilDiv, Fills, FillBlocks;
    var t := Sum(u.run);
    SentRun(u.run, size);
    RawLength(AllSentAs(u.run, size), 1 * size);
    RunPositive(u.run, size);
    GoodBytes(u.run, size);
    assert u.Chunks() + rest == u.pre + (u.run + (u.post + rest));
    MulBound(t.blocks, size);
    StreamGap(u.pre, u.run + (u.post + rest), t.bytes, size);
    StreamGood(u.run, u.post + rest, 0, t.bytes, size);
  }

  lemma GoodBytes(run: seq<Chunk>, size: nat)
    requires size >= 4 && size % 4 == 0 && DataRun(run, size) && GoodRun(run, size) && Sum(run).blocks > 0
    ensures Sum(run).blocks * size - size < Sum(run).bytes <= Sum(run).blocks * size
    ensures CeilDiv(Sum(run).bytes, size) == Sum(run).blocks
  {
    hide Sum, DataRun, Fills, FillBlocks, CeilDiv, Singles;
    RunNumbers(run, size);
    FillsSingle(run, size);
    var b, f := Sum(run).blocks, Fills(run);
    Distribute(b, 0 - f, size);
    assert (b - f) * size == b * size - f * size;
    CeilBetween(Sum(run).bytes, b, size);
  }

  lemma CeilBetween(n: nat, b: nat, size: nat)
    requires size > 0 && b > 0 && b * size - size < n <= b * size
    ensures CeilDiv(n, size) == b
  {
    Distribute(b, -1, size);
    assert (b - 1) * size == b * size - size;
    if n == b * size {
      ModUnique(n, size, b, 0);
    } else {
      ModUnique(n, size, b - 1, n - (b - 1) * size);
    }
  }

  // ------------------------------------------------------------- both sides, unit by unit

  lemma CommandsFirst(us: seq<Unit>, s: nat, o: nat, size: nat)
    requires size >= 4 && size % 4 == 0 && us != []
    requires IsUnit(us[0]) && DataRun(us[0].run, size) && GoodRun(us[0].run, size)
    ensures
      var u, n := us[0], Sum(us[0].run).blocks;
      Commands(us, s, o, size) ==
        [Command(s, n, o, Sum(u.run).bytes, Bytes(AllSentAs(u.run, size)))]
        + Commands(us[1..], s + n + 8 * Sum(u.Gap()).blocks, o + |EncodeChunks(u.Chunks())|, size)
    ensures |Bytes(AllSentAs(us[0].run, size))| == Sum(us[0].run).blocks * size
  {
    hide Streamed, Bytes, Sum, IsUnit, EncodeChunks, DataRun, GoodRun, CeilDiv, AllSentAs, Commands, Flatten;
    CommandsCons(us, s, o, size);
    GoodCommand(us[0], Flatten(us[1..]), size);
  }

  lemma ToolFirst(flash: Flash, us: seq<Unit>, s: int, size: nat)
    requires size >= 4 && us != [] && DataRun(us[0].run, size) && GoodRun(us[0].run, size)
    ensures
      ToolWrites(flash, SentUnits(us, size), s, 1, size) ==
        ToolWrites(Write(flash, s, Bytes(AllSentAs(us[0].run, size)), size), SentUnits(us[1..], size),
                   s + Sum(us[0].run).blocks + 8 * Sum(us[0].Gap()).blocks, 1, size)
  {
    hide Bytes, Sum, Write, AllSentAs, SentUnits, DataRun, Fills, Singles, ToolWrites;
    SentFirst(us, size);
    ToolCons(flash, SentUnits(us, size), s, 1, size);
  }

  lemma {:induction false} ExecuteGood(flash: Flash, us: seq<Unit>, s: nat, o: nat, size: nat)
    requires size >= 4 && size % 4 == 0 && AllGood(us, size)
    requires forall u <- us :: IsUnit(u) && DataRun(u.run, size)
    ensures Execute(flash, Commands(us, s, o, size), size) == ToolWrites(flash, SentUnits(us, size), s, 1, size)
    decreases |us|
  {
    hide Commands, Execute, ToolWrites, SentUnits, Bytes, Sum, IsUnit, Write, EncodeChunks, DataRun, GoodRun, AllSentAs;
    if us == [] {
      NoUnits(flash, s, o, size);
    } else {
      var u, rest := us[0], us[1..];
      assert u in us && forall v <- rest :: v in us;
      var n, bytes := Sum(u.run).blocks, Bytes(AllSentAs(u.run, size));
      var s', o' := s + n + 8 * Sum(u.Gap()).blocks, o + |EncodeChunks(u.Chunks())|;
      CommandsFirst(us, s, o, size);
      ExecuteFirst(flash, Command(s, n, o, Sum(u.run).bytes, bytes), Commands(rest, s', o', size), size);
      ToolFirst(flash, us, s, size);
      ExecuteGood(Write(flash, s, bytes, size), rest, s', o', size);
    }
  }

  lemma NoUnits(flash: Flash, s: nat, o: nat, size: nat)
    requires size > 0
    ensures Execute(flash, Commands([], s, o, size), size) == flash
    ensures ToolWrites(flash, SentUnits([], size), s, 1, size) == flash
  {}

  lemma SentFirst(us: seq<Unit>, size: nat)
    requires size >= 4 && us != [] && DataRun(us[0].run, size) && Singles(us[0].run)
    ensures
      var vs := SentUnits(us, size);
      && vs[0].run == AllSentAs(us[0].run, size) && vs[0].Gap() == us[0].Gap() && vs[1..] == SentUnits(us[1..], size)
      && Sum(vs[0].run).blocks == Sum(us[0].run).blocks
  {
    hide Sum;
    SentRun(us[0].run, size);
  }

  /** Chunk by chunk, an image means what its meant chunks do. */
  lemma {:induction false} UnsparseMeant(flash: Flash, cs: seq<Chunk>, s: int, size: nat)
    requires size > 0
    ensures Unsparse(flash, AllMeantAs(cs, size), s, size, size) == Unsparse(flash, cs, s, size, size)
    decreases |cs|
  {
    hide Write, Repeat;
    if cs != [] {
      var ms := AllMeantAs(cs, size);
      assert ms[0] == MeantAs(cs[0], size) && ms[1..] == AllMeantAs(cs[1..], size);
      UnsparseCons(flash, cs, s, size, size);
      UnsparseCons(flash, ms, s, size, size);
      assert ChunkWrites(flash, ms[0], s, size, size) == ChunkWrites(flash, cs[0], s, size, size);
      UnsparseMeant(ChunkWrites(flash, cs[0], s, size, size), cs[1..], s + cs[0].blocks * (size / size), size);
    }
  }

  lemma {:induction false} MeantAppend(a: seq<Chunk>, b: seq<Chunk>, size: nat)
    ensures AllMeantAs(a + b, size) == AllMeantAs(a, size) + AllMeantAs(b, size)
    decreases |a|
  {
    if a == [] {
      assert a + b == b;
    } else {
      assert (a + b)[1..] == a[1..] + b;
      MeantAppend(a[1..], b, size);
    }
  }

  lemma {:induction false} MeantGap(gap: seq<Chunk>, size: nat)
    requires AllGap(gap)
    ensures AllMeantAs(gap, size) == gap
    decreases |gap|
  {
    if gap != [] {
      assert gap[0] in gap;
      MeantGap(gap[1..], size);
    }
  }

  lemma {:induction false} FlattenMeant(us: seq<Unit>, size: nat)
    requires forall u <- us :: IsUnit(u)
    ensures Flatten(MeantUnits(us, size)) == AllMeantAs(Flatten(us), size)
    decreases |us|
  {
    hide AllMeantAs;
    if us == [] {
      MeantGap([], size);
    } else {
      var u, rest := us[0], us[1..];
      assert u in us;
      FlattenMeant(rest, size);
      MeantAppend(u.Chunks(), Flatten(rest), size);
      MeantAppend(u.pre + u.run, u.post, size);
      MeantAppend(u.pre, u.run, size);
      MeantGap(u.pre, size);
      MeantGap(u.post, size);
      assert MeantUnits(us, size)[1..] == MeantUnits(rest, size);
    }
  }

  lemma {:induction false} RawUnits(us: seq<Unit>, size: nat)
    requires size >= 4 && size % 4 == 0 && forall u <- us :: IsUnit(u) && DataRun(u.run, size)
    ensures forall u <- MeantUnits(us, size) :: RawUnit(u, 1, size)
    ensures AllGood(us, size) ==> forall u <- SentUnits(us, size) :: RawUnit(u, 1, size)
    decreases |us|
  {
    hide Sum, DataRun, AllSentAs, AllMeantAs, Fills, RawRun;
    if us != [] {
      var u, rest := us[0], us[1..];
      assert u in us && forall v <- rest :: v in us;
      RawUnits(rest, size);
      MeantRun(u.run, size);
      MeantData(u.run, size);
      if AllGood(us, size) {
        SentRun(u.run, size);
        SentData(u.run, size);
      }
    }
  }

  lemma MeantData(run: seq<Chunk>, size: nat)
    requires RawRun(AllMeantAs(run, size), 1 * size)
    ensures AllData(AllMeantAs(run, size))
  {}

  lemma SentData(run: seq<Chunk>, size: nat)
    requires size > 0 && RawRun(AllSentAs(run, size), 1 * size)
    ensures AllData(AllSentAs(run, size))
  {}

  lemma FillSides(img: Image, start: nat, size: nat)
    requires WellFormed(img, size) && size >= 4 && img.blockSize == size && !AllGap(img.chunks)
    requires AllGood(Split(img.chunks), size) && NoWrap(img, start, size)
    ensures
      var us := Split(img.chunks);
      && us != []
      && (forall u <- MeantUnits(us, size) :: RawUnit(u, 1, size))
      && (forall u <- SentUnits(us, size) :: RawUnit(u, 1, size))
      && forall flash: Flash ::
           && Execute(flash, SentCommands(us, start, size), size)
              == ToolWrites(flash, SentUnits(us, size), start, 1, size)
           && Unsparse(flash, img.chunks, start, img.blockSize, size)
              == ImageWrites(flash, MeantUnits(us, size), start, 1, size)
  {
    hide Split, Execute, Unsparse, Commands, Flatten, ToolWrites, ImageWrites, SentUnits, MeantUnits, RawUnit, IsUnit,
      AllGood, DataRun, WellFormedChunk, AllMeantAs, Wrapped, LastStart;
    var us := Split(img.chunks);
    ImageUnits(img, size);
    Unwrapped(us, start, HEADER_SIZE, size);
    RawUnits(us, size);
    forall flash: Flash
      ensures Execute(flash, SentCommands(us, start, size), size)
           == ToolWrites(flash, SentUnits(us, size), start, 1, size)
      ensures Unsparse(flash, img.chunks, start, img.blockSize, size)
           == ImageWrites(flash, MeantUnits(us, size), start, 1, size)
    {
      ExecuteGood(flash, us, start, HEADER_SIZE, size);
      UnsparseIsImageWrites(flash, MeantUnits(us, size), start, 1, size);
      FlattenMeant(us, size);
      UnsparseMeant(flash, img.chunks, start, size);
    }
  }

  // ------------------------------------------------------------- one run

  lemma {:induction false} WriteInjective(f: Flash, g: Flash, s: int, a: seq<Byte>, b: seq<Byte>, n: nat, size: nat)
    requires size > 0 && |a| == n * size && |b| == n * size && Write(f, s, a, size) == Write(g, s, b, size)
    ensures a == b
    decreases n
  {
    if n > 0 {
      Distribute(n, -1, size);
      assert (n - 1) * size == |a| - size && (n - 1) * size >= 0;
      var f', g' := f[s := a[..size]], g[s := b[..size]];
      WriteKeys(f', s + 1, a[size..], n - 1, size);
      WriteKeys(g', s + 1, b[size..], n - 1, size);
      assert s in f' && s in g';
      WriteInjective(f', g', s + 1, a[size..], b[size..], n - 1, size);
      assert a == a[..size] + a[size..] && b == b[..size] + b[size..];
    }
  }

  lemma SplitEqual(a: seq<Byte>, b: seq<Byte>, c: seq<Byte>, d: seq<Byte>)
    requires |a| == |b|
    ensures a + c == b + d <==> a == b && c == d
  {
    if a + c == b + d {
      assert a == (a + c)[..|a|] && b == (b + d)[..|a|];
      assert c == (a + c)[|a|..] && d == (b + d)[|a|..];
    }
  }

  predicate FitsBlock(c: Chunk, size: nat) {
    c.Fill? ==> size == 4 || c.value == ZERO
  }

  lemma {:induction false} BytesEqualIff(run: seq<Chunk>, size: nat)
    requires size >= 4 && size % 4 == 0 && DataRun(run, size) && Singles(run)
    ensures Bytes(AllSentAs(run, size)) == Bytes(AllMeantAs(run, size)) <==> forall c <- run :: FitsBlock(c, size)
    decreases |run|
  {
    hide PadTo, Repeat, FitsBlock;
    if run != [] {
      var c, rest := run[0], run[1..];
      assert c in run && WellFormedChunk(c, size) && run == [c] + rest;
      assert forall x :: x in run <==> x == c || x in rest;
      BytesEqualIff(rest, size);
      BytesFirst(AllSentAs(run, size));
      BytesFirst(AllMeantAs(run, size));
      assert AllSentAs(run, size)[1..] == AllSentAs(rest, size);
      assert AllMeantAs(run, size)[1..] == AllMeantAs(rest, size);
      ChunkEqualIff(c, size);
      SplitEqual(SentAs(c, size).Payload(), MeantAs(c, size).Payload(),
                 Bytes(AllSentAs(rest, size)), Bytes(AllMeantAs(rest, size)));
    }
  }

  lemma ChunkEqualIff(c: Chunk, size: nat)
    requires size >= 4 && size % 4 == 0 && WellFormedChunk(c, size) && (c.Fill? ==> c.blocks == 1)
    ensures |SentAs(c, size).Payload()| == |MeantAs(c, size).Payload()|
    ensures SentAs(c, size).Payload() == MeantAs(c, size).Payload() <==> FitsBlock(c, size)
  {
    if c.Fill? {
      PaddedSector(c.value, size);
      QuarterTimesFour(1, size);
      FillFitsIff(c.value, size);
    }
  }

  /** Four bytes padded with zeros are those bytes repeated only if they are all there is, or zeros. */
  lemma FillFitsIff(v: seq<Byte>, size: nat)
    requires |v| == 4 && size >= 4 && size % 4 == 0
    ensures PadTo(v, size) == Repeat(v, size / 4) <==> size == 4 || v == ZERO
  {
    if size == 4 {
      assert Repeat(v, 1) == v + Repeat(v, 0);
      assert 4 % size == 0;
    } else {
      ModUnique(4, size, 0, 4);
      var z: seq<Byte> := seq(size - 4, _ => 0);
      assert PadTo(v, size) == v + z;
      var m := size / 4;
      assert Repeat(v, m) == v + Repeat(v, m - 1);
      SplitEqual(v, v, z, Repeat(v, m - 1));
      assert Repeat(v, m - 1) == v + Repeat(v, m - 2);
      assert Repeat(v, m - 1)[..4] == v && z[..4] == ZERO;
      if v == ZERO {
        RepeatZero(m - 1);
      }
    }
  }

  lemma {:induction false} RepeatZero(n: nat)
    ensures Repeat(ZERO, n) == seq(4 * n, _ => 0)
  {
    if n > 0 {
      RepeatZero(n - 1);
    }
  }

  /** Two texts of whole sectors, one written by the tool and one meant by the image. */
  lemma PreservedIffSame(img: Image, start: nat, size: nat, a: seq<Byte>, b: seq<Byte>, n: nat)
    requires size > 0 && |a| == n * size && |b| == n * size
    requires forall flash: Flash ::
      && Execute(flash, SentCommands(Split(img.chunks), start, size), size) == Write(flash, start, a, size)
      && Unsparse(flash, img.chunks, start, img.blockSize, size) == Write(flash, start, b, size)
    ensures Preserves(img, start, size) <==> a == b
  {
    hide Split, Execute, Unsparse, SentCommands, Write;
    var none: Flash := map[];
    if a != b && Preserves(img, start, size) {
      WriteInjective(none, none, start, a, b, n, size);
      assert false;
    }
  }

  lemma BytesOfRun(run: seq<Chunk>, size: nat)
    requires size >= 4 && size % 4 == 0 && DataRun(run, size) && Singles(run)
    ensures |Bytes(AllSentAs(run, size))| == Sum(run).blocks * size
    ensures |Bytes(AllMeantAs(run, size))| == Sum(run).blocks * size
  {
    hide Bytes, AllSentAs, AllMeantAs, Sum, DataRun, Singles, RawRun;
    SentRun(run, size);
    MeantRun(run, size);
    RawLength(AllSentAs(run, size), 1 * size);
    RawLength(AllMeantAs(run, size), 1 * size);
  }

  lemma FirstRun(img: Image, size: nat)
    requires WellFormed(img, size) && img.blockSize == size && Split(img.chunks) != [] && AllGood(Split(img.chunks), size)
    ensures size % 4 == 0 && DataRun(Split(img.chunks)[0].run, size) && Singles(Split(img.chunks)[0].run)
  {
    hide Split, Flatten, DataRun, Singles, WellFormedChunk, IsUnit, Fills;
    ImageUnits(img, size);
    assert Split(img.chunks)[0] in Split(img.chunks);
  }

  /** An image of one run, in blocks of one sector. */
  lemma OneRunIffFits(img: Image, start: nat, size: nat)
    requires WellFormed(img, size) && size >= 4 && img.blockSize == size && !AllGap(img.chunks)
    requires AllGood(Split(img.chunks), size) && |Split(img.chunks)| == 1 && Split(img.chunks)[0].pre == []
    requires start < SECTOR_MOD
    ensures Preserves(img, start, size) <==> forall c <- Split(img.chunks)[0].run :: FitsBlock(c, size)
  {
    hide Split, Execute, Unsparse, SentCommands, ToolWrites, ImageWrites, Write, Bytes, AllSentAs, AllMeantAs, FitsBlock,
      WellFormed, DataRun, Singles, Preserves, AllGood, AllGap, Sum, RawUnit, SentUnits, MeantUnits;
    var us := Split(img.chunks);
    var run := us[0].run;
    var a, b := Bytes(AllSentAs(run, size)), Bytes(AllMeantAs(run, size));
    FirstRun(img, size);
    FillSides(img, start, size);
    BytesEqualIff(run, size);
    BytesOfRun(run, size);
    forall flash: Flash
      ensures Execute(flash, SentCommands(us, start, size), size) == Write(flash, start, a, size)
      ensures Unsparse(flash, img.chunks, start, img.blockSize, size) == Write(flash, start, b, size)
    {
      OneUnitWrites(flash, us, start, size);
    }
    PreservedIffSame(img, start, size, a, b, Sum(run).blocks);
  }

  lemma OneUnitWrites(flash: Flash, us: seq<Unit>, s: int, size: nat)
    requires size >= 4 && |us| == 1 && us[0].pre == []
    ensures ToolWrites(flash, SentUnits(us, size), s, 1, size) == Write(flash, s, Bytes(AllSentAs(us[0].run, size)), size)
    ensures ImageWrites(flash, MeantUnits(us, size), s, 1, size) == Write(flash, s, Bytes(AllMeantAs(us[0].run, size)), size)
  {
    hide Sum, Write, Bytes, AllSentAs, AllMeantAs;
    SumNil();
    assert us[1..] == [];
    var vs, ws := SentUnits(us, size), MeantUnits(us, size);
    assert vs[1..] == [] && ws[1..] == [];
  }

  /** A leading gap, or more than one run, in blocks of one sector. */
  lemma MisplacedNotPreserved(img: Image, start: nat, size: nat)
    requires WellFormed(img, size) && size >= 4 && img.blockSize == size && !AllGap(img.chunks)
    requires AllGood(Split(img.chunks), size) && (img.chunks[0].DontCare? || |Split(img.chunks)| > 1)
    requires NoWrap(img, start, size)
    ensures !Preserves(img, start, size)
  {
    hide Split, Execute, Unsparse, SentCommands, ToolWrites, ImageWrites, Sum, RawUnit, WellFormedChunk, DataRun, AllGood,
      SentUnits, MeantUnits, SplitRuns, NoWrap;
    var cs := img.chunks;
    var us := Split(cs);
    var vs, ws := SentUnits(us, size), MeantUnits(us, size);
    FillSides(img, start, size);
    ImageUnits(img, size);
    SameShape(us, 0, size);
    var none: Flash := map[];
    var cmds := SentCommands(us, start, size);
    assert us[0] in us;
    if cs[0].DontCare? {
      Lead(cs);
      assert forall c <- us[0].pre :: c in us[0].Chunks();
      GapBlocks(us[0].pre, size);
      LeadOverwritten(vs, start, 1, size);
      LeadOverwritten(ws, start, 1, size);
    } else {
      NoLead(cs);
      SecondRun(cs);
      SameShape(us, 1, size);
      assert us[1] in us;
      assert forall c <- us[0].post :: c in us[0].Chunks();
      GapBlocks(us[0].post, size);
      GapMiscounted(vs, start, 1, size);
      GapMiscounted(ws, start, 1, size);
    }
    assert Execute(none, cmds, size) != Unsparse(none, cs, start, img.blockSize, size);
  }

  lemma {:induction false} SameShape(us: seq<Unit>, i: nat, size: nat)
    requires size >= 4 && size % 4 == 0 && i < |us| && AllGood(us, size) && forall u <- us :: DataRun(u.run, size)
    ensures
      var v, w := SentUnits(us, size)[i], MeantUnits(us, size)[i];
      && v.pre == us[i].pre == w.pre && v.post == us[i].post == w.post
      && Sum(v.run).blocks == Sum(us[i].run).blocks == Sum(w.run).blocks
    decreases i
  {
    hide Sum, DataRun, AllSentAs, AllMeantAs, Fills;
    assert us[0] in us && forall u <- us[1..] :: u in us;
    if i == 0 {
      SentRun(us[0].run, size);
      MeantRun(us[0].run, size);
    } else {
      SameShape(us[1..], i - 1, size);
    }
  }

  // ------------------------------------------------------------- the theorem

  lemma {:induction false} FillsAppend(a: seq<Chunk>, b: seq<Chunk>)
    ensures Fills(a + b) == Fills(a) + Fills(b)
    decreases |a|
  {
    if a == [] {
      assert a + b == b;
    } else {
      assert (a + b)[1..] == a[1..] + b;
      FillsAppend(a[1..], b);
    }
  }

  lemma {:induction false} FillsNone(cs: seq<Chunk>)
    ensures Fills(cs) == 0 <==> forall c <- cs :: !c.Fill?
    decreases |cs|
  {
    if cs != [] {
      assert cs == [cs[0]] + cs[1..];
      FillsNone(cs[1..]);
    }
  }

  /** For an image of one run the conditions on its run are those on its chunks. */
  lemma FitsOneRun(img: Image, size: nat)
    requires WellFormed(img, size) && size >= 4 && img.blockSize == size && exists c <- img.chunks :: c.Fill?
    requires |Split(img.chunks)| == 1 && Split(img.chunks)[0].pre == []
    ensures
      var us := Split(img.chunks);
      FillsFit(img, size) <==> AllGood(us, size) && forall c <- us[0].run :: FitsBlock(c, size)
  {
    hide Split, WellFormedChunk, DataRun;
    var us := Split(img.chunks);
    var u := us[0];
    ImageUnits(img, size);
    assert us == [u];
    assert Flatten(us) == u.Chunks() + Flatten(us[1..]) && us[1..] == [] && u.Chunks() == u.run + u.post;
    assert img.chunks == u.run + u.post;
    hide Fills;
    FillsAppend(u.run, u.post);
    FillsNone(u.post);
    FillsNone(img.chunks);
    assert forall c <- u.run :: c in img.chunks;
    assert forall c <- img.chunks :: c.Fill? ==> c in u.run;
  }

  /** An image no start sector of which wraps. */
  lemma PreservesUnwrapped(img: Image, start: nat, size: nat)
    requires WellFormed(img, size) && size >= 4 && start < SECTOR_MOD && NoWrap(img, start, size)
    ensures Preserves(img, start, size) <==> Supported(img, size)
  {
    hide Split, Preserves, Placed, AllGood, Fills, NoWrap;
    if AllGap(img.chunks) {
      OnlyGap(img, start, size);
    } else if forall c <- img.chunks :: !c.Fill? {
      RawPlacedIff(img, start, size);
    } else if img.blockSize != size {
      NotOneSector(img, size);
      FillNotPreserved(img, start, size);
    } else if !AllGood(Split(img.chunks), size) {
      BadRunNotPreserved(img, start, size);
      OneRunPlaced(img, size);
    } else {
      OneRunPlaced(img, size);
      if img.chunks[0].DontCare? || |Split(img.chunks)| > 1 {
        MisplacedNotPreserved(img, start, size);
      } else {
        OneRunIffFits(img, start, size);
      }
    }
  }

  /** Runs announce no more than they have, fill chunks included. */
  lemma FillAnnounced(img: Image, size: nat)
    requires WellFormed(img, size) && size >= 4 && img.blockSize >= 8 * size
    ensures forall u <- Split(img.chunks) :: Announced(u, img.blockSize / size, size)
  {
    hide Split, Flatten, Sum, CeilDiv, DataRun, WellFormedChunk, HasFill;
    var us, k := Split(img.chunks), img.blockSize / size;
    BlockMultiple(img, size);
    ImageUnits(img, size);
    forall i | 0 <= i < |us| ensures Announced(us[i], k, size) {
      FillCeil(us[i].run, k, size);
      RunPositive(us[i].run, img.blockSize);
    }
  }

  /** Programming a sparse image has the effect of the unsparsed image on every flash exactly when the
      image is a supported one and no start sector wraps; but in blocks of fewer than eight sectors,
      runs that wrap can come out right by chance. */
  lemma PreservesIff(img: Image, start: nat, size: nat)
    requires WellFormed(img, size) && size >= 4 && Fits(img) && start < SECTOR_MOD
    ensures NoWrap(img, start, size) || img.blockSize >= 8 * size ==>
      (Preserves(img, start, size) <==> Supported(img, size) && NoWrap(img, start, size))
  {
    hide Preserves, NoWrap, Supported, Announced, Fits, Split;
    if NoWrap(img, start, size) {
      PreservesUnwrapped(img, start, size);
    } else if img.blockSize >= 8 * size {
      FillAnnounced(img, size);
      EndMissing(img, start, size);
    }
  }

  lemma NotOneSector(img: Image, size: nat)
    requires WellFormed(img, size) && img.blockSize != size
    ensures img.blockSize >= 2 * size
  {
    BlockMultiple(img, size);
    AtLeastTwice(img.blockSize / size, size);
  }

  /** In blocks of one sector only an image of one run is placed right. */
  lemma OneRunPlaced(img: Image, size: nat)
    requires WellFormed(img, size) && size >= 4 && img.blockSize == size && exists c <- img.chunks :: c.Fill?
    requires !AllGap(img.chunks)
    ensures
      var us := Split(img.chunks);
      && us != []
      && (Placed(img, size) <==> !img.chunks[0].DontCare? && |us| == 1)
      && (!img.chunks[0].DontCare? && |us| == 1 ==>
            && us[0].pre == []
            && (FillsFit(img, size) <==> AllGood(us, size) && forall c <- us[0].run :: FitsBlock(c, size)))
  {
    hide Split, SplitRuns, OneRun, AllGood, FillsFit;
    ImageUnits(img, size);
    if !img.chunks[0].DontCare? {
      NoLead(img.chunks);
      OneRunIff(img.chunks);
      var us := Split(img.chunks);
      assert us[0] in us;
      if |us| == 1 {
        FitsOneRun(img, size);
      }
    }
  }
}
