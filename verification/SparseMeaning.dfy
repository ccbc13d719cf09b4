/** Does programming a sparse image leave on the flash what the image means? Exactly when
    the image is one the tool supports. */
module SparseMeaning {
  import opened Arith
  import opened LittleEndian
  import opened SparseImage
  import opened SparseProgram
  import opened Sequences

  /** Programming has, on every flash, the effect of writing the unsparsed image. */
  ghost predicate Preserves(img: Image, start: nat, size: nat)
    requires size > 0
  {
    forall flash: Flash ::
      Execute(flash, SentCommands(Split(img.chunks), start, size), size)
      == Unsparse(flash, img.chunks, start, img.blockSize, size)
  }

  /** Where the last command would go if start sectors had no width. */
  function LastStart(us: seq<Unit>, start: nat, size: nat): (r: nat)
    requires size > 0
    ensures r >= start
    decreases |us|
  {
    if |us| <= 1 then start
    else LastStart(us[1..], start + CeilDiv(Sum(us[0].run).bytes, size) + 8 * Sum(us[0].Gap()).blocks, size)
  }

  /** Every command starts at a sector that has a 32-bit number. */
  predicate NoWrap(img: Image, start: nat, size: nat)
    requires size > 0
  {
    LastStart(Split(img.chunks), start, size) < SECTOR_MOD
  }

  /** Then the commands are sent as they are reckoned. */
  lemma {:induction false} Unwrapped(us: seq<Unit>, start: nat, offset: nat, size: nat)
    requires size > 0 && LastStart(us, start, size) < SECTOR_MOD
    ensures Wrapped(Commands(us, start, offset, size)) == Commands(us, start, offset, size)
    decreases |us|
  {
    hide Sum, EncodeChunks, Streamed, CeilDiv, Commands, Flatten, Wrapped;
    if us == [] {
      CommandsNil(start, offset, size);
      WrappedNil();
    } else {
      var u := us[0];
      var n := CeilDiv(Sum(u.run).bytes, size);
      var s', o' := start + n + 8 * Sum(u.Gap()).blocks, offset + |EncodeChunks(u.Chunks())|;
      CommandsCons(us, start, offset, size);
      var cmds := Commands(us, start, offset, size);
      WrappedCons(cmds[0], Commands(us[1..], s', o', size));
      if |us| > 1 {
        Unwrapped(us[1..], s', o', size);
      } else {
        assert us[1..] == [];
        CommandsNil(s', o', size);
        WrappedNil();
      }
    }
  }

  /** No data behind a don't-care chunk. */
  predicate OneRun(cs: seq<Chunk>) {
    forall i, j :: 0 <= i < j < |cs| && cs[i].DontCare? ==> cs[j].DontCare?
  }

  /** What can be read off the chunk headers: no data behind a leading gap, and blocks of eight
      sectors unless no gap has to be skipped. */
  predicate Placed(img: Image, size: nat) {
    || AllGap(img.chunks)
    || (!img.chunks[0].DontCare? && (img.blockSize == 8 * size || OneRun(img.chunks)))
  }

  // ------------------------------------------------------------- raw runs

  function Bytes(run: seq<Chunk>): seq<Byte> {
    if run == [] then [] else run[0].Payload() + Bytes(run[1..])
  }

  /** Raw chunks whose payload fills whole blocks. */
  predicate RawRun(run: seq<Chunk>, blockSize: nat) {
    forall c <- run :: c.Raw? && c.blocks > 0 && |c.data| == c.blocks * blockSize
  }

  lemma {:induction false} RawLength(run: seq<Chunk>, blockSize: nat)
    requires RawRun(run, blockSize)
    ensures |Bytes(run)| == Sum(run).bytes == Sum(run).blocks * blockSize
    decreases |run|
  {
    if run != [] {
      var c, rest := run[0], run[1..];
      assert c in run && forall x <- rest :: x in run;
      RawLength(rest, blockSize);
      Distribute(c.blocks, Sum(rest).blocks, blockSize);
    }
  }

  lemma {:induction false} UnsparseRun(flash: Flash, run: seq<Chunk>, rest: seq<Chunk>, s: int, k: nat, size: nat)
    requires size > 0 && RawRun(run, k * size)
    ensures Unsparse(flash, run + rest, s, k * size, size)
         == Unsparse(Write(flash, s, Bytes(run), size), rest, s + Sum(run).blocks * k, k * size, size)
    decreases |run|
  {
    hide Write, Unsparse;
    if run == [] {
      assert run + rest == rest;
      WriteNone(flash, s, size);
    } else {
      var c := run[0];
      assert c in run;
      assert (run + rest)[1..] == run[1..] + rest;
      MulAssoc(c.blocks, k, size);
      WriteAppend(flash, s, c.data, Bytes(run[1..]), c.blocks * k, size);
      Distribute(c.blocks, Sum(run[1..]).blocks, k);
      UnsparseRaw(flash, run + rest, s, k, size);
      UnsparseRun(Write(flash, s, c.data, size), run[1..], rest, s + c.blocks * k, k, size);
    }
  }

  lemma UnsparseRaw(flash: Flash, cs: seq<Chunk>, s: int, k: nat, size: nat)
    requires size > 0 && cs != [] && cs[0].Raw?
    ensures Unsparse(flash, cs, s, k * size, size)
         == Unsparse(Write(flash, s, cs[0].data, size), cs[1..], s + cs[0].blocks * k, k * size, size)
  {
    hide Write, Repeat;
    Multiple(k, size);
  }

  lemma WriteNone(flash: Flash, s: int, size: nat)
    requires size > 0
    ensures Write(flash, s, [], size) == flash
  {}

  lemma {:induction false} UnsparseGap(flash: Flash, gap: seq<Chunk>, rest: seq<Chunk>, s: int, k: nat, size: nat)
    requires size > 0 && AllGap(gap)
    ensures Unsparse(flash, gap + rest, s, k * size, size)
         == Unsparse(flash, rest, s + Sum(gap).blocks * k, k * size, size)
    decreases |gap|
  {
    Multiple(k, size);
    if gap == [] {
      assert gap + rest == rest;
    } else {
      assert gap[0] in gap;
      assert (gap + rest)[1..] == gap[1..] + rest;
      Distribute(gap[0].blocks, Sum(gap[1..]).blocks, k);
      UnsparseGap(flash, gap[1..], rest, s + gap[0].blocks * k, k, size);
    }
  }

  lemma {:induction false} StreamRaw(run: seq<Chunk>, rest: seq<Chunk>, sent: nat, total: nat, k: nat, size: nat)
    requires size > 0 && k > 0 && run != [] && RawRun(run, k * size) && sent + Sum(run).bytes == total
    ensures Streamed(run + rest, sent, total, size) == Bytes(run)
    decreases |run|
  {
    hide PadTo, Streamed, Sum;
    var c := run[0];
    assert c in run;
    assert (run + rest)[1..] == run[1..] + rest;
    MulAssoc(c.blocks, k, size);
    Multiple(c.blocks * k, size);
    PadWhole(c.data, size);
    StreamedFirst(run + rest, sent, total, size);
    SumSplit(run);
    if |run| == 1 {
      assert run[1..] == [];
      SumNil();
      assert Bytes(run) == c.data + [];
    } else {
      RawPositive(run[1..], k, size);
      StreamRaw(run[1..], rest, sent + |c.data|, total, k, size);
    }
  }

  lemma RawPositive(run: seq<Chunk>, k: nat, size: nat)
    requires size > 0 && k > 0 && run != [] && RawRun(run, k * size)
    ensures Sum(run).bytes > 0
  {
    assert run[0] in run;
    Positive(k, size);
    Positive(run[0].blocks, k * size);
    SumSplit(run);
  }

  lemma PadWhole(s: seq<Byte>, size: nat)
    requires size > 0 && |s| % size == 0
    ensures PadTo(s, size) == s
  {}

  lemma {:induction false} StreamGap(gap: seq<Chunk>, rest: seq<Chunk>, total: nat, size: nat)
    requires size > 0 && AllGap(gap) && total > 0
    ensures Streamed(gap + rest, 0, total, size) == Streamed(rest, 0, total, size)
    decreases |gap|
  {
    hide PadTo;
    PadLonger([], size);
    if gap == [] {
      assert gap + rest == rest;
    } else {
      assert gap[0] in gap;
      assert (gap + rest)[1..] == gap[1..] + rest;
      StreamGap(gap[1..], rest, total, size);
      assert [] + Streamed(gap[1..] + rest, 0, total, size) == Streamed(gap[1..] + rest, 0, total, size);
    }
  }

  // ------------------------------------------------------------- both sides, unit by unit

  /** A unit of raw chunks that fill blocks of k sectors. */
  predicate RawUnit(u: Unit, k: nat, size: nat) {
    IsUnit(u) && RawRun(u.run, k * size)
  }

  /** What the tool writes for raw units ... */
  function ToolWrites(flash: Flash, us: seq<Unit>, s: int, k: nat, size: nat): Flash
    requires size > 0
    decreases |us|
  {
    if us == [] then flash
    else ToolWrites(Write(flash, s, Bytes(us[0].run), size), us[1..],
                    s + Sum(us[0].run).blocks * k + 8 * Sum(us[0].Gap()).blocks, k, size)
  }

  /** ... and what the image means. */
  function ImageWrites(flash: Flash, us: seq<Unit>, s: int, k: nat, size: nat): Flash
    requires size > 0
    decreases |us|
  {
    if us == [] then flash
    else
      var at := s + Sum(us[0].pre).blocks * k;
      ImageWrites(Write(flash, at, Bytes(us[0].run), size), us[1..],
                  at + Sum(us[0].run).blocks * k + Sum(us[0].post).blocks * k, k, size)
  }

  /** The command for a raw unit announces and streams exactly its blocks. */
  lemma RawCommand(u: Unit, rest: seq<Chunk>, k: nat, size: nat)
    requires size > 0 && k > 0 && RawUnit(u, k, size)
    ensures var t := Sum(u.run);
            && t.blocks > 0 && |Bytes(u.run)| == t.bytes == t.blocks * k * size
            && CeilDiv(t.bytes, size) == t.blocks * k
            && Streamed(u.Chunks() + rest, 0, t.bytes, size) == Bytes(u.run)
  {
    hide Streamed, Bytes;
    var t := Sum(u.run);
    assert u.run[0] in u.run;
    RawLength(u.run, k * size);
    MulAssoc(t.blocks, k, size);
    Multiple(t.blocks * k, size);
    assert t.blocks * k > 0;
    assert t.blocks * k * size > 0;
    assert u.Chunks() + rest == u.pre + (u.run + (u.post + rest));
    StreamGap(u.pre, u.run + (u.post + rest), t.bytes, size);
    StreamRaw(u.run, u.post + rest, 0, t.bytes, k, size);
  }

  /** The first command writes its whole payload. */
  lemma ExecuteFirst(flash: Flash, c: Command, cmds: seq<Command>, size: nat)
    requires size > 0 && |c.payload| == c.sectors * size
    ensures Execute(flash, [c] + cmds, size) == Execute(Write(flash, c.start, c.payload, size), cmds, size)
  {
    hide Write;
    assert ([c] + cmds)[1..] == cmds;
  }

  lemma ToolCons(flash: Flash, us: seq<Unit>, s: int, k: nat, size: nat)
    requires size > 0 && us != []
    ensures
      ToolWrites(flash, us, s, k, size) ==
        ToolWrites(Write(flash, s, Bytes(us[0].run), size), us[1..],
                   s + Sum(us[0].run).blocks * k + 8 * Sum(us[0].Gap()).blocks, k, size)
  {
    hide Bytes, Sum, Write;
  }

  lemma NothingToDo(flash: Flash, s: nat, o: nat, k: nat, size: nat)
    requires size > 0
    ensures Execute(flash, Commands([], s, o, size), size) == flash == ToolWrites(flash, [], s, k, size)
  {}

  lemma {:induction false} ExecuteIsToolWrites(flash: Flash, us: seq<Unit>, s: nat, o: nat, k: nat, size: nat)
    requires size > 0 && k > 0 && forall u <- us :: RawUnit(u, k, size)
    ensures Execute(flash, Commands(us, s, o, size), size) == ToolWrites(flash, us, s, k, size)
    decreases |us|
  {
    hide Streamed, Bytes, Sum, RawUnit, Write, EncodeChunks, CeilDiv, Commands, Flatten, Execute, ToolWrites;
    if us == [] {
      NothingToDo(flash, s, o, k, size);
    } else {
      var u := us[0];
      assert u in us && forall v <- us[1..] :: v in us;
      RawCommand(u, Flatten(us[1..]), k, size);
      var n := Sum(u.run).blocks * k;
      var s', o' := s + n + 8 * Sum(u.Gap()).blocks, o + |EncodeChunks(u.Chunks())|;
      CommandsCons(us, s, o, size);
      ExecuteFirst(flash, Command(s, n, o, Sum(u.run).bytes, Bytes(u.run)), Commands(us[1..], s', o', size), size);
      ToolCons(flash, us, s, k, size);
      ExecuteIsToolWrites(Write(flash, s, Bytes(u.run), size), us[1..], s', o', k, size);
    }
  }

  lemma {:induction false} UnsparseIsImageWrites(flash: Flash, us: seq<Unit>, s: int, k: nat, size: nat)
    requires size > 0 && forall u <- us :: RawUnit(u, k, size)
    ensures Unsparse(flash, Flatten(us), s, k * size, size) == ImageWrites(flash, us, s, k, size)
    decreases |us|
  {
    hide Bytes, Sum, Write, Unsparse, RawRun, AllGap, AllData;
    if us == [] {
      UnsparseNil(flash, s, k * size, size);
    } else {
      var u, rest := us[0], Flatten(us[1..]);
      assert u in us;
      assert Flatten(us) == u.pre + (u.run + (u.post + rest));
      var at := s + Sum(u.pre).blocks * k;
      UnsparseGap(flash, u.pre, u.run + (u.post + rest), s, k, size);
      UnsparseRun(flash, u.run, u.post + rest, at, k, size);
      var next := Write(flash, at, Bytes(u.run), size);
      UnsparseGap(next, u.post, rest, at + Sum(u.run).blocks * k, k, size);
      UnsparseIsImageWrites(next, us[1..], at + Sum(u.run).blocks * k + Sum(u.post).blocks * k, k, size);
    }
  }

  lemma UnsparseNil(flash: Flash, s: int, blockSize: nat, size: nat)
    requires size > 0
    ensures Unsparse(flash, [], s, blockSize, size) == flash
  {}

  /** Without gaps before the runs, and with blocks of eight sectors or nothing to skip,
      both write the same. */
  lemma {:induction false} SameWrites(flash: Flash, us: seq<Unit>, s: int, k: nat, size: nat)
    requires size > 0 && (k == 8 || |us| <= 1) && forall u <- us :: u.pre == []
    ensures ToolWrites(flash, us, s, k, size) == ImageWrites(flash, us, s, k, size)
    decreases |us|
  {
    hide Bytes, Sum, Write;
    if us != [] {
      var u := us[0];
      assert u in us;
      SumNil();
      assert u.Gap() == u.post;
      var next := Write(flash, s, Bytes(u.run), size);
      if |us| == 1 {
        assert us[1..] == [];
      } else {
        SameWrites(next, us[1..], s + Sum(u.run).blocks * k + Sum(u.post).blocks * 8, k, size);
      }
    }
  }

  // ------------------------------------------------------------- where raw images go wrong

  /** What writing one raw run does to the set of written sectors. */
  lemma RunKeys(flash: Flash, s: int, run: seq<Chunk>, k: nat, size: nat)
    requires size > 0 && k > 0 && run != [] && RawRun(run, k * size)
    ensures var n := Sum(run).blocks * k;
            n > 0 && forall x :: x in Write(flash, s, Bytes(run), size) <==> x in flash || s <= x < s + n
  {
    hide Write, Bytes;
    var n := Sum(run).blocks * k;
    assert run[0] in run;
    RawLength(run, k * size);
    MulAssoc(Sum(run).blocks, k, size);
    assert Sum(run).blocks > 0;
    assert Sum(run).blocks * k > 0;
    WriteKeys(flash, s, Bytes(run), n, size);
  }

  lemma {:induction false} ToolKeys(flash: Flash, us: seq<Unit>, s: int, k: nat, size: nat)
    requires size > 0 && k > 0 && forall u <- us :: RawUnit(u, k, size)
    ensures forall x <- flash :: x in ToolWrites(flash, us, s, k, size)
    ensures forall x <- ToolWrites(flash, us, s, k, size) :: x in flash || x >= s
    ensures us != [] ==> s in ToolWrites(flash, us, s, k, size)
    decreases |us|
  {
    hide Write, Bytes, Sum;
    if us != [] {
      var u := us[0];
      assert u in us && RawUnit(u, k, size);
      RunKeys(flash, s, u.run, k, size);
      ToolKeys(Write(flash, s, Bytes(u.run), size), us[1..], s + Sum(u.run).blocks * k + 8 * Sum(u.Gap()).blocks, k, size);
    }
  }

  lemma {:induction false} ImageKeys(flash: Flash, us: seq<Unit>, s: int, k: nat, size: nat)
    requires size > 0 && k > 0 && forall u <- us :: RawUnit(u, k, size)
    ensures forall x <- flash :: x in ImageWrites(flash, us, s, k, size)
    ensures forall x <- ImageWrites(flash, us, s, k, size) :: x in flash || (us != [] && x >= s + Sum(us[0].pre).blocks * k)
    ensures us != [] ==> s + Sum(us[0].pre).blocks * k in ImageWrites(flash, us, s, k, size)
    decreases |us|
  {
    hide Write, Bytes, Sum;
    if us != [] {
      var u := us[0];
      assert u in us && RawUnit(u, k, size);
      var at := s + Sum(u.pre).blocks * k;
      RunKeys(flash, at, u.run, k, size);
      var next := at + Sum(u.run).blocks * k + Sum(u.post).blocks * k;
      NotNegative(Sum(u.post).blocks, k);
      if us[1..] != [] {
        NotNegative(Sum(us[1..][0].pre).blocks, k);
      }
      ImageKeys(Write(flash, at, Bytes(u.run), size), us[1..], next, k, size);
    }
  }

  /** A leading gap: the tool writes its first run over it. */
  lemma LeadOverwritten(us: seq<Unit>, s: int, k: nat, size: nat)
    requires size > 0 && k > 0 && us != [] && forall u <- us :: RawUnit(u, k, size)
    requires Sum(us[0].pre).blocks > 0
    ensures s in ToolWrites(map[], us, s, k, size) && s !in ImageWrites(map[], us, s, k, size)
  {
    hide ToolWrites, ImageWrites, Sum;
    ToolKeys(map[], us, s, k, size);
    ImageKeys(map[], us, s, k, size);
    Positive(Sum(us[0].pre).blocks, k);
  }

  /** A gap between two runs, counted as eight sectors a block when a block is not that:
      the second run goes to the wrong place. */
  lemma GapMiscounted(us: seq<Unit>, s: int, k: nat, size: nat)
    requires size > 0 && k > 0 && k != 8 && |us| >= 2 && forall u <- us :: RawUnit(u, k, size)
    requires us[0].pre == [] && us[1].pre == [] && Sum(us[0].post).blocks > 0
    ensures ToolWrites(map[], us, s, k, size) != ImageWrites(map[], us, s, k, size)
    ensures k < 8 ==>
      var x := s + Sum(us[0].run).blocks * k + Sum(us[0].post).blocks * k;
      x in ImageWrites(map[], us, s, k, size) && x !in ToolWrites(map[], us, s, k, size)
  {
    hide Sum, Write, Bytes;
    var u := us[0];
    assert u in us && RawUnit(u, k, size) && us[1..][0] == us[1];
    SumNil();
    RunKeys(map[], s, u.run, k, size);
    assert u.Gap() == u.post;
    var first := Write(map[], s, Bytes(u.run), size);
    var end, g := s + Sum(u.run).blocks * k, Sum(u.post).blocks;
    ToolKeys(first, us[1..], end + 8 * g, k, size);
    ImageKeys(first, us[1..], end + g * k, k, size);
    if k < 8 {
      Positive(g, 8 - k);
      assert g * (8 - k) == 8 * g - g * k;
      NotNegative(g, k);
      assert end + g * k in ImageWrites(first, us[1..], end + g * k, k, size);
      assert end + g * k !in ToolWrites(first, us[1..], end + 8 * g, k, size);
    } else {
      Positive(g, k - 8);
      assert g * (k - 8) == g * k - 8 * g;
      assert end + 8 * g in ToolWrites(first, us[1..], end + 8 * g, k, size);
      assert end + 8 * g !in ImageWrites(first, us[1..], end + g * k, k, size);
    }
  }

  // ------------------------------------------------------------- fill chunks

  function TotalSectors(cmds: seq<Command>): nat {
    if cmds == [] then 0 else cmds[0].sectors + TotalSectors(cmds[1..])
  }

  function DataBlocks(cs: seq<Chunk>): nat {
    if cs == [] then 0 else (if cs[0].DontCare? then 0 else cs[0].blocks) + DataBlocks(cs[1..])
  }

  /** The commands write no more sectors than they announce. */
  lemma {:induction false} ExecuteCount(flash: Flash, cmds: seq<Command>, size: nat)
    requires size > 0
    ensures |Execute(flash, cmds, size)| <= |flash| + TotalSectors(cmds)
    decreases |cmds|
  {
    hide Write;
    if cmds != [] {
      var c := cmds[0];
      var limit := c.sectors * size;
      var taken := if |c.payload| <= limit then c.payload else c.payload[..limit];
      AddsAtMost(flash, c.start, taken, c.sectors, size);
      ExecuteCount(Write(flash, c.start, taken, size), cmds[1..], size);
    }
  }

  lemma AddsAtMost(flash: Flash, s: int, bytes: seq<Byte>, m: nat, size: nat)
    requires size > 0 && |bytes| <= m * size
    ensures |Write(flash, s, bytes, size)| <= |flash| + m
  {
    hide Write, Below;
    var n := |bytes| / size;
    assert n * size <= |bytes| < n * size + size;
    AtMost(n, m, size);
    WriteCount(flash, s, bytes, n, size);
  }

  /** The image writes every block of data once. */
  lemma {:induction false} UnsparseCount(flash: Flash, cs: seq<Chunk>, s: int, k: nat, size: nat)
    requires size > 0 && k * size % 4 == 0
    requires forall c <- cs :: WellFormedChunk(c, k * size)
    requires forall x <- flash :: x < s
    ensures |Unsparse(flash, cs, s, k * size, size)| == |flash| + DataBlocks(cs) * k
    decreases |cs|
  {
    hide Write, WellFormedChunk, ChunkWrites;
    if cs != [] {
      var c := cs[0];
      assert c in cs;
      Multiple(k, size);
      NotNegative(c.blocks, k);
      ChunkCount(flash, c, s, k, size);
      Distribute(if c.DontCare? then 0 else c.blocks, DataBlocks(cs[1..]), k);
      var next := ChunkWrites(flash, c, s, k * size, size);
      UnsparseCount(next, cs[1..], s + c.blocks * k, k, size);
      UnsparseCons(flash, cs, s, k * size, size);
    }
  }

  /** What the first chunk of an image writes. */
  function ChunkWrites(flash: Flash, c: Chunk, s: int, blockSize: nat, size: nat): Flash
    requires size > 0
  {
    match c
    case Raw(_, data) => Write(flash, s, data, size)
    case Fill(blocks, value) => Write(flash, s, Repeat(value, blocks * blockSize / 4), size)
    case DontCare(_) => flash
  }

  lemma UnsparseCons(flash: Flash, cs: seq<Chunk>, s: int, blockSize: nat, size: nat)
    requires size > 0 && cs != []
    ensures Unsparse(flash, cs, s, blockSize, size)
         == Unsparse(ChunkWrites(flash, cs[0], s, blockSize, size), cs[1..], s + cs[0].blocks * (blockSize / size), blockSize, size)
  {
    hide Write, Repeat;
  }

  lemma ChunkCount(flash: Flash, c: Chunk, s: int, k: nat, size: nat)
    requires size > 0 && k * size % 4 == 0 && WellFormedChunk(c, k * size) && forall x <- flash :: x < s
    ensures var next := ChunkWrites(flash, c, s, k * size, size);
            && |next| == |flash| + (if c.DontCare? then 0 else c.blocks) * k
            && forall x <- next :: x < s + c.blocks * k
  {
    hide Write, Repeat;
    var n := c.blocks * k;
    NotNegative(c.blocks, k);
    if !c.DontCare? {
      MulAssoc(c.blocks, k, size);
      QuarterTimesFour(c.blocks, k * size);
      var bytes := if c.Raw? then c.data else Repeat(c.value, c.blocks * (k * size) / 4);
      assert |bytes| == n * size;
      WriteCount(flash, s, bytes, n, size);
      WriteKeys(flash, s, bytes, n, size);
    }
  }

  predicate DataRun(run: seq<Chunk>, blockSize: nat) {
    forall c <- run :: !c.DontCare? && WellFormedChunk(c, blockSize)
  }

  predicate HasFill(run: seq<Chunk>) {
    exists c <- run :: c.Fill?
  }

  /** Fill chunks take less room in the file than in the image. */
  lemma {:induction false} FillShrinks(run: seq<Chunk>, blockSize: nat, size: nat)
    requires size >= 4 && blockSize >= 2 * size && DataRun(run, blockSize)
    ensures Sum(run).bytes <= Sum(run).blocks * blockSize
    ensures HasFill(run) ==> Sum(run).bytes + size <= Sum(run).blocks * blockSize
    decreases |run|
  {
    if run != [] {
      var c := run[0];
      assert c in run && WellFormedChunk(c, blockSize);
      FillShrinks(run[1..], blockSize, size);
      Distribute(c.blocks, Sum(run[1..]).blocks, blockSize);
      MulBound(c.blocks, blockSize);
      assert HasFill(run) ==> c.Fill? || HasFill(run[1..]);
    }
  }

  lemma FillCeil(run: seq<Chunk>, k: nat, size: nat)
    requires size >= 4 && k >= 2 && DataRun(run, k * size)
    ensures CeilDiv(Sum(run).bytes, size) <= Sum(run).blocks * k
    ensures HasFill(run) ==> CeilDiv(Sum(run).bytes, size) < Sum(run).blocks * k
  {
    hide Sum, HasFill, DataRun;
    AtLeastTwice(k, size);
    FillShrinks(run, k * size, size);
    var b, n := Sum(run).bytes, Sum(run).blocks * k;
    MulAssoc(Sum(run).blocks, k, size);
    CeilAtMost(b, n, size);
    if HasFill(run) {
      PositiveFactor(n, size);
      Distribute(n, -1, size);
      CeilAtMost(b, n - 1, size);
    }
  }

  function RunBlocks(us: seq<Unit>): nat {
    if us == [] then 0 else Sum(us[0].run).blocks + RunBlocks(us[1..])
  }

  lemma {:induction false} DataBlocksAppend(a: seq<Chunk>, b: seq<Chunk>)
    ensures DataBlocks(a + b) == DataBlocks(a) + DataBlocks(b)
    decreases |a|
  {
    if a == [] {
      assert a + b == b;
    } else {
      assert (a + b)[1..] == a[1..] + b;
      DataBlocksAppend(a[1..], b);
    }
  }

  lemma {:induction false} DataBlocksOf(cs: seq<Chunk>)
    ensures AllData(cs) ==> DataBlocks(cs) == Sum(cs).blocks
    ensures AllGap(cs) ==> DataBlocks(cs) == 0
    decreases |cs|
  {
    if cs != [] {
      assert cs[0] in cs;
      DataBlocksOf(cs[1..]);
    }
  }

  lemma {:induction false} FlattenBlocks(us: seq<Unit>)
    requires forall u <- us :: IsUnit(u)
    ensures DataBlocks(Flatten(us)) == RunBlocks(us)
    decreases |us|
  {
    hide Sum, DataBlocks, AllData, AllGap;
    if us == [] {
      DataBlocksOf([]);
      SumNil();
      DataBlocksNil();
    } else {
      var u := us[0];
      assert u in us;
      DataBlocksAppend(u.Chunks(), Flatten(us[1..]));
      DataBlocksAppend(u.pre + u.run, u.post);
      DataBlocksAppend(u.pre, u.run);
      DataBlocksOf(u.pre);
      DataBlocksOf(u.run);
      DataBlocksOf(u.post);
      FlattenBlocks(us[1..]);
    }
  }

  lemma DataBlocksNil()
    ensures DataBlocks([]) == 0
  {}

  predicate AnyFill(us: seq<Unit>) {
    us != [] && (HasFill(us[0].run) || AnyFill(us[1..]))
  }

  /** With a fill chunk anywhere, the commands announce too few sectors. */
  lemma {:induction false} CommandsCount(us: seq<Unit>, s: nat, o: nat, k: nat, size: nat)
    requires size >= 4 && k >= 2 && forall u <- us :: DataRun(u.run, k * size)
    ensures TotalSectors(Commands(us, s, o, size)) <= RunBlocks(us) * k
    ensures AnyFill(us) ==> TotalSectors(Commands(us, s, o, size)) < RunBlocks(us) * k
    decreases |us|
  {
    hide Sum, Commands, TotalSectors, HasFill, DataRun;
    if us == [] {
      CommandsNil(s, o, size);
      TotalNil();
    } else {
      var u := us[0];
      assert u in us;
      var n := CeilDiv(Sum(u.run).bytes, size);
      FillCeil(u.run, k, size);
      Distribute(Sum(u.run).blocks, RunBlocks(us[1..]), k);
      TotalCons(us, s, o, size);
      CommandsCount(us[1..], s + n + 8 * Sum(u.Gap()).blocks, o + |EncodeChunks(u.Chunks())|, k, size);
    }
  }

  lemma TotalNil()
    ensures TotalSectors([]) == 0
  {}

  lemma TotalCons(us: seq<Unit>, s: nat, o: nat, size: nat)
    requires size > 0 && us != []
    ensures var n := CeilDiv(Sum(us[0].run).bytes, size);
            var s', o' := s + n + 8 * Sum(us[0].Gap()).blocks, o + |EncodeChunks(us[0].Chunks())|;
            TotalSectors(Commands(us, s, o, size)) == n + TotalSectors(Commands(us[1..], s', o', size))
  {
    hide Sum, Streamed, EncodeChunks, CeilDiv, Flatten, Commands, TotalSectors;
    CommandsCons(us, s, o, size);
    var cmds := Commands(us, s, o, size);
    TotalFirst(cmds[0], cmds[1..]);
  }

  lemma {:induction false} WrappedTotal(cmds: seq<Command>)
    ensures TotalSectors(Wrapped(cmds)) == TotalSectors(cmds)
    decreases |cmds|
  {
    if cmds != [] {
      WrappedTotal(cmds[1..]);
    }
  }

  lemma TotalFirst(c: Command, cmds: seq<Command>)
    ensures TotalSectors([c] + cmds) == c.sectors + TotalSectors(cmds)
  {
    assert ([c] + cmds)[1..] == cmds;
  }

  // ------------------------------------------------------------- the units of an image

  lemma OneRunIff(cs: seq<Chunk>)
    requires cs != [] && !cs[0].DontCare?
    ensures OneRun(cs) <==> |SplitRuns(cs)| <= 1
  {
    hide SplitRuns;
    var u, rest := FirstUnit(cs);
    var n := |u.run|;
    if rest == [] {
      assert forall i :: 0 <= i < n ==> cs[i] == u.run[i] && cs[i] in u.run;
      assert forall i :: n <= i < |cs| ==> cs[i] == u.post[i - n] && cs[i] in u.post;
    } else {
      assert u.post[0] in u.post && cs[n] == u.post[0];
      var m := n + |u.post|;
      assert cs[m] == rest[0];
      assert |SplitRuns(cs)| >= 2;
    }
  }

  lemma {:induction false} GapBlocks(gap: seq<Chunk>, blockSize: nat)
    requires gap != [] && forall c <- gap :: WellFormedChunk(c, blockSize)
    ensures Sum(gap).blocks > 0
  {
    assert gap[0] in gap && WellFormedChunk(gap[0], blockSize);
  }

  /** Every chunk of every unit is a chunk of the image. */
  lemma {:induction false} UnitChunks(us: seq<Unit>, i: nat)
    requires i < |us|
    ensures forall c <- us[i].Chunks() :: c in Flatten(us)
    decreases i
  {
    if i > 0 {
      UnitChunks(us[1..], i - 1);
    }
  }

  /** The units of a well-formed image. */
  lemma ImageUnits(img: Image, size: nat)
    requires WellFormed(img, size)
    ensures var us := Split(img.chunks);
            && (us == [] <==> AllGap(img.chunks))
            && (us != [] ==> Flatten(us) == img.chunks)
            && forall i :: 0 <= i < |us| ==>
                 && IsUnit(us[i]) && DataRun(us[i].run, img.blockSize)
                 && forall c <- us[i].Chunks() :: c in img.chunks && WellFormedChunk(c, img.blockSize)
  {
    hide Split, Flatten, WellFormedChunk;
    var us := Split(img.chunks);
    FlattenSplit(img.chunks);
    SplitEmpty(img.chunks);
    forall i | 0 <= i < |us|
      ensures IsUnit(us[i]) && DataRun(us[i].run, img.blockSize)
      ensures forall c <- us[i].Chunks() :: c in img.chunks && WellFormedChunk(c, img.blockSize)
    {
      SplitsAreUnits(img.chunks, i);
      UnitChunks(us, i);
      assert forall c <- us[i].run :: c in us[i].Chunks();
    }
  }

  lemma SplitEmpty(cs: seq<Chunk>)
    ensures Split(cs) == [] <==> AllGap(cs)
  {
    hide SplitRuns, Shift;
    var g := GapLen(cs);
    if g == |cs| {
      assert cs[g..] == [] && cs[..g] == cs;
      SplitNil();
    } else {
      assert cs[g] in cs && cs[g..][0] == cs[g];
      var u, rest := FirstUnit(cs[g..]);
    }
  }

  lemma NoLead(cs: seq<Chunk>)
    requires cs != [] && !cs[0].DontCare?
    ensures Split(cs) == SplitRuns(cs) && forall u <- Split(cs) :: u.pre == []
  {
    hide SplitRuns, Shift;
    assert cs[0..] == cs;
    forall i | 0 <= i < |SplitRuns(cs)| ensures SplitRuns(cs)[i].pre == [] {
      FirstPre(cs, i);
    }
  }

  lemma Lead(cs: seq<Chunk>)
    requires cs != [] && cs[0].DontCare? && !AllGap(cs)
    ensures Split(cs) != [] && Split(cs)[0].pre != []
  {
    hide SplitRuns, Shift;
    SplitEmpty(cs);
    ShiftAt(cs[..GapLen(cs)], SplitRuns(cs[GapLen(cs)..]), 0);
  }

  lemma SecondRun(cs: seq<Chunk>)
    requires cs != [] && !cs[0].DontCare? && |SplitRuns(cs)| >= 2
    ensures SplitRuns(cs)[0].post != []
  {
    hide SplitRuns;
    var u, rest := FirstUnit(cs);
  }

  // ------------------------------------------------------------- the theorem

  lemma FillNotPreserved(img: Image, start: nat, size: nat)
    requires WellFormed(img, size) && size >= 4 && img.blockSize >= 2 * size
    requires exists c <- img.chunks :: c.Fill?
    ensures !Preserves(img, start, size)
  {
    hide Split, Sum, Execute, Unsparse, Commands, WellFormedChunk, Flatten, Wrapped;
    var us := Split(img.chunks);
    var k := img.blockSize / size;
    BlockMultiple(img, size);
    ImageUnits(img, size);
    var c :| c in img.chunks && c.Fill?;
    FillInRun(us, c);
    var cmds := SentCommands(us, start, size);
    CommandsCount(us, start, HEADER_SIZE, k, size);
    WrappedTotal(Commands(us, start, HEADER_SIZE, size));
    ExecuteCount(map[], cmds, size);
    UnsparseCount(map[], img.chunks, start, k, size);
    FlattenBlocks(us);
    assert Execute(map[], cmds, size) != Unsparse(map[], img.chunks, start, img.blockSize, size);
  }

  lemma BlockMultiple(img: Image, size: nat)
    requires WellFormed(img, size)
    ensures size > 0 && img.blockSize == img.blockSize / size * size && img.blockSize / size > 0
    ensures img.blockSize >= 2 * size ==> img.blockSize / size >= 2
    ensures img.blockSize == 8 * size <==> img.blockSize / size == 8
  {
    var k := img.blockSize / size;
    Multiple(8, size);
    if img.blockSize >= 2 * size {
      AtMost(2, k, size);
    }
  }

  /** A fill chunk of the image lies in the run of some unit. */
  lemma {:induction false} FillInRun(us: seq<Unit>, c: Chunk)
    requires (forall u <- us :: IsUnit(u)) && c in Flatten(us) && c.Fill?
    ensures AnyFill(us)
    decreases |us|
  {
    var u := us[0];
    assert u in us;
    if c in u.Chunks() {
      assert c in u.run;
      assert HasFill(u.run);
    } else {
      FillInRun(us[1..], c);
    }
  }

  /** Both sides of an image without fill chunks, unit by unit. */
  lemma RawImage(img: Image, start: nat, size: nat)
    requires WellFormed(img, size) && (forall c <- img.chunks :: !c.Fill?) && !AllGap(img.chunks)
    requires NoWrap(img, start, size)
    ensures var us, k := Split(img.chunks), img.blockSize / size;
            && k > 0 && us != [] && (forall u <- us :: RawUnit(u, k, size))
            && forall flash: Flash ::
                 && Execute(flash, SentCommands(us, start, size), size) == ToolWrites(flash, us, start, k, size)
                 && Unsparse(flash, img.chunks, start, img.blockSize, size) == ImageWrites(flash, us, start, k, size)
  {
    hide Split, Sum, Execute, Unsparse, Commands, Flatten, ToolWrites, ImageWrites, Wrapped, LastStart;
    var us, k := Split(img.chunks), img.blockSize / size;
    BlockMultiple(img, size);
    ImageUnits(img, size);
    Unwrapped(us, start, HEADER_SIZE, size);
    forall i | 0 <= i < |us| ensures RawUnit(us[i], k, size) {
      assert forall c <- us[i].run :: c in us[i].Chunks();
    }
    forall flash: Flash
      ensures Execute(flash, SentCommands(us, start, size), size) == ToolWrites(flash, us, start, k, size)
      ensures Unsparse(flash, img.chunks, start, img.blockSize, size) == ImageWrites(flash, us, start, k, size)
    {
      ExecuteIsToolWrites(flash, us, start, HEADER_SIZE, k, size);
      UnsparseIsImageWrites(flash, us, start, k, size);
    }
  }

  /** An image of raw and don't-care chunks, no start sector of which wraps. */
  lemma RawPlacedIff(img: Image, start: nat, size: nat)
    requires WellFormed(img, size) && (forall c <- img.chunks :: !c.Fill?) && !AllGap(img.chunks)
    requires NoWrap(img, start, size)
    ensures Preserves(img, start, size) <==> Placed(img, size)
  {
    hide Split, Sum, Execute, Unsparse, Commands, Flatten, ToolWrites, ImageWrites, RawUnit, WellFormedChunk, OneRun, SplitRuns,
      SentCommands, NoWrap;
    var cs := img.chunks;
    var us, k := Split(cs), img.blockSize / size;
    var cmds := SentCommands(us, start, size);
    BlockMultiple(img, size);
    RawImage(img, start, size);
    ImageUnits(img, size);
    var none: Flash := map[];
    if cs[0].DontCare? {
      Lead(cs);
      assert us[0] in us && forall c <- us[0].pre :: c in us[0].Chunks();
      GapBlocks(us[0].pre, img.blockSize);
      LeadOverwritten(us, start, k, size);
      assert Execute(none, cmds, size) != Unsparse(none, cs, start, img.blockSize, size);
    } else {
      NoLead(cs);
      OneRunIff(cs);
      if k == 8 || |us| <= 1 {
        forall flash: Flash ensures Execute(flash, cmds, size) == Unsparse(flash, cs, start, img.blockSize, size) {
          SameWrites(flash, us, start, k, size);
        }
      } else {
        SecondRun(cs);
        assert us[0] in us && us[1] in us && forall c <- us[0].post :: c in us[0].Chunks();
        GapBlocks(us[0].post, img.blockSize);
        GapMiscounted(us, start, k, size);
        assert Execute(none, cmds, size) != Unsparse(none, cs, start, img.blockSize, size);
      }
    }
  }

  lemma OnlyGap(img: Image, start: nat, size: nat)
    requires WellFormed(img, size) && AllGap(img.chunks)
    ensures Preserves(img, start, size)
  {
    hide Split, Unsparse;
    BlockMultiple(img, size);
    SplitEmpty(img.chunks);
    var k := img.blockSize / size;
    forall flash: Flash
      ensures Execute(flash, SentCommands(Split(img.chunks), start, size), size)
           == Unsparse(flash, img.chunks, start, img.blockSize, size)
    {
      UnsparseGap(flash, img.chunks, [], start, k, size);
      assert img.chunks + [] == img.chunks;
      UnsparseNil(flash, start + Sum(img.chunks).blocks * k, k * size, size);
    }
  }

  lemma {:induction false} OffsetAt(us: seq<Unit>, start: nat, offset: nat, size: nat, i: nat)
    requires size > 0 && i < |us|
    ensures Commands(us, start, offset, size)[i].offset == offset + |EncodeChunks(Flatten(us[..i]))|
    ensures Flatten(us) == Flatten(us[..i]) + (us[i].Chunks() + Flatten(us[i + 1..]))
    decreases i
  {
    hide EncodeChunks, Streamed, Sum, CeilDiv, Commands;
    CommandsCons(us, start, offset, size);
    if i == 0 {
      EncodeNil();
    } else {
      var n := CeilDiv(Sum(us[0].run).bytes, size);
      var s', o' := start + n + 8 * Sum(us[0].Gap()).blocks, offset + |EncodeChunks(us[0].Chunks())|;
      OffsetAt(us[1..], s', o', size, i - 1);
      assert us[..i][1..] == us[1..][..i - 1] && us[1..][i..] == us[i + 1..];
      EncodeAppend(us[0].Chunks(), Flatten(us[1..][..i - 1]));
      SeqAssoc(us[0].Chunks(), Flatten(us[1..][..i - 1]), us[i].Chunks() + Flatten(us[i + 1..]));
    }
  }

  lemma EncodeNil()
    ensures EncodeChunks([]) == []
  {}

  /** In an image that starts with data, the file offset of every command is where the
      header of the first chunk of its run stands. */
  lemma OffsetIsRunHeader(img: Image, start: nat, size: nat, i: nat)
    requires WellFormed(img, size) && img.chunks != [] && !img.chunks[0].DontCare? && i < |Split(img.chunks)|
    ensures var us := Split(img.chunks);
            var n := |Flatten(us[..i])|;
            && n + |us[i].run| <= |img.chunks| && img.chunks[n..n + |us[i].run|] == us[i].run
            && SentCommands(us, start, size)[i].offset == HEADER_SIZE + |EncodeChunks(img.chunks[..n])|
  {
    hide Split, SplitRuns, Flatten, EncodeChunks, Commands, WellFormedChunk, Wrapped;
    var us := Split(img.chunks);
    WrappedAt(Commands(us, start, HEADER_SIZE, size), i);
    var n := |Flatten(us[..i])|;
    BlockMultiple(img, size);
    ImageUnits(img, size);
    NoLead(img.chunks);
    assert us[i] in us;
    OffsetAt(us, start, HEADER_SIZE, size, i);
    assert us[i].Chunks() == us[i].run + us[i].post;
    assert img.chunks[..n] == Flatten(us[..i]);
    assert img.chunks[n..][..|us[i].run|] == us[i].run;
  }
}
