/** What the chunk headers of a sparse image decide: whether it is written right whatever its chunks
    hold. */
module SparseHeaders {
  import opened Arith
  import opened LittleEndian
  import opened SparseImage
  import opened SparseProgram
  import opened SparseMeaning
  import opened SparseTheorem
  import opened SparseWrap

  // ------------------------------------------------------------- right by chance

  const GAP1 := 954437177
  const GAP2 := 2386092942

  /** Three sectors with gaps between them, the last two alike. */
  function LuckyChunks(a: seq<Byte>, d: seq<Byte>): seq<Chunk> {
    [Raw(1, a), DontCare(GAP1), Raw(1, d), DontCare(GAP2), Raw(1, d)]
  }

  function LuckyImage(a: seq<Byte>, d: seq<Byte>): Image {
    Image(512, 3 + GAP1 + GAP2, LuckyChunks(a, d), 0)
  }

  lemma LuckySplit(a: seq<Byte>, d: seq<Byte>)
    ensures
      var cs := LuckyChunks(a, d);
      Split(cs) == [Unit([], [cs[0]], [cs[1]]), Unit([], [cs[2]], [cs[3]]), Unit([], [cs[4]], [])]
  {
    hide DataLen, GapLen, SplitRuns, Split;
    var cs := LuckyChunks(a, d);
    NoLead(cs);
    var rest := [cs[2]] + ([cs[3]] + [cs[4]]);
    assert cs == [cs[0]] + ([cs[1]] + rest);
    UnitOne(cs[0], cs[1], rest);
    UnitOne(cs[2], cs[3], [cs[4]]);
    UnitLast(cs[4]);
  }

  /** A unit of one sector, in blocks of one sector. */
  lemma SectorUnit(c: Chunk, post: seq<Chunk>, rest: seq<Chunk>)
    requires c.Raw? && c.blocks == 1 && |c.data| == 512 && AllGap(post)
    ensures
      var u := Unit([], [c], post);
      && Sum(u.run).bytes == 512 && CeilDiv(Sum(u.run).bytes, 512) == 1 && u.Gap() == post
      && Streamed(u.Chunks() + rest, 0, Sum(u.run).bytes, 512) == c.data
  {
    hide Streamed, Sum, CeilDiv, Bytes, AllGap;
    var u := Unit([], [c], post);
    assert [] + post == post;
    SumOne(c);
    assert RawUnit(u, 1, 512) by { SectorRaw(c, post); }
    RawCommand(u, rest, 1, 512);
    BytesOne(c);
  }

  lemma SectorRaw(c: Chunk, post: seq<Chunk>)
    requires c.Raw? && c.blocks == 1 && |c.data| == 512 && AllGap(post)
    ensures RawUnit(Unit([], [c], post), 1, 512)
  {}

  lemma BytesOne(c: Chunk)
    ensures Bytes([c]) == c.Payload()
  {
    assert Bytes([c]) == c.Payload() + Bytes([c][1..]) && [c][1..] == [];
    assert c.Payload() + [] == c.Payload();
  }

  /** The commands of an image whose units are sectors. */
  lemma SectorCommands(us: seq<Unit>, s: nat, o: nat) returns (c: Command)
    requires us != [] && us[0].pre == [] && |us[0].run| == 1 && us[0].run[0].Raw? && us[0].run[0].blocks == 1
    requires |us[0].run[0].data| == 512 && AllGap(us[0].post)
    ensures c.start == s && c.sectors == 1 && c.payload == us[0].run[0].data
    ensures Commands(us, s, o, 512) ==
      [c] + Commands(us[1..], s + 1 + 8 * Sum(us[0].post).blocks, o + |EncodeChunks(us[0].Chunks())|, 512)
  {
    hide Streamed, Sum, CeilDiv, Commands, Flatten, EncodeChunks;
    var d := us[0].run[0];
    assert us[0].run == [d];
    SectorUnit(d, us[0].post, Flatten(us[1..]));
    CommandsCons(us, s, o, 512);
    c := Commands(us, s, o, 512)[0];
  }

  lemma WriteSector(flash: Flash, s: int, d: seq<Byte>)
    requires |d| == 512
    ensures Write(flash, s, d, 512) == flash[s := d]
  {
    assert d[..512] == d && d[512..] == [];
    assert Write(flash[s := d], s + 1, [], 512) == flash[s := d];
  }

  /** Executing and unsparsing one sector. */
  lemma ExecuteSector(flash: Flash, c: Command, cmds: seq<Command>)
    requires c.sectors == 1 && |c.payload| == 512
    ensures Execute(flash, [c] + cmds, 512) == Execute(flash[c.start := c.payload], cmds, 512)
  {
    hide Execute, Write;
    ExecuteFirst(flash, c, cmds, 512);
    WriteSector(flash, c.start, c.payload);
  }

  lemma UnsparseSector(flash: Flash, c: Chunk, cs: seq<Chunk>, s: int)
    requires c.DontCare? || (c.Raw? && c.blocks == 1 && |c.data| == 512)
    ensures Unsparse(flash, [c] + cs, s, 512, 512)
         == Unsparse(if c.Raw? then flash[s := c.data] else flash, cs, s + c.blocks, 512, 512)
  {
    hide Unsparse, Write;
    assert ([c] + cs)[1..] == cs;
    UnsparseCons(flash, [c] + cs, s, 512, 512);
    if c.Raw? {
      WriteSector(flash, s, c.data);
    }
  }

  lemma LuckyMeans(flash: Flash, a: seq<Byte>, d: seq<Byte>, s: nat)
    requires |a| == 512 && |d| == 512
    ensures Unsparse(flash, LuckyChunks(a, d), s, 512, 512)
         == flash[s := a][s + 1 + GAP1 := d][s + 2 + GAP1 + GAP2 := d]
  {
    hide Unsparse;
    var cs := LuckyChunks(a, d);
    var f1 := flash[s := a];
    var f2 := f1[s + 1 + GAP1 := d];
    assert cs == [cs[0]] + cs[1..] && cs[1..] == [cs[1]] + cs[2..] && cs[2..] == [cs[2]] + cs[3..];
    assert cs[3..] == [cs[3]] + cs[4..] && cs[4..] == [cs[4]] + [];
    UnsparseSector(flash, cs[0], cs[1..], s);
    UnsparseSector(f1, cs[1], cs[2..], s + 1);
    UnsparseSector(f1, cs[2], cs[3..], s + 1 + GAP1);
    UnsparseSector(f2, cs[3], cs[4..], s + 2 + GAP1);
    UnsparseSector(f2, cs[4], [], s + 2 + GAP1 + GAP2);
    UnsparseNil(f2[s + 2 + GAP1 + GAP2 := d], s + 3 + GAP1 + GAP2, 512, 512);
  }

  /** The starts, once reduced, are those of the two equal sectors exchanged. */
  lemma LuckyStarts(s: nat)
    requires s + 3 + GAP1 + GAP2 <= SECTOR_MOD
    ensures s % SECTOR_MOD == s
    ensures (s + 1 + 8 * GAP1) % SECTOR_MOD == s + 2 + GAP1 + GAP2
    ensures (s + 1 + 8 * GAP1 + 1 + 8 * GAP2) % SECTOR_MOD == s + 1 + GAP1
  {}

  lemma LuckyCommands(a: seq<Byte>, d: seq<Byte>, s: nat) returns (x: Command, y: Command, z: Command)
    requires |a| == 512 && |d| == 512 && s + 3 + GAP1 + GAP2 <= SECTOR_MOD
    ensures SentCommands(Split(LuckyChunks(a, d)), s, 512) == [x] + ([y] + ([z] + []))
    ensures x.sectors == y.sectors == z.sectors == 1 && x.payload == a && y.payload == d && z.payload == d
    ensures x.start == s && y.start == s + 2 + GAP1 + GAP2 && z.start == s + 1 + GAP1
  {
    hide Split, Sum, Commands, Wrapped, EncodeChunks;
    LuckySplit(a, d);
    var us := Split(LuckyChunks(a, d));
    SumOne(DontCare(GAP1));
    SumOne(DontCare(GAP2));
    var o1 := HEADER_SIZE + |EncodeChunks(us[0].Chunks())|;
    var o2 := o1 + |EncodeChunks(us[1].Chunks())|;
    var s1, s2 := s + 1 + 8 * GAP1, s + 1 + 8 * GAP1 + 1 + 8 * GAP2;
    x := SectorCommands(us, s, HEADER_SIZE);
    y := SectorCommands(us[1..], s1, o1);
    z := SectorCommands(us[2..], s2, o2);
    assert us[1..][1..] == us[2..] && us[2..][1..] == [];
    SumNil();
    CommandsNil(s2 + 1, o2 + |EncodeChunks(us[2].Chunks())|, 512);
    WrappedCons(x, [y] + ([z] + []));
    WrappedCons(y, [z] + []);
    WrappedCons(z, []);
    WrappedNil();
    LuckyStarts(s);
    x, y, z := x.(start := x.start % SECTOR_MOD), y.(start := y.start % SECTOR_MOD), z.(start := z.start % SECTOR_MOD);
  }

  /** Why PreservesIff leaves out runs that wrap in small blocks: this image is none the tool supports,
      and its second and third run are sent to each other's place. */
  lemma LuckyWrap(a: seq<Byte>, d: seq<Byte>, s: nat)
    requires |a| == 512 && |d| == 512 && s + 3 + GAP1 + GAP2 <= SECTOR_MOD
    ensures
      var img := LuckyImage(a, d);
      && WellFormed(img, 512) && Fits(img) && !Supported(img, 512) && !NoWrap(img, s, 512)
      && Preserves(img, s, 512)
  {
    hide Split, LuckyChunks, SentCommands, Execute, Unsparse, WellFormed, Fits, Supported, NoWrap;
    LuckyFacts(a, d, s);
    forall flash: Flash {
      LuckyWrites(flash, a, d, s);
    }
  }

  lemma LuckyWrites(flash: Flash, a: seq<Byte>, d: seq<Byte>, s: nat)
    requires |a| == 512 && |d| == 512 && s + 3 + GAP1 + GAP2 <= SECTOR_MOD
    ensures Execute(flash, SentCommands(Split(LuckyChunks(a, d)), s, 512), 512)
         == Unsparse(flash, LuckyChunks(a, d), s, 512, 512)
  {
    hide Split, LuckyChunks, SentCommands, Execute, Unsparse;
    var x, y, z := LuckyCommands(a, d, s);
    LuckyMeans(flash, a, d, s);
    var f1 := flash[s := a];
    var f2 := f1[y.start := d];
    ExecuteSector(flash, x, [y] + ([z] + []));
    ExecuteSector(f1, y, [z] + []);
    ExecuteSector(f2, z, []);
    ExecuteNothing(f2[z.start := d]);
  }

  lemma ExecuteNothing(flash: Flash)
    ensures Execute(flash, [], 512) == flash
  {}

  lemma LuckyFacts(a: seq<Byte>, d: seq<Byte>, s: nat)
    requires |a| == 512 && |d| == 512
    ensures
      var img := LuckyImage(a, d);
      WellFormed(img, 512) && Fits(img) && !Supported(img, 512) && !NoWrap(img, s, 512)
  {
    hide Split, Sum, EncodeChunks, EncodeHeader, Fills;
    var cs := LuckyChunks(a, d);
    LuckySplit(a, d);
    assert cs[1].DontCare? && !cs[2].DontCare?;
    assert cs[2] in cs && !AllGap(cs);
    EncodeLength(cs);
    LuckySum(a, d);
    LuckyLast(a, d, s);
  }

  lemma LuckySum(a: seq<Byte>, d: seq<Byte>)
    ensures var t := Sum(LuckyChunks(a, d)); t.bytes == |a| + 2 * |d| && t.count == 5
  {
    var cs := LuckyChunks(a, d);
    assert cs[4..] == [cs[4]];
    SumOne(cs[4]);
    assert Sum(cs[3..]) == Plus(One(cs[3]), Sum(cs[3..][1..])) && cs[3..][1..] == cs[4..];
    assert Sum(cs[2..]) == Plus(One(cs[2]), Sum(cs[2..][1..])) && cs[2..][1..] == cs[3..];
    assert Sum(cs[1..]) == Plus(One(cs[1]), Sum(cs[1..][1..])) && cs[1..][1..] == cs[2..];
  }

  lemma LuckyLast(a: seq<Byte>, d: seq<Byte>, s: nat)
    requires |a| == 512 && |d| == 512
    ensures LastStart(Split(LuckyChunks(a, d)), s, 512) >= SECTOR_MOD
  {
    hide Split, Sum, Streamed;
    var cs := LuckyChunks(a, d);
    LuckySplit(a, d);
    var us := Split(cs);
    SectorUnit(cs[0], [cs[1]], []);
    SumOne(cs[1]);
    assert us[0].Gap() == [cs[1]];
    hide CeilDiv;
    assert |us| == 3;
  }

  // ------------------------------------------------------------- the same headers

  predicate SameHeader(c: Chunk, d: Chunk) {
    c.Raw? == d.Raw? && c.Fill? == d.Fill? && c.blocks == d.blocks
  }

  predicate SameChunks(a: seq<Chunk>, b: seq<Chunk>) {
    |a| == |b| && forall i :: 0 <= i < |a| ==> SameHeader(a[i], b[i])
  }

  /** Two images that differ at most in what their chunks hold. */
  predicate SameHeaders(img: Image, other: Image) {
    img.blockSize == other.blockSize && SameChunks(img.chunks, other.chunks)
  }

  /** Every image with these headers is written right. */
  ghost predicate Safe(img: Image, start: nat, size: nat)
    requires size > 0
  {
    forall other :: SameHeaders(img, other) && WellFormed(other, size) ==> Preserves(other, start, size)
  }

  /** Fill chunks that are right with every value. */
  predicate FillsFree(img: Image, size: nat) {
    forall c <- img.chunks :: c.Fill? ==> img.blockSize == size == 4 && c.blocks == 1
  }

  predicate SameUnit(u: Unit, v: Unit) {
    SameChunks(u.pre, v.pre) && SameChunks(u.run, v.run) && SameChunks(u.post, v.post)
  }

  predicate SameUnits(us: seq<Unit>, vs: seq<Unit>) {
    |us| == |vs| && forall i :: 0 <= i < |us| ==> SameUnit(us[i], vs[i])
  }

  lemma SameSlice(a: seq<Chunk>, b: seq<Chunk>, i: nat, j: nat)
    requires SameChunks(a, b) && i <= j <= |a|
    ensures SameChunks(a[i..j], b[i..j])
  {
    hide SameHeader;
  }

  lemma {:induction false} SameGapLen(a: seq<Chunk>, b: seq<Chunk>)
    requires SameChunks(a, b)
    ensures GapLen(a) == GapLen(b)
    decreases |a|
  {
    if a != [] {
      assert SameHeader(a[0], b[0]);
      SameSlice(a, b, 1, |a|);
      assert a[1..|a|] == a[1..] && b[1..|b|] == b[1..];
      hide SameChunks;
      SameGapLen(a[1..], b[1..]);
    }
  }

  lemma {:induction false} SameDataLen(a: seq<Chunk>, b: seq<Chunk>)
    requires SameChunks(a, b)
    ensures DataLen(a) == DataLen(b)
    decreases |a|
  {
    if a != [] {
      assert SameHeader(a[0], b[0]);
      SameSlice(a, b, 1, |a|);
      assert a[1..|a|] == a[1..] && b[1..|b|] == b[1..];
      hide SameChunks;
      SameDataLen(a[1..], b[1..]);
    }
  }

  lemma SameRest(a: seq<Chunk>, b: seq<Chunk>, i: nat)
    requires SameChunks(a, b) && i <= |a|
    ensures SameChunks(a[..i], b[..i]) && SameChunks(a[i..], b[i..])
  {
    hide SameHeader;
  }

  lemma SameFirst(a: seq<Chunk>, b: seq<Chunk>)
    requires SameChunks(a, b) && a != [] && !a[0].DontCare? && b != [] && !b[0].DontCare?
    ensures SameUnit(FirstOf(a), FirstOf(b)) && SameChunks(AfterFirst(a), AfterFirst(b))
  {
    hide SameChunks, DataLen, GapLen;
    SameDataLen(a, b);
    var n := DataLen(a);
    SameRest(a, b, n);
    SameGapLen(a[n..], b[n..]);
    var g := GapLen(a[n..]);
    SameSlice(a, b, n, n + g);
    SameRest(a, b, n + g);
    SameNone();
  }

  lemma {:induction false} SameRuns(a: seq<Chunk>, b: seq<Chunk>)
    requires SameChunks(a, b) && (a == [] || !a[0].DontCare?)
    ensures b == [] || !b[0].DontCare?
    ensures SameUnits(SplitRuns(a), SplitRuns(b))
    decreases |a|
  {
    hide SameChunks, SplitRuns, FirstOf, AfterFirst, SameUnit;
    SameLength(a, b);
    if a == [] {
      SplitNil();
    } else {
      SameFirst(a, b);
      FirstShape(a);
      FirstShape(b);
      FirstParts(a);
      SplitOne(a);
      SplitOne(b);
      SameRuns(AfterFirst(a), AfterFirst(b));
    }
  }

  lemma SameLength(a: seq<Chunk>, b: seq<Chunk>)
    requires SameChunks(a, b)
    ensures |a| == |b| && forall i :: 0 <= i < |a| ==> a[i].DontCare? == b[i].DontCare?
  {
    assert forall i :: 0 <= i < |a| ==> SameHeader(a[i], b[i]);
  }

  lemma SameNone()
    ensures SameChunks([], [])
  {}

  lemma {:induction false} SameShift(a: seq<Chunk>, b: seq<Chunk>, us: seq<Unit>, vs: seq<Unit>)
    requires us != [] && SameChunks(a, b) && SameUnits(us, vs)
    ensures SameUnits(Shift(a, us), Shift(b, vs))
    decreases |us|
  {
    hide SameChunks;
    assert SameUnit(us[0], vs[0]);
    SameNone();
    if |us| > 1 {
      assert SameUnits(us[1..], vs[1..]);
      SameShift(us[0].post, vs[0].post, us[1..], vs[1..]);
    }
  }

  /** The units are cut alike. */
  lemma SameSplit(a: seq<Chunk>, b: seq<Chunk>)
    requires SameChunks(a, b)
    ensures SameUnits(Split(a), Split(b))
  {
    hide SameChunks, SplitRuns, Shift;
    SameGapLen(a, b);
    var g := GapLen(a);
    SameLength(a, b);
    SameRest(a, b, g);
    SameRuns(a[g..], b[g..]);
    var us, vs := SplitRuns(a[g..]), SplitRuns(b[g..]);
    if g > 0 && us != [] {
      SameShift(a[..g], b[..g], us, vs);
    }
  }

  lemma {:induction false} SameSum(a: seq<Chunk>, b: seq<Chunk>, blockSize: nat)
    requires SameChunks(a, b)
    ensures Sum(a).blocks == Sum(b).blocks
    ensures (forall c <- a :: WellFormedChunk(c, blockSize)) && (forall c <- b :: WellFormedChunk(c, blockSize)) ==>
      Sum(a).bytes == Sum(b).bytes
    decreases |a|
  {
    if a != [] {
      assert SameHeader(a[0], b[0]) && a[0] in a && b[0] in b;
      SameRest(a, b, 1);
      assert (forall c <- a[1..] :: c in a) && forall c <- b[1..] :: c in b;
      hide SameChunks;
      SameSum(a[1..], b[1..], blockSize);
    }
  }

  lemma SameGap(u: Unit, v: Unit)
    requires SameUnit(u, v)
    ensures Sum(u.Gap()).blocks == Sum(v.Gap()).blocks
  {
    hide Sum, SameChunks;
    SameSum(u.pre, v.pre, 0);
    SameSum(u.post, v.post, 0);
    SumAppend(u.pre, u.post);
    SumAppend(v.pre, v.post);
  }

  lemma SameBytes(u: Unit, v: Unit, blockSize: nat)
    requires SameUnit(u, v) && DataRun(u.run, blockSize) && DataRun(v.run, blockSize)
    ensures Sum(u.run).bytes == Sum(v.run).bytes && Sum(u.run).blocks == Sum(v.run).blocks
  {
    hide Sum, SameChunks, WellFormedChunk;
    SameSum(u.run, v.run, blockSize);
  }

  lemma {:induction false} SameLast(us: seq<Unit>, vs: seq<Unit>, s: nat, blockSize: nat, size: nat)
    requires size > 0 && SameUnits(us, vs)
    requires (forall u <- us :: DataRun(u.run, blockSize)) && forall v <- vs :: DataRun(v.run, blockSize)
    ensures LastStart(us, s, size) == LastStart(vs, s, size)
    decreases |us|
  {
    hide SameUnit, Sum, CeilDiv, DataRun;
    if |us| > 1 {
      assert SameUnit(us[0], vs[0]) && us[0] in us && vs[0] in vs;
      SameGap(us[0], vs[0]);
      SameBytes(us[0], vs[0], blockSize);
      assert SameUnits(us[1..], vs[1..]) && (forall u <- us[1..] :: u in us) && forall v <- vs[1..] :: v in vs;
      SameLast(us[1..], vs[1..], s + CeilDiv(Sum(us[0].run).bytes, size) + 8 * Sum(us[0].Gap()).blocks, blockSize, size);
    }
  }

  /** What the headers decide. */
  lemma SameImage(img: Image, other: Image, start: nat, size: nat)
    requires WellFormed(img, size) && WellFormed(other, size) && SameHeaders(img, other)
    ensures NoWrap(img, start, size) <==> NoWrap(other, start, size)
    ensures AllGap(img.chunks) <==> AllGap(other.chunks)
    ensures Placed(img, size) <==> Placed(other, size)
  {
    hide SameChunks, Split, LastStart, SameUnits, Flatten, WellFormedChunk, DataRun, IsUnit, WellFormed;
    SameSplit(img.chunks, other.chunks);
    var us, vs := Split(img.chunks), Split(other.chunks);
    ImageUnits(img, size);
    ImageUnits(other, size);
    assert size > 0 by { SizePositive(img, size); }
    SameLast(us, vs, start, img.blockSize, size);
    SameKinds(img.chunks, other.chunks);
  }

  lemma SameKinds(a: seq<Chunk>, b: seq<Chunk>)
    requires SameChunks(a, b)
    ensures |a| == |b| && (AllGap(a) <==> AllGap(b)) && (OneRun(a) <==> OneRun(b))
    ensures a != [] ==> a[0].DontCare? == b[0].DontCare?
  {
    SameLength(a, b);
    hide SameChunks;
    assert AllGap(a) ==> forall i :: 0 <= i < |a| ==> a[i] in a && b[i].DontCare?;
    assert AllGap(b) ==> forall i :: 0 <= i < |a| ==> b[i] in b && a[i].DontCare?;
  }

  // ------------------------------------------------------------- a leading gap

  /** Both kinds of image in which a run announces exactly what it has. */
  predicate Exact(img: Image, size: nat)
    requires size > 0
  {
    (forall c <- img.chunks :: !c.Fill?) || (size >= 4 && img.blockSize == size && AllGood(Split(img.chunks), size))
  }

  lemma FirstExact(img: Image, size: nat)
    requires WellFormed(img, size) && Exact(img, size) && !AllGap(img.chunks)
    ensures
      var us := Split(img.chunks);
      && us != []
      && var t, n := Sum(us[0].run), Sum(us[0].run).blocks * (img.blockSize / size);
         && n > 0 && CeilDiv(t.bytes, size) == n
         && |Streamed(us[0].Chunks() + Flatten(us[1..]), 0, t.bytes, size)| == n * size
  {
    hide Split, Flatten, Sum, CeilDiv, Streamed, AllGood, DataRun, GoodRun, AllGap, AllData;
    var us, k := Split(img.chunks), img.blockSize / size;
    BlockMultiple(img, size);
    ImageUnits(img, size);
    var u, rest := us[0], Flatten(us[1..]);
    if forall c <- img.chunks :: !c.Fill? {
      RawFirst(img, size);
      RawCommand(u, rest, k, size);
      MulBound(Sum(u.run).blocks, k);
    } else {
      assert GoodRun(u.run, size) by { GoodFirst(us, size); }
      Multiple(1, size);
      GoodCommand(u, rest, size);
      RunPositive(u.run, size);
    }
  }

  lemma GoodFirst(us: seq<Unit>, size: nat)
    requires us != [] && AllGood(us, size)
    ensures GoodRun(us[0].run, size)
  {
    assert us[0] in us;
  }

  lemma RawFirst(img: Image, size: nat)
    requires WellFormed(img, size) && (forall c <- img.chunks :: !c.Fill?) && Split(img.chunks) != []
    ensures img.blockSize / size > 0 && RawUnit(Split(img.chunks)[0], img.blockSize / size, size)
  {
    hide Split, Flatten;
    BlockMultiple(img, size);
    ImageUnits(img, size);
    var u := Split(img.chunks)[0];
    assert forall c <- u.run :: c in u.Chunks();
  }

  lemma {:induction false} ExecuteKeeps(flash: Flash, cmds: seq<Command>, x: int, size: nat)
    requires size > 0 && x in flash
    ensures x in Execute(flash, cmds, size)
    decreases |cmds|
  {
    hide Write;
    if cmds != [] {
      var c := cmds[0];
      var taken := if |c.payload| <= c.sectors * size then c.payload else c.payload[..c.sectors * size];
      WriteKeeps(flash, c.start, taken, x, size);
      ExecuteKeeps(Write(flash, c.start, taken, size), cmds[1..], x, size);
    }
  }

  lemma WriteKeeps(flash: Flash, s: int, bytes: seq<Byte>, x: int, size: nat)
    requires size > 0
    ensures x in flash ==> x in Write(flash, s, bytes, size)
    ensures |bytes| >= size ==> s in Write(flash, s, bytes, size)
  {
    hide Write;
    var n := |bytes| / size;
    assert n * size <= |bytes| < n * size + size;
    if |bytes| >= size {
      AtMost(1, n, size);
    }
    WriteKeys(flash, s, bytes, n, size);
  }

  lemma {:induction false} NotBefore(flash: Flash, cs: seq<Chunk>, s: int, k: nat, size: nat, x: int)
    requires size > 0 && k * size % 4 == 0 && (forall c <- cs :: WellFormedChunk(c, k * size)) && x !in flash && x < s
    ensures x !in Unsparse(flash, cs, s, k * size, size)
    decreases |cs|
  {
    hide ChunkWrites, Unsparse, WellFormedChunk;
    if cs == [] {
      UnsparseNil(flash, s, k * size, size);
    } else {
      var c := cs[0];
      assert c in cs && forall d <- cs[1..] :: d in cs;
      Multiple(k, size);
      UnsparseCons(flash, cs, s, k * size, size);
      ChunkKeys(flash, c, s, k, size);
      NotNegative(c.blocks, k);
      NotBefore(ChunkWrites(flash, c, s, k * size, size), cs[1..], s + c.blocks * k, k, size, x);
    }
  }

  /** Data behind a leading gap is sent over the gap, wherever the other commands go. */
  lemma LeadNotPreserved(img: Image, start: nat, size: nat)
    requires WellFormed(img, size) && Exact(img, size) && !AllGap(img.chunks) && img.chunks[0].DontCare? && start < SECTOR_MOD
    ensures !Preserves(img, start, size)
  {
    hide Split, Flatten, Sum, CeilDiv, Streamed, Commands, Wrapped, Execute, Unsparse, Exact, WellFormedChunk;
    FirstWritten(img, start, size);
    LeadSkipped(img, start, size);
    assert Execute(map[], SentCommands(Split(img.chunks), start, size), size)
        != Unsparse(map[], img.chunks, start, img.blockSize, size);
  }

  /** The first command writes the start sector. */
  lemma FirstWritten(img: Image, start: nat, size: nat)
    requires WellFormed(img, size) && Exact(img, size) && !AllGap(img.chunks) && start < SECTOR_MOD
    ensures start in Execute(map[], SentCommands(Split(img.chunks), start, size), size)
  {
    hide Split, Flatten, Sum, CeilDiv, Streamed, Commands, Wrapped, Execute, Write, Exact, WellFormed, AllGap;
    SizePositive(img, size);
    var us := Split(img.chunks);
    FirstExact(img, size);
    CommandsCons(us, start, HEADER_SIZE, size);
    var cmds := Commands(us, start, HEADER_SIZE, size);
    var c, rest := cmds[0], cmds[1..];
    assert cmds == [c] + rest;
    WrappedCons(c, rest);
    assert c.start % SECTOR_MOD == c.start;
    OneWritten(c, Wrapped(rest), size);
  }

  lemma OneWritten(c: Command, cmds: seq<Command>, size: nat)
    requires size > 0 && c.sectors > 0 && |c.payload| == c.sectors * size
    ensures c.start in Execute(map[], [c] + cmds, size)
  {
    hide Execute, Write;
    ExecuteFirst(map[], c, cmds, size);
    MulBound(c.sectors, size);
    WriteKeeps(map[], c.start, c.payload, c.start, size);
    ExecuteKeeps(Write(map[], c.start, c.payload, size), cmds, c.start, size);
  }

  lemma LeadSkipped(img: Image, start: nat, size: nat)
    requires WellFormed(img, size) && img.chunks != [] && img.chunks[0].DontCare?
    ensures start !in Unsparse(map[], img.chunks, start, img.blockSize, size)
  {
    hide Unsparse, WellFormedChunk;
    var k, cs := img.blockSize / size, img.chunks;
    BlockMultiple(img, size);
    Multiple(k, size);
    assert cs[0] in cs && forall d <- cs[1..] :: d in cs;
    UnsparseCons(map[], cs, start, k * size, size);
    ChunkPositive(cs[0], k * size);
    MulBound(cs[0].blocks, k);
    NotBefore(map[], cs[1..], start + cs[0].blocks * k, k, size, start);
  }

  // ------------------------------------------------------------- a marked sector

  /** Nothing but zeros, with a one in front if it is to be marked. */
  function Flag(mark: bool, n: nat): seq<Byte> {
    seq(n, i => if mark && i == 0 then 1 else 0)
  }

  function Content(c: Chunk, mark: bool): Chunk {
    match c
    case Raw(blocks, data) => Raw(blocks, Flag(mark, |data|))
    case Fill(blocks, value) => Fill(blocks, Flag(mark, |value|))
    case DontCare(_) => c
  }

  function Marked(img: Image, j: nat): (r: Image)
    ensures |r.chunks| == |img.chunks|
  {
    img.(chunks := seq(|img.chunks|, i requires 0 <= i < |img.chunks| => Content(img.chunks[i], i == j)))
  }

  lemma MarkedSame(img: Image, j: nat, size: nat)
    requires WellFormed(img, size)
    ensures SameHeaders(img, Marked(img, j)) && WellFormed(Marked(img, j), size)
  {
    var cs, ds := img.chunks, Marked(img, j).chunks;
    forall i | 0 <= i < |ds| ensures WellFormedChunk(ds[i], img.blockSize) && SameHeader(cs[i], ds[i]) {
      assert cs[i] in cs && WellFormedChunk(cs[i], img.blockSize);
    }
  }

  predicate Zero(bytes: seq<Byte>) { forall i :: 0 <= i < |bytes| ==> bytes[i] == 0 }

  /** Zeros, but for the first byte. */
  predicate ZeroTail(bytes: seq<Byte>) { forall i :: 0 < i < |bytes| ==> bytes[i] == 0 }

  predicate AllZero(cs: seq<Chunk>) { forall c <- cs :: Zero(c.Payload()) }

  lemma PadZero(bytes: seq<Byte>, size: nat)
    requires size > 0
    ensures Zero(bytes) ==> Zero(PadTo(bytes, size))
    ensures ZeroTail(bytes) ==> ZeroTail(PadTo(bytes, size))
    ensures bytes != [] ==> PadTo(bytes, size) != []
  {
    hide Zero;
    hide ZeroTail;
    ZerosAppend(bytes, if |bytes| % size == 0 then [] else seq(size - |bytes| % size, _ => 0));
  }

  lemma ZerosAppend(a: seq<Byte>, b: seq<Byte>)
    requires forall i :: 0 <= i < |b| ==> b[i] == 0
    ensures (Zero(a) ==> Zero(a + b)) && (ZeroTail(a) && a != [] ==> ZeroTail(a + b)) && a + [] == a
    ensures a == [] ==> ZeroTail(a + b)
  {}

  lemma {:induction false} StreamedZero(cs: seq<Chunk>, sent: nat, bytes: nat, size: nat)
    requires size > 0 && AllZero(cs)
    ensures Zero(Streamed(cs, sent, bytes, size))
    decreases |cs|
  {
    hide PadTo;
    if cs != [] {
      assert cs[0] in cs && forall c <- cs[1..] :: c in cs;
      var p := PadTo(cs[0].Payload(), size);
      PadZero(cs[0].Payload(), size);
      StreamedZero(cs[1..], sent + |p|, bytes, size);
    }
  }

  lemma StreamedMark(cs: seq<Chunk>, bytes: nat, size: nat)
    requires size > 0 && cs != [] && cs[0].Payload() != [] && ZeroTail(cs[0].Payload()) && AllZero(cs[1..])
    ensures ZeroTail(Streamed(cs, 0, bytes, size))
  {
    hide PadTo, Streamed, AllZero;
    var p := PadTo(cs[0].Payload(), size);
    PadZero(cs[0].Payload(), size);
    StreamedFirst(cs, 0, bytes, size);
    StreamedZero(cs[1..], |p|, bytes, size);
    ZerosAppend(p, Streamed(cs[1..], |p|, bytes, size));
  }

  /** Streaming ends with the chunks that hold enough bytes. */
  lemma {:induction false} StreamedWithin(a: seq<Chunk>, b: seq<Chunk>, sent: nat, bytes: nat, size: nat)
    requires size > 0 && sent < bytes <= sent + Sum(a).bytes
    ensures Streamed(a + b, sent, bytes, size) == Streamed(a, sent, bytes, size)
    decreases |a|
  {
    hide PadTo, Streamed, Sum;
    assert a != [] by { SumNil(); }
    SumSplit(a);
    assert (a + b)[1..] == a[1..] + b && (a + b)[0] == a[0];
    var p := PadTo(a[0].Payload(), size);
    PadLonger(a[0].Payload(), size);
    StreamedFirst(a + b, sent, bytes, size);
    StreamedFirst(a, sent, bytes, size);
    if sent + |p| < bytes {
      StreamedWithin(a[1..], b, sent + |p|, bytes, size);
    }
  }

  // ------------------------------------------------------------- where the mark goes

  /** A marked sector is at t or nowhere. */
  predicate OnlyAt(flash: Flash, t: int) {
    forall q <- flash :: flash[q] != [] && flash[q][0] == 1 ==> q == t
  }

  predicate Clean(c: Command, t: int) {
    ZeroTail(c.payload) && (c.payload != [] && c.payload[0] == 1 ==> c.start == t)
  }

  lemma {:induction false} WriteOnly(flash: Flash, s: int, bytes: seq<Byte>, size: nat, t: int)
    requires size > 0 && OnlyAt(flash, t) && ZeroTail(bytes) && (bytes != [] && bytes[0] == 1 ==> s == t)
    ensures OnlyAt(Write(flash, s, bytes, size), t)
    decreases |bytes|
  {
    if |bytes| >= size {
      WriteOnly(flash[s := bytes[..size]], s + 1, bytes[size..], size, t);
    }
  }

  lemma {:induction false} ExecuteOnly(flash: Flash, cmds: seq<Command>, size: nat, t: int)
    requires size > 0 && OnlyAt(flash, t) && forall c <- cmds :: Clean(c, t)
    ensures OnlyAt(Execute(flash, cmds, size), t)
    decreases |cmds|
  {
    hide Write, OnlyAt;
    if cmds != [] {
      var c := cmds[0];
      assert c in cmds && Clean(c, t);
      var taken := if |c.payload| <= c.sectors * size then c.payload else c.payload[..c.sectors * size];
      WriteOnly(flash, c.start, taken, size, t);
      assert forall d <- cmds[1..] :: d in cmds;
      ExecuteOnly(Write(flash, c.start, taken, size), cmds[1..], size, t);
    }
  }

  lemma {:induction false} ZeroCommands(us: seq<Unit>, s: nat, o: nat, size: nat, t: int)
    requires size > 0 && AllZero(Flatten(us))
    ensures forall c <- Wrapped(Commands(us, s, o, size)) :: Clean(c, t)
    decreases |us|
  {
    hide Sum, EncodeChunks, Streamed, CeilDiv, Commands, Wrapped;
    if us == [] {
      CommandsNil(s, o, size);
      WrappedNil();
    } else {
      var u := us[0];
      assert Flatten(us) == u.Chunks() + Flatten(us[1..]);
      var n, t0 := CeilDiv(Sum(u.run).bytes, size), Sum(u.run);
      var s', o' := s + n + 8 * Sum(u.Gap()).blocks, o + |EncodeChunks(u.Chunks())|;
      CommandsCons(us, s, o, size);
      var cmds := Commands(us, s, o, size);
      WrappedCons(cmds[0], Commands(us[1..], s', o', size));
      StreamedZero(u.Chunks() + Flatten(us[1..]), 0, t0.bytes, size);
      assert forall c <- Flatten(us[1..]) :: c in Flatten(us);
      ZeroCommands(us[1..], s', o', size, t);
    }
  }

  /** The mark stands at the head of the second run: only the second command can write it. */
  lemma MarkSent(vs: seq<Unit>, s: nat, size: nat)
    requires size > 0 && |vs| >= 2 && Sum(vs[0].run).bytes > 0 && vs[1].pre == [] && vs[1].run != []
    requires AllZero(vs[0].Chunks()) && vs[1].run[0].Payload() != [] && ZeroTail(vs[1].run[0].Payload())
    requires AllZero(vs[1].run[1..] + vs[1].post + Flatten(vs[2..]))
    ensures
      var t := (s + CeilDiv(Sum(vs[0].run).bytes, size) + 8 * Sum(vs[0].Gap()).blocks) % SECTOR_MOD;
      forall c <- SentCommands(vs, s, size) :: Clean(c, t)
  {
    hide Sum, EncodeChunks, Streamed, CeilDiv, Commands, Wrapped, Flatten, AllZero, Clean;
    var u, v := vs[0], vs[1];
    var s1, o1 := s + CeilDiv(Sum(u.run).bytes, size) + 8 * Sum(u.Gap()).blocks, HEADER_SIZE + |EncodeChunks(u.Chunks())|;
    var s2, o2 := s1 + CeilDiv(Sum(v.run).bytes, size) + 8 * Sum(v.Gap()).blocks, o1 + |EncodeChunks(v.Chunks())|;
    var t := s1 % SECTOR_MOD;
    assert vs[1..][0] == v && vs[1..][1..] == vs[2..];
    CommandsCons(vs, s, HEADER_SIZE, size);
    CommandsCons(vs[1..], s1, o1, size);
    var a, b := Commands(vs, s, HEADER_SIZE, size)[0], Commands(vs[1..], s1, o1, size)[0];
    WrappedCons(a, Commands(vs[1..], s1, o1, size));
    WrappedCons(b, Commands(vs[2..], s2, o2, size));
    FirstZero(u, Flatten(vs[1..]), size);
    SecondMarked(v, Flatten(vs[2..]), size);
    CleanTwo(a, b, t);
    assert AllZero(Flatten(vs[2..])) by { ZeroRest(v.run[1..] + v.post, Flatten(vs[2..])); }
    ZeroCommands(vs[2..], s2, o2, size, t);
  }

  lemma ZeroRest(a: seq<Chunk>, b: seq<Chunk>)
    requires AllZero(a + b)
    ensures AllZero(b)
  {
    assert forall c <- b :: c in a + b;
  }

  lemma CleanTwo(a: Command, b: Command, t: nat)
    requires Zero(a.payload) && ZeroTail(b.payload) && b.start % SECTOR_MOD == t
    ensures Clean(a.(start := a.start % SECTOR_MOD), t) && Clean(b.(start := b.start % SECTOR_MOD), t)
  {}

  lemma FirstZero(u: Unit, rest: seq<Chunk>, size: nat)
    requires size > 0 && AllZero(u.Chunks()) && Sum(u.run).bytes > 0
    ensures Zero(Streamed(u.Chunks() + rest, 0, Sum(u.run).bytes, size))
  {
    hide Sum, Streamed, AllZero, Zero;
    SumAppend(u.pre + u.run, u.post);
    SumAppend(u.pre, u.run);
    StreamedWithin(u.Chunks(), rest, 0, Sum(u.run).bytes, size);
    StreamedZero(u.Chunks(), 0, Sum(u.run).bytes, size);
  }

  lemma SecondMarked(v: Unit, rest: seq<Chunk>, size: nat)
    requires size > 0 && v.pre == [] && v.run != [] && v.run[0].Payload() != [] && ZeroTail(v.run[0].Payload())
    requires AllZero(v.run[1..] + v.post + rest)
    ensures ZeroTail(Streamed(v.Chunks() + rest, 0, Sum(v.run).bytes, size))
  {
    hide Sum, Streamed, AllZero, ZeroTail;
    var cs := v.Chunks() + rest;
    assert cs[0] == v.run[0] && cs[1..] == v.run[1..] + v.post + rest;
    StreamedMark(cs, Sum(v.run).bytes, size);
  }

  // ------------------------------------------------------------- where the image has it

  lemma ChunkMark(flash: Flash, c: Chunk, s: int, k: nat, size: nat)
    requires size > 0 && k > 0 && k * size % 4 == 0 && !c.DontCare? && WellFormedChunk(c, k * size)
    requires c.Payload() != [] && c.Payload()[0] == 1
    ensures var next := ChunkWrites(flash, c, s, k * size, size);
            s in next && next[s] != [] && next[s][0] == 1
  {
    hide Write, Repeat;
    var n := c.blocks * k;
    MulAssoc(c.blocks, k, size);
    QuarterTimesFour(c.blocks, k * size);
    MulBound(c.blocks, k);
    var bytes := if c.Raw? then c.data else Repeat(c.value, c.blocks * (k * size) / 4);
    assert |bytes| == n * size;
    MulBound(n, size);
    if c.Fill? {
      RepeatFirst(c.value, c.blocks * (k * size) / 4);
    }
    FirstSector(flash, s, bytes, n, size);
  }

  lemma RepeatFirst(v: seq<Byte>, n: nat)
    requires n > 0 && v != []
    ensures Repeat(v, n) != [] && Repeat(v, n)[0] == v[0]
  {}

  lemma FirstSector(flash: Flash, s: int, bytes: seq<Byte>, n: nat, size: nat)
    requires size > 0 && n > 0 && |bytes| == n * size >= size
    ensures s in Write(flash, s, bytes, size) && Write(flash, s, bytes, size)[s] == bytes[..size]
  {
    assert Write(flash, s, bytes, size) == Write(flash[s := bytes[..size]], s + 1, bytes[size..], size);
    hide Write;
    Distribute(n, -1, size);
    WriteKeys(flash[s := bytes[..size]], s + 1, bytes[size..], n - 1, size);
  }

  lemma MarkMeant(front: seq<Chunk>, c: Chunk, rest: seq<Chunk>, s: int, k: nat, size: nat)
    requires size > 0 && k > 0 && k * size % 4 == 0 && !c.DontCare?
    requires c.Payload() != [] && c.Payload()[0] == 1
    requires forall d <- front + ([c] + rest) :: WellFormedChunk(d, k * size)
    ensures
      var flash := Unsparse(map[], front + ([c] + rest), s, k * size, size);
      var p := s + Sum(front).blocks * k;
      p in flash && flash[p] != [] && flash[p][0] == 1
  {
    hide Sum, Unsparse, ChunkWrites, WellFormedChunk;
    var all := front + ([c] + rest);
    assert all[|front|] == c && c in all && forall d <- rest :: d in all;
    var before, p := Unsparse(map[], front, s, k * size, size), s + Sum(front).blocks * k;
    UnsparseAppend(map[], front, [c] + rest, s, k, size);
    Multiple(k, size);
    UnsparseCons(before, [c] + rest, p, k * size, size);
    assert ([c] + rest)[1..] == rest;
    ChunkMark(before, c, p, k, size);
    ChunkPositive(c, k * size);
    MulBound(c.blocks, k);
    UnsparseKeeps(ChunkWrites(before, c, p, k * size, size), rest, p + c.blocks * k, k, size, p);
  }

  /** A gap of g blocks counted as eight sectors a block, in 32 bits, is never a gap of k. */
  lemma NeverThere(s: nat, g: nat, k: nat)
    requires g > 0 && 0 < k < 8
    ensures (s + 8 * g) % SECTOR_MOD != s + g * k
  {
    var q := (s + 8 * g) / SECTOR_MOD;
    assert s + 8 * g == q * SECTOR_MOD + (s + 8 * g) % SECTOR_MOD;
    if (s + 8 * g) % SECTOR_MOD == s + g * k {
      if k == 1 { Coprime7(g, q); }
      else if k == 2 { Coprime6(g, q); }
      else if k == 3 { Coprime5(g, q); }
      else if k == 4 { assert false; }
      else if k == 5 { assert false; }
      else if k == 6 { assert false; }
      else { assert false; }
    }
  }

  lemma Coprime7(g: nat, q: nat)
    requires 0 < g < SECTOR_MOD
    ensures 7 * g != q * SECTOR_MOD
  {}

  lemma Coprime6(g: nat, q: nat)
    requires 0 < 2 * g < SECTOR_MOD
    ensures 6 * g != q * SECTOR_MOD
  {}

  lemma Coprime5(g: nat, q: nat)
    requires 0 < 3 * g < SECTOR_MOD
    ensures 5 * g != q * SECTOR_MOD
  {}

  // ------------------------------------------------------------- the theorem

  /** The first two units of an image that starts with data. */
  lemma TwoUnits(cs: seq<Chunk>)
    requires cs != [] && !cs[0].DontCare? && |Split(cs)| >= 2
    ensures
      var us := Split(cs);
      && us[0].pre == [] && us[1].pre == [] && us[0].post != [] && us[1].run != [] && !us[1].run[0].DontCare?
      && cs == us[0].Chunks() + ([us[1].run[0]] + (us[1].run[1..] + us[1].post + Flatten(us[2..])))
  {
    hide Split, SplitRuns, AllGap, Flatten;
    var us := Split(cs);
    NoLead(cs);
    SecondRun(cs);
    assert us[0] in us && us[1] in us;
    SplitsAreUnits(cs, 1);
    FlattenSplit(cs);
    FlattenTwo(us);
    var v := us[1];
    assert v.run[0] in v.run;
    assert v.Chunks() + Flatten(us[2..]) == [v.run[0]] + (v.run[1..] + v.post + Flatten(us[2..])) by {
      UnitHead(v, Flatten(us[2..]));
    }
  }

  lemma FlattenTwo(us: seq<Unit>)
    requires |us| >= 2
    ensures Flatten(us) == us[0].Chunks() + (us[1].Chunks() + Flatten(us[2..]))
  {
    assert us[1..][1..] == us[2..];
    assert Flatten(us[1..]) == us[1].Chunks() + Flatten(us[2..]);
  }

  lemma UnitHead(v: Unit, rest: seq<Chunk>)
    requires v.pre == [] && v.run != []
    ensures v.Chunks() + rest == [v.run[0]] + (v.run[1..] + v.post + rest)
  {
    assert v.run == [v.run[0]] + v.run[1..];
  }

  /** Marking changes no unit but in what it holds. */
  lemma MarkCut(img: Image, j: nat, size: nat)
    requires WellFormed(img, size) && img.chunks != [] && !img.chunks[0].DontCare? && |Split(img.chunks)| >= 2
    ensures
      var us, ds := Split(img.chunks), Marked(img, j).chunks;
      && ds != [] && !ds[0].DontCare? && |Split(ds)| >= 2
      && |Split(ds)[0].Chunks()| == |us[0].Chunks()| && SameUnit(us[0], Split(ds)[0])
  {
    hide Split, WellFormedChunk;
    MarkedSame(img, j, size);
    SameSplit(img.chunks, Marked(img, j).chunks);
    assert SameUnit(Split(img.chunks)[0], Split(Marked(img, j).chunks)[0]);
  }

  lemma MarkContents(img: Image, j: nat, front: seq<Chunk>, c: Chunk, rest: seq<Chunk>)
    requires Marked(img, j).chunks == front + ([c] + rest) && |front| == j && !c.DontCare?
    requires forall d <- img.chunks :: d.Payload() != [] || d.DontCare?
    ensures AllZero(front) && AllZero(rest)
    ensures c.Payload() != [] && c.Payload()[0] == 1 && ZeroTail(c.Payload())
  {
    hide Marked, Zero, ZeroTail;
    var ds := Marked(img, j).chunks;
    forall i | 0 <= i < j ensures Zero(front[i].Payload()) {
      assert front[i] == ds[i];
      MarkedAt(img, j, i);
    }
    forall i | 0 <= i < |rest| ensures Zero(rest[i].Payload()) {
      assert rest[i] == ds[j + 1 + i];
      MarkedAt(img, j, j + 1 + i);
    }
    assert c == ds[j];
    MarkedAt(img, j, j);
  }

  lemma MarkedAt(img: Image, j: nat, i: nat)
    requires i < |img.chunks|
    ensures
      var d := Marked(img, j).chunks[i];
      && (i != j ==> Zero(d.Payload()))
      && (i == j && !d.DontCare? && (img.chunks[i].Payload() != [] || img.chunks[i].DontCare?) ==>
            d.Payload() != [] && d.Payload()[0] == 1 && ZeroTail(d.Payload()))
  {}

  lemma HasPayload(img: Image, size: nat)
    requires WellFormed(img, size)
    ensures forall d <- img.chunks :: d.Payload() != [] || d.DontCare?
  {
    forall d | d in img.chunks ensures d.Payload() != [] || d.DontCare? {
      assert WellFormedChunk(d, img.blockSize);
      Positive(d.blocks, img.blockSize);
    }
  }

  /** The second run, as the tool counts and as the image has it. */
  lemma MarkNumbers(img: Image, j: nat, size: nat)
    requires WellFormed(img, size) && Exact(img, size)
    requires img.chunks != [] && !img.chunks[0].DontCare? && |Split(img.chunks)| >= 2
    ensures
      var us, vs, k := Split(img.chunks), Split(Marked(img, j).chunks), img.blockSize / size;
      && vs != []
      && var v, n := vs[0], Sum(us[0].run).blocks * k;
      && Sum(v.run).bytes > 0 && CeilDiv(Sum(v.run).bytes, size) == n
      && Sum(v.Gap()).blocks == Sum(us[0].post).blocks > 0
      && Sum(v.Chunks()).blocks * k == n + Sum(us[0].post).blocks * k
  {
    hide Split, Flatten, Sum, CeilDiv, Streamed, Exact, Marked, SameUnit, DataRun, WellFormedChunk, AllGap, WellFormed, IsUnit;
    SizePositive(img, size);
    SomeData(img.chunks);
    MarkedSame(img, j, size);
    MarkCut(img, j, size);
    var us, k := Split(img.chunks), img.blockSize / size;
    var u, v := us[0], Split(Marked(img, j).chunks)[0];
    ImageUnits(img, size);
    ImageUnits(Marked(img, j), size);
    TwoUnits(img.chunks);
    FirstExact(img, size);
    SameGap(u, v);
    SameBytes(u, v, img.blockSize);
    UnitBlocks(u, v);
    assert [] + u.post == u.post;
    assert forall c <- u.post :: c in u.Chunks();
    GapBlocks(u.post, img.blockSize);
    Distribute(Sum(u.run).blocks, Sum(u.post).blocks, k);
    CeilPositive(Sum(v.run).bytes, size);
  }

  lemma SomeData(cs: seq<Chunk>)
    requires cs != [] && !cs[0].DontCare?
    ensures !AllGap(cs)
  {
    assert cs[0] in cs;
  }

  lemma CeilPositive(n: nat, size: nat)
    requires size > 0
    ensures CeilDiv(n, size) > 0 ==> n > 0
  {
    if n == 0 {
      ModUnique(0, size, 0, 0);
    }
  }

  lemma UnitBlocks(u: Unit, v: Unit)
    requires SameUnit(u, v) && u.pre == []
    ensures Sum(v.Chunks()).blocks == Sum(u.run).blocks + Sum(u.post).blocks
  {
    hide Sum, SameChunks;
    SameSum(u.pre, v.pre, 0);
    SameSum(u.run, v.run, 0);
    SameSum(u.post, v.post, 0);
    SumAppend(v.pre + v.run, v.post);
    SumAppend(v.pre, v.run);
    SumNil();
  }

  /** Two runs in blocks of fewer than eight sectors: with a mark at the head of the second run the
      image is not written right. */
  lemma MarkMisplaced(img: Image, start: nat, size: nat)
    requires WellFormed(img, size) && Exact(img, size) && img.blockSize < 8 * size
    requires img.chunks != [] && !img.chunks[0].DontCare? && |Split(img.chunks)| >= 2
    ensures !Preserves(Marked(img, |Split(img.chunks)[0].Chunks()|), start, size)
  {
    hide Split, Flatten, Sum, CeilDiv, Streamed, SentCommands, Execute, Unsparse, Exact, WellFormed, Marked, SameChunks,
      OnlyAt, Clean, Preserves, AllZero, ZeroTail, WellFormedChunk, SameUnit;
    var us := Split(img.chunks);
    var j, k := |us[0].Chunks()|, img.blockSize / size;
    var other := Marked(img, j);
    var vs := Split(other.chunks);
    FewSectors(img, size);
    MarkedSame(img, j, size);
    MarkCut(img, j, size);
    MarkNumbers(img, j, size);
    TwoUnits(other.chunks);
    HasPayload(img, size);
    var c, rest := vs[1].run[0], vs[1].run[1..] + vs[1].post + Flatten(vs[2..]);
    MarkContents(img, j, vs[0].Chunks(), c, rest);
    MarkSent(vs, start, size);
    var n, g := Sum(us[0].run).blocks * k, Sum(us[0].post).blocks;
    var t, p := (start + n + 8 * g) % SECTOR_MOD, start + n + g * k;
    OnlyNone(t);
    ExecuteOnly(map[], SentCommands(vs, start, size), size, t);
    FormedChunks(other, size);
    MarkMeant(vs[0].Chunks(), c, rest, start, k, size);
    NeverThere(start + n, g, k);
    NotSame(other, start, size, t, p);
  }

  lemma FewSectors(img: Image, size: nat)
    requires WellFormed(img, size) && img.blockSize < 8 * size
    ensures size > 0 && 0 < img.blockSize / size < 8
  {
    BlockMultiple(img, size);
    var k := img.blockSize / size;
    MulBound(k - 8, size);
    Distribute(k - 8, 8, size);
  }

  lemma FormedChunks(img: Image, size: nat)
    requires WellFormed(img, size)
    ensures
      var k := img.blockSize / size;
      && k * size == img.blockSize && k * size % 4 == 0
      && forall c <- img.chunks :: WellFormedChunk(c, k * size)
  {
    BlockMultiple(img, size);
  }

  lemma OnlyNone(t: int)
    ensures OnlyAt(map[], t)
  {}

  lemma NotSame(img: Image, start: nat, size: nat, t: int, p: int)
    requires size > 0 && t != p
    requires OnlyAt(Execute(map[], SentCommands(Split(img.chunks), start, size), size), t)
    requires
      var flash := Unsparse(map[], img.chunks, start, img.blockSize, size);
      p in flash && flash[p] != [] && flash[p][0] == 1
    ensures !Preserves(img, start, size)
  {
    hide Execute, SentCommands, Split, Unsparse;
    var a, b := Execute(map[], SentCommands(Split(img.chunks), start, size), size),
      Unsparse(map[], img.chunks, start, img.blockSize, size);
    assert a != b;
  }

  /** Once a start sector wraps, some image with these headers is not written right. */
  lemma WrapNotSafe(img: Image, start: nat, size: nat)
    requires WellFormed(img, size) && size >= 4 && start < SECTOR_MOD && !NoWrap(img, start, size)
    ensures !Safe(img, start, size)
  {
    hide Split, Preserves, NoWrap, SameChunks, WellFormedChunk, Announced, AllGood, Marked, AllGap;
    SameSelf(img.chunks);
    if img.blockSize >= 8 * size {
      FillAnnounced(img, size);
      EndMissing(img, start, size);
    } else if (exists c <- img.chunks :: c.Fill?) && img.blockSize != size {
      NotOneSector(img, size);
      FillNotPreserved(img, start, size);
    } else {
      WrapUnits(img, start, size);
      if img.blockSize == size && !AllGood(Split(img.chunks), size) {
        BadRunNotPreserved(img, start, size);
      } else if img.chunks[0].DontCare? {
        LeadNotPreserved(img, start, size);
      } else {
        var j := |Split(img.chunks)[0].Chunks()|;
        MarkMisplaced(img, start, size);
        MarkedSame(img, j, size);
      }
    }
  }

  lemma SameSelf(cs: seq<Chunk>)
    ensures SameChunks(cs, cs)
  {}

  lemma WrapUnits(img: Image, start: nat, size: nat)
    requires WellFormed(img, size) && start < SECTOR_MOD && !NoWrap(img, start, size)
    ensures |Split(img.chunks)| >= 2 && img.chunks != [] && !AllGap(img.chunks)
  {
    hide Split, Sum, CeilDiv;
    SplitEmpty(img.chunks);
  }

  /** All fill chunks with the value one. */
  function Ones(img: Image): (r: Image)
    ensures |r.chunks| == |img.chunks|
  {
    img.(chunks := seq(|img.chunks|, i requires 0 <= i < |img.chunks| =>
      if img.chunks[i].Fill? then Fill(img.chunks[i].blocks, [1, 1, 1, 1]) else img.chunks[i]))
  }

  lemma OnesSame(img: Image, size: nat)
    requires WellFormed(img, size)
    ensures SameHeaders(img, Ones(img)) && WellFormed(Ones(img), size)
    ensures size != 4 && !AllGap(img.chunks) && (exists c <- img.chunks :: c.Fill?) ==> !FillsFit(Ones(img), size)
  {
    hide Fills;
    var cs, ds := img.chunks, Ones(img).chunks;
    forall i | 0 <= i < |ds| ensures WellFormedChunk(ds[i], img.blockSize) && SameHeader(cs[i], ds[i]) {
      assert cs[i] in cs && WellFormedChunk(cs[i], img.blockSize);
    }
    if exists c <- cs :: c.Fill? {
      var i :| 0 <= i < |cs| && cs[i].Fill?;
      assert ds[i] in ds && ds[i].value[0] == 1 && ds[i].value != ZERO;
    }
  }

  /** Fill chunks free to hold anything, and nothing wraps: every image with the headers is right. */
  lemma FreeIsSafe(img: Image, other: Image, start: nat, size: nat)
    requires WellFormed(img, size) && size >= 4 && start < SECTOR_MOD && WellFormed(other, size) && SameHeaders(img, other)
    requires AllGap(img.chunks) || (Placed(img, size) && FillsFree(img, size) && NoWrap(img, start, size))
    ensures Preserves(other, start, size)
  {
    hide Split, Preserves, NoWrap, WellFormed, Placed;
    SameImage(img, other, start, size);
    if AllGap(other.chunks) {
      OnlyGap(other, start, size);
    } else {
      FreeFits(img, other, size);
      PreservesUnwrapped(other, start, size);
    }
  }

  lemma FreeFits(img: Image, other: Image, size: nat)
    requires SameHeaders(img, other) && FillsFree(img, size)
    ensures FillsFit(other, size)
  {
    hide Fills;
    forall c | c in other.chunks && c.Fill? ensures other.blockSize == size == 4 && c.blocks == 1 {
      var i :| 0 <= i < |other.chunks| && other.chunks[i] == c;
      assert SameHeader(img.chunks[i], c) && img.chunks[i] in img.chunks;
    }
  }

  /** For every list of headers: whatever the chunks hold, the image is written right, exactly when it
      has no data at all, or starts with data, has blocks of eight sectors or a single run, no fill
      chunk but single blocks in sectors of four bytes, and no start sector that wraps. */
  lemma SafeIff(img: Image, start: nat, size: nat)
    requires WellFormed(img, size) && size >= 4 && Fits(img) && start < SECTOR_MOD
    ensures Safe(img, start, size) <==>
      AllGap(img.chunks) || (Placed(img, size) && FillsFree(img, size) && NoWrap(img, start, size))
  {
    hide Split, Preserves, NoWrap, SameChunks, WellFormedChunk, AllGap, Placed, Fits, Fills;
    if AllGap(img.chunks) || (Placed(img, size) && FillsFree(img, size) && NoWrap(img, start, size)) {
      forall other | SameHeaders(img, other) && WellFormed(other, size) ensures Preserves(other, start, size) {
        FreeIsSafe(img, other, start, size);
      }
    } else if !NoWrap(img, start, size) {
      WrapNotSafe(img, start, size);
    } else {
      SameSelf(img.chunks);
      PreservesUnwrapped(img, start, size);
      OnesSame(img, size);
      SameImage(img, Ones(img), start, size);
      PreservesUnwrapped(Ones(img), start, size);
      assert Supported(img, size) ==> !Supported(Ones(img), size);
    }
  }
}
