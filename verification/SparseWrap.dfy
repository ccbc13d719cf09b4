/** Start sectors that outgrow their 32 bits: in blocks of eight sectors or more, the end of the
    image is then written by no command. */
module SparseWrap {
  import opened Arith
  import opened LittleEndian
  import opened SparseImage
  import opened SparseProgram
  import opened SparseMeaning
  import opened Sequences

  // ------------------------------------------------------------- units of one chunk

  lemma DataOne(c: Chunk, rest: seq<Chunk>)
    requires !c.DontCare? && (rest == [] || rest[0].DontCare?)
    ensures DataLen([c] + rest) == 1
  {
    assert ([c] + rest)[1..] == rest;
  }

  lemma GapOne(g: Chunk, rest: seq<Chunk>)
    requires g.DontCare? && (rest == [] || !rest[0].DontCare?)
    ensures GapLen([g] + rest) == 1
  {
    assert ([g] + rest)[1..] == rest;
  }

  lemma UnitOne(c: Chunk, g: Chunk, rest: seq<Chunk>)
    requires !c.DontCare? && g.DontCare? && rest != [] && !rest[0].DontCare?
    ensures SplitRuns([c] + ([g] + rest)) == [Unit([], [c], [g])] + SplitRuns(rest)
  {
    hide DataLen, GapLen;
    DataOne(c, [g] + rest);
    GapOne(g, rest);
    var cs := [c] + ([g] + rest);
    assert cs[..1] == [c] && cs[1..] == [g] + rest && cs[1..2] == [g] && cs[2..] == rest;
  }

  lemma UnitLast(c: Chunk)
    requires !c.DontCare?
    ensures SplitRuns([c]) == [Unit([], [c], [])]
  {
    assert [c] + [] == [c];
    DataOne(c, []);
    assert [c][..1] == [c] && [c][1..] == [] && GapLen([]) == 0;
    assert [c][1..1] == [];
    assert SplitRuns([]) == [];
  }

  lemma SumOne(c: Chunk)
    ensures Sum([c]) == Plus(One(c), NONE)
  {
    assert [c][1..] == [];
  }

  // ------------------------------------------------------------- what the commands reach

  /** All sectors a command may write lie below x. */
  predicate EndsBy(c: Command, x: int) { c.start + c.sectors <= x }

  lemma {:induction false} ExecuteBelow(flash: Flash, cmds: seq<Command>, x: int, size: nat)
    requires size > 0 && x !in flash && forall c <- cmds :: EndsBy(c, x)
    ensures x !in Execute(flash, cmds, size)
    decreases |cmds|
  {
    hide Write;
    if cmds != [] {
      var c := cmds[0];
      assert c in cmds && EndsBy(c, x);
      var limit := c.sectors * size;
      var taken := if |c.payload| <= limit then c.payload else c.payload[..limit];
      WritesBelow(flash, c.start, taken, c.sectors, x, size);
      assert forall d <- cmds[1..] :: d in cmds;
      ExecuteBelow(Write(flash, c.start, taken, size), cmds[1..], x, size);
    }
  }

  lemma WritesBelow(flash: Flash, s: int, bytes: seq<Byte>, m: nat, x: int, size: nat)
    requires size > 0 && |bytes| <= m * size && x !in flash && s + m <= x
    ensures x !in Write(flash, s, bytes, size)
  {
    hide Write;
    var n := |bytes| / size;
    assert n * size <= |bytes| < n * size + size;
    AtMost(n, m, size);
    WriteKeys(flash, s, bytes, n, size);
  }

  /** Behind the last run of data of an image at sector s. */
  function End(us: seq<Unit>, s: int, k: nat): int
    decreases |us|
  {
    if us == [] then s
    else if |us| == 1 then s + Sum(us[0].pre + us[0].run).blocks * k
    else End(us[1..], s + Sum(us[0].Chunks()).blocks * k, k)
  }

  /** No run announces more sectors than it has in the image. */
  predicate Announced(u: Unit, k: nat, size: nat)
    requires size > 0
  {
    CeilDiv(Sum(u.run).bytes, size) <= Sum(u.run).blocks * k && Sum(u.run).blocks > 0
  }

  /** One command of the list: it starts no later than the last, ends by the end of the image, and by
      the start of the last if it is another one. */
  predicate Between(c: Command, last: int, end: int) {
    c.start <= last && EndsBy(c, end) && (c.start < last ==> EndsBy(c, last))
  }

  lemma UnitStep(u: Unit, k: nat, size: nat)
    requires size > 0 && k >= 8 && Announced(u, k, size)
    ensures
      var n := CeilDiv(Sum(u.run).bytes, size);
      && n + 8 * Sum(u.Gap()).blocks <= Sum(u.Chunks()).blocks * k
      && n <= Sum(u.pre + u.run).blocks * k && Sum(u.pre + u.run).blocks * k > 0
  {
    hide Sum, CeilDiv;
    SumAppend(u.pre + u.run, u.post);
    SumAppend(u.pre, u.run);
    SumAppend(u.pre, u.post);
    StepBound(CeilDiv(Sum(u.run).bytes, size), Sum(u.pre).blocks, Sum(u.run).blocks, Sum(u.post).blocks, k);
  }

  lemma StepBound(n: nat, p: nat, r: nat, q: nat, k: nat)
    requires k >= 8 && r > 0 && n <= r * k
    ensures n + 8 * (p + q) <= (p + r + q) * k
    ensures n <= (p + r) * k && (p + r) * k > 0
  {
    var x, y, z := p * k, r * k, q * k;
    assert (p + r) * k == x + y by { Distribute(p, r, k); }
    assert (p + r + q) * k == x + y + z by { Distribute(p + r, q, k); }
    EightTimes(p, k);
    EightTimes(q, k);
    MulBound(r, k);
  }

  lemma EightTimes(n: nat, k: nat)
    requires k >= 8
    ensures 8 * n <= n * k
  {
    assert n * k == n * (k - 8) + n * 8;
    NotNegative(n, k - 8);
  }

  lemma {:induction false} AllBetween(us: seq<Unit>, t: nat, o: nat, s: int, k: nat, size: nat)
    requires size > 0 && k >= 8 && us != [] && t <= s && forall u <- us :: Announced(u, k, size)
    ensures forall c <- Commands(us, t, o, size) :: Between(c, LastStart(us, t, size), End(us, s, k))
    ensures LastStart(us, t, size) < End(us, s, k)
    decreases |us|
  {
    hide Sum, EncodeChunks, Streamed, CeilDiv, Commands, Flatten, Announced;
    var u := us[0];
    assert u in us && forall v <- us[1..] :: v in us;
    var n := CeilDiv(Sum(u.run).bytes, size);
    var t', o' := t + n + 8 * Sum(u.Gap()).blocks, o + |EncodeChunks(u.Chunks())|;
    CommandsCons(us, t, o, size);
    UnitStep(u, k, size);
    if |us| == 1 {
      assert us[1..] == [];
      CommandsNil(t', o', size);
    } else {
      AllBetween(us[1..], t', o', s + Sum(u.Chunks()).blocks * k, k, size);
    }
  }

  lemma WrappedBelow(c: Command, last: int, end: int)
    requires Between(c, last, end) && SECTOR_MOD <= last < end
    ensures EndsBy(c.(start := c.start % SECTOR_MOD), end - 1)
  {}

  lemma {:induction false} AllWrappedBelow(cmds: seq<Command>, last: int, end: int)
    requires (forall c <- cmds :: Between(c, last, end)) && SECTOR_MOD <= last < end
    ensures forall c <- Wrapped(cmds) :: EndsBy(c, end - 1)
    decreases |cmds|
  {
    hide Between, EndsBy;
    if cmds != [] {
      assert cmds[0] in cmds && forall c <- cmds[1..] :: c in cmds;
      WrappedBelow(cmds[0], last, end);
      AllWrappedBelow(cmds[1..], last, end);
    }
  }

  // ------------------------------------------------------------- what the image reaches

  lemma {:induction false} UnsparseAppend(flash: Flash, a: seq<Chunk>, b: seq<Chunk>, s: int, k: nat, size: nat)
    requires size > 0
    ensures Unsparse(flash, a + b, s, k * size, size)
         == Unsparse(Unsparse(flash, a, s, k * size, size), b, s + Sum(a).blocks * k, k * size, size)
    decreases |a|
  {
    hide ChunkWrites, Unsparse;
    if a == [] {
      assert a + b == b;
      UnsparseNil(flash, s, k * size, size);
    } else {
      assert (a + b)[1..] == a[1..] + b;
      Multiple(k, size);
      UnsparseCons(flash, a + b, s, k * size, size);
      UnsparseCons(flash, a, s, k * size, size);
      Distribute(a[0].blocks, Sum(a[1..]).blocks, k);
      UnsparseAppend(ChunkWrites(flash, a[0], s, k * size, size), a[1..], b, s + a[0].blocks * k, k, size);
    }
  }

  /** A chunk changes its own sectors and no other. */
  lemma ChunkKeys(flash: Flash, c: Chunk, s: int, k: nat, size: nat)
    requires size > 0 && k * size % 4 == 0 && WellFormedChunk(c, k * size)
    ensures var next := ChunkWrites(flash, c, s, k * size, size);
            && (forall x <- flash :: x in next)
            && (forall x <- next :: x in flash || s <= x < s + c.blocks * k)
            && (forall x <- flash :: !(s <= x < s + c.blocks * k) ==> next[x] == flash[x])
            && (!c.DontCare? ==> forall x :: s <= x < s + c.blocks * k ==> x in next)
  {
    hide Write, Repeat;
    if !c.DontCare? {
      var n := c.blocks * k;
      MulAssoc(c.blocks, k, size);
      QuarterTimesFour(c.blocks, k * size);
      var bytes := if c.Raw? then c.data else Repeat(c.value, c.blocks * (k * size) / 4);
      assert |bytes| == n * size;
      WriteKeys(flash, s, bytes, n, size);
    }
  }

  /** What lies before an image, and what is written already, stays. */
  lemma {:induction false} UnsparseKeeps(flash: Flash, cs: seq<Chunk>, s: int, k: nat, size: nat, x: int)
    requires size > 0 && k * size % 4 == 0 && forall c <- cs :: WellFormedChunk(c, k * size)
    requires x in flash
    ensures x in Unsparse(flash, cs, s, k * size, size)
    ensures x < s ==> Unsparse(flash, cs, s, k * size, size)[x] == flash[x]
    decreases |cs|
  {
    hide ChunkWrites, Unsparse, WellFormedChunk;
    if cs == [] {
      UnsparseNil(flash, s, k * size, size);
    } else {
      var c := cs[0];
      assert c in cs && forall d <- cs[1..] :: d in cs;
      Multiple(k, size);
      UnsparseCons(flash, cs, s, k * size, size);
      ChunkKeys(flash, c, s, k, size);
      NotNegative(c.blocks, k);
      UnsparseKeeps(ChunkWrites(flash, c, s, k * size, size), cs[1..], s + c.blocks * k, k, size, x);
    }
  }

  /** The last chunk of data, and what is before and behind it. */
  lemma {:induction false} LastData(us: seq<Unit>, s: int, k: nat)
    returns (front: seq<Chunk>, c: Chunk, rest: seq<Chunk>)
    requires us != [] && forall u <- us :: IsUnit(u)
    ensures Flatten(us) == front + ([c] + rest) && !c.DontCare? && s + (Sum(front).blocks + c.blocks) * k == End(us, s, k)
    decreases |us|
  {
    hide Sum;
    var u := us[0];
    assert u in us && forall v <- us[1..] :: v in us;
    if |us| == 1 {
      var m := |u.run| - 1;
      front, c, rest := u.pre + u.run[..m], u.run[m], u.post;
      assert c in u.run && u.run == u.run[..m] + [c];
      SeqAssoc(u.pre, u.run[..m], [c]);
      SumAppend(front, [c]);
      SumOne(c);
      assert us[1..] == [] && Flatten(us) == u.Chunks();
      SeqAssoc(front, [c], rest);
    } else {
      var more;
      more, c, rest := LastData(us[1..], s + Sum(u.Chunks()).blocks * k, k);
      front := u.Chunks() + more;
      SeqAssoc(u.Chunks(), more, [c] + rest);
      SumAppend(u.Chunks(), more);
      Distribute(Sum(u.Chunks()).blocks, Sum(more).blocks + c.blocks, k);
    }
  }

  /** The last sector of an image is written. */
  lemma EndWritten(us: seq<Unit>, s: int, k: nat, size: nat)
    requires size > 0 && k > 0 && k * size % 4 == 0 && us != [] && forall u <- us :: IsUnit(u)
    requires forall c <- Flatten(us) :: WellFormedChunk(c, k * size)
    ensures End(us, s, k) - 1 in Unsparse(map[], Flatten(us), s, k * size, size)
  {
    hide Sum, Flatten, Unsparse, ChunkWrites, IsUnit, End, WellFormedChunk;
    var front, c, rest := LastData(us, s, k);
    assert c in Flatten(us) && forall d <- rest :: d in Flatten(us);
    var before := Unsparse(map[], front, s, k * size, size);
    var at := s + Sum(front).blocks * k;
    UnsparseAppend(map[], front, [c] + rest, s, k, size);
    Multiple(k, size);
    UnsparseCons(before, [c] + rest, at, k * size, size);
    assert ([c] + rest)[1..] == rest;
    ChunkKeys(before, c, at, k, size);
    Distribute(Sum(front).blocks, c.blocks, k);
    assert c.blocks > 0 by { ChunkPositive(c, k * size); }
    MulBound(c.blocks, k);
    UnsparseKeeps(ChunkWrites(before, c, at, k * size, size), rest, at + c.blocks * k, k, size, End(us, s, k) - 1);
  }

  lemma ChunkPositive(c: Chunk, blockSize: nat)
    requires WellFormedChunk(c, blockSize)
    ensures c.blocks > 0
  {}

  // ------------------------------------------------------------- together

  /** In blocks of eight sectors or more, once a start sector wraps the end of the image is missing. */
  lemma EndMissing(img: Image, start: nat, size: nat)
    requires WellFormed(img, size) && img.blockSize >= 8 * size && !NoWrap(img, start, size) && start < SECTOR_MOD
    requires forall u <- Split(img.chunks) :: Announced(u, img.blockSize / size, size)
    ensures !Preserves(img, start, size)
  {
    hide Split, Sum, Execute, Unsparse, Commands, Flatten, Wrapped, LastStart, End, Announced, WellFormedChunk;
    var us, k := Split(img.chunks), img.blockSize / size;
    BlockMultiple(img, size);
    AtMost(8, k, size);
    ImageUnits(img, size);
    assert us != [] by { LastOfNone(start, size); }
    var end := End(us, start, k);
    AllBetween(us, start, HEADER_SIZE, start, k, size);
    AllWrappedBelow(Commands(us, start, HEADER_SIZE, size), LastStart(us, start, size), end);
    ExecuteBelow(map[], SentCommands(us, start, size), end - 1, size);
    EndWritten(us, start, k, size);
    assert Execute(map[], SentCommands(us, start, size), size) != Unsparse(map[], img.chunks, start, img.blockSize, size);
  }

  lemma LastOfNone(start: nat, size: nat)
    requires size > 0
    ensures LastStart([], start, size) == start
  {}

  /** Raw runs announce what they have. */
  lemma RawAnnounced(img: Image, size: nat)
    requires WellFormed(img, size) && forall c <- img.chunks :: !c.Fill?
    ensures forall u <- Split(img.chunks) :: Announced(u, img.blockSize / size, size)
  {
    hide Split, Flatten, Sum, CeilDiv, Streamed;
    var us, k := Split(img.chunks), img.blockSize / size;
    BlockMultiple(img, size);
    ImageUnits(img, size);
    forall i | 0 <= i < |us| ensures Announced(us[i], k, size) {
      assert forall c <- us[i].run :: c in us[i].Chunks();
      assert RawUnit(us[i], k, size);
      RawCommand(us[i], [], k, size);
    }
  }

  /** An image of raw and don't-care chunks, for sectors of every size: written right exactly when it
      is placed right and no start sector wraps. In blocks of fewer than eight sectors runs that
      wrap can come out right by chance. */
  lemma RawPreservesIff(img: Image, start: nat, size: nat)
    requires WellFormed(img, size) && Fits(img) && start < SECTOR_MOD
    requires (forall c <- img.chunks :: !c.Fill?) && !AllGap(img.chunks)
    ensures NoWrap(img, start, size) || img.blockSize >= 8 * size ==>
      (Preserves(img, start, size) <==> Placed(img, size) && NoWrap(img, start, size))
  {
    hide Preserves, NoWrap, Placed, Announced, Fits, Split;
    if NoWrap(img, start, size) {
      RawPlacedIff(img, start, size);
    } else if img.blockSize >= 8 * size {
      RawAnnounced(img, size);
      EndMissing(img, start, size);
    }
  }
}
