/** What each sector holds once an image is written, said from its chunk alone. */
module SparseSectors {
  import opened Arith
  import opened LittleEndian
  import opened SparseImage
  import opened SparseProgram
  import opened SparseMeaning
  import opened SparseWrap

  lemma {:induction false} SectorWritten(flash: Flash, s: int, bytes: seq<Byte>, n: nat, size: nat, j: nat)
    requires size > 0 && |bytes| == n * size && j < n
    ensures 0 <= j * size <= j * size + size <= |bytes|
    ensures
      var next := Write(flash, s, bytes, size);
      s + j in next && next[s + j] == bytes[j * size..j * size + size]
    decreases n
  {
    Distribute(n - 1, 1, size);
    NotNegative(n - 1, size);
    var next := flash[s := bytes[..size]];
    assert Write(flash, s, bytes, size) == Write(next, s + 1, bytes[size..], size);
    hide Write;
    if j == 0 {
      WriteKeys(next, s + 1, bytes[size..], n - 1, size);
    } else {
      SectorWritten(next, s + 1, bytes[size..], n - 1, size, j - 1);
      Distribute(j - 1, 1, size);
      assert bytes[size..][(j - 1) * size..(j - 1) * size + size] == bytes[j * size..j * size + size];
    }
  }

  lemma {:induction false} Repeated(v: seq<Byte>, n: nat, i: nat)
    requires |v| == 4 && i < 4 * n
    ensures Repeat(v, n)[i] == v[i % 4]
    decreases n
  {
    if i >= 4 {
      Repeated(v, n - 1, i - 4);
    }
  }

  /** Bytes from the given place on of four bytes over and over. */
  predicate Filled(bytes: seq<Byte>, v: seq<Byte>, from: nat) {
    |v| == 4 && forall i :: 0 <= i < |bytes| ==> bytes[i] == v[(from + i) % 4]
  }

  lemma RepeatedSlice(v: seq<Byte>, n: nat, from: nat, size: nat)
    requires |v| == 4 && from + size <= 4 * n
    ensures |Repeat(v, n)| == 4 * n && Filled(Repeat(v, n)[from..from + size], v, from)
  {
    hide Repeat;
    var bytes := Repeat(v, n)[from..from + size];
    forall i | 0 <= i < |bytes| ensures bytes[i] == v[(from + i) % 4] {
      Repeated(v, n, from + i);
    }
  }

  /** One chunk: its bytes in order, or its four bytes over and over. */
  lemma ChunkSector(flash: Flash, c: Chunk, s: int, k: nat, size: nat, j: nat)
    requires size > 0 && k * size % 4 == 0 && WellFormedChunk(c, k * size) && j < c.blocks * k
    ensures
      var next := ChunkWrites(flash, c, s, k * size, size);
      && (c.Raw? ==> 0 <= j * size <= j * size + size <= |c.data|)
      && (c.Raw? ==> s + j in next && next[s + j] == c.data[j * size..j * size + size])
      && (c.Fill? ==> 0 <= j * size && s + j in next && |next[s + j]| == size && Filled(next[s + j], c.value, j * size))
      && (c.DontCare? ==> next == flash)
  {
    hide Write, Repeat, Filled;
    var n := c.blocks * k;
    MulAssoc(c.blocks, k, size);
    if c.Raw? {
      SectorWritten(flash, s, c.data, n, size, j);
    } else if c.Fill? {
      QuarterTimesFour(c.blocks, k * size);
      var q := c.blocks * (k * size) / 4;
      SectorWritten(flash, s, Repeat(c.value, q), n, size, j);
      RepeatedSlice(c.value, q, j * size, size);
    }
  }

  /** Two flashes hold the same in a sector. */
  predicate Same(f: Flash, g: Flash, x: int) {
    (x in f <==> x in g) && (x in f ==> f[x] == g[x])
  }

  /** An image changes no sector before its first or behind its last. */
  lemma {:induction false} Outside(flash: Flash, cs: seq<Chunk>, s: int, k: nat, size: nat, x: int)
    requires size > 0 && k * size % 4 == 0 && forall c <- cs :: WellFormedChunk(c, k * size)
    requires x < s || x >= s + Sum(cs).blocks * k
    ensures Same(Unsparse(flash, cs, s, k * size, size), flash, x)
    decreases |cs|
  {
    hide ChunkWrites, Unsparse, WellFormedChunk;
    if cs == [] {
      UnsparseNil(flash, s, k * size, size);
    } else {
      var c := cs[0];
      assert c in cs && forall d <- cs[1..] :: d in cs;
      Multiple(k, size);
      UnsparseCons(flash, cs, s, k * size, size);
      ChunkKeys(flash, c, s, k, size);
      NotNegative(c.blocks, k);
      Distribute(c.blocks, Sum(cs[1..]).blocks, k);
      NotNegative(Sum(cs[1..]).blocks, k);
      Outside(ChunkWrites(flash, c, s, k * size, size), cs[1..], s + c.blocks * k, k, size, x);
    }
  }

  /** Whatever the flash held: a raw chunk lies in its sectors in order, a fill chunk as its four bytes
      over and over, and the sectors of a don't-care chunk keep what they held. */
  lemma SectorHolds(flash: Flash, front: seq<Chunk>, c: Chunk, rest: seq<Chunk>, s: int, k: nat, size: nat, j: nat)
    requires size > 0 && k * size % 4 == 0 && j < c.blocks * k
    requires forall d <- front + ([c] + rest) :: WellFormedChunk(d, k * size)
    ensures
      var after, p := Unsparse(flash, front + ([c] + rest), s, k * size, size), s + Sum(front).blocks * k + j;
      && (c.Raw? ==> 0 <= j * size <= j * size + size <= |c.data|)
      && (c.Raw? ==> p in after && after[p] == c.data[j * size..j * size + size])
      && (c.Fill? ==> 0 <= j * size && p in after && |after[p]| == size && Filled(after[p], c.value, j * size))
      && (c.DontCare? ==> Same(after, flash, p))
  {
    hide Sum, Unsparse, ChunkWrites, Filled, WellFormedChunk;
    var all := front + ([c] + rest);
    assert all[|front|] == c && c in all && forall d <- rest :: d in all;
    assert forall d <- front :: d in all;
    var before, q := Unsparse(flash, front, s, k * size, size), s + Sum(front).blocks * k;
    UnsparseAppend(flash, front, [c] + rest, s, k, size);
    Multiple(k, size);
    UnsparseCons(before, [c] + rest, q, k * size, size);
    assert ([c] + rest)[1..] == rest;
    Outside(flash, front, s, k, size, q + j);
    ChunkSector(before, c, q, k, size, j);
    Outside(ChunkWrites(before, c, q, k * size, size), rest, q + c.blocks * k, k, size, q + j);
  }
}
