/** Android sparse images: the file format, and what an image means for a flash. */
module SparseImage {
  import opened Arith
  import opened LittleEndian

  /** What each sector holds. */
  type Flash = map<int, seq<Byte>>

  const HEADER_SIZE := 28
  const CHUNK_HEADER_SIZE := 12
  const RAW := 0xCAC1
  const FILL := 0xCAC2
  const DONT_CARE := 0xCAC3

  datatype Chunk =
    | Raw(blocks: nat, data: seq<Byte>)
    | Fill(blocks: nat, value: seq<Byte>)
    | DontCare(blocks: nat)
  {
    function Payload(): seq<Byte> {
      match this
      case Raw(_, data) => data
      case Fill(_, value) => value
      case DontCare(_) => []
    }

    function Type(): (t: nat)
      ensures t != 0 && t < 0x1_0000
    {
      match this
      case Raw(_, _) => RAW
      case Fill(_, _) => FILL
      case DontCare(_) => DONT_CARE
    }
  }

  datatype Image = Image(blockSize: nat, totalBlocks: nat, chunks: seq<Chunk>, checksum: nat)

  // ------------------------------------------------------------- the file

  function EncodeChunk(c: Chunk): (s: seq<Byte>)
    ensures |s| == CHUNK_HEADER_SIZE + |c.Payload()|
  {
    Put16(c.Type()) + Put16(0) + Put32(c.blocks) + Put32(CHUNK_HEADER_SIZE + |c.Payload()|) + c.Payload()
  }

  function EncodeChunks(cs: seq<Chunk>): seq<Byte> {
    if cs == [] then [] else EncodeChunk(cs[0]) + EncodeChunks(cs[1..])
  }

  function EncodeHeader(img: Image): (s: seq<Byte>)
    ensures |s| == HEADER_SIZE
  {
    Put32(0xED26FF3A) + Put16(1) + Put16(0) + Put16(HEADER_SIZE) + Put16(CHUNK_HEADER_SIZE)
    + Put32(img.blockSize) + Put32(img.totalBlocks) + Put32(|img.chunks|) + Put32(img.checksum)
  }

  function Encode(img: Image): seq<Byte> {
    EncodeHeader(img) + EncodeChunks(img.chunks)
  }

  lemma {:induction false} EncodeAppend(a: seq<Chunk>, b: seq<Chunk>)
    ensures EncodeChunks(a + b) == EncodeChunks(a) + EncodeChunks(b)
    decreases |a|
  {
    if a == [] {
      assert a + b == b;
    } else {
      assert (a + b)[1..] == a[1..] + b;
      EncodeAppend(a[1..], b);
    }
  }

  /** A chunk in the file: its type, the number of blocks and its length, low-order bytes first, and
      what it carries. */
  lemma ChunkBytes(c: Chunk)
    ensures
      var s, n := EncodeChunk(c), 12 + |c.Payload()|;
      && s[0] == (if c.Raw? then 0xC1 else if c.Fill? then 0xC2 else 0xC3) && s[1..4] == [0xCA, 0, 0]
      && s[4..8] == [c.blocks % 256, c.blocks / 0x100 % 256, c.blocks / 0x1_0000 % 256, c.blocks / 0x100_0000 % 256]
      && s[8..12] == [n % 256, n / 0x100 % 256, n / 0x1_0000 % 256, n / 0x100_0000 % 256]
      && s[12..] == if c.Raw? then c.data else if c.Fill? then c.value else []
  {
    hide Put16, Put32;
    LowByteFirst(c.Type());
    LowByteFirst(0);
    LowByteFirst(c.blocks);
    LowByteFirst(12 + |c.Payload()|);
  }

  /** The head of the file: magic, version 1.0, the sizes of both kinds of header, then the block size,
      the number of blocks in all and the number of chunks. */
  lemma HeaderBytes(img: Image)
    ensures
      var s, b, t, n := EncodeHeader(img), img.blockSize, img.totalBlocks, |img.chunks|;
      && s[..12] == [0x3A, 0xFF, 0x26, 0xED, 1, 0, 0, 0, 28, 0, 12, 0]
      && s[12..16] == [b % 256, b / 0x100 % 256, b / 0x1_0000 % 256, b / 0x100_0000 % 256]
      && s[16..20] == [t % 256, t / 0x100 % 256, t / 0x1_0000 % 256, t / 0x100_0000 % 256]
      && s[20..24] == [n % 256, n / 0x100 % 256, n / 0x1_0000 % 256, n / 0x100_0000 % 256]
  {
    hide Put16, Put32;
    FixedBytes();
    LowByteFirst(img.blockSize);
    LowByteFirst(img.totalBlocks);
    LowByteFirst(|img.chunks|);
    FourWords(Put32(0xED26FF3A) + Put16(1) + Put16(0) + Put16(HEADER_SIZE) + Put16(CHUNK_HEADER_SIZE),
              Put32(img.blockSize), Put32(img.totalBlocks), Put32(|img.chunks|), Put32(img.checksum));
  }

  lemma FourWords(f: seq<Byte>, b: seq<Byte>, t: seq<Byte>, n: seq<Byte>, c: seq<Byte>)
    requires |f| == 12 && |b| == |t| == |n| == |c| == 4
    ensures
      var s := f + b + t + n + c;
      s[..12] == f && s[12..16] == b && s[16..20] == t && s[20..24] == n
  {}

  lemma FixedBytes()
    ensures Put32(0xED26FF3A) + Put16(1) + Put16(0) + Put16(HEADER_SIZE) + Put16(CHUNK_HEADER_SIZE)
         == [0x3A, 0xFF, 0x26, 0xED, 1, 0, 0, 0, 28, 0, 12, 0]
  {
    assert Put32(0xED26FF3A) == [0x3A, 0xFF, 0x26, 0xED];
    assert Put16(1) == [1, 0] && Put16(0) == [0, 0];
    assert Put16(HEADER_SIZE) == [28, 0] && Put16(CHUNK_HEADER_SIZE) == [12, 0];
    hide Put16, Put32;
  }

  // ------------------------------------------------------------- what an image means

  /** Writing bytes from a sector on, one sector at a time; a last partial sector is not
      written. */
  function Write(flash: Flash, sector: int, bytes: seq<Byte>, size: nat): Flash
    requires size > 0
    decreases |bytes|
  {
    if |bytes| < size then flash
    else Write(flash[sector := bytes[..size]], sector + 1, bytes[size..], size)
  }

  function Repeat(value: seq<Byte>, n: nat): (s: seq<Byte>)
    ensures |s| == n * |value|
  {
    if n == 0 then [] else value + Repeat(value, n - 1)
  }

  /** Writing the unsparsed image: raw and fill chunks are written, don't-care blocks are
      passed over. */
  function Unsparse(flash: Flash, cs: seq<Chunk>, sector: int, blockSize: nat, size: nat): Flash
    requires size > 0
    decreases |cs|
  {
    if cs == [] then flash
    else
      var here := match cs[0]
        case Raw(_, data) => Write(flash, sector, data, size)
        case Fill(blocks, value) => Write(flash, sector, Repeat(value, blocks * blockSize / 4), size)
        case DontCare(_) => flash;
      Unsparse(here, cs[1..], sector + cs[0].blocks * (blockSize / size), blockSize, size)
  }

  /** What the format demands of an image, for a flash with sectors of the given size. */
  predicate WellFormed(img: Image, size: nat) {
    && size > 0 && img.blockSize > 0 && img.blockSize % size == 0 && img.blockSize % 4 == 0
    && forall c <- img.chunks :: WellFormedChunk(c, img.blockSize)
  }

  predicate WellFormedChunk(c: Chunk, blockSize: nat) {
    && c.blocks > 0
    && (c.Raw? ==> |c.data| == c.blocks * blockSize)
    && (c.Fill? ==> |c.value| == 4)
  }

  // ------------------------------------------------------------- writing

  lemma {:induction false} WriteAppend(flash: Flash, sector: int, a: seq<Byte>, b: seq<Byte>, n: nat, size: nat)
    requires size > 0 && |a| == n * size
    ensures Write(flash, sector, a + b, size) == Write(Write(flash, sector, a, size), sector + n, b, size)
    decreases n
  {
    if n == 0 {
      assert a + b == b;
    } else {
      assert |a| == (n - 1) * size + size;
      assert (n - 1) * size >= 0;
      assert (a + b)[..size] == a[..size] && (a + b)[size..] == a[size..] + b;
      WriteAppend(flash[sector := a[..size]], sector + 1, a[size..], b, n - 1, size);
    }
  }

  /** Writing n sectors changes those and no other. */
  lemma {:induction false} WriteKeys(flash: Flash, sector: int, bytes: seq<Byte>, n: nat, size: nat)
    requires size > 0 && n * size <= |bytes| < n * size + size
    ensures forall k :: k in Write(flash, sector, bytes, size) <==> k in flash || sector <= k < sector + n
    ensures forall k :: k in flash && !(sector <= k < sector + n) ==> Write(flash, sector, bytes, size)[k] == flash[k]
    decreases n
  {
    if n == 0 {
    } else {
      assert n * size == (n - 1) * size + size;
      assert (n - 1) * size >= 0;
      WriteKeys(flash[sector := bytes[..size]], sector + 1, bytes[size..], n - 1, size);
    }
  }

  /** Writing n sectors adds at most n sectors; exactly n when all are new. */
  lemma {:induction false} WriteCount(flash: Flash, sector: int, bytes: seq<Byte>, n: nat, size: nat)
    requires size > 0 && n * size <= |bytes| < n * size + size
    ensures |Write(flash, sector, bytes, size)| <= |flash| + n
    ensures Below(flash, sector) ==> |Write(flash, sector, bytes, size)| == |flash| + n
    decreases n
  {
    hide Below;
    if n > 0 {
      Distribute(n - 1, 1, size);
      NotNegative(n - 1, size);
      OneMore(flash, sector, bytes[..size]);
      WriteCount(flash[sector := bytes[..size]], sector + 1, bytes[size..], n - 1, size);
    }
  }

  /** Nothing written from this sector on. */
  predicate Below(flash: Flash, sector: int) {
    forall k <- flash :: k < sector
  }

  lemma OneMore(flash: Flash, sector: int, bytes: seq<Byte>)
    ensures |flash[sector := bytes]| <= |flash| + 1
    ensures Below(flash, sector) ==> |flash[sector := bytes]| == |flash| + 1 && Below(flash[sector := bytes], sector + 1)
  {
    var next := flash[sector := bytes];
    assert next.Keys == flash.Keys + {sector};
    assert |next.Keys| == |next| && |flash.Keys| == |flash|;
  }
}
