/** Programming a sparse image: the flashing tool scans the chunk headers, merges runs of
    chunks, and turns every run of data into one program command whose payload it reads
    back from the file. */
module SparseProgram {
  import opened Arith
  import opened LittleEndian
  import opened SparseImage
  import opened Sequences

  // ------------------------------------------------------------- scanning the chunks

  /** chunk_polymerization_param: what the scan knows of a run of chunks. */
  datatype Totals = Totals(blocks: nat, bytes: nat, count: nat)

  const NONE := Totals(0, 0, 0)

  function One(c: Chunk): Totals {
    Totals(c.blocks, |c.Payload()|, 1)
  }

  function Plus(t: Totals, u: Totals): Totals {
    Totals(t.blocks + u.blocks, t.bytes + u.bytes, t.count + u.count)
  }

  /** The state of the scan: the closed runs of data and of don't-care chunks, the run that
      is open, and the type of the chunk before (0 at the start). */
  datatype Acc = Acc(data: seq<Totals>, gaps: seq<Totals>, cur: Totals, last: nat)

  const INIT := Acc([], [], NONE, 0)

  /** One turn of the scanning loop; final says that this is the last chunk. */
  function Step(a: Acc, c: Chunk, final: bool): Acc {
    if !c.DontCare? then
      var gaps := if a.last == DONT_CARE then a.gaps + [a.cur] else a.gaps;
      var cur := if a.last == DONT_CARE || a.last == 0 then One(c) else Plus(a.cur, One(c));
      Acc(if final then a.data + [cur] else a.data, gaps, cur, c.Type())
    else if a.last != DONT_CARE && a.last != 0 then
      Acc(a.data + [a.cur], a.gaps, One(c), DONT_CARE)
    else
      Acc(a.data, a.gaps, Plus(a.cur, One(c)), DONT_CARE)
  }

  function Scan(a: Acc, cs: seq<Chunk>): Acc
    decreases |cs|
  {
    if cs == [] then a else Scan(Step(a, cs[0], |cs| == 1), cs[1..])
  }

  // ------------------------------------------------------------- runs

  predicate AllData(cs: seq<Chunk>) { forall c <- cs :: !c.DontCare? }
  predicate AllGap(cs: seq<Chunk>) { forall c <- cs :: c.DontCare? }

  function DataLen(cs: seq<Chunk>): (n: nat)
    ensures n <= |cs| && AllData(cs[..n]) && (n < |cs| ==> cs[n].DontCare?)
  {
    if cs == [] || cs[0].DontCare? then 0
    else
      var n := DataLen(cs[1..]);
      assert cs[..n + 1] == [cs[0]] + cs[1..][..n];
      n + 1
  }

  function GapLen(cs: seq<Chunk>): (n: nat)
    ensures n <= |cs| && AllGap(cs[..n]) && (n < |cs| ==> !cs[n].DontCare?)
  {
    if cs == [] || !cs[0].DontCare? then 0
    else
      var n := GapLen(cs[1..]);
      assert cs[..n + 1] == [cs[0]] + cs[1..][..n];
      n + 1
  }

  /** A run of data with the don't-care chunks that the tool reckons to it: the ones behind
      it, or, in an image that starts with don't-care chunks, the ones before it. */
  datatype Unit = Unit(pre: seq<Chunk>, run: seq<Chunk>, post: seq<Chunk>) {
    function Chunks(): seq<Chunk> { pre + run + post }
    function Gap(): seq<Chunk> { pre + post }
  }

  function SplitRuns(cs: seq<Chunk>): (us: seq<Unit>)
    requires cs == [] || !cs[0].DontCare?
    decreases |cs|
  {
    if cs == [] then []
    else
      var n := DataLen(cs);
      var g := GapLen(cs[n..]);
      [Unit([], cs[..n], cs[n..n + g])] + SplitRuns(cs[n + g..])
  }

  /** Moves the don't-care chunks behind each run to the run that follows. */
  function Shift(lead: seq<Chunk>, us: seq<Unit>): (vs: seq<Unit>)
    requires us != []
    ensures |vs| == |us|
    decreases |us|
  {
    if |us| == 1 then [Unit(lead, us[0].run, us[0].post)]
    else [Unit(lead, us[0].run, [])] + Shift(us[0].post, us[1..])
  }

  function Split(cs: seq<Chunk>): (us: seq<Unit>) {
    var g := GapLen(cs);
    var us := SplitRuns(cs[g..]);
    if g == 0 || us == [] then us else Shift(cs[..g], us)
  }

  // ------------------------------------------------------------- the commands

  /** A program command with what is streamed for it. */
  datatype Command = Command(start: nat, sectors: nat, offset: nat, bytes: nat, payload: seq<Byte>)

  function Sum(cs: seq<Chunk>): Totals {
    if cs == [] then NONE else Plus(One(cs[0]), Sum(cs[1..]))
  }

  function PadTo(s: seq<Byte>, size: nat): (r: seq<Byte>)
    requires size > 0
  {
    if |s| % size == 0 then s else s + seq(size - |s| % size, _ => 0)
  }

  /** What fh_send_rawmode_image streams, standing at these chunks: whole chunks, each
      padded to sectors, until as many bytes as announced have gone out. */
  function Streamed(cs: seq<Chunk>, sent: nat, bytes: nat, size: nat): seq<Byte>
    requires size > 0
    decreases |cs|
  {
    if cs == [] then []
    else
      var p := PadTo(cs[0].Payload(), size);
      if sent + |p| >= bytes then p else p + Streamed(cs[1..], sent + |p|, bytes, size)
  }

  function Flatten(us: seq<Unit>): seq<Chunk> {
    if us == [] then [] else us[0].Chunks() + Flatten(us[1..])
  }

  /** The commands for the given units, the first of which stands at an offset of the file; the start
      sectors are not reduced to 32 bits. */
  function Commands(us: seq<Unit>, start: nat, offset: nat, size: nat): (cmds: seq<Command>)
    requires size > 0
    ensures |cmds| == |us|
    decreases |us|
  {
    if us == [] then []
    else
      var c := FirstCommand(us, start, offset, size);
      [c] + Commands(us[1..], start + c.sectors + 8 * Sum(us[0].Gap()).blocks, offset + |EncodeChunks(us[0].Chunks())|, size)
  }

  function FirstCommand(us: seq<Unit>, start: nat, offset: nat, size: nat): Command
    requires us != [] && size > 0
  {
    var t := Sum(us[0].run);
    Command(start, CeilDiv(t.bytes, size), offset, t.bytes, Streamed(Flatten(us), 0, t.bytes, size))
  }

  const SECTOR_MOD := 0x1_0000_0000  // start_sector is a uint32_t

  lemma WrapAdd(a: nat, b: nat)
    ensures (a % SECTOR_MOD + b) % SECTOR_MOD == (a + b) % SECTOR_MOD
  {}

  /** The start sector is kept in 32 bits. */
  function Wrapped(cmds: seq<Command>): (r: seq<Command>)
    ensures |r| == |cmds|
  {
    if cmds == [] then [] else [cmds[0].(start := cmds[0].start % SECTOR_MOD)] + Wrapped(cmds[1..])
  }

  /** The commands as they are sent. */
  function SentCommands(us: seq<Unit>, start: nat, size: nat): (cmds: seq<Command>)
    requires size > 0
    ensures |cmds| == |us|
  {
    Wrapped(Commands(us, start, HEADER_SIZE, size))
  }

  lemma {:induction false} WrappedAt(cmds: seq<Command>, i: nat)
    requires i < |cmds|
    ensures Wrapped(cmds)[i] == cmds[i].(start := cmds[i].start % SECTOR_MOD)
    decreases i
  {
    if i > 0 {
      WrappedAt(cmds[1..], i - 1);
    }
  }

  lemma WrappedCons(c: Command, cmds: seq<Command>)
    ensures Wrapped([c] + cmds) == [c.(start := c.start % SECTOR_MOD)] + Wrapped(cmds)
  {
    assert ([c] + cmds)[1..] == cmds;
  }

  /** The device writes the announced number of sectors of what is streamed. */
  function Execute(flash: Flash, cmds: seq<Command>, size: nat): Flash
    requires size > 0
    decreases |cmds|
  {
    if cmds == [] then flash
    else
      var c := cmds[0];
      var taken := if |c.payload| <= c.sectors * size then c.payload else c.payload[..c.sectors * size];
      Execute(Write(flash, c.start, taken, size), cmds[1..], size)
  }

  // ------------------------------------------------------------- the scan finds the units

  function RunTotals(us: seq<Unit>): (ts: seq<Totals>)
    ensures |ts| == |us|
  {
    seq(|us|, i requires 0 <= i < |us| => Sum(us[i].run))
  }

  function PostTotals(us: seq<Unit>): (ts: seq<Totals>)
  {
    if us == [] then [] else seq(|us| - 1, i requires 0 <= i < |us| - 1 => Sum(us[i].post))
  }

  lemma {:induction false} SumAppend(a: seq<Chunk>, b: seq<Chunk>)
    ensures Sum(a + b) == Plus(Sum(a), Sum(b))
    decreases |a|
  {
    hide One, Plus;
    if a == [] {
      assert a + b == b;
      PlusNone(Sum(b));
    } else {
      assert (a + b)[1..] == a[1..] + b && (a + b)[0] == a[0];
      SumAppend(a[1..], b);
      PlusAssoc(One(a[0]), Sum(a[1..]), Sum(b));
    }
  }

  lemma PlusNone(t: Totals)
    ensures Plus(NONE, t) == t
  {}

  lemma PlusAssoc(t: Totals, u: Totals, v: Totals)
    ensures Plus(t, Plus(u, v)) == Plus(Plus(t, u), v)
  {}

  /** Inside a run of data: the run is added up, and closed by the next don't-care chunk
      or by the end of the image. */
  lemma {:induction false} ScanRun(a: Acc, run: seq<Chunk>, rest: seq<Chunk>)
    requires a.last != 0 && a.last != DONT_CARE && AllData(run)
    requires if rest == [] then run != [] else rest[0].DontCare?
    ensures rest == [] ==> Scan(a, run + rest).data == a.data + [Plus(a.cur, Sum(run))] && Scan(a, run + rest).gaps == a.gaps
    ensures rest != [] ==>
              Scan(a, run + rest) == Scan(Acc(a.data + [Plus(a.cur, Sum(run))], a.gaps, One(rest[0]), DONT_CARE), rest[1..])
    decreases |run|
  {
    hide Plus, One;
    var cs := run + rest;
    if run == [] {
      assert cs == rest;
      SumNil();
      PlusRight(a.cur);
    } else {
      assert cs[1..] == run[1..] + rest && cs[0] in run;
      var b := Step(a, cs[0], |cs| == 1);
      PlusAssoc(a.cur, One(cs[0]), Sum(run[1..]));
      if |cs| == 1 {
        assert cs[1..] == [] && run[1..] == [];
        PlusRight(One(cs[0]));
      } else {
        ScanRun(b, run[1..], rest);
      }
    }
  }

  lemma {:induction false} ScanGap(a: Acc, gap: seq<Chunk>, rest: seq<Chunk>)
    requires AllGap(gap) && gap != [] && (a.last == 0 || a.last == DONT_CARE)
    ensures Scan(a, gap + rest) == Scan(Acc(a.data, a.gaps, Plus(a.cur, Sum(gap)), DONT_CARE), rest)
    decreases |gap|
  {
    hide Plus, One;
    var cs := gap + rest;
    assert cs[1..] == gap[1..] + rest && cs[0] in gap;
    var b := Step(a, cs[0], |cs| == 1);
    PlusAssoc(a.cur, One(cs[0]), Sum(gap[1..]));
    if |gap| == 1 {
      assert gap[1..] == [] && cs[1..] == rest;
      PlusRight(One(cs[0]));
    } else {
      ScanGap(b, gap[1..], rest);
    }
  }

  /** The gaps after the scan has met data: a gap before it is closed by it. */
  function Closed(a: Acc): seq<Totals> {
    if a.last == DONT_CARE then a.gaps + [a.cur] else a.gaps
  }

  /** One unit: a run of data and the gap behind it. */
  lemma ScanUnit(a: Acc, run: seq<Chunk>, gap: seq<Chunk>, rest: seq<Chunk>)
    requires (a.last == 0 || a.last == DONT_CARE) && run != [] && AllData(run) && gap != [] && AllGap(gap)
    ensures Scan(a, run + (gap + rest)) == Scan(Acc(a.data + [Sum(run)], Closed(a), Sum(gap), DONT_CARE), rest)
  {
    hide One, Plus;
    var cs := run + (gap + rest);
    var b := Step(a, cs[0], |cs| == 1);
    assert cs[1..] == run[1..] + (gap + rest);
    ScanRun(b, run[1..], gap + rest);
    assert Plus(b.cur, Sum(run[1..])) == Sum(run);
    var d := Acc(a.data + [Sum(run)], Closed(a), One(gap[0]), DONT_CARE);
    assert (gap + rest)[1..] == gap[1..] + rest;
    if gap[1..] == [] {
      assert gap[1..] + rest == rest;
      PlusRight(One(gap[0]));
    } else {
      ScanGap(d, gap[1..], rest);
    }
  }

  lemma PlusRight(t: Totals)
    ensures Plus(t, NONE) == t
  {}

  /** A last run of data with nothing behind it. */
  lemma ScanLastRun(a: Acc, run: seq<Chunk>)
    requires (a.last == 0 || a.last == DONT_CARE) && run != [] && AllData(run)
    ensures Scan(a, run).data == a.data + [Sum(run)] && Scan(a, run).gaps == Closed(a)
  {
    hide One, Plus;
    var b := Step(a, run[0], |run| == 1);
    if |run| == 1 {
      assert run[1..] == [];
      PlusRight(One(run[0]));
    } else {
      ScanRun(b, run[1..], []);
      assert run[1..] + [] == run[1..];
    }
  }

  /** What the scan leaves: the totals of every run, and of every gap between two runs. */
  lemma {:induction false} ScanUnits(a: Acc, cs: seq<Chunk>)
    requires (a.last == 0 || a.last == DONT_CARE) && cs != [] && !cs[0].DontCare?
    ensures Scan(a, cs).data == a.data + RunTotals(SplitRuns(cs))
    ensures Scan(a, cs).gaps == Closed(a) + PostTotals(SplitRuns(cs))
    decreases |cs|
  {
    hide Scan, Sum, SplitRuns, RunTotals, PostTotals, Closed, AllData, AllGap;
    var u, rest := FirstUnit(cs);
    var us, vs := SplitRuns(cs), SplitRuns(rest);
    if u.post == [] {
      assert u.run + (u.post + rest) == u.run;
      ScanLastRun(a, u.run);
      TotalsOne(u);
    } else {
      ScanUnit(a, u.run, u.post, rest);
      var d := Acc(a.data + [Sum(u.run)], Closed(a), Sum(u.post), DONT_CARE);
      if rest == [] {
        ScanNil(d);
        TotalsOne(u);
      } else {
        ScanUnits(d, rest);
        assert us[1..] == vs;
        TotalsCons(us, vs);
        ClosedGap(d);
        SeqAssoc(a.data, [Sum(u.run)], RunTotals(vs));
        SeqAssoc(Closed(a), [Sum(u.post)], PostTotals(vs));
      }
    }
  }

  lemma ClosedGap(a: Acc)
    requires a.last == DONT_CARE
    ensures Closed(a) == a.gaps + [a.cur]
  {}

  /** The first unit of a list that starts with data, and what is behind it. */
  lemma FirstUnit(cs: seq<Chunk>) returns (u: Unit, rest: seq<Chunk>)
    requires cs != [] && !cs[0].DontCare?
    ensures cs == u.run + (u.post + rest) && u.pre == [] && |rest| < |cs|
    ensures u.run != [] && AllData(u.run) && AllGap(u.post)
    ensures rest != [] ==> u.post != [] && !rest[0].DontCare?
    ensures SplitRuns(cs) == [u] + SplitRuns(rest) && (if rest == [] then SplitRuns(cs) == [u] else SplitRuns(rest) != [])
  {
    hide FirstOf, AfterFirst, AllData, AllGap, SplitRuns;
    u, rest := FirstOf(cs), AfterFirst(cs);
    FirstParts(cs);
    FirstShape(cs);
    SplitOne(cs);
    if rest != [] {
      SplitOne(rest);
    } else {
      SplitNil();
      assert [u] + [] == [u];
    }
  }

  function FirstOf(cs: seq<Chunk>): Unit {
    var n := DataLen(cs);
    Unit([], cs[..n], cs[n..n + GapLen(cs[n..])])
  }

  function AfterFirst(cs: seq<Chunk>): (rest: seq<Chunk>)
    ensures |rest| <= |cs|
  {
    var n := DataLen(cs);
    cs[n + GapLen(cs[n..])..]
  }

  lemma FirstParts(cs: seq<Chunk>)
    ensures cs == FirstOf(cs).run + (FirstOf(cs).post + AfterFirst(cs)) && FirstOf(cs).pre == []
  {
    hide DataLen, GapLen;
    var n := DataLen(cs);
    assert cs[n..] == FirstOf(cs).post + AfterFirst(cs);
  }

  lemma FirstShape(cs: seq<Chunk>)
    requires cs != [] && !cs[0].DontCare?
    ensures var u, rest := FirstOf(cs), AfterFirst(cs);
            && u.run != [] && AllData(u.run) && AllGap(u.post) && |rest| < |cs|
            && (rest != [] ==> u.post != [] && !rest[0].DontCare?)
  {
    hide DataLen, GapLen, AllData, AllGap;
    var n := DataLen(cs);
    assert n > 0;
    assert cs[n..][..GapLen(cs[n..])] == FirstOf(cs).post;
  }

  lemma SplitOne(cs: seq<Chunk>)
    requires cs != [] && !cs[0].DontCare?
    ensures AfterFirst(cs) == [] || !AfterFirst(cs)[0].DontCare?
    ensures SplitRuns(cs) == [FirstOf(cs)] + SplitRuns(AfterFirst(cs))
  {
    hide DataLen, GapLen, AllData, AllGap;
  }

  lemma TotalsOne(u: Unit)
    ensures RunTotals([u]) == [Sum(u.run)] && PostTotals([u]) == []
  {}

  lemma ScanNil(a: Acc)
    ensures Scan(a, []) == a
  {}

  lemma TotalsCons(us: seq<Unit>, vs: seq<Unit>)
    requires vs != [] && us != [] && us[1..] == vs
    ensures RunTotals(us) == [Sum(us[0].run)] + RunTotals(vs)
    ensures PostTotals(us) == [Sum(us[0].post)] + PostTotals(vs)
  {
    hide Sum;
    assert forall i :: 0 < i < |us| ==> us[i] == vs[i - 1];
  }

  /** Shifting keeps the runs and moves every gap between two runs to the later one. */
  lemma {:induction false} ShiftAt(lead: seq<Chunk>, us: seq<Unit>, i: nat)
    requires i < |us|
    ensures var vs := Shift(lead, us);
            && vs[i].run == us[i].run
            && vs[i].pre == (if i == 0 then lead else us[i - 1].post)
            && vs[i].post == (if i == |us| - 1 then us[i].post else [])
    decreases |us|
  {
    if i > 0 {
      ShiftAt(us[0].post, us[1..], i - 1);
    }
  }

  /** The totals the scan leaves are those of the units: the run of each, and the gap the
      command loop will skip behind each but the last. */
  lemma ScanResult(cs: seq<Chunk>)
    ensures var r, us := Scan(INIT, cs), Split(cs);
            && r.data == RunTotals(us) && |r.gaps| >= |us| - 1
            && forall i :: 0 <= i < |us| - 1 ==> r.gaps[i] == Sum(us[i].Gap())
  {
    hide Scan, Sum, SplitRuns, Shift, Plus, RunTotals, PostTotals, GapLen;
    var g := GapLen(cs);
    var lead, rest := cs[..g], cs[g..];
    var us := SplitRuns(rest);
    assert cs == lead + rest;
    var d := if g == 0 then INIT else Acc([], [], Sum(lead), DONT_CARE);
    assert Scan(INIT, cs) == Scan(d, rest) by {
      if g == 0 {
        assert lead + rest == rest;
      } else {
        ScanGap(INIT, lead, rest);
        PlusNone(Sum(lead));
      }
    }
    if rest == [] {
      ScanNil(d);
      SplitNil();
      NoTotals();
    } else {
      ScanUnits(d, rest);
      assert d.data + RunTotals(us) == RunTotals(us);
      if g == 0 {
        assert [] + PostTotals(us) == PostTotals(us);
        PlainGaps(rest);
      } else {
        assert [] + [Sum(lead)] == [Sum(lead)];
        var u, _ := FirstUnit(rest);
        ShiftedGaps(lead, us);
      }
    }
  }

  lemma NoTotals()
    ensures RunTotals([]) == []
  {}

  /** The gap the tool skips behind a run of an image that starts with data ... */
  lemma PlainGaps(cs: seq<Chunk>)
    requires cs != [] && !cs[0].DontCare?
    ensures
      var us := SplitRuns(cs);
      |PostTotals(us)| >= |us| - 1 && forall i :: 0 <= i < |us| - 1 ==> PostTotals(us)[i] == Sum(us[i].Gap())
  {
    hide SplitRuns, Sum;
    var us := SplitRuns(cs);
    forall i | 0 <= i < |us| - 1 ensures PostTotals(us)[i] == Sum(us[i].Gap()) {
      FirstPre(cs, i);
      assert us[i].Gap() == us[i].post;
    }
  }

  /** ... and of one that does not. */
  lemma ShiftedGaps(lead: seq<Chunk>, us: seq<Unit>)
    requires us != []
    ensures
      var vs, gaps := Shift(lead, us), [Sum(lead)] + PostTotals(us);
      && RunTotals(vs) == RunTotals(us) && |gaps| >= |vs| - 1
      && forall i :: 0 <= i < |vs| - 1 ==> gaps[i] == Sum(vs[i].Gap())
  {
    hide Shift, Sum, PostTotals, RunTotals;
    var vs := Shift(lead, us);
    forall i | 0 <= i < |us| ensures vs[i].run == us[i].run {
      ShiftAt(lead, us, i);
    }
    SameTotals(us, vs);
    PostLength(us);
    forall i | 0 <= i < |us| - 1 ensures ([Sum(lead)] + PostTotals(us))[i] == Sum(vs[i].Gap()) {
      ShiftAt(lead, us, i);
      assert vs[i].Gap() == vs[i].pre;
      if i > 0 {
        PostAt(us, i - 1);
      }
    }
  }

  lemma SameTotals(us: seq<Unit>, vs: seq<Unit>)
    requires |us| == |vs| && forall i :: 0 <= i < |us| ==> vs[i].run == us[i].run
    ensures RunTotals(vs) == RunTotals(us)
  {
    hide Sum;
  }

  lemma PostLength(us: seq<Unit>)
    requires us != []
    ensures |PostTotals(us)| == |us| - 1
  {}

  lemma PostAt(us: seq<Unit>, i: nat)
    requires i < |us| - 1
    ensures |PostTotals(us)| == |us| - 1 && PostTotals(us)[i] == Sum(us[i].post)
  {}

  lemma SplitNil()
    ensures SplitRuns([]) == []
  {}

  lemma {:induction false} FirstPre(cs: seq<Chunk>, i: nat)
    requires cs == [] || !cs[0].DontCare?
    requires i < |SplitRuns(cs)|
    ensures SplitRuns(cs)[i].pre == []
    decreases |cs|
  {
    hide SplitRuns;
    if cs == [] {
      SplitNil();
    } else {
      var u, rest := FirstUnit(cs);
      if i > 0 {
        FirstPre(rest, i - 1);
      }
    }
  }

  // ------------------------------------------------------------- reading the file

  /** The size and the chunk counters of the tool do not wrap, and its tables have room. */
  predicate Fits(img: Image) {
    && |img.chunks| < 0x1_0000 && |Encode(img)| < 0x1_0000_0000
    && (forall c <- img.chunks :: c.blocks < 0x1_0000_0000)
    && |Split(img.chunks)| <= 100
  }

  /** Standing at a chunk: the fields of its header, its payload, and the next chunk. */
  lemma HeaderAt(file: seq<Byte>, at: nat, cs: seq<Chunk>)
    requires at <= |file| < 0x1_0000_0000 && file[at..] == EncodeChunks(cs) && cs != []
    requires cs[0].blocks < 0x1_0000_0000
    ensures var c := cs[0];
            && at + CHUNK_HEADER_SIZE + |c.Payload()| <= |file|
            && Get16(file, at) == c.Type()
            && Get32(file, at + 4) == c.blocks
            && Get32(file, at + 8) == CHUNK_HEADER_SIZE + |c.Payload()|
            && file[at + CHUNK_HEADER_SIZE..at + CHUNK_HEADER_SIZE + |c.Payload()|] == c.Payload()
            && file[at + CHUNK_HEADER_SIZE + |c.Payload()|..] == EncodeChunks(cs[1..])
  {
    hide Put16, Put32, Get16, Get32, EncodeChunk, EncodeChunks;
    var c := cs[0];
    var n := |EncodeChunk(c)|;
    ChunkAt(file, at, cs);
    ChunkFields(c);
    SubSlice(file, at, n, 0, 2);
    SubSlice(file, at, n, 4, 8);
    SubSlice(file, at, n, 8, 12);
    SubSlice(file, at, n, 12, n);
    PutGet16(c.Type(), file, at);
    PutGet32(c.blocks, file, at + 4);
    PutGet32(12 + |c.Payload()|, file, at + 8);
  }

  lemma ChunkAt(file: seq<Byte>, at: nat, cs: seq<Chunk>)
    requires at <= |file| && file[at..] == EncodeChunks(cs) && cs != []
    ensures var e := EncodeChunk(cs[0]);
            at + |e| <= |file| && file[at..at + |e|] == e && file[at + |e|..] == EncodeChunks(cs[1..])
  {
    hide EncodeChunk;
    var e := EncodeChunk(cs[0]);
    var t := file[at..];
    assert t == e + EncodeChunks(cs[1..]);
    assert file[at..at + |e|] == t[..|e|];
    assert file[at + |e|..] == t[|e|..];
  }

  lemma SubSlice(file: seq<Byte>, at: nat, n: nat, i: nat, j: nat)
    requires at + n <= |file| && i <= j <= n
    ensures file[at + i..at + j] == file[at..at + n][i..j]
  {
    var x, y := file[at + i..at + j], file[at..at + n][i..j];
    forall k | 0 <= k < j - i ensures x[k] == y[k] {
      assert file[at..at + n][i + k] == file[at + i + k];
    }
  }

  lemma ChunkFields(c: Chunk)
    ensures var e := EncodeChunk(c);
            && e[0..2] == Put16(c.Type()) && e[4..8] == Put32(c.blocks)
            && e[8..12] == Put32(CHUNK_HEADER_SIZE + |c.Payload()|) && e[12..|e|] == c.Payload()
  {
    hide Put16, Put32;
    var a := Put16(c.Type()) + Put16(0);
    var b := a + Put32(c.blocks);
    var d := b + Put32(CHUNK_HEADER_SIZE + |c.Payload()|);
    var e := EncodeChunk(c);
    assert e == d + c.Payload();
    assert e[0..2] == d[0..2] == b[0..2] == a[0..2];
    assert e[4..8] == d[4..8] == b[4..8];
    assert e[8..12] == d[8..12];
  }

  lemma HeaderFields(img: Image)
    requires |img.chunks| < 0x1_0000
    ensures |Encode(img)| >= HEADER_SIZE && Encode(img)[HEADER_SIZE..] == EncodeChunks(img.chunks)
    ensures Get16(Encode(img), 8) == HEADER_SIZE && Get32(Encode(img), 20) == |img.chunks|
  {
    hide Put16, Put32, Get16, Get32;
    var file := Encode(img);
    var a := Put32(0xED26FF3A) + Put16(1) + Put16(0);
    var b := a + Put16(HEADER_SIZE);
    var d := b + Put16(CHUNK_HEADER_SIZE) + Put32(img.blockSize) + Put32(img.totalBlocks);
    var e := d + Put32(|img.chunks|);
    assert file[..HEADER_SIZE] == e + Put32(img.checksum);
    assert file[20..24] == file[..HEADER_SIZE][20..24] == e[20..24];
    assert file[8..10] == file[..HEADER_SIZE][8..10] == d[8..10] == b[8..10];
    PutGet16(HEADER_SIZE, file, 8);
    PutGet32(|img.chunks|, file, 20);
  }

  /** The parts of the tool's state that programming works on: the scan tables and the
      fields of the program command. */
  class Programmer {
    var data: seq<Totals>     // chunk_polymerization_data
    var gaps: seq<Totals>     // chunk_polymerization_cac3
    var firstOffset: nat      // file_first_sector_offset
    var start: nat            // start_sector
    var sectors: nat          // num_partition_sectors
    var offset: nat           // file_sector_offset
    var bytes: nat            // UNSPARSE_FILE_SIZE
    const size: nat           // SECTOR_SIZE_IN_BYTES
    const maxPayload: nat     // MaxPayloadSizeToTargetInBytes

    /** fh_process_sparse_program: reads the chunk headers and fills the tables. */
    method ProcessSparseProgram(file: seq<Byte>, ghost img: Image)
      requires file == Encode(img) && Fits(img)
      modifies `data, `gaps, `firstOffset
      ensures data == Scan(INIT, img.chunks).data && gaps == Scan(INIT, img.chunks).gaps
      ensures firstOffset == HEADER_SIZE
    {
      hide Scan, Step, Encode, EncodeChunks, Split, Get16, Get32;
      HeaderFields(img);
      data, gaps := [], [];
      firstOffset := Get16(file, 8);
      var totalChunks := Get32(file, 20);
      var at: nat := HEADER_SIZE;
      var cur := NONE;
      var last: nat := 0;
      ghost var cs := img.chunks;
      var m := 0;
      while m < totalChunks
        invariant 0 <= m <= totalChunks == |img.chunks| && at <= |file| && firstOffset == HEADER_SIZE
        invariant last in {0, RAW, FILL, DONT_CARE}
        invariant cs == img.chunks[m..] && file[at..] == EncodeChunks(cs)
        invariant Scan(Acc(data, gaps, cur, last), cs) == Scan(INIT, img.chunks)
      {
        HeaderAt(file, at, cs);
        ScanCons(Acc(data, gaps, cur, last), cs);
        var kind := Get16(file, at);
        var chunk := Totals(Get32(file, at + 4), Get32(file, at + 8) - CHUNK_HEADER_SIZE, 1);
        cur := Tally(kind, chunk, cur, last, m == totalChunks - 1, cs[0]);
        at := at + CHUNK_HEADER_SIZE + chunk.bytes;
        last := kind;
        cs := cs[1..];
        m := m + 1;
      }
      ScanNil(Acc(data, gaps, cur, last));
    }

    /** fh_process_program on a sparse image, every answer of the device being the expected
        one: the commands sent and what is streamed for each. */
    method ProcessProgram(file: seq<Byte>, ghost img: Image) returns (cmds: seq<Command>)
      requires file == Encode(img) && Fits(img) && WellFormed(img, size)
      requires maxPayload > 0 && maxPayload % size == 0 && start < SECTOR_MOD
      modifies this
      ensures cmds == SentCommands(Split(img.chunks), old(start), size)
      ensures start == if cmds == [] then old(start) else cmds[|cmds| - 1].start
      ensures data == [] && gaps == []
    {
      hide Scan, Encode, EncodeChunks, Split, Sum, Commands, Flatten, WellFormed, Streamed, IsUnit, Bounded, RunTotals,
        Fits, Tables, At, Wrapped;
      ProcessSparseProgram(file, img);
      ghost var us := Split(img.chunks);
      Scanned(file, img);
      SizePositive(img, size);
      assert us[0..] == us;
      cmds := [];
      ghost var all := Wrapped(Commands(us, start, HEADER_SIZE, size));
      assert [] + all == all;
      ghost var s: nat, o: nat := start, HEADER_SIZE;
      var i := 0;
      while i < |data|
        invariant 0 <= i <= |data| == |us| && Tables(us) && |cmds| == i
        invariant start == if i == 0 then old(start) else cmds[i - 1].start
        invariant i < |us| ==> At(us, i, s, o, file)
        invariant all == cmds + Wrapped(Commands(us[i..], s, o, size))
      {
        UnitFacts(img, size, i);
        var c;
        ghost var s', o';
        c, s', o' := ProgramRun(i, file, us, s, o);
        SeqAssoc(cmds, [c], Wrapped(Commands(us[i + 1..], s', o', size)));
        cmds := cmds + [c];
        s, o := s', o';
        i := i + 1;
      }
      assert us[i..] == [];
      CommandsNil(s, o, size);
      WrappedNil();
      data, gaps, firstOffset := [], [], 0;
    }

    /** The tables hold the totals of the units. */
    ghost predicate Tables(us: seq<Unit>)
      reads `data, `gaps
    {
      && data == RunTotals(us) && |gaps| >= |us| - 1
      && forall k :: 0 <= k < |us| - 1 ==> gaps[k] == Sum(us[k].Gap())
    }

    /** The scan leaves the totals of the units, and the first unit behind the header. */
    lemma Scanned(file: seq<Byte>, img: Image)
      requires file == Encode(img) && Fits(img)
      requires data == Scan(INIT, img.chunks).data && gaps == Scan(INIT, img.chunks).gaps && firstOffset == HEADER_SIZE
      requires start < SECTOR_MOD
      ensures Tables(Split(img.chunks)) && |data| == |Split(img.chunks)| && |file| < 0x1_0000_0000
      ensures Split(img.chunks) != [] ==> At(Split(img.chunks), 0, start, HEADER_SIZE, file)
    {
      hide Scan, Encode, EncodeChunks, Split, Sum, Flatten, RunTotals;
      ScanResult(img.chunks);
      FlattenSplit(img.chunks);
      HeaderFields(img);
      assert Split(img.chunks)[0..] == Split(img.chunks);
    }

    /** Start sector and file offset of run i, from those of the run before. */
    ghost function NextStart(i: nat): nat
      reads this
      requires 0 < i <= |gaps|
    {
      (start + sectors + 8 * gaps[i - 1].blocks) % SECTOR_MOD
    }

    ghost function NextOffset(i: nat): nat
      reads this
      requires 0 < i <= |gaps| && i <= |data|
    {
      offset + data[i - 1].bytes + data[i - 1].count * CHUNK_HEADER_SIZE + gaps[i - 1].count * CHUNK_HEADER_SIZE
    }

    /** Before run i: its start sector, its file offset and the rest of the file. */
    ghost predicate At(us: seq<Unit>, i: nat, s: nat, o: nat, file: seq<Byte>)
      reads this
      requires i < |us| && Tables(us)
    {
      && (if i == 0 then start == s % SECTOR_MOD && o == firstOffset
          else NextStart(i) == s % SECTOR_MOD && o == NextOffset(i))
      && o <= |file| && file[o..] == EncodeChunks(Flatten(us[i..]))
    }

    /** The body of the command loop: the fields of the command, then the payload. */
    method ProgramRun(i: nat, file: seq<Byte>, ghost us: seq<Unit>, ghost s: nat, ghost o: nat)
      returns (c: Command, ghost s': nat, ghost o': nat)
      requires size > 0 && maxPayload > 0 && maxPayload % size == 0
      requires i < |us| && Tables(us) && At(us, i, s, o, file) && |file| < 0x1_0000_0000 && IsUnit(us[i])
      requires Bounded(Flatten(us[i..]))
      requires 0 < Sum(us[i].run).bytes <= Sum(Flatten(us[i..])).bytes
      modifies `start, `sectors, `offset, `bytes
      ensures Wrapped(Commands(us[i..], s, o, size)) == [c] + Wrapped(Commands(us[i + 1..], s', o', size))
      ensures start == c.start && Tables(us) && (i + 1 < |us| ==> At(us, i + 1, s', o', file))
    {
      hide EncodeChunks, Flatten, Sum, Streamed, IsUnit, Commands, RunTotals, At, Wrapped, CeilDiv, Bounded;
      RunTotalAt(us, i);
      AtFile(us, i, s, o, file);
      NextUnit(us, i, file, s, o, size);
      c := SendProgram(i, file, us, s, o);
      s', o' := s + c.sectors + 8 * Sum(us[i].Gap()).blocks, o + |EncodeChunks(us[i].Chunks())|;
      WrappedCons(c.(start := s), Commands(us[i + 1..], s', o', size));
      WrapAdd(s, c.sectors + 8 * Sum(us[i].Gap()).blocks);
      if i + 1 < |us| {
        AtNext(us, i, s', o', file);
      }
    }

    lemma AtFile(us: seq<Unit>, i: nat, s: nat, o: nat, file: seq<Byte>)
      requires i < |us| && Tables(us) && At(us, i, s, o, file)
      ensures o <= |file| && file[o..] == EncodeChunks(Flatten(us[i..]))
    {}

    /** Behind run i the fields are ready for the next run. */
    lemma AtNext(us: seq<Unit>, i: nat, s: nat, o: nat, file: seq<Byte>)
      requires i + 1 < |us| && Tables(us) && IsUnit(us[i])
      requires s % SECTOR_MOD == (start + sectors + 8 * Sum(us[i].Gap()).blocks) % SECTOR_MOD
      requires o == offset + |EncodeChunks(us[i].Chunks())|
      requires o <= |file| && file[o..] == EncodeChunks(Flatten(us[i + 1..]))
      ensures At(us, i + 1, s, o, file)
    {
      hide EncodeChunks, Flatten, Sum, IsUnit, RunTotals;
      RunTotalAt(us, i);
      UnitLength(us[i]);
    }

    method SendProgram(i: nat, file: seq<Byte>, ghost us: seq<Unit>, ghost s: nat, ghost o: nat) returns (c: Command)
      requires size > 0 && maxPayload > 0 && maxPayload % size == 0
      requires i < |us| && Tables(us) && At(us, i, s, o, file) && |file| < 0x1_0000_0000
      requires Bounded(Flatten(us[i..]))
      requires 0 < Sum(us[i].run).bytes <= Sum(Flatten(us[i..])).bytes
      modifies `start, `sectors, `offset, `bytes
      ensures c == Command(s % SECTOR_MOD, CeilDiv(data[i].bytes, size), o, data[i].bytes,
                           Streamed(Flatten(us[i..]), 0, data[i].bytes, size))
      ensures start == s % SECTOR_MOD && offset == o && sectors == c.sectors && bytes == c.bytes
    {
      hide EncodeChunks, Flatten, Sum, Streamed, CeilDiv, Bounded, RunTotals;
      if i == 0 {
        offset := firstOffset;
      } else {
        offset := offset + data[i - 1].bytes + data[i - 1].count * CHUNK_HEADER_SIZE + gaps[i - 1].count * CHUNK_HEADER_SIZE;
        start := (start + sectors + gaps[i - 1].blocks * 8) % SECTOR_MOD;
      }
      RunTotalAt(us, i);
      bytes := data[i].bytes;
      sectors := SectorsFor(bytes);
      var payload := SendRawmodeImage(file, Flatten(us[i..]));
      c := Command(start, sectors, offset, bytes, payload);
    }

    method SectorsFor(n: nat) returns (r: nat)
      requires size > 0
      ensures r == CeilDiv(n, size)
    {
      r := n / size;
      if n % size != 0 {
        r := r + 1;
      }
    }

    /** fh_send_rawmode_image on a sparse image, every write taking all bytes: reads chunk
        after chunk from the offset of the command until enough has been sent. */
    method SendRawmodeImage(file: seq<Byte>, ghost chunks: seq<Chunk>) returns (sent: seq<Byte>)
      requires size > 0 && maxPayload > 0 && maxPayload % size == 0
      requires offset <= |file| < 0x1_0000_0000 && file[offset..] == EncodeChunks(chunks)
      requires Bounded(chunks)
      requires 0 < bytes <= Sum(chunks).bytes
      ensures sent == Streamed(chunks, 0, bytes, size)
    {
      hide EncodeChunks, Sum, PadTo, Get16, Get32, Streamed, Bounded;
      sent := [];
      var at := offset;
      ghost var cs := chunks;
      assert sent + Streamed(chunks, 0, bytes, size) == Streamed(chunks, 0, bytes, size);
      while true
        invariant 0 <= at <= |file| && file[at..] == EncodeChunks(cs)
        invariant Bounded(cs)
        invariant |sent| < bytes <= |sent| + Sum(cs).bytes
        invariant Streamed(chunks, 0, bytes, size) == sent + Streamed(cs, |sent|, bytes, size)
        decreases |cs|
      {
        SumNil();
        SumSplit(cs);
        StreamedFirst(cs, |sent|, bytes, size);
        BoundedFirst(cs);
        var out;
        out, at := SendNext(file, at, cs);
        SeqAssoc(sent, out, Streamed(cs[1..], |sent| + |out|, bytes, size));
        sent := sent + out;
        if |sent| >= bytes {
          break;
        }
        cs := cs[1..];
      }
    }

    /** The chunk whose header stands at a position of the file, and the position behind it. */
    method SendNext(file: seq<Byte>, at: nat, ghost cs: seq<Chunk>) returns (out: seq<Byte>, next: nat)
      requires size > 0 && maxPayload > 0 && maxPayload % size == 0
      requires at <= |file| < 0x1_0000_0000 && file[at..] == EncodeChunks(cs) && cs != []
      requires cs[0].blocks < 0x1_0000_0000
      ensures out == PadTo(cs[0].Payload(), size) && |out| >= |cs[0].Payload()|
      ensures next <= |file| && file[next..] == EncodeChunks(cs[1..])
    {
      hide EncodeChunks, PadTo, Get16, Get32;
      HeaderAt(file, at, cs);
      var dataSize := Get32(file, at + 8) - CHUNK_HEADER_SIZE;
      out := SendChunk(file, at + CHUNK_HEADER_SIZE, dataSize);
      next := at + CHUNK_HEADER_SIZE + dataSize;
    }

    /** One chunk, in pieces of the payload limit; a piece that does not fill its last
        sector is padded with zeros. */
    method SendChunk(file: seq<Byte>, from: nat, n: nat) returns (out: seq<Byte>)
      requires size > 0 && maxPayload > 0 && maxPayload % size == 0 && from + n <= |file|
      ensures out == PadTo(file[from..from + n], size) && |out| >= n
    {
      hide PadTo;
      out := [];
      var at: nat, left: nat := from, n;
      assert [] + PadTo(file[from..from + n], size) == PadTo(file[from..from + n], size);
      while left >= maxPayload
        invariant from <= at && at + left == from + n && |out| == at - from
        invariant PadTo(file[from..from + n], size) == out + PadTo(file[at..at + left], size)
      {
        var piece := file[at..at + maxPayload];
        PadPiece(file, at, maxPayload, left, size);
        SeqAssoc(out, piece, PadTo(file[at + maxPayload..at + left], size));
        out := out + PadTo(piece, size);
        at := at + maxPayload;
        left := left - maxPayload;
      }
      PadLonger(file[at..at + left], size);
      if left > 0 {
        out := out + PadTo(file[at..at + left], size);
      } else {
        assert file[at..at + left] == [];
        assert out + [] == out;
      }
    }

    /** The body of the scanning loop: what one chunk header does to the tables. */
    method Tally(kind: nat, chunk: Totals, cur: Totals, last: nat, final: bool, ghost c: Chunk) returns (open: Totals)
      requires kind == c.Type() && chunk == One(c) && last in {0, RAW, FILL, DONT_CARE}
      modifies `data, `gaps
      ensures Acc(data, gaps, open, kind) == Step(Acc(old(data), old(gaps), cur, last), c, final)
    {
      open := cur;
      if kind == RAW || kind == FILL {
        if last != RAW && last != FILL && last != 0 {
          gaps := gaps + [cur];
          open := chunk;
        } else if last == 0 {
          open := chunk;
        } else {
          open := Plus(cur, chunk);
        }
      }
      if kind == DONT_CARE {
        if last != DONT_CARE && last != 0 {
          data := data + [cur];
          open := chunk;
        } else {
          open := Plus(cur, chunk);
        }
      }
      if final && (kind == RAW || kind == FILL) {
        data := data + [open];
      }
    }
  }

  lemma ScanCons(a: Acc, cs: seq<Chunk>)
    requires cs != []
    ensures Scan(a, cs) == Scan(Step(a, cs[0], |cs| == 1), cs[1..])
  {}

  lemma PadLonger(s: seq<Byte>, size: nat)
    requires size > 0
    ensures |PadTo(s, size)| >= |s| && (s == [] ==> PadTo(s, size) == [])
  {}

  lemma PadPiece(file: seq<Byte>, at: nat, m: nat, n: nat, size: nat)
    requires size > 0 && m % size == 0 && m <= n && at + n <= |file|
    ensures PadTo(file[at..at + m], size) == file[at..at + m]
    ensures PadTo(file[at..at + n], size) == file[at..at + m] + PadTo(file[at + m..at + n], size)
  {
    var a, b := file[at..at + m], file[at + m..at + n];
    assert file[at..at + n] == a + b;
    ModSkip(m, n - m, size);
    if (n - m) % size != 0 {
      SeqAssoc(a, b, seq(size - (n - m) % size, _ => 0));
    }
  }

  /** Block counts fit their 32-bit field. */
  predicate Bounded(cs: seq<Chunk>) {
    forall c <- cs :: c.blocks < 0x1_0000_0000
  }

  lemma BoundedFirst(cs: seq<Chunk>)
    requires cs != [] && Bounded(cs)
    ensures cs[0].blocks < 0x1_0000_0000 && Bounded(cs[1..])
  {
    assert cs[0] in cs && forall c <- cs[1..] :: c in cs;
  }

  lemma SumNil()
    ensures Sum([]) == NONE
  {}

  lemma StreamedFirst(cs: seq<Chunk>, sent: nat, bytes: nat, size: nat)
    requires size > 0 && cs != []
    ensures
      var p := PadTo(cs[0].Payload(), size);
      Streamed(cs, sent, bytes, size) ==
        if sent + |p| >= bytes then p else p + Streamed(cs[1..], sent + |p|, bytes, size)
  {
    hide PadTo;
  }

  lemma SumSplit(cs: seq<Chunk>)
    requires cs != []
    ensures Sum(cs).bytes == |cs[0].Payload()| + Sum(cs[1..]).bytes
  {}

  // ------------------------------------------------------------- the units make up the image

  lemma {:induction false} FlattenRuns(cs: seq<Chunk>)
    requires cs == [] || !cs[0].DontCare?
    ensures Flatten(SplitRuns(cs)) == cs
    decreases |cs|
  {
    hide SplitRuns;
    if cs == [] {
      SplitNil();
    } else {
      var u, rest := FirstUnit(cs);
      FlattenRuns(rest);
      assert SplitRuns(cs)[1..] == SplitRuns(rest);
      assert u.Chunks() == u.run + u.post;
      SeqAssoc(u.run, u.post, rest);
    }
  }

  lemma {:induction false} FlattenShift(lead: seq<Chunk>, us: seq<Unit>)
    requires us != [] && forall u <- us :: u.pre == []
    ensures Flatten(Shift(lead, us)) == lead + Flatten(us)
    decreases |us|
  {
    var v := Unit(lead, us[0].run, if |us| == 1 then us[0].post else []);
    var vs := Shift(lead, us);
    assert us[0].Chunks() == us[0].run + us[0].post;
    if |us| == 1 {
      assert us[1..] == [] && vs[1..] == [];
      assert vs[0].Chunks() + [] == lead + (us[0].Chunks() + []);
    } else {
      FlattenShift(us[0].post, us[1..]);
      assert vs[1..] == Shift(us[0].post, us[1..]);
      assert vs[0].Chunks() == lead + us[0].run;
      var rest := Flatten(us[1..]);
      SeqAssoc(lead + us[0].run, us[0].post, rest);
      SeqAssoc(lead, us[0].run, us[0].post);
      SeqAssoc(lead, us[0].run + us[0].post, rest);
    }
  }

  lemma FlattenSplit(cs: seq<Chunk>)
    ensures Split(cs) != [] ==> Flatten(Split(cs)) == cs
  {
    hide SplitRuns, Flatten, Shift;
    var g := GapLen(cs);
    var us := SplitRuns(cs[g..]);
    FlattenRuns(cs[g..]);
    if g > 0 && us != [] {
      forall i | 0 <= i < |us| ensures us[i].pre == [] {
        FirstPre(cs[g..], i);
      }
      FlattenShift(cs[..g], us);
      assert cs == cs[..g] + cs[g..];
    } else {
      assert cs[0..] == cs;
    }
  }

  /** Every unit has a run of data and don't-care chunks around it. */
  predicate IsUnit(u: Unit) {
    u.run != [] && AllData(u.run) && AllGap(u.pre) && AllGap(u.post)
  }

  lemma {:induction false} RunsAreUnits(cs: seq<Chunk>, i: nat)
    requires cs == [] || !cs[0].DontCare?
    requires i < |SplitRuns(cs)|
    ensures IsUnit(SplitRuns(cs)[i])
    decreases |cs|
  {
    hide SplitRuns;
    if cs == [] {
      SplitNil();
    } else {
      var u, rest := FirstUnit(cs);
      if i > 0 {
        RunsAreUnits(rest, i - 1);
      }
    }
  }

  lemma SplitsAreUnits(cs: seq<Chunk>, i: nat)
    requires i < |Split(cs)|
    ensures IsUnit(Split(cs)[i])
  {
    hide SplitRuns, Shift;
    var g := GapLen(cs);
    var us := SplitRuns(cs[g..]);
    RunsAreUnits(cs[g..], i);
    if g > 0 {
      ShiftAt(cs[..g], us, i);
      if i > 0 {
        RunsAreUnits(cs[g..], i - 1);
      }
    }
  }

  lemma {:induction false} GapIsEmpty(cs: seq<Chunk>)
    requires AllGap(cs)
    ensures Sum(cs).bytes == 0
    decreases |cs|
  {
    if cs != [] {
      assert cs[0] in cs;
      GapIsEmpty(cs[1..]);
    }
  }

  lemma {:induction false} EncodeLength(cs: seq<Chunk>)
    ensures |EncodeChunks(cs)| == Sum(cs).bytes + CHUNK_HEADER_SIZE * Sum(cs).count
    decreases |cs|
  {
    if cs != [] {
      EncodeLength(cs[1..]);
    }
  }

  /** The file offset the command loop adds for a unit is its length in the file. */
  lemma UnitLength(u: Unit)
    requires IsUnit(u)
    ensures |EncodeChunks(u.Chunks())|
         == Sum(u.run).bytes + Sum(u.run).count * CHUNK_HEADER_SIZE + Sum(u.Gap()).count * CHUNK_HEADER_SIZE
  {
    hide Sum, EncodeChunks, AllGap;
    EncodeLength(u.Chunks());
    SumAppend(u.pre + u.run, u.post);
    SumAppend(u.pre, u.run);
    SumAppend(u.pre, u.post);
    GapIsEmpty(u.pre);
    GapIsEmpty(u.post);
  }

  lemma RunTotalAt(us: seq<Unit>, i: nat)
    requires i < |us|
    ensures RunTotals(us)[i] == Sum(us[i].run)
  {}

  lemma SizePositive(img: Image, size: nat)
    requires WellFormed(img, size)
    ensures size > 0
  {}

  lemma WrappedNil()
    ensures Wrapped([]) == []
  {}

  lemma CommandsNil(s: nat, o: nat, size: nat)
    requires size > 0
    ensures Commands([], s, o, size) == []
  {}

  /** The first command and those for the other units. */
  lemma CommandsCons(us: seq<Unit>, s: nat, o: nat, size: nat)
    requires us != [] && size > 0
    ensures var u := us[0];
            var t := Sum(u.run);
            var n := CeilDiv(t.bytes, size);
            Commands(us, s, o, size) ==
              [Command(s, n, o, t.bytes, Streamed(u.Chunks() + Flatten(us[1..]), 0, t.bytes, size))]
              + Commands(us[1..], s + n + 8 * Sum(u.Gap()).blocks, o + |EncodeChunks(u.Chunks())|, size)
  {
    hide Sum, EncodeChunks, Streamed, CeilDiv;
    assert Flatten(us) == us[0].Chunks() + Flatten(us[1..]);
    assert FirstCommand(us, s, o, size).sectors == CeilDiv(Sum(us[0].run).bytes, size);
    hide FirstCommand, Flatten;
    CommandsFrom(us, s, o, size);
  }

  lemma CommandsFrom(us: seq<Unit>, s: nat, o: nat, size: nat)
    requires us != [] && size > 0
    ensures var c := FirstCommand(us, s, o, size);
            Commands(us, s, o, size) ==
              [c] + Commands(us[1..], s + c.sectors + 8 * Sum(us[0].Gap()).blocks, o + |EncodeChunks(us[0].Chunks())|, size)
  {
    hide Sum, EncodeChunks, FirstCommand;
  }

  lemma NextUnit(us: seq<Unit>, i: nat, file: seq<Byte>, s: nat, o: nat, size: nat)
    requires i < |us| && size > 0 && o <= |file| && file[o..] == EncodeChunks(Flatten(us[i..]))
    ensures var u := us[i];
            var t := Sum(u.run);
            var n := CeilDiv(t.bytes, size);
            && Commands(us[i..], s, o, size)
               == [Command(s, n, o, t.bytes, Streamed(Flatten(us[i..]), 0, t.bytes, size))]
                + Commands(us[i + 1..], s + n + 8 * Sum(u.Gap()).blocks, o + |EncodeChunks(u.Chunks())|, size)
            && o + |EncodeChunks(u.Chunks())| <= |file|
            && file[o + |EncodeChunks(u.Chunks())|..] == EncodeChunks(Flatten(us[i + 1..]))
  {
    hide Sum, EncodeChunks, Streamed, CeilDiv, Commands;
    var u := us[i];
    assert us[i..][1..] == us[i + 1..];
    assert Flatten(us[i..]) == u.Chunks() + Flatten(us[i + 1..]);
    hide Flatten;
    CommandsCons(us[i..], s, o, size);
    EncodeAppend(u.Chunks(), Flatten(us[i + 1..]));
    var n := |EncodeChunks(u.Chunks())|;
    assert file[o + n..] == file[o..][n..];
  }

  lemma {:induction false} FlattenFrom(us: seq<Unit>, i: nat)
    requires i <= |us|
    ensures forall c <- Flatten(us[i..]) :: c in Flatten(us)
    decreases i
  {
    if i > 0 {
      FlattenFrom(us[1..], i - 1);
      assert us[1..][i - 1..] == us[i..];
    } else {
      assert us[0..] == us;
    }
  }

  lemma UnitFacts(img: Image, size: nat, i: nat)
    requires WellFormed(img, size) && Fits(img) && i < |Split(img.chunks)|
    ensures var us := Split(img.chunks);
            && (forall k :: 0 <= k < |us| ==> IsUnit(us[k]))
            && 0 < Sum(us[i].run).bytes <= Sum(Flatten(us[i..])).bytes
            && Bounded(Flatten(us[i..]))
  {
    hide Split, Sum, Flatten, AllGap;
    var us := Split(img.chunks);
    forall k | 0 <= k < |us| ensures IsUnit(us[k]) {
      SplitsAreUnits(img.chunks, k);
    }
    FlattenSplit(img.chunks);
    FlattenFrom(us, i);
    UnitBytes(us, i);
    assert IsUnit(us[i]) && us[i].run[0] in us[i].run;
    RunBytes(img, size, us[i].run);
  }

  lemma UnitBytes(us: seq<Unit>, i: nat)
    requires i < |us|
    ensures Sum(us[i].run).bytes <= Sum(Flatten(us[i..])).bytes
    ensures forall c <- us[i].run :: c in Flatten(us[i..])
  {
    hide Sum;
    var u := us[i];
    SumAppend(u.Chunks(), Flatten(us[i..][1..]));
    SumAppend(u.pre + u.run, u.post);
    SumAppend(u.pre, u.run);
  }

  lemma RunBytes(img: Image, size: nat, run: seq<Chunk>)
    requires WellFormed(img, size) && run != [] && !run[0].DontCare? && run[0] in img.chunks
    ensures Sum(run).bytes > 0
  {
    assert WellFormedChunk(run[0], img.blockSize);
    if run[0].Raw? {
      assert run[0].blocks * img.blockSize > 0;
    }
  }
}
