/** A whole flashing run: the configuration, the passes over the command table, and the
    exchange with a device that may answer anything or nothing. */
module FirehoseRun {
  import opened Arith
  import opened LittleEndian
  import I = SparseImage
  import M = SparseMeaning
  import S = SparseProgram
  import T = SparseTheorem
  import W = SparseWrap
  import opened Sequences

  /** A line of the command table. A program line sends runs commands; for a sparse image
      the start sector jumps ahead between two of them. A sparse file that cannot be scanned
      sends nothing, which nobody notices. */
  datatype Cmd =
    | Vendor
    | Erase(start: nat, sectorSize: nat)
    | Program(start: nat, runs: nat, jumps: seq<nat>, scanned: bool)
    | Patch
  {
    predicate Valid() {
      Program? ==> start < S.SECTOR_MOD && (runs > 0 ==> |jumps| == runs - 1)
    }

    function Sends(): nat
      requires Program?
    {
      if scanned then runs else 0
    }
  }

  /** What the tool asks of the device; the number is the line of the table. */
  datatype Action =
    | DoErase(line: nat)
    | DoVendor(line: nat)
    | DoProgram(line: nat, run: nat)
    | DoPatch(line: nat)
    | DoBoot
    | DoReset

  datatype Value = Ack | Nak | Other

  /** What the tool does on the wire. A command that did not go out whole counts for it like one
      that did. Silence is a wait for an answer that timed out. */
  datatype Event =
    | Configure(maxPayload: nat, sent: bool)
    | Command(action: Action, sent: bool)
    | Stream(action: Action, complete: bool)
    | Answer(value: Value, rawmode: bool, offer: nat)
    | Silence

  // ------------------------------------------------------------- the protocol

  /** Where an exchange stands. Stopped: the run is over. Broken: the protocol was violated. */
  datatype Phase =
    | Unconfigured
    | Configuring(maxPayload: nat, again: bool)
    | Renegotiate(offer: nat)
    | Idle(maxPayload: nat)
    | Asked(maxPayload: nat, action: Action)
    | RawMode(maxPayload: nat, action: Action)
    | Closing(maxPayload: nat, action: Action)
    | Stopped
    | Broken

  function Next(p: Phase, e: Event): Phase {
    match (p, e)
    case (Unconfigured, Configure(m, _)) => Configuring(m, false)
    case (Configuring(m, again), Answer(v, _, offer)) =>
      if v.Ack? then Idle(m) else if !again && v.Nak? && offer > 0 then Renegotiate(offer) else Stopped
    case (Renegotiate(offer), Configure(m, _)) => if m == offer then Configuring(m, true) else Broken
    case (Idle(m), Command(a, _)) => Asked(m, a)
    case (Asked(m, a), Answer(v, raw, _)) =>
      if a.DoBoot? || a.DoReset? then Idle(m)
      else if !v.Ack? then Stopped
      else if !a.DoProgram? then Idle(m)
      else if raw then RawMode(m, a) else Stopped
    case (RawMode(m, a), Stream(b, complete)) => if a != b then Broken else if complete then Closing(m, a) else Stopped
    case (Closing(m, a), Answer(v, raw, _)) => if v.Ack? && !raw then Idle(m) else Stopped
    case (Configuring(_, _), Silence) => Stopped
    case (Asked(_, _), Silence) => Stopped
    case (Closing(_, _), Silence) => Stopped
    case _ => Broken
  }

  function After(log: seq<Event>): Phase {
    if log == [] then Unconfigured else Next(After(log[..|log| - 1]), log[|log| - 1])
  }

  /** The commands tried, in order. */
  function Actions(log: seq<Event>): seq<Action> {
    if log == [] then []
    else
      var e := log[|log| - 1];
      Actions(log[..|log| - 1]) + if e.Command? then [e.action] else []
  }

  lemma Snoc(log: seq<Event>, e: Event)
    ensures After(log + [e]) == Next(After(log), e)
    ensures Actions(log + [e]) == Actions(log) + if e.Command? then [e.action] else []
  {
    assert (log + [e])[..|log|] == log;
  }

  // ------------------------------------------------------------- the passes

  /** The passes of firehose_main, in order. */
  datatype Pass = SectorZeroErases | Vendors | Erases(nand: bool) | Programs(nand: bool) | LastPrograms | Patches

  predicate Selects(pass: Pass, c: Cmd) {
    match pass
    case SectorZeroErases => c.Erase? && c.start == 0
    case Vendors => c.Vendor?
    case Erases(nand) => c.Erase? && c.sectorSize != 0 && !(nand && c.start == 0)
    case Programs(nand) => c.Program? && !(nand && c.start == 0)
    case LastPrograms => c.Program? && c.start == 0
    case Patches => c.Patch?
  }

  function Runs(x: nat, n: nat): seq<Action> {
    if n == 0 then [] else Runs(x, n - 1) + [DoProgram(x, n - 1)]
  }

  /** What one line of the table makes a tool do in the pass that selects it. */
  function Deed(x: nat, c: Cmd): seq<Action> {
    match c
    case Vendor => [DoVendor(x)]
    case Erase(_, _) => [DoErase(x)]
    case Program(_, _, _, _) => Runs(x, c.Sends())
    case Patch => [DoPatch(x)]
  }

  /** What a pass over the first n lines does. */
  function Deeds(pass: Pass, table: seq<Cmd>, n: nat): seq<Action>
    requires n <= |table|
  {
    if n == 0 then []
    else Deeds(pass, table, n - 1) + if Selects(pass, table[n - 1]) then Deed(n - 1, table[n - 1]) else []
  }

  function Total(jumps: seq<nat>, n: nat): nat
    requires n <= |jumps|
  {
    if n == 0 then 0 else Total(jumps, n - 1) + jumps[n - 1]
  }

  /** Programming a sparse image leaves the start sector where its last run went. */
  function Moved(c: Cmd): (d: Cmd)
    requires c.Program? && c.Valid()
    ensures d.Program? && d.Valid() && d.runs == c.runs && d.scanned == c.scanned
  {
    At(c, c.Sends())
  }

  function MoveProgram(c: Cmd, nand: bool): (d: Cmd)
    requires c.Valid()
    ensures d.Valid()
  {
    if c.Program? && !(nand && c.start == 0) then Moved(c) else c
  }

  /** The table after the first pass over the programs. */
  function MovedTable(table: seq<Cmd>, nand: bool): (t: seq<Cmd>)
    requires forall c <- table :: c.Valid()
    ensures |t| == |table| && forall c <- t :: c.Valid()
  {
    seq(|table|, x requires 0 <= x < |table| => MoveProgram(table[x], nand))
  }

  /** Everything a successful run does, in order. */
  function Schedule(table: seq<Cmd>, nand: bool, eraseAll: bool, patches: bool): seq<Action>
    requires forall c <- table :: c.Valid()
  {
    var n := |table|;
    (if nand || eraseAll then Deeds(SectorZeroErases, table, n) else [])
    + Deeds(Vendors, table, n)
    + (if eraseAll then [] else Deeds(Erases(nand), table, n))
    + Deeds(Programs(nand), table, n)
    + (if nand then Deeds(LastPrograms, MovedTable(table, nand), n) else [])
    + (if patches then Deeds(Patches, table, n) else [])
    + (if nand then [] else [DoBoot])
    + [DoReset]
  }

  /** Before the programs ... */
  function Erasing(table: seq<Cmd>, nand: bool, eraseAll: bool): seq<Action> {
    var n := |table|;
    (if nand || eraseAll then Deeds(SectorZeroErases, table, n) else [])
    + Deeds(Vendors, table, n)
    + (if eraseAll then [] else Deeds(Erases(nand), table, n))
  }

  /** ... the programs of sector zero ... */
  function LastPass(table: seq<Cmd>, nand: bool): seq<Action>
    requires forall c <- table :: c.Valid()
  {
    if nand then Deeds(LastPrograms, MovedTable(table, nand), |table|) else []
  }

  /** ... and behind the programs. */
  function Ending(table: seq<Cmd>, nand: bool, patches: bool): seq<Action> {
    (if patches then Deeds(Patches, table, |table|) else []) + (if nand then [] else [DoBoot]) + [DoReset]
  }

  lemma ThreeParts(a: seq<Action>, b: seq<Action>, c: seq<Action>, d: seq<Action>)
    ensures a + b + c + d == a + (b + c + d)
  {}

  lemma ScheduleParts(table: seq<Cmd>, nand: bool, eraseAll: bool, patches: bool)
    requires forall c <- table :: c.Valid()
    ensures
      Schedule(table, nand, eraseAll, patches) ==
        Erasing(table, nand, eraseAll) + Deeds(Programs(nand), table, |table|) + LastPass(table, nand)
        + Ending(table, nand, patches)
  {
    hide Deeds, MovedTable;
    var n := |table|;
    var u := Erasing(table, nand, eraseAll) + Deeds(Programs(nand), table, n) + LastPass(table, nand);
    ThreeParts(u, if patches then Deeds(Patches, table, n) else [], if nand then [] else [DoBoot], [DoReset]);
  }

  // ------------------------------------------------------------- the run

  class Flasher {
    var table: seq<Cmd>
    var log: seq<Event>
    var maxPayload: nat

    ghost predicate Ready()
      reads this
    {
      After(log) == Idle(maxPayload) && forall c <- table :: c.Valid()
    }

    method Note(e: Event)
      modifies `log
      ensures log == old(log) + [e]
      ensures After(log) == Next(After(old(log)), e)
      ensures Actions(log) == Actions(old(log)) + if e.Command? then [e.action] else []
    {
      Snoc(log, e);
      log := log + [e];
    }

    /** fh_wait_response_cmd: any answer of the device, or none; log messages are skipped. */
    method WaitResponse() returns (r: Event)
      modifies `log
      ensures r.Answer? || r.Silence?
      ensures After(log) == Next(After(old(log)), r) && Actions(log) == Actions(old(log))
    {
      var silent: bool, value: Value, rawmode: bool, offer: nat := *, *, *, *;
      r := if silent then Silence else Answer(value, rawmode, offer);
      Note(r);
    }

    /** fh_send_cmd, whose result nobody looks at. */
    method SendCommand(a: Action)
      modifies `log
      ensures exists sent :: log == old(log) + [Command(a, sent)]
      ensures forall sent :: After(log) == Next(After(old(log)), Command(a, sent))
      ensures Actions(log) == Actions(old(log)) + [a]
    {
      var sent: bool := *;
      Note(Command(a, sent));
    }

    /** fh_send_cfg_cmd: what is agreed is what the device acknowledged. */
    method SendConfigure(wanted: nat) returns (ok: bool)
      requires log == []
      modifies `log, `maxPayload
      ensures ok ==> After(log) == Idle(maxPayload)
      ensures !ok ==> After(log) == Stopped
      ensures Actions(log) == []
    {
      var proposed := wanted;
      var sent: bool := *;
      Note(Configure(proposed, sent));
      var r := WaitResponse();
      if r.Silence? { return false; }
      if r.value.Nak? && r.offer != 0 {
        proposed := r.offer;
        sent := *;
        Note(Configure(proposed, sent));
        r := WaitResponse();
        if r.Silence? { return false; }
      }
      if !r.value.Ack? { return false; }
      maxPayload := proposed;
      ok := true;
    }

    /** fh_process_erase, fh_process_patch and the vendor commands. */
    method ProcessSimple(a: Action) returns (ok: bool)
      requires Ready() && !a.DoProgram? && !a.DoBoot? && !a.DoReset?
      modifies `log
      ensures ok ==> Ready() && Actions(log) == Actions(old(log)) + [a]
      ensures !ok ==> After(log) == Stopped
    {
      SendCommand(a);
      var r := WaitResponse();
      ok := r.Answer? && r.value.Ack?;
    }

    /** fh_process_program. */
    method ProcessProgram(x: nat) returns (ok: bool)
      requires Ready() && x < |table| && table[x].Program?
      modifies `log, `table
      ensures ok ==> Ready() && Actions(log) == Actions(old(log)) + Deed(x, old(table[x]))
      ensures ok ==> table == old(table)[x := Moved(old(table[x]))]
      ensures !ok ==> After(log) == Stopped
    {
      hide After, Actions;
      ghost var c := table[x];
      assert c in table && c.Valid();
      assert Actions(log) + [] == Actions(log);
      var i := 0;
      while i < if table[x].scanned then table[x].runs else 0
        invariant 0 <= i <= c.Sends() && Ready()
        invariant table == old(table)[x := At(c, i)]
        invariant Actions(log) == Actions(old(log)) + Runs(x, i)
      {
        if i > 0 {
          AtStep(c, i);
          var t := table[x];
          table := table[x := Program((t.start + t.jumps[i - 1]) % S.SECTOR_MOD, t.runs, t.jumps, t.scanned)];
          assert table == old(table)[x := At(c, i + 1)];
        }
        var sent := ProgramOne(DoProgram(x, i));
        if !sent { return false; }
        i := i + 1;
      }
      ok := true;
    }

    /** The passes over erase, vendor and patch lines: one command for each line selected. */
    method SimplePass(pass: Pass) returns (ok: bool)
      requires Ready() && !pass.Programs? && !pass.LastPrograms?
      modifies `log
      ensures ok ==> Ready() && Actions(log) == Actions(old(log)) + Deeds(pass, table, |table|)
      ensures !ok ==> After(log) == Stopped
    {
      hide After, Actions;
      var x := 0;
      assert Actions(log) + Deeds(pass, table, 0) == Actions(log);
      while x < |table|
        invariant 0 <= x <= |table| && Ready()
        invariant Actions(log) == Actions(old(log)) + Deeds(pass, table, x)
      {
        var c := table[x];
        if Selects(pass, c) {
          var a := if c.Erase? then DoErase(x) else if c.Vendor? then DoVendor(x) else DoPatch(x);
          var sent := ProcessSimple(a);
          if !sent { return false; }
          SeqAssoc(Actions(old(log)), Deeds(pass, table, x), [a]);
        }
        x := x + 1;
      }
      ok := true;
    }

    /** The passes over the program lines. */
    method ProgramPass(pass: Pass) returns (ok: bool)
      requires Ready() && (pass.Programs? || pass.LastPrograms?)
      modifies `log, `table
      ensures ok ==> Ready() && Actions(log) == Actions(old(log)) + Deeds(pass, old(table), |old(table)|)
      ensures ok && pass.Programs? ==> table == MovedTable(old(table), pass.nand)
      ensures ok ==> SameLines(old(table), table)
      ensures !ok ==> After(log) == Stopped
    {
      hide After, Actions, Moved, Passed, MovedTable, SameLines, Deed;
      var x := 0;
      ghost var was := table;
      NothingPassed(pass, was);
      assert Actions(log) + Deeds(pass, was, 0) == Actions(log);
      while x < |table|
        invariant 0 <= x <= |table| == |was| && Ready()
        invariant Passed(pass, was, table, x)
        invariant Actions(log) == Actions(old(log)) + Deeds(pass, was, x)
      {
        PassOn(pass, was, table, x);
        if Selects(pass, table[x]) {
          var sent := ProcessProgram(x);
          if !sent { return false; }
          SeqAssoc(Actions(old(log)), Deeds(pass, was, x), Deed(x, was[x]));
        }
        x := x + 1;
      }
      AllPassed(pass, was, table);
      ok := true;
    }

    /** firehose_main from the configuration on. */
    method Run(wanted: nat, nand: bool, eraseAll: bool, patchCount: nat) returns (ok: bool)
      requires log == [] && forall c <- table :: c.Valid()
      modifies this
      ensures !ok ==> After(log) == Stopped
      ensures ok ==> After(log) == Idle(maxPayload) && Actions(log) == Schedule(old(table), nand, eraseAll, patchCount > 0)
    {
      hide After, Actions, Deeds, SameLines;
      ghost var t, n := table, |table|;
      ok := SendConfigure(wanted);
      if !ok { return; }
      if nand || eraseAll {
        ok := SimplePass(SectorZeroErases);
        if !ok { return; }
      }
      ghost var acts := if nand || eraseAll then Deeds(SectorZeroErases, t, n) else [];
      assert Actions(log) == acts;
      ok := SimplePass(Vendors);
      if !ok { return; }
      acts := acts + Deeds(Vendors, t, n);
      if !eraseAll {
        ok := SimplePass(Erases(nand));
        if !ok { return; }
      }
      acts := acts + if eraseAll then [] else Deeds(Erases(nand), t, n);
      assert Actions(log) == acts;
      ok := ProgramPass(Programs(nand));
      if !ok { return; }
      acts := acts + Deeds(Programs(nand), t, n);
      if nand {
        ok := ProgramPass(LastPrograms);
        if !ok { return; }
      }
      acts := acts + if nand then Deeds(LastPrograms, MovedTable(t, nand), n) else [];
      assert Actions(log) == acts;
      SameLinesTrans(t, MovedTable(t, nand), table);
      SamePatches(t, table, n);
      if patchCount != 0 {
        ok := SimplePass(Patches);
        if !ok { return; }
      }
      acts := acts + if patchCount > 0 then Deeds(Patches, t, n) else [];
      assert Actions(log) == acts;
      ok := Finish(nand);
    }

    /** setbootablestoragedrive unless nand, then reset; any answer will do. */
    method Finish(nand: bool) returns (ok: bool)
      requires Ready()
      modifies `log
      ensures ok ==> Ready() && Actions(log) == Actions(old(log)) + (if nand then [] else [DoBoot]) + [DoReset]
      ensures !ok ==> After(log) == Stopped
    {
      if !nand {
        SendCommand(DoBoot);
        var r := WaitResponse();
        if r.Silence? { return false; }
      }
      SendCommand(DoReset);
      var r := WaitResponse();
      ok := r.Answer?;
    }

    /** One program command: acknowledged into raw mode, streamed, acknowledged out of it. */
    method ProgramOne(a: Action) returns (ok: bool)
      requires Ready() && a.DoProgram?
      modifies `log
      ensures ok ==> Ready() && Actions(log) == Actions(old(log)) + [a]
      ensures !ok ==> After(log) == Stopped
    {
      SendCommand(a);
      var r := WaitResponse();
      if r.Silence? || !r.value.Ack? || !r.rawmode { return false; }
      var complete: bool := *;
      Note(Stream(a, complete));
      if !complete { return false; }
      r := WaitResponse();
      ok := r.Answer? && r.value.Ack? && !r.rawmode;
    }
  }

  /** A pass over the programs, before line x. */
  ghost predicate Passed(pass: Pass, was: seq<Cmd>, t: seq<Cmd>, x: nat)
    requires forall c <- was :: c.Valid()
  {
    && |t| == |was| && SameLines(was, t)
    && (forall k :: x <= k < |was| ==> t[k] == was[k])
    && (pass.Programs? ==> forall k :: 0 <= k < x && k < |was| ==> t[k] == MoveProgram(was[k], pass.nand))
  }

  lemma NothingPassed(pass: Pass, was: seq<Cmd>)
    requires forall c <- was :: c.Valid()
    ensures Passed(pass, was, was, 0)
  {}

  lemma PassOn(pass: Pass, was: seq<Cmd>, t: seq<Cmd>, x: nat)
    requires (forall c <- was :: c.Valid()) && x < |was| && Passed(pass, was, t, x)
    requires pass.Programs? || pass.LastPrograms?
    ensures x < |t| && t[x] == was[x] && was[x].Valid()
    ensures Passed(pass, was, if Selects(pass, was[x]) then t[x := Moved(was[x])] else t, x + 1)
  {
    hide Moved;
    assert was[x] in was;
  }

  lemma AllPassed(pass: Pass, was: seq<Cmd>, t: seq<Cmd>)
    requires (forall c <- was :: c.Valid()) && Passed(pass, was, t, |was|)
    ensures SameLines(was, t) && (pass.Programs? ==> t == MovedTable(was, pass.nand))
  {
    hide MoveProgram;
  }

  /** The lines of two tables differ at most in the start sectors of programs. */
  ghost predicate SameLines(t: seq<Cmd>, u: seq<Cmd>) {
    |t| == |u| && forall x :: 0 <= x < |t| ==> if t[x].Program? then u[x].Program? else u[x] == t[x]
  }

  lemma SameLinesTrans(t: seq<Cmd>, u: seq<Cmd>, v: seq<Cmd>)
    requires SameLines(t, u) && (u == v || SameLines(u, v))
    ensures SameLines(t, v)
  {}

  lemma {:induction false} SamePatches(t: seq<Cmd>, u: seq<Cmd>, n: nat)
    requires SameLines(t, u) && n <= |t|
    ensures Deeds(Patches, t, n) == Deeds(Patches, u, n)
    decreases n
  {
    if n > 0 {
      SamePatches(t, u, n - 1);
    }
  }

  /** The line before its command i: the start sector of the command before. */
  function At(c: Cmd, i: nat): (d: Cmd)
    requires c.Program? && c.Valid() && i <= c.runs
    ensures d.Program? && d.Valid() && d.runs == c.runs && d.jumps == c.jumps && d.scanned == c.scanned
  {
    if i == 0 then c else Program((c.start + Total(c.jumps, i - 1)) % S.SECTOR_MOD, c.runs, c.jumps, c.scanned)
  }

  lemma AtStep(c: Cmd, i: nat)
    requires c.Program? && c.Valid() && 0 < i < c.runs
    ensures At(c, i + 1) == Program((At(c, i).start + c.jumps[i - 1]) % S.SECTOR_MOD, c.runs, c.jumps, c.scanned)
  {
    S.WrapAdd(c.start + Total(c.jumps, i - 1), c.jumps[i - 1]);
  }

  // ------------------------------------------------------------- about every successful run

  lemma {:induction false} RunsIn(x: nat, n: nat, a: Action)
    ensures a in Runs(x, n) <==> a.DoProgram? && a.line == x && a.run < n
    decreases n
  {
    if n > 0 {
      RunsIn(x, n - 1, a);
    }
  }

  /** A pass does what belongs to a line it selects, and nothing else. */
  ghost predicate Belongs(pass: Pass, table: seq<Cmd>, n: nat, a: Action)
    requires n <= |table|
  {
    match a
    case DoErase(x) => x < n && table[x].Erase? && Selects(pass, table[x])
    case DoVendor(x) => x < n && table[x].Vendor? && Selects(pass, table[x])
    case DoProgram(x, r) => x < n && table[x].Program? && Selects(pass, table[x]) && r < table[x].Sends()
    case DoPatch(x) => x < n && table[x].Patch? && Selects(pass, table[x])
    case _ => false
  }

  lemma {:induction false} DeedsIn(pass: Pass, table: seq<Cmd>, n: nat, a: Action)
    requires n <= |table|
    ensures a in Deeds(pass, table, n) <==> Belongs(pass, table, n, a)
    decreases n
  {
    if n > 0 {
      DeedsIn(pass, table, n - 1, a);
      if table[n - 1].Program? {
        RunsIn(n - 1, table[n - 1].Sends(), a);
      }
    }
  }

  /** How often an action occurs. */
  function Times(s: seq<Action>, a: Action): nat {
    multiset(s)[a]
  }

  lemma TimesJoin(u: seq<Action>, v: seq<Action>, a: Action)
    ensures Times(u + v, a) == Times(u, a) + Times(v, a)
  {}

  lemma TimesOne(a: Action, b: Action)
    ensures Times([a], b) == (if a == b then 1 else 0) && Times([], b) == 0
  {}

  lemma {:induction false} RunsCount(x: nat, n: nat, a: Action)
    ensures Times(Runs(x, n), a) == if a.DoProgram? && a.line == x && a.run < n then 1 else 0
    decreases n
  {
    hide Times;
    if n > 0 {
      RunsCount(x, n - 1, a);
      TimesJoin(Runs(x, n - 1), [DoProgram(x, n - 1)], a);
      TimesOne(DoProgram(x, n - 1), a);
    } else {
      TimesOne(a, a);
    }
  }

  ghost predicate DeedOf(x: nat, c: Cmd, a: Action) {
    match a
    case DoErase(y) => y == x && c.Erase?
    case DoVendor(y) => y == x && c.Vendor?
    case DoProgram(y, r) => y == x && c.Program? && r < c.Sends()
    case DoPatch(y) => y == x && c.Patch?
    case _ => false
  }

  lemma DeedCount(x: nat, c: Cmd, a: Action)
    ensures Times(Deed(x, c), a) == if DeedOf(x, c, a) then 1 else 0
  {
    hide Times, Runs;
    if c.Program? {
      RunsCount(x, c.Sends(), a);
    } else {
      TimesOne(Deed(x, c)[0], a);
    }
  }

  /** No pass does anything twice. */
  lemma {:induction false} DeedsCount(pass: Pass, table: seq<Cmd>, n: nat, a: Action)
    requires n <= |table|
    ensures Times(Deeds(pass, table, n), a) == if Belongs(pass, table, n, a) then 1 else 0
    decreases n
  {
    hide Times, Deed, Selects;
    TimesOne(a, a);
    if n > 0 {
      DeedsCount(pass, table, n - 1, a);
      DeedCount(n - 1, table[n - 1], a);
      TimesJoin(Deeds(pass, table, n - 1), if Selects(pass, table[n - 1]) then Deed(n - 1, table[n - 1]) else [], a);
    }
  }

  /** The one way a program line is carried out again: on nand, its start sector, which the
      first pass moves behind the image, wraps around to zero. */
  predicate WrapsToZero(c: Cmd)
    requires c.Program? && c.Valid()
  {
    c.start != 0 && c.Sends() > 0 && (c.start + Total(c.jumps, c.runs - 1)) % S.SECTOR_MOD == 0
  }

  /** How often a successful run tries a program command. */
  lemma ProgramCount(table: seq<Cmd>, nand: bool, eraseAll: bool, patches: bool, x: nat, r: nat)
    requires (forall c <- table :: c.Valid()) && x < |table| && table[x].Program? && r < table[x].runs
    ensures Times(Schedule(table, nand, eraseAll, patches), DoProgram(x, r))
         == if !table[x].scanned then 0 else if nand && WrapsToZero(table[x]) then 2 else 1
  {
    hide Deeds, Moved, Times, Schedule, Erasing, LastPass, Ending, MovedTable;
    var n, a := |table|, DoProgram(x, r);
    var before, first, last := Erasing(table, nand, eraseAll), Deeds(Programs(nand), table, n), LastPass(table, nand);
    assert table[x] in table;
    FirstPassCount(table, nand, x, r);
    LastPassCount(table, nand, x, r);
    NoPrograms(table, nand, eraseAll, patches, a);
    ScheduleParts(table, nand, eraseAll, patches);
    TimesJoin(before + first + last, Ending(table, nand, patches), a);
    TimesJoin(before + first, last, a);
    TimesJoin(before, first, a);
  }

  lemma FirstPassCount(table: seq<Cmd>, nand: bool, x: nat, r: nat)
    requires (forall c <- table :: c.Valid()) && x < |table| && table[x].Program? && r < table[x].runs
    ensures Times(Deeds(Programs(nand), table, |table|), DoProgram(x, r))
         == if table[x].scanned && !(nand && table[x].start == 0) then 1 else 0
  {
    hide Deeds, Times;
    DeedsCount(Programs(nand), table, |table|, DoProgram(x, r));
  }

  lemma LastPassCount(table: seq<Cmd>, nand: bool, x: nat, r: nat)
    requires (forall c <- table :: c.Valid()) && x < |table| && table[x].Program? && r < table[x].runs
    ensures Times(LastPass(table, nand), DoProgram(x, r))
         == if nand && table[x].scanned && (table[x].start == 0 || WrapsToZero(table[x])) then 1 else 0
  {
    hide Deeds, Times, Moved;
    assert table[x] in table;
    MovedStart(table[x]);
    TimesOne(DoProgram(x, r), DoProgram(x, r));
    if nand {
      DeedsCount(LastPrograms, MovedTable(table, nand), |table|, DoProgram(x, r));
    }
  }

  lemma NoPrograms(table: seq<Cmd>, nand: bool, eraseAll: bool, patches: bool, a: Action)
    requires a.DoProgram?
    ensures Times(Erasing(table, nand, eraseAll), a) == 0 && Times(Ending(table, nand, patches), a) == 0
  {
    hide Deeds, Times;
    var n := |table|;
    DeedsCount(SectorZeroErases, table, n, a);
    DeedsCount(Vendors, table, n, a);
    DeedsCount(Erases(nand), table, n, a);
    DeedsCount(Patches, table, n, a);
    TimesOne(DoBoot, a);
    TimesOne(DoReset, a);
    var e0 := if nand || eraseAll then Deeds(SectorZeroErases, table, n) else [];
    var e1 := if eraseAll then [] else Deeds(Erases(nand), table, n);
    var p := if patches then Deeds(Patches, table, n) else [];
    var boot := if nand then [] else [DoBoot];
    TimesJoin(e0 + Deeds(Vendors, table, n), e1, a);
    TimesJoin(e0, Deeds(Vendors, table, n), a);
    TimesJoin(p + boot, [DoReset], a);
    TimesJoin(p, boot, a);
  }

  lemma MovedStart(c: Cmd)
    requires c.Program? && c.Valid()
    ensures c.Sends() > 0 ==> Moved(c).start == (c.start + Total(c.jumps, c.runs - 1)) % S.SECTOR_MOD
  {}

  /** Tried exactly once, exactly when the file is scanned and the start sector does not wrap to
      zero. */
  lemma ExactlyOnceIff(table: seq<Cmd>, nand: bool, eraseAll: bool, patches: bool, x: nat, r: nat)
    requires (forall c <- table :: c.Valid()) && x < |table| && table[x].Program? && r < table[x].runs
    ensures Times(Schedule(table, nand, eraseAll, patches), DoProgram(x, r)) == 1
       <==> table[x].scanned && !(nand && WrapsToZero(table[x]))
  {
    ProgramCount(table, nand, eraseAll, patches, x, r);
  }

  // ------------------------------------------------------------- what the device was sent

  /** The commands that went out whole, and those that did not. */
  function Sent(log: seq<Event>, whole: bool): seq<Action> {
    if log == [] then []
    else
      var e := log[|log| - 1];
      Sent(log[..|log| - 1], whole) + if e.Command? && e.sent == whole then [e.action] else []
  }

  /** Every command tried went out or was lost. */
  lemma {:induction false} SentOrLost(log: seq<Event>, a: Action)
    ensures Times(Sent(log, true), a) + Times(Sent(log, false), a) == Times(Actions(log), a)
    decreases |log|
  {
    hide Times;
    if log == [] {
      TimesOne(a, a);
    } else {
      var front, e := log[..|log| - 1], log[|log| - 1];
      SentOrLost(front, a);
      var one := if e.Command? then [e.action] else [];
      TimesJoin(Actions(front), one, a);
      TimesJoin(Sent(front, true), if e.Command? && e.sent then [e.action] else [], a);
      TimesJoin(Sent(front, false), if e.Command? && !e.sent then [e.action] else [], a);
      TimesOne(a, a);
    }
  }

  /** In a run that carried out the schedule, a program command went out exactly once, exactly when
      its file was scanned and as many tries were lost as there were too many: none, or one of two
      when the start sector wraps to zero on nand. */
  lemma SentOnceIff(log: seq<Event>, table: seq<Cmd>, nand: bool, eraseAll: bool, patches: bool, x: nat, r: nat)
    requires (forall c <- table :: c.Valid()) && Actions(log) == Schedule(table, nand, eraseAll, patches)
    requires x < |table| && table[x].Program? && r < table[x].runs
    ensures Times(Sent(log, true), DoProgram(x, r)) == 1 <==>
      && table[x].scanned
      && Times(Sent(log, false), DoProgram(x, r)) == if nand && WrapsToZero(table[x]) then 1 else 0
  {
    hide Times, Sent, Actions, Schedule;
    ProgramCount(table, nand, eraseAll, patches, x, r);
    SentOrLost(log, DoProgram(x, r));
  }

  predicate LinesFine(table: seq<Cmd>, nand: bool)
    requires forall c <- table :: c.Valid()
  {
    forall c <- table :: c.Program? && c.runs > 0 ==> c.scanned && !(nand && WrapsToZero(c))
  }

  /** No program command was lost. */
  ghost predicate NoneLost(log: seq<Event>) {
    forall a :: a in Sent(log, false) ==> !a.DoProgram?
  }

  /** So with every file scanned and nothing that wraps, all program commands went out exactly once,
      exactly when none was lost. */
  lemma AllSentOnceIff(log: seq<Event>, table: seq<Cmd>, nand: bool, eraseAll: bool, patches: bool)
    requires (forall c <- table :: c.Valid()) && Actions(log) == Schedule(table, nand, eraseAll, patches)
    requires LinesFine(table, nand)
    ensures
      (forall x, r :: 0 <= x < |table| && table[x].Program? && 0 <= r < table[x].runs ==>
         Times(Sent(log, true), DoProgram(x, r)) == 1)
      <==> NoneLost(log)
  {
    hide Sent, Actions, Schedule;
    forall x, r | 0 <= x < |table| && table[x].Program? && 0 <= r < table[x].runs
      ensures Times(Sent(log, true), DoProgram(x, r)) == 1 <==> DoProgram(x, r) !in Sent(log, false)
    {
      assert table[x] in table;
      SentOnceIff(log, table, nand, eraseAll, patches, x, r);
    }
    forall a | a in Sent(log, false) && a.DoProgram?
      ensures a.line < |table| && table[a.line].Program? && a.run < table[a.line].runs
    {
      SentOrLost(log, a);
      assert a in Actions(log);
      ScheduleIn(table, nand, eraseAll, patches, a);
    }
  }

  lemma ScheduleIn(table: seq<Cmd>, nand: bool, eraseAll: bool, patches: bool, a: Action)
    requires (forall c <- table :: c.Valid()) && a.DoProgram? && a in Schedule(table, nand, eraseAll, patches)
    ensures a.line < |table| && table[a.line].Program? && a.run < table[a.line].runs
  {
    hide Deeds, Moved;
    var n := |table|;
    DeedsIn(SectorZeroErases, table, n, a);
    DeedsIn(Vendors, table, n, a);
    DeedsIn(Erases(nand), table, n, a);
    DeedsIn(Programs(nand), table, n, a);
    DeedsIn(LastPrograms, MovedTable(table, nand), n, a);
    DeedsIn(Patches, table, n, a);
  }

  /** A line with one command, which is not the program of sector zero. */
  const LINE := Program(8, 1, [], true)

  /** A run over that line that succeeds although its command was lost: the device answers all the
      same. */
  lemma LostUnnoticed(m: nat)
    ensures
      var a := DoProgram(0, 0);
      var log := [Configure(m, true), Answer(Ack, false, 0), Command(a, false), Answer(Ack, true, 0), Stream(a, true),
                  Answer(Ack, false, 0), Command(DoReset, true), Answer(Ack, false, 0)];
      && After(log) == Idle(m) && Actions(log) == Schedule([LINE], true, false, false)
      && Times(Sent(log, true), a) == 0
  {
    hide After, Actions, Sent, Next, Schedule, Times;
    var a := DoProgram(0, 0);
    var ok := Answer(Ack, false, 0);
    var l4 := LostHalf(m, a);
    var l5 := l4 + [Stream(a, true)];
    var l6, l7 := l5 + [ok], l5 + [ok] + [Command(DoReset, true)];
    Snoc(l4, Stream(a, true));
    Snoc(l5, ok);
    Snoc(l6, Command(DoReset, true));
    Snoc(l7, ok);
    SentSnoc(l4, Stream(a, true));
    SentSnoc(l5, ok);
    SentSnoc(l6, Command(DoReset, true));
    SentSnoc(l7, ok);
    LostSteps(m, a);
    LineSchedule();
    TimesOne(DoReset, a);
    assert Sent(l7 + [ok], true) == [DoReset];
    assert l7 + [ok] == [Configure(m, true), ok, Command(a, false), Answer(Ack, true, 0), Stream(a, true), ok,
                         Command(DoReset, true), ok];
  }

  /** Up to the answer that asks for the payload. */
  lemma LostHalf(m: nat, a: Action) returns (log: seq<Event>)
    requires a.DoProgram?
    ensures log == [Configure(m, true), Answer(Ack, false, 0), Command(a, false), Answer(Ack, true, 0)]
    ensures After(log) == RawMode(m, a) && Actions(log) == [a] && Sent(log, true) == []
  {
    hide After, Actions, Sent, Next;
    var c, ok, raw := Configure(m, true), Answer(Ack, false, 0), Answer(Ack, true, 0);
    var l1, l2, l3 := [c], [c] + [ok], [c] + [ok] + [Command(a, false)];
    AfterNil();
    assert [] + [c] == l1;
    Snoc([], c);
    Snoc(l1, ok);
    Snoc(l2, Command(a, false));
    Snoc(l3, raw);
    SentSnoc([], c);
    SentSnoc(l1, ok);
    SentSnoc(l2, Command(a, false));
    SentSnoc(l3, raw);
    LostSteps(m, a);
    log := l3 + [raw];
    assert log == [c, ok, Command(a, false), raw];
  }

  lemma LostSteps(m: nat, a: Action)
    requires a.DoProgram?
    ensures Next(Next(Unconfigured, Configure(m, true)), Answer(Ack, false, 0)) == Idle(m)
    ensures Next(Next(Idle(m), Command(a, false)), Answer(Ack, true, 0)) == RawMode(m, a)
    ensures Next(Next(RawMode(m, a), Stream(a, true)), Answer(Ack, false, 0)) == Idle(m)
    ensures Next(Next(Idle(m), Command(DoReset, true)), Answer(Ack, false, 0)) == Idle(m)
  {}

  lemma LineSchedule()
    ensures Schedule([LINE], true, false, false) == [DoProgram(0, 0)] + [DoReset]
  {
    var t := [LINE];
    var u := MovedTable(t, true);
    assert u[0] == MoveProgram(LINE, true) == LINE by { assert Total([], 0) == 0; }
    assert Deeds(SectorZeroErases, t, 1) == Deeds(SectorZeroErases, t, 0) + [];
    assert Deeds(Vendors, t, 1) == Deeds(Vendors, t, 0) + [];
    assert Deeds(Erases(true), t, 1) == Deeds(Erases(true), t, 0) + [];
    assert Runs(0, 1) == Runs(0, 0) + [DoProgram(0, 0)];
    assert Deeds(Programs(true), t, 1) == Deeds(Programs(true), t, 0) + Runs(0, 1);
    assert Deeds(LastPrograms, u, 1) == Deeds(LastPrograms, u, 0) + [];
  }

  lemma SentSnoc(log: seq<Event>, e: Event)
    ensures Sent(log + [e], true) == Sent(log, true) + if e.Command? && e.sent then [e.action] else []
  {
    assert (log + [e])[..|log|] == log;
  }

  /** Every a stands before every b. */
  ghost predicate Before(s: seq<Action>, a: Action, b: Action) {
    forall i, j :: 0 <= i < |s| && 0 <= j < |s| && s[i] == a && s[j] == b ==> i < j
  }

  lemma BeforeJoin(u: seq<Action>, v: seq<Action>, a: Action, b: Action)
    requires a !in v && b !in u
    ensures Before(u + v, a, b)
  {}

  /** On nand, whatever else is done: erasing sector zero comes before all other erases and
      all programs ... */
  lemma SectorZeroErasedFirst(table: seq<Cmd>, eraseAll: bool, patches: bool, x: nat, b: Action)
    requires (forall c <- table :: c.Valid()) && x < |table| && table[x].Erase? && table[x].start == 0
    requires b.DoProgram? || (b.DoErase? && b.line < |table| && table[b.line].Erase? && table[b.line].start != 0)
    ensures Before(Schedule(table, true, eraseAll, patches), DoErase(x), b)
  {
    hide Deeds, Before, Erasing, LastPass, Ending, MovedTable, Schedule;
    var n, a := |table|, DoErase(x);
    var u, w := Deeds(SectorZeroErases, table, n), Deeds(Vendors, table, n) + (if eraseAll then [] else Deeds(Erases(true), table, n));
    var programs, last, end := Deeds(Programs(true), table, n), LastPass(table, true), Ending(table, true, patches);
    assert Erasing(table, true, eraseAll) == u + w by { ErasingParts(table, eraseAll); }
    ScheduleParts(table, true, eraseAll, patches);
    FourParts(u, w, programs, last, end);
    DeedsIn(SectorZeroErases, table, n, b);
    DeedsIn(Vendors, table, n, a);
    DeedsIn(Erases(true), table, n, a);
    DeedsIn(Programs(true), table, n, a);
    InLastPass(table, true, a);
    InEnding(table, true, patches, a);
    assert a !in w && a !in programs && a !in last && a !in end;
    BeforeJoin(u, w + programs + last + end, a, b);
  }

  lemma FourParts(u: seq<Action>, w: seq<Action>, a: seq<Action>, b: seq<Action>, c: seq<Action>)
    ensures u + w + a + b + c == u + (w + a + b + c)
  {}

  lemma ErasingParts(table: seq<Cmd>, eraseAll: bool)
    ensures
      var n := |table|;
      Erasing(table, true, eraseAll) ==
        Deeds(SectorZeroErases, table, n)
        + (Deeds(Vendors, table, n) + (if eraseAll then [] else Deeds(Erases(true), table, n)))
  {
    hide Deeds;
    var n := |table|;
    SeqAssoc(Deeds(SectorZeroErases, table, n), Deeds(Vendors, table, n),
             if eraseAll then [] else Deeds(Erases(true), table, n));
  }

  lemma InErasing(table: seq<Cmd>, nand: bool, eraseAll: bool, a: Action)
    ensures a in Erasing(table, nand, eraseAll) ==> a.DoErase? || a.DoVendor?
  {
    hide Deeds;
    var n := |table|;
    DeedsIn(SectorZeroErases, table, n, a);
    DeedsIn(Vendors, table, n, a);
    DeedsIn(Erases(nand), table, n, a);
  }

  lemma InLastPass(table: seq<Cmd>, nand: bool, a: Action)
    requires forall c <- table :: c.Valid()
    ensures a in LastPass(table, nand) ==> Belongs(LastPrograms, MovedTable(table, nand), |table|, a)
  {
    hide Deeds, MovedTable;
    DeedsIn(LastPrograms, MovedTable(table, nand), |table|, a);
  }

  lemma InEnding(table: seq<Cmd>, nand: bool, patches: bool, a: Action)
    ensures a in Ending(table, nand, patches) ==> a.DoPatch? || a.DoBoot? || a.DoReset?
  {
    hide Deeds;
    DeedsIn(Patches, table, |table|, a);
  }

  /** ... and programming sector zero comes after every program of another sector that does
      not wrap ... */
  lemma SectorZeroProgrammedLast(table: seq<Cmd>, eraseAll: bool, patches: bool, x: nat, r: nat, b: Action)
    requires (forall c <- table :: c.Valid()) && x < |table| && table[x].Program? && table[x].start == 0
    requires b.DoProgram? && b.line < |table| && table[b.line].Program? && table[b.line].start != 0
    requires !WrapsToZero(table[b.line])
    ensures Before(Schedule(table, true, eraseAll, patches), b, DoProgram(x, r))
  {
    hide Deeds, Before, Moved, Erasing, LastPass, Ending, Schedule;
    var n, a := |table|, DoProgram(x, r);
    var before, programs, last, end :=
      Erasing(table, true, eraseAll), Deeds(Programs(true), table, n), LastPass(table, true), Ending(table, true, patches);
    ScheduleParts(table, true, eraseAll, patches);
    SeqAssoc(before + programs, last, end);
    InErasing(table, true, eraseAll, a);
    DeedsIn(Programs(true), table, n, a);
    assert table[b.line] in table;
    InLastPass(table, true, b);
    InEnding(table, true, patches, b);
    MovedStart(table[b.line]);
    assert b !in last && b !in end && a !in before && a !in programs;
    BeforeJoin(before + programs, last + end, b, a);
  }

  /** ... and every program comes before every patch. */
  lemma PatchesLast(table: seq<Cmd>, nand: bool, eraseAll: bool, patches: bool, a: Action, y: nat)
    requires (forall c <- table :: c.Valid()) && a.DoProgram?
    ensures Before(Schedule(table, nand, eraseAll, patches), a, DoPatch(y))
  {
    hide Deeds, Before, MovedTable, Erasing, LastPass, Ending, Schedule;
    var b := DoPatch(y);
    var before := Erasing(table, nand, eraseAll);
    var programs := Deeds(Programs(nand), table, |table|);
    ScheduleParts(table, nand, eraseAll, patches);
    InErasing(table, nand, eraseAll, b);
    DeedsIn(Programs(nand), table, |table|, b);
    InLastPass(table, nand, b);
    InEnding(table, nand, patches, a);
    assert b !in before && b !in programs && b !in LastPass(table, nand);
    BeforeJoin(before + programs + LastPass(table, nand), Ending(table, nand, patches), a, b);
  }

  // ------------------------------------------------------------- what a kept protocol means

  lemma {:induction false} PrefixKept(log: seq<Event>, n: nat)
    requires After(log) != Broken && n <= |log|
    ensures After(log[..n]) != Broken
    decreases |log|
  {
    if n < |log| {
      PrefixKept(log[..|log| - 1], n);
      assert log[..|log| - 1][..n] == log[..n];
    } else {
      assert log[..n] == log;
    }
  }

  lemma StepAt(log: seq<Event>, i: nat)
    requires i < |log|
    ensures After(log[..i + 1]) == Next(After(log[..i]), log[i])
  {
    assert log[..i + 1] == log[..i] + [log[i]];
    Snoc(log[..i], log[i]);
  }

  /** Payload is streamed only right after the command it belongs to was acknowledged into
      raw mode. */
  lemma StreamOnlyInRawMode(log: seq<Event>, i: nat)
    requires After(log) != Broken && i < |log| && log[i].Stream?
    ensures i >= 2 && log[i - 2].Command? && log[i - 2].action == log[i].action
    ensures log[i - 1].Answer? && log[i - 1].value.Ack? && log[i - 1].rawmode
  {
    hide After;
    PrefixKept(log, i + 1);
    StepAt(log, i);
    assert After(log[..i]).RawMode?;
    assert After([]) == Unconfigured by { AfterNil(); }
    assert i > 0 && log[..0] == [];
    PrefixKept(log, i);
    StepAt(log, i - 1);
    assert After(log[..i - 1]).Asked?;
    assert i > 1;
    PrefixKept(log, i - 1);
    StepAt(log, i - 2);
  }

  lemma AfterNil()
    ensures After([]) == Unconfigured && Actions([]) == [] && Sent([], true) == []
  {}

  /** After a payload nothing is sent before the device has acknowledged out of raw mode. */
  lemma NextCommandWaits(log: seq<Event>, i: nat)
    requires After(log) != Broken && i + 2 < |log| && log[i].Stream?
    ensures log[i].complete && log[i + 1].Answer? && log[i + 1].value.Ack? && !log[i + 1].rawmode
  {
    hide After;
    PrefixKept(log, i + 1);
    PrefixKept(log, i + 2);
    PrefixKept(log, i + 3);
    StepAt(log, i);
    StepAt(log, i + 1);
    StepAt(log, i + 2);
  }

  // ------------------------------------------------------------- sparse lines

  /** The table line of a sparse image. */
  function SparseLine(us: seq<S.Unit>, start: nat, size: nat): Cmd
    requires size > 0
  {
    Program(start, |us|, if us == [] then [] else seq(|us| - 1, i requires 0 <= i < |us| - 1 => Jump(us[i], size)), true)
  }

  function Jump(u: S.Unit, size: nat): nat
    requires size > 0
  {
    CeilDiv(S.Sum(u.run).bytes, size) + 8 * S.Sum(u.Gap()).blocks
  }

  /** Its jumps are those between the commands of the image. */
  lemma {:induction false} PlainStarts(us: seq<S.Unit>, start: nat, offset: nat, size: nat, i: nat)
    requires size > 0 && i < |us|
    ensures S.Commands(us, start, offset, size)[i].start == start + Total(SparseLine(us, start, size).jumps, i)
    decreases i
  {
    hide S.Commands, Jump;
    CommandAt(us, start, offset, size, i);
    if i > 0 {
      var next, o := start + Jump(us[0], size), offset + |I.EncodeChunks(us[0].Chunks())|;
      PlainStarts(us[1..], next, o, size, i - 1);
      TotalShift(SparseLine(us, start, size).jumps, SparseLine(us[1..], next, size).jumps, i - 1);
    }
  }

  /** So the start sectors of the line during the run are those of the commands sent for its image. */
  lemma SparseStarts(us: seq<S.Unit>, start: nat, size: nat, i: nat)
    requires size > 0 && i < |us| && start < S.SECTOR_MOD
    ensures S.SentCommands(us, start, size)[i].start == At(SparseLine(us, start, size), i + 1).start
  {
    hide S.Commands, Jump, S.Wrapped;
    PlainStarts(us, start, I.HEADER_SIZE, size, i);
    S.WrappedAt(S.Commands(us, start, I.HEADER_SIZE, size), i);
  }

  lemma CommandAt(us: seq<S.Unit>, start: nat, offset: nat, size: nat, i: nat)
    requires size > 0 && i < |us|
    ensures var cmds := S.Commands(us, start, offset, size);
            var next, o := start + Jump(us[0], size), offset + |I.EncodeChunks(us[0].Chunks())|;
            cmds[i].start == if i == 0 then start else S.Commands(us[1..], next, o, size)[i - 1].start
  {
    hide S.Sum, S.Streamed, I.EncodeChunks, CeilDiv, S.Commands, S.Flatten;
    S.CommandsCons(us, start, offset, size);
  }

  lemma {:induction false} TotalShift(js: seq<nat>, ks: seq<nat>, n: nat)
    requires n < |js| && n <= |ks| && forall i :: 0 <= i < n ==> ks[i] == js[i + 1]
    ensures Total(js, n + 1) == js[0] + Total(ks, n)
    decreases n
  {
    if n > 0 {
      TotalShift(js, ks, n - 1);
    }
  }

  // ------------------------------------------------------------- an image that wraps

  /** Two raw blocks with a gap of 2^29 - 2 blocks between them, in blocks of eight sectors. */
  function WrapChunks(a: seq<Byte>, b: seq<Byte>): seq<I.Chunk> {
    [I.Raw(1, a), I.DontCare(0x2000_0000 - 2), I.Raw(1, b)]
  }

  lemma WrapSplit(a: seq<Byte>, b: seq<Byte>)
    ensures
      var cs := WrapChunks(a, b);
      S.Split(cs) == [S.Unit([], [cs[0]], [cs[1]]), S.Unit([], [cs[2]], [])]
  {
    var cs := WrapChunks(a, b);
    assert S.GapLen(cs) == 0 && cs[0..] == cs;
    hide S.DataLen, S.GapLen, S.SplitRuns;
    assert cs == [cs[0]] + ([cs[1]] + [cs[2]]);
    W.UnitOne(cs[0], cs[1], [cs[2]]);
    W.UnitLast(cs[2]);
  }

  lemma WrapFormed(a: seq<Byte>, b: seq<Byte>)
    requires |a| == 4096 && |b| == 4096
    ensures I.WellFormed(I.Image(4096, 0x2000_0000, WrapChunks(a, b), 0), 512)
  {}

  lemma WrapJump(c: I.Chunk, g: I.Chunk)
    requires c.Raw? && |c.data| == 4096 && g == I.DontCare(0x2000_0000 - 2)
    ensures Jump(S.Unit([], [c], [g]), 512) == 0x1_0000_0000 - 8
  {
    hide S.Sum;
    W.SumOne(c);
    W.SumOne(g);
    assert [] + [g] == [g];
  }

  lemma WrapLine(a: seq<Byte>, b: seq<Byte>)
    requires |a| == 4096 && |b| == 4096
    ensures
      var line := SparseLine(S.Split(WrapChunks(a, b)), 8, 512);
      line.Valid() && line.runs == 2 && WrapsToZero(line)
  {
    hide S.Split, Jump;
    var cs := WrapChunks(a, b);
    WrapSplit(a, b);
    WrapJump(cs[0], cs[1]);
    var line := SparseLine(S.Split(cs), 8, 512);
    assert Total(line.jumps, 1) == Total(line.jumps, 0) + line.jumps[0];
  }

  lemma WrapLast(a: seq<Byte>, b: seq<Byte>)
    requires |a| == 4096 && |b| == 4096
    ensures M.LastStart(S.Split(WrapChunks(a, b)), 8, 512) == S.SECTOR_MOD
  {
    hide S.Split, S.Sum;
    var cs := WrapChunks(a, b);
    WrapSplit(a, b);
    var us := S.Split(cs);
    assert Jump(us[0], 512) == 0x1_0000_0000 - 8 by { WrapJump(cs[0], cs[1]); }
    hide CeilDiv;
    assert |us| == 2 && |us[1..]| == 1;
  }

  lemma WrapFits(a: seq<Byte>, b: seq<Byte>)
    requires |a| == 4096 && |b| == 4096
    ensures S.Fits(I.Image(4096, 0x2000_0000, WrapChunks(a, b), 0))
  {
    hide S.Split, S.Sum, I.EncodeChunks, I.EncodeHeader;
    var cs := WrapChunks(a, b);
    WrapSplit(a, b);
    S.EncodeLength(cs);
    SumThree(cs[0], cs[1], cs[2]);
  }

  lemma WrapSupported(a: seq<Byte>, b: seq<Byte>)
    ensures T.Supported(I.Image(4096, 0x2000_0000, WrapChunks(a, b), 0), 512)
  {
    hide M.OneRun, T.Fills;
  }

  lemma SumThree(a: I.Chunk, b: I.Chunk, c: I.Chunk)
    ensures S.Sum([a, b, c]) == S.Plus(S.One(a), S.Plus(S.One(b), S.One(c)))
  {
    assert [a, b, c][1..] == [b, c] && [b, c][1..] == [c] && [c][1..] == [];
    assert S.Sum([c]) == S.Plus(S.One(c), S.Sum([]));
    assert S.Sum([b, c]) == S.Plus(S.One(b), S.Sum([c]));
  }

  /** The same image is one the tool supports, but for its second run going to sector zero. */
  lemma WrapNotPreserved(a: seq<Byte>, b: seq<Byte>)
    requires |a| == 4096 && |b| == 4096
    ensures
      var img := I.Image(4096, 0x2000_0000, WrapChunks(a, b), 0);
      && I.WellFormed(img, 512) && S.Fits(img) && T.Supported(img, 512)
      && |S.SentCommands(S.Split(img.chunks), 8, 512)| == 2 && S.SentCommands(S.Split(img.chunks), 8, 512)[1].start == 0
      && !M.Preserves(img, 8, 512)
  {
    hide S.Split, WrapChunks, I.WellFormed, S.Fits, T.Supported, M.Preserves, M.LastStart, S.SentCommands, Jump, WrapsToZero;
    var img := I.Image(4096, 0x2000_0000, WrapChunks(a, b), 0);
    WrapFormed(a, b);
    WrapSupported(a, b);
    WrapFits(a, b);
    WrapLast(a, b);
    T.PreservesIff(img, 8, 512);
    WrapLine(a, b);
    SparseStarts(S.Split(img.chunks), 8, 512, 1);
    var line := SparseLine(S.Split(img.chunks), 8, 512);
    assert WrapsToZero(line) ==> At(line, 2).start == 0 by { WrapZero(line); }
  }

  lemma WrapZero(line: Cmd)
    requires line.Program? && line.Valid() && line.runs == 2 && WrapsToZero(line)
    ensures At(line, 2).start == 0
  {}

  /** A well-formed image at sector 8 whose two commands are each tried twice on nand: after
      the first pass its start sector is 8 + 8 + 8 * (2^29 - 2) = 2^32. */
  lemma WrapsTwice(a: seq<Byte>, b: seq<Byte>, eraseAll: bool, patches: bool, r: nat)
    requires |a| == 4096 && |b| == 4096 && r < 2
    ensures
      var line := SparseLine(S.Split(WrapChunks(a, b)), 8, 512);
      && I.WellFormed(I.Image(4096, 0x2000_0000, WrapChunks(a, b), 0), 512)
      && line.Valid() && WrapsToZero(line)
      && Times(Schedule([line], true, eraseAll, patches), DoProgram(0, r)) == 2
  {
    hide S.Split, Times, Schedule, WrapChunks, I.WellFormed, WrapsToZero;
    WrapFormed(a, b);
    WrapLine(a, b);
    var line := SparseLine(S.Split(WrapChunks(a, b)), 8, 512);
    ProgramCount([line], true, eraseAll, patches, 0, r);
  }
}
