/** What a successful flashing run comes to, line by line: how often every command of the table is
    tried, in which order, and what the device had to answer. */
module FirehoseCounts {
  import opened Arith
  import opened FirehoseRun
  import S = SparseProgram
  import opened Sequences

  // ------------------------------------------------------------- how often

  /** The parts of the schedule. */
  lemma TimesParts(table: seq<Cmd>, nand: bool, eraseAll: bool, patches: bool, a: Action)
    requires forall c <- table :: c.Valid()
    ensures
      Times(Schedule(table, nand, eraseAll, patches), a) ==
        Times(Erasing(table, nand, eraseAll), a) + Times(Deeds(Programs(nand), table, |table|), a)
        + Times(LastPass(table, nand), a) + Times(Ending(table, nand, patches), a)
  {
    hide Deeds, Times, Schedule, Erasing, LastPass, Ending;
    var u, v, w := Erasing(table, nand, eraseAll), Deeds(Programs(nand), table, |table|), LastPass(table, nand);
    ScheduleParts(table, nand, eraseAll, patches);
    TimesJoin(u + v + w, Ending(table, nand, patches), a);
    TimesJoin(u + v, w, a);
    TimesJoin(u, v, a);
  }

  lemma ErasingTimes(table: seq<Cmd>, nand: bool, eraseAll: bool, a: Action)
    ensures
      var n := |table|;
      Times(Erasing(table, nand, eraseAll), a) ==
        (if nand || eraseAll then Times(Deeds(SectorZeroErases, table, n), a) else 0)
        + Times(Deeds(Vendors, table, n), a)
        + (if eraseAll then 0 else Times(Deeds(Erases(nand), table, n), a))
  {
    hide Deeds, Times;
    var n := |table|;
    var u := if nand || eraseAll then Deeds(SectorZeroErases, table, n) else [];
    var w := if eraseAll then [] else Deeds(Erases(nand), table, n);
    TimesOne(a, a);
    TimesJoin(u + Deeds(Vendors, table, n), w, a);
    TimesJoin(u, Deeds(Vendors, table, n), a);
  }

  lemma EndingTimes(table: seq<Cmd>, nand: bool, patches: bool, a: Action)
    ensures
      Times(Ending(table, nand, patches), a) ==
        (if patches then Times(Deeds(Patches, table, |table|), a) else 0)
        + (if !nand && a.DoBoot? then 1 else 0) + (if a.DoReset? then 1 else 0)
  {
    hide Deeds, Times;
    var p := if patches then Deeds(Patches, table, |table|) else [];
    var boot := if nand then [] else [DoBoot];
    TimesOne(a, a);
    TimesOne(DoBoot, a);
    TimesOne(DoReset, a);
    TimesJoin(p + boot, [DoReset], a);
    TimesJoin(p, boot, a);
  }

  lemma LastPassTimes(table: seq<Cmd>, nand: bool, a: Action)
    requires forall c <- table :: c.Valid()
    ensures !a.DoProgram? ==> Times(LastPass(table, nand), a) == 0
  {
    hide Deeds, Times;
    TimesOne(a, a);
    if nand {
      DeedsCount(LastPrograms, MovedTable(table, nand), |table|, a);
    }
  }

  function One(b: bool): nat { if b then 1 else 0 }

  /** Each pass, and each command behind them, counted. */
  lemma CountOf(table: seq<Cmd>, nand: bool, eraseAll: bool, patches: bool, a: Action)
    requires (forall c <- table :: c.Valid()) && !a.DoProgram?
    ensures
      var n := |table|;
      Times(Schedule(table, nand, eraseAll, patches), a) ==
        One((nand || eraseAll) && Belongs(SectorZeroErases, table, n, a)) + One(Belongs(Vendors, table, n, a))
        + One(!eraseAll && Belongs(Erases(nand), table, n, a)) + One(patches && Belongs(Patches, table, n, a))
        + One(!nand && a.DoBoot?) + One(a.DoReset?)
  {
    hide Times, Schedule, Erasing, LastPass, Ending, Deeds;
    var n := |table|;
    TimesParts(table, nand, eraseAll, patches, a);
    ErasingTimes(table, nand, eraseAll, a);
    LastPassTimes(table, nand, a);
    EndingTimes(table, nand, patches, a);
    DeedsCount(SectorZeroErases, table, n, a);
    DeedsCount(Vendors, table, n, a);
    DeedsCount(Erases(nand), table, n, a);
    DeedsCount(Programs(nand), table, n, a);
    DeedsCount(Patches, table, n, a);
  }

  /** An erase line: once before everything if it is for sector zero on nand or when everything is
      erased, and once among the erases unless everything is erased, it has no sector size, or it was
      that one on nand. */
  lemma EraseCount(table: seq<Cmd>, nand: bool, eraseAll: bool, patches: bool, x: nat)
    requires (forall c <- table :: c.Valid()) && x < |table| && table[x].Erase?
    ensures
      var c := table[x];
      Times(Schedule(table, nand, eraseAll, patches), DoErase(x)) ==
        (if c.start == 0 && (nand || eraseAll) then 1 else 0)
        + (if !eraseAll && c.sectorSize != 0 && !(nand && c.start == 0) then 1 else 0)
  {
    hide Times, Schedule;
    CountOf(table, nand, eraseAll, patches, DoErase(x));
  }

  /** A vendor line is tried exactly once. */
  lemma VendorCount(table: seq<Cmd>, nand: bool, eraseAll: bool, patches: bool, x: nat)
    requires (forall c <- table :: c.Valid()) && x < |table| && table[x].Vendor?
    ensures Times(Schedule(table, nand, eraseAll, patches), DoVendor(x)) == 1
  {
    hide Times, Schedule;
    CountOf(table, nand, eraseAll, patches, DoVendor(x));
  }

  /** A patch line is tried once when there are patches to apply, and otherwise never. */
  lemma PatchCount(table: seq<Cmd>, nand: bool, eraseAll: bool, patches: bool, x: nat)
    requires (forall c <- table :: c.Valid()) && x < |table| && table[x].Patch?
    ensures Times(Schedule(table, nand, eraseAll, patches), DoPatch(x)) == if patches then 1 else 0
  {
    hide Times, Schedule;
    CountOf(table, nand, eraseAll, patches, DoPatch(x));
  }

  /** The boot drive is set once unless on nand, and the reset is the last command and the only one. */
  lemma BootAndReset(table: seq<Cmd>, nand: bool, eraseAll: bool, patches: bool)
    requires forall c <- table :: c.Valid()
    ensures
      var s := Schedule(table, nand, eraseAll, patches);
      && Times(s, DoBoot) == (if nand then 0 else 1) && Times(s, DoReset) == 1
      && s != [] && s[|s| - 1] == DoReset && (!nand ==> |s| >= 2 && s[|s| - 2] == DoBoot)
  {
    hide Times, Schedule;
    ResetLast(table, nand, eraseAll, patches);
    CountOf(table, nand, eraseAll, patches, DoBoot);
    CountOf(table, nand, eraseAll, patches, DoReset);
  }

  lemma ResetLast(table: seq<Cmd>, nand: bool, eraseAll: bool, patches: bool)
    requires forall c <- table :: c.Valid()
    ensures
      var s := Schedule(table, nand, eraseAll, patches);
      s != [] && s[|s| - 1] == DoReset && (!nand ==> |s| >= 2 && s[|s| - 2] == DoBoot)
  {
    hide Schedule, Erasing, LastPass, Deeds;
    ScheduleParts(table, nand, eraseAll, patches);
  }

  /** Nothing is tried but what a line of the table asks for, the boot drive and the reset. */
  lemma NothingElse(table: seq<Cmd>, nand: bool, eraseAll: bool, patches: bool, a: Action)
    requires (forall c <- table :: c.Valid()) && a in Schedule(table, nand, eraseAll, patches)
    ensures
      match a
      case DoErase(x) => x < |table| && table[x].Erase?
      case DoVendor(x) => x < |table| && table[x].Vendor?
      case DoProgram(x, r) => x < |table| && table[x].Program? && r < table[x].runs
      case DoPatch(x) => x < |table| && table[x].Patch?
      case DoBoot => !nand
      case DoReset => true
  {
    hide Deeds, Moved;
    var n := |table|;
    DeedsIn(SectorZeroErases, table, n, a);
    DeedsIn(Vendors, table, n, a);
    DeedsIn(Erases(nand), table, n, a);
    DeedsIn(Programs(nand), table, n, a);
    DeedsIn(LastPrograms, MovedTable(table, nand), n, a);
    DeedsIn(Patches, table, n, a);
  }

  // ------------------------------------------------------------- in which order

  predicate Earlier(a: Action, b: Action) {
    match (a, b)
    case (DoErase(x), DoErase(y)) => x < y
    case (DoVendor(x), DoVendor(y)) => x < y
    case (DoProgram(x, r), DoProgram(y, q)) => x < y || (x == y && r < q)
    case (DoPatch(x), DoPatch(y)) => x < y
    case _ => false
  }

  lemma BeforeSnoc(s: seq<Action>, t: seq<Action>, a: Action, b: Action)
    requires Before(s, a, b) && Before(t, a, b) && (b !in s || a !in t)
    ensures Before(s + t, a, b)
  {
    var u := s + t;
    assert (forall k :: 0 <= k < |s| ==> u[k] in s) && forall k :: |s| <= k < |u| ==> u[k] == t[k - |s|] && u[k] in t;
    forall i, j | 0 <= i < |u| && 0 <= j < |u| && u[i] == a && u[j] == b ensures i < j {
      if i < |s| && j < |s| {
        assert s[i] == a && s[j] == b;
      } else if i >= |s| && j >= |s| {
        assert t[i - |s|] == a && t[j - |s|] == b;
      }
    }
  }

  lemma NeverBefore(s: seq<Action>, a: Action, b: Action)
    requires a !in s || b !in s
    ensures Before(s, a, b)
  {
    assert forall i :: 0 <= i < |s| ==> s[i] in s;
  }

  lemma {:induction false} RunsOrder(x: nat, n: nat, a: Action, b: Action)
    requires Earlier(a, b)
    ensures Before(Runs(x, n), a, b)
    decreases n
  {
    hide Before;
    if n == 0 {
      NeverBefore([], a, b);
    } else {
      RunsOrder(x, n - 1, a, b);
      RunsIn(x, n - 1, b);
      NeverBefore([DoProgram(x, n - 1)], a, b);
      BeforeSnoc(Runs(x, n - 1), [DoProgram(x, n - 1)], a, b);
    }
  }

  lemma DeedOrder(x: nat, c: Cmd, a: Action, b: Action)
    requires Earlier(a, b)
    ensures Before(Deed(x, c), a, b)
  {
    hide Before, Runs;
    if c.Program? {
      RunsOrder(x, c.Sends(), a, b);
    } else {
      NeverBefore(Deed(x, c), a, b);
    }
  }

  /** A pass goes through the table from its first line to its last. */
  lemma {:induction false} PassOrder(pass: Pass, table: seq<Cmd>, n: nat, a: Action, b: Action)
    requires n <= |table| && Earlier(a, b)
    ensures Before(Deeds(pass, table, n), a, b)
    decreases n
  {
    hide Before, Deed;
    if n == 0 {
      NeverBefore([], a, b);
    } else {
      PassOrder(pass, table, n - 1, a, b);
      DeedsIn(pass, table, n - 1, b);
      var d := if Selects(pass, table[n - 1]) then Deed(n - 1, table[n - 1]) else [];
      DeedOrder(n - 1, table[n - 1], a, b);
      NeverBefore([], a, b);
      DeedLine(n - 1, table[n - 1], a);
      BeforeSnoc(Deeds(pass, table, n - 1), d, a, b);
    }
  }

  lemma DeedLine(x: nat, c: Cmd, a: Action)
    ensures a in Deed(x, c) ==> !a.DoBoot? && !a.DoReset? && a.line == x
    ensures a in Deed(x, c) && a.DoProgram? ==> c.Program?
  {
    if c.Program? {
      RunsIn(x, c.Sends(), a);
    }
  }

  lemma BeforeAmong(s: seq<Action>, t: seq<Action>, u: seq<Action>, a: Action, b: Action)
    requires Before(t, a, b) && a !in s && b !in s && a !in u && b !in u
    ensures Before(s + t + u, a, b)
  {
    hide Before;
    NeverBefore(s, a, b);
    NeverBefore(u, a, b);
    BeforeSnoc(s, t, a, b);
    BeforeSnoc(s + t, u, a, b);
  }

  /** Erases of other sectors than zero are tried in the order of the table ... */
  lemma ErasesInOrder(table: seq<Cmd>, nand: bool, eraseAll: bool, patches: bool, x: nat, y: nat)
    requires (forall c <- table :: c.Valid()) && x < y < |table| && table[x].Erase? && table[y].Erase?
    requires table[x].start != 0 && table[y].start != 0
    ensures Before(Schedule(table, nand, eraseAll, patches), DoErase(x), DoErase(y))
  {
    hide Deeds, Before, Schedule, LastPass, Ending, MovedTable;
    var a, b, n := DoErase(x), DoErase(y), |table|;
    var u := (if nand || eraseAll then Deeds(SectorZeroErases, table, n) else []) + Deeds(Vendors, table, n);
    var v := if eraseAll then [] else Deeds(Erases(nand), table, n);
    var w := Deeds(Programs(nand), table, n) + LastPass(table, nand) + Ending(table, nand, patches);
    assert Erasing(table, nand, eraseAll) == u + v;
    ScheduleParts(table, nand, eraseAll, patches);
    ThreeParts(u + v, Deeds(Programs(nand), table, n), LastPass(table, nand), Ending(table, nand, patches));
    PassOrder(Erases(nand), table, n, a, b);
    NeverBefore([], a, b);
    OnlyErases(table, nand, patches, a);
    OnlyErases(table, nand, patches, b);
    BeforeAmong(u, v, w, a, b);
  }

  lemma OnlyErases(table: seq<Cmd>, nand: bool, patches: bool, a: Action)
    requires (forall c <- table :: c.Valid()) && a.DoErase? && a.line < |table|
    requires table[a.line].Erase? && table[a.line].start != 0
    ensures
      var n := |table|;
      && a !in Deeds(SectorZeroErases, table, n) && a !in Deeds(Vendors, table, n)
      && a !in Deeds(Programs(nand), table, n) && a !in LastPass(table, nand) && a !in Ending(table, nand, patches)
  {
    hide Deeds, MovedTable, LastPass, Ending;
    var n := |table|;
    DeedsIn(SectorZeroErases, table, n, a);
    DeedsIn(Vendors, table, n, a);
    DeedsIn(Programs(nand), table, n, a);
    InLastPass(table, nand, a);
    InEnding(table, nand, patches, a);
  }

  /** ... and so are the programs of other sectors that do not wrap to zero, and the runs of each. */
  lemma ProgramsInOrder(table: seq<Cmd>, nand: bool, eraseAll: bool, patches: bool, a: Action, b: Action)
    requires (forall c <- table :: c.Valid()) && a.DoProgram? && b.DoProgram? && Earlier(a, b)
    requires a.line < |table| && b.line < |table| && table[a.line].Program? && table[b.line].Program?
    requires nand ==> table[a.line].start != 0 && !WrapsToZero(table[a.line])
    requires nand ==> table[b.line].start != 0 && !WrapsToZero(table[b.line])
    ensures Before(Schedule(table, nand, eraseAll, patches), a, b)
  {
    hide Deeds, Before, Schedule, Erasing, LastPass, Ending, MovedTable, WrapsToZero;
    var n := |table|;
    var u, v := Erasing(table, nand, eraseAll), Deeds(Programs(nand), table, n);
    var w := LastPass(table, nand) + Ending(table, nand, patches);
    ScheduleParts(table, nand, eraseAll, patches);
    SeqAssoc(u + v, LastPass(table, nand), Ending(table, nand, patches));
    PassOrder(Programs(nand), table, n, a, b);
    OnlyFirstPass(table, nand, eraseAll, patches, a);
    OnlyFirstPass(table, nand, eraseAll, patches, b);
    BeforeAmong(u, v, w, a, b);
  }

  lemma OnlyFirstPass(table: seq<Cmd>, nand: bool, eraseAll: bool, patches: bool, a: Action)
    requires (forall c <- table :: c.Valid()) && a.DoProgram? && a.line < |table| && table[a.line].Program?
    requires nand ==> table[a.line].start != 0 && !WrapsToZero(table[a.line])
    ensures a !in Erasing(table, nand, eraseAll) && a !in LastPass(table, nand) && a !in Ending(table, nand, patches)
  {
    hide Deeds, Erasing, Ending, Moved;
    assert table[a.line] in table;
    InErasing(table, nand, eraseAll, a);
    InLastPass(table, nand, a);
    InEnding(table, nand, patches, a);
    MovedStart(table[a.line]);
  }

  /** Every erase and every vendor command comes before every program. */
  lemma ErasesBeforePrograms(table: seq<Cmd>, nand: bool, eraseAll: bool, patches: bool, a: Action, b: Action)
    requires (forall c <- table :: c.Valid()) && (a.DoErase? || a.DoVendor?) && b.DoProgram?
    ensures Before(Schedule(table, nand, eraseAll, patches), a, b)
  {
    hide Deeds, Before, Schedule, Erasing, LastPass, Ending, MovedTable;
    var u, v, w := Erasing(table, nand, eraseAll), Deeds(Programs(nand), table, |table|), LastPass(table, nand);
    ScheduleParts(table, nand, eraseAll, patches);
    ThreeParts(u, v, w, Ending(table, nand, patches));
    InErasing(table, nand, eraseAll, b);
    DeedsIn(Programs(nand), table, |table|, a);
    InLastPass(table, nand, a);
    InEnding(table, nand, patches, a);
    BeforeJoin(u, v + w + Ending(table, nand, patches), a, b);
  }

  // ------------------------------------------------------------- what the device had to answer

  /** What has to follow a command before anything else happens. */
  lemma CommandAcknowledged(log: seq<Event>, i: nat)
    requires After(log) != Broken && i + 2 < |log| && log[i].Command?
    ensures log[i + 1].Answer?
    ensures
      var a := log[i].action;
      && (a.DoErase? || a.DoVendor? || a.DoPatch? ==> log[i + 1].value.Ack?)
      && (a.DoProgram? ==> log[i + 1].value.Ack? && log[i + 1].rawmode && log[i + 2].Stream? && log[i + 2].action == a)
  {
    hide After;
    PrefixKept(log, i + 1);
    PrefixKept(log, i + 2);
    PrefixKept(log, i + 3);
    StepAt(log, i);
    StepAt(log, i + 1);
    StepAt(log, i + 2);
  }

  /** The limit agreed on: the one proposed and acknowledged, or the one offered with a NAK, proposed
      again and acknowledged. */
  predicate Agreed(log: seq<Event>, m: nat) {
    && |log| >= 2 && log[0].Configure? && log[1].Answer?
    && (|| (log[1].value.Ack? && m == log[0].maxPayload)
        || (&& |log| >= 4 && log[1].value.Nak? && log[1].offer == m > 0
            && log[2].Configure? && log[2].maxPayload == m && log[3].Answer? && log[3].value.Ack?))
  }

  predicate Underway(log: seq<Event>, p: Phase) {
    match p
    case Unconfigured => log == []
    case Configuring(m, again) =>
      if again then |log| == 3 && log[0].Configure? && log[1].Answer? && log[1].value.Nak? && log[1].offer == m > 0
                    && log[2].Configure? && log[2].maxPayload == m
      else |log| == 1 && log[0].Configure? && log[0].maxPayload == m
    case Renegotiate(offer) =>
      |log| == 2 && log[0].Configure? && log[1].Answer? && log[1].value.Nak? && log[1].offer == offer > 0
    case Idle(m) => Agreed(log, m)
    case Asked(m, _) => Agreed(log, m)
    case RawMode(m, _) => Agreed(log, m)
    case Closing(m, _) => Agreed(log, m)
    case Stopped => true
    case Broken => true
  }

  lemma UnderwayStep(log: seq<Event>, p: Phase, e: Event)
    requires Underway(log, p)
    ensures Underway(log + [e], Next(p, e))
  {
    var l := log + [e];
    assert forall i :: 0 <= i < |log| ==> l[i] == log[i];
    assert l[|log|] == e;
  }

  /** In every run the limit the tool works with was acknowledged by the device. */
  lemma {:induction false} LimitAgreed(log: seq<Event>)
    ensures Underway(log, After(log))
    decreases |log|
  {
    hide Underway, Next;
    if log == [] {
      NothingSaid();
    } else {
      var l, e := log[..|log| - 1], log[|log| - 1];
      LimitAgreed(l);
      UnderwayStep(l, After(l), e);
      assert log == l + [e];
    }
  }

  lemma NothingSaid()
    ensures Underway([], Unconfigured)
  {}
}
