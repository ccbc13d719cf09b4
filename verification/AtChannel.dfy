/** The AT channel: one issuer of commands and the reader thread share the pending command, and
    every line the modem sends goes to one place. */
module AtChannel {
  import opened AtResponse
  import opened Ctype
  import opened Options

  const FINAL_SUCCESS := ["OK", "+QIND: \"FOTA\",\"END\",0", "CONNECT"]
  const FINAL_ERROR := ["ERROR", "+CMS ERROR:", "+CME ERROR:", "NO CARRIER", "NO ANSWER", "NO DIALTONE",
                        "COMMAND NOT SUPPORT"]
  const SMS_UNSOLICITED := ["+CMT:", "+CDS:", "+CBM:", "+CMTI:"]

  predicate StartsWithAny(line: string, table: seq<string>) {
    exists i :: 0 <= i < |table| && table[i] <= line
  }

  predicate IsSuccess(line: string) { StartsWithAny(line, FINAL_SUCCESS) }
  predicate IsError(line: string) { StartsWithAny(line, FINAL_ERROR) }
  predicate IsSms(line: string) { StartsWithAny(line, SMS_UNSOLICITED) }

  /** strStartsWith */
  method StrStartsWith(line: string, prefix: string) returns (r: bool)
    ensures r <==> prefix <= line
  {
    var i := 0;
    while i < |line| && i < |prefix|
      invariant i <= |line| && i <= |prefix| && prefix[..i] == line[..i]
    {
      if line[i] != prefix[i] { return false; }
      i := i + 1;
    }
    r := i == |prefix|;
  }

  /** The loops of isFinalResponseSuccess, isFinalResponseError and isSMSUnsolicited. */
  method FindPrefix(line: string, table: seq<string>) returns (r: bool)
    ensures r <==> StartsWithAny(line, table)
  {
    for i := 0 to |table|
      invariant forall j :: 0 <= j < i ==> !(table[j] <= line)
    {
      var hit := StrStartsWith(line, table[i]);
      if hit { return true; }
    }
    r := false;
  }

  // ------------------------------------------------------------- the texts themselves

  predicate SaysSuccess(line: string) {
    "OK" <= line || "+QIND: \"FOTA\",\"END\",0" <= line || "CONNECT" <= line
  }

  predicate SaysError(line: string) {
    || "ERROR" <= line || "+CMS ERROR:" <= line || "+CME ERROR:" <= line || "NO CARRIER" <= line
    || "NO ANSWER" <= line || "NO DIALTONE" <= line || "COMMAND NOT SUPPORT" <= line
  }

  /** The first line of a message that has two. */
  predicate AnnouncesSecond(line: string) {
    "+CMT:" <= line || "+CDS:" <= line || "+CBM:" <= line || "+CMTI:" <= line
  }

  lemma SuccessTexts(line: string)
    ensures IsSuccess(line) <==> SaysSuccess(line)
  {
    assert FINAL_SUCCESS[0] == "OK" && FINAL_SUCCESS[1] == "+QIND: \"FOTA\",\"END\",0" && FINAL_SUCCESS[2] == "CONNECT";
  }

  lemma ErrorTexts(line: string)
    ensures IsError(line) <==> SaysError(line)
  {
    var t := FINAL_ERROR;
    assert t[0] == "ERROR" && t[1] == "+CMS ERROR:" && t[2] == "+CME ERROR:" && t[3] == "NO CARRIER";
    assert t[4] == "NO ANSWER" && t[5] == "NO DIALTONE" && t[6] == "COMMAND NOT SUPPORT";
  }

  lemma SmsTexts(line: string)
    ensures IsSms(line) <==> AnnouncesSecond(line)
  {
    var t := SMS_UNSOLICITED;
    assert t[0] == "+CMT:" && t[1] == "+CDS:" && t[2] == "+CBM:" && t[3] == "+CMTI:";
  }

  /** No text is the beginning of another kind. */
  lemma TextsApart(line: string)
    ensures AnnouncesSecond(line) ==> !SaysSuccess(line) && !SaysError(line) && line != "> "
    ensures SaysSuccess(line) ==> !SaysError(line) && line != "> "
    ensures SaysError(line) ==> line != "> "
  {
    hide AnnouncesSecond, SaysSuccess, SaysError;
    AnnouncementHead(line);
    SuccessHead(line);
    ErrorHead(line);
  }

  lemma AnnouncementHead(line: string)
    ensures AnnouncesSecond(line) ==> |line| > 3 && line[0] == '+' && line[1] == 'C' && (line[2] == 'M' ==> line[3] == 'T')
  {}

  lemma SuccessHead(line: string)
    ensures SaysSuccess(line) ==>
      && line != ""
      && (line[0] == 'O' || (|line| > 2 && ((line[0] == '+' && line[1] == 'Q') || (line[0] == 'C' && line[2] == 'N'))))
  {}

  lemma ErrorHead(line: string)
    ensures SaysError(line) ==>
      && line != ""
      && (|| line[0] == 'E' || line[0] == 'N' || (|line| > 2 && line[0] == 'C' && line[2] == 'M')
          || (|line| > 3 && line[0] == '+' && line[1] == 'C' && line[2] == 'M' && line[3] != 'T'))
  {}

  // ------------------------------------------------------------- what a command accepts

  datatype Kind = NoResult | Numeric | SingleLine | MultiLine

  /** A command as its issuer gives it: the PDU for the prompt and the data to follow CONNECT are
      there for the SMS and the raw form. */
  datatype Order = Order(kind: Kind, prefix: string, pdu: Option<string>, raw: Option<string>)

  predicate Accepts(o: Order, line: string) {
    match o.kind
    case NoResult => false
    case Numeric => line != "" && IsDigit(line[0])
    case SingleLine => o.prefix <= line
    case MultiLine => o.prefix <= line
  }

  function Matching(o: Order, lines: seq<string>): (r: seq<string>)
    ensures forall l <- r :: Accepts(o, l) && l in lines
  {
    if lines == [] then []
    else
      var n := |lines| - 1;
      Matching(o, lines[..n]) + if Accepts(o, lines[n]) then [lines[n]] else []
  }

  /** The intermediate responses among the lines offered to a command: those that match, but only
      the first unless the command takes many. */
  function Accepted(o: Order, lines: seq<string>): (r: seq<string>)
    ensures forall l <- r :: Accepts(o, l) && l in lines
    ensures !o.kind.MultiLine? ==> |r| <= 1
  {
    var m := Matching(o, lines);
    if o.kind.MultiLine? || m == [] then m else [m[0]]
  }

  lemma AcceptedNone(o: Order)
    ensures Accepted(o, []) == []
  {}

  lemma AcceptedSnoc(o: Order, lines: seq<string>, line: string)
    ensures
      Accepted(o, lines + [line]) ==
        if Accepts(o, line) && (o.kind.MultiLine? || Accepted(o, lines) == [])
        then Accepted(o, lines) + [line] else Accepted(o, lines)
  {
    assert (lines + [line])[..|lines|] == lines;
  }

  // ------------------------------------------------------------- where a line goes

  datatype Place =
    | Handler(during: Option<nat>)  // unsolicited; the command pending meanwhile
    | Sms                           // header or body of a two-line unsolicited message
    | Intermediate(n: nat)
    | Final(n: nat)
    | Prompt(n: nat)                // answered with the PDU and Ctrl-Z
    | Raw(n: nat)                   // answered with the raw data

  datatype Entry = Entry(line: string, place: Place)

  datatype Query = Unsolicited | Actions | Kept(n: nat) | Finals(n: nat) | Offered(n: nat)

  predicate Hit(q: Query, p: Place) {
    match q
    case Unsolicited => p.Handler? || p.Sms?
    case Actions => p.Prompt? || p.Raw?
    case Kept(n) => p == Intermediate(n)
    case Finals(n) => p == Final(n)
    case Offered(n) => p == Intermediate(n) || p == Handler(Some(n))
  }

  function Select(ledger: seq<Entry>, q: Query): seq<string> {
    if ledger == [] then []
    else
      var n := |ledger| - 1;
      Select(ledger[..n], q) + if Hit(q, ledger[n].place) then [ledger[n].line] else []
  }

  lemma SelectSnoc(ledger: seq<Entry>, e: Entry, q: Query)
    ensures Select(ledger + [e], q) == if Hit(q, e.place) then Select(ledger, q) + [e.line] else Select(ledger, q)
  {
    assert (ledger + [e])[..|ledger|] == ledger;
  }

  function LastOf(s: seq<string>): Option<string> {
    if s == [] then None else Some(s[|s| - 1])
  }

  // ------------------------------------------------------------- steps under the mutex

  /** sp_response, its lines in order of arrival. */
  datatype Command = Command(intermediates: seq<string>, final: Option<string>, success: bool)

  datatype Error = NoError | TimedOut | ChannelClosed

  datatype Result = Result(error: Error, response: Option<Command>)

  /** Bytes written because of a line, for the n-th command. */
  datatype Write = Write(n: nat, data: string, raw: bool)

  datatype Step =
    | Issue(order: Order, writable: bool)  // up to the wait
    | Arrive(line: string)
    | Eof(callback: bool)                  // readline returned NULL
    | Close
    | Wake(wanted: bool)                   // the wait ends with a final response or a closed channel
    | Timeout

  datatype State = State(
    command: Option<Command>,
    pdu: Option<string>,
    raw: Option<string>,
    closed: bool,
    held: Option<string>,
    ended: bool,
    handled: seq<seq<string>>,
    written: seq<Write>,
    orders: seq<Order>,
    results: seq<Result>,
    ledger: seq<Entry>)

  const START := State(None, None, None, false, None, false, [], [], [], [], [])

  predicate Shape(s: State) {
    s.command.Some? ==> s.orders != []
  }

  predicate Enabled(s: State, t: Step) {
    match t
    case Issue(_, _) => s.command.None?
    case Arrive(_) => !s.ended
    case Eof(_) => !s.ended
    case Close => true
    case Wake(_) => s.command.Some? && (s.command.value.final.Some? || s.closed)
    case Timeout => s.command.Some?
  }

  /** Where processLine takes a line. */
  function PlaceOf(s: State, line: string): Place
    requires Shape(s)
  {
    if s.command.None? then Handler(None)
    else
      var n := |s.orders| - 1;
      if s.raw.Some? && line == "CONNECT" then Raw(n)
      else if IsSuccess(line) || IsError(line) then Final(n)
      else if s.pdu.Some? && line == "> " then Prompt(n)
      else if Accepts(s.orders[n], line) && (s.orders[n].kind.MultiLine? || s.command.value.intermediates == [])
        then Intermediate(n)
      else Handler(Some(n))
  }

  function Process(s: State, line: string): (r: State)
    requires Shape(s)
    ensures Shape(r)
  {
    var p := PlaceOf(s, line);
    var t := s.(ledger := s.ledger + [Entry(line, p)]);
    match p
    case Handler(_) => t.(handled := s.handled + [[line]])
    case Sms => t
    case Intermediate(n) =>
      t.(command := Some(s.command.value.(intermediates := s.command.value.intermediates + [line])))
    case Final(n) => t.(command := Some(s.command.value.(final := Some(line), success := IsSuccess(line))))
    case Prompt(n) => t.(written := s.written + [Write(n, s.pdu.value, false)], pdu := None)
    case Raw(n) => t.(written := s.written + [Write(n, s.raw.value, true)], raw := None)
  }

  /** One line out of readline, in the loop of the reader. */
  function Read(s: State, line: string): (r: State)
    requires Shape(s)
    ensures Shape(r)
  {
    if s.held.Some? then
      s.(held := None, handled := s.handled + [[s.held.value, line]], ledger := s.ledger + [Entry(line, Sms)])
    else if IsSms(line) then
      s.(held := Some(line), ledger := s.ledger + [Entry(line, Sms)])
    else Process(s, line)
  }

  function Return(s: State, r: Result): State {
    s.(command := None, pdu := None, results := s.results + [r])
  }

  function Do(s: State, t: Step): (r: State)
    requires Shape(s) && Enabled(s, t)
    ensures Shape(r)
  {
    match t
    case Issue(o, writable) =>
      var raw := if o.raw.Some? then o.raw else s.raw;
      if s.closed || !writable then s.(raw := raw)
      else s.(raw := raw, pdu := o.pdu, command := Some(Command([], None, false)), orders := s.orders + [o])
    case Arrive(line) => Read(s, line)
    case Eof(callback) => s.(ended := true, closed := s.closed || callback)
    case Close => s.(closed := true)
    case Wake(wanted) =>
      Return(s, Result(if s.closed then ChannelClosed else NoError, if wanted then s.command else None))
    case Timeout => Return(s, Result(TimedOut, None))
  }

  /** A step that is not enabled cannot happen and is passed over. */
  function Next(s: State, t: Step): (r: State)
    requires Shape(s)
    ensures Shape(r)
  {
    if Enabled(s, t) then Do(s, t) else s
  }

  /** Any interleaving. */
  function Exec(s: State, run: seq<Step>): (r: State)
    requires Shape(s)
    ensures Shape(r)
    decreases |run|
  {
    if run == [] then s else Exec(Next(s, run[0]), run[1..])
  }

  // ------------------------------------------------------------- invariant

  /** What the lines so far have made of the n-th command. */
  predicate CommandOk(ledger: seq<Entry>, o: Order, n: nat, c: Command) {
    && c.intermediates == Select(ledger, Kept(n)) == Accepted(o, Select(ledger, Offered(n)))
    && c.final == LastOf(Select(ledger, Finals(n)))
    && c.success == (c.final.Some? && IsSuccess(c.final.value))
  }

  predicate Concerns(p: Place, n: nat) {
    p == Intermediate(n) || p == Final(n) || p == Handler(Some(n)) || p == Prompt(n) || p == Raw(n)
  }

  lemma CommandFrame(ledger: seq<Entry>, e: Entry, o: Order, n: nat, c: Command)
    requires CommandOk(ledger, o, n, c) && !Concerns(e.place, n)
    ensures CommandOk(ledger + [e], o, n, c)
  {
    hide Accepted, IsSuccess;
    SelectSnoc(ledger, e, Kept(n));
    SelectSnoc(ledger, e, Offered(n));
    SelectSnoc(ledger, e, Finals(n));
  }

  lemma {:induction false} NothingYet(ledger: seq<Entry>, n: nat)
    requires forall e <- ledger :: !Concerns(e.place, n)
    ensures Select(ledger, Kept(n)) == [] && Select(ledger, Offered(n)) == [] && Select(ledger, Finals(n)) == []
    decreases |ledger|
  {
    if ledger != [] {
      NothingYet(ledger[..|ledger| - 1], n);
    }
  }

  predicate PendingOk(s: State) {
    if s.command.Some? then
      && s.orders != []
      && CommandOk(s.ledger, s.orders[|s.orders| - 1], |s.orders| - 1, s.command.value)
      && (s.pdu.Some? ==> s.pdu == s.orders[|s.orders| - 1].pdu)
      && (s.raw.Some? && s.orders[|s.orders| - 1].raw.Some? ==> s.raw == s.orders[|s.orders| - 1].raw)
    else s.pdu.None?
  }

  predicate ResultOk(s: State, k: nat)
    requires k < |s.results| <= |s.orders|
  {
    var r := s.results[k];
    && (r.response.Some? ==> CommandOk(s.ledger, s.orders[k], k, r.response.value))
    && (r.error.NoError? ==> Select(s.ledger, Finals(k)) != [])
  }

  predicate ResultsOk(s: State) {
    && |s.orders| == |s.results| + (if s.command.Some? then 1 else 0)
    && forall k {:trigger s.results[k]} :: 0 <= k < |s.results| ==> ResultOk(s, k)
  }

  /** No line is filed under a command that has not been issued. */
  ghost predicate LedgerOk(s: State) {
    forall e <- s.ledger, n {:trigger Concerns(e.place, n)} :: n >= |s.orders| ==> !Concerns(e.place, n)
  }

  function Flat(calls: seq<seq<string>>): seq<string> {
    if calls == [] then [] else Flat(calls[..|calls| - 1]) + calls[|calls| - 1]
  }

  lemma FlatSnoc(calls: seq<seq<string>>, c: seq<string>)
    ensures Flat(calls + [c]) == Flat(calls) + c
  {
    assert (calls + [c])[..|calls|] == calls;
  }

  function Held(s: State): seq<string> {
    if s.held.Some? then [s.held.value] else []
  }

  predicate HandledOk(s: State) {
    Flat(s.handled) + Held(s) == Select(s.ledger, Unsolicited)
  }

  /** A prompt is answered with the PDU of the command that waits, CONNECT with its own raw data if
      it has any. */
  predicate WriteOk(s: State, w: Write) {
    && w.n < |s.orders|
    && (!w.raw ==> s.orders[w.n].pdu == Some(w.data))
    && (w.raw && s.orders[w.n].raw.Some? ==> s.orders[w.n].raw == Some(w.data))
  }

  predicate WritesOk(s: State) {
    && |s.written| == |Select(s.ledger, Actions)|
    && forall w <- s.written :: WriteOk(s, w)
  }

  ghost predicate Inv(s: State) {
    PendingOk(s) && ResultsOk(s) && LedgerOk(s) && HandledOk(s) && WritesOk(s)
  }

  // ------------------------------------------------------------- a line

  /** What a line leaves of the parts that only depend on its place. */
  lemma FiledKeepsResults(s: State, e: Entry, t: State)
    requires ResultsOk(s)
    requires forall n :: 0 <= n < |s.results| ==> !Concerns(e.place, n)
    requires t.results == s.results && t.orders == s.orders && t.ledger == s.ledger + [e]
    requires t.command.Some? == s.command.Some?
    ensures ResultsOk(t)
  {
    hide CommandOk;
    forall k | 0 <= k < |t.results| ensures ResultOk(t, k) {
      assert ResultOk(s, k) && !Concerns(e.place, k);
      if s.results[k].response.Some? {
        CommandFrame(s.ledger, e, s.orders[k], k, s.results[k].response.value);
      }
      SelectSnoc(s.ledger, e, Finals(k));
    }
  }

  function After(c: Command, e: Entry): Command {
    match e.place
    case Intermediate(_) => c.(intermediates := c.intermediates + [e.line])
    case Final(_) => c.(final := Some(e.line), success := IsSuccess(e.line))
    case _ => c
  }

  /** An intermediate line is one the command accepts, an unsolicited one is not. */
  lemma CommandStep(ledger: seq<Entry>, e: Entry, o: Order, n: nat, c: Command)
    requires CommandOk(ledger, o, n, c) && Concerns(e.place, n)
    requires e.place.Intermediate? ==> Accepts(o, e.line) && (o.kind.MultiLine? || c.intermediates == [])
    requires e.place.Handler? ==> !(Accepts(o, e.line) && (o.kind.MultiLine? || c.intermediates == []))
    ensures CommandOk(ledger + [e], o, n, After(c, e))
  {
    hide Select, Accepted, Accepts, IsSuccess;
    SelectSnoc(ledger, e, Kept(n));
    SelectSnoc(ledger, e, Offered(n));
    SelectSnoc(ledger, e, Finals(n));
    AcceptedSnoc(o, Select(ledger, Offered(n)), e.line);
  }

  lemma ProcessPending(s: State, line: string)
    requires PendingOk(s)
    ensures PendingOk(Process(s, line))
  {
    hide CommandOk, Accepts, IsSuccess, IsError;
    if s.command.Some? {
      var n := |s.orders| - 1;
      CommandStep(s.ledger, Entry(line, PlaceOf(s, line)), s.orders[n], n, s.command.value);
    }
  }

  lemma ProcessFiles(s: State, line: string)
    requires Inv(s)
    ensures LedgerOk(Process(s, line)) && ResultsOk(Process(s, line))
  {
    hide Select, Accepted, IsSuccess, IsError, CommandOk, HandledOk, WritesOk, Process, PlaceOf, Concerns, ResultOk;
    var e := Entry(line, PlaceOf(s, line));
    forall n: nat ensures Concerns(e.place, n) ==> n == |s.orders| - 1 && s.command.Some? {
      PlaceConcerns(s, line, n);
    }
    ProcessRecord(s, line);
    FiledKeepsResults(s, e, Process(s, line));
  }

  /** A line concerns no command but the pending one. */
  lemma PlaceConcerns(s: State, line: string, n: nat)
    requires Shape(s)
    ensures Concerns(PlaceOf(s, line), n) ==> n == |s.orders| - 1 && s.command.Some?
  {
    hide Accepts, IsSuccess, IsError;
  }

  lemma ProcessRecord(s: State, line: string)
    requires Shape(s)
    ensures
      var t := Process(s, line);
      && t.ledger == s.ledger + [Entry(line, PlaceOf(s, line))] && t.orders == s.orders && t.results == s.results
      && t.command.Some? == s.command.Some?
  {
    hide Accepts, IsSuccess, IsError;
  }

  lemma ProcessHandles(s: State, line: string)
    requires HandledOk(s) && Shape(s) && s.held.None?
    ensures HandledOk(Process(s, line))
  {
    hide Accepts, IsSuccess, IsError, Select, Flat;
    var e := Entry(line, PlaceOf(s, line));
    SelectSnoc(s.ledger, e, Unsolicited);
    FlatSnoc(s.handled, [line]);
  }

  lemma ProcessWrites(s: State, line: string)
    requires PendingOk(s) && WritesOk(s)
    ensures WritesOk(Process(s, line))
  {
    hide Accepts, IsSuccess, IsError, Select, CommandOk;
    var e := Entry(line, PlaceOf(s, line));
    SelectSnoc(s.ledger, e, Actions);
    var t := Process(s, line);
    forall w | w in t.written ensures WriteOk(t, w) {
      if w in s.written {
        assert WriteOk(s, w);
      }
    }
  }

  lemma ProcessKeeps(s: State, line: string)
    requires Inv(s) && s.held.None?
    ensures Inv(Process(s, line))
  {
    hide Process, PendingOk, ResultsOk, LedgerOk, HandledOk, WritesOk;
    assert Shape(s) by { PendingShape(s); }
    ProcessPending(s, line);
    ProcessFiles(s, line);
    ProcessHandles(s, line);
    ProcessWrites(s, line);
  }

  lemma PendingShape(s: State)
    requires PendingOk(s)
    ensures Shape(s)
  {}

  /** Both lines of an unsolicited message pass every command by. */
  lemma SmsKeeps(s: State, line: string, t: State)
    requires Inv(s) && (s.held.Some? || IsSms(line)) && t == Read(s, line)
    ensures Inv(t)
  {
    hide CommandOk, Select, Flat, IsSms, IsSuccess;
    var e := Entry(line, Sms);
    assert forall n :: !Concerns(e.place, n);
    FiledKeepsResults(s, e, t);
    if s.command.Some? {
      CommandFrame(s.ledger, e, s.orders[|s.orders| - 1], |s.orders| - 1, s.command.value);
    }
    SelectSnoc(s.ledger, e, Unsolicited);
    SelectSnoc(s.ledger, e, Actions);
    if s.held.Some? {
      FlatSnoc(s.handled, [s.held.value, line]);
      assert Flat(s.handled) + [s.held.value] + [line] == Flat(s.handled) + [s.held.value, line];
    }
    assert forall w <- t.written :: WriteOk(s, w) ==> WriteOk(t, w);
  }

  lemma IssueKeeps(s: State, o: Order, writable: bool)
    requires Inv(s) && s.command.None?
    ensures Inv(Do(s, Issue(o, writable)))
  {
    hide Select, Flat, IsSuccess, Accepted;
    var t := Do(s, Issue(o, writable));
    var n := |s.orders|;
    NothingYet(s.ledger, n);
    AcceptedNone(o);
    assert ResultsOk(t) by {
      hide CommandOk;
      forall k | 0 <= k < |t.results| ensures ResultOk(t, k) {
        assert ResultOk(s, k);
      }
    }
    assert forall w <- t.written :: WriteOk(s, w) ==> WriteOk(t, w);
  }

  lemma ReturnKeeps(s: State, r: Result)
    requires Inv(s) && s.command.Some?
    requires r.response.Some? ==> r.response == s.command
    requires r.error.NoError? ==> s.command.value.final.Some?
    ensures Inv(Return(s, r))
  {
    hide Select, Flat, IsSuccess, Accepted;
    var t := Return(s, r);
    forall k | 0 <= k < |t.results| ensures ResultOk(t, k) {
      if k < |s.results| {
        assert ResultOk(s, k);
      }
    }
    assert forall w <- t.written :: WriteOk(s, w) ==> WriteOk(t, w);
  }

  lemma StepKeeps(s: State, t: Step)
    requires Inv(s) && Enabled(s, t)
    ensures Shape(s) && Inv(Do(s, t))
  {
    PendingShape(s);
    match t
    case Issue(o, writable) => IssueKeeps(s, o, writable);
    case Arrive(line) =>
      if s.held.Some? || IsSms(line) {
        SmsKeeps(s, line, Read(s, line));
      } else {
        ProcessKeeps(s, line);
      }
    case Eof(_) => ClosedKeeps(s, Do(s, t));
    case Close => ClosedKeeps(s, Do(s, t));
    case Wake(wanted) =>
      ReturnKeeps(s, Result(if s.closed then ChannelClosed else NoError, if wanted then s.command else None));
    case Timeout => ReturnKeeps(s, Result(TimedOut, None));
  }

  lemma ClosedKeeps(s: State, t: State)
    requires Inv(s) && t == s.(ended := t.ended, closed := t.closed)
    ensures Inv(t)
  {
    hide CommandOk, Select, Flat;
    forall k | 0 <= k < |t.results| ensures ResultOk(t, k) {
      assert ResultOk(s, k);
    }
    assert forall w <- t.written :: WriteOk(s, w) ==> WriteOk(t, w);
  }

  lemma {:induction false} RunKeeps(s: State, run: seq<Step>)
    requires Inv(s) && Shape(s)
    ensures Inv(Exec(s, run))
    decreases |run|
  {
    hide Inv, Do, Enabled;
    if run != [] {
      if Enabled(s, run[0]) {
        StepKeeps(s, run[0]);
      }
      RunKeeps(Next(s, run[0]), run[1..]);
    }
  }

  // ------------------------------------------------------------- main results

  function Lines(ledger: seq<Entry>): (r: seq<string>)
    ensures |r| == |ledger|
  {
    if ledger == [] then [] else Lines(ledger[..|ledger| - 1]) + [ledger[|ledger| - 1].line]
  }

  /** The lines readline delivers in a run; none is delivered after the end of the stream. */
  function Arrived(run: seq<Step>): seq<string> {
    if run == [] then []
    else match run[0]
      case Arrive(line) => [line] + Arrived(run[1..])
      case Eof(_) => []
      case _ => Arrived(run[1..])
  }

  lemma LinesSnoc(ledger: seq<Entry>, e: Entry)
    ensures Lines(ledger + [e]) == Lines(ledger) + [e.line]
  {
    assert (ledger + [e])[..|ledger|] == ledger;
  }

  lemma ReadFiles(s: State, line: string)
    requires Shape(s)
    ensures Lines(Read(s, line).ledger) == Lines(s.ledger) + [line] && Read(s, line).ended == s.ended
  {
    hide PlaceOf, IsSms, Lines;
    LinesSnoc(s.ledger, Entry(line, Sms));
    LinesSnoc(s.ledger, Entry(line, PlaceOf(s, line)));
  }

  lemma NextFiles(s: State, t: Step)
    requires Shape(s)
    ensures Next(s, t).ended == (s.ended || t.Eof?)
    ensures Lines(Next(s, t).ledger) == if t.Arrive? && !s.ended then Lines(s.ledger) + [t.line] else Lines(s.ledger)
  {
    hide Lines, Read;
    if t.Arrive? {
      ReadFiles(s, t.line);
    }
  }

  lemma {:induction false} RunFiles(s: State, run: seq<Step>)
    requires Shape(s)
    ensures Lines(Exec(s, run).ledger) == Lines(s.ledger) + if s.ended then [] else Arrived(run)
    decreases |run|
  {
    hide Next, Lines;
    if run != [] {
      NextFiles(s, run[0]);
      RunFiles(Next(s, run[0]), run[1..]);
      assert !s.ended && run[0].Arrive? ==>
        Lines(s.ledger) + [run[0].line] + Arrived(run[1..]) == Lines(s.ledger) + ([run[0].line] + Arrived(run[1..]));
    }
  }

  /** Each line that arrives is filed once, in order; what is filed as unsolicited is what the
      handler saw, except a message header with no second line; and every write is owed to a
      prompt or CONNECT line. */
  lemma LinesConserved(run: seq<Step>)
    ensures
      var s := Exec(START, run);
      && Lines(s.ledger) == Arrived(run)
      && Select(s.ledger, Unsolicited) == Flat(s.handled) + Held(s)
      && |Select(s.ledger, Actions)| == |s.written|
  {
    hide Exec;
    StartOk();
    RunKeeps(START, run);
    RunFiles(START, run);
  }

  lemma StartOk()
    ensures Inv(START) && Lines(START.ledger) == [] && !START.ended
  {}

  /** Every response handed out consists of the lines its command accepts among those offered to
      it, in order of arrival, and of the last final response, with which the flag agrees. */
  lemma ResponsesRight(run: seq<Step>, k: nat)
    requires k < |Exec(START, run).results|
    ensures
      var s := Exec(START, run);
      && k < |s.orders|
      && (s.results[k].response.Some? ==>
            var c := s.results[k].response.value;
            && c.intermediates == Select(s.ledger, Kept(k)) == Accepted(s.orders[k], Select(s.ledger, Offered(k)))
            && c.final == LastOf(Select(s.ledger, Finals(k)))
            && (c.success <==> c.final.Some? && SaysSuccess(c.final.value))
            && (c.final.Some? && !c.success ==> SaysError(c.final.value))
            && (!s.orders[k].kind.MultiLine? ==> |c.intermediates| <= 1)
            && forall l <- c.intermediates ::
                 match s.orders[k].kind
                 case NoResult => false
                 case Numeric => l != "" && '0' <= l[0] <= '9'
                 case SingleLine => s.orders[k].prefix <= l
                 case MultiLine => s.orders[k].prefix <= l)
      && (s.results[k].error.NoError? ==> Select(s.ledger, Finals(k)) != [])
  {
    hide Exec, Select, Accepted, IsSuccess, SaysSuccess, SaysError;
    StartOk();
    RunKeeps(START, run);
    var s := Exec(START, run);
    assert ResultOk(s, k);
    if s.results[k].response.Some? {
      var c := s.results[k].response.value;
      if c.final.Some? {
        SuccessTexts(c.final.value);
        FinalSaid(run, k, c.final.value);
      }
    }
  }

  // ------------------------------------------------------------- every line filed

  /** A line is filed as final only for one of the ten texts, as answered only for a prompt or CONNECT. */
  predicate FiledRight(e: Entry) {
    match e.place
    case Final(_) => SaysSuccess(e.line) || SaysError(e.line)
    case Prompt(_) => e.line == "> "
    case Raw(_) => e.line == "CONNECT"
    case _ => true
  }

  ghost predicate AllFiled(s: State) { forall e <- s.ledger :: FiledRight(e) }

  lemma FiledStep(s: State, t: Step)
    requires Shape(s) && AllFiled(s)
    ensures AllFiled(Next(s, t))
  {
    hide SaysSuccess, SaysError, IsSuccess, IsError, IsSms, Accepts;
    if t.Arrive? {
      SuccessTexts(t.line);
      ErrorTexts(t.line);
    }
  }

  lemma {:induction false} RunFiled(s: State, run: seq<Step>)
    requires Shape(s) && AllFiled(s)
    ensures AllFiled(Exec(s, run))
    decreases |run|
  {
    hide Next, AllFiled;
    if run != [] {
      FiledStep(s, run[0]);
      RunFiled(Next(s, run[0]), run[1..]);
    }
  }

  lemma {:induction false} SelectedFrom(ledger: seq<Entry>, n: nat, line: string)
    requires line in Select(ledger, Finals(n))
    ensures exists e <- ledger :: e.line == line && e.place == Final(n)
    decreases |ledger|
  {
    if ledger != [] {
      var l, e := ledger[..|ledger| - 1], ledger[|ledger| - 1];
      if line in Select(l, Finals(n)) {
        SelectedFrom(l, n, line);
      } else {
        assert e in ledger;
      }
    }
  }

  /** Every line kept as a final response begins with one of the ten texts. */
  lemma FinalSaid(run: seq<Step>, n: nat, line: string)
    requires line in Select(Exec(START, run).ledger, Finals(n))
    ensures SaysSuccess(line) || SaysError(line)
  {
    hide Exec, Select, SaysSuccess, SaysError;
    RunFiled(START, run);
    SelectedFrom(Exec(START, run).ledger, n, line);
  }

  // ------------------------------------------------------------- where each line goes

  /** A line of two is held ... */
  lemma AnnouncementHeld(s: State, line: string)
    requires Shape(s) && !s.ended && s.held.None? && AnnouncesSecond(line)
    ensures Next(s, Arrive(line)) == s.(held := Some(line), ledger := s.ledger + [Entry(line, Sms)])
  {
    hide AnnouncesSecond, IsSms, Process;
    SmsTexts(line);
  }

  /** ... until the second, whatever that says, and both go to the handler together. */
  lemma SecondLinePaired(s: State, line: string)
    requires Shape(s) && !s.ended && s.held.Some?
    ensures Next(s, Arrive(line)) ==
      s.(held := None, handled := s.handled + [[s.held.value, line]], ledger := s.ledger + [Entry(line, Sms)])
  {
    hide IsSms, Process;
  }

  /** Without a command every other line goes to the handler. */
  lemma UnsolicitedHandled(s: State, line: string)
    requires Shape(s) && !s.ended && s.held.None? && s.command.None? && !AnnouncesSecond(line)
    ensures Next(s, Arrive(line)) ==
      s.(handled := s.handled + [[line]], ledger := s.ledger + [Entry(line, Handler(None))])
  {
    hide AnnouncesSecond, IsSms;
    SmsTexts(line);
  }

  /** CONNECT is answered with the data that wait ... */
  lemma ConnectAnswered(s: State)
    requires Shape(s) && !s.ended && s.held.None? && s.command.Some? && s.raw.Some?
    ensures
      var n := |s.orders| - 1;
      Next(s, Arrive("CONNECT")) ==
        s.(raw := None, written := s.written + [Write(n, s.raw.value, true)], ledger := s.ledger + [Entry("CONNECT", Raw(n))])
  {
    hide AnnouncesSecond, IsSms, SaysSuccess, SaysError;
    SmsTexts("CONNECT");
    NotAnnounced("CONNECT");
  }

  lemma NotAnnounced(line: string)
    requires line == "" || line[0] != '+'
    ensures !AnnouncesSecond(line)
  {}

  /** ... every other line with one of the ten texts ends the command, well or not ... */
  lemma FinalTaken(s: State, line: string)
    requires Shape(s) && !s.ended && s.held.None? && s.command.Some? && (SaysSuccess(line) || SaysError(line))
    requires s.raw.None? || line != "CONNECT"
    ensures
      var n := |s.orders| - 1;
      Next(s, Arrive(line)) ==
        s.(command := Some(s.command.value.(final := Some(line), success := SaysSuccess(line))),
           ledger := s.ledger + [Entry(line, Final(n))])
  {
    hide AnnouncesSecond, IsSms, SaysSuccess, SaysError, IsSuccess, IsError, Accepts;
    SmsTexts(line);
    SuccessTexts(line);
    ErrorTexts(line);
    TextsApart(line);
  }

  /** ... a prompt is answered with the PDU that waits ... */
  lemma PromptAnswered(s: State)
    requires Shape(s) && !s.ended && s.held.None? && s.command.Some? && s.pdu.Some?
    ensures
      var n := |s.orders| - 1;
      Next(s, Arrive("> ")) ==
        s.(pdu := None, written := s.written + [Write(n, s.pdu.value, false)], ledger := s.ledger + [Entry("> ", Prompt(n))])
  {
    hide AnnouncesSecond, IsSms, SaysSuccess, SaysError, IsSuccess, IsError;
    SmsTexts("> ");
    SuccessTexts("> ");
    ErrorTexts("> ");
    TextsApart("> ");
  }

  /** ... and what is left is kept if the command takes such lines, and otherwise goes to the handler. */
  lemma OtherLine(s: State, line: string)
    requires Shape(s) && !s.ended && s.held.None? && s.command.Some?
    requires !AnnouncesSecond(line) && !SaysSuccess(line) && !SaysError(line) && (s.pdu.None? || line != "> ")
    ensures
      var n := |s.orders| - 1;
      var o, c := s.orders[n], s.command.value;
      var kept :=
        match o.kind
        case NoResult => false
        case Numeric => c.intermediates == [] && line != "" && '0' <= line[0] <= '9'
        case SingleLine => c.intermediates == [] && o.prefix <= line
        case MultiLine => o.prefix <= line;
      Next(s, Arrive(line)) ==
        if kept then s.(command := Some(c.(intermediates := c.intermediates + [line])),
                        ledger := s.ledger + [Entry(line, Intermediate(n))])
        else s.(handled := s.handled + [[line]], ledger := s.ledger + [Entry(line, Handler(Some(n)))])
  {
    hide AnnouncesSecond, IsSms, SaysSuccess, SaysError, IsSuccess, IsError;
    SmsTexts(line);
    SuccessTexts(line);
    ErrorTexts(line);
    ConnectSays();
  }

  // ------------------------------------------------------------- how a call ends

  /** The issuer gets away once there is a final response or the channel is closed, and not before ... */
  lemma Returns(s: State, wanted: bool)
    requires Shape(s) && s.command.Some?
    ensures
      var c, t := s.command.value, Next(s, Wake(wanted));
      if c.final.Some? || s.closed then
        && t.command == None && t.pdu == None && t.raw == s.raw && |t.results| == |s.results| + 1
        && t.results[..|s.results|] == s.results
        && t.results[|s.results|].error == (if s.closed then ChannelClosed else NoError)
        && t.results[|s.results|].response == if wanted then Some(c) else None
      else t == s
  {}

  predicate ClosedAt(run: seq<Step>, ended: bool, i: nat) {
    && i < |run|
    && (|| run[i].Close?
        || (run[i].Eof? && run[i].callback && !ended && forall j: nat :: j < i ==> !run[j].Eof?))
  }

  /** ... and the channel is closed exactly by a close, or by the first end of the stream if the callback
      was set then; it stays closed. */
  lemma ClosedIff(run: seq<Step>)
    ensures Exec(START, run).closed <==> exists i: nat :: ClosedAt(run, false, i)
  {
    hide ClosedAt, Exec;
    ClosedFrom(START, run);
  }

  lemma {:induction false} ClosedFrom(s: State, run: seq<Step>)
    requires Shape(s)
    ensures Exec(s, run).closed <==> s.closed || exists i: nat :: ClosedAt(run, s.ended, i)
    decreases |run|
  {
    if run == [] {
      assert forall i: nat :: !ClosedAt(run, s.ended, i);
    } else {
      var t, ended := Next(s, run[0]), s.ended || run[0].Eof?;
      StepClosed(s, run[0]);
      hide Next;
      ClosedFrom(t, run[1..]);
      hide Exec;
      forall i: nat ensures ClosedAt(run, s.ended, i + 1) <==> ClosedAt(run[1..], ended, i) {
        ClosedLater(run, s.ended, i);
      }
      hide ClosedAt;
      ClosedSplit(run, s.ended, ended);
    }
  }

  lemma ClosedSplit(run: seq<Step>, ended: bool, later: bool)
    requires run != [] && forall i: nat :: ClosedAt(run, ended, i + 1) <==> ClosedAt(run[1..], later, i)
    ensures (exists i: nat :: ClosedAt(run, ended, i))
       <==> run[0].Close? || (run[0].Eof? && run[0].callback && !ended) || exists i: nat :: ClosedAt(run[1..], later, i)
  {
    assert ClosedAt(run, ended, 0) <==> run[0].Close? || (run[0].Eof? && run[0].callback && !ended);
    hide ClosedAt;
    if i: nat :| ClosedAt(run, ended, i) {
      if i > 0 {
        assert ClosedAt(run, ended, (i - 1) + 1);
        assert ClosedAt(run[1..], later, i - 1);
      }
    }
    if i: nat :| ClosedAt(run[1..], later, i) {
      assert ClosedAt(run, ended, i + 1);
    }
  }

  lemma ClosedLater(run: seq<Step>, ended: bool, i: nat)
    requires run != []
    ensures ClosedAt(run, ended, i + 1) <==> ClosedAt(run[1..], ended || run[0].Eof?, i)
  {
    var rest := run[1..];
    if i < |rest| {
      assert run[i + 1] == rest[i];
      assert forall j: nat :: j < i ==> rest[j] == run[j + 1];
      if forall j: nat :: j < i + 1 ==> !run[j].Eof? {
        assert !run[0].Eof?;
      } else if !run[0].Eof? {
        var j: nat :| j < i + 1 && run[j].Eof?;
        assert rest[j - 1] == run[j];
      }
    }
  }

  lemma StepClosed(s: State, t: Step)
    requires Shape(s)
    ensures Next(s, t).ended == (s.ended || t.Eof?)
    ensures Next(s, t).closed <==> s.closed || t.Close? || (t.Eof? && t.callback && !s.ended)
  {
    hide IsSuccess, IsError, IsSms, Accepts;
  }

  lemma ConnectSays()
    ensures SaysSuccess("CONNECT")
  {}

  /** The lines filed under the first n commands, also those that no response shows in the end. */
  function Stored(ledger: seq<Entry>, n: nat): nat {
    if n == 0 then 0
    else Stored(ledger, n - 1) + |Select(ledger, Kept(n - 1))| + |Select(ledger, Finals(n - 1))|
  }

  lemma {:induction false} StoredSnoc(ledger: seq<Entry>, e: Entry, n: nat)
    ensures
      Stored(ledger + [e], n) ==
        Stored(ledger, n) + if (e.place.Intermediate? || e.place.Final?) && e.place.n < n then 1 else 0
    decreases n
  {
    hide Select;
    if n > 0 {
      StoredSnoc(ledger, e, n - 1);
      SelectSnoc(ledger, e, Kept(n - 1));
      SelectSnoc(ledger, e, Finals(n - 1));
    }
  }

  lemma {:induction false} NothingStored(n: nat)
    ensures Stored([], n) == 0
  {
    if n > 0 {
      NothingStored(n - 1);
    }
  }

  lemma {:induction false} EachOnce(ledger: seq<Entry>, n: nat)
    requires forall e <- ledger, k {:trigger Concerns(e.place, k)} :: k >= n ==> !Concerns(e.place, k)
    ensures |ledger| == |Select(ledger, Unsolicited)| + |Select(ledger, Actions)| + Stored(ledger, n)
    decreases |ledger|
  {
    if ledger == [] {
      NothingStored(n);
    } else {
      var l, e := ledger[..|ledger| - 1], ledger[|ledger| - 1];
      assert ledger == l + [e];
      EachOnce(l, n);
      hide Select, Stored;
      StoredSnoc(l, e, n);
      SelectSnoc(l, e, Unsolicited);
      SelectSnoc(l, e, Actions);
      if e.place.Intermediate? || e.place.Final? {
        assert Concerns(e.place, e.place.n);
      }
    }
  }

  /** Each line is filed in exactly one place: the lines that arrived are as many as those the handler
      saw, the header still held, the writes, and the lines filed under all commands together. */
  lemma LinesCounted(run: seq<Step>)
    ensures
      var s := Exec(START, run);
      |Arrived(run)| == |Flat(s.handled)| + |Held(s)| + |s.written| + Stored(s.ledger, |s.orders|)
  {
    hide Exec, Select, Stored, Flat, Held;
    StartOk();
    RunKeeps(START, run);
    LinesConserved(run);
    EachOnce(Exec(START, run).ledger, |Exec(START, run).orders|);
  }

  /** The response of the k-th command: the one its issuer got, or the one being filled. */
  function ResponseOf(s: State, k: nat): Option<Command>
    requires |s.orders| == |s.results| + (if s.command.Some? then 1 else 0) && k < |s.orders|
  {
    if k < |s.results| then s.results[k].response else s.command
  }

  function InHand(c: Option<Command>): nat {
    if c.None? then 0 else |c.value.intermediates| + if c.value.final.Some? then 1 else 0
  }

  /** The lines the responses of the first n commands show. */
  function Shown(s: State, n: nat): nat
    requires |s.orders| == |s.results| + (if s.command.Some? then 1 else 0) && n <= |s.orders|
  {
    if n == 0 then 0 else Shown(s, n - 1) + InHand(ResponseOf(s, n - 1))
  }

  /** At most one final response came before the issuer woke, and nothing at all for a command that
      timed out or whose issuer wanted no response. */
  predicate NoneLost(s: State, k: nat)
    requires |s.orders| == |s.results| + (if s.command.Some? then 1 else 0) && k < |s.orders|
  {
    if ResponseOf(s, k).Some? then |Select(s.ledger, Finals(k))| <= 1
    else Select(s.ledger, Finals(k)) == [] && Select(s.ledger, Kept(k)) == []
  }

  lemma ShownOne(s: State, k: nat)
    requires PendingOk(s) && ResultsOk(s) && k < |s.orders|
    ensures InHand(ResponseOf(s, k)) <= |Select(s.ledger, Kept(k))| + |Select(s.ledger, Finals(k))|
    ensures InHand(ResponseOf(s, k)) == |Select(s.ledger, Kept(k))| + |Select(s.ledger, Finals(k))| <==> NoneLost(s, k)
  {
    hide Select, Accepted, IsSuccess;
    assert k < |s.results| ==> ResultOk(s, k);
  }

  lemma {:induction false} ShownStored(s: State, n: nat)
    requires PendingOk(s) && ResultsOk(s) && n <= |s.orders|
    ensures Shown(s, n) <= Stored(s.ledger, n)
    ensures Shown(s, n) == Stored(s.ledger, n) <==> forall k {:trigger NoneLost(s, k)} :: 0 <= k < n ==> NoneLost(s, k)
  {
    hide Select, NoneLost, InHand, ResponseOf, PendingOk, ResultOk;
    if n > 0 {
      ShownStored(s, n - 1);
      ShownOne(s, n - 1);
    }
  }

  /** No line is lost exactly when every command got at most one final response before its issuer
      woke, and a command that timed out, or whose response was not wanted, no line at all. */
  lemma NothingLostIff(run: seq<Step>)
    ensures
      var s := Exec(START, run);
      && |s.orders| == |s.results| + (if s.command.Some? then 1 else 0)
      && (|Arrived(run)| == |Flat(s.handled)| + |Held(s)| + |s.written| + Shown(s, |s.orders|) <==>
            forall k {:trigger NoneLost(s, k)} :: 0 <= k < |s.orders| ==> NoneLost(s, k))
  {
    hide Exec, Select, Stored, Flat, Held, Shown, NoneLost, PendingOk, ResultOk;
    StartOk();
    RunKeeps(START, run);
    LinesCounted(run);
    ShownStored(Exec(START, run), |Exec(START, run).orders|);
  }

  /** A prompt is always answered with the PDU of the pending command. CONNECT is answered with the
      pending command's data exactly when that command brought some. */
  lemma WritesOwnIff(run: seq<Step>, w: Write)
    requires w in Exec(START, run).written
    ensures
      var s := Exec(START, run);
      && w.n < |s.orders|
      && (!w.raw ==> s.orders[w.n].pdu == Some(w.data))
      && (w.raw ==> (s.orders[w.n].raw == Some(w.data) <==> s.orders[w.n].raw.Some?))
  {
    hide Exec;
    StartOk();
    RunKeeps(START, run);
    assert WriteOk(Exec(START, run), w);
  }

  /** Data left over by a raw command that timed out goes to the device under the next command,
      whose CONNECT is then not taken as its final response. */
  lemma StaleRawData(data: string, prefix: string)
    ensures
      var upload := Order(SingleLine, prefix, None, Some(data));
      var plain := Order(NoResult, "", None, None);
      var s := Exec(START, [Issue(upload, true), Timeout, Issue(plain, true), Arrive("CONNECT")]);
      s.written == [Write(1, data, true)] && s.command == Some(Command([], None, false))
  {
    var upload := Order(SingleLine, prefix, None, Some(data));
    var plain := Order(NoResult, "", None, None);
    var s1 := Next(START, Issue(upload, true));
    var s2 := Next(s1, Timeout);
    var s3 := Next(s2, Issue(plain, true));
    assert !IsSms("CONNECT") by {
      forall i | 0 <= i < |SMS_UNSOLICITED| ensures !(SMS_UNSOLICITED[i] <= "CONNECT") {
        assert SMS_UNSOLICITED[i][0] == '+' && "CONNECT"[0] == 'C';
      }
    }
    var s4 := Next(s3, Arrive("CONNECT"));
    assert s4.written == [Write(1, data, true)];
    FourSteps(START, Issue(upload, true), Timeout, Issue(plain, true), Arrive("CONNECT"));
  }

  lemma FirstStep(s: State, a: Step, run: seq<Step>)
    requires Shape(s)
    ensures Exec(s, [a] + run) == Exec(Next(s, a), run)
  {
    hide Next;
    assert ([a] + run)[1..] == run;
  }

  lemma FourSteps(s: State, a: Step, b: Step, c: Step, d: Step)
    requires Shape(s)
    ensures Exec(s, [a, b, c, d]) == Next(Next(Next(Next(s, a), b), c), d)
  {
    hide Next, Exec;
    var s1, s2, s3 := Next(s, a), Next(Next(s, a), b), Next(Next(Next(s, a), b), c);
    NoStep(Next(s3, d));
    FirstStep(s3, d, []);
    FirstStep(s2, c, [d] + []);
    FirstStep(s1, b, [c] + ([d] + []));
    FirstStep(s, a, [b] + ([c] + ([d] + [])));
    FourList(a, b, c, d);
  }

  lemma FourList<A>(a: A, b: A, c: A, d: A)
    ensures [a, b, c, d] == [a] + ([b] + ([c] + ([d] + [])))
  {}

  lemma NoStep(s: State)
    requires Shape(s)
    ensures Exec(s, []) == s
  {}

  // ------------------------------------------------------------- the shared variables

  /** The file-level variables of the channel, changed with cm_command_mutex held; held and ended
      are local to the reader, and the ghost fields are the observer's record. */
  class Channel {
    var kind: Kind
    var prefix: string
    var pdu: Option<string>
    var raw: Option<string>
    var response: Response?
    var closed: bool
    var held: Option<string>
    var ended: bool
    ghost var handled: seq<seq<string>>
    ghost var written: seq<Write>
    ghost var orders: seq<Order>
    ghost var results: seq<Result>
    ghost var ledger: seq<Entry>

    ghost predicate Valid()
      reads this, response, if response == null then [] else response.nodes
    {
      response != null ==>
        && response.Valid()
        && orders != []
        && kind == orders[|orders| - 1].kind
        && prefix == orders[|orders| - 1].prefix
    }

    /** The list holds the intermediate lines newest first. */
    ghost function Abs(): State
      reads this, response
    {
      var command :=
        if response == null then None
        else Some(Command(Reversed(response.Lines()), response.finalResponse, response.success));
      State(command, pdu, raw, closed, held, ended, handled, written, orders, results, ledger)
    }

    /** at_open */
    constructor ()
      ensures Valid() && Abs() == START
    {
      kind, prefix, pdu, raw, response, closed := NoResult, "", None, None, null, false;
      held, ended := None, false;
      handled, written, orders, results, ledger := [], [], [], [], [];
    }

    /** at_send_command_full_nolock up to its wait, after at_send_command_raw has left its data. */
    method IssueCommand(order: Order, writable: bool) returns (waits: bool)
      requires Valid() && response == null
      modifies this
      ensures Valid() && Abs() == Do(old(Abs()), Issue(order, writable)) && waits == (response != null)
      ensures response != null ==> fresh(response) && response.nodes == []
      ensures waits <==> !old(closed) && writable
    {
      hide Linked, Texts, Do, Reversed;
      IssueDone(Abs(), order, writable);
      if order.raw.Some? {
        raw := order.raw;
      }
      waits := !closed && writable;
      if waits {
        Begin(order);
      }
    }

    /** The new pending command. */
    method Begin(order: Order)
      requires response == null
      modifies this`kind, this`prefix, this`pdu, this`response, this`orders
      ensures response != null && fresh(response) && response.nodes == [] && Valid()
      ensures Abs() == old(Abs()).(pdu := order.pdu, command := Some(Command([], None, false)), orders := old(orders) + [order])
    {
      hide Linked, Texts, Reversed;
      var r := new Response();
      assert Reversed(r.Lines()) == [] by { EmptyReversed(r.nodes); }
      response := r;
      kind, prefix, pdu, orders := order.kind, order.prefix, order.pdu, orders + [order];
    }

    /** addIntermediate */
    method AddIntermediate(line: string)
      requires Valid() && response != null
      modifies this`ledger, response`intermediates, response`nodes
      ensures Valid() && Abs() == old(Abs()).(command := Some(old(Abs()).command.value.(
        intermediates := old(Abs()).command.value.intermediates + [line])), ledger := ledger)
      ensures ledger == old(ledger) + [Entry(line, Intermediate(|orders| - 1))]
      ensures forall n <- response.nodes :: n in old(response.nodes) || fresh(n)
    {
      response.Add(line);
      assert ([line] + old(response.Lines()))[1..] == old(response.Lines());
      ledger := ledger + [Entry(line, Intermediate(|orders| - 1))];
    }

    /** handleUnsolicited, the handler being set. */
    method HandleUnsolicited(line: string, ghost during: Option<nat>)
      requires Valid()
      modifies this`handled, this`ledger
      ensures Valid()
      ensures Abs() == old(Abs()).(handled := old(handled) + [[line]], ledger := old(ledger) + [Entry(line, Handler(during))])
    {
      hide Reversed, Texts;
      handled := handled + [[line]];
      ledger := ledger + [Entry(line, Handler(during))];
    }

    /** handleFinalResponse, with the flag set just before. */
    method HandleFinalResponse(line: string, success: bool)
      requires Valid() && response != null
      modifies this`ledger, response`finalResponse, response`success
      ensures Valid()
      ensures Abs() == old(Abs()).(
        command := Some(old(Abs()).command.value.(final := Some(line), success := success)),
        ledger := old(ledger) + [Entry(line, Final(|orders| - 1))])
    {
      hide Reversed, Texts;
      response.success := success;
      response.finalResponse := Some(line);
      ledger := ledger + [Entry(line, Final(|orders| - 1))];
    }

    /** writeraw, once, on CONNECT. */
    method SendRaw(line: string)
      requires Valid() && response != null && raw.Some?
      modifies this`ledger, this`written, this`raw
      ensures Valid()
      ensures Abs() == old(Abs()).(raw := None, ledger := old(ledger) + [Entry(line, Raw(|orders| - 1))],
        written := old(written) + [Write(|orders| - 1, old(raw.value), true)])
    {
      hide Reversed, Texts;
      written := written + [Write(|orders| - 1, raw.value, true)];
      ledger := ledger + [Entry(line, Raw(|orders| - 1))];
      raw := None;
    }

    /** writeCtrlZ, once, on the prompt. */
    method SendPdu(line: string)
      requires Valid() && response != null && pdu.Some?
      modifies this`ledger, this`written, this`pdu
      ensures Valid()
      ensures Abs() == old(Abs()).(pdu := None, ledger := old(ledger) + [Entry(line, Prompt(|orders| - 1))],
        written := old(written) + [Write(|orders| - 1, old(pdu.value), false)])
    {
      hide Reversed, Texts;
      written := written + [Write(|orders| - 1, pdu.value, false)];
      ledger := ledger + [Entry(line, Prompt(|orders| - 1))];
      pdu := None;
    }

    /** The switch over the command type: true when the line is an intermediate response. */
    method IsIntermediate(line: string) returns (r: bool)
      requires Valid() && response != null
      ensures
        var o := orders[|orders| - 1];
        r <==> Accepts(o, line) && (o.kind.MultiLine? || Abs().command.value.intermediates == [])
    {
      EmptyReversed(response.nodes);
      match kind
      case NoResult => r := false;
      case Numeric => r := response.intermediates == null && line != "" && IsDigit(line[0]);
      case SingleLine =>
        r := StrStartsWith(line, prefix);
        r := r && response.intermediates == null;
      case MultiLine => r := StrStartsWith(line, prefix);
    }

    /** The last branches of processLine: the prompt, and the switch over the command type. */
    method ProcessOther(line: string)
      requires Valid() && response != null && !(raw.Some? && line == "CONNECT") && !IsSuccess(line) && !IsError(line)
      modifies this`handled, this`ledger, this`written, this`pdu, response
      ensures Valid() && Abs() == Process(old(Abs()), line)
    {
      hide Accepts, IsSuccess, IsError, Reversed, Texts, Linked;
      var kept := IsIntermediate(line);
      if pdu.Some? && line == "> " {
        SendPdu(line);
      } else if kept {
        AddIntermediate(line);
      } else {
        HandleUnsolicited(line, Some(|orders| - 1));
      }
    }

    /** processLine, the proxy being off. */
    method ProcessLine(line: string)
      requires Valid() && held.None?
      modifies this`handled, this`ledger, this`written, this`pdu, this`raw, response
      ensures Valid() && Abs() == Process(old(Abs()), line)
    {
      hide Accepts, IsSuccess, IsError, Reversed, Texts, Linked;
      if response == null {
        HandleUnsolicited(line, None);
        return;
      }
      var success, error := Classify(line);
      if raw.Some? && line == "CONNECT" {
        SendRaw(line);
      } else if success {
        HandleFinalResponse(line, true);
      } else if error {
        HandleFinalResponse(line, false);
      } else {
        ProcessOther(line);
      }
    }

    /** One turn of readerLoop, on a line. */
    method ReaderTurn(line: string)
      requires Valid()
      modifies this`handled, this`ledger, this`written, this`pdu, this`raw, this`held, response
      ensures Valid() && Abs() == Read(old(Abs()), line)
    {
      hide IsSms, Process;
      if held.Some? {
        handled := handled + [[held.value, line]];
        ledger := ledger + [Entry(line, Sms)];
        held := None;
        return;
      }
      var sms := FindPrefix(line, SMS_UNSOLICITED);
      assert sms == IsSms(line) by { SmsTable(line); }
      if sms {
        held := Some(line);
        ledger := ledger + [Entry(line, Sms)];
      } else {
        ProcessLine(line);
      }
    }

    /** The end of readerLoop and onReaderClosed. */
    method ReaderEnd(callback: bool)
      requires Valid() && !ended
      modifies this`ended, this`closed
      ensures Valid() && Abs() == Do(old(Abs()), Eof(callback)) && ended && closed == (old(closed) || callback)
    {
      ended := true;
      if callback && !closed {
        closed := true;
      }
    }

    /** The wait over: the list is turned round and handed to the issuer, who gets the lines in order
        of arrival. */
    method Complete(wanted: bool) returns (error: Error, out: Response?)
      requires Valid() && Enabled(Abs(), Wake(wanted))
      modifies this, response, response.nodes
      ensures Valid() && response == null && Abs() == Do(old(Abs()), Wake(wanted))
      ensures (out != null) == wanted
      ensures out != null ==> out.Valid() && old(Abs()).command == Some(Command(out.Lines(), out.finalResponse, out.success))
      ensures error == if closed then ChannelClosed else NoError
    {
      hide Reversed, Texts, Linked, Read;
      out := null;
      ghost var c := Abs().command;
      if wanted {
        response.Reverse();
        out := response;
      }
      response := null;
      error := if closed then ChannelClosed else NoError;
      results := results + [Result(error, if wanted then c else None)];
      pdu := None;
    }

    /** clearPendingCommand after a timeout. */
    method GiveUp()
      requires Valid() && response != null
      modifies this
      ensures Valid() && response == null && Abs() == Do(old(Abs()), Timeout)
    {
      response, pdu := null, None;
      results := results + [Result(TimedOut, None)];
    }
  }

  method Classify(line: string) returns (success: bool, error: bool)
    ensures success == IsSuccess(line) && error == IsError(line)
  {
    success := FindPrefix(line, FINAL_SUCCESS);
    error := FindPrefix(line, FINAL_ERROR);
  }

  lemma IssueDone(s: State, o: Order, writable: bool)
    requires Shape(s) && s.command.None?
    ensures
      var raw := if o.raw.Some? then o.raw else s.raw;
      Do(s, Issue(o, writable)) ==
        if s.closed || !writable then s.(raw := raw)
        else s.(raw := raw, pdu := o.pdu, command := Some(Command([], None, false)), orders := s.orders + [o])
  {
    hide Read;
  }

  lemma SmsTable(line: string)
    ensures IsSms(line) == StartsWithAny(line, SMS_UNSOLICITED)
  {}

  lemma EmptyReversed(nodes: seq<AtLine>)
    ensures Reversed(Texts(nodes)) == [] <==> nodes == []
  {}
}
