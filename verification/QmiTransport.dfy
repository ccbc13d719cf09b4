/** Request and response of the QMI transport: transaction ids, the request a sender leaves
    for the reader, answers, timeouts, late replies and shutdown, in any interleaving. */
module QmiTransport {
  import opened Arith
  import opened Options

  const CTL := 0x00
  const WDS := 0x01
  const WDS_IPV6 := 0x11
  const TYPES := 0xFF
  const QMUX_IDS := 0xFFFF
  const CTL_IDS := 0xFF

  /** The header fields that decide which request a message answers. */
  datatype Header = Header(qmiType: nat, clientId: nat, tid: nat)

  /** A request in its heap buffer; nth counts the requests composed on the same ring of ids. */
  datatype Request = Request(buffer: nat, header: Header, nth: nat)

  datatype Message = Message(header: Header, body: seq<bv8>)

  // ------------------------------------------------------------- transaction ids

  /** GetQMUXTransactionId and GetQCTLTransactionId: count up, start again at 1. */
  function NextId(id: nat, ids: nat): nat {
    if id + 1 > ids then 1 else id + 1
  }

  /** The id of the n-th request, counting from 1. */
  function NthId(n: nat, ids: nat): nat {
    if n == 0 then 0 else NextId(NthId(n - 1, ids), ids)
  }

  lemma {:induction false} NthIdValue(n: nat, ids: nat)
    requires n > 0 && ids > 0
    ensures NthId(n, ids) == (n - 1) % ids + 1
    decreases n
  {
    if n == 1 {
      ModUnique(0, ids, 0, 0);
    } else {
      NthIdValue(n - 1, ids);
      var q, r := (n - 2) / ids, (n - 2) % ids;
      assert n - 2 == q * ids + r;
      if r + 1 == ids {
        Distribute(q, 1, ids);
        ModUnique(n - 1, ids, q + 1, 0);
      } else {
        ModUnique(n - 1, ids, q, r + 1);
      }
    }
  }

  /** Two numbers leave the same remainder exactly when their distance is a whole number of rounds. */
  lemma SameRemainder(a: nat, b: nat, ids: nat)
    requires a <= b && ids > 0
    ensures a % ids == b % ids <==> (b - a) % ids == 0
  {
    if (b - a) % ids == 0 {
      ModSkip(b - a, a, ids);
    } else if a % ids == b % ids {
      var k := b / ids - a / ids;
      Distribute(b / ids, 0 - a / ids, ids);
      MulBound(k, ids);
      ModUnique(b - a, ids, k, 0);
    }
  }

  /** Ids are never zero, and two requests share one exactly when they are a whole number
      of rounds apart. */
  lemma SameIdIff(i: nat, j: nat, ids: nat)
    requires 0 < i <= j && ids > 0
    ensures 0 < NthId(i, ids) <= ids
    ensures NthId(i, ids) == NthId(j, ids) <==> (j - i) % ids == 0
  {
    NthIdValue(i, ids);
    NthIdValue(j, ids);
    SameRemainder(i - 1, j - 1, ids);
  }

  // ------------------------------------------------------------- matching

  /** is_response; a control message keeps its 8-bit id where the others keep a 16-bit one. */
  predicate IsResponse(request: Header, response: Header) {
    && request.qmiType == response.qmiType
    && request.clientId == response.clientId
    && request.tid == response.tid
  }

  function Ring(qmiType: nat): nat {
    if qmiType == CTL then CTL_IDS else QMUX_IDS
  }

  /** The header as QmiWwanSendQMI leaves it in the buffer: the service's client id, and WDS for
      the second WDS service unless that has no client. */
  function Rewritten(h: Header, clients: seq<nat>): Header
    requires |clients| == TYPES && h.qmiType < TYPES
  {
    if h.qmiType == CTL then h
    else if clients[h.qmiType] != 0 && h.qmiType == WDS_IPV6 then Header(WDS, clients[WDS_IPV6], h.tid)
    else Header(h.qmiType, clients[h.qmiType], h.tid)
  }

  // ------------------------------------------------------------- steps under the mutex

  /** What the environment does to one attempt to send. */
  datatype Outcome = NoMemory | NoDevice | Polled(ok: bool)

  /** One atomic step. Begin is a call up to the wait (or its early return), End the rest of it. */
  datatype Step =
    | Begin(qmiType: nat, outcome: Outcome)
    | End(timedOut: bool, wanted: bool)
    | Receive(message: Message, memory: bool)
    | Shutdown
    | SetClient(service: nat, client: nat)

  datatype Answer = Answer(call: nat, message: Message)

  /** The shared variables, and what an observer records: the requests in the order of their calls,
      whether a call waits, the answers handed out and the request buffers freed. */
  datatype State = State(
    request: Option<Request>,
    response: Option<Message>,
    clients: seq<nat>,
    qmuxId: nat,
    ctlId: nat,
    qmuxCount: nat,
    ctlCount: nat,
    calls: seq<Request>,
    waiting: bool,
    answers: seq<Answer>,
    freed: seq<nat>)

  const START := State(None, None, seq(TYPES, _ => 0), 0, 0, 0, 0, [], false, [], [])

  /** A single sender is in at most one call; services are bytes below QMUX_TYPE_ALL. */
  predicate Enabled(s: State, t: Step) {
    match t
    case Begin(qmiType, _) => !s.waiting && qmiType < TYPES
    case End(_, _) => s.waiting
    case Receive(_, _) => true
    case Shutdown => true
    case SetClient(service, _) => service < TYPES
  }

  function Composed(s: State, qmiType: nat): Request {
    if qmiType == CTL then
      Request(|s.calls|, Header(CTL, 0, NextId(s.ctlId, CTL_IDS)), s.ctlCount + 1)
    else
      Request(|s.calls|, Header(qmiType, 0, NextId(s.qmuxId, QMUX_IDS)), s.qmuxCount + 1)
  }

  function Counted(s: State, qmiType: nat): State {
    if qmiType == CTL then
      s.(ctlId := NextId(s.ctlId, CTL_IDS), ctlCount := s.ctlCount + 1)
    else
      s.(qmuxId := NextId(s.qmuxId, QMUX_IDS), qmuxCount := s.qmuxCount + 1)
  }

  /** The request as it is after the send; the flag says that the send returned 0. */
  function Sending(r: Request, clients: seq<nat>, outcome: Outcome): (Request, bool)
    requires |clients| == TYPES && r.header.qmiType < TYPES
  {
    if outcome.NoDevice? then (r, false)
    else
      var h := Rewritten(r.header, clients);
      (r.(header := h), outcome.Polled? && outcome.ok && (h.qmiType == CTL || h.clientId != 0))
  }

  predicate Taken(s: State, m: Message) {
    s.request.Some? && IsResponse(s.request.value.header, m.header)
  }

  predicate Shape(s: State) {
    |s.clients| == TYPES && (s.waiting ==> s.calls != [])
  }

  function Do(s: State, t: Step): (r: State)
    requires Shape(s) && Enabled(s, t)
    ensures Shape(r)
  {
    match t
    case Begin(qmiType, outcome) =>
      var c := Counted(s, qmiType);
      if outcome.NoMemory? then c
      else
        var (r, sent) := Sending(Composed(s, qmiType), s.clients, outcome);
        c.(request := Some(r), response := None, calls := s.calls + [r], waiting := sent)
    case End(timedOut, wanted) =>
      var c := s.(waiting := false);
      if timedOut || s.response.None? then c
      else if wanted then
        c.(answers := s.answers + [Answer(|s.calls| - 1, s.response.value)])
      else c.(response := None)
    case Receive(m, memory) =>
      if Taken(s, m) then
        s.(request := None, response := if memory then Some(m) else None,
           freed := s.freed + [s.request.value.buffer])
      else s
    case Shutdown =>
      if s.request.Some? then
        s.(request := None, response := None, freed := s.freed + [s.request.value.buffer])
      else s
    case SetClient(service, client) => s.(clients := s.clients[service := client])
  }

  /** Any interleaving: a step that is not enabled cannot happen and is passed over. */
  function Exec(s: State, run: seq<Step>): (r: State)
    requires Shape(s)
    ensures Shape(r)
    decreases |run|
  {
    if run == [] then s
    else Exec(if Enabled(s, run[0]) then Do(s, run[0]) else s, run[1..])
  }

  // ------------------------------------------------------------- invariant

  function Last(s: State): Request
    requires s.calls != []
  {
    s.calls[|s.calls| - 1]
  }

  function Count(s: State, ids: nat): nat {
    if ids == CTL_IDS then s.ctlCount else s.qmuxCount
  }

  /** Every request carries the id of its place on its ring, and later requests come later on it. */
  predicate CallOk(s: State, i: nat)
    requires i < |s.calls|
  {
    var r := s.calls[i];
    && r.buffer == i
    && 0 < r.nth <= Count(s, Ring(r.header.qmiType))
    && r.header.tid == NthId(r.nth, Ring(r.header.qmiType))
  }

  predicate CallsOk(s: State) {
    && s.qmuxId == NthId(s.qmuxCount, QMUX_IDS)
    && s.ctlId == NthId(s.ctlCount, CTL_IDS)
    && (forall i {:trigger s.calls[i]} :: 0 <= i < |s.calls| ==> CallOk(s, i))
    && (forall i, j :: 0 <= i < j < |s.calls| && Ring(s.calls[i].header.qmiType) == Ring(s.calls[j].header.qmiType)
          ==> s.calls[i].nth < s.calls[j].nth)
  }

  predicate SharedOk(s: State) {
    && (s.request.Some? ==> s.calls != [] && s.request.value == Last(s) && s.request.value.buffer !in s.freed)
    && (s.response.Some? ==> s.calls != [] && IsResponse(Last(s).header, s.response.value.header))
  }

  predicate AnswersOk(s: State) {
    && (forall k {:trigger s.answers[k]} :: 0 <= k < |s.answers| ==>
          && s.answers[k].call < |s.calls|
          && IsResponse(s.calls[s.answers[k].call].header, s.answers[k].message.header))
    && (forall k, l :: 0 <= k < l < |s.answers| ==> s.answers[k].call < s.answers[l].call)
    && (s.waiting && s.answers != [] ==> s.answers[|s.answers| - 1].call < |s.calls| - 1)
  }

  predicate FreedOk(s: State) {
    && (forall b :: b in s.freed ==> b < |s.calls|)
    && (forall k, l :: 0 <= k < l < |s.freed| ==> s.freed[k] != s.freed[l])
  }

  predicate Inv(s: State) {
    Shape(s) && CallsOk(s) && SharedOk(s) && AnswersOk(s) && FreedOk(s)
  }

  lemma BeginKeepsCalls(s: State, qmiType: nat, outcome: Outcome)
    requires Inv(s) && Enabled(s, Begin(qmiType, outcome))
    ensures CallsOk(Do(s, Begin(qmiType, outcome)))
  {
    hide AnswersOk, FreedOk, SharedOk;
    var n := Do(s, Begin(qmiType, outcome));
    forall i | 0 <= i < |n.calls| ensures CallOk(n, i) {
      if i < |s.calls| {
        assert CallOk(s, i);
      }
    }
    forall i, j | 0 <= i < j < |n.calls| && Ring(n.calls[i].header.qmiType) == Ring(n.calls[j].header.qmiType)
      ensures n.calls[i].nth < n.calls[j].nth
    {
      assert CallOk(s, i);
    }
  }

  lemma BeginKeepsRest(s: State, qmiType: nat, outcome: Outcome)
    requires Inv(s) && Enabled(s, Begin(qmiType, outcome))
    ensures SharedOk(Do(s, Begin(qmiType, outcome)))
    ensures AnswersOk(Do(s, Begin(qmiType, outcome)))
    ensures FreedOk(Do(s, Begin(qmiType, outcome)))
  {
    hide CallsOk;
    var n := Do(s, Begin(qmiType, outcome));
    assert s.calls <= n.calls && n.freed == s.freed;
  }

  /** The requests and counters of one state satisfy CallsOk wherever else they are found. */
  lemma CallsFrame(s: State, n: State)
    requires CallsOk(s)
    requires n.calls == s.calls && n.qmuxId == s.qmuxId && n.ctlId == s.ctlId
    requires n.qmuxCount == s.qmuxCount && n.ctlCount == s.ctlCount
    ensures CallsOk(n)
  {
    forall i | 0 <= i < |n.calls| ensures CallOk(n, i) {
      assert CallOk(s, i);
    }
  }

  lemma EndKeeps(s: State, t: Step)
    requires Inv(s) && Enabled(s, t) && t.End?
    ensures Inv(Do(s, t))
  {
    hide CallsOk;
    CallsFrame(s, Do(s, t));
  }

  lemma ReceiveKeeps(s: State, t: Step)
    requires Inv(s) && (t.Receive? || t.Shutdown?)
    ensures Inv(Do(s, t))
  {
    hide CallsOk;
    var n := Do(s, t);
    CallsFrame(s, n);
    assert AnswersOk(n);
    if n.freed != s.freed {
      assert s.request.value == Last(s);
      assert CallOk(s, |s.calls| - 1) by { LastOk(s); }
    }
  }

  lemma LastOk(s: State)
    requires CallsOk(s) && s.calls != []
    ensures CallOk(s, |s.calls| - 1)
  {
    var r := s.calls[|s.calls| - 1];
  }

  lemma StepKeeps(s: State, t: Step)
    requires Inv(s) && Enabled(s, t)
    ensures Inv(Do(s, t))
  {
    match t
    case Begin(qmiType, outcome) =>
      BeginKeepsCalls(s, qmiType, outcome);
      BeginKeepsRest(s, qmiType, outcome);
    case End(_, _) => EndKeeps(s, t);
    case Receive(_, _) => ReceiveKeeps(s, t);
    case Shutdown => ReceiveKeeps(s, t);
    case SetClient(_, _) =>
      hide CallsOk;
      CallsFrame(s, Do(s, t));
  }

  lemma {:induction false} RunKeeps(s: State, run: seq<Step>)
    requires Inv(s)
    ensures Inv(Exec(s, run))
    decreases |run|
  {
    hide CallsOk, SharedOk, AnswersOk, FreedOk, Do;
    if run != [] {
      if Enabled(s, run[0]) {
        StepKeeps(s, run[0]);
        RunKeeps(Do(s, run[0]), run[1..]);
      } else {
        RunKeeps(s, run[1..]);
      }
    }
  }

  // ------------------------------------------------------------- main results

  /** Every answer handed to a caller has the type, the client and the id of that caller's request
      as it was sent, and no call is answered twice. */
  lemma AnswersMatch(run: seq<Step>)
    ensures
      var s := Exec(START, run);
      && (forall k {:trigger s.answers[k]} :: 0 <= k < |s.answers| ==>
            && s.answers[k].call < |s.calls|
            && var sent, got := s.calls[s.answers[k].call].header, s.answers[k].message.header;
               sent.qmiType == got.qmiType && sent.clientId == got.clientId && sent.tid == got.tid)
      && (forall k, l :: 0 <= k < l < |s.answers| ==> s.answers[k].call < s.answers[l].call)
  {
    RunKeeps(START, run);
  }

  /** No request buffer is freed twice, and the one the reader may still free has not been. */
  lemma FreedOnce(run: seq<Step>)
    ensures
      var s := Exec(START, run);
      && (forall k, l :: 0 <= k < l < |s.freed| ==> s.freed[k] != s.freed[l])
      && (s.request.Some? ==> s.request.value.buffer !in s.freed)
  {
    RunKeeps(START, run);
  }

  /** In every run, the reply to the i-th call is taken for an answer to the current one exactly
      when both address the same client of the same service and are whole rounds of ids apart. */
  lemma ReplyTakenIff(run: seq<Step>, i: nat, body: seq<bv8>)
    requires i < |Exec(START, run).calls|
    ensures
      var s := Exec(START, run);
      var last := Last(s);
      var r := s.calls[i];
      Taken(s, Message(r.header, body)) <==>
        && s.request.Some?
        && r.header.qmiType == last.header.qmiType
        && r.header.clientId == last.header.clientId
        && (last.nth - r.nth) % (if last.header.qmiType == 0 then 255 else 65535) == 0
  {
    RunKeeps(START, run);
    var s := Exec(START, run);
    hide Exec;
    var last, r := Last(s), s.calls[i];
    assert CallOk(s, i) && CallOk(s, |s.calls| - 1);
    var ids := Ring(last.header.qmiType);
    if r.header.qmiType == last.header.qmiType {
      assert r.nth <= last.nth;
      SameIdIff(r.nth, last.nth, ids);
    }
  }

  /** A reply that arrives fewer than a round of requests late is not taken. */
  lemma LateReplyIgnored(run: seq<Step>, i: nat, body: seq<bv8>)
    requires i < |Exec(START, run).calls| - 1
    requires
      var s := Exec(START, run);
      Last(s).nth - s.calls[i].nth < if Last(s).header.qmiType == 0 then 255 else 65535
    ensures !Taken(Exec(START, run), Message(Exec(START, run).calls[i].header, body))
  {
    ReplyTakenIff(run, i, body);
    RunKeeps(START, run);
    var s := Exec(START, run);
    hide Exec;
    var last, r := Last(s), s.calls[i];
    if r.header.qmiType == last.header.qmiType {
      assert 0 < last.nth - r.nth < Ring(last.header.qmiType);
    }
  }

  /** An indication, which carries id 0, answers nothing. */
  lemma IndicationIgnored(run: seq<Step>, m: Message)
    requires m.header.tid == 0
    ensures !Taken(Exec(START, run), m)
  {
    RunKeeps(START, run);
    var s := Exec(START, run);
    hide Exec;
    if s.request.Some? {
      assert CallOk(s, |s.calls| - 1);
      SameIdIff(Last(s).nth, Last(s).nth, Ring(Last(s).header.qmiType));
    }
  }

  // ------------------------------------------------------------- who is asked

  /** The client id a service was given last. */
  function LastClient(run: seq<Step>, service: nat): nat {
    if run == [] then 0
    else
      var t := run[|run| - 1];
      if t.SetClient? && t.service == service then t.client else LastClient(run[..|run| - 1], service)
  }

  lemma {:induction false} ExecSnoc(s: State, run: seq<Step>, t: Step)
    requires Shape(s)
    ensures
      var r := Exec(s, run);
      Exec(s, run + [t]) == if Enabled(r, t) then Do(r, t) else r
    decreases |run|
  {
    hide Do, Enabled;
    if run == [] {
      assert run + [t] == [t] && [t][1..] == [];
      assert Exec(if Enabled(s, t) then Do(s, t) else s, []) == if Enabled(s, t) then Do(s, t) else s;
    } else {
      assert (run + [t])[1..] == run[1..] + [t];
      ExecSnoc(if Enabled(s, run[0]) then Do(s, run[0]) else s, run[1..], t);
    }
  }

  lemma {:induction false} ClientsSet(run: seq<Step>, service: nat)
    requires service < 0xFF
    ensures |Exec(START, run).clients| == 0xFF && Exec(START, run).clients[service] == LastClient(run, service)
    decreases |run|
  {
    if run != [] {
      var r, t := run[..|run| - 1], run[|run| - 1];
      ClientsSet(r, service);
      assert run == r + [t];
      hide Exec;
      ExecSnoc(START, r, t);
    }
  }

  /** Whatever happened before: a request goes to the client its service was given last, as a request of
      that service, the second WDS service (0x11) counting as WDS (0x01); a control request goes to
      client 0. The caller waits exactly when the message was written and there is a client. */
  lemma RequestAddressed(run: seq<Step>, service: nat, outcome: Outcome)
    requires service < 0xFF && !Exec(START, run).waiting && !outcome.NoMemory?
    ensures
      var s, t, c := Exec(START, run), Exec(START, run + [Begin(service, outcome)]), LastClient(run, service);
      && |t.calls| == |s.calls| + 1 && t.calls[..|s.calls|] == s.calls && t.request == Some(Last(t)) && t.response == None
      && var h := Last(t).header;
         && 0 < h.tid <= (if service == 0 then 255 else 65535)
         && (outcome.Polled? ==>
               && h.clientId == (if service == 0 then 0 else c)
               && h.qmiType == (if service == 0x11 && c != 0 then 0x01 else service))
         && (t.waiting <==> outcome == Polled(true) && (service == 0 || c != 0))
  {
    hide Exec;
    var s := Exec(START, run);
    ClientsSet(run, service);
    ExecSnoc(START, run, Begin(service, outcome));
    RunKeeps(START, run);
    assert s.qmuxId == NthId(s.qmuxCount, QMUX_IDS) && s.ctlId == NthId(s.ctlCount, CTL_IDS);
    IdsRange(s.qmuxId, s.ctlId);
  }

  lemma IdsRange(a: nat, b: nat)
    ensures 0 < NextId(a, QMUX_IDS) <= 65535 && 0 < NextId(b, CTL_IDS) <= 255
  {}

  /** Without memory for the request only the id is used up. */
  lemma NoMemoryNoRequest(run: seq<Step>, service: nat)
    requires service < 0xFF && !Exec(START, run).waiting
    ensures
      var s, t := Exec(START, run), Exec(START, run + [Begin(service, NoMemory)]);
      t.calls == s.calls && t.request == s.request && !t.waiting
  {
    hide Exec;
    ExecSnoc(START, run, Begin(service, NoMemory));
  }

  /** What may happen while a call waits without answering it. */
  predicate Quiet(s: State, t: Step) {
    match t
    case Receive(m, _) => s.request.None? || m.header != s.request.value.header
    case SetClient(service, _) => service < TYPES
    case _ => false
  }

  /** What may happen between the answer and the waking of the caller. */
  predicate Background(t: Step) {
    t.Receive? || t.Shutdown? || t.SetClient?
  }

  lemma {:induction false} ExecAppend(s: State, a: seq<Step>, b: seq<Step>)
    requires Shape(s)
    ensures Exec(s, a + b) == Exec(Exec(s, a), b)
    decreases |a|
  {
    if a == [] {
      assert a + b == b;
    } else {
      assert (a + b)[1..] == a[1..] + b;
      ExecAppend(if Enabled(s, a[0]) then Do(s, a[0]) else s, a[1..], b);
    }
  }

  lemma {:induction false} QuietKeeps(s: State, run: seq<Step>, clients: seq<nat>)
    requires Shape(s.(clients := clients)) && Shape(s)
    requires forall t :: t in run ==> Quiet(s, t)
    ensures Exec(s.(clients := clients), run).(clients := s.clients) == s
    decreases |run|
  {
    if run != [] {
      var c := s.(clients := clients);
      assert Quiet(s, run[0]);
      var n := if Enabled(c, run[0]) then Do(c, run[0]) else c;
      assert n == s.(clients := n.clients);
      QuietKeeps(s, run[1..], n.clients);
    }
  }

  lemma {:induction false} AnsweredStays(s: State, run: seq<Step>)
    requires Shape(s) && s.request.None?
    requires forall t :: t in run ==> Background(t)
    ensures Exec(s, run).(clients := s.clients) == s
    decreases |run|
  {
    if run != [] {
      assert Background(run[0]);
      var n := if Enabled(s, run[0]) then Do(s, run[0]) else s;
      assert n == s.(clients := n.clients);
      AnsweredStays(n, run[1..]);
    }
  }

  /** The first matching message reaches the caller, whatever else is received around it and even
      when the device goes away before the caller wakes. */
  lemma AnswerDelivered(s: State, before: seq<Step>, m: Message, after: seq<Step>)
    requires Shape(s) && s.waiting && s.request.Some? && m.header == s.request.value.header
    requires forall t :: t in before ==> Quiet(s, t)
    requires forall t :: t in after ==> Background(t)
    ensures
      Exec(s, before + ([Receive(m, true)] + (after + [End(false, true)]))).answers
      == s.answers + [Answer(|s.calls| - 1, m)]
  {
    var tail := after + [End(false, true)];
    ExecAppend(s, before, [Receive(m, true)] + tail);
    assert s == s.(clients := s.clients);
    QuietKeeps(s, before, s.clients);
    var a := Exec(s, before);
    assert Taken(a, m) && a.waiting && a.answers == s.answers && a.calls == s.calls;
    ExecAppend(a, [Receive(m, true)], tail);
    var b := Do(a, Receive(m, true));
    OneStep(a, Receive(m, true));
    ExecAppend(b, after, [End(false, true)]);
    AnsweredStays(b, after);
    OneStep(Exec(b, after), End(false, true));
  }

  lemma OneStep(s: State, t: Step)
    requires Shape(s) && Enabled(s, t)
    ensures Exec(s, [t]) == Do(s, t)
  {
    assert [t][1..] == [];
    assert Exec(Do(s, t), []) == Do(s, t);
  }

  /** n control requests, each of which times out. */
  function Rounds(n: nat): seq<Step> {
    if n == 0 then [] else Rounds(n - 1) + [Begin(CTL, Polled(true)), End(true, true)]
  }

  lemma {:induction false} RoundsState(n: nat)
    ensures
      var s := Exec(START, Rounds(n));
      && |s.calls| == n && s.ctlCount == n && !s.waiting && s.ctlId == NthId(n, CTL_IDS)
      && (forall i :: 0 <= i < n ==> s.calls[i] == Request(i, Header(CTL, 0, NthId(i + 1, CTL_IDS)), i + 1))
      && (n > 0 ==> s.request == Some(s.calls[n - 1]))
  {
    if n > 0 {
      RoundsState(n - 1);
      var b, e := Begin(CTL, Polled(true)), End(true, true);
      ExecAppend(START, Rounds(n - 1), [b, e]);
      var s := Exec(START, Rounds(n - 1));
      assert [b, e] == [b] + [e];
      ExecAppend(s, [b], [e]);
      OneStep(s, b);
      OneStep(Do(s, b), e);
    }
  }

  /** After 255 more control requests the reply to an abandoned one passes for the current answer. */
  lemma OneRoundLateIsTaken(body: seq<bv8>)
    ensures
      var s := Exec(START, Rounds(256));
      |s.calls| == 256 && Taken(s, Message(s.calls[0].header, body))
  {
    hide Exec, Rounds, Do, NthId;
    RoundsState(256);
    SameIdIff(1, 256, CTL_IDS);
  }

  // ------------------------------------------------------------- the shared variables

  /** s_pRequest, s_pResponse, qmiclientId and the two static counters, changed only with
      cm_command_mutex held; the other fields are the observer's record. */
  class Transport {
    var request: Option<Request>
    var response: Option<Message>
    var clients: array<nat>
    var qmuxId: nat
    var ctlId: nat
    var qmuxCount: nat
    var ctlCount: nat
    var calls: seq<Request>
    var waiting: bool
    var answers: seq<Answer>
    var freed: seq<nat>

    ghost function Abs(): State
      reads this, clients
    {
      State(request, response, clients[..], qmuxId, ctlId, qmuxCount, ctlCount, calls, waiting, answers, freed)
    }

    constructor ()
      ensures Abs() == START && fresh(clients)
    {
      request, response := None, None;
      var table := new nat[TYPES](_ => 0);
      clients := table;
      qmuxId, ctlId := 0, 0;
      qmuxCount, ctlCount := 0, 0;
      calls, waiting, answers, freed := [], false, [], [];
      new;
      assert clients[..] == START.clients;
    }

    /** GetQMUXTransactionId and GetQCTLTransactionId. */
    method NextTransaction(qmiType: nat) returns (id: nat)
      modifies this`qmuxId, this`ctlId, this`qmuxCount, this`ctlCount
      ensures Abs() == Counted(old(Abs()), qmiType)
      ensures id == if qmiType == CTL then ctlId else qmuxId
    {
      if qmiType == CTL {
        ctlId := ctlId + 1;
        if ctlId > CTL_IDS { ctlId := 1; }
        id, ctlCount := ctlId, ctlCount + 1;
      } else {
        qmuxId := qmuxId + 1;
        if qmuxId > QMUX_IDS { qmuxId := 1; }
        id, qmuxCount := qmuxId, qmuxCount + 1;
      }
    }

    /** QmiWwanSendQMI, which rewrites the header in the buffer; sent means it returned 0. */
    method Send(r: Request, outcome: Outcome) returns (r': Request, sent: bool)
      requires Shape(Abs()) && r.header.qmiType < TYPES && !outcome.NoMemory?
      ensures (r', sent) == Sending(r, Abs().clients, outcome)
      ensures r'.buffer == r.buffer && r'.nth == r.nth && r'.header.tid == r.header.tid
      ensures outcome.NoDevice? || r.header.qmiType == 0 ==> r' == r
      ensures outcome.Polled? && r.header.qmiType != 0 ==>
        && r'.header.clientId == clients[r.header.qmiType]
        && r'.header.qmiType == if r.header.qmiType == 0x11 && clients[0x11] != 0 then 0x01 else r.header.qmiType
    {
      r' := r;
      if outcome.NoDevice? { return r', false; }
      if r.header.qmiType != CTL {
        r' := r'.(header := r'.header.(clientId := clients[r'.header.qmiType]));
        if r'.header.clientId == 0 { return r', false; }
        if r'.header.qmiType == WDS_IPV6 {
          r' := r'.(header := r'.header.(qmiType := WDS));
        }
      }
      sent := outcome.ok;
    }

    /** A request composed and handed to QmiThreadSendQMITimeout, up to its wait. */
    method Start(qmiType: nat, outcome: Outcome) returns (waits: bool)
      requires Inv(Abs()) && Enabled(Abs(), Begin(qmiType, outcome))
      modifies this
      ensures clients == old(clients)
      ensures Abs() == Do(old(Abs()), Begin(qmiType, outcome)) && Inv(Abs()) && waits == waiting
    {
      hide CallsOk, SharedOk, AnswersOk, FreedOk;
      StepKeeps(Abs(), Begin(qmiType, outcome));
      var id := NextTransaction(qmiType);
      waits := false;
      if !outcome.NoMemory? {
        var nth := if qmiType == CTL then ctlCount else qmuxCount;
        var r := Request(|calls|, Header(qmiType, 0, id), nth);
        request, response := Some(r), None;
        r, waits := Send(r, outcome);
        request := Some(r);
        calls, waiting := calls + [r], waits;
      }
    }

    /** The rest of QmiThreadSendQMITimeout, once the wait ends. */
    method Finish(timedOut: bool, wanted: bool) returns (answer: Option<Message>)
      requires Inv(Abs()) && waiting
      modifies this
      ensures clients == old(clients)
      ensures Abs() == Do(old(Abs()), End(timedOut, wanted)) && Inv(Abs())
      ensures answer.Some? ==> IsResponse(old(Last(Abs())).header, answer.value.header)
      ensures answer == if timedOut || !wanted then None else old(response)
    {
      hide CallsOk, AnswersOk, FreedOk;
      StepKeeps(Abs(), End(timedOut, wanted));
      answer, waiting := None, false;
      if !timedOut {
        if response.Some? && wanted {
          answer := response;
          answers := answers + [Answer(|calls| - 1, response.value)];
        } else if response.Some? {
          response := None;
        }
      }
    }

    /** QmiThreadRecvQMI; the reader calls it with None when the device is gone. */
    method Recv(message: Option<Message>, memory: bool)
      requires Inv(Abs())
      modifies this
      ensures clients == old(clients) && Inv(Abs())
      ensures Abs() == Do(old(Abs()), if message.None? then Shutdown else Receive(message.value, memory))
      ensures
        if old(request).Some? && (message.None? || message.value.header == old(request).value.header)
        then request == None && response == (if memory then message else None) && freed == old(freed) + [old(request).value.buffer]
        else request == old(request) && response == old(response) && freed == old(freed)
    {
      hide CallsOk, SharedOk, AnswersOk, FreedOk;
      StepKeeps(Abs(), if message.None? then Shutdown else Receive(message.value, memory));
      if message.None? {
        if request.Some? {
          freed := freed + [request.value.buffer];
          request, response := None, None;
        }
      } else if request.Some? && IsResponse(request.value.header, message.value.header) {
        freed := freed + [request.value.buffer];
        request := None;
        response := if memory then message else None;
      }
    }
  }
}
