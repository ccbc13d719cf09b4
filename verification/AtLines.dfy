/** readline: lines out of a fixed buffer that is filled by reads of any size. */
module AtLines {
  import opened Options
  import opened Sequences

  const NUL := '\0'
  const CR := '\r'
  const LF := '\n'
  const MAX_AT_RESPONSE := 4096

  predicate IsPrompt(s: string) { s == "> " }

  predicate IsEol(c: char) { c == CR || c == LF }

  // ------------------------------------------------------------- the lines of a stream

  /** The non-empty pieces that a CR or LF ends; acc is the piece under way. */
  function Pieces(acc: string, s: string): seq<string>
    decreases |s|
  {
    if s == "" then []
    else if IsEol(s[0]) then (if acc == "" then [] else [acc]) + Pieces("", s[1..])
    else Pieces(acc + [s[0]], s[1..])
  }

  /** What follows the last CR or LF. */
  function Tail(s: string): string
    decreases |s|
  {
    if s == "" then ""
    else if IsEol(s[|s| - 1]) then ""
    else Tail(s[..|s| - 1]) + [s[|s| - 1]]
  }

  // ------------------------------------------------------------- one call

  function Skip(s: string): (r: string)
    ensures |r| <= |s|
  {
    if s != "" && IsEol(s[0]) then Skip(s[1..]) else s
  }

  lemma SkipFirst(s: string)
    ensures Skip(s) != "" ==> !IsEol(Skip(s)[0])
  {}

  /** The index of the first CR or LF, or the length. */
  function EolAt(s: string): (i: nat)
    ensures i <= |s|
  {
    if s == "" || IsEol(s[0]) then 0 else 1 + EolAt(s[1..])
  }

  lemma EolFirst(s: string)
    ensures EolAt(s) < |s| ==> IsEol(s[EolAt(s)])
    ensures forall j :: 0 <= j < EolAt(s) ==> !IsEol(s[j])
  {}

  datatype Outcome =
    | Eof(rest: string)
    | Prompt(end: nat, chunks: seq<string>)
    | Line(line: string, rest: string, chunks: seq<string>)

  /** The wait for a line: the pending text q does not start with a newline and ends at position
      end of the buffer. */
  function NextLine(q: string, end: nat, chunks: seq<string>): (r: Outcome)
    ensures r.Line? ==> |r.chunks| < |chunks| || (|r.chunks| == |chunks| && |r.rest| < |q|)
    decreases |chunks|
  {
    if IsPrompt(q) then Prompt(end, chunks)
    else if EolAt(q) < |q| then Line(q[..EolAt(q)], q[EolAt(q) + 1..], chunks)
    else if chunks == [] then Eof(q)
    else NextLine(Skip(q + chunks[0]), end + |chunks[0]|, chunks[1..])
  }

  /** A call: a partial line is first moved to the start of the buffer. */
  function Call(p: string, end: nat, chunks: seq<string>): Outcome {
    NextLine(Skip(p), if IsPrompt(Skip(p)) then end else |Skip(p)|, chunks)
  }

  function NulAt(b: string, i: nat): (n: nat)
    requires i <= |b|
    ensures i <= n <= |b| && (n < |b| ==> b[n] == NUL) && forall j :: i <= j < n ==> b[j] != NUL
    decreases |b| - i
  {
    if i == |b| || b[i] == NUL then i else NulAt(b, i + 1)
  }

  /** The NUL-terminated text at a position. */
  function Text(b: string, i: nat): string
    requires i <= |b|
  {
    b[i..NulAt(b, i)]
  }

  /** No read fills the buffer. */
  predicate Fits(q: string, end: nat, chunks: seq<string>)
    decreases |chunks|
  {
    IsPrompt(q) || EolAt(q) < |q| || chunks == [] ||
    (end + |chunks[0]| < MAX_AT_RESPONSE && Fits(Skip(q + chunks[0]), end + |chunks[0]|, chunks[1..]))
  }

  /** Reads return at least one character and no NUL. */
  predicate Clean(chunks: seq<string>) {
    forall c <- chunks :: c != "" && NUL !in c
  }

  lemma SkipOne(p: string)
    requires p != "" && IsEol(p[0])
    ensures Skip(p) == Skip(p[1..])
  {}

  lemma SkipNone(p: string)
    requires p == "" || !IsEol(p[0])
    ensures Skip(p) == p
  {}

  /** What a search of the pending text q, which runs from cur to end, tells about the call. */
  predicate Searched(goal: Outcome, q: string, cur: nat, end: nat, eol: Option<nat>, rest: seq<string>)
    requires end == cur + |q|
  {
    if eol.None? then
      !IsPrompt(q) && EolAt(q) == |q| && goal == NextLine(q, end, rest) && Fits(q, end, rest)
    else if IsPrompt(q) then eol.value == end && goal == Prompt(end, rest)
    else
      && cur <= eol.value < end
      && goal == Line(q[..eol.value - cur], q[eol.value - cur + 1..], rest)
  }

  lemma SearchDone(q: string, cur: nat, end: nat, eol: Option<nat>, rest: seq<string>, at: nat)
    requires end == cur + |q| && Fits(q, end, rest)
    requires IsPrompt(q) ==> eol == Some(end)
    requires !IsPrompt(q) ==> eol == if EolAt(q) < |q| then Some(cur + EolAt(q)) else None
    ensures Searched(NextLine(q, end, rest), q, cur, end, eol, rest)
    ensures eol.Some? && !IsPrompt(q) ==> NextLine(q, end, rest) == NextLine(q, at, rest)
  {
    hide IsPrompt, Skip, EolAt, Fits;
    Found(q, end, rest);
    Found(q, at, rest);
  }

  // ------------------------------------------------------------- the buffer

  class Reader {
    const buf: array<char>
    var cur: nat
    ghost var end: nat

    /** The text from the cursor up to the NUL. */
    ghost predicate Valid()
      reads this, buf
    {
      && buf.Length == MAX_AT_RESPONSE && cur <= end < buf.Length
      && buf[end] == NUL && buf[buf.Length - 1] == NUL
      && (forall i :: cur <= i < end ==> buf[i] != NUL)
    }

    ghost function Pending(): (text: string)
      requires Valid()
      reads this, buf
      ensures |text| == end - cur
    {
      buf[cur..end]
    }

    constructor ()
      ensures Valid() && Pending() == "" && cur == 0 && fresh(buf)
      ensures forall i :: 0 <= i < buf.Length ==> buf[i] == NUL
    {
      buf := new char[MAX_AT_RESPONSE](_ => NUL);
      cur, end := 0, 0;
    }

    method SkipNewlines()
      requires Valid()
      modifies this`cur
      ensures Valid() && Pending() == Skip(old(Pending()))
    {
      hide Skip;
      while buf[cur] == CR || buf[cur] == LF
        invariant Valid() && Skip(Pending()) == Skip(old(Pending()))
        decreases end - cur
      {
        SkipOne(buf[cur..end]);
        assert buf[cur..end][1..] == buf[cur + 1..end];
        cur := cur + 1;
      }
      SkipNone(Pending());
    }

    /** findNextEOL; None for a NULL. */
    method FindNextEol() returns (eol: Option<nat>)
      requires Valid()
      ensures IsPrompt(Pending()) ==> eol == Some(end)
      ensures !IsPrompt(Pending()) ==>
        eol == if EolAt(Pending()) < |Pending()| then Some(cur + EolAt(Pending())) else None
    {
      hide EolAt, IsPrompt;
      PromptIff();
      if buf[cur] == '>' && buf[cur + 1] == ' ' && buf[cur + 2] == NUL {
        return Some(cur + 2);
      }
      var i := cur;
      while buf[i] != NUL && buf[i] != CR && buf[i] != LF
        invariant cur <= i <= end
        invariant forall j :: cur <= j < i ==> !IsEol(buf[j])
        decreases end - i
      {
        i := i + 1;
      }
      ghost var p := Pending();
      assert forall j :: 0 <= j < |p| ==> p[j] == buf[cur + j];
      EolUnique(p, i - cur);
      eol := if buf[i] == NUL then None else Some(i);
    }

    lemma PromptIff()
      requires Valid()
      ensures IsPrompt(Pending()) <==>
        buf[cur] == '>' && buf[cur + 1] == ' ' && buf[cur + 2] == NUL
      ensures IsPrompt(Pending()) ==> end == cur + 2
    {
      if end == cur + 2 {
        assert Pending() == [buf[cur], buf[cur + 1]];
      }
    }

    /** memmove of a partial line, with its NUL, to the start of the buffer. */
    method Compact() returns (len: nat)
      requires Valid()
      modifies this, buf
      ensures Valid() && Pending() == old(Pending()) && cur == 0 && len == end
      ensures forall i :: end < i < buf.Length ==> buf[i] == old(buf[i])
    {
      ghost var text := Pending();
      var i := 0;
      while buf[cur + i] != NUL
        invariant i <= |text| && cur + |text| == end
        invariant forall j :: 0 <= j < i ==> buf[j] == text[j]
        invariant forall j :: i <= j < buf.Length ==> buf[j] == old(buf[j])
        modifies buf
        decreases |text| - i
      {
        assert buf[cur + i] == text[i];
        buf[i] := buf[cur + i];
        i := i + 1;
      }
      buf[i] := NUL;
      cur, end, len := 0, i, i;
    }

    /** One read at the end of the text, and the NUL behind it. */
    method Append(pRead: nat, chunk: string)
      requires Valid() && pRead == end && NUL !in chunk && end + |chunk| < buf.Length
      modifies this`end, buf
      ensures Valid() && Pending() == old(Pending()) + chunk && end == old(end) + |chunk|
      ensures forall i :: end < i < buf.Length ==> buf[i] == old(buf[i])
    {
      for i := 0 to |chunk|
        invariant forall j :: 0 <= j < i ==> buf[pRead + j] == chunk[j]
        invariant forall j :: 0 <= j < pRead || pRead + i <= j < buf.Length ==> buf[j] == old(buf[j])
        modifies buf
      {
        buf[pRead + i] := chunk[i];
      }
      buf[pRead + |chunk|] := NUL;
      end := end + |chunk|;
      forall i | cur <= i < end ensures buf[i] != NUL {
        if i >= pRead {
          assert buf[pRead + (i - pRead)] == chunk[i - pRead];
        }
      }
    }

    /** The text at the cursor after a prompt is whatever the buffer held there. */
    ghost method Refind()
      requires buf.Length == MAX_AT_RESPONSE && cur < buf.Length && buf[buf.Length - 1] == NUL
      modifies this`end
      ensures Valid() && Pending() == Text(buf[..], cur)
    {
      end := NulAt(buf[..], cur);
    }

    /** The end of the line becomes a NUL and the cursor moves behind it; behind a prompt it leaves
        the text that was read. */
    method Cut(eol: nat) returns (line: string)
      requires Valid() && cur <= eol <= end
      modifies this, buf
      ensures line == old(Pending())[..eol - old(cur)]
      ensures eol < old(end) ==> Valid() && Pending() == old(Pending())[eol - old(cur) + 1..]
      ensures eol == old(end) ==>
        cur == eol + 1 && (cur < buf.Length ==> Valid() && Pending() == Text(old(buf[..]), cur))
    {
      hide Text;
      line := buf[cur..eol];
      buf[eol] := NUL;
      cur := eol + 1;
      if eol == end && cur < buf.Length {
        Refind();
        SameText(cur, buf[..], old(buf[..]));
      }
    }

    /** Leading newlines are passed over and the end of a line is looked for. */
    method Search(ghost rest: seq<string>) returns (eol: Option<nat>)
      requires Valid() && Fits(Skip(Pending()), end, rest)
      modifies this`cur
      ensures Valid() && Searched(NextLine(Skip(old(Pending())), end, rest), Pending(), cur, end, eol, rest)
    {
      hide Pending, IsPrompt, Skip, EolAt, NextLine, Fits, Searched;
      SkipNewlines();
      eol := FindNextEol();
      SearchDone(Pending(), cur, end, eol, rest, 0);
    }

    /** An empty buffer is used again from its start. */
    method Rewind()
      requires Valid() && Pending() == ""
      modifies this, buf
      ensures Valid() && Pending() == "" && end == 0
      ensures forall i :: 0 < i < buf.Length ==> buf[i] == old(buf[i])
    {
      cur, end := 0, 0;
      buf[cur] := NUL;
    }

    /** The search at the start of a call with text in the buffer, and the move of a partial line. */
    method Rescan(ghost chunks: seq<string>) returns (eol: Option<nat>, pRead: nat)
      requires Valid() && Fits(Skip(Pending()), |Skip(Pending())|, chunks)
      modifies this, buf
      ensures Valid() && Searched(Call(old(Pending()), old(end), chunks), Pending(), cur, end, eol, chunks)
      ensures eol.None? ==> pRead == end
      ensures forall i :: end < i < buf.Length ==> buf[i] == old(buf[i])
    {
      ghost var p := Pending();
      hide Pending, IsPrompt, Skip, EolAt, NextLine, Fits, Searched, Call;
      SkipNewlines();
      eol := FindNextEol();
      pRead := 0;
      if eol == None {
        RescanDone(p, Pending(), end, 0, |Pending()|, None, chunks);
        pRead := Compact();
      } else {
        RescanDone(p, Pending(), end, cur, end, eol, chunks);
      }
    }

    method Resume(ghost chunks: seq<string>) returns (eol: Option<nat>, pRead: nat)
      requires Valid() && Fits(Skip(Pending()), |Skip(Pending())|, chunks)
      modifies this, buf
      ensures Valid() && Searched(Call(old(Pending()), old(end), chunks), Pending(), cur, end, eol, chunks)
      ensures eol.None? ==> pRead == end
      ensures forall i :: end < i < buf.Length ==> buf[i] == old(buf[i])
    {
      hide Pending, IsPrompt, Skip, EolAt, NextLine, Fits, Searched, Call;
      if buf[cur] == NUL {
        assert Pending() == "";
        NothingPending(end, chunks);
        Rewind();
        eol, pRead := None, 0;
      } else {
        eol, pRead := Rescan(chunks);
      }
    }

    /** One read and the search of what is pending after it. */
    method Fill(pRead: nat, ghost rest: seq<string>, chunk: string) returns (eol: Option<nat>)
      requires Valid() && pRead == end && rest != [] && chunk == rest[0] && NUL !in chunk
      requires !IsPrompt(Pending()) && EolAt(Pending()) == |Pending()| && Fits(Pending(), end, rest)
      modifies this, buf
      ensures Valid() && end == pRead + |chunk|
      ensures Searched(NextLine(old(Pending()), pRead, rest), Pending(), cur, end, eol, rest[1..])
      ensures forall i :: end < i < buf.Length ==> buf[i] == old(buf[i])
    {
      Unfold(Pending(), end, rest);
      hide Pending, IsPrompt, Skip, EolAt, NextLine, Fits, Searched;
      Append(pRead, chunk);
      eol := Search(rest[1..]);
    }

    /** Reads until there is a line or the stream ends. */
    method Wait(ghost goal: Outcome, found: Option<nat>, start: nat, chunks: seq<string>)
      returns (eol: Option<nat>, rest: seq<string>)
      requires Valid() && Clean(chunks) && Searched(goal, Pending(), cur, end, found, chunks)
      requires found.None? ==> start == end
      modifies this, buf
      ensures Valid() && end >= old(end)
      ensures if eol.None? then goal == Eof(Pending()) && rest == []
              else Searched(goal, Pending(), cur, end, eol, rest)
      ensures forall i :: end < i < buf.Length ==> buf[i] == old(buf[i])
    {
      hide Pending, IsPrompt, Skip, EolAt, NextLine, Fits, Searched;
      rest := chunks;
      eol := found;
      var pRead := start;
      while eol == None
        invariant Valid() && Clean(rest) && end >= old(end)
        invariant Searched(goal, Pending(), cur, end, eol, rest)
        invariant eol.None? ==> pRead == end
        invariant forall i :: end < i < buf.Length ==> buf[i] == old(buf[i])
        decreases |rest|
      {
        Unfound(goal, Pending(), cur, end, rest);
        if rest == [] { return; }
        assert rest[0] in rest && forall c <- rest[1..] :: c in rest;
        eol := Fill(pRead, rest, rest[0]);
        pRead := pRead + |rest[0]|;
        rest := rest[1..];
      }
    }

    /** The line found is cut off; before is the buffer as it was when the call began. */
    method Deliver(ghost goal: Outcome, ghost before: string, eol: nat, ghost rest: seq<string>)
      returns (line: string, prompt: bool)
      requires Valid() && Searched(goal, Pending(), cur, end, Some(eol), rest)
      requires |before| == buf.Length && forall i :: end < i < buf.Length ==> buf[i] == before[i]
      modifies this, buf
      ensures !goal.Eof? && goal.chunks == rest && prompt == goal.Prompt?
      ensures goal.Line? ==> line == goal.line && Valid() && Pending() == goal.rest
      ensures goal.Prompt? ==>
        && IsPrompt(line) && cur == goal.end + 1
        && (cur < buf.Length ==> Valid() && Pending() == Text(before, cur))
    {
      hide Pending, IsPrompt, Skip, EolAt, NextLine, Fits, Searched, Text;
      Delivered(goal, Pending(), cur, end, eol, rest);
      SameText(end + 1, buf[..], before);
      prompt := buf[eol] == NUL;
      line := Cut(eol);
    }

    /** readline; prompt tells that the line is a bare prompt, without a newline behind it. */
    method ReadLine(chunks: seq<string>) returns (line: Option<string>, rest: seq<string>, prompt: bool)
      requires Valid() && Clean(chunks) && Fits(Skip(Pending()), |Skip(Pending())|, chunks)
      modifies this, buf
      ensures prompt == Call(old(Pending()), old(end), chunks).Prompt?
      ensures
        match Call(old(Pending()), old(end), chunks)
        case Eof(q) => line == None && rest == [] && Valid() && Pending() == q
        case Line(l, q, c) => line == Some(l) && rest == c && Valid() && Pending() == q
        case Prompt(e, c) =>
          && line.Some? && IsPrompt(line.value) && rest == c && cur == e + 1
          && (cur < buf.Length ==> Valid() && Pending() == Text(old(buf[..]), cur))
    {
      hide Pending, IsPrompt, Skip, EolAt, NextLine, Fits, Searched, Call, Text;
      ghost var goal := Call(Pending(), end, chunks);
      var eol, pRead := Resume(chunks);
      eol, rest := Wait(goal, eol, pRead, chunks);
      if eol == None { return None, rest, false; }
      var l;
      l, prompt := Deliver(goal, old(buf[..]), eol.value, rest);
      line := Some(l);
    }
  }

  lemma RescanDone(p: string, q: string, e: nat, cur: nat, end: nat, eol: Option<nat>, chunks: seq<string>)
    requires q == Skip(p)
    requires Fits(q, |q|, chunks)
    requires end == cur + |q|
    requires eol.Some? ==> end == e
    requires eol.None? ==> cur == 0 && EolAt(q) == |q|
    requires IsPrompt(q) ==> eol == Some(end)
    requires !IsPrompt(q) && eol.Some? ==> EolAt(q) < |q| && eol == Some(cur + EolAt(q))
    ensures Searched(Call(p, e, chunks), q, cur, end, eol, chunks)
  {
    hide IsPrompt, Skip, EolAt, Fits;
    Found(q, end, chunks);
    Found(q, |q|, chunks);
  }

  lemma NothingPending(e: nat, chunks: seq<string>)
    requires Fits(Skip(""), |Skip("")|, chunks)
    ensures Searched(Call("", e, chunks), "", 0, 0, None, chunks)
  {
    hide NextLine, Fits;
  }

  lemma Delivered(goal: Outcome, q: string, cur: nat, end: nat, eol: nat, rest: seq<string>)
    requires end == cur + |q| && Searched(goal, q, cur, end, Some(eol), rest)
    ensures cur <= eol <= end
    ensures goal == if eol == end then Prompt(end, rest) else Line(q[..eol - cur], q[eol - cur + 1..], rest)
    ensures eol == end ==> IsPrompt(q) && q == q[..eol - cur]
  {
    hide IsPrompt, NextLine, Fits;
  }

  lemma SameText(i: nat, a: string, b: string)
    requires i <= |a| == |b|
    ensures (forall j :: i <= j < |a| ==> a[j] == b[j]) ==> Text(a, i) == Text(b, i)
  {
    if forall j :: i <= j < |a| ==> a[j] == b[j] {
      var m, n := NulAt(a, i), NulAt(b, i);
      assert forall j :: i <= j < m ==> b[j] == a[j];
      assert forall j :: i <= j < n ==> a[j] == b[j];
    }
  }

  lemma Unfound(goal: Outcome, q: string, cur: nat, end: nat, rest: seq<string>)
    requires end == cur + |q| && Searched(goal, q, cur, end, None, rest)
    ensures !IsPrompt(q) && EolAt(q) == |q| && goal == NextLine(q, end, rest) && Fits(q, end, rest)
    ensures rest == [] ==> goal == Eof(q)
  {
    hide IsPrompt, Skip, EolAt;
  }

  lemma Unfold(q: string, end: nat, rest: seq<string>)
    requires !IsPrompt(q) && EolAt(q) == |q| && rest != [] && Fits(q, end, rest)
    ensures NextLine(q, end, rest) == NextLine(Skip(q + rest[0]), end + |rest[0]|, rest[1..])
    ensures end + |rest[0]| < MAX_AT_RESPONSE && Fits(Skip(q + rest[0]), end + |rest[0]|, rest[1..])
  {
    hide IsPrompt, Skip, EolAt;
  }

  lemma Found(q: string, end: nat, chunks: seq<string>)
    ensures IsPrompt(q) ==> NextLine(q, end, chunks) == Prompt(end, chunks)
    ensures !IsPrompt(q) && EolAt(q) < |q| ==>
      NextLine(q, end, chunks) == Line(q[..EolAt(q)], q[EolAt(q) + 1..], chunks)
  {
    hide IsPrompt, Skip, EolAt;
  }

  lemma {:induction false} EolUnique(s: string, i: nat)
    requires i <= |s| && (i < |s| ==> IsEol(s[i])) && forall j :: 0 <= j < i ==> !IsEol(s[j])
    ensures EolAt(s) == i
  {
    hide EolAt;
    EolFirst(s);
  }

  // ------------------------------------------------------------- all calls together

  datatype Run = Run(lines: seq<string>, prompt: bool)

  /** The lines of successive calls, until the stream ends or a prompt is returned. */
  function Lines(q: string, chunks: seq<string>): Run
    decreases |chunks|, |q|
  {
    if IsPrompt(q) then Run([q], true)
    else if EolAt(q) < |q| then
      var r := Lines(Skip(q[EolAt(q) + 1..]), chunks);
      Run([q[..EolAt(q)]] + r.lines, r.prompt)
    else if chunks == [] then Run([], false)
    else Lines(Skip(q + chunks[0]), chunks[1..])
  }

  lemma NoEolPieces(acc: string, s: string, t: string)
    requires forall c <- s :: !IsEol(c)
    ensures Pieces(acc, s + t) == Pieces(acc + s, t)
    decreases |s|
  {
    if s == "" {
      assert s + t == t && acc + s == acc;
    } else {
      assert (s + t)[1..] == s[1..] + t && acc + [s[0]] + s[1..] == acc + s;
      NoEolPieces(acc + [s[0]], s[1..], t);
    }
  }

  /** A text without CR and LF, and one of them behind it, is a piece, unless it is empty ... */
  lemma PieceCut(text: string, c: char, rest: string)
    requires (c == '\r' || c == '\n') && forall x <- text :: x != '\r' && x != '\n'
    ensures Pieces("", text + [c] + rest) == (if text == "" then [] else [text]) + Pieces("", rest)
  {
    hide Pieces;
    assert text + [c] + rest == text + ([c] + rest);
    NoEolPieces("", text, [c] + rest);
    assert "" + text == text && ([c] + rest)[1..] == rest;
    CutHere(text, [c] + rest);
  }

  lemma CutHere(acc: string, s: string)
    requires s != "" && (s[0] == '\r' || s[0] == '\n')
    ensures Pieces(acc, s) == (if acc == "" then [] else [acc]) + Pieces("", s[1..])
  {}

  /** ... and with nothing behind it none. */
  lemma NoPieceYet(text: string)
    requires forall x <- text :: x != '\r' && x != '\n'
    ensures Pieces("", text) == []
  {
    hide Pieces;
    NoEolPieces("", text, "");
    assert text + "" == text && "" + text == text;
    NoPieces(text);
  }

  lemma {:induction false} SkipPieces(s: string, t: string)
    ensures Pieces("", Skip(s) + t) == Pieces("", s + t)
    decreases |s|
  {
    if s != "" && IsEol(s[0]) {
      assert (s + t)[1..] == s[1..] + t;
      SkipPieces(s[1..], t);
    }
  }

  lemma LinePieces(q: string, t: string)
    requires q != "" && !IsEol(q[0]) && EolAt(q) < |q|
    ensures Pieces("", q + t) == [q[..EolAt(q)]] + Pieces("", q[EolAt(q) + 1..] + t)
  {
    hide EolAt;
    EolFirst(q);
    var i := EolAt(q);
    var rest := q[i..] + t;
    assert q + t == q[..i] + rest;
    NoEolPieces("", q[..i], rest);
    assert rest[1..] == q[i + 1..] + t;
    assert "" + q[..i] == q[..i];
  }

  /** The next piece of the stream is the line, when there is no prompt. */
  lemma {:induction false} LinesArePieces(q: string, chunks: seq<string>)
    requires q == "" || !IsEol(q[0])
    ensures !Lines(q, chunks).prompt ==> Lines(q, chunks).lines == Pieces("", q + Concat(chunks))
    decreases |chunks|, |q|
  {
    hide Pieces, Skip, Concat, EolAt, IsPrompt;
    EolFirst(q);
    var i := EolAt(q);
    if IsPrompt(q) {
    } else if i < |q| {
      SkipFirst(q[i + 1..]);
      LinesArePieces(Skip(q[i + 1..]), chunks);
      SkipPieces(q[i + 1..], Concat(chunks));
      LinePieces(q, Concat(chunks));
    } else if chunks == [] {
      ConcatNil<char>();
      NoEolPieces("", q, "");
      NoPieces("" + q);
    } else {
      SkipFirst(q + chunks[0]);
      LinesArePieces(Skip(q + chunks[0]), chunks[1..]);
      SkipPieces(q + chunks[0], Concat(chunks[1..]));
      ConcatFirst(q, chunks);
    }
  }

  lemma ConcatFirst(q: string, chunks: seq<string>)
    requires chunks != []
    ensures q + chunks[0] + Concat(chunks[1..]) == q + Concat(chunks)
  {}

  lemma NoPieces(acc: string)
    ensures Pieces(acc, "") == []
  {}

  // ------------------------------------------------------------- prompts

  lemma {:induction false} TailAfterEol(a: string, e: char, b: string)
    requires IsEol(e)
    ensures Tail(a + [e] + b) == Tail(b)
    decreases |b|
  {
    var s := a + [e] + b;
    if b != "" {
      assert s[..|s| - 1] == a + [e] + b[..|b| - 1];
      TailAfterEol(a, e, b[..|b| - 1]);
    }
  }

  lemma {:induction false} TailWithoutEol(s: string)
    requires forall c <- s :: !IsEol(c)
    ensures Tail(s) == s
    decreases |s|
  {
    if s != "" {
      TailWithoutEol(s[..|s| - 1]);
    }
  }

  lemma TailAfterFirst(s: string, t: string)
    requires s != "" && IsEol(s[0])
    ensures Tail(s + t) == Tail(s[1..] + t)
  {
    hide Tail;
    assert s + t == [s[0]] + (s[1..] + t);
    assert "" + [s[0]] == [s[0]];
    TailAfterEol("", s[0], s[1..] + t);
  }

  lemma {:induction false} SkipTail(s: string, t: string)
    ensures Tail(Skip(s) + t) == Tail(s + t)
    decreases |s|
  {
    hide Tail;
    if s != "" && IsEol(s[0]) {
      SkipOne(s);
      TailAfterFirst(s, t);
      SkipTail(s[1..], t);
    } else {
      SkipNone(s);
    }
  }

  /** After some number of reads the text behind the last newline is just the prompt. */
  predicate PromptAfter(q: string, chunks: seq<string>, k: nat)
    requires k <= |chunks|
  {
    Tail(q + Concat(chunks[..k])) == "> "
  }

  predicate EverPrompt(q: string, chunks: seq<string>) {
    exists k :: 0 <= k <= |chunks| && PromptAfter(q, chunks, k)
  }

  lemma LinePrompt(q: string, chunks: seq<string>)
    requires EolAt(q) < |q|
    ensures EverPrompt(q, chunks) == EverPrompt(Skip(q[EolAt(q) + 1..]), chunks)
  {
    hide Tail, Skip, EolAt, IsPrompt, Concat;
    var r := Skip(q[EolAt(q) + 1..]);
    forall k | 0 <= k <= |chunks| ensures PromptAfter(q, chunks, k) == PromptAfter(r, chunks, k) {
      SameTail(q, Concat(chunks[..k]));
    }
  }

  lemma ReadPrompt(q: string, chunks: seq<string>)
    requires EolAt(q) == |q| && !IsPrompt(q) && chunks != []
    ensures EverPrompt(q, chunks) == EverPrompt(Skip(q + chunks[0]), chunks[1..])
  {
    hide Tail, Skip, EolAt, IsPrompt, Concat;
    var r, rest := Skip(q + chunks[0]), chunks[1..];
    NowPrompt(q, chunks);
    forall k | 0 <= k <= |rest| ensures PromptAfter(q, chunks, k + 1) == PromptAfter(r, rest, k) {
      MoreTail(q, chunks, k);
    }
    if EverPrompt(q, chunks) {
      var k :| 0 <= k <= |chunks| && PromptAfter(q, chunks, k);
      assert PromptAfter(q, chunks, k - 1 + 1);
      assert PromptAfter(r, rest, k - 1);
    }
  }

  /** A prompt comes out exactly when some read leaves just a prompt behind the last newline. */
  lemma {:induction false} PromptIff(q: string, chunks: seq<string>)
    ensures Lines(q, chunks).prompt <==> EverPrompt(q, chunks)
    decreases |chunks|, |q|
  {
    hide EverPrompt, PromptAfter, Skip;
    if IsPrompt(q) {
      EndPrompt(q, chunks);
    } else if EolAt(q) < |q| {
      PromptIff(Skip(q[EolAt(q) + 1..]), chunks);
      LinePrompt(q, chunks);
    } else if chunks == [] {
      EndPrompt(q, chunks);
    } else {
      PromptIff(Skip(q + chunks[0]), chunks[1..]);
      ReadPrompt(q, chunks);
    }
  }

  lemma EndPrompt(q: string, chunks: seq<string>)
    requires EolAt(q) == |q| || IsPrompt(q)
    ensures IsPrompt(q) ==> EverPrompt(q, chunks)
    ensures chunks == [] && !IsPrompt(q) ==> !EverPrompt(q, chunks)
  {
    hide Tail, EolAt, IsPrompt, Concat;
    NowPrompt(q, chunks);
  }

  lemma NowPrompt(q: string, chunks: seq<string>)
    requires EolAt(q) == |q| || IsPrompt(q)
    ensures PromptAfter(q, chunks, 0) == IsPrompt(q)
  {
    EolFirst(q);
    assert chunks[..0] == [];
    assert q + Concat([]) == q;
    TailWithoutEol(q);
  }

  lemma SameTail(q: string, t: string)
    requires EolAt(q) < |q|
    ensures Tail(q + t) == Tail(Skip(q[EolAt(q) + 1..]) + t)
  {
    hide Tail, Skip, EolAt;
    EolFirst(q);
    var i := EolAt(q);
    assert q + t == q[..i] + [q[i]] + (q[i + 1..] + t);
    TailAfterEol(q[..i], q[i], q[i + 1..] + t);
    SkipTail(q[i + 1..], t);
  }

  lemma MoreTail(q: string, chunks: seq<string>, k: nat)
    requires k < |chunks|
    ensures Tail(q + Concat(chunks[..k + 1])) == Tail(Skip(q + chunks[0]) + Concat(chunks[1..][..k]))
  {
    hide Tail, Skip;
    assert chunks[..k + 1][1..] == chunks[1..][..k];
    SkipTail(q + chunks[0], Concat(chunks[1..][..k]));
    assert q + chunks[0] + Concat(chunks[1..][..k]) == q + Concat(chunks[..k + 1]);
  }

  // ------------------------------------------------------------- the reader

  /** Successive calls make up the run. */
  lemma {:induction false} CallsMakeLines(q: string, end: nat, chunks: seq<string>)
    ensures
      var o, run := NextLine(q, end, chunks), Lines(q, chunks);
      && (o.Eof? ==> run == Run([], false))
      && (o.Prompt? ==> run.prompt && |run.lines| == 1 && IsPrompt(run.lines[0]))
      && (o.Line? ==> run == Run([o.line] + Lines(Skip(o.rest), o.chunks).lines, Lines(Skip(o.rest), o.chunks).prompt))
    decreases |chunks|
  {
    hide Skip, EolAt, IsPrompt;
    if !IsPrompt(q) && EolAt(q) == |q| && chunks != [] {
      CallsMakeLines(Skip(q + chunks[0]), end + |chunks[0]|, chunks[1..]);
    }
  }

  lemma {:induction false} CleanRest(q: string, end: nat, chunks: seq<string>)
    requires Clean(chunks)
    ensures !NextLine(q, end, chunks).Eof? ==> Clean(NextLine(q, end, chunks).chunks)
    decreases |chunks|
  {
    hide Skip, EolAt, IsPrompt;
    if !IsPrompt(q) && EolAt(q) == |q| && chunks != [] {
      assert forall c <- chunks[1..] :: c in chunks;
      CleanRest(Skip(q + chunks[0]), end + |chunks[0]|, chunks[1..]);
    }
  }

  /** No read of any call fills the buffer. */
  predicate FitsAll(p: string, chunks: seq<string>)
    decreases |chunks|, |p|
  {
    && Fits(Skip(p), |Skip(p)|, chunks)
    && match Call(p, 0, chunks)
       case Line(_, r, c) => FitsAll(r, c)
       case _ => true
  }

  lemma SkipEver(p: string, chunks: seq<string>)
    ensures EverPrompt(Skip(p), chunks) == EverPrompt(p, chunks)
  {
    hide Tail, Skip, IsPrompt, Concat;
    forall k | 0 <= k <= |chunks| ensures PromptAfter(Skip(p), chunks, k) == PromptAfter(p, chunks, k) {
      SkipTail(p, Concat(chunks[..k]));
    }
  }

  /** The lines depend on the stream alone, not on how the reads cut it. */
  lemma ReadBoundariesDoNotMatter(p: string, chunks: seq<string>)
    requires !EverPrompt(p, chunks)
    ensures Lines(Skip(p), chunks) == Run(Pieces("", p + Concat(chunks)), false)
  {
    hide Tail, Skip, EverPrompt, Lines, Pieces;
    SkipEver(p, chunks);
    SkipFirst(p);
    PromptIff(Skip(p), chunks);
    LinesArePieces(Skip(p), chunks);
    SkipPieces(p, Concat(chunks));
  }

  lemma CallStep(p: string, end: nat, chunks: seq<string>)
    requires Clean(chunks) && FitsAll(p, chunks)
    ensures Fits(Skip(p), |Skip(p)|, chunks)
    ensures
      var run := Lines(Skip(p), chunks);
      match Call(p, end, chunks)
      case Eof(_) => run == Run([], false)
      case Prompt(_, _) => run.prompt && |run.lines| == 1 && IsPrompt(run.lines[0])
      case Line(l, r, c) =>
        && Clean(c) && FitsAll(r, c)
        && (|c| < |chunks| || (|c| == |chunks| && |r| < |p|))
        && run == Run([l] + Lines(Skip(r), c).lines, Lines(Skip(r), c).prompt)
  {
    hide Skip, EolAt, Fits, NextLine, Lines, Clean, IsPrompt;
    Found(Skip(p), 0, chunks);
    Found(Skip(p), end, chunks);
    CallsMakeLines(Skip(p), |Skip(p)|, chunks);
    CallsMakeLines(Skip(p), end, chunks);
    CleanRest(Skip(p), |Skip(p)|, chunks);
    CleanRest(Skip(p), end, chunks);
  }

  lemma SamePrompt(a: string, b: string)
    requires IsPrompt(a) && IsPrompt(b)
    ensures a == b
  {}

  /** The calls of readerLoop, up to the NULL or a prompt. */
  method ReadRun(reader: Reader, chunks: seq<string>) returns (lines: seq<string>, prompt: bool)
    requires reader.Valid() && Clean(chunks) && FitsAll(reader.Pending(), chunks)
    modifies reader, reader.buf
    ensures Run(lines, prompt) == Lines(Skip(old(reader.Pending())), chunks)
  {
    hide IsPrompt, Skip, Lines, NextLine, Fits, Call, reader.Pending;
    ghost var goal := Lines(Skip(reader.Pending()), chunks);
    lines, prompt := [], false;
    var rest := chunks;
    while true
      invariant reader.Valid() && Clean(rest) && FitsAll(reader.Pending(), rest)
      invariant lines + Lines(Skip(reader.Pending()), rest).lines == goal.lines
      invariant Lines(Skip(reader.Pending()), rest).prompt == goal.prompt
      decreases |rest|, |reader.Pending()|
    {
      ghost var run := Lines(Skip(reader.Pending()), rest);
      CallStep(reader.Pending(), reader.end, rest);
      var line;
      line, rest, prompt := reader.ReadLine(rest);
      if line == None {
        assert lines + [] == lines;
        return lines, false;
      }
      if prompt {
        SamePrompt(line.value, run.lines[0]);
        return lines + [line.value], true;
      }
      SeqAssoc(lines, [line.value], Lines(Skip(reader.Pending()), rest).lines);
      lines := lines + [line.value];
    }
  }

  /** Without a prompt they give the pieces of the stream. */
  method ReadAll(reader: Reader, chunks: seq<string>) returns (lines: seq<string>)
    requires reader.Valid() && Clean(chunks) && FitsAll(reader.Pending(), chunks)
    requires !EverPrompt(reader.Pending(), chunks)
    modifies reader, reader.buf
    ensures lines == Pieces("", old(reader.Pending()) + Concat(chunks))
  {
    hide Lines, Pieces, Concat, EverPrompt, FitsAll, Clean, reader.Pending;
    ReadBoundariesDoNotMatter(reader.Pending(), chunks);
    var prompt;
    lines, prompt := ReadRun(reader, chunks);
  }

  // ------------------------------------------------------------- after a prompt

  /** A prompt leaves the cursor one behind the NUL, on what earlier reads left in the buffer; the
      calls that follow give the lines of that text and the rest of the stream. */
  method ReadPastPrompt(reader: Reader, chunks: seq<string>) returns (lines: seq<string>, prompt: bool)
    requires reader.Valid() && Clean(chunks) && Fits(Skip(reader.Pending()), |Skip(reader.Pending())|, chunks)
    requires
      var o := Call(reader.Pending(), reader.end, chunks);
      && o.Prompt? && o.end + 1 < reader.buf.Length
      && FitsAll(Text(reader.buf[..], o.end + 1), o.chunks)
    modifies reader, reader.buf
    ensures
      var o := old(Call(reader.Pending(), reader.end, chunks));
      Run(lines, prompt) == Lines(Skip(Text(old(reader.buf[..]), o.end + 1)), o.chunks)
  {
    hide IsPrompt, Skip, Lines, NextLine, Fits, Call, Text, FitsAll, Clean, reader.Pending;
    CallClean(reader.Pending(), reader.end, chunks);
    var line, rest, bare := reader.ReadLine(chunks);
    lines, prompt := ReadRun(reader, rest);
  }

  lemma CallClean(p: string, end: nat, chunks: seq<string>)
    requires Clean(chunks)
    ensures !Call(p, end, chunks).Eof? ==> Clean(Call(p, end, chunks).chunks)
  {
    hide IsPrompt, Skip, NextLine, Clean;
    CleanRest(Skip(p), if IsPrompt(Skip(p)) then end else |Skip(p)|, chunks);
  }

  /** What follows a prompt is right, for every stream without a further prompt, exactly when the text
      left in the buffer is nothing but newlines. */
  lemma PromptHarmlessIff(stale: string)
    ensures
      (forall chunks: seq<string> :: !EverPrompt("", chunks) ==>
         Lines(Skip(stale), chunks) == Run(Pieces("", Concat(chunks)), false))
      <==> Skip(stale) == ""
  {
    hide Skip, Lines, Pieces, Concat, EverPrompt;
    if Skip(stale) == "" {
      forall chunks: seq<string> | !EverPrompt("", chunks)
        ensures Lines(Skip(stale), chunks) == Run(Pieces("", Concat(chunks)), false)
      {
        SkipNone("");
        ReadBoundariesDoNotMatter("", chunks);
        assert "" + Concat(chunks) == Concat(chunks);
      }
    } else {
      NewlineAlone();
      SkipFirst(stale);
      StaleLine(Skip(stale));
    }
  }

  /** A stream of one newline has no line and no prompt ... */
  lemma NewlineAlone()
    ensures !EverPrompt("", [[CR]]) && Pieces("", Concat([[CR]])) == []
  {
    ConcatOne([CR]);
    assert Pieces("", [CR]) == [] + Pieces("", [CR][1..]);
    forall k | 0 <= k <= 1 ensures !PromptAfter("", [[CR]], k) {
      assert [[CR]][..0] == [] && [[CR]][..1] == [[CR]];
      assert "" + Concat([[CR]][..k]) == if k == 0 then "" else [CR];
    }
  }

  /** ... but behind other text it ends a line, unless that text is a prompt. */
  lemma StaleLine(q: string)
    requires q != "" && !IsEol(q[0])
    ensures Lines(q, [[CR]]) != Run([], false)
  {
    LinesArePieces(q, [[CR]]);
    ConcatOne([CR]);
    hide Lines;
    if !Lines(q, [[CR]]).prompt {
      var s := q + [CR];
      EolFirst(s);
      EolBefore(q);
      LinePieces(s, "");
      assert s + "" == s;
    }
  }

  lemma {:induction false} EolBefore(q: string)
    ensures EolAt(q + [CR]) <= |q|
    decreases |q|
  {
    if q != "" && !IsEol(q[0]) {
      assert (q + [CR])[1..] == q[1..] + [CR];
      EolBefore(q[1..]);
    }
  }
}
