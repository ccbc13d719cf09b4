/** at_tok: tokens cut out of an AT response line in place. */
module AtTok {
  import opened Ctype
  import opened Options
  import opened Sequences

  const NUL := '\0'
  const QUOTE := '"'
  const COMMA := ','

  // ------------------------------------------------------------- on the remaining text

  function SkipSpace(s: string): (r: string)
    ensures |r| <= |s|
  {
    if s != "" && IsSpace(s[0]) then SkipSpace(s[1..]) else s
  }

  /** The index of the first c, or the length. */
  function IndexOf(s: string, c: char): (i: nat)
    ensures i <= |s|
  {
    if s == "" || s[0] == c then 0 else 1 + IndexOf(s[1..], c)
  }

  lemma IndexFirst(s: string, c: char)
    ensures IndexOf(s, c) < |s| ==> s[IndexOf(s, c)] == c
    ensures forall j :: 0 <= j < IndexOf(s, c) ==> s[j] != c
  {}

  lemma IndexUnique(s: string, c: char, i: nat)
    requires i <= |s| && (i < |s| ==> s[i] == c) && forall j :: 0 <= j < i ==> s[j] != c
    ensures IndexOf(s, c) == i
  {
    hide IndexOf;
    IndexFirst(s, c);
  }

  /** strsep: the piece before the separator, and what follows it if there was one. */
  function Before(s: string, c: char): string { s[..IndexOf(s, c)] }

  function Behind(s: string, c: char): (r: Option<string>)
    ensures r.Some? ==> |r.value| < |s|
  {
    if IndexOf(s, c) < |s| then Some(s[IndexOf(s, c) + 1..]) else None
  }

  /** skipNextComma */
  function PastComma(s: string): (r: string)
    ensures |r| <= |s|
  {
    if IndexOf(s, COMMA) < |s| then s[IndexOf(s, COMMA) + 1..] else ""
  }

  datatype Cut = Cut(token: string, rest: Option<string>)

  /** nextTok */
  function NextTok(s: string): (r: Cut)
    ensures r.rest.Some? ==> |r.rest.value| < |s|
  {
    var t := SkipSpace(s);
    if t != "" && t[0] == QUOTE then
      var rest := Behind(t[1..], QUOTE);
      Cut(Before(t[1..], QUOTE), if rest.Some? then Some(PastComma(rest.value)) else None)
    else Cut(Before(t, COMMA), Behind(t, COMMA))
  }

  /** at_tok_nextstr while at_tok_hasmore */
  function Tokens(s: string): seq<string>
    decreases |s|
  {
    if s == "" then []
    else
      var c := NextTok(s);
      [c.token] + if c.rest.Some? then Tokens(c.rest.value) else []
  }

  // ------------------------------------------------------------- the inverse of joining

  datatype Token = Quoted(text: string) | Plain(text: string)

  /** Tokens a response can carry: no quote inside quotes; no comma outside them, nor a blank or a
      quote in front. */
  predicate Writable(t: Token) {
    match t
    case Quoted(s) => '"' !in s
    case Plain(s) => ',' !in s && (s == "" || (!IsSpace(s[0]) && s[0] != '"'))
  }

  function Show(t: Token): string {
    if t.Quoted? then ['"'] + t.text + ['"'] else t.text
  }

  function Join(ts: seq<Token>): string
    requires ts != []
  {
    if |ts| == 1 then Show(ts[0]) else Show(ts[0]) + [','] + Join(ts[1..])
  }

  function Texts(ts: seq<Token>): seq<string> {
    if ts == [] then [] else [ts[0].text] + Texts(ts[1..])
  }

  /** One token, alone or in front of a comma and more. */
  lemma CutAlone(t: Token)
    requires Writable(t)
    ensures NextTok(Show(t)) == Cut(t.text, if t.Quoted? then Some("") else None)
  {
    hide IndexOf;
    var s := Show(t);
    assert SkipSpace(s) == s;
    if t.Quoted? {
      IndexUnique(s[1..], QUOTE, |t.text|);
      assert s[1..][|t.text| + 1..] == "";
      IndexUnique("", COMMA, 0);
    } else {
      IndexUnique(s, COMMA, |s|);
    }
  }

  lemma CutQuoted(text: string, more: string)
    requires QUOTE !in text
    ensures NextTok([QUOTE] + text + [QUOTE] + [COMMA] + more) == Cut(text, Some(more))
  {
    hide IndexOf;
    var s := [QUOTE] + text + [QUOTE] + [COMMA] + more;
    SkipNone(s);
    hide SkipSpace;
    assert s[1..] == text + ([QUOTE] + [COMMA] + more);
    IndexUnique(s[1..], QUOTE, |text|);
    var rest := s[1..][|text| + 1..];
    assert rest == [COMMA] + more;
    IndexUnique(rest, COMMA, 0);
  }

  lemma CutPlain(text: string, more: string)
    requires Writable(Plain(text))
    ensures NextTok(text + [COMMA] + more) == Cut(text, Some(more))
  {
    hide IndexOf;
    var s := text + [COMMA] + more;
    SkipNone(s);
    hide SkipSpace;
    IndexUnique(s, COMMA, |text|);
  }

  lemma SkipNone(s: string)
    requires s == "" || !IsSpace(s[0])
    ensures SkipSpace(s) == s
  {}

  lemma CutFirst(t: Token, more: string)
    requires Writable(t)
    ensures NextTok(Show(t) + [COMMA] + more) == Cut(t.text, Some(more))
  {
    hide NextTok;
    if t.Quoted? {
      CutQuoted(t.text, more);
    } else {
      CutPlain(t.text, more);
    }
  }

  predicate AllWritable(ts: seq<Token>) {
    forall t <- ts :: Writable(t)
  }

  /** The tokens of a joined list are the list, except that an empty plain token at the end is not
      seen. */
  lemma {:induction false} TokensOfJoin(ts: seq<Token>)
    requires ts != [] && AllWritable(ts)
    ensures Tokens(Join(ts)) == if ts[|ts| - 1] == Plain("") then Texts(ts[..|ts| - 1]) else Texts(ts)
    decreases |ts|
  {
    hide NextTok, Writable;
    var s := Join(ts);
    if |ts| == 1 {
      CutAlone(ts[0]);
    } else {
      CutFirst(ts[0], Join(ts[1..]));
      TokensOfJoin(ts[1..]);
      assert ts[1..][..|ts| - 2] == ts[..|ts| - 1][1..];
    }
  }

  /** The tokenizer inverts joining exactly when the last token is quoted or not empty. */
  lemma InvertsJoinIff(ts: seq<Token>)
    requires ts != [] && AllWritable(ts)
    ensures Tokens(Join(ts)) == Texts(ts) <==> ts[|ts| - 1].Quoted? || ts[|ts| - 1].text != ""
  {
    TokensOfJoin(ts);
    TextsLength(ts);
    TextsLength(ts[..|ts| - 1]);
  }

  lemma TextsLength(ts: seq<Token>)
    ensures |Texts(ts)| == |ts|
  {}

  // ------------------------------------------------------------- what is passed over

  /** Blanks in front of a token ... */
  lemma {:induction false} BlanksSkipped(blanks: string, s: string)
    requires (forall c <- blanks :: c == ' ') && s != ""
    ensures Tokens(blanks + s) == Tokens(s)
    decreases |blanks|
  {
    hide Tokens;
    if blanks == "" {
      assert blanks + s == s;
    } else {
      assert (blanks + s)[1..] == blanks[1..] + s && (blanks + s)[0] == blanks[0] && blanks[0] in blanks;
      assert forall c <- blanks[1..] :: c in blanks;
      BlanksSkipped(blanks[1..], s);
      SameTokens(blanks + s);
    }
  }

  lemma SameTokens(s: string)
    requires |s| > 1 && s[0] == ' '
    ensures Tokens(s) == Tokens(s[1..])
  {
    hide Before, Behind, PastComma;
    SkipOne(s);
  }

  /** ... and whatever stands between a closing quote and the comma. */
  lemma JunkSkipped(text: string, junk: string, more: string)
    requires '"' !in text && ',' !in junk
    ensures Tokens(['"'] + text + ['"'] + junk + [','] + more) == [text] + Tokens(more)
  {
    hide IndexOf;
    var t := text + (['"'] + (junk + ([','] + more)));
    var s := ['"'] + text + ['"'] + junk + [','] + more;
    assert s[1..] == t;
    SkipNone(s);
    hide SkipSpace;
    IndexPast(text, '"', junk + ([','] + more));
    assert t[|text| + 1..] == junk + ([','] + more);
    IndexPast(junk, ',', more);
    assert (junk + ([','] + more))[|junk| + 1..] == more;
  }

  lemma IndexPast(a: string, c: char, b: string)
    requires c !in a
    ensures IndexOf(a + ([c] + b), c) == |a|
  {
    var s := a + ([c] + b);
    assert s[|a|] == c && forall j :: 0 <= j < |a| ==> s[j] == a[j] && a[j] in a;
    IndexUnique(s, c, |a|);
  }

  // ------------------------------------------------------------- on the buffer

  class Tokenizer {
    const line: array<char>
    var cur: Option<nat>

    ghost predicate Valid()
      reads this, line
    {
      && line.Length > 0 && line[line.Length - 1] == NUL
      && (cur.Some? ==> cur.value < line.Length && forall i :: cur.value <= i < line.Length - 1 ==> line[i] != NUL)
    }

    /** The text from the cursor to the end of the line; None for a NULL cursor. */
    ghost function Rest(): Option<string>
      requires Valid()
      reads this, line
    {
      if cur.Some? then Some(line[cur.value..line.Length - 1]) else None
    }

    constructor (text: string)
      requires NUL !in text
      ensures Valid() && Rest() == Some(text) && fresh(line)
    {
      line := new char[|text| + 1](i requires 0 <= i <= |text| => if i < |text| then text[i] else NUL);
      cur := Some(0);
      new;
      assert line[0..line.Length - 1] == text;
    }

    method SkipWhiteSpace()
      requires Valid()
      modifies this`cur
      ensures Valid() && (old(cur).None? ==> cur.None?)
      ensures old(cur).Some? ==> Rest() == Some(SkipSpace(old(Rest()).value))
    {
      hide SkipSpace;
      if cur.None? { return; }
      while line[cur.value] != NUL && IsSpace(line[cur.value])
        invariant Valid() && cur.Some? && SkipSpace(Rest().value) == SkipSpace(old(Rest()).value)
        decreases line.Length - cur.value
      {
        SkipOne(Rest().value);
        assert Rest().value[1..] == line[cur.value + 1..line.Length - 1];
        cur := Some(cur.value + 1);
      }
      SkipNone(Rest().value);
    }

    /** The position of the first c from the cursor on, or of the NUL. */
    method Find(c: char) returns (i: nat)
      requires Valid() && cur.Some? && c != NUL
      ensures i == cur.value + IndexOf(Rest().value, c)
      ensures i < line.Length && line[i] == if i == line.Length - 1 then NUL else c
    {
      hide IndexOf;
      i := cur.value;
      while line[i] != NUL && line[i] != c
        invariant cur.value <= i < line.Length
        invariant forall j :: cur.value <= j < i ==> line[j] != c
        decreases line.Length - i
      {
        i := i + 1;
      }
      IndexUnique(Rest().value, c, i - cur.value);
    }

    method SkipNextComma()
      requires Valid()
      modifies this`cur
      ensures Valid() && (old(cur).None? ==> cur.None?)
      ensures old(cur).Some? ==> Rest() == Some(PastComma(old(Rest()).value))
    {
      hide IndexOf;
      if cur.None? { return; }
      var i := Find(COMMA);
      ghost var r, k := Rest().value, i - cur.value;
      if line[i] == COMMA {
        assert r[k + 1..] == line[i + 1..line.Length - 1];
        i := i + 1;
      }
      cur := Some(i);
      assert i == line.Length - 1 ==> Rest().value == "";
    }

    /** strsep */
    method Strsep(c: char) returns (token: string)
      requires Valid() && cur.Some? && c != NUL
      modifies this, line
      ensures Valid() && token == Before(old(Rest()).value, c) && Rest() == Behind(old(Rest()).value, c)
    {
      hide IndexOf;
      var i := Find(c);
      token := line[cur.value..i];
      if line[i] == NUL {
        cur := None;
      } else {
        line[i] := NUL;
        cur := Some(i + 1);
      }
    }

    method Next() returns (token: string)
      requires Valid() && cur.Some?
      modifies this, line
      ensures Valid() && NextTok(old(Rest()).value) == Cut(token, Rest())
    {
      hide SkipSpace, Before, Behind, PastComma;
      SkipWhiteSpace();
      if line[cur.value] == QUOTE {
        assert Rest().value[0] == QUOTE && Rest().value[1..] == line[cur.value + 1..line.Length - 1];
        cur := Some(cur.value + 1);
        token := Strsep(QUOTE);
        SkipNextComma();
      } else {
        assert Rest().value != "" ==> Rest().value[0] == line[cur.value];
        token := Strsep(COMMA);
      }
    }

    method HasMore() returns (more: bool)
      requires Valid()
      ensures more <==> Rest().Some? && Rest().value != ""
    {
      more := !(cur.None? || line[cur.value] == NUL);
    }

    /** at_tok_start: false when there is no colon. */
    method Start() returns (ok: bool)
      requires Valid() && cur.Some?
      modifies this`cur
      ensures Valid() && ok == Behind(old(Rest()).value, ':').Some? && Rest() == Behind(old(Rest()).value, ':')
    {
      hide IndexOf;
      var i := Find(':');
      ok := line[i] == ':';
      cur := if ok then Some(i + 1) else None;
    }

    method All() returns (tokens: seq<string>)
      requires Valid()
      modifies this, line
      ensures tokens == if old(Rest()).Some? then Tokens(old(Rest()).value) else []
    {
      hide NextTok;
      tokens := [];
      var more := HasMore();
      ghost var goal := Remaining(Rest());
      while more
        invariant Valid() && (more <==> Rest().Some? && Rest().value != "")
        invariant tokens + Remaining(Rest()) == goal
        decreases if Rest().Some? then |Rest().value| + 1 else 0
      {
        ghost var r := Rest().value;
        var token := Next();
        SeqAssoc(tokens, [token], Remaining(Rest()));
        tokens := tokens + [token];
        more := HasMore();
      }
      assert Remaining(Rest()) == [] && tokens + [] == tokens;
    }
  }

  function Remaining(rest: Option<string>): seq<string> {
    if rest.Some? then Tokens(rest.value) else []
  }

  lemma SkipOne(s: string)
    requires s != "" && IsSpace(s[0])
    ensures SkipSpace(s) == SkipSpace(s[1..])
  {}

  /** A response line read back: the tokens behind the prefix. */
  method ParseResponse(prefix: string, ts: seq<Token>) returns (tokens: seq<string>)
    requires ':' !in prefix && NUL !in prefix && ts != [] && AllWritable(ts) && NUL !in Join(ts)
    ensures tokens == Texts(ts) <==> ts[|ts| - 1].Quoted? || ts[|ts| - 1].text != ""
  {
    hide Join, Tokens, AllWritable, IndexOf;
    var text := prefix + [':'] + Join(ts);
    IndexUnique(text, ':', |prefix|);
    assert text[|prefix| + 1..] == Join(ts);
    InvertsJoinIff(ts);
    var t := new Tokenizer(text);
    var ok := t.Start();
    tokens := t.All();
  }
}
