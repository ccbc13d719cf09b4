/** Attributes in the text of a command line, and the erase command that is widened to cover every
    partition before a download. */
module EraseAll {
  import opened Ctype
  import opened Options

  const LINE_SIZE := 512          // xml_original_data
  const VALUE_SIZE := 64          // the static buffer of fh_xml_get_value
  const WORD := 0x1_0000_0000     // uint32_t

  // ------------------------------------------------------------- strstr

  predicate Occurs(s: string, key: string, i: nat) {
    i + |key| <= |s| && s[i..i + |key|] == key
  }

  function FirstFrom(s: string, key: string, i: nat): (r: Option<nat>)
    decreases |s| - i
  {
    if Occurs(s, key, i) then Some(i) else if i >= |s| then None else FirstFrom(s, key, i + 1)
  }

  function First(s: string, key: string): Option<nat> { FirstFrom(s, key, 0) }

  lemma {:induction false} FirstFromFacts(s: string, key: string, i: nat)
    ensures
      var r := FirstFrom(s, key, i);
      && (r.Some? ==> i <= r.value && Occurs(s, key, r.value) && forall j :: i <= j < r.value ==> !Occurs(s, key, j))
      && (r.None? ==> forall j :: i <= j ==> !Occurs(s, key, j))
    decreases |s| - i
  {
    if !Occurs(s, key, i) && i < |s| {
      FirstFromFacts(s, key, i + 1);
    }
  }

  lemma FirstFacts(s: string, key: string)
    ensures First(s, key).Some? ==>
      Occurs(s, key, First(s, key).value) && forall j :: 0 <= j < First(s, key).value ==> !Occurs(s, key, j)
    ensures First(s, key).None? ==> forall j: nat :: !Occurs(s, key, j)
  {
    FirstFromFacts(s, key, 0);
  }

  lemma FirstIs(s: string, key: string, i: nat)
    requires Occurs(s, key, i) && forall j :: 0 <= j < i ==> !Occurs(s, key, j)
    ensures First(s, key) == Some(i)
  {
    hide First;
    FirstFacts(s, key);
  }

  lemma FirstNone(s: string, key: string)
    requires forall j: nat :: !Occurs(s, key, j)
    ensures First(s, key) == None
  {
    hide First;
    FirstFacts(s, key);
  }

  // ------------------------------------------------------------- attributes

  const QUOTE := '"'

  /** The position of the key, of its value and of the quote behind the value. */
  datatype Span = Span(at: nat, start: nat, end: nat)

  function QuoteAt(s: string, i: nat): (n: nat)
    requires i <= |s|
    ensures i <= n <= |s|
    decreases |s| - i
  {
    if i == |s| || s[i] == QUOTE then i else QuoteAt(s, i + 1)
  }

  lemma {:induction false} QuoteFacts(s: string, i: nat)
    requires i <= |s|
    ensures QuoteAt(s, i) < |s| ==> s[QuoteAt(s, i)] == QUOTE
    ensures forall j :: i <= j < QuoteAt(s, i) ==> s[j] != QUOTE
    decreases |s| - i
  {
    if i < |s| && s[i] != QUOTE {
      QuoteFacts(s, i + 1);
    }
  }

  lemma QuoteIs(s: string, i: nat, n: nat)
    requires i <= n < |s| && s[n] == QUOTE && forall j :: i <= j < n ==> s[j] != QUOTE
    ensures QuoteAt(s, i) == n
  {
    hide QuoteAt;
    QuoteFacts(s, i);
  }

  /** fh_xml_find_value. Either the equals sign or the quote behind the key is enough. */
  function SpanOf(s: string, key: string): Option<Span> {
    var i := First(s, key);
    if i.None? || i.value + |key| + 2 > |s| then None
    else
      var p := i.value + |key|;
      if s[p] != '=' && s[p + 1] != QUOTE then None
      else if QuoteAt(s, p + 2) == |s| then None
      else Some(Span(i.value, p + 2, QuoteAt(s, p + 2)))
  }

  /** fh_xml_get_value */
  function GetValue(s: string, key: string): Option<string> {
    var x := SpanOf(s, key);
    if x.None? then None
    else
      SpanInside(s, key);
      if x.value.end - x.value.start >= VALUE_SIZE then None
      else Some(s[x.value.start..x.value.end])
  }

  lemma SpanInside(s: string, key: string)
    ensures SpanOf(s, key).Some? ==>
      var x := SpanOf(s, key).value;
      x.at + |key| + 2 == x.start <= x.end < |s|
  {}

  function Digits(n: nat): (d: string)
    ensures d != ""
  {
    if n < 10 then ['0' + n as char] else Digits(n / 10) + ['0' + (n % 10) as char]
  }

  /** The text of a line after fh_xml_set_value. */
  function Replaced(s: string, key: string, value: nat): string {
    var x := SpanOf(s, key);
    if x.None? then s
    else
      SpanInside(s, key);
      s[..x.value.start] + Digits(value) + s[x.value.end..]
  }

  lemma {:induction false} DigitsAreDigits(n: nat)
    ensures forall c <- Digits(n) :: IsDigit(c)
  {
    if n >= 10 {
      DigitsAreDigits(n / 10);
    }
  }

  // ------------------------------------------------------------- a piece of text replaced

  /** t is s with the text from a to b replaced by d. */
  predicate Spliced(s: string, t: string, a: nat, b: nat, d: string) {
    a <= b <= |s| && t == s[..a] + d + s[b..]
  }

  lemma SplicedAt(s: string, t: string, a: nat, b: nat, d: string)
    requires Spliced(s, t, a, b, d)
    ensures |t| == |s| - (b - a) + |d|
    ensures forall j :: 0 <= j < a ==> t[j] == s[j]
    ensures forall j :: a <= j < a + |d| ==> t[j] == d[j - a]
    ensures forall j :: b <= j < |s| ==> t[j - b + a + |d|] == s[j]
  {}

  lemma OccursBefore(s: string, t: string, a: nat, b: nat, d: string, key: string, j: nat)
    requires Spliced(s, t, a, b, d) && j + |key| <= a
    ensures Occurs(t, key, j) == Occurs(s, key, j)
  {
    SplicedAt(s, t, a, b, d);
    assert t[j..j + |key|] == s[j..j + |key|];
  }

  lemma OccursBehind(s: string, t: string, a: nat, b: nat, d: string, key: string, j: nat)
    requires Spliced(s, t, a, b, d) && b <= j
    ensures Occurs(t, key, j - b + a + |d|) == Occurs(s, key, j)
  {
    SplicedAt(s, t, a, b, d);
    if j + |key| <= |s| {
      var k := j - b + a + |d|;
      assert t[k..k + |key|] == s[j..j + |key|];
    }
  }

  predicate NoDigit(key: string) {
    key != "" && forall c <- key :: !IsDigit(c)
  }

  /** A key without digits does not occur across digits. */
  lemma OccursOutside(s: string, t: string, a: nat, b: nat, d: string, key: string, j: nat)
    requires Spliced(s, t, a, b, d) && NoDigit(key) && d != "" && forall c <- d :: IsDigit(c)
    requires a < j + |key| <= |t| && j < a + |d|
    ensures !Occurs(t, key, j)
  {
    SplicedAt(s, t, a, b, d);
    var k := if j < a then a else j;
    assert t[k] == d[k - a] && d[k - a] in d;
    assert t[j..j + |key|][k - j] == t[k];
    assert key[k - j] in key;
  }

  /** A first occurrence behind the replaced text stays the first. */
  lemma NotEarlier(s: string, t: string, a: nat, b: nat, d: string, key: string, i: nat, j: nat)
    requires Spliced(s, t, a, b, d) && NoDigit(key) && d != "" && forall c <- d :: IsDigit(c)
    requires b <= i && j < i - b + a + |d| && forall k :: 0 <= k < i ==> !Occurs(s, key, k)
    ensures !Occurs(t, key, j)
  {
    hide Occurs;
    if j + |key| <= a {
      OccursBefore(s, t, a, b, d, key, j);
    } else if j >= a + |d| {
      OccursBehind(s, t, a, b, d, key, j - a - |d| + b);
    } else if j + |key| <= |t| {
      OccursOutside(s, t, a, b, d, key, j);
    } else {
      TooLong(t, key, j);
    }
  }

  lemma TooLong(t: string, key: string, j: nat)
    requires j + |key| > |t|
    ensures !Occurs(t, key, j)
  {}

  // ------------------------------------------------------------- set, then find

  lemma SpanFacts(s: string, key: string)
    requires SpanOf(s, key).Some?
    ensures
      var x := SpanOf(s, key).value;
      && First(s, key) == Some(x.at) && x.at + |key| + 2 == x.start <= x.end < |s|
      && (s[x.start - 2] == '=' || s[x.start - 1] == QUOTE)
      && s[x.end] == QUOTE && forall j :: x.start <= j < x.end ==> s[j] != QUOTE
  {
    hide First, QuoteAt;
    var i := First(s, key).value;
    QuoteFacts(s, i + |key| + 2);
  }

  lemma SpanIs(s: string, key: string, x: Span)
    requires First(s, key) == Some(x.at) && x.at + |key| + 2 == x.start <= x.end < |s|
    requires s[x.start - 2] == '=' || s[x.start - 1] == QUOTE
    requires s[x.end] == QUOTE && forall j :: x.start <= j < x.end ==> s[j] != QUOTE
    ensures SpanOf(s, key) == Some(x)
  {
    hide First, QuoteAt;
    QuoteIs(s, x.start, x.end);
  }

  /** The attribute just set is found again, with the new number as its text. */
  lemma SetThenFind(s: string, key: string, value: nat)
    requires SpanOf(s, key).Some?
    ensures
      var x := SpanOf(s, key).value;
      SpanOf(Replaced(s, key, value), key) == Some(Span(x.at, x.start, x.start + |Digits(value)|))
  {
    hide First, QuoteAt, Occurs, Digits;
    SpanFacts(s, key);
    var x, t, d := SpanOf(s, key).value, Replaced(s, key, value), Digits(value);
    DigitsAreDigits(value);
    SplicedAt(s, t, x.start, x.end, d);
    FirstFacts(s, key);
    forall j | 0 <= j <= x.at ensures Occurs(t, key, j) == Occurs(s, key, j) {
      OccursBefore(s, t, x.start, x.end, d, key, j);
    }
    FirstIs(t, key, x.at);
    hide SpanOf;
    assert t[x.start + |d|] == s[x.end];
    forall j | x.start <= j < x.start + |d| ensures t[j] != QUOTE {
      assert t[j] == d[j - x.start] && d[j - x.start] in d;
    }
    SpanIs(t, key, Span(x.at, x.start, x.start + |d|));
  }

  predicate Apart(x: Span, y: Span) {
    x.end < y.at || y.end < x.at
  }

  /** Where an attribute is after another one was given text of a different length. */
  function Moved(y: Span, x: Span, n: nat): Span
    requires x.at <= x.start <= x.end && y.at <= y.start <= y.end
  {
    if y.at < x.end then y
    else Span(y.at - x.end + x.start + n, y.start - x.end + x.start + n, y.end - x.end + x.start + n)
  }

  lemma KeptBefore(s: string, key: string, value: nat, other: string)
    requires SpanOf(s, key).Some? && SpanOf(s, other).Some?
    requires SpanOf(s, other).value.end < SpanOf(s, key).value.at
    ensures SpanOf(Replaced(s, key, value), other) == SpanOf(s, other)
  {
    hide First, QuoteAt, Occurs, Digits;
    SpanFacts(s, key);
    SpanFacts(s, other);
    var x, y, t, d := SpanOf(s, key).value, SpanOf(s, other).value, Replaced(s, key, value), Digits(value);
    hide SpanOf;
    SplicedAt(s, t, x.start, x.end, d);
    FirstFacts(s, other);
    forall j | 0 <= j <= y.at ensures Occurs(t, other, j) == Occurs(s, other, j) {
      OccursBefore(s, t, x.start, x.end, d, other, j);
    }
    FirstIs(t, other, y.at);
    SpanIs(t, other, y);
  }

  lemma FirstBehind(s: string, t: string, a: nat, b: nat, d: string, key: string, i: nat)
    requires Spliced(s, t, a, b, d) && NoDigit(key) && d != "" && forall c <- d :: IsDigit(c)
    requires b <= i && First(s, key) == Some(i)
    ensures First(t, key) == Some(i - b + a + |d|)
  {
    hide First, Occurs, NoDigit;
    FirstFacts(s, key);
    OccursBehind(s, t, a, b, d, key, i);
    forall j | 0 <= j < i - b + a + |d| ensures !Occurs(t, key, j) {
      NotEarlier(s, t, a, b, d, key, i, j);
    }
    FirstIs(t, key, i - b + a + |d|);
  }

  lemma KeptBehind(s: string, key: string, value: nat, other: string)
    requires SpanOf(s, key).Some? && SpanOf(s, other).Some? && NoDigit(other)
    requires SpanOf(s, key).value.end < SpanOf(s, other).value.at
    ensures
      var x, y := SpanOf(s, key).value, SpanOf(s, other).value;
      var m := x.start + |Digits(value)| - x.end;
      && y.at + m >= 0 && y.end + m <= |Replaced(s, key, value)|
      && SpanOf(Replaced(s, key, value), other) == Some(Span(y.at + m, y.start + m, y.end + m))
      && Replaced(s, key, value)[y.start + m..y.end + m] == s[y.start..y.end]
  {
    hide First, Digits, NoDigit;
    SpanFacts(s, key);
    SpanFacts(s, other);
    var x, y, t, d := SpanOf(s, key).value, SpanOf(s, other).value, Replaced(s, key, value), Digits(value);
    assert Spliced(s, t, x.start, x.end, d);
    hide SpanOf, Replaced, Spliced;
    DigitsAreDigits(value);
    FirstBehind(s, t, x.start, x.end, d, other, y.at);
    var m := x.start + |d| - x.end;
    MovedSpan(s, t, x, d, y, m);
    SpanIs(t, other, Span(y.at + m, y.start + m, y.end + m));
  }

  lemma MovedSpan(s: string, t: string, x: Span, d: string, y: Span, m: int)
    requires Spliced(s, t, x.start, x.end, d) && m == x.start + |d| - x.end
    requires x.end < y.at && y.at + 2 <= y.start <= y.end < |s|
    requires s[y.end] == QUOTE && forall j :: y.start <= j < y.end ==> s[j] != QUOTE
    ensures y.end + m < |t| && t[y.start + m - 2] == s[y.start - 2] && t[y.start + m - 1] == s[y.start - 1]
    ensures t[y.end + m] == QUOTE && forall j :: y.start + m <= j < y.end + m ==> t[j] != QUOTE
    ensures t[y.start + m..y.end + m] == s[y.start..y.end]
  {
    var u := s[x.end..];
    assert |s[..x.start] + d| == x.end + m;
    assert t[x.end + m..] == u;
    assert t[y.start + m - 2] == u[y.start - 2 - x.end] && t[y.start + m - 1] == u[y.start - 1 - x.end];
    assert t[y.end + m] == u[y.end - x.end];
    assert t[y.start + m..y.end + m] == u[y.start - x.end..y.end - x.end] == s[y.start..y.end];
    forall j | y.start + m <= j < y.end + m ensures t[j] != QUOTE {
      assert t[j] == u[j - m - x.end] == s[j - m];
    }
  }

  lemma BeforeKept(s: string, key: string, value: nat, i: nat, j: nat)
    requires SpanOf(s, key).Some? && i <= j <= SpanOf(s, key).value.start <= SpanOf(s, key).value.end <= |s|
    ensures j <= |Replaced(s, key, value)| && Replaced(s, key, value)[i..j] == s[i..j]
  {
    hide SpanOf, Digits;
    var x, t := SpanOf(s, key).value, Replaced(s, key, value);
    assert t[..x.start] == s[..x.start];
    assert t[i..j] == t[..x.start][i..j];
  }

  /** Setting one attribute leaves every other one whose text is apart from it. */
  lemma OthersKept(s: string, key: string, value: nat, other: string)
    requires SpanOf(s, key).Some? && SpanOf(s, other).Some? && NoDigit(other)
    requires Apart(SpanOf(s, key).value, SpanOf(s, other).value)
    ensures GetValue(Replaced(s, key, value), other) == GetValue(s, other)
    ensures
      var x, y := SpanOf(s, key).value, SpanOf(s, other).value;
      && x.at <= x.start <= x.end && y.at <= y.start <= y.end
      && SpanOf(Replaced(s, key, value), other) == Some(Moved(y, x, |Digits(value)|))
  {
    hide First, QuoteAt, Digits, NoDigit, SpanOf, GetValue, Replaced;
    SpanFacts(s, key);
    SpanFacts(s, other);
    var x, y, t := SpanOf(s, key).value, SpanOf(s, other).value, Replaced(s, key, value);
    if y.end < x.at {
      KeptBefore(s, key, value, other);
      BeforeKept(s, key, value, y.start, y.end);
      SameValue(s, t, other, y, y);
    } else {
      KeptBehind(s, key, value, other);
      SameValue(s, t, other, y, Moved(y, x, |Digits(value)|));
    }
  }

  lemma SameValue(s: string, t: string, key: string, y: Span, z: Span)
    requires SpanOf(s, key) == Some(y) && SpanOf(t, key) == Some(z)
    requires y.start <= y.end <= |s| && z.start <= z.end <= |t| && s[y.start..y.end] == t[z.start..z.end]
    ensures GetValue(s, key) == GetValue(t, key)
  {
    hide SpanOf;
    assert |s[y.start..y.end]| == |t[z.start..z.end]|;
  }

  /** An attribute that is not there does not come into being. */
  lemma AbsentKept(s: string, key: string, value: nat, other: string)
    requires First(s, other).None? && NoDigit(other)
    ensures First(Replaced(s, key, value), other).None?
  {
    hide First, QuoteAt, Digits, NoDigit, Occurs;
    if SpanOf(s, key).Some? {
      SpanFacts(s, key);
      var x, t, d := SpanOf(s, key).value, Replaced(s, key, value), Digits(value);
      hide SpanOf;
      FirstFacts(s, other);
      DigitsAreDigits(value);
      forall j: nat ensures !Occurs(t, other, j) {
        NotEarlier(s, t, x.start, x.end, d, other, j + x.end + 1, j);
      }
      FirstNone(t, other);
    }
  }

  // ------------------------------------------------------------- numbers

  /** The digits at the front of a text, as a number behind what was read before them. */
  function Number(s: string, before: nat): nat {
    if s == "" || !IsDigit(s[0]) then before else Number(s[1..], 10 * before + (s[0] - '0') as nat)
  }

  function Atoi(s: string): int
    decreases |s|
  {
    if s == "" then 0
    else if IsSpace(s[0]) then Atoi(s[1..])
    else if s[0] == '-' then 0 - Number(s[1..], 0)
    else if s[0] == '+' then Number(s[1..], 0)
    else Number(s, 0)
  }

  lemma {:induction false} NumberSnoc(s: string, c: char, before: nat)
    requires IsDigit(c) && forall d <- s :: IsDigit(d)
    ensures Number(s + [c], before) == 10 * Number(s, before) + (c - '0') as nat
    decreases |s|
  {
    if s == "" {
      assert s + [c] == [c];
    } else {
      assert (s + [c])[1..] == s[1..] + [c] && s[0] in s;
      NumberSnoc(s[1..], c, 10 * before + (s[0] - '0') as nat);
    }
  }

  lemma {:induction false} NumberOfDigits(n: nat)
    ensures Number(Digits(n), 0) == n
  {
    if n >= 10 {
      NumberOfDigits(n / 10);
      DigitsAreDigits(n / 10);
      NumberSnoc(Digits(n / 10), '0' + (n % 10) as char, 0);
    }
  }

  /** A number printed and read again. */
  lemma AtoiOfDigits(n: nat)
    ensures Atoi(Digits(n)) == n
  {
    hide Digits;
    DigitsAreDigits(n);
    NumberOfDigits(n);
    assert Digits(n)[0] in Digits(n);
  }

  /** Blanks in front and a sign. */
  lemma AtoiSigned(n: nat, s: string)
    ensures Atoi("-" + Digits(n)) == 0 - n && Atoi("+" + Digits(n)) == n && Atoi(" " + s) == Atoi(s)
  {
    hide Digits;
    NumberOfDigits(n);
    assert ("-" + Digits(n))[1..] == Digits(n) && ("+" + Digits(n))[1..] == Digits(n) && (" " + s)[1..] == s;
  }

  function Pow10(k: nat): nat {
    if k == 0 then 1 else 10 * Pow10(k - 1)
  }

  lemma {:induction false} DigitsLength(n: nat, k: nat)
    requires k > 0 && n < Pow10(k)
    ensures |Digits(n)| <= k
    decreases k
  {
    if n >= 10 {
      assert Pow10(k) == 10 * Pow10(k - 1);
      assert Pow10(0) == 1;
      DigitsLength(n / 10, k - 1);
    }
  }

  lemma WordDigits(n: nat)
    requires n < WORD
    ensures |Digits(n)| <= 10
  {
    hide Digits;
    assert Pow10(5) == 100000;
    assert Pow10(10) == 10000000000;
    DigitsLength(n, 10);
  }

  // ------------------------------------------------------------- erase commands

  const START := "start_sector"
  const COUNT := "num_partition_sectors"
  const LAST := "last_sector"

  datatype Erase = Erase(start: nat, count: nat, last: nat)

  /** A number attribute as fh_parse_xml_line stores it; zero when there is none. */
  function Field(line: string, key: string): nat {
    var v := GetValue(line, key);
    if v.None? then 0 else Atoi(v.value) % WORD
  }

  function ParseErase(line: string): Erase {
    Erase(Field(line, START), Field(line, COUNT), Field(line, LAST))
  }

  /** The text after an attribute was set reads back as the number. */
  lemma FieldSet(s: string, key: string, value: nat)
    requires SpanOf(s, key).Some? && value < WORD
    ensures Field(Replaced(s, key, value), key) == value
  {
    var x, t, d := SpanOf(s, key).value, Replaced(s, key, value), Digits(value);
    SpanFacts(s, key);
    SetThenFind(s, key, value);
    hide SpanOf, Digits, Atoi;
    WordDigits(value);
    AtoiOfDigits(value);
    assert t[x.start..x.start + |d|] == d;
  }

  /** The value of an attribute, if any, is apart from that of another. */
  predicate Separate(s: string, x: Span, other: string) {
    if SpanOf(s, other).Some? then Apart(x, SpanOf(s, other).value) else First(s, other).None?
  }

  lemma FieldKept(s: string, key: string, value: nat, other: string)
    requires SpanOf(s, key).Some? && NoDigit(other) && Separate(s, SpanOf(s, key).value, other)
    ensures Field(Replaced(s, key, value), other) == Field(s, other)
  {
    hide Atoi, NoDigit, Apart;
    if SpanOf(s, other).Some? {
      OthersKept(s, key, value, other);
    } else {
      AbsentKept(s, key, value, other);
      NoValue(s, other);
      NoValue(Replaced(s, key, value), other);
    }
  }

  lemma NoValue(s: string, key: string)
    requires First(s, key).None?
    ensures SpanOf(s, key).None? && GetValue(s, key).None?
  {}

  /** A command line whose number attributes do not run into each other. None of them has to be
      there. */
  predicate Regular(line: string) {
    && (if Counted(line)
        then Separate(line, SpanOf(line, COUNT).value, START) && Separate(line, SpanOf(line, COUNT).value, LAST)
        else First(line, COUNT).None?)
    && (SpanOf(line, LAST).Some? ==> Separate(line, SpanOf(line, LAST).value, START))
  }

  predicate Counted(line: string) { SpanOf(line, COUNT).Some? }

  /** The text of the sector-0 erase that is to cover everything up to max. */
  function Widened(line: string, last: nat, max: nat): string {
    var t := Replaced(line, COUNT, max);
    if last != 0 then Replaced(t, LAST, (max - 1) % WORD) else t
  }

  /** The buffer of a line holds the new text, also half rewritten. */
  predicate InBuffer(line: string, last: nat, max: nat) {
    |Replaced(line, COUNT, max)| < LINE_SIZE && |Widened(line, last, max)| < LINE_SIZE
  }

  /** It always does if twenty characters are to spare. */
  lemma RoomForTwenty(line: string, last: nat, max: nat)
    requires |line| + 20 < LINE_SIZE && max < WORD
    ensures InBuffer(line, last, max)
  {
    hide SpanOf, Digits, Replaced;
    ReplacedLength(line, COUNT, max);
    ReplacedLength(Replaced(line, COUNT, max), LAST, (max - 1) % WORD);
  }

  lemma ReplacedLength(s: string, key: string, value: nat)
    requires value < WORD
    ensures |Replaced(s, key, value)| <= |s| + 10
  {
    hide SpanOf, Digits;
    SpanInside(s, key);
    WordDigits(value);
  }

  lemma KeysWithoutDigits()
    ensures NoDigit(START) && NoDigit(COUNT) && NoDigit(LAST)
  {
    assert forall i :: 0 <= i < |START| ==> !IsDigit(START[i]);
    assert forall i :: 0 <= i < |COUNT| ==> !IsDigit(COUNT[i]);
    assert forall i :: 0 <= i < |LAST| ==> !IsDigit(LAST[i]);
  }

  lemma ApartMoved(x: Span, n: nat, y: Span, z: Span)
    requires x.at <= x.start <= x.end && y.at <= y.start <= y.end && z.at <= z.start <= z.end
    requires Apart(x, y) && Apart(x, z) && Apart(y, z)
    ensures Apart(Moved(y, x, n), Moved(z, x, n))
  {}

  lemma ApartGrown(x: Span, n: nat, y: Span)
    requires x.at <= x.start <= x.end && y.at <= y.start <= y.end && Apart(x, y)
    ensures Apart(Moved(y, x, n), Span(x.at, x.start, x.start + n))
  {}

  /** After the count was set, the other attributes are still apart from each other and from it. */
  lemma StaysRegular(line: string, max: nat)
    requires Regular(line) && Counted(line) && SpanOf(line, LAST).Some?
    ensures
      var t := Replaced(line, COUNT, max);
      && SpanOf(t, LAST).Some?
      && Separate(t, SpanOf(t, LAST).value, START) && Separate(t, SpanOf(t, LAST).value, COUNT)
  {
    hide SpanOf, First, Digits, NoDigit, Replaced, GetValue, Apart, Moved;
    KeysWithoutDigits();
    var x, y := SpanOf(line, COUNT).value, SpanOf(line, LAST).value;
    var n := |Digits(max)|;
    OthersKept(line, COUNT, max, LAST);
    SetThenFind(line, COUNT, max);
    ApartGrown(x, n, y);
    if SpanOf(line, START).Some? {
      OthersKept(line, COUNT, max, START);
      ApartMoved(x, n, y, SpanOf(line, START).value);
    } else {
      AbsentKept(line, COUNT, max, START);
      NoValue(Replaced(line, COUNT, max), START);
    }
  }

  /** A line without the attribute is left as it is. */
  lemma NotCounted(line: string, max: nat)
    requires Regular(line) && !Counted(line)
    ensures Replaced(line, COUNT, max) == line && Field(line, COUNT) == 0
    ensures SpanOf(line, LAST).Some? ==> Separate(line, SpanOf(line, LAST).value, COUNT)
  {
    hide First;
    NoValue(line, COUNT);
  }

  /** Setting the count leaves the last sector there and apart from the other numbers. */
  lemma CountSet(line: string, max: nat)
    requires Regular(line) && max < WORD
    ensures
      var t := Replaced(line, COUNT, max);
      && Field(t, START) == Field(line, START) && Field(t, LAST) == Field(line, LAST)
      && Field(t, COUNT) == (if Counted(line) then max else 0)
      && (SpanOf(line, LAST).Some? ==>
            && SpanOf(t, LAST).Some?
            && Separate(t, SpanOf(t, LAST).value, START) && Separate(t, SpanOf(t, LAST).value, COUNT))
  {
    hide SpanOf, First, NoDigit, Replaced, GetValue, Apart, Field, Separate;
    KeysWithoutDigits();
    if Counted(line) {
      FieldSet(line, COUNT, max);
      FieldKept(line, COUNT, max, START);
      FieldKept(line, COUNT, max, LAST);
      if SpanOf(line, LAST).Some? {
        StaysRegular(line, max);
      }
    } else {
      NotCounted(line, max);
    }
  }

  /** Read again, the widened command starts where it did, has max sectors if it had a count at all,
      and ends in the sector before max if it named its last sector. */
  lemma WidenedReads(line: string, max: nat)
    requires Regular(line) && max < WORD
    ensures
      var e := ParseErase(line);
      ParseErase(Widened(line, e.last, max)) ==
        Erase(e.start, if Counted(line) then max else 0, if e.last != 0 then (max - 1) % WORD else 0)
  {
    hide SpanOf, First, NoDigit, Replaced, GetValue, Apart, Field, Separate, Regular, Counted;
    KeysWithoutDigits();
    CountSet(line, max);
    var t := Replaced(line, COUNT, max);
    if ParseErase(line).last != 0 {
      FieldThere(line, LAST);
      FieldSet(t, LAST, (max - 1) % WORD);
      FieldKept(t, LAST, (max - 1) % WORD, START);
      FieldKept(t, LAST, (max - 1) % WORD, COUNT);
    }
  }

  lemma FieldThere(line: string, key: string)
    requires Field(line, key) != 0
    ensures SpanOf(line, key).Some?
  {
    hide SpanOf, Atoi;
  }

  // ------------------------------------------------------------- the text itself

  /** An attribute written as key="value" is found with its value, if the key does not occur before it
      and the value has fewer than 64 characters. */
  lemma ValueRead(before: string, key: string, value: string, after: string)
    requires '"' !in value
    requires
      var s := before + key + "=\"" + value + "\"" + after;
      forall j: nat :: j < |before| ==> !Occurs(s, key, j)
    ensures GetValue(before + key + "=\"" + value + "\"" + after, key) == if |value| < 64 then Some(value) else None
  {
    hide First, Occurs, SpanOf, QuoteAt;
    var s := before + key + "=\"" + value + "\"" + after;
    var at, start := |before|, |before| + |key| + 2;
    var x := Span(at, start, start + |value|);
    assert Occurs(s, key, at) by { Written(before, key, "=\"" + value + "\"" + after, s); }
    FirstIs(s, key, at);
    assert s[start..start + |value|] == value;
    assert s[start - 2] == '=' && s[start + |value|] == '"';
    assert forall j :: start <= j < start + |value| ==> s[j] == value[j - start] && value[j - start] in value;
    SpanIs(s, key, x);
  }

  lemma Written(before: string, key: string, after: string, s: string)
    requires s == before + key + after
    ensures Occurs(s, key, |before|)
  {}

  /** The numbers of an erase command are read from these attributes, in 32 bits. */
  lemma EraseRead(before: string, key: string, value: string, after: string)
    requires '"' !in value && |value| < 64 && key in {"start_sector", "num_partition_sectors", "last_sector"}
    requires
      var s := before + key + "=\"" + value + "\"" + after;
      forall j: nat :: j < |before| ==> !Occurs(s, key, j)
    ensures
      var e, n := ParseErase(before + key + "=\"" + value + "\"" + after), Atoi(value) % 0x1_0000_0000;
      && (key == "start_sector" ==> e.start == n) && (key == "num_partition_sectors" ==> e.count == n)
      && (key == "last_sector" ==> e.last == n)
  {
    hide Atoi, GetValue, Occurs;
    ValueRead(before, key, value, after);
  }

  // ------------------------------------------------------------- covering every partition

  predicate InRange(e: Erase, sector: nat) {
    e.start <= sector < e.start + e.count
  }

  /** The 32-bit sum the table is searched with. */
  function EndOf(e: Erase): nat { (e.count + e.start) % WORD }

  predicate IsLargest(table: seq<Erase>, max: nat) {
    && (forall e <- table :: EndOf(e) <= max)
    && (max == 0 || exists e <- table :: EndOf(e) == max)
  }

  predicate Words(e: Erase) { e.start < WORD && e.count < WORD }

  /** The pass over the command table. */
  method LargestEnd(table: seq<Erase>) returns (max: nat)
    ensures IsLargest(table, max) && max < WORD
  {
    max := 0;
    for i := 0 to |table|
      invariant max < WORD && IsLargest(table[..i], max)
    {
      assert table[..i + 1] == table[..i] + [table[i]];
      assert forall e <- table[..i] :: e in table[..i + 1];
      assert table[i] in table[..i + 1];
      if EndOf(table[i]) > max {
        max := EndOf(table[i]);
      }
    }
    assert table[..|table|] == table;
  }

  ghost predicate CoversAll(wide: Erase, table: seq<Erase>) {
    forall e <- table, sector | InRange(e, sector) :: InRange(wide, sector)
  }

  predicate NoOverflow(table: seq<Erase>) {
    forall e <- table :: e.start + e.count < WORD
  }

  lemma CoversIff(table: seq<Erase>, max: nat, wide: Erase)
    requires forall e <- table :: Words(e)
    requires IsLargest(table, max) && max < WORD && wide.start == 0 && wide.count == max
    ensures CoversAll(wide, table) <==> NoOverflow(table)
  {
    if NoOverflow(table) {
      forall e, sector | e in table && InRange(e, sector) ensures InRange(wide, sector) {
        assert EndOf(e) == e.count + e.start;
      }
    } else {
      var e :| e in table && e.start + e.count >= WORD;
      var sector := e.start + e.count - 1;
      assert InRange(e, sector) && !InRange(wide, sector);
    }
  }

  predicate AllEmpty(table: seq<Erase>) {
    forall e <- table :: e.count == 0
  }

  lemma EmptyCoversIff(table: seq<Erase>, wide: Erase)
    requires wide.count == 0
    ensures CoversAll(wide, table) <==> AllEmpty(table)
  {
    if !AllEmpty(table) {
      var e :| e in table && e.count != 0;
      assert InRange(e, e.start) && !InRange(wide, e.start);
    }
  }

  /** The rewritten sector-0 erase, read again from its text, covers every erase of the table exactly
      when no partition ends beyond 32 bits and its line has a count to rewrite; without one, exactly
      when there is nothing to cover. */
  lemma EraseAllCoversIff(table: seq<Erase>, line: string, max: nat)
    requires forall e <- table :: Words(e)
    requires IsLargest(table, max) && max < WORD
    requires Regular(line) && ParseErase(line).start == 0 && InBuffer(line, ParseErase(line).last, max)
    ensures
      CoversAll(ParseErase(Widened(line, ParseErase(line).last, max)), table) <==>
        if Counted(line) then NoOverflow(table) else AllEmpty(table)
  {
    hide Regular, ParseErase, Widened, CoversAll, NoOverflow, IsLargest, AllEmpty, Counted, InBuffer;
    WidenedReads(line, max);
    var wide := ParseErase(Widened(line, ParseErase(line).last, max));
    if Counted(line) {
      CoversIff(table, max, wide);
    } else {
      EmptyCoversIff(table, wide);
    }
  }

  /** Two partitions, the second up to the last 32-bit sector: nothing of it is covered. */
  lemma OverflowUncovered()
    ensures
      var table := [Erase(0, 8, 0), Erase(0xFFFF_FFF0, 16, 0)];
      IsLargest(table, 8) && !CoversAll(Erase(0, 8, 0), table)
  {
    var table := [Erase(0, 8, 0), Erase(0xFFFF_FFF0, 16, 0)];
    assert EndOf(table[0]) == 8 && EndOf(table[1]) == 0;
    assert table[0] in table && table[1] in table;
    assert IsLargest(table, 8);
    assert InRange(table[1], 0xFFFF_FFF0) && !InRange(Erase(0, 8, 0), 0xFFFF_FFF0);
  }

  // ------------------------------------------------------------- in the buffers

  /** strstr */
  method StrStr(s: string, key: string) returns (r: Option<nat>)
    ensures r == First(s, key)
  {
    var i := 0;
    while i + |key| <= |s|
      invariant forall j :: 0 <= j < i ==> !Occurs(s, key, j)
    {
      if s[i..i + |key|] == key {
        FirstIs(s, key, i);
        return Some(i);
      }
      i := i + 1;
    }
    FirstNone(s, key);
    r := None;
  }

  method FindValue(s: string, key: string) returns (r: Option<Span>)
    requires First(s, key).Some? ==> First(s, key).value + |key| + 2 <= |s|
    ensures r == SpanOf(s, key)
  {
    hide First;
    var i := StrStr(s, key);
    if i == None { return None; }
    var p := i.value + |key|;
    if s[p] != '=' && s[p + 1] != QUOTE { return None; }
    p := p + 2;
    var end := p;
    while end < |s| && s[end] != QUOTE
      invariant p <= end <= |s| && QuoteAt(s, p) == QuoteAt(s, end)
    {
      end := end + 1;
    }
    if end == |s| { return None; }
    r := Some(Span(i.value, p, end));
  }

  /** A command with its text. */
  class Command {
    var xml: string
    const erase: Erase

    constructor (line: string)
      ensures xml == line && erase == ParseErase(line)
    {
      xml, erase := line, ParseErase(line);
    }

    predicate Terminated(key: string)
      reads this
    {
      First(xml, key).Some? ==> First(xml, key).value + |key| + 2 <= |xml|
    }

    /** fh_xml_set_value; the new text has to fit where the old one was. */
    method SetValue(key: string, value: nat)
      requires Terminated(key) && |Replaced(xml, key, value)| < LINE_SIZE
      modifies this`xml
      ensures xml == Replaced(old(xml), key, value)
    {
      hide SpanOf, First;
      SpanInside(xml, key);
      var x := FindValue(xml, key);
      if x == None { return; }
      xml := xml[..x.value.start] + Digits(value) + xml[x.value.end..];
    }

    /** The rewriting of a sector-0 erase in firehose_main. */
    method Widen(max: nat)
      requires Regular(xml) && erase == ParseErase(xml) && max < WORD
      requires InBuffer(xml, erase.last, max)
      modifies this`xml
      ensures xml == Widened(old(xml), erase.last, max)
      ensures ParseErase(xml).start == erase.start
      ensures ParseErase(xml).count == if Counted(old(xml)) then max else 0
    {
      hide SpanOf, First, Replaced, Field, Separate;
      WidenedReads(xml, max);
      CountSet(xml, max);
      Terminates(xml);
      if erase.last != 0 {
        FieldThere(xml, LAST);
        SpanTerminates(Replaced(xml, COUNT, max), LAST);
      }
      SetValue(COUNT, max);
      if erase.last != 0 {
        SetValue(LAST, (max - 1) % WORD);
      }
    }
  }

  lemma Terminates(line: string)
    requires Regular(line)
    ensures First(line, COUNT).Some? ==> First(line, COUNT).value + |COUNT| + 2 <= |line|
  {
    hide First, SpanOf, Separate;
    if Counted(line) {
      SpanTerminates(line, COUNT);
    }
  }

  lemma SpanTerminates(s: string, key: string)
    requires SpanOf(s, key).Some?
    ensures First(s, key).Some? && First(s, key).value + |key| + 2 <= |s|
  {
    hide First;
  }
}
