/** The text form of a message. */
module MessageLines {
  import opened Common
  import opened TextLines

  // Printed by core/models.py, read back by the pane (claude-plugin/hooks/register.tsx).

  const NEWLINE: char := '\n'
  const LEFT: char := '\U{2190}'
  const RIGHT: char := '\U{2192}'
  const MEDIA: Text := "<media>"

  datatype Message = Message(id: nat, out: bool, text: Option<Text>)
  datatype Parsed = Parsed(id: nat, text: Text, out: bool)

  // --- decimal ids ----------------------------------------------------------------------------------------

  predicate IsDigit(c: char) {
    '0' <= c <= '9'
  }

  function Digits(n: nat): (s: Text)
    ensures s != [] && forall i | 0 <= i < |s| :: IsDigit(s[i])
  {
    if n < 10 then ['0' + n as char] else Digits(n / 10) + ['0' + (n % 10) as char]
  }

  function Value(s: Text): nat
    requires forall i | 0 <= i < |s| :: IsDigit(s[i])
  {
    if s == [] then 0
    else
      assert IsDigit(s[|s| - 1]);
      Value(s[..|s| - 1]) * 10 + (s[|s| - 1] as nat - '0' as nat)
  }

  lemma {:induction false} ValueOfDigits(n: nat)
    ensures Value(Digits(n)) == n
  {
    if n < 10 {
      assert Digits(n)[..0] == [];
    } else {
      ValueOfDigits(n / 10);
      assert Digits(n)[..|Digits(n)| - 1] == Digits(n / 10);
    }
  }

  // --- message_line -----------------------------------------------------------------------------------------

  function Body(m: Message): Text {
    if m.text.Some? && m.text.value != [] then m.text.value else MEDIA
  }

  function Arrow(m: Message): char {
    if m.out then RIGHT else LEFT
  }

  function Prefix(m: Message): Text {
    [Arrow(m), ' ', '['] + Digits(m.id) + [']', ' ']
  }

  function Indented(indent: Text, lines: seq<Text>): seq<Text> {
    if lines == [] then [] else [indent + lines[0]] + Indented(indent, lines[1..])
  }

  function MessageLine(m: Message): Text {
    var prefix, body := Prefix(m), Body(m);
    if NEWLINE !in body then prefix + body
    else
      var lines := Split(body, NEWLINE);
      Join([prefix + lines[0]] + Indented(Blanks(|prefix|), lines[1..]), NEWLINE)
  }

  function LinesOf(ms: seq<Message>): seq<Text> {
    if ms == [] then [] else [MessageLine(ms[0])] + LinesOf(ms[1..])
  }

  /** What a text UI prints for a list of messages. */
  function Print(ms: seq<Message>): Text {
    Join(LinesOf(ms), NEWLINE)
  }

  // --- parseHistory ------------------------------------------------------------------------------------------

  /** What `.` in a JavaScript regular expression does not match. */
  predicate EndsLine(c: char) {
    c == '\n' || c == '\r' || c == '\U{2028}' || c == '\U{2029}'
  }

  predicate OneLine(s: Text) {
    forall i | 0 <= i < |s| :: !EndsLine(s[i])
  }

  function DigitRun(s: Text): (n: nat)
    ensures n <= |s| && (forall i | 0 <= i < n :: IsDigit(s[i])) && (n < |s| ==> !IsDigit(s[n]))
  {
    if s == [] || !IsDigit(s[0]) then 0 else 1 + DigitRun(s[1..])
  }

  datatype Head = Head(out: bool, digits: Text, rest: Text)

  /** `HISTORY_LINE.exec(raw)`. */
  function Match(raw: Text): (h: Option<Head>)
    ensures h.Some? ==> forall i | 0 <= i < |h.value.digits| :: IsDigit(h.value.digits[i])
    ensures h.Some? ==> raw != [] && (raw[0] == LEFT || raw[0] == RIGHT)
  {
    if |raw| < 3 || (raw[0] != LEFT && raw[0] != RIGHT) || raw[1] != ' ' || raw[2] != '[' then None
    else
      var n := DigitRun(raw[3..]);
      if n == 0 || |raw| < n + 5 || raw[n + 3] != ']' || raw[n + 4] != ' ' || !OneLine(raw[n + 5..]) then None
      else Some(Head(raw[0] == RIGHT, raw[3..n + 3], raw[n + 5..]))
  }

  /** `raw.startsWith(' '.repeat(Math.min(prefixLen, raw.length)))`. */
  predicate Hangs(raw: Text, prefixLen: nat) {
    forall i | 0 <= i < |raw| && i < prefixLen :: raw[i] == ' '
  }

  function Rest(raw: Text, prefixLen: nat): Text {
    if prefixLen <= |raw| then raw[prefixLen..] else []
  }

  datatype Acc = Acc(out: seq<Parsed>, prefixLen: nat)

  function Feed(a: Acc, raw: Text): Acc {
    var h := Match(raw);
    if h.Some? then
      Acc(a.out + [Parsed(Value(h.value.digits), h.value.rest, h.value.out)], |h.value.digits| + 5)
    else if a.out != [] && Hangs(raw, a.prefixLen) then
      var last := a.out[|a.out| - 1];
      Acc(a.out[..|a.out| - 1] + [Parsed(last.id, last.text + [NEWLINE] + Rest(raw, a.prefixLen), last.out)],
          a.prefixLen)
    else a
  }

  function FeedAll(a: Acc, lines: seq<Text>): Acc
    decreases |lines|
  {
    if lines == [] then a else FeedAll(Feed(a, lines[0]), lines[1..])
  }

  function Parse(stdout: Text): seq<Parsed> {
    FeedAll(Acc([], 0), Split(stdout, NEWLINE)).out
  }

  method ParseHistory(stdout: Text) returns (out: seq<Parsed>)
    ensures out == Parse(stdout)
  {
    out := [];
    var prefixLen: nat := 0;
    var lines := Split(stdout, NEWLINE);
    for i := 0 to |lines|
      invariant FeedAll(Acc(out, prefixLen), lines[i..]) == FeedAll(Acc([], 0), lines)
    {
      var raw := lines[i];
      assert lines[i..][1..] == lines[i + 1..];
      var m := Match(raw);
      if m.Some? {
        out := out + [Parsed(Value(m.value.digits), m.value.rest, m.value.out)];
        prefixLen := 1 + |m.value.digits| + 4;
      } else if out != [] && Hangs(raw, prefixLen) {
        var last := out[|out| - 1];
        out := out[..|out| - 1] + [last.(text := last.text + [NEWLINE] + Rest(raw, prefixLen))];
      }
    }
  }

  // --- printing, then parsing -----------------------------------------------------------------------------------

  function HeadLine(m: Message): Text {
    Split(Body(m), NEWLINE)[0]
  }

  function Expected(ms: seq<Message>): seq<Parsed> {
    if ms == [] then [] else [Parsed(ms[0].id, Body(ms[0]), ms[0].out)] + Expected(ms[1..])
  }

  lemma {:induction false} DigitRunOf(digits: Text, tail: Text)
    requires (forall i | 0 <= i < |digits| :: IsDigit(digits[i])) && tail != [] && !IsDigit(tail[0])
    ensures DigitRun(digits + tail) == |digits|
  {
    if digits == [] {
      assert digits + tail == tail;
    } else {
      DigitRunOf(digits[1..], tail);
      assert (digits + tail)[1..] == digits[1..] + tail;
    }
  }

  /** The first printed line is recognised exactly when it holds no line terminator; then it gives
      back id, direction and first body line. */
  lemma HeadIsRecognisedIff(m: Message, head: Text)
    ensures Match(Prefix(m) + head) == if OneLine(head) then Some(Head(m.out, Digits(m.id), head)) else None
    ensures |Prefix(m)| == |Digits(m.id)| + 5 && Prefix(m)[0] == Arrow(m)
  {
    var raw, digits := Prefix(m) + head, Digits(m.id);
    assert raw[3..] == digits + ([']', ' '] + head);
    DigitRunOf(digits, [']', ' '] + head);
    assert raw[|digits| + 5..] == head;
    assert raw[3..|digits| + 3] == digits;
    assert raw[|digits| + 3] == ']' && raw[|digits| + 4] == ' ';
  }

  /** An arrow, a number in brackets and the rest, with a single space between them, in a line without
      line terminators. */
  ghost predicate HeadForm(raw: Text, out: bool, digits: Text, rest: Text) {
    && raw == [if out then '\U{2192}' else '\U{2190}'] + " [" + digits + "] " + rest
    && digits != [] && (forall i | 0 <= i < |digits| :: '0' <= digits[i] <= '9')
    && forall i | 0 <= i < |rest| :: rest[i] !in {'\n', '\r', '\U{2028}', '\U{2029}'}
  }

  lemma FormMatches(raw: Text, out: bool, digits: Text, rest: Text)
    requires HeadForm(raw, out, digits, rest)
    ensures Match(raw) == Some(Head(out, digits, rest))
  {
    assert raw[3..] == digits + ("] " + rest);
    DigitRunOf(digits, "] " + rest);
    assert raw[|digits| + 5..] == rest && raw[3..|digits| + 3] == digits;
    assert raw[|digits| + 3] == ']' && raw[|digits| + 4] == ' ';
  }

  lemma MatchHasForm(raw: Text, out: bool, digits: Text, rest: Text)
    requires Match(raw) == Some(Head(out, digits, rest))
    ensures HeadForm(raw, out, digits, rest)
  {
    var n := |digits|;
    assert raw == raw[..3] + raw[3..n + 3] + raw[n + 3..n + 5] + raw[n + 5..];
    assert raw[..3] == [raw[0]] + " [" && raw[n + 3..n + 5] == "] ";
  }

  /** Whatever the line, the pattern matches exactly that form. */
  lemma MatchIff(raw: Text, out: bool, digits: Text, rest: Text)
    ensures Match(raw) == Some(Head(out, digits, rest)) <==> HeadForm(raw, out, digits, rest)
  {
    if Match(raw) == Some(Head(out, digits, rest)) {
      MatchHasForm(raw, out, digits, rest);
    } else if HeadForm(raw, out, digits, rest) {
      FormMatches(raw, out, digits, rest);
    }
  }

  /** The lines of one printed message: the head under its prefix, the rest hung under the text. */
  function PrintedLines(m: Message): seq<Text> {
    var lines := Split(Body(m), NEWLINE);
    [Prefix(m) + lines[0]] + Indented(Blanks(|Prefix(m)|), lines[1..])
  }

  lemma {:induction false} IndentedLines(indent: Text, lines: seq<Text>)
    ensures |Indented(indent, lines)| == |lines|
    ensures forall i | 0 <= i < |lines| :: Indented(indent, lines)[i] == indent + lines[i]
  {
    if lines != [] {
      IndentedLines(indent, lines[1..]);
    }
  }

  lemma PrefixHasNoNewline(m: Message)
    ensures NEWLINE !in Prefix(m)
  {
    assert forall i | 0 <= i < |Digits(m.id)| :: IsDigit(Digits(m.id)[i]);
    assert NEWLINE !in Digits(m.id);
  }

  lemma MessageLineSplits(m: Message)
    ensures Split(MessageLine(m), NEWLINE) == PrintedLines(m)
  {
    var prefix, lines := Prefix(m), Split(Body(m), NEWLINE);
    PrefixHasNoNewline(m);
    SplitParts(Body(m), NEWLINE);
    if NEWLINE !in Body(m) {
      SplitWhole(Body(m), NEWLINE);
      SplitWhole(prefix + Body(m), NEWLINE);
    } else {
      IndentedLines(Blanks(|prefix|), lines[1..]);
      assert forall i | 1 <= i < |lines| :: lines[1..][i - 1] == lines[i];
      var printed := PrintedLines(m);
      forall i | 0 <= i < |printed|
        ensures NEWLINE !in printed[i]
      {
        if i > 0 {
          assert printed[i] == Blanks(|prefix|) + lines[i];
        }
      }
      SplitJoin(printed, NEWLINE);
    }
  }

  /** The printed form in plain words: the first line of the text after arrow and id, the other lines
      under it. */
  lemma PrintedForm(m: Message)
    ensures var prefix := [if m.out then '\U{2192}' else '\U{2190}'] + " [" + Digits(m.id) + "] ";
            var body := Split(if m.text == None || m.text.value == "" then "<media>" else m.text.value, '\n');
            var lines := Split(MessageLine(m), '\n');
            && |lines| == |body| && lines[0] == prefix + body[0]
            && forall i | 1 <= i < |body| :: lines[i] == seq(|prefix|, k => ' ') + body[i]
  {
    MessageLineSplits(m);
    var body := Split(Body(m), NEWLINE);
    assert Prefix(m) == [Arrow(m)] + " [" + Digits(m.id) + "] ";
    IndentedLines(Blanks(|Prefix(m)|), body[1..]);
    assert forall i | 1 <= i < |body| :: body[1..][i - 1] == body[i];
  }

  /** Two printed messages: the id is decimal, most significant digit first. */
  lemma TwoLines()
    ensures MessageLine(Message(12, true, Some("hi"))) == ['\U{2192}'] + " [12] hi"
    ensures MessageLine(Message(7, false, None)) == ['\U{2190}'] + " [7] <media>"
  {
    assert Digits(1) == "1" && Digits(12) == "12" && Digits(7) == "7";
  }

  /** Nothing but a line feed stands between two messages. */
  lemma PrintTwo(a: Message, b: Message)
    ensures Print([a, b]) == MessageLine(a) + [NEWLINE] + MessageLine(b)
  {
    assert [a, b][1..] == [b];
    assert LinesOf([b]) == [MessageLine(b)];
    assert LinesOf([a, b]) == [MessageLine(a)] + LinesOf([b]);
    var lines := [MessageLine(a), MessageLine(b)];
    assert lines[1..] == [MessageLine(b)] && Join(lines[1..], NEWLINE) == MessageLine(b);
  }

  lemma {:induction false} FeedAllSplit(a: Acc, x: seq<Text>, y: seq<Text>)
    ensures FeedAll(a, x + y) == FeedAll(FeedAll(a, x), y)
    decreases |x|
  {
    if x == [] {
      assert x + y == y;
    } else {
      assert (x + y)[1..] == x[1..] + y;
      FeedAllSplit(Feed(a, x[0]), x[1..], y);
    }
  }

  /** A hung line goes back onto its message, whatever it says. */
  lemma HungLine(a: Acc, done: seq<Parsed>, last: Parsed, line: Text)
    requires a == Acc(done + [last], a.prefixLen) && a.prefixLen > 0
    ensures Feed(a, Blanks(a.prefixLen) + line)
            == Acc(done + [Parsed(last.id, last.text + [NEWLINE] + line, last.out)], a.prefixLen)
  {
    var raw := Blanks(a.prefixLen) + line;
    assert raw[0] == ' ';
    assert Match(raw) == None;
    assert raw[a.prefixLen..] == line;
    assert a.out[..|a.out| - 1] == done;
  }

  lemma {:induction false} HungLines(done: seq<Parsed>, m: Message, text: seq<Text>, lines: seq<Text>)
    requires text != []
    ensures var n := |Prefix(m)|;
            FeedAll(Acc(done + [Parsed(m.id, Join(text, NEWLINE), m.out)], n), Indented(Blanks(n), lines))
            == Acc(done + [Parsed(m.id, Join(text + lines, NEWLINE), m.out)], n)
    decreases |lines|
  {
    var n := |Prefix(m)|;
    if lines == [] {
      assert text + lines == text;
    } else {
      var last := Parsed(m.id, Join(text, NEWLINE), m.out);
      HungLine(Acc(done + [last], n), done, last, lines[0]);
      JoinSnoc(text, lines[0], NEWLINE);
      HungLines(done, m, text + [lines[0]], lines[1..]);
      assert (text + [lines[0]]) + lines[1..] == text + lines;
    }
  }

  /** One message printed and parsed: with a clean head line it comes back whole. */
  lemma CleanMessage(a: Acc, m: Message)
    requires OneLine(HeadLine(m))
    ensures FeedAll(a, PrintedLines(m)) == Acc(a.out + [Parsed(m.id, Body(m), m.out)], |Prefix(m)|)
  {
    var lines := Split(Body(m), NEWLINE);
    HeadIsRecognisedIff(m, lines[0]);
    ValueOfDigits(m.id);
    var b := Feed(a, Prefix(m) + lines[0]);
    assert b == Acc(a.out + [Parsed(m.id, lines[0], m.out)], |Prefix(m)|);
    assert PrintedLines(m)[1..] == Indented(Blanks(|Prefix(m)|), lines[1..]);
    assert Join([lines[0]], NEWLINE) == lines[0];
    HungLines(a.out, m, [lines[0]], lines[1..]);
    assert [lines[0]] + lines[1..] == lines;
    SplitParts(Body(m), NEWLINE);
  }

  /** Otherwise it is not recognised: its head is dropped and nothing is added. */
  lemma {:induction false} UncleanTail(a: Acc, n: nat, lines: seq<Text>)
    requires n > 0
    ensures |FeedAll(a, Indented(Blanks(n), lines)).out| == |a.out|
    ensures FeedAll(a, Indented(Blanks(n), lines)).prefixLen == a.prefixLen
    decreases |lines|
  {
    if lines != [] {
      var raw := Blanks(n) + lines[0];
      assert raw[0] == ' ';
      assert Match(raw) == None;
      UncleanTail(Feed(a, raw), n, lines[1..]);
    }
  }

  lemma UncleanMessage(a: Acc, m: Message)
    requires !OneLine(HeadLine(m)) && (a.out == [] || a.prefixLen > 0)
    ensures var b := FeedAll(a, PrintedLines(m));
            |b.out| == |a.out| && b.prefixLen == a.prefixLen
  {
    var lines := Split(Body(m), NEWLINE);
    var raw := Prefix(m) + lines[0];
    HeadIsRecognisedIff(m, lines[0]);
    assert raw[0] != ' ';
    assert Feed(a, raw) == a;
    assert PrintedLines(m)[1..] == Indented(Blanks(|Prefix(m)|), lines[1..]);
    UncleanTail(a, |Prefix(m)|, lines[1..]);
  }

  function AllLines(ms: seq<Message>): seq<Text> {
    if ms == [] then [] else PrintedLines(ms[0]) + AllLines(ms[1..])
  }

  ghost predicate CleanHeads(ms: seq<Message>) {
    forall i | 0 <= i < |ms| :: OneLine(HeadLine(ms[i]))
  }

  lemma {:induction false} AllLinesSplit(ms: seq<Message>)
    ensures SplitAll(LinesOf(ms), NEWLINE) == AllLines(ms)
  {
    if ms != [] {
      MessageLineSplits(ms[0]);
      AllLinesSplit(ms[1..]);
    }
  }

  lemma Regroup(a: seq<Parsed>, first: Parsed, rest: seq<Parsed>)
    ensures (a + [first]) + rest == a + ([first] + rest)
  {
  }

  lemma {:induction false} ParsesBack(a: Acc, ms: seq<Message>)
    requires CleanHeads(ms)
    ensures FeedAll(a, AllLines(ms)).out == a.out + Expected(ms)
    decreases |ms|
  {
    if ms == [] {
      assert a.out + [] == a.out;
    } else {
      FeedAllSplit(a, PrintedLines(ms[0]), AllLines(ms[1..]));
      CleanMessage(a, ms[0]);
      var first, b := Parsed(ms[0].id, Body(ms[0]), ms[0].out), FeedAll(a, PrintedLines(ms[0]));
      assert b.out == a.out + [first];
      ParsesBack(b, ms[1..]);
      Regroup(a.out, first, Expected(ms[1..]));
    }
  }

  /** Every message adds one entry at most, an unclean one none. */
  lemma {:induction false} ParsesFewer(a: Acc, ms: seq<Message>)
    requires a.out == [] || a.prefixLen > 0
    ensures var n := |FeedAll(a, AllLines(ms)).out|;
            n <= |a.out| + |ms| && (!CleanHeads(ms) ==> n < |a.out| + |ms|)
    decreases |ms|
  {
    if ms != [] {
      FeedAllSplit(a, PrintedLines(ms[0]), AllLines(ms[1..]));
      var b := FeedAll(a, PrintedLines(ms[0]));
      if OneLine(HeadLine(ms[0])) {
        CleanMessage(a, ms[0]);
        ParsesFewer(b, ms[1..]);
      } else {
        UncleanMessage(a, ms[0]);
        ParsesFewer(b, ms[1..]);
      }
      if !CleanHeads(ms) && OneLine(HeadLine(ms[0])) {
        var i :| 0 <= i < |ms| && !OneLine(HeadLine(ms[i]));
        assert ms[1..][i - 1] == ms[i];
      }
    }
  }

  lemma {:induction false} ExpectedLength(ms: seq<Message>)
    ensures |Expected(ms)| == |ms|
  {
    if ms != [] {
      ExpectedLength(ms[1..]);
    }
  }

  lemma RoundTrip(ms: seq<Message>)
    ensures Parse(Print(ms)) == Expected(ms) <==> CleanHeads(ms)
    ensures !CleanHeads(ms) ==> |Parse(Print(ms))| < |ms|
  {
    var start := Acc([], 0);
    if ms == [] {
      assert Split([], NEWLINE) == [[]];
      assert Feed(start, []) == start;
      assert FeedAll(start, [[]]) == start;
    } else {
      SplitJoined(LinesOf(ms), NEWLINE);
      AllLinesSplit(ms);
      ParsesFewer(start, ms);
      ExpectedLength(ms);
      if CleanHeads(ms) {
        ParsesBack(start, ms);
      }
    }
  }

  /** The message is read as it was sent; one without a text, as the note that stands for it. */
  predicate ComesBack(m: Message, back: Parsed) {
    && back.id == m.id && back.out == m.out
    && back.text == if m.text == None || m.text.value == "" then "<media>" else m.text.value
  }

  /** A carriage return or a Unicode line separator stands nowhere before the first line feed. */
  predicate FirstLineIsClean(m: Message) {
    m.text.Some? ==>
      forall j | 0 <= j < |m.text.value| && m.text.value[j] in {'\r', '\U{2028}', '\U{2029}'} ::
        '\n' in m.text.value[..j]
  }

  lemma {:induction false} SplitAtFirst(text: Text) returns (n: nat)
    ensures n <= |text| && Split(text, NEWLINE)[0] == text[..n] && NEWLINE !in text[..n]
    ensures n < |text| ==> text[n] == NEWLINE
  {
    if text == [] || text[0] == NEWLINE {
      n := 0;
    } else {
      var k := SplitAtFirst(text[1..]);
      n := k + 1;
      assert text[..n] == [text[0]] + text[1..][..k];
    }
  }

  lemma FirstLine(text: Text) returns (n: nat)
    ensures n <= |text| && Split(text, NEWLINE)[0] == text[..n] && (n < |text| ==> text[n] == NEWLINE)
    ensures forall j | 0 <= j < |text| :: NEWLINE in text[..j] <==> n < j
    ensures forall j | 0 <= j < n :: text[j] != NEWLINE
  {
    n := SplitAtFirst(text);
    assert forall j | 0 <= j < n :: text[..n][j] == text[j];
    forall j | 0 <= j < |text|
      ensures NEWLINE in text[..j] <==> n < j
    {
      if n < j {
        assert text[..j][n] == NEWLINE;
      } else {
        assert text[..j] == text[..n][..j];
      }
    }
  }

  lemma CleanIff(m: Message)
    ensures OneLine(HeadLine(m)) <==> FirstLineIsClean(m)
  {
    var body := Body(m);
    var n := FirstLine(body);
    assert forall j | 0 <= j < n :: body[..n][j] == body[j];
  }

  lemma {:induction false} ExpectedComesBack(ms: seq<Message>)
    ensures |Expected(ms)| == |ms| && forall i | 0 <= i < |ms| :: ComesBack(ms[i], Expected(ms)[i])
  {
    if ms != [] {
      ExpectedComesBack(ms[1..]);
      assert forall i | 1 <= i < |ms| :: ms[i] == ms[1..][i - 1] && Expected(ms)[i] == Expected(ms[1..])[i - 1];
    }
  }

  /** The round trip: parsing what was printed gives back every id, direction and text exactly when
      no message has a carriage return or a Unicode line separator in the first line of its body.
      Later lines may hold anything; none is ever taken for a new message. */
  lemma RoundTripIff(ms: seq<Message>)
    ensures var back := Parse(Print(ms));
            (|back| == |ms| && forall i | 0 <= i < |ms| :: ComesBack(ms[i], back[i]))
            <==> forall i | 0 <= i < |ms| :: FirstLineIsClean(ms[i])
  {
    RoundTrip(ms);
    ExpectedComesBack(ms);
    forall i | 0 <= i < |ms|
      ensures OneLine(HeadLine(ms[i])) <==> FirstLineIsClean(ms[i])
    {
      CleanIff(ms[i]);
    }
  }

  /** One message of a single carriage return does not come back. */
  lemma CarriageReturnIsLost()
    ensures Parse(Print([Message(1, false, Some(['\r']))])) != [Parsed(1, ['\r'], false)]
  {
    var m := Message(1, false, Some(['\r']));
    var ms := [m];
    RoundTrip(ms);
    assert Expected(ms) == [Parsed(1, ['\r'], false)] + Expected(ms[1..]);
    SplitWhole(['\r'], NEWLINE);
    assert !OneLine(HeadLine(m)) by {
      assert HeadLine(m)[0] == '\r';
    }
    assert !OneLine(HeadLine(ms[0]));
  }

  /** One final newline on the printed text, as a terminal stream has it, comes back as an extra
      line break at the end of the last message. */
  lemma FinalNewline(ms: seq<Message>)
    requires ms != [] && CleanHeads(ms)
    ensures var back := Expected(ms);
            var last := back[|back| - 1];
            Parse(Print(ms) + [NEWLINE]) == back[..|back| - 1] + [last.(text := last.text + [NEWLINE])]
    ensures |Expected(ms)| == |ms|
  {
    ExpectedLength(ms);
    SplitJoined(LinesOf(ms), NEWLINE);
    AllLinesSplit(ms);
    SplitAround(Print(ms), [], NEWLINE);
    assert Print(ms) + [NEWLINE] + [] == Print(ms) + [NEWLINE];
    var start := Acc([], 0);
    FeedAllSplit(start, AllLines(ms), [[]]);
    ParsesBack(start, ms);
    var a := FeedAll(start, AllLines(ms));
    assert a.out == Expected(ms);
    assert Match([]) == None;
    assert FeedAll(a, [[]]) == Feed(a, []);
    var last := a.out[|a.out| - 1];
    assert last.text + [NEWLINE] + [] == last.text + [NEWLINE];
  }
}
