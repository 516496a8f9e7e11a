/** What `blanked` does to well-formed sources (`scripts/check_view_after_await.py`).

    Sources are printed from a grammar of code, comments, quoted strings and template literals
    that nest through `${...}` to any depth; a slash occurs in code only in comments, so no
    regular expression does.  On every printed source the scanner marks exactly the characters
    of comments and the characters between the delimiters of literals. */
module BlankingGrammar {
  import opened Blanking

  /** A character of a literal, as written or after a backslash. */
  datatype Unit = Char(c: char) | Escape(c: char)

  datatype Code =
    | Plain(c: char)
    | Braces(inside: seq<Code>)
    | Line(text: string)
    | Block(text: string)
    | Quoted(quote: char, body: seq<Unit>)
    | Ticked(head: seq<Unit>, holes: seq<Insert>)

  /** `${code}` and the template text after it. */
  datatype Insert = Insert(code: seq<Code>, tail: seq<Unit>)

  // ----- printing -----

  function Letters(body: seq<Unit>): string {
    if body == [] then ""
    else (match body[0] case Char(c) => [c] case Escape(c) => ['\\', c]) + Letters(body[1..])
  }

  function Printed(code: Code): string {
    match code
    case Plain(c) => [c]
    case Braces(inside) => "{" + PrintedAll(inside) + "}"
    case Line(text) => "//" + text + "\n"
    case Block(text) => "/*" + text + "*/"
    case Quoted(quote, body) => [quote] + Letters(body) + [quote]
    case Ticked(head, holes) => "`" + (Letters(head) + PrintedHoles(holes) + "`")
  }

  function PrintedAll(codes: seq<Code>): string {
    if codes == [] then "" else Printed(codes[0]) + PrintedAll(codes[1..])
  }

  function PrintedHoles(holes: seq<Insert>): string {
    if holes == [] then ""
    else "${" + PrintedAll(holes[0].code) + "}" + Letters(holes[0].tail) + PrintedHoles(holes[1..])
  }

  // ----- what ought to be blanked -----

  /** Every character but a newline. */
  function Marked(text: string): seq<bool> {
    seq(|text|, k requires 0 <= k < |text| => text[k] != '\n')
  }

  function Wanted(code: Code): seq<bool> {
    match code
    case Plain(c) => [false]
    case Braces(inside) => [false] + WantedAll(inside) + [false]
    case Line(text) => Marked("//" + text) + [false]
    case Block(text) => Marked("/*" + text + "*/")
    case Quoted(quote, body) => [false] + Marked(Letters(body)) + [false]
    case Ticked(head, holes) => [false] + (Marked(Letters(head)) + WantedHoles(holes) + [false])
  }

  function WantedAll(codes: seq<Code>): seq<bool> {
    if codes == [] then [] else Wanted(codes[0]) + WantedAll(codes[1..])
  }

  function WantedHoles(holes: seq<Insert>): seq<bool> {
    if holes == [] then []
    else [false, false] + WantedAll(holes[0].code) + [false] + Marked(Letters(holes[0].tail)) + WantedHoles(holes[1..])
  }

  // ----- well-formed sources -----

  predicate QuotedText(body: seq<Unit>, quote: char) {
    forall u | u in body :: u.Char? ==> u.c != quote && u.c != '\n' && u.c != '\\'
  }

  predicate TickedText(body: seq<Unit>) {
    && (forall u | u in body :: u.Char? ==> u.c != '`' && u.c != '\\')
    && forall i | 0 <= i < |body| - 1 :: !(body[i] == Char('$') && body[i + 1] == Char('{'))
  }

  ghost predicate Formed(code: Code) {
    match code
    case Plain(c) => c !in "/\"'`{}"
    case Braces(inside) => forall x | x in inside :: Formed(x)
    case Line(text) => '\n' !in text
    case Block(text) => forall k | 0 <= k < |text| :: !Pair(text, k, '*', '/')
    case Quoted(quote, body) => quote in "\"'" && QuotedText(body, quote)
    case Ticked(head, holes) => TickedText(head) && forall h | h in holes :: FormedInsert(h)
  }

  ghost predicate FormedInsert(h: Insert) {
    TickedText(h.tail) && forall x | x in h.code :: Formed(x)
  }

  ghost predicate AllFormed(codes: seq<Code>) {
    forall x | x in codes :: Formed(x)
  }

  // ----- reading a printed text -----

  predicate Reads(source: string, k: nat, text: string) {
    k + |text| <= |source| && source[k..k + |text|] == text
  }

  lemma ReadsBoth(source: string, k: nat, a: string, b: string)
    requires Reads(source, k, a + b)
    ensures Reads(source, k, a) && Reads(source, k + |a|, b)
  {
    assert source[k..k + |a + b|][..|a|] == a;
    assert source[k..k + |a + b|][|a|..] == b;
  }

  lemma ReadsChar(source: string, k: nat, c: char)
    requires Reads(source, k, [c])
    ensures k < |source| && source[k] == c
  {
    assert source[k] == [c][0];
  }

  lemma AfterAfter(a: seq<bool>, b: seq<bool>, rest: Outcome)
    ensures After(a, After(b, rest)) == After(a + b, rest)
  {
    if rest.Done? { assert a + (b + rest.mask) == a + b + rest.mask; }
  }

  // ----- where literals and comments end -----

  lemma {:induction false} LineStops(source: string, j: nat, text: string)
    requires '\n' !in text && Reads(source, j, text + "\n")
    ensures LineEnd(source, j) == j + |text|
    decreases |text|
  {
    if text == "" {
      ReadsChar(source, j, '\n');
    } else {
      assert text + "\n" == [text[0]] + (text[1..] + "\n");
      ReadsBoth(source, j, [text[0]], text[1..] + "\n");
      ReadsChar(source, j, text[0]);
      LineStops(source, j + 1, text[1..]);
    }
  }

  lemma {:induction false} BlockStops(source: string, j: nat, text: string)
    requires (forall k | 0 <= k < |text| :: !Pair(text, k, '*', '/')) && Reads(source, j, text + "*/")
    ensures BlockEnd(source, j) == j + |text| + 2
    decreases |text|
  {
    if text == "" {
      ReadsBoth(source, j, "*", "/");
      ReadsChar(source, j, '*');
      ReadsChar(source, j + 1, '/');
    } else {
      var whole, rest := text + "*/", text[1..];
      assert whole == [text[0]] + (rest + "*/");
      ReadsBoth(source, j, [text[0]], rest + "*/");
      ReadsChar(source, j, text[0]);
      assert source[j + 1] == whole[1] by { assert source[j..j + |whole|][1] == whole[1]; }
      assert !Pair(text, 0, '*', '/');
      forall k | 0 <= k < |rest| ensures !Pair(rest, k, '*', '/') { assert !Pair(text, k + 1, '*', '/'); }
      BlockStops(source, j + 1, rest);
    }
  }

  lemma LettersStart(body: seq<Unit>, after: string)
    requires body != []
    ensures var rest := Letters(body[1..]) + after;
      Letters(body) + after == if body[0].Char? then [body[0].c] + rest else ['\\'] + ([body[0].c] + rest)
    ensures |Letters(body)| == |Letters(body[1..])| + (if body[0].Char? then 1 else 2)
  {
    var tail, c := Letters(body[1..]), [body[0].c];
    LettersFirst(body);
    hide Letters;
    if body[0].Char? {
      Associate(c, tail, after);
    } else {
      Associate(['\\'], c, tail);
      Associate(['\\'], c + tail, after);
      Associate(c, tail, after);
    }
  }

  lemma Associate(a: string, b: string, c: string)
    ensures a + b + c == a + (b + c)
  {
  }

  lemma LettersFirst(body: seq<Unit>)
    requires body != []
    ensures var c := [body[0].c];
      Letters(body) == if body[0].Char? then c + Letters(body[1..]) else ['\\'] + c + Letters(body[1..])
  {
  }

  lemma UnitReads(source: string, j: nat, body: seq<Unit>, after: string)
    requires body != [] && Reads(source, j, Letters(body) + after)
    ensures match body[0]
      case Char(c) => j < |source| && source[j] == c && Reads(source, j + 1, Letters(body[1..]) + after)
      case Escape(c) => j < |source| && source[j] == '\\' && Reads(source, j + 2, Letters(body[1..]) + after)
    ensures |Letters(body)| == |Letters(body[1..])| + (if body[0].Char? then 1 else 2)
  {
    var rest := Letters(body[1..]) + after;
    LettersStart(body, after);
    hide Letters, Reads;
    match body[0]
    case Char(c) =>
      ReadsBoth(source, j, [c], rest);
      ReadsChar(source, j, c);
    case Escape(c) =>
      ReadsBoth(source, j, ['\\'], [c] + rest);
      ReadsBoth(source, j + 1, [c], rest);
      ReadsChar(source, j, '\\');
  }

  lemma {:induction false} QuoteStops(source: string, j: nat, body: seq<Unit>, quote: char)
    requires QuotedText(body, quote) && Reads(source, j, Letters(body) + [quote])
    requires quote != '\\'
    ensures QuoteEnd(source, j, quote) == j + |Letters(body)|
    decreases |body|
  {
    if body == [] {
      assert Letters(body) + [quote] == [quote];
      ReadsChar(source, j, quote);
    } else {
      UnitReads(source, j, body, [quote]);
      assert body[0] in body;
      QuoteStops(source, if body[0].Char? then j + 1 else j + 2, body[1..], quote);
    }
  }

  /** Template text ends at the tick or the `${` that follows it, and not before. */
  lemma {:induction false} TextStops(source: string, j: nat, body: seq<Unit>, after: string)
    requires TickedText(body) && Reads(source, j, Letters(body) + after)
    requires after == "`" || after == "${"
    ensures TextStop(source, j) == if after == "`" then Tick(j + |Letters(body)|) else Hole(j + |Letters(body)|)
    decreases |body|
  {
    if body == [] {
      assert Letters(body) + after == after;
      assert source[j] == after[0] && (after == "${" ==> source[j + 1] == after[1]);
    } else {
      UnitReads(source, j, body, after);
      assert body[0] in body;
      assert TickedText(body[1..]) by {
        forall i | 0 <= i < |body[1..]| - 1 ensures !(body[1..][i] == Char('$') && body[1..][i + 1] == Char('{')) {
          assert !(body[i + 1] == Char('$') && body[i + 2] == Char('{'));
        }
      }
      TextStops(source, if body[0].Char? then j + 1 else j + 2, body[1..], after);
      if body[0] == Char('$') { NoHoleYet(source, j, body, after); }
    }
  }

  lemma NoHoleYet(source: string, j: nat, body: seq<Unit>, after: string)
    requires TickedText(body) && Reads(source, j, Letters(body) + after) && body != [] && body[0] == Char('$')
    requires after == "`" || after == "${"
    ensures j + 1 < |source| && source[j + 1] != '{'
  {
    UnitReads(source, j, body, after);
    if |body| == 1 {
      assert Letters(body[1..]) + after == after;
      assert source[j + 1] == after[0];
    } else {
      UnitReads(source, j + 1, body[1..], after);
      assert !(body[0] == Char('$') && body[1] == Char('{'));
    }
  }

  // ----- passing over a printed source -----

  /** No `${` is waiting for a brace deeper than this. */
  predicate Level(st: State) {
    st.templates == [] || st.templates[|st.templates| - 1] <= st.depth
  }

  predicate SameNesting(a: State, b: State) {
    a.templates == b.templates && a.depth == b.depth
  }

  /** From offset `i` the scanner marks `mask` and goes on at `j`. */
  ghost predicate Passes(cl: Classes, source: string, i: nat, a: State, mask: seq<bool>, j: nat, b: State) {
    Scan(cl, source, i, a) == After(mask, Scan(cl, source, j, b)) && SameNesting(a, b)
  }

  lemma PassesOn(cl: Classes, source: string, i: nat, a: State, m: seq<bool>, j: nat, b: State, n: seq<bool>, k: nat,
                 c: State)
    requires Passes(cl, source, i, a, m, j, b) && Passes(cl, source, j, b, n, k, c)
    ensures Passes(cl, source, i, a, m + n, k, c)
  {
    AfterAfter(m, n, Scan(cl, source, k, c));
  }

  lemma PassesNests(cl: Classes, source: string, i: nat, a: State, mask: seq<bool>, j: nat, b: State)
    requires Passes(cl, source, i, a, mask, j, b)
    ensures SameNesting(a, b) && Scan(cl, source, i, a) == After(mask, Scan(cl, source, j, b))
  {
  }

  lemma PassesStep(cl: Classes, source: string, i: nat, a: State, mask: seq<bool>)
    requires i < |source| && Step(cl, source, i, a).to <= |source| && mask == Marks(source, i, Step(cl, source, i, a))
    requires SameNesting(a, Step(cl, source, i, a).state)
    ensures Passes(cl, source, i, a, mask, Step(cl, source, i, a).next, Step(cl, source, i, a).state)
  {
  }

  function Clear(n: nat): seq<bool> {
    seq(n, _ => false)
  }

  /** The marks of one turn that blanks `text`, with what it skips before and after. */
  lemma MarksAre(source: string, i: nat, m: Move, text: string)
    requires i < |source| && i <= m.from <= m.to <= m.next <= |source| && i < m.next
    requires m.from + |text| == m.to && Reads(source, m.from, text)
    ensures Marks(source, i, m) == Clear(m.from - i) + Marked(text) + Clear(m.next - m.to)
  {
    hide Step;
    var b := m.from - i;
    forall k | 0 <= k < |text| ensures source[i + b + k] == text[k] {
      assert source[m.from..m.from + |text|][k] == text[k];
    }
    assert forall k | 0 <= k < m.next - i :: Marks(source, i, m)[k] == (b <= k < b + |text| && text[k - b] != '\n');
  }

  lemma ClearFew()
    ensures Clear(0) == [] && Clear(1) == [false] && Clear(2) == [false, false]
  {
  }

  lemma AllMarked(source: string, k: nat, end: nat, text: string, st: State)
    requires k < end == k + |text| <= |source| && Reads(source, k, text)
    ensures Marks(source, k, Move(k, end, end, st)) == Marked(text)
  {
    hide *;
    MarksAre(source, k, Move(k, end, end, st), text);
    ClearFew();
    assert [] + Marked(text) + [] == Marked(text);
  }

  lemma PlainPasses(cl: Classes, source: string, k: nat, c: char, st: State) returns (after: State)
    requires c !in "/\"'`{}" && Reads(source, k, [c])
    ensures Passes(cl, source, k, st, [false], k + 1, after)
  {
    ReadsChar(source, k, c);
    assert c != '/' && c != '"' && c != '\'' && c != '`' && c != '{' && c != '}';
    after := Step(cl, source, k, st).state;
    PassesStep(cl, source, k, st, [false]);
  }

  lemma LinePasses(cl: Classes, source: string, k: nat, text: string, st: State) returns (after: State)
    requires Formed(Line(text)) && Reads(source, k, Printed(Line(text)))
    ensures Passes(cl, source, k, st, Wanted(Line(text)), k + |text| + 3, after)
  {
    hide *;
    var start := LineStep(cl, source, k, text, st);
    var end := k + |start|;
    AllMarked(source, k, end, start, st);
    PassesStep(cl, source, k, st, Marked(start));
    after := PlainPasses(cl, source, end, '\n', st);
    PassesOn(cl, source, k, st, Marked(start), end, st, [false], end + 1, after);
  }

  lemma LineStep(cl: Classes, source: string, k: nat, text: string, st: State) returns (start: string)
    requires Formed(Line(text)) && Reads(source, k, Printed(Line(text)))
    ensures |start| == |text| + 2 && k + |start| < |source|
    ensures Reads(source, k, start) && Reads(source, k + |start|, ['\n'])
    ensures Step(cl, source, k, st) == Move(k, k + |start|, k + |start|, st) && SameNesting(st, st)
    ensures Wanted(Line(text)) == Marked(start) + [false]
  {
    hide TextStop, QuoteEnd, RegexEnd, BlockEnd, Plainly, Template;
    start := "//" + text;
    LineIs(text);
    ReadsBoth(source, k, start, "\n");
    ReadsBoth(source, k, "//", text + "\n");
    assert source[k] == "//"[0] && source[k + 1] == "//"[1];
    LineStops(source, k + 2, text);
    assert LineEnd(source, k) == LineEnd(source, k + 2);
  }

  lemma LineIs(text: string)
    ensures Printed(Line(text)) == "//" + (text + "\n") == ("//" + text) + "\n"
  {
  }

  lemma BlockPasses(cl: Classes, source: string, k: nat, text: string, st: State)
    requires Formed(Block(text)) && Reads(source, k, Printed(Block(text)))
    ensures Passes(cl, source, k, st, Wanted(Block(text)), k + |text| + 4, st)
  {
    var whole := Printed(Block(text));
    var end := BlockStep(cl, source, k, text, st);
    hide *;
    AllMarked(source, k, end, whole, st);
    PassesStep(cl, source, k, st, Marked(whole));
  }

  lemma BlockStep(cl: Classes, source: string, k: nat, text: string, st: State) returns (end: nat)
    requires Formed(Block(text)) && Reads(source, k, Printed(Block(text)))
    ensures end == k + |text| + 4 == k + |Printed(Block(text))| <= |source| && k < |source|
    ensures Step(cl, source, k, st) == Move(k, end, end, st) && SameNesting(st, st)
    ensures Wanted(Block(text)) == Marked(Printed(Block(text)))
  {
    hide TextStop, QuoteEnd, RegexEnd, LineEnd, Plainly, Template;
    assert Printed(Block(text)) == "/*" + (text + "*/");
    ReadsBoth(source, k, "/*", text + "*/");
    assert source[k] == "/*"[0] && source[k + 1] == "/*"[1];
    BlockStops(source, k + 2, text);
    end := k + |text| + 4;
  }

  lemma QuotedPasses(cl: Classes, source: string, k: nat, quote: char, body: seq<Unit>, st: State)
    returns (after: State)
    requires Formed(Quoted(quote, body)) && Reads(source, k, Printed(Quoted(quote, body)))
    ensures Passes(cl, source, k, st, Wanted(Quoted(quote, body)), k + |Printed(Quoted(quote, body))|, after)
  {
    after := st.(last := [quote], lastWord := "");
    var end := QuotedStep(cl, source, k, quote, body, st);
    hide *;
    MarksAre(source, k, Move(k + 1, end, end + 1, after), Letters(body));
    ClearFew();
    PassesStep(cl, source, k, st, [false] + Marked(Letters(body)) + [false]);
  }

  lemma QuotedStep(cl: Classes, source: string, k: nat, quote: char, body: seq<Unit>, st: State) returns (end: nat)
    requires Formed(Quoted(quote, body)) && Reads(source, k, Printed(Quoted(quote, body)))
    ensures var after := st.(last := [quote], lastWord := "");
      && end == k + 1 + |Letters(body)| && end + 1 == k + |Printed(Quoted(quote, body))| <= |source|
      && Reads(source, k + 1, Letters(body)) && k < |source|
      && Step(cl, source, k, st) == Move(k + 1, end, end + 1, after) && SameNesting(st, after)
      && Wanted(Quoted(quote, body)) == [false] + Marked(Letters(body)) + [false]
  {
    hide Step, Reads, Letters;
    var text := Letters(body);
    end := k + 1 + |text|;
    assert Printed(Quoted(quote, body)) == [quote] + (text + [quote]);
    ReadsBoth(source, k, [quote], text + [quote]);
    ReadsBoth(source, k + 1, text, [quote]);
    ReadsChar(source, k, quote);
    ReadsChar(source, end, quote);
    QuoteStops(source, k + 1, body, quote);
    QuotedMove(cl, source, k, quote, st);
  }

  lemma QuotedMove(cl: Classes, source: string, k: nat, quote: char, st: State)
    requires k < |source| && source[k] == quote && quote in "\"'"
    ensures var end := QuoteEnd(source, k + 1, quote);
      Step(cl, source, k, st) == Move(k + 1, end, end + 1, st.(last := [quote], lastWord := ""))
    ensures SameNesting(st, st.(last := [quote], lastWord := ""))
  {
    hide TextStop, QuoteEnd, RegexEnd, BlockEnd, LineEnd, Plainly, Template;
    assert quote == '"' || quote == '\'';
  }

  // ----- template literals -----

  /** The marks of template text that is read from `start` to `next` and blanked up to `to`. */
  function TextMarks(source: string, start: nat, to: nat, next: nat): seq<bool>
    requires start <= next <= |source|
  {
    seq(next - start, k requires 0 <= k < next - start => start + k < to && source[start + k] != '\n')
  }

  /** What follows a tick, or the brace that ends a hole, up to where code goes on. */
  function TextRest(cl: Classes, source: string, start: nat, st: State): Outcome
    requires start <= |source|
  {
    var m := Template(source, start, st);
    After(TextMarks(source, start, m.to, m.next), Scan(cl, source, m.next, m.state))
  }

  lemma TextStep(cl: Classes, source: string, k: nat, st: State, popped: State)
    requires k < |source| && Step(cl, source, k, st) == Template(source, k + 1, popped)
    ensures Scan(cl, source, k, st) == After([false], TextRest(cl, source, k + 1, popped))
  {
    hide Step, Template;
    var m := Template(source, k + 1, popped);
    assert Marks(source, k, m) == [false] + TextMarks(source, k + 1, m.to, m.next);
    AfterAfter([false], TextMarks(source, k + 1, m.to, m.next), Scan(cl, source, m.next, m.state));
  }

  lemma TickOpens(cl: Classes, source: string, k: nat, st: State)
    requires k < |source| && source[k] == '`'
    ensures Scan(cl, source, k, st) == After([false], TextRest(cl, source, k + 1, st))
  {
    hide Scan, TextRest;
    TextStep(cl, source, k, st, st);
  }

  lemma BraceReopens(cl: Classes, source: string, k: nat, st: State)
    requires k < |source| && source[k] == '}' && st.templates != [] && st.templates[|st.templates| - 1] == st.depth
    ensures Scan(cl, source, k, st)
         == After([false], TextRest(cl, source, k + 1, st.(templates := st.templates[..|st.templates| - 1])))
  {
    hide Scan, TextRest;
    TextStep(cl, source, k, st, st.(templates := st.templates[..|st.templates| - 1]));
  }

  /** The marks of template text, with the delimiter after it. */
  lemma TextMarksAre(source: string, start: nat, text: string, skip: nat)
    requires Reads(source, start, text) && start + |text| + skip <= |source|
    ensures TextMarks(source, start, start + |text|, start + |text| + skip) == Marked(text) + Clear(skip)
  {
    forall k | 0 <= k < |text| ensures source[start + k] == text[k] {
      assert source[start..start + |text|][k] == text[k];
    }
  }

  lemma TextToTick(cl: Classes, source: string, start: nat, body: seq<Unit>, st: State)
    requires TickedText(body) && Reads(source, start, Letters(body) + "`")
    ensures TextRest(cl, source, start, st)
         == After(Marked(Letters(body)) + [false],
                  Scan(cl, source, start + |Letters(body)| + 1, st.(last := "`", lastWord := "")))
  {
    hide TextStop, Scan, Letters, Marked, TextMarks;
    TextStops(source, start, body, "`");
    ReadsBoth(source, start, Letters(body), "`");
    TextMarksAre(source, start, Letters(body), 1);
    ClearFew();
  }

  lemma TextToHole(cl: Classes, source: string, start: nat, body: seq<Unit>, st: State)
    requires TickedText(body) && Reads(source, start, Letters(body) + "${")
    ensures TextRest(cl, source, start, st)
         == After(Marked(Letters(body)) + [false, false], Scan(cl, source, start + |Letters(body)| + 2,
              st.(last := "`", lastWord := "", templates := st.templates + [st.depth])))
  {
    hide TextStop, Scan, Letters, Marked, TextMarks;
    TextStops(source, start, body, "${");
    ReadsBoth(source, start, Letters(body), "${");
    TextMarksAre(source, start, Letters(body), 2);
    ClearFew();
  }

  /** From template text on, holes and all, to the closing tick. */
  lemma {:induction false} TextPasses(cl: Classes, source: string, start: nat, head: seq<Unit>, holes: seq<Insert>,
                                      st: State)
    returns (after: State)
    requires TickedText(head) && forall h | h in holes :: FormedInsert(h)
    requires Reads(source, start, Letters(head) + PrintedHoles(holes) + "`")
    ensures TextRest(cl, source, start, st) == After(Marked(Letters(head)) + WantedHoles(holes) + [false],
      Scan(cl, source, start + |Letters(head)| + |PrintedHoles(holes)| + 1, after))
    ensures SameNesting(st, after)
    decreases holes
  {
    hide Scan, After, PrintedAll, WantedAll, PrintedHoles, WantedHoles, Letters, Marked, TextRest;
    if holes == [] {
      NoHoles(cl, source, start, head, st);
      after := st.(last := "`", lastWord := "");
    } else {
      var hole, more := holes[0], holes[1..];
      assert FormedInsert(hole) && holes == [hole] + more;
      HolesUnfold(hole, more);
      HoleReads(source, start, Letters(head), PrintedAll(hole.code), Letters(hole.tail), PrintedHoles(more));
      var at := start + |Letters(head)| + 2;
      var entered := st.(last := "`", lastWord := "", templates := st.templates + [st.depth]);
      var inner := AllPass(cl, source, at, hole.code, entered);
      var brace := at + |PrintedAll(hole.code)|;
      var popped := inner.(templates := inner.templates[..|inner.templates| - 1]);
      after := TextPasses(cl, source, brace + 1, hole.tail, more, popped);
      HolePasses(cl, source, start, head, hole, more, st, inner, after);
    }
  }

  lemma NoHoles(cl: Classes, source: string, start: nat, head: seq<Unit>, st: State)
    requires TickedText(head) && Reads(source, start, Letters(head) + PrintedHoles([]) + "`")
    ensures TextRest(cl, source, start, st) == After(Marked(Letters(head)) + WantedHoles([]) + [false],
      Scan(cl, source, start + |Letters(head)| + |PrintedHoles([])| + 1, st.(last := "`", lastWord := "")))
  {
    hide Scan, TextRest, Letters, Marked, TickedText, After;
    assert Letters(head) + PrintedHoles([]) + "`" == Letters(head) + "`";
    TextToTick(cl, source, start, head, st);
    assert Marked(Letters(head)) + WantedHoles([]) + [false] == Marked(Letters(head)) + [false];
  }

  /** The parts put together: text, `${`, code, `}`, and the text after it. */
  lemma HolePasses(cl: Classes, source: string, start: nat, head: seq<Unit>, hole: Insert, more: seq<Insert>, st: State,
                   inner: State, after: State)
    requires TickedText(head) && Reads(source, start, Letters(head) + "${")
    requires var at := start + |Letters(head)| + 2;
      var brace := at + |PrintedAll(hole.code)|;
      && brace < |source| && source[brace] == '}'
      && Passes(cl, source, at, st.(last := "`", lastWord := "", templates := st.templates + [st.depth]),
           WantedAll(hole.code), brace, inner)
      && inner.templates != []
      && TextRest(cl, source, brace + 1, inner.(templates := inner.templates[..|inner.templates| - 1]))
         == After(Marked(Letters(hole.tail)) + WantedHoles(more) + [false],
              Scan(cl, source, brace + 1 + |Letters(hole.tail)| + |PrintedHoles(more)| + 1, after))
    ensures TextRest(cl, source, start, st) == After(Marked(Letters(head)) + WantedHoles([hole] + more) + [false],
      Scan(cl, source, start + |Letters(head)| + |PrintedHoles([hole] + more)| + 1, after))
  {
    hide *;
    HoleUnfolds(hole, more, Marked(Letters(head)));
    InnerEnds(cl, source, st, hole.code, inner, start + |Letters(head)| + 2);
    var brace := start + |Letters(head)| + 2 + |PrintedAll(hole.code)|;
    TextToHole(cl, source, start, head, st);
    BraceReopens(cl, source, brace, inner);
    ChainHole(Marked(Letters(head)), WantedAll(hole.code), Marked(Letters(hole.tail)) + WantedHoles(more) + [false],
      Scan(cl, source, brace + 1 + |Letters(hole.tail)| + |PrintedHoles(more)| + 1, after));
  }

  lemma InnerEnds(cl: Classes, source: string, st: State, code: seq<Code>, inner: State, at: nat)
    requires Passes(cl, source, at, st.(last := "`", lastWord := "", templates := st.templates + [st.depth]),
      WantedAll(code), at + |PrintedAll(code)|, inner)
    ensures inner.templates != [] && inner.templates[|inner.templates| - 1] == inner.depth
    ensures Scan(cl, source, at, st.(last := "`", lastWord := "", templates := st.templates + [st.depth]))
         == After(WantedAll(code), Scan(cl, source, at + |PrintedAll(code)|, inner))
  {
    hide Scan, PrintedAll, WantedAll, After;
  }

  lemma HolesUnfold(hole: Insert, more: seq<Insert>)
    ensures PrintedHoles([hole] + more)
         == "${" + PrintedAll(hole.code) + "}" + Letters(hole.tail) + PrintedHoles(more)
  {
    assert ([hole] + more)[1..] == more;
  }

  lemma HoleUnfolds(hole: Insert, more: seq<Insert>, text: seq<bool>)
    ensures |PrintedHoles([hole] + more)|
         == 2 + |PrintedAll(hole.code)| + 1 + |Letters(hole.tail)| + |PrintedHoles(more)|
    ensures text + WantedHoles([hole] + more) + [false]
         == text + [false, false] + WantedAll(hole.code) + [false]
            + (Marked(Letters(hole.tail)) + WantedHoles(more) + [false])
  {
    hide Letters, Marked, PrintedAll, WantedAll;
    assert ([hole] + more)[1..] == more;
  }

  lemma HoleReads(source: string, start: nat, text: string, code: string, tail: string, more: string)
    requires Reads(source, start, text + ("${" + code + "}" + tail + more) + "`")
    ensures Reads(source, start, text + "${") && Reads(source, start + |text| + 2, code)
    ensures var brace := start + |text| + 2 + |code|;
      brace < |source| && source[brace] == '}' && Reads(source, brace + 1, tail + more + "`")
  {
    HoleIs(text, code, tail, more);
    hide Reads;
    ReadsBoth(source, start, text + "${", code + ("}" + (tail + more + "`")));
    ReadsBoth(source, start + |text| + 2, code, "}" + (tail + more + "`"));
    ReadsBoth(source, start + |text| + 2 + |code|, "}", tail + more + "`");
    ReadsChar(source, start + |text| + 2 + |code|, '}');
  }

  lemma HoleIs(text: string, code: string, tail: string, more: string)
    ensures text + ("${" + code + "}" + tail + more) + "`" == (text + "${") + (code + ("}" + (tail + more + "`")))
  {
  }

  lemma ChainHole(text: seq<bool>, code: seq<bool>, rest: seq<bool>, end: Outcome)
    ensures After(text + [false, false], After(code, After([false], After(rest, end))))
         == After(text + [false, false] + code + [false] + rest, end)
  {
    AfterAfter([false], rest, end);
    AfterAfter(code, [false] + rest, end);
    AfterAfter(text + [false, false], code + ([false] + rest), end);
    assert text + [false, false] + (code + ([false] + rest)) == text + [false, false] + code + [false] + rest;
  }

  // ----- code -----

  lemma {:induction false} AllPass(cl: Classes, source: string, k: nat, codes: seq<Code>, st: State)
    returns (after: State)
    requires AllFormed(codes) && Reads(source, k, PrintedAll(codes)) && Level(st)
    ensures Passes(cl, source, k, st, WantedAll(codes), k + |PrintedAll(codes)|, after)
    decreases codes
  {
    hide Scan, Printed, Wanted, After;
    if codes == [] {
      after := st;
      AfterNothing(Scan(cl, source, k, st));
    } else {
      var first, rest := codes[0], codes[1..];
      ReadsBoth(source, k, Printed(first), PrintedAll(rest));
      var middle := OnePasses(cl, source, k, first, st);
      after := AllPass(cl, source, k + |Printed(first)|, rest, middle);
      PassesOn(cl, source, k, st, Wanted(first), k + |Printed(first)|, middle, WantedAll(rest), k + |PrintedAll(codes)|,
               after);
    }
  }

  lemma AfterNothing(rest: Outcome)
    ensures After([], rest) == rest
  {
    if rest.Done? { assert [] + rest.mask == rest.mask; }
  }

  lemma {:induction false} OnePasses(cl: Classes, source: string, k: nat, code: Code, st: State) returns (after: State)
    requires Formed(code) && Reads(source, k, Printed(code)) && Level(st)
    ensures Passes(cl, source, k, st, Wanted(code), k + |Printed(code)|, after)
    decreases code
  {
    hide Scan, After, PrintedAll, WantedAll, PrintedHoles, WantedHoles, Letters, Marked, Passes, TextRest;
    match code
    case Plain(c) => after := PlainPasses(cl, source, k, c, st);
    case Line(text) => after := LinePasses(cl, source, k, text, st);
    case Block(text) => BlockPasses(cl, source, k, text, st); after := st;
    case Quoted(quote, body) => after := QuotedPasses(cl, source, k, quote, body, st);
    case Ticked(head, holes) =>
      ReadsBoth(source, k, "`", Letters(head) + PrintedHoles(holes) + "`");
      ReadsChar(source, k, '`');
      after := TextPasses(cl, source, k + 1, head, holes, st);
      TickedPasses(cl, source, k, head, holes, st, after);
    case Braces(inside) =>
      BracesRead(source, k, PrintedAll(inside));
      var entered := OpenPasses(cl, source, k, st);
      var inner := AllPass(cl, source, k + 1, inside, entered);
      PassesNests(cl, source, k + 1, entered, WantedAll(inside), k + 1 + |PrintedAll(inside)|, inner);
      after := ClosePasses(cl, source, k + 1 + |PrintedAll(inside)|, inner);
      BracesPass(cl, source, k, inside, st, entered, inner, after);
  }

  lemma TickedPasses(cl: Classes, source: string, k: nat, head: seq<Unit>, holes: seq<Insert>, st: State, after: State)
    requires k < |source| && source[k] == '`' && SameNesting(st, after)
    requires TextRest(cl, source, k + 1, st) == After(Marked(Letters(head)) + WantedHoles(holes) + [false],
      Scan(cl, source, k + 1 + |Letters(head)| + |PrintedHoles(holes)| + 1, after))
    ensures Passes(cl, source, k, st, Wanted(Ticked(head, holes)), k + |Printed(Ticked(head, holes))|, after)
  {
    hide Scan, TextRest, Letters, Marked, WantedHoles, PrintedHoles, After, SameNesting;
    TickOpens(cl, source, k, st);
    AfterAfter([false], Marked(Letters(head)) + WantedHoles(holes) + [false],
      Scan(cl, source, k + 1 + |Letters(head)| + |PrintedHoles(holes)| + 1, after));
  }

  lemma BracesRead(source: string, k: nat, text: string)
    requires Reads(source, k, "{" + text + "}")
    ensures Reads(source, k, "{") && Reads(source, k + 1, text) && Reads(source, k + 1 + |text|, "}")
  {
    assert "{" + text + "}" == "{" + (text + "}");
    ReadsBoth(source, k, "{", text + "}");
    ReadsBoth(source, k + 1, text, "}");
  }

  lemma BracesPass(cl: Classes, source: string, k: nat, inside: seq<Code>, st: State, entered: State, inner: State,
                   after: State)
    requires Scan(cl, source, k, st) == After([false], Scan(cl, source, k + 1, entered))
    requires Passes(cl, source, k + 1, entered, WantedAll(inside), k + 1 + |PrintedAll(inside)|, inner)
    requires Scan(cl, source, k + 1 + |PrintedAll(inside)|, inner)
          == After([false], Scan(cl, source, k + |PrintedAll(inside)| + 2, after))
    requires SameNesting(st, after)
    ensures Passes(cl, source, k, st, Wanted(Braces(inside)), k + |Printed(Braces(inside))|, after)
  {
    hide Scan, PrintedAll, WantedAll, After, SameNesting;
    var mask, end := WantedAll(inside), Scan(cl, source, k + |PrintedAll(inside)| + 2, after);
    AfterAfter(mask, [false], end);
    AfterAfter([false], mask + [false], end);
    assert [false] + (mask + [false]) == Wanted(Braces(inside));
  }

  lemma OpenPasses(cl: Classes, source: string, k: nat, st: State) returns (after: State)
    requires Reads(source, k, "{") && Level(st)
    ensures Scan(cl, source, k, st) == After([false], Scan(cl, source, k + 1, after))
    ensures after.templates == st.templates && after.depth == st.depth + 1 && Level(after)
  {
    ReadsChar(source, k, '{');
    after := Step(cl, source, k, st).state;
    assert Marks(source, k, Step(cl, source, k, st)) == [false];
  }

  lemma ClosePasses(cl: Classes, source: string, k: nat, st: State) returns (after: State)
    requires Reads(source, k, "}") && (st.templates == [] || st.templates[|st.templates| - 1] < st.depth)
    ensures Scan(cl, source, k, st) == After([false], Scan(cl, source, k + 1, after))
    ensures after.templates == st.templates && after.depth == st.depth - 1
  {
    ReadsChar(source, k, '}');
    after := Step(cl, source, k, st).state;
    assert Marks(source, k, Step(cl, source, k, st)) == [false];
  }

  // ----- the theorem -----

  /** On every printed source `blanked` succeeds and turns exactly the text of comments and
      literals to spaces. */
  lemma BlanksExactly(cl: Classes, codes: seq<Code>)
    requires AllFormed(codes)
    ensures Scan(cl, PrintedAll(codes), 0, START) == Done(WantedAll(codes))
  {
    var source := PrintedAll(codes);
    var after := AllPass(cl, source, 0, codes, START);
    assert WantedAll(codes) + [] == WantedAll(codes);
  }

  /** A source that breaks off in a quoted string, after a backslash, is an index error,
      whatever well-formed source comes before. */
  lemma CutEscapeCrashes(cl: Classes, codes: seq<Code>, quote: char, body: seq<Unit>)
    requires AllFormed(codes) && Formed(Quoted(quote, body))
    ensures Scan(cl, PrintedAll(codes) + ([quote] + (Letters(body) + "\\")), 0, START) == Crash
  {
    hide *;
    var before, rest := PrintedAll(codes), [quote] + (Letters(body) + "\\");
    var source := before + rest;
    ReadsBothParts(before, rest);
    StartIsLevel();
    var after := AllPass(cl, source, 0, codes, START);
    PassesNests(cl, source, 0, START, WantedAll(codes), |before|, after);
    CutStep(cl, source, |before|, quote, body, after);
    AfterCrash(WantedAll(codes));
  }

  lemma ReadsBothParts(a: string, b: string)
    ensures Reads(a + b, 0, a) && Reads(a + b, |a|, b)
  {
  }

  lemma StartIsLevel()
    ensures Level(START)
  {
  }

  lemma AfterCrash(mask: seq<bool>)
    ensures After(mask, Crash) == Crash
  {
  }

  lemma CutStep(cl: Classes, source: string, k: nat, quote: char, body: seq<Unit>, st: State)
    requires Formed(Quoted(quote, body)) && Reads(source, k, [quote] + (Letters(body) + "\\"))
    requires |source| == k + 1 + |Letters(body)| + 1
    ensures Scan(cl, source, k, st) == Crash
  {
    hide Letters, TextStop, Template, Plainly, QuoteEnd, RegexEnd;
    assert quote == '"' || quote == '\'';
    ReadsBoth(source, k, [quote], Letters(body) + "\\");
    ReadsChar(source, k, quote);
    QuoteCut(source, k + 1, body, quote);
  }

  lemma {:induction false} QuoteCut(source: string, j: nat, body: seq<Unit>, quote: char)
    requires QuotedText(body, quote) && Reads(source, j, Letters(body) + "\\") && j + |Letters(body)| + 1 == |source|
    requires quote != '\\'
    ensures QuoteEnd(source, j, quote) > |source|
    decreases |body|
  {
    if body == [] {
      assert Letters(body) + "\\" == "\\";
      ReadsChar(source, j, '\\');
    } else {
      UnitReads(source, j, body, "\\");
      assert body[0] in body;
      QuoteCut(source, if body[0].Char? then j + 1 else j + 2, body[1..], quote);
    }
  }
}
