/** What `blanked` does where a source breaks off in the middle of something, and where a literal
    breaks off with its line (`scripts/check_view_after_await.py`). */
module BlankingTails {
  import opened Blanking
  import opened BlankingGrammar

  /** A comment or a literal that is never closed. */
  datatype Tail =
    | LineTail(text: string)
    | BlockTail(text: string)
    | QuotedTail(quote: char, body: seq<Unit>)
    | TickedTail(body: seq<Unit>)

  function Shown(tail: Tail): string {
    match tail
    case LineTail(text) => "//" + text
    case BlockTail(text) => "/*" + text
    case QuotedTail(quote, body) => [quote] + Letters(body)
    case TickedTail(body) => "`" + Letters(body)
  }

  /** The comment, or what stands behind the delimiter. */
  function WantedTail(tail: Tail): seq<bool> {
    match tail
    case LineTail(text) => Marked("//" + text)
    case BlockTail(text) => Marked("/*" + text)
    case QuotedTail(_, body) => [false] + Marked(Letters(body))
    case TickedTail(body) => [false] + Marked(Letters(body))
  }

  predicate FormedTail(tail: Tail) {
    match tail
    case LineTail(text) => '\n' !in text
    case BlockTail(text) => forall k | 0 <= k < |text| :: !Pair(text, k, '*', '/')
    case QuotedTail(quote, body) => (quote == '"' || quote == '\'') && QuotedText(body, quote)
    case TickedTail(body) => TickedText(body)
  }

  // ----- nothing ends it -----

  lemma {:induction false} LineRuns(source: string, j: nat)
    requires j <= |source| && '\n' !in source[j..]
    ensures LineEnd(source, j) == |source|
    decreases |source| - j
  {
    if j < |source| {
      assert source[j] == source[j..][0] && source[j + 1..] == source[j..][1..];
      LineRuns(source, j + 1);
    }
  }

  lemma {:induction false} BlockRuns(source: string, j: nat)
    requires j <= |source| && forall k | j <= k < |source| :: !Pair(source, k, '*', '/')
    ensures BlockEnd(source, j) == |source|
    decreases |source| - j
  {
    if j < |source| { BlockRuns(source, j + 1); }
  }

  lemma {:induction false} QuoteRuns(source: string, j: nat, body: seq<Unit>, quote: char)
    requires QuotedText(body, quote) && Reads(source, j, Letters(body)) && j + |Letters(body)| == |source|
    requires quote != '\\'
    ensures QuoteEnd(source, j, quote) == |source|
    decreases |body|
  {
    hide Reads, Letters;
    NoneLeft();
    if body != [] {
      UnitAt(source, j, body);
      assert body[0] in body;
      QuoteRuns(source, if body[0].Char? then j + 1 else j + 2, body[1..], quote);
    }
  }

  lemma NoneLeft()
    ensures Letters([]) == ""
  {
  }

  lemma UnitAt(source: string, j: nat, body: seq<Unit>)
    requires body != [] && Reads(source, j, Letters(body))
    ensures match body[0]
      case Char(c) => j < |source| && source[j] == c && Reads(source, j + 1, Letters(body[1..]))
      case Escape(c) => j < |source| && source[j] == '\\' && Reads(source, j + 2, Letters(body[1..]))
    ensures |Letters(body)| == |Letters(body[1..])| + (if body[0].Char? then 1 else 2)
  {
    hide Letters, Reads;
    assert Letters(body) + "" == Letters(body) && Letters(body[1..]) + "" == Letters(body[1..]);
    UnitReads(source, j, body, "");
  }

  lemma {:induction false} TextRuns(source: string, j: nat, body: seq<Unit>)
    requires TickedText(body) && Reads(source, j, Letters(body)) && j + |Letters(body)| == |source|
    ensures TextStop(source, j) == End
    decreases |body|
  {
    hide Reads, Letters;
    NoneLeft();
    if body != [] {
      var rest := body[1..];
      UnitAt(source, j, body);
      assert body[0] in body;
      forall i | 0 <= i < |rest| - 1 ensures !(rest[i] == Char('$') && rest[i + 1] == Char('{')) {
        assert !(body[i + 1] == Char('$') && body[i + 2] == Char('{'));
      }
      TextRuns(source, if body[0].Char? then j + 1 else j + 2, rest);
      if body[0] == Char('$') && rest != [] {
        UnitAt(source, j + 1, rest);
        assert !(body[0] == Char('$') && body[1] == Char('{'));
      }
    }
  }

  // ----- the last turn -----

  lemma LastTurn(cl: Classes, source: string, k: nat, st: State, m: Move, text: string)
    requires k < |source| && Step(cl, source, k, st) == m && m.to == |source| <= m.next && k <= m.from <= m.to
    requires m.from + |text| == |source| && Reads(source, m.from, text)
    ensures Scan(cl, source, k, st) == Done(Clear(m.from - k) + Marked(text))
  {
    hide Step, Clear, Marked;
    LastMarks(source, k, m, text);
    var rest := Scan(cl, source, m.next, m.state);
    assert rest == Done([]);
    assert Clear(m.from - k) + Marked(text) + [] == Clear(m.from - k) + Marked(text);
  }

  lemma LastMarks(source: string, k: nat, m: Move, text: string)
    requires k < |source| && m.to == |source| <= m.next && k <= m.from <= m.to && k < m.next
    requires m.from + |text| == |source| && Reads(source, m.from, text)
    ensures Marks(source, k, m) == Clear(m.from - k) + Marked(text)
  {
    var b := m.from - k;
    forall x | 0 <= x < |text| ensures source[k + b + x] == text[x] {
      assert source[m.from..m.from + |text|][x] == text[x];
    }
  }

  lemma LineTurn(cl: Classes, source: string, k: nat, text: string, st: State)
    requires '\n' !in text && Reads(source, k, "//" + text) && k + 2 + |text| == |source|
    ensures Step(cl, source, k, st) == Move(k, |source|, |source|, st)
  {
    hide BlockEnd, QuoteEnd, RegexEnd, TextStop, Template, Plainly, StartsRegex;
    ReadsBoth(source, k, "//", text);
    assert source[k..k + 2] == "//";
    assert source[k] == source[k..k + 2][0] && source[k + 1] == source[k..k + 2][1];
    assert source[k..] == "//" + text;
    LineRuns(source, k);
  }

  lemma BlockTurn(cl: Classes, source: string, k: nat, text: string, st: State)
    requires FormedTail(BlockTail(text)) && Reads(source, k, "/*" + text) && k + 2 + |text| == |source|
    ensures Step(cl, source, k, st) == Move(k, |source|, |source|, st)
  {
    hide LineEnd, QuoteEnd, RegexEnd, TextStop, Template, Plainly, StartsRegex;
    ReadsBoth(source, k, "/*", text);
    assert source[k..k + 2] == "/*";
    assert source[k] == source[k..k + 2][0] && source[k + 1] == source[k..k + 2][1];
    assert source[k + 2..k + 2 + |text|] == text;
    forall x | k + 2 <= x < |source| ensures !Pair(source, x, '*', '/') {
      assert !Pair(text, x - k - 2, '*', '/');
    }
    BlockRuns(source, k + 2);
  }

  lemma QuotedTurn(cl: Classes, source: string, k: nat, quote: char, body: seq<Unit>, st: State)
    requires FormedTail(QuotedTail(quote, body)) && Reads(source, k, [quote] + Letters(body))
    requires k + 1 + |Letters(body)| == |source|
    ensures Step(cl, source, k, st) == Move(k + 1, |source|, |source| + 1, st.(last := [quote], lastWord := ""))
    ensures Reads(source, k + 1, Letters(body))
  {
    hide Step, Letters, Reads, QuoteEnd, SameNesting;
    ReadsBoth(source, k, [quote], Letters(body));
    ReadsChar(source, k, quote);
    QuoteRuns(source, k + 1, body, quote);
    QuotedMove(cl, source, k, quote, st);
  }

  lemma TickedTurn(cl: Classes, source: string, k: nat, body: seq<Unit>, st: State) returns (after: State)
    requires TickedText(body) && Reads(source, k, "`" + Letters(body)) && k + 1 + |Letters(body)| == |source|
    ensures Step(cl, source, k, st) == Move(k + 1, |source|, |source|, after) && Reads(source, k + 1, Letters(body))
  {
    hide Letters, Reads, LineEnd, BlockEnd, QuoteEnd, RegexEnd, TextStop, Plainly, StartsRegex;
    ReadsBoth(source, k, "`", Letters(body));
    ReadsChar(source, k, '`');
    TextRuns(source, k + 1, body);
    after := Step(cl, source, k, st).state;
  }

  lemma TailTurn(cl: Classes, source: string, k: nat, tail: Tail, st: State)
    requires FormedTail(tail) && Reads(source, k, Shown(tail)) && k + |Shown(tail)| == |source|
    ensures Scan(cl, source, k, st) == Done(WantedTail(tail))
  {
    hide Scan, Step, Reads, Letters, Marked, QuotedText, TickedText;
    ClearFew();
    match tail
    case LineTail(text) =>
      LineTurn(cl, source, k, text, st);
      LastTurn(cl, source, k, st, Move(k, |source|, |source|, st), "//" + text);
      assert [] + Marked("//" + text) == Marked("//" + text);
    case BlockTail(text) =>
      BlockTurn(cl, source, k, text, st);
      LastTurn(cl, source, k, st, Move(k, |source|, |source|, st), "/*" + text);
      assert [] + Marked("/*" + text) == Marked("/*" + text);
    case QuotedTail(quote, body) =>
      QuotedTurn(cl, source, k, quote, body, st);
      var after := st.(last := [quote], lastWord := "");
      LastTurn(cl, source, k, st, Move(k + 1, |source|, |source| + 1, after), Letters(body));
    case TickedTail(body) =>
      var after := TickedTurn(cl, source, k, body, st);
      LastTurn(cl, source, k, st, Move(k + 1, |source|, |source|, after), Letters(body));
  }

  /** Behind every source printed from the grammar, what is never closed is blanked to the end. */
  lemma TailIsBlanked(cl: Classes, codes: seq<Code>, tail: Tail)
    requires AllFormed(codes) && FormedTail(tail)
    ensures Scan(cl, PrintedAll(codes) + Shown(tail), 0, START) == Done(WantedAll(codes) + WantedTail(tail))
  {
    hide *;
    var before := PrintedAll(codes);
    var source := before + Shown(tail);
    ReadsBothParts(before, Shown(tail));
    StartIsLevel();
    var after := AllPass(cl, source, 0, codes, START);
    PassesNests(cl, source, 0, START, WantedAll(codes), |before|, after);
    TailTurn(cl, source, |before|, tail, after);
    AfterDone(WantedAll(codes), WantedTail(tail));
  }

  lemma AfterDone(mask: seq<bool>, more: seq<bool>)
    ensures After(mask, Done(more)) == Done(mask + more)
  {
  }

  // ----- a literal that breaks off with its line -----

  lemma {:induction false} QuoteStopsAtLine(source: string, j: nat, body: seq<Unit>, quote: char)
    requires QuotedText(body, quote) && Reads(source, j, Letters(body) + "\n") && quote != '\\'
    ensures QuoteEnd(source, j, quote) == j + |Letters(body)|
    decreases |body|
  {
    hide Reads, Letters;
    NoneLeft();
    if body == [] {
      assert Letters(body) + "\n" == ['\n'];
      ReadsChar(source, j, '\n');
    } else {
      UnitReads(source, j, body, "\n");
      assert body[0] in body;
      QuoteStopsAtLine(source, if body[0].Char? then j + 1 else j + 2, body[1..], quote);
    }
  }

  /** A string that its line leaves open ends with it, and code goes on behind the newline. */
  lemma BrokenStringEndsWithLine(cl: Classes, source: string, k: nat, quote: char, body: seq<Unit>, st: State)
    requires FormedTail(QuotedTail(quote, body)) && Reads(source, k, [quote] + (Letters(body) + "\n"))
    ensures Passes(cl, source, k, st, [false] + Marked(Letters(body)) + [false], k + |Letters(body)| + 2,
                   st.(last := [quote], lastWord := ""))
  {
    hide *;
    var text, after, end := Letters(body), st.(last := [quote], lastWord := ""), k + 1 + |Letters(body)|;
    ReadsBoth(source, k, [quote], text + "\n");
    ReadsBoth(source, k + 1, text, "\n");
    ReadsChar(source, k, quote);
    ReadsChar(source, end, '\n');
    TailQuote(quote, body);
    QuoteStopsAtLine(source, k + 1, body, quote);
    QuotedMove(cl, source, k, quote, st);
    MarksAre(source, k, Move(k + 1, end, end + 1, after), text);
    ClearFew();
    PassesStep(cl, source, k, st, [false] + Marked(text) + [false]);
  }

  lemma TailQuote(quote: char, body: seq<Unit>)
    requires FormedTail(QuotedTail(quote, body))
    ensures quote in "\"'" && QuotedText(body, quote) && quote != '\\'
  {
  }
}
