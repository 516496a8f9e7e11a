/** Which slashes `blanked` takes for regular expressions (`scripts/check_view_after_await.py`).

    Telling a regular expression from a division is a guess from the code before it: from its last
    character that is no space, and from the word that ends there.  For every stretch of plain code
    the guess is spelled out here, and with it where the expression ends. */
module BlankingRegex {
  import opened Blanking
  import opened BlankingGrammar

  // ----- the code before a slash -----

  /** Code without slashes, quotes and ticks. */
  predicate PlainCode(text: string) {
    forall k | 0 <= k < |text| :: text[k] != '/' && text[k] != '"' && text[k] != '\'' && text[k] != '`'
  }

  function Trimmed(cl: Classes, text: string): string {
    if text != "" && cl.space(text[|text| - 1]) then Trimmed(cl, text[..|text| - 1]) else text
  }

  predicate Wordy(cl: Classes, c: char) {
    !cl.space(c) && (cl.alnum(c) || c == '_' || c == '$')
  }

  /** The word that ends with the text. */
  function WordTail(cl: Classes, text: string): string {
    if text == "" || !Wordy(cl, text[|text| - 1]) then ""
    else WordTail(cl, text[..|text| - 1]) + [text[|text| - 1]]
  }

  /** The last character that is no space. */
  function LastOf(cl: Classes, text: string): string {
    var t := Trimmed(cl, text);
    if t == "" then "" else [t[|t| - 1]]
  }

  function LastWordOf(cl: Classes, text: string): string {
    WordTail(cl, Trimmed(cl, text))
  }

  /** No expression can end where the text does. */
  predicate Expects(cl: Classes, text: string) {
    var last, word := LastOf(cl, text), LastWordOf(cl, text);
    || last == ""
    || last == "(" || last == "," || last == "=" || last == ":" || last == "[" || last == "!" || last == "&"
    || last == "|" || last == "?" || last == "{" || last == "}" || last == ";" || last == "+" || last == "-"
    || last == "*" || last == "%" || last == "<" || last == ">" || last == "~" || last == "^"
    || word == "return" || word == "typeof" || word == "case"
  }

  // ----- the scan remembers it -----

  ghost predicate Remembers(cl: Classes, text: string, st: State) {
    st.templates == [] && st.last == LastOf(cl, text) && st.lastWord == LastWordOf(cl, text)
  }

  lemma LastIsNoSpace(cl: Classes, text: string)
    ensures Trimmed(cl, text) != "" ==> !cl.space(Trimmed(cl, text)[|Trimmed(cl, text)| - 1])
  {
  }

  lemma TrimmedMore(cl: Classes, text: string, c: char)
    ensures Trimmed(cl, text + [c]) == if cl.space(c) then Trimmed(cl, text) else text + [c]
  {
    assert (text + [c])[..|text|] == text;
  }

  lemma WordMore(cl: Classes, text: string, c: char)
    ensures WordTail(cl, text + [c]) == if Wordy(cl, c) then WordTail(cl, text) + [c] else ""
  {
    assert (text + [c])[..|text|] == text;
  }

  /** The scanner's word is the word that ends here. */
  lemma WordIsTail(cl: Classes, source: string, i: nat, st: State)
    requires i < |source| && Remembers(cl, source[..i], st) && Wordy(cl, source[i])
    ensures Word(cl, source, i, st) == WordTail(cl, source[..i]) + [source[i]]
  {
    var p := source[..i];
    LastIsNoSpace(cl, p);
    if p != "" {
      var c := p[|p| - 1];
      assert c == source[i - 1];
      if !cl.space(c) { assert Trimmed(cl, p) == p; }
    }
  }

  lemma PlainStep(cl: Classes, source: string, i: nat, st: State) returns (after: State)
    requires i < |source| && st.templates == [] && PlainCode([source[i]])
    ensures Step(cl, source, i, st) == Move(i, i, i + 1, after) && after.templates == []
    ensures cl.space(source[i]) ==> after.last == st.last && after.lastWord == st.lastWord
    ensures !cl.space(source[i]) ==> after.last == [source[i]]
    ensures Wordy(cl, source[i]) ==> after.lastWord == Word(cl, source, i, st)
    ensures !cl.space(source[i]) && !Wordy(cl, source[i]) ==> after.lastWord == ""
  {
    hide LineEnd, BlockEnd, QuoteEnd, RegexEnd, Template, StartsRegex;
    var c := source[i];
    assert [c][0] == c;
    after := Step(cl, source, i, st).state;
  }

  lemma PlainRemembers(cl: Classes, source: string, i: nat, st: State) returns (after: State)
    requires i < |source| && Remembers(cl, source[..i], st) && PlainCode([source[i]])
    ensures Step(cl, source, i, st) == Move(i, i, i + 1, after)
    ensures Remembers(cl, source[..i + 1], after)
  {
    var c, p := source[i], source[..i];
    after := PlainStep(cl, source, i, st);
    if Wordy(cl, c) { WordIsTail(cl, source, i, st); }
    hide Step, Trimmed, WordTail, PlainCode, Word;
    assert source[..i + 1] == p + [c];
    TrimmedMore(cl, p, c);
    WordMore(cl, p, c);
    assert c == (p + [c])[|p|];
  }

  lemma PlainMarks(source: string, i: nat, st: State)
    requires i < |source|
    ensures Marks(source, i, Move(i, i, i + 1, st)) == [false]
  {
  }

  /** Over plain code nothing is marked. */
  lemma {:induction false} PlainIsKept(cl: Classes, source: string, n: nat) returns (st: State)
    requires n <= |source| && PlainCode(source[..n])
    ensures Remembers(cl, source[..n], st)
    ensures Scan(cl, source, 0, START) == After(Clear(n), Scan(cl, source, n, st))
  {
    if n == 0 {
      st := START;
      assert source[..0] == "";
      KeptAtFirst(Scan(cl, source, 0, START));
    } else {
      PlainParts(source, n);
      hide *;
      var before := PlainIsKept(cl, source, n - 1);
      st := PlainRemembers(cl, source, n - 1, before);
      PlainMarks(source, n - 1, st);
      ScanStep(cl, source, n - 1, before);
      AfterAfter(Clear(n - 1), [false], Scan(cl, source, n, st));
      ClearMore(n - 1);
    }
  }

  lemma PlainParts(source: string, n: nat)
    requires 0 < n <= |source| && PlainCode(source[..n])
    ensures PlainCode(source[..n - 1]) && PlainCode([source[n - 1]])
  {
    assert source[..n][n - 1] == source[n - 1];
    forall k | 0 <= k < n - 1 ensures source[..n - 1][k] == source[..n][k] {
    }
  }

  lemma ClearMore(n: nat)
    ensures Clear(n) + [false] == Clear(n + 1)
  {
  }

  lemma KeptAtFirst(rest: Outcome)
    ensures rest == After(Clear(0), rest)
  {
    if rest.Done? { assert Clear(0) + rest.mask == rest.mask; }
  }

  lemma ScanStep(cl: Classes, source: string, i: nat, st: State)
    requires i < |source| && Step(cl, source, i, st).to <= |source|
    ensures var m := Step(cl, source, i, st);
      Scan(cl, source, i, st) == After(Marks(source, i, m), Scan(cl, source, m.next, m.state))
  {
  }

  // ----- the expression -----

  /** A piece of a regular expression: a character, one behind a backslash, or a class. */
  datatype Atom = One(c: char) | Behind(c: char) | Class(members: seq<Unit>)

  function Spelled(atom: Atom): string {
    match atom
    case One(c) => [c]
    case Behind(c) => ['\\', c]
    case Class(members) => "[" + (Letters(members) + "]")
  }

  function SpelledAll(body: seq<Atom>): string {
    if body == [] then "" else Spelled(body[0]) + SpelledAll(body[1..])
  }

  predicate Legal(atom: Atom) {
    match atom
    case One(c) => c != '/' && c != '[' && c != '\\' && c != '\n'
    case Behind(_) => true
    case Class(members) => forall u | u in members && u.Char? :: u.c != ']' && u.c != '\\' && u.c != '\n'
  }

  /** An expression is not empty, nor does it begin like a comment. */
  predicate IsRegex(body: seq<Atom>) {
    body != [] && body[0] != One('*') && forall a | a in body :: Legal(a)
  }

  lemma {:induction false} ClassStops(source: string, j: nat, members: seq<Unit>)
    requires Legal(Class(members)) && Reads(source, j, Letters(members) + "]")
    ensures RegexEnd(source, j, true) == RegexEnd(source, j + |Letters(members)| + 1, false)
    decreases |members|
  {
    hide Reads, Letters;
    if members == [] {
      NoLetters();
      ReadsChar(source, j, ']');
    } else {
      UnitReads(source, j, members, "]");
      assert members[0] in members;
      ClassStops(source, if members[0].Char? then j + 1 else j + 2, members[1..]);
    }
  }

  lemma NoLetters()
    ensures Letters([]) + "]" == [']']
  {
  }

  lemma AtomStops(source: string, j: nat, atom: Atom)
    requires Legal(atom) && Reads(source, j, Spelled(atom))
    ensures RegexEnd(source, j, false) == RegexEnd(source, j + |Spelled(atom)|, false)
  {
    hide Reads, Letters;
    match atom
    case One(c) =>
      ReadsChar(source, j, c);
    case Behind(c) =>
      assert ['\\', c] == ['\\'] + [c];
      ReadsBoth(source, j, ['\\'], [c]);
      ReadsChar(source, j, '\\');
      ReadsChar(source, j + 1, c);
    case Class(members) =>
      ReadsBoth(source, j, "[", Letters(members) + "]");
      ReadsChar(source, j, '[');
      ClassStops(source, j + 1, members);
  }

  /** The slash behind the expression ends it, or else the end of the line; no slash inside does. */
  lemma {:induction false} RegexStops(source: string, j: nat, body: seq<Atom>, stop: char)
    requires (forall a | a in body :: Legal(a)) && Reads(source, j, SpelledAll(body) + [stop])
    requires stop == '/' || stop == '\n'
    ensures RegexEnd(source, j, false) == j + |SpelledAll(body)|
    decreases |body|
  {
    hide Reads, Spelled, Legal;
    if body == [] {
      assert SpelledAll(body) + [stop] == [stop];
      ReadsChar(source, j, stop);
    } else {
      var first, rest := Spelled(body[0]), SpelledAll(body[1..]) + [stop];
      assert SpelledAll(body) + [stop] == first + rest;
      ReadsBoth(source, j, first, rest);
      assert body[0] in body;
      AtomStops(source, j, body[0]);
      RegexStops(source, j + |first|, body[1..], stop);
    }
  }

  lemma RegexBegins(body: seq<Atom>)
    requires IsRegex(body)
    ensures SpelledAll(body) != "" && SpelledAll(body)[0] != '/' && SpelledAll(body)[0] != '*'
  {
    assert body[0] in body && Legal(body[0]);
  }

  lemma GuessChar(last: string)
    requires |last| == 1
    ensures last[0] in "(,=:[!&|?{};+-*%<>~^" <==>
      (last == "(" || last == "," || last == "=" || last == ":" || last == "[" || last == "!" || last == "&"
        || last == "|" || last == "?" || last == "{" || last == "}" || last == ";" || last == "+" || last == "-"
        || last == "*" || last == "%" || last == "<" || last == ">" || last == "~" || last == "^")
  {
    assert last == [last[0]];
  }

  lemma GuessIs(cl: Classes, before: string, st: State)
    requires Remembers(cl, before, st)
    ensures StartsRegex(st) <==> Expects(cl, before)
  {
    hide Trimmed, WordTail;
    var last := LastOf(cl, before);
    if last != "" { GuessChar(last); }
  }

  lemma SlashStep(cl: Classes, source: string, n: nat, body: seq<Atom>, st: State)
    requires n < |source| && source[n] == '/' && Reads(source, n + 1, SpelledAll(body) + "/") && IsRegex(body)
    ensures var end := n + 1 + |SpelledAll(body)|;
      && end < |source|
      && (StartsRegex(st) ==> Step(cl, source, n, st) == Move(n + 1, end, end + 1, st.(last := "/", lastWord := "")))
      && (!StartsRegex(st) ==> Step(cl, source, n, st) == Plainly(cl, source, n, st))
  {
    hide StartsRegex, RegexEnd, QuoteEnd, LineEnd, BlockEnd, Template, Plainly;
    RegexBegins(body);
    RegexStops(source, n + 1, body, '/');
    var text := SpelledAll(body) + "/";
    assert source[n + 1] == source[n + 1..n + 1 + |text|][0] == text[0] == SpelledAll(body)[0];
  }

  /** After any plain code, a slash begins a regular expression, whose text is blanked up to the
      slash that ends it, exactly when no expression can end where the code does; otherwise the
      slash is code like what is before it. */
  lemma SlashIsRead(cl: Classes, source: string, n: nat, body: seq<Atom>) returns (st: State)
    requires n < |source| && PlainCode(source[..n]) && IsRegex(body)
    requires source[n] == '/' && Reads(source, n + 1, SpelledAll(body) + "/")
    ensures n + 2 + |SpelledAll(body)| <= |source|
    ensures Expects(cl, source[..n]) ==>
      Scan(cl, source, 0, START) == After(Clear(n) + ([false] + Marked(SpelledAll(body)) + [false]),
                                          Scan(cl, source, n + 2 + |SpelledAll(body)|, st))
    ensures !Expects(cl, source[..n]) ==>
      Scan(cl, source, 0, START) == After(Clear(n) + [false], Scan(cl, source, n + 1, st))
  {
    hide *;
    var known := PlainIsKept(cl, source, n);
    GuessIs(cl, source[..n], known);
    SlashStep(cl, source, n, body, known);
    ReadsBoth(source, n + 1, SpelledAll(body), "/");
    st := Step(cl, source, n, known).state;
    if StartsRegex(known) {
      RegexTaken(cl, source, n, SpelledAll(body), known, st);
    } else {
      SlashKept(cl, source, n, known, st);
    }
  }

  lemma RegexTaken(cl: Classes, source: string, n: nat, text: string, known: State, st: State)
    requires n + 2 + |text| <= |source| && Reads(source, n + 1, text)
    requires var end := n + 1 + |text|; Step(cl, source, n, known) == Move(n + 1, end, end + 1, st)
    requires Scan(cl, source, 0, START) == After(Clear(n), Scan(cl, source, n, known))
    ensures Scan(cl, source, 0, START) ==
      After(Clear(n) + ([false] + Marked(text) + [false]), Scan(cl, source, n + 2 + |text|, st))
  {
    hide *;
    var end := n + 1 + |text|;
    ScanStep(cl, source, n, known);
    MarksAre(source, n, Move(n + 1, end, end + 1, st), text);
    ClearFew();
    AfterAfter(Clear(n), [false] + Marked(text) + [false], Scan(cl, source, end + 1, st));
  }

  lemma SlashKept(cl: Classes, source: string, n: nat, known: State, st: State)
    requires n < |source| && Step(cl, source, n, known) == Plainly(cl, source, n, known)
    requires st == Plainly(cl, source, n, known).state
    requires Scan(cl, source, 0, START) == After(Clear(n), Scan(cl, source, n, known))
    ensures Scan(cl, source, 0, START) == After(Clear(n) + [false], Scan(cl, source, n + 1, st))
  {
    hide *;
    PlainMove(cl, source, n, known);
    ScanStep(cl, source, n, known);
    PlainMarks(source, n, st);
    AfterAfter(Clear(n), [false], Scan(cl, source, n + 1, st));
  }

  lemma PlainMove(cl: Classes, source: string, n: nat, st: State)
    requires n < |source|
    ensures Plainly(cl, source, n, st) == Move(n, n, n + 1, Plainly(cl, source, n, st).state)
  {
  }
}
