/** Blanking comments and the text of literals in TypeScript (`blanked` in
    `scripts/check_view_after_await.py`).

    The scanner walks over code, comments, quoted strings, regular expressions and template
    literals, which nest through `${...}`.  It is described one turn of its loop at a time, and
    then proved against a grammar of sources. */
module Blanking {

  /** Python's `str.isspace` and `str.isalnum`, which only guide the guess whether a slash
      begins a regular expression. */
  datatype Classes = Classes(space: char -> bool, alnum: char -> bool)

  /** The variables of the loop.  `templates` holds the brace depths that `${` was opened at. */
  datatype State = State(templates: seq<int>, depth: int, last: string, lastWord: string)

  const START := State([], 0, "", "")

  // ----- the ends of things -----

  /** `source.startswith(two, i)`. */
  predicate Pair(source: string, i: nat, a: char, b: char) {
    i + 1 < |source| && source[i] == a && source[i + 1] == b
  }

  function LineEnd(source: string, j: nat): (e: nat)
    requires j <= |source|
    ensures j <= e <= |source|
    decreases |source| - j
  {
    if j < |source| && source[j] != '\n' then LineEnd(source, j + 1) else j
  }

  function BlockEnd(source: string, j: nat): (e: nat)
    requires j <= |source|
    ensures j <= e <= |source|
    decreases |source| - j
  {
    if j == |source| then j else if Pair(source, j, '*', '/') then j + 2 else BlockEnd(source, j + 1)
  }

  /** The loop over a quoted string: past the end when an escape is cut off. */
  function QuoteEnd(source: string, j: nat, quote: char): (e: nat)
    ensures j <= e
    decreases |source| - j
  {
    if j < |source| && source[j] != quote && source[j] != '\n'
    then QuoteEnd(source, j + (if source[j] == '\\' then 2 else 1), quote) else j
  }

  /** The loop over a regular expression. */
  function RegexEnd(source: string, j: nat, inClass: bool): (e: nat)
    ensures j <= e
    decreases |source| - j
  {
    if j >= |source| || source[j] == '\n' then j
    else if source[j] == '\\' then RegexEnd(source, j + 2, inClass)
    else if source[j] == '[' then RegexEnd(source, j + 1, true)
    else if source[j] == ']' then RegexEnd(source, j + 1, false)
    else if source[j] == '/' && !inClass then j
    else RegexEnd(source, j + 1, inClass)
  }

  /** Where template text stops: at a tick, at a `${`, or with the source. */
  datatype Stop = Tick(at: nat) | Hole(at: nat) | End

  function TextStop(source: string, k: nat): (stop: Stop)
    ensures stop.Tick? ==> k <= stop.at < |source|
    ensures stop.Hole? ==> k <= stop.at && stop.at + 1 < |source|
    decreases |source| - k
  {
    if k >= |source| then End
    else if source[k] == '\\' then TextStop(source, k + 2)
    else if source[k] == '`' then Tick(k)
    else if Pair(source, k, '$', '{') then Hole(k)
    else TextStop(source, k + 1)
  }

  // ----- one turn of the loop -----

  /** Blank from `from` up to `to`, go on at `next`. */
  datatype Move = Move(from: nat, to: nat, next: nat, state: State)

  /** `template_text(start)`, and the two assignments after it. */
  function Template(source: string, start: nat, st: State): (m: Move)
    requires start <= |source|
    ensures m.from == start <= m.to <= m.next <= |source| && m.to <= |source|
  {
    var after := st.(last := "`", lastWord := "");
    match TextStop(source, start)
    case Tick(k) => Move(start, k, k + 1, after)
    case Hole(k) => Move(start, k, k + 2, after.(templates := st.templates + [st.depth]))
    case End => Move(start, |source|, |source|, after)
  }

  /** What precedes a slash cannot end an expression. */
  predicate StartsRegex(st: State) {
    || st.last == ""
    || st.last[0] in "(,=:[!&|?{};+-*%<>~^"
    || st.lastWord in ["return", "typeof", "case"]
  }

  function Word(cl: Classes, source: string, i: nat, st: State): string
    requires i < |source|
  {
    if st.last != "" && (cl.alnum(st.last[0]) || st.last[0] in "_$") && i > 0 && source[i - 1] == st.last[0]
    then st.lastWord + [source[i]] else [source[i]]
  }

  /** A character of code: it stays, and is remembered unless it is white space. */
  function Plainly(cl: Classes, source: string, i: nat, st: State): Move
    requires i < |source|
  {
    var c := source[i];
    var after :=
      if cl.space(c) then st
      else if cl.alnum(c) || c in "_$" then st.(last := [c], lastWord := Word(cl, source, i, st))
      else st.(last := [c], lastWord := "");
    Move(i, i, i + 1, after)
  }

  function Step(cl: Classes, source: string, i: nat, st: State): (m: Move)
    requires i < |source|
    ensures i <= m.from <= m.to <= m.next && i < m.next
  {
    var c := source[i];
    if Pair(source, i, '/', '/') then Move(i, LineEnd(source, i), LineEnd(source, i), st)
    else if Pair(source, i, '/', '*') then Move(i, BlockEnd(source, i + 2), BlockEnd(source, i + 2), st)
    else if c == '"' || c == '\'' then
      var j := QuoteEnd(source, i + 1, c);
      Move(i + 1, j, j + 1, st.(last := [c], lastWord := ""))
    else if c == '`' then Template(source, i + 1, st)
    else if c == '/' && StartsRegex(st) then
      var j := RegexEnd(source, i + 1, false);
      Move(i + 1, j, j + 1, st.(last := "/", lastWord := ""))
    else if c == '{' then Plainly(cl, source, i, st.(depth := st.depth + 1))
    else if c == '}' && st.templates != [] && st.templates[|st.templates| - 1] == st.depth then
      Template(source, i + 1, st.(templates := st.templates[..|st.templates| - 1]))
    else if c == '}' then Plainly(cl, source, i, st.(depth := st.depth - 1))
    else Plainly(cl, source, i, st)
  }

  // ----- the whole scan -----

  function Min(a: nat, b: nat): nat {
    if a < b then a else b
  }

  /** Which characters one turn blanks, from where it starts to where the next one does. */
  function Marks(source: string, i: nat, m: Move): (mask: seq<bool>)
    requires i < |source| && i < m.next
    ensures |mask| == Min(m.next, |source|) - i
  {
    seq(Min(m.next, |source|) - i, k requires 0 <= k < Min(m.next, |source|) - i =>
      m.from <= i + k < m.to && source[i + k] != '\n')
  }

  /** `Crash` is the `IndexError` of blanking past the end. */
  datatype Outcome = Crash | Done(mask: seq<bool>)

  function After(mask: seq<bool>, rest: Outcome): Outcome {
    if rest.Crash? then Crash else Done(mask + rest.mask)
  }

  function Scan(cl: Classes, source: string, i: nat, st: State): (r: Outcome)
    ensures r.Done? ==> |r.mask| == if i < |source| then |source| - i else 0
    decreases |source| - i
  {
    if i >= |source| then Done([])
    else
      var m := Step(cl, source, i, st);
      if m.to > |source| then Crash
      else After(Marks(source, i, m), Scan(cl, source, m.next, m.state))
  }

  /** `source` with what `mask` marks turned to spaces; the mask may be shorter. */
  function Overlay(source: string, mask: seq<bool>): string
    requires |mask| <= |source|
  {
    seq(|source|, k requires 0 <= k < |source| => if k < |mask| && mask[k] then ' ' else source[k])
  }

  // ----- every source -----

  /** Length and lines are kept: a newline is never marked. */
  lemma {:induction false} ScanSparesNewlines(cl: Classes, source: string, i: nat, st: State, k: nat)
    requires i <= k < |source| && Scan(cl, source, i, st).Done? && Scan(cl, source, i, st).mask[k - i]
    ensures source[k] != '\n'
    decreases |source| - i
  {
    hide Step;
    var m := Step(cl, source, i, st);
    if k >= m.next {
      ScanSparesNewlines(cl, source, m.next, m.state, k);
    } else {
      assert Marks(source, i, m)[k - i];
    }
  }

  lemma QuoteEndInside(source: string, j: nat, quote: char)
    requires j <= |source|
    ensures QuoteEnd(source, j, quote) > |source| ==> source != "" && source[|source| - 1] == '\\'
    decreases |source| - j
  {
    if j < |source| && source[j] != quote && source[j] != '\n' {
      var step := if source[j] == '\\' then 2 else 1;
      if j + step <= |source| { QuoteEndInside(source, j + step, quote); }
    }
  }

  lemma RegexEndInside(source: string, j: nat, inClass: bool)
    requires j <= |source|
    ensures RegexEnd(source, j, inClass) > |source| ==> source != "" && source[|source| - 1] == '\\'
    decreases |source| - j
  {
    if j < |source| && source[j] != '\n' {
      if source[j] == '\\' {
        if j + 2 <= |source| { RegexEndInside(source, j + 2, inClass); }
      } else if !(source[j] == '/' && !inClass) {
        RegexEndInside(source, j + 1, if source[j] == '[' then true else if source[j] == ']' then false else inClass);
      }
    }
  }

  /** Only a source whose last character is a backslash can make the scanner fail. */
  lemma {:induction false} CrashNeedsBackslash(cl: Classes, source: string, i: nat, st: State)
    requires Scan(cl, source, i, st).Crash?
    ensures source != "" && source[|source| - 1] == '\\'
    decreases |source| - i
  {
    var m := Step(cl, source, i, st);
    QuoteEndInside(source, i + 1, source[i]);
    RegexEndInside(source, i + 1, false);
    if m.to <= |source| {
      CrashNeedsBackslash(cl, source, m.next, m.state);
    }
  }

  // ----- exactly when the scan fails -----

  /** The source ends inside a quoted string or a regular expression, with no escape cut off: the
      last turn of the scan blanks up to the end and goes on behind it. */
  predicate Open(cl: Classes, source: string, i: nat, st: State)
    decreases |source| - i
  {
    i < |source| &&
    var m := Step(cl, source, i, st);
    if m.next <= |source| then Open(cl, source, m.next, m.state) else m.to == |source|
  }

  /** Only a quoted string or a regular expression can be left so. */
  lemma OnlyLiteralsStayOpen(cl: Classes, source: string, i: nat, st: State)
    requires i < |source| && Step(cl, source, i, st).to == |source| < Step(cl, source, i, st).next
    ensures (source[i] in "\"'" && QuoteEnd(source, i + 1, source[i]) == |source|)
      || (source[i] == '/' && StartsRegex(st) && RegexEnd(source, i + 1, false) == |source|)
  {
    hide Template, QuoteEnd, RegexEnd, LineEnd, BlockEnd, StartsRegex;
  }

  /** A string or a regular expression breaks off after a backslash. */
  predicate EndsInEscape(cl: Classes, source: string) {
    source != "" && source[|source| - 1] == '\\' && Open(cl, source[..|source| - 1], 0, START)
  }

  lemma {:induction false} QuoteEndLonger(p: string, j: nat, quote: char)
    requires j <= |p| && quote != '\\'
    ensures QuoteEnd(p, j, quote) <= |p| + 1
    ensures QuoteEnd(p + "\\", j, quote) == if QuoteEnd(p, j, quote) == |p| then |p| + 2 else QuoteEnd(p, j, quote)
    decreases |p| - j
  {
    var s := p + "\\";
    if j == |p| {
      assert QuoteEnd(s, j + 2, quote) == j + 2;
    } else if p[j] != quote && p[j] != '\n' {
      var step := if p[j] == '\\' then 2 else 1;
      if j + step <= |p| { QuoteEndLonger(p, j + step, quote); }
    }
  }

  lemma {:induction false} RegexEndLonger(p: string, j: nat, inClass: bool)
    requires j <= |p|
    ensures RegexEnd(p, j, inClass) <= |p| + 1
    ensures RegexEnd(p + "\\", j, inClass)
         == if RegexEnd(p, j, inClass) == |p| then |p| + 2 else RegexEnd(p, j, inClass)
    decreases |p| - j
  {
    var s := p + "\\";
    if j == |p| {
      assert RegexEnd(s, j + 2, inClass) == j + 2;
    } else if p[j] == '\\' {
      if j + 2 <= |p| { RegexEndLonger(p, j + 2, inClass); }
    } else if p[j] != '\n' && !(p[j] == '/' && !inClass) {
      RegexEndLonger(p, j + 1, if p[j] == '[' then true else if p[j] == ']' then false else inClass);
    }
  }

  lemma {:induction false} LineEndLonger(p: string, j: nat)
    requires j <= |p|
    ensures LineEnd(p + "\\", j) == if LineEnd(p, j) == |p| then |p| + 1 else LineEnd(p, j)
    decreases |p| - j
  {
    if j < |p| && p[j] != '\n' { LineEndLonger(p, j + 1); }
  }

  lemma {:induction false} BlockEndLonger(p: string, j: nat)
    requires j <= |p|
    ensures BlockEnd(p + "\\", j) == BlockEnd(p, j) || (BlockEnd(p, j) == |p| && BlockEnd(p + "\\", j) == |p| + 1)
    decreases |p| - j
  {
    if j == |p| {
      assert BlockEnd(p + "\\", j + 1) == j + 1;
    } else {
      assert Pair(p + "\\", j, '*', '/') == Pair(p, j, '*', '/');
      if !Pair(p, j, '*', '/') { BlockEndLonger(p, j + 1); }
    }
  }

  lemma {:induction false} TextStopLonger(p: string, k: nat)
    ensures TextStop(p + "\\", k) == TextStop(p, k)
    decreases |p| - k
  {
    if k < |p| {
      assert Pair(p + "\\", k, '$', '{') == Pair(p, k, '$', '{');
      if p[k] == '\\' { TextStopLonger(p, k + 2); } else { TextStopLonger(p, k + 1); }
    }
  }

  lemma TemplateLonger(p: string, start: nat, st: State)
    requires start <= |p|
    ensures var m, n := Template(p, start, st), Template(p + "\\", start, st);
      n == m || (m.next == |p| && n.to == n.next == |p| + 1)
  {
    TextStopLonger(p, start);
  }

  /** One turn over the longer source is the same turn, or it reaches the end in both. */
  lemma StepLonger(cl: Classes, p: string, i: nat, st: State)
    requires i < |p|
    ensures var m, n := Step(cl, p, i, st), Step(cl, p + "\\", i, st);
      if m.next <= |p| then n == m || (m.next == |p| && n.to == n.next == |p| + 1)
      else if m.to == |p| then n.to > |p| + 1
      else n.to == |p| + 1 < n.next
  {
    hide Template, QuoteEnd, RegexEnd, LineEnd, BlockEnd, StartsRegex, Plainly, Pair;
    var s, c := p + "\\", p[i];
    assert s[i] == c;
    PairLonger(p, i);
    LineEndLonger(p, i);
    if Pair(p, i, '/', '*') { BlockEndLonger(p, i + 2); }
    if c == '"' || c == '\'' { QuoteEndLonger(p, i + 1, c); }
    RegexEndLonger(p, i + 1, false);
    TemplateLonger(p, i + 1, st);
    if st.templates != [] { TemplateLonger(p, i + 1, st.(templates := st.templates[..|st.templates| - 1])); }
    PlainlyLonger(cl, p, i, st);
    PlainlyLonger(cl, p, i, st.(depth := st.depth + 1));
    PlainlyLonger(cl, p, i, st.(depth := st.depth - 1));
  }

  lemma PairLonger(p: string, i: nat)
    requires i < |p|
    ensures Pair(p + "\\", i, '/', '/') == Pair(p, i, '/', '/') && Pair(p + "\\", i, '/', '*') == Pair(p, i, '/', '*')
    ensures Pair(p, i, '/', '*') ==> i + 2 <= |p|
  {
  }

  lemma PlainlyLonger(cl: Classes, p: string, i: nat, st: State)
    requires i < |p|
    ensures Plainly(cl, p + "\\", i, st) == Plainly(cl, p, i, st) && Plainly(cl, p, i, st).to == i
    ensures Plainly(cl, p, i, st).next == i + 1
  {
    assert Word(cl, p + "\\", i, st) == Word(cl, p, i, st);
  }

  /** A backslash after `p` is fatal exactly when `p` ends inside a string or a regular
      expression. */
  lemma {:induction false} BackslashIsFatal(cl: Classes, p: string, i: nat, st: State)
    requires i <= |p|
    ensures Scan(cl, p + "\\", i, st).Crash? <==> Open(cl, p, i, st)
    decreases |p| - i
  {
    var s := p + "\\";
    if i == |p| {
      LastBackslash(cl, s, i, st);
    } else {
      StepLonger(cl, p, i, st);
      hide Step;
      var m, n := Step(cl, p, i, st), Step(cl, s, i, st);
      if m.next <= |p| && n == m {
        BackslashIsFatal(cl, p, m.next, m.state);
      } else if m.next == |p| {
        assert !Open(cl, p, m.next, m.state);
      }
    }
  }

  lemma LastBackslash(cl: Classes, s: string, i: nat, st: State)
    requires i + 1 == |s| && s[i] == '\\'
    ensures Scan(cl, s, i, st).Done?
  {
    assert Scan(cl, s, i + 1, Step(cl, s, i, st).state) == Done([]);
  }

  /** The index error: exactly the sources that break off after a backslash in a quoted string
      or a regular expression. */
  lemma CrashesExactlyWhen(cl: Classes, source: string)
    ensures Scan(cl, source, 0, START).Crash? <==> EndsInEscape(cl, source)
  {
    hide Scan, Open;
    if source != "" && source[|source| - 1] == '\\' {
      var p := source[..|source| - 1];
      assert source == p + "\\";
      BackslashIsFatal(cl, p, 0, START);
    } else if Scan(cl, source, 0, START).Crash? {
      CrashNeedsBackslash(cl, source, 0, START);
    }
  }

  /** A regular expression can break off so, not only a string. */
  lemma CutRegexCrashes(cl: Classes, text: string)
    requires text != "" && text[0] != '*' && forall k | 0 <= k < |text| :: text[k] !in "/[\\\n"
    ensures Scan(cl, "/" + text + "\\", 0, START) == Crash
  {
    var p := "/" + text;
    RegexRuns(p, 1);
    assert Step(cl, p, 0, START).to == |p| < Step(cl, p, 0, START).next;
    BackslashIsFatal(cl, p, 0, START);
  }

  lemma RegexRuns(p: string, j: nat)
    requires 1 <= j <= |p| && forall k | 1 <= k < |p| :: p[k] !in "/[\\\n"
    ensures RegexEnd(p, j, false) == |p|
    decreases |p| - j
  {
    if j < |p| {
      assert p[j] !in "/[\\\n";
      RegexRuns(p, j + 1);
    }
  }

  // ----- the loop -----

  /** What the array holds when the source is read up to `i`. */
  ghost predicate Underway(cl: Classes, source: string, i: nat, st: State, done: seq<bool>, out: string) {
    && |done| == Min(i, |source|) && out == Overlay(source, done)
    && Scan(cl, source, 0, START) == After(done, Scan(cl, source, i, st))
  }

  lemma Advance(cl: Classes, source: string, i: nat, st: State, done: seq<bool>, out: string, next: string)
    requires i < |source| && Underway(cl, source, i, st, done, out)
    requires var m := Step(cl, source, i, st);
      m.to <= |source| && next == Overpainted(out, m.from, m.to)
    ensures var m := Step(cl, source, i, st);
      Underway(cl, source, m.next, m.state, done + Marks(source, i, m), next)
  {
    hide Step;
    var m := Step(cl, source, i, st);
    var mask := done + Marks(source, i, m);
    assert next == Overlay(source, mask);
    var rest := Scan(cl, source, m.next, m.state);
    if rest.Done? {
      assert done + (Marks(source, i, m) + rest.mask) == mask + rest.mask;
    }
  }

  lemma Finished(cl: Classes, source: string, i: nat, st: State, done: seq<bool>, out: string)
    requires |source| <= i && Underway(cl, source, i, st, done, out)
    ensures Scan(cl, source, 0, START) == Done(done) && |done| == |source| && out == Overlay(source, done)
  {
    assert done + [] == done;
  }

  lemma Started(cl: Classes, source: string)
    ensures Underway(cl, source, 0, START, [], source)
  {
    var r := Scan(cl, source, 0, START);
    if r.Done? { assert [] + r.mask == r.mask; }
  }

  lemma Crashed(cl: Classes, source: string, i: nat, st: State, done: seq<bool>, out: string)
    requires i < |source| && Underway(cl, source, i, st, done, out) && Step(cl, source, i, st).to > |source|
    ensures Scan(cl, source, 0, START) == Crash
  {
  }

  /** `out` after `blank(a, b)`. */
  function Overpainted(out: string, a: nat, b: nat): string {
    seq(|out|, k requires 0 <= k < |out| => if a <= k < b && out[k] != '\n' then ' ' else out[k])
  }

  /** `blank`; the index error of going past the end is the answer `false`. */
  method Blank(out: array<char>, a: nat, b: nat) returns (ok: bool)
    requires a <= b
    modifies out
    ensures ok <==> a == b || b <= out.Length
    ensures ok ==> out[..] == Overpainted(old(out[..]), a, b)
  {
    for k := a to b
      invariant a <= k <= b && (k > a ==> k <= out.Length)
      invariant forall j | 0 <= j < out.Length ::
        out[j] == if a <= j < k && old(out[j]) != '\n' then ' ' else old(out[j])
    {
      if k >= out.Length {
        return false;
      }
      if out[k] != '\n' {
        out[k] := ' ';
      }
    }
    ok := true;
  }

  /** The two loops that look for the end of a literal. */
  method FindQuoteEnd(source: string, from: nat, quote: char) returns (j: nat)
    ensures j == QuoteEnd(source, from, quote)
  {
    j := from;
    while j < |source| && source[j] != quote && source[j] != '\n'
      invariant QuoteEnd(source, j, quote) == QuoteEnd(source, from, quote)
    {
      j := j + (if source[j] == '\\' then 2 else 1);
    }
  }

  method FindRegexEnd(source: string, from: nat) returns (j: nat)
    ensures j == RegexEnd(source, from, false)
  {
    j := from;
    var inClass := false;
    while j < |source| && source[j] != '\n'
      invariant RegexEnd(source, j, inClass) == RegexEnd(source, from, false)
    {
      if source[j] == '\\' {
        j := j + 2;
        continue;
      }
      if source[j] == '[' {
        inClass := true;
      } else if source[j] == ']' {
        inClass := false;
      } else if source[j] == '/' && !inClass {
        return;
      }
      j := j + 1;
    }
  }

  /** `template_text`: blanks up to where the text stops and says where to go on. */
  method TemplateText(source: string, out: array<char>, start: nat, st: State) returns (next: nat, after: State)
    requires start <= |source| == out.Length
    modifies out
    ensures var m := Template(source, start, st);
      next == m.next && after == m.state && out[..] == Overpainted(old(out[..]), m.from, m.to)
  {
    after := st.(last := "`", lastWord := "");
    var k := start;
    while k < |source|
      invariant start <= k && out[..] == old(out[..]) && TextStop(source, k) == TextStop(source, start)
    {
      if source[k] == '\\' {
        k := k + 2;
        continue;
      }
      if source[k] == '`' {
        var ok := Blank(out, start, k);
        return k + 1, after;
      }
      if Pair(source, k, '$', '{') {
        var ok := Blank(out, start, k);
        return k + 2, after.(templates := st.templates + [st.depth]);
      }
      k := k + 1;
    }
    var ok := Blank(out, start, |source|);
    next := |source|;
  }

  /** One turn of the loop of `blanked`. */
  method Turn(cl: Classes, source: string, out: array<char>, i: nat, st: State)
    returns (ok: bool, next: nat, after: State)
    requires i < |source| == out.Length
    modifies out
    ensures var m := Step(cl, source, i, st);
      && ok == (m.to <= |source|)
      && (ok ==> next == m.next && after == m.state && out[..] == Overpainted(old(out[..]), m.from, m.to))
  {
    var c := source[i];
    ok, after := true, st;
    if Pair(source, i, '/', '/') {
      next := LineEnd(source, i);
      ok := Blank(out, i, next);
    } else if Pair(source, i, '/', '*') {
      next := BlockEnd(source, i + 2);
      ok := Blank(out, i, next);
    } else if c == '"' || c == '\'' {
      var j := FindQuoteEnd(source, i + 1, c);
      ok := Blank(out, i + 1, j);
      next, after := j + 1, st.(last := [c], lastWord := "");
    } else if c == '`' {
      next, after := TemplateText(source, out, i + 1, st);
    } else if c == '/' && StartsRegex(st) {
      var j := FindRegexEnd(source, i + 1);
      ok := Blank(out, i + 1, j);
      next, after := j + 1, st.(last := "/", lastWord := "");
    } else if c == '}' && st.templates != [] && st.templates[|st.templates| - 1] == st.depth {
      next, after := TemplateText(source, out, i + 1, st.(templates := st.templates[..|st.templates| - 1]));
    } else {
      var depth := if c == '{' then st.depth + 1 else if c == '}' then st.depth - 1 else st.depth;
      var m := Plainly(cl, source, i, st.(depth := depth));
      next, after := m.next, m.state;
      assert out[..] == Overpainted(out[..], i, i);
    }
  }

  /** `blanked`; no text is the `IndexError`. */
  method Blanked(cl: Classes, source: string) returns (ok: bool, text: string)
    ensures ok <==> !EndsInEscape(cl, source)
    ensures ok <==> Scan(cl, source, 0, START).Done?
    ensures ok ==> text == Overlay(source, Scan(cl, source, 0, START).mask)
    ensures ok ==> |text| == |source| && forall k | 0 <= k < |source| ::
      && text[k] == (if Scan(cl, source, 0, START).mask[k] then ' ' else source[k])
      && (text[k] == '\n' <==> source[k] == '\n')
  {
    hide Underway, Step, Scan, Marks, Overpainted, Overlay, EndsInEscape;
    CrashesExactlyWhen(cl, source);
    var out := new char[|source|](k requires 0 <= k < |source| => source[k]);
    var i, st := 0, START;
    ghost var done: seq<bool> := [];
    text := "";
    assert out[..] == source;
    Started(cl, source);
    while i < |source|
      invariant Underway(cl, source, i, st, done, out[..])
      decreases |source| - i
    {
      ghost var before := out[..];
      var next, after;
      ok, next, after := Turn(cl, source, out, i, st);
      if !ok {
        Crashed(cl, source, i, st, done, before);
        return;
      }
      Advance(cl, source, i, st, done, before, out[..]);
      done := done + Marks(source, i, Step(cl, source, i, st));
      i, st := next, after;
    }
    ok, text := true, out[..];
    Finished(cl, source, i, st, done, text);
    KeepsLines(cl, source);
  }

  /** Every other source keeps its length and its lines. */
  lemma KeepsLines(cl: Classes, source: string)
    requires !EndsInEscape(cl, source)
    ensures Scan(cl, source, 0, START).Done?
    ensures var mask := Scan(cl, source, 0, START).mask;
      var text := Overlay(source, mask);
      |mask| == |text| == |source| && forall k | 0 <= k < |source| ::
        text[k] == (if mask[k] then ' ' else source[k]) && (text[k] == '\n' <==> source[k] == '\n')
  {
    hide Scan, EndsInEscape;
    CrashesExactlyWhen(cl, source);
    var mask := Scan(cl, source, 0, START).mask;
    forall k | 0 <= k < |source| && mask[k] ensures source[k] != '\n' {
      ScanSparesNewlines(cl, source, 0, START, k);
    }
  }
}
