/** What `platforms_in` sees (`scripts/check_platform_arms.py`), for every text.

    It drops what its pattern takes for strings before it looks for a bare `windows` or `unix`.
    The pattern pairs quotes as they come and knows no escapes, so whether a word is dropped is a
    matter of how many quotes stand before it, and of whether one follows. */
module ArmQuotes {
  import opened Cfg
  import opened PlatformArms

  function Quotes(text: string): nat {
    if text == "" then 0 else (if text[0] == '"' then 1 else 0) + Quotes(text[1..])
  }

  /** What ends `size` characters behind `k` is outside all that the pattern takes for strings. */
  predicate Clear(text: string, k: nat, size: nat) {
    k + size <= |text| && (Quotes(text[..k]) % 2 == 0 || '"' !in text[k + size..])
  }

  /** `name` stands at `k` as a word, and is not dropped. */
  predicate SeenAt(text: string, k: nat, name: string) {
    && At(text, k, name) && Clear(text, k, |name|)
    && (k > 0 ==> !WordChar(text[k - 1]))
    && (k + |name| < |text| ==> !WordChar(text[k + |name|]))
  }

  lemma {:induction false} QuotesBoth(a: string, b: string)
    ensures Quotes(a + b) == Quotes(a) + Quotes(b)
  {
    if a == "" {
      assert a + b == b;
    } else {
      assert (a + b)[1..] == a[1..] + b;
      QuotesBoth(a[1..], b);
    }
  }

  lemma {:induction false} Quoteless(text: string)
    requires '"' !in text
    ensures Quotes(text) == 0
  {
    if text != "" { Quoteless(text[1..]); }
  }

  const UPPER: string := "ABCDEFGHIJKLMNOPQRSTUVWXYZ"

  lemma UpperAre(c: char)
    ensures 'A' <= c <= 'Z' <==> c in UPPER
  {
    if 'A' <= c <= 'Z' { assert UPPER[c as int - 65] == c; }
  }

  /** The ranges are the word characters of ASCII. */
  lemma WordCharsAre(c: char)
    ensures WordChar(c) <==> c in LOWER || c in UPPER || c in DIGITS || c == '_'
  {
    LowerAre(c);
    UpperAre(c);
    DigitsAre(c);
  }

  // ----- words behind a given beginning -----

  /** The word `name` at `k`, where `open` says whether a word may begin with the text. */
  predicate WordAt(text: string, k: nat, name: string, open: bool) {
    At(text, k, name) && (if k == 0 then open else LeftEdge(text, k)) && RightEdge(text, k + |name|)
  }

  predicate HasWord(text: string, name: string, open: bool) {
    exists k | 0 <= k < |text| :: WordAt(text, k, name, open)
  }

  predicate HasClear(text: string, name: string, open: bool) {
    exists k | 0 <= k < |text| :: WordAt(text, k, name, open) && Clear(text, k, |name|)
  }

  lemma AtChar(text: string, k: nat, part: string, j: nat)
    requires At(text, k, part) && j < |part|
    ensures k + |part| <= |text| && text[k + j] == part[j]
  {
    assert text[k..k + |part|][j] == text[k + j];
  }

  lemma AtNext(c: char, rest: string, k: nat, name: string)
    ensures At([c] + rest, k + 1, name) <==> At(rest, k, name)
  {
    if k + |name| <= |rest| { assert ([c] + rest)[k + 1..k + 1 + |name|] == rest[k..k + |name|]; }
  }

  lemma WordNext(c: char, rest: string, k: nat, name: string, open: bool)
    requires k < |rest|
    ensures WordAt([c] + rest, k + 1, name, open) <==> WordAt(rest, k, name, !WordChar(c))
  {
    hide At, WordChar;
    AtNext(c, rest, k, name);
  }

  lemma HasWordStep(c: char, rest: string, name: string, open: bool)
    ensures HasWord([c] + rest, name, open) <==> WordAt([c] + rest, 0, name, open) || HasWord(rest, name, !WordChar(c))
  {
    hide WordAt, WordChar;
    var text := [c] + rest;
    if HasWord(text, name, open) {
      var k :| 0 <= k < |text| && WordAt(text, k, name, open);
      if k > 0 { WordNext(c, rest, k - 1, name, open); }
    }
    if HasWord(rest, name, !WordChar(c)) {
      var k :| 0 <= k < |rest| && WordAt(rest, k, name, !WordChar(c));
      WordNext(c, rest, k, name, open);
    }
  }

  lemma ClearNext(c: char, rest: string, k: nat, size: nat)
    requires c != '"'
    ensures Clear([c] + rest, k + 1, size) <==> Clear(rest, k, size)
  {
    if k + size <= |rest| {
      assert ([c] + rest)[..k + 1] == [c] + rest[..k];
      assert ([c] + rest)[k + 1 + size..] == rest[k + size..];
      QuotesBoth([c], rest[..k]);
    }
  }

  lemma HasClearStep(c: char, rest: string, name: string, open: bool)
    requires c != '"' && name != ""
    ensures HasClear([c] + rest, name, open)
      <==> WordAt([c] + rest, 0, name, open) || HasClear(rest, name, !WordChar(c))
  {
    hide WordAt, WordChar, Clear;
    var text := [c] + rest;
    if HasClear(text, name, open) {
      var k :| 0 <= k < |text| && WordAt(text, k, name, open) && Clear(text, k, |name|);
      if k > 0 {
        WordNext(c, rest, k - 1, name, open);
        ClearNext(c, rest, k - 1, |name|);
      }
    }
    if WordAt(text, 0, name, open) { FirstIsClear(text, name, open); }
    if HasClear(rest, name, !WordChar(c)) {
      var k :| 0 <= k < |rest| && WordAt(rest, k, name, !WordChar(c)) && Clear(rest, k, |name|);
      WordNext(c, rest, k, name, open);
      ClearNext(c, rest, k, |name|);
    }
  }

  lemma FirstIsClear(text: string, name: string, open: bool)
    requires WordAt(text, 0, name, open)
    ensures Clear(text, 0, |name|)
  {
    assert text[..0] == "";
  }

  /** A word begins at none of these places: not at a quote, and not at a letter of a string
      without its being dropped. */
  lemma NoWordAtQuote(text: string, k: nat, name: string, open: bool)
    requires k < |text| && text[k] == '"' && Letters(name)
    ensures !WordAt(text, k, name, open)
  {
    hide At;
    if At(text, k, name) { AtChar(text, k, name, 0); }
  }

  lemma StringHidesWords(mid: string, rest: string, k: nat, name: string, open: bool)
    requires 0 < k <= |mid| && '"' !in mid && Letters(name)
    ensures var text := "\"" + mid + "\"" + rest; !(WordAt(text, k, name, open) && Clear(text, k, |name|))
  {
    var text := "\"" + mid + "\"" + rest;
    var close := |mid| + 1;
    if At(text, k, name) {
      if close < k + |name| { AtChar(text, k, name, close - k); }
      assert text[k + |name|..][close - k - |name|] == text[close] == '"';
      assert text[..k] == "\"" + mid[..k - 1];
      QuotesBoth("\"", mid[..k - 1]);
      Quoteless(mid[..k - 1]);
    }
  }

  lemma ClearBehind(mid: string, rest: string, k: nat, size: nat)
    requires '"' !in mid
    ensures var text := "\"" + mid + "\"" + rest; Clear(text, |mid| + 2 + k, size) <==> Clear(rest, k, size)
  {
    var begin := "\"" + mid + "\"";
    var text := begin + rest;
    if k + size <= |rest| {
      assert text[..|mid| + 2 + k] == begin + rest[..k];
      assert text[|mid| + 2 + k + size..] == rest[k + size..];
      QuotesBoth(begin, rest[..k]);
      QuotesBoth("\"" + mid, "\"");
      QuotesBoth("\"", mid);
      Quoteless(mid);
    }
  }

  lemma WordBehind(mid: string, rest: string, k: nat, name: string, open: bool)
    requires k < |rest|
    ensures var text := "\"" + mid + "\"" + rest;
      WordAt(text, |mid| + 2 + k, name, open) <==> WordAt(rest, k, name, true)
  {
    var text := "\"" + mid + "\"" + rest;
    var from := |mid| + 2;
    if k + |name| <= |rest| { assert text[from + k..from + k + |name|] == rest[k..k + |name|]; }
  }

  lemma HasClearBehind(mid: string, rest: string, name: string, open: bool)
    requires '"' !in mid && Letters(name)
    ensures HasClear("\"" + mid + "\"" + rest, name, open) <==> HasClear(rest, name, true)
  {
    hide WordAt, Clear, Letters;
    var text := "\"" + mid + "\"" + rest;
    var from := |mid| + 2;
    if HasClear(text, name, open) {
      var k :| 0 <= k < |text| && WordAt(text, k, name, open) && Clear(text, k, |name|);
      if k == 0 || k == from - 1 { NoWordAtQuote(text, k, name, open); }
      if 0 < k < from - 1 { StringHidesWords(mid, rest, k, name, open); }
      WordBehind(mid, rest, k - from, name, open);
      ClearBehind(mid, rest, k - from, |name|);
    }
    if HasClear(rest, name, true) {
      var k :| 0 <= k < |rest| && WordAt(rest, k, name, true) && Clear(rest, k, |name|);
      WordBehind(mid, rest, k, name, open);
      ClearBehind(mid, rest, k, |name|);
    }
  }

  // ----- what is left when strings are emptied -----

  lemma {:induction false} EmptiedQuoteless(text: string)
    requires '"' !in text
    ensures Emptied(text) == text
  {
    if text != "" {
      EmptiedQuoteless(text[1..]);
      assert text == [text[0]] + text[1..];
    }
  }

  lemma {:induction false} NextQuote(text: string, k: nat)
    requires k <= |text|
    ensures '"' !in text[k..QuoteAfter(text, k)]
    decreases |text| - k
  {
    var q := QuoteAfter(text, k);
    if k < |text| && text[k] != '"' {
      NextQuote(text, k + 1);
      assert text[k..q] == [text[k]] + text[k + 1..q];
    }
  }

  lemma EdgeKept(text: string)
    ensures RightEdge(Emptied(text), 0) <==> RightEdge(text, 0)
  {
  }

  lemma {:induction false} FrontKept(text: string, name: string)
    requires forall k | 0 <= k < |name| :: WordChar(name[k])
    ensures At(Emptied(text), 0, name) && RightEdge(Emptied(text), |name|)
      <==> At(text, 0, name) && RightEdge(text, |name|)
    decreases |name|
  {
    hide Emptied, At, RightEdge, WordChar;
    if name == "" {
      EdgeKept(text);
      NothingAt(text);
      NothingAt(Emptied(text));
    } else if text == "" {
      EmptiedStep(text);
    } else if text[0] == '"' {
      EmptiedStep(text);
      NotBefore(text, name);
      NotBefore(Emptied(text), name);
    } else {
      var rest := text[1..];
      EmptiedStep(text);
      FrontKept(rest, name[1..]);
      FrontStep(text[0], rest, name);
      FrontStep(text[0], Emptied(rest), name);
      assert text == [text[0]] + rest;
    }
  }

  lemma EmptiedStep(text: string)
    ensures text == "" ==> Emptied(text) == ""
    ensures text != "" ==> Emptied(text) != "" && Emptied(text)[0] == text[0]
    ensures text != "" && text[0] != '"' ==> Emptied(text) == [text[0]] + Emptied(text[1..])
  {
  }

  lemma NothingAt(text: string)
    ensures At(text, 0, "")
  {
  }

  lemma NotBefore(text: string, name: string)
    requires text != "" && text[0] == '"' && name != "" && WordChar(name[0])
    ensures !At(text, 0, name)
  {
    hide At;
    if At(text, 0, name) { AtChar(text, 0, name, 0); }
  }

  lemma FrontStep(c: char, rest: string, name: string)
    requires name != ""
    ensures At([c] + rest, 0, name) && RightEdge([c] + rest, |name|)
      <==> c == name[0] && At(rest, 0, name[1..]) && RightEdge(rest, |name| - 1)
  {
    var text, size := [c] + rest, |name|;
    if size <= |text| {
      assert text[0..size] == [c] + rest[..size - 1];
      assert name == [name[0]] + name[1..];
    }
  }

  lemma FrontWord(text: string, name: string, open: bool)
    requires Letters(name)
    ensures WordAt(Emptied(text), 0, name, open) <==> WordAt(text, 0, name, open)
  {
    hide Emptied, At, RightEdge;
    FrontKept(text, name);
  }

  lemma LoneQuote(text: string, name: string, open: bool)
    requires text != "" && text[0] == '"' && QuoteAfter(text, 1) >= |text| && Letters(name)
    ensures Emptied(text) == text && (HasWord(text, name, open) <==> HasClear(text, name, open))
  {
    NextQuote(text, 1);
    assert text[1..QuoteAfter(text, 1)] == text[1..];
    EmptiedQuoteless(text[1..]);
    assert text == [text[0]] + text[1..];
    hide Emptied;
    if HasWord(text, name, open) {
      var k :| 0 <= k < |text| && WordAt(text, k, name, open);
      if k == 0 { NoWordAtQuote(text, k, name, open); }
      assert text[k + |name|..] == text[1..][k + |name| - 1..];
    }
  }

  /** The same with the beginning of the text left open. */
  lemma {:induction false} EmptiedHasWord(text: string, name: string, open: bool)
    requires Letters(name)
    ensures HasWord(Emptied(text), name, open) <==> HasClear(text, name, open)
    decreases |text|
  {
    hide WordAt, HasWord, HasClear, Letters, WordChar;
    if text == "" {
      NoWords(name, open);
    } else if text[0] != '"' {
      var rest := text[1..];
      assert text == [text[0]] + rest;
      EmptiedHasWord(rest, name, !WordChar(text[0]));
      NotEmpty(name);
      HasWordStep(text[0], Emptied(rest), name, open);
      HasClearStep(text[0], rest, name, open);
      FrontWord(text, name, open);
    } else if QuoteAfter(text, 1) < |text| {
      var q := QuoteAfter(text, 1);
      var mid, rest := text[1..q], text[q + 1..];
      NextQuote(text, 1);
      assert text == "\"" + mid + "\"" + rest;
      EmptiedHasWord(rest, name, true);
      HasClearBehind(mid, rest, name, open);
      TwoQuotes(Emptied(rest), name, open);
    } else {
      LoneQuote(text, name, open);
    }
  }

  lemma NoWords(name: string, open: bool)
    ensures !HasWord("", name, open) && !HasClear("", name, open)
  {
  }

  lemma NotEmpty(name: string)
    requires Letters(name)
    ensures name != ""
  {
  }

  lemma TwoQuotes(rest: string, name: string, open: bool)
    requires Letters(name)
    ensures HasWord("\"\"" + rest, name, open) <==> HasWord(rest, name, true)
  {
    hide WordAt, HasWord, Letters;
    assert "\"\"" + rest == ['"'] + (['"'] + rest);
    HasWordStep('"', ['"'] + rest, name, open);
    HasWordStep('"', rest, name, true);
    NoWordAtQuote(['"'] + (['"'] + rest), 0, name, open);
    NoWordAtQuote(['"'] + rest, 0, name, true);
    assert !WordChar('"');
  }

  /** A word is found behind the pattern for strings exactly when somewhere it stands behind an
      even number of quotes, or before none. */
  lemma MentionedExactlyWhen(text: string, name: string)
    requires Letters(name)
    ensures Mentions(Emptied(text), name) <==> exists k | 0 <= k < |text| :: SeenAt(text, k, name)
  {
    hide Emptied, At, Clear;
    EmptiedHasWord(text, name, true);
    assert HasWord(Emptied(text), name, true) <==> Mentions(Emptied(text), name) by {
      WordsAreMentions(Emptied(text), name);
    }
    if HasClear(text, name, true) {
      var k :| 0 <= k < |text| && WordAt(text, k, name, true) && Clear(text, k, |name|);
      assert SeenAt(text, k, name);
    }
    if k :| 0 <= k < |text| && SeenAt(text, k, name) {
      assert WordAt(text, k, name, true) && Clear(text, k, |name|);
    }
  }

  lemma WordsAreMentions(text: string, name: string)
    ensures HasWord(text, name, true) <==> Mentions(text, name)
  {
    hide At;
    if HasWord(text, name, true) {
      var k :| 0 <= k < |text| && WordAt(text, k, name, true);
      assert At(text, k, name) && LeftEdge(text, k) && RightEdge(text, k + |name|);
    }
    if Mentions(text, name) {
      var k :| 0 <= k < |text| && At(text, k, name) && LeftEdge(text, k) && RightEdge(text, k + |name|);
      assert WordAt(text, k, name, true);
    }
  }

  // ----- `platforms_in` -----

  lemma {:induction false} EveryTargetIsAMatch(text: string, from: nat, q: string) returns (k: nat)
    requires q in Targets(text, from)
    ensures from <= k < |text| && ValueAt(text, k, OS).Some? && ValueAt(text, k, OS).value.value == q
    decreases |text| - from
  {
    hide ValueAt;
    match ValueAt(text, from, OS)
    case Some(m) => if m.value == q { k := from; } else { k := EveryTargetIsAMatch(text, m.end, q); }
    case None => k := EveryTargetIsAMatch(text, from + 1, q);
  }

  /** Platform `q` is named at `k`: by a value, or by a bare word that is not dropped. */
  predicate NamedAt(text: string, k: nat, q: string) {
    || (ValueAt(text, k, "target_os").Some? && ValueAt(text, k, "target_os").value.value == q)
    || (ValueAt(text, k, "target_family").Some? && q in Standing(ValueAt(text, k, "target_family").value.value))
    || (q in Standing("windows") && SeenAt(text, k, "windows"))
    || (q in Standing("unix") && SeenAt(text, k, "unix"))
  }

  /** Exactly the platforms that are named somewhere are found. */
  lemma PlatformIsFoundExactlyWhen(text: string, q: string)
    ensures q in PlatformsIn(text) <==> exists k | 0 <= k < |text| :: NamedAt(text, k, q)
  {
    hide PlatformsIn, NamedAt, Targets;
    PlatformsInAre(text, q);
    if q in Targets(text, 0) {
      var k := EveryTargetIsAMatch(text, 0, q);
      TargetNames(text, k, q);
    } else if q in PlatformsIn(text) {
      var k := FoundIsNamed(text, q, if q in Standing("windows") then "windows" else "unix");
    }
    if k :| 0 <= k < |text| && NamedAt(text, k, q) { NamedIsIn(text, k, q); }
  }

  /** A word or a value of `target_family` for `name`. */
  ghost predicate Stands(text: string, name: string) {
    Mentions(Emptied(text), name) || Family(text, name)
  }

  lemma PlatformsInAre(text: string, q: string)
    ensures q in PlatformsIn(text) <==>
      (q in Targets(text, 0) || (q in Standing("windows") && Stands(text, "windows"))
        || (q in Standing("unix") && Stands(text, "unix")))
  {
    hide Targets, Mentions, Emptied, Family;
  }

  lemma TargetNames(text: string, k: nat, q: string)
    requires ValueAt(text, k, OS).Some? && ValueAt(text, k, OS).value.value == q
    ensures NamedAt(text, k, q)
  {
    hide ValueAt, SeenAt;
  }

  lemma FoundIsNamed(text: string, q: string, name: string) returns (k: nat)
    requires (name == "windows" || name == "unix") && q in Standing(name) && Stands(text, name)
    ensures k < |text| && NamedAt(text, k, q)
  {
    hide Targets, ValueAt, Mentions, Emptied, SeenAt;
    if Mentions(Emptied(text), name) {
      MentionedExactlyWhen(text, name);
      k :| 0 <= k < |text| && SeenAt(text, k, name);
    } else {
      k :| 0 <= k < |text| && ValueAt(text, k, FAMILY).Some? && ValueAt(text, k, FAMILY).value.value == name;
    }
  }

  lemma NamedIsIn(text: string, k: nat, q: string)
    requires k < |text| && NamedAt(text, k, q)
    ensures q in PlatformsIn(text)
  {
    hide PlatformsIn, Targets, ValueAt, Mentions, Emptied, SeenAt;
    PlatformsInAre(text, q);
    if ValueAt(text, k, OS).Some? && ValueAt(text, k, OS).value.value == q {
      EveryTargetIsFound(text, 0, k);
    } else if ValueAt(text, k, FAMILY).Some? && q in Standing(ValueAt(text, k, FAMILY).value.value) {
      assert Family(text, ValueAt(text, k, FAMILY).value.value);
    } else {
      SeenStands(text, k, if q in Standing("windows") && SeenAt(text, k, "windows") then "windows" else "unix");
    }
  }

  lemma SeenStands(text: string, k: nat, name: string)
    requires k < |text| && SeenAt(text, k, name) && Letters(name)
    ensures Stands(text, name)
  {
    hide SeenAt, Mentions, Emptied;
    MentionedExactlyWhen(text, name);
  }
}
