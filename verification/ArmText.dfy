/** The lint of `PlatformArms` on printed predicates (`scripts/check_platform_arms.py`).

    What the tree has is found in its text: every `not(...)`, every platform that a value names,
    and every bare name that the pattern for strings does not drop.  So a predicate the lint lets
    pass holds on every platform once it holds on one that its text does not name. */
module ArmText {
  import opened Cfg
  import opened PlatformArms
  import opened ArmQuotes
  import Comments

  /** What stands in a Rust string literal: a quote only after a backslash. */
  predicate Content(value: string) {
    if value == "" then true
    else if value[0] == '\\' then |value| >= 2 && Content(value[2..])
    else value[0] != '"' && Content(value[1..])
  }

  predicate ProperAtom(atom: Atom) {
    match atom
    case Bare(name) => Letters(name)
    case Pair(key, left, right, value) => Letters(key) && Blank(left) && Blank(right) && Content(value)
    case Odd(_) => false
  }

  ghost predicate Proper(p: Pred) {
    match p
    case Leaf(atom) => ProperAtom(atom)
    case Call(head, gap, args, end) =>
      Blank(gap) && (end.Trailing? ==> Blank(end.blank)) && (head == Not ==> |args| == 1) && AllProper(args)
  }

  ghost predicate AllProper(args: seq<Arg>) {
    forall a | a in args :: Blank(a.before) && Blank(a.after) && Proper(a.pred)
  }

  /** No `not` has a gap before its bracket. */
  predicate Unspaced(p: Pred) {
    match p
    case Leaf(_) => true
    case Call(head, gap, args, _) => (head == Not ==> gap == "") && forall a | a in args :: Unspaced(a.pred)
  }

  function Body(args: seq<Arg>, end: End): string {
    Join(Padded(args) + Ending(end))
  }

  // ----- brackets outside strings -----

  /** The depth of brackets after `text`, strings skipped; none when a bracket closes too much or
      a string does not end. */
  function OuterDepth(text: string, depth: nat): Option<nat>
    decreases |text|
  {
    if text == "" then Some(depth)
    else if text[0] == '"' then
      var quote := Comments.StringEnd(text, 1);
      if quote < |text| then OuterDepth(text[quote + 1..], depth) else None
    else if text[0] == '(' then OuterDepth(text[1..], depth + 1)
    else if text[0] == ')' then if depth > 0 then OuterDepth(text[1..], depth - 1) else None
    else OuterDepth(text[1..], depth)
  }

  /** Brackets outside strings close what they open, and every string ends. */
  predicate Even(text: string, depth: nat) {
    OuterDepth(text, depth) == Some(0)
  }

  lemma {:induction false} StringEndsAlike(text: string, i: nat, part: string, j: nat)
    requires At(text, i, part) && Comments.StringEnd(part, j) < |part|
    ensures Comments.StringEnd(text, i + j) == i + Comments.StringEnd(part, j)
    decreases |part| - j
  {
    assert text[i..i + |part|][j] == text[i + j];
    if part[j] != '"' {
      StringEndsAlike(text, i, part, j + (if part[j] == '\\' then 2 else 1));
    }
  }

  lemma AtRest(text: string, i: nat, part: string, k: nat)
    requires At(text, i, part) && k <= |part|
    ensures At(text, i + k, part[k..])
  {
    assert text[i..i + |part|][k..] == part[k..];
  }

  /** The matching of brackets passes over an even text. */
  lemma {:induction false} BalancedPasses(text: string, i: nat, part: string, depth: nat, outer: nat)
    requires At(text, i, part) && Even(part, depth) && outer >= 1
    ensures Balanced(text, i, depth + outer) == Balanced(text, i + |part|, outer)
    decreases |part|
  {
    hide At, Comments.StringEnd;
    if part != "" {
      assert part[0] == text[i] && i + |part| <= |text| by { AtFirst(text, i, part); }
      if part[0] == '"' {
        var quote := Comments.StringEnd(part, 1);
        StringEndsAlike(text, i, part, 1);
        AtRest(text, i, part, quote + 1);
        BalancedPasses(text, i + (quote + 1), part[quote + 1..], depth, outer);
      } else {
        AtRest(text, i, part, 1);
        BalancedPasses(text, i + 1, part[1..],
          if part[0] == '(' then depth + 1 else if part[0] == ')' then depth - 1 else depth, outer);
      }
    }
  }

  lemma AtFirst(text: string, i: nat, part: string)
    requires At(text, i, part) && part != ""
    ensures part[0] == text[i] && i + |part| <= |text|
  {
    assert text[i..i + |part|][0] == text[i];
  }

  lemma StringEndKept(text: string, rest: string)
    requires Comments.StringEnd(text, 1) < |text|
    ensures Comments.StringEnd(text + rest, 1) == Comments.StringEnd(text, 1)
  {
    assert (text + rest)[..|text|] == text;
    StringEndsAlike(text + rest, 0, text, 1);
  }

  lemma {:induction false} EvenThen(text: string, rest: string, depth: nat, outer: nat)
    requires Even(text, depth)
    ensures Even(text + rest, depth + outer) == Even(rest, outer)
    decreases |text|
  {
    if text == "" {
      assert text + rest == rest;
    } else if text[0] == '"' {
      var quote := Comments.StringEnd(text, 1);
      StringEndKept(text, rest);
      hide Comments.StringEnd;
      assert (text + rest)[quote + 1..] == text[quote + 1..] + rest;
      EvenThen(text[quote + 1..], rest, depth, outer);
    } else {
      hide Comments.StringEnd;
      assert (text + rest)[1..] == text[1..] + rest;
      EvenThen(text[1..], rest,
        if text[0] == '(' then depth + 1 else if text[0] == ')' then depth - 1 else depth, outer);
    }
  }

  lemma EvenBoth(a: string, b: string)
    requires Even(a, 0) && Even(b, 0)
    ensures Even(a + b, 0)
  {
    EvenThen(a, b, 0, 0);
  }

  predicate Quiet(text: string) {
    forall k | 0 <= k < |text| :: text[k] !in "()\""
  }

  lemma {:induction false} QuietIsEven(text: string)
    requires Quiet(text)
    ensures Even(text, 0)
  {
    if text != "" {
      assert text[0] !in "()\"";
      QuietIsEven(text[1..]);
    }
  }

  // ----- atoms -----

  lemma LettersAreQuiet(text: string)
    requires Letters(text)
    ensures Quiet(text) && '"' !in text && !Space(text[0]) && !Space(text[|text| - 1])
  {
    assert WordChar(text[0]) && WordChar(text[|text| - 1]);
  }

  lemma BlankIsQuiet(text: string)
    requires Blank(text)
    ensures Quiet(text) && '"' !in text && forall k | 0 <= k < |text| :: !WordChar(text[k])
  {
  }

  lemma {:induction false} ContentEnds(value: string, text: string, k: nat)
    requires Content(value) && At(text, k, value + "\"")
    ensures Comments.StringEnd(text, k) == k + |value|
    decreases |value|
  {
    hide At;
    AtFirst(text, k, value + "\"");
    if value != "" {
      var size := if value[0] == '\\' then 2 else 1;
      AtRest(text, k, value + "\"", size);
      assert (value + "\"")[size..] == value[size..] + "\"";
      ContentEnds(value[size..], text, k + size);
    }
  }

  lemma StringIsEven(value: string)
    requires Content(value)
    ensures Even("\"" + value + "\"", 0)
  {
    var text := "\"" + value + "\"";
    assert text == "\"" + (value + "\"") + "";
    AtHere("\"", value + "\"", "");
    ContentEnds(value, text, 1);
    assert text[|value| + 2..] == "";
  }

  function Before(atom: Atom): string
    requires atom.Pair?
  {
    atom.key + atom.left + "=" + atom.right
  }

  lemma BeforeIsQuiet(atom: Atom)
    requires ProperAtom(atom) && atom.Pair?
    ensures Quiet(Before(atom)) && '"' !in Before(atom)
  {
    LettersAreQuiet(atom.key);
    BlankIsQuiet(atom.left);
    BlankIsQuiet(atom.right);
  }

  lemma AtomIsEven(atom: Atom)
    requires ProperAtom(atom)
    ensures Even(Show(atom), 0)
  {
    hide Even, Quiet, Letters, Content, Blank;
    if atom.Bare? {
      LettersAreQuiet(atom.name);
      QuietIsEven(atom.name);
    } else {
      var quoted := "\"" + atom.value + "\"";
      BeforeIsQuiet(atom);
      assert Show(atom) == Before(atom) + quoted;
      QuietIsEven(Before(atom));
      StringIsEven(atom.value);
      EvenBoth(Before(atom), quoted);
    }
  }

  // ----- printed trees -----

  lemma PaddedIsEven(before: string, text: string, after: string)
    requires Blank(before) && Blank(after) && Even(text, 0)
    ensures Even(before + text + after, 0)
  {
    hide Even, Quiet, Blank;
    BlankIsQuiet(before);
    BlankIsQuiet(after);
    QuietIsEven(before);
    QuietIsEven(after);
    EvenBoth(before, text);
    EvenBoth(before + text, after);
  }

  ghost predicate AllEven(pieces: seq<string>) {
    forall k | 0 <= k < |pieces| :: Even(pieces[k], 0)
  }

  lemma {:induction false} JoinedIsEven(pieces: seq<string>)
    requires AllEven(pieces)
    ensures Even(Join(pieces), 0)
  {
    hide Even;
    if pieces == [] {
      QuietIsEven("");
    } else {
      assert Even(pieces[0], 0);
      if |pieces| > 1 {
        JoinedIsEven(pieces[1..]);
        QuietIsEven(",");
        EvenBoth(pieces[0], ",");
        EvenBoth(pieces[0] + ",", Join(pieces[1..]));
      }
    }
  }

  lemma CallIsEven(head: Head, gap: string, inner: string)
    requires Blank(gap) && Even(inner, 0)
    ensures Even(Opening(head, gap) + inner + ")", 0)
  {
    assert Even("(" + inner + ")", 0) by {
      assert ")"[1..] == "";
      EvenThen(inner, ")", 0, 1);
      assert ("(" + inner + ")")[1..] == inner + ")";
    }
    hide Even;
    BlankIsQuiet(gap);
    QuietIsEven(Word(head) + gap);
    EvenBoth(Word(head) + gap, "(" + inner + ")");
    assert Word(head) + gap + ("(" + inner + ")") == Opening(head, gap) + inner + ")";
  }

  lemma {:induction false} PrintIsEven(p: Pred)
    requires Proper(p)
    ensures Even(Print(p), 0)
    decreases p, 0
  {
    hide Even, Join, Padded, Blank, AllProper, ProperAtom, AllEven, Show;
    match p
    case Leaf(atom) => AtomIsEven(atom);
    case Call(head, gap, args, end) =>
      PaddedAreEven(args, end);
      JoinedIsEven(Padded(args) + Ending(end));
      CallIsEven(head, gap, Body(args, end));
  }

  lemma {:induction false} PaddedAreEven(args: seq<Arg>, end: End)
    requires AllProper(args) && (end.Trailing? ==> Blank(end.blank))
    ensures AllEven(Padded(args) + Ending(end))
    decreases args, 1
  {
    hide Even, Print, Blank, Proper, Quiet;
    if args == [] {
      if end.Trailing? {
        BlankIsQuiet(end.blank);
        QuietIsEven(end.blank);
      }
    } else {
      var a := args[0];
      assert a in args;
      PrintIsEven(a.pred);
      PaddedIsEven(a.before, Print(a.pred), a.after);
      PaddedAreEven(args[1..], end);
      assert Padded(args) + Ending(end) == [a.before + Print(a.pred) + a.after] + (Padded(args[1..]) + Ending(end));
    }
  }

  lemma BodyIsEven(args: seq<Arg>, end: End)
    requires AllProper(args) && (end.Trailing? ==> Blank(end.blank))
    ensures Even(Body(args, end), 0)
  {
    hide Even, Blank, AllProper, Padded, Join;
    PaddedAreEven(args, end);
    JoinedIsEven(Padded(args) + Ending(end));
  }

  // ----- where a part of the tree stands in the text -----

  ghost predicate Within(q: Pred, p: Pred)
    decreases p
  {
    q == p || (p.Call? && exists a | a in p.args :: Within(q, a.pred))
  }

  lemma {:induction false} WithinWithin(r: Pred, q: Pred, p: Pred)
    requires Within(r, q) && Within(q, p)
    ensures Within(r, p)
    decreases p
  {
    if q != p {
      var a :| a in p.args && Within(q, a.pred);
      WithinWithin(r, q, a.pred);
    }
  }

  lemma {:induction false} WithinProper(q: Pred, p: Pred)
    requires Within(q, p) && Proper(p)
    ensures Proper(q)
    decreases p
  {
    if q != p {
      var a :| a in p.args && Within(q, a.pred);
      WithinProper(q, a.pred);
    }
  }

  /** A word may begin after `text`. */
  predicate Opens(text: string) {
    text == "" || !WordChar(text[|text| - 1])
  }

  predicate Shuts(text: string) {
    text == "" || !WordChar(text[0])
  }

  /** `text` is `part` between an `x` and a `y` that do not touch it. */
  ghost predicate Holding(text: string, x: string, part: string, y: string) {
    text == x + part + y && Opens(x) && Shuts(y)
  }

  lemma OpensBoth(a: string, b: string)
    requires Opens(a) && Opens(b)
    ensures Opens(a + b)
  {
    if b == "" { assert a + b == a; }
  }

  lemma ShutsBoth(a: string, b: string)
    requires Shuts(a) && Shuts(b)
    ensures Shuts(a + b)
  {
    if a == "" { assert a + b == b; }
  }

  lemma Regroup(before: string, x: string, part: string, y: string, after: string)
    ensures before + (x + part + y) + after == (before + x) + part + (y + after)
  {
    assert before + (x + part + y) == before + x + part + y;
  }

  lemma Associate(a: string, b: string, c: string)
    ensures a + (b + c) == a + b + c
  {
  }

  lemma BlankBetween(blank: string)
    requires Blank(blank)
    ensures Opens(blank) && Shuts(blank)
  {
    BlankIsQuiet(blank);
  }

  lemma BracketsBetween(head: Head, gap: string)
    ensures Opens(Opening(head, gap))
    ensures Shuts(")") && Opens(",") && Shuts(",") && Opens("") && Shuts("")
  {
  }

  /** What follows the first argument between the brackets. */
  function Rest(args: seq<Arg>, end: End): string
    requires args != []
  {
    if |args| == 1 && end.Plain? then "" else "," + Body(args[1..], end)
  }

  /** The first argument with its blanks. */
  function First(args: seq<Arg>): string
    requires args != []
  {
    args[0].before + Print(args[0].pred) + args[0].after
  }

  lemma JoinFirst(text: string, rest: seq<string>)
    ensures Join([text] + rest) == text + (if rest == [] then "" else "," + Join(rest))
  {
    assert ([text] + rest)[1..] == rest;
    if rest == [] { assert text + "" == text; } else { Associate(text, ",", Join(rest)); }
  }

  lemma BodyBegins(args: seq<Arg>, end: End)
    requires args != []
    ensures Body(args, end) == First(args) + Rest(args, end)
    ensures |args| > 1 ==> Rest(args, end) == "," + Body(args[1..], end)
    ensures Shuts(Rest(args, end))
  {
    hide Print, Join;
    var text := First(args);
    var rest := Padded(args[1..]) + Ending(end);
    assert Padded(args) == [text] + Padded(args[1..]);
    assert Padded(args) + Ending(end) == [text] + rest;
    JoinFirst(text, rest);
    assert rest == [] <==> |args| == 1 && end.Plain?;
    assert Shuts("," + Body(args[1..], end));
  }

  /** What stands around the first argument, when `x` and `y` stand around all of them. */
  lemma AroundFirst(args: seq<Arg>, end: End, x: string, y: string)
    requires args != [] && AllProper(args) && Opens(x) && Shuts(y)
    ensures Opens(x + args[0].before) && Shuts(args[0].after + (Rest(args, end) + y))
    ensures x + Body(args, end) + y
         == (x + args[0].before) + Print(args[0].pred) + (args[0].after + (Rest(args, end) + y))
  {
    hide Opens, Shuts, Blank, Proper, Print, Body, Rest;
    var a := args[0];
    assert a in args;
    BodyBegins(args, end);
    BlankBetween(a.before);
    BlankBetween(a.after);
    OpensBoth(x, a.before);
    ShutsBoth(Rest(args, end), y);
    ShutsBoth(a.after, Rest(args, end) + y);
    AroundIs(x, a.before, Print(a.pred), a.after, Rest(args, end), y);
  }

  lemma AroundIs(x: string, before: string, text: string, after: string, rest: string, y: string)
    ensures x + (before + text + after + rest) + y == (x + before) + text + (after + (rest + y))
  {
    assert x + (before + text + after + rest) == x + before + text + after + rest;
  }

  /** What stands before the other arguments. */
  lemma AroundOthers(args: seq<Arg>, end: End, x: string, y: string)
    requires |args| > 1
    ensures Opens(x + (First(args) + ","))
    ensures x + Body(args, end) + y == (x + (First(args) + ",")) + Body(args[1..], end) + y
  {
    hide Print, Body, Rest, First;
    BodyBegins(args, end);
    assert First(args) + ("," + Body(args[1..], end)) == First(args) + "," + Body(args[1..], end);
  }

  /** Every part of a predicate stands in its text, with no word character beside it. */
  lemma {:induction false} Locate(q: Pred, p: Pred) returns (x: string, y: string)
    requires Within(q, p) && Proper(p)
    ensures Holding(Print(p), x, Print(q), y)
    decreases p, 0
  {
    hide Opens, Shuts, Blank, AllProper, ProperAtom, Padded, Join, Show, Opening;
    if q == p {
      x, y := "", "";
      BracketsBetween(Not, "");
      assert "" + Print(p) + "" == Print(p);
    } else {
      BracketsBetween(p.head, p.gap);
      x, y := LocateArgument(q, p.args, p.end, Opening(p.head, p.gap), ")");
    }
  }

  lemma {:induction false} LocateArgument(q: Pred, args: seq<Arg>, end: End, x: string, y: string)
    returns (left: string, right: string)
    requires AllProper(args) && Opens(x) && Shuts(y)
    requires exists a | a in args :: Within(q, a.pred)
    ensures Holding(x + Body(args, end) + y, left, Print(q), right)
    decreases args, 1
  {
    hide Opens, Shuts, Blank, Proper, Print, Join, Body, Rest, First;
    var a := args[0];
    assert a in args;
    if Within(q, a.pred) {
      var u, v := Locate(q, a.pred);
      AroundFirst(args, end, x, y);
      left, right := x + a.before + u, v + (a.after + (Rest(args, end) + y));
      OpensBoth(x + a.before, u);
      ShutsBoth(v, a.after + (Rest(args, end) + y));
      Regroup(x + a.before, u, Print(q), v, a.after + (Rest(args, end) + y));
    } else {
      AroundOthers(args, end, x, y);
      left, right := LocateArgument(q, args[1..], end, x + (First(args) + ","), y);
    }
  }

  // ----- negations -----

  /** `calls` sees a `not` of a predicate, where it stands in the text, exactly when no gap parts
      it from its bracket. */
  lemma NegationIsSeen(q: Pred, p: Pred) returns (x: string, y: string)
    requires Proper(p) && Within(q, p) && q.Call? && q.head == Not
    ensures Print(p) == x + Print(q) + y
    ensures CallAt(Print(p), |x|, "not") <==> q.gap == ""
    ensures q.gap == "" ==> Argument(Print(p), |x| + 4) == Body(q.args, q.end)
  {
    hide *;
    x, y := Locate(q, p);
    HoldingIs(Print(p), x, Print(q), y);
    WithinProper(q, p);
    ProperNot(q);
    if q.gap == "" {
      BodyIsEven(q.args, q.end);
      NotIsSeen(Print(p), x, Body(q.args, q.end), y);
    } else {
      GapIsMissed(Print(p), x, q.gap, "(" + Body(q.args, q.end) + ")" + y);
      GapApart(x, q.gap, Body(q.args, q.end), y);
    }
  }

  lemma HoldingIs(text: string, x: string, part: string, y: string)
    requires Holding(text, x, part, y)
    ensures text == x + part + y && LeftEdge(text, |x|)
  {
  }

  lemma NotIsSeen(text: string, x: string, body: string, y: string)
    requires text == x + ("not(" + body + ")") + y && LeftEdge(text, |x|) && Even(body, 0)
    ensures CallAt(text, |x|, "not") && Argument(text, |x| + 4) == body
  {
    hide Even, Argument, LeftEdge;
    assert text == x + "not(" + (body + ")" + y);
    AtHere(x, "not(", body + ")" + y);
    assert "not" + "(" == "not(";
    assert text == (x + "not(") + body + (")" + y);
    ArgumentIs(text, x + "not(", body, ")" + y);
  }

  lemma GapApart(x: string, gap: string, body: string, y: string)
    ensures x + ("not" + gap + "(" + body + ")") + y == x + "not" + gap + ("(" + body + ")" + y)
  {
  }

  lemma GapIsMissed(text: string, x: string, gap: string, rest: string)
    requires Blank(gap) && gap != "" && text == x + "not" + gap + rest
    ensures !CallAt(text, |x|, "not")
  {
    hide At, Blank;
    assert text[|x| + 3] == gap[0];
    NotABracket(gap);
    NotAt(text, |x|, "not(", 3);
    assert "not" + "(" == "not(";
  }

  lemma NotABracket(gap: string)
    requires Blank(gap) && gap != ""
    ensures gap[0] != '('
  {
    assert Space(gap[0]);
  }

  /** With `balanced` it finds the argument of every such `not`. */
  lemma EveryNegationIsFound(q: Pred, p: Pred)
    requires Proper(p) && Within(q, p) && q.Call? && q.head == Not && q.gap == ""
    ensures Body(q.args, q.end) in CallsOf(Print(p), "not")
  {
    hide *;
    var x, y := NegationIsSeen(q, p);
    EveryNotIsFound(Print(p), 0, |x|);
    CallsAre(Print(p));
  }

  lemma CallsAre(text: string)
    ensures CallsOf(text, "not") == CallsFrom(text, "not", 0)
  {
  }

  lemma ProperNot(q: Pred)
    requires Proper(q) && q.Call?
    ensures AllProper(q.args) && (q.end.Trailing? ==> Blank(q.end.blank))
    ensures q.head == Not ==> Print(q) == "not" + q.gap + "(" + Body(q.args, q.end) + ")" && |q.args| == 1
    ensures q.head == Not && q.gap == "" ==> Print(q) == "not(" + Body(q.args, q.end) + ")"
    ensures Blank(q.gap)
  {
    assert "not" + "" + "(" == "not(";
  }

  lemma ArgumentIs(text: string, x: string, body: string, y: string)
    requires text == x + body + y && Even(body, 0) && y != "" && y[0] == ')'
    ensures Argument(text, |x|) == body
  {
    hide Even;
    AtHere(x, body, y);
    BalancedPasses(text, |x|, body, 0, 1);
    assert text[|x| + |body|] == ')';
    assert Balanced(text, |x| + |body| + 1, 0) == |x| + |body| + 1;
    assert text[|x|..|x| + |body|] == body;
  }

  // ----- names -----

  lemma {:induction false} SpacesEnd(text: string, k: nat, blank: string)
    requires At(text, k, blank) && Blank(blank)
    requires k + |blank| < |text| ==> !Space(text[k + |blank|])
    ensures Spaces(text, k) == k + |blank|
    decreases |blank|
  {
    hide At, Space;
    if blank != "" {
      AtFirst(text, k, blank);
      AtRest(text, k, blank, 1);
      SpacesEnd(text, k + 1, blank[1..]);
    } else {
      assert k < |text| ==> !Space(text[k]);
    }
  }

  lemma {:induction false} LettersEnd(text: string, k: nat, word: string)
    requires At(text, k, word + "\"") && forall j | 0 <= j < |word| :: WordChar(word[j])
    ensures WordEnd(text, k) == k + |word|
    decreases |word|
  {
    hide At;
    AtFirst(text, k, word + "\"");
    if word != "" {
      AtRest(text, k, word + "\"", 1);
      assert (word + "\"")[1..] == word[1..] + "\"";
      LettersEnd(text, k + 1, word[1..]);
    }
  }

  lemma SignIsMatched(text: string, k: nat, key: string, left: string, rest: string)
    requires At(text, k, key + left + "=" + rest) && Blank(left)
    ensures At(text, k, key) && Spaces(text, k + |key|) == k + |key| + |left| < |text|
    ensures text[k + |key| + |left|] == '='
    ensures At(text, k + |key| + |left| + 1, rest)
  {
    hide At, Blank, Space, Spaces;
    assert key + left + "=" + rest == key + (left + ("=" + rest));
    AtBoth(text, k, key, left + ("=" + rest));
    AtBoth(text, k + |key|, left, "=" + rest);
    AtFirst(text, k + |key| + |left|, "=" + rest);
    NotSpaces();
    SpacesEnd(text, k + |key|, left);
    AtBoth(text, k + |key| + |left|, "=", rest);
  }

  lemma QuotedIsMatched(text: string, k: nat, right: string, value: string)
    requires At(text, k, right + ("\"" + (value + "\""))) && Blank(right) && Letters(value)
    ensures var q := k + |right|;
      && Spaces(text, k) == q && WordEnd(text, q + 1) == q + 1 + |value| && q + 1 + |value| < |text|
      && text[q] == '"' && text[q + 1 + |value|] == '"' && text[q + 1..q + 1 + |value|] == value && value != ""
  {
    hide At, Blank, Letters, Space, Spaces, WordEnd, WordChar;
    var q, ended := k + |right|, value + "\"";
    AtBoth(text, k, right, "\"" + ended);
    AtFirst(text, q, "\"" + ended);
    NotSpaces();
    SpacesEnd(text, k, right);
    AtBoth(text, q, "\"", ended);
    LettersAre(value);
    LettersEnd(text, q + 1, value);
    AtBoth(text, q + 1, value, "\"");
    AtFirst(text, q + 1 + |value|, "\"");
    AtIs(text, q + 1, value);
  }

  lemma ValueIs(text: string, k: nat, key: string, sign: nat, quote: nat, close: nat)
    requires At(text, k, key) && sign == Spaces(text, k + |key|) && sign < |text| && text[sign] == '='
    requires quote == Spaces(text, sign + 1) && quote < |text| && text[quote] == '"'
    requires close == WordEnd(text, quote + 1) && quote + 1 < close < |text| && text[close] == '"'
    ensures ValueAt(text, k, key) == Some(Match(text[quote + 1..close], close + 1)) && k < |text|
  {
    hide At, Spaces, WordEnd;
  }

  /** A printed value is matched. */
  lemma ValueIsMatched(text: string, k: nat, key: string, left: string, right: string, value: string)
    requires At(text, k, Show(Pair(key, left, right, value))) && Blank(left) && Blank(right) && Letters(value)
    ensures ValueAt(text, k, key).Some? && ValueAt(text, k, key).value.value == value && k < |text|
  {
    hide *;
    var rest := right + ("\"" + (value + "\""));
    var sign := k + |key| + |left|;
    ShowIs(key, left, right, value);
    SignIsMatched(text, k, key, left, rest);
    QuotedIsMatched(text, sign + 1, right, value);
    ValueIs(text, k, key, sign, sign + 1 + |right|, sign + 2 + |right| + |value|);
  }

  /** A value is matched exactly where it is written, with any spaces around the sign. */
  lemma ValueIsMatchedExactlyWhen(text: string, k: nat, key: string, value: string)
    ensures ValueAt(text, k, key).Some? && ValueAt(text, k, key).value.value == value <==>
      exists left, right ::
        Blank(left) && Blank(right) && Letters(value) && At(text, k, Show(Pair(key, left, right, value)))
  {
    hide ValueAt, Blank, Letters, At, Show;
    if ValueAt(text, k, key).Some? && ValueAt(text, k, key).value.value == value {
      var left, right := ValueShape(text, k, key);
    }
    if left, right :|
      Blank(left) && Blank(right) && Letters(value) && At(text, k, Show(Pair(key, left, right, value)))
    {
      ValueIsMatched(text, k, key, left, right, value);
    }
  }

  lemma ShowIs(key: string, left: string, right: string, value: string)
    ensures Show(Pair(key, left, right, value)) == key + left + "=" + (right + ("\"" + (value + "\"")))
  {
  }

  lemma NotSpaces()
    ensures !Space('=') && !Space('"')
  {
  }

  lemma LettersAre(value: string)
    requires Letters(value)
    ensures value != "" && forall j | 0 <= j < |value| :: WordChar(value[j])
  {
  }

  lemma AtIs(text: string, k: nat, part: string)
    requires At(text, k, part)
    ensures k + |part| <= |text| && text[k..k + |part|] == part
  {
  }

  // ----- what is found -----

  /** Some atom of `p`, printed between `x` and `y`, stands for `q` and is found: a value always,
      a bare name behind an even number of quotes or before none. */
  ghost predicate Found(p: Pred, x: string, y: string, q: string)
    decreases p, 0
  {
    match p
    case Leaf(atom) => q in Platforms(atom) && (atom.Bare? ==> Quotes(x) % 2 == 0 || '"' !in y)
    case Call(head, gap, args, end) => FoundAmong(args, end, x + Opening(head, gap), ")" + y, q)
  }

  ghost predicate FoundAmong(args: seq<Arg>, end: End, x: string, y: string, q: string)
    decreases args, 1
  {
    args != []
    && (Found(args[0].pred, x + args[0].before, args[0].after + (Rest(args, end) + y), q)
        || FoundAmong(args[1..], end, x + (First(args) + ","), y, q))
  }

  /** A bare name in its place is seen exactly when quotes do not hide it. */
  lemma BareIsSeenExactlyWhen(text: string, x: string, name: string, y: string)
    requires Holding(text, x, name, y) && Letters(name)
    ensures SeenAt(text, |x|, name) <==> Quotes(x) % 2 == 0 || '"' !in y
  {
    hide Quotes, WordChar, Letters;
    AtHere(x, name, y);
    assert text[..|x|] == x && text[|x| + |name|..] == y;
  }

  /** The platforms an atom stands for are found where it stands. */
  lemma AtomIsFound(text: string, x: string, atom: Atom, y: string, q: string)
    requires ProperAtom(atom) && Holding(text, x, Show(atom), y) && q in Platforms(atom)
    requires atom.Bare? ==> Quotes(x) % 2 == 0 || '"' !in y
    ensures q in PlatformsIn(text)
  {
    hide PlatformsIn, Quotes, Letters, Blank, ValueAt, Content, At, SeenAt, Opens, Shuts;
    AtHere(x, Show(atom), y);
    if atom.Bare? {
      StandingIsLetters(atom.name);
      BareIsSeenExactlyWhen(text, x, atom.name, y);
      NotEmpty(atom.name);
    } else {
      StandingIsLetters(atom.value);
      ValueIsMatched(text, |x|, atom.key, atom.left, atom.right, atom.value);
    }
    NamedIsIn(text, |x|, q);
  }

  lemma StandingIsLetters(value: string)
    ensures Standing(value) != {} ==> Letters(value) && (value == "windows" || value == "unix")
  {
  }

  lemma LeafIs(atom: Atom)
    ensures Proper(Leaf(atom)) ==> ProperAtom(atom)
    ensures Print(Leaf(atom)) == Show(atom)
  {
  }

  /** Whatever stands around the text of a predicate, what is found of it is found there. */
  lemma {:induction false} FoundIsFound(p: Pred, x: string, y: string, q: string)
    requires Proper(p) && Opens(x) && Shuts(y) && Found(p, x, y, q)
    ensures q in PlatformsIn(x + Print(p) + y)
    decreases p, 0
  {
    hide PlatformsIn, Print, Opens, Shuts, Blank, AllProper, ProperAtom, Platforms, Show, Opening, Body, FoundAmong;
    match p
    case Leaf(atom) =>
      LeafIs(atom);
      AtomIsFound(x + Print(p) + y, x, atom, y, q);
    case Call(head, gap, args, end) =>
      BracketsBetween(head, gap);
      OpensBoth(x, Opening(head, gap));
      ShutsBoth(")", y);
      FoundAmongIsFound(args, end, x + Opening(head, gap), ")" + y, q);
      CallShown(p);
      Regroup(x, Opening(head, gap), Body(args, end), ")", y);
  }

  lemma {:induction false} FoundAmongIsFound(args: seq<Arg>, end: End, x: string, y: string, q: string)
    requires AllProper(args) && Opens(x) && Shuts(y) && FoundAmong(args, end, x, y, q)
    ensures q in PlatformsIn(x + Body(args, end) + y)
    decreases args, 1
  {
    hide PlatformsIn, Print, Opens, Shuts, Blank, Proper, Found, Body, First, Rest;
    var a := args[0];
    assert a in args;
    if Found(a.pred, x + a.before, a.after + (Rest(args, end) + y), q) {
      AroundFirst(args, end, x, y);
      FoundIsFound(a.pred, x + a.before, a.after + (Rest(args, end) + y), q);
    } else {
      OthersFound(args, end, x, y, q);
      AroundOthers(args, end, x, y);
      FoundAmongIsFound(args[1..], end, x + (First(args) + ","), y, q);
    }
  }

  lemma OthersFound(args: seq<Arg>, end: End, x: string, y: string, q: string)
    requires args != [] && FoundAmong(args[1..], end, x + (First(args) + ","), y, q)
    ensures |args| > 1
  {
  }

  /** The text of a predicate names a platform that is found of it. */
  lemma NamedIsFound(p: Pred, q: string)
    requires Proper(p) && Found(p, "", "", q)
    ensures q in PlatformsIn(Print(p))
  {
    hide PlatformsIn, Print, Proper, Found;
    FoundIsFound(p, "", "", q);
    assert "" + Print(p) + "" == Print(p);
  }

  lemma NamedInsideIsFound(args: seq<Arg>, end: End, q: string)
    requires AllProper(args) && FoundAmong(args, end, "", "", q)
    ensures q in PlatformsIn(Body(args, end))
  {
    hide PlatformsIn, Body, AllProper, FoundAmong;
    FoundAmongIsFound(args, end, "", "", q);
    assert "" + Body(args, end) + "" == Body(args, end);
  }

  // ----- where no quote hides a name -----

  /** Every value holds an even number of quotes, none for instance. */
  predicate Evenly(p: Pred) {
    match p
    case Leaf(atom) => atom.Pair? ==> Quotes(atom.value) % 2 == 0
    case Call(_, _, args, _) => forall a | a in args :: Evenly(a.pred)
  }

  /** Then every named platform is found, whatever stands around. */
  lemma {:induction false} EvenlyIsFound(p: Pred, x: string, y: string, q: string)
    requires Proper(p) && Evenly(p) && Quotes(x) % 2 == 0 && Named(p, q)
    ensures Found(p, x, y, q)
    decreases p, 0
  {
    hide Quotes, Platforms, Blank, AllProper, ProperAtom, Opening;
    if p.Call? {
      OpeningIsQuoteless(p.head, p.gap);
      QuotesBoth(x, Opening(p.head, p.gap));
      EvenlyAmongIsFound(p.args, p.end, x + Opening(p.head, p.gap), ")" + y, q);
    }
  }

  lemma {:induction false} EvenlyAmongIsFound(args: seq<Arg>, end: End, x: string, y: string, q: string)
    requires AllProper(args) && (forall a | a in args :: Evenly(a.pred)) && Quotes(x) % 2 == 0
    requires exists a | a in args :: Named(a.pred, q)
    ensures FoundAmong(args, end, x, y, q)
    decreases args, 1
  {
    hide Quotes, Named, Blank, Proper, Evenly, Print, Found, First, Rest;
    var a := args[0];
    assert a in args;
    if Named(a.pred, q) {
      BlankIsQuoteless(a.before);
      QuotesBoth(x, a.before);
      EvenlyIsFound(a.pred, x + a.before, a.after + (Rest(args, end) + y), q);
    } else {
      FirstIsEven(args);
      QuotesBoth(x, First(args) + ",");
      EvenlyAmongIsFound(args[1..], end, x + (First(args) + ","), y, q);
    }
  }

  lemma OpeningIsQuoteless(head: Head, gap: string)
    ensures Blank(gap) ==> Quotes(Opening(head, gap)) == 0
  {
    if Blank(gap) {
      BlankIsQuiet(gap);
      Quoteless(Opening(head, gap));
    }
  }

  lemma BlankIsQuoteless(blank: string)
    requires Blank(blank)
    ensures Quotes(blank) == 0
  {
    BlankIsQuiet(blank);
    Quoteless(blank);
  }

  lemma FirstIsEven(args: seq<Arg>)
    requires args != [] && AllProper(args) && Evenly(args[0].pred)
    ensures Quotes(First(args) + ",") % 2 == 0
    decreases args, 0
  {
    hide Quotes, Blank, Proper, Evenly, Print;
    var a := args[0];
    assert a in args;
    BlankIsQuoteless(a.before);
    BlankIsQuoteless(a.after);
    EvenlyPrinted(a.pred);
    QuotesBoth(a.before, Print(a.pred));
    QuotesBoth(a.before + Print(a.pred), a.after);
    QuotesBoth(First(args), ",");
    Quoteless(",");
  }

  lemma {:induction false} EvenlyPrinted(p: Pred)
    requires Proper(p) && Evenly(p)
    ensures Quotes(Print(p)) % 2 == 0
    decreases p, 0
  {
    hide Quotes, Print, Blank, AllProper, Opening, Body, Letters, Content;
    match p
    case Leaf(atom) =>
      LeafIs(atom);
      EvenlyShown(atom);
    case Call(head, gap, args, end) =>
      CallShown(p);
      OpeningIsQuoteless(head, gap);
      EvenlyBody(args, end);
      Quoteless(")");
      QuotesBoth(Opening(head, gap), Body(args, end));
      QuotesBoth(Opening(head, gap) + Body(args, end), ")");
  }

  lemma EvenlyShown(atom: Atom)
    requires ProperAtom(atom) && (atom.Pair? ==> Quotes(atom.value) % 2 == 0)
    ensures Quotes(Show(atom)) % 2 == 0
  {
    hide Quotes, Letters, Content, Blank;
    if atom.Bare? {
      LettersAreQuiet(atom.name);
      Quoteless(atom.name);
    } else {
      BeforeIsQuiet(atom);
      Quoteless(Before(atom));
      OneQuote();
      assert Show(atom) == Before(atom) + ("\"" + atom.value + "\"");
      QuotesBoth(Before(atom), "\"" + atom.value + "\"");
      QuotesBoth("\"" + atom.value, "\"");
      QuotesBoth("\"", atom.value);
    }
  }

  lemma OneQuote()
    ensures Quotes("\"") == 1
  {
    assert "\""[1..] == "";
  }

  lemma {:induction false} EvenlyBody(args: seq<Arg>, end: End)
    requires AllProper(args) && (end.Trailing? ==> Blank(end.blank)) && forall a | a in args :: Evenly(a.pred)
    ensures Quotes(Body(args, end)) % 2 == 0
    decreases args, 1
  {
    hide Quotes, Print, Blank, Proper, Evenly, Body, First;
    if args == [] {
      EmptyBody(end);
      if end.Trailing? { BlankIsQuoteless(end.blank); } else { Quoteless(""); }
    } else {
      var a := args[0];
      assert a in args;
      BodyBegins(args, end);
      FirstIsEven(args);
      QuotesBoth(First(args), ",");
      Quoteless(",");
      Quoteless("");
      EvenlyBody(args[1..], end);
      QuotesBoth(",", Body(args[1..], end));
      QuotesBoth(First(args), Rest(args, end));
    }
  }

  lemma EmptyBody(end: End)
    ensures Body([], end) == if end.Trailing? then end.blank else ""
  {
    assert Padded([]) + Ending(end) == Ending(end);
  }

  // ----- the lint -----

  /** Where a `not` negates a platform, a platform is found in its argument. */
  ghost predicate Visible(p: Pred) {
    match p
    case Leaf(_) => true
    case Call(head, _, args, end) =>
      && (forall a | a in args :: Visible(a.pred))
      && (head == Not && (exists a, q | a in args :: Named(a.pred, q)) ==> exists r :: FoundAmong(args, end, "", "", r))
  }

  lemma {:induction false} EvenlyIsVisible(p: Pred)
    requires Proper(p) && Evenly(p)
    ensures Visible(p)
  {
    hide Quotes, FoundAmong, Named, Blank;
    match p
    case Leaf(_) =>
    case Call(head, _, args, end) =>
      forall a | a in args ensures Visible(a.pred) {
        EvenlyIsVisible(a.pred);
      }
      if a, q :| a in args && Named(a.pred, q) {
        Quoteless("");
        EvenlyAmongIsFound(args, end, "", "", q);
      }
  }

  /** The argument of a `not` is reported exactly when its text names a platform somewhere. */
  lemma NegationIsReportedExactlyWhen(q: Pred, p: Pred)
    requires Proper(p) && Within(q, p) && q.Call? && q.head == Not && q.gap == ""
    ensures var body := Body(q.args, q.end);
      body in Negated(Print(p)) <==> exists k, r | 0 <= k < |body| :: NamedAt(body, k, r)
  {
    hide PlatformsIn, Print, Proper, Within, Body, CallsOf, NamedAt;
    var body := Body(q.args, q.end);
    EveryNegationIsFound(q, p);
    NamingHolds(CallsOf(Print(p), "not"), body);
    if r :| r in PlatformsIn(body) {
      PlatformIsFoundExactlyWhen(body, r);
      var k :| 0 <= k < |body| && NamedAt(body, k, r);
    }
    if k, r :| 0 <= k < |body| && NamedAt(body, k, r) {
      PlatformIsFoundExactlyWhen(body, r);
    }
  }

  lemma {:induction false} NamingHolds(args: seq<string>, arg: string)
    ensures arg in Naming(args) <==> arg in args && PlatformsIn(arg) != {}
  {
    hide PlatformsIn;
    if args != [] { NamingHolds(args[1..], arg); }
  }

  lemma {:induction false} LintReachesNegations(q: Pred, p: Pred)
    requires Proper(p) && Within(q, p) && Unspaced(q) && Visible(q)
    requires forall arg | arg in CallsOf(Print(p), "not") :: PlatformsIn(arg) == {}
    ensures NothingNegated(q)
    decreases q
  {
    hide Print, PlatformsIn, CallsOf, Named, Body, Proper, FoundAmong;
    if q.Call? {
      forall a | a in q.args ensures NothingNegated(a.pred) {
        assert Within(a.pred, q) by { assert Within(a.pred, a.pred); }
        WithinWithin(a.pred, q, p);
        LintReachesNegations(a.pred, p);
      }
      if q.head == Not {
        assert q.gap == "";
        EveryNegationIsFound(q, p);
        WithinProper(q, p);
        ProperNot(q);
        if a, name :| a in q.args && Named(a.pred, name) {
          var r :| FoundAmong(q.args, q.end, "", "", r);
          NamedInsideIsFound(q.args, q.end, r);
        }
      }
    }
  }

  /** What the lint is for: a predicate with no negated platform that holds on a platform its
      text does not name holds on every platform, the other atoms being the same.  What it takes
      is that quotes hide neither that platform nor all that some `not` negates. */
  lemma UnnegatedHoldsEverywhere(p: Pred, here: string, there: string, others: Atom -> bool)
    requires Proper(p) && Unspaced(p) && Visible(p) && (Named(p, here) ==> Found(p, "", "", here))
    requires Negated(Print(p)) == [] && here !in PlatformsIn(Print(p))
    requires On(p, here, others)
    ensures On(p, there, others)
  {
    hide Print, PlatformsIn, CallsOf, Naming, On, NothingNegated, Proper, Visible, Found, Named;
    NamingIsEmpty(CallsOf(Print(p), "not"));
    assert Within(p, p);
    LintReachesNegations(p, p);
    if Named(p, here) { NamedIsFound(p, here); }
    HoldsElsewhere(p, here, there, others);
  }

  /** No quote can hide anything when every value holds an even number of them. */
  lemma EvenlyHoldsEverywhere(p: Pred, here: string, there: string, others: Atom -> bool)
    requires Proper(p) && Unspaced(p) && Evenly(p)
    requires Negated(Print(p)) == [] && here !in PlatformsIn(Print(p))
    requires On(p, here, others)
    ensures On(p, there, others)
  {
    hide Print, PlatformsIn, Negated, On, Proper, Visible, Found, Named, Evenly, Unspaced;
    EvenlyIsVisible(p);
    Quoteless("");
    if Named(p, here) { EvenlyIsFound(p, "", "", here); }
    UnnegatedHoldsEverywhere(p, here, there, others);
  }

  // ----- where the lint is blind -----

  /** `not(any(a="v",unix,b="w"))`. */
  function Escaping(v: string, w: string): Pred {
    Call(Not, "", [Arg("", EscapingAny(v, w), "")], Plain)
  }

  function EscapingAny(v: string, w: string): Pred {
    Call(Any, "", [
      Arg("", Leaf(Pair("a", "", "", v)), ""),
      Arg("", Leaf(Bare("unix")), ""),
      Arg("", Leaf(Pair("b", "", "", w)), "")], Plain)
  }

  /** Its argument, in the parts before and after the name. */
  function Ahead(v: string): string {
    "any(a=\"" + v + "\","
  }

  function Behind(w: string): string {
    ",b=\"" + w + "\")"
  }

  function Inner(v: string, w: string): string {
    Ahead(v) + "unix" + Behind(w)
  }

  lemma PaddedBare(p: Pred, rest: seq<Arg>)
    ensures Padded([Arg("", p, "")] + rest) == [Print(p)] + Padded(rest)
  {
    hide Print;
    assert ([Arg("", p, "")] + rest)[1..] == rest;
    assert "" + Print(p) + "" == Print(p);
  }

  lemma BodyIsJoined(args: seq<Arg>)
    ensures Body(args, Plain) == Join(Padded(args))
  {
    assert Padded(args) + [] == Padded(args);
  }

  lemma AnyShown(v: string, w: string)
    ensures Print(EscapingAny(v, w)) == Inner(v, w)
  {
    hide Padded, Join, Body, Print;
    var a, b, c := Leaf(Pair("a", "", "", v)), Leaf(Bare("unix")), Leaf(Pair("b", "", "", w));
    var args := EscapingAny(v, w).args;
    assert args == [Arg("", a, "")] + ([Arg("", b, "")] + ([Arg("", c, "")] + []));
    PaddedBare(a, [Arg("", b, "")] + ([Arg("", c, "")] + []));
    PaddedBare(b, [Arg("", c, "")] + []);
    PaddedBare(c, []);
    PaddedNothing();
    JoinFirst(Print(c), []);
    JoinFirst(Print(b), [Print(c)] + []);
    JoinFirst(Print(a), [Print(b)] + ([Print(c)] + []));
    BodyIsJoined(args);
    CallShown(EscapingAny(v, w));
    OpeningIsPlain(Any);
    LeafIs(a.atom);
    LeafIs(b.atom);
    LeafIs(c.atom);
    PartsShown(v, w);
  }

  lemma PartsShown(v: string, w: string)
    ensures var a, b := Show(Pair("a", "", "", v)), Show(Pair("b", "", "", w));
      "any(" + (a + ("," + ("unix" + ("," + (b + ""))))) + ")" == Inner(v, w)
  {
    var a, b := Show(Pair("a", "", "", v)), Show(Pair("b", "", "", w));
    PiecesShown(a, b);
    assert a == "a=\"" + v + "\"" && b == "b=\"" + w + "\"";
    assert "any(" + a + "," == Ahead(v);
    assert "," + b + ")" == Behind(w);
  }

  lemma PiecesShown(a: string, b: string)
    ensures "any(" + (a + ("," + ("unix" + ("," + (b + ""))))) + ")" == ("any(" + a + ",") + "unix" + ("," + b + ")")
  {
  }

  lemma PaddedNothing()
    ensures Padded([]) == []
  {
  }

  lemma EscapingShown(v: string, w: string)
    ensures Print(Escaping(v, w)) == "not(" + Inner(v, w) + ")" && Body(Escaping(v, w).args, Plain) == Inner(v, w)
  {
    hide Padded, Join, Body, Print, Inner;
    var any := EscapingAny(v, w);
    AnyShown(v, w);
    assert Escaping(v, w).args == [Arg("", any, "")] + [];
    PaddedBare(any, []);
    PaddedNothing();
    JoinFirst(Print(any), []);
    BodyIsJoined(Escaping(v, w).args);
    assert Inner(v, w) + "" == Inner(v, w);
    CallShown(Escaping(v, w));
    OpeningIsPlain(Not);
  }

  lemma CallShown(p: Pred)
    requires p.Call?
    ensures Print(p) == Opening(p.head, p.gap) + Body(p.args, p.end) + ")"
  {
  }

  /** A value with no letters, digits or underscores in it. */
  predicate Wordless(value: string) {
    Content(value) && forall c | c in value :: !WordChar(c)
  }

  lemma EscapingIsProper(v: string, w: string)
    requires Content(v) && Content(w)
    ensures Proper(Escaping(v, w))
  {
    hide Content, Blank;
    BlankNothing();
    var any := EscapingAny(v, w);
    LettersHere();
    assert Proper(any.args[0].pred) && Proper(any.args[1].pred) && Proper(any.args[2].pred);
    assert Proper(any);
  }

  lemma LettersHere()
    ensures Letters("a") && Letters("b") && Letters("unix")
  {
  }

  lemma BlankNothing()
    ensures Blank("")
  {
  }

  lemma NotAt(text: string, k: nat, part: string, j: nat)
    requires j < |part| && (k + j < |text| ==> text[k + j] != part[j])
    ensures !At(text, k, part)
  {
    if k + |part| <= |text| { assert text[k..k + |part|][j] == text[k + j]; }
  }

  lemma NoUnderscoreAt(text: string, k: nat)
    requires '_' !in text
    ensures ValueAt(text, k, OS) == None && ValueAt(text, k, FAMILY) == None
  {
    hide At;
    NotAt(text, k, OS, 6);
    NotAt(text, k, FAMILY, 6);
  }

  /** In the argument only the bare `unix` can name a platform. */
  lemma InnerLetters(v: string, w: string)
    requires Wordless(v) && Wordless(w)
    ensures '_' !in Inner(v, w) && 'w' !in Inner(v, w) && 'o' !in Inner(v, w)
    ensures forall k | 0 <= k < |Inner(v, w)| && Inner(v, w)[k] == 'u' :: k == |Ahead(v)|
  {
    hide Content;
    assert WordChar('_') && WordChar('w') && WordChar('o') && WordChar('u');
    var text, size := Inner(v, w), |Ahead(v)|;
    forall k | 0 <= k < |text| ensures text[k] !in "_wo" && (text[k] == 'u' ==> k == size) {
      if 7 <= k < 7 + |v| { assert text[k] == v[k - 7]; }
      if size + 8 <= k < size + 8 + |w| { assert text[k] == w[k - size - 8]; }
    }
  }

  lemma QuotesAhead(v: string, w: string)
    ensures Quotes(Ahead(v)) == Quotes(v) + 2 && '"' in Behind(w)
  {
    hide Quotes;
    QuotesBoth("any(a=\"" + v, "\",");
    QuotesBoth("any(a=\"", v);
    QuotesBoth("any(a=", "\"");
    QuotesBoth("\"", ",");
    Quoteless("any(a=");
    Quoteless(",");
    OneQuote();
    assert "any(a=" + "\"" == "any(a=\"" && "\"" + "," == "\",";
    assert Behind(w)[3] == '"';
  }

  /** `unix` is found in the argument exactly when the value before it has an even number of
      quotes, for then the pattern does not take what stands between the values for a string. */
  lemma InnerNames(v: string, w: string)
    requires Wordless(v) && Wordless(w)
    ensures PlatformsIn(Inner(v, w)) == {} <==> Quotes(v) % 2 == 1
  {
    hide PlatformsIn, Quotes, SeenAt, ValueAt, Wordless;
    var text, size := Inner(v, w), |Ahead(v)|;
    InnerLetters(v, w);
    QuotesAhead(v, w);
    EdgesOfUnix(v, w);
    BareIsSeenExactlyWhen(text, Ahead(v), "unix", Behind(w));
    if Quotes(v) % 2 == 0 {
      assert "linux" in Standing("unix");
      NamedIsIn(text, size, "linux");
    } else {
      forall q ensures q !in PlatformsIn(text) {
        PlatformIsFoundExactlyWhen(text, q);
        forall k | 0 <= k < |text| ensures !NamedAt(text, k, q) {
          NothingElse(text, k, size);
        }
      }
    }
  }

  lemma EdgesOfUnix(v: string, w: string)
    ensures Holding(Inner(v, w), Ahead(v), "unix", Behind(w)) && Letters("unix")
  {
  }

  lemma NothingElse(text: string, k: nat, size: nat)
    requires k < |text| && '_' !in text && 'w' !in text
    requires forall j | 0 <= j < |text| && text[j] == 'u' :: j == size
    ensures ValueAt(text, k, OS) == None && ValueAt(text, k, FAMILY) == None
    ensures !SeenAt(text, k, "windows") && (SeenAt(text, k, "unix") ==> k == size)
  {
    NoUnderscoreAt(text, k);
    hide At, ValueAt;
    NotAt(text, k, "windows", 0);
    if SeenAt(text, k, "unix") { AtChar(text, k, "unix", 0); }
  }

  lemma OneNot(v: string, w: string, k: nat)
    requires Wordless(v) && Wordless(w) && CallAt("not(" + Inner(v, w) + ")", k, "not")
    ensures k == 0
  {
    hide At, LeftEdge, Inner, Wordless;
    var text := "not(" + Inner(v, w) + ")";
    InnerLetters(v, w);
    assert "not" + "(" == "not(";
    assert forall j | 4 <= j < |text| - 1 :: text[j] == Inner(v, w)[j - 4];
    AtChar(text, k, "not(", 1);
  }

  lemma TheArgument(v: string, w: string)
    requires Content(v) && Content(w)
    ensures Argument("not(" + Inner(v, w) + ")", 4) == Inner(v, w)
  {
    hide Even, Print, Blank, Padded, Join, Argument, Body, Inner, Content;
    var p := Escaping(v, w);
    EscapingShown(v, w);
    EscapingIsProper(v, w);
    ProperNot(p);
    BodyIsEven(p.args, Plain);
    assert "not(" + Inner(v, w) + ")" == "not(" + Inner(v, w) + (")" + "");
    ArgumentIs("not(" + Inner(v, w) + ")", "not(", Inner(v, w), ")");
  }

  /** Escaped quotes in a value hide what is negated, exactly when they are odd in number: then
      the lint passes a predicate that holds on Windows, which its text does not name, and not on
      Linux. */
  lemma EscapedQuotesHideNegation(v: string, w: string, others: Atom -> bool)
    requires Wordless(v) && Wordless(w) && forall atom :: !others(atom)
    ensures var p := Escaping(v, w);
      && Proper(p) && Unspaced(p) && "windows" !in PlatformsIn(Print(p))
      && On(p, "windows", others) && !On(p, "linux", others)
      && (Negated(Print(p)) == [] <==> Quotes(v) % 2 == 1)
  {
    hide Print, PlatformsIn, CallsFrom, Naming, Proper, Body, Argument, CallAt, Inner, Wordless, Quotes, On;
    var p := Escaping(v, w);
    WordlessIs(v);
    WordlessIs(w);
    EscapingShown(v, w);
    EscapingIsProper(v, w);
    EscapingMeans(v, w, others);
    assert Unspaced(EscapingAny(v, w));
    TheArgument(v, w);
    InnerNames(v, w);
    NoWindowsThere(v, w);
    NamingIsEmpty(CallsOf(Print(p), "not"));
    assert Within(p, p);
    EveryNegationIsFound(p, p);
    forall arg | arg in CallsOf(Print(p), "not") ensures arg == Inner(v, w) {
      var k := EveryCallIsAMatch(Print(p), 0, arg);
      OneNot(v, w, k);
    }
  }

  lemma WordlessIs(value: string)
    ensures Wordless(value) ==> Content(value)
  {
  }

  lemma NoWindowsThere(v: string, w: string)
    requires Wordless(v) && Wordless(w)
    ensures "windows" !in PlatformsIn("not(" + Inner(v, w) + ")")
  {
    hide PlatformsIn, Inner, Wordless;
    InnerLetters(v, w);
    WindowsIsAbsent("not(" + Inner(v, w) + ")");
  }

  lemma WindowsIsAbsent(text: string)
    requires '_' !in text && 'w' !in text
    ensures "windows" !in PlatformsIn(text)
  {
    hide PlatformsIn, ValueAt, SeenAt;
    PlatformIsFoundExactlyWhen(text, "windows");
    forall k | 0 <= k < |text| ensures !NamedAt(text, k, "windows") {
      NoUnderscoreAt(text, k);
      NoWordWindows(text, k);
    }
  }

  lemma NoWordWindows(text: string, k: nat)
    requires 'w' !in text
    ensures !SeenAt(text, k, "windows")
  {
    hide At;
    NotAt(text, k, "windows", 0);
  }

  lemma EscapingMeans(v: string, w: string, others: Atom -> bool)
    requires forall atom :: !others(atom)
    ensures On(Escaping(v, w), "windows", others) && !On(Escaping(v, w), "linux", others)
  {
    var any := EscapingAny(v, w);
    assert !On(any, "windows", others);
    assert any.args[1] in any.args && On(any.args[1].pred, "linux", others);
    assert On(any, "linux", others);
    var outer := Escaping(v, w);
    assert outer.args[0] in outer.args;
  }

  /** `not (unix)`, with any gap. */
  function Spaced(gap: string): Pred {
    Call(Not, gap, [Arg("", Leaf(Bare("unix")), "")], Plain)
  }

  lemma SpacedShown(gap: string)
    requires Blank(gap)
    ensures Print(Spaced(gap)) == "not" + gap + "(unix)" && Proper(Spaced(gap)) && Evenly(Spaced(gap))
  {
    var leaf := Leaf(Bare("unix"));
    hide Padded, Join, Body;
    assert Spaced(gap).args == [Arg("", leaf, "")] + [];
    PaddedBare(leaf, []);
    PaddedNothing();
    JoinFirst("unix", []);
    BodyIsJoined(Spaced(gap).args);
    CallShown(Spaced(gap));
    assert "unix" + "" == "unix";
    assert "not" + gap + "(" + "unix" + ")" == "not" + gap + "(unix)";
  }

  lemma NoNotAt(gap: string, k: nat)
    requires Blank(gap) && gap != ""
    ensures !At("not" + gap + "(unix)", k, "not(")
  {
    var text, n := "not" + gap + "(unix)", |gap|;
    hide At, Space;
    NotABracket(gap);
    assert text[3] == gap[0];
    if k == 0 {
      NotAt(text, k, "not(", 3);
    } else if 3 <= k < 3 + n {
      assert text[k] == gap[k - 3];
      SpaceIsNoN(gap[k - 3]);
      NotAt(text, k, "not(", 0);
    } else {
      NotAt(text, k, "not(", if k == 5 + n then 1 else 0);
    }
  }

  lemma SpaceIsNoN(c: char)
    requires Space(c)
    ensures c != 'n'
  {
  }

  lemma NoWindows(gap: string)
    requires Blank(gap)
    ensures "windows" !in PlatformsIn("not" + gap + "(unix)")
  {
    hide PlatformsIn;
    GapIsClear(gap);
    WindowsIsAbsent("not" + gap + "(unix)");
  }

  lemma GapIsClear(gap: string)
    requires Blank(gap)
    ensures 'w' !in gap && '_' !in gap
  {
  }

  /** With a gap before its bracket a `not` is not seen: the lint passes a predicate that holds on
      Windows, which its text does not name, and not on Linux. */
  lemma SpacedNotIsMissed(gap: string, others: Atom -> bool)
    requires Blank(gap) && gap != ""
    ensures var p := Spaced(gap);
      && Proper(p) && Evenly(p) && Negated(Print(p)) == [] && "windows" !in PlatformsIn(Print(p))
      && On(p, "windows", others) && !On(p, "linux", others)
  {
    hide Print, PlatformsIn, CallsFrom, Naming, Proper, Evenly, Argument, At, LeftEdge;
    var p := Spaced(gap);
    SpacedShown(gap);
    NoWindows(gap);
    assert "not" + "(" == "not(";
    forall k: nat ensures !At(Print(p), k, "not(") {
      NoNotAt(gap, k);
    }
    if CallsOf(Print(p), "not") != [] {
      var arg := CallsOf(Print(p), "not")[0];
      var _ := EveryCallIsAMatch(Print(p), 0, arg);
    }
    NamingIsEmpty([]);
    assert p.args[0] in p.args && On(p.args[0].pred, "linux", others) && !On(p.args[0].pred, "windows", others);
  }
}
