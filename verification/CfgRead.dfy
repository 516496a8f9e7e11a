/** Why `cfg_admits` never says the wrong thing (`scripts/check_mutation_anchors.py`).

    The reader cuts strings like everything else, so it may lose its way in a predicate whose
    strings hold commas or brackets.  It then says nothing or raises: a Boolean comes only from a
    text that is the print of a tree of known atoms, and it is that tree's value. */
module CfgRead {
  import opened Cfg
  import opened PlatformArms
  import ArmText

  /** A predicate as Rust writes it: names, literals, blanks. */
  ghost predicate Written(p: Pred) {
    match p
    case Leaf(atom) => ArmText.ProperAtom(atom)
    case Call(_, gap, args, end) => Blank(gap) && (end.Trailing? ==> Blank(end.blank)) && AllWritten(args)
  }

  ghost predicate AllWritten(args: seq<Arg>) {
    forall a | a in args :: Blank(a.before) && Blank(a.after) && Written(a.pred)
  }

  /** Every value is a name, of the characters that the reader's pattern knows. */
  predicate Clean(p: Pred) {
    match p
    case Leaf(atom) => atom.Pair? ==> forall c | c in atom.value :: NameChar(c)
    case Call(_, _, args, _) => forall a | a in args :: Clean(a.pred)
  }

  /** What the reader can answer for. */
  ghost predicate Sure(p: Pred) {
    Written(p) && Clean(p) && Known(p) && Filled(p)
  }

  /** `text` is the print of such a tree, with spaces around it. */
  ghost predicate Spells(text: string, before: string, p: Pred, after: string) {
    Blank(before) && Blank(after) && text == before + Print(p) + after && Sure(p)
  }

  // ----- what stripping and cutting take apart -----

  lemma {:induction false} StripRightSplits(text: string) returns (after: string)
    ensures Blank(after) && text == StripRight(text) + after
  {
    hide Space;
    if text != "" && Space(text[|text| - 1]) {
      var n := |text| - 1;
      var rest := StripRightSplits(text[..n]);
      after := rest + [text[n]];
      assert text == text[..n] + [text[n]];
    } else {
      after := "";
    }
  }

  lemma StripSplits(text: string) returns (before: string, after: string)
    ensures Blank(before) && Blank(after) && text == before + Strip(text) + after
  {
    hide Blank, StripLeft, StripRight;
    before := StripLeftSplits(text);
    after := StripRightSplits(StripLeft(text));
    assert before + (Strip(text) + after) == before + Strip(text) + after;
  }

  lemma {:induction false} JoinUndoesCut(text: string, depth: int)
    ensures Join(Cut(text, depth)) == text
  {
    hide Cut, Join;
    CutStep(text, depth);
    if text == "" {
      JoinOne("");
    } else {
      var at := Step(depth, text[0]);
      var rest := Cut(text[1..], at);
      JoinUndoesCut(text[1..], at);
      if text[0] == ',' && at == 0 {
        JoinMore("", rest);
        assert text == "" + "," + text[1..];
      } else {
        JoinGlue([text[0]], rest);
      }
    }
  }

  lemma CutStep(text: string, depth: int)
    ensures text == "" ==> Cut(text, depth) == [""]
    ensures text != "" ==>
      var at := Step(depth, text[0]);
      var rest := Cut(text[1..], at);
      Cut(text, depth) == if text[0] == ',' && at == 0 then [""] + rest else Glue([text[0]], rest)
  {
  }

  lemma JoinOne(piece: string)
    ensures Join([piece]) == piece
  {
  }

  lemma JoinMore(piece: string, rest: seq<string>)
    requires rest != []
    ensures Join([piece] + rest) == piece + "," + Join(rest)
  {
    assert ([piece] + rest)[1..] == rest;
  }

  lemma JoinGlue(current: string, pieces: seq<string>)
    requires pieces != []
    ensures Join(Glue(current, pieces)) == current + Join(pieces)
  {
    hide Join;
    var first, rest := pieces[0], pieces[1..];
    assert pieces == [first] + rest;
    if rest == [] {
      assert [current + first] + [] == [current + first] && [first] + [] == [first];
      JoinOne(current + first);
      JoinOne(first);
    } else {
      JoinMore(current + first, rest);
      JoinMore(first, rest);
      assert current + first + "," + Join(rest) == current + (first + "," + Join(rest));
    }
  }

  // ----- atoms -----

  lemma NameIsQuiet(name: string)
    requires Name(name)
    ensures forall k | 0 <= k < |name| :: name[k] !in "(),"
  {
  }

  lemma BlankIsPlain(blank: string)
    requires Blank(blank)
    ensures forall k | 0 <= k < |blank| :: blank[k] !in "(),\""
  {
  }

  /** Known atoms are texts that the reader can cut around. */
  lemma VocabularyIsFormed(text: string)
    requires InVocabulary(text)
    ensures FormedAtom(text)
  {
    hide Nested, Name, Blank, Space;
    if text == "test" || text == "unix" || text == "windows" {
      WordIsFormed(text);
    } else {
      var left, right, name :| Blank(left) && Blank(right) && Name(name) && text == Show(Pair(OS, left, right, name));
      TargetIsFormed(left, right, name);
    }
  }

  lemma WordIsFormed(text: string)
    requires text == "test" || text == "unix" || text == "windows"
    ensures FormedAtom(text)
  {
    hide Nested;
    QuietIsNested(text);
  }

  lemma TargetIsFormed(left: string, right: string, name: string)
    requires Blank(left) && Blank(right) && Name(name)
    ensures FormedAtom(Show(Pair(OS, left, right, name)))
  {
    hide Nested, Name, Blank;
    var text := Show(Pair(OS, left, right, name));
    BlankIsPlain(left);
    BlankIsPlain(right);
    NameIsQuiet(name);
    assert forall k | 0 <= k < |OS| :: OS[k] !in "(),";
    QuietIsNested(text);
    assert text[0] == 't' && text[|text| - 1] == '"';
  }

  // ----- a tree for every answer -----

  /** Whenever the reader gives a Boolean, the text is the print of a tree it knows. */
  lemma {:induction false} AnswerHasTree(text: string, platform: string)
    returns (before: string, p: Pred, after: string)
    requires Admits(text, platform).Says?
    ensures Spells(text, before, p, after)
    decreases |text|, 2, 0
  {
    hide *;
    before, after := StripSplits(text);
    var bare := Strip(text);
    AdmitsBare(text, platform);
    if head :| Calls(bare, head) {
      p := CallHasTree(bare, head, platform);
    } else {
      p := AtomHasTree(bare, platform);
    }
    Spelled(text, before, p, after);
  }

  lemma Spelled(text: string, before: string, p: Pred, after: string)
    requires Blank(before) && Blank(after) && text == before + Print(p) + after && Sure(p)
    ensures Spells(text, before, p, after)
  {
  }

  /** How the reader goes on behind the stripping. */
  lemma AdmitsBare(text: string, platform: string)
    ensures var bare := Strip(text);
      && |bare| <= |text|
      && (forall head :: Calls(bare, head) ==>
        Admits(text, platform) == Combine(head, Answers(Split(Inner(bare)), platform, |bare|)))
      && ((forall head :: !Calls(bare, head)) ==> Admits(text, platform) == AtomAnswer(bare, platform))
  {
    hide Strip, Split, Inner, Answers, Combine, AtomAnswer;
    var bare := Strip(text);
    forall head | Calls(bare, head) ensures forall other :: Calls(bare, other) ==> other == head {
      OneHead(bare, head);
    }
  }

  lemma OneHead(text: string, head: Head)
    requires Calls(text, head)
    ensures forall other :: Calls(text, other) ==> other == head
  {
    forall other | Calls(text, other) ensures other == head {
      assert text[0] == Word(head)[0] == Word(other)[0];
      assert text[1] == Word(head)[1] == Word(other)[1];
    }
  }

  lemma AtomHasTree(bare: string, platform: string) returns (p: Pred)
    requires AtomAnswer(bare, platform).Says?
    ensures Print(p) == bare && Sure(p)
  {
    hide TargetOs, Blank, Name, NameChar, ArmText.Content;
    AtomIsRead(bare, platform);
    KnownLetters();
    if TargetOs(bare).Some? {
      var left, right := TargetOsFinds(bare);
      p := Leaf(Pair(OS, left, right, TargetOs(bare).value));
      NameIsContent(TargetOs(bare).value);
    } else {
      p := Leaf(Bare(bare));
    }
  }

  lemma KnownLetters()
    ensures Letters("test") && Letters("unix") && Letters("windows") && Letters(OS)
  {
  }

  lemma NameIsContent(name: string)
    requires Name(name)
    ensures ArmText.Content(name) && forall c | c in name :: NameChar(c)
  {
    PlainIsContent(name);
  }

  lemma {:induction false} PlainIsContent(value: string)
    requires forall k | 0 <= k < |value| :: value[k] !in "\\\""
    ensures ArmText.Content(value)
  {
    if value != "" { PlainIsContent(value[1..]); }
  }

  lemma {:induction false} CallHasTree(bare: string, head: Head, platform: string) returns (p: Pred)
    requires Calls(bare, head)
    requires Combine(head, Answers(Split(Inner(bare)), platform, |bare|)).Says?
    ensures Print(p) == bare && Sure(p)
    decreases |bare|, 1, 0
  {
    hide *;
    var inner := Inner(bare);
    CallIs(bare, head);
    var cut := Cut(inner, 0);
    JoinUndoesCut(inner, 0);
    SplitIs(inner);
    var last := |cut| - 1;
    var end := if Blank(cut[last]) then Trailing(cut[last]) else Plain;
    var pieces := if Blank(cut[last]) then cut[..last] else cut;
    AnswersAre(Split(inner), platform, |bare|);
    AllSay(head, Answers(Split(inner), platform, |bare|));
    EndingIs(cut, end);
    PiecesSay(pieces, platform, |bare|);
    var args := ArgumentsHaveTrees(pieces, platform, |bare|);
    p := Call(head, "", args, end);
    CallIsKnown(head, args, end);
    PrintedCall(head, args, end);
  }

  lemma CallIs(bare: string, head: Head)
    requires Calls(bare, head)
    ensures |Inner(bare)| < |bare| && bare == Word(head) + "(" + Inner(bare) + ")"
  {
    assert bare[..4] == Word(head) + "(";
    assert bare == bare[..4] + bare[4..|bare| - 1] + bare[|bare| - 1..];
  }

  lemma SplitIs(text: string)
    ensures var cut := Cut(text, 0);
      && cut != [] && (forall k | 0 <= k < |cut| :: |cut[k]| <= |text|)
      && Split(text) == StripAll(if Blank(cut[|cut| - 1]) then cut[..|cut| - 1] else cut)
  {
    hide Cut, StripAll, Blank;
  }

  lemma EndingIs(cut: seq<string>, end: End)
    requires cut != [] && end == if Blank(cut[|cut| - 1]) then Trailing(cut[|cut| - 1]) else Plain
    ensures (if Blank(cut[|cut| - 1]) then cut[..|cut| - 1] else cut) + Ending(end) == cut
    ensures end.Trailing? ==> Blank(end.blank)
  {
  }

  lemma AllSay(head: Head, answers: seq<Answer>)
    requires Combine(head, answers).Says?
    ensures forall k | 0 <= k < |answers| :: answers[k].Says?
    ensures head == Not ==> answers != []
  {
    forall k | 0 <= k < |answers| ensures answers[k].Says? {
      assert answers[k] in answers;
    }
  }

  lemma {:induction false} AnswersAre(pieces: seq<string>, platform: string, size: nat)
    requires forall k | 0 <= k < |pieces| :: |pieces[k]| < size
    ensures |Answers(pieces, platform, size)| == |pieces|
    ensures forall k | 0 <= k < |pieces| :: Answers(pieces, platform, size)[k] == Admits(pieces[k], platform)
  {
    hide Admits;
    if pieces != [] {
      var tail := pieces[1..];
      AnswersAre(tail, platform, size);
      forall k | 0 < k < |pieces| ensures Answers(pieces, platform, size)[k] == Admits(pieces[k], platform) {
        assert Answers(pieces, platform, size)[k] == Answers(tail, platform, size)[k - 1] && tail[k - 1] == pieces[k];
      }
    }
  }

  lemma PiecesSay(pieces: seq<string>, platform: string, size: nat)
    requires forall k | 0 <= k < |pieces| :: |pieces[k]| < size
    requires forall k | 0 <= k < |pieces| :: Admits(StripAll(pieces)[k], platform).Says?
    ensures forall k | 0 <= k < |pieces| :: Admits(Strip(pieces[k]), platform).Says?
  {
    hide Admits, Strip;
    forall k | 0 <= k < |pieces| ensures Admits(Strip(pieces[k]), platform).Says? {
      assert StripAll(pieces)[k] == Strip(pieces[k]);
    }
  }

  /** The same for the pieces of a call. */
  lemma {:induction false} ArgumentsHaveTrees(pieces: seq<string>, platform: string, size: nat) returns (args: seq<Arg>)
    requires forall k | 0 <= k < |pieces| :: |pieces[k]| < size
    requires forall k | 0 <= k < |pieces| :: Admits(Strip(pieces[k]), platform).Says?
    ensures Padded(args) == pieces && AllSure(args) && |args| == |pieces|
    decreases size, 0, |pieces|
  {
    hide *;
    args := [];
    NoArguments();
    if pieces != [] {
      var u, w := StripSplits(pieces[0]);
      StripShortens(pieces[0]);
      var before, p, after := AnswerHasTree(Strip(pieces[0]), platform);
      SpellsIs(Strip(pieces[0]), before, p, after);
      var rest := ArgumentsHaveTrees(pieces[1..], platform, size);
      var first := Arg(u + before, p, after + w);
      BlankBoth(u, before);
      BlankBoth(after, w);
      ArmText.Regroup(u, before, Print(p), after, w);
      OneMore(first, rest);
      args := [first] + rest;
      assert pieces == [pieces[0]] + pieces[1..];
    }
  }

  lemma NoArguments()
    ensures Padded([]) == [] && AllSure([])
  {
  }

  lemma StripShortens(text: string)
    ensures |Strip(text)| <= |text|
  {
  }

  lemma SpellsIs(text: string, before: string, p: Pred, after: string)
    requires Spells(text, before, p, after)
    ensures Blank(before) && Blank(after) && text == before + Print(p) + after && Sure(p)
  {
  }

  lemma BlankBoth(a: string, b: string)
    requires Blank(a) && Blank(b)
    ensures Blank(a + b)
  {
  }

  lemma OneMore(first: Arg, rest: seq<Arg>)
    requires Blank(first.before) && Blank(first.after) && Sure(first.pred)
    requires AllSure(rest)
    ensures AllSure([first] + rest)
    ensures Padded([first] + rest) == [first.before + Print(first.pred) + first.after] + Padded(rest)
  {
    hide Blank, Sure, Print;
    assert ([first] + rest)[1..] == rest;
  }

  ghost predicate AllSure(args: seq<Arg>) {
    forall a | a in args :: Blank(a.before) && Blank(a.after) && Sure(a.pred)
  }

  lemma CallIsKnown(head: Head, args: seq<Arg>, end: End)
    requires AllSure(args) && (head == Not ==> args != []) && (end.Trailing? ==> Blank(end.blank))
    ensures Sure(Call(head, "", args, end))
  {
    hide Blank;
    BlankNothing();
    var p := Call(head, "", args, end);
    assert Written(p);
    assert Clean(p);
    assert Known(p);
    assert Filled(p);
  }

  lemma PrintedCall(head: Head, args: seq<Arg>, end: End)
    ensures Print(Call(head, "", args, end)) == Word(head) + "(" + Join(Padded(args) + Ending(end)) + ")"
  {
    OpeningIsPlain(head);
  }

  lemma {:induction false} KnownIsFormed(p: Pred)
    requires Written(p) && Known(p)
    ensures Formed(p)
  {
    hide FormedAtom, InVocabulary, Blank, Show, ArmText.ProperAtom;
    match p
    case Leaf(atom) => VocabularyIsFormed(Show(atom));
    case Call(_, _, args, _) =>
      forall a | a in args ensures Formed(a.pred) {
        KnownIsFormed(a.pred);
      }
  }

  /** What the reader says of any text at all: a Boolean exactly when the text is a tree it knows
      that has this value. */
  lemma SaysExactlyWhen(text: string, platform: string, value: bool)
    ensures Admits(text, platform) == Says(value) <==>
      exists before, p, after :: Spells(text, before, p, after) && Holds(p, platform) == value
  {
    hide Admits, Holds, Blank, Formed, Known, Filled, Print, Written, Clean;
    if Admits(text, platform) == Says(value) {
      var before, p, after := AnswerHasTree(text, platform);
      KnownIsFormed(p);
      ReadsWhatIsMeant(before, p, after, platform);
      assert Spells(text, before, p, after) && Holds(p, platform) == value;
    }
    if before, p, after :| Spells(text, before, p, after) && Holds(p, platform) == value {
      KnownIsFormed(p);
      ReadsWhatIsMeant(before, p, after, platform);
    }
  }

  // ----- every predicate that Rust can write -----

  function NameEnd(text: string, k: nat): (end: nat)
    ensures k <= end && (k <= |text| ==> end <= |text|)
    decreases |text| - k
  {
    if k < |text| && NameChar(text[k]) then NameEnd(text, k + 1) else k
  }

  /** Between its quotes, taken in pairs as they come, there are names only. */
  predicate Calm(text: string)
    decreases |text|
  {
    if text == "" then true
    else if text[0] == '"' then
      var end := NameEnd(text, 1);
      end < |text| && text[end] == '"' && Calm(text[end + 1..])
    else Calm(text[1..])
  }

  lemma {:induction false} CalmBehind(text: string, rest: string)
    requires '"' !in text
    ensures Calm(text + rest) == Calm(rest)
  {
    if text == "" {
      assert text + rest == rest;
    } else {
      assert (text + rest)[1..] == text[1..] + rest;
      CalmBehind(text[1..], rest);
    }
  }

  lemma {:induction false} NameEndIs(text: string, k: nat, end: nat)
    requires k <= end < |text| && !NameChar(text[end]) && forall j | k <= j < end :: NameChar(text[j])
    ensures NameEnd(text, k) == end
    decreases end - k
  {
    if k < end { NameEndIs(text, k + 1, end); }
  }

  lemma {:induction false} NameEndRuns(text: string, k: nat)
    ensures forall j | k <= j < NameEnd(text, k) :: j < |text| && NameChar(text[j])
    decreases |text| - k
  {
    if k < |text| && NameChar(text[k]) { NameEndRuns(text, k + 1); }
  }

  /** A string of name characters is passed over. */
  lemma CalmString(value: string, rest: string)
    requires forall c | c in value :: NameChar(c)
    ensures Calm("\"" + value + "\"" + rest) == Calm(rest)
  {
    hide NameChar, NameEnd;
    var text, end := "\"" + value + "\"" + rest, |value| + 1;
    assert forall j | 1 <= j < end :: text[j] == value[j - 1];
    assert text[end] == '"' && text[end + 1..] == rest;
    QuoteIsNoName();
    NameEndIs(text, 1, end);
  }

  lemma QuoteIsNoName()
    ensures !NameChar('"') && !NameChar('\\')
  {
  }

  /** The first quote of a literal's content stands behind a backslash. */
  lemma {:induction false} ContentQuote(value: string, n: nat)
    requires ArmText.Content(value) && n < |value| && '\\' !in value[..n]
    ensures value[n] != '"'
    decreases n
  {
    if n > 0 {
      assert value[0] == value[..n][0];
      assert value[1..][..n - 1] == value[..n][1..];
      ContentQuote(value[1..], n - 1);
    }
  }

  /** In a calm text a literal holds a name and nothing else. */
  lemma CalmLiteral(value: string, rest: string)
    requires ArmText.Content(value) && Calm("\"" + value + "\"" + rest)
    ensures forall c | c in value :: NameChar(c)
  {
    hide NameChar, NameEnd, ArmText.Content;
    var text := "\"" + value + "\"" + rest;
    var end := NameEnd(text, 1);
    NameEndRuns(text, 1);
    QuoteIsNoName();
    assert text[|value| + 1] == '"';
    assert end <= |value| + 1;
    assert forall j | 1 <= j < end :: text[j] == value[j - 1];
    if end <= |value| {
      forall j | 0 <= j < end - 1 ensures value[j] != '\\' { assert text[j + 1] == value[j]; }
      assert text[end] == value[end - 1];
      ContentQuote(value, end - 1);
    } else {
      forall c | c in value ensures NameChar(c) {
        var j :| 0 <= j < |value| && value[j] == c;
        assert text[j + 1] == c;
      }
    }
  }

  lemma ValueParts(atom: Atom, rest: string)
    requires atom.Pair?
    ensures Show(atom) + rest == ArmText.Before(atom) + ("\"" + atom.value + "\"" + rest)
  {
  }

  /** An atom of names is passed over, and only such an atom stands in a calm text. */
  lemma CalmAtom(atom: Atom, rest: string)
    requires ArmText.ProperAtom(atom)
    ensures Clean(Leaf(atom)) ==> Calm(Show(atom) + rest) == Calm(rest)
    ensures Calm(Show(atom) + rest) ==> Clean(Leaf(atom)) && Calm(rest)
  {
    hide Calm, NameChar, ArmText.Content, Letters, Blank;
    if atom.Bare? {
      ArmText.LettersAreQuiet(atom.name);
      CalmBehind(atom.name, rest);
    } else {
      ArmText.BeforeIsQuiet(atom);
      ValueParts(atom, rest);
      CalmBehind(ArmText.Before(atom), "\"" + atom.value + "\"" + rest);
      if Calm(Show(atom) + rest) { CalmLiteral(atom.value, rest); }
      if Clean(Leaf(atom)) { CalmString(atom.value, rest); }
    }
  }

  lemma {:induction false} CalmTree(p: Pred, rest: string)
    requires Written(p)
    ensures Clean(p) ==> Calm(Print(p) + rest) == Calm(rest)
    ensures Calm(Print(p) + rest) ==> Clean(p) && Calm(rest)
    decreases p, 0
  {
    hide *;
    match p
    case Leaf(atom) =>
      WrittenIs(p);
      ArmText.LeafIs(atom);
      CalmAtom(atom, rest);
    case Call(head, gap, args, end) =>
      var tail := ")" + rest;
      WrittenIs(p);
      ArmText.CallShown(p);
      OpeningHasNoQuote(head, gap);
      Regroup(Opening(head, gap), ArmText.Body(args, end), ")", rest);
      CalmBehind(Opening(head, gap), ArmText.Body(args, end) + tail);
      CalmArguments(args, end, tail);
      CalmBehind(")", rest);
      CleanIs(p);
  }

  lemma Regroup(a: string, b: string, c: string, rest: string)
    ensures a + b + c + rest == a + (b + (c + rest))
  {
  }

  lemma WrittenIs(p: Pred)
    requires Written(p)
    ensures p.Leaf? ==> ArmText.ProperAtom(p.atom)
    ensures p.Call? ==> Blank(p.gap) && AllWritten(p.args) && (p.end.Trailing? ==> Blank(p.end.blank))
  {
  }

  lemma OpeningHasNoQuote(head: Head, gap: string)
    requires Blank(gap)
    ensures '"' !in Opening(head, gap) && '"' !in ")"
  {
    BlankIsPlain(gap);
  }

  ghost predicate AllClean(args: seq<Arg>) {
    forall a | a in args :: Clean(a.pred)
  }

  lemma CleanIs(p: Pred)
    requires p.Call?
    ensures Clean(p) <==> AllClean(p.args)
  {
  }

  lemma {:induction false} CalmArguments(args: seq<Arg>, end: End, rest: string)
    requires AllWritten(args) && (end.Trailing? ==> Blank(end.blank))
    ensures AllClean(args) ==> Calm(ArmText.Body(args, end) + rest) == Calm(rest)
    ensures Calm(ArmText.Body(args, end) + rest) ==> AllClean(args) && Calm(rest)
    decreases args, 1
  {
    hide Calm, Clean, Blank, Print, Written, ArmText.Body, ArmText.Rest, ArmText.First;
    if args == [] {
      ArmText.EmptyBody(end);
      if end.Trailing? { BlankIsPlain(end.blank); }
      CalmBehind(ArmText.Body(args, end), rest);
    } else {
      var a, others := args[0], args[1..];
      var after := ArmText.Rest(args, end) + rest;
      assert a in args;
      ArmText.BodyBegins(args, end);
      FirstParts(args, ArmText.Rest(args, end), rest);
      BlankIsPlain(a.before);
      BlankIsPlain(a.after);
      CalmBehind(a.before, Print(a.pred) + (a.after + after));
      CalmTree(a.pred, a.after + after);
      CalmBehind(a.after, after);
      RestIs(args, end, rest);
      CalmBehind(",", ArmText.Body(others, end) + rest);
      CalmBehind("", rest);
      CalmArguments(others, end, rest);
      assert AllClean(args) <==> Clean(a.pred) && AllClean(others);
    }
  }

  lemma FirstParts(args: seq<Arg>, more: string, rest: string)
    requires args != []
    ensures ArmText.First(args) + more + rest
      == args[0].before + (Print(args[0].pred) + (args[0].after + (more + rest)))
  {
  }

  lemma RestIs(args: seq<Arg>, end: End, rest: string)
    requires args != []
    ensures |args| == 1 && end.Plain? ==> ArmText.Rest(args, end) + rest == "" + rest && args[1..] == []
    ensures !(|args| == 1 && end.Plain?) ==>
      ArmText.Rest(args, end) + rest == "," + (ArmText.Body(args[1..], end) + rest)
  {
  }

  lemma {:induction false} CleanIsFormed(p: Pred)
    requires Written(p) && Clean(p)
    ensures Formed(p)
  {
    hide FormedAtom, Blank, Show, ArmText.ProperAtom, NameChar;
    match p
    case Leaf(atom) => CleanAtomIsFormed(atom);
    case Call(_, _, args, _) =>
      forall a | a in args ensures Formed(a.pred) {
        CleanIsFormed(a.pred);
      }
  }

  lemma CleanAtomIsFormed(atom: Atom)
    requires ArmText.ProperAtom(atom) && (atom.Pair? ==> forall c | c in atom.value :: NameChar(c))
    ensures FormedAtom(Show(atom))
  {
    hide Nested, Blank, Letters, ArmText.Content;
    var text := Show(atom);
    if atom.Bare? {
      LettersArePlain(atom.name);
      QuietIsNested(text);
    } else {
      LettersArePlain(atom.key);
      BlankIsPlain(atom.left);
      BlankIsPlain(atom.right);
      assert forall k | 0 <= k < |atom.value| :: atom.value[k] in atom.value;
      QuietIsNested(text);
      assert text[0] == atom.key[0] && text[|text| - 1] == '"';
    }
  }

  lemma LettersArePlain(text: string)
    requires Letters(text)
    ensures text != "" && (forall k | 0 <= k < |text| :: text[k] !in "(),") && text[|text| - 1] != ')'
    ensures !Space(text[0]) && !Space(text[|text| - 1])
  {
    assert WordChar(text[0]) && WordChar(text[|text| - 1]);
  }

  lemma SureIsCalm(before: string, p: Pred, after: string)
    requires Blank(before) && Blank(after) && Written(p) && Clean(p)
    ensures Calm(before + Print(p) + after)
  {
    hide Calm, Blank, Written, Clean, Print;
    BlankIsPlain(before);
    BlankIsPlain(after);
    assert before + Print(p) + after == before + (Print(p) + after);
    CalmBehind(before, Print(p) + after);
    CalmTree(p, after);
    assert after + "" == after;
    CalmBehind(after, "");
    CalmNothing();
  }

  lemma CalmNothing()
    ensures Calm("")
  {
  }

  /** Commas and brackets in its strings or not: of a predicate that Rust can write the reader
      gives a Boolean exactly when it knows every atom of it and every `not` has an argument, and
      then it is the right one. */
  lemma AnswersExactlyKnown(before: string, p: Pred, after: string, platform: string)
    requires Blank(before) && Written(p) && Blank(after)
    ensures var answer := Admits(before + Print(p) + after, platform);
      && (answer.Says? <==> Known(p) && Filled(p))
      && (answer.Says? ==> answer == Says(Holds(p, platform)))
  {
    hide Admits, Blank, Written, Clean, Print, Calm, Known, Filled, Holds, Formed;
    if Known(p) && Filled(p) {
      KnownIsFormed(p);
      ReadsWhatIsMeant(before, p, after, platform);
    } else if Admits(before + Print(p) + after, platform).Says? {
      AnsweredIsFormed(before, p, after, platform);
      ReadsWhatIsMeant(before, p, after, platform);
    }
  }

  /** Where the reader gives a Boolean, no string of the predicate holds what it trips over. */
  lemma AnsweredIsFormed(before: string, p: Pred, after: string, platform: string)
    requires Blank(before) && Written(p) && Blank(after) && Admits(before + Print(p) + after, platform).Says?
    ensures Clean(p) && Formed(p)
  {
    hide Admits, Blank, Written, Clean, Print, Calm, Known, Filled, Formed;
    var text := before + Print(p) + after;
    var u, q, v := AnswerHasTree(text, platform);
    SureIsCalm(u, q, v);
    BlankIsPlain(before);
    assert text == before + (Print(p) + after);
    CalmBehind(before, Print(p) + after);
    CalmTree(p, after);
    CleanIsFormed(p);
  }
}
