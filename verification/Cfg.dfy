/** Reading `#[cfg(...)]` predicates as text (`_split_top` and `cfg_admits` in
    `scripts/check_mutation_anchors.py`).

    The reader never builds a tree: it strips the text, looks at how it begins and ends, cuts
    what is between the brackets at its outermost commas and reads each piece again.  Here a
    predicate is a tree, printed with any spacing, and reading the print is compared with what
    the tree means. */
module Cfg {

  datatype Option<+T> = None | Some(value: T)

  // ----- spaces -----

  /** `str.isspace`, which `\s` of a pattern over text agrees with. */
  predicate Space(c: char) {
    var n := c as int;
    || 9 <= n <= 13 || 28 <= n <= 32 || n == 0x85 || n == 0xA0 || n == 0x1680 || 0x2000 <= n <= 0x200A
    || n == 0x2028 || n == 0x2029 || n == 0x202F || n == 0x205F || n == 0x3000
  }

  const SPACES: string :=
    "\t\n\U{0B}\U{0C}\r\U{1C}\U{1D}\U{1E}\U{1F} \U{85}\U{A0}\U{1680}\U{2000}\U{2001}\U{2002}\U{2003}\U{2004}\U{2005}"
    + "\U{2006}\U{2007}\U{2008}\U{2009}\U{200A}\U{2028}\U{2029}\U{202F}\U{205F}\U{3000}"

  const LOWER: string := "abcdefghijklmnopqrstuvwxyz"
  const DIGITS: string := "0123456789"

  lemma SpacesAre(c: char)
    ensures Space(c) <==> c in SPACES
  {
    if 9 as char <= c <= 13 as char { assert SPACES[c as int - 9] == c; }
    if 28 as char <= c <= 32 as char { assert SPACES[5 + (c as int - 28)] == c; }
    if c == 0x85 as char { assert SPACES[10] == c; }
    if c == 0xA0 as char { assert SPACES[11] == c; }
    if c == 0x1680 as char { assert SPACES[12] == c; }
    if 0x2000 as char <= c <= 0x200A as char { assert SPACES[13 + (c as int - 0x2000)] == c; }
    if c == 0x2028 as char { assert SPACES[24] == c; }
    if c == 0x2029 as char { assert SPACES[25] == c; }
    if c == 0x202F as char { assert SPACES[26] == c; }
    if c == 0x205F as char { assert SPACES[27] == c; }
    if c == 0x3000 as char { assert SPACES[28] == c; }
  }

  lemma LowerAre(c: char)
    ensures 'a' <= c <= 'z' <==> c in LOWER
  {
    if 'a' <= c <= 'z' { assert LOWER[c as int - 97] == c; }
  }

  lemma DigitsAre(c: char)
    ensures '0' <= c <= '9' <==> c in DIGITS
  {
    if '0' <= c <= '9' { assert DIGITS[c as int - 48] == c; }
  }

  /** The ranges are the characters that Python knows as spaces, and those of the pattern. */
  lemma ClassesAre(c: char)
    ensures Space(c) <==> c in SPACES
    ensures NameChar(c) <==> c in LOWER || c in DIGITS || c == '_'
  {
    hide Space;
    SpacesAre(c);
    LowerAre(c);
    DigitsAre(c);
  }

  predicate Blank(text: string) {
    forall k | 0 <= k < |text| :: Space(text[k])
  }

  function StripLeft(text: string): (r: string)
    ensures |r| <= |text|
  {
    if text != "" && Space(text[0]) then StripLeft(text[1..]) else text
  }

  function StripRight(text: string): (r: string)
    ensures |r| <= |text|
  {
    if text != "" && Space(text[|text| - 1]) then StripRight(text[..|text| - 1]) else text
  }

  function Strip(text: string): (r: string)
    ensures |r| <= |text|
  {
    StripRight(StripLeft(text))
  }

  /** Not empty, and no space at either end. */
  predicate Edged(text: string) {
    text != "" && !Space(text[0]) && !Space(text[|text| - 1])
  }

  lemma {:induction false} StripLeftDrops(before: string, text: string)
    requires Blank(before) && (text == "" || !Space(text[0]))
    ensures StripLeft(before + text) == text
  {
    if before == "" {
      assert before + text == text;
    } else {
      StripLeftDrops(before[1..], text);
      assert (before + text)[1..] == before[1..] + text;
    }
  }

  lemma {:induction false} StripRightDrops(text: string, after: string)
    requires Blank(after) && (text == "" || !Space(text[|text| - 1]))
    ensures StripRight(text + after) == text
  {
    if after == "" {
      assert text + after == text;
    } else {
      var n := |after| - 1;
      StripRightDrops(text, after[..n]);
      assert (text + after)[..|text + after| - 1] == text + after[..n];
    }
  }

  lemma StripDrops(before: string, text: string, after: string)
    requires Blank(before) && Edged(text) && Blank(after)
    ensures Strip(before + text + after) == text
  {
    assert before + text + after == before + (text + after);
    StripLeftDrops(before, text + after);
    StripRightDrops(text, after);
  }

  // ----- `_split_top` -----

  /** `text` cut at every comma met at depth zero. */
  function Cut(text: string, depth: int): (pieces: seq<string>)
    ensures pieces != []
    ensures forall k | 0 <= k < |pieces| :: |pieces[k]| <= |text|
  {
    if text == "" then [""]
    else
      var at := Step(depth, text[0]);
      var rest := Cut(text[1..], at);
      if text[0] == ',' && at == 0 then [""] + rest else Glue([text[0]], rest)
  }

  function Step(depth: int, c: char): int {
    if c == '(' then depth + 1 else if c == ')' then depth - 1 else depth
  }

  function Glue(current: string, pieces: seq<string>): seq<string>
    requires pieces != []
  {
    [current + pieces[0]] + pieces[1..]
  }

  function StripAll(pieces: seq<string>): (r: seq<string>)
    ensures |r| == |pieces|
    ensures forall k | 0 <= k < |r| :: r[k] == Strip(pieces[k])
  {
    if pieces == [] then [] else [Strip(pieces[0])] + StripAll(pieces[1..])
  }

  /** The pieces, the last one dropped when it is blank. */
  function Split(text: string): (pieces: seq<string>)
    ensures forall k | 0 <= k < |pieces| :: |pieces[k]| <= |text|
  {
    var cut := Cut(text, 0);
    StripAll(if Blank(cut[|cut| - 1]) then cut[..|cut| - 1] else cut)
  }

  /** `_split_top`. */
  method SplitTop(text: string) returns (pieces: seq<string>)
    ensures pieces == Split(text)
  {
    hide Cut, Split, Step;
    var parts: seq<string>, depth, current := [], 0, "";
    GlueNothing(Cut(text, 0));
    assert text[0..] == text;
    for i := 0 to |text|
      invariant Cut(text, 0) == parts + Glue(current, Cut(text[i..], depth))
    {
      CutOne(text, i, depth, parts, current);
      depth := Step(depth, text[i]);
      if text[i] == ',' && depth == 0 {
        parts := parts + [current];
        current := "";
      } else {
        current := current + [text[i]];
      }
    }
    CutEnds(text, depth, parts, current);
    if Strip(current) != "" {
      parts := parts + [current];
    }
    StripEmpty(current);
    pieces := StripAll(parts);
  }

  lemma GlueNothing(pieces: seq<string>)
    requires pieces != []
    ensures Glue("", pieces) == pieces
  {
    assert "" + pieces[0] == pieces[0];
  }

  lemma CutOne(text: string, i: nat, depth: int, parts: seq<string>, current: string)
    requires i < |text|
    ensures var at := Step(depth, text[i]);
      var rest := Cut(text[i + 1..], at);
      parts + Glue(current, Cut(text[i..], depth)) ==
      if text[i] == ',' && at == 0 then parts + [current] + Glue("", rest)
      else parts + Glue(current + [text[i]], rest)
  {
    assert text[i..][1..] == text[i + 1..];
    var rest := Cut(text[i + 1..], Step(depth, text[i]));
    GlueNothing(rest);
    assert current + "" == current;
    assert current + ([text[i]] + rest[0]) == current + [text[i]] + rest[0];
  }

  lemma CutEnds(text: string, depth: int, parts: seq<string>, current: string)
    requires Cut(text, 0) == parts + Glue(current, Cut(text[|text|..], depth))
    ensures Cut(text, 0) == parts + [current]
    ensures Split(text) == StripAll(if Blank(current) then parts else parts + [current])
  {
    hide Strip, StripAll;
    assert text[|text|..] == "" && current + "" == current;
    assert Cut("", depth) == [""];
    assert (parts + [current])[..|parts|] == parts;
  }

  /** `current.strip()` is empty for blanks alone. */
  lemma StripEmpty(text: string)
    ensures Strip(text) == "" <==> Blank(text)
  {
    if Blank(text) {
      assert text + "" == text;
      StripLeftDrops(text, "");
    } else {
      StripLeftKeeps(text);
      StripRightKeeps(StripLeft(text));
    }
  }

  lemma {:induction false} StripLeftKeeps(text: string)
    requires !Blank(text)
    ensures !Blank(StripLeft(text))
  {
    if Space(text[0]) { StripLeftKeeps(text[1..]); }
  }

  lemma {:induction false} StripRightKeeps(text: string)
    requires !Blank(text)
    ensures StripRight(text) != ""
  {
    if Space(text[|text| - 1]) { StripRightKeeps(text[..|text| - 1]); }
  }

  // ----- atoms -----

  predicate NameChar(c: char) {
    'a' <= c <= 'z' || '0' <= c <= '9' || c == '_'
  }

  predicate Name(text: string) {
    text != "" && forall k | 0 <= k < |text| :: NameChar(text[k])
  }

  const OS: string := "target_os"

  /** The full match of `target_os\s*=\s*"([a-z0-9_]+)"`. */
  function TargetOs(text: string): Option<string> {
    if !(OS <= text) then None
    else
      var sign := StripLeft(text[|OS|..]);
      if sign == "" || sign[0] != '=' then None
      else
        var quoted := StripLeft(sign[1..]);
        if |quoted| >= 2 && quoted[0] == '"' && quoted[|quoted| - 1] == '"' && Name(quoted[1..|quoted| - 1])
        then Some(quoted[1..|quoted| - 1]) else None
  }

  /** What the reader says; `Fails` is its `IndexError`. */
  datatype Answer = Says(value: bool) | Unknown | Fails

  function AtomAnswer(text: string, platform: string): Answer {
    if text == "test" then Says(true)
    else if text == "unix" then Says(platform == "macos" || platform == "linux")
    else if text == "windows" then Says(platform == "windows")
    else if TargetOs(text).Some? then Says(TargetOs(text).value == platform)
    else Unknown
  }

  // ----- `cfg_admits` -----

  datatype Head = Not | Any | All

  function Word(head: Head): string {
    match head
    case Not => "not"
    case Any => "any"
    case All => "all"
  }

  predicate Calls(text: string, head: Head): (calls: bool)
    ensures calls ==> |text| >= 5
  {
    assert Word(head) + "(" <= text ==> text[3] == '(';
    Word(head) + "(" <= text && text[|text| - 1] == ')'
  }

  function Inner(text: string): (inner: string)
    requires |text| >= 5
    ensures |inner| < |text|
  {
    text[4..|text| - 1]
  }

  function Combine(head: Head, answers: seq<Answer>): Answer {
    if Fails in answers then Fails
    else if Unknown in answers then Unknown
    else
      match head
      case Not => if answers == [] then Fails else Says(answers[0] == Says(false))
      case Any => Says(Says(true) in answers)
      case All => Says(Says(false) !in answers)
  }

  /** `cfg_admits`. */
  function Admits(expr: string, platform: string): Answer
    decreases |expr|, 1, 0
  {
    var text := Strip(expr);
    if Calls(text, Not) then Combine(Not, Answers(Split(Inner(text)), platform, |text|))
    else if Calls(text, Any) then Combine(Any, Answers(Split(Inner(text)), platform, |text|))
    else if Calls(text, All) then Combine(All, Answers(Split(Inner(text)), platform, |text|))
    else AtomAnswer(text, platform)
  }

  function Answers(pieces: seq<string>, platform: string, size: nat): seq<Answer>
    requires forall k | 0 <= k < |pieces| :: |pieces[k]| < size
    decreases size, 0, |pieces|
  {
    if pieces == [] then []
    else [Admits(pieces[0], platform)] + Answers(pieces[1..], platform, size)
  }

  // ----- predicate trees -----

  /** A name, a name with a value, or any other text. */
  datatype Atom =
    | Bare(name: string)
    | Pair(key: string, left: string, right: string, value: string)
    | Odd(text: string)

  /** A tree with its spacing; Rust allows a gap between a head and its bracket.  A call may end
      in a blank piece: what follows a trailing comma, or what stands between empty brackets. */
  datatype Pred = Leaf(atom: Atom) | Call(head: Head, gap: string, args: seq<Arg>, end: End)
  datatype Arg = Arg(before: string, pred: Pred, after: string)
  datatype End = Plain | Trailing(blank: string)

  function Show(atom: Atom): string {
    match atom
    case Bare(name) => name
    case Pair(key, left, right, value) => key + left + "=" + right + "\"" + value + "\""
    case Odd(text) => text
  }

  function Join(pieces: seq<string>): string {
    if pieces == [] then ""
    else if |pieces| == 1 then pieces[0]
    else pieces[0] + "," + Join(pieces[1..])
  }

  function Print(p: Pred): string {
    match p
    case Leaf(atom) => Show(atom)
    case Call(head, gap, args, end) => Opening(head, gap) + Join(Padded(args) + Ending(end)) + ")"
  }

  function Opening(head: Head, gap: string): string {
    Word(head) + gap + "("
  }

  function Ending(end: End): seq<string> {
    match end
    case Plain => []
    case Trailing(blank) => [blank]
  }

  function Padded(args: seq<Arg>): seq<string> {
    if args == [] then [] else [args[0].before + Print(args[0].pred) + args[0].after] + Padded(args[1..])
  }

  function Texts(args: seq<Arg>): (texts: seq<string>)
    ensures |texts| == |args|
    ensures forall k | 0 <= k < |args| :: texts[k] == Print(args[k].pred)
  {
    if args == [] then [] else [Print(args[0].pred)] + Texts(args[1..])
  }

  /** The depth of brackets after `text`; none when a bracket closes too much, or at a comma
      outside brackets. */
  function DepthAfter(text: string, depth: nat): Option<nat> {
    if text == "" then Some(depth)
    else if text[0] == '(' then DepthAfter(text[1..], depth + 1)
    else if text[0] == ')' then if depth > 0 then DepthAfter(text[1..], depth - 1) else None
    else if text[0] == ',' && depth == 0 then None
    else DepthAfter(text[1..], depth)
  }

  /** Brackets close what they open, and no comma stands outside them. */
  predicate Nested(text: string, depth: nat) {
    DepthAfter(text, depth) == Some(0)
  }

  ghost predicate FormedAtom(text: string) {
    Edged(text) && Nested(text, 0) && forall head :: !Calls(text, head)
  }

  ghost predicate Formed(p: Pred) {
    match p
    case Leaf(atom) => FormedAtom(Show(atom))
    case Call(head, gap, args, end) => Blank(gap) && (end.Trailing? ==> Blank(end.blank)) && AllFormed(args)
  }

  ghost predicate AllFormed(args: seq<Arg>) {
    forall a | a in args :: Blank(a.before) && Blank(a.after) && Formed(a.pred)
  }

  // ----- what a tree means -----

  ghost predicate InVocabulary(text: string) {
    text == "test" || text == "unix" || text == "windows"
    || exists left, right, name ::
         Blank(left) && Blank(right) && Name(name) && text == Show(Pair("target_os", left, right, name))
  }

  /** Every atom is in the vocabulary, and no head has a gap behind it, which the vocabulary does
      not know either. */
  ghost predicate Known(p: Pred) {
    match p
    case Leaf(atom) => InVocabulary(Show(atom))
    case Call(head, gap, args, end) => gap == "" && forall a | a in args :: Known(a.pred)
  }

  /** Every `not` that is read has an argument; behind a gap nothing is read. */
  predicate Filled(p: Pred) {
    match p
    case Leaf(atom) => true
    case Call(head, gap, args, end) =>
      gap != "" || ((head == Not ==> args != []) && forall a | a in args :: Filled(a.pred))
  }

  ghost predicate AtomHolds(text: string, platform: string) {
    || text == "test"
    || (text == "unix" && (platform == "macos" || platform == "linux"))
    || (text == "windows" && platform == "windows")
    || exists left, right ::
         Blank(left) && Blank(right) && Name(platform) && text == Show(Pair("target_os", left, right, platform))
  }

  ghost predicate Holds(p: Pred, platform: string)
    requires Filled(p) && Known(p)
  {
    match p
    case Leaf(atom) => AtomHolds(Show(atom), platform)
    case Call(head, gap, args, end) =>
      match head
      case Not => !Holds(args[0].pred, platform)
      case Any => exists a | a in args :: Holds(a.pred, platform)
      case All => forall a | a in args :: Holds(a.pred, platform)
  }

  ghost function Meaning(p: Pred, platform: string): Answer {
    if !Filled(p) then Fails else if !Known(p) then Unknown else Says(Holds(p, platform))
  }

  // ----- the pattern of a target -----

  lemma TargetOsShown(left: string, right: string, name: string)
    requires Blank(left) && Blank(right) && Name(name)
    ensures TargetOs(Show(Pair(OS, left, right, name))) == Some(name)
  {
    hide Blank, Name, NameChar, StripLeft;
    var quoted := "\"" + name + "\"";
    var sign := "=" + right + quoted;
    var text := Show(Pair(OS, left, right, name));
    assert text == OS + (left + sign);
    assert text[|OS|..] == left + sign;
    StripLeftDrops(left, sign);
    assert sign[1..] == right + quoted;
    StripLeftDrops(right, quoted);
    assert quoted[1..|quoted| - 1] == name;
  }

  lemma {:induction false} StripLeftSplits(text: string) returns (before: string)
    ensures Blank(before) && text == before + StripLeft(text)
  {
    hide Space;
    if text != "" && Space(text[0]) {
      var rest := StripLeftSplits(text[1..]);
      before := [text[0]] + rest;
    } else {
      before := "";
    }
  }

  lemma TargetOsFinds(text: string) returns (left: string, right: string)
    requires TargetOs(text).Some?
    ensures Blank(left) && Blank(right) && Name(TargetOs(text).value)
    ensures text == Show(Pair(OS, left, right, TargetOs(text).value))
  {
    hide Blank, NameChar, Name, StripLeft;
    var name, sign := TargetOs(text).value, StripLeft(text[|OS|..]);
    left := StripLeftSplits(text[|OS|..]);
    right := StripLeftSplits(sign[1..]);
    var quoted := StripLeft(sign[1..]);
    calc {
      text;
      OS + text[|OS|..];
      OS + (left + sign);
      { assert sign == "=" + sign[1..]; }
      OS + (left + ("=" + (right + quoted)));
      { assert quoted == "\"" + name + "\""; }
      OS + (left + ("=" + (right + ("\"" + name + "\""))));
      Show(Pair(OS, left, right, name));
    }
  }

  /** The pattern matches the texts it says and takes the name out of them. */
  lemma TargetOsMatches(text: string, name: string)
    ensures TargetOs(text) == Some(name) <==> exists left, right ::
      Blank(left) && Blank(right) && Name(name) && text == Show(Pair(OS, left, right, name))
  {
    hide TargetOs, Blank, Name, Show;
    if TargetOs(text) == Some(name) {
      var left, right := TargetOsFinds(text);
    }
    if left, right :| Blank(left) && Blank(right) && Name(name) && text == Show(Pair(OS, left, right, name)) {
      TargetOsShown(left, right, name);
    }
  }

  lemma AtomIsRead(text: string, platform: string)
    ensures AtomAnswer(text, platform) == if InVocabulary(text) then Says(AtomHolds(text, platform)) else Unknown
  {
    hide TargetOs, Show, Name, Blank;
    TargetOsMatches(text, platform);
    if TargetOs(text).Some? { TargetOsMatches(text, TargetOs(text).value); }
    if InVocabulary(text) && !(text == "test" || text == "unix" || text == "windows") {
      var left, right, name :| Blank(left) && Blank(right) && Name(name) && text == Show(Pair(OS, left, right, name));
      TargetOsMatches(text, name);
    }
    NotATarget("test");
    NotATarget("unix");
    NotATarget("windows");
  }

  lemma NotATarget(text: string)
    requires text == "test" || text == "unix" || text == "windows"
    ensures TargetOs(text) == None
  {
  }

  // ----- cutting what was joined -----

  lemma {:induction false} NestedThen(text: string, rest: string, k: nat, d: nat)
    requires Nested(text, k)
    ensures Nested(text + rest, k + d) == Nested(rest, d)
    decreases text
  {
    if text == "" {
      assert text + rest == rest;
    } else {
      assert (text + rest)[1..] == text[1..] + rest;
      NestedThen(text[1..], rest, Step(k, text[0]), d);
    }
  }

  lemma {:induction false} QuietIsNested(text: string)
    requires forall k | 0 <= k < |text| :: text[k] !in "(),"
    ensures Nested(text, 0)
  {
    if text != "" {
      assert text[0] !in "(),";
      QuietIsNested(text[1..]);
    }
  }

  predicate AllNested(pieces: seq<string>) {
    forall k | 0 <= k < |pieces| :: Nested(pieces[k], 0)
  }

  /** The depth the loop has reached after `text`; it may be below zero. */
  function Depth(text: string, depth: int): int {
    if text == "" then depth else Depth(text[1..], Step(depth, text[0]))
  }

  /** No comma is met at depth zero. */
  predicate Whole(text: string, depth: int) {
    text == "" || (!(text[0] == ',' && depth == 0) && Whole(text[1..], Step(depth, text[0])))
  }

  /** No piece is cut itself, and each but the last leaves the depth at zero. */
  predicate Separable(pieces: seq<string>) {
    && (forall k | 0 <= k < |pieces| :: Whole(pieces[k], 0))
    && (forall k | 0 <= k < |pieces| - 1 :: Depth(pieces[k], 0) == 0)
  }

  lemma {:induction false} CutWhole(text: string, rest: string, depth: int)
    requires Whole(text, depth)
    ensures Cut(text + rest, depth) == Glue(text, Cut(rest, Depth(text, depth)))
    decreases text
  {
    if text == "" {
      assert text + rest == rest;
      GlueNothing(Cut(rest, depth));
    } else {
      assert (text + rest)[1..] == text[1..] + rest;
      CutWhole(text[1..], rest, Step(depth, text[0]));
      var more := Cut(rest, Depth(text, depth));
      assert [text[0]] + (text[1..] + more[0]) == text + more[0];
    }
  }

  /** The first piece runs up to the first comma at depth zero, and cutting begins again there. */
  lemma {:induction false} FirstPiece(text: string, depth: int)
    ensures var cut := Cut(text, depth);
      var n := |cut[0]|;
      && n <= |text| && text[..n] == cut[0] && Whole(cut[0], depth)
      && (|cut| == 1 ==> cut[0] == text)
      && (|cut| > 1 ==> Depth(cut[0], depth) == 0 && n < |text| && cut[1..] == Cut(text[n + 1..], 0))
  {
    if text != "" {
      var at := Step(depth, text[0]);
      var rest := Cut(text[1..], at);
      FirstPiece(text[1..], at);
      if !(text[0] == ',' && at == 0) {
        var n := |rest[0]|;
        assert Cut(text, depth) == Glue([text[0]], rest);
        assert ([text[0]] + rest[0])[1..] == rest[0];
        assert text[..n + 1] == [text[0]] + text[1..][..n];
        if |rest| > 1 { assert text[n + 2..] == text[1..][n + 1..]; }
      }
    }
  }

  /** Cutting undoes joining exactly when no piece has a comma at depth zero and every piece but
      the last ends at depth zero. */
  lemma {:induction false} CutRecoversExactlyWhen(pieces: seq<string>)
    requires pieces != []
    ensures Cut(Join(pieces), 0) == pieces <==> Separable(pieces)
  {
    hide Cut, Whole, Depth;
    if |pieces| == 1 {
      FirstPiece(pieces[0], 0);
      if Whole(pieces[0], 0) { CutAlone(pieces[0]); }
    } else {
      var first, rest := pieces[0], pieces[1..];
      CutRecoversExactlyWhen(rest);
      var text := Join(pieces);
      assert text == first + "," + Join(rest);
      if Whole(first, 0) && Depth(first, 0) == 0 {
        CutComma(first, Join(rest));
        assert ([first] + Cut(Join(rest), 0))[1..] == Cut(Join(rest), 0);
      }
      if Cut(text, 0) == pieces {
        FirstPiece(text, 0);
        assert text[|first| + 1..] == Join(rest);
      }
      SeparableParts(pieces);
    }
  }

  lemma SeparableParts(pieces: seq<string>)
    requires |pieces| > 1
    ensures Separable(pieces) <==> Whole(pieces[0], 0) && Depth(pieces[0], 0) == 0 && Separable(pieces[1..])
  {
    hide Whole, Depth;
    var rest := pieces[1..];
    if Separable(rest) && Whole(pieces[0], 0) && Depth(pieces[0], 0) == 0 {
      forall k | 0 <= k < |pieces| ensures Whole(pieces[k], 0) && (k < |pieces| - 1 ==> Depth(pieces[k], 0) == 0) {
        if k > 0 { assert pieces[k] == rest[k - 1]; }
      }
    }
    if Separable(pieces) {
      forall k | 0 <= k < |rest| ensures Whole(rest[k], 0) && (k < |rest| - 1 ==> Depth(rest[k], 0) == 0) {
        assert rest[k] == pieces[k + 1];
      }
    }
  }

  lemma CutAlone(text: string)
    requires Whole(text, 0)
    ensures Cut(text, 0) == [text]
  {
    CutWhole(text, "", 0);
    assert text + "" == text;
  }

  lemma CutComma(first: string, rest: string)
    requires Whole(first, 0) && Depth(first, 0) == 0
    ensures Cut(first + "," + rest, 0) == [first] + Cut(rest, 0)
  {
    CutWhole(first, "," + rest, 0);
    assert ("," + rest)[1..] == rest;
    assert first + ("," + rest) == first + "," + rest && first + "" == first;
  }

  lemma {:induction false} NestedIsWhole(text: string, depth: nat)
    requires Nested(text, depth)
    ensures Whole(text, depth) && Depth(text, depth) == 0
    decreases text
  {
    if text != "" { NestedIsWhole(text[1..], Step(depth, text[0])); }
  }

  /** Brackets that nest are enough. */
  lemma CutUndoesJoin(pieces: seq<string>)
    requires pieces != [] && AllNested(pieces)
    ensures Cut(Join(pieces), 0) == pieces
  {
    hide Nested, Whole, Depth;
    forall k | 0 <= k < |pieces| ensures Whole(pieces[k], 0) && Depth(pieces[k], 0) == 0 {
      NestedIsWhole(pieces[k], 0);
    }
    CutRecoversExactlyWhen(pieces);
  }

  lemma {:induction false} JoinedIsNested(pieces: seq<string>)
    requires AllNested(pieces)
    ensures Nested(Join(pieces) + ")", 1)
  {
    if pieces == [] {
      assert Join(pieces) + ")" == ")" && ")"[1..] == "";
    } else {
      assert Nested(pieces[0], 0);
      if |pieces| == 1 {
        NestedThen(pieces[0], ")", 0, 1);
        assert ")"[1..] == "";
      } else {
        JoinedIsNested(pieces[1..]);
        var rest := Join(pieces[1..]) + ")";
        assert Join(pieces) + ")" == pieces[0] + ("," + rest);
        NestedThen(pieces[0], "," + rest, 0, 1);
        assert ("," + rest)[1..] == rest;
      }
    }
  }

  // ----- printed trees -----

  lemma BlankIsNested(text: string)
    requires Blank(text)
    ensures Nested(text, 0)
  {
    QuietIsNested(text);
  }

  lemma PaddedIsNested(before: string, text: string, after: string)
    requires Blank(before) && Nested(text, 0) && Blank(after)
    ensures Nested(before + text + after, 0)
  {
    hide Nested, Blank;
    BlankIsNested(before);
    BlankIsNested(after);
    assert before + text + after == before + (text + after);
    NestedThen(before, text + after, 0, 0);
    NestedThen(text, after, 0, 0);
  }

  lemma CallIsNested(head: Head, gap: string, pieces: seq<string>)
    requires Blank(gap) && AllNested(pieces)
    ensures Nested(Opening(head, gap) + Join(pieces) + ")", 0)
  {
    hide AllNested, Join;
    JoinedIsNested(pieces);
    var rest := "(" + (Join(pieces) + ")");
    assert rest[1..] == Join(pieces) + ")";
    QuietIsNested(Word(head) + gap);
    NestedThen(Word(head) + gap, rest, 0, 0);
    assert Word(head) + gap + rest == Opening(head, gap) + Join(pieces) + ")";
  }

  /** With a gap the text is none of the calls, and no atom that is known. */
  lemma SpacedIsUnknown(head: Head, gap: string, inner: string, platform: string)
    requires Blank(gap) && gap != ""
    ensures var text := Opening(head, gap) + inner + ")";
      Edged(text) && (forall h :: !Calls(text, h)) && AtomAnswer(text, platform) == Unknown
  {
    var text := Opening(head, gap) + inner + ")";
    assert text[3] == gap[0] && Space(gap[0]);
    assert text[|text| - 1] == ')';
    assert forall h :: |Word(h)| == 3;
    assert TargetOs(text) == None by {
      if TargetOs(text).Some? { var _, _ := TargetOsFinds(text); }
    }
  }

  lemma OpeningIsPlain(head: Head)
    ensures Opening(head, "") == Word(head) + "("
  {
  }

  /** What a call's text tells: its head, no other, and what is between its brackets. */
  lemma CallIsRead(head: Head, inner: string)
    ensures var text := Word(head) + "(" + inner + ")";
      && Edged(text) && |text| >= 5 && Inner(text) == inner
      && (forall h :: Calls(text, h) <==> h == head)
  {
    var text := Word(head) + "(" + inner + ")";
    assert text[..4] == Word(head) + "(";
    assert forall h :: |Word(h)| == 3;
    assert Calls(text, head);
    forall h ensures Calls(text, h) <==> h == head {
      if Calls(text, h) { assert text[0] == Word(h)[0] && text[1] == Word(h)[1]; }
    }
  }

  lemma {:induction false} PrintIsNested(p: Pred)
    requires Formed(p)
    ensures Nested(Print(p), 0) && Edged(Print(p))
    decreases p, 0
  {
    hide Nested, Blank, Edged, Join, Padded, AllNested, Word, Show, Calls, Inner, Opening, AtomAnswer;
    match p
    case Leaf(atom) =>
    case Call(head, gap, args, end) =>
      PaddedAreNested(args, end);
      CallIsNested(head, gap, Padded(args) + Ending(end));
      if gap == "" {
        OpeningIsPlain(head);
        CallIsRead(head, Join(Padded(args) + Ending(end)));
      } else {
        SpacedIsUnknown(head, gap, Join(Padded(args) + Ending(end)), "");
      }
  }

  lemma {:induction false} PaddedAreNested(args: seq<Arg>, end: End)
    requires AllFormed(args) && (end.Trailing? ==> Blank(end.blank))
    ensures AllNested(Padded(args) + Ending(end))
    decreases args, 1
  {
    hide Nested, Blank, Edged, Print, Formed;
    if args == [] {
      if end.Trailing? { BlankIsNested(end.blank); }
    } else {
      var a := args[0];
      assert a in args;
      PrintIsNested(a.pred);
      PaddedIsNested(a.before, Print(a.pred), a.after);
      PaddedAreNested(args[1..], end);
      assert Padded(args) + Ending(end) == [a.before + Print(a.pred) + a.after] + (Padded(args[1..]) + Ending(end));
    }
  }

  lemma {:induction false} StripPadded(args: seq<Arg>)
    requires AllFormed(args)
    ensures StripAll(Padded(args)) == Texts(args)
    ensures |Padded(args)| == |args|
  {
    hide Strip, Print, Blank, Formed, Edged;
    if args != [] {
      var a := args[0];
      assert a in args;
      PrintIsNested(a.pred);
      StripDrops(a.before, Print(a.pred), a.after);
      StripPadded(args[1..]);
    }
  }

  lemma LastIsNotBlank(args: seq<Arg>)
    requires AllFormed(args) && args != []
    ensures Padded(args) != [] && !Blank(Padded(args)[|Padded(args)| - 1])
  {
    if |args| == 1 {
      var a := args[0];
      assert a in args;
      PrintIsNested(a.pred);
      var text := Print(a.pred);
      assert (a.before + text + a.after)[|a.before|] == text[0];
    } else {
      LastIsNotBlank(args[1..]);
    }
  }

  /** The printed arguments are recovered, whatever their nesting and spacing, with a trailing
      comma or without. */
  lemma SplitRecoversArguments(args: seq<Arg>, end: End)
    requires AllFormed(args) && (end.Trailing? ==> Blank(end.blank))
    ensures Split(Join(Padded(args) + Ending(end))) == Texts(args)
  {
    hide Cut, Join, StripAll, Padded, Texts, AllFormed, AllNested, Blank;
    var pieces := Padded(args) + Ending(end);
    StripPadded(args);
    PaddedAreNested(args, end);
    if pieces == [] {
      NothingToSplit();
    } else {
      CutUndoesJoin(pieces);
      if end.Trailing? {
        assert pieces[..|pieces| - 1] == Padded(args);
      } else {
        assert pieces == Padded(args);
        LastIsNotBlank(args);
      }
    }
  }

  lemma NothingToSplit()
    ensures Split(Join([])) == [] && Texts([]) == []
  {
    assert Cut("", 0) == [""];
  }

  // ----- reading a printed tree -----

  ghost function Meanings(args: seq<Arg>, platform: string): (answers: seq<Answer>)
    ensures |answers| == |args|
    ensures forall k | 0 <= k < |args| :: answers[k] == Meaning(args[k].pred, platform)
  {
    if args == [] then [] else [Meaning(args[0].pred, platform)] + Meanings(args[1..], platform)
  }

  lemma CombineMeans(head: Head, args: seq<Arg>, end: End, platform: string)
    ensures Combine(head, Meanings(args, platform)) == Meaning(Call(head, "", args, end), platform)
  {
    var answers := Meanings(args, platform);
    hide Meanings, InVocabulary, AtomHolds, Show;
    assert forall k | 0 <= k < |args| :: args[k] in args && answers[k] in answers;
    assert Fails in answers <==> exists a | a in args :: !Filled(a.pred);
    if Fails !in answers {
      assert Unknown in answers <==> exists a | a in args :: !Known(a.pred);
      if Unknown !in answers {
        assert forall k | 0 <= k < |args| :: answers[k] == Says(Holds(args[k].pred, platform));
      }
    }
  }

  lemma {:induction false} ArgumentsAreRead(args: seq<Arg>, platform: string, size: nat)
    requires AllFormed(args)
    requires forall k | 0 <= k < |args| :: |Texts(args)[k]| < size
    ensures Answers(Texts(args), platform, size) == Meanings(args, platform)
    decreases args, 1
  {
    hide Admits, Meaning, Print, Blank, Formed;
    if args != [] {
      assert args[0] in args;
      PrintIsRead(args[0].pred, platform);
      var texts := Texts(args);
      assert texts[1..] == Texts(args[1..]);
      assert forall k | 0 <= k < |args| - 1 :: Texts(args[1..])[k] == texts[k + 1];
      ArgumentsAreRead(args[1..], platform, size);
    }
  }

  lemma AdmitsCall(text: string, head: Head, platform: string)
    requires Edged(text) && |text| >= 5 && forall h :: Calls(text, h) <==> h == head
    ensures Admits(text, platform) == Combine(head, Answers(Split(Inner(text)), platform, |text|))
  {
    hide Calls, Inner, Combine, Answers, Split, Edged;
    assert "" + text + "" == text;
    StripDrops("", text, "");
  }

  lemma AdmitsAtom(text: string, platform: string)
    requires Edged(text) && forall h :: !Calls(text, h)
    ensures Admits(text, platform) == AtomAnswer(text, platform)
  {
    hide Calls, Edged, AtomAnswer;
    assert "" + text + "" == text;
    StripDrops("", text, "");
  }

  /** The reader says of a printed predicate what the tree means: nothing when some atom is
      outside the vocabulary or some head has a gap behind it, and otherwise its Boolean value on
      the platform.  It fails exactly when some `not` that is read has no argument. */
  lemma {:induction false} PrintIsRead(p: Pred, platform: string)
    requires Formed(p)
    ensures Admits(Print(p), platform) == Meaning(p, platform)
    decreases p, 0
  {
    hide Admits, Answers, Combine, Split, Nested, Blank, Edged, Join, Padded, Word, Show, Calls, Inner,
         AtomAnswer, AtomHolds, InVocabulary, Opening;
    match p
    case Leaf(atom) =>
      AdmitsAtom(Show(atom), platform);
      AtomIsRead(Show(atom), platform);
    case Call(head, gap, args, end) =>
      var inner, text := Join(Padded(args) + Ending(end)), Print(p);
      if gap != "" {
        SpacedIsUnknown(head, gap, inner, platform);
        AdmitsAtom(text, platform);
        return;
      }
      OpeningIsPlain(head);
      CallIsRead(head, inner);
      AdmitsCall(text, head, platform);
      SplitRecoversArguments(args, end);
      ArgumentsAreRead(args, platform, |text|);
      CombineMeans(head, args, end, platform);
  }

  /** The same for every tree with spaces around it. */
  lemma ReadsWhatIsMeant(before: string, p: Pred, after: string, platform: string)
    requires Blank(before) && Formed(p) && Blank(after)
    ensures Admits(before + Print(p) + after, platform) == Meaning(p, platform)
  {
    hide *;
    PrintIsNested(p);
    StripDrops(before, Print(p), after);
    StripDrops("", Print(p), "");
    BlankNothing();
    assert "" + Print(p) + "" == Print(p);
    AdmitsStripped(before + Print(p) + after, Print(p), platform);
    PrintIsRead(p, platform);
  }

  lemma BlankNothing()
    ensures Blank("")
  {
  }

  lemma AdmitsStripped(a: string, b: string, platform: string)
    requires Strip(a) == Strip(b)
    ensures Admits(a, platform) == Admits(b, platform)
  {
    hide Strip, Calls, Inner, Split, Answers, Combine, AtomAnswer;
  }

  // ----- strings -----

  const CUT_STRING: string := "feature=\",not(),\""

  lemma CutStringJoins(pieces: seq<string>)
    requires pieces == ["feature=\"", "not()", "\""]
    ensures AllNested(pieces) && Join(pieces) == CUT_STRING
  {
    hide Nested;
    QuietIsNested("feature=\"");
    QuietIsNested("\"");
    assert Nested("not()", 0) by {
      CallIsNested(Not, "", []);
      assert Opening(Not, "") + Join([]) + ")" == "not()";
    }
    assert pieces[1..] == ["not()", "\""] && pieces[1..][1..] == ["\""];
    assert Join(["\""]) == "\"";
    assert Join(["not()", "\""]) == "not()" + "," + "\"" by { assert ["not()", "\""][1..] == ["\""]; }
    assert Join(pieces) == pieces[0] + "," + Join(pieces[1..]);
  }

  lemma CutStringStrips(pieces: seq<string>)
    requires pieces == ["feature=\"", "not()", "\""]
    ensures StripAll(pieces) == pieces && !Blank(pieces[2])
  {
    hide StripLeft, StripRight, Strip, Blank, Edged;
    forall k | 0 <= k < 3 ensures Strip(pieces[k]) == pieces[k] {
      assert "" + pieces[k] + "" == pieces[k];
      BlankNothing();
      assert Edged(pieces[k]) by { Visible(); }
      StripDrops("", pieces[k], "");
    }
    assert !Blank(pieces[2]) by { Visible(); }
    assert StripAll(pieces) == pieces;
  }

  lemma Visible()
    ensures Edged("feature=\"") && Edged("not()") && Edged("\"") && !Blank("\"")
  {
    assert !Space("\""[0]);
  }

  lemma CutStringIsCut()
    ensures Split(CUT_STRING) == ["feature=\"", "not()", "\""]
  {
    hide Cut, Join, StripAll, Blank, AllNested;
    var pieces := ["feature=\"", "not()", "\""];
    CutStringJoins(pieces);
    CutUndoesJoin(pieces);
    CutStringStrips(pieces);
  }

  /** Strings are cut and counted like everything else, so an atom must be free of loose commas
      and brackets: with `feature=",not(),"` inside `any`, the reader fails on a `not` that no
      tree has. */
  lemma StringsAreNotSkipped(platform: string)
    ensures var p := Call(Any, "", [Arg("", Leaf(Pair("feature", "", "", ",not(),")), "")], Plain);
      Filled(p) && Admits(Print(p), platform) == Fails
  {
    hide Split, Inner, Calls, Edged, Strip, Cut, Join;
    var atom := Pair("feature", "", "", ",not(),");
    var p := Call(Any, "", [Arg("", Leaf(atom), "")], Plain);
    ShownCut(p);
    CallIsRead(Any, CUT_STRING);
    AdmitsCall(Print(p), Any, platform);
    CutStringIsCut();
    var pieces, size := ["feature=\"", "not()", "\""], |Print(p)|;
    assert pieces[1..] == ["not()", "\""] && pieces[1..][1..] == ["\""];
    EmptyNotFails(platform);
    var tail := Answers(["not()", "\""], platform, size);
    assert tail[0] == Fails;
    assert Answers(pieces, platform, size)[1] == tail[0];
  }

  lemma ShownCut(p: Pred)
    requires p == Call(Any, "", [Arg("", Leaf(Pair("feature", "", "", ",not(),")), "")], Plain)
    ensures Filled(p) && Print(p) == "any" + "(" + CUT_STRING + ")"
  {
    var a := p.args[0];
    assert Show(a.pred.atom) == CUT_STRING;
    assert "" + CUT_STRING + "" == CUT_STRING;
    assert p.args[1..] == [];
    assert Padded(p.args) == [CUT_STRING] + Padded(p.args[1..]);
    assert Padded(p.args) + Ending(Plain) == [CUT_STRING];
  }

  lemma EmptyNotFails(platform: string)
    ensures Admits("not()", platform) == Fails
  {
    hide Split, Inner, Calls, Edged, Cut, Join;
    CallIsRead(Not, "");
    assert "not" + "(" + "" + ")" == "not()";
    AdmitsCall("not()", Not, platform);
    NothingToSplit();
    assert Join([]) == "" by { JoinNothing(); }
  }

  lemma JoinNothing()
    ensures Join([]) == ""
  {
  }
}
