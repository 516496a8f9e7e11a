/** The lint on negated platforms (`balanced`, `platforms_in`, `calls` and the test in
    `arm_problems`, `scripts/check_platform_arms.py`).

    The lint looks at the text of a cfg predicate only.  What it is for is a fact about
    platforms: where nothing negates a platform, a predicate that holds on a platform it does
    not name holds on all of them.  Predicates are the trees of `Cfg`, printed. */
module PlatformArms {
  import opened Cfg
  import Comments

  // ----- texts -----

  /** `\w`, on the characters of ASCII. */
  predicate WordChar(c: char) {
    'a' <= c <= 'z' || 'A' <= c <= 'Z' || '0' <= c <= '9' || c == '_'
  }

  predicate Letters(text: string) {
    text != "" && forall k | 0 <= k < |text| :: WordChar(text[k])
  }

  predicate At(text: string, k: nat, part: string) {
    k + |part| <= |text| && text[k..k + |part|] == part
  }

  /** No word character ends at `k`, none begins at `k`. */
  predicate LeftEdge(text: string, k: nat) {
    k == 0 || k > |text| || !WordChar(text[k - 1])
  }

  predicate RightEdge(text: string, k: nat) {
    k >= |text| || !WordChar(text[k])
  }

  lemma AtBoth(text: string, k: nat, a: string, b: string)
    requires At(text, k, a + b)
    ensures At(text, k, a) && At(text, k + |a|, b)
  {
    assert text[k..k + |a + b|][..|a|] == a;
    assert text[k..k + |a + b|][|a|..] == b;
  }

  lemma AtHere(x: string, part: string, y: string)
    ensures At(x + part + y, |x|, part)
  {
    assert (x + part + y)[|x|..|x| + |part|] == part;
  }

  // ----- `balanced` -----

  function Balanced(text: string, i: nat, depth: nat): (end: nat)
    ensures i <= end
    decreases |text| - i
  {
    if i >= |text| || depth == 0 then i
    else if text[i] == '"' then Balanced(text, Comments.StringEnd(text, i + 1) + 1, depth)
    else if text[i] == '(' then Balanced(text, i + 1, depth + 1)
    else if text[i] == ')' then Balanced(text, i + 1, depth - 1)
    else Balanced(text, i + 1, depth)
  }

  /** `balanced`. */
  method FindBalanced(text: string, start: nat) returns (end: nat)
    ensures end == Balanced(text, start, 1)
  {
    var depth := 1;
    end := start;
    while end < |text| && depth != 0
      invariant depth >= 0 && Balanced(text, end, depth) == Balanced(text, start, 1)
      decreases |text| - end
    {
      if text[end] == '"' {
        end := Comments.LiteralEnd(text, end + 1);
      } else if text[end] == '(' {
        depth := depth + 1;
      } else if text[end] == ')' {
        depth := depth - 1;
      }
      end := end + 1;
    }
  }

  // ----- `calls` -----

  function Clip(text: string, from: nat, to: int): string {
    if from <= to <= |text| then text[from..to] else if from <= |text| < to then text[from..] else ""
  }

  /** A match of `\bname\(` at `k`, for a name of word characters. */
  predicate CallAt(text: string, k: nat, name: string) {
    At(text, k, name + "(") && LeftEdge(text, k)
  }

  function Argument(text: string, from: nat): string {
    Clip(text, from, Balanced(text, from, 1) - 1)
  }

  /** The argument text of every match from `k` on; the search goes on after the bracket. */
  function CallsFrom(text: string, name: string, k: nat): seq<string>
    decreases |text| - k
  {
    if k >= |text| then []
    else if CallAt(text, k, name) then
      [Argument(text, k + |name| + 1)] + CallsFrom(text, name, k + |name| + 1)
    else CallsFrom(text, name, k + 1)
  }

  /** `calls`. */
  function CallsOf(text: string, name: string): seq<string> {
    CallsFrom(text, name, 0)
  }

  /** Matches of `not(` do not overlap, so each of them is found. */
  lemma {:induction false} EveryNotIsFound(text: string, from: nat, k: nat)
    requires from <= k && CallAt(text, k, "not")
    ensures Argument(text, k + 4) in CallsFrom(text, "not", from)
    decreases k - from
  {
    hide Argument;
    var name := "not" + "(";
    assert text[k..k + 4] == name;
    if from < k {
      if CallAt(text, from, "not") {
        assert text[from..from + 4] == name;
        assert from + 4 <= k;
        EveryNotIsFound(text, from + 4, k);
      } else {
        EveryNotIsFound(text, from + 1, k);
      }
    }
  }

  lemma CallAtIs(text: string, k: nat)
    requires CallAt(text, k, "not")
    ensures k + 4 <= |text| && text[k..k + 4] == "not(" && (k > 0 ==> !WordChar(text[k - 1]))
  {
    assert "not" + "(" == "not(";
  }

  lemma {:induction false} EveryCallIsAMatch(text: string, from: nat, arg: string) returns (k: nat)
    requires arg in CallsFrom(text, "not", from)
    ensures from <= k && CallAt(text, k, "not") && arg == Argument(text, k + 4)
    ensures k + 4 <= |text| && text[k..k + 4] == "not(" && (k > 0 ==> !WordChar(text[k - 1]))
    decreases |text| - from
  {
    hide Argument, CallAt, WordChar;
    if CallAt(text, from, "not") {
      if arg == Argument(text, from + 4) {
        k := from;
        CallAtIs(text, k);
      } else {
        k := EveryCallIsAMatch(text, from + 4, arg);
      }
    } else {
      k := EveryCallIsAMatch(text, from + 1, arg);
    }
  }

  // ----- `platforms_in` -----

  /** Where the blanks, or the word characters, from `k` on end. */
  function Spaces(text: string, k: nat): (end: nat)
    ensures k <= end
    decreases |text| - k
  {
    if k < |text| && Space(text[k]) then Spaces(text, k + 1) else k
  }

  function WordEnd(text: string, k: nat): (end: nat)
    ensures k <= end && (k <= |text| ==> end <= |text|)
    decreases |text| - k
  {
    if k < |text| && WordChar(text[k]) then WordEnd(text, k + 1) else k
  }

  /** A match of `key\s*=\s*"(\w+)"`: its group and where it ends. */
  datatype Match = Match(value: string, end: nat)

  /** The match at `k`. */
  function ValueAt(text: string, k: nat, key: string): (m: Option<Match>)
    ensures m.Some? ==> k < m.value.end <= |text|
  {
    if !At(text, k, key) then None
    else
      var sign := Spaces(text, k + |key|);
      if sign >= |text| || text[sign] != '=' then None
      else
        var quote := Spaces(text, sign + 1);
        if quote >= |text| || text[quote] != '"' then None
        else
          var close := WordEnd(text, quote + 1);
          if close == quote + 1 || close >= |text| || text[close] != '"' then None
          else Some(Match(text[quote + 1..close], close + 1))
  }

  /** `re.findall` for `target_os`, from `k` on: the search goes on where a match ends. */
  function Targets(text: string, k: nat): set<string>
    decreases |text| - k
  {
    if k >= |text| then {}
    else
      match ValueAt(text, k, OS)
      case Some(m) => {m.value} + Targets(text, m.end)
      case None => Targets(text, k + 1)
  }

  /** A search for `target_family\s*=\s*"name"`. */
  predicate Family(text: string, name: string) {
    exists k | 0 <= k < |text| :: ValueAt(text, k, FAMILY).Some? && ValueAt(text, k, FAMILY).value.value == name
  }

  /** `re.sub(r'"[^"]*"', '""', text)`. */
  function Emptied(text: string): string {
    if text == "" then ""
    else if text[0] == '"' && QuoteAfter(text, 1) < |text| then "\"\"" + Emptied(text[QuoteAfter(text, 1) + 1..])
    else [text[0]] + Emptied(text[1..])
  }

  function QuoteAfter(text: string, k: nat): (q: nat)
    ensures k <= q && (k <= |text| ==> q <= |text|) && (q < |text| ==> text[q] == '"')
    decreases |text| - k
  {
    if k < |text| && text[k] != '"' then QuoteAfter(text, k + 1) else k
  }

  /** A search for `\bname\b`. */
  predicate Mentions(text: string, name: string) {
    exists k | 0 <= k < |text| :: At(text, k, name) && LeftEdge(text, k) && RightEdge(text, k + |name|)
  }

  const FAMILY: string := "target_family"

  /** `platforms_in`. */
  function PlatformsIn(text: string): set<string> {
    Targets(text, 0)
    + (if Mentions(Emptied(text), "windows") || Family(text, "windows") then {"windows"} else {})
    + (if Mentions(Emptied(text), "unix") || Family(text, "unix") then {"macos", "linux"} else {})
  }

  lemma SpacesAreSpaces(text: string, k: nat, x: nat)
    requires k <= x < Spaces(text, k)
    ensures x < |text| && Space(text[x])
    decreases |text| - k
  {
    if k < x { SpacesAreSpaces(text, k + 1, x); }
  }

  lemma WordIsLetters(text: string, k: nat, x: nat)
    requires k <= x < WordEnd(text, k)
    ensures x < |text| && WordChar(text[x])
    decreases |text| - k
  {
    if k < x { WordIsLetters(text, k + 1, x); }
  }

  lemma TargetShifted(text: string, j: nat, k: nat)
    requires At(text, j, OS) && At(text, k, OS) && j < k
    ensures j + 9 <= k
  {
    Spelled(text, j);
    Spelled(text, k);
  }

  lemma Spelled(text: string, k: nat)
    requires At(text, k, OS)
    ensures text[k] == 't' && text[k + 1] == 'a' && text[k + 2] == 'r' && text[k + 3] == 'g' && text[k + 4] == 'e'
    ensures text[k + 5] == 't' && text[k + 6] == '_' && text[k + 7] == 'o' && text[k + 8] == 's'
  {
    var part := text[k..k + 9];
    assert part[0] == text[k] && part[1] == text[k + 1] && part[2] == text[k + 2] && part[3] == text[k + 3];
    assert part[4] == text[k + 4] && part[5] == text[k + 5] && part[6] == text[k + 6] && part[7] == text[k + 7];
    assert part[8] == text[k + 8];
  }

  lemma NoTargetInside(text: string, close: nat, k: nat)
    requires k < close < |text| && text[close] == '"'
    requires forall x | k <= x < close :: WordChar(text[x])
    ensures ValueAt(text, k, OS) == None
  {
    if At(text, k, OS) {
      Spelled(text, k);
      assert k + 9 <= close;
      assert !Space(text[k + 9]);
    }
  }

  /** What a match is made of. */
  lemma ValueShape(text: string, k: nat, key: string) returns (left: string, right: string)
    requires ValueAt(text, k, key).Some?
    ensures Blank(left) && Blank(right) && Letters(ValueAt(text, k, key).value.value)
    ensures At(text, k, Show(Pair(key, left, right, ValueAt(text, k, key).value.value)))
  {
    hide At, Space, Spaces, WordEnd, WordChar;
    var sign := Spaces(text, k + |key|);
    var quote := Spaces(text, sign + 1);
    var close := WordEnd(text, quote + 1);
    left, right := text[k + |key|..sign], text[sign + 1..quote];
    var value := text[quote + 1..close];
    forall x | k + |key| <= x < quote && x != sign ensures Space(text[x]) {
      SpacesAreSpaces(text, if x < sign then k + |key| else sign + 1, x);
    }
    forall x | quote < x < close ensures WordChar(text[x]) {
      WordIsLetters(text, quote + 1, x);
    }
    PartsAt(text, k, key, sign, quote, close);
  }

  lemma PartsAt(text: string, k: nat, key: string, sign: nat, quote: nat, close: nat)
    requires At(text, k, key) && k + |key| <= sign < quote < close < |text|
    requires text[sign] == '=' && text[quote] == '"' && text[close] == '"'
    ensures At(text, k, Show(Pair(key, text[k + |key|..sign], text[sign + 1..quote], text[quote + 1..close])))
  {
    var left, right, value := text[k + |key|..sign], text[sign + 1..quote], text[quote + 1..close];
    assert text[k..close + 1] == key + left + "=" + right + "\"" + value + "\"";
  }

  lemma TargetShape(text: string, j: nat) returns (sign: nat, quote: nat, close: nat)
    requires ValueAt(text, j, OS).Some?
    ensures At(text, j, OS) && j + 9 <= sign < quote < close < |text| && ValueAt(text, j, OS).value.end == close + 1
    ensures text[sign] == '=' && text[quote] == '"' && text[close] == '"'
    ensures forall x | j + 9 <= x < quote :: x == sign || Space(text[x])
    ensures forall x | quote < x < close :: WordChar(text[x])
  {
    hide Space, Spaces, WordEnd, WordChar;
    sign := Spaces(text, j + 9);
    quote := Spaces(text, sign + 1);
    close := WordEnd(text, quote + 1);
    forall x | j + 9 <= x < quote && x != sign ensures Space(text[x]) {
      SpacesAreSpaces(text, if x < sign then j + 9 else sign + 1, x);
    }
    forall x | quote < x < close ensures WordChar(text[x]) {
      WordIsLetters(text, quote + 1, x);
    }
  }

  /** Matches of `target_os` do not overlap. */
  lemma TargetsApart(text: string, j: nat, k: nat)
    requires ValueAt(text, j, OS).Some? && ValueAt(text, k, OS).Some? && j < k
    ensures ValueAt(text, j, OS).value.end <= k
  {
    hide ValueAt, Space, WordChar, At;
    var sign, quote, close := TargetShape(text, j);
    var _, _, _ := TargetShape(text, k);
    TargetShifted(text, j, k);
    Spelled(text, k);
    NotASpace();
    if quote < k < close { NoTargetInside(text, close, k); }
  }

  lemma NotASpace()
    ensures !Space('t')
  {
  }

  lemma {:induction false} EveryTargetIsFound(text: string, from: nat, k: nat)
    requires from <= k < |text| && ValueAt(text, k, OS).Some?
    ensures ValueAt(text, k, OS).value.value in Targets(text, from)
    decreases |text| - from
  {
    hide ValueAt;
    if from < k {
      match ValueAt(text, from, OS)
      case Some(m) =>
        TargetsApart(text, from, k);
        EveryTargetIsFound(text, m.end, k);
      case None => EveryTargetIsFound(text, from + 1, k);
    }
  }

  /** The negated arguments that name a platform. */
  function Naming(args: seq<string>): seq<string> {
    if args == [] then []
    else (if PlatformsIn(args[0]) != {} then [args[0]] else []) + Naming(args[1..])
  }

  /** `negated` in `arm_problems`. */
  function Negated(text: string): seq<string> {
    Naming(CallsOf(text, "not"))
  }

  lemma {:induction false} NamingIsEmpty(args: seq<string>)
    ensures Naming(args) == [] <==> forall arg | arg in args :: PlatformsIn(arg) == {}
  {
    hide PlatformsIn;
    if args != [] { NamingIsEmpty(args[1..]); }
  }

  // ----- what the lint is for -----

  /** The platforms an atom stands for; none for an atom that is about something else. */
  function Platforms(atom: Atom): set<string> {
    match atom
    case Bare(name) => Standing(name)
    case Pair(key, _, _, value) =>
      if key == "target_os" && Letters(value) then {value}
      else if key == "target_family" then Standing(value) else {}
    case Odd(_) => {}
  }

  function Standing(name: string): set<string> {
    if name == "windows" then {"windows"} else if name == "unix" then {"macos", "linux"} else {}
  }

  /** Whether a predicate holds on a platform, given the truth of the other atoms. */
  ghost predicate On(p: Pred, platform: string, others: Atom -> bool) {
    match p
    case Leaf(atom) => if Platforms(atom) != {} then platform in Platforms(atom) else others(atom)
    case Call(head, _, args, _) =>
      match head
      case Not => forall a | a in args :: !On(a.pred, platform, others)
      case Any => exists a | a in args :: On(a.pred, platform, others)
      case All => forall a | a in args :: On(a.pred, platform, others)
  }

  ghost predicate Named(p: Pred, platform: string) {
    match p
    case Leaf(atom) => platform in Platforms(atom)
    case Call(_, _, args, _) => exists a | a in args :: Named(a.pred, platform)
  }

  ghost predicate NothingNegated(p: Pred) {
    match p
    case Leaf(_) => true
    case Call(head, _, args, _) =>
      && (forall a | a in args :: NothingNegated(a.pred))
      && (head == Not ==> forall a, q | a in args :: !Named(a.pred, q))
  }

  /** A predicate that names no platform does not tell platforms apart. */
  lemma {:induction false} UnnamedIsConstant(p: Pred, here: string, there: string, others: Atom -> bool)
    requires forall q :: !Named(p, q)
    ensures On(p, here, others) == On(p, there, others)
  {
    match p
    case Leaf(atom) =>
      if Platforms(atom) != {} {
        var q :| q in Platforms(atom);
        assert Named(p, q);
      }
    case Call(head, _, args, _) =>
      forall a | a in args ensures On(a.pred, here, others) == On(a.pred, there, others) {
        assert forall q :: Named(a.pred, q) ==> Named(p, q);
        UnnamedIsConstant(a.pred, here, there, others);
      }
  }

  /** With nothing negated, a predicate that holds where it names nothing holds everywhere. */
  lemma {:induction false} HoldsElsewhere(p: Pred, here: string, there: string, others: Atom -> bool)
    requires NothingNegated(p) && !Named(p, here)
    requires On(p, here, others)
    ensures On(p, there, others)
  {
    match p
    case Leaf(atom) =>
    case Call(head, _, args, _) =>
      forall a | a in args && On(a.pred, here, others) ensures On(a.pred, there, others) {
        assert !Named(a.pred, here);
        HoldsElsewhere(a.pred, here, there, others);
      }
      if head == Not {
        forall a | a in args ensures !On(a.pred, there, others) {
          UnnamedIsConstant(a.pred, here, there, others);
        }
      }
  }
}
