/** What the comment strippers of `Comments` remove, for every source put together from code,
    literals and comments. */
module CommentsGrammar {
  import opened Comments

  datatype Unit = Char(c: char) | Escape(c: char)

  /** One character of code, a string literal, or a comment; a line comment has its newline. */
  datatype Part = Plain(c: char) | Literal(body: seq<Unit>) | Line(text: string) | Block(text: string)

  function Letters(body: seq<Unit>): string {
    if body == [] then ""
    else if body[0].Char? then [body[0].c] + Letters(body[1..])
    else ['\\', body[0].c] + Letters(body[1..])
  }

  function Shown(part: Part): string {
    match part
    case Plain(c) => [c]
    case Literal(body) => "\"" + (Letters(body) + "\"")
    case Line(text) => "//" + (text + "\n")
    case Block(text) => "/*" + (text + "*/")
  }

  function ShownAll(parts: seq<Part>): string {
    if parts == [] then "" else Shown(parts[0]) + ShownAll(parts[1..])
  }

  predicate Formed(part: Part) {
    match part
    case Plain(c) => c != '"'
    case Literal(body) => forall u | u in body && u.Char? :: u.c != '"' && u.c != '\\'
    case Line(text) => '\n' !in text
    case Block(text) => forall k | 0 <= k < |text| :: !((text + "*/")[k] == '*' && (text + "*/")[k + 1] == '/')
  }

  /** A slash of code is not followed by what would make it a comment. */
  predicate Apart(part: Part, rest: string) {
    part == Plain('/') && rest != "" ==> rest[0] != '/' && rest[0] != '*'
  }

  predicate AllFormed(parts: seq<Part>) {
    parts == [] || (Formed(parts[0]) && Apart(parts[0], ShownAll(parts[1..])) && AllFormed(parts[1..]))
  }

  /** The characters of comments, but for their newlines. */
  function Wanted(part: Part): seq<bool> {
    match part
    case Plain(_) => [false]
    case Literal(_) => seq(|Shown(part)|, _ => false)
    case Line(text) => seq(|text| + 2, _ => true) + [false]
    case Block(_) => seq(|Shown(part)|, k requires 0 <= k < |Shown(part)| => Shown(part)[k] != '\n')
  }

  function WantedAll(parts: seq<Part>): seq<bool> {
    if parts == [] then [] else Wanted(parts[0]) + WantedAll(parts[1..])
  }

  // ----- where a part ends -----

  predicate Reads(source: string, k: nat, text: string) {
    k + |text| <= |source| && source[k..k + |text|] == text
  }

  lemma ReadsBoth(source: string, k: nat, a: string, b: string)
    requires Reads(source, k, a + b)
    ensures Reads(source, k, a) && Reads(source, k + |a|, b)
  {
    assert source[k..k + |a + b|][..|a|] == a;
    assert source[k..k + |a + b|][|a|..] == b;
  }

  lemma ReadsAt(source: string, k: nat, text: string, j: nat)
    requires Reads(source, k, text) && j < |text|
    ensures k + |text| <= |source| && source[k + j] == text[j]
  {
    assert source[k..k + |text|][j] == source[k + j];
  }

  lemma {:induction false} LiteralStops(source: string, k: nat, body: seq<Unit>)
    requires Formed(Literal(body)) && Reads(source, k, Letters(body) + "\"")
    ensures StringEnd(source, k) == k + |Letters(body)|
    decreases |body|
  {
    hide Reads, Letters;
    var whole := Letters(body) + "\"";
    LettersBegin(body);
    ReadsAt(source, k, whole, 0);
    if body != [] {
      var u, rest := body[0], Letters(body[1..]) + "\"";
      assert u in body;
      ReadsBoth(source, k, if u.Char? then [u.c] else ['\\', u.c], rest);
      LiteralStops(source, if u.Char? then k + 1 else k + 2, body[1..]);
    }
  }

  lemma LettersBegin(body: seq<Unit>)
    ensures body == [] ==> Letters(body) == ""
    ensures body != [] ==>
      var begin := if body[0].Char? then [body[0].c] else ['\\', body[0].c];
      && Letters(body) + "\"" == begin + (Letters(body[1..]) + "\"")
      && |Letters(body)| == |begin| + |Letters(body[1..])|
  {
  }

  lemma LineStops(source: string, k: nat, text: string)
    requires '\n' !in text && Reads(source, k, "//" + (text + "\n"))
    ensures k <= |source| && LineEnd(source, k) == k + 2 + |text|
  {
    hide Reads;
    var whole := "//" + (text + "\n");
    ReadsAt(source, k, whole, |text| + 2);
    forall x | k <= x < k + |text| + 2 ensures source[x] != '\n' {
      ReadsAt(source, k, whole, x - k);
      if x >= k + 2 { assert whole[x - k] == text[x - k - 2]; }
    }
  }

  lemma {:induction false} BlockStops(source: string, k: nat, text: string)
    requires Formed(Block(text)) && Reads(source, k, text + "*/")
    ensures BlockEnd(source, k) == k + |text| + 2
    decreases |text|
  {
    hide Reads;
    var whole := text + "*/";
    ReadsAt(source, k, whole, 0);
    ReadsAt(source, k, whole, 1);
    if text != "" {
      var rest := text[1..];
      assert whole == [text[0]] + (rest + "*/");
      ReadsBoth(source, k, [text[0]], rest + "*/");
      assert !(whole[0] == '*' && whole[1] == '/');
      forall j | 0 <= j < |rest| ensures !((rest + "*/")[j] == '*' && (rest + "*/")[j + 1] == '/') {
        assert (rest + "*/")[j] == whole[j + 1] && (rest + "*/")[j + 1] == whole[j + 2];
      }
      BlockStops(source, k + 1, rest);
    }
  }

  predicate Closes(text: string, k: int) {
    0 <= k && k + 1 < |text| && text[k] == '*' && text[k + 1] == '/'
  }

  /** On every text a block comment ends behind the first star and slash, or with the text. */
  lemma {:induction false} BlockEndsExactlyAt(text: string, j: nat, end: nat)
    requires j <= |text|
    ensures BlockEnd(text, j) == end <==>
      ((j + 2 <= end <= |text| && Closes(text, end - 2) && forall k | j <= k < end - 2 :: !Closes(text, k))
        || (end == |text| && forall k | j <= k < |text| :: !Closes(text, k)))
    decreases |text| - j
  {
    if j + 2 <= |text| && !Closes(text, j) { BlockEndsExactlyAt(text, j + 1, end); }
  }

  // ----- what one part leaves -----

  lemma PlainLeaves(source: string, k: nat, c: char, rest: string)
    requires Formed(Plain(c)) && Apart(Plain(c), rest) && k < |source| && source[k..] == [c] + rest
    ensures CodeMask(source, k) == [false] + CodeMask(source, k + 1)
    ensures BlockFree(source, k) == BlockFree(source, k + 1)
  {
    assert source[k] == c;
    if k + 1 < |source| { assert source[k + 1] == rest[0]; }
  }

  lemma LiteralLeaves(source: string, k: nat, body: seq<Unit>)
    requires Formed(Literal(body)) && Reads(source, k, Shown(Literal(body)))
    ensures var size := |Shown(Literal(body))|;
      && CodeMask(source, k) == Wanted(Literal(body)) + CodeMask(source, k + size)
      && BlockFree(source, k) == BlockFree(source, k + size)
  {
    hide Reads, StringEnd, LineEnd, BlockEnd, CodeMask, BlockFree, Letters;
    var whole := Shown(Literal(body));
    ReadsAt(source, k, whole, 0);
    ReadsBoth(source, k, "\"", Letters(body) + "\"");
    LiteralStops(source, k + 1, body);
    ReadsAt(source, k, whole, |Letters(body)| + 1);
    MaskStep(source, k);
    assert Next(source, k) == k + |whole|;
    assert Piece(source, k) == Wanted(Literal(body));
  }

  lemma MaskStep(source: string, k: nat)
    requires k < |source|
    ensures CodeMask(source, k) == Piece(source, k) + CodeMask(source, Next(source, k))
    ensures source[k] == '"' || StartsLine(source, k) ==> BlockFree(source, k) == BlockFree(source, Next(source, k))
    ensures source[k] != '"' && !StartsLine(source, k) && StartsBlock(source, k) ==> !BlockFree(source, k)
  {
  }

  lemma LineLeaves(source: string, k: nat, text: string)
    requires Formed(Line(text)) && Reads(source, k, Shown(Line(text)))
    ensures var size := |text| + 2;
      && k + size < |source| && source[k + size] == '\n'
      && CodeMask(source, k) == seq(size, _ => true) + CodeMask(source, k + size)
      && BlockFree(source, k) == BlockFree(source, k + size)
  {
    hide Reads, StringEnd, LineEnd, BlockEnd, CodeMask, BlockFree;
    ReadsAt(source, k, Shown(Line(text)), 0);
    ReadsAt(source, k, Shown(Line(text)), 1);
    ReadsAt(source, k, Shown(Line(text)), |text| + 2);
    LineStops(source, k, text);
    MaskStep(source, k);
    assert Piece(source, k) == seq(|text| + 2, _ => true);
  }

  lemma NewlineLeaves(source: string, k: nat)
    requires k < |source| && source[k] == '\n'
    ensures CodeMask(source, k) == [false] + CodeMask(source, k + 1) && BlockFree(source, k) == BlockFree(source, k + 1)
  {
  }

  lemma BlockLeaves(source: string, k: nat, text: string)
    requires Formed(Block(text)) && Reads(source, k, Shown(Block(text)))
    ensures var size := |Shown(Block(text))|;
      && CodeMask(source, k) == Wanted(Block(text)) + CodeMask(source, k + size)
      && !BlockFree(source, k)
  {
    hide *;
    BlockReads(source, k, text);
    MaskStep(source, k);
    BlockPiece(source, k, text);
  }

  lemma BlockReads(source: string, k: nat, text: string)
    requires Formed(Block(text)) && Reads(source, k, Shown(Block(text)))
    ensures var whole := Shown(Block(text));
      && k < k + |whole| <= |source| && BlockEnd(source, k + 2) == k + |whole|
      && source[k] != '"' && !StartsLine(source, k) && StartsBlock(source, k)
      && source[k..k + |whole|] == whole
  {
    var whole := Shown(Block(text));
    assert source[k..k + |whole|] == whole;
    hide Reads, BlockEnd;
    ReadsAt(source, k, whole, 0);
    ReadsAt(source, k, whole, 1);
    ReadsBoth(source, k, "/*", text + "*/");
    BlockStops(source, k + 2, text);
  }

  lemma BlockPiece(source: string, k: nat, text: string)
    requires var whole := Shown(Block(text));
      && k < k + |whole| <= |source| && BlockEnd(source, k + 2) == k + |whole|
      && source[k] != '"' && !StartsLine(source, k) && StartsBlock(source, k)
      && source[k..k + |whole|] == whole
    ensures Next(source, k) == k + |Shown(Block(text))| && Piece(source, k) == Wanted(Block(text))
  {
    hide *;
    NextIsBlock(source, k);
    MaskOfBlock(source, k, Shown(Block(text)));
    WantedOfBlock(text);
  }

  lemma NextIsBlock(source: string, k: nat)
    requires k < |source| && source[k] != '"' && !StartsLine(source, k) && StartsBlock(source, k)
    ensures Next(source, k) == BlockEnd(source, k + 2)
  {
  }

  lemma WantedOfBlock(text: string)
    ensures var whole := Shown(Block(text));
      Wanted(Block(text)) == seq(|whole|, j requires 0 <= j < |whole| => whole[j] != '\n')
  {
  }

  lemma MaskOfBlock(source: string, k: nat, whole: string)
    requires k < |source| && source[k] != '"' && !StartsLine(source, k) && StartsBlock(source, k)
    requires k + |whole| <= |source| && Next(source, k) == k + |whole| && source[k..k + |whole|] == whole
    ensures Piece(source, k) == seq(|whole|, j requires 0 <= j < |whole| => whole[j] != '\n')
  {
    hide Next, StartsLine, StartsBlock;
    assert forall j | 0 <= j < |whole| :: whole[j] == source[k..k + |whole|][j];
  }

  // ----- whole sources -----

  predicate HasBlock(parts: seq<Part>) {
    exists k | 0 <= k < |parts| :: parts[k].Block?
  }

  lemma {:induction false} RestLeaves(source: string, k: nat, parts: seq<Part>)
    requires AllFormed(parts) && k <= |source| && source[k..] == ShownAll(parts)
    ensures CodeMask(source, k) == WantedAll(parts)
    ensures BlockFree(source, k) <==> !HasBlock(parts)
    decreases |parts|
  {
    hide CodeMask, BlockFree, Shown, Wanted, Formed;
    if parts == [] {
      NothingLeaves(source);
    } else {
      var first, rest := parts[0], parts[1..];
      var size := |Shown(first)|;
      assert source[k..][..size] == Shown(first) && source[k..][size..] == source[k + size..];
      assert Reads(source, k, Shown(first));
      OneLeaves(source, k, first, ShownAll(rest));
      RestLeaves(source, k + size, rest);
      assert HasBlock(parts) <==> first.Block? || HasBlock(rest);
    }
  }

  lemma NothingLeaves(source: string)
    ensures CodeMask(source, |source|) == [] && BlockFree(source, |source|)
  {
  }

  lemma OneLeaves(source: string, k: nat, part: Part, rest: string)
    requires Formed(part) && Apart(part, rest) && k <= |source| && source[k..] == Shown(part) + rest
    requires Reads(source, k, Shown(part))
    ensures var next := k + |Shown(part)|;
      && CodeMask(source, k) == Wanted(part) + CodeMask(source, next)
      && (BlockFree(source, k) <==> !part.Block? && BlockFree(source, next))
  {
    hide CodeMask, BlockFree, Formed, Reads;
    match part
    case Plain(c) => PlainLeaves(source, k, c, rest);
    case Literal(body) => LiteralLeaves(source, k, body);
    case Block(text) => BlockLeaves(source, k, text);
    case Line(text) => WholeLineLeaves(source, k, text);
  }

  lemma WholeLineLeaves(source: string, k: nat, text: string)
    requires Formed(Line(text)) && Reads(source, k, Shown(Line(text)))
    ensures var next := k + |text| + 3;
      && next == k + |Shown(Line(text))|
      && CodeMask(source, k) == Wanted(Line(text)) + CodeMask(source, next)
      && BlockFree(source, k) == BlockFree(source, next)
  {
    hide CodeMask, BlockFree, Formed, Reads;
    var end, mask := k + |text| + 2, seq(|text| + 2, _ => true);
    LineLeaves(source, k, text);
    NewlineLeaves(source, end);
    assert mask + ([false] + CodeMask(source, end + 1)) == mask + [false] + CodeMask(source, end + 1);
  }

  /** Exactly the comments are blanked, to their ends and no further, newlines spared. */
  lemma CodeOnlyExactly(parts: seq<Part>)
    requires AllFormed(parts)
    ensures CodeMask(ShownAll(parts), 0) == WantedAll(parts)
  {
    RestLeaves(ShownAll(parts), 0, parts);
  }

  /** Exactly the line comments are deleted from a source that has no others. */
  lemma WithoutCommentsExactly(parts: seq<Part>)
    requires AllFormed(parts)
    ensures StripMask(ShownAll(parts), 0, false, false) == WantedAll(parts) <==> !HasBlock(parts)
  {
    RestLeaves(ShownAll(parts), 0, parts);
    MasksAgree(ShownAll(parts), 0);
  }

  // ----- the texts that come out -----

  /** What `code_only` is to leave of a part: spaces for a comment, newlines kept. */
  function Spaced(part: Part): string {
    match part
    case Plain(_) => Shown(part)
    case Literal(_) => Shown(part)
    case Line(text) => seq(|text| + 2, _ => ' ') + "\n"
    case Block(_) =>
      var whole := Shown(part);
      seq(|whole|, k requires 0 <= k < |whole| => if whole[k] == '\n' then '\n' else ' ')
  }

  function SpacedAll(parts: seq<Part>): string {
    if parts == [] then "" else Spaced(parts[0]) + SpacedAll(parts[1..])
  }

  /** What `without_comments` is to leave of it: the newline of a line comment. */
  function Stripped(part: Part): string {
    match part
    case Plain(_) => Shown(part)
    case Literal(_) => Shown(part)
    case Line(_) => "\n"
    case Block(_) => Shown(part)
  }

  function StrippedAll(parts: seq<Part>): string {
    if parts == [] then "" else Stripped(parts[0]) + StrippedAll(parts[1..])
  }

  lemma WantedFits(part: Part)
    ensures |Wanted(part)| == |Shown(part)|
  {
  }

  lemma {:induction false} WantedAllFits(parts: seq<Part>)
    ensures |WantedAll(parts)| == |ShownAll(parts)|
  {
    hide Shown, Wanted;
    if parts != [] {
      WantedFits(parts[0]);
      WantedAllFits(parts[1..]);
    }
  }

  lemma PartIsSpaced(part: Part)
    ensures |Wanted(part)| == |Shown(part)| && Blanked(Shown(part), Wanted(part)) == Spaced(part)
  {
  }

  lemma {:induction false} AllAreSpaced(parts: seq<Part>)
    ensures |WantedAll(parts)| == |ShownAll(parts)| && Blanked(ShownAll(parts), WantedAll(parts)) == SpacedAll(parts)
  {
    hide Shown, Wanted, Spaced, Blanked;
    if parts == [] {
      NothingBlanked();
    } else {
      PartIsSpaced(parts[0]);
      AllAreSpaced(parts[1..]);
      BlankedAppend(Shown(parts[0]), Wanted(parts[0]), ShownAll(parts[1..]), WantedAll(parts[1..]));
    }
  }

  lemma NothingBlanked()
    ensures Blanked("", []) == "" && Kept("", []) == ""
  {
  }

  lemma {:induction false} KeptAppend(a: string, m: seq<bool>, b: string, n: seq<bool>)
    requires |a| == |m| && |b| == |n|
    ensures Kept(a + b, m + n) == Kept(a, m) + Kept(b, n)
  {
    hide Kept;
    if b == "" {
      assert a + b == a && m + n == m;
      NothingBlanked();
    } else {
      var k := |b| - 1;
      KeptAppend(a, m, b[..k], n[..k]);
      KeptOne(a + b[..k], m + n[..k], b[k], n[k]);
      KeptOne(b[..k], n[..k], b[k], n[k]);
      assert a + b == a + b[..k] + [b[k]] && m + n == m + n[..k] + [n[k]];
      assert b == b[..k] + [b[k]] && n == n[..k] + [n[k]];
    }
  }

  lemma {:induction false} AllKept(text: string, mask: seq<bool>)
    requires |mask| == |text|
    ensures (forall k | 0 <= k < |mask| :: !mask[k]) ==> Kept(text, mask) == text
    ensures (forall k | 0 <= k < |mask| :: mask[k]) ==> Kept(text, mask) == ""
  {
    if text != "" {
      var n := |text| - 1;
      AllKept(text[..n], mask[..n]);
      assert text == text[..n] + [text[n]];
    }
  }

  lemma PartIsStripped(part: Part)
    requires !part.Block?
    ensures |Wanted(part)| == |Shown(part)| && Kept(Shown(part), Wanted(part)) == Stripped(part)
  {
    if part.Line? {
      var begin, mask := "//" + part.text, seq(|part.text| + 2, _ => true);
      assert Shown(part) == begin + "\n" && Wanted(part) == mask + [false];
      KeptAppend(begin, mask, "\n", [false]);
      AllKept(begin, mask);
      AllKept("\n", [false]);
    } else {
      AllKept(Shown(part), Wanted(part));
    }
  }

  lemma {:induction false} AllAreStripped(parts: seq<Part>)
    requires !HasBlock(parts)
    ensures |WantedAll(parts)| == |ShownAll(parts)| && Kept(ShownAll(parts), WantedAll(parts)) == StrippedAll(parts)
  {
    hide Shown, Wanted, Stripped, Kept;
    if parts == [] {
      NothingBlanked();
    } else {
      assert !parts[0].Block? && forall k | 0 <= k < |parts[1..]| :: !parts[1..][k].Block?;
      PartIsStripped(parts[0]);
      AllAreStripped(parts[1..]);
      KeptAppend(Shown(parts[0]), Wanted(parts[0]), ShownAll(parts[1..]), WantedAll(parts[1..]));
    }
  }

  /** The two strippers on a source made of these parts: `code_only` writes spaces over its
      comments, `without_comments` deletes its line comments when there are no others. */
  lemma StrippersLeave(parts: seq<Part>)
    requires AllFormed(parts)
    ensures Blanked(ShownAll(parts), CodeMask(ShownAll(parts), 0)) == SpacedAll(parts)
    ensures !HasBlock(parts) ==>
      Kept(ShownAll(parts), StripMask(ShownAll(parts), 0, false, false)) == StrippedAll(parts)
  {
    hide *;
    CodeOnlyExactly(parts);
    AllAreSpaced(parts);
    WithoutCommentsExactly(parts);
    if !HasBlock(parts) { AllAreStripped(parts); }
  }
}
