/** Two comment strippers that should agree (`code_only` in `scripts/check_platform_arms.py`
    and `without_comments` in `scripts/check_writers.py`).

    Both leave string literals alone, escapes included.  The first writes spaces over line and
    block comments; the second deletes line comments and does not know block comments.  Each is
    described by the mask of the characters it removes. */
module Comments {

  /** The offset of the quote that ends a literal entered before `j`; past the end when an
      escape is cut off by the end of the text. */
  function StringEnd(text: string, j: nat): (e: nat)
    ensures j <= e && (j <= |text| ==> e <= |text| + 1)
    decreases |text| - j
  {
    if j < |text| && text[j] != '"' then StringEnd(text, j + (if text[j] == '\\' then 2 else 1)) else j
  }

  /** `text.find("\n", j)`, or the end. */
  function LineEnd(text: string, j: nat): (e: nat)
    requires j <= |text|
    ensures j <= e <= |text| && forall k | j <= k < e :: text[k] != '\n'
    ensures e < |text| ==> text[e] == '\n'
    decreases |text| - j
  {
    if j < |text| && text[j] != '\n' then LineEnd(text, j + 1) else j
  }

  /** `text.find("*" + "/", j) + 2`, or the end. */
  function BlockEnd(text: string, j: nat): (e: nat)
    ensures e <= |text| && (j <= |text| ==> j <= e)
    decreases |text| - j
  {
    if j + 2 > |text| then |text| else if text[j] == '*' && text[j + 1] == '/' then j + 2 else BlockEnd(text, j + 1)
  }

  predicate StartsLine(text: string, i: nat) {
    i + 1 < |text| && text[i] == '/' && text[i + 1] == '/'
  }

  predicate StartsBlock(text: string, i: nat) {
    i + 1 < |text| && text[i] == '/' && text[i + 1] == '*'
  }

  function Min(a: nat, b: nat): nat {
    if a < b then a else b
  }

  function Run(n: nat, b: bool): (r: seq<bool>)
    ensures |r| == n && forall k | 0 <= k < n :: r[k] == b
  {
    seq(n, _ => b)
  }

  // ----- the masks -----

  /** Where `code_only` goes on after the piece at `i`: a literal, a comment or one character. */
  function Next(text: string, i: nat): (next: nat)
    requires i < |text|
    ensures i < next
  {
    if text[i] == '"' then StringEnd(text, i + 1) + 1
    else if StartsLine(text, i) then LineEnd(text, i)
    else if StartsBlock(text, i) then BlockEnd(text, i + 2)
    else i + 1
  }

  /** What it removes of that piece. */
  function Piece(text: string, i: nat): (mask: seq<bool>)
    requires i < |text|
    ensures |mask| == Min(Next(text, i), |text|) - i
  {
    var size := Min(Next(text, i), |text|) - i;
    if text[i] == '"' then Run(size, false)
    else if StartsLine(text, i) then Run(size, true)
    else if StartsBlock(text, i) then seq(size, k requires 0 <= k < size => text[i + k] != '\n')
    else [false]
  }

  /** What `code_only` still has to remove from offset `i` on. */
  function CodeMask(text: string, i: nat): (mask: seq<bool>)
    ensures |mask| == if i < |text| then |text| - i else 0
    decreases |text| - i
  {
    if i >= |text| then [] else Piece(text, i) + CodeMask(text, Next(text, i))
  }

  /** What `without_comments` still has to remove. */
  function StripMask(text: string, i: nat, inString: bool, escaped: bool): (mask: seq<bool>)
    ensures |mask| == if i < |text| then |text| - i else 0
    decreases |text| - i
  {
    if i >= |text| then []
    else if inString then
      [false] + StripMask(text, i + 1, escaped || text[i] != '"', !escaped && text[i] == '\\')
    else if text[i] == '"' then [false] + StripMask(text, i + 1, true, false)
    else if StartsLine(text, i) then
      var next := LineEnd(text, i);
      Run(next - i, true) + StripMask(text, next, false, false)
    else [false] + StripMask(text, i + 1, false, false)
  }

  /** Every masked character becomes a space. */
  function Blanked(text: string, mask: seq<bool>): string
    requires |mask| == |text|
  {
    seq(|text|, k requires 0 <= k < |text| => if mask[k] then ' ' else text[k])
  }

  /** Every masked character goes. */
  function Kept(text: string, mask: seq<bool>): string
    requires |mask| == |text|
  {
    if text == "" then ""
    else
      var n := |text| - 1;
      Kept(text[..n], mask[..n]) + (if mask[n] then "" else [text[n]])
  }

  lemma BlankedAppend(a: string, m: seq<bool>, b: string, n: seq<bool>)
    requires |a| == |m| && |b| == |n|
    ensures Blanked(a + b, m + n) == Blanked(a, m) + Blanked(b, n)
  {
  }

  lemma KeptOne(text: string, mask: seq<bool>, c: char, gone: bool)
    requires |mask| == |text|
    ensures Kept(text + [c], mask + [gone]) == Kept(text, mask) + (if gone then "" else [c])
  {
    assert (text + [c])[..|text|] == text && (mask + [gone])[..|text|] == mask;
  }

  /** Length and lines are kept: only characters that are no newline are masked. */
  lemma {:induction false} MaskSparesNewlines(text: string, i: nat, k: nat)
    requires i <= k < |text| && CodeMask(text, i)[k - i]
    ensures text[k] != '\n'
    decreases |text| - i
  {
    var next := Next(text, i);
    if k >= next {
      hide Next, Piece;
      MaskSparesNewlines(text, next, k);
    } else {
      PieceSparesNewlines(text, i, k);
    }
  }

  lemma PieceSparesNewlines(text: string, i: nat, k: nat)
    requires i <= k < |text| && k < Next(text, i) && Piece(text, i)[k - i]
    ensures text[k] != '\n'
  {
    hide StringEnd, LineEnd, BlockEnd;
  }

  lemma CodeOnlyKeepsLines(text: string, k: nat)
    requires k < |text|
    ensures var out := Blanked(text, CodeMask(text, 0));
      && |out| == |text| && out[k] == (if CodeMask(text, 0)[k] then ' ' else text[k])
      && (out[k] == '\n' <==> text[k] == '\n')
  {
    if CodeMask(text, 0)[k] { MaskSparesNewlines(text, 0, k); }
  }

  // ----- agreement -----

  /** Scanning meets no block comment from `i` on; one that is quoted, in a literal or in a line
      comment, is not met. */
  predicate BlockFree(text: string, i: nat)
    decreases |text| - i
  {
    if i >= |text| then true
    else if text[i] == '"' then BlockFree(text, StringEnd(text, i + 1) + 1)
    else if StartsLine(text, i) then BlockFree(text, LineEnd(text, i))
    else !StartsBlock(text, i) && BlockFree(text, i + 1)
  }

  lemma NoOpenerIsBlockFree(text: string, i: nat)
    requires forall k | 0 <= k < |text| :: !StartsBlock(text, k)
    ensures BlockFree(text, i)
    decreases |text| - i
  {
  }

  /** Inside a literal the flags of the one are the jump of the other. */
  lemma {:induction false} LiteralMask(text: string, j: nat)
    requires j <= |text|
    ensures var next := StringEnd(text, j) + 1;
      StripMask(text, j, true, false) == Run(Min(next, |text|) - j, false) + StripMask(text, next, false, false)
    decreases |text| - j
  {
    var next := StringEnd(text, j) + 1;
    var step := if j < |text| && text[j] == '\\' then 2 else 1;
    if j + step <= |text| && text[j] != '"' {
      LiteralMask(text, j + step);
      LiteralStep(text, j);
      assert StringEnd(text, j) == StringEnd(text, j + step);
      hide StripMask, StringEnd;
      RunMore(step, Min(next, |text|) - (j + step), StripMask(text, next, false, false));
    } else {
      LiteralEnds(text, j);
    }
  }

  lemma LiteralEnds(text: string, j: nat)
    requires j <= |text| && (j < |text| && text[j] != '"' ==> text[j] == '\\' && j + 1 == |text|)
    ensures var next := StringEnd(text, j) + 1;
      StripMask(text, j, true, false) == Run(Min(next, |text|) - j, false) + StripMask(text, next, false, false)
  {
    if j < |text| && text[j] != '"' {
      assert StringEnd(text, j + 2) == j + 2;
      assert StripMask(text, j + 1, true, true) == [];
    }
  }

  lemma LiteralStep(text: string, j: nat)
    requires j < |text| && text[j] != '"'
    ensures var step := if text[j] == '\\' then 2 else 1;
      j + step <= |text| ==>
        StripMask(text, j, true, false) == Run(step, false) + StripMask(text, j + step, true, false)
  {
    if text[j] == '\\' && j + 2 <= |text| {
      assert StripMask(text, j, true, false) == [false] + ([false] + StripMask(text, j + 2, true, false));
    }
  }

  lemma RunMore(m: nat, n: nat, rest: seq<bool>)
    ensures Run(m, false) + (Run(n, false) + rest) == Run(m + n, false) + rest
  {
  }

  lemma SamePrefix(a: seq<bool>, b: seq<bool>, c: seq<bool>)
    ensures a + b == a + c <==> b == c
  {
    assert (a + b)[|a|..] == b && (a + c)[|a|..] == c;
  }

  lemma RunBegins(n: nat)
    ensures Run(n + 1, false) == [false] + Run(n, false)
  {
  }

  lemma StripStarts(text: string, i: nat)
    requires i < |text|
    ensures StripMask(text, i, false, false) ==
      if text[i] == '"' then [false] + StripMask(text, i + 1, true, false)
      else if StartsLine(text, i) then Run(LineEnd(text, i) - i, true) + StripMask(text, LineEnd(text, i), false, false)
      else [false] + StripMask(text, i + 1, false, false)
  {
    hide Run, LineEnd;
  }

  /** At anything but a block comment the two move together. */
  lemma StripStep(text: string, i: nat)
    requires i < |text|
    ensures text[i] == '"' || StartsLine(text, i) || !StartsBlock(text, i) ==>
      StripMask(text, i, false, false) == Piece(text, i) + StripMask(text, Next(text, i), false, false)
  {
    hide StringEnd, LineEnd, BlockEnd, Run, StripMask;
    StripStarts(text, i);
    if text[i] == '"' {
      var next := Next(text, i);
      LiteralMask(text, i + 1);
      RunBegins(Min(next, |text|) - (i + 1));
      var tail := StripMask(text, next, false, false);
      assert [false] + (Run(Min(next, |text|) - (i + 1), false) + tail)
        == [false] + Run(Min(next, |text|) - (i + 1), false) + tail;
    }
  }

  /** The two strippers remove the same characters exactly when no block comment is met. */
  lemma {:induction false} MasksAgree(text: string, i: nat)
    ensures CodeMask(text, i) == StripMask(text, i, false, false) <==> BlockFree(text, i)
    decreases |text| - i
  {
    if i < |text| {
      if text[i] != '"' && !StartsLine(text, i) && StartsBlock(text, i) {
        assert CodeMask(text, i)[0] == Piece(text, i)[0] == true;
        assert StripMask(text, i, false, false)[0] == false;
      } else {
        StripStep(text, i);
        MasksAgree(text, Next(text, i));
        SamePrefix(Piece(text, i), CodeMask(text, Next(text, i)), StripMask(text, Next(text, i), false, false));
        hide StripMask, Piece;
      }
    }
  }

  // ----- the loops -----

  /** What has been written when the text is read up to `i`. */
  ghost predicate Underway(text: string, i: nat, done: seq<bool>, out: string) {
    && |done| == Min(i, |text|) && done + CodeMask(text, i) == CodeMask(text, 0)
    && out == Blanked(text[..Min(i, |text|)], done)
  }

  lemma Advance(text: string, i: nat, done: seq<bool>, out: string, written: string)
    requires i < |text| && Underway(text, i, done, out)
    requires written == Blanked(text[i..Min(Next(text, i), |text|)], Piece(text, i))
    ensures Underway(text, Next(text, i), done + Piece(text, i), out + written)
  {
    hide Piece, Next;
    var next := Min(Next(text, i), |text|);
    assert text[..next] == text[..i] + text[i..next];
    BlankedAppend(text[..i], done, text[i..next], Piece(text, i));
  }

  lemma Finished(text: string, i: nat, done: seq<bool>, out: string)
    requires |text| <= i && Underway(text, i, done, out)
    ensures out == Blanked(text, CodeMask(text, 0))
  {
    hide Blanked, Piece, Next;
    assert Min(i, |text|) == |text| && text[..|text|] == text;
    assert CodeMask(text, i) == [];
    assert done + [] == done;
  }

  /** One turn of the loop of `code_only`. */
  method WritePiece(text: string, i: nat) returns (next: nat, written: string)
    requires i < |text|
    ensures next == Next(text, i) && written == Blanked(text[i..Min(next, |text|)], Piece(text, i))
  {
    hide StringEnd, LineEnd, BlockEnd;
    if text[i] == '"' {
      var j := LiteralEnd(text, i + 1);
      next, written := j + 1, text[i..Min(j + 1, |text|)];
      BlankedRun(written);
    } else if StartsLine(text, i) {
      var j := LineEnd(text, i);
      next, written := j, seq(j - i, _ => ' ');
      BlankedRun(text[i..j]);
    } else if StartsBlock(text, i) {
      var j := BlockEnd(text, i + 2);
      next, written := j, seq(j - i, k requires 0 <= k < j - i => if text[i + k] != '\n' then ' ' else '\n');
    } else {
      next, written := i + 1, [text[i]];
      assert text[i..i + 1] == [text[i]];
    }
  }

  lemma BlankedRun(text: string)
    ensures Blanked(text, Run(|text|, false)) == text
    ensures Blanked(text, Run(|text|, true)) == seq(|text|, _ => ' ')
  {
  }

  method LiteralEnd(text: string, from: nat) returns (j: nat)
    ensures j == StringEnd(text, from)
  {
    j := from;
    while j < |text| && text[j] != '"'
      invariant from <= j && StringEnd(text, j) == StringEnd(text, from)
    {
      j := j + (if text[j] == '\\' then 2 else 1);
    }
  }

  /** `code_only`. */
  method CodeOnly(text: string) returns (out: string)
    ensures out == Blanked(text, CodeMask(text, 0)) && |out| == |text|
    ensures forall k | 0 <= k < |text| :: out[k] == if CodeMask(text, 0)[k] then ' ' else text[k]
    ensures BlockFree(text, 0) ==> out == Blanked(text, StripMask(text, 0, false, false))
  {
    out := "";
    var i := 0;
    ghost var done: seq<bool> := [];
    while i < |text|
      invariant Underway(text, i, done, out)
      decreases |text| - i
    {
      hide Underway, CodeMask;
      var next, written := WritePiece(text, i);
      Advance(text, i, done, out, written);
      out, done := out + written, done + Piece(text, i);
      i := next;
    }
    Finished(text, i, done, out);
    MasksAgree(text, 0);
  }

  /** What has been kept when `source` is read up to `i` with these flags. */
  ghost predicate Stripping(source: string, i: nat, inString: bool, escaped: bool, done: seq<bool>, out: string) {
    && |done| == i <= |source| && (escaped ==> inString)
    && done + StripMask(source, i, inString, escaped) == StripMask(source, 0, false, false)
    && out == Kept(source[..i], done)
  }

  lemma KeepOne(source: string, i: nat, inString: bool, escaped: bool, inNext: bool, escapedNext: bool, done: seq<bool>,
                out: string)
    requires i < |source| && Stripping(source, i, inString, escaped, done, out) && (escapedNext ==> inNext)
    requires StripMask(source, i, inString, escaped) == [false] + StripMask(source, i + 1, inNext, escapedNext)
    ensures Stripping(source, i + 1, inNext, escapedNext, done + [false], out + [source[i]])
  {
    assert source[..i + 1] == source[..i] + [source[i]];
    KeptOne(source[..i], done, source[i], false);
  }

  lemma Stripped(source: string, i: nat, inString: bool, escaped: bool, done: seq<bool>, out: string)
    requires |source| <= i && Stripping(source, i, inString, escaped, done, out)
    ensures out == Kept(source, StripMask(source, 0, false, false))
  {
    assert source[..|source|] == source;
    assert done + [] == done;
  }

  lemma SkippedLine(source: string, from: nat, done: seq<bool>, out: string, i: nat, more: seq<bool>)
    requires from < |source| && Stripping(source, from, false, false, done, out)
    requires source[from] != '"' && StartsLine(source, from) && i == LineEnd(source, from)
    requires more == done + Run(i - from, true) && out == Kept(source[..i], more)
    ensures Stripping(source, i, false, false, more, out)
  {
  }

  /** `without_comments`. */
  method WithoutComments(source: string) returns (out: string)
    ensures out == Kept(source, StripMask(source, 0, false, false))
    ensures BlockFree(source, 0) ==> out == Kept(source, CodeMask(source, 0))
  {
    out := "";
    var inString, escaped, i := false, false, 0;
    ghost var done: seq<bool> := [];
    while i < |source|
      invariant i <= |source| && Stripping(source, i, inString, escaped, done, out)
      decreases |source| - i
    {
      var c := source[i];
      ghost var was, wasEscaped := inString, escaped;
      if !inString && c != '"' && StartsLine(source, i) {
        ghost var from, before := i, done;
        i, done := SkipLine(source, i, out, done);
        SkippedLine(source, from, before, out, i, done);
        continue;
      }
      if inString {
        if escaped {
          escaped := false;
        } else if c == '\\' {
          escaped := true;
        } else if c == '"' {
          inString := false;
        }
      } else if c == '"' {
        inString := true;
      }
      KeepOne(source, i, was, wasEscaped, inString, escaped, done, out);
      out, done := out + [c], done + [false];
      i := i + 1;
    }
    Stripped(source, i, inString, escaped, done, out);
    MasksAgree(source, 0);
  }

  /** The inner loop of `without_comments`. */
  method SkipLine(source: string, from: nat, out: string, ghost mask: seq<bool>) returns (i: nat, ghost done: seq<bool>)
    requires from < |source| && |mask| == from && out == Kept(source[..from], mask)
    ensures i == LineEnd(source, from) && done == mask + Run(i - from, true)
    ensures out == Kept(source[..i], done)
  {
    hide Kept;
    i, done := from, mask;
    while i < |source| && source[i] != '\n'
      invariant from <= i <= |source| && LineEnd(source, i) == LineEnd(source, from)
      invariant done == mask + Run(i - from, true) && out == Kept(source[..i], done)
    {
      assert source[..i + 1] == source[..i] + [source[i]];
      KeptOne(source[..i], done, source[i], true);
      done := done + [true];
      i := i + 1;
    }
  }
}
