/** Matching brackets (`closing`, the parameter scan of `functions_in` and the innermost scope
    of `after_await`, in `scripts/check_view_after_await.py`).

    `closing` reads forwards and keeps a stack of the brackets it expects; the parameter scan
    reads backwards and only counts.  They are two views of one nesting. */
module Brackets {

  predicate Opens(c: char) {
    c == '(' || c == '[' || c == '{'
  }

  predicate Closes(c: char) {
    c == ')' || c == ']' || c == '}'
  }

  /** `PAIRS`. */
  function Partner(c: char): char
    requires Opens(c)
  {
    if c == '(' then ')' else if c == '[' then ']' else '}'
  }

  /** What `closing` answers, its two `ValueError`s included. */
  datatype Answer = At(offset: nat) | Unbalanced(offset: nat) | NeverClosed

  // ----- forwards, with a stack -----

  function Scan(code: string, k: nat, stack: seq<char>): Answer
    requires k <= |code|
    decreases |code| - k
  {
    if k == |code| then NeverClosed
    else if Opens(code[k]) then Scan(code, k + 1, stack + [Partner(code[k])])
    else if Closes(code[k]) then
      var top := |stack| - 1;
      if stack == [] || stack[top] != code[k] then Unbalanced(k)
      else if top == 0 then At(k)
      else Scan(code, k + 1, stack[..top])
    else Scan(code, k + 1, stack)
  }

  /** `closing`. */
  method Closing(code: string, at: nat) returns (answer: Answer)
    requires at <= |code|
    ensures answer == Scan(code, at, [])
  {
    var stack := [];
    for k := at to |code|
      invariant Scan(code, k, stack) == Scan(code, at, [])
    {
      var c := code[k];
      if Opens(c) {
        stack := stack + [Partner(c)];
      } else if Closes(c) {
        if stack == [] || stack[|stack| - 1] != c {
          return Unbalanced(k);
        }
        stack := stack[..|stack| - 1];
        if stack == [] {
          return At(k);
        }
      }
    }
    return NeverClosed;
  }

  // ----- what it means: properly nested text -----

  datatype Kind = Round | Square | Curly

  function Left(kind: Kind): char {
    match kind
    case Round => '('
    case Square => '['
    case Curly => '{'
  }

  function Right(kind: Kind): char {
    match kind
    case Round => ')'
    case Square => ']'
    case Curly => '}'
  }

  /** Text whose brackets nest: single characters that are no brackets, and bracketed pieces. */
  datatype Piece = Plain(c: char) | Wrapped(kind: Kind, inside: seq<Piece>)

  ghost predicate Proper(piece: Piece) {
    match piece
    case Plain(c) => c !in "()[]{}"
    case Wrapped(_, inside) => forall p | p in inside :: Proper(p)
  }

  ghost predicate AllProper(pieces: seq<Piece>) {
    forall p | p in pieces :: Proper(p)
  }

  function Shown(piece: Piece): string {
    match piece
    case Plain(c) => [c]
    case Wrapped(kind, inside) => [Left(kind)] + ShownAll(inside) + [Right(kind)]
  }

  /** The code's table of brackets is this one. */
  lemma KindIs(kind: Kind)
    ensures Opens(Left(kind)) && !Closes(Left(kind)) && Closes(Right(kind)) && !Opens(Right(kind))
    ensures Partner(Left(kind)) == Right(kind)
  {
  }

  lemma KindOf(c: char) returns (kind: Kind)
    requires Opens(c)
    ensures c == Left(kind) && Partner(c) == Right(kind)
  {
    kind := if c == '(' then Round else if c == '[' then Square else Curly;
  }

  lemma PlainIs(c: char)
    ensures c !in "()[]{}" <==> !Opens(c) && !Closes(c)
  {
  }

  function ShownAll(pieces: seq<Piece>): string {
    if pieces == [] then "" else Shown(pieces[0]) + ShownAll(pieces[1..])
  }

  /** `text` is in `code` from offset `k` on. */
  predicate Reads(code: string, k: nat, text: string) {
    k + |text| <= |code| && code[k..k + |text|] == text
  }

  lemma ReadsParts(code: string, k: nat, a: string, b: string)
    requires Reads(code, k, a + b)
    ensures Reads(code, k, a) && Reads(code, k + |a|, b)
  {
    assert code[k..k + |a + b|][..|a|] == a;
    assert code[k..k + |a + b|][|a|..] == b;
  }

  /** Nested text leaves the stack as it was. */
  lemma {:induction false} ScanPasses(code: string, k: nat, pieces: seq<Piece>, stack: seq<char>)
    requires AllProper(pieces) && Reads(code, k, ShownAll(pieces)) && stack != []
    ensures Scan(code, k, stack) == Scan(code, k + |ShownAll(pieces)|, stack)
    decreases pieces
  {
    if pieces != [] {
      var first, rest := pieces[0], pieces[1..];
      ReadsParts(code, k, Shown(first), ShownAll(rest));
      ScanPassesOne(code, k, first, stack);
      ScanPasses(code, k + |Shown(first)|, rest, stack);
    }
  }

  lemma {:induction false} ScanPassesOne(code: string, k: nat, piece: Piece, stack: seq<char>)
    requires Proper(piece) && Reads(code, k, Shown(piece)) && stack != []
    ensures Scan(code, k, stack) == Scan(code, k + |Shown(piece)|, stack)
    decreases piece
  {
    match piece
    case Plain(c) =>
      PlainIs(c);
      assert code[k] == [c][0];
    case Wrapped(kind, inside) =>
      var close := k + 1 + |ShownAll(inside)|;
      KindIs(kind);
      WrappedReads(code, k, kind, inside);
      ScanPasses(code, k + 1, inside, stack + [Right(kind)]);
      assert (stack + [Right(kind)])[..|stack|] == stack;
      assert Scan(code, close, stack + [Right(kind)]) == Scan(code, close + 1, stack);
  }

  lemma WrappedReads(code: string, k: nat, kind: Kind, inside: seq<Piece>)
    requires Reads(code, k, Shown(Wrapped(kind, inside)))
    ensures k + 1 + |ShownAll(inside)| < |code|
    ensures code[k] == Left(kind) && Reads(code, k + 1, ShownAll(inside))
    ensures code[k + 1 + |ShownAll(inside)|] == Right(kind)
  {
    hide Left, Right;
    var inner := ShownAll(inside);
    ReadsParts(code, k, [Left(kind)] + inner, [Right(kind)]);
    ReadsParts(code, k, [Left(kind)], inner);
    assert code[k] == [Left(kind)][0];
    assert code[k + 1 + |inner|] == [Right(kind)][0];
  }

  /** A properly nested bracketed piece is closed at its last character. */
  lemma ClosingOfNested(code: string, a: nat, kind: Kind, inside: seq<Piece>)
    requires Proper(Wrapped(kind, inside)) && Reads(code, a, Shown(Wrapped(kind, inside)))
    ensures Scan(code, a, []) == At(a + |ShownAll(inside)| + 1)
  {
    assert AllProper(inside);
    KindIs(kind);
    WrappedReads(code, a, kind, inside);
    hide Reads, Proper, AllProper, Shown, ShownAll, Left, Right;
    ScanPasses(code, a + 1, inside, [Right(kind)]);
    ScanOpens(code, a);
    ScanLast(code, a + |ShownAll(inside)| + 1, Right(kind));
  }

  lemma ScanOpens(code: string, a: nat)
    requires a < |code| && Opens(code[a])
    ensures Scan(code, a, []) == Scan(code, a + 1, [Partner(code[a])])
  {
    assert [] + [Partner(code[a])] == [Partner(code[a])];
  }

  lemma ScanLast(code: string, k: nat, close: char)
    requires k < |code| && code[k] == close && Closes(close) && !Opens(close)
    ensures Scan(code, k, [close]) == At(k)
  {
  }

  /** What is left of the layers that the stack stands for, innermost first. */
  function Layers(layers: seq<seq<Piece>>, stack: seq<char>): string
    requires |layers| == |stack|
  {
    if stack == [] then ""
    else
      var top := |stack| - 1;
      ShownAll(layers[top]) + [stack[top]] + Layers(layers[..top], stack[..top])
  }

  /** The text from `k` to `e` is properly nested layers, closed one by one as the stack says. */
  ghost predicate Layered(code: string, k: nat, stack: seq<char>, e: nat, layers: seq<seq<Piece>>) {
    && |layers| == |stack| && (forall i | 0 <= i < |layers| :: AllProper(layers[i]))
    && k <= e < |code| && code[k..e + 1] == Layers(layers, stack)
  }

  /** What the stack accepts is nested text, layer by layer. */
  lemma {:induction false} ScanIsNested(code: string, k: nat, stack: seq<char>, e: nat)
    returns (layers: seq<seq<Piece>>)
    requires k <= |code| && stack != [] && Scan(code, k, stack) == At(e)
    ensures Layered(code, k, stack, e, layers)
    decreases |code| - k
  {
    var c, top := code[k], |stack| - 1;
    hide Layered;
    if Opens(c) {
      var deeper := ScanIsNested(code, k + 1, stack + [Partner(c)], e);
      layers := LayeredOpen(code, k, stack, e, deeper);
    } else if Closes(c) && top == 0 {
      layers := [[]];
      LayeredLast(code, k, stack);
    } else if Closes(c) {
      var outer := ScanIsNested(code, k + 1, stack[..top], e);
      layers := outer + [[]];
      LayeredClose(code, k, stack, e, outer);
    } else {
      var after := ScanIsNested(code, k + 1, stack, e);
      layers := LayeredPlain(code, k, stack, e, after);
    }
  }

  lemma SliceHead(code: string, k: nat, e: nat)
    requires k <= e < |code|
    ensures code[k..e + 1] == [code[k]] + code[k + 1..e + 1]
  {
  }

  lemma LayeredOpen(code: string, k: nat, stack: seq<char>, e: nat, deeper: seq<seq<Piece>>)
    returns (layers: seq<seq<Piece>>)
    requires k < |code| && Opens(code[k]) && stack != [] && Layered(code, k + 1, stack + [Partner(code[k])], e, deeper)
    ensures Layered(code, k, stack, e, layers)
  {
    var top := |stack| - 1;
    var kind := KindOf(code[k]);
    hide ShownAll, Layers, AllProper, Partner, Opens, Left, Right;
    layers := deeper[..top] + [[Wrapped(kind, deeper[top + 1])] + deeper[top]];
    ProperMore(Wrapped(kind, deeper[top + 1]), deeper[top]);
    LayersOpen(deeper, stack, kind, layers);
    SliceHead(code, k, e);
  }

  lemma LayeredLast(code: string, k: nat, stack: seq<char>)
    requires k < |code| && |stack| == 1 && stack[0] == code[k]
    ensures Layered(code, k, stack, k, [[]])
  {
    LayersClose([], stack);
  }

  lemma LayeredClose(code: string, k: nat, stack: seq<char>, e: nat, outer: seq<seq<Piece>>)
    requires k < |code| && |stack| > 1 && stack[|stack| - 1] == code[k]
    requires Layered(code, k + 1, stack[..|stack| - 1], e, outer)
    ensures Layered(code, k, stack, e, outer + [[]])
  {
    hide ShownAll, Layers, AllProper;
    ProperNone();
    LayersClose(outer, stack);
    SliceHead(code, k, e);
  }

  lemma LayeredPlain(code: string, k: nat, stack: seq<char>, e: nat, after: seq<seq<Piece>>)
    returns (layers: seq<seq<Piece>>)
    requires k < |code| && !Opens(code[k]) && !Closes(code[k]) && stack != [] && Layered(code, k + 1, stack, e, after)
    ensures Layered(code, k, stack, e, layers)
  {
    hide ShownAll, Layers, AllProper, Opens, Closes;
    var c, top := code[k], |stack| - 1;
    PlainIs(c);
    layers := after[..top] + [[Plain(c)] + after[top]];
    ProperMore(Plain(c), after[top]);
    LayersPlain(after, stack, c, layers);
    SliceHead(code, k, e);
  }

  lemma ProperNone()
    ensures AllProper([])
  {
  }

  lemma ProperMore(piece: Piece, rest: seq<Piece>)
    requires AllProper(rest)
    requires if piece.Plain? then piece.c !in "()[]{}" else AllProper(piece.inside)
    ensures AllProper([piece] + rest)
  {
  }

  lemma LayersClose(outer: seq<seq<Piece>>, stack: seq<char>)
    requires stack != [] && |outer| == |stack| - 1
    ensures Layers(outer + [[]], stack) == [stack[|stack| - 1]] + Layers(outer, stack[..|stack| - 1])
    ensures outer == [] ==> Layers(outer + [[]], stack) == [stack[0]]
  {
    assert (outer + [[]])[..|outer|] == outer;
  }

  lemma LayersPlain(after: seq<seq<Piece>>, stack: seq<char>, c: char, layers: seq<seq<Piece>>)
    requires stack != [] && |after| == |stack| && layers == after[..|stack| - 1] + [[Plain(c)] + after[|stack| - 1]]
    ensures Layers(layers, stack) == [c] + Layers(after, stack)
  {
    var top := |stack| - 1;
    var outer := ShownAll(after[top]);
    assert layers[..top] == after[..top];
    assert ([Plain(c)] + after[top])[1..] == after[top];
    assert ShownAll([Plain(c)] + after[top]) == [c] + outer;
    var rest := Layers(after[..top], stack[..top]);
    assert Layers(after, stack) == outer + [stack[top]] + rest;
    assert Layers(layers, stack) == ([c] + outer) + [stack[top]] + rest;
  }

  lemma LayersOpen(deeper: seq<seq<Piece>>, stack: seq<char>, kind: Kind, layers: seq<seq<Piece>>)
    requires stack != [] && |deeper| == |stack| + 1
    requires layers == deeper[..|stack| - 1] + [[Wrapped(kind, deeper[|stack|])] + deeper[|stack| - 1]]
    ensures Layers(layers, stack) == [Left(kind)] + Layers(deeper, stack + [Right(kind)])
  {
    var top := |stack| - 1;
    var outer, inner := ShownAll(deeper[top]), ShownAll(deeper[top + 1]);
    ShownWrapped(kind, deeper[top + 1], deeper[top]);
    hide ShownAll, Shown, Left, Right;
    var rest := Layers(deeper[..top], stack[..top]);
    assert layers[..top] == deeper[..top];
    assert Layers(layers, stack) == [Left(kind)] + inner + [Right(kind)] + outer + [stack[top]] + rest;
    assert (stack + [Right(kind)])[..top + 1] == stack;
    assert deeper[..top + 1][..top] == deeper[..top];
    assert Layers(deeper[..top + 1], stack) == outer + [stack[top]] + rest;
    assert Layers(deeper, stack + [Right(kind)]) == inner + [Right(kind)] + (outer + [stack[top]] + rest);
    RegroupLayers([Left(kind)], inner, [Right(kind)], outer, [stack[top]], rest);
  }

  lemma ShownWrapped(kind: Kind, inside: seq<Piece>, outside: seq<Piece>)
    ensures ShownAll([Wrapped(kind, inside)] + outside)
         == [Left(kind)] + ShownAll(inside) + [Right(kind)] + ShownAll(outside)
  {
    assert ([Wrapped(kind, inside)] + outside)[1..] == outside;
  }

  lemma RegroupLayers(a: string, b: string, c: string, d: string, e: string, f: string)
    ensures a + b + c + d + e + f == a + (b + c + (d + e + f))
  {
  }

  /** The text from `a` to `k` is one nested bracketed piece. */
  ghost predicate IsNested(code: string, a: nat, k: nat) {
    && a <= k < |code|
    && exists kind, inside :: Proper(Wrapped(kind, inside)) && code[a..k + 1] == Shown(Wrapped(kind, inside))
  }

  lemma FoundIsNested(code: string, a: nat, k: nat)
    requires a < |code| && Opens(code[a]) && Scan(code, a, []) == At(k)
    ensures IsNested(code, a, k)
  {
    var kind := KindOf(code[a]);
    assert [] + [Right(kind)] == [Right(kind)];
    var layers := ScanIsNested(code, a + 1, [Right(kind)], k);
    hide Left, Right, Partner;
    assert Layers(layers[..0], [Right(kind)][..0]) == "";
    assert code[a..k + 1] == [code[a]] + code[a + 1..k + 1];
    assert Proper(Wrapped(kind, layers[0]));
  }

  /** `closing` answers `k` exactly when the text from `a` to `k` is one nested bracketed piece. */
  lemma ClosingMeansNested(code: string, a: nat, k: nat)
    requires a < |code| && code[a] in "([{"
    ensures Scan(code, a, []) == At(k) <==> IsNested(code, a, k)
  {
    if Scan(code, a, []) == At(k) {
      FoundIsNested(code, a, k);
    }
    if IsNested(code, a, k) {
      hide Scan;
      var kind, inside :| Proper(Wrapped(kind, inside)) && code[a..k + 1] == Shown(Wrapped(kind, inside));
      ClosingOfNested(code, a, kind, inside);
    }
  }

  /** Whatever it answers closes the bracket it was asked about. */
  lemma ClosingPairs(code: string, a: nat, k: nat)
    requires a < |code| && code[a] in "([{" && Scan(code, a, []) == At(k)
    ensures a < k < |code|
    ensures [code[a], code[k]] == "()" || [code[a], code[k]] == "[]" || [code[a], code[k]] == "{}"
  {
    ClosingMeansNested(code, a, k);
    var kind, inside :| Proper(Wrapped(kind, inside)) && code[a..k + 1] == Shown(Wrapped(kind, inside));
    var text := code[a..k + 1];
    assert text[0] == code[a] && text[|text| - 1] == code[k];
  }

  // ----- its two errors -----

  /** More text can still make the text from `a` up to `k` one nested piece. */
  ghost predicate Viable(code: string, a: nat, k: nat)
    requires k <= |code|
  {
    exists rest :: rest != "" && IsNested(code[..k] + rest, a, k + |rest| - 1)
  }

  /** The answer depends on nothing behind it. */
  lemma {:induction false} ScanShared(code: string, other: string, k: nat, stack: seq<char>)
    requires k <= |code| && !Scan(code, k, stack).NeverClosed?
    ensures var e := Scan(code, k, stack).offset;
      && k <= e < |code|
      && (e < |other| && code[..e + 1] == other[..e + 1] ==> Scan(other, k, stack) == Scan(code, k, stack))
    decreases |code| - k
  {
    var e := Scan(code, k, stack).offset;
    if Opens(code[k]) {
      ScanShared(code, other, k + 1, stack + [Partner(code[k])]);
    } else if !Closes(code[k]) {
      ScanShared(code, other, k + 1, stack);
    } else if stack != [] && stack[|stack| - 1] == code[k] && |stack| > 1 {
      ScanShared(code, other, k + 1, stack[..|stack| - 1]);
    }
    assert e < |other| && code[..e + 1] == other[..e + 1] ==> code[..e + 1][k] == other[k];
  }

  ghost predicate Closers(stack: seq<char>) {
    stack != [] && forall i | 0 <= i < |stack| :: Closes(stack[i]) && !Opens(stack[i])
  }

  /** The brackets that the stack expects, one after another, end the scan. */
  lemma {:induction false} StackCloses(code: string, stack: seq<char>) returns (rest: string)
    requires Closers(stack)
    ensures rest != "" && Scan(code + rest, |code|, stack) == At(|code| + |rest| - 1)
    decreases |stack|
  {
    var top := |stack| - 1;
    if top == 0 {
      rest := [stack[0]];
    } else {
      var more := StackCloses(code + [stack[top]], stack[..top]);
      rest := [stack[top]] + more;
      assert code + rest == code + [stack[top]] + more;
    }
  }

  /** As long as there is no answer, there is a way to go on. */
  lemma {:induction false} StillViable(code: string, k: nat, stack: seq<char>, m: nat) returns (rest: string)
    requires k <= m <= |code| && Closers(stack)
    requires Scan(code, k, stack).NeverClosed? || Scan(code, k, stack).offset >= m
    ensures rest != "" && Scan(code[..m] + rest, k, stack) == At(m + |rest| - 1)
    decreases m - k
  {
    if k == m {
      rest := StackCloses(code[..m], stack);
    } else {
      var c, top := code[k], |stack| - 1;
      if Opens(c) {
        var kind := KindOf(c);
        KindIs(kind);
        rest := StillViable(code, k + 1, stack + [Partner(c)], m);
      } else if Closes(c) {
        rest := StillViable(code, k + 1, stack[..top], m);
      } else {
        rest := StillViable(code, k + 1, stack, m);
      }
      assert (code[..m] + rest)[k] == c;
    }
  }

  lemma WayOn(code: string, a: nat, m: nat) returns (rest: string)
    requires a < m <= |code| && Opens(code[a])
    requires Scan(code, a, []).NeverClosed? || Scan(code, a, []).offset >= m
    ensures rest != "" && IsNested(code[..m] + rest, a, m + |rest| - 1)
  {
    var kind := KindOf(code[a]);
    KindIs(kind);
    ScanOpens(code, a);
    hide *;
    JustOne(Partner(code[a]));
    rest := StillViable(code, a + 1, [Partner(code[a])], m);
    var text := code[..m] + rest;
    assert text[a] == code[a];
    ScanOpens(text, a);
    FoundIsNested(text, a, m + |rest| - 1);
  }

  lemma JustOne(c: char)
    ensures Closes(c) && !Opens(c) ==> Closers([c])
  {
  }

  lemma ViableUpTo(code: string, a: nat, m: nat)
    requires a < m <= |code| && code[a] in "([{"
    requires Scan(code, a, []).NeverClosed? || Scan(code, a, []).offset >= m
    ensures Viable(code, a, m)
  {
    hide Scan, IsNested;
    var rest := WayOn(code, a, m);
  }

  /** Once there is an answer there is no way to go on. */
  lemma NotViable(code: string, a: nat, k: nat)
    requires a < |code| && code[a] in "([{" && k <= |code|
    requires !Scan(code, a, []).NeverClosed? && Scan(code, a, []).offset < k
    ensures !Viable(code, a, k)
  {
    hide Scan;
    var e := Scan(code, a, []).offset;
    if rest :| rest != "" && IsNested(code[..k] + rest, a, k + |rest| - 1) {
      var text := code[..k] + rest;
      ScanShared(code, text, a, []);
      assert text[a] == code[a];
      assert code[..e + 1] == text[..e + 1];
      ClosingMeansNested(text, a, k + |rest| - 1);
    }
  }

  /** `closing` objects to the bracket at `k` exactly when the text before it could have gone on
      to nest and with it can not, and it finds no end exactly when the whole text could. */
  lemma ErrorsExactlyWhen(code: string, a: nat, k: nat)
    requires a < k <= |code| && code[a] in "([{"
    ensures k < |code| ==>
      (Scan(code, a, []) == Unbalanced(k) <==> Viable(code, a, k) && !Viable(code, a, k + 1) && !IsNested(code, a, k))
    ensures Scan(code, a, []) == NeverClosed <==> Viable(code, a, |code|)
  {
    hide Scan, Viable;
    var answer := Scan(code, a, []);
    if answer.NeverClosed? {
      ViableUpTo(code, a, |code|);
      ViableUpTo(code, a, k);
      if k < |code| { ViableUpTo(code, a, k + 1); }
    } else {
      ScanOffset(code, a);
      NotViable(code, a, |code|);
      if answer.offset < k { NotViable(code, a, k); } else { ViableUpTo(code, a, k); }
      if k < |code| {
        if answer.offset <= k { NotViable(code, a, k + 1); } else { ViableUpTo(code, a, k + 1); }
        ClosingMeansNested(code, a, k);
      }
    }
  }

  lemma ScanOffset(code: string, a: nat)
    requires a < |code| && code[a] in "([{" && !Scan(code, a, []).NeverClosed?
    ensures a < Scan(code, a, []).offset < |code|
  {
    ScanOpens(code, a);
    ScanShared(code, code, a + 1, [Partner(code[a])]);
  }

  // ----- heights -----

  /** How many brackets are open after the first `k` characters, whatever their kinds. */
  function Height(code: string, k: nat): int
    requires k <= |code|
  {
    if k == 0 then 0
    else Height(code, k - 1) + (if Opens(code[k - 1]) then 1 else if Closes(code[k - 1]) then -1 else 0)
  }

  /** The bracket at `k` is the first to come back to the height before `a`. */
  ghost predicate Spans(code: string, a: nat, k: nat) {
    && a < k < |code| && Opens(code[a]) && Closes(code[k])
    && (forall j | a < j <= k :: Height(code, j) > Height(code, a))
    && Height(code, k + 1) == Height(code, a)
  }

  lemma {:induction false} ScanHeights(code: string, k: nat, stack: seq<char>, e: nat)
    requires k <= |code| && stack != [] && Scan(code, k, stack) == At(e)
    ensures k <= e < |code| && Closes(code[e])
    ensures forall j | k <= j <= e :: Height(code, j) - Height(code, k) + |stack| > 0
    ensures Height(code, e + 1) - Height(code, k) + |stack| == 0
    decreases |code| - k
  {
    if Opens(code[k]) {
      ScanHeights(code, k + 1, stack + [Partner(code[k])], e);
    } else if Closes(code[k]) {
      if |stack| > 1 { ScanHeights(code, k + 1, stack[..|stack| - 1], e); }
    } else {
      ScanHeights(code, k + 1, stack, e);
    }
  }

  lemma ClosingSpans(code: string, a: nat, k: nat)
    requires a < |code| && Opens(code[a]) && Scan(code, a, []) == At(k)
    ensures Spans(code, a, k)
  {
    assert [] + [Partner(code[a])] == [Partner(code[a])];
    ScanHeights(code, a + 1, [Partner(code[a])], k);
  }

  // ----- backwards, counting -----

  /** The offset where the count comes back to zero at an opening bracket; none is -1. */
  function Back(code: string, j: int, depth: int): int
    requires -1 <= j < |code|
    decreases j
  {
    if j < 0 then -1
    else if Closes(code[j]) then Back(code, j - 1, depth + 1)
    else if Opens(code[j]) then if depth - 1 == 0 then j else Back(code, j - 1, depth - 1)
    else Back(code, j - 1, depth)
  }

  /** The loop of `functions_in` that looks for the start of an arrow's parameters. */
  method ParametersStart(code: string, k: nat) returns (j: int)
    requires k < |code|
    ensures j == Back(code, k, 0)
  {
    j := k;
    var depth := 0;
    while j >= 0
      invariant -1 <= j <= k && Back(code, j, depth) == Back(code, k, 0)
    {
      if Closes(code[j]) {
        depth := depth + 1;
      } else if Opens(code[j]) {
        depth := depth - 1;
        if depth == 0 {
          return;
        }
      }
      j := j - 1;
    }
  }

  lemma {:induction false} BackFinds(code: string, a: nat, k: nat, j: nat)
    requires Spans(code, a, k) && a <= j <= k
    ensures Back(code, j, Height(code, j + 1) - Height(code, a)) == a
    decreases j
  {
    if j > a {
      assert Height(code, j) > Height(code, a);
      BackFinds(code, a, k, j - 1);
    }
  }

  lemma {:induction false} BackSpans(code: string, k: nat, j: nat, depth: int, a: nat)
    requires j <= k < |code| && Closes(code[k]) && Back(code, j, depth) == a
    requires depth == Height(code, j + 1) - Height(code, k + 1)
    requires forall i | j < i <= k :: Height(code, i) > Height(code, k + 1)
    ensures a <= j && Opens(code[a]) && Height(code, a) == Height(code, k + 1)
    ensures forall i | a < i <= k :: Height(code, i) > Height(code, k + 1)
    decreases j
  {
    if Closes(code[j]) {
      BackSpans(code, k, j - 1, depth + 1, a);
    } else if Opens(code[j]) {
      if depth - 1 != 0 { BackSpans(code, k, j - 1, depth - 1, a); }
    } else {
      BackSpans(code, k, j - 1, depth, a);
    }
  }

  /** The two directions undo each other.  Counting cannot tell the kinds apart, so from the
      bracket that counting finds, `closing` comes back, or else it objects to a kind on the way. */
  lemma ForwardsAndBackwards(code: string, a: nat, k: nat)
    requires a < |code| && k < |code| && Opens(code[a]) && Closes(code[k])
    ensures Scan(code, a, []) == At(k) ==> Back(code, k, 0) == a
    ensures Back(code, k, 0) == a ==>
      Scan(code, a, []) == At(k) || (Scan(code, a, []).Unbalanced? && a < Scan(code, a, []).offset <= k)
  {
    if Scan(code, a, []) == At(k) {
      ClosingSpans(code, a, k);
      BackFinds(code, a, k, k);
    }
    if Back(code, k, 0) == a {
      BackSpans(code, k, k, 0, a);
      assert Spans(code, a, k);
      assert [] + [Partner(code[a])] == [Partner(code[a])];
      ScanWithin(code, a, k, a + 1, [Partner(code[a])]);
    }
  }

  lemma {:induction false} ScanWithin(code: string, a: nat, k: nat, j: nat, stack: seq<char>)
    requires Spans(code, a, k) && a < j <= k && |stack| == Height(code, j) - Height(code, a)
    ensures Scan(code, j, stack) == At(k) || (Scan(code, j, stack).Unbalanced? && j <= Scan(code, j, stack).offset <= k)
    decreases k - j
  {
    if j < k {
      assert Height(code, j + 1) > Height(code, a);
      if Opens(code[j]) {
        ScanWithin(code, a, k, j + 1, stack + [Partner(code[j])]);
      } else if Closes(code[j]) {
        if stack[|stack| - 1] == code[j] { ScanWithin(code, a, k, j + 1, stack[..|stack| - 1]); }
      } else {
        ScanWithin(code, a, k, j + 1, stack);
      }
    }
  }

  // ----- scopes -----

  /** Two bracketed spans are one inside the other or apart. */
  lemma SpansAreLaminar(code: string, a: nat, k: nat, b: nat, e: nat)
    requires Spans(code, a, k) && Spans(code, b, e)
    ensures (a == b && k == e) || k < b || e < a || (a < b && e < k) || (b < a && k < e)
  {
    if a == b {
    } else if a < b <= k {
      InnerEnds(code, a, k, b, e);
    } else if b < a <= e {
      InnerEnds(code, b, e, a, k);
    }
  }

  lemma InnerEnds(code: string, a: nat, k: nat, b: nat, e: nat)
    requires Spans(code, a, k) && Spans(code, b, e) && a < b <= k
    ensures e < k
  {
    assert Height(code, b) > Height(code, a);
  }

  datatype Scope = Scope(begin: nat, end: nat)

  predicate Holds(scope: Scope, at: nat) {
    scope.begin <= at <= scope.end
  }

  /** Body `i` holds `at`, none that does is shorter, and the ones before it are longer. */
  ghost predicate Shortest(bodies: seq<Scope>, at: nat, i: nat)
    requires i < |bodies|
  {
    && bodies[i].begin <= at <= bodies[i].end
    && forall j | 0 <= j < |bodies| && bodies[j].begin <= at <= bodies[j].end ::
         var longer := (bodies[j].end - bodies[j].begin) - (bodies[i].end - bodies[i].begin);
         if j < i then longer > 0 else longer >= 0
  }

  /** `scope_of`: of the bodies that hold `at`, the shortest, and the first of those. */
  method ScopeOf(bodies: seq<Scope>, at: nat) returns (found: bool, scope: Scope)
    ensures found <==> exists s :: s in bodies && s.begin <= at <= s.end
    ensures found ==> exists i :: 0 <= i < |bodies| && bodies[i] == scope && Shortest(bodies, at, i)
  {
    found, scope := false, Scope(0, 0);
    ghost var first := 0;
    for i := 0 to |bodies|
      invariant found <==> exists s :: s in bodies[..i] && Holds(s, at)
      invariant found ==> first < i && bodies[first] == scope && Holds(scope, at)
      invariant found ==> forall j | 0 <= j < i && Holds(bodies[j], at) ::
        if j < first then scope.end - scope.begin < bodies[j].end - bodies[j].begin
        else scope.end - scope.begin <= bodies[j].end - bodies[j].begin
    {
      assert bodies[..i + 1] == bodies[..i] + [bodies[i]];
      assert !found ==> forall j | 0 <= j < i :: bodies[j] in bodies[..i];
      if Holds(bodies[i], at) && (!found || bodies[i].end - bodies[i].begin < scope.end - scope.begin) {
        found, scope := true, bodies[i];
        first := i;
      }
    }
    assert bodies[..|bodies|] == bodies;
    assert found ==> Shortest(bodies, at, first);
  }

  /** Among braced bodies the shortest that holds `at` lies inside every other that does, so
      there is one innermost scope and `scope_of` finds it. */
  lemma ShortestIsInnermost(code: string, s: Scope, t: Scope, at: nat)
    requires Spans(code, s.begin, s.end) && Spans(code, t.begin, t.end)
    requires s.begin <= at <= s.end && t.begin <= at <= t.end
    requires s.end - s.begin <= t.end - t.begin
    ensures s == t || (t.begin < s.begin && s.end < t.end)
  {
    SpansAreLaminar(code, s.begin, s.end, t.begin, t.end);
  }
}
