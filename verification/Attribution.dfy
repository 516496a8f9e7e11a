/** From the compiler's `file:line` back to the mutation (`attribute` in
    `scripts/check_mutation_types.py`).

    The function rebuilds the text that was on disk, notes where each replacement landed in
    it, and names every replacement that a reported line touches. */
module Attribution {
  import opened Splicing
  import opened Batching

  // ----- lines -----

  function Newlines(text: string): nat {
    if text == "" then 0
    else Newlines(text[..|text| - 1]) + (if text[|text| - 1] == '\n' then 1 else 0)
  }

  /** The 1-based line that offset `x` is on; a newline belongs to the line it ends. */
  function LineOf(text: string, x: nat): nat
    requires x <= |text|
  {
    1 + Newlines(text[..x])
  }

  /** `text.split("\n")`. */
  function Lines(text: string): (lines: seq<string>)
    ensures lines != []
  {
    if text == "" then [""]
    else
      var before, c := Lines(text[..|text| - 1]), text[|text| - 1];
      if c == '\n' then before + [""]
      else before[..|before| - 1] + [before[|before| - 1] + [c]]
  }

  function StartTable(lines: seq<string>): (starts: seq<nat>)
    ensures |starts| == |lines| + 1 && starts[0] == 0
    ensures forall i, j | 0 <= i < j < |starts| :: starts[i] < starts[j]
  {
    if lines == [] then [0]
    else
      var n := |lines| - 1;
      var before := StartTable(lines[..n]);
      before + [before[n] + |lines[n]| + 1]
  }

  predicate OnLine(starts: seq<nat>, line: int, x: int)
    requires 1 <= line < |starts|
  {
    starts[line - 1] <= x < starts[line]
  }

  /** The table really is the offset-to-line map of the text. */
  ghost predicate IsLineTable(text: string, starts: seq<nat>) {
    && |starts| == Newlines(text) + 2
    && starts[|starts| - 1] == |text| + 1
    && (forall i, j | 0 <= i < j < |starts| :: starts[i] < starts[j])
    && forall line, x | 1 <= line < |starts| && 0 <= x <= |text| ::
         OnLine(starts, line, x) <==> LineOf(text, x) == line
  }

  lemma {:induction false} StartTableIsLineTable(text: string)
    ensures IsLineTable(text, StartTable(Lines(text)))
  {
    if text == "" {
      assert StartTable([""]) == [0, 1] by { assert [""][..0] == []; }
    } else {
      var n := |text| - 1;
      var t, c := text[..n], text[n];
      StartTableIsLineTable(t);
      var before, starts := StartTable(Lines(t)), StartTable(Lines(text));
      var m := |Lines(t)|;
      if c == '\n' {
        assert Lines(text)[..m] == Lines(t);
        assert starts == before + [n + 2];
      } else {
        assert Lines(text)[..m - 1] == Lines(t)[..m - 1];
        assert starts == before[..m] + [n + 2];
      }
      LineTableGrows(t, c, before, starts);
      assert t + [c] == text;
    }
  }

  lemma LineTableGrows(t: string, c: char, before: seq<nat>, starts: seq<nat>)
    requires IsLineTable(t, before)
    requires starts == (if c == '\n' then before else before[..|before| - 1]) + [|t| + 2]
    ensures IsLineTable(t + [c], starts)
  {
    var text, n := t + [c], |t|;
    assert text[..n] == t && text[..n + 1] == text;
    forall line, x | 1 <= line < |starts| && 0 <= x <= |text|
      ensures OnLine(starts, line, x) <==> LineOf(text, x) == line
    {
      if x <= n {
        assert text[..x] == t[..x];
        NewlinesGrow(t, x);
        assert LineOf(t, x) < |before|;
        assert line < |before| ==> (OnLine(before, line, x) <==> LineOf(t, x) == line);
      }
    }
  }

  lemma NewlinesGrow(text: string, x: nat)
    requires x <= |text|
    ensures Newlines(text[..x]) <= Newlines(text)
  {
    if x < |text| {
      assert text[..|text| - 1][..x] == text[..x];
      NewlinesGrow(text[..|text| - 1], x);
    } else {
      assert text[..x] == text;
    }
  }

  // ----- where things land in the written text -----

  /** The growth caused by the edits that begin before `x`. */
  function GrowthBefore(items: seq<Edit>, x: nat): int {
    if items == [] then 0
    else (if items[0].start < x then items[0].Growth() else 0) + GrowthBefore(items[1..], x)
  }

  lemma InsertGrowth(e: Edit, items: seq<Edit>, x: nat)
    ensures GrowthBefore(Insert(e, items), x) == GrowthBefore([e] + items, x)
  {
    assert ([e] + items)[1..] == items;
    if items != [] && !Leq(e, items[0]) {
      InsertGrowth(e, items[1..], x);
      assert ([e] + items[1..])[1..] == items[1..];
    }
  }

  lemma SortedGrowth(items: seq<Edit>, x: nat)
    ensures GrowthBefore(Sorted(items), x) == GrowthBefore(items, x)
  {
    if items != [] {
      SortedGrowth(items[1..], x);
      InsertGrowth(items[0], Sorted(items[1..]), x);
      assert [items[0]] + Sorted(items[1..]) == [items[0]] + Sorted(items[1..]);
      assert ([items[0]] + Sorted(items[1..]))[1..] == Sorted(items[1..]);
    }
  }

  lemma NothingBefore(items: seq<Edit>, x: nat)
    requires Spread(items, x)
    ensures GrowthBefore(items, x) == 0
  {
    if items != [] {
      SpreadFrom(items[1..], items[0].end, x);
      NothingBefore(items[1..], x);
    }
  }

  lemma SpreadFrom(items: seq<Edit>, from: nat, x: nat)
    requires Spread(items, from) && x <= from
    ensures Spread(items, x)
  {
  }

  /** Sorted edits of a batch, all past the point where the pass stands. */
  ghost predicate Ready(text: string, items: seq<Edit>, last: nat) {
    last <= |text| && Within(text, items) && Separate(items) && Spread(items, last)
  }

  lemma ReadyTail(text: string, items: seq<Edit>, last: nat)
    requires items != [] && Ready(text, items, last)
    ensures last <= items[0].start <= items[0].end <= |text| && Ready(text, items[1..], items[0].end)
    ensures GrowthBefore(items, items[0].start) == 0
  {
    assert items[0] in items;
    NothingBefore(items, items[0].start);
  }

  lemma LaterGrowth(text: string, items: seq<Edit>, last: nat, e: Edit)
    requires items != [] && Ready(text, items, last) && e in items[1..]
    ensures GrowthBefore(items, e.start)
         == |items[0].after| - (items[0].end - items[0].start) + GrowthBefore(items[1..], e.start)
  {
    SpreadStarts(items[1..], items[0].end, e);
    assert Apart(items[0], e);
  }

  /** `piece` is in `text` at offset `at`. */
  predicate Holds(text: string, at: int, piece: string) {
    0 <= at && at + |piece| <= |text| && text[at..at + |piece|] == piece
  }

  lemma HoldsLater(a: string, b: string, c: string, at: int, piece: string)
    requires Holds(c, at, piece)
    ensures Holds(a + (b + c), |a| + |b| + at, piece)
  {
    var all := a + (b + c);
    assert all[|a| + |b|..] == c;
    assert all[|a| + |b| + at..|a| + |b| + at + |piece|] == c[at..at + |piece|];
  }

  lemma HoldsMiddle(a: string, b: string, c: string)
    ensures Holds(a + (b + c), |a|, b)
  {
  }

  lemma SliceHolds(text: string, a: nat, b: nat, c: string, x: nat)
    requires a <= b <= |text|
    ensures |Slice(text, a, b)| == b - a
    ensures a <= x < b ==> Holds(Slice(text, a, b) + c, x - a, [text[x]])
  {
    if a <= x < b {
      assert (Slice(text, a, b) + c)[x - a..x - a + 1] == [text[x]];
    }
  }

  /** Untouched text is kept: offset `x` moves by what was inserted before it. */
  lemma {:induction false} SpliceKeeps(text: string, items: seq<Edit>, last: nat, x: nat)
    requires Within(text, items) && Separate(items) && Spread(items, last) && last <= x < |text|
    requires forall e | e in items :: !(e.start <= x < e.end)
    ensures Holds(SpliceFrom(text, items, last), x - last + GrowthBefore(items, x + 1), [text[x]])
  {
    hide Holds, Slice;
    if items == [] {
      SliceHolds(text, last, |text|, "", x);
      assert Slice(text, last, |text|) + "" == Slice(text, last, |text|);
    } else {
      var e, rest := items[0], items[1..];
      assert e in items;
      var c := SpliceFrom(text, rest, e.end);
      SliceHolds(text, last, e.start, e.after + c, x);
      if x < e.start {
        SpreadFrom(items, e.start, x + 1);
        NothingBefore(items, x + 1);
      } else {
        SpliceKeeps(text, rest, e.end, x);
        HoldsLater(Slice(text, last, e.start), e.after, c, x - e.end + GrowthBefore(rest, x + 1), [text[x]]);
      }
    }
  }

  lemma {:induction false} SpliceLength(text: string, items: seq<Edit>, last: nat)
    requires Within(text, items) && Spread(items, last) && last <= |text|
    ensures |SpliceFrom(text, items, last)| == |text| - last + GrowthBefore(items, |text| + 1)
  {
    if items != [] {
      assert items[0] in items;
      SpliceLength(text, items[1..], items[0].end);
    }
  }

  /** Every replacement is in the written text verbatim. */
  lemma {:induction false} SpliceHolds(text: string, items: seq<Edit>, last: nat, e: Edit)
    requires Ready(text, items, last) && e in items
    ensures Holds(SpliceFrom(text, items, last), e.start - last + GrowthBefore(items, e.start), e.after)
  {
    hide Holds, Slice;
    var first, rest := items[0], items[1..];
    assert first in items;
    var a, c := Slice(text, last, first.start), SpliceFrom(text, rest, first.end);
    SliceHolds(text, last, first.start, c, last);
    if e == first {
      SpreadFrom(rest, first.end, first.start);
      NothingBefore(rest, first.start);
      HoldsMiddle(a, e.after, c);
    } else {
      assert e in rest && Apart(first, e);
      SpliceHolds(text, rest, first.end, e);
      SpreadStarts(rest, first.end, e);
      HoldsLater(a, first.after, c, e.start - first.end + GrowthBefore(rest, e.start), e.after);
    }
  }

  lemma SpreadStarts(items: seq<Edit>, from: nat, e: Edit)
    requires Spread(items, from) && e in items
    ensures from <= e.start
  {
    if e != items[0] { SpreadStarts(items[1..], items[0].end, e); }
  }

  // ----- the order `attribute` rebuilds in -----

  datatype Indexed = Indexed(index: nat, item: Item)

  /** `by_path[path]`: the file's mutations with their places in the group. */
  function Members(group: seq<Item>, path: string): seq<Indexed> {
    if group == [] then []
    else
      var n := |group| - 1;
      Members(group[..n], path) + (if group[n].path == path then [Indexed(n, group[n])] else [])
  }

  function InsertByStart(x: Indexed, members: seq<Indexed>): seq<Indexed> {
    if members == [] || x.item.start <= members[0].item.start then [x] + members
    else [members[0]] + InsertByStart(x, members[1..])
  }

  /** `sorted(group, key=lambda pair: pair[1].start)`: by start alone, otherwise as listed. */
  function ByStart(members: seq<Indexed>): seq<Indexed> {
    if members == [] then [] else InsertByStart(members[0], ByStart(members[1..]))
  }

  function Edits(members: seq<Indexed>): seq<Edit> {
    if members == [] then [] else [EditOf(members[0].item)] + Edits(members[1..])
  }

  /** Edits that begin together are listed in the order of their tuples. */
  predicate TiesInOrder(items: seq<Edit>) {
    || items == []
    || ((forall f | f in items[1..] && f.start == items[0].start :: Leq(items[0], f)) && TiesInOrder(items[1..]))
  }

  predicate StartsAscend(items: seq<Edit>) {
    items == [] || ((forall f | f in items[1..] :: items[0].start <= f.start) && StartsAscend(items[1..]))
  }

  lemma InsertByStartKeeps(x: Indexed, members: seq<Indexed>)
    requires StartsAscend(Edits(members))
    ensures StartsAscend(Edits(InsertByStart(x, members)))
    ensures forall e :: e in Edits(InsertByStart(x, members)) <==> e == EditOf(x.item) || e in Edits(members)
    ensures forall y :: y in InsertByStart(x, members) <==> y == x || y in members
  {
    if members != [] && x.item.start > members[0].item.start {
      InsertByStartKeeps(x, members[1..]);
    }
  }

  lemma ByStartKeeps(members: seq<Indexed>)
    ensures StartsAscend(Edits(ByStart(members)))
    ensures forall e :: e in Edits(ByStart(members)) <==> e in Edits(members)
    ensures forall y :: y in ByStart(members) <==> y in members
  {
    if members != [] {
      ByStartKeeps(members[1..]);
      InsertByStartKeeps(members[0], ByStart(members[1..]));
    }
  }

  lemma {:induction false} InsertByStartAgrees(x: Indexed, members: seq<Indexed>)
    requires forall f | f in Edits(members) && f.start == x.item.start :: Leq(EditOf(x.item), f)
    ensures Edits(InsertByStart(x, members)) == Insert(EditOf(x.item), Edits(members))
  {
    if members != [] {
      var f := EditOf(members[0].item);
      assert f in Edits(members) && Edits(members) == [f] + Edits(members[1..]);
      if x.item.start > f.start {
        InsertByStartAgrees(x, members[1..]);
      }
    }
  }

  lemma {:induction false} InsertByStartOrdered(x: Indexed, members: seq<Indexed>)
    requires StartsAscend(Edits(members)) && Ordered(Edits(InsertByStart(x, members)))
    ensures Ordered(Edits(members))
    ensures forall f | f in Edits(members) && f.start == x.item.start :: Leq(EditOf(x.item), f)
  {
    if members != [] {
      var inserted := Edits(InsertByStart(x, members));
      if x.item.start <= members[0].item.start {
        assert inserted[1..] == Edits(members);
      } else {
        assert inserted[1..] == Edits(InsertByStart(x, members[1..]));
        assert Edits(members)[1..] == Edits(members[1..]);
        InsertByStartOrdered(x, members[1..]);
        InsertByStartKeeps(x, members[1..]);
      }
    }
  }

  /** `attribute` splices in the order `apply` does exactly when mutations of one file that
      begin together are listed in tuple order. */
  lemma {:induction false} RebuildOrder(members: seq<Indexed>)
    ensures Edits(ByStart(members)) == Sorted(Edits(members)) <==> TiesInOrder(Edits(members))
  {
    SortedSorts(Edits(members));
    if members != [] {
      assert Edits(members)[1..] == Edits(members[1..]);
      RebuildOrder(members[1..]);
      ByStartKeeps(members[1..]);
      if TiesInOrder(Edits(members)) {
        InsertByStartAgrees(members[0], ByStart(members[1..]));
      }
      if Edits(ByStart(members)) == Sorted(Edits(members)) {
        InsertByStartOrdered(members[0], ByStart(members[1..]));
        ByStartMultiset(members[1..]);
        SortedSorts(Edits(members[1..]));
        OrderedIsUnique(Edits(ByStart(members[1..])), Sorted(Edits(members[1..])));
      }
    }
  }

  lemma ByStartMultiset(members: seq<Indexed>)
    ensures multiset(Edits(ByStart(members))) == multiset(Edits(members))
  {
    if members != [] {
      ByStartMultiset(members[1..]);
      InsertByStartMultiset(members[0], ByStart(members[1..]));
    }
  }

  lemma InsertByStartMultiset(x: Indexed, members: seq<Indexed>)
    ensures multiset(Edits(InsertByStart(x, members))) == multiset{EditOf(x.item)} + multiset(Edits(members))
  {
    if members != [] && x.item.start > members[0].item.start {
      InsertByStartMultiset(x, members[1..]);
    }
  }

  // ----- the spans and the hits of one file -----

  /** Where a replacement begins in the written text, and the mutation it belongs to. */
  datatype Span = Span(start: nat, end: nat, index: nat)

  /** The spans noted from the point where `last` is read and `at` is written. */
  function SpansFrom(text: string, members: seq<Indexed>, last: nat, at: nat): (spans: seq<Span>)
    ensures |spans| == |members|
    ensures forall k | 0 <= k < |members| :: spans[k].index == members[k].index
    ensures forall k | 0 <= k < |members| :: spans[k].end == spans[k].start + |members[k].item.after|
  {
    if members == [] then []
    else
      var item := members[0].item;
      var start := at + |Slice(text, last, item.start)|;
      [Span(start, start + |item.after|, members[0].index)]
      + SpansFrom(text, members[1..], item.end, start + |item.after|)
  }

  lemma TextTurn(text: string, members: seq<Indexed>, last: nat, written: string)
    requires members != []
    ensures var item := members[0].item;
      written + SpliceFrom(text, Edits(members), last)
      == written + Slice(text, last, item.start) + item.after + SpliceFrom(text, Edits(members[1..]), item.end)
  {
    var item := members[0].item;
    EditsTail(members);
    hide *;
    Unfold(text, Edits(members), last);
    Regroup(written, Slice(text, last, item.start), item.after, SpliceFrom(text, Edits(members[1..]), item.end));
  }

  lemma EditsTail(members: seq<Indexed>)
    requires members != []
    ensures Edits(members) != [] && Edits(members)[1..] == Edits(members[1..])
    ensures Edits(members)[0] == EditOf(members[0].item)
      == Replacement(members[0].item.start, members[0].item.end, members[0].item.after)
  {
  }

  lemma SpanTurn(text: string, members: seq<Indexed>, last: nat, at: nat, spans: seq<Span>)
    requires members != []
    ensures var item := members[0].item;
      var start := at + |Slice(text, last, item.start)|;
      spans + SpansFrom(text, members, last, at)
      == spans + [Span(start, start + |item.after|, members[0].index)]
         + SpansFrom(text, members[1..], item.end, start + |item.after|)
  {
    hide Slice;
  }

  /** What has been rebuilt when `k` members are done and the text is read up to `last`. */
  ghost predicate Underway(text: string, members: seq<Indexed>, k: nat, last: nat, mutated: string, spans: seq<Span>)
    requires k <= |members|
  {
    && mutated + SpliceFrom(text, Edits(members[k..]), last) == SpliceFrom(text, Edits(members), 0)
    && spans + SpansFrom(text, members[k..], last, |mutated|) == SpansFrom(text, members, 0, 0)
  }

  lemma Turn(text: string, members: seq<Indexed>, k: nat, last: nat, mutated: string, spans: seq<Span>)
    requires k < |members| && Underway(text, members, k, last, mutated, spans)
    ensures var item := members[k].item;
      var at := |mutated + Slice(text, last, item.start)|;
      Underway(text, members, k + 1, item.end, mutated + Slice(text, last, item.start) + item.after,
        spans + [Span(at, at + |item.after|, members[k].index)])
  {
    hide SpliceFrom, SpansFrom, Edits, Slice;
    assert members[k..][1..] == members[k + 1..];
    TextTurn(text, members[k..], last, mutated);
    SpanTurn(text, members[k..], last, |mutated|, spans);
  }

  lemma Ends(text: string, members: seq<Indexed>, last: nat, mutated: string, spans: seq<Span>)
    ensures Underway(text, members, 0, 0, "", [])
    ensures Underway(text, members, |members|, last, mutated, spans) ==>
      && mutated + Slice(text, last, |text|) == SpliceFrom(text, Edits(members), 0)
      && spans == SpansFrom(text, members, 0, 0)
  {
    hide Slice;
    assert members[0..] == members && members[|members|..] == [];
    assert SpliceFrom(text, Edits([]), last) == Slice(text, last, |text|);
  }

  /** The loop that rebuilds one file. */
  method Rebuild(text: string, members: seq<Indexed>) returns (mutated: string, spans: seq<Span>)
    ensures mutated == SpliceFrom(text, Edits(members), 0)
    ensures spans == SpansFrom(text, members, 0, 0)
  {
    hide *;
    mutated, spans := "", [];
    var last := 0;
    Ends(text, members, last, mutated, spans);
    for k := 0 to |members|
      invariant Underway(text, members, k, last, mutated, spans)
    {
      var item := members[k].item;
      Turn(text, members, k, last, mutated, spans);
      mutated := mutated + Slice(text, last, item.start);
      var at := |mutated|;
      mutated := mutated + item.after;
      spans := spans + [Span(at, at + |item.after|, members[k].index)];
      last := item.end;
    }
    Ends(text, members, last, mutated, spans);
    mutated := mutated + Slice(text, last, |text|);
  }

  /** The loop that fills `starts`. */
  method LineStarts(mutated: string) returns (starts: seq<nat>)
    ensures starts == StartTable(Lines(mutated)) && IsLineTable(mutated, starts)
  {
    starts := [0];
    var lines := Lines(mutated);
    for k := 0 to |lines|
      invariant starts == StartTable(lines[..k])
    {
      assert lines[..k + 1][..k] == lines[..k];
      starts := starts + [starts[|starts| - 1] + |lines[k]| + 1];
    }
    assert lines[..|lines|] == lines;
    StartTableIsLineTable(mutated);
  }

  lemma {:induction false} SpansLand(text: string, members: seq<Indexed>, last: nat, at: nat, k: nat)
    requires Ready(text, Edits(members), last) && k < |members|
    ensures SpansFrom(text, members, last, at)[k].start
         == at + members[k].item.start - last + GrowthBefore(Edits(members), members[k].item.start)
  {
    hide *;
    EditsTail(members);
    ReadyTail(text, Edits(members), last);
    SpansNext(text, members, last, at);
    if k > 0 {
      SpansLand(text, members[1..], members[0].item.end,
        at + (members[0].item.start - last) + |members[0].item.after|, k - 1);
      EditsHold(members[1..], k - 1);
      LaterGrowth(text, Edits(members), last, EditOf(members[k].item));
    }
  }

  lemma SpansNext(text: string, members: seq<Indexed>, last: nat, at: nat)
    requires members != [] && last <= members[0].item.start <= |text|
    ensures var item, spans := members[0].item, SpansFrom(text, members, last, at);
      && spans[0].start == at + (item.start - last)
      && spans[1..] == SpansFrom(text, members[1..], item.end, at + (item.start - last) + |item.after|)
  {
  }

  lemma EditsHold(members: seq<Indexed>, k: nat)
    requires k < |members|
    ensures EditOf(members[k].item) in Edits(members) && EditOf(members[k].item).start == members[k].item.start
  {
    if k > 0 { EditsHold(members[1..], k - 1); }
  }

  /** A diagnostic: the path and line the checker printed. */
  datatype Spot = Spot(path: string, line: int)

  /** The comparison the source makes between a table of line starts and a span. */
  predicate Meets(starts: seq<nat>, line: int, span: Span) {
    1 <= line < |starts| && span.start < starts[line] && starts[line - 1] < span.end
  }

  /** What it is meant to say about the text: the line holds a character of the replacement.
      A replacement that is empty is touched when it is inside the line, not at its start. */
  ghost predicate Touches(text: string, at: int, length: nat, line: int) {
    if length > 0 then
      exists x :: at <= x < at + length && 0 <= x <= |text| && LineOf(text, x) == line
    else
      0 < at <= |text| && LineOf(text, at - 1) == line == LineOf(text, at)
  }

  lemma MeetsIsTouches(text: string, starts: seq<nat>, line: int, span: Span)
    requires IsLineTable(text, starts) && span.start <= span.end <= |text|
    ensures Meets(starts, line, span) <==> Touches(text, span.start, span.end - span.start, line)
  {
    forall x | 0 <= x <= |text| && LineOf(text, x) == line ensures 1 <= line < |starts| && OnLine(starts, line, x) {
      NewlinesGrow(text, x);
    }
    if Meets(starts, line, span) {
      var low := starts[line - 1];
      var x := if span.start < low then low else span.start;
      assert OnLine(starts, line, x);
      if span.start == span.end {
        assert OnLine(starts, line, span.start - 1);
      }
    }
  }

  /** The inner loops over the spots and the spans of one file. */
  method Hits(path: string, starts: seq<nat>, spans: seq<Span>, spots: seq<Spot>, posix: string -> string)
    returns (hit: set<nat>)
    ensures forall i :: i in hit <==> exists k, j | 0 <= k < |spots| && 0 <= j < |spans| ::
      posix(spots[k].path) == posix(path) && Meets(starts, spots[k].line, spans[j]) && spans[j].index == i
  {
    hit := {};
    for k := 0 to |spots|
      invariant forall i :: i in hit <==> exists k', j | 0 <= k' < k && 0 <= j < |spans| ::
        posix(spots[k'].path) == posix(path) && Meets(starts, spots[k'].line, spans[j]) && spans[j].index == i
    {
      if posix(spots[k].path) == posix(path) {
        ghost var before := hit;
        for j := 0 to |spans|
          invariant forall i :: i in hit <==>
            (i in before || exists j' | 0 <= j' < j :: Meets(starts, spots[k].line, spans[j']) && spans[j'].index == i)
        {
          if Meets(starts, spots[k].line, spans[j]) {
            hit := hit + {spans[j].index};
          }
        }
      }
    }
  }

  // ----- the whole group -----

  /** The text that `attribute` rebuilds for a file. */
  function Rebuilt(group: seq<Item>, path: string, text: string): string {
    SpliceFrom(text, Edits(ByStart(Members(group, path))), 0)
  }

  /** Anchors that keep apart, or any number of empty ones in an empty file. */
  ghost predicate Writable(group: seq<Item>, path: string, text: string) {
    || (Within(text, EditsOf(group, path)) && Separate(EditsOf(group, path)))
    || (text == "" && forall e | e in EditsOf(group, path) :: e.start == e.end == 0)
  }

  /** The growth of the mutations among `items` that begin at `start`. */
  function AheadIn(items: seq<Item>, path: string, start: nat): int {
    if items == [] then 0
    else
      var n := |items| - 1;
      AheadIn(items[..n], path, start)
      + (if items[n].path == path && items[n].start == start then EditOf(items[n]).Growth() else 0)
  }

  /** Where mutation `i` begins in the rebuilt text: what grew before its anchor, and what was
      listed before it and begins there too. */
  function LandsAt(group: seq<Item>, i: nat): int
    requires i < |group|
  {
    group[i].start + GrowthBefore(EditsOf(group, group[i].path), group[i].start)
    + AheadIn(group[..i], group[i].path, group[i].start)
  }

  /** The diagnostic is about the file of mutation `i` and its line touches the replacement, in
      the rebuilt text. */
  ghost predicate NamedBy(group: seq<Item>, texts: map<string, string>, posix: string -> string, i: nat, spot: Spot)
    requires i < |group| && group[i].path in texts
  {
    && posix(spot.path) == posix(group[i].path)
    && Touches(Rebuilt(group, group[i].path, texts[group[i].path]), LandsAt(group, i), |group[i].after|, spot.line)
  }

  ghost predicate Named(group: seq<Item>, texts: map<string, string>, posix: string -> string, i: nat, spots: seq<Spot>)
    requires i < |group| && group[i].path in texts
  {
    exists k | 0 <= k < |spots| :: NamedBy(group, texts, posix, i, spots[k])
  }

  lemma EditsAppend(members: seq<Indexed>, x: Indexed)
    ensures Edits(members + [x]) == Edits(members) + [EditOf(x.item)]
  {
    if members == [] {
      OneMember(x.index, x.item);
      assert members + [x] == [x];
    } else {
      assert (members + [x])[1..] == members[1..] + [x];
      EditsAppend(members[1..], x);
    }
  }

  lemma {:induction false} MembersEdits(group: seq<Item>, path: string)
    ensures Edits(Members(group, path)) == EditsOf(group, path)
  {
    if group != [] {
      var n := |group| - 1;
      MembersEdits(group[..n], path);
      if group[n].path == path {
        EditsAppend(Members(group[..n], path), Indexed(n, group[n]));
      } else {
        assert Members(group, path) == Members(group[..n], path);
        assert EditsOf(group, path) == EditsOf(group[..n], path);
      }
    }
  }

  lemma {:induction false} MembersAre(group: seq<Item>, path: string)
    ensures forall y :: y in Members(group, path) <==>
      y.index < |group| && group[y.index].path == path && y.item == group[y.index]
  {
    if group != [] {
      MembersAre(group[..|group| - 1], path);
    }
  }

  lemma SeparateHasNoTies(items: seq<Edit>)
    requires Separate(items)
    ensures TiesInOrder(items)
  {
    if items != [] {
      SeparateHasNoTies(items[1..]);
      assert forall f | f in items[1..] :: Apart(items[0], f);
    }
  }

  /** On edits that keep apart, `attribute` rebuilds what `apply` wrote. */
  lemma RebuiltIsWritten(group: seq<Item>, path: string, text: string)
    requires Within(text, EditsOf(group, path)) && Separate(EditsOf(group, path))
    ensures Edits(ByStart(Members(group, path))) == Sorted(EditsOf(group, path))
    ensures SpliceFrom(text, Edits(ByStart(Members(group, path))), 0) == Spliced(text, EditsOf(group, path))
    ensures Ready(text, Sorted(EditsOf(group, path)), 0)
  {
    var edits := EditsOf(group, path);
    MembersEdits(group, path);
    SeparateHasNoTies(edits);
    RebuildOrder(Members(group, path));
    SortedKeeps(edits);
    SortedSorts(edits);
    SeparateIgnoresOrder(edits, Sorted(edits));
    SortedIsSpread(edits);
  }

  /** Nothing that keeps apart begins together. */
  lemma {:induction false} SeparateDiffers(group: seq<Item>, path: string)
    requires Separate(EditsOf(group, path))
    ensures StartsDiffer(group, path)
  {
    if group != [] {
      var n := |group| - 1;
      if group[n].path == path {
        SeparateAppend(EditsOf(group[..n], path), EditOf(group[n]));
        forall i | 0 <= i < n && group[i].path == path ensures group[i].start != group[n].start {
          assert group[i] == group[..n][i];
          EditListed(group[..n], i);
        }
      } else {
        assert EditsOf(group, path) == EditsOf(group[..n], path);
      }
      SeparateDiffers(group[..n], path);
      DifferParts(group, path);
    }
  }

  lemma {:induction false} NothingAhead(group: seq<Item>, n: nat, path: string, start: nat)
    requires n <= |group| && forall j | 0 <= j < n && group[j].path == path :: group[j].start != start
    ensures AheadIn(group[..n], path, start) == 0
  {
    if n > 0 {
      assert group[..n][..n - 1] == group[..n - 1];
      NothingAhead(group, n - 1, path, start);
    }
  }

  lemma LandsApart(group: seq<Item>, i: nat)
    requires i < |group| && Separate(EditsOf(group, group[i].path))
    ensures LandsAt(group, i) == group[i].start + GrowthBefore(EditsOf(group, group[i].path), group[i].start)
  {
    SeparateDiffers(group, group[i].path);
    NothingAhead(group, i, group[i].path, group[i].start);
  }

  /** In the text that `apply` writes, mutation `i` begins at `LandsAt` and is there verbatim. */
  lemma ReplacementLands(group: seq<Item>, text: string, i: nat)
    requires i < |group|
    requires Within(text, EditsOf(group, group[i].path)) && Separate(EditsOf(group, group[i].path))
    ensures Holds(Spliced(text, EditsOf(group, group[i].path)), LandsAt(group, i), group[i].after)
  {
    hide *;
    var edits := EditsOf(group, group[i].path);
    RebuiltIsWritten(group, group[i].path, text);
    SortedGrowth(edits, EditOf(group[i]).start);
    SortedKeeps(edits);
    EditListed(group, i);
    SpliceHolds(text, Sorted(edits), 0, EditOf(group[i]));
    LandsApart(group, i);
    EditOfIs(group[i]);
  }

  lemma EditOfIs(item: Item)
    ensures EditOf(item).start == item.start && EditOf(item).end == item.end && EditOf(item).after == item.after
  {
  }

  // ----- empty anchors in an empty file -----

  function Afters(members: seq<Indexed>): nat {
    if members == [] then 0 else Afters(members[..|members| - 1]) + |members[|members| - 1].item.after|
  }

  ghost predicate AllAtZero(members: seq<Indexed>) {
    forall k | 0 <= k < |members| :: members[k].item.start == members[k].item.end == 0
  }

  lemma {:induction false} ByStartAtZero(members: seq<Indexed>)
    requires AllAtZero(members)
    ensures ByStart(members) == members
  {
    if members != [] {
      assert AllAtZero(members[1..]);
      ByStartAtZero(members[1..]);
      assert members == [members[0]] + members[1..];
    }
  }

  lemma {:induction false} AftersTail(members: seq<Indexed>, k: nat)
    requires 0 < k <= |members|
    ensures Afters(members[..k]) == |members[0].item.after| + Afters(members[1..][..k - 1])
  {
    assert members[..k][..k - 1] == members[..k - 1];
    if k > 1 {
      AftersTail(members, k - 1);
      assert members[1..][..k - 1][..k - 2] == members[1..][..k - 2];
    } else {
      assert members[1..][..0] == [];
    }
  }

  /** The replacements stand one behind the other, as listed. */
  lemma {:induction false} SpansAtZero(members: seq<Indexed>, at: nat, k: nat)
    requires AllAtZero(members) && k < |members|
    ensures SpansFrom("", members, 0, at)[k].start == at + Afters(members[..k])
    ensures Holds(SpliceFrom("", Edits(members), 0), Afters(members[..k]), members[k].item.after)
  {
    hide *;
    var first, rest := members[0].item, members[1..];
    RestAtZero(members);
    SpliceAtZero("", members);
    SpansNext("", members, 0, at);
    var c := SpliceFrom("", Edits(rest), 0);
    if k == 0 {
      HoldsMiddle("", first.after, c);
      NoAfters(members);
    } else {
      SpansAtZero(rest, at + |first.after|, k - 1);
      AftersTail(members, k);
      HoldsLater("", first.after, c, Afters(rest[..k - 1]), members[k].item.after);
      assert rest[k - 1] == members[k];
    }
  }

  lemma NoAfters(members: seq<Indexed>)
    ensures Afters(members[..0]) == 0
  {
  }

  lemma RestAtZero(members: seq<Indexed>)
    requires members != [] && AllAtZero(members)
    ensures AllAtZero(members[1..]) && members[0].item.start == members[0].item.end == 0
  {
  }

  lemma SpliceAtZero(text: string, members: seq<Indexed>)
    requires text == "" && members != [] && members[0].item.start == members[0].item.end == 0
    ensures SpliceFrom(text, Edits(members), 0)
         == text + (members[0].item.after + SpliceFrom(text, Edits(members[1..]), 0))
  {
    EditsTail(members);
  }

  lemma {:induction false} AheadAtZero(group: seq<Item>, path: string)
    requires AllAtZero(Members(group, path))
    ensures AheadIn(group, path, 0) == Afters(Members(group, path))
  {
    if group != [] {
      var n := |group| - 1;
      var before := Members(group[..n], path);
      if group[n].path == path {
        assert Members(group, path)[..|before|] == before;
        assert Members(group, path)[|before|] == Indexed(n, group[n]);
        assert Members(group, path)[|before|].item.start == Members(group, path)[|before|].item.end == 0;
      } else {
        assert Members(group, path) == before;
      }
      assert forall k | 0 <= k < |before| :: before[k] == Members(group, path)[k];
      AheadAtZero(group[..n], path);
    }
  }

  lemma {:induction false} AheadOfMember(group: seq<Item>, path: string, k: nat)
    requires AllAtZero(Members(group, path)) && k < |Members(group, path)|
    ensures var i := Members(group, path)[k].index;
      i < |group| && AheadIn(group[..i], path, 0) == Afters(Members(group, path)[..k])
  {
    var n := |group| - 1;
    var before := Members(group[..n], path);
    assert forall j | 0 <= j < |before| :: before[j] == Members(group, path)[j];
    if k < |before| {
      AheadOfMember(group[..n], path, k);
      assert before[..k] == Members(group, path)[..k];
      var i := before[k].index;
      assert group[..n][..i] == group[..i];
    } else {
      AheadAtZero(group[..n], path);
      assert Members(group, path)[..k] == before;
    }
  }

  lemma GrowthFromZero(items: seq<Edit>)
    ensures GrowthBefore(items, 0) == 0
  {
  }

  lemma ZeroMembers(group: seq<Item>, path: string)
    requires forall e | e in EditsOf(group, path) :: e.start == e.end == 0
    ensures AllAtZero(Members(group, path))
  {
    MembersAre(group, path);
    forall k | 0 <= k < |Members(group, path)|
      ensures Members(group, path)[k].item.start == Members(group, path)[k].item.end == 0
    {
      assert Members(group, path)[k] in Members(group, path);
      EditListed(group, Members(group, path)[k].index);
    }
  }

  // ----- what the arrays of one file say -----

  /** What the arrays of one file say about one mutation. */
  lemma SpanOf(group: seq<Item>, path: string, text: string, j: nat)
    requires Writable(group, path, text) && j < |ByStart(Members(group, path))|
    ensures var span := SpansFrom(text, ByStart(Members(group, path)), 0, 0)[j];
      && span.index < |group| && group[span.index].path == path
      && span.start == LandsAt(group, span.index)
      && span.end == span.start + |group[span.index].after|
      && Holds(Rebuilt(group, path, text), span.start, group[span.index].after)
  {
    if Within(text, EditsOf(group, path)) && Separate(EditsOf(group, path)) {
      SpanApart(group, path, text, j);
    } else {
      SpanAtZero(group, path, j);
    }
  }

  lemma SpanApart(group: seq<Item>, path: string, text: string, j: nat)
    requires Within(text, EditsOf(group, path)) && Separate(EditsOf(group, path))
    requires j < |ByStart(Members(group, path))|
    ensures var span := SpansFrom(text, ByStart(Members(group, path)), 0, 0)[j];
      && span.index < |group| && group[span.index].path == path
      && span.start == LandsAt(group, span.index)
      && span.end == span.start + |group[span.index].after|
      && Holds(Rebuilt(group, path, text), span.start, group[span.index].after)
  {
    var members := ByStart(Members(group, path));
    RebuiltIsWritten(group, path, text);
    MembersAre(group, path);
    ByStartKeeps(Members(group, path));
    assert members[j] in members;
    SortedGrowth(EditsOf(group, path), members[j].item.start);
    hide Members, GrowthBefore, EditsOf, Edits, ByStart, LandsAt;
    SpansLand(text, members, 0, 0, j);
    LandsApart(group, members[j].index);
    ReplacementLands(group, text, members[j].index);
  }

  lemma SpanAtZero(group: seq<Item>, path: string, j: nat)
    requires (forall e | e in EditsOf(group, path) :: e.start == e.end == 0) && j < |ByStart(Members(group, path))|
    ensures var span := SpansFrom("", ByStart(Members(group, path)), 0, 0)[j];
      && span.index < |group| && group[span.index].path == path
      && span.start == LandsAt(group, span.index)
      && span.end == span.start + |group[span.index].after|
      && Holds(Rebuilt(group, path, ""), span.start, group[span.index].after)
  {
    hide *;
    var members := Members(group, path);
    ZeroMembers(group, path);
    ByStartAtZero(members);
    MemberAtZero(group, path, j);
    SpansAtZero(members, 0, j);
    AheadOfMember(group, path, j);
    LandsAtZero(group, members[j].index);
    RebuiltAtZero(group, path);
    SpanShape(members, j);
  }

  lemma MemberAtZero(group: seq<Item>, path: string, j: nat)
    requires AllAtZero(Members(group, path)) && j < |Members(group, path)|
    ensures var m := Members(group, path)[j];
      m.index < |group| && m.item == group[m.index] && m.item.path == path && m.item.start == 0
  {
    MembersAre(group, path);
    assert Members(group, path)[j] in Members(group, path);
  }

  lemma LandsAtZero(group: seq<Item>, i: nat)
    requires i < |group| && group[i].start == 0
    ensures LandsAt(group, i) == AheadIn(group[..i], group[i].path, 0)
  {
    GrowthFromZero(EditsOf(group, group[i].path));
  }

  lemma RebuiltAtZero(group: seq<Item>, path: string)
    ensures Rebuilt(group, path, "") == SpliceFrom("", Edits(ByStart(Members(group, path))), 0)
  {
  }

  lemma SpanShape(members: seq<Indexed>, j: nat)
    requires j < |members|
    ensures var span := SpansFrom("", members, 0, 0)[j];
      span.index == members[j].index && span.end == span.start + |members[j].item.after|
  {
  }

  lemma SpanHit(group: seq<Item>, texts: map<string, string>, posix: string -> string, path: string,
                starts: seq<nat>, spot: Spot, j: nat)
    requires path in texts && Writable(group, path, texts[path])
    requires IsLineTable(Rebuilt(group, path, texts[path]), starts)
    requires j < |ByStart(Members(group, path))|
    ensures var span := SpansFrom(texts[path], ByStart(Members(group, path)), 0, 0)[j];
      && span.index < |group| && group[span.index].path == path
      && (posix(spot.path) == posix(path) && Meets(starts, spot.line, span)
          <==> NamedBy(group, texts, posix, span.index, spot))
  {
    SpanOf(group, path, texts[path], j);
    hide IsLineTable, Meets, Touches, Rebuilt, EditsOf, Members, ByStart, GrowthBefore, Writable, LandsAt;
    MeetsIsTouches(Rebuilt(group, path, texts[path]), starts, spot.line,
      SpansFrom(texts[path], ByStart(Members(group, path)), 0, 0)[j]);
  }

  lemma SpanOfEach(group: seq<Item>, path: string, text: string, i: nat) returns (j: nat)
    requires i < |group| && group[i].path == path
    ensures j < |ByStart(Members(group, path))|
    ensures SpansFrom(text, ByStart(Members(group, path)), 0, 0)[j].index == i
  {
    var members := ByStart(Members(group, path));
    MembersAre(group, path);
    ByStartKeeps(Members(group, path));
    assert Indexed(i, group[i]) in members;
    j :| 0 <= j < |members| && members[j] == Indexed(i, group[i]);
  }

  lemma FileHits(group: seq<Item>, texts: map<string, string>, posix: string -> string, path: string,
                 starts: seq<nat>, spots: seq<Spot>, hits: set<nat>)
    requires path in texts && Writable(group, path, texts[path])
    requires IsLineTable(Rebuilt(group, path, texts[path]), starts)
    requires var spans := SpansFrom(texts[path], ByStart(Members(group, path)), 0, 0);
      forall i :: i in hits <==> exists k, j | 0 <= k < |spots| && 0 <= j < |spans| ::
        posix(spots[k].path) == posix(path) && Meets(starts, spots[k].line, spans[j]) && spans[j].index == i
    ensures forall i: nat :: i in hits <==>
      (i < |group| && group[i].path == path && Named(group, texts, posix, i, spots))
  {
    var spans := SpansFrom(texts[path], ByStart(Members(group, path)), 0, 0);
    forall k, j | 0 <= k < |spots| && 0 <= j < |spans|
      ensures spans[j].index < |group| && group[spans[j].index].path == path
      ensures posix(spots[k].path) == posix(path) && Meets(starts, spots[k].line, spans[j])
        <==> NamedBy(group, texts, posix, spans[j].index, spots[k])
    {
      SpanHit(group, texts, posix, path, starts, spots[k], j);
    }
    hide SpansFrom, ByStart, Members, Edits, EditsOf, Meets, NamedBy, IsLineTable, Rebuilt, Writable;
    forall i: nat | i < |group| && group[i].path == path && Named(group, texts, posix, i, spots) ensures i in hits {
      var k :| 0 <= k < |spots| && NamedBy(group, texts, posix, i, spots[k]);
      var j := SpanOfEach(group, path, texts[path], i);
      assert posix(spots[k].path) == posix(path) && Meets(starts, spots[k].line, spans[j]);
    }
  }

  lemma RebuiltIs(group: seq<Item>, path: string, text: string)
    ensures Rebuilt(group, path, text) == SpliceFrom(text, Edits(ByStart(Members(group, path))), 0)
  {
  }

  /** One turn of the outer loop: the hits in one file. */
  method AttributeFile(group: seq<Item>, path: string, spots: seq<Spot>, texts: map<string, string>,
                       posix: string -> string) returns (hits: set<nat>)
    requires path in texts && Writable(group, path, texts[path])
    requires forall i | 0 <= i < |group| :: group[i].path in texts
    ensures forall i: nat :: i in hits <==>
      (i < |group| && group[i].path == path && Named(group, texts, posix, i, spots))
  {
    hide *;
    var members := ByStart(Members(group, path));
    var mutated, spans := Rebuild(texts[path], members);
    RebuiltIs(group, path, texts[path]);
    var starts := LineStarts(mutated);
    hits := Hits(path, starts, spans, spots, posix);
    FileHits(group, texts, posix, path, starts, spots, hits);
  }

  /** Every anchor is one that `collect` finds. */
  ghost predicate AllResolved(group: seq<Item>, texts: map<string, string>) {
    forall i | 0 <= i < |group| :: group[i].path in texts && Resolved(group[i], texts[group[i].path])
  }

  /** Every group that may share a batch can be rebuilt. */
  lemma ResolvedIsWritable(group: seq<Item>, path: string, texts: map<string, string>)
    requires Peaceful(group) && AllResolved(group, texts)
    ensures path in texts ==> Writable(group, path, texts[path])
    ensures path in texts && texts[path] != "" ==>
      Within(texts[path], EditsOf(group, path)) && Separate(EditsOf(group, path))
  {
    if path in texts {
      EditsOfOrigin(group, path);
      if texts[path] != "" {
        ResolvedStartsDiffer(group, path, texts[path]);
        PeacefulIsSeparate(group, path);
      }
    }
  }

  /** For every batch that `batched` makes of mutations that `collect` found, `attribute` may be
      asked, and in every file that is not empty the text it goes by is the one on disk. */
  lemma BatchIsAttributable(items: seq<Item>, b: nat, texts: map<string, string>, path: string)
    requires b < |Packed(items)|
    requires forall i | 0 <= i < |items| :: items[i].path in texts && Resolved(items[i], texts[items[i].path])
    ensures var group := Packed(items)[b];
      && Peaceful(group) && AllResolved(group, texts)
      && (path in texts && texts[path] != "" ==>
          Rebuilt(group, path, texts[path]) == Spliced(texts[path], EditsOf(group, path)))
  {
    var group := Packed(items)[b];
    PackedAre(items, b);
    PackedIsPeaceful(items, b);
    ResolvedIsWritable(group, path, texts);
    if path in texts && texts[path] != "" { RebuiltIsWritten(group, path, texts[path]); }
  }

  /** In an empty file `attribute` rebuilds the replacements as listed and `apply` writes them as
      sorted, so the two texts agree exactly when the replacements read alike in both orders. */
  lemma TiedIsRebuiltExactlyWhen(group: seq<Item>, path: string)
    requires forall e | e in EditsOf(group, path) :: e.start == e.end == 0
    ensures var edits := EditsOf(group, path);
      Rebuilt(group, path, "") == Spliced("", edits) <==> Concat(edits) == Concat(Sorted(edits))
  {
    var edits := EditsOf(group, path);
    MembersEdits(group, path);
    ZeroMembers(group, path);
    ByStartAtZero(Members(group, path));
    SplicedIntoNothing(edits);
    EmptyFileIsWritten(edits);
  }

  /** For every batch of mutations that were found: the rebuilt text is the one on disk, unless
      the file is empty and its replacements read otherwise in the order of the strings. */
  lemma BatchIsRebuiltExactlyWhen(items: seq<Item>, b: nat, texts: map<string, string>, path: string)
    requires b < |Packed(items)| && path in texts
    requires forall i | 0 <= i < |items| :: items[i].path in texts && Resolved(items[i], texts[items[i].path])
    ensures var edits := EditsOf(Packed(items)[b], path);
      Rebuilt(Packed(items)[b], path, texts[path]) == Spliced(texts[path], edits)
      <==> texts[path] != "" || Concat(edits) == Concat(Sorted(edits))
  {
    hide *;
    var group := Packed(items)[b];
    BatchIsAttributable(items, b, texts, path);
    if texts[path] == "" {
      ResolvedAtZero(group, path, texts);
      TiedIsRebuiltExactlyWhen(group, path);
    }
  }

  lemma ResolvedAtZero(group: seq<Item>, path: string, texts: map<string, string>)
    requires AllResolved(group, texts) && path in texts && texts[path] == ""
    ensures forall e | e in EditsOf(group, path) :: e.start == e.end == 0
  {
    EditsOfOrigin(group, path);
  }

  /** `attribute`: which mutations the checker's own file and line land in. */
  method Attribute(group: seq<Item>, spots: seq<Spot>, texts: map<string, string>, posix: string -> string)
    returns (hit: set<nat>)
    requires Peaceful(group) && AllResolved(group, texts)
    ensures forall i: nat :: i in hit <==> i < |group| && Named(group, texts, posix, i, spots)
  {
    assert forall i | 0 <= i < |group| :: group[i].path in texts;
    hide *;
    hit := {};
    var paths := set i | 0 <= i < |group| :: group[i].path;
    var todo := paths;
    while todo != {}
      invariant todo <= paths
      invariant forall i: nat :: i in hit <==>
        (i < |group| && group[i].path in paths - todo && Named(group, texts, posix, i, spots))
    {
      var path :| path in todo;
      ResolvedIsWritable(group, path, texts);
      var hits := AttributeFile(group, path, spots, texts, posix);
      hit := hit + hits;
      todo := todo - {path};
    }
  }

  /** Two empty anchors in an empty file share a batch; `apply` writes their replacements in
      the order of the strings, `attribute` rebuilds them in the order listed. */
  lemma TiedAnchors(p: Item, q: Item)
    requires p.path == q.path && p.start == p.end == q.start == q.end == 0
    ensures Peaceful([p, q])
    ensures SpliceFrom("", Edits(ByStart(Members([p, q], p.path))), 0) == p.after + q.after
    ensures Spliced("", EditsOf([p, q], p.path))
         == if StringLeq(p.after, q.after) then p.after + q.after else q.after + p.after
  {
    var e, f := EditOf(p), EditOf(q);
    var second := Indexed(1, q);
    assert [p, q][..1] == [p] && [p][..0] == [];
    OneMember(0, p);
    OneMember(1, q);
    assert Members([p, q], p.path) == [Indexed(0, p)] + [second] && EditsOf([p, q], p.path) == [e] + [f];
    var members := [Indexed(0, p)] + [second];
    assert members[1..] == [second] && [second][1..] == [];
    assert ByStart(members) == members && Edits(members) == [e] + Edits([second]);
    assert ([e] + [f])[1..] == [f] && [f][1..] == [];
    assert Sorted([f]) == [f];
    assert Sorted([e] + [f]) == Insert(e, [f]) == if Leq(e, f) then [e] + [f] else [f] + [e];
    TwoAtZero(e, f);
    TwoAtZero(f, e);
  }

  lemma OneMember(index: nat, item: Item)
    ensures EditsOf([item], item.path) == [EditOf(item)] && Members([item], item.path) == [Indexed(0, item)]
    ensures Edits([Indexed(index, item)]) == [EditOf(item)] && ByStart([Indexed(index, item)]) == [Indexed(index, item)]
  {
    var members := [Indexed(index, item)];
    assert [item][..0] == [] && members[1..] == [];
    assert Edits(members) == [EditOf(members[0].item)] + Edits(members[1..]);
    assert EditsOf([item], item.path) == EditsOf([item][..0], item.path) + [EditOf([item][0])];
  }

  lemma TwoAtZero(e: Edit, f: Edit)
    requires e.start == e.end == f.start == f.end == 0
    ensures SpliceFrom("", [e] + [f], 0) == e.after + f.after
  {
    assert ([e] + [f])[1..] == [f] && [f][1..] == [];
    assert SpliceFrom("", [f], 0) == "" + (f.after + "") == f.after;
    assert SpliceFrom("", [e] + [f], 0) == "" + (e.after + SpliceFrom("", [f], 0));
  }

  /** ... so the text that `attribute` looks lines up in need not be the text on disk. */
  lemma TiedAnchorsMislead()
    ensures var group := [Mutation("a.rs", 0, 0, "b", "k"), Mutation("a.rs", 0, 0, "a", "l")];
      && Peaceful(group)
      && SpliceFrom("", Edits(ByStart(Members(group, "a.rs"))), 0) != Spliced("", EditsOf(group, "a.rs"))
  {
    TiedAnchors(Mutation("a.rs", 0, 0, "b", "k"), Mutation("a.rs", 0, 0, "a", "l"));
    assert ("b" + "a")[0] == 'b' && ("a" + "b")[0] == 'a';
  }
}
