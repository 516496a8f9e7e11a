/** Writing many replacements into one text at once
    (`Tree.apply` and `edits_for` in `scripts/check_mutation_types.py`).

    Every offset is an offset into the original text.  `Tree.apply` sorts a file's edits and
    glues the untouched stretches and the replacements together in one pass.  The reference
    definition is `OneAtATime`: perform a single replacement, move the offsets of the edits
    still to come, go on.  For edits that keep apart the two agree, in whatever order the
    edits are listed. */
module Splicing {

  datatype Replacement = Replacement(start: nat, end: nat, after: string) {
    /** How much longer the text becomes. */
    function Growth(): int {
      |after| - (end - start)
    }
  }

  /** `(start, end, after)` as `edits_for` makes it: an anchor found at `start`. */
  type Edit = e: Replacement | e.start <= e.end witness Replacement(0, 0, "")

  /** Python's `text[a:b]` for offsets that are not negative: out of range is cut off. */
  function Slice(text: string, a: nat, b: nat): string {
    var hi := if b < |text| then b else |text|;
    if a < hi then text[a..hi] else ""
  }

  // ----- Python's order on the tuples (start, end, after) -----

  predicate StringLeq(a: string, b: string) {
    a == "" || (b != "" && (a[0] < b[0] || (a[0] == b[0] && StringLeq(a[1..], b[1..]))))
  }

  predicate Leq(e: Edit, f: Edit) {
    || e.start < f.start
    || (e.start == f.start && (e.end < f.end || (e.end == f.end && StringLeq(e.after, f.after))))
  }

  function Insert(e: Edit, items: seq<Edit>): seq<Edit> {
    if items == [] || Leq(e, items[0]) then [e] + items else [items[0]] + Insert(e, items[1..])
  }

  /** `sorted(items)`. */
  function Sorted(items: seq<Edit>): seq<Edit> {
    if items == [] then [] else Insert(items[0], Sorted(items[1..]))
  }

  predicate Ordered(items: seq<Edit>) {
    items == [] || ((forall f | f in items[1..] :: Leq(items[0], f)) && Ordered(items[1..]))
  }

  lemma StringLeqTotal(a: string, b: string)
    ensures StringLeq(a, b) || StringLeq(b, a)
    ensures StringLeq(a, b) && StringLeq(b, a) ==> a == b
  {
    if a != "" && b != "" && a[0] == b[0] {
      StringLeqTotal(a[1..], b[1..]);
      assert a == [a[0]] + a[1..] && b == [b[0]] + b[1..];
    }
  }

  lemma StringLeqTransitive(a: string, b: string, c: string)
    requires StringLeq(a, b) && StringLeq(b, c)
    ensures StringLeq(a, c)
  {
    if a != "" && b != "" && c != "" && a[0] == b[0] == c[0] {
      StringLeqTransitive(a[1..], b[1..], c[1..]);
    }
  }

  /** The order of strings: at the first difference the smaller character decides, and a string
      comes before its continuations. */
  ghost predicate Lexicographic(a: string, b: string) {
    a <= b || exists k :: 0 <= k < |a| && k < |b| && a[..k] == b[..k] && a[k] < b[k]
  }

  lemma LexicographicStep(c: char, a: string, b: string)
    ensures Lexicographic([c] + a, [c] + b) <==> Lexicographic(a, b)
  {
    var s, t := [c] + a, [c] + b;
    if s <= t {
      forall k | 0 <= k < |a| ensures a[k] == b[k] { assert s[k + 1] == t[k + 1]; }
    }
    if a <= b {
      forall k | 0 <= k < |s| ensures s[k] == t[k] { if k > 0 { assert a[k - 1] == b[k - 1]; } }
    }
    if k :| 0 <= k < |s| && k < |t| && s[..k] == t[..k] && s[k] < t[k] {
      assert s[..k][1..] == a[..k - 1] && t[..k][1..] == b[..k - 1];
      assert a[k - 1] < b[k - 1];
    }
    if k :| 0 <= k < |a| && k < |b| && a[..k] == b[..k] && a[k] < b[k] {
      assert s[..k + 1] == [c] + a[..k] && t[..k + 1] == [c] + b[..k];
      assert s[k + 1] < t[k + 1];
    }
  }

  lemma {:induction false} StringLeqIsLexicographic(a: string, b: string)
    ensures StringLeq(a, b) <==> Lexicographic(a, b)
  {
    if a != "" && b != "" && a[0] == b[0] {
      StringLeqIsLexicographic(a[1..], b[1..]);
      hide Lexicographic;
      LexicographicStep(a[0], a[1..], b[1..]);
      assert a == [a[0]] + a[1..] && b == [a[0]] + b[1..];
    } else if a != "" && b != "" && a[0] < b[0] {
      assert a[..0] == b[..0];
    }
  }

  lemma LeqTotal(e: Edit, f: Edit)
    ensures Leq(e, f) || Leq(f, e)
    ensures Leq(e, f) && Leq(f, e) ==> e == f
  {
    StringLeqTotal(e.after, f.after);
  }

  lemma LeqTransitive(e: Edit, f: Edit, g: Edit)
    requires Leq(e, f) && Leq(f, g)
    ensures Leq(e, g)
  {
    if e.start == f.start == g.start && e.end == f.end == g.end {
      StringLeqTransitive(e.after, f.after, g.after);
    }
  }

  lemma InsertKeeps(e: Edit, items: seq<Edit>)
    ensures |Insert(e, items)| == |items| + 1
    ensures forall f :: f in Insert(e, items) <==> f == e || f in items
  {
    if items != [] && !Leq(e, items[0]) {
      InsertKeeps(e, items[1..]);
      assert forall f :: f in items <==> f == items[0] || f in items[1..];
    }
  }

  lemma SortedKeeps(items: seq<Edit>)
    ensures |Sorted(items)| == |items|
    ensures forall f :: f in Sorted(items) <==> f in items
  {
    if items != [] {
      SortedKeeps(items[1..]);
      InsertKeeps(items[0], Sorted(items[1..]));
      assert forall f :: f in items <==> f == items[0] || f in items[1..];
    }
  }

  lemma {:induction false} InsertSorts(e: Edit, items: seq<Edit>)
    requires Ordered(items)
    ensures Ordered(Insert(e, items))
    ensures multiset(Insert(e, items)) == multiset{e} + multiset(items)
  {
    if items != [] {
      assert items == [items[0]] + items[1..];
      if Leq(e, items[0]) {
        forall f | f in items ensures Leq(e, f) {
          if f != items[0] { LeqTransitive(e, items[0], f); }
        }
      } else {
        InsertSorts(e, items[1..]);
        InsertKeeps(e, items[1..]);
        LeqTotal(e, items[0]);
      }
    }
  }

  /** The order of tuples: by start, then by end, then by replacement. */
  ghost predicate TupleBefore(e: Edit, f: Edit) {
    || e.start < f.start
    || (e.start == f.start && e.end < f.end)
    || (e.start == f.start && e.end == f.end && Lexicographic(e.after, f.after))
  }

  lemma LeqIsTupleBefore(e: Edit, f: Edit)
    ensures Leq(e, f) <==> TupleBefore(e, f)
  {
    hide StringLeq, Lexicographic;
    StringLeqIsLexicographic(e.after, f.after);
  }

  ghost predicate TupleOrder(items: seq<Edit>) {
    forall i, j | 0 <= i < j < |items| :: TupleBefore(items[i], items[j])
  }

  lemma {:induction false} OrderedIsTupleOrder(items: seq<Edit>)
    ensures Ordered(items) <==> TupleOrder(items)
  {
    hide Leq, TupleBefore;
    if items != [] {
      var rest := items[1..];
      OrderedIsTupleOrder(rest);
      forall f | f in rest ensures Leq(items[0], f) <==> TupleBefore(items[0], f) {
        LeqIsTupleBefore(items[0], f);
      }
      if Ordered(items) {
        forall i, j | 0 <= i < j < |items| ensures TupleBefore(items[i], items[j]) {
          assert items[j] == rest[j - 1];
          if i > 0 { assert items[i] == rest[i - 1]; }
        }
      }
      if TupleOrder(items) {
        assert forall j | 0 <= j < |rest| :: rest[j] == items[j + 1];
      }
    }
  }

  lemma SortedSorts(items: seq<Edit>)
    ensures Ordered(Sorted(items)) && TupleOrder(Sorted(items))
    ensures multiset(Sorted(items)) == multiset(items)
  {
    if items != [] {
      SortedSorts(items[1..]);
      InsertSorts(items[0], Sorted(items[1..]));
      assert items == [items[0]] + items[1..];
    }
    OrderedIsTupleOrder(Sorted(items));
  }

  lemma TakenOut(items: seq<Edit>, k: nat)
    requires k < |items|
    ensures multiset(items[..k] + items[k + 1..]) == multiset(items) - multiset{items[k]}
  {
    assert items == items[..k] + [items[k]] + items[k + 1..];
  }

  lemma HeadTakenOut(items: seq<Edit>)
    requires items != []
    ensures multiset(items[1..]) == multiset(items) - multiset{items[0]}
  {
    assert items == [items[0]] + items[1..];
  }

  lemma {:induction false} OrderedIsUnique(a: seq<Edit>, b: seq<Edit>)
    requires Ordered(a) && Ordered(b) && multiset(a) == multiset(b)
    ensures a == b
  {
    assert |multiset(a)| == |multiset(b)|;
    if a != [] {
      var e, f := a[0], b[0];
      assert e in multiset(b) && f in multiset(a);
      assert (e == f || e in b[1..]) && (e == f || f in a[1..]);
      LeqTotal(e, f);
      HeadTakenOut(a);
      HeadTakenOut(b);
      OrderedIsUnique(a[1..], b[1..]);
      assert a == [e] + a[1..] && b == [f] + b[1..];
    }
  }

  /** The written text cannot depend on the order in which `edits_for` collected the edits. */
  lemma SortedIgnoresOrder(items: seq<Edit>, others: seq<Edit>)
    requires multiset(items) == multiset(others)
    ensures Sorted(items) == Sorted(others)
  {
    SortedSorts(items);
    SortedSorts(others);
    OrderedIsUnique(Sorted(items), Sorted(others));
  }

  // ----- the single pass of `apply` -----

  /** What the loop still writes when it stands at offset `last`. */
  function SpliceFrom(text: string, items: seq<Edit>, last: nat): string {
    if items == [] then Slice(text, last, |text|)
    else Slice(text, last, items[0].start) + (items[0].after + SpliceFrom(text, items[1..], items[0].end))
  }

  function Spliced(text: string, items: seq<Edit>): string {
    SpliceFrom(text, Sorted(items), 0)
  }

  // ----- edits that keep apart -----

  predicate Within(text: string, items: seq<Edit>) {
    forall e | e in items :: e.end <= |text|
  }

  /** One span ends before the other begins, and they do not begin together. */
  predicate Apart(e: Edit, f: Edit) {
    e.start != f.start && (e.end <= f.start || f.end <= e.start)
  }

  predicate Clear(e: Edit, items: seq<Edit>) {
    forall f | f in items :: Apart(e, f)
  }

  predicate Separate(items: seq<Edit>) {
    items == [] || (Clear(items[0], items[1..]) && Separate(items[1..]))
  }

  /** Each edit starts past `from` and past the end of the one before it. */
  predicate Spread(items: seq<Edit>, from: nat) {
    items == [] || (from <= items[0].start && Spread(items[1..], items[0].end))
  }

  lemma SeparateIsPairwise(items: seq<Edit>)
    ensures Separate(items) <==> forall i, j | 0 <= i < j < |items| :: Apart(items[i], items[j])
  {
    if items != [] {
      var rest := items[1..];
      SeparateIsPairwise(rest);
      if Separate(items) {
        forall i, j | 0 <= i < j < |items| ensures Apart(items[i], items[j]) {
          assert items[j] == rest[j - 1];
          if i > 0 { assert items[i] == rest[i - 1]; }
        }
      }
      if forall i, j | 0 <= i < j < |items| :: Apart(items[i], items[j]) {
        forall i, j | 0 <= i < j < |rest| ensures Apart(rest[i], rest[j]) {
          assert Apart(items[i + 1], items[j + 1]);
        }
        forall f | f in rest ensures Apart(items[0], f) {
          var k :| 0 <= k < |rest| && rest[k] == f;
          assert items[k + 1] == f;
        }
      }
    }
  }

  /** Keeping apart does not depend on the order either. */
  lemma {:induction false} SeparateIgnoresOrder(items: seq<Edit>, others: seq<Edit>)
    requires Separate(items) && multiset(items) == multiset(others)
    ensures Separate(others)
  {
    assert |multiset(items)| == |multiset(others)|;
    if others != [] {
      var e, rest := others[0], others[1..];
      assert others == [e] + rest;
      assert e in multiset(items);
      var k :| 0 <= k < |items| && items[k] == e;
      var less := items[..k] + items[k + 1..];
      TakenOut(items, k);
      TakenOut(others, 0);
      assert others[..0] + others[1..] == rest;
      SeparateWithout(items, k);
      forall f | f in rest ensures Apart(e, f) {
        assert f in multiset(less);
      }
      SeparateIgnoresOrder(less, rest);
    }
  }

  lemma SeparateWithout(items: seq<Edit>, k: nat)
    requires Separate(items) && k < |items|
    ensures Separate(items[..k] + items[k + 1..]) && Clear(items[k], items[..k] + items[k + 1..])
  {
    var less := items[..k] + items[k + 1..];
    SeparateIsPairwise(items);
    SeparateIsPairwise(less);
    forall f | f in less ensures Apart(items[k], f) {
      var i :| 0 <= i < |less| && less[i] == f;
      assert f == items[if i < k then i else i + 1];
    }
    forall i, j | 0 <= i < j < |less| ensures Apart(less[i], less[j]) {
      assert Apart(items[if i < k then i else i + 1], items[if j < k then j else j + 1]);
    }
  }

  lemma InsertIsSpread(e: Edit, items: seq<Edit>, from: nat)
    requires Clear(e, items) && Spread(items, from) && from <= e.start
    ensures Spread(Insert(e, items), from)
  {
    assert items != [] ==> Apart(e, items[0]);
    if items != [] && !Leq(e, items[0]) {
      InsertIsSpread(e, items[1..], items[0].end);
    }
  }

  lemma SortedIsSpread(items: seq<Edit>)
    requires Separate(items)
    ensures Spread(Sorted(items), 0)
  {
    if items != [] {
      SortedIsSpread(items[1..]);
      SortedKeeps(items[1..]);
      InsertIsSpread(items[0], Sorted(items[1..]), 0);
    }
  }

  // ----- the reference definition -----

  function Replaced(text: string, e: Edit): string
    requires e.end <= |text|
  {
    text[..e.start] + e.after + text[e.end..]
  }

  /** Where `f` has to go once `e` has been carried out. */
  function Moved(e: Edit, f: Edit): Edit {
    if f.start >= e.end then Replacement(f.start + e.Growth(), f.end + e.Growth(), f.after) else f
  }

  function AllMoved(e: Edit, items: seq<Edit>): seq<Edit> {
    if items == [] then [] else [Moved(e, items[0])] + AllMoved(e, items[1..])
  }

  lemma AllMovedKeeps(text: string, e: Edit, items: seq<Edit>)
    requires e.end <= |text| && Within(text, items) && Clear(e, items)
    ensures |AllMoved(e, items)| == |items|
    ensures Within(Replaced(text, e), AllMoved(e, items))
    ensures forall g :: g in AllMoved(e, items) ==> exists f :: f in items && g == Moved(e, f)
    ensures Separate(items) ==> Separate(AllMoved(e, items))
  {
    if items != [] {
      AllMovedKeeps(text, e, items[1..]);
      assert items[0] in items;
    }
  }

  /** One replacement after the other, in the order listed. */
  function OneAtATime(text: string, items: seq<Edit>): string
    requires Within(text, items) && Separate(items)
    decreases |items|
  {
    if items == [] then text
    else
      AllMovedKeeps(text, items[0], items[1..]);
      OneAtATime(Replaced(text, items[0]), AllMoved(items[0], items[1..]))
  }

  // ----- the two agree -----

  // The untouched stretches of a text in which one replacement has been made.

  lemma StretchBefore(text: string, e: Edit, a: nat, b: nat)
    requires a <= b <= e.start && e.end <= |text|
    ensures Slice(Replaced(text, e), a, b) == Slice(text, a, b)
  {
    var changed := Replaced(text, e);
    assert changed[..e.start] == text[..e.start];
    assert changed[a..b] == changed[..e.start][a..b] && text[a..b] == text[..e.start][a..b];
  }

  lemma StretchAfter(text: string, e: Edit, a: nat, b: nat)
    requires e.end <= a <= b <= |text|
    ensures |Replaced(text, e)| == |text| + e.Growth()
    ensures Slice(Replaced(text, e), a + e.Growth(), b + e.Growth()) == Slice(text, a, b)
  {
    var changed, head, tail := Replaced(text, e), text[..e.start] + e.after, text[e.end..];
    assert changed == head + tail && |head| == e.end + e.Growth();
    assert changed[a + e.Growth()..b + e.Growth()] == tail[a - e.end..b - e.end] == text[a..b];
  }

  lemma StretchAround(text: string, e: Edit, a: nat, b: nat)
    requires a <= e.start && e.end <= b <= |text|
    ensures |Replaced(text, e)| == |text| + e.Growth()
    ensures Slice(Replaced(text, e), a, b + e.Growth()) == Slice(text, a, e.start) + e.after + Slice(text, e.end, b)
  {
    StretchBefore(text, e, a, e.start);
    StretchAfter(text, e, e.end, b);
    var changed, s, t := Replaced(text, e), e.start, e.end + e.Growth();
    assert t == s + |e.after|;
    assert changed[s..t] == e.after;
    assert changed[a..b + e.Growth()] == changed[a..s] + changed[s..t] + changed[t..b + e.Growth()];
  }

  lemma {:induction false} InsertIsMoved(e: Edit, f: Edit, items: seq<Edit>)
    requires Apart(e, f) && Clear(e, items) && Clear(f, items)
    ensures AllMoved(e, Insert(f, items)) == Insert(Moved(e, f), AllMoved(e, items))
  {
    assert items != [] ==> Apart(e, items[0]) && Apart(f, items[0]);
    if items != [] && !Leq(f, items[0]) {
      InsertIsMoved(e, f, items[1..]);
    }
  }

  lemma {:induction false} SortedIsMoved(e: Edit, items: seq<Edit>)
    requires Separate(items) && Clear(e, items)
    ensures Sorted(AllMoved(e, items)) == AllMoved(e, Sorted(items))
  {
    if items != [] {
      SortedIsMoved(e, items[1..]);
      SortedKeeps(items[1..]);
      InsertIsMoved(e, items[0], Sorted(items[1..]));
    }
  }

  // One turn of the pass, over edits as they are and over edits that have moved.

  lemma Unfold(text: string, items: seq<Edit>, last: nat)
    requires items != []
    ensures SpliceFrom(text, items, last)
         == Slice(text, last, items[0].start) + (items[0].after + SpliceFrom(text, items[1..], items[0].end))
  {
  }

  lemma UnfoldMoved(text: string, e: Edit, items: seq<Edit>, last: nat)
    requires items != [] && e.end <= items[0].start
    ensures var f := items[0];
      SpliceFrom(text, AllMoved(e, items), last)
      == Slice(text, last, f.start + e.Growth())
         + (f.after + SpliceFrom(text, AllMoved(e, items[1..]), f.end + e.Growth()))
  {
    assert AllMoved(e, items)[1..] == AllMoved(e, items[1..]);
  }

  /** Past the edit: the rest of the pass is the same pass over the changed text. */
  lemma {:induction false} SpliceAfter(text: string, e: Edit, items: seq<Edit>, last: nat)
    requires e.end <= last <= |text| && Within(text, items) && Spread(items, last)
    ensures SpliceFrom(text, items, last)
         == SpliceFrom(Replaced(text, e), AllMoved(e, items), last + e.Growth())
  {
    if items == [] {
      NothingAfter(text, e, last);
    } else {
      assert items[0] in items && 0 <= last + e.Growth() && 0 <= items[0].end + e.Growth();
      hide SpliceFrom, AllMoved, Replaced, Slice;
      SpliceAfter(text, e, items[1..], items[0].end);
      SpliceAfterStep(text, e, items, last);
    }
  }

  lemma NothingAfter(text: string, e: Edit, last: nat)
    requires e.end <= last <= |text|
    ensures 0 <= last + e.Growth()
    ensures SpliceFrom(text, [], last) == SpliceFrom(Replaced(text, e), AllMoved(e, []), last + e.Growth())
  {
    StretchAfter(text, e, last, |text|);
  }

  lemma SpliceAfterStep(text: string, e: Edit, items: seq<Edit>, last: nat)
    requires items != [] && e.end <= last <= items[0].start && items[0].end <= |text|
    requires 0 <= last + e.Growth() && 0 <= items[0].end + e.Growth()
    requires SpliceFrom(text, items[1..], items[0].end)
          == SpliceFrom(Replaced(text, e), AllMoved(e, items[1..]), items[0].end + e.Growth())
    ensures SpliceFrom(text, items, last)
         == SpliceFrom(Replaced(text, e), AllMoved(e, items), last + e.Growth())
  {
    hide *;
    Unfold(text, items, last);
    UnfoldMoved(Replaced(text, e), e, items, last + e.Growth());
    StretchAfter(text, e, last, items[0].start);
  }

  lemma OnlyOne(text: string, e: Edit, last: nat)
    requires last <= e.start && e.end <= |text|
    ensures SpliceFrom(text, Insert(e, []), last) == SpliceFrom(Replaced(text, e), AllMoved(e, []), last)
  {
    StretchAround(text, e, last, |text|);
    assert SpliceFrom(text, [e], last) == Slice(text, last, e.start) + (e.after + Slice(text, e.end, |text|));
  }

  lemma ShiftsInside(e: Edit, f: Edit)
    ensures e.end <= f.start ==> 0 <= f.start + e.Growth() && 0 <= f.end + e.Growth()
  {
  }

  /** Doing `e` first leaves the rest of the pass the same result. */
  lemma {:induction false} SpliceInsert(text: string, e: Edit, items: seq<Edit>, last: nat)
    requires e.end <= |text| && Within(text, items) && last <= e.start
    requires Clear(e, items) && Spread(items, last)
    ensures SpliceFrom(text, Insert(e, items), last) == SpliceFrom(Replaced(text, e), AllMoved(e, items), last)
  {
    if items == [] {
      OnlyOne(text, e, last);
    } else {
      assert items[0] in items && Apart(e, items[0]);
      ShiftsInside(e, items[0]);
      hide SpliceFrom, AllMoved, Replaced, Slice, StringLeq;
      if Leq(e, items[0]) {
        SpliceAfter(text, e, items[1..], items[0].end);
        SpliceFirst(text, e, items, last);
      } else {
        SpliceInsert(text, e, items[1..], items[0].end);
        SpliceLater(text, e, items, last);
      }
    }
  }

  lemma SpliceLater(text: string, e: Edit, items: seq<Edit>, last: nat)
    requires items != [] && last <= items[0].start && items[0].end <= e.start && e.end <= |text|
    requires items[0].start < e.start
    requires SpliceFrom(text, Insert(e, items[1..]), items[0].end)
          == SpliceFrom(Replaced(text, e), AllMoved(e, items[1..]), items[0].end)
    ensures SpliceFrom(text, Insert(e, items), last) == SpliceFrom(Replaced(text, e), AllMoved(e, items), last)
  {
    StretchBefore(text, e, last, items[0].start);
    assert Insert(e, items)[1..] == Insert(e, items[1..]);
    assert AllMoved(e, items)[1..] == AllMoved(e, items[1..]);
  }

  lemma SpliceFirst(text: string, e: Edit, items: seq<Edit>, last: nat)
    requires items != [] && last <= e.start && e.end <= items[0].start && items[0].end <= |text|
    requires 0 <= items[0].end + e.Growth()
    requires SpliceFrom(text, items[1..], items[0].end)
          == SpliceFrom(Replaced(text, e), AllMoved(e, items[1..]), items[0].end + e.Growth())
    ensures SpliceFrom(text, [e] + items, last) == SpliceFrom(Replaced(text, e), AllMoved(e, items), last)
  {
    hide *;
    assert ([e] + items)[1..] == items;
    Unfold(text, [e] + items, last);
    Unfold(text, items, e.end);
    Regroup(Slice(text, last, e.start), e.after, Slice(text, e.end, items[0].start),
      items[0].after + SpliceFrom(text, items[1..], items[0].end));
    StretchAround(text, e, last, items[0].start);
    UnfoldMoved(Replaced(text, e), e, items, last);
  }

  lemma Regroup(a: string, b: string, c: string, d: string)
    ensures a + (b + (c + d)) == (a + b + c) + d
  {
  }

  /** One pass over the sorted edits is the replacements carried out one at a time. */
  lemma {:induction false} SplicingIsSequential(text: string, items: seq<Edit>)
    requires Within(text, items) && Separate(items)
    ensures Spliced(text, items) == OneAtATime(text, items)
    decreases |items|
  {
    if items != [] {
      var e, rest := items[0], items[1..];
      SortedKeeps(rest);
      SortedIsSpread(rest);
      SpliceInsert(text, e, Sorted(rest), 0);
      SortedIsMoved(e, rest);
      AllMovedKeeps(text, e, rest);
      SplicingIsSequential(Replaced(text, e), AllMoved(e, rest));
    }
  }

  /** Any two orders of the same edits, carried out one at a time, end in the same text. */
  lemma OrderDoesNotMatter(text: string, items: seq<Edit>, others: seq<Edit>)
    requires Within(text, items) && Separate(items)
    requires Within(text, others) && Separate(others)
    requires multiset(items) == multiset(others)
    ensures OneAtATime(text, items) == OneAtATime(text, others)
  {
    SplicingIsSequential(text, items);
    SplicingIsSequential(text, others);
    SortedIgnoresOrder(items, others);
  }

  // ----- the loop -----

  /** The loop of `apply` over one file. */
  method Splice(text: string, items: seq<Edit>) returns (mutated: string)
    ensures mutated == Spliced(text, items)
    ensures Within(text, items) && Separate(items) ==> mutated == OneAtATime(text, items)
  {
    mutated := "";
    var last := 0;
    var todo := Sorted(items);
    var k := 0;
    while k < |todo|
      invariant 0 <= k <= |todo|
      invariant mutated + SpliceFrom(text, todo[k..], last) == Spliced(text, items)
    {
      assert todo[k..][1..] == todo[k + 1..];
      mutated := mutated + Slice(text, last, todo[k].start) + todo[k].after;
      last := todo[k].end;
      k := k + 1;
    }
    mutated := mutated + Slice(text, last, |text|);
    if Within(text, items) && Separate(items) { SplicingIsSequential(text, items); }
  }
}
