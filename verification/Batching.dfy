/** Packing mutations into batches (`batched` and `edits_for` in
    `scripts/check_mutation_types.py`).

    Two mutations may be written into the tree together unless their spans meet in the same
    file.  The packing is first fit: an item joins the earliest batch it does not clash with,
    or opens a new one. */
module Batching {
  import opened Splicing

  type Key = string

  /** One mutation, resolved against the tree: where it lands, what it writes, its key. */
  datatype Mutation = Mutation(path: string, start: nat, end: nat, after: string, key: Key)

  type Item = i: Mutation | i.start <= i.end witness Mutation("", 0, 0, "", "")

  predicate Clash(a: Item, b: Item) {
    a.path == b.path && a.start < b.end && b.start < a.end
  }

  predicate Covers(item: Item, x: nat) {
    item.start <= x < item.end
  }

  /** An empty span strictly inside the other. */
  predicate Splits(a: Item, b: Item) {
    b.start < a.start == a.end < b.end
  }

  /** Two spans of one file clash exactly when they share an offset, or an empty one stands
      strictly inside the other. */
  lemma ClashIsOverlap(a: Item, b: Item)
    ensures Clash(a, b) <==>
      (a.path == b.path && ((exists x :: Covers(a, x) && Covers(b, x)) || Splits(a, b) || Splits(b, a)))
  {
    if Clash(a, b) && a.start < a.end && b.start < b.end {
      var x := if a.start < b.start then b.start else a.start;
      assert Covers(a, x) && Covers(b, x);
    }
  }

  // ----- first fit -----

  predicate Fits(item: Item, batch: seq<Item>) {
    forall other | other in batch :: !Clash(item, other)
  }

  function Placed(batches: seq<seq<Item>>, item: Item): seq<seq<Item>> {
    if batches == [] then [[item]]
    else if Fits(item, batches[0]) then [batches[0] + [item]] + batches[1..]
    else [batches[0]] + Placed(batches[1..], item)
  }

  function Packed(items: seq<Item>): seq<seq<Item>> {
    if items == [] then [] else Placed(Packed(items[..|items| - 1]), items[|items| - 1])
  }

  /** `batched`.  The lists of taken spans of the source are the spans of `out`. */
  method Batched(items: seq<Item>) returns (out: seq<seq<Item>>)
    ensures out == Packed(items)
  {
    out := [];
    for k := 0 to |items|
      invariant out == Packed(items[..k])
    {
      assert items[..k + 1][..k] == items[..k];
      var index := 0;
      while index < |out| && !Fits(items[k], out[index])
        invariant 0 <= index <= |out|
        invariant forall c | 0 <= c < index :: !Fits(items[k], out[c])
      {
        index := index + 1;
      }
      PlacedAt(out, items[k], index);
      if index < |out| {
        out := out[index := out[index] + [items[k]]];
      } else {
        out := out + [[items[k]]];
      }
    }
    assert items[..|items|] == items;
  }

  lemma {:induction false} PlacedAt(batches: seq<seq<Item>>, item: Item, index: nat)
    requires index <= |batches| && forall c | 0 <= c < index :: !Fits(item, batches[c])
    requires index < |batches| ==> Fits(item, batches[index])
    ensures Placed(batches, item)
         == if index < |batches| then batches[index := batches[index] + [item]] else batches + [[item]]
  {
    if index > 0 {
      PlacedAt(batches[1..], item, index - 1);
    }
  }

  // ----- a partition that keeps the order -----

  function All(batches: seq<seq<Item>>): multiset<Item> {
    if batches == [] then multiset{} else multiset(batches[0]) + All(batches[1..])
  }

  /** `part` is what is left of `whole` when some of its entries are crossed out. */
  predicate Subsequence(part: seq<Item>, whole: seq<Item>) {
    if part == [] then true
    else if whole == [] then false
    else
      var p, w := |part| - 1, |whole| - 1;
      (part[p] == whole[w] && Subsequence(part[..p], whole[..w])) || Subsequence(part, whole[..w])
  }

  lemma {:induction false} SubsequenceOfMore(part: seq<Item>, whole: seq<Item>, more: seq<Item>)
    requires Subsequence(part, whole)
    ensures Subsequence(part, whole + more)
  {
    if more == [] {
      assert whole + more == whole;
    } else if part != [] {
      var n := |more| - 1;
      SubsequenceOfMore(part, whole, more[..n]);
      assert (whole + more)[..|whole| + n] == whole + more[..n];
    }
  }

  /** Subsequences one behind the other are a subsequence of the sequences one behind the other. */
  lemma {:induction false} SubsequenceBoth(some: seq<Item>, others: seq<Item>, whole: seq<Item>, more: seq<Item>)
    requires Subsequence(some, whole) && Subsequence(others, more)
    ensures Subsequence(some + others, whole + more)
    decreases |more|
  {
    if others == [] {
      assert some + others == some;
      SubsequenceOfMore(some, whole, more);
    } else {
      var p, w := |others| - 1, |more| - 1;
      assert (whole + more)[..|whole| + w] == whole + more[..w] && (whole + more)[|whole| + w] == more[w];
      if others[p] == more[w] && Subsequence(others[..p], more[..w]) {
        SubsequenceBoth(some, others[..p], whole, more[..w]);
        assert (some + others)[..|some| + p] == some + others[..p];
      } else {
        SubsequenceBoth(some, others, whole, more[..w]);
      }
    }
  }

  /** All batches, one behind the other. */
  function Flat(batches: seq<seq<Item>>): seq<Item> {
    if batches == [] then [] else Flat(batches[..|batches| - 1]) + batches[|batches| - 1]
  }

  lemma {:induction false} PlacedAdds(batches: seq<seq<Item>>, item: Item)
    ensures All(Placed(batches, item)) == All(batches) + multiset{item}
  {
    hide All, Fits;
    if batches == [] {
      AllBegins([item], []);
      assert [[item]] + [] == [[item]];
      NoBatches();
    } else {
      assert batches == [batches[0]] + batches[1..];
      AllBegins(batches[0], batches[1..]);
      if Fits(item, batches[0]) {
        AllBegins(batches[0] + [item], batches[1..]);
      } else {
        AllBegins(batches[0], Placed(batches[1..], item));
        PlacedAdds(batches[1..], item);
      }
    }
  }

  lemma AllBegins(batch: seq<Item>, rest: seq<seq<Item>>)
    ensures All([batch] + rest) == multiset(batch) + All(rest)
  {
    assert ([batch] + rest)[1..] == rest;
  }

  lemma NoBatches()
    ensures All([]) == multiset{}
  {
  }

  lemma {:induction false} PackedIsPartition(items: seq<Item>)
    ensures All(Packed(items)) == multiset(items)
  {
    hide All, Placed;
    if items == [] {
      NoBatches();
    } else {
      var n := |items| - 1;
      PackedIsPartition(items[..n]);
      PlacedAdds(Packed(items[..n]), items[n]);
      assert items == items[..n] + [items[n]];
    }
  }

  lemma {:induction false} PlacedBatch(batches: seq<seq<Item>>, item: Item, b: nat)
    requires b < |Placed(batches, item)|
    ensures |batches| <= |Placed(batches, item)| <= |batches| + 1
    ensures var batch := Placed(batches, item)[b];
      || (b < |batches| && batch == batches[b])
      || (b < |batches| && batch == batches[b] + [item] && Fits(item, batches[b]))
      || (b == |batches| && batch == [item])
    ensures item in Placed(batches, item)[b] && (b < |batches| ==> item !in batches[b])
      ==> forall c | 0 <= c < b :: !Fits(item, batches[c])
  {
    if batches != [] && !Fits(item, batches[0]) {
      if b > 0 {
        PlacedBatch(batches[1..], item, b - 1);
        if item in Placed(batches, item)[b] && (b < |batches| ==> item !in batches[b]) {
          forall c | 0 <= c < b ensures !Fits(item, batches[c]) {
            if c > 0 { assert batches[c] == batches[1..][c - 1]; }
          }
        }
      } else {
        PlacedSize(batches, item);
      }
    }
  }

  lemma PlacedSize(batches: seq<seq<Item>>, item: Item)
    ensures |batches| <= |Placed(batches, item)| <= |batches| + 1
  {
  }

  lemma {:induction false} PackedKeepsOrder(items: seq<Item>, b: nat)
    requires b < |Packed(items)|
    ensures Packed(items)[b] != [] && Subsequence(Packed(items)[b], items)
  {
    var n := |items| - 1;
    var before, item := items[..n], items[n];
    PlacedBatch(Packed(before), item, b);
    if b < |Packed(before)| {
      PackedKeepsOrder(before, b);
      var batch := Packed(before)[b];
      assert (batch + [item])[..|batch|] == batch;
    } else {
      assert [item][..0] == [];
    }
  }

  // ----- no two items of a batch meet -----

  ghost predicate Peaceful(batch: seq<Item>) {
    forall i, j | 0 <= i < j < |batch| :: !Clash(batch[i], batch[j])
  }

  lemma {:induction false} PackedIsPeaceful(items: seq<Item>, b: nat)
    requires b < |Packed(items)|
    ensures Peaceful(Packed(items)[b])
  {
    var n := |items| - 1;
    PlacedBatch(Packed(items[..n]), items[n], b);
    if b < |Packed(items[..n])| {
      PackedIsPeaceful(items[..n], b);
      PeacefulAppend(Packed(items[..n])[b], items[n]);
    }
  }

  lemma PeacefulAppend(batch: seq<Item>, item: Item)
    requires Peaceful(batch)
    ensures Fits(item, batch) ==> Peaceful(batch + [item])
  {
    if Fits(item, batch) {
      forall i, j | 0 <= i < j < |batch| + 1 ensures !Clash((batch + [item])[i], (batch + [item])[j]) {
        assert batch[i] in batch;
      }
    }
  }

  // ----- first fit is tight -----

  /** An item sits where it sits because every earlier batch holds one it clashes with. */
  lemma {:induction false} PackedIsTight(items: seq<Item>, b: nat, c: nat, item: Item)
    requires c < b < |Packed(items)| && item in Packed(items)[b]
    ensures !Fits(item, Packed(items)[c])
  {
    var n := |items| - 1;
    var before := Packed(items[..n]);
    PlacedBatch(before, items[n], b);
    PlacedBatch(before, items[n], c);
    if b < |before| && item in before[b] {
      PackedIsTight(items[..n], b, c, item);
    } else {
      assert item == items[n];
    }
    assert before[c] <= Packed(items)[c];
  }

  /** How many of `items` clash with `item`. */
  function Clashes(items: seq<Item>, item: Item): nat {
    if items == [] then 0
    else Clashes(items[..|items| - 1], item) + (if Clash(item, items[|items| - 1]) then 1 else 0)
  }

  function ClashesIn(batches: seq<seq<Item>>, item: Item): nat {
    if batches == [] then 0 else Clashes(batches[0], item) + ClashesIn(batches[1..], item)
  }

  lemma ClashesInBegins(batch: seq<Item>, rest: seq<seq<Item>>, x: Item)
    ensures ClashesIn([batch] + rest, x) == Clashes(batch, x) + ClashesIn(rest, x)
  {
    hide Clashes;
    assert ([batch] + rest)[1..] == rest;
  }

  lemma ClashesMore(batch: seq<Item>, item: Item, x: Item)
    ensures Clashes(batch + [item], x) == Clashes(batch, x) + (if Clash(x, item) then 1 else 0)
  {
    hide Clash;
    assert (batch + [item])[..|batch|] == batch;
  }

  lemma NoClashes(x: Item)
    ensures Clashes([], x) == 0 && ClashesIn([], x) == 0
  {
  }

  lemma {:induction false} PlacedClashes(batches: seq<seq<Item>>, item: Item, x: Item)
    ensures ClashesIn(Placed(batches, item), x) == ClashesIn(batches, x) + (if Clash(x, item) then 1 else 0)
  {
    hide Clashes, ClashesIn, Clash, Fits;
    if batches == [] {
      ClashesInBegins([item], [], x);
      ClashesMore([], item, x);
      NoClashes(x);
      assert [] + [item] == [item] && [[item]] + [] == [[item]];
    } else {
      assert batches == [batches[0]] + batches[1..];
      ClashesInBegins(batches[0], batches[1..], x);
      if Fits(item, batches[0]) {
        ClashesInBegins(batches[0] + [item], batches[1..], x);
        ClashesMore(batches[0], item, x);
      } else {
        ClashesInBegins(batches[0], Placed(batches[1..], item), x);
        PlacedClashes(batches[1..], item, x);
      }
    }
  }

  lemma {:induction false} PackedClashes(items: seq<Item>, x: Item)
    ensures ClashesIn(Packed(items), x) == Clashes(items, x)
  {
    if items != [] {
      var n := |items| - 1;
      PackedClashes(items[..n], x);
      PlacedClashes(Packed(items[..n]), items[n], x);
    }
  }

  lemma ClashCounted(batch: seq<Item>, item: Item)
    requires !Fits(item, batch)
    ensures Clashes(batch, item) >= 1
  {
    var n := |batch| - 1;
    if !Clash(item, batch[n]) {
      assert forall other | other in batch :: other == batch[n] || other in batch[..n];
      ClashCounted(batch[..n], item);
    }
  }

  /** A new batch is opened only for an item that clashes with at least one in every batch. */
  lemma PlacedGrows(batches: seq<seq<Item>>, item: Item)
    requires |Placed(batches, item)| == |batches| + 1
    ensures |batches| <= ClashesIn(batches, item)
  {
    if batches != [] {
      if Fits(item, batches[0]) {
      } else {
        ClashCounted(batches[0], item);
        PlacedGrows(batches[1..], item);
      }
    }
  }

  /** The number of batches is at most one more than the number of items that some item
      clashes with, of those listed before it. */
  lemma {:induction false} BatchCount(items: seq<Item>, most: nat)
    requires forall i | 0 <= i < |items| :: Clashes(items[..i], items[i]) <= most
    ensures |Packed(items)| <= most + 1
  {
    if items != [] {
      var n := |items| - 1;
      forall i | 0 <= i < n ensures Clashes(items[..n][..i], items[..n][i]) <= most {
        assert items[..n][..i] == items[..i];
      }
      BatchCount(items[..n], most);
      PlacedSize(Packed(items[..n]), items[n]);
      if |Packed(items)| == |Packed(items[..n])| + 1 {
        PlacedGrows(Packed(items[..n]), items[n]);
        PackedClashes(items[..n], items[n]);
      }
    }
  }

  // ----- the edits of a batch -----

  function EditOf(item: Item): Edit {
    Replacement(item.start, item.end, item.after)
  }

  /** The edits of one file, in the order of the group. */
  function EditsOf(group: seq<Item>, path: string): seq<Edit> {
    if group == [] then []
    else
      var n := |group| - 1;
      EditsOf(group[..n], path) + (if group[n].path == path then [EditOf(group[n])] else [])
  }

  /** `edits_for`. */
  method EditsFor(group: seq<Item>) returns (edits: map<string, seq<Edit>>)
    ensures forall path :: path in edits <==> EditsOf(group, path) != []
    ensures forall path | path in edits :: edits[path] == EditsOf(group, path)
  {
    edits := map[];
    for k := 0 to |group|
      invariant forall path :: path in edits <==> EditsOf(group[..k], path) != []
      invariant forall path | path in edits :: edits[path] == EditsOf(group[..k], path)
    {
      ghost var next := group[..k + 1];
      assert next[..k] == group[..k] && next[k] == group[k];
      forall path ensures EditsOf(next, path)
          == EditsOf(group[..k], path) + (if group[k].path == path then [EditOf(group[k])] else [])
      {
      }
      var path := group[k].path;
      var soFar := if path in edits then edits[path] else [];
      edits := edits[path := soFar + [EditOf(group[k])]];
    }
    assert group[..|group|] == group;
  }

  lemma EditsOfOrigin(group: seq<Item>, path: string)
    ensures forall e | e in EditsOf(group, path) ::
      exists i :: 0 <= i < |group| && group[i].path == path && EditOf(group[i]) == e
        && e.start == group[i].start && e.end == group[i].end && e.after == group[i].after
  {
    if group != [] {
      var n := |group| - 1;
      EditsOfOrigin(group[..n], path);
      forall e | e in EditsOf(group, path)
        ensures exists i :: 0 <= i < |group| && group[i].path == path && EditOf(group[i]) == e
      {
        if e in EditsOf(group[..n], path) {
          var i :| 0 <= i < n && group[..n][i].path == path && EditOf(group[..n][i]) == e;
          assert group[i] == group[..n][i];
        } else {
          assert EditOf(group[n]) == e;
        }
      }
    }
  }

  lemma {:induction false} SeparateAppend(edits: seq<Edit>, e: Edit)
    ensures Separate(edits + [e]) <==> Separate(edits) && Clear(e, edits)
  {
    if edits == [] {
      assert ([e])[1..] == [];
    } else {
      var rest := edits[1..];
      assert (edits + [e])[1..] == rest + [e];
      SeparateAppend(rest, e);
      assert forall f :: f in rest + [e] <==> f in rest || f == e;
      assert edits == [edits[0]] + rest;
      assert forall f :: f in edits <==> f in rest || f == edits[0];
      assert (edits + [e])[0] == edits[0];
      assert Apart(edits[0], e) <==> Apart(e, edits[0]);
      assert Clear(edits[0], rest + [e]) <==> Clear(edits[0], rest) && Apart(edits[0], e);
      assert Clear(e, edits) <==> Clear(e, rest) && Apart(e, edits[0]);
    }
  }

  /** No two mutations of the file begin together. */
  ghost predicate StartsDiffer(group: seq<Item>, path: string) {
    forall i, j | 0 <= i < j < |group| && group[i].path == path == group[j].path :: group[i].start != group[j].start
  }

  /** Mutations that may share a batch can be spliced together exactly when no two of them begin
      together, which only empty anchors can do. */
  lemma {:induction false} PeacefulIsSeparate(group: seq<Item>, path: string)
    requires Peaceful(group)
    ensures Separate(EditsOf(group, path)) <==> StartsDiffer(group, path)
  {
    if group != [] {
      var n := |group| - 1;
      PeacefulIsSeparate(group[..n], path);
      if group[n].path == path {
        PeacefulApart(group, path);
        SeparateAppend(EditsOf(group[..n], path), EditOf(group[n]));
      } else {
        assert EditsOf(group, path) == EditsOf(group[..n], path);
      }
      DifferParts(group, path);
    }
  }

  /** The last mutation begins where no earlier one of the file does. */
  ghost predicate NewStart(group: seq<Item>, path: string)
    requires group != []
  {
    var n := |group| - 1;
    forall i | 0 <= i < n && group[i].path == path :: group[i].start != group[n].start
  }

  lemma DifferParts(group: seq<Item>, path: string)
    requires group != []
    ensures var n := |group| - 1;
      StartsDiffer(group, path) <==>
        (StartsDiffer(group[..n], path) && (group[n].path == path ==> NewStart(group, path)))
  {
    var n := |group| - 1;
    if StartsDiffer(group, path) {
      forall i, j | 0 <= i < j < n && group[..n][i].path == path == group[..n][j].path
        ensures group[..n][i].start != group[..n][j].start
      {
        assert group[i].path == path == group[j].path;
      }
    }
    assert forall i | 0 <= i < n :: group[i] == group[..n][i];
  }

  lemma PeacefulApart(group: seq<Item>, path: string)
    requires group != [] && Peaceful(group) && group[|group| - 1].path == path
    ensures var n := |group| - 1;
      Clear(EditOf(group[n]), EditsOf(group[..n], path)) <==> NewStart(group, path)
  {
    var n := |group| - 1;
    EditsOfOrigin(group[..n], path);
    forall i | 0 <= i < n && group[i].path == path
      ensures Apart(EditOf(group[n]), EditOf(group[i])) <==> group[i].start != group[n].start
      ensures EditOf(group[i]) in EditsOf(group[..n], path)
    {
      assert !Clash(group[i], group[n]);
      assert group[i] == group[..n][i];
      EditListed(group[..n], i);
    }
    if NewStart(group, path) {
      forall e | e in EditsOf(group[..n], path) ensures Apart(EditOf(group[n]), e) {
        var i :| 0 <= i < n && group[..n][i].path == path && EditOf(group[..n][i]) == e;
        assert group[i] == group[..n][i];
      }
    }
  }

  lemma {:induction false} EditListed(group: seq<Item>, i: nat)
    requires i < |group|
    ensures EditOf(group[i]) in EditsOf(group, group[i].path)
    ensures EditOf(group[i]) == Replacement(group[i].start, group[i].end, group[i].after)
  {
    var n := |group| - 1;
    if i < n {
      EditListed(group[..n], i);
      assert EditsOf(group[..n], group[i].path) <= EditsOf(group, group[i].path);
    }
  }

  lemma AllHolds(batches: seq<seq<Item>>, b: nat, item: Item)
    requires b < |batches| && item in batches[b]
    ensures item in All(batches)
  {
    if b > 0 { AllHolds(batches[1..], b - 1, item); }
  }

  /** An anchor found by `collect` is not empty, or its file is. */
  predicate Resolved(item: Item, text: string) {
    item.end <= |text| && (item.start < item.end || text == "")
  }

  /** Whatever is packed together, writing it in one pass is writing it mutation by mutation, in
      any order, as long as no two of the batch begin together. */
  lemma BatchIsSequential(items: seq<Item>, b: nat, path: string, text: string, others: seq<Edit>)
    requires forall i | 0 <= i < |items| && items[i].path == path :: items[i].end <= |text|
    requires b < |Packed(items)| && StartsDiffer(Packed(items)[b], path)
    requires multiset(others) == multiset(EditsOf(Packed(items)[b], path))
    ensures Within(text, others) && Separate(others)
    ensures Spliced(text, EditsOf(Packed(items)[b], path)) == OneAtATime(text, others)
  {
    var batch := Packed(items)[b];
    var edits := EditsOf(batch, path);
    PackedAre(items, b);
    PackedIsPeaceful(items, b);
    PeacefulIsSeparate(batch, path);
    EditsOfOrigin(batch, path);
    SeparateIgnoresOrder(edits, others);
    forall e | e in others ensures e in edits {
      assert e in multiset(others);
    }
    SortedIgnoresOrder(edits, others);
    SplicingIsSequential(text, others);
  }

  lemma PackedAre(items: seq<Item>, b: nat)
    requires b < |Packed(items)|
    ensures forall i | 0 <= i < |Packed(items)[b]| :: Packed(items)[b][i] in items
  {
    var batch := Packed(items)[b];
    PackedIsPartition(items);
    forall i | 0 <= i < |batch| ensures batch[i] in items {
      AllHolds(Packed(items), b, batch[i]);
      assert batch[i] in multiset(items);
    }
  }

  /** In a file that is not empty this is always so. */
  lemma ResolvedStartsDiffer(group: seq<Item>, path: string, text: string)
    requires Peaceful(group) && text != ""
    requires forall i | 0 <= i < |group| && group[i].path == path :: Resolved(group[i], text)
    ensures StartsDiffer(group, path)
  {
    forall i, j | 0 <= i < j < |group| && group[i].path == path == group[j].path
      ensures group[i].start != group[j].start
    {
      assert !Clash(group[i], group[j]);
    }
  }

  function Concat(items: seq<Edit>): string {
    if items == [] then "" else items[0].after + Concat(items[1..])
  }

  /** Into an empty file the replacements are written one behind the other, in the order of the
      strings. */
  lemma EmptyFileIsWritten(edits: seq<Edit>)
    requires forall e | e in edits :: e.start == e.end == 0
    ensures Spliced("", edits) == Concat(Sorted(edits))
    ensures Ordered(Sorted(edits)) && multiset(Sorted(edits)) == multiset(edits)
  {
    SortedSorts(edits);
    SortedKeeps(edits);
    SplicedIntoNothing(Sorted(edits));
  }

  lemma {:induction false} SplicedIntoNothing(items: seq<Edit>)
    requires forall e | e in items :: e.start == e.end == 0
    ensures SpliceFrom("", items, 0) == Concat(items)
  {
    if items != [] {
      assert items[0] in items;
      SplicedIntoNothing(items[1..]);
      assert SpliceFrom("", items, 0) == "" + (items[0].after + SpliceFrom("", items[1..], 0));
    }
  }
}
