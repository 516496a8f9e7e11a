/** What the share counts, on the bundle itself (`attribute` in `scripts/check_bundle_share.py`).

    Whoever walks through a bundle character by character, counting lines and columns, and looks
    up in the source map whose each character is, ends with the numbers that `attribute` gets by
    measuring stretches. */
module BundleText {
  import opened Vlq
  import opened BundleShare
  import opened MappingText

  // ----- lines -----

  predicate Newlineless(line: Units) {
    forall k | 0 <= k < |line| :: line[k] != 10
  }

  function Rejoined(lines: seq<Units>): Units {
    if lines == [] then []
    else if |lines| == 1 then lines[0]
    else lines[0] + [10] + Rejoined(lines[1..])
  }

  lemma {:induction false} RejoinedLast(lines: seq<Units>, line: Units, more: Units)
    ensures Rejoined(lines + [line + more]) == Rejoined(lines + [line]) + more
    ensures Rejoined(lines + [line] + [[]]) == Rejoined(lines + [line]) + [10]
  {
    if lines == [] {
      assert [] + [line + more] == [line + more] && [] + [line] == [line];
      assert ([line] + [[]])[1..] == [[]];
      assert line + [10] + [] == line + [10];
    } else {
      var first, rest := lines[0], lines[1..];
      RejoinedLast(rest, line, more);
      assert (lines + [line + more])[1..] == rest + [line + more];
      assert (lines + [line])[1..] == rest + [line];
      assert (lines + [line] + [[]])[1..] == rest + [line] + [[]];
    }
  }

  /** The lines are the text between the newlines: none of them holds one, and with a newline
      between each two they are the bundle. */
  lemma {:induction false} LinesAreLines(body: Units)
    ensures Rejoined(Lines(body)) == body
    ensures forall k | 0 <= k < |Lines(body)| :: Newlineless(Lines(body)[k])
  {
    if body != [] {
      var n := |body| - 1;
      var before := Lines(body[..n]);
      var m := |before| - 1;
      LinesAreLines(body[..n]);
      assert before == before[..m] + [before[m]] && body == body[..n] + [body[n]];
      RejoinedLast(before[..m], before[m], [body[n]]);
      assert Newlineless(before[m]);
    }
  }

  // ----- whose a character is -----

  /** A source that the map may name, from the front or, as Python reads it, from the back. */
  predicate Named(sources: seq<string>, index: int) {
    -|sources| <= index < |sources|
  }

  function NameOf(sources: seq<string>, m: Mapping): Option<string>
    requires m.source.Some? ==> Named(sources, m.source.value)
  {
    if m.source.None? then None
    else if m.source.value >= 0 then Some(sources[m.source.value])
    else Some(sources[|sources| + m.source.value])
  }

  predicate Valid(sources: seq<string>, line: seq<Mapping>) {
    AllLegal(line) && forall k | 0 <= k < |line| && line[k].source.Some? :: Named(sources, line[k].source.value)
  }

  /** The last mapping that begins at or before the column says whose the character is. */
  function OwnerOf(sources: seq<string>, line: seq<Mapping>, column: int): Option<string>
    requires Valid(sources, line)
  {
    if line == [] then None
    else
      var last := |line| - 1;
      if line[last].column <= column then NameOf(sources, line[last]) else OwnerOf(sources, line[..last], column)
  }

  ghost predicate AllValid(sources: seq<string>, file: seq<seq<Mapping>>) {
    forall k | 0 <= k < |file| :: Valid(sources, file[k])
  }

  /** Walking through the text from a line and a column of the bundle, how many characters belong
      to `name`. */
  function Walked(body: Units, sources: seq<string>, file: seq<seq<Mapping>>, column: nat, name: Option<string>): nat
    requires forall k | 0 <= k < |file| :: Valid(sources, file[k])
    decreases |body|
  {
    if body == [] || file == [] then 0
    else if body[0] == 10 then Walked(body[1..], sources, file[1..], 0, name)
    else
      (if OwnerOf(sources, file[0], column) == name then 1 else 0) + Walked(body[1..], sources, file, column + 1, name)
  }

  // ----- a line -----

  /** How many of the columns up to `end` belong to `name`. */
  function Columns(sources: seq<string>, line: seq<Mapping>, begin: nat, end: nat, name: Option<string>): nat
    requires Valid(sources, line) && begin <= end
    decreases end - begin
  {
    if begin == end then 0
    else
      (if OwnerOf(sources, line, begin) == name then 1 else 0) + Columns(sources, line, begin + 1, end, name)
  }

  lemma {:induction false} WalkedLine(line: Units, rest: Units, sources: seq<string>, file: seq<seq<Mapping>>,
                                      column: nat, name: Option<string>)
    requires Newlineless(line) && AllValid(sources, file) && file != []
    ensures Walked(line + rest, sources, file, column, name)
         == Columns(sources, file[0], column, column + |line|, name)
            + Walked(rest, sources, file, column + |line|, name)
  {
    if line == [] {
      assert line + rest == rest;
    } else {
      assert (line + rest)[1..] == line[1..] + rest;
      WalkedLine(line[1..], rest, sources, file, column + 1, name);
    }
  }

  lemma {:induction false} ColumnsAreOwned(sources: seq<string>, line: seq<Mapping>, stretches: seq<Stretch>,
                                           begin: nat, end: nat, name: Option<string>)
    requires Valid(sources, line) && begin <= end
    requires forall c: nat :: Owner(stretches, c) == OwnerOf(sources, line, c)
    ensures Owned(stretches, begin, name) + Columns(sources, line, begin, end, name) == Owned(stretches, end, name)
    decreases end - begin
  {
    if begin < end { ColumnsAreOwned(sources, line, stretches, begin + 1, end, name); }
  }

  lemma {:induction false} SegmentsAre(line: seq<Mapping>)
    ensures |Segments(line)| == |line|
    ensures forall k | 0 <= k < |line| :: Segments(line)[k] == Segment(line[k].column, line[k].source)
  {
    if line != [] {
      SegmentsAre(line[1..]);
      forall k | 0 <= k < |line| ensures Segments(line)[k] == Segment(line[k].column, line[k].source) {
        if k > 0 { assert Segments(line)[k] == Segments(line[1..])[k - 1] && line[1..][k - 1] == line[k]; }
      }
    }
  }

  lemma {:induction false} ResolvedAre(sources: seq<string>, segments: seq<Segment>)
    requires forall k | 0 <= k < |segments| :: !Missing(sources, segments[k])
    ensures Resolve(sources, segments).Some? && |Resolve(sources, segments).value| == |segments|
    ensures forall k | 0 <= k < |segments| :: Resolve(sources, segments).value[k] == Looked(sources, segments[k])
  {
    hide Missing, Looked;
    if segments != [] {
      ResolvedAre(sources, segments[1..]);
      forall k | 0 <= k < |segments|
        ensures Resolve(sources, segments).value[k] == Looked(sources, segments[k])
      {
        if k > 0 { assert segments[1..][k - 1] == segments[k]; }
      }
    }
  }

  /** What a line of the map is read as: a stretch for each mapping, with the name it means. */
  lemma LineIsResolved(sources: seq<string>, line: seq<Mapping>)
    requires Valid(sources, line)
    ensures Resolve(sources, Segments(line)).Some?
    ensures var stretches := Resolve(sources, Segments(line)).value;
      && |stretches| == |line|
      && forall k | 0 <= k < |line| :: stretches[k] == Stretch(line[k].column, NameOf(sources, line[k]))
  {
    SegmentsAre(line);
    ResolvedAre(sources, Segments(line));
  }

  lemma {:induction false} OwnersAgree(sources: seq<string>, line: seq<Mapping>, stretches: seq<Stretch>, column: int)
    requires Valid(sources, line) && |stretches| == |line|
    requires forall k | 0 <= k < |line| :: stretches[k] == Stretch(line[k].column, NameOf(sources, line[k]))
    ensures Owner(stretches, column) == OwnerOf(sources, line, column)
  {
    if line != [] {
      var n := |line| - 1;
      OwnersAgree(sources, line[..n], stretches[..n], column);
    }
  }

  // ----- the whole bundle -----

  /** The columns of a line of the map are in order and inside the line. */
  predicate Placed(line: seq<Mapping>, width: int) {
    && (forall k | 0 <= k < |line| :: 0 <= line[k].column <= width)
    && forall j, k | 0 <= j < k < |line| :: line[j].column <= line[k].column
  }

  function Width(lines: seq<Units>): nat {
    if lines == [] then 0 else |lines[0]|
  }

  function Rest(lines: seq<Units>): seq<Units> {
    if lines == [] then [] else lines[1..]
  }

  predicate AllPlaced(lines: seq<Units>, file: seq<seq<Mapping>>) {
    forall k | 0 <= k < |file| :: Placed(file[k], if k < |lines| then |lines[k]| else 0)
  }

  lemma {:induction false} PlacedIsWellPlaced(line: seq<Mapping>, stretches: seq<Stretch>, width: int)
    requires |stretches| == |line| && Placed(line, width)
    requires forall k | 0 <= k < |line| :: stretches[k].column == line[k].column
    ensures WellPlaced(stretches, width)
  {
    if line != [] {
      var n := |line| - 1;
      PlacedIsWellPlaced(line[..n], stretches[..n], line[n].column);
    }
  }

  /** Line by line, what the stretches own is what the walk counts. */
  lemma {:induction false} WalkIsOwned(lines: seq<Units>, sources: seq<string>, file: seq<seq<Mapping>>,
                                       name: Option<string>)
    requires AllValid(sources, file) && forall k | 0 <= k < |lines| :: Newlineless(lines[k])
    ensures Meant(lines, file, sources).Some? && |Meant(lines, file, sources).value| == |file|
    ensures OwnedOn(Meant(lines, file, sources).value, name) == Walked(Rejoined(lines), sources, file, 0, name)
    decreases |file|
  {
    if file != [] {
      LineIsResolved(sources, file[0]);
      var stretches := Resolve(sources, Segments(file[0])).value;
      WalkIsOwned(Rest(lines), sources, file[1..], name);
      OneLine(lines, sources, file, stretches, name);
      MeantStep(lines, file, sources);
    }
  }

  lemma MeantStep(lines: seq<Units>, file: seq<seq<Mapping>>, sources: seq<string>)
    requires file != [] && Resolve(sources, Segments(file[0])).Some? && Meant(Rest(lines), file[1..], sources).Some?
    ensures Meant(lines, file, sources)
         == Some([MappedLine(Width(lines), Resolve(sources, Segments(file[0])).value)]
                 + Meant(Rest(lines), file[1..], sources).value)
  {
  }

  lemma OneLine(lines: seq<Units>, sources: seq<string>, file: seq<seq<Mapping>>, stretches: seq<Stretch>,
                name: Option<string>)
    requires AllValid(sources, file) && file != [] && forall k | 0 <= k < |lines| :: Newlineless(lines[k])
    requires |stretches| == |file[0]|
    requires forall k | 0 <= k < |file[0]| :: stretches[k] == Stretch(file[0][k].column, NameOf(sources, file[0][k]))
    ensures Walked(Rejoined(lines), sources, file, 0, name)
         == Owned(stretches, Width(lines), name) + Walked(Rejoined(Rest(lines)), sources, file[1..], 0, name)
  {
    hide OwnerOf, NameOf;
    if lines == [] {
      assert Walked([], sources, file, 0, name) == 0;
    } else {
      forall c: nat ensures Owner(stretches, c) == OwnerOf(sources, file[0], c) {
        OwnersAgree(sources, file[0], stretches, c);
      }
      var line := lines[0];
      assert Newlineless(line);
      ColumnsAreOwned(sources, file[0], stretches, 0, |line|, name);
      if |lines| == 1 {
        WalkedLine(line, [], sources, file, 0, name);
        assert line + [] == line && lines[1..] == [];
      } else {
        var rest := Rejoined(lines[1..]);
        WalkedLine(line, [10] + rest, sources, file, 0, name);
        assert line + [10] + rest == line + ([10] + rest);
        assert ([10] + rest)[1..] == rest;
      }
    }
  }

  lemma {:induction false} MeantIsPlaced(lines: seq<Units>, sources: seq<string>, file: seq<seq<Mapping>>)
    requires AllValid(sources, file) && AllPlaced(lines, file)
    ensures Meant(lines, file, sources).Some? && AllWellPlaced(Meant(lines, file, sources).value)
    decreases |file|
  {
    if file != [] {
      LineIsResolved(sources, file[0]);
      var stretches := Resolve(sources, Segments(file[0])).value;
      assert Placed(file[0], Width(lines));
      PlacedIsWellPlaced(file[0], stretches, Width(lines));
      forall k | 0 <= k < |file[1..]|
        ensures Placed(file[1..][k], if k < |Rest(lines)| then |Rest(lines)[k]| else 0)
      {
        assert Placed(file[k + 1], if k + 1 < |lines| then |lines[k + 1]| else 0);
      }
      hide Placed, WellPlaced;
      MeantIsPlaced(Rest(lines), sources, file[1..]);
      MeantStep(lines, file, sources);
    }
  }

  /** For every bundle and every source map of it whose columns are in order and inside their
      lines: the share of each source is the number of characters that are its own, and unmapped
      are the characters of nobody and one for each line of the map. */
  lemma ShareIsWalked(body: Units, sources: seq<string>, file: seq<seq<Mapping>>, share: Share, name: string)
    requires file != [] && AllValid(sources, file) && AllPlaced(Lines(body), file)
    requires MapLines(Lines(body), Split(Print(file), ';'), sources, 0).Some? ==>
      Shared(share.per, share.unmapped, MapLines(Lines(body), Split(Print(file), ';'), sources, 0).value)
    ensures MapLines(Lines(body), Split(Print(file), ';'), sources, 0).Some?
    ensures Get(share.per, name) == Walked(body, sources, file, 0, Some(name))
    ensures share.unmapped == Walked(body, sources, file, 0, None) + |file|
  {
    hide *;
    ValidIsLegal(sources, file);
    PrintedIsRead(Lines(body), file, sources);
    LinesAreLines(body);
    WalkIsOwned(Lines(body), sources, file, Some(name));
    WalkIsOwned(Lines(body), sources, file, None);
    MeantIsPlaced(Lines(body), sources, file);
    ShareCountsCharacters(Meant(Lines(body), file, sources).value, share.per, share.unmapped, name);
  }

  lemma ValidIsLegal(sources: seq<string>, file: seq<seq<Mapping>>)
    requires AllValid(sources, file)
    ensures forall k | 0 <= k < |file| :: AllLegal(file[k])
  {
    hide AllLegal;
  }

  lemma {:induction false} ResolveFailsExactlyWhen(sources: seq<string>, segments: seq<Segment>)
    ensures Resolve(sources, segments).None? <==> exists k :: 0 <= k < |segments| && Missing(sources, segments[k])
  {
    hide Missing;
    if segments != [] {
      var rest := segments[1..];
      ResolveFailsExactlyWhen(sources, rest);
      if k :| 0 <= k < |rest| && Missing(sources, rest[k]) { assert segments[k + 1] == rest[k]; }
      if k :| 0 <= k < |segments| && Missing(sources, segments[k]) && k > 0 { assert rest[k - 1] == segments[k]; }
    }
  }

  lemma LineFailsExactlyWhen(sources: seq<string>, line: seq<Mapping>)
    requires AllLegal(line)
    ensures Resolve(sources, Segments(line)).None? <==> !Valid(sources, line)
  {
    hide AllLegal;
    SegmentsAre(line);
    ResolveFailsExactlyWhen(sources, Segments(line));
    forall k | 0 <= k < |line|
      ensures Missing(sources, Segments(line)[k]) <==> line[k].source.Some? && !Named(sources, line[k].source.value)
    {
    }
  }

  /** A printed source map is refused exactly when it names a source that there is none of. */
  lemma {:induction false} ReadingFailsExactlyWhen(lines: seq<Units>, sources: seq<string>, file: seq<seq<Mapping>>)
    requires forall k | 0 <= k < |file| :: AllLegal(file[k])
    ensures Meant(lines, file, sources).None? <==> !AllValid(sources, file)
    decreases |file|
  {
    hide Valid, AllLegal;
    if file != [] {
      LineFailsExactlyWhen(sources, file[0]);
      ReadingFailsExactlyWhen(Rest(lines), sources, file[1..]);
      assert AllValid(sources, file) <==> Valid(sources, file[0]) && AllValid(sources, file[1..]);
    }
  }
}
