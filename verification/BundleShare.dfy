/** How many characters of a bundle come from each source (`attribute` in
    `scripts/check_bundle_share.py`).

    A source map gives every line a list of segments.  The function measures the stretch from
    each segment to the next; what it means is counted character by character: a character
    belongs to the last segment that begins at or before it. */
module BundleShare {
  import opened Vlq

  /** A file as UTF-16 code units. */
  type Units = seq<nat>

  const NEWLINE: nat := 10

  /** `body.split("\n")`, measured in code units. */
  function Lines(body: Units): (lines: seq<Units>)
    ensures lines != []
  {
    if body == [] then [[]]
    else
      var n := |body| - 1;
      var before := Lines(body[..n]);
      if body[n] == NEWLINE then before + [[]]
      else before[..|before| - 1] + [before[|before| - 1] + [body[n]]]
  }

  /** `text.split(sep)`. */
  function Split(text: string, sep: char): (parts: seq<string>)
    ensures parts != []
  {
    if text == "" then [""]
    else
      var rest := Split(text[1..], sep);
      if text[0] == sep then [""] + rest else [[text[0]] + rest[0]] + rest[1..]
  }

  // ----- reading one line of mappings -----

  /** From `column` on, the characters are from `source`; no source is unmapped. */
  datatype Segment = Segment(column: int, source: Option<int>)

  datatype Reading = Reading(segments: seq<Segment>, index: int)

  /** The loop over the pieces of one line: columns add up within the line, source indices
      across lines.  No reading is a `KeyError`, or the `IndexError` of a piece with no field. */
  function Read(pieces: seq<string>, column: int, index: int): Option<Reading> {
    if pieces == [] then Some(Reading([], index))
    else if pieces[0] == "" then Read(pieces[1..], column, index)
    else
      match Decode(pieces[0])
      case None => None
      case Some(fields) =>
        if fields == [] then None
        else
          var at := column + fields[0];
          var next := if |fields| >= 4 then index + fields[1] else index;
          match Read(pieces[1..], at, next)
          case None => None
          case Some(r) =>
            Some(Reading([Segment(at, if |fields| >= 4 then Some(next) else None)] + r.segments, r.index))
  }

  /** `sources[source]`: a negative index counts from the end, as in Python. */
  function SourceAt(sources: seq<string>, index: int): Option<string> {
    if 0 <= index < |sources| then Some(sources[index])
    else if -|sources| <= index < 0 then Some(sources[|sources| + index])
    else None
  }

  /** A segment whose source has been looked up. */
  datatype Stretch = Stretch(column: int, name: Option<string>)

  function Looked(sources: seq<string>, s: Segment): Stretch {
    Stretch(s.column, if s.source.None? then None else SourceAt(sources, s.source.value))
  }

  predicate Missing(sources: seq<string>, s: Segment) {
    s.source.Some? && SourceAt(sources, s.source.value).None?
  }

  function Resolve(sources: seq<string>, segments: seq<Segment>): Option<seq<Stretch>> {
    if segments == [] then Some([])
    else if Missing(sources, segments[0]) then None
    else
      match Resolve(sources, segments[1..])
      case None => None
      case Some(rest) => Some([Looked(sources, segments[0])] + rest)
  }

  // ----- counting by stretches -----

  function Positive(n: int): nat {
    if n < 0 then 0 else n
  }

  /** The characters that the stretches up to `end` give to `name`. */
  function Given(stretches: seq<Stretch>, end: int, name: Option<string>): nat {
    if stretches == [] then 0
    else
      var last := stretches[|stretches| - 1];
      Given(stretches[..|stretches| - 1], last.column, name)
      + (if last.name == name then Positive(end - last.column) else 0)
  }

  /** What one line adds to `unmapped`, its newline included. */
  function Unmapped(stretches: seq<Stretch>, width: nat): int {
    if stretches == [] then width + 1 else stretches[0].column + Given(stretches, width, None) + 1
  }

  // ----- counting characters -----

  /** Columns in order and inside the line. */
  predicate InOrder(stretches: seq<Stretch>, width: int) {
    if stretches == [] then true
    else
      var n := |stretches| - 1;
      stretches[n].column <= width && InOrder(stretches[..n], stretches[n].column)
  }

  predicate WellPlaced(stretches: seq<Stretch>, width: int) {
    InOrder(stretches, width) && (stretches != [] ==> 0 <= stretches[0].column)
  }

  /** Who owns the character in `column`. */
  function Owner(stretches: seq<Stretch>, column: int): Option<string> {
    if stretches == [] then None
    else
      var last := stretches[|stretches| - 1];
      if last.column <= column then last.name else Owner(stretches[..|stretches| - 1], column)
  }

  /** The characters from the start of the line up to `end` that `name` owns. */
  function Owned(stretches: seq<Stretch>, end: nat, name: Option<string>): nat {
    if end == 0 then 0
    else Owned(stretches, end - 1, name) + (if Owner(stretches, end - 1) == name then 1 else 0)
  }

  lemma OwnedBefore(stretches: seq<Stretch>, end: nat, name: Option<string>)
    requires stretches != [] && end <= stretches[|stretches| - 1].column
    ensures Owned(stretches, end, name) == Owned(stretches[..|stretches| - 1], end, name)
  {
  }

  lemma OwnedFrom(stretches: seq<Stretch>, start: nat, end: nat, name: Option<string>)
    requires stretches != [] && stretches[|stretches| - 1].column <= start <= end
    ensures Owned(stretches, end, name)
         == Owned(stretches, start, name) + (if stretches[|stretches| - 1].name == name then end - start else 0)
  {
  }

  lemma InOrderStarts(stretches: seq<Stretch>, width: int)
    requires stretches != [] && InOrder(stretches, width)
    ensures stretches[0].column <= stretches[|stretches| - 1].column
  {
    var n := |stretches| - 1;
    if n > 0 { InOrderStarts(stretches[..n], stretches[n].column); }
  }

  /** For a named source, measuring stretches is counting characters. */
  lemma {:induction false} GivenIsOwned(stretches: seq<Stretch>, end: nat, name: string)
    requires WellPlaced(stretches, end)
    ensures Given(stretches, end, Some(name)) == Owned(stretches, end, Some(name))
  {
    if stretches == [] {
      NobodyOwns(end, name);
    } else {
      var n := |stretches| - 1;
      var at := stretches[n].column;
      InOrderStarts(stretches, end);
      GivenIsOwned(stretches[..n], at, name);
      OwnedBefore(stretches, at, Some(name));
      OwnedFrom(stretches, at, end, Some(name));
    }
  }

  lemma NobodyOwns(end: nat, name: string)
    ensures Owned([], end, Some(name)) == 0
  {
  }

  /** What is unmapped are the characters that nobody owns, and the newline. */
  lemma UnmappedIsUnowned(stretches: seq<Stretch>, width: nat)
    requires WellPlaced(stretches, width)
    ensures Unmapped(stretches, width) == Owned(stretches, width, None) + 1
  {
    if stretches == [] {
      UnownedAll(width);
    } else {
      UnownedParts(stretches, width);
    }
  }

  lemma UnownedAll(end: nat)
    ensures Owned([], end, None) == end
  {
  }

  lemma {:induction false} UnownedParts(stretches: seq<Stretch>, end: nat)
    requires WellPlaced(stretches, end) && stretches != []
    ensures stretches[0].column + Given(stretches, end, None) == Owned(stretches, end, None)
  {
    var n := |stretches| - 1;
    var at := stretches[n].column;
    InOrderStarts(stretches, end);
    if n == 0 {
      UnownedAll(at);
      assert stretches[..0] == [];
    } else {
      UnownedParts(stretches[..n], at);
    }
    OwnedBefore(stretches, at, None);
    OwnedFrom(stretches, at, end, None);
  }

  // ----- conservation on one line -----

  /** The sum over all names, unmapped included, of what the stretches give. */
  function GivenInAll(stretches: seq<Stretch>, end: int): nat {
    if stretches == [] then 0
    else
      var last := stretches[|stretches| - 1];
      GivenInAll(stretches[..|stretches| - 1], last.column) + Positive(end - last.column)
  }

  /** How far columns run backwards, the end of the line included. */
  function Backwards(stretches: seq<Stretch>, end: int): nat {
    if stretches == [] then 0
    else
      var last := stretches[|stretches| - 1];
      Backwards(stretches[..|stretches| - 1], last.column) + Positive(last.column - end)
  }

  lemma {:induction false} GivenTelescopes(stretches: seq<Stretch>, end: int)
    requires stretches != []
    ensures stretches[0].column + GivenInAll(stretches, end) == end + Backwards(stretches, end)
  {
    var n := |stretches| - 1;
    if n > 0 { GivenTelescopes(stretches[..n], stretches[n].column); }
  }

  lemma {:induction false} BackwardsIsDisorder(stretches: seq<Stretch>, end: int)
    ensures Backwards(stretches, end) == 0 <==> InOrder(stretches, end)
  {
    if stretches != [] {
      var n := |stretches| - 1;
      BackwardsIsDisorder(stretches[..n], stretches[n].column);
    }
  }

  /** Everything one line adds, to the sources and to what is unmapped. */
  function LineTotal(stretches: seq<Stretch>, width: nat): int {
    if stretches == [] then width + 1 else stretches[0].column + GivenInAll(stretches, width) + 1
  }

  /** A line is never counted short, and it is counted exactly when its columns are in order. */
  lemma LineIsConserved(stretches: seq<Stretch>, width: nat)
    ensures LineTotal(stretches, width) >= width + 1
    ensures LineTotal(stretches, width) == width + 1 <==> InOrder(stretches, width)
  {
    BackwardsIsDisorder(stretches, width);
    if stretches != [] { GivenTelescopes(stretches, width); }
  }

  // ----- the whole file -----

  /** A line of the bundle with what its mappings say. */
  datatype MappedLine = MappedLine(width: nat, stretches: seq<Stretch>)

  /** Every line of mappings, each beside the bundle's line of the same number; lines past the
      end of the bundle have no width. */
  function MapLines(lines: seq<Units>, encoded: seq<string>, sources: seq<string>, index: int): Option<seq<MappedLine>>
  {
    if encoded == [] then Some([])
    else
      match Read(Split(encoded[0], ','), 0, index)
      case None => None
      case Some(r) =>
        match Resolve(sources, r.segments)
        case None => None
        case Some(stretches) =>
          match MapLines(if lines == [] then [] else lines[1..], encoded[1..], sources, r.index)
          case None => None
          case Some(rest) => Some([MappedLine(if lines == [] then 0 else |lines[0]|, stretches)] + rest)
  }

  function GivenOn(lines: seq<MappedLine>, name: string): nat {
    if lines == [] then 0 else Given(lines[0].stretches, lines[0].width, Some(name)) + GivenOn(lines[1..], name)
  }

  function UnmappedOn(lines: seq<MappedLine>): int {
    if lines == [] then 0 else Unmapped(lines[0].stretches, lines[0].width) + UnmappedOn(lines[1..])
  }

  function OwnedOn(lines: seq<MappedLine>, name: Option<string>): nat {
    if lines == [] then 0 else Owned(lines[0].stretches, lines[0].width, name) + OwnedOn(lines[1..], name)
  }

  predicate AllWellPlaced(lines: seq<MappedLine>) {
    forall line | line in lines :: WellPlaced(line.stretches, line.width)
  }

  /** Measuring stretches is counting characters, over the whole file: the characters of a
      source, and for what is unmapped the characters of nobody and a newline a line. */
  lemma {:induction false} MeasuringIsCounting(lines: seq<MappedLine>, name: string)
    requires AllWellPlaced(lines)
    ensures GivenOn(lines, name) == OwnedOn(lines, Some(name))
    ensures UnmappedOn(lines) == OwnedOn(lines, None) + |lines|
  {
    if lines != [] {
      assert lines[0] in lines;
      GivenIsOwned(lines[0].stretches, lines[0].width, name);
      UnmappedIsUnowned(lines[0].stretches, lines[0].width);
      MeasuringIsCounting(lines[1..], name);
    }
  }

  // ----- conservation over the file -----

  function Total(lines: seq<MappedLine>): int {
    if lines == [] then 0 else LineTotal(lines[0].stretches, lines[0].width) + Total(lines[1..])
  }

  function Widths(lines: seq<MappedLine>): nat {
    if lines == [] then 0 else lines[0].width + 1 + Widths(lines[1..])
  }

  predicate AllInOrder(lines: seq<MappedLine>) {
    forall line | line in lines :: InOrder(line.stretches, line.width)
  }

  lemma {:induction false} TotalIsConserved(lines: seq<MappedLine>)
    ensures Total(lines) >= Widths(lines)
    ensures Total(lines) == Widths(lines) <==> AllInOrder(lines)
  {
    if lines != [] {
      LineIsConserved(lines[0].stretches, lines[0].width);
      TotalIsConserved(lines[1..]);
      assert forall line :: line in lines <==> line == lines[0] || line in lines[1..];
    }
  }

  function Lengths(lines: seq<Units>): nat {
    if lines == [] then 0 else |lines[0]| + 1 + Lengths(lines[1..])
  }

  lemma LengthsAppend(lines: seq<Units>, line: Units)
    ensures Lengths(lines + [line]) == Lengths(lines) + |line| + 1
  {
    if lines != [] {
      assert (lines + [line])[1..] == lines[1..] + [line];
      LengthsAppend(lines[1..], line);
    } else {
      assert (lines + [line])[1..] == [];
    }
  }

  lemma {:induction false} LinesCover(body: Units)
    ensures Lengths(Lines(body)) == |body| + 1
  {
    if body == [] {
      assert Lengths([[]]) == 1;
    } else {
      var n := |body| - 1;
      var before := Lines(body[..n]);
      LinesCover(body[..n]);
      if body[n] == NEWLINE {
        LengthsAppend(before, []);
      } else {
        var m := |before| - 1;
        assert before == before[..m] + [before[m]];
        LengthsAppend(before[..m], before[m]);
        LengthsAppend(before[..m], before[m] + [body[n]]);
      }
    }
  }

  lemma MapLinesWidths(lines: seq<Units>, encoded: seq<string>, sources: seq<string>, index: int)
    requires MapLines(lines, encoded, sources, index).Some? && |encoded| == |lines|
    ensures Widths(MapLines(lines, encoded, sources, index).value) == Lengths(lines)
  {
    if encoded != [] {
      var r := Read(Split(encoded[0], ','), 0, index).value;
      MapLinesWidths(lines[1..], encoded[1..], sources, r.index);
    }
  }

  // ----- the dictionary -----

  function Get(per: map<string, nat>, name: string): nat {
    if name in per then per[name] else 0
  }

  ghost function Sum(per: map<string, nat>): nat {
    if per == map[] then 0
    else
      var name :| name in per;
      per[name] + Sum(per - {name})
  }

  lemma SumWithout(per: map<string, nat>, name: string)
    requires name in per
    ensures Sum(per) == per[name] + Sum(per - {name})
    decreases |per|
  {
    var other :| other in per && Sum(per) == per[other] + Sum(per - {other});
    if other != name {
      SumWithout(per - {other}, name);
      SumWithout(per - {name}, other);
      assert per - {other} - {name} == per - {name} - {other};
    }
  }

  lemma SumAdds(per: map<string, nat>, name: string, more: nat)
    ensures Sum(per[name := Get(per, name) + more]) == Sum(per) + more
  {
    var grown := per[name := Get(per, name) + more];
    SumWithout(grown, name);
    assert grown - {name} == per - {name};
    if name in per { SumWithout(per, name); } else { assert per - {name} == per; }
  }

  // ----- the loops -----

  function Join(read: seq<Segment>, rest: Option<Reading>): Option<Reading> {
    if rest.None? then None else Some(Reading(read + rest.value.segments, rest.value.index))
  }

  /** The loop over the pieces of one line. */
  method ReadLine(encoded: string, start: int) returns (reading: Option<Reading>)
    ensures reading == Read(Split(encoded, ','), 0, start)
  {
    var pieces := Split(encoded, ',');
    var column, index, segments := 0, start, [];
    ghost var whole := Read(pieces, 0, start);
    assert pieces[0..] == pieces;
    JoinNothing(whole);
    for k := 0 to |pieces|
      invariant whole == Join(segments, Read(pieces[k..], column, index))
    {
      hide Join, Decode, Split;
      assert pieces[k..][1..] == pieces[k + 1..];
      JoinFails(segments);
      if pieces[k] == "" {
        continue;
      }
      var fields := DecodeVlq(pieces[k]);
      if fields.None? || fields.value == [] {
        return None;
      }
      column := column + fields.value[0];
      var source := None;
      if |fields.value| >= 4 {
        index := index + fields.value[1];
        source := Some(index);
      }
      JoinOne(segments, Segment(column, source), Read(pieces[k + 1..], column, index));
      segments := segments + [Segment(column, source)];
    }
    assert pieces[|pieces|..] == [];
    assert segments + [] == segments;
    reading := Some(Reading(segments, index));
  }

  lemma JoinNothing(rest: Option<Reading>)
    ensures Join([], rest) == rest
  {
    if rest.Some? { assert [] + rest.value.segments == rest.value.segments; }
  }

  lemma JoinFails(read: seq<Segment>)
    ensures Join(read, None) == None
  {
  }

  lemma JoinOne(read: seq<Segment>, s: Segment, rest: Option<Reading>)
    ensures rest.Some? ==>
      Join(read, Some(Reading([s] + rest.value.segments, rest.value.index))) == Join(read + [s], rest)
    ensures rest.None? ==> Join(read + [s], rest) == None
  {
    if rest.Some? { assert read + ([s] + rest.value.segments) == read + [s] + rest.value.segments; }
  }

  function JoinStretches(done: seq<Stretch>, rest: Option<seq<Stretch>>): Option<seq<Stretch>> {
    if rest.None? then None else Some(done + rest.value)
  }

  lemma ResolveOne(sources: seq<string>, segments: seq<Segment>, i: nat, done: seq<Stretch>)
    requires i < |segments|
    ensures Missing(sources, segments[i]) ==> JoinStretches(done, Resolve(sources, segments[i..])) == None
    ensures !Missing(sources, segments[i]) ==>
      JoinStretches(done + [Looked(sources, segments[i])], Resolve(sources, segments[i + 1..]))
        == JoinStretches(done, Resolve(sources, segments[i..]))
  {
    assert segments[i..][1..] == segments[i + 1..];
    var rest := Resolve(sources, segments[i + 1..]);
    if rest.Some? {
      var s := Looked(sources, segments[i]);
      assert done + ([s] + rest.value) == done + [s] + rest.value;
    }
  }

  lemma ResolveEnds(sources: seq<string>, segments: seq<Segment>, done: seq<Stretch>)
    ensures JoinStretches([], Resolve(sources, segments[0..])) == Resolve(sources, segments)
    ensures JoinStretches(done, Resolve(sources, segments[|segments|..])) == Some(done)
  {
    var all := Resolve(sources, segments);
    assert segments[0..] == segments && segments[|segments|..] == [] && done + [] == done;
    if all.Some? { assert [] + all.value == all.value; }
  }

  function Add(end: int, s: Stretch, name: Option<string>): nat {
    if s.name == name then Positive(end - s.column) else 0
  }

  lemma StretchAdds(done: seq<Stretch>, s: Stretch, end: int, name: Option<string>)
    ensures Given(done + [s], end, name) == Given(done, s.column, name) + Add(end, s, name)
    ensures GivenInAll(done + [s], end) == GivenInAll(done, s.column) + Positive(end - s.column)
  {
    assert (done + [s])[..|done|] == done;
  }

  /** Where the loop over one line stands after the stretches `done`, the next at `at`. */
  ghost predicate Counted(per: map<string, nat>, base: int, done: seq<Stretch>, at: int, grown: map<string, nat>,
                          left: int)
  {
    && (forall name :: Get(grown, name) == Get(per, name) + Given(done, at, Some(name)))
    && left == base + Given(done, at, None)
    && Sum(grown) + left == Sum(per) + base + GivenInAll(done, at)
  }

  lemma CountedAtFirst(per: map<string, nat>, base: int, at: int)
    ensures Counted(per, base, [], at, per, base)
  {
  }

  lemma CountedUnmapped(per: map<string, nat>, base: int, done: seq<Stretch>, s: Stretch, end: int,
                        grown: map<string, nat>, left: int)
    requires Counted(per, base, done, s.column, grown, left) && s.name == None
    ensures Counted(per, base, done + [s], end, grown, left + Positive(end - s.column))
  {
    hide Given, GivenInAll, Sum;
    forall name ensures Given(done + [s], end, Some(name)) == Given(done, s.column, Some(name)) {
      StretchAdds(done, s, end, Some(name));
    }
    StretchAdds(done, s, end, None);
  }

  lemma CountedMapped(per: map<string, nat>, base: int, done: seq<Stretch>, s: Stretch, end: int,
                      grown: map<string, nat>, left: int)
    requires Counted(per, base, done, s.column, grown, left) && s.name.Some?
    ensures Counted(per, base, done + [s], end,
      grown[s.name.value := Get(grown, s.name.value) + Positive(end - s.column)], left)
  {
    hide Given, GivenInAll, Sum;
    var key, more := s.name.value, Positive(end - s.column);
    SumAdds(grown, key, more);
    forall name
      ensures Given(done + [s], end, Some(name))
           == Given(done, s.column, Some(name)) + (if name == key then more else 0)
    {
      StretchAdds(done, s, end, Some(name));
    }
    StretchAdds(done, s, end, None);
  }

  /** The loop over the segments of one line. */
  method CountLine(per: map<string, nat>, unmapped: int, segments: seq<Segment>, sources: seq<string>, width: nat)
    returns (ok: bool, grown: map<string, nat>, left: int)
    ensures ok == Resolve(sources, segments).Some?
    ensures ok ==> LineCounted(per, unmapped, Resolve(sources, segments).value, width, grown, left)
  {
    hide *;
    ok, grown, left := true, per, unmapped;
    ghost var done: seq<Stretch> := [];
    ResolveEnds(sources, segments, done);
    if segments == [] {
      left := left + width + 1;
      BlankLineCounted(per, unmapped, sources, segments, width);
      return;
    }
    left := left + segments[0].column;
    ghost var base := left;
    CountedAtFirst(per, base, segments[0].column);
    for i := 0 to |segments|
      invariant ok && JoinStretches(done, Resolve(sources, segments[i..])) == Resolve(sources, segments)
      invariant |done| == i && (i > 0 ==> done[0].column == segments[0].column)
      invariant Counted(per, base, done, if i < |segments| then segments[i].column else width, grown, left)
    {
      var source := segments[i].source;
      var end := if i + 1 < |segments| then segments[i + 1].column else width;
      var span := Positive(end - segments[i].column);
      ResolveOne(sources, segments, i, done);
      ghost var s := Looked(sources, segments[i]);
      LookedUp(sources, segments[i]);
      if source.None? {
        CountedUnmapped(per, base, done, s, end, grown, left);
        left := left + span;
      } else {
        var name := SourceAt(sources, source.value);
        if name.None? {
          ok := false;
          return;
        }
        CountedMapped(per, base, done, s, end, grown, left);
        grown := grown[name.value := Get(grown, name.value) + span];
      }
      done := done + [s];
    }
    ResolveEnds(sources, segments, done);
    left := left + 1;
    LineIsCounted(per, unmapped, done, width, grown, left);
  }

  lemma LookedUp(sources: seq<string>, s: Segment)
    ensures Looked(sources, s).column == s.column
    ensures Looked(sources, s).name == if s.source.None? then None else SourceAt(sources, s.source.value)
    ensures Missing(sources, s) <==> s.source.Some? && SourceAt(sources, s.source.value).None?
  {
  }

  /** What one line of mappings adds to the counts. */
  ghost predicate LineCounted(per: map<string, nat>, unmapped: int, stretches: seq<Stretch>, width: nat,
                              grown: map<string, nat>, left: int)
  {
    && (forall name :: Get(grown, name) == Get(per, name) + Given(stretches, width, Some(name)))
    && left == unmapped + Unmapped(stretches, width)
    && Sum(grown) + left == Sum(per) + unmapped + LineTotal(stretches, width)
  }

  lemma BlankLineCounted(per: map<string, nat>, unmapped: int, sources: seq<string>, segments: seq<Segment>, width: nat)
    requires segments == []
    ensures Resolve(sources, segments) == Some([])
    ensures LineCounted(per, unmapped, [], width, per, unmapped + width + 1)
  {
  }

  lemma LineIsCounted(per: map<string, nat>, unmapped: int, done: seq<Stretch>, width: nat, grown: map<string, nat>,
                      left: int)
    requires done != [] && Counted(per, unmapped + done[0].column, done, width, grown, left - 1)
    ensures LineCounted(per, unmapped, done, width, grown, left)
  {
    hide Given, GivenInAll, Sum;
  }

  /** Units per source, unmapped units, and the length of the file. */
  datatype Share = Share(per: map<string, nat>, unmapped: int, length: nat)

  /** What the loop over the lines has counted. */
  ghost predicate Shared(per: map<string, nat>, unmapped: int, lines: seq<MappedLine>) {
    && (forall name :: Get(per, name) == GivenOn(lines, name))
    && unmapped == UnmappedOn(lines)
    && Sum(per) + unmapped == Total(lines)
  }

  lemma NothingShared()
    ensures Shared(map[], 0, [])
  {
  }

  lemma LineShared(per: map<string, nat>, unmapped: int, lines: seq<MappedLine>, line: MappedLine,
                   grown: map<string, nat>, left: int)
    requires Shared(per, unmapped, lines)
    requires LineCounted(per, unmapped, line.stretches, line.width, grown, left)
    ensures Shared(grown, left, lines + [line])
  {
    hide GivenOn, UnmappedOn, Total, Given, Unmapped, LineTotal, Sum;
    LineAdds(lines, line);
  }

  /** `attribute`; no share is one of its errors: no sources, a bad character, a piece without a
      field, a source that is not there. */
  method Attribute(body: Units, sources: seq<string>, mappings: string) returns (share: Option<Share>)
    ensures share.None? <==> sources == [] || MapLines(Lines(body), Split(mappings, ';'), sources, 0).None?
    ensures share.Some? ==> share.value.length == |body|
    ensures share.Some? ==>
      Shared(share.value.per, share.value.unmapped, MapLines(Lines(body), Split(mappings, ';'), sources, 0).value)
  {
    hide *;
    if sources == [] {
      return None;
    }
    var lines, encoded := Lines(body), Split(mappings, ';');
    var per: map<string, nat>, unmapped, index := map[], 0, 0;
    ghost var mapped: seq<MappedLine> := [];
    ghost var whole := MapLines(lines, encoded, sources, 0);
    MapLinesEnds(lines, encoded, sources, mapped);
    NothingShared();
    for lineNo := 0 to |encoded|
      invariant whole == JoinLines(mapped, MapLines(From(lines, lineNo), encoded[lineNo..], sources, index))
      invariant Shared(per, unmapped, mapped)
    {
      var width := if lineNo < |lines| then |lines[lineNo]| else 0;
      var reading := ReadLine(encoded[lineNo], index);
      MapLinesOne(lines, encoded, sources, lineNo, index, mapped);
      if reading.None? {
        return None;
      }
      var ok, grown, left := CountLine(per, unmapped, reading.value.segments, sources, width);
      if !ok {
        return None;
      }
      ghost var line := MappedLine(width, Resolve(sources, reading.value.segments).value);
      LineShared(per, unmapped, mapped, line, grown, left);
      per, unmapped, index := grown, left, reading.value.index;
      mapped := mapped + [line];
    }
    MapLinesDone(lines, encoded, sources, mapped, index);
    share := Some(Share(per, unmapped, |body|));
  }

  function From(lines: seq<Units>, k: nat): seq<Units> {
    if k <= |lines| then lines[k..] else []
  }

  function JoinLines(done: seq<MappedLine>, rest: Option<seq<MappedLine>>): Option<seq<MappedLine>> {
    if rest.None? then None else Some(done + rest.value)
  }

  lemma MapLinesEnds(lines: seq<Units>, encoded: seq<string>, sources: seq<string>, mapped: seq<MappedLine>)
    requires mapped == []
    ensures JoinLines(mapped, MapLines(From(lines, 0), encoded[0..], sources, 0))
         == MapLines(lines, encoded, sources, 0)
  {
    var all := MapLines(lines, encoded, sources, 0);
    assert encoded[0..] == encoded && lines[0..] == lines;
    if all.Some? { assert [] + all.value == all.value; }
  }

  lemma MapLinesDone(lines: seq<Units>, encoded: seq<string>, sources: seq<string>, mapped: seq<MappedLine>, index: int)
    ensures JoinLines(mapped, MapLines(From(lines, |encoded|), encoded[|encoded|..], sources, index)) == Some(mapped)
  {
    assert encoded[|encoded|..] == [] && mapped + [] == mapped;
  }

  lemma MapLinesOne(lines: seq<Units>, encoded: seq<string>, sources: seq<string>, k: nat, index: int,
                    mapped: seq<MappedLine>)
    requires k < |encoded|
    ensures var reading := Read(Split(encoded[k], ','), 0, index);
      var whole := JoinLines(mapped, MapLines(From(lines, k), encoded[k..], sources, index));
      if reading.None? || Resolve(sources, reading.value.segments).None? then whole == None
      else whole == JoinLines(
        mapped + [MappedLine(if k < |lines| then |lines[k]| else 0, Resolve(sources, reading.value.segments).value)],
        MapLines(From(lines, k + 1), encoded[k + 1..], sources, reading.value.index))
  {
    hide Read, Resolve, Split;
    assert encoded[k..][1..] == encoded[k + 1..];
    var here := From(lines, k);
    assert (if here == [] then [] else here[1..]) == From(lines, k + 1);
    var reading := Read(Split(encoded[k], ','), 0, index);
    if reading.Some? && Resolve(sources, reading.value.segments).Some? {
      var rest := MapLines(From(lines, k + 1), encoded[k + 1..], sources, reading.value.index);
      if rest.Some? {
        var line := MappedLine(if k < |lines| then |lines[k]| else 0, Resolve(sources, reading.value.segments).value);
        assert mapped + ([line] + rest.value) == mapped + [line] + rest.value;
      }
    }
  }

  lemma LineAdds(lines: seq<MappedLine>, line: MappedLine)
    ensures forall name ::
      GivenOn(lines + [line], name) == GivenOn(lines, name) + Given(line.stretches, line.width, Some(name))
    ensures UnmappedOn(lines + [line]) == UnmappedOn(lines) + Unmapped(line.stretches, line.width)
    ensures Total(lines + [line]) == Total(lines) + LineTotal(line.stretches, line.width)
  {
    hide Given, Unmapped, LineTotal;
    if lines == [] {
      assert [line][1..] == [];
    } else {
      assert (lines + [line])[1..] == lines[1..] + [line];
      LineAdds(lines[1..], line);
    }
  }

  /** One line of mappings for every line of the bundle: nothing is lost, and nothing is counted
      twice exactly when every line's columns are in order.  The file is counted with a newline
      after its last line. */
  lemma ShareIsConserved(body: Units, sources: seq<string>, mappings: string, share: Share)
    requires MapLines(Lines(body), Split(mappings, ';'), sources, 0).Some?
    requires |Split(mappings, ';')| == |Lines(body)|
    requires Shared(share.per, share.unmapped, MapLines(Lines(body), Split(mappings, ';'), sources, 0).value)
    ensures Sum(share.per) + share.unmapped >= |body| + 1
    ensures Sum(share.per) + share.unmapped == |body| + 1
      <==> AllInOrder(MapLines(Lines(body), Split(mappings, ';'), sources, 0).value)
  {
    var lines := MapLines(Lines(body), Split(mappings, ';'), sources, 0).value;
    TotalIsConserved(lines);
    MapLinesWidths(Lines(body), Split(mappings, ';'), sources, 0);
    LinesCover(body);
  }

  /** With the columns of every line in order and inside it, the share counts characters. */
  lemma ShareCountsCharacters(lines: seq<MappedLine>, per: map<string, nat>, unmapped: int, name: string)
    requires Shared(per, unmapped, lines) && AllWellPlaced(lines)
    ensures Get(per, name) == OwnedOn(lines, Some(name))
    ensures unmapped == OwnedOn(lines, None) + |lines|
  {
    MeasuringIsCounting(lines, name);
  }
}
