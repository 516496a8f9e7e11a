/** Printing mappings as section 6 of ECMA-426 writes them, and reading them back with
    `attribute` of `scripts/check_bundle_share.py`.

    The text holds differences: a column is written against the column before it on the same
    line, a source against the source named last on any line before.  The meaning is absolute. */
module MappingText {
  import opened Vlq
  import opened BundleShare

  /** One segment: where it begins, the source it names if any, and the fields nothing here
      reads (the original line and column, and the name). */
  datatype Mapping = Mapping(column: int, source: Option<int>, unread: seq<int>)

  /** A segment names a source exactly when it has four fields or more. */
  predicate Legal(m: Mapping) {
    if m.source.Some? then |m.unread| >= 2 else |m.unread| <= 2
  }

  predicate AllLegal(line: seq<Mapping>) {
    forall k | 0 <= k < |line| :: Legal(line[k])
  }

  function After(m: Mapping, index: int): int {
    if m.source.Some? then m.source.value else index
  }

  function LastIndex(line: seq<Mapping>, index: int): int {
    if line == [] then index else LastIndex(line[1..], After(line[0], index))
  }

  // ----- printing -----

  function Fields(m: Mapping, column: int, index: int): seq<int> {
    [m.column - column] + (if m.source.Some? then [m.source.value - index] else []) + m.unread
  }

  function Pieces(line: seq<Mapping>, column: int, index: int): seq<string> {
    if line == [] then []
    else [EncodeAll(Fields(line[0], column, index))] + Pieces(line[1..], line[0].column, After(line[0], index))
  }

  function Join(parts: seq<string>, sep: char): string {
    if parts == [] then ""
    else if |parts| == 1 then parts[0]
    else parts[0] + [sep] + Join(parts[1..], sep)
  }

  function PrintLine(line: seq<Mapping>, index: int): string {
    Join(Pieces(line, 0, index), ',')
  }

  function PrintLines(file: seq<seq<Mapping>>, index: int): seq<string> {
    if file == [] then [] else [PrintLine(file[0], index)] + PrintLines(file[1..], LastIndex(file[0], index))
  }

  function Print(file: seq<seq<Mapping>>): string {
    Join(PrintLines(file, 0), ';')
  }

  // ----- meaning -----

  function Segments(line: seq<Mapping>): seq<Segment> {
    if line == [] then [] else [Segment(line[0].column, line[0].source)] + Segments(line[1..])
  }

  /** Each line of the bundle with its absolute segments. */
  function Meant(lines: seq<Units>, file: seq<seq<Mapping>>, sources: seq<string>): Option<seq<MappedLine>> {
    if file == [] then Some([])
    else if Resolve(sources, Segments(file[0])).None? then None
    else
      match Meant(if lines == [] then [] else lines[1..], file[1..], sources)
      case None => None
      case Some(rest) =>
        Some([MappedLine(if lines == [] then 0 else |lines[0]|, Resolve(sources, Segments(file[0])).value)] + rest)
  }

  // ----- splitting what was joined -----

  predicate Free(part: string, sep: char) {
    forall k | 0 <= k < |part| :: part[k] != sep
  }

  predicate AllFree(parts: seq<string>, sep: char) {
    forall k | 0 <= k < |parts| :: Free(parts[k], sep)
  }

  lemma {:induction false} SplitFree(part: string, sep: char)
    requires Free(part, sep)
    ensures Split(part, sep) == [part]
  {
    if part != "" {
      SplitFree(part[1..], sep);
      assert [part[0]] + part[1..] == part;
    }
  }

  lemma {:induction false} SplitFirst(part: string, sep: char, rest: string)
    requires Free(part, sep)
    ensures Split(part + [sep] + rest, sep) == [part] + Split(rest, sep)
  {
    var text := part + [sep] + rest;
    if part == "" {
      assert text[1..] == rest;
    } else {
      SplitFirst(part[1..], sep, rest);
      assert text[1..] == part[1..] + [sep] + rest;
      assert [part[0]] + part[1..] == part;
      assert ([part[1..]] + Split(rest, sep))[1..] == Split(rest, sep);
    }
  }

  /** Splitting undoes joining. */
  lemma {:induction false} SplitUndoesJoin(parts: seq<string>, sep: char)
    requires parts != [] && AllFree(parts, sep)
    ensures Split(Join(parts, sep), sep) == parts
  {
    assert Free(parts[0], sep);
    if |parts| == 1 {
      SplitFree(parts[0], sep);
    } else {
      SplitUndoesJoin(parts[1..], sep);
      SplitFirst(parts[0], sep, Join(parts[1..], sep));
    }
  }

  lemma {:induction false} JoinFree(parts: seq<string>, sep: char, other: char)
    requires AllFree(parts, other) && sep != other
    ensures Free(Join(parts, sep), other)
  {
    if parts != [] {
      assert Free(parts[0], other);
      JoinFree(parts[1..], sep, other);
    }
  }

  // ----- reading what was printed -----

  lemma EncodedIsFree(fields: seq<int>, sep: char)
    requires Digit(sep).None?
    ensures Free(EncodeAll(fields), sep)
  {
    hide EncodeAll;
    DecodeUndoesEncode(fields);
    DecodeFailsExactlyWhen(EncodeAll(fields), 0, 1);
  }

  lemma {:induction false} PiecesAreFree(line: seq<Mapping>, column: int, index: int, sep: char)
    requires Digit(sep).None?
    ensures AllFree(Pieces(line, column, index), sep)
  {
    if line != [] {
      EncodedIsFree(Fields(line[0], column, index), sep);
      PiecesAreFree(line[1..], line[0].column, After(line[0], index), sep);
    }
  }

  lemma FieldsAreRead(m: Mapping, column: int, index: int)
    requires Legal(m)
    ensures var fields := Fields(m, column, index);
      && fields != [] && column + fields[0] == m.column
      && (m.source.Some? <==> |fields| >= 4)
      && (m.source.Some? ==> index + fields[1] == m.source.value)
    ensures Decode(EncodeAll(Fields(m, column, index))) == Some(Fields(m, column, index))
    ensures EncodeAll(Fields(m, column, index)) != ""
  {
    var fields := Fields(m, column, index);
    DecodeUndoesEncode(fields);
    assert Decode("") == Some([]);
  }

  lemma {:induction false} PiecesAreRead(line: seq<Mapping>, column: int, index: int)
    requires AllLegal(line)
    ensures Read(Pieces(line, column, index), column, index) == Some(Reading(Segments(line), LastIndex(line, index)))
  {
    hide Decode, EncodeAll, Fields, Legal;
    if line != [] {
      assert Legal(line[0]);
      FieldsAreRead(line[0], column, index);
      PiecesAreRead(line[1..], line[0].column, After(line[0], index));
      var pieces := Pieces(line, column, index);
      assert pieces[1..] == Pieces(line[1..], line[0].column, After(line[0], index));
    }
  }

  /** A printed line is read back, whatever source was named last before it. */
  lemma LineIsRead(line: seq<Mapping>, index: int)
    requires AllLegal(line)
    ensures Read(Split(PrintLine(line, index), ','), 0, index) == Some(Reading(Segments(line), LastIndex(line, index)))
  {
    hide Decode, EncodeAll, Fields, AllLegal, Free;
    PiecesAreRead(line, 0, index);
    if line == [] {
      assert Split("", ',') == [""];
      assert [""][1..] == [];
    } else {
      PiecesAreFree(line, 0, index, ',');
      SplitUndoesJoin(Pieces(line, 0, index), ',');
    }
  }

  lemma {:induction false} LinesAreRead(lines: seq<Units>, file: seq<seq<Mapping>>, sources: seq<string>, index: int)
    requires forall k | 0 <= k < |file| :: AllLegal(file[k])
    ensures MapLines(lines, PrintLines(file, index), sources, index) == Meant(lines, file, sources)
  {
    hide Read, Split, PrintLine, Segments, AllLegal, Resolve, LastIndex;
    if file != [] {
      LineIsRead(file[0], index);
      var encoded, rest := PrintLines(file, index), if lines == [] then [] else lines[1..];
      assert encoded[1..] == PrintLines(file[1..], LastIndex(file[0], index));
      LinesAreRead(rest, file[1..], sources, LastIndex(file[0], index));
    }
  }

  lemma {:induction false} PrintedLinesAreFree(file: seq<seq<Mapping>>, index: int)
    ensures AllFree(PrintLines(file, index), ';')
    ensures |PrintLines(file, index)| == |file|
  {
    hide Free, LastIndex, Pieces;
    if file != [] {
      PiecesAreFree(file[0], 0, index, ';');
      JoinFree(Pieces(file[0], 0, index), ',', ';');
      PrintedLinesAreFree(file[1..], LastIndex(file[0], index));
    }
  }

  /** Source indices add up across lines and columns begin again on each: what is read from
      the printed text is what each line meant by itself. */
  lemma PrintedIsRead(lines: seq<Units>, file: seq<seq<Mapping>>, sources: seq<string>)
    requires file != [] && forall k | 0 <= k < |file| :: AllLegal(file[k])
    ensures MapLines(lines, Split(Print(file), ';'), sources, 0) == Meant(lines, file, sources)
  {
    PrintedLinesAreFree(file, 0);
    SplitUndoesJoin(PrintLines(file, 0), ';');
    LinesAreRead(lines, file, sources, 0);
  }
}
