/**
 * What `parse_adif` promises about a whole text: the header is dropped, the body
 * falls apart at each `<EOR>`, and every segment with at least one field that
 * has a value yields one record, in order, stamped with `imported_at`.
 */
module ParseLaws {
  import opened Options
  import opened Collect
  import opened Chars
  import opened Text
  import opened Calendar
  import opened Adif
  import opened AdifLaws
  import opened AdifRender

  // ---------------------------------------------------------------- header and records

  /** `<eoh>` and `<eor>` each open with `<` and hold no other `<`. */
  lemma Markers()
    ensures IsMarker(EOH) && IsMarker(EOR)
  {
  }

  /** Everything up to and including the first `<EOH>`, in any case, is dropped. */
  lemma HeaderDiscarded(header: string, marker: string, body: string)
    requires Lower(marker) == EOH && !Occurs(header, EOH)
    ensures StripHeader(header + marker + body) == body
  {
    Markers();
    FindAtSeam(header, marker, body, EOH);
  }

  /** `<eoh>`, `<EOH>` and `<EoH>` all end the header alike. */
  lemma HeaderSpellings(header: string, body: string)
    requires !Occurs(header, EOH)
    ensures StripHeader(header + "<eoh>" + body) == body
    ensures StripHeader(header + "<EOH>" + body) == body
    ensures StripHeader(header + "<EoH>" + body) == body
  {
    assert Lower("<eoh>") == EOH && Lower("<EOH>") == EOH && Lower("<EoH>") == EOH;
    HeaderDiscarded(header, "<eoh>", body);
    HeaderDiscarded(header, "<EOH>", body);
    HeaderDiscarded(header, "<EoH>", body);
  }

  /**
   * Segments joined by `<EOR>` markers, each spelled in any case, after a header
   * are exactly the candidate records of the text.
   */
  lemma SegmentsOfJoin(header: string, marker: string, segments: seq<string>, seps: seq<string>)
    requires Lower(marker) == EOH && !Occurs(header, EOH)
    requires |segments| >= 1 && |seps| == |segments| - 1
    requires forall k :: 0 <= k < |seps| ==> Lower(seps[k]) == EOR
    requires forall k :: 0 <= k < |segments| ==> !Occurs(segments[k], EOR)
    ensures Segments(header + marker + Join(segments, seps)) == segments
  {
    var body := Join(segments, seps);
    HeaderDiscarded(header, marker, body);
    Markers();
    SplitJoin(segments, seps, EOR);
    assert Segments(header + marker + body) == Split(body, EOR);
  }

  /** Without any `<EOH>`, the whole text is the body. */
  lemma SegmentsWithoutHeader(segments: seq<string>, seps: seq<string>)
    requires |segments| >= 1 && |seps| == |segments| - 1
    requires forall k :: 0 <= k < |seps| ==> Lower(seps[k]) == EOR
    requires forall k :: 0 <= k < |segments| ==> !Occurs(segments[k], EOR)
    requires !Occurs(Join(segments, seps), EOH)
    ensures Segments(Join(segments, seps)) == segments
  {
    Markers();
    SplitJoin(segments, seps, EOR);
  }

  /**
   * A segment yields a record exactly when some field in it has a non-empty
   * value; a blank segment yields none; the record is the fields' record
   * stamped with `imported_at`.
   */
  lemma RecordOfMeaning(segment: string, importedAt: DateTime)
    ensures Strip(segment) == [] ==> RecordOf(segment, importedAt) == None
    ensures RecordOf(segment, importedAt).Some? <==> StoredNames(Matches(Strip(segment))) != {}
    ensures RecordOf(segment, importedAt).Some? ==>
      RecordOf(segment, importedAt).value == DocOf(Matches(Strip(segment)))["imported_at" := Time(importedAt)]
  {
    if Strip(segment) == [] {
      BlankSegment(segment, importedAt);
    }
    DocEmptyIff(Matches(Strip(segment)));
  }

  // ---------------------------------------------------------------- the emitted sequence

  /** Segment `k` yields what `Outcomes` lists at `k`. */
  lemma OutcomesAt(segments: seq<string>, importedAt: DateTime, k: nat)
    requires k < |segments|
    ensures Outcomes(segments, importedAt)[k] == RecordOf(segments[k], importedAt)
  {
  }

  /** No more records than segments, and exactly as many when every segment yields one. */
  lemma EmitLength(segments: seq<string>, importedAt: DateTime)
    ensures |Emit(segments, importedAt)| <= |segments|
    ensures |Emit(segments, importedAt)| == |segments| <==>
      forall j :: 0 <= j < |segments| ==> RecordOf(segments[j], importedAt).Some?
  {
    var outcomes := Outcomes(segments, importedAt);
    PresentLength(outcomes);
    forall j | 0 <= j < |segments|
      ensures outcomes[j] == RecordOf(segments[j], importedAt)
    {
      OutcomesAt(segments, importedAt, j);
    }
  }

  /** One record per segment that yields one. */
  lemma EmitCount(segments: seq<string>, importedAt: DateTime)
    ensures |Emit(segments, importedAt)| == |set j | 0 <= j < |segments| && RecordOf(segments[j], importedAt).Some?|
  {
    var outcomes := Outcomes(segments, importedAt);
    PresentCount(outcomes);
    assert (set j | 0 <= j < |outcomes| && outcomes[j].Some?) ==
      (set j | 0 <= j < |segments| && RecordOf(segments[j], importedAt).Some?);
  }

  /** The segment an emitted record comes from: one that yields exactly that record. */
  lemma EmitSource(segments: seq<string>, importedAt: DateTime, k: nat) returns (j: nat)
    requires k < |Emit(segments, importedAt)|
    ensures j < |segments| && RecordOf(segments[j], importedAt) == Some(Emit(segments, importedAt)[k])
  {
    j := PresentSource(Outcomes(segments, importedAt), k);
    OutcomesAt(segments, importedAt, j);
  }

  /**
   * Every emitted record comes from a segment with at least one field that has
   * a value, and is that segment's record stamped with `imported_at`.
   */
  lemma EmitSound(segments: seq<string>, importedAt: DateTime, k: nat)
    requires k < |Emit(segments, importedAt)|
    ensures "imported_at" in Emit(segments, importedAt)[k]
    ensures Emit(segments, importedAt)[k]["imported_at"] == Time(importedAt)
    ensures exists j ::
      && 0 <= j < |segments|
      && StoredNames(Matches(Strip(segments[j]))) != {}
      && Emit(segments, importedAt)[k] == DocOf(Matches(Strip(segments[j])))["imported_at" := Time(importedAt)]
  {
    var j := EmitSource(segments, importedAt, k);
    RecordOfMeaning(segments[j], importedAt);
  }

  /** When every segment yields a record, the records are exactly those, one per segment, in order. */
  lemma EmitEvery(segments: seq<string>, importedAt: DateTime)
    requires forall j :: 0 <= j < |segments| ==> RecordOf(segments[j], importedAt).Some?
    ensures |Emit(segments, importedAt)| == |segments|
    ensures forall k :: 0 <= k < |segments| ==> Emit(segments, importedAt)[k] == RecordOf(segments[k], importedAt).value
  {
    var outcomes := Outcomes(segments, importedAt);
    forall j | 0 <= j < |segments|
      ensures outcomes[j] == RecordOf(segments[j], importedAt)
    {
      OutcomesAt(segments, importedAt, j);
    }
    PresentEvery(outcomes);
  }

  /** Segments none of which has a field with a value yield no records at all. */
  lemma EmitNothing(segments: seq<string>, importedAt: DateTime)
    requires forall j :: 0 <= j < |segments| ==> StoredNames(Matches(Strip(segments[j]))) == {}
    ensures Emit(segments, importedAt) == []
  {
    var outcomes := Outcomes(segments, importedAt);
    forall j | 0 <= j < |segments|
      ensures outcomes[j].None?
    {
      OutcomesAt(segments, importedAt, j);
      RecordOfMeaning(segments[j], importedAt);
    }
    PresentNone(outcomes);
  }

  // ---------------------------------------------------------------- written files

  /** One stretch of a written file between two `<EOR>` markers. */
  datatype Piece =
    | Blank(space: string)
    | Record(before: string, entries: seq<Entry>, after: string)

  /** The text of a piece: its whitespace, or a written record with whitespace around it. */
  function PieceText(p: Piece): string {
    match p
    case Blank(space) => space
    case Record(before, entries, after) => before + Render(entries) + after
  }

  /** The texts of the pieces, in order. */
  function Texts(pieces: seq<Piece>): (segments: seq<string>)
    ensures |segments| == |pieces|
  {
    seq(|pieces|, k requires 0 <= k < |pieces| => PieceText(pieces[k]))
  }

  /**
   * A record that can be written and read back unchanged: at least one entry,
   * every entry well written, some field with a non-empty value, and no space
   * at the very end of the last value (where the record's own `strip()` would
   * cut it).
   */
  ghost predicate Writable(es: seq<Entry>) {
    && es != []
    && (forall k :: 0 <= k < |es| ==> WellWritten(es[k]))
    && StoredNames(Fields(es)) != {}
    && var last := es[|es| - 1].field.raw; last == [] || !IsSpace(last[|last| - 1])
  }

  /** A blank piece is whitespace only; a record piece has only whitespace around a writable record. */
  ghost predicate WellPlaced(p: Piece) {
    match p
    case Blank(space) => AllSpace(space)
    case Record(before, entries, after) => AllSpace(before) && Writable(entries) && AllSpace(after)
  }

  /** What a piece is written to yield: nothing when blank, else the record of its fields stamped with `imported_at`. */
  function Expected(p: Piece, importedAt: DateTime): Option<Doc> {
    match p
    case Blank(_) => None
    case Record(_, entries, _) => Some(DocOf(Fields(entries))["imported_at" := Time(importedAt)])
  }

  /** What the pieces are written to yield, in order. */
  function Expecteds(pieces: seq<Piece>, importedAt: DateTime): (r: seq<Option<Doc>>)
    ensures |r| == |pieces|
  {
    seq(|pieces|, k requires 0 <= k < |pieces| => Expected(pieces[k], importedAt))
  }

  /** A piece, read back as a segment, yields what it was written to yield. */
  lemma PieceRecord(p: Piece, importedAt: DateTime)
    requires WellPlaced(p)
    ensures RecordOf(PieceText(p), importedAt) == Expected(p, importedAt)
  {
    match p
    case Blank(space) =>
      StripMeaning(space);
      BlankSegment(space, importedAt);
    case Record(before, es, after) =>
      RecordPiece(before, es, after, importedAt);
  }

  /** A writable record with whitespace around it, read back as a segment, yields the record of its fields. */
  lemma RecordPiece(before: string, es: seq<Entry>, after: string, importedAt: DateTime)
    requires AllSpace(before) && Writable(es) && AllSpace(after)
    ensures RecordOf(before + Render(es) + after, importedAt) == Some(DocOf(Fields(es))["imported_at" := Time(importedAt)])
  {
    var written := Render(es);
    var segment := before + written + after;
    WrittenEnds(es);
    StripAround(before, written, after);
    MatchesRender(es);
    assert Matches(Strip(segment)) == Fields(es);
    RecordOfMeaning(segment, importedAt);
  }

  /** A writable record neither starts nor ends with whitespace. */
  lemma WrittenEnds(es: seq<Entry>)
    requires Writable(es)
    ensures Render(es) != [] && !IsSpace(Render(es)[0]) && !IsSpace(Render(es)[|Render(es)| - 1])
  {
    RenderStart(es);
    RenderEnd(es);
  }

  /** `<eor>` holds no whitespace. */
  lemma EorHasNoSpace()
    ensures forall j :: 0 <= j < |EOR| ==> !IsSpace(EOR[j])
  {
  }

  /** No piece holds an `<EOR>`. */
  lemma PieceNoEor(p: Piece)
    requires WellPlaced(p)
    ensures !Occurs(PieceText(p), EOR)
  {
    EorHasNoSpace();
    match p
    case Blank(space) =>
      assert !Occurs([], EOR);
      SpacesKeepNoMatch(space, [], [], EOR);
      assert space + [] + [] == space;
    case Record(before, es, after) =>
      RenderNoEor(es);
      SpacesKeepNoMatch(before, Render(es), after, EOR);
  }

  /**
   * Well-placed pieces, read back as segments, yield what they were written to
   * yield: one record per record piece, in order, and nothing for blank ones.
   */
  lemma EmitPieces(pieces: seq<Piece>, importedAt: DateTime)
    requires forall k :: 0 <= k < |pieces| ==> WellPlaced(pieces[k])
    ensures Emit(Texts(pieces), importedAt) == Present(Expecteds(pieces, importedAt))
    ensures |Emit(Texts(pieces), importedAt)| == |set j | 0 <= j < |pieces| && pieces[j].Record?|
  {
    OutcomesOfPieces(pieces, importedAt);
    ExpectedCount(pieces, importedAt);
  }

  /** What each well-placed piece yields is what it was written to yield. */
  lemma OutcomesOfPieces(pieces: seq<Piece>, importedAt: DateTime)
    requires forall k :: 0 <= k < |pieces| ==> WellPlaced(pieces[k])
    ensures Outcomes(Texts(pieces), importedAt) == Expecteds(pieces, importedAt)
  {
    var outcomes := Outcomes(Texts(pieces), importedAt);
    var expected := Expecteds(pieces, importedAt);
    forall k | 0 <= k < |pieces|
      ensures outcomes[k] == expected[k]
    {
      PieceRecord(pieces[k], importedAt);
    }
  }

  /** The pieces are written to yield one record per record piece. */
  lemma ExpectedCount(pieces: seq<Piece>, importedAt: DateTime)
    ensures |Present(Expecteds(pieces, importedAt))| == |set j | 0 <= j < |pieces| && pieces[j].Record?|
  {
    var expected := Expecteds(pieces, importedAt);
    PresentCount(expected);
    assert (set j | 0 <= j < |expected| && expected[j].Some?) == (set j | 0 <= j < |pieces| && pieces[j].Record?);
  }

  /** No segment of well-placed pieces holds an `<EOR>`. */
  lemma PiecesNoEor(pieces: seq<Piece>)
    requires forall k :: 0 <= k < |pieces| ==> WellPlaced(pieces[k])
    ensures forall k :: 0 <= k < |Texts(pieces)| ==> !Occurs(Texts(pieces)[k], EOR)
  {
    forall k | 0 <= k < |pieces|
      ensures !Occurs(Texts(pieces)[k], EOR)
    {
      PieceNoEor(pieces[k]);
    }
  }

  /**
   * A file of a header, `<EOH>` in any spelling, and pieces separated by `<EOR>`
   * markers in any spellings: its records are exactly those the pieces were
   * written to yield, in order, one per record piece. A trailing `<EOR>` with a
   * line break after it leaves only a blank piece, which yields nothing.
   */
  lemma ParseWritten(header: string, marker: string, pieces: seq<Piece>, seps: seq<string>, importedAt: DateTime)
    requires !Occurs(header, EOH) && Lower(marker) == EOH
    requires |pieces| >= 1 && |seps| == |pieces| - 1
    requires forall k :: 0 <= k < |seps| ==> Lower(seps[k]) == EOR
    requires forall k :: 0 <= k < |pieces| ==> WellPlaced(pieces[k])
    ensures var docs := Parse(header + marker + Join(Texts(pieces), seps), importedAt);
      && docs == Present(Expecteds(pieces, importedAt))
      && |docs| == |set j | 0 <= j < |pieces| && pieces[j].Record?|
  {
    PiecesNoEor(pieces);
    SegmentsOfJoin(header, marker, Texts(pieces), seps);
    EmitPieces(pieces, importedAt);
  }

  /**
   * The usual shape of a one-contact file: `<EOH>`, whitespace such as a line
   * break, the record, `<EOR>`, whitespace. It yields exactly that one record.
   */
  lemma SingleRecordFile(marker: string, lead: string, es: seq<Entry>, sep: string, trail: string, importedAt: DateTime)
    requires Lower(marker) == EOH && Lower(sep) == EOR
    requires AllSpace(lead) && Writable(es) && AllSpace(trail)
    ensures Parse(marker + lead + Render(es) + sep + trail, importedAt) == [DocOf(Fields(es))["imported_at" := Time(importedAt)]]
  {
    var pieces, seps := OnePieces(marker, lead, es, sep, trail);
    ParseWritten([], marker, pieces, seps, importedAt);
    OneRecordExpected(pieces, importedAt);
  }

  /** The pieces of a one-contact file: the record with whitespace before it, then the whitespace after `<EOR>`. */
  lemma OnePieces(marker: string, lead: string, es: seq<Entry>, sep: string, trail: string)
    returns (pieces: seq<Piece>, seps: seq<string>)
    requires Lower(sep) == EOR
    requires AllSpace(lead) && Writable(es) && AllSpace(trail)
    ensures pieces == [Record(lead, es, []), Blank(trail)] && seps == [sep]
    ensures forall k :: 0 <= k < |pieces| ==> WellPlaced(pieces[k])
    ensures forall k :: 0 <= k < |seps| ==> Lower(seps[k]) == EOR
    ensures !Occurs([], EOH)
    ensures [] + marker + Join(Texts(pieces), seps) == marker + lead + Render(es) + sep + trail
  {
    pieces := [Record(lead, es, []), Blank(trail)];
    seps := [sep];
    var texts := TwoTexts(pieces[0], pieces[1]);
    assert pieces == [pieces[0], pieces[1]];
    JoinPair(marker, lead, Render(es), sep, trail);
    assert AllSpace([]);
    assert WellPlaced(pieces[0]) && WellPlaced(pieces[1]);
  }

  /** A record text and a blank text joined by one separator, after a header marker. */
  lemma JoinPair(marker: string, lead: string, written: string, sep: string, trail: string)
    ensures [] + marker + Join([lead + written + [], trail], [sep]) == marker + lead + written + sep + trail
  {
    var texts := [lead + written + [], trail];
    JoinFirst(texts, [sep]);
    assert texts[1..] == [trail];
    assert [sep][1..] == [];
  }

  /** The texts of two pieces. */
  lemma TwoTexts(a: Piece, b: Piece) returns (texts: seq<string>)
    ensures texts == Texts([a, b]) && texts == [PieceText(a), PieceText(b)]
  {
    texts := Texts([a, b]);
  }

  /** A record piece, then a blank one: one record. */
  lemma OneRecordExpected(pieces: seq<Piece>, importedAt: DateTime)
    requires |pieces| == 2 && pieces[0].Record? && pieces[1].Blank?
    ensures Present(Expecteds(pieces, importedAt)) == [Expected(pieces[0], importedAt).value]
  {
    var expected := Expecteds(pieces, importedAt);
    PresentPrefixStep(expected, 0);
    PresentPrefixStep(expected, 1);
    assert expected[..0] == [] && expected[..2] == expected;
  }

  /** The same for a file without any `<EOH>`: the whole text is the body. */
  lemma ParseWrittenWithoutHeader(pieces: seq<Piece>, seps: seq<string>, importedAt: DateTime)
    requires |pieces| >= 1 && |seps| == |pieces| - 1
    requires forall k :: 0 <= k < |seps| ==> Lower(seps[k]) == EOR
    requires forall k :: 0 <= k < |pieces| ==> WellPlaced(pieces[k])
    requires !Occurs(Join(Texts(pieces), seps), EOH)
    ensures var docs := Parse(Join(Texts(pieces), seps), importedAt);
      && docs == Present(Expecteds(pieces, importedAt))
      && |docs| == |set j | 0 <= j < |pieces| && pieces[j].Record?|
  {
    PiecesNoEor(pieces);
    SegmentsWithoutHeader(Texts(pieces), seps);
    EmitPieces(pieces, importedAt);
  }
}
