/**
 * `parse_adif`: ADIF text to records. The header up to the first `<EOH>` is
 * dropped, the body is split on `<EOR>`, each piece is scanned for field tags
 * `<name:len>` / `<name:len:t>`, and each non-empty field value is cut to its
 * declared length, trimmed, typed and stored under the lower-cased name; a
 * `qso_datetime` is derived from `qso_date` and `time_on`, and every record that
 * got at least one field is stamped with `imported_at`.
 */
module Adif {
  import opened Options
  import opened Collect
  import opened Chars
  import opened Text
  import opened Numbers
  import opened Calendar

  /** A stored value: text, an integer, a decimal (kept as its text) or a date-time. */
  datatype Value = Str(text: string) | Int(number: int) | Dec(literal: string) | Time(when: DateTime)

  /** One parsed record: lower-cased field name to value. */
  type Doc = map<string, Value>

  /** One match of the field pattern: the name as written, the declared length, the value run. */
  datatype RawField = RawField(name: string, length: nat, raw: string)

  /** A field tag at the start of a text: its name, declared length and where its value starts. */
  datatype Tag = Tag(name: string, length: nat, valueStart: nat)

  const EOH: string := "<eoh>"
  const EOR: string := "<eor>"

  /** The fields whose values are converted to numbers. */
  const NumericFields: set<string> :=
    {"freq", "freq_rx", "tx_pwr", "distance", "cqz", "ituz", "dxcc", "my_cq_zone", "my_dxcc", "my_itu_zone"}

  /** The body: what follows the first `<EOH>` (any case), or all of `content` when there is none. */
  function StripHeader(content: string): (body: string)
    ensures !Occurs(content, EOH) ==> body == content
    ensures Occurs(content, EOH) ==>
      && |body| + |EOH| <= |content|
      && body == content[|content| - |body|..]
      && MatchAt(content, |content| - |body| - |EOH|, EOH)
      && forall k :: 0 <= k < |content| - |body| - |EOH| ==> !MatchAt(content, k, EOH)
  {
    match Find(content, EOH, 0)
    case None => content
    case Some(i) => content[i + |EOH|..]
  }

  /** The first index at or after `i` that does not hold a word character, or `|s|`. */
  function WordEnd(s: string, i: nat): (j: nat)
    requires i <= |s|
    ensures i <= j <= |s|
    ensures AllWordChars(s[i..j])
    ensures j < |s| ==> !IsWordChar(s[j])
    decreases |s| - i
  {
    if i < |s| && IsWordChar(s[i]) then WordEnd(s, i + 1) else i
  }

  /** `WordEnd` stops at the first character after a run of word characters. */
  lemma {:induction false} WordEndAt(s: string, i: nat, j: nat)
    requires i <= j <= |s|
    requires AllWordChars(s[i..j])
    requires j < |s| ==> !IsWordChar(s[j])
    ensures WordEnd(s, i) == j
    decreases j - i
  {
    if i < j {
      assert IsWordChar(s[i..j][0]);
      assert s[i + 1..j] == s[i..j][1..];
      WordEndAt(s, i + 1, j);
    }
  }

  /** Where the lazy value run `(.*?)(?=<|\Z)` starting at `i` stops: the next `<`, or the end. */
  function ValueEnd(s: string, i: nat): (j: nat)
    requires i <= |s|
    ensures i <= j <= |s|
    ensures forall k :: i <= k < j ==> s[k] != '<'
    ensures j < |s| ==> s[j] == '<'
    decreases |s| - i
  {
    if i < |s| && s[i] != '<' then ValueEnd(s, i + 1) else i
  }

  /**
   * The tag part `<(\w+):(\d+)(?::\w)?>` of the field pattern, tried at the start of `s`.
   * `\w+` and `\d+` take their whole runs: a shorter run leaves a word character
   * or digit where `:`, `>` or the type hint must follow.
   */
  function TagAt(s: string): (r: Option<Tag>)
    ensures r.Some? ==>
      && |s| > 0 && s[0] == '<'
      && 0 < |r.value.name| && 1 + |r.value.name| < r.value.valueStart <= |s|
      && r.value.name == s[1..1 + |r.value.name|] && AllWordChars(r.value.name)
      && s[r.value.valueStart - 1] == '>'
    ensures r.Some? ==>
      var n := 1 + |r.value.name|;
      && s[n] == ':'
      && var d := DigitEnd(s, n + 1);
      && n + 1 < d < r.value.valueStart
      && r.value.length == DigitsValue(s[n + 1..d])
      && (|| (r.value.valueStart == d + 1 && s[d] == '>')
          || (r.value.valueStart == d + 3 && s[d] == ':' && IsWordChar(s[d + 1]) && s[d + 2] == '>'))
  {
    if |s| == 0 || s[0] != '<' then None
    else
      var n := WordEnd(s, 1);
      if n == 1 || n >= |s| || s[n] != ':' then None
      else
        var d := DigitEnd(s, n + 1);
        if d == n + 1 || d >= |s| then None
        else
          var length := DigitsValue(s[n + 1..d]);
          if s[d] == '>' then Some(Tag(s[1..n], length, d + 1))
          else if s[d] == ':' && d + 2 < |s| && IsWordChar(s[d + 1]) && s[d + 2] == '>' then
            Some(Tag(s[1..n], length, d + 3))
          else None
  }

  /**
   * Conversely, every text that starts with a tag is read as one: `<`, a name of
   * word characters, `:`, a run of digits (leading zeros allowed, as in
   * `<CALL:04>`), then `>` or a one-character data type and `>`.
   */
  lemma TagAtShape(s: string, n: nat, d: nat)
    requires |s| > 0 && s[0] == '<'
    requires 1 < n && n + 1 < d <= |s|
    requires AllWordChars(s[1..n]) && s[n] == ':' && AllDigits(s[n + 1..d])
    requires || (d < |s| && s[d] == '>')
             || (d + 2 < |s| && s[d] == ':' && IsWordChar(s[d + 1]) && s[d + 2] == '>')
    ensures TagAt(s) == Some(Tag(s[1..n], DigitsValue(s[n + 1..d]), if s[d] == '>' then d + 1 else d + 3))
  {
    WordEndAt(s, 1, n);
    DigitEndAt(s, n + 1, d);
  }

  /** What every match of the field pattern looks like. */
  predicate WellFormed(f: RawField) {
    |f.name| > 0 && AllWordChars(f.name) && forall i :: 0 <= i < |f.raw| ==> f.raw[i] != '<'
  }

  /**
   * `field_pattern.finditer(s)`: scanning left to right, a tag found at the scan
   * position yields a field whose value runs to the next `<`, and the scan goes on
   * from there; anywhere else the scan moves one character on.
   */
  function Matches(s: string): (fs: seq<RawField>)
    ensures forall k :: 0 <= k < |fs| ==> WellFormed(fs[k])
    decreases |s|
  {
    if s == [] then []
    else match TagAt(s)
      case None => Matches(s[1..])
      case Some(t) =>
        var k := ValueEnd(s, t.valueStart);
        [RawField(t.name, t.length, s[t.valueStart..k])] + Matches(s[k..])
  }

  /** `match.group(3)[:length].strip()`: the value cut to its declared length, then trimmed. */
  function CleanValue(raw: string, length: nat): (v: string)
    ensures |v| <= length && |v| <= |raw|
    ensures v != [] ==> !IsSpace(v[0]) && !IsSpace(v[|v| - 1])
    ensures v == [] <==> forall k :: 0 <= k < |raw| && k < length ==> IsSpace(raw[k])
  {
    var cut := raw[..if length < |raw| then length else |raw|];
    assert forall k :: 0 <= k < |cut| ==> cut[k] == raw[k];
    Strip(cut)
  }

  /**
   * The numeric conversion: on a numeric field, text holding `.` that `float()`
   * reads becomes a decimal, text without `.` that `int()` reads becomes an
   * integer; everything else stays text.
   */
  function Coerce(name: string, value: string): (r: Value)
    ensures name !in NumericFields ==> r == Str(value)
    ensures r.Str? ==> r.text == value
    ensures r.Int? ==> name in NumericFields && '.' !in value && IsIntLiteral(value) && r.number == IntLiteralValue(value)
    ensures r.Dec? ==> name in NumericFields && '.' in value && IsFloatLiteral(value) && r.literal == value
    ensures name in NumericFields && ('.' in value ==> IsFloatLiteral(value)) && ('.' !in value ==> IsIntLiteral(value)) ==> !r.Str?
    ensures !r.Time?
  {
    if name in NumericFields then
      if '.' in value then
        if IsFloatLiteral(value) then Dec(value) else Str(value)
      else if IsIntLiteral(value) then Int(IntLiteralValue(value))
      else Str(value)
    else Str(value)
  }

  /** `value.ljust(6, '0')[:6]`. */
  function PadTime(v: string): (r: string)
    ensures |r| == 6
    ensures |v| >= 6 ==> r == v[..6]
    ensures |v| < 6 ==> r[..|v|] == v && forall k :: |v| <= k < 6 ==> r[k] == '0'
  {
    if |v| >= 6 then v[..6] else v + seq(6 - |v|, _ => '0')
  }

  /** The `qso_date` branch: a date that parses sets `qso_datetime`; one that does not changes nothing. */
  function DateStamp(doc: Doc, value: string): Doc
    requires |value| == 8
  {
    match ParseDate(value)
    case Some(t) => doc["qso_datetime" := Time(t)]
    case None => doc
  }

  /**
   * The `time_on` branch, reached once `qso_date` is in the record: with an
   * 8-character date and a time of at least 4 characters, a date-time that parses
   * replaces `qso_datetime`; otherwise nothing changes.
   */
  function TimeStamp(doc: Doc, value: string): Doc
    requires "qso_date" in doc
  {
    match doc["qso_date"]
    case Str(dateText) =>
      if |dateText| == 8 && |value| >= 4 then
        match ParseDateTime(dateText + PadTime(value))
        case Some(t) => doc["qso_datetime" := Time(t)]
        case None => doc
      else doc
    case _ => doc  // never taken: `qso_date` is not numeric, so it is always stored as text
  }

  /** The effect of one field match on the record being built. */
  function Store(doc: Doc, f: RawField): Doc {
    Put(doc, Lower(f.name), CleanValue(f.raw, f.length))
  }

  /**
   * Storing the cleaned `value` of a field under its lower-cased `name`: an empty
   * value changes nothing; any other first derives `qso_datetime`, then is stored typed.
   */
  function Put(doc: Doc, name: string, value: string): Doc {
    if value == [] then doc else Derive(doc, name, value)[name := Coerce(name, value)]
  }

  /** The `qso_datetime` derivation a non-empty `qso_date` or `time_on` triggers. */
  function Derive(doc: Doc, name: string, value: string): Doc {
    var afterDate := if name == "qso_date" && |value| == 8 then DateStamp(doc, value) else doc;
    if name == "time_on" && "qso_date" in afterDate then TimeStamp(afterDate, value) else afterDate
  }

  /** The record built from the field matches `fs`, in order. */
  function DocOf(fs: seq<RawField>): Doc
    decreases |fs|
  {
    if fs == [] then map[] else Store(DocOf(fs[..|fs| - 1]), fs[|fs| - 1])
  }

  /** The record of the first `i + 1` fields: field `i` stored into the record of the first `i`. */
  lemma DocOfStep(fs: seq<RawField>, i: nat)
    requires i < |fs|
    ensures DocOf(fs[..i + 1]) == Store(DocOf(fs[..i]), fs[i])
  {
    assert fs[..i + 1][..i] == fs[..i];
  }

  /** The record of all fields, taken as a prefix. */
  lemma DocOfWhole(fs: seq<RawField>)
    ensures DocOf(fs[..|fs|]) == DocOf(fs)
  {
    assert fs[..|fs|] == fs;
  }

  /** The record-building loop of `parse_adif` for one stripped record. */
  method BuildDoc(record: string) returns (doc: Doc)
    ensures doc == DocOf(Matches(record))
  {
    var fields := Matches(record);
    doc := map[];
    var i := 0;
    while i < |fields|
      invariant 0 <= i <= |fields|
      invariant doc == DocOf(fields[..i])
    {
      DocOfStep(fields, i);
      doc := StoreField(doc, fields[i]);
      i := i + 1;
    }
    DocOfWhole(fields);
  }

  /** The body of the field loop of `parse_adif`: one field match applied to the record. */
  method StoreField(doc0: Doc, field: RawField) returns (doc: Doc)
    ensures doc == Store(doc0, field)
  {
    doc := doc0;
    var fieldName := Lower(field.name);
    var value := CleanValue(field.raw, field.length);
    if value != [] {
      var typed := Coerce(fieldName, value);
      if fieldName == "qso_date" && |value| == 8 {
        var date := ParseDate(value);
        if date.Some? {
          doc := doc["qso_datetime" := Time(date.value)];
        }
      }
      if fieldName == "time_on" && "qso_date" in doc {
        var dateStr := doc["qso_date"];
        // `dateStr` is always text: `qso_date` is not a numeric field
        if dateStr.Str? && |dateStr.text| == 8 && |value| >= 4 {
          var stamp := ParseDateTime(dateStr.text + PadTime(value));
          if stamp.Some? {
            doc := doc["qso_datetime" := Time(stamp.value)];
          }
        }
      }
      doc := doc[fieldName := typed];
    }
  }

  /** The candidate records: the body split on `<EOR>` (any case). */
  function Segments(content: string): seq<string> {
    Split(StripHeader(content), EOR)
  }

  /** The record one segment yields: none when no field survives, else the stamped record. */
  function RecordOf(segment: string, importedAt: DateTime): Option<Doc> {
    var doc := DocOf(Matches(Strip(segment)));
    if doc == map[] then None else Some(doc["imported_at" := Time(importedAt)])
  }

  /** What each segment yields, in order: a record, or nothing. */
  function Outcomes(segments: seq<string>, importedAt: DateTime): (r: seq<Option<Doc>>)
    ensures |r| == |segments|
  {
    seq(|segments|, k requires 0 <= k < |segments| => RecordOf(segments[k], importedAt))
  }

  /** The records the segments yield, in order: what each yields, keeping those that are present. */
  function Emit(segments: seq<string>, importedAt: DateTime): seq<Doc> {
    Present(Outcomes(segments, importedAt))
  }

  /** All records of an ADIF text. */
  function Parse(content: string, importedAt: DateTime): seq<Doc> {
    Emit(Segments(content), importedAt)
  }

  /**
   * The records of the first `i + 1` segments: those of the first `i`, then the
   * one segment `i` yields, if any.
   */
  lemma NextOutcome(segments: seq<string>, i: nat, importedAt: DateTime)
    requires i < |segments|
    ensures Present(Outcomes(segments, importedAt)[..i + 1]) ==
      match RecordOf(segments[i], importedAt)
      case None => Present(Outcomes(segments, importedAt)[..i])
      case Some(doc) => Present(Outcomes(segments, importedAt)[..i]) + [doc]
  {
    PresentPrefixStep(Outcomes(segments, importedAt), i);
  }

  /** A segment that is blank after trimming yields no record. */
  lemma BlankSegment(segment: string, importedAt: DateTime)
    requires Strip(segment) == []
    ensures RecordOf(segment, importedAt) == None
  {
    assert Matches(Strip(segment)) == [];
  }

  /** `parse_adif` on already-read text, with the import time given. */
  method ParseAdif(content: string, importedAt: DateTime) returns (docs: seq<Doc>)
    ensures docs == Parse(content, importedAt)
  {
    var body := StripHeader(content);
    var records := Split(body, EOR);
    docs := [];
    var i := 0;
    while i < |records|
      invariant 0 <= i <= |records|
      invariant docs == Present(Outcomes(records, importedAt)[..i])
    {
      NextOutcome(records, i, importedAt);
      var yielded := ParseRecord(records[i], importedAt);
      if yielded.Some? {
        docs := docs + [yielded.value];
      }
      i := i + 1;
    }
    assert Outcomes(records, importedAt)[..|records|] == Outcomes(records, importedAt);
  }

  /** One pass of the record loop of `parse_adif`: the record a segment yields, if any. */
  method ParseRecord(segment: string, importedAt: DateTime) returns (yielded: Option<Doc>)
    ensures yielded == RecordOf(segment, importedAt)
  {
    var record := Strip(segment);
    if record == [] {
      BlankSegment(segment, importedAt);
      return None;
    }
    var doc := BuildDoc(record);
    if doc == map[] {
      return None;
    }
    doc := doc["imported_at" := Time(importedAt)];
    return Some(doc);
  }
}
