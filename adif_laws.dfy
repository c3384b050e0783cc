/**
 * What `parse_adif` promises about its records, proved of the model in `Adif`.
 */
module AdifLaws {
  import opened Options
  import opened Chars
  import opened Text
  import opened Numbers
  import opened Calendar
  import opened Adif

  /** The key a field is stored under. */
  function Key(f: RawField): string {
    Lower(f.name)
  }

  /** The value a field contributes before typing: cut to its length, trimmed. */
  function Cleaned(f: RawField): string {
    CleanValue(f.raw, f.length)
  }

  /** A map lookup that does not need the key to be present. */
  function Get(doc: Doc, k: string): Option<Value> {
    if k in doc then Some(doc[k]) else None
  }

  /** The names of the fields of `fs` whose cleaned value is not empty, lower-cased. */
  ghost function StoredNames(fs: seq<RawField>): set<string>
    decreases |fs|
  {
    if fs == [] then {}
    else StoredNames(fs[..|fs| - 1]) + (if Cleaned(fs[|fs| - 1]) == [] then {} else {Key(fs[|fs| - 1])})
  }

  // ---------------------------------------------------------------- one field

  /** The names the derivation and the numeric conversion single out are distinct and not numeric. */
  lemma SpecialNames()
    ensures "qso_date" != "qso_datetime" && "time_on" != "qso_date" && "time_on" != "qso_datetime"
    ensures "qso_date" !in NumericFields && "time_on" !in NumericFields && "qso_datetime" !in NumericFields
  {
  }

  /**
   * Which keys storing the cleaned value `v` under the name `n` can add: `n` and
   * `qso_datetime`, and nothing is removed.
   */
  lemma PutKeys(doc: Doc, n: string, v: string)
    ensures v == [] ==> Put(doc, n, v) == doc
    ensures v != [] ==> n in Put(doc, n, v)
    ensures doc.Keys <= Put(doc, n, v).Keys <= doc.Keys + {n, "qso_datetime"}
    ensures "qso_datetime" in Put(doc, n, v) && "qso_datetime" !in doc ==>
      n == "qso_date" || n == "qso_datetime" || (n == "time_on" && "qso_date" in doc)
  {
  }

  /** Which keys one field match can add: its own name and `qso_datetime`, and nothing is removed. */
  lemma StoreKeys(doc: Doc, f: RawField)
    ensures Cleaned(f) == [] ==> Store(doc, f) == doc
    ensures Cleaned(f) != [] ==> Key(f) in Store(doc, f)
    ensures doc.Keys <= Store(doc, f).Keys <= doc.Keys + {Key(f), "qso_datetime"}
    ensures "qso_datetime" in Store(doc, f) && "qso_datetime" !in doc ==>
      Key(f) == "qso_date" || Key(f) == "qso_datetime" || (Key(f) == "time_on" && "qso_date" in doc)
  {
    PutKeys(doc, Key(f), Cleaned(f));
  }

  /** Storing under `n` leaves every other key, except `qso_datetime`, as it was. */
  lemma PutOther(doc: Doc, n: string, v: string, other: string)
    requires other != "qso_datetime"
    requires other != n || v == []
    ensures Get(Put(doc, n, v), other) == Get(doc, other)
  {
  }

  /** A field match leaves every other key, except `qso_datetime`, as it was. */
  lemma StoreOther(doc: Doc, f: RawField, n: string)
    requires n != "qso_datetime"
    requires n != Key(f) || Cleaned(f) == []
    ensures Get(Store(doc, f), n) == Get(doc, n)
  {
    PutOther(doc, Key(f), Cleaned(f), n);
  }

  /**
   * `qso_datetime` changes only where the source changes it: a field called
   * `qso_datetime` itself, an 8-character `qso_date` that parses as a date, or a
   * `time_on` of at least 4 characters after an 8-character `qso_date` whose
   * combination parses as a date and time.
   */
  lemma DatetimeChangesOnlyWhen(doc: Doc, f: RawField)
    ensures Get(Store(doc, f), "qso_datetime") != Get(doc, "qso_datetime") ==>
      var v := Cleaned(f);
      && v != []
      && (|| Key(f) == "qso_datetime"
          || (&& Key(f) == "qso_date" && |v| == 8 && ParseDate(v).Some?
              && Store(doc, f)["qso_datetime"] == Time(ParseDate(v).value))
          || (&& Key(f) == "time_on" && "qso_date" in doc && doc["qso_date"].Str?
              && |doc["qso_date"].text| == 8 && |v| >= 4
              && ParseDateTime(doc["qso_date"].text + PadTime(v)).Some?
              && Store(doc, f)["qso_datetime"] == Time(ParseDateTime(doc["qso_date"].text + PadTime(v)).value)))
  {
    DatetimeChangesOnlyWhenPut(doc, Key(f), Cleaned(f));
  }

  lemma DatetimeChangesOnlyWhenPut(doc: Doc, n: string, v: string)
    ensures Get(Put(doc, n, v), "qso_datetime") != Get(doc, "qso_datetime") ==>
      && v != []
      && (|| n == "qso_datetime"
          || (&& n == "qso_date" && |v| == 8 && ParseDate(v).Some?
              && Put(doc, n, v)["qso_datetime"] == Time(ParseDate(v).value))
          || (&& n == "time_on" && "qso_date" in doc && doc["qso_date"].Str?
              && |doc["qso_date"].text| == 8 && |v| >= 4
              && ParseDateTime(doc["qso_date"].text + PadTime(v)).Some?
              && Put(doc, n, v)["qso_datetime"] == Time(ParseDateTime(doc["qso_date"].text + PadTime(v)).value)))
  {
    SpecialNames();
  }

  /** The record the fields `fs` and then `f` build is `f` stored into the record of `fs`. */
  lemma DocOfSnoc(fs: seq<RawField>, f: RawField)
    ensures DocOf(fs + [f]) == Store(DocOf(fs), f)
  {
    assert (fs + [f])[..|fs|] == fs;
  }

  /** The record the fields `fs`, then `a`, then `b` build. */
  lemma DocOfPair(fs: seq<RawField>, a: RawField, b: RawField)
    ensures DocOf(fs + [a, b]) == Store(Store(DocOf(fs), a), b)
  {
    assert fs + [a, b] == (fs + [a]) + [b];
    DocOfSnoc(fs + [a], b);
    DocOfSnoc(fs, a);
  }

  // ---------------------------------------------------------------- one record

  /**
   * The keys of a record are the lower-cased names of the fields with a
   * non-empty value, plus possibly `qso_datetime`, which needs a `qso_date`
   * (or a field of that very name).
   */
  lemma {:induction false} DocKeys(fs: seq<RawField>)
    ensures StoredNames(fs) <= DocOf(fs).Keys <= StoredNames(fs) + {"qso_datetime"}
    ensures "qso_datetime" in DocOf(fs) ==> "qso_date" in StoredNames(fs) || "qso_datetime" in StoredNames(fs)
    decreases |fs|
  {
    if fs != [] {
      var prefix := fs[..|fs| - 1];
      DocKeys(prefix);
      StoreKeys(DocOf(prefix), fs[|fs| - 1]);
    }
  }

  /** A record is empty exactly when none of its fields has a non-empty value. */
  lemma DocEmptyIff(fs: seq<RawField>)
    ensures DocOf(fs) == map[] <==> StoredNames(fs) == {}
  {
    DocKeys(fs);
    if StoredNames(fs) == {} {
      assert DocOf(fs).Keys == {};
    }
  }

  /** Every stored key is lower case. */
  lemma KeysLowerCase(fs: seq<RawField>)
    ensures forall k :: k in DocOf(fs) ==> NoUpper(k)
  {
    DocKeys(fs);
    StoredNamesLower(fs);
    LowerKeysFrom(DocOf(fs), StoredNames(fs));
  }

  /** A map whose keys are lower-case names, or `qso_datetime`, has only lower-case keys. */
  lemma LowerKeysFrom(doc: Doc, names: set<string>)
    requires forall k :: k in names ==> NoUpper(k)
    requires doc.Keys <= names + {"qso_datetime"}
    ensures forall k :: k in doc ==> NoUpper(k)
  {
    assert NoUpper("qso_datetime");
  }

  lemma {:induction false} StoredNamesLower(fs: seq<RawField>)
    ensures forall k :: k in StoredNames(fs) ==> NoUpper(k)
    decreases |fs|
  {
    if fs != [] {
      StoredNamesLower(fs[..|fs| - 1]);
    }
  }

  /**
   * Every stored value other than `qso_datetime` is the typed, cleaned value of a
   * field with that (lower-cased) name whose cleaned value is not empty.
   */
  lemma {:induction false} ValueOrigin(fs: seq<RawField>, n: string) returns (j: nat)
    requires n in DocOf(fs) && n != "qso_datetime"
    ensures j < |fs| && Key(fs[j]) == n && Cleaned(fs[j]) != [] && DocOf(fs)[n] == Coerce(n, Cleaned(fs[j]))
    decreases |fs|
  {
    var last := fs[|fs| - 1];
    var prefix := fs[..|fs| - 1];
    if Key(last) == n && Cleaned(last) != [] {
      j := |fs| - 1;
      assert DocOf(fs)[n] == Coerce(n, Cleaned(fs[j]));
    } else {
      StoreOther(DocOf(prefix), last, n);
      j := ValueOrigin(prefix, n);
      assert fs[j] == prefix[j];
    }
  }

  /**
   * The stored value of a field is never empty and never longer than the declared
   * length of the field it came from; it is never a date-time.
   */
  lemma StoredValueFits(fs: seq<RawField>, n: string)
    requires n in DocOf(fs) && n != "qso_datetime"
    ensures !DocOf(fs)[n].Time?
    ensures DocOf(fs)[n].Str? ==>
      && DocOf(fs)[n].text != []
      && !IsSpace(DocOf(fs)[n].text[0]) && !IsSpace(DocOf(fs)[n].text[|DocOf(fs)[n].text| - 1])
      && exists j :: 0 <= j < |fs| && Key(fs[j]) == n && |DocOf(fs)[n].text| <= fs[j].length
    ensures DocOf(fs)[n].Dec? ==> exists j :: 0 <= j < |fs| && Key(fs[j]) == n && |DocOf(fs)[n].literal| <= fs[j].length
  {
    var j := ValueOrigin(fs, n);
    var x := DocOf(fs)[n];
    ValueFits(fs[j], n, x);
    assert Key(fs[j]) == n;
    if x.Str? {
      assert |x.text| <= fs[j].length;
    }
    if x.Dec? {
      assert |x.literal| <= fs[j].length;
    }
  }

  /** The typed, cleaned value of one field fits that field's declared length. */
  lemma ValueFits(f: RawField, n: string, x: Value)
    requires Key(f) == n && Cleaned(f) != [] && x == Coerce(n, Cleaned(f))
    ensures !x.Time?
    ensures x.Str? ==> x.text != [] && !IsSpace(x.text[0]) && !IsSpace(x.text[|x.text| - 1]) && |x.text| <= f.length
    ensures x.Dec? ==> |x.literal| <= f.length
  {
  }

  /** `qso_date` is always stored as text, as `time_on` expects. */
  lemma QsoDateIsText(fs: seq<RawField>)
    requires "qso_date" in DocOf(fs)
    ensures DocOf(fs)["qso_date"].Str?
  {
    SpecialNames();
    TextWhenNotNumeric(fs, DocOf(fs), "qso_date");
  }

  /** A stored value under a name that is not numeric is text. */
  lemma TextWhenNotNumeric(fs: seq<RawField>, doc: Doc, n: string)
    requires doc == DocOf(fs)
    requires n in doc && n != "qso_datetime" && n !in NumericFields
    ensures doc[n].Str?
  {
    var j := ValueOrigin(fs, n);
  }

  /**
   * The last occurrence wins: the value a name ends up with is that of its last
   * field with a non-empty cleaned value (names compared after lower-casing).
   */
  lemma {:induction false} LastWins(fs: seq<RawField>, j: nat)
    requires j < |fs| && Cleaned(fs[j]) != [] && Key(fs[j]) != "qso_datetime"
    requires forall k :: j < k < |fs| ==> Key(fs[k]) != Key(fs[j]) || Cleaned(fs[k]) == []
    ensures Key(fs[j]) in DocOf(fs)
    ensures DocOf(fs)[Key(fs[j])] == Coerce(Key(fs[j]), Cleaned(fs[j]))
    decreases |fs|
  {
    var prefix := fs[..|fs| - 1];
    if j < |fs| - 1 {
      assert prefix[j] == fs[j];
      LastWins(prefix, j);
      StoreOther(DocOf(prefix), fs[|fs| - 1], Key(fs[j]));
    }
  }

  /** Without a field named `qso_datetime`, a derived `qso_datetime` is a date-time and needs `qso_date`. */
  lemma {:induction false} DatetimeNeedsDate(fs: seq<RawField>)
    requires "qso_datetime" !in StoredNames(fs)
    requires "qso_datetime" in DocOf(fs)
    ensures DocOf(fs)["qso_datetime"].Time?
    ensures "qso_date" in DocOf(fs)
    decreases |fs|
  {
    DocKeys(fs);
    var prefix := fs[..|fs| - 1];
    var last := fs[|fs| - 1];
    DatetimeChangesOnlyWhen(DocOf(prefix), last);
    StoreKeys(DocOf(prefix), last);
    if Get(DocOf(fs), "qso_datetime") == Get(DocOf(prefix), "qso_datetime") {
      DatetimeNeedsDate(prefix);
    }
  }

  // ---------------------------------------------------------------- date and time

  /** The `QSO_DATE` field of a contact at `d`. */
  function DateField(d: DateTime): RawField
    requires ValidDate(d)
  {
    RawField("QSO_DATE", 8, FormatDate(d))
  }

  /** The `TIME_ON` field of a contact at `d`, as `HHMMSS`. */
  function TimeField(d: DateTime): RawField
    requires ValidTime(d)
  {
    RawField("TIME_ON", 6, FormatTime(d))
  }

  function DateOnly(d: DateTime): DateTime {
    DateTime(d.year, d.month, d.day, 0, 0, 0)
  }

  lemma DigitsUnchangedByClean(s: string)
    requires AllDigits(s)
    ensures CleanValue(s, |s|) == s
  {
    assert s[..|s|] == s;
    StripUnchanged(s);
  }

  /** The names of the two fields, as ADIF writes them, lower-case to the names the derivation looks for. */
  lemma FieldNames()
    ensures Lower("QSO_DATE") == "qso_date" && Lower("TIME_ON") == "time_on"
  {
  }

  /** What the `QSO_DATE` and `TIME_ON` fields of `d` contribute: the names and values the derivation sees. */
  lemma DateTimeFields(d: DateTime)
    requires ValidDate(d) && ValidTime(d)
    ensures Key(DateField(d)) == "qso_date" && Cleaned(DateField(d)) == FormatDate(d)
    ensures Key(TimeField(d)) == "time_on" && Cleaned(TimeField(d)) == FormatTime(d)
    ensures PadTime(FormatTime(d)) == FormatTime(d)
  {
    FieldNames();
    DigitsUnchangedByClean(FormatDate(d));
    DigitsUnchangedByClean(FormatTime(d));
  }

  /**
   * Any 8-character `qso_date` value that `strptime` reads, the spaced day
   * `"202401 5"` included, stores its text and sets `qso_datetime` to the date it reads.
   */
  lemma PutDateText(doc: Doc, v: string)
    requires |v| == 8 && ParseDate(v).Some?
    ensures Put(doc, "qso_date", v) == doc["qso_datetime" := Time(ParseDate(v).value)]["qso_date" := Str(v)]
  {
    SpecialNames();
    assert Derive(doc, "qso_date", v) == doc["qso_datetime" := Time(ParseDate(v).value)];
  }

  /** A `qso_date` value that spells a date sets `qso_datetime` to that date at midnight. */
  lemma PutDate(doc: Doc, d: DateTime)
    requires ValidDate(d)
    ensures Put(doc, "qso_date", FormatDate(d)) == doc["qso_datetime" := Time(DateOnly(d))]["qso_date" := Str(FormatDate(d))]
  {
    ParseFormatDate(DateOnly(d));
    assert FormatDate(DateOnly(d)) == FormatDate(d);
    PutDateText(doc, FormatDate(d));
  }

  /** A well-formed `QSO_DATE` stores its text and sets `qso_datetime` to that date at midnight. */
  lemma StoreDateField(doc: Doc, d: DateTime)
    requires ValidDate(d) && ValidTime(d)
    ensures Store(doc, DateField(d)) == doc["qso_datetime" := Time(DateOnly(d))]["qso_date" := Str(FormatDate(d))]
  {
    DateTimeFields(d);
    PutDate(doc, d);
  }

  /**
   * A `time_on` value of at least 4 characters that pads to the `HHMMSS` of `d`,
   * after the date of `d`, sets `qso_datetime` to `d`'s date and time.
   */
  lemma PutTime(doc: Doc, d: DateTime, v: string)
    requires ValidDate(d) && ValidTime(d)
    requires |v| >= 4 && PadTime(v) == FormatTime(d)
    requires "qso_date" in doc && doc["qso_date"] == Str(FormatDate(d))
    ensures Put(doc, "time_on", v) == doc["qso_datetime" := Time(d)]["time_on" := Str(v)]
  {
    SpecialNames();
    ParseFormatDateTime(d);
    assert TimeStamp(doc, v) == doc["qso_datetime" := Time(d)];
    assert Derive(doc, "time_on", v) == doc["qso_datetime" := Time(d)];
  }

  /** A field `time_on` that pads to the `HHMMSS` of `d`, after the date of `d`, sets `qso_datetime` to `d`. */
  lemma StoreTimeField(doc: Doc, d: DateTime, f: RawField)
    requires ValidDate(d) && ValidTime(d)
    requires Key(f) == "time_on" && |Cleaned(f)| >= 4 && PadTime(Cleaned(f)) == FormatTime(d)
    requires "qso_date" in doc && doc["qso_date"] == Str(FormatDate(d))
    ensures Store(doc, f) == doc["qso_datetime" := Time(d)]["time_on" := Str(Cleaned(f))]
  {
    PutTime(doc, d, Cleaned(f));
  }

  /** A `time_on` with no `qso_date` before it stores its text and leaves `qso_datetime` alone. */
  lemma PutTimeAlone(doc: Doc, v: string)
    requires v != [] && "qso_date" !in doc
    ensures Put(doc, "time_on", v) == doc["time_on" := Str(v)]
  {
    SpecialNames();
  }

  /**
   * A well-formed `QSO_DATE`, then a `time_on` of at least 4 characters that
   * pads to the time of day of the same contact: the date is stored and sets
   * `qso_datetime` at midnight, and the time then moves it to the full date and time.
   */
  lemma DateThenTimeOn(doc: Doc, d: DateTime, f: RawField)
    requires ValidDate(d) && ValidTime(d)
    requires Key(f) == "time_on" && |Cleaned(f)| >= 4 && PadTime(Cleaned(f)) == FormatTime(d)
    ensures Store(Store(doc, DateField(d)), f) ==
      doc["qso_datetime" := Time(DateOnly(d))]["qso_date" := Str(FormatDate(d))]
         ["qso_datetime" := Time(d)]["time_on" := Str(Cleaned(f))]
  {
    StoreDateField(doc, d);
    StoreTimeField(Store(doc, DateField(d)), d, f);
  }

  /** With the date first, `qso_datetime` gets the date and the time of day. */
  lemma DateThenTimeIn(doc: Doc, d: DateTime)
    requires ValidDate(d) && ValidTime(d)
    ensures var r := Store(Store(doc, DateField(d)), TimeField(d));
      "qso_datetime" in r && r["qso_datetime"] == Time(d)
  {
    SpecialNames();
    DateTimeFields(d);
    StoreDateField(doc, d);
    StoreTimeField(Store(doc, DateField(d)), d, TimeField(d));
  }

  /** After any fields, a date followed by a time sets `qso_datetime` to that date and time. */
  lemma DateThenTime(earlier: seq<RawField>, d: DateTime)
    requires ValidDate(d) && ValidTime(d)
    ensures "qso_datetime" in DocOf(earlier + [DateField(d), TimeField(d)])
    ensures DocOf(earlier + [DateField(d), TimeField(d)])["qso_datetime"] == Time(d)
  {
    DocOfPair(earlier, DateField(d), TimeField(d));
    DateThenTimeIn(DocOf(earlier), d);
  }

  /** After any fields, a time followed by a date leaves only the date in `qso_datetime`. */
  lemma TimeThenDate(earlier: seq<RawField>, d: DateTime)
    requires ValidDate(d) && ValidTime(d)
    ensures "qso_datetime" in DocOf(earlier + [TimeField(d), DateField(d)])
    ensures DocOf(earlier + [TimeField(d), DateField(d)])["qso_datetime"] == Time(DateOnly(d))
  {
    DocOfPair(earlier, TimeField(d), DateField(d));
    DateLastIn(Store(DocOf(earlier), TimeField(d)), d);
  }

  /** A date stored last leaves `qso_datetime` at that date, midnight. */
  lemma DateLastIn(doc: Doc, d: DateTime)
    requires ValidDate(d) && ValidTime(d)
    ensures var r := Store(doc, DateField(d));
      "qso_datetime" in r && r["qso_datetime"] == Time(DateOnly(d))
  {
    SpecialNames();
    StoreDateField(doc, d);
  }

  /** With the time first and no date before it, the record gets no time of day at all. */
  lemma TimeBeforeAnyDate(d: DateTime)
    requires ValidDate(d) && ValidTime(d)
    ensures DocOf([TimeField(d), DateField(d)]) ==
      map["time_on" := Str(FormatTime(d)), "qso_datetime" := Time(DateOnly(d)), "qso_date" := Str(FormatDate(d))]
  {
    DateTimeFields(d);
    DocOfPair([], TimeField(d), DateField(d));
    assert [] + [TimeField(d), DateField(d)] == [TimeField(d), DateField(d)];
    assert DocOf([]) == map[];
    PutTimeAlone(map[], FormatTime(d));
    StoreDateField(Store(map[], TimeField(d)), d);
  }

  // ---------------------------------------------------------------- numeric fields

  /** On a numeric field, digits, a point and digits are kept as that decimal. */
  lemma CoercePlainDecimal(name: string, whole: string, fraction: string)
    requires name in NumericFields
    requires |whole| > 0 && AllDigits(whole) && AllDigits(fraction)
    ensures Coerce(name, whole + "." + fraction) == Dec(whole + "." + fraction)
  {
    var t := whole + "." + fraction;
    var point := |whole|;
    assert forall k :: 0 <= k < |t| ==> t[k] != '_';
    assert t[..point] == whole && t[point + 1..] == fraction;
    assert t[point] == '.';
    PlainDecimalSyntax(t, point);
  }

  /** Digits, a point at `point` and digits spell a decimal. */
  lemma PlainDecimalSyntax(t: string, point: nat)
    requires 0 < point < |t| && t[point] == '.'
    requires AllDigits(t[..point]) && AllDigits(t[point + 1..])
    ensures IsDecimalSyntax(t)
  {
    DigitEndAt(t, 0, point);
    DigitEndAt(t, point + 1, |t|);
  }

  /** Text without a point that starts with neither a digit, a sign nor `_` is no number, and stays text. */
  lemma CoerceNotNumber(name: string, t: string)
    requires t != [] && '.' !in t
    requires !IsDigit(t[0]) && !IsSign(t[0]) && t[0] != '_'
    ensures Coerce(name, t) == Str(t)
  {
    var r := RemoveUnderscores(t);
    assert r == [t[0]] + RemoveUnderscores(t[1..]);
    assert Unsigned(r)[0] == t[0];
  }

  /** On a numeric field, the decimal spelling of an integer is stored as that integer. */
  lemma CoerceIntRoundTrip(name: string, i: int)
    requires name in NumericFields
    ensures Coerce(name, IntToText(i)) == Int(i)
  {
    assert '.' !in IntToText(i);
  }
}
