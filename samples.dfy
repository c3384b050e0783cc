/**
 * Concrete inputs worked through the model: numeric coercion on a few values,
 * one contact with a 4-digit `TIME_ON`, and a whole file.
 */
module Samples {
  import opened Options
  import opened Chars
  import opened Text
  import opened Numbers
  import opened Calendar
  import opened Adif
  import opened AdifLaws
  import opened AdifRender
  import opened ParseLaws

  /** On a numeric field, `14.250` is a decimal: digits, a point, digits. */
  lemma DecimalSample()
    ensures Coerce("freq", "14.250") == Dec("14.250")
  {
    assert "14" + "." + "250" == "14.250";
    CoercePlainDecimal("freq", "14", "250");
  }

  /** On a numeric field, text that is no number stays text. */
  lemma GarbledSample()
    ensures Coerce("freq", "garbled") == Str("garbled")
  {
    CoerceNotNumber("freq", "garbled");
  }

  /** On a numeric field, `291` is the integer 291; on any other field it stays text. */
  lemma IntegerSample()
    ensures Coerce("dxcc", "291") == Int(291)
    ensures Coerce("call", "291") == Str("291")
  {
    assert NatToDigits(291) == "291";
    CoerceIntRoundTrip("dxcc", 291);
  }

  /** The contact of 15 January 2024 at 14:30 UTC. */
  const Contact: DateTime := DateTime(2024, 1, 15, 14, 30, 0)

  /** The two fields of the contact as a logger writes them: `<QSO_DATE:8>20240115<TIME_ON:4>1430`. */
  predicate ContactFields(date: RawField, time: RawField) {
    date == RawField("QSO_DATE", 8, "20240115") && time == RawField("TIME_ON", 4, "1430")
  }

  /** The fields are the `QSO_DATE` of the contact and a `TIME_ON` that pads to its time. */
  lemma SampleFields(date: RawField, time: RawField)
    requires ContactFields(date, time)
    ensures ValidDate(Contact) && ValidTime(Contact)
    ensures date == DateField(Contact)
    ensures Key(time) == "time_on" && Cleaned(time) == "1430"
    ensures PadTime("1430") == FormatTime(Contact)
  {
    assert FormatDate(Contact) == "20240115";
    assert FormatTime(Contact) == "143000";
    FieldNames();
    DigitsUnchangedByClean("1430");
    assert PadTime("1430") == "1430" + "00";
  }

  /** The record of the two fields: both kept as text, and `qso_datetime` the contact's date and time. */
  lemma ContactRecord(date: RawField, time: RawField)
    requires ContactFields(date, time)
    ensures DocOf([date, time]) ==
      map[]["qso_datetime" := Time(DateOnly(Contact))]["qso_date" := Str("20240115")]
           ["qso_datetime" := Time(Contact)]["time_on" := Str("1430")]
  {
    SampleFields(date, time);
    DocOfPair([], date, time);
    assert [] + [date, time] == [date, time];
    DateThenTimeOn(map[], Contact, time);
  }

  /**
   * The same two fields the other way round: the time comes before any date, so
   * `qso_datetime` is only the date, at midnight.
   */
  lemma ReversedRecord(date: RawField, time: RawField)
    requires ContactFields(date, time)
    ensures "qso_datetime" in DocOf([time, date])
    ensures DocOf([time, date])["qso_datetime"] == Time(DateTime(2024, 1, 15, 0, 0, 0))
  {
    SampleFields(date, time);
    DocOfPair([], time, date);
    assert [] + [time, date] == [time, date];
    DateLastIn(Store(map[], time), Contact);
  }

  /** The two fields as entries a logger writes, the date with its data type `D`. */
  function ContactEntries(date: RawField, time: RawField): seq<Entry> {
    [Entry(date, Some('D')), Entry(time, None)]
  }

  /**
   * The sample file `<EOH>`, line break, `<QSO_DATE:8:D>20240115<TIME_ON:4>1430`,
   * `<EOR>`, line break (see `SampleText`): exactly one record, the record of the
   * two fields stamped with `imported_at`.
   */
  lemma SampleFile(date: RawField, time: RawField, importedAt: DateTime)
    requires ContactFields(date, time)
    ensures Parse("<EOH>" + "\n" + Render(ContactEntries(date, time)) + "<EOR>" + "\n", importedAt) ==
      [DocOf([date, time])["imported_at" := Time(importedAt)]]
  {
    SampleWritable(date, time);
    SampleMarkers();
    SingleRecordFile("<EOH>", "\n", ContactEntries(date, time), "<EOR>", "\n", importedAt);
  }

  /** The markers and the line break of the sample file. */
  lemma SampleMarkers()
    ensures Lower("<EOH>") == EOH && Lower("<EOR>") == EOR && AllSpace("\n")
  {
  }

  /** The two entries, written out, are the record of the sample file. */
  lemma SampleText(date: RawField, time: RawField)
    requires ContactFields(date, time)
    ensures Render(ContactEntries(date, time)) == "<QSO_DATE:8:D>20240115<TIME_ON:4>1430"
  {
    var es := ContactEntries(date, time);
    SampleTags(date, time);
    assert es[1..] == [Entry(time, None)];
    assert es[1..][1..] == [];
    assert Render(es[1..]) == "<TIME_ON:4>" + "1430";
    assert Render(es) == "<QSO_DATE:8:D>" + "20240115" + Render(es[1..]);
  }

  /** `%d` reads a space and a digit: `202401 5` is 5 January 2024, and sets `qso_datetime` to its midnight. */
  lemma SpacedDaySample()
    ensures ParseDate("202401 5") == Some(DateTime(2024, 1, 5, 0, 0, 0))
    ensures Put(map[], "qso_date", "202401 5") ==
      map["qso_datetime" := Time(DateTime(2024, 1, 5, 0, 0, 0)), "qso_date" := Str("202401 5")]
  {
    var v := "202401 5";
    assert v[..4] == "2024";
    assert DigitsValue("2024") == 2024 by {
      assert "2024"[..3] == "202" && "202"[..2] == "20" && "20"[..1] == "2" && "2"[..0] == [];
    }
    PutDateText(map[], v);
  }

  /** A length written with a leading zero is read as its value: `<CALL:04>W1AW` declares 4. */
  lemma LeadingZeroLength()
    ensures TagAt("<CALL:04>W1AW") == Some(Tag("CALL", 4, 9))
  {
    var s := "<CALL:04>W1AW";
    assert s[1..5] == "CALL" && s[6..8] == "04";
    assert DigitsValue("04") == 4 by {
      assert "04"[..1] == "0" && "0"[..0] == [];
    }
    TagAtShape(s, 5, 8);
  }

  /** The tags of the two entries. */
  lemma SampleTags(date: RawField, time: RawField)
    requires ContactFields(date, time)
    ensures TagText(Entry(date, Some('D'))) == "<QSO_DATE:8:D>" && TagText(Entry(time, None)) == "<TIME_ON:4>"
  {
    assert NatToDigits(8) == "8" && NatToDigits(4) == "4";
  }

  /** The two entries can be written and read back. */
  lemma SampleWritable(date: RawField, time: RawField)
    requires ContactFields(date, time)
    ensures Fields(ContactEntries(date, time)) == [date, time]
    ensures Writable(ContactEntries(date, time))
  {
    var es := ContactEntries(date, time);
    SampleEntries(date, time);
    SampleStored(date, time);
    assert es[|es| - 1].field.raw == "1430";
  }

  /** The entries carry the two fields, and both are well written. */
  lemma SampleEntries(date: RawField, time: RawField)
    requires ContactFields(date, time)
    ensures Fields(ContactEntries(date, time)) == [date, time]
    ensures WellWritten(ContactEntries(date, time)[0]) && WellWritten(ContactEntries(date, time)[1])
  {
    assert Fields(ContactEntries(date, time)) == [date, time];
  }

  /** The time field has a value, so the record is not empty. */
  lemma SampleStored(date: RawField, time: RawField)
    requires ContactFields(date, time)
    ensures StoredNames([date, time]) != {}
  {
    var fs := [date, time];
    SampleFields(date, time);
    assert fs[..1] == [date];
    assert Key(time) in StoredNames(fs);
  }

  /** An empty file has no records. */
  lemma EmptyFile(importedAt: DateTime)
    ensures Parse("", importedAt) == []
  {
    assert !Occurs("", EOH);
    assert Segments("") == [""];
    StripMeaning("");
    BlankSegment("", importedAt);
    EmitNothing([""], importedAt);
  }
}
