# ADIF importer, modelled in Dafny

`tools/import_qso.py` reads an amateur-radio contact log in ADIF text form and loads it into a document store. It works in two stages.

`parse_adif` builds the records:

1. It drops everything up to the first `<EOH>`, ignoring case.
2. It splits the rest on `<EOR>`, ignoring case.
3. It trims each piece and scans it for field tags `<name:len>` or `<name:len:t>`.
4. It cuts each value to its declared length and trims it. It skips empty values. It lower-cases the name and converts the ten numeric fields to numbers.
5. It derives `qso_datetime` from `qso_date` and `time_on`.
6. It stamps every non-empty record with `imported_at`.

`main` then inserts the records in slices of 100 and adds up the inserted count.

The model follows that code step by step.

- `Adif.ParseAdif`, `Adif.ParseRecord`, `Adif.BuildDoc` and `Adif.StoreField` are imperative methods. They have the loops and the in-place `doc` updates of `parse_adif`.
- Each method is proved equal to a specification function: `Parse`, `RecordOf`, `DocOf` or `Store`.
- The laws of the importer are proved about those functions, in these modules:
  - `AdifLaws`: one record;
  - `ParseLaws`: a whole text;
  - `Loader`: the batching.
- `AdifRender` writes fields back out as ADIF text, each tag with or without its one-character data type (`<QSO_DATE:8:D>`). It is the inverse the field scan is proved against: scanning written text gives back the fields it came from, and the data types are skipped (`AdifRender.MatchesRender`).
- A whole file written from known records is proved to parse into exactly those records (`ParseLaws.ParseWritten`). The file may have any whitespace around each record, blank stretches such as the line break after a final `<EOR>`, and `<EOR>` spelled differently at each joint. A file without any `<EOH>` is covered too (`ParseLaws.ParseWrittenWithoutHeader`).
- Python's library calls are modelled in their own modules:
  - `Text`: `str.strip()`, `re.search` and `re.split` with `re.IGNORECASE`;
  - `Numbers`: what `int()` and `float()` accept;
  - `Calendar`: `datetime.strptime` on the 8- and 14-character inputs it receives here;
  - `Chars`: the character classes.
- The clock reading `datetime.utcnow()` is passed in as the parameter `importedAt`.
- The document store is the class `Loader.Collection`. It records the batches it is given.

Three behaviours of the code are easy to misread; the model follows the code:

- **Time before date.** When `TIME_ON` comes before `QSO_DATE`, one might expect `qso_datetime` to stay unset. In the code, the later `QSO_DATE` still sets `qso_datetime`, to that date at midnight (`AdifLaws.TimeThenDate`, `AdifLaws.TimeBeforeAnyDate`, `Samples.ReversedRecord`).
- **Seconds.** `strptime`'s `%S` pattern admits the seconds `60` and `61`. The `datetime` it then builds rejects them, so a time with those seconds leaves `qso_datetime` as it was. Years must be at least 1.
- **Day with a space.** `%d` also accepts a space followed by a digit, so `"202401 5"` is a valid `QSO_DATE`, and it sets `qso_datetime` (`Calendar.ParseDateInverse`, `AdifLaws.PutDateText`, `Samples.SpacedDaySample`).

## Model

| member | source | states |
|---|---|---|
| Adif.StripHeader | tools/import_qso.py:13-16 | Without an `<EOH>` in any case, the body is the whole text. Otherwise the body is what follows the first case-insensitive `<EOH>`, and no earlier position holds one. |
| ParseLaws.HeaderDiscarded | tools/import_qso.py:13-16 | A header without `<EOH>`, followed by `<EOH>` in any spelling, is dropped entirely and the body is kept exactly. |
| ParseLaws.HeaderSpellings | tools/import_qso.py:14 | `<eoh>`, `<EOH>` and `<EoH>` all end the header. |
| Text.Find | tools/import_qso.py:14 | `re.search` ignoring case: the result is a match, no earlier position matches, and when there is no result nothing matches. |
| Text.MatchAt | tools/import_qso.py:14 | No contract; defines a case-insensitive occurrence of a lower-case marker at one position, the comparison `re.IGNORECASE` makes. |
| Text.Occurs | tools/import_qso.py:14-15 | No contract; defines "the marker occurs somewhere", the test `if eoh_match:` makes. |
| Text.Split | tools/import_qso.py:19 | `re.split`: at least one piece, and no piece holds the separator in any case. |
| Text.SplitJoin | tools/import_qso.py:19 | Splitting pieces without the marker, joined by the marker spelled in any case at each joint (not necessarily the same way twice), gives back exactly those pieces. |
| Text.Separators | tools/import_qso.py:19 | The markers `re.split` cuts out, as spelled in the text: one fewer than the pieces, each the marker in some case. |
| Text.JoinSplit | tools/import_qso.py:19 | The pieces of `re.split` are the text between the markers: joined again by the markers cut out, they give back the text. |
| ParseLaws.SegmentsOfJoin | tools/import_qso.py:13-19 | A header, `<EOH>`, then pieces joined by `<EOR>` markers, each spelled in any case: the candidate records are exactly those pieces. |
| ParseLaws.SegmentsWithoutHeader | tools/import_qso.py:13-19 | A text with no `<EOH>` at all is all body: pieces joined by `<EOR>` markers are exactly its candidate records. |
| Adif.Segments | tools/import_qso.py:13-19 | No contract; defines the candidate records: the body after the header, split on `<EOR>` in any case. |
| Text.Strip | tools/import_qso.py:25 | `str.strip()` never lengthens its input. |
| Text.StripMeaning | tools/import_qso.py:25 | `str.strip()` leaves nothing exactly when the text is all whitespace. Otherwise it leaves the slice after the leading whitespace that starts and ends with non-whitespace and has only whitespace after it. |
| Text.StripIdempotent | tools/import_qso.py:25 | Stripping twice is stripping once. |
| Text.StripAround | tools/import_qso.py:25 | `str.strip()` removes exactly the whitespace around a text that neither starts nor ends with whitespace. |
| Text.SpacesKeepNoMatch | tools/import_qso.py:19-25 | Whitespace around a text adds no occurrence of a marker that holds no whitespace. |
| Text.StripUnchanged | tools/import_qso.py:25 | Text without whitespace at either end is its own strip. |
| Chars.IsSpace | tools/import_qso.py:25 | No contract; defines the whitespace `str.strip()` removes: Python's `str.isspace` set, the Unicode separators included. |
| Adif.BlankSegment | tools/import_qso.py:25-27 | A segment that is blank after trimming yields no record. |
| Adif.TagAt | tools/import_qso.py:22 | A tag found at the start of a text is `<`, a non-empty name of word characters, `:`, a run of digits whose value is the declared length, then either `>` or `:`, one word character and `>`; the value starts right after the `>`. |
| Adif.TagAtShape | tools/import_qso.py:22 | Conversely, any text that starts with `<`, word characters, `:`, digits (leading zeros allowed) and `>` or `:`, one word character and `>` holds a tag: that name, the value of those digits as its length, and its value starting after the `>`. |
| Chars.IsWordChar | tools/import_qso.py:22 | No contract; defines the class `\w`: ASCII letters, digits and `_`. |
| Adif.WordEnd | tools/import_qso.py:22 | `\w+` takes the whole run of word characters. |
| Adif.ValueEnd | tools/import_qso.py:22 | `(.*?)(?=<\|\Z)` stops at the next `<` or at the end, and holds no `<`. |
| Numbers.DigitEnd | tools/import_qso.py:22 | `\d+` takes the whole run of digits. |
| Numbers.DigitsValue | tools/import_qso.py:32 | No contract; defines what `int()` reads from a run of decimal digits, leading zeros allowed. |
| Adif.Matches | tools/import_qso.py:22-30 | Every match of `finditer` has a non-empty word-character name and a value without `<`. |
| Adif.WellFormed | tools/import_qso.py:22 | No contract; defines what every match looks like: a non-empty word-character name and a value without `<`. |
| AdifRender.TagAtRender | tools/import_qso.py:22-32 | The tag scan reads a written tag back, with or without a one-character data type: its name, its length as `int()` reads it, and the start of its value after the data type. |
| AdifRender.MatchesStep | tools/import_qso.py:22-30 | Scanning one written entry followed by more tags, or by nothing, yields its field, then the scan of the rest. |
| AdifRender.MatchesRender | tools/import_qso.py:22-33 | Scanning written entries gives back exactly their fields, in order, whatever data types the tags carry (the inverse of `Render`). |
| AdifRender.RenderNoEor | tools/import_qso.py:19-22 | Written entries hold no `<EOR>` in any case, so splitting keeps a written record whole. |
| AdifRender.RenderEnd | tools/import_qso.py:25 | The last character of a written record is the end of its last value, or the `>` of its last tag. |
| Numbers.NatToDigits | tools/import_qso.py:32 | The decimal spelling of `n` is non-empty digits that `int()` reads as `n`. |
| Adif.CleanValue | tools/import_qso.py:33 | The cleaned value is no longer than the declared length or the value run. It neither starts nor ends with whitespace. It is empty exactly when the first `length` characters of the run are all whitespace. |
| AdifLaws.StoredValueFits | tools/import_qso.py:33-64 | Every stored value except `qso_datetime` is a non-empty trimmed text, an integer or a decimal, never a date-time, and no longer than its field's declared length. |
| AdifLaws.ValueOrigin | tools/import_qso.py:31-64 | Every stored value except `qso_datetime` is the typed, cleaned value of some field with that lower-cased name and a non-empty cleaned value. |
| AdifLaws.ValueFits | tools/import_qso.py:33-45 | The typed, cleaned value of one field is never a date-time, and its text is non-empty, trimmed and within the declared length. |
| AdifLaws.DocKeys | tools/import_qso.py:31-64 | A record's keys are the lower-cased names of the fields with a non-empty value, plus possibly `qso_datetime`, which needs a `qso_date` or a field of that name. |
| AdifLaws.DocEmptyIff | tools/import_qso.py:35-66 | A record is empty exactly when none of its fields has a non-empty cleaned value. |
| AdifLaws.StoreKeys | tools/import_qso.py:35-64 | One field adds at most its own name and `qso_datetime`, removes nothing, and changes nothing when its cleaned value is empty. |
| AdifLaws.PutKeys | tools/import_qso.py:35-64 | Storing an empty value changes nothing. A non-empty value is then present under its name. Keys are only ever added: its own name and possibly `qso_datetime`. |
| AdifLaws.PutOther | tools/import_qso.py:64 | Storing a value leaves every other key except `qso_datetime` as it was. |
| AdifLaws.DatetimeChangesOnlyWhenPut | tools/import_qso.py:48-62 | The same three cases as `DatetimeChangesOnlyWhen`, for a name and a cleaned value. |
| Adif.DocOfStep | tools/import_qso.py:30-64 | The record after field `i` is field `i` stored into the record of the earlier fields. |
| AdifLaws.DocOfSnoc | tools/import_qso.py:30-64 | One more field at the end is stored into the record of the fields before it. |
| AdifLaws.TextWhenNotNumeric | tools/import_qso.py:37-45 | A stored value under any name outside the numeric fields and `qso_datetime` is text. |
| AdifLaws.StoreOther | tools/import_qso.py:64 | One field leaves every key other than its own name and `qso_datetime` as it was. |
| Chars.Lower | tools/import_qso.py:31 | `lower()` keeps the length, lower-cases each character and leaves no upper-case letter. |
| Chars.ToLower | tools/import_qso.py:31 | Lower-casing one character turns `A`-`Z` into `a`-`z`, leaves no upper-case letter, keeps every other character, and keeps each character's class. |
| AdifLaws.KeysLowerCase | tools/import_qso.py:31-64 | Every key of a record is lower case. |
| AdifLaws.LastWins | tools/import_qso.py:31-64 | The value a name ends up with is that of its last field with a non-empty cleaned value. Names are compared after lower-casing. |
| Adif.Coerce | tools/import_qso.py:37-45 | Names outside the ten numeric fields always stay text. On a numeric field, text with `.` that `float()` reads becomes a decimal of that text, text without `.` that `int()` reads becomes that integer, and anything else stays text. |
| Numbers.UnderscoresOk | tools/import_qso.py:41-43 | No contract; defines where `int()` and `float()` accept `_`: only between two digits. |
| Numbers.RemoveUnderscores | tools/import_qso.py:41-43 | Removing the underscores never lengthens a text, leaves none behind, and changes nothing when there are none. |
| Numbers.IsIntLiteral | tools/import_qso.py:43 | No contract; defines the text `int()` accepts: an optional sign, then digits, with underscores only between digits. |
| Numbers.IntLiteralValue | tools/import_qso.py:43 | No contract; defines the integer `int()` returns for such a text. |
| Numbers.IsDecimalSyntax | tools/import_qso.py:41 | No contract; defines the decimal `float()` accepts once underscores are gone: sign, digits, point, digits, exponent. |
| Numbers.IsFloatLiteral | tools/import_qso.py:41 | No contract; defines the text with a `.` that `float()` accepts. |
| AdifLaws.CoerceIntRoundTrip | tools/import_qso.py:37-43 | On a numeric field, the decimal spelling of any integer is stored as that integer. |
| AdifLaws.CoercePlainDecimal | tools/import_qso.py:37-41 | On a numeric field, digits, a point and digits are stored as that decimal. |
| AdifLaws.CoerceNotNumber | tools/import_qso.py:39-45 | Text without `.` that starts with neither a digit, a sign nor `_` stays text. |
| Numbers.IntToText | tools/import_qso.py:43 | The decimal spelling of an integer is an `int()` literal with that value and no `.`. |
| Samples.DecimalSample | tools/import_qso.py:40-41 | `freq` `14.250` is stored as the decimal `14.250`. |
| Samples.GarbledSample | tools/import_qso.py:39-45 | `freq` `garbled` stays text. |
| Samples.IntegerSample | tools/import_qso.py:37-43 | `dxcc` `291` is the integer 291, and a non-numeric field keeps `291` as text. |
| AdifLaws.QsoDateIsText | tools/import_qso.py:37-58 | `qso_date` is always stored as text, so `time_on` always finds the text it measures. |
| Calendar.DaysInMonth | tools/import_qso.py:50 | Months have 28 to 31 days, and 29 exactly for February of a leap year. |
| Calendar.IsLeapYear | tools/import_qso.py:50 | No contract; defines the Gregorian leap years that `datetime` uses. |
| Calendar.ValidDate | tools/import_qso.py:50 | No contract; defines the dates the `datetime` constructor accepts: year 1 to 9999, month 1 to 12, day within its month. |
| Calendar.ValidTime | tools/import_qso.py:60 | No contract; defines the times of day the `datetime` constructor accepts: hour 0 to 23, minute and second 0 to 59. |
| Calendar.MonthField | tools/import_qso.py:50 | No contract; defines the two-character forms of `%m`: 01 to 12. |
| Calendar.DayField | tools/import_qso.py:50 | No contract; defines the two-character forms of `%d`: 01 to 31, or a space and a digit 1 to 9. |
| Calendar.HourField | tools/import_qso.py:60 | No contract; defines the two-character forms of `%H`: 00 to 23. |
| Calendar.MinuteField | tools/import_qso.py:60 | No contract; defines the two-character forms of `%M`: 00 to 59. |
| Calendar.SecondField | tools/import_qso.py:60 | No contract; defines the two-character forms of `%S`: 00 to 61. |
| Calendar.DateShape | tools/import_qso.py:50 | No contract; defines the text `%Y%m%d` matches in 8 characters: four digits, a month and a day. |
| Calendar.ParseDate | tools/import_qso.py:50 | `strptime(value, '%Y%m%d')` gives only valid dates, at midnight. |
| Calendar.ParseFormatDate | tools/import_qso.py:50 | A valid date written as `YYYYMMDD` parses back to itself. |
| Calendar.ParseDateInverse | tools/import_qso.py:50 | An 8-character text that parses is the `YYYYMMDD` spelling of its date, except that a day below 10 may be written with a leading space. |
| Calendar.ParseDateTime | tools/import_qso.py:60 | `strptime(..., '%Y%m%d%H%M%S')` gives only valid dates with valid times of day. |
| Calendar.ParseFormatDateTime | tools/import_qso.py:60 | A valid date and time written as `YYYYMMDDHHMMSS` parse back to themselves. |
| Calendar.ParseDateTimeInverse | tools/import_qso.py:60 | A 14-character text that parses is the `YYYYMMDDHHMMSS` spelling of its date and time, except that a day below 10 may be written with a leading space. |
| Adif.PadTime | tools/import_qso.py:59 | `ljust(6, '0')[:6]` has six characters: the first six of a long value, or a short value followed by `0`s. |
| Adif.DateStamp | tools/import_qso.py:48-52 | No contract; defines the `qso_date` branch: a date that parses sets `qso_datetime` to it, and one that does not changes nothing. |
| Adif.TimeStamp | tools/import_qso.py:55-62 | No contract; defines the `time_on` branch once `qso_date` is in the record: an 8-character date and a time of at least 4 characters, padded to 6, that parse together set `qso_datetime`; otherwise nothing changes. |
| Adif.Derive | tools/import_qso.py:48-62 | No contract; defines the `qso_datetime` derivation: the `qso_date` branch, then the `time_on` branch. |
| Adif.Put | tools/import_qso.py:35-64 | No contract; defines storing a cleaned value: an empty one changes nothing, any other derives `qso_datetime` and is then stored typed under its name. |
| Adif.Store | tools/import_qso.py:31-64 | No contract; defines the effect of one field match: its lower-cased name and its cleaned value, stored by `Put`. |
| Adif.DocOf | tools/import_qso.py:29-64 | No contract; defines the record built from the field matches: each stored in turn into an empty record. |
| AdifLaws.PutDateText | tools/import_qso.py:48-64 | Any 8-character `qso_date` value that `strptime` reads, a spaced day included, stores its text and sets `qso_datetime` to the date it reads. |
| AdifLaws.PutDate | tools/import_qso.py:48-64 | A `qso_date` value that spells a date stores its text and sets `qso_datetime` to that date at midnight. |
| AdifLaws.StoreDateField | tools/import_qso.py:31-64 | A well-formed `QSO_DATE` field stores its text and sets `qso_datetime` to its date at midnight. |
| AdifLaws.PutTime | tools/import_qso.py:55-64 | After the date of `d`, a `time_on` value of at least 4 characters that pads to `d`'s `HHMMSS` sets `qso_datetime` to `d` and stores its text. |
| AdifLaws.StoreTimeField | tools/import_qso.py:55-64 | The same for a whole `time_on` field. |
| AdifLaws.PutTimeAlone | tools/import_qso.py:55-64 | A `time_on` with no `qso_date` before it only stores its text. |
| AdifLaws.DatetimeChangesOnlyWhen | tools/import_qso.py:48-62 | `qso_datetime` changes only on one of three fields. The first is a field of that very name. The second is an 8-character `qso_date` that parses, which sets it to that date. The third is a `time_on` of at least 4 characters, after an 8-character `qso_date`, whose combination parses; it sets it to that date and time. Otherwise a failed parse keeps the earlier value. |
| AdifLaws.DatetimeNeedsDate | tools/import_qso.py:48-62 | Without a field named `qso_datetime`, a `qso_datetime` in a record is a date-time, and the record has a `qso_date`. |
| AdifLaws.DateThenTimeOn | tools/import_qso.py:48-64 | A date, then a `time_on` that pads to the same contact's time: the exact record after both. |
| AdifLaws.DateThenTime | tools/import_qso.py:48-62 | After any fields, a date followed by a time sets `qso_datetime` to that date and time. |
| AdifLaws.DateThenTimeIn | tools/import_qso.py:48-62 | A date and then the time of the same moment set `qso_datetime` to that date and time. |
| AdifLaws.DateLastIn | tools/import_qso.py:48-52 | A date stored last sets `qso_datetime` to that date, at midnight, whatever came before it. |
| AdifLaws.TimeThenDate | tools/import_qso.py:48-62 | After any fields, a time followed by a date leaves `qso_datetime` at the date, midnight. |
| AdifLaws.TimeBeforeAnyDate | tools/import_qso.py:48-64 | A record of a time, then a date, is exactly the two texts plus the date at midnight. |
| Samples.ContactRecord | tools/import_qso.py:48-64 | `QSO_DATE:8 20240115`, then `TIME_ON:4 1430`: the record is both texts, with `qso_datetime` 2024-01-15 14:30:00. |
| Samples.ReversedRecord | tools/import_qso.py:48-62 | The same fields in reverse order: `qso_datetime` is 2024-01-15 at midnight. |
| Adif.StoreField | tools/import_qso.py:31-64 | The body of the field loop updates `doc` exactly as `Store` says. |
| Adif.BuildDoc | tools/import_qso.py:29-64 | The field loop builds `DocOf` of the segment's matches. |
| Adif.ParseRecord | tools/import_qso.py:25-69 | One pass of the record loop yields `RecordOf` of the segment. |
| ParseLaws.RecordOfMeaning | tools/import_qso.py:25-69 | A blank segment yields nothing. A segment yields a record exactly when some field in it has a non-empty value. That record is the fields' record plus `imported_at`. |
| Adif.RecordOf | tools/import_qso.py:25-69 | No contract; defines what one segment yields: nothing when its stripped text gives an empty record, else that record with `imported_at`. |
| Adif.Outcomes | tools/import_qso.py:24-69 | One outcome per segment; outcome `k` is what segment `k` yields (`ParseLaws.OutcomesAt`). |
| Collect.Present | tools/import_qso.py:66-69 | No contract; defines what a loop that yields only the present outcomes collects, in order. |
| Adif.Emit | tools/import_qso.py:24-69 | No contract; defines the records of a sequence of segments: the present outcomes, in order. |
| Adif.Parse | tools/import_qso.py:13-69 | No contract; defines all records of a text: the records of its segments. |
| Adif.ParseAdif | tools/import_qso.py:13-69 | The whole parser returns `Parse` of its input. |
| Adif.NextOutcome | tools/import_qso.py:24-69 | One more segment adds exactly the record it yields, if any, at the end. |
| ParseLaws.OutcomesAt | tools/import_qso.py:24-69 | The outcome at position `k` is what segment `k` yields. |
| ParseLaws.EmitCount | tools/import_qso.py:24-69 | There are exactly as many records as segments that yield one. |
| Collect.PresentCount | tools/import_qso.py:24-69 | A loop that keeps the present results collects exactly as many values as elements that hold one. |
| ParseLaws.EmitLength | tools/import_qso.py:24-69 | There are no more records than segments, and exactly as many when every segment yields one. |
| ParseLaws.EmitSource | tools/import_qso.py:24-69 | Every emitted record is the record of some segment. |
| ParseLaws.EmitSound | tools/import_qso.py:24-69 | Every emitted record carries `imported_at` equal to the import time. It comes from a segment with at least one field that has a value, and is that segment's record. |
| ParseLaws.EmitEvery | tools/import_qso.py:24-69 | When every segment yields a record, those records come out one per segment, in order. |
| ParseLaws.EmitNothing | tools/import_qso.py:24-66 | Segments none of which has a field with a value yield no records. |
| ParseLaws.RecordPiece | tools/import_qso.py:22-69 | A writable record with whitespace around it, read as a segment, yields the record of its fields stamped with `imported_at`. |
| ParseLaws.PieceRecord | tools/import_qso.py:22-69 | A piece of a written file yields what it was written to yield: nothing when blank, else the stamped record of its fields. |
| ParseLaws.PieceNoEor | tools/import_qso.py:19-22 | No piece of a written file holds an `<EOR>`. |
| ParseLaws.EmitPieces | tools/import_qso.py:22-69 | Pieces read as segments yield exactly what they were written to yield, in order, one record per record piece. |
| ParseLaws.ParseWritten | tools/import_qso.py:13-69 | A header, `<EOH>`, and pieces separated by `<EOR>` markers in any spellings parse into exactly the stamped records of the record pieces, in order: as many records as record pieces, none for blank pieces such as a final line break. |
| ParseLaws.ParseWrittenWithoutHeader | tools/import_qso.py:13-69 | The same for a file without any `<EOH>`. |
| ParseLaws.SingleRecordFile | tools/import_qso.py:13-69 | `<EOH>`, whitespace, one writable record, `<EOR>` and whitespace parse into exactly that record, stamped. |
| Samples.SampleText | tools/import_qso.py:22 | The two sample entries written out are `<QSO_DATE:8:D>20240115<TIME_ON:4>1430`. |
| Samples.SampleFile | tools/import_qso.py:13-69 | `<EOH>`, a line break, the sample record, `<EOR>` and a line break parse into exactly one record, the two fields' record stamped with `imported_at`. |
| Samples.EmptyFile | tools/import_qso.py:13-27 | An empty file has no records. |
| Samples.LeadingZeroLength | tools/import_qso.py:22-32 | `<CALL:04>W1AW` holds a tag named `CALL` whose declared length is 4. |
| Samples.SpacedDaySample | tools/import_qso.py:48-52 | `202401 5` is read as 5 January 2024 and sets `qso_datetime` to its midnight. |
| Loader.Batches | tools/import_qso.py:94-95 | Every batch holds between 1 and `size` records. |
| Loader.Slice | tools/import_qso.py:95 | `records[i:i + size]` is the run from `i`, cut back to the length. |
| Loader.FlattenBatches | tools/import_qso.py:94-95 | The batches laid end to end are the records, in order. |
| Loader.BatchCount | tools/import_qso.py:94 | There are `ceil(n / size)` batches. |
| Loader.BatchCountHundred | tools/import_qso.py:91-94 | With batches of 100 there are `(n + 99) // 100`. |
| Loader.BatchAt | tools/import_qso.py:94-95 | Batch `k` is `records[k * size:(k + 1) * size]`. |
| Loader.BatchesFull | tools/import_qso.py:94-95 | Every batch but the last holds exactly `size` records. |
| Loader.TwoHundredFifty | tools/import_qso.py:91-95 | 250 records go in batches of 100, 100 and 50. |
| Loader.Collection.InsertMany | tools/import_qso.py:96 | `insert_many` stores the batch after the earlier ones and reports one id per record. |
| Loader.InsertInBatches | tools/import_qso.py:91-98 | Every record is inserted, in order, in exactly the batches `Batches` describes, and `inserted` ends at the number of records. |
| Loader.Import | tools/import_qso.py:84-102 | With no records, nothing is inserted and "no records" is reported. Otherwise all parsed records are inserted in batches and `inserted` equals the total. |

## Left out

- Reading the file (`open` with `errors='ignore'`): the input is already-decoded text.
- The MongoDB client, database and collection handles, and `client.close()`. The collection is a class that records the batches `insert_many` is given.
- Loader.Collection.InsertMany: a failed write is not modelled. The model's insert always succeeds, so the source's fatal stop after earlier batches is not represented.
- The `print` progress lines: output only.
- Floats: a value that `float()` accepts is kept as its decimal text (`Dec`), not converted to a binary float.
- `float()` also accepts `inf`, `nan` and surrounding whitespace. None of these can hold a `.` in a trimmed value, so the model's float syntax omits them.
- `datetime.utcnow()` is one parameter for the whole run. The source reads the clock once per record, microseconds included.
- Generator laziness: `parse_adif` returns a sequence of records.
- Unicode: `\w`, `\d`, `lower()` and the digits `int()` and `float()` accept are modelled on ASCII only. Python's are Unicode-aware.
- `int()`'s 4300-digit limit.
- `datetime.strptime` is modelled only on the inputs it receives here: 8 characters for `%Y%m%d` and 14 for `%Y%m%d%H%M%S`.
- Key order: a record is a map, so the order in which its keys were inserted, which `insert_many` passes on to the stored document, is not kept. No property here depends on it.
- The hard-coded connection string and file path: configuration.
- ParseLaws.ParseWritten: a record whose last value itself ends in whitespace is not covered. The record's own `strip()` cuts that whitespace, so the scanned field differs from the written one.
