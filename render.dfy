/**
 * Writing fields in ADIF form, `<name:len>value` or `<name:len:t>value`, as the
 * inverse the field scan of `parse_adif` is proved against: scanning the
 * written text gives back the fields it was written from.
 */
module AdifRender {
  import opened Options
  import opened Chars
  import opened Text
  import opened Numbers
  import opened Adif

  /**
   * A field as a writer puts it out: the field, and the optional one-character
   * data type of its tag, as in `<QSO_DATE:8:D>`.
   */
  datatype Entry = Entry(field: RawField, hint: Option<char>)

  /** The fields the entries carry, in order. */
  function Fields(es: seq<Entry>): (fs: seq<RawField>)
    ensures |fs| == |es|
  {
    seq(|es|, k requires 0 <= k < |es| => es[k].field)
  }

  /** The fields of entries: the first entry's, then those of the rest. */
  lemma FieldsFirst(es: seq<Entry>)
    requires es != []
    ensures Fields(es) == [es[0].field] + Fields(es[1..])
  {
    assert Fields(es)[1..] == Fields(es[1..]);
  }

  /** What a writer may put out: a well-formed field, and a data type that is one word character. */
  predicate WellWritten(e: Entry) {
    WellFormed(e.field) && (e.hint.Some? ==> IsWordChar(e.hint.value))
  }

  /** The data-type part of a tag: nothing, or `:` and the type character. */
  function HintText(hint: Option<char>): string {
    match hint
    case None => ""
    case Some(c) => ":" + [c]
  }

  /** The tag of an entry: `<`, the field's name, `:`, its declared length in decimal, the data type if any, `>`. */
  function TagText(e: Entry): string {
    "<" + e.field.name + ":" + NatToDigits(e.field.length) + HintText(e.hint) + ">"
  }

  /** The entries in order, each as its tag followed by its value run. */
  function Render(es: seq<Entry>): string
    decreases |es|
  {
    if es == [] then [] else TagText(es[0]) + es[0].field.raw + Render(es[1..])
  }

  /** A written record starts with the `<` of its first tag, when it has one. */
  lemma RenderStart(es: seq<Entry>)
    requires es != []
    ensures |Render(es)| > 0 && Render(es)[0] == '<'
  {
  }

  /** `ValueEnd` stops at the next `<`, or the end of the text. */
  lemma {:induction false} ValueEndAt(s: string, i: nat, j: nat)
    requires i <= j <= |s|
    requires forall k :: i <= k < j ==> s[k] != '<'
    requires j < |s| ==> s[j] == '<'
    ensures ValueEnd(s, i) == j
    decreases j - i
  {
    if i < j {
      ValueEndAt(s, i + 1, j);
    }
  }

  /**
   * The tag scan reads a written tag back, with or without its data type: its
   * name, its length, and where its value starts; the data type is skipped.
   */
  lemma TagAtRender(e: Entry, rest: string)
    requires WellWritten(e)
    ensures TagAt(TagText(e) + rest) == Some(Tag(e.field.name, e.field.length, |TagText(e)|))
  {
    var t := TagText(e);
    var s := t + rest;
    var n := 1 + |e.field.name|;
    var d := n + 1 + |NatToDigits(e.field.length)|;
    TagTextShape(e);
    assert s[..|t|] == t;
    assert s[1..n] == t[1..n] && s[n + 1..d] == t[n + 1..d];
    TagFound(s, e.field.name, e.field.length, n, d, |t|);
  }

  /** `TagAtShape`, with the name, the length and the value start given up front. */
  lemma TagFound(s: string, name: string, length: nat, n: nat, d: nat, v: nat)
    requires |s| > 0 && s[0] == '<'
    requires 1 < n && n + 1 < d <= |s|
    requires AllWordChars(s[1..n]) && s[n] == ':' && AllDigits(s[n + 1..d])
    requires s[1..n] == name && DigitsValue(s[n + 1..d]) == length
    requires || (v == d + 1 && d < |s| && s[d] == '>')
             || (v == d + 3 && d + 2 < |s| && s[d] == ':' && IsWordChar(s[d + 1]) && s[d + 2] == '>')
    ensures TagAt(s) == Some(Tag(name, length, v))
  {
    TagAtShape(s, n, d);
  }

  /** Where the parts of a written tag sit. */
  lemma TagTextShape(e: Entry)
    requires WellWritten(e)
    ensures var t := TagText(e);
      var n := 1 + |e.field.name|;
      var d := n + 1 + |NatToDigits(e.field.length)|;
      && |t| == d + (if e.hint.Some? then 3 else 1)
      && t[0] == '<' && t[1..n] == e.field.name && t[n] == ':'
      && t[n + 1..d] == NatToDigits(e.field.length)
      && (e.hint.None? ==> t[d] == '>')
      && (e.hint.Some? ==> t[d] == ':' && t[d + 1] == e.hint.value && t[d + 2] == '>')
  {
  }

  /** The field scan takes one written entry's field off the front of the text, when more tags or nothing follow. */
  lemma MatchesStep(e: Entry, rest: string)
    requires WellWritten(e)
    requires rest == [] || rest[0] == '<'
    ensures Matches(TagText(e) + e.field.raw + rest) == [e.field] + Matches(rest)
  {
    var f := e.field;
    var s := TagText(e) + f.raw + rest;
    var start := |TagText(e)|;
    var k := start + |f.raw|;
    assert s == TagText(e) + (f.raw + rest);
    TagAtRender(e, f.raw + rest);
    ValueEndAt(s, start, k);
    assert s[start..k] == f.raw;
    assert s[k..] == rest;
    assert RawField(f.name, f.length, f.raw) == f;
  }

  /** The field scan of written entries gives back their fields, in order: data types are ignored. */
  lemma {:induction false} MatchesRender(es: seq<Entry>)
    requires forall k :: 0 <= k < |es| ==> WellWritten(es[k])
    ensures Matches(Render(es)) == Fields(es)
    decreases |es|
  {
    if es != [] {
      MatchesFirst(es);
      MatchesRender(es[1..]);
      FieldsFirst(es);
    }
  }

  /** The field scan of written entries yields the first field, then the scan of the rest. */
  lemma MatchesFirst(es: seq<Entry>)
    requires es != [] && WellWritten(es[0])
    ensures Matches(Render(es)) == [es[0].field] + Matches(Render(es[1..]))
  {
    if es[1..] != [] {
      RenderStart(es[1..]);
    }
    MatchesStep(es[0], Render(es[1..]));
  }

  /** No `<` stands inside a tag after its first character, nor in a well-formed value. */
  lemma OnlyTagStartIsOpen(e: Entry, rest: string, i: nat)
    requires WellWritten(e)
    requires 0 < i < |TagText(e) + e.field.raw|
    ensures (TagText(e) + e.field.raw + rest)[i] != '<'
  {
    var f := e.field;
    var t := TagText(e);
    var n := 1 + |f.name|;
    var d := n + 1 + |NatToDigits(f.length)|;
    if i < n {
      assert t[i] == f.name[i - 1];
    } else if n < i < d {
      assert t[i] == NatToDigits(f.length)[i - n - 1];
    } else if d <= i < |t| - 1 {
      assert t[i] == HintText(e.hint)[i - d];
    } else if i >= |t| {
      assert (t + f.raw)[i] == f.raw[i - |t|];
    }
  }

  /** A written tag never reads as `<EOR>`: its name ends in `:`, where `<EOR>` has `o`, `r` or `>`. */
  lemma TagIsNotEor(e: Entry, rest: string)
    requires WellWritten(e)
    ensures !MatchAt(TagText(e) + rest, 0, EOR)
  {
    var f := e.field;
    var s := TagText(e) + rest;
    var p := 1 + |f.name|;
    assert |s| >= 5;
    var low := Lower(s[0..5]);
    if p <= 4 {
      assert s[p] == ':';
      assert low[p] == ':';
      assert low[p] != EOR[p];
    } else {
      assert s[4] == f.name[3];
      assert IsWordChar(low[4]);
      assert low[4] != EOR[4];
    }
  }

  /** One written entry in front of text without `<EOR>` adds no `<EOR>` at any position. */
  lemma NoEorAt(e: Entry, rest: string, i: nat)
    requires WellWritten(e) && !Occurs(rest, EOR)
    requires i <= |TagText(e) + e.field.raw + rest|
    ensures !MatchAt(TagText(e) + e.field.raw + rest, i, EOR)
  {
    var front := TagText(e) + e.field.raw;
    var s := front + rest;
    if i == 0 {
      assert s == TagText(e) + (e.field.raw + rest);
      TagIsNotEor(e, e.field.raw + rest);
    } else if i < |front| {
      OnlyTagStartIsOpen(e, rest, i);
      if i + 5 <= |s| {
        assert Lower(s[i..i + 5])[0] == ToLower(s[i]);
      }
    } else if i + 5 <= |s| {
      assert s[i..i + 5] == rest[i - |front|..i - |front| + 5];
      assert !MatchAt(rest, i - |front|, EOR);
    }
  }

  /** Written entries hold no `<EOR>` in any case, so splitting on `<EOR>` keeps them whole. */
  lemma {:induction false} RenderNoEor(es: seq<Entry>)
    requires forall k :: 0 <= k < |es| ==> WellWritten(es[k])
    ensures !Occurs(Render(es), EOR)
    decreases |es|
  {
    if es != [] {
      RenderNoEor(es[1..]);
      assert Render(es) == TagText(es[0]) + es[0].field.raw + Render(es[1..]);
      forall i | 0 <= i <= |Render(es)|
        ensures !MatchAt(Render(es), i, EOR)
      {
        NoEorAt(es[0], Render(es[1..]), i);
      }
    }
  }

  /** The last character of written entries: the end of the last value, or the `>` of the last tag. */
  lemma {:induction false} RenderEnd(es: seq<Entry>)
    requires es != []
    ensures |Render(es)| > 0
    ensures var last := es[|es| - 1].field;
      Render(es)[|Render(es)| - 1] == if last.raw == [] then '>' else last.raw[|last.raw| - 1]
    decreases |es|
  {
    var front := TagText(es[0]) + es[0].field.raw;
    var rest := Render(es[1..]);
    assert Render(es) == front + rest;
    if |es| == 1 {
      assert rest == [];
      assert front + rest == front;
      EntryEnd(es[0]);
    } else {
      RenderEnd(es[1..]);
      assert es[1..][|es[1..]| - 1] == es[|es| - 1];
      LastOfAppend(front, rest);
    }
  }

  /** The last character of one written entry: the end of its value, or the `>` of its tag. */
  lemma EntryEnd(e: Entry)
    ensures var t := TagText(e) + e.field.raw;
      |t| > 0 && t[|t| - 1] == if e.field.raw == [] then '>' else e.field.raw[|e.field.raw| - 1]
  {
  }

  /** The last character of `a + b`, for a non-empty `b`, is that of `b`. */
  lemma LastOfAppend(a: string, b: string)
    requires b != []
    ensures (a + b)[|a + b| - 1] == b[|b| - 1]
  {
  }
}
