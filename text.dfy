/**
 * The string operations `parse_adif` takes from Python's library:
 * `str.strip()`, a case-insensitive `re.search` of a fixed marker and
 * `re.split` on that marker.
 */
module Text {
  import opened Options
  import opened Chars

  /** The first index at or after `i` that does not hold whitespace, or `|s|`. */
  function SkipSpaces(s: string, i: nat): (j: nat)
    requires i <= |s|
    ensures i <= j <= |s|
    ensures forall k :: i <= k < j ==> IsSpace(s[k])
    ensures j < |s| ==> !IsSpace(s[j])
    decreases |s| - i
  {
    if i < |s| && IsSpace(s[i]) then SkipSpaces(s, i + 1) else i
  }

  /** The smallest index `i <= j` such that `s[i..j]` is all whitespace. */
  function SkipSpacesBack(s: string, j: nat): (i: nat)
    requires j <= |s|
    ensures i <= j
    ensures forall k :: i <= k < j ==> IsSpace(s[k])
    ensures i > 0 ==> !IsSpace(s[i - 1])
    decreases j
  {
    if j > 0 && IsSpace(s[j - 1]) then SkipSpacesBack(s, j - 1) else j
  }

  /**
   * Python's `str.strip()`: the longest slice of `s` that neither starts nor ends
   * with whitespace, once all leading and trailing whitespace is cut off.
   */
  function Strip(s: string): (r: string)
    ensures |r| <= |s|
  {
    var i := SkipSpaces(s, 0);
    var j := SkipSpacesBack(s, |s|);
    if i < j then s[i..j] else []
  }

  /**
   * What `strip()` leaves: nothing exactly when `s` is all whitespace, otherwise
   * the slice of `s` after its leading whitespace that neither starts nor ends
   * with whitespace and has only whitespace after it.
   */
  lemma StripMeaning(s: string)
    ensures var r := Strip(s);
      && (r == [] <==> forall k :: 0 <= k < |s| ==> IsSpace(s[k]))
      && (r != [] ==> !IsSpace(r[0]) && !IsSpace(r[|r| - 1]))
      && SkipSpaces(s, 0) + |r| <= |s|
      && r == s[SkipSpaces(s, 0)..SkipSpaces(s, 0) + |r|]
      && forall k :: SkipSpaces(s, 0) + |r| <= k < |s| ==> IsSpace(s[k])
  {
  }

  /** `s` holds `pat` at index `i` when case is ignored (`pat` is written in lower case). */
  predicate MatchAt(s: string, i: nat, pat: string) {
    i + |pat| <= |s| && Lower(s[i..i + |pat|]) == pat
  }

  /** `pat` occurs somewhere in `s`, case ignored. */
  predicate Occurs(s: string, pat: string) {
    exists k :: 0 <= k <= |s| && MatchAt(s, k, pat)
  }

  /** `re.search(pat, s[from..], re.IGNORECASE)`: the first case-insensitive occurrence at or after `from`. */
  function Find(s: string, pat: string, from: nat): (r: Option<nat>)
    requires from <= |s|
    ensures r.Some? ==> from <= r.value && MatchAt(s, r.value, pat)
    ensures r.Some? ==> forall k :: from <= k < r.value ==> !MatchAt(s, k, pat)
    ensures r.None? ==> forall k :: from <= k <= |s| ==> !MatchAt(s, k, pat)
    decreases |s| - from
  {
    if from + |pat| > |s| then None
    else if MatchAt(s, from, pat) then Some(from)
    else Find(s, pat, from + 1)
  }

  /** `re.split(pat, s, flags=re.IGNORECASE)`: the pieces between case-insensitive occurrences of `pat`. */
  function Split(s: string, pat: string): (r: seq<string>)
    requires |pat| > 0
    ensures |r| >= 1
    ensures forall k :: 0 <= k < |r| ==> !Occurs(r[k], pat)
    decreases |s|
  {
    match Find(s, pat, 0)
    case None => [s]
    case Some(i) =>
      PrefixKeepsNoMatch(s, i, pat);
      [s[..i]] + Split(s[i + |pat|..], pat)
  }

  /** The markers `re.split` cuts out of `s`, as they are spelled there. */
  function Separators(s: string, pat: string): (seps: seq<string>)
    requires |pat| > 0
    ensures |seps| == |Split(s, pat)| - 1
    ensures forall k :: 0 <= k < |seps| ==> Lower(seps[k]) == pat
    decreases |s|
  {
    match Find(s, pat, 0)
    case None => []
    case Some(i) => [s[i..i + |pat|]] + Separators(s[i + |pat|..], pat)
  }

  /** The pieces `ss` with `seps[k]` between pieces `k` and `k + 1`. */
  function Join(ss: seq<string>, seps: seq<string>): string
    requires |ss| >= 1 && |seps| == |ss| - 1
    decreases |ss|
  {
    if |ss| == 1 then ss[0] else ss[0] + seps[0] + Join(ss[1..], seps[1..])
  }

  /** A marker such as `<eoh>` or `<eor>`: it starts with `<` and holds no other `<`. */
  predicate IsMarker(pat: string) {
    |pat| > 0 && pat[0] == '<' && forall j :: 1 <= j < |pat| ==> pat[j] != '<'
  }

  lemma PrefixKeepsNoMatch(s: string, i: nat, pat: string)
    requires i <= |s| && |pat| > 0
    requires forall k :: 0 <= k < i ==> !MatchAt(s, k, pat)
    ensures !Occurs(s[..i], pat)
  {
    forall k | 0 <= k <= i && MatchAt(s[..i], k, pat)
      ensures false
    {
      assert s[..i][k..k + |pat|] == s[k..k + |pat|];
      assert MatchAt(s, k, pat);
    }
  }

  /**
   * In `a + m + b`, where `a` holds no marker and `m` is the marker in any case,
   * the first occurrence is `m` itself: no occurrence can straddle the seam.
   */
  lemma {:induction false} FindAtSeam(a: string, m: string, b: string, pat: string)
    requires IsMarker(pat) && Lower(m) == pat
    requires !Occurs(a, pat)
    ensures Find(a + m + b, pat, 0) == Some(|a|)
  {
    var s := a + m + b;
    assert s[|a|..|a| + |pat|] == m;
    assert MatchAt(s, |a|, pat);
    forall k | 0 <= k < |a|
      ensures !MatchAt(s, k, pat)
    {
      if k + |pat| <= |a| {
        assert s[k..k + |pat|] == a[k..k + |pat|];
        assert !MatchAt(a, k, pat);
      } else if k + |pat| <= |s| {
        var j := |a| - k;
        assert s[|a|] == m[0];
        assert Lower(s[k..k + |pat|])[j] == ToLower(m[0]) == Lower(m)[0] == '<';
        assert pat[j] != '<';
      }
    }
    match Find(s, pat, 0)
    case None =>
    case Some(v) =>
  }

  /**
   * Splitting pieces without the marker, joined by the marker spelled in any
   * case at each joint (not necessarily the same way twice), gives the pieces back.
   */
  lemma {:induction false} SplitJoin(ss: seq<string>, seps: seq<string>, pat: string)
    requires |ss| >= 1 && |seps| == |ss| - 1
    requires IsMarker(pat) && forall k :: 0 <= k < |seps| ==> Lower(seps[k]) == pat
    requires forall k :: 0 <= k < |ss| ==> !Occurs(ss[k], pat)
    ensures Split(Join(ss, seps), pat) == ss
    decreases |ss|
  {
    if |ss| == 1 {
      match Find(ss[0], pat, 0)
      case None =>
      case Some(v) => assert false;
    } else {
      var sep := seps[0];
      var rest := Join(ss[1..], seps[1..]);
      assert Lower(sep) == pat;
      FindAtSeam(ss[0], sep, rest, pat);
      var s := ss[0] + sep + rest;
      assert |sep| == |pat|;
      assert s[..|ss[0]|] == ss[0];
      assert s[|ss[0]| + |pat|..] == rest;
      SplitJoin(ss[1..], seps[1..], pat);
      assert ss == [ss[0]] + ss[1..];
    }
  }

  /** The pieces of `re.split` are the text between the markers: joined by the markers cut out, they give `s` back. */
  lemma {:induction false} JoinSplit(s: string, pat: string)
    requires |pat| > 0
    ensures Join(Split(s, pat), Separators(s, pat)) == s
    decreases |s|
  {
    match Find(s, pat, 0)
    case None =>
    case Some(i) =>
      var rest := s[i + |pat|..];
      var pieces, seps := SplitStep(s, pat, i);
      JoinSplit(rest, pat);
      JoinFirst(pieces, seps);
      assert s == s[..i] + s[i..i + |pat|] + rest;
  }

  /** One cut of `re.split`: the text before the first marker, then the pieces of the rest. */
  lemma SplitStep(s: string, pat: string, i: nat) returns (pieces: seq<string>, seps: seq<string>)
    requires |pat| > 0 && Find(s, pat, 0) == Some(i)
    ensures pieces == Split(s, pat) && seps == Separators(s, pat)
    ensures |pieces| >= 2 && |seps| == |pieces| - 1
    ensures pieces[0] == s[..i] && pieces[1..] == Split(s[i + |pat|..], pat)
    ensures seps[0] == s[i..i + |pat|] && seps[1..] == Separators(s[i + |pat|..], pat)
  {
    pieces := Split(s, pat);
    seps := Separators(s, pat);
    assert pieces == [s[..i]] + Split(s[i + |pat|..], pat);
    assert seps == [s[i..i + |pat|]] + Separators(s[i + |pat|..], pat);
  }

  /** Joining two or more pieces: the first, its separator, then the rest joined. */
  lemma JoinFirst(ss: seq<string>, seps: seq<string>)
    requires |ss| >= 2 && |seps| == |ss| - 1
    ensures Join(ss, seps) == ss[0] + seps[0] + Join(ss[1..], seps[1..])
  {
  }

  /** `SkipSpaces` stops at the first character after a run of whitespace. */
  lemma {:induction false} SkipSpacesAt(s: string, i: nat, j: nat)
    requires i <= j <= |s|
    requires forall k :: i <= k < j ==> IsSpace(s[k])
    requires j < |s| ==> !IsSpace(s[j])
    ensures SkipSpaces(s, i) == j
    decreases j - i
  {
    if i < j {
      SkipSpacesAt(s, i + 1, j);
    }
  }

  /** `SkipSpacesBack` stops just after the last character before a run of whitespace. */
  lemma {:induction false} SkipSpacesBackAt(s: string, i: nat, j: nat)
    requires i <= j <= |s|
    requires forall k :: i <= k < j ==> IsSpace(s[k])
    requires i > 0 ==> !IsSpace(s[i - 1])
    ensures SkipSpacesBack(s, j) == i
    decreases j - i
  {
    if i < j {
      SkipSpacesBackAt(s, i, j - 1);
    }
  }

  /** `strip()` removes exactly the whitespace around a text that neither starts nor ends with whitespace. */
  lemma StripAround(a: string, t: string, b: string)
    requires AllSpace(a) && AllSpace(b)
    requires t != [] && !IsSpace(t[0]) && !IsSpace(t[|t| - 1])
    ensures Strip(a + t + b) == t
  {
    var s := a + t + b;
    SkipSpacesAt(s, 0, |a|);
    SkipSpacesBackAt(s, |a| + |t|, |s|);
    assert s[|a|..|a| + |t|] == t;
  }

  /** Whitespace around a text adds no occurrence of a marker that holds no whitespace. */
  lemma SpacesKeepNoMatch(a: string, t: string, b: string, pat: string)
    requires AllSpace(a) && AllSpace(b) && |pat| > 0
    requires forall j :: 0 <= j < |pat| ==> !IsSpace(pat[j])
    requires !Occurs(t, pat)
    ensures !Occurs(a + t + b, pat)
  {
    var s := a + t + b;
    forall k | 0 <= k <= |s|
      ensures !MatchAt(s, k, pat)
    {
      if k + |pat| <= |s| {
        var w := Lower(s[k..k + |pat|]);
        if k < |a| {
          assert s[k] == a[k];
          assert w[0] != pat[0];
        } else if k + |pat| <= |a| + |t| {
          assert s[k..k + |pat|] == t[k - |a|..k - |a| + |pat|];
          assert !MatchAt(t, k - |a|, pat);
        } else {
          var p := if k >= |a| + |t| then k else |a| + |t|;
          assert s[p] == b[p - |a| - |t|];
          assert w[p - k] != pat[p - k];
        }
      }
    }
  }

  /** Stripping is idempotent. */
  lemma StripIdempotent(s: string)
    ensures Strip(Strip(s)) == Strip(s)
  {
    var r := Strip(s);
    if r != [] {
      assert SkipSpaces(r, 0) == 0;
    }
  }

  /** A string without whitespace at either end is its own strip. */
  lemma StripUnchanged(s: string)
    requires s == [] || (!IsSpace(s[0]) && !IsSpace(s[|s| - 1]))
    ensures Strip(s) == s
  {
    if s != [] {
      assert SkipSpaces(s, 0) == 0;
      assert !IsSpace(s[|s| - 1]);
    }
  }
}
