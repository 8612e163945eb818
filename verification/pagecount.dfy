/**
 The two page-count heuristics. The server reads the viewer's "page X of N"
 counter and turns the count into a scroll budget; it yields 0 when it finds
 nothing. The standalone script defines a second heuristic, the largest
 `page=<n>` among the viewer image sources on the page, but its only call
 (index.js line 72) is commented out, so it never affects a run of the
 script; it is modelled as written.
 */
module PageCount {
  import opened Wrappers
  import opened Text
  import Interceptor

  // ---------------------------------------------------------------------------
  // Digit runs as the regular expressions see them
  // ---------------------------------------------------------------------------

  /** A maximal run of digits starts at `m`. */
  predicate RunStart(t: string, m: nat) {
    m < |t| && IsDigit(t[m]) && (m == 0 || !IsDigit(t[m - 1]))
  }

  /** The value of the digit run that starts at `m`. */
  function RunValue(t: string, m: nat): nat
    requires m <= |t|
  {
    var e := RunEnd(t, m);
    assert AllDigits(t[m..e]) by {
      assert forall k | 0 <= k < e - m :: t[m..e][k] == t[m + k];
    }
    ParseDigits(t[m..e])
  }

  /** The leftmost digit at or after `from`: where `/\d+/` matches. */
  function FindDigit(t: string, from: nat): (r: Option<nat>)
    ensures r.Some? ==> from <= r.value < |t| && IsDigit(t[r.value])
    ensures forall k | from <= k < |t| && (r.None? || k < r.value) :: !IsDigit(t[k])
    decreases |t| - from
  {
    if from >= |t| then None
    else if IsDigit(t[from]) then Some(from)
    else FindDigit(t, from + 1)
  }

  /** The characters the case-insensitive pattern `of` accepts. */
  predicate IsLetterO(c: char) {
    c == 'o' || c == 'O'
  }

  predicate IsLetterF(c: char) {
    c == 'f' || c == 'F'
  }

  /**
   `/(\d+)\s*of\s*(\d+)/i` tried at index `i`: the start of the second digit
   run when the pattern matches there. The greedy `\d+` and `\s*` never need to
   give characters back, since a shorter run would be followed by another
   digit or white-space character.
   */
  function OfMatchAt(t: string, i: nat): (r: Option<nat>)
    ensures r.Some? ==> RunStart(t, r.value)
  {
    if i < |t| && IsDigit(t[i]) then
      var k := SkipSpaces(t, RunEnd(t, i));
      if k + 2 <= |t| && IsLetterO(t[k]) && IsLetterF(t[k + 1]) then
        var m := SkipSpaces(t, k + 2);
        if m < |t| && IsDigit(t[m]) then Some(m) else None
      else None
    else None
  }

  /** The leftmost index at or after `from` where the "X of N" pattern matches. */
  function FindOfMatch(t: string, from: nat): (r: Option<nat>)
    ensures r.Some? ==> from <= r.value && OfMatchAt(t, r.value).Some?
    ensures forall k: nat | from <= k && (r.None? || k < r.value) :: OfMatchAt(t, k).None?
    decreases |t| - from
  {
    if from >= |t| then None
    else if OfMatchAt(t, from).Some? then Some(from)
    else FindOfMatch(t, from + 1)
  }

  /**
   The page-counter text as the server reads it: after trimming, the total N
   of the leftmost "X of N", else the leftmost number, else 0.
   */
  function ParseIndicator(text: string): nat {
    var t := Trim(text);
    match FindOfMatch(t, 0)
    case Some(i) => RunValue(t, OfMatchAt(t, i).value)
    case None =>
      match FindDigit(t, 0)
      case Some(i) => RunValue(t, i)
      case None => 0
  }

  /** What the server's page-count probe observes in the viewer. */
  datatype Probe =
    | CounterTimedOut                     // the counter element did not appear within 10 s
    | EvaluationFailed                    // the in-page script threw
    | Evaluated(counter: Option<string>)  // the counter's text, or None when the element is gone

  /** The server's page count: a parse of the counter text, 0 on every error path. */
  function CountTotalPages(probe: Probe): nat {
    match probe
    case Evaluated(Some(text)) => ParseIndicator(text)
    case _ => 0
  }

  // ---------------------------------------------------------------------------
  // Properties of the server's heuristic
  // ---------------------------------------------------------------------------

  /** White space is never a digit. */
  lemma SpaceIsNotDigit(c: char)
    requires IsSpace(c)
    ensures !IsDigit(c)
  {
  }

  /** A digit run of a slice bounded by non-digits is a digit run of the whole text. */
  lemma {:induction false} SliceKeepsRuns(text: string, a: nat, b: nat, m: nat)
    requires a <= b <= |text|
    requires a == 0 || !IsDigit(text[a - 1])
    requires b == |text| || !IsDigit(text[b])
    requires RunStart(text[a..b], m)
    ensures RunStart(text, a + m)
    ensures RunValue(text, a + m) == RunValue(text[a..b], m)
  {
    var t := text[a..b];
    var e := RunEnd(t, m);
    assert text[a + m] == t[m];
    if m > 0 {
      assert text[a + m - 1] == t[m - 1];
    }
    forall k | a + m <= k < a + e
      ensures IsDigit(text[k])
    {
      assert text[k] == t[k - a];
    }
    if e < |t| {
      assert text[a + e] == t[e];
    }
    RunEndUnique(text, a + m, a + e);
    assert forall k | 0 <= k < e - m :: text[a + m..a + e][k] == t[m..e][k] by {
      forall k | 0 <= k < e - m
        ensures text[a + m..a + e][k] == t[m..e][k]
      {
        assert text[a + m..a + e][k] == text[a + m + k];
        assert t[m..e][k] == t[m + k];
      }
    }
    assert text[a + m..a + e] == t[m..e];
  }

  /** A digit run of the trimmed text is a digit run of the original text. */
  lemma {:induction false} TrimKeepsRuns(text: string, m: nat)
    requires RunStart(Trim(text), m)
    ensures RunStart(text, TrimStart(text) + m)
    ensures RunValue(text, TrimStart(text) + m) == RunValue(Trim(text), m)
  {
    var a, b := TrimStart(text), TrimEnd(text);
    if a > 0 {
      SpaceIsNotDigit(text[a - 1]);
    }
    if b < |text| {
      SpaceIsNotDigit(text[b]);
    }
    SliceKeepsRuns(text, a, b, m);
  }

  /**
   The server's count is always a number written in the counter text, as a
   whole digit run, or 0: it never invents a value.
   */
  lemma {:induction false} ParseIndicatorReadsWrittenNumber(text: string)
    ensures var r := ParseIndicator(text);
            r == 0 || exists m: nat :: RunStart(text, m) && RunValue(text, m) == r
  {
    var t := Trim(text);
    match FindOfMatch(t, 0)
    case Some(i) =>
      TrimKeepsRuns(text, OfMatchAt(t, i).value);
    case None =>
      match FindDigit(t, 0)
      case Some(i) =>
        assert RunStart(t, i) by {
          if i > 0 {
            assert !IsDigit(t[i - 1]);
          }
        }
        TrimKeepsRuns(text, i);
      case None =>
  }

  /** A counter text without digits yields 0. */
  lemma {:induction false} ParseIndicatorNoDigits(text: string)
    requires forall k | 0 <= k < |text| :: !IsDigit(text[k])
    ensures ParseIndicator(text) == 0
  {
    ParseIndicatorReadsWrittenNumber(text);
  }

  /** Trimming a text that starts and ends with non-space characters changes nothing. */
  lemma {:induction false} TrimUnchanged(t: string)
    requires |t| > 0 && !IsSpace(t[0]) && !IsSpace(t[|t| - 1])
    ensures Trim(t) == t
  {
  }

  /** The "X of N" pattern read off a text of the shape `<digits> of <digits>`. */
  lemma {:induction false} OfMatchOfShape(t: string, la: nat)
    requires 1 <= la && la + 4 < |t|
    requires forall k | 0 <= k < la :: IsDigit(t[k])
    requires t[la] == ' ' && t[la + 1] == 'o' && t[la + 2] == 'f' && t[la + 3] == ' '
    requires forall k | la + 4 <= k < |t| :: IsDigit(t[k])
    ensures OfMatchAt(t, 0) == Some(la + 4)
    ensures RunEnd(t, la + 4) == |t|
  {
    RunEndUnique(t, 0, la);
    SkipSpacesUnique(t, la, la + 1);
    SkipSpacesUnique(t, la + 3, la + 4);
    RunEndUnique(t, la + 4, |t|);
  }

  /** "a of b" yields the total `b`. */
  lemma {:induction false} ParseIndicatorOf(a: nat, b: nat)
    ensures ParseIndicator(ShowNat(a) + " of " + ShowNat(b)) == b
  {
    var sa, sb := ShowNat(a), ShowNat(b);
    var t := sa + " of " + sb;
    OfTextShape(sa, sb);
    TrimUnchanged(t);
    OfMatchOfShape(t, |sa|);
    assert FindOfMatch(t, 0) == Some(0);
    ParseShowNat(b);
    assert ParseIndicator(t) == RunValue(t, |sa| + 4);
  }

  /** The characters of `<digits> of <digits>`, located. */
  lemma OfTextShape(sa: string, sb: string)
    requires |sa| >= 1 && AllDigits(sa) && |sb| >= 1 && AllDigits(sb)
    ensures var t := sa + " of " + sb;
            && |t| == |sa| + 4 + |sb|
            && !IsSpace(t[0]) && !IsSpace(t[|t| - 1])
            && (forall k | 0 <= k < |sa| :: IsDigit(t[k]))
            && t[|sa|] == ' ' && t[|sa| + 1] == 'o' && t[|sa| + 2] == 'f' && t[|sa| + 3] == ' '
            && (forall k | |sa| + 4 <= k < |t| :: IsDigit(t[k]))
            && t[|sa| + 4..|t|] == sb
  {
    var t := sa + " of " + sb;
    assert forall k | 0 <= k < |sa| :: t[k] == sa[k];
    assert forall k | |sa| + 4 <= k < |t| :: t[k] == sb[k - (|sa| + 4)];
    assert t[0] == sa[0] && t[|t| - 1] == sb[|sb| - 1];
  }

  /** Without a letter `o` the "X of N" pattern matches nowhere. */
  lemma {:induction false} NoOfMatchWithoutO(t: string)
    requires forall k | 0 <= k < |t| :: !IsLetterO(t[k])
    ensures forall i: nat :: OfMatchAt(t, i).None?
    ensures FindOfMatch(t, 0).None?
  {
    forall i: nat
      ensures OfMatchAt(t, i).None?
    {
      if i < |t| && IsDigit(t[i]) {
        var k := SkipSpaces(t, RunEnd(t, i));
        if k + 2 <= |t| {
          assert !IsLetterO(t[k]);
        }
      }
    }
  }

  /**
   When the "X of N" pattern matches nowhere in the trimmed counter text, the
   count is the text's leftmost number: the fallback of the heuristic.
   */
  lemma {:induction false} ParseIndicatorFallback(text: string, m: nat)
    requires forall i: nat :: OfMatchAt(Trim(text), i).None?
    requires RunStart(text, m)
    requires forall k | 0 <= k < m :: !IsDigit(text[k])
    ensures ParseIndicator(text) == RunValue(text, m)
  {
    var a := TrimStart(text);
    var t := Trim(text);
    FallbackInTrimmed(text, m);
    assert FindOfMatch(t, 0).None?;
    TrimKeepsRuns(text, m - a);
    assert ParseIndicator(text) == RunValue(t, m - a);
  }

  /** Where the leftmost number of a text sits once the text is trimmed. */
  lemma {:induction false} FallbackInTrimmed(text: string, m: nat)
    requires RunStart(text, m)
    requires forall k | 0 <= k < m :: !IsDigit(text[k])
    ensures TrimStart(text) <= m
    ensures RunStart(Trim(text), m - TrimStart(text))
    ensures FindDigit(Trim(text), 0) == Some(m - TrimStart(text))
  {
    var a, b := TrimStart(text), TrimEnd(text);
    var t := Trim(text);
    assert a <= m < b by {
      if m < a || m >= b {
        SpaceIsNotDigit(text[m]);
      }
    }
    assert t == text[a..b];
    assert forall k | 0 <= k < |t| :: t[k] == text[a + k];
    assert RunStart(t, m - a) by {
      assert t[m - a] == text[m];
      if m - a > 0 {
        assert t[m - a - 1] == text[m - 1];
      }
    }
    forall k | 0 <= k < m - a
      ensures !IsDigit(t[k])
    {
      assert t[k] == text[a + k];
    }
  }

  /**
   The characters of an "X of N" match laid out from index `i`: a digit run up
   to `i1`, white space up to `o1`, the letters o and f in either case, white
   space up to `j`, and the digit run `[j, e)` that ends the number N.
   */
  predicate OfLayout(t: string, i: nat, i1: nat, o1: nat, j: nat, e: nat) {
    && i < i1 <= o1 && o1 + 2 <= j < e <= |t|
    && (forall k | i <= k < i1 :: IsDigit(t[k]))
    && (forall k | i1 <= k < o1 :: IsSpace(t[k]))
    && IsLetterO(t[o1]) && IsLetterF(t[o1 + 1])
    && (forall k | o1 + 2 <= k < j :: IsSpace(t[k]))
    && (forall k | j <= k < e :: IsDigit(t[k]))
    && (e == |t| || !IsDigit(t[e]))
  }

  /** The pattern matches at the start of such a layout, with N starting at `j`. */
  lemma {:induction false} OfMatchAtLayout(t: string, i: nat, i1: nat, o1: nat, j: nat, e: nat)
    requires OfLayout(t, i, i1, o1, j, e)
    ensures OfMatchAt(t, i) == Some(j)
  {
    assert !IsDigit(t[i1]) by {
      if i1 < o1 {
        SpaceIsNotDigit(t[i1]);
      }
    }
    RunEndUnique(t, i, i1);
    SkipSpacesUnique(t, i1, o1);
    SkipSpacesUnique(t, o1 + 2, j);
  }

  /** Every match of the pattern is such a layout: the converse of `OfMatchAtLayout`. */
  lemma OfMatchIsLayout(t: string, i: nat)
    requires OfMatchAt(t, i).Some?
    ensures var i1 := RunEnd(t, i);
            var j := OfMatchAt(t, i).value;
            OfLayout(t, i, i1, SkipSpaces(t, i1), j, RunEnd(t, j))
  {
  }

  /** `OfMatchIsLayout` with the layout's indices named. */
  lemma MatchLayout(t: string, i: nat, i1: nat, o1: nat, j: nat, e: nat)
    requires i < |t| && i1 == RunEnd(t, i) && o1 == SkipSpaces(t, i1)
    requires OfMatchAt(t, i) == Some(j) && j < |t| && e == RunEnd(t, j)
    ensures OfLayout(t, i, i1, o1, j, e)
  {
  }

  /** A layout in a slice that no digit follows is a layout of the whole text. */
  lemma {:induction false} SliceKeepsLayout(text: string, a: nat, b: nat,
                                            i: nat, i1: nat, o1: nat, j: nat, e: nat)
    requires a <= b <= |text| && (b == |text| || !IsDigit(text[b]))
    requires OfLayout(text[a..b], i, i1, o1, j, e)
    ensures OfLayout(text, a + i, a + i1, a + o1, a + j, a + e)
  {
    var t := text[a..b];
    forall k | a + i <= k < a + e
      ensures text[k] == t[k - a]
    {
    }
    if e < |t| {
      assert t[e] == text[a + e];
    }
  }

  /** Trimming keeps such a layout, shifted by the leading white space removed. */
  lemma {:induction false} TrimKeepsLayout(text: string, i: nat, i1: nat, o1: nat, j: nat, e: nat)
    requires OfLayout(text, i, i1, o1, j, e)
    ensures TrimStart(text) <= i && e <= TrimEnd(text)
    ensures var a := TrimStart(text);
            OfLayout(Trim(text), i - a, i1 - a, o1 - a, j - a, e - a)
  {
    var a, b := TrimStart(text), TrimEnd(text);
    var t := Trim(text);
    assert a <= i by {
      if i < a {
        SpaceIsNotDigit(text[i]);
      }
    }
    assert e <= b by {
      if b < e {
        SpaceIsNotDigit(text[e - 1]);
      }
    }
    assert t == text[a..b];
    assert forall k | 0 <= k < |t| :: t[k] == text[a + k];
    if e < b {
      assert t[e - a] == text[e];
    }
    assert t[o1 - a] == text[o1] && t[o1 + 1 - a] == text[o1 + 1];
  }

  /**
   The count is N for every counter text whose leftmost "X of N" match is the
   layout at `i`: any text before it in which the pattern does not match, any
   white space around the word, either letter case, and any text after N.
   */
  lemma {:induction false} ParseIndicatorReadsTotal(text: string, i: nat, i1: nat, o1: nat,
                                                    j: nat, e: nat)
    requires OfLayout(text, i, i1, o1, j, e)
    requires forall k: nat | k < i :: OfMatchAt(text, k).None?
    ensures ParseIndicator(text) == RunValue(text, j)
    ensures AllDigits(text[j..e]) && ParseIndicator(text) == ParseDigits(text[j..e])
  {
    var i', j' := TrimmedLeftmostMatch(text, i, i1, o1, j, e);
    ParseIndicatorAtMatch(text, i', j');
    TrimRunValue(text, j, j');
    RunEndUnique(text, j, e);
  }

  /** The layout, shifted by trimming, is the leftmost match of the trimmed text. */
  lemma TrimmedLeftmostMatch(text: string, i: nat, i1: nat, o1: nat, j: nat, e: nat)
      returns (i': nat, j': nat)
    requires OfLayout(text, i, i1, o1, j, e)
    requires forall k: nat | k < i :: OfMatchAt(text, k).None?
    ensures i' + TrimStart(text) == i && j' + TrimStart(text) == j
    ensures FindOfMatch(Trim(text), 0) == Some(i')
    ensures OfMatchAt(Trim(text), i') == Some(j') && RunStart(Trim(text), j')
  {
    var a, t := TrimStart(text), Trim(text);
    assert a <= i && e <= TrimEnd(text) by {
      TrimKeepsLayout(text, i, i1, o1, j, e);
    }
    var i1', o1', e';
    i', i1', o1', j', e' := i - a, i1 - a, o1 - a, j - a, e - a;
    assert OfLayout(t, i', i1', o1', j', e') && forall k: nat | k < i' :: OfMatchAt(t, k).None? by {
      TrimKeepsLayout(text, i, i1, o1, j, e);
      TrimKeepsNoMatch(text, i);
    }
    LeftmostOfMatch(t, i', i1', o1', j', e');
  }

  /** Trimming keeps a match of the pattern, shifted by the leading white space removed. */
  lemma TrimKeepsMatch(text: string, k: nat, k': nat)
    requires k' == TrimStart(text) + k
    ensures OfMatchAt(Trim(text), k).Some? ==> OfMatchAt(text, k').Some?
  {
    var a, b := TrimStart(text), TrimEnd(text);
    if OfMatchAt(Trim(text), k).Some? {
      if b < |text| {
        SpaceIsNotDigit(text[b]);
      }
      SliceKeepsMatch(text, a, b, k, k');
    }
  }

  /** A match in a slice that no digit follows is a match in the whole text. */
  lemma SliceKeepsMatch(text: string, a: nat, b: nat, k: nat, k': nat)
    requires a <= b <= |text| && (b == |text| || !IsDigit(text[b]))
    requires OfMatchAt(text[a..b], k).Some? && k' == a + k
    ensures OfMatchAt(text, k').Some?
  {
    var t := text[a..b];
    var i1 := RunEnd(t, k);
    var o1 := SkipSpaces(t, i1);
    var j := OfMatchAt(t, k).value;
    var e := RunEnd(t, j);
    MatchLayout(t, k, i1, o1, j, e);
    SliceKeepsLayout(text, a, b, k, i1, o1, j, e);
    OfMatchAtLayout(text, k', a + i1, a + o1, a + j, a + e);
  }

  /** Where the pattern matches nowhere before `i`, trimming adds no match before it. */
  lemma TrimKeepsNoMatch(text: string, i: nat)
    requires TrimStart(text) <= i
    requires forall k: nat | k < i :: OfMatchAt(text, k).None?
    ensures forall k: nat | k < i - TrimStart(text) :: OfMatchAt(Trim(text), k).None?
  {
    forall k: nat | k < i - TrimStart(text)
      ensures OfMatchAt(Trim(text), k).None?
    {
      TrimKeepsMatch(text, k, TrimStart(text) + k);
    }
  }

  /** `TrimKeepsRuns` at an index of the text itself. */
  lemma TrimRunValue(text: string, j: nat, j': nat)
    requires j' + TrimStart(text) == j && RunStart(Trim(text), j')
    ensures RunValue(text, j) == RunValue(Trim(text), j')
  {
    TrimKeepsRuns(text, j');
  }

  /** The count read off the leftmost match of the trimmed text. */
  lemma ParseIndicatorAtMatch(text: string, i: nat, j: nat)
    requires FindOfMatch(Trim(text), 0) == Some(i) && OfMatchAt(Trim(text), i) == Some(j)
    ensures ParseIndicator(text) == RunValue(Trim(text), j)
  {
  }

  /** With no match before it, the layout is the leftmost match. */
  lemma {:induction false} LeftmostOfMatch(t: string, i: nat, i1: nat, o1: nat, j: nat, e: nat)
    requires OfLayout(t, i, i1, o1, j, e)
    requires forall k: nat | k < i :: OfMatchAt(t, k).None?
    ensures FindOfMatch(t, 0) == Some(i)
    ensures OfMatchAt(t, i) == Some(j) && RunStart(t, j)
  {
    OfMatchAtLayout(t, i, i1, o1, j, e);
  }

  /** The digits "12" at `j` read as twelve. */
  lemma TwelveAt(s: string, j: nat)
    requires j + 2 <= |s| && s[j] == '1' && s[j + 1] == '2'
    ensures ParseDigits(s[j..j + 2]) == 12
  {
    assert s[j..j + 2] == "12";
    assert "12"[..1] == "1";
  }

  /** A counter text with a label in front of "X of N". */
  lemma CounterWithLabel(s: string)
    requires s == "Page 3 of 12"
    ensures ParseIndicator(s) == 12
  {
    ParseIndicatorReadsTotal(s, 5, 6, 7, 10, 12);
    TwelveAt(s, 10);
  }

  /**
   A counter text with an earlier number that starts no match: the leftmost
   match, not the leftmost number, gives the count.
   */
  lemma CounterAfterVersion(s: string)
    requires s == "v2: 3 of 12"
    ensures ParseIndicator(s) == 12
  {
    forall k: nat | k < 4
      ensures OfMatchAt(s, k).None?
    {
      if k == 1 {
        RunEndUnique(s, 1, 2);
        assert !IsSpace(s[2]) && !IsLetterO(s[2]);
        assert SkipSpaces(s, 2) == 2;
      } else {
        assert s[k] in "v: ";
      }
    }
    ParseIndicatorReadsTotal(s, 4, 5, 6, 9, 11);
    TwelveAt(s, 9);
  }

  /** A counter text with the word in capitals. */
  lemma CounterInCapitals(s: string)
    requires s == "3 OF 12"
    ensures ParseIndicator(s) == 12
  {
    ParseIndicatorReadsTotal(s, 0, 1, 2, 5, 7);
    TwelveAt(s, 5);
  }

  /** A counter text without white space around the word. */
  lemma CounterWithoutSpaces(s: string)
    requires s == "3of12"
    ensures ParseIndicator(s) == 12
  {
    ParseIndicatorReadsTotal(s, 0, 1, 1, 3, 5);
    TwelveAt(s, 3);
  }

  /** A counter text with a letter o but no "X of N": the leftmost number. */
  lemma CounterWithoutOf()
    ensures ParseIndicator("Loading 5") == 5
  {
    var s := "Loading 5";
    TrimUnchanged(s);
    forall i: nat
      ensures OfMatchAt(s, i).None?
    {
      if i < |s| && IsDigit(s[i]) {
        assert i == 8;
        RunEndUnique(s, 8, 9);
      }
    }
    ParseIndicatorFallback(s, 8);
    RunEndUnique(s, 8, 9);
    assert s[8..9] == "5";
  }

  // ---------------------------------------------------------------------------
  // The standalone script's heuristic
  // ---------------------------------------------------------------------------

  /** An image source the standalone script considers: a viewer image with a page index. */
  function IsViewerPageSrc(src: string): bool {
    Contains(src, Interceptor.ViewerMarker) && Contains(src, Interceptor.PageMarker)
  }

  /** A source is considered exactly when both markers occur in it. */
  lemma ViewerPageSrcMarkers(src: string)
    ensures IsViewerPageSrc(src) <==>
              (exists i: nat :: OccursAt(src, Interceptor.ViewerMarker, i))
              && (exists i: nat :: OccursAt(src, Interceptor.PageMarker, i))
  {
    ContainsOccurs(src, Interceptor.ViewerMarker);
    ContainsOccurs(src, Interceptor.PageMarker);
  }

  /** The number captured by `src.match(/page=(\d+)/)`, if it matches. */
  function PageNumberOf(src: string): (r: Option<nat>)
    ensures r.None? <==> forall k: nat :: !TaggedAt(src, Interceptor.PageMarker, k)
  {
    match TaggedDigits(src, Interceptor.PageMarker)
    case None => None
    case Some(d) => Some(ParseDigits(d))
  }

  /** The page number a source contributes: only a considered source with a match. */
  function PageNumberFrom(src: string): (r: Option<nat>)
    ensures r.Some? <==> IsViewerPageSrc(src) && PageNumberOf(src).Some?
    ensures r.Some? ==> r == PageNumberOf(src)
  {
    if IsViewerPageSrc(src) then PageNumberOf(src) else None
  }

  /** The present values among `opts`, in order. */
  function Somes(opts: seq<Option<nat>>): seq<nat> {
    if |opts| == 0 then []
    else
      var last := opts[|opts| - 1];
      Somes(opts[..|opts| - 1]) + (if last.Some? then [last.value] else [])
  }

  /** A value is kept exactly when some option holds it. */
  lemma {:induction false} SomesMembers(opts: seq<Option<nat>>)
    ensures forall n :: n in Somes(opts) <==> exists k | 0 <= k < |opts| :: opts[k] == Some(n)
  {
    if |opts| > 0 {
      var front := opts[..|opts| - 1];
      SomesMembers(front);
      forall n
        ensures n in Somes(opts) <==> exists k | 0 <= k < |opts| :: opts[k] == Some(n)
      {
        if exists k | 0 <= k < |opts| :: opts[k] == Some(n) {
          var k :| 0 <= k < |opts| && opts[k] == Some(n);
          if k < |front| {
            assert front[k] == opts[k];
          }
        }
        if exists k | 0 <= k < |front| :: front[k] == Some(n) {
          var k :| 0 <= k < |front| && front[k] == Some(n);
          assert opts[k] == front[k];
        }
      }
    }
  }

  /** What each source contributes, in document order. */
  function SourceNumbers(srcs: seq<string>): (opts: seq<Option<nat>>)
    ensures |opts| == |srcs|
    ensures forall k | 0 <= k < |srcs| :: opts[k] == PageNumberFrom(srcs[k])
  {
    seq(|srcs|, k requires 0 <= k < |srcs| => PageNumberFrom(srcs[k]))
  }

  /** The page numbers parsed from the considered sources, in document order. */
  function PageNumbers(srcs: seq<string>): seq<nat> {
    Somes(SourceNumbers(srcs))
  }

  /** A number is parsed exactly when some considered source yields it. */
  lemma PageNumbersMembers(srcs: seq<string>)
    ensures forall n :: n in PageNumbers(srcs) <==>
                        exists k | 0 <= k < |srcs| :: PageNumberFrom(srcs[k]) == Some(n)
  {
    SomesMembers(SourceNumbers(srcs));
  }

  /**
   The standalone script's page count: 0 when no number was parsed, otherwise
   the largest parsed number, which is one of them.
   */
  method CountPagesFromSources(srcs: seq<string>) returns (count: nat)
    ensures |PageNumbers(srcs)| == 0 ==> count == 0
    ensures |PageNumbers(srcs)| > 0 ==> count in PageNumbers(srcs)
    ensures forall n | n in PageNumbers(srcs) :: n <= count
  {
    count := Largest(SourceNumbers(srcs));
  }

  /** The scan over the parsed numbers: the largest present value, 0 when none is. */
  method Largest(opts: seq<Option<nat>>) returns (count: nat)
    ensures |Somes(opts)| == 0 ==> count == 0
    ensures |Somes(opts)| > 0 ==> count in Somes(opts)
    ensures forall n | n in Somes(opts) :: n <= count
  {
    count := 0;
    var found := false;
    var i := 0;
    while i < |opts|
      invariant 0 <= i <= |opts|
      invariant found <==> |Somes(opts[..i])| > 0
      invariant found ==> count in Somes(opts[..i])
      invariant !found ==> count == 0
      invariant forall n | n in Somes(opts[..i]) :: n <= count
    {
      assert opts[..i + 1][..i] == opts[..i];
      if opts[i].Some? {
        var n := opts[i].value;
        if !found || n > count {
          count := n;
        }
        found := true;
      }
      i := i + 1;
    }
    assert opts[..i] == opts;
  }
}
