/**
 String helpers that stand in for the JavaScript built-ins the system uses:
 `String.prototype.includes`, `replace` with a string pattern, `trim`,
 `padStart`, `Number.prototype.toString`, `parseInt(_, 10)` on a digit run,
 and the leftmost-match search of the few regular expressions in the source,
 each of which is "a literal tag followed by a greedy run of ASCII digits".
 */
module Text {
  import opened Wrappers

  // ---------------------------------------------------------------------------
  // Digits and decimal numbers
  // ---------------------------------------------------------------------------

  /** The class `\d` of a non-Unicode JavaScript regular expression. */
  predicate IsDigit(c: char) {
    '0' <= c <= '9'
  }

  predicate AllDigits(s: string) {
    forall i | 0 <= i < |s| :: IsDigit(s[i])
  }

  function DigitValue(c: char): nat
    requires IsDigit(c)
  {
    (c as int - '0' as int) as nat
  }

  function DigitChar(d: nat): (c: char)
    requires d < 10
    ensures IsDigit(c) && DigitValue(c) == d
  {
    ('0' as int + d) as char
  }

  /** The value `parseInt(s, 10)` gives a non-empty run of ASCII digits. */
  function ParseDigits(s: string): nat
    requires AllDigits(s)
  {
    if |s| == 0 then 0 else 10 * ParseDigits(s[..|s| - 1]) + DigitValue(s[|s| - 1])
  }

  /** The decimal text `n.toString()` produces for a non-negative integer. */
  function ShowNat(n: nat): (s: string)
    ensures |s| >= 1 && AllDigits(s)
    ensures s[0] == '0' ==> n == 0
  {
    if n < 10 then [DigitChar(n)] else ShowNat(n / 10) + [DigitChar(n % 10)]
  }

  /** The decimal text `n.toString()` produces for any integer. */
  function ShowInt(n: int): string {
    if n < 0 then "-" + ShowNat(-n) else ShowNat(n)
  }

  /** Reading back what `ShowNat` wrote gives the number again. */
  lemma {:induction false} ParseShowNat(n: nat)
    ensures ParseDigits(ShowNat(n)) == n
  {
    if n >= 10 {
      var s := ShowNat(n);
      assert s[..|s| - 1] == ShowNat(n / 10);
      ParseShowNat(n / 10);
    }
  }

  /** Distinct numbers are written as distinct texts. */
  lemma ShowNatInjective(m: nat, n: nat)
    requires m != n
    ensures ShowNat(m) != ShowNat(n)
  {
    ParseShowNat(m);
    ParseShowNat(n);
  }

  /** A leading zero does not change the value of a digit run. */
  lemma {:induction false} ParseLeadingZero(s: string)
    requires AllDigits(s)
    ensures ParseDigits("0" + s) == ParseDigits(s)
  {
    if |s| > 0 {
      var t := "0" + s;
      assert t[..|t| - 1] == "0" + s[..|s| - 1];
      ParseLeadingZero(s[..|s| - 1]);
    }
  }

  /** `s.padStart(width, fill)` for a one-character fill string. */
  function PadStart(s: string, width: nat, fill: char): (r: string)
    ensures |r| == if |s| >= width then |s| else width
    ensures r[|r| - |s|..] == s
    ensures forall i | 0 <= i < |r| - |s| :: r[i] == fill
  {
    if |s| >= width then s
    else
      var padding := seq(width - |s|, _ => fill);
      assert (padding + s)[|padding|..] == s;
      padding + s
  }

  // ---------------------------------------------------------------------------
  // Literal substring search and replacement
  // ---------------------------------------------------------------------------

  /** `pat` occurs in `s` starting at index `i`. */
  predicate OccursAt(s: string, pat: string, i: nat) {
    i + |pat| <= |s| && s[i..i + |pat|] == pat
  }

  /** `i` is the leftmost occurrence of `pat` in `s`. */
  predicate FirstOccurrence(s: string, pat: string, i: nat) {
    OccursAt(s, pat, i) && forall j: nat | j < i :: !OccursAt(s, pat, j)
  }

  /** The leftmost occurrence of `pat` in `s` at or after `from`, if any. */
  function FindFrom(s: string, pat: string, from: nat): (r: Option<nat>)
    ensures r.Some? ==> from <= r.value && OccursAt(s, pat, r.value)
    ensures forall k: nat | from <= k && (r.None? || k < r.value) :: !OccursAt(s, pat, k)
    decreases |s| - from
  {
    if from + |pat| > |s| then None
    else if s[from..from + |pat|] == pat then Some(from)
    else FindFrom(s, pat, from + 1)
  }

  /** `s.includes(pat)`. */
  function Contains(s: string, pat: string): bool {
    FindFrom(s, pat, 0).Some?
  }

  /** `includes` holds exactly when the pattern occurs somewhere. */
  lemma ContainsOccurs(s: string, pat: string)
    ensures Contains(s, pat) <==> exists i: nat :: OccursAt(s, pat, i)
  {
  }

  /**
   `s.replace(pat, rep)` with a string pattern: only the leftmost occurrence is
   replaced (the replacement strings used here hold no `$` patterns).
   */
  function ReplaceFirst(s: string, pat: string, rep: string): (r: string)
    ensures (forall k: nat :: !OccursAt(s, pat, k)) ==> r == s
    ensures forall k: nat | FirstOccurrence(s, pat, k) :: r == s[..k] + rep + s[k + |pat|..]
  {
    match FindFrom(s, pat, 0)
    case None => s
    case Some(k) => s[..k] + rep + s[k + |pat|..]
  }

  // ---------------------------------------------------------------------------
  // Regular expressions of the shape  <tag>\d+
  // ---------------------------------------------------------------------------

  /** The end of the run of digits that starts at `j`. */
  function RunEnd(s: string, j: nat): (e: nat)
    requires j <= |s|
    ensures j <= e <= |s|
    ensures forall k | j <= k < e :: IsDigit(s[k])
    ensures e == |s| || !IsDigit(s[e])
    decreases |s| - j
  {
    if j < |s| && IsDigit(s[j]) then RunEnd(s, j + 1) else j
  }

  /** A run end is determined by the digits it spans and the non-digit after it. */
  lemma RunEndUnique(s: string, j: nat, e: nat)
    requires j <= e <= |s|
    requires forall k | j <= k < e :: IsDigit(s[k])
    requires e == |s| || !IsDigit(s[e])
    ensures RunEnd(s, j) == e
  {
  }

  /** The regular expression `<tag>\d+` matches at index `i`. */
  predicate TaggedAt(s: string, tag: string, i: nat) {
    OccursAt(s, tag, i) && i + |tag| < |s| && IsDigit(s[i + |tag|])
  }

  /** The leftmost match of `<tag>\d+` at or after `from`, if any. */
  function FindTagged(s: string, tag: string, from: nat): (r: Option<nat>)
    ensures r.Some? ==> from <= r.value && TaggedAt(s, tag, r.value)
    ensures forall k: nat | from <= k && (r.None? || k < r.value) :: !TaggedAt(s, tag, k)
    decreases |s| - from
  {
    if from + |tag| >= |s| then None
    else if TaggedAt(s, tag, from) then Some(from)
    else FindTagged(s, tag, from + 1)
  }

  /** The leftmost match of `<tag>\d+` is at index `i`. */
  predicate FirstTagged(s: string, tag: string, i: nat) {
    TaggedAt(s, tag, i) && forall j: nat | j < i :: !TaggedAt(s, tag, j)
  }

  /** `FindTagged` from the start finds exactly the leftmost match. */
  lemma FindTaggedFirst(s: string, tag: string)
    ensures forall i: nat :: FirstTagged(s, tag, i) <==> FindTagged(s, tag, 0) == Some(i)
  {
    var r := FindTagged(s, tag, 0);
    forall i: nat | FirstTagged(s, tag, i)
      ensures r == Some(i)
    {
      assert r.Some? && r.value <= i;
    }
  }

  /**
   The digits captured by `s.match(/<tag>(\d+)/)`: the greedy digit run after
   the leftmost tag that is followed by a digit.
   */
  function TaggedDigits(s: string, tag: string): (r: Option<string>)
    ensures r.None? <==> forall k: nat :: !TaggedAt(s, tag, k)
    ensures forall i: nat | FirstTagged(s, tag, i) ::
              r == Some(s[i + |tag|..RunEnd(s, i + |tag|)])
    ensures r.Some? ==> |r.value| >= 1 && AllDigits(r.value)
  {
    FindTaggedFirst(s, tag);
    match FindTagged(s, tag, 0)
    case None => None
    case Some(i) => Some(s[i + |tag|..RunEnd(s, i + |tag|)])
  }

  /**
   `s.replace(/<tag>\d+/, rep)`: the leftmost match, tag and whole digit run,
   is replaced by `rep`; without a match `s` is returned unchanged.
   */
  function ReplaceTagged(s: string, tag: string, rep: string): (r: string)
    ensures (forall k: nat :: !TaggedAt(s, tag, k)) ==> r == s
    ensures forall i: nat | FirstTagged(s, tag, i) ::
              r == s[..i] + rep + s[RunEnd(s, i + |tag|)..]
  {
    FindTaggedFirst(s, tag);
    match FindTagged(s, tag, 0)
    case None => s
    case Some(i) => s[..i] + rep + s[RunEnd(s, i + |tag|)..]
  }

  // ---------------------------------------------------------------------------
  // Whitespace
  // ---------------------------------------------------------------------------

  /**
   The JavaScript white-space and line-terminator characters: the class `\s`
   of a regular expression and the characters `String.prototype.trim` removes.
   */
  predicate IsSpace(c: char) {
    var n := c as int;
    n == 0x09 || n == 0x0A || n == 0x0B || n == 0x0C || n == 0x0D || n == 0x20
    || n == 0xA0 || n == 0x1680 || (0x2000 <= n <= 0x200A) || n == 0x2028
    || n == 0x2029 || n == 0x202F || n == 0x205F || n == 0x3000 || n == 0xFEFF
  }

  /** The first index at or after `j` that does not hold white space. */
  function SkipSpaces(s: string, j: nat): (e: nat)
    requires j <= |s|
    ensures j <= e <= |s|
    ensures forall k | j <= k < e :: IsSpace(s[k])
    ensures e == |s| || !IsSpace(s[e])
    decreases |s| - j
  {
    if j < |s| && IsSpace(s[j]) then SkipSpaces(s, j + 1) else j
  }

  /** Where a stretch of white space ends is determined by its characters. */
  lemma SkipSpacesUnique(s: string, j: nat, e: nat)
    requires j <= e <= |s|
    requires forall k | j <= k < e :: IsSpace(s[k])
    requires e == |s| || !IsSpace(s[e])
    ensures SkipSpaces(s, j) == e
  {
  }

  /** The last index, below `j`, after which only white space follows. */
  function SkipSpacesBack(s: string, j: nat): (b: nat)
    requires j <= |s|
    ensures b <= j
    ensures forall k | b <= k < j :: IsSpace(s[k])
    ensures b == 0 || !IsSpace(s[b - 1])
  {
    if j > 0 && IsSpace(s[j - 1]) then SkipSpacesBack(s, j - 1) else j
  }

  /** Where `s.trim()` starts: the first character that is not white space. */
  function TrimStart(s: string): (a: nat)
    ensures a <= |s|
    ensures forall k | 0 <= k < a :: IsSpace(s[k])
    ensures a == |s| || !IsSpace(s[a])
  {
    SkipSpaces(s, 0)
  }

  /** Where `s.trim()` ends: just after the last character that is not white space. */
  function TrimEnd(s: string): (b: nat)
    ensures TrimStart(s) <= b <= |s|
    ensures forall k | b <= k < |s| :: IsSpace(s[k])
    ensures b == TrimStart(s) || !IsSpace(s[b - 1])
  {
    var b := SkipSpacesBack(s, |s|);
    if b < TrimStart(s) then TrimStart(s) else b
  }

  /** `s.trim()`: the slice of `s` without leading and trailing white space. */
  function Trim(s: string): (t: string)
    ensures |t| > 0 ==> !IsSpace(t[0]) && !IsSpace(t[|t| - 1])
  {
    s[TrimStart(s)..TrimEnd(s)]
  }
}
