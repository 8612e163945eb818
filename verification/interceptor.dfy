/**
 The request interceptor both entry points register on the viewer page: every
 outgoing request URL is tested for being a page-image request, normalised to
 the lossless, 2400-pixel-wide variant, and appended to the captured list
 unless that normalised URL is already there.
 */
module Interceptor {
  import opened Wrappers
  import opened Text

  /** Path of the viewer's internal image service. */
  const ViewerMarker := "viewerng/img"
  /** The page-index query parameter. */
  const PageMarker := "page="
  /** The image-format query parameter. */
  const FormatMarker := "webp="
  const LossyFormat := "webp=true"
  const LosslessFormat := "webp=false"
  /** The width parameter: the regular expression `w=\d+`. */
  const WidthTag := "w="
  const CanonicalWidth := "w=2400"

  /** A request is a page-image request when its URL contains all three markers. */
  function Accept(url: string): bool {
    Contains(url, ViewerMarker) && Contains(url, PageMarker) && Contains(url, FormatMarker)
  }

  /** A URL is accepted exactly when each of the three markers occurs in it. */
  lemma AcceptMeansMarkers(url: string)
    ensures Accept(url) <==>
              && (exists i: nat :: OccursAt(url, ViewerMarker, i))
              && (exists i: nat :: OccursAt(url, PageMarker, i))
              && (exists i: nat :: OccursAt(url, FormatMarker, i))
  {
    ContainsOccurs(url, ViewerMarker);
    ContainsOccurs(url, PageMarker);
    ContainsOccurs(url, FormatMarker);
  }

  /** First normalisation step: the leftmost `webp=true` becomes `webp=false`. */
  function NormalizeFormat(url: string): (r: string)
    ensures (forall k: nat :: !OccursAt(url, LossyFormat, k)) ==> r == url
    ensures forall k: nat | FirstOccurrence(url, LossyFormat, k) ::
              && r == url[..k] + LosslessFormat + url[k + |LossyFormat|..]
              && OccursAt(r, LosslessFormat, k)
  {
    ReplaceFirst(url, LossyFormat, LosslessFormat)
  }

  /** Second normalisation step: the leftmost `w=<digits>` becomes `w=2400`. */
  function NormalizeWidth(url: string): string {
    ReplaceTagged(url, WidthTag, CanonicalWidth)
  }

  /** The canonical URL under which a page-image request is captured. */
  function Normalize(url: string): string {
    NormalizeWidth(NormalizeFormat(url))
  }

  /**
   Replacing the leftmost width parameter leaves every other character in
   place, and afterwards the leftmost width parameter of the result sits at the
   same index and reads exactly `w=2400`.
   */
  lemma WidthIsCanonical(s: string, i: nat)
    requires FirstTagged(s, WidthTag, i)
    ensures NormalizeWidth(s) == s[..i] + CanonicalWidth + s[RunEnd(s, i + 2)..]
    ensures FirstTagged(NormalizeWidth(s), WidthTag, i)
    ensures RunEnd(NormalizeWidth(s), i + 2) == i + 6
    ensures TaggedDigits(NormalizeWidth(s), WidthTag) == Some("2400")
  {
    var e := RunEnd(s, i + 2);
    var r := NormalizeWidth(s);
    assert r == s[..i] + CanonicalWidth + s[e..];
    CanonicalAfterReplace(s, i, e, r);
    RunEndUnique(r, i + 2, i + 6);
    assert r[i + 2..i + 6] == "2400";
  }

  /** `w=<digit>` at `j`, spelt out character by character. */
  lemma WidthAtChars(s: string, j: nat)
    ensures TaggedAt(s, WidthTag, j) <==>
              j + 2 < |s| && s[j] == 'w' && s[j + 1] == '=' && IsDigit(s[j + 2])
  {
    if j + 2 <= |s| && s[j] == 'w' && s[j + 1] == '=' {
      assert s[j..j + 2] == WidthTag;
    }
  }

  /** The character-level facts behind `WidthIsCanonical`. */
  lemma CanonicalAfterReplace(s: string, i: nat, e: nat, r: string)
    requires FirstTagged(s, WidthTag, i)
    requires i + 2 <= e <= |s| && (e == |s| || !IsDigit(s[e]))
    requires r == s[..i] + CanonicalWidth + s[e..]
    ensures FirstTagged(r, WidthTag, i)
    ensures forall k | i + 2 <= k < i + 6 :: IsDigit(r[k])
    ensures i + 6 == |r| || !IsDigit(r[i + 6])
  {
    assert |r| == i + 6 + (|s| - e);
    assert forall k | 0 <= k < i :: r[k] == s[k];
    assert r[i] == 'w' && r[i + 1] == '=' && r[i + 2] == '2';
    assert r[i + 3] == '4' && r[i + 4] == '0' && r[i + 5] == '0';
    WidthAtChars(r, i);
    forall j: nat | j < i
      ensures !TaggedAt(r, WidthTag, j)
    {
      WidthAtChars(r, j);
      WidthAtChars(s, j);
    }
    if i + 6 < |r| {
      assert r[i + 6] == s[e];
    }
  }

  /** Normalising the width twice is the same as normalising it once. */
  lemma NormalizeWidthIdempotent(s: string)
    ensures NormalizeWidth(NormalizeWidth(s)) == NormalizeWidth(s)
  {
    FindTaggedFirst(s, WidthTag);
    match FindTagged(s, WidthTag, 0)
    case None =>
    case Some(i) =>
      WidthIsCanonical(s, i);
      var r := NormalizeWidth(s);
      var e := RunEnd(s, i + 2);
      assert r == s[..i] + CanonicalWidth + s[e..];
      assert r[i..i + 6] == CanonicalWidth by {
        assert |s[..i]| == i;
      }
      SpliceSame(r, i, CanonicalWidth);
      assert NormalizeWidth(r) == r[..i] + CanonicalWidth + r[i + 6..];
  }

  /** Writing a segment over itself changes nothing. */
  lemma SpliceSame(r: string, i: nat, w: string)
    requires i + |w| <= |r| && r[i..i + |w|] == w
    ensures r[..i] + w + r[i + |w|..] == r
  {
    assert r == r[..i] + r[i..i + |w|] + r[i + |w|..];
  }

  // ---------------------------------------------------------------------------
  // The captured list
  // ---------------------------------------------------------------------------

  predicate NoDuplicates(s: seq<string>) {
    forall i, j | 0 <= i < j < |s| :: s[i] != s[j]
  }

  /**
   The request callback: an accepted request's canonical URL is appended
   unless it is already captured. The list only grows at its end, by exactly
   that URL, and stays free of duplicates.
   */
  function Step(captured: seq<string>, url: string): (r: seq<string>)
    ensures |captured| <= |r| <= |captured| + 1 && r[..|captured|] == captured
    ensures forall x :: x in r <==> x in captured || (Accept(url) && x == Normalize(url))
    ensures NoDuplicates(captured) ==> NoDuplicates(r)
    ensures !Accept(url) || Normalize(url) in captured ==> r == captured
  {
    if Accept(url) && Normalize(url) !in captured then captured + [Normalize(url)] else captured
  }

  /** The captured list after the callback has seen `requests`, in order. */
  function Capture(requests: seq<string>): (r: seq<string>)
    ensures NoDuplicates(r)
  {
    if |requests| == 0 then []
    else Step(Capture(requests[..|requests| - 1]), requests[|requests| - 1])
  }

  /** Canonical URLs of the accepted requests, in order, repeats included. */
  function Candidates(requests: seq<string>): seq<string> {
    if |requests| == 0 then []
    else
      var last := requests[|requests| - 1];
      Candidates(requests[..|requests| - 1]) + (if Accept(last) then [Normalize(last)] else [])
  }

  /** A URL is a candidate exactly when some accepted request normalises to it. */
  lemma {:induction false} CandidatesMembers(requests: seq<string>)
    ensures forall x :: x in Candidates(requests) <==>
                        exists u | u in requests :: Accept(u) && Normalize(u) == x
  {
    if |requests| > 0 {
      var front := requests[..|requests| - 1];
      var last := requests[|requests| - 1];
      CandidatesMembers(front);
      assert requests == front + [last];
      forall x | exists u | u in requests :: Accept(u) && Normalize(u) == x
        ensures x in Candidates(requests)
      {
        var u :| u in requests && Accept(u) && Normalize(u) == x;
        if u != last {
          assert u in front;
        }
      }
    }
  }

  /** Index of the first occurrence of `x` in `c`. */
  function FirstIndex(c: seq<string>, x: string): (k: nat)
    requires x in c
    ensures k < |c| && c[k] == x
    ensures forall j | 0 <= j < k :: c[j] != x
  {
    if c[0] == x then 0 else 1 + FirstIndex(c[1..], x)
  }

  lemma FirstIndexAppend(c: seq<string>, y: string, x: string)
    requires x in c
    ensures FirstIndex(c + [y], x) == FirstIndex(c, x)
  {
    var k := FirstIndex(c, x);
    var k' := FirstIndex(c + [y], x);
    assert (c + [y])[k] == x;
  }

  /**
   `r` is `c` with repeats removed, keeping first-seen order: the same members,
   no duplicates, and members ordered by where they first appear in `c`.
   */
  ghost predicate IsFirstSeenDedup(c: seq<string>, r: seq<string>) {
    && NoDuplicates(r)
    && (forall x :: x in r <==> x in c)
    && (forall i, j | 0 <= i < j < |r| ::
          r[i] in c && r[j] in c && FirstIndex(c, r[i]) < FirstIndex(c, r[j]))
  }

  /**
   The captured list is exactly the accepted requests' canonical URLs with
   repeats removed, in first-seen order.
   */
  lemma {:induction false} CaptureIsFirstSeenDedup(requests: seq<string>)
    ensures IsFirstSeenDedup(Candidates(requests), Capture(requests))
  {
    if |requests| > 0 {
      var front := requests[..|requests| - 1];
      var u := requests[|requests| - 1];
      CaptureIsFirstSeenDedup(front);
      var c := Candidates(front);
      var r := Capture(front);
      if Accept(u) {
        var n := Normalize(u);
        var c' := c + [n];
        assert Candidates(requests) == c';
        forall x | x in c
          ensures FirstIndex(c', x) == FirstIndex(c, x)
        {
          FirstIndexAppend(c, n, x);
        }
        if n !in r {
          var r' := r + [n];
          assert Capture(requests) == r';
          assert n !in c;
          assert FirstIndex(c', n) == |c| by {
            assert c'[|c|] == n;
          }
          forall i, j | 0 <= i < j < |r'|
            ensures r'[i] in c' && r'[j] in c' && FirstIndex(c', r'[i]) < FirstIndex(c', r'[j])
          {
            assert r'[i] == r[i];
            if j < |r| {
              assert r'[j] == r[j];
            }
          }
        } else {
          assert Capture(requests) == r;
          forall x
            ensures x in r <==> x in c'
          {
          }
        }
      } else {
        assert Candidates(requests) == c;
        assert Capture(requests) == r;
      }
    }
  }

  /** Requests that are not page-image requests leave the captured list empty. */
  lemma {:induction false} NothingAcceptedNothingCaptured(requests: seq<string>)
    requires forall k | 0 <= k < |requests| :: !Accept(requests[k])
    ensures Capture(requests) == []
  {
    if |requests| > 0 {
      NothingAcceptedNothingCaptured(requests[..|requests| - 1]);
    }
  }

  /** Observing the same request twice in a row captures it at most once. */
  lemma RepeatedRequestIgnored(requests: seq<string>, u: string)
    ensures Capture(requests + [u, u]) == Capture(requests + [u])
  {
    var once := requests + [u];
    var twice := requests + [u, u];
    assert twice[..|twice| - 1] == once;
    assert once[..|once| - 1] == requests;
  }

  /**
   When no two accepted requests normalise to the same URL, every accepted
   request is captured, in the order the requests were observed.
   */
  lemma {:induction false} CaptureDistinct(requests: seq<string>)
    requires NoDuplicates(Candidates(requests))
    ensures Capture(requests) == Candidates(requests)
  {
    if |requests| > 0 {
      var front := requests[..|requests| - 1];
      var u := requests[|requests| - 1];
      var c := Candidates(front);
      assert Candidates(requests)[..|c|] == c;
      CaptureDistinct(front);
      if Accept(u) {
        var n := Normalize(u);
        assert Candidates(requests) == c + [n];
        assert n !in c by {
          forall k | 0 <= k < |c|
            ensures c[k] != n
          {
            assert (c + [n])[k] == c[k] && (c + [n])[|c|] == n;
          }
        }
      }
    }
  }
}
