/**
 Replacing substrings the way a standard library does: leftmost first, never overlapping.
 */
module Substrings {

  predicate At(needle: string, text: string, i: nat) {
    i + |needle| <= |text| && text[i..i + |needle|] == needle
  }

  predicate Occurs(needle: string, text: string) {
    exists i :: 0 <= i <= |text| && At(needle, text, i)
  }

  predicate HasSlash(text: string) {
    '/' in text
  }

  function Replace(text: string, needle: string, put: string): string
    requires needle != ""
  {
    if |text| < |needle| then text
    else if text[..|needle|] == needle then put + Replace(text[|needle|..], needle, put)
    else [text[0]] + Replace(text[1..], needle, put)
  }

  /**
   `needle` and `other` cannot overlap: laid over each other at any offset at which they share a
   place, they disagree in some place. It rules out one inside the other, and an end of one that
   begins the other.
   */
  ghost predicate Separate(needle: string, other: string) {
    forall d :: -|needle| < d < |other| ==> Disagree(needle, other, d)
  }

  ghost predicate Disagree(needle: string, other: string, d: int) {
    exists k :: 0 <= k < |needle| && 0 <= k + d < |other| && needle[k] != other[k + d]
  }

  // ---- What a replacement leaves alone ----

  lemma OccursInTail(needle: string, text: string, n: nat)
    requires n <= |text| && Occurs(needle, text[n..])
    ensures Occurs(needle, text)
  {
    var i :| 0 <= i <= |text[n..]| && At(needle, text[n..], i);
    assert text[n..][i..i + |needle|] == text[n + i..n + i + |needle|];
    assert At(needle, text, n + i);
  }

  lemma {:induction false} ReplaceNothing(text: string, needle: string, put: string)
    requires needle != "" && !Occurs(needle, text)
    ensures Replace(text, needle, put) == text
    decreases |text|
  {
    if |text| >= |needle| {
      assert text[0..|needle|] == text[..|needle|];
      assert !At(needle, text, 0);
      if Occurs(needle, text[1..]) {
        OccursInTail(needle, text, 1);
      }
      ReplaceNothing(text[1..], needle, put);
      assert text == [text[0]] + text[1..];
    }
  }

  /** Where the first replacement starts, or the length of the text when there is none. */
  function FirstHit(text: string, needle: string): (h: nat)
    requires needle != ""
    ensures h <= |text|
  {
    if |text| < |needle| then |text|
    else if text[..|needle|] == needle then 0
    else 1 + FirstHit(text[1..], needle)
  }

  /** Up to its first replacement the result is the text; there it holds the replacement. */
  lemma {:induction false} UpToFirstHit(text: string, needle: string, put: string)
    requires needle != ""
    ensures var w, h := Replace(text, needle, put), FirstHit(text, needle);
            if h == |text| then w == text
            else h + |put| <= |w| && w[..h] == text[..h] && w[h..h + |put|] == put
    decreases |text|
  {
    if |text| >= |needle| && text[..|needle|] != needle {
      UpToFirstHit(text[1..], needle, put);
      var w, h := Replace(text, needle, put), FirstHit(text, needle);
      var w', h' := Replace(text[1..], needle, put), FirstHit(text[1..], needle);
      assert w == [text[0]] + w' && h == h' + 1;
      if h < |text| {
        assert w[..h] == [text[0]] + w'[..h'];
        assert text[..h] == [text[0]] + text[1..][..h'];
        assert w[h..h + |put|] == w'[h'..h' + |put|];
      }
    }
  }

  /** A needle that would start inside a copy of `put`, or run into one, is not there. */
  lemma NoOverlap(needle: string, put: string, w: string, i: nat, p: nat)
    requires Separate(needle, put)
    requires p + |put| <= |w| && w[p..p + |put|] == put
    requires i < p + |put| && p < i + |needle|
    ensures !At(needle, w, i)
  {
    var d: int := i - p;
    assert Disagree(needle, put, d);
    var k :| 0 <= k < |needle| && 0 <= k + d < |put| && needle[k] != put[k + d];
    assert w[p..p + |put|][k + d] == w[p + (k + d)];
    if i + |needle| <= |w| {
      assert w[i..i + |needle|][k] == w[i + k];
    }
  }

  /** What the text must be for `clean` not to appear when `needle` is replaced in it. */
  predicate Lacks(text: string, needle: string, clean: string) {
    clean == needle || !Occurs(clean, text)
  }

  lemma CleanAtStart(text: string, needle: string, put: string, clean: string)
    requires needle != "" && put != "" && clean != "" && Separate(clean, put) && Lacks(text, needle, clean)
    requires |text| >= |needle| ==> text[..|needle|] != needle
    ensures !At(clean, Replace(text, needle, put), 0)
  {
    var w, h := Replace(text, needle, put), FirstHit(text, needle);
    UpToFirstHit(text, needle, put);
    if At(clean, w, 0) {
      assert w[0..|clean|] == w[..|clean|] == clean;
      if h == |text| || |clean| <= h {
        assert text[..|clean|] == clean by {
          if h < |text| {
            assert w[..h][..|clean|] == w[..|clean|];
            assert text[..h][..|clean|] == text[..|clean|];
          }
        }
        assert text[0..|clean|] == clean;
        assert At(clean, text, 0);
      } else {
        NoOverlap(clean, put, w, 0, h);
      }
    }
  }

  lemma AtInTail(needle: string, head: string, tail: string, i: nat)
    requires At(needle, head + tail, i) && |head| <= i
    ensures At(needle, tail, i - |head|)
  {
    assert (head + tail)[i..i + |needle|] == tail[i - |head|..i - |head| + |needle|];
  }

  lemma LacksInTail(text: string, needle: string, clean: string, n: nat)
    requires n <= |text| && Lacks(text, needle, clean)
    ensures Lacks(text[n..], needle, clean)
  {
    if Occurs(clean, text[n..]) {
      OccursInTail(clean, text, n);
    }
  }

  lemma {:induction false} NoNewAt(text: string, needle: string, put: string, clean: string, i: nat)
    requires needle != "" && put != "" && clean != "" && Separate(clean, put) && Lacks(text, needle, clean)
    ensures !At(clean, Replace(text, needle, put), i)
    decreases |text|
  {
    var w := Replace(text, needle, put);
    if |text| < |needle| {
      assert w == text;
    } else if text[..|needle|] == needle {
      var tail := Replace(text[|needle|..], needle, put);
      if |put| <= i {
        LacksInTail(text, needle, clean, |needle|);
        NoNewAt(text[|needle|..], needle, put, clean, i - |put|);
        if At(clean, w, i) {
          AtInTail(clean, put, tail, i);
        }
      } else {
        assert w[0..|put|] == put;
        NoOverlap(clean, put, w, i, 0);
      }
    } else if i == 0 {
      CleanAtStart(text, needle, put, clean);
    } else {
      LacksInTail(text, needle, clean, 1);
      NoNewAt(text[1..], needle, put, clean, i - 1);
      if At(clean, w, i) {
        AtInTail(clean, [text[0]], Replace(text[1..], needle, put), i);
      }
    }
  }

  /**
   Replacing removes the needle, and brings in no other text that was absent, whenever that text
   cannot overlap the replacement.
   */
  lemma ReplaceKeepsClean(text: string, needle: string, put: string, clean: string)
    requires needle != "" && put != "" && clean != "" && Separate(clean, put)
    requires clean == needle || !Occurs(clean, text)
    ensures !Occurs(clean, Replace(text, needle, put))
  {
    forall i: nat ensures !At(clean, Replace(text, needle, put), i) {
      NoNewAt(text, needle, put, clean, i);
    }
  }

  /** A replacement that happens at all leaves its replacement text in the result. */
  lemma ReplaceShows(text: string, needle: string, put: string)
    requires needle != "" && Occurs(needle, text)
    ensures Occurs(put, Replace(text, needle, put))
  {
    UpToFirstHit(text, needle, put);
    var w, h := Replace(text, needle, put), FirstHit(text, needle);
    HitsWhenItOccurs(text, needle);
    assert At(put, w, h);
  }

  lemma {:induction false} HitsWhenItOccurs(text: string, needle: string)
    requires needle != "" && Occurs(needle, text)
    ensures FirstHit(text, needle) < |text|
    decreases |text|
  {
    var i :| 0 <= i <= |text| && At(needle, text, i);
    if text[..|needle|] != needle {
      assert i != 0 by {
        assert text[0..|needle|] == text[..|needle|];
      }
      assert text[1..][i - 1..i - 1 + |needle|] == text[i..i + |needle|];
      assert At(needle, text[1..], i - 1);
      HitsWhenItOccurs(text[1..], needle);
    }
  }

  lemma ReplaceWhole(needle: string, put: string)
    requires needle != ""
    ensures Replace(needle, needle, put) == put
  {
    assert needle[|needle|..] == "";
  }

  /** Replacing by something shorter shortens the text exactly when there is something to replace. */
  lemma {:induction false} ReplaceShortens(text: string, needle: string, put: string)
    requires |put| < |needle|
    ensures |Replace(text, needle, put)| <= |text|
    ensures Replace(text, needle, put) == text <==> !Occurs(needle, text)
    decreases |text|
  {
    if Occurs(needle, text) {
      HitsWhenItOccurs(text, needle);
    } else {
      ReplaceNothing(text, needle, put);
    }
    ReplaceLength(text, needle, put);
  }

  lemma {:induction false} ReplaceLength(text: string, needle: string, put: string)
    requires |put| < |needle|
    ensures |Replace(text, needle, put)| <= |text|
    ensures FirstHit(text, needle) < |text| ==> |Replace(text, needle, put)| < |text|
    decreases |text|
  {
    if |text| >= |needle| {
      if text[..|needle|] == needle {
        ReplaceLength(text[|needle|..], needle, put);
      } else {
        ReplaceLength(text[1..], needle, put);
      }
    }
  }

  lemma AtInside(needle: string, middle: string, text: string, i: nat, j: nat)
    requires At(middle, text, i) && At(needle, middle, j)
    ensures At(needle, text, i + j)
  {
    forall k | 0 <= k < |needle| ensures text[i + j + k] == needle[k] {
      assert text[i..i + |middle|][j + k] == text[i + (j + k)];
      assert middle[j..j + |needle|][k] == middle[j + k];
    }
    assert text[i + j..i + j + |needle|] == needle;
  }

  /** A needle that lies inside its replacement is never removed: whatever named it still does. */
  lemma InsideSurvives(text: string, needle: string, put: string)
    requires needle != "" && Occurs(needle, put) && Occurs(needle, text)
    ensures Occurs(needle, Replace(text, needle, put))
  {
    hide Replace, At;
    ReplaceShows(text, needle, put);
    var w := Replace(text, needle, put);
    var i: nat :| 0 <= i <= |w| && At(put, w, i);
    var j: nat :| 0 <= j <= |put| && At(needle, put, j);
    AtInside(needle, put, w, i, j);
  }


  // ---- Exactly when a replacement removes its own needle ----

  /** With the first `n` characters of the needle ahead of it, the needle is first found before its place. */
  ghost predicate HeadMatches(needle: string, n: int) {
    0 <= n <= |needle| && exists j: nat :: j < n && At(needle, needle[..n] + needle, j)
  }

  /**
   Wherever the needle and `other` could overlap they disagree, or else the part of the needle ahead
   of `other` would have matched already.
   */
  ghost predicate Removable(needle: string, other: string) {
    forall d :: -|needle| < d < |other| ==> Disagree(needle, other, d) || (d < 0 && HeadMatches(needle, -d))
  }

  lemma AtStart(text: string, needle: string)
    requires |needle| <= |text|
    ensures At(needle, text, 0) <==> text[..|needle|] == needle
  {
    assert text[0..|needle|] == text[..|needle|];
  }

  lemma AtShifts(text: string, needle: string, j: nat)
    requires |text| > 0
    ensures At(needle, text, j + 1) <==> At(needle, text[1..], j)
  {
    if j + 1 + |needle| <= |text| {
      assert text[j + 1..j + 1 + |needle|] == text[1..][j..j + |needle|];
    }
  }

  lemma {:induction false} FirstHitIsFirst(text: string, needle: string)
    requires needle != ""
    ensures FirstHit(text, needle) < |text| ==> At(needle, text, FirstHit(text, needle))
    ensures forall j: nat :: j < FirstHit(text, needle) ==> !At(needle, text, j)
    decreases |text|
  {
    hide At;
    if |text| < |needle| {
      TooShort(text, needle);
    } else {
      AtStart(text, needle);
      if text[..|needle|] != needle {
        var rest := FirstHit(text[1..], needle);
        FirstHitIsFirst(text[1..], needle);
        AtShifts(text, needle, rest);
        forall j: nat | j < 1 + rest ensures !At(needle, text, j) {
          if j > 0 {
            AtShifts(text, needle, j - 1);
          }
        }
      }
    }
  }

  lemma TooShort(text: string, needle: string)
    requires |text| < |needle|
    ensures forall j: nat :: !At(needle, text, j)
  {
  }

  /** Overlapping a copy of `put` at `p`, the needle agrees with it wherever both have a character. */
  lemma OverlapAgrees(needle: string, put: string, w: string, i: nat, p: nat)
    requires p + |put| <= |w| && w[p..p + |put|] == put && At(needle, w, i)
    ensures !Disagree(needle, put, i - p)
  {
    var d: int := i - p;
    forall k | 0 <= k < |needle| && 0 <= k + d < |put| ensures needle[k] == put[k + d] {
      assert w[i..i + |needle|][k] == w[i + k];
      assert w[p..p + |put|][k + d] == w[p + (k + d)];
    }
  }

  lemma GoneAtStart(text: string, needle: string, put: string)
    requires needle != "" && put != "" && Removable(needle, put)
    requires |text| >= |needle| ==> text[..|needle|] != needle
    ensures !At(needle, Replace(text, needle, put), 0)
  {
    hide Removable, Replace, FirstHit, HeadMatches;
    var w, h := Replace(text, needle, put), FirstHit(text, needle);
    UpToFirstHit(text, needle, put);
    FirstHitIsFirst(text, needle);
    if At(needle, w, 0) {
      assert w[0..|needle|] == w[..|needle|] == needle;
      if h < |text| && h < |needle| {
        OverlapAgrees(needle, put, w, 0, h);
        HitAtZero(text, needle, h);
        MustMatchEarlier(needle, put, h);
        assert w[..h] == needle[..h];
        EarlierInText(text, needle, h);
      } else {
        SamePrefix(text, w, needle, h);
      }
    }
  }

  lemma HitAtZero(text: string, needle: string, h: nat)
    requires |text| >= |needle| ==> text[..|needle|] != needle
    requires At(needle, text, h)
    ensures h > 0
  {
    assert text[0..|needle|] == text[..|needle|];
  }

  lemma MustMatchEarlier(needle: string, put: string, h: int)
    requires Removable(needle, put) && !Disagree(needle, put, -h) && 0 < h < |needle| && put != ""
    ensures HeadMatches(needle, h)
  {
    hide Disagree, HeadMatches;
  }

  lemma EarlierInText(text: string, needle: string, h: nat)
    requires HeadMatches(needle, h) && At(needle, text, h) && text[..h] == needle[..h]
    ensures exists j: nat :: j < h && At(needle, text, j)
  {
    var j: nat :| j < h && At(needle, needle[..h] + needle, j);
    assert text[..h + |needle|] == needle[..h] + needle;
    assert text[j..j + |needle|] == text[..h + |needle|][j..j + |needle|];
    assert At(needle, text, j);
  }

  lemma SamePrefix(text: string, w: string, needle: string, h: nat)
    requires h <= |text| && (if h == |text| then w == text else h <= |w| && w[..h] == text[..h] && |needle| <= h)
    requires |needle| <= |w| && w[..|needle|] == needle
    ensures |needle| <= |text| && text[..|needle|] == needle
  {
    if h < |text| {
      assert w[..h][..|needle|] == w[..|needle|];
      assert text[..h][..|needle|] == text[..|needle|];
    }
  }

  lemma {:induction false} GoneAt(text: string, needle: string, put: string, i: nat)
    requires needle != "" && put != "" && Removable(needle, put)
    ensures !At(needle, Replace(text, needle, put), i)
    decreases |text|
  {
    hide Removable, FirstHit, Disagree;
    var w := Replace(text, needle, put);
    if |text| < |needle| {
      assert w == text;
    } else if text[..|needle|] == needle {
      var tail := Replace(text[|needle|..], needle, put);
      if |put| <= i {
        GoneAt(text[|needle|..], needle, put, i - |put|);
        if At(needle, w, i) {
          AtInTail(needle, put, tail, i);
        }
      } else {
        assert w[0..|put|] == put;
        NotInsidePut(needle, put, w, i);
      }
    } else if i == 0 {
      GoneAtStart(text, needle, put);
    } else {
      GoneAt(text[1..], needle, put, i - 1);
      if At(needle, w, i) {
        AtInTail(needle, [text[0]], Replace(text[1..], needle, put), i);
      }
    }
  }

  lemma NotInsidePut(needle: string, put: string, w: string, i: nat)
    requires needle != "" && Removable(needle, put) && |put| <= |w| && w[0..|put|] == put && i < |put|
    ensures !At(needle, w, i)
  {
    hide Disagree, HeadMatches;
    if At(needle, w, i) {
      OverlapAgrees(needle, put, w, i, 0);
    }
  }

  lemma NowhereInRest(head: string, needle: string)
    requires head != "" && forall i: nat :: i < |head| ==> !At(needle, head + needle, i)
    ensures forall i: nat :: i < |head[1..]| ==> !At(needle, head[1..] + needle, i)
  {
    hide At;
    assert (head + needle)[1..] == head[1..] + needle;
    forall i: nat | i < |head[1..]| ensures !At(needle, head[1..] + needle, i) {
      AtShifts(head + needle, needle, i);
      assert !At(needle, head + needle, i + 1);
    }
  }

  lemma NotAhead(head: string, needle: string, tail: string)
    requires head != "" && !At(needle, head + needle, 0)
    ensures (head + needle + tail)[..|needle|] != needle
  {
    var text := head + needle + tail;
    assert (head + needle)[0..|needle|] == text[..|needle|];
  }

  /** A needle behind text in which it cannot match earlier is replaced there, a tail without it kept. */
  lemma {:induction false} ReplaceAfter(head: string, needle: string, tail: string, put: string)
    requires needle != "" && !Occurs(needle, tail)
    requires forall i: nat :: i < |head| ==> !At(needle, head + needle, i)
    ensures Replace(head + needle + tail, needle, put) == head + put + tail
  {
    hide At, Occurs;
    var text := head + needle + tail;
    if head == "" {
      assert text[..|needle|] == needle && text[|needle|..] == tail;
      ReplaceNothing(tail, needle, put);
    } else {
      var rest := head[1..];
      NotAhead(head, needle, tail);
      NowhereInRest(head, needle);
      ReplaceAfter(rest, needle, tail, put);
      assert text[1..] == rest + needle + tail;
      assert head + put + tail == [text[0]] + (rest + put + tail);
    }
  }

  /** What of the needle stands ahead of a copy of `put` that it overlaps at offset `d`, and behind it. */
  function Ahead(needle: string, d: int): string
    requires -|needle| < d
  {
    if d < 0 then needle[..-d] else ""
  }

  function Behind(needle: string, put: string, d: int): string
    requires d < |put|
  {
    if |needle| > |put| - d then needle[|put| - d..] else ""
  }

  /** A needle that agrees with `put` at offset `d` is found in the two laid over each other. */
  lemma LaidOver(needle: string, put: string, d: int)
    requires -|needle| < d < |put| && !Disagree(needle, put, d)
    ensures Occurs(needle, Ahead(needle, d) + put + Behind(needle, put, d))
  {
    var w := Ahead(needle, d) + put + Behind(needle, put, d);
    var start: nat := if d < 0 then 0 else d;
    assert |w| >= start + |needle|;
    forall k | 0 <= k < |needle| ensures w[start + k] == needle[k] {
      if 0 <= k + d < |put| {
        assert needle[k] == put[k + d];
      }
    }
    assert w[start..start + |needle|] == needle;
    assert At(needle, w, start);
  }

  lemma ShorterLacks(needle: string, text: string)
    requires |text| < |needle|
    ensures !Occurs(needle, text)
  {
  }

  lemma LaidComesBack(needle: string, put: string, d: int)
    requires needle != "" && -|needle| < d < |put| && !Disagree(needle, put, d)
    requires d < 0 ==> !HeadMatches(needle, -d)
    ensures Occurs(needle, Replace(Ahead(needle, d) + needle + Behind(needle, put, d), needle, put))
  {
    hide Replace, Disagree, HeadMatches, At, Occurs;
    NothingAhead(needle, d);
    ShorterLacks(needle, Behind(needle, put, d));
    ReplaceAfter(Ahead(needle, d), needle, Behind(needle, put, d), put);
    LaidOver(needle, put, d);
  }

  lemma NothingAhead(needle: string, d: int)
    requires -|needle| < d && (d < 0 ==> !HeadMatches(needle, -d))
    ensures forall i: nat :: i < |Ahead(needle, d)| ==> !At(needle, Ahead(needle, d) + needle, i)
  {
    hide At;
  }

  /**
   A replacement removes its needle from every text if and only if, at every offset, the needle and
   the replacement disagree or the needle would have matched earlier.
   */
  lemma RemovedExactly(needle: string, put: string)
    requires needle != "" && put != ""
    ensures (forall text :: !Occurs(needle, Replace(text, needle, put))) <==> Removable(needle, put)
  {
    hide Replace, At, Disagree, HeadMatches;
    if Removable(needle, put) {
      forall text ensures !Occurs(needle, Replace(text, needle, put)) {
        forall i: nat ensures !At(needle, Replace(text, needle, put), i) {
          GoneAt(text, needle, put, i);
        }
      }
    } else {
      var d :| -|needle| < d < |put| && !Disagree(needle, put, d) && !(d < 0 && HeadMatches(needle, -d));
      LaidComesBack(needle, put, d);
    }
  }
}
