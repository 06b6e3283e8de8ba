/** What the line scanner reads, line by line and over characters: fences, headings, titles and prose. */
module HeadingRules {
  import opened Prelude
  import opened Anchors

  // ---- Characters ----

  /** The white space that can follow number signs. */
  predicate PlainWhite(c: char) {
    c as int in {9, 10, 12, 13, 32}
  }

  /** Unicode's white space. */
  predicate AnyWhite(c: char) {
    c as int in {9, 10, 11, 12, 13, 0x20, 0x85, 0xA0, 0x1680, 0x2000, 0x2001, 0x2002, 0x2003, 0x2004, 0x2005, 0x2006,
                 0x2007, 0x2008, 0x2009, 0x200A, 0x2028, 0x2029, 0x202F, 0x205F, 0x3000}
  }

  lemma WhiteExactly(c: char)
    ensures White(c) <==> AnyWhite(c)
    ensures AsciiWhite(c) <==> PlainWhite(c)
  {
  }

  /** `text[a..b]` holds `c` alone. */
  predicate AllOf(text: string, a: nat, b: nat, c: char)
    requires a <= b <= |text|
  {
    forall i :: a <= i < b ==> text[i] == c
  }

  predicate AllWhite(text: string, a: nat, b: nat)
    requires a <= b <= |text|
  {
    forall i :: a <= i < b ==> AnyWhite(text[i])
  }

  /** `n` spaces stand ahead of the line, and no more. */
  predicate Indented(line: string, n: nat) {
    n <= |line| && AllOf(line, 0, n, ' ') && (n < |line| ==> line[n] != ' ')
  }

  lemma {:induction false} LeadingExactly(text: string, c: char, n: nat)
    requires n <= |text| && AllOf(text, 0, n, c) && (n < |text| ==> text[n] != c)
    ensures LeadingOf(text, c) == n
  {
    if n > 0 {
      LeadingExactly(text[1..], c, n - 1);
    }
  }

  lemma IndentExactly(line: string, n: nat)
    ensures Indented(line, n) <==> n == LeadingOf(line, ' ')
  {
    if Indented(line, n) {
      LeadingExactly(line, ' ', n);
    }
  }

  // ---- Fences ----

  /** At most three spaces, three or more of one of the two markers, and behind back-ticks no back-tick. */
  predicate FenceOpens(line: string, n: nat, c: char, w: nat) {
    && Indented(line, n) && n <= 3 && c in {'`', '~'} && w >= 3
    && n + w <= |line| && AllOf(line, n, n + w, c) && (n + w < |line| ==> line[n + w] != c)
    && (c == '`' ==> '`' !in line[n + w..])
  }

  /** At most three spaces, at least as many markers as opened the fence, and white space. */
  predicate FenceCloses(line: string, fence: Fence, n: nat, w: nat) {
    && Indented(line, n) && n <= 3 && w >= fence.length
    && n + w <= |line| && AllOf(line, n, n + w, fence.marker) && AllWhite(line, n + w, |line|)
  }

  predicate RealFence(fence: Fence) {
    fence.marker in {'`', '~'} && fence.length >= 3
  }

  lemma WidthExactly(trimmed: string, w: nat)
    requires 0 < w <= |trimmed| && AllOf(trimmed, 0, w, trimmed[0]) && (w < |trimmed| ==> trimmed[w] != trimmed[0])
    ensures Width(trimmed) == w
  {
    LeadingExactly(trimmed, trimmed[0], w);
  }

  lemma OpensExactly(line: string, n: nat, c: char, w: nat)
    requires Indented(line, n)
    ensures Opens(line) == Some(Fence(c, w)) <==> FenceOpens(line, n, c, w)
  {
    IndentExactly(line, n);
    var trimmed := Trimmed(line);
    assert trimmed == line[n..];
    if FenceOpens(line, n, c, w) {
      assert forall i :: 0 <= i < w ==> trimmed[i] == line[n + i];
      WidthExactly(trimmed, w);
      assert trimmed[w..] == line[n + w..];
    }
    if Opens(line) == Some(Fence(c, w)) {
      assert trimmed[w..] == line[n + w..];
      assert forall i :: n <= i < n + w ==> line[i] == trimmed[i - n];
    }
  }

  lemma {:induction false} TrimOfWhite(text: string)
    ensures Trim(text) == "" <==> AllWhite(text, 0, |text|)
  {
    var k := StartTrimmed(text);
    var m := EndTrimmed(TrimStart(text));
    forall i | 0 <= i < |text| ensures White(text[i]) <==> AnyWhite(text[i]) {
      WhiteExactly(text[i]);
    }
    if k < |text| {
      assert TrimStart(text)[0] == text[k];
    }
  }

  /** How much white space stands ahead of a text. */
  lemma {:induction false} StartTrimmed(text: string) returns (k: nat)
    ensures k <= |text| && TrimStart(text) == text[k..]
    ensures (forall i :: 0 <= i < k ==> White(text[i])) && (k < |text| ==> !White(text[k]))
  {
    hide White;
    if text != "" && White(text[0]) {
      var rest := StartTrimmed(text[1..]);
      k := rest + 1;
      assert forall i :: 1 <= i < k ==> text[i] == text[1..][i - 1];
    } else {
      k := 0;
    }
  }

  lemma {:induction false} EndTrimmed(text: string) returns (k: nat)
    ensures k <= |text| && TrimEnd(text) == text[..k]
    ensures (forall i :: k <= i < |text| ==> White(text[i])) && (k > 0 ==> !White(text[k - 1]))
  {
    hide White;
    if text != "" && White(Last(text)) {
      var front := text[..|text| - 1];
      k := EndTrimmed(front);
      assert forall i :: k <= i < |front| ==> text[i] == front[i];
      assert k > 0 ==> text[k - 1] == front[k - 1];
    } else {
      k := |text|;
    }
  }

  lemma {:induction false} HashesTrimmed(text: string) returns (k: nat)
    ensures k <= |text| && TrimHashes(text) == text[..k]
    ensures (forall i :: k <= i < |text| ==> text[i] == '#') && (k > 0 ==> text[k - 1] != '#')
  {
    if text != "" && Last(text) == '#' {
      var front := text[..|text| - 1];
      k := HashesTrimmed(front);
      assert forall i :: k <= i < |front| ==> text[i] == front[i];
      assert k > 0 ==> text[k - 1] == front[k - 1];
    } else {
      k := |text|;
    }
  }

  lemma ClosesFrom(line: string, fence: Fence, n: nat)
    requires Indented(line, n) && Closes(line, fence)
    ensures FenceCloses(line, fence, n, Width(line[n..]))
  {
    hide Trim, White, AnyWhite;
    IndentExactly(line, n);
    var trimmed := line[n..];
    var width := Width(trimmed);
    TrimOfWhite(trimmed[width..]);
    assert forall i :: n <= i < n + width ==> line[i] == trimmed[i - n];
    assert forall i :: n + width <= i < |line| ==> line[i] == trimmed[width..][i - n - width];
  }

  lemma ClosesTo(line: string, fence: Fence, n: nat, w: nat)
    requires Indented(line, n) && RealFence(fence) && FenceCloses(line, fence, n, w)
    ensures Closes(line, fence)
  {
    hide Trim, White, AnyWhite;
    IndentExactly(line, n);
    var trimmed := line[n..];
    assert forall i :: 0 <= i < w ==> trimmed[i] == line[n + i];
    if w < |trimmed| {
      MarkersAreInk(fence, line[n + w]);
      assert trimmed[w] == line[n + w];
    }
    WidthExactly(trimmed, w);
    TrimOfWhite(trimmed[w..]);
    assert forall i :: 0 <= i < |trimmed| - w ==> trimmed[w..][i] == line[n + w + i];
  }

  lemma ClosesExactly(line: string, fence: Fence, n: nat)
    requires Indented(line, n) && RealFence(fence)
    ensures Closes(line, fence) <==> exists w: nat :: FenceCloses(line, fence, n, w)
  {
    hide Closes, FenceCloses, Indented;
    if Closes(line, fence) {
      ClosesFrom(line, fence, n);
    }
    if w: nat :| FenceCloses(line, fence, n, w) {
      ClosesTo(line, fence, n, w);
    }
  }

  lemma MarkersAreInk(fence: Fence, c: char)
    requires RealFence(fence)
    ensures AnyWhite(c) ==> c != fence.marker
  {
  }

  // ---- Lines outside the prose ----

  /** Indented code, a blank line, or a line that starts with a tab. */
  predicate LeftOut(line: string, n: nat) {
    n > 3 || n == |line| || (n < |line| && line[n] == '\t')
  }

  lemma LeftOutExactly(line: string, n: nat)
    requires Indented(line, n)
    ensures NoProse(line) <==> LeftOut(line, n)
  {
    IndentExactly(line, n);
  }

  // ---- Headings ----

  /** An underline: one marker over and over, and white space. */
  predicate Underlines(line: string, n: nat, m: nat) {
    && n < m <= |line| && line[n] in {'=', '-'}
    && AllOf(line, n, m, line[n]) && AllWhite(line, m, |line|)
  }

  lemma UnderlinesFrom(line: string, n: nat)
    requires Indented(line, n) && Underline(line[n..])
    ensures exists m: nat :: Underlines(line, n, m)
  {
    hide AnyWhite, White;
    SameWhite();
    var trimmed := line[n..];
    var k := EndTrimmed(trimmed);
    MarkersOfUnderlines(trimmed[0]);
    assert trimmed[0] == line[n] && k > 0;
    forall i | n <= i < n + k ensures line[i] == line[n] {
      assert line[i] == trimmed[i - n];
    }
    forall i | n + k <= i < |line| ensures AnyWhite(line[i]) {
      assert line[i] == trimmed[i - n];
    }
    assert Underlines(line, n, n + k);
  }

  lemma UnderlinesTo(line: string, n: nat, m: nat)
    requires Indented(line, n) && Underlines(line, n, m)
    ensures Underline(line[n..])
  {
    hide AnyWhite, White;
    SameWhite();
    var trimmed := line[n..];
    MarkersOfUnderlines(line[n]);
    assert trimmed[m - n - 1] == line[m - 1];
    forall i | m - n <= i < |trimmed| ensures White(trimmed[i]) {
      assert trimmed[i] == line[n + i];
    }
    TrimEndIs(trimmed, m - n);
    forall i | 0 <= i < m - n ensures trimmed[i] == line[n] {
      assert trimmed[i] == line[n + i];
    }
  }

  lemma UnderlineExactly(line: string, n: nat)
    requires Indented(line, n)
    ensures Underline(Trimmed(line)) <==> exists m: nat :: Underlines(line, n, m)
  {
    hide Underline, Underlines;
    IndentExactly(line, n);
    if Underline(line[n..]) {
      UnderlinesFrom(line, n);
    }
    if m: nat :| Underlines(line, n, m) {
      UnderlinesTo(line, n, m);
    }
  }

  lemma MarkersOfUnderlines(c: char)
    requires c in {'=', '-'}
    ensures !White(c)
  {
  }

  /** At most three spaces, one to six number signs, then the end of the line or plain white space. */
  predicate SignsHeading(line: string, n: nat, w: nat) {
    && 1 <= w <= 6 && n + w <= |line| && AllOf(line, n, n + w, '#')
    && (n + w < |line| ==> PlainWhite(line[n + w]))
  }

  lemma SamePlainWhite()
    ensures forall c :: AsciiWhite(c) <==> PlainWhite(c)
  {
    hide White, AnyWhite;
    forall c ensures AsciiWhite(c) <==> PlainWhite(c) {
      WhiteExactly(c);
    }
  }

  lemma SignsWidth(line: string, n: nat, w: nat)
    requires Indented(line, n) && SignsHeading(line, n, w)
    ensures w == Width(line[n..]) && line[n] == '#'
  {
    hide PlainWhite;
    var trimmed := line[n..];
    assert forall i :: 0 <= i < w ==> trimmed[i] == line[n + i];
    if w < |trimmed| {
      SignsAreInk(line[n + w]);
      assert trimmed[w] == line[n + w];
    }
    WidthExactly(trimmed, w);
  }

  lemma SignsMakeIt(line: string, n: nat)
    requires Indented(line, n) && NumberSigns(line[n..])
    ensures SignsHeading(line, n, Width(line[n..]))
  {
    hide PlainWhite, AsciiWhite;
    SamePlainWhite();
    var trimmed := line[n..];
    var width := Width(trimmed);
    FirstIsAMarker(trimmed);
    assert forall i :: n <= i < n + width ==> line[i] == trimmed[i - n];
    assert width < |trimmed| ==> line[n + width] == trimmed[width];
  }

  lemma SignsExactly(line: string, n: nat)
    requires Indented(line, n)
    ensures NumberSigns(Trimmed(line)) <==> exists w: nat :: SignsHeading(line, n, w)
    ensures forall w: nat :: SignsHeading(line, n, w) ==> w == Width(Trimmed(line))
  {
    hide AsciiWhite, PlainWhite, Width;
    IndentExactly(line, n);
    SamePlainWhite();
    var trimmed := line[n..];
    forall w: nat | SignsHeading(line, n, w) ensures w == Width(trimmed) && NumberSigns(trimmed) {
      SignsWidth(line, n, w);
      assert w < |trimmed| ==> line[n + w] == trimmed[w];
    }
    if NumberSigns(trimmed) {
      SignsMakeIt(line, n);
    }
  }

  lemma FirstIsAMarker(trimmed: string)
    requires trimmed != ""
    ensures Width(trimmed) > 0
  {
  }

  lemma SignsAreInk(c: char)
    ensures PlainWhite(c) ==> c != '#'
  {
  }

  // ---- Titles ----

  /** `text[a..b]` is the text without the white space around it. */
  predicate Bare(text: string, a: nat, b: nat) {
    && a <= b <= |text| && AllWhite(text, 0, a) && AllWhite(text, b, |text|)
    && (a < b ==> !AnyWhite(text[a]) && !AnyWhite(text[b - 1]))
  }

  /** `heading` is `heading[..i]`, white space, and number signs that close it from `j` on. */
  predicate ClosedBySigns(heading: string, i: nat, j: nat) {
    && 0 < i < j < |heading| && !AnyWhite(heading[i - 1])
    && AllWhite(heading, i, j) && AllOf(heading, j, |heading|, '#')
  }

  ghost predicate Titles(heading: string, title: string) {
    if exists i: nat, j: nat :: ClosedBySigns(heading, i, j)
    then exists i: nat, j: nat :: ClosedBySigns(heading, i, j) && title == heading[..i]
    else title == heading
  }

  /** The title of what follows the number signs: bare, and without closing number signs set off by white space. */
  ghost predicate TitleOf(rest: string, title: string) {
    exists a: nat, b: nat :: Bare(rest, a, b) && Titles(rest[a..b], title)
  }

  lemma {:induction false} TrimStartIs(text: string, a: nat)
    requires a <= |text| && (forall i :: 0 <= i < a ==> White(text[i])) && (a < |text| ==> !White(text[a]))
    ensures TrimStart(text) == text[a..]
  {
    hide White;
    if a > 0 {
      TrimStartIs(text[1..], a - 1);
    }
  }

  lemma {:induction false} TrimEndIs(text: string, b: nat)
    requires b <= |text| && (forall i :: b <= i < |text| ==> White(text[i])) && (b > 0 ==> !White(text[b - 1]))
    ensures TrimEnd(text) == text[..b]
  {
    hide White;
    if b < |text| {
      var front := text[..|text| - 1];
      assert forall i :: 0 <= i < |front| ==> front[i] == text[i];
      TrimEndIs(front, b);
    }
  }

  lemma {:induction false} TrimHashesIs(text: string, b: nat)
    requires b <= |text| && (forall i :: b <= i < |text| ==> text[i] == '#') && (b > 0 ==> text[b - 1] != '#')
    ensures TrimHashes(text) == text[..b]
  {
    if b < |text| {
      var front := text[..|text| - 1];
      assert forall i :: 0 <= i < |front| ==> front[i] == text[i];
      TrimHashesIs(front, b);
    }
  }

  lemma SameWhite()
    ensures forall c :: White(c) <==> AnyWhite(c)
  {
    forall c ensures White(c) <==> AnyWhite(c) {
      WhiteExactly(c);
    }
  }

  lemma BareExactly(text: string, a: nat, b: nat)
    requires Bare(text, a, b)
    ensures Trim(text) == text[a..b]
  {
    hide White, AnyWhite;
    SameWhite();
    if a == b {
      TrimStartIs(text, |text|);
    } else {
      TrimStartIs(text, a);
      assert text[a..][b - a - 1] == text[b - 1];
      TrimEndIs(text[a..], b - a);
      assert text[a..][..b - a] == text[a..b];
    }
  }

  lemma BareExists(text: string) returns (a: nat, b: nat)
    ensures Bare(text, a, b)
  {
    hide White, AnyWhite;
    SameWhite();
    a := StartTrimmed(text);
    var k := EndTrimmed(text[a..]);
    b := a + k;
    assert forall i :: b <= i < |text| ==> text[i] == text[a..][i - a];
    assert k > 0 ==> text[b - 1] == text[a..][k - 1];
    assert a < |text| ==> text[a] == text[a..][0];
  }

  /** The text between, as the scanner cuts it. */
  function Cut(heading: string): string {
    var open := TrimHashes(heading);
    if open != "" && White(Last(open)) then TrimEnd(open) else heading
  }

  lemma ClosedCut(heading: string, i: nat, j: nat)
    requires ClosedBySigns(heading, i, j)
    ensures Cut(heading) == heading[..i]
  {
    hide White, AnyWhite;
    SameWhite();
    SignIsInk();
    TrimHashesIs(heading, j);
    assert Last(heading[..j]) == heading[j - 1];
    TrimEndIs(heading[..j], i);
    assert heading[..j][..i] == heading[..i];
  }

  lemma SignIsInk()
    ensures !AnyWhite('#')
  {
  }

  lemma CutIsClosed(heading: string)
    requires heading != "" ==> !AnyWhite(heading[0]) && !AnyWhite(Last(heading))
    ensures Cut(heading) != heading ==> exists i: nat, j: nat :: ClosedBySigns(heading, i, j)
  {
    hide White, AnyWhite;
    SameWhite();
    var j := HashesTrimmed(heading);
    var open := heading[..j];
    if open != "" && White(Last(open)) {
      var i := EndTrimmed(open);
      assert forall k :: 0 <= k < j ==> open[k] == heading[k];
      assert i > 0;
      assert ClosedBySigns(heading, i, j);
    }
  }

  lemma TitleOfHeading(heading: string, title: string)
    requires heading != "" ==> !AnyWhite(heading[0]) && !AnyWhite(Last(heading))
    ensures Titles(heading, title) <==> title == Cut(heading)
  {
    hide Cut, AnyWhite;
    if i: nat, j: nat :| ClosedBySigns(heading, i, j) {
      ClosedCut(heading, i, j);
      forall k: nat, m: nat | ClosedBySigns(heading, k, m) ensures heading[..k] == Cut(heading) {
        ClosedCut(heading, k, m);
      }
    } else {
      CutIsClosed(heading);
    }
  }

  lemma TitleExactly(trimmed: string, title: string)
    ensures TitleOf(trimmed[Width(trimmed)..], title) <==> title == HeadingText(trimmed)
  {
    hide White, AnyWhite, Titles, Trim, Width;
    var rest := trimmed[Width(trimmed)..];
    var a, b := BareExists(rest);
    BareExactly(rest, a, b);
    BareEdges(rest, a, b);
    TitleOfHeading(rest[a..b], title);
    forall c: nat, d: nat | Bare(rest, c, d) ensures rest[c..d] == rest[a..b] {
      BareExactly(rest, c, d);
    }
  }

  lemma BareEdges(text: string, a: nat, b: nat)
    requires Bare(text, a, b)
    ensures text[a..b] != "" ==> !AnyWhite(text[a..b][0]) && !AnyWhite(Last(text[a..b]))
  {
    hide AnyWhite;
  }

  // ---- Paragraphs ----

  /** Lines of a paragraph are joined by one space. */
  lemma {:induction false} JoinExactly(a: seq<string>, b: seq<string>)
    ensures a != [] && b != [] ==> Join(a + b) == Join(a) + " " + Join(b)
    ensures |a| == 1 ==> Join(a) == a[0]
    decreases |b|
  {
    if a != [] && b != [] {
      var front := b[..|b| - 1];
      JoinExactly(a, front);
      assert (a + b)[..|a + b| - 1] == a + front && Last(a + b) == Last(b);
      if front == [] {
        assert a + front == a;
      }
    }
  }

  // ---- One line, exactly ----

  /** The heading a line makes behind the lines read so far: of the paragraph it underlines, or its own title. */
  ghost predicate MakesHeading(s: Scan, line: string, n: nat, text: string) {
    if s.paragraph != [] && exists m: nat :: Underlines(line, n, m) then text == Join(s.paragraph)
    else exists w: nat :: SignsHeading(line, n, w) && TitleOf(line[n + w..], text)
  }

  /** `t` is what is known after a line that stands outside any fence. */
  ghost predicate ReadsOutside(sp: Spelling, s: Scan, line: string, n: nat, t: Scan)
    requires n <= |line|
  {
    if exists c, w: nat :: FenceOpens(line, n, c, w) then
      exists c, w: nat :: FenceOpens(line, n, c, w) && t == Scan(s.headings, s.prose, [], Some(Fence(c, w)))
    else if LeftOut(line, n) then t == Scan(s.headings, s.prose, [], None)
    else if exists text :: MakesHeading(s, line, n, text) then
      exists text :: MakesHeading(s, line, n, text)
                     && t == Scan(s.headings + {sp.slug(text)}, s.prose + line + "\n", [], None)
    else t == Scan(s.headings, s.prose + line + "\n", s.paragraph + [line[n..]], None)
  }

  ghost predicate Reads(sp: Spelling, s: Scan, line: string, n: nat, t: Scan)
    requires n <= |line|
  {
    match s.fence
    case Some(fence) => t == if exists w: nat :: FenceCloses(line, fence, n, w) then s.(fence := None) else s
    case None => ReadsOutside(sp, s, line, n, t)
  }

  lemma MakesExactly(s: Scan, line: string, n: nat, text: string)
    requires Indented(line, n)
    ensures MakesHeading(s, line, n, text) <==>
              if Underline(Trimmed(line)) && s.paragraph != [] then text == Join(s.paragraph)
              else NumberSigns(Trimmed(line)) && text == HeadingText(Trimmed(line))
  {
    hide Underline, NumberSigns, HeadingText, TitleOf, Underlines, SignsHeading, Width;
    UnderlineExactly(line, n);
    SignsExactly(line, n);
    IndentExactly(line, n);
    TitleExactly(line[n..], text);
    var width := Width(line[n..]);
    assert line[n..][width..] == line[n + width..];
  }

  lemma OutsideExactly(sp: Spelling, s: Scan, line: string, n: nat, t: Scan)
    requires s.fence.None? && Indented(line, n) && n <= |line|
    ensures ReadsOutside(sp, s, line, n, t) <==> t == ReadLine(sp, s, line)
  {
    hide Opens, NoProse, Underline, NumberSigns, HeadingText, FenceOpens, LeftOut, MakesHeading, Indented;
    forall c, w: nat ensures Opens(line) == Some(Fence(c, w)) <==> FenceOpens(line, n, c, w) {
      OpensExactly(line, n, c, w);
    }
    LeftOutExactly(line, n);
    IndentExactly(line, n);
    if Opens(line).Some? {
      assert FenceOpens(line, n, Opens(line).value.marker, Opens(line).value.length);
    } else {
      forall text
        ensures MakesHeading(s, line, n, text) <==>
                  if Underline(Trimmed(line)) && s.paragraph != [] then text == Join(s.paragraph)
                  else NumberSigns(Trimmed(line)) && text == HeadingText(Trimmed(line))
      {
        MakesExactly(s, line, n, text);
      }
      if Underline(Trimmed(line)) && s.paragraph != [] {
        assert MakesHeading(s, line, n, Join(s.paragraph));
      } else if NumberSigns(Trimmed(line)) {
        assert MakesHeading(s, line, n, HeadingText(Trimmed(line)));
      }
    }
  }

  lemma OnlyRealFences(line: string)
    ensures Opens(line).Some? ==> RealFence(Opens(line).value)
  {
  }

  lemma {:induction false} FencesAreReal(sp: Spelling, lines: seq<string>)
    ensures ReadAll(sp, lines).fence.Some? ==> RealFence(ReadAll(sp, lines).fence.value)
  {
    hide Opens, Closes, NoProse, Underline, NumberSigns, HeadingText, RealFence;
    if |lines| > 0 {
      FencesAreReal(sp, lines[..|lines| - 1]);
      OnlyRealFences(Last(lines));
    }
  }

  /** Every line of a text is read by the rules above, from what the lines before it left. */
  lemma LineExactly(sp: Spelling, lines: seq<string>, k: nat, n: nat, t: Scan)
    requires k < |lines| && Indented(lines[k], n)
    ensures Reads(sp, ReadAll(sp, lines[..k]), lines[k], n, t) <==> t == ReadAll(sp, lines[..k + 1])
  {
    hide ReadLine, ReadsOutside, FenceCloses, Closes, RealFence;
    var s, line := ReadAll(sp, lines[..k]), lines[k];
    assert lines[..k + 1][..k] == lines[..k];
    FencesAreReal(sp, lines[..k]);
    if s.fence.Some? {
      ClosesExactly(line, s.fence.value, n);
      InsideAFence(sp, s, line);
    } else {
      OutsideExactly(sp, s, line, n, t);
    }
  }

  lemma InsideAFence(sp: Spelling, s: Scan, line: string)
    requires s.fence.Some?
    ensures ReadLine(sp, s, line) == if Closes(line, s.fence.value) then s.(fence := None) else s
  {
  }

  /** Before the first line there is no heading, no prose, no paragraph and no fence. */
  lemma StartExactly(sp: Spelling)
    ensures ReadAll(sp, []) == Scan({}, "", [], None)
  {
  }

  /** A link to an anchor opens with a bracket, a parenthesis and a number sign. */
  lemma LinkOpensExactly(text: string, i: nat)
    requires i <= |text|
    ensures LinkAt(text, i) <==> "](#" <= text[i..]
  {
    assert |text[i..]| == |text| - i;
  }

  // ---- All headings ----

  /** Line `k` stands outside a fence, opens none, is prose, and makes a heading of `text`. */
  ghost predicate HeadingAt(sp: Spelling, lines: seq<string>, k: nat, n: nat, text: string) {
    && k < |lines| && Indented(lines[k], n) && ReadAll(sp, lines[..k]).fence.None?
    && (forall c, w: nat :: !FenceOpens(lines[k], n, c, w)) && !LeftOut(lines[k], n)
    && MakesHeading(ReadAll(sp, lines[..k]), lines[k], n, text)
  }

  lemma LineAdds(sp: Spelling, lines: seq<string>, k: nat, h: string)
    requires k < |lines|
    ensures h in ReadAll(sp, lines[..k + 1]).headings <==>
              || h in ReadAll(sp, lines[..k]).headings
              || exists n: nat, text :: HeadingAt(sp, lines, k, n, text) && h == sp.slug(text)
  {
    hide ReadAll, FenceOpens, FenceCloses, LeftOut, MakesHeading, Indented;
    var s, t, n := ReadAll(sp, lines[..k]), ReadAll(sp, lines[..k + 1]), LeadingOf(lines[k], ' ');
    IndentExactly(lines[k], n);
    LineExactly(sp, lines, k, n, t);
    forall m: nat | Indented(lines[k], m) ensures m == n {
      IndentExactly(lines[k], m);
    }
    OneHeading(s, lines[k], n);
    if s.fence.None? && (forall c, w: nat :: !FenceOpens(lines[k], n, c, w)) && !LeftOut(lines[k], n) {
      if text :| MakesHeading(s, lines[k], n, text) {
        assert HeadingAt(sp, lines, k, n, text);
      }
    }
  }

  lemma OneHeading(s: Scan, line: string, n: nat)
    requires Indented(line, n)
    ensures forall a, b :: MakesHeading(s, line, n, a) && MakesHeading(s, line, n, b) ==> a == b
  {
    hide Underline, NumberSigns, HeadingText, MakesHeading;
    forall a, b | MakesHeading(s, line, n, a) && MakesHeading(s, line, n, b) ensures a == b {
      MakesExactly(s, line, n, a);
      MakesExactly(s, line, n, b);
    }
  }

  /** The slugs a link may name are those of the headings the lines make, and no others. */
  lemma {:induction false} HeadingsExactly(sp: Spelling, lines: seq<string>, h: string)
    ensures h in ReadAll(sp, lines).headings <==>
              exists k: nat, n: nat, text :: HeadingAt(sp, lines, k, n, text) && h == sp.slug(text)
  {
    hide HeadingAt;
    if |lines| > 0 {
      var m := |lines| - 1;
      HeadingsExactly(sp, lines[..m], h);
      LineAdds(sp, lines, m, h);
      assert lines[..m + 1] == lines;
      forall k: nat, n: nat, text | k < m ensures HeadingAt(sp, lines[..m], k, n, text) <==> HeadingAt(sp, lines, k, n, text) {
        HeadingInFront(sp, lines, m, k, n, text);
      }
      if k: nat, n: nat, text :| HeadingAt(sp, lines, k, n, text) && h == sp.slug(text) {
        InLines(sp, lines, k, n, text);
        assert k < m ==> HeadingAt(sp, lines[..m], k, n, text);
      }
      if k: nat, n: nat, text :| HeadingAt(sp, lines[..m], k, n, text) && h == sp.slug(text) {
        InLines(sp, lines[..m], k, n, text);
        assert HeadingAt(sp, lines, k, n, text);
      }
    } else {
      NoLinesNoHeadings(sp);
    }
  }

  lemma InLines(sp: Spelling, lines: seq<string>, k: nat, n: nat, text: string)
    requires HeadingAt(sp, lines, k, n, text)
    ensures k < |lines|
  {
  }

  lemma NoLinesNoHeadings(sp: Spelling)
    ensures ReadAll(sp, []).headings == {}
    ensures forall k: nat, n: nat, text :: !HeadingAt(sp, [], k, n, text)
  {
  }

  lemma HeadingInFront(sp: Spelling, lines: seq<string>, m: nat, k: nat, n: nat, text: string)
    requires k < m <= |lines|
    ensures HeadingAt(sp, lines[..m], k, n, text) <==> HeadingAt(sp, lines, k, n, text)
  {
    hide ReadAll, FenceOpens, LeftOut, MakesHeading, Indented;
    assert lines[..m][..k] == lines[..k] && lines[..m][k] == lines[k];
  }
}
