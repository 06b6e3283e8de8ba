/**
 Internal links of a Markdown text whose anchor no heading produces: the line scanner that tells
 headings and prose from code, and the link scan over the prose. A string is its sequence of
 Unicode scalars; the slug of a heading and lower-casing are given.
 */
module Anchors {
  import opened Prelude

  datatype Spelling = Spelling(slug: string -> string, lower: string -> string)

  datatype Fence = Fence(marker: char, length: nat)

  datatype Scan = Scan(headings: set<string>, prose: string, paragraph: seq<string>, fence: Option<Fence>)

  predicate White(c: char) {
    var n := c as int;
    || 9 <= n <= 13 || n == 0x20 || n == 0x85 || n == 0xA0 || n == 0x1680 || 0x2000 <= n <= 0x200A
    || n == 0x2028 || n == 0x2029 || n == 0x202F || n == 0x205F || n == 0x3000
  }

  predicate AsciiWhite(c: char) {
    c == ' ' || c == '\t' || c == '\n' || c == '\r' || c as int == 12
  }

  function LeadingOf(text: string, c: char): (n: nat)
    ensures n <= |text| && (forall i :: 0 <= i < n ==> text[i] == c) && (n < |text| ==> text[n] != c)
  {
    if text != "" && text[0] == c then 1 + LeadingOf(text[1..], c) else 0
  }

  function TrimStart(text: string): (r: string)
    ensures |r| <= |text|
  {
    if text != "" && White(text[0]) then TrimStart(text[1..]) else text
  }

  function TrimEnd(text: string): (r: string)
    ensures r <= text
  {
    if text != "" && White(Last(text)) then TrimEnd(text[..|text| - 1]) else text
  }

  function Trim(text: string): string {
    TrimEnd(TrimStart(text))
  }

  function TrimHashes(text: string): (r: string)
    ensures r <= text
  {
    if text != "" && Last(text) == '#' then TrimHashes(text[..|text| - 1]) else text
  }

  function Trimmed(line: string): string {
    line[LeadingOf(line, ' ')..]
  }

  function Marker(trimmed: string): char {
    if trimmed == "" then ' ' else trimmed[0]
  }

  function Width(trimmed: string): (n: nat)
    ensures n <= |trimmed|
  {
    LeadingOf(trimmed, Marker(trimmed))
  }

  function Join(parts: seq<string>): string {
    if |parts| == 0 then "" else if |parts| == 1 then parts[0] else Join(parts[..|parts| - 1]) + " " + Last(parts)
  }

  predicate Closes(line: string, fence: Fence) {
    var trimmed := Trimmed(line);
    && LeadingOf(line, ' ') <= 3 && Marker(trimmed) == fence.marker && Width(trimmed) >= fence.length
    && Trim(trimmed[Width(trimmed)..]) == ""
  }

  function Opens(line: string): Option<Fence> {
    var trimmed := Trimmed(line);
    var marker, width := Marker(trimmed), Width(trimmed);
    if LeadingOf(line, ' ') <= 3 && (marker == '`' || marker == '~') && width >= 3
       && (marker != '`' || '`' !in trimmed[width..])
    then Some(Fence(marker, width))
    else None
  }

  predicate NoProse(line: string) {
    LeadingOf(line, ' ') > 3 || Trimmed(line) == "" || Trimmed(line)[0] == '\t'
  }

  predicate Underline(trimmed: string) {
    var marker := Marker(trimmed);
    (marker == '=' || marker == '-') && forall i :: 0 <= i < |TrimEnd(trimmed)| ==> trimmed[i] == marker
  }

  predicate NumberSigns(trimmed: string) {
    var width := Width(trimmed);
    Marker(trimmed) == '#' && width <= 6 && (|trimmed| == width || AsciiWhite(trimmed[width]))
  }

  function HeadingText(trimmed: string): string {
    var heading := Trim(trimmed[Width(trimmed)..]);
    var open := TrimHashes(heading);
    if open != "" && White(Last(open)) then TrimEnd(open) else heading
  }

  /** A line outside any fence that opens none and is not left out of the prose. */
  function ReadProse(sp: Spelling, s: Scan, line: string): Scan {
    var trimmed := Trimmed(line);
    var prose := s.prose + line + "\n";
    if Underline(trimmed) && s.paragraph != []
    then Scan(s.headings + {sp.slug(Join(s.paragraph))}, prose, [], None)
    else if NumberSigns(trimmed)
    then Scan(s.headings + {sp.slug(HeadingText(trimmed))}, prose, [], None)
    else Scan(s.headings, prose, s.paragraph + [trimmed], None)
  }

  function ReadLine(sp: Spelling, s: Scan, line: string): Scan {
    match s.fence
    case Some(fence) => if Closes(line, fence) then s.(fence := None) else s
    case None =>
      if Opens(line).Some? then s.(fence := Opens(line), paragraph := [])
      else if NoProse(line) then s.(paragraph := [])
      else ReadProse(sp, s, line)
  }

  function ReadFrom(sp: Spelling, s: Scan, lines: seq<string>): Scan {
    if |lines| == 0 then s else ReadLine(sp, ReadFrom(sp, s, lines[..|lines| - 1]), Last(lines))
  }

  const BLANK := Scan({}, "", [], None)

  function ReadAll(sp: Spelling, lines: seq<string>): Scan {
    ReadFrom(sp, BLANK, lines)
  }

  // ---- Links ----

  predicate LinkAt(text: string, i: nat) {
    i + 3 <= |text| && text[i] == ']' && text[i + 1] == '(' && text[i + 2] == '#'
  }

  /** The first place at or after `i` where a link's anchor begins, behind its `](#`. */
  function FindLink(text: string, i: nat): (r: Option<nat>)
    requires i <= |text|
    ensures r.Some? ==> i + 3 <= r.value <= |text| && LinkAt(text, r.value - 3)
    ensures r.Some? ==> forall j :: i <= j < r.value - 3 ==> !LinkAt(text, j)
    ensures r.None? ==> forall j :: i <= j ==> !LinkAt(text, j)
    decreases |text| - i
  {
    if LinkAt(text, i) then Some(i + 3) else if i == |text| then None else FindLink(text, i + 1)
  }

  function FindClose(text: string, i: nat): (r: Option<nat>)
    requires i <= |text|
    ensures r.Some? ==> i <= r.value < |text| && text[r.value] == ')' && ')' !in text[i..r.value]
    ensures r.None? ==> ')' !in text[i..]
    decreases |text| - i
  {
    if i == |text| then None
    else if text[i] == ')' then Some(i)
    else
      assert text[i..] == [text[i]] + text[i + 1..];
      var r := FindClose(text, i + 1);
      assert r.Some? ==> text[i..r.value] == [text[i]] + text[i + 1..r.value];
      r
  }

  /** The anchors linked from `i` on, in the order their links stand. */
  function AnchorsFrom(text: string, i: nat): seq<string>
    requires i <= |text|
    decreases |text| - i
  {
    match FindLink(text, i)
    case None => []
    case Some(start) =>
      match FindClose(text, start)
      case None => []
      case Some(end) => [text[start..end]] + AnchorsFrom(text, end)
  }

  /** Every anchor read stands between a link's opening and the next closing parenthesis. */
  lemma {:induction false} AnchorsAreLinks(text: string, from: nat, k: nat)
    requires from <= |text| && k < |AnchorsFrom(text, from)|
    ensures exists i, j :: from <= i && IsLink(text, i, j, AnchorsFrom(text, from)[k])
    decreases |text| - from
  {
    hide LinkAt;
    var start := FindLink(text, from).value;
    var end := FindClose(text, start).value;
    if k == 0 {
      var i: nat := start - 3;
      assert text[i + 3..end] == text[start..end];
      assert from <= i && IsLink(text, i, end, AnchorsFrom(text, from)[k]);
    } else {
      AnchorsAreLinks(text, end, k - 1);
      var i, j :| end <= i && IsLink(text, i, j, AnchorsFrom(text, end)[k - 1]);
      assert from <= i && IsLink(text, i, j, AnchorsFrom(text, from)[k]);
    }
  }

  predicate IsLink(text: string, i: nat, j: nat, anchor: string) {
    && LinkAt(text, i) && i + 3 <= j < |text| && text[j] == ')'
    && anchor == text[i + 3..j] && ')' !in anchor
  }

  /** Every link is read: its anchor is one that is read, or the end of one that began earlier. */
  lemma {:induction false} LinksAreRead(text: string, from: nat, i: nat, j: nat)
    requires from <= i && i + 3 <= j <= |text| && IsLink(text, i, j, text[i + 3..j])
    ensures exists k :: 0 <= k < |AnchorsFrom(text, from)| && EndsWith(AnchorsFrom(text, from)[k], text[i + 3..j])
    decreases |text| - from
  {
    hide LinkAt;
    assert FindLink(text, from).Some?;
    var start := FindLink(text, from).value;
    assert start <= i + 3;
    assert text[start..][j - start] == ')';
    var end := FindClose(text, start).value;
    if end <= i {
      LinksAreRead(text, end, i, j);
      var k :| 0 <= k < |AnchorsFrom(text, end)| && EndsWith(AnchorsFrom(text, end)[k], text[i + 3..j]);
      assert AnchorsFrom(text, from)[k + 1] == AnchorsFrom(text, end)[k];
    } else {
      SameClose(text, start, end, i, j);
      assert EndsWith(AnchorsFrom(text, from)[0], text[i + 3..j]);
    }
  }

  predicate EndsWith(text: string, tail: string) {
    |tail| <= |text| && text[|text| - |tail|..] == tail
  }

  lemma NoCloseBetween(text: string, a: nat, b: nat, k: nat)
    requires a <= k < b <= |text| && ')' !in text[a..b]
    ensures text[k] != ')'
  {
    assert text[a..b][k - a] == text[k];
  }

  lemma SameClose(text: string, start: nat, end: nat, i: nat, j: nat)
    requires i + 3 <= j <= |text| && IsLink(text, i, j, text[i + 3..j])
    requires start <= i + 3 && i < end < |text| && start <= end && text[end] == ')' && ')' !in text[start..end]
    ensures end == j && EndsWith(text[start..end], text[i + 3..j])
  {
    if j < end {
      NoCloseBetween(text, start, end, j);
    } else if i + 3 <= end < j {
      NoCloseBetween(text, i + 3, j, end);
    } else if j == end {
      assert text[start..end][i + 3 - start..] == text[i + 3..end];
    }
  }

  function AddOnce(seen: seq<string>, anchor: string): seq<string> {
    if anchor in seen then seen else seen + [anchor]
  }

  /** The anchors of `found` that no heading produces, each once, in first-seen order. */
  function Unmatched(sp: Spelling, headings: set<string>, found: seq<string>): (r: seq<string>)
    ensures forall a :: a in r <==> a in found && sp.lower(a) !in headings
    ensures forall i, j :: 0 <= i < j < |r| ==> r[i] != r[j]
  {
    if |found| == 0 then []
    else
      var before := Unmatched(sp, headings, found[..|found| - 1]);
      assert forall a :: a in found <==> a in found[..|found| - 1] || a == Last(found);
      if sp.lower(Last(found)) in headings then before else AddOnce(before, Last(found))
  }

  function MissingOf(sp: Spelling, lines: seq<string>): seq<string> {
    var s := ReadAll(sp, lines);
    Unmatched(sp, s.headings, AnchorsFrom(s.prose, 0))
  }

  // ---- The scanner ----

  lemma AnchorsStep(text: string, i: nat)
    requires i <= |text|
    ensures FindLink(text, i).None? ==> AnchorsFrom(text, i) == []
    ensures FindLink(text, i).Some? ==>
              var start := FindLink(text, i).value;
              && (FindClose(text, start).None? ==> AnchorsFrom(text, i) == [])
              && (FindClose(text, start).Some? ==>
                    var end := FindClose(text, start).value;
                    AnchorsFrom(text, i) == [text[start..end]] + AnchorsFrom(text, end))
  {
    hide LinkAt;
  }

  lemma UnmatchedStep(sp: Spelling, headings: set<string>, found: seq<string>, anchor: string)
    ensures Unmatched(sp, headings, found + [anchor])
         == if sp.lower(anchor) in headings then Unmatched(sp, headings, found)
            else AddOnce(Unmatched(sp, headings, found), anchor)
  {
    assert (found + [anchor])[..|found|] == found;
  }

  method MissingAnchors(sp: Spelling, lines: seq<string>) returns (missing: seq<string>)
    ensures missing == MissingOf(sp, lines)
  {
    hide FindLink, FindClose, AnchorsFrom, Unmatched, ReadAll, LinkAt;
    var headings, prose := ReadHeadings(sp, lines);
    missing := [];
    var at := 0;
    ghost var found: seq<string> := [];
    NothingUnmatched(sp, headings);
    while true
      invariant 0 <= at <= |prose|
      invariant found + AnchorsFrom(prose, at) == AnchorsFrom(prose, 0)
      invariant missing == Unmatched(sp, headings, found)
      decreases |prose| - at
    {
      AnchorsStep(prose, at);
      var start := FindLink(prose, at);
      if start.None? {
        break;
      }
      var end := FindClose(prose, start.value);
      if end.None? {
        break;
      }
      var anchor := prose[start.value..end.value];
      UnmatchedStep(sp, headings, found, anchor);
      assert found + ([anchor] + AnchorsFrom(prose, end.value)) == (found + [anchor]) + AnchorsFrom(prose, end.value);
      found := found + [anchor];
      if sp.lower(anchor) !in headings && anchor !in missing {
        missing := missing + [anchor];
      }
      at := end.value;
    }
    assert found + [] == found;
  }

  lemma NothingUnmatched(sp: Spelling, headings: set<string>)
    ensures Unmatched(sp, headings, []) == []
  {
  }

  method ReadHeadings(sp: Spelling, lines: seq<string>) returns (headings: set<string>, prose: string)
    ensures headings == ReadAll(sp, lines).headings && prose == ReadAll(sp, lines).prose
  {
    hide Closes, Opens, NoProse, Underline, NumberSigns, HeadingText, Join, Trimmed;
    headings, prose := {}, "";
    var paragraph: seq<string> := [];
    var fence: Option<Fence> := None;
    for i := 0 to |lines|
      invariant Scan(headings, prose, paragraph, fence) == ReadAll(sp, lines[..i])
    {
      assert lines[..i + 1][..i] == lines[..i];
      var line := lines[i];
      var trimmed := Trimmed(line);
      if fence.Some? {
        if Closes(line, fence.value) {
          fence := None;
        }
        continue;
      }
      if Opens(line).Some? {
        fence := Opens(line);
        paragraph := [];
        continue;
      }
      if NoProse(line) {
        paragraph := [];
        continue;
      }
      prose := prose + line + "\n";
      if Underline(trimmed) && paragraph != [] {
        headings := headings + {sp.slug(Join(paragraph))};
        paragraph := [];
      } else if NumberSigns(trimmed) {
        headings := headings + {sp.slug(HeadingText(trimmed))};
        paragraph := [];
      } else {
        paragraph := paragraph + [trimmed];
      }
    }
    assert lines[..|lines|] == lines;
  }

  /** No reported anchor has a heading, none is reported twice, and every other linked anchor is reported. */
  lemma ReportedAnchors(sp: Spelling, lines: seq<string>, a: string)
    ensures var s, missing := ReadAll(sp, lines), MissingOf(sp, lines);
            && (a in missing <==> a in AnchorsFrom(s.prose, 0) && sp.lower(a) !in s.headings)
            && forall i, j :: 0 <= i < j < |missing| ==> missing[i] != missing[j]
  {
  }

  // ---- A fenced block ----

  ghost predicate Block(lines: seq<string>) {
    && |lines| >= 2 && Opens(lines[0]).Some?
    && Closes(Last(lines), Opens(lines[0]).value)
    && forall i :: 1 <= i < |lines| - 1 ==> !Closes(lines[i], Opens(lines[0]).value)
  }

  lemma {:induction false} ReadAppend(sp: Spelling, s: Scan, a: seq<string>, b: seq<string>)
    ensures ReadFrom(sp, s, a + b) == ReadFrom(sp, ReadFrom(sp, s, a), b)
    decreases |b|
  {
    hide ReadLine;
    if |b| == 0 {
      assert a + b == a;
    } else {
      assert (a + b)[..|a + b| - 1] == a + b[..|b| - 1];
      ReadAppend(sp, s, a, b[..|b| - 1]);
    }
  }

  lemma {:induction false} InsideFence(sp: Spelling, s: Scan, body: seq<string>)
    requires s.fence.Some? && forall i :: 0 <= i < |body| ==> !Closes(body[i], s.fence.value)
    ensures ReadFrom(sp, s, body) == s
  {
    hide Closes, Opens, NoProse, ReadProse;
    if |body| > 0 {
      InsideFence(sp, s, body[..|body| - 1]);
    }
  }

  /** Outside a fence, a whole fenced block ends the pending paragraph and does nothing else. */
  lemma BlockOnlyEndsTheParagraph(sp: Spelling, s: Scan, block: seq<string>)
    requires s.fence.None? && Block(block)
    ensures ReadFrom(sp, s, block) == s.(paragraph := [])
  {
    hide Closes, Opens, NoProse, ReadProse;
    var inside := s.(fence := Opens(block[0]), paragraph := []);
    var body := block[1..|block| - 1];
    assert block[..1][..0] == [];
    assert ReadFrom(sp, s, block[..1]) == inside;
    InsideFence(sp, inside, body);
    assert block == block[..1] + body + [Last(block)];
    ReadAppend(sp, s, block[..1], body);
    ReadAppend(sp, s, block[..1] + body, [Last(block)]);
    assert [Last(block)][..0] == [];
    assert ReadFrom(sp, inside, [Last(block)]) == ReadLine(sp, inside, Last(block));
  }

  /**
   Inserting a whole fenced block between lines that leave no fence open and no paragraph pending
   leaves the answer as it was, whatever follows; and it leaves the scanner where it was exactly then.
   */
  lemma FencedBlockChangesNothing(sp: Spelling, before: seq<string>, block: seq<string>, after: seq<string>)
    requires Block(block) && ReadAll(sp, before).fence.None?
    ensures ReadAll(sp, before + block) == ReadAll(sp, before) <==> ReadAll(sp, before).paragraph == []
    ensures ReadAll(sp, before).paragraph == [] ==>
              MissingOf(sp, before + block + after) == MissingOf(sp, before + after)
  {
    hide ReadLine, Block, Unmatched, AnchorsFrom;
    var s := ReadAll(sp, before);
    ReadAppend(sp, BLANK, before, block);
    BlockOnlyEndsTheParagraph(sp, s, block);
    ReadAppend(sp, BLANK, before + block, after);
    ReadAppend(sp, BLANK, before, after);
  }

  /** With a paragraph pending the block is not neutral: an underline after it no longer makes the heading. */
  lemma FencedBlockTakesTheHeading(sp: Spelling, before: seq<string>, block: seq<string>, line: string)
    requires Block(block) && ReadAll(sp, before).fence.None? && ReadAll(sp, before).paragraph != []
    requires Opens(line).None? && !NoProse(line) && Underline(Trimmed(line))
    ensures var s := ReadAll(sp, before);
            && ReadAll(sp, before + [line]).headings == s.headings + {sp.slug(Join(s.paragraph))}
            && ReadAll(sp, before + block + [line]).headings == s.headings
  {
    hide Block, Opens, NoProse, Underline, NumberSigns, Join;
    var s := ReadAll(sp, before);
    UnderlineIsNoSign(Trimmed(line));
    ReadAppend(sp, BLANK, before, block);
    BlockOnlyEndsTheParagraph(sp, s, block);
    assert (before + block + [line])[..|before + block|] == before + block;
    assert (before + [line])[..|before|] == before;
  }

  lemma UnderlineIsNoSign(trimmed: string)
    requires Underline(trimmed)
    ensures !NumberSigns(trimmed)
  {
  }
}
