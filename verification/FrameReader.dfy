/**
 A reader of the provider's input that knows only the prompt: it reads a line, and when that
 line declares a length it takes that many bytes and one newline. It recovers every body.
 */
module FrameReader {
  import opened Prelude
  import opened Framing
  import Decimal

  predicate OneLine(s: string) {
    forall i :: 0 <= i < |s| ==> s[i] != '\n'
  }

  function LineEnd(s: string): (n: nat)
    ensures n <= |s|
    ensures forall i :: 0 <= i < n ==> s[i] != '\n'
    ensures n < |s| ==> s[n] == '\n'
  {
    if |s| == 0 || s[0] == '\n' then 0 else 1 + LineEnd(s[1..])
  }

  lemma LineEndOf(line: string, rest: string)
    requires OneLine(line)
    ensures LineEnd(Framing.Line(line) + rest) == |line|
  {
    var s := Framing.Line(line) + rest;
    assert forall i :: 0 <= i < |line| ==> s[i] == line[i];
    assert s[|line|] == '\n';
  }

  /** What follows the first line of `s`. */
  function AfterLine(s: string): string {
    if LineEnd(s) < |s| then s[LineEnd(s) + 1..] else []
  }

  function DigitsAtEnd(s: string): (d: string)
    ensures Decimal.AllDigits(d) && |d| <= |s|
  {
    if |s| > 0 && Decimal.IsDigit(Last(s)) then DigitsAtEnd(s[..|s| - 1]) + [Last(s)] else []
  }

  lemma {:induction false} DigitsAtEndOf(s: string, d: string)
    requires |s| > 0 && !Decimal.IsDigit(Last(s)) && Decimal.AllDigits(d)
    ensures DigitsAtEnd(s + d) == d
    decreases |d|
  {
    if |d| == 0 {
      assert s + d == s;
    } else {
      assert (s + d)[..|s + d| - 1] == s + d[..|d| - 1];
      DigitsAtEndOf(s, d[..|d| - 1]);
    }
  }

  /** The byte count a header line declares; any other line declares none. */
  function DeclaredLength(line: string): Option<nat> {
    var n := |line| - |FOLLOW|;
    if n < 0 || line[n..] != FOLLOW then None
    else
      var d := DigitsAtEnd(line[..n]);
      if |d| == 0 then None else Some(Decimal.Parse(d))
  }

  lemma DeclaredLengthOf(title: string, n: nat)
    ensures DeclaredLength(title + COMMA + Decimal.Print(n) + FOLLOW) == Some(n)
  {
    var line := title + COMMA + Decimal.Print(n) + FOLLOW;
    var k := |line| - |FOLLOW|;
    assert !Decimal.IsDigit(Last(title + COMMA));
    Decimal.ParsePrint(n);
    DigitsAtEndOf(title + COMMA, Decimal.Print(n));
    hide FOLLOW, COMMA, DigitsAtEnd, Decimal.Print, Decimal.Parse;
    assert line[..k] == title + COMMA + Decimal.Print(n);
    assert line[k..] == FOLLOW;
  }

  datatype Taken = Taken(body: string, rest: string)

  /** One frame at the start of `s`, or `None` when its first line declares no length. */
  function TakeFrame(s: string): (t: Option<Taken>)
    ensures t.Some? ==> |t.value.rest| < |s|
  {
    var e := LineEnd(s);
    match DeclaredLength(s[..e])
    case None => None
    case Some(n) =>
      var start := e + 1;
      if start + n < |s| && s[start + n] == '\n' then Some(Taken(s[start..start + n], s[start + n + 1..]))
      else None
  }

  lemma TakeFrameOf(title: string, body: string, rest: string)
    requires OneLine(title)
    ensures TakeFrame(Frame(title, body) + rest) == Some(Taken(body, rest))
  {
    var header := title + COMMA + Decimal.Print(|body|) + FOLLOW;
    var s := Frame(title, body) + rest;
    assert OneLine(header) by { HeaderIsOneLine(title, |body|); }
    DeclaredLengthOf(title, |body|);
    hide FOLLOW, COMMA, Decimal.Print, DeclaredLength;
    var tail := body + ['\n'] + rest;
    assert s == Framing.Line(header) + tail;
    LineEndOf(header, tail);
    hide Framing.Frame, Framing.Line, LineEnd, OneLine;
    TakeAt(s, header, body, rest);
  }

  lemma TakeAt(s: string, header: string, body: string, rest: string)
    requires s == Framing.Line(header) + (body + ['\n'] + rest)
    requires LineEnd(s) == |header| && DeclaredLength(header) == Some(|body|)
    ensures TakeFrame(s) == Some(Taken(body, rest))
  {
    hide DeclaredLength, LineEnd;
    assert s[..|header|] == header;
    var start := |header| + 1;
    assert s[start..start + |body|] == body;
    assert s[start + |body|] == '\n';
    assert s[start + |body| + 1..] == rest;
  }

  lemma OneLineAppend(a: string, b: string)
    requires OneLine(a) && OneLine(b)
    ensures OneLine(a + b)
  {
  }

  lemma NumeralIsOneLine(n: nat)
    ensures OneLine(Decimal.Print(n))
  {
    hide Decimal.Print;
  }

  lemma HeaderIsOneLine(title: string, n: nat)
    requires OneLine(title)
    ensures OneLine(title + COMMA + Decimal.Print(n) + FOLLOW)
  {
    NumeralIsOneLine(n);
    assert OneLine(COMMA);
    FollowIsOneLine();
    hide COMMA, FOLLOW, OneLine, Decimal.Print;
    OneLineAppend(title, COMMA);
    OneLineAppend(title + COMMA, Decimal.Print(n));
    OneLineAppend(title + COMMA + Decimal.Print(n), FOLLOW);
  }

  // ---- The fixed words hold no newline ----

  lemma TaskOpensOnOneLine()
    ensures OneLine(TASK_OPEN) && OneLine(TASK_BOUNDS)
  {
  }

  lemma TaskGoesOnOnOneLine()
    ensures OneLine(TASK_VALID) && OneLine(TASK_AUTHORITY)
  {
  }

  lemma ContextOpensOnOneLine()
    ensures OneLine(CONTEXT_OPEN) && OneLine(NOTICE_SUPPLIED)
  {
  }

  lemma NoticeIsOneLine()
    ensures OneLine(NOTICE_DATA) && OneLine(NOTICE_AUTHORITY)
  {
  }

  lemma FollowIsOneLine()
    ensures OneLine(FOLLOW)
  {
  }

  // ---- Whole parts ----

  datatype Frames = Frames(bodies: seq<string>, rest: string)

  /** Every frame at the start of `s`, up to the first line that declares no length. */
  function TakeFrames(s: string): Frames
    decreases |s|
  {
    match TakeFrame(s)
    case None => Frames([], s)
    case Some(t) =>
      var more := TakeFrames(t.rest);
      Frames([t.body] + more.bodies, more.rest)
  }

  lemma TakeFramesFirst(title: string, body: string, rest: string)
    requires OneLine(title)
    ensures TakeFrames(Frame(title, body) + rest) ==
            Frames([body] + TakeFrames(rest).bodies, TakeFrames(rest).rest)
  {
    TakeFrameOf(title, body, rest);
    hide Frame, TakeFrame;
  }

  lemma TakeFramesNone(line: string, rest: string)
    requires OneLine(line) && DeclaredLength(line).None?
    ensures TakeFrames(Framing.Line(line) + rest) == Frames([], Framing.Line(line) + rest)
    ensures AfterLine(Framing.Line(line) + rest) == rest
  {
    LineEndOf(line, rest);
    hide DeclaredLength, LineEnd, OneLine;
    var s := Framing.Line(line) + rest;
    assert s[..|line|] == line && s[|line| + 1..] == rest;
  }

  function Bodies(pages: seq<Page>): seq<string> {
    seq(|pages|, i requires 0 <= i < |pages| => pages[i].bytes)
  }

  ghost predicate SingleLineIds(c: Context) {
    OneLine(c.manifestDigest) && forall p :: p in c.pages ==> OneLine(p.repository) && OneLine(p.digest)
  }

  lemma PageTitleIsOneLine(page: Page, i: nat, n: nat)
    requires OneLine(page.repository) && OneLine(page.digest)
    ensures OneLine(PageTitle(page, i, n))
  {
    NumeralIsOneLine(i + 1);
    NumeralIsOneLine(n);
    assert OneLine(PAGE) && OneLine(OF) && OneLine(REPOSITORY) && OneLine(DIGEST);
    hide PAGE, OF, REPOSITORY, DIGEST, OneLine, Decimal.Print;
    OneLineAppend(PAGE, Decimal.Print(i + 1));
    OneLineAppend(PAGE + Decimal.Print(i + 1), OF);
    OneLineAppend(PAGE + Decimal.Print(i + 1) + OF, Decimal.Print(n));
    OneLineAppend(PAGE + Decimal.Print(i + 1) + OF + Decimal.Print(n), REPOSITORY);
    OneLineAppend(PAGE + Decimal.Print(i + 1) + OF + Decimal.Print(n) + REPOSITORY, page.repository);
    OneLineAppend(PAGE + Decimal.Print(i + 1) + OF + Decimal.Print(n) + REPOSITORY + page.repository, DIGEST);
    OneLineAppend(PAGE + Decimal.Print(i + 1) + OF + Decimal.Print(n) + REPOSITORY + page.repository + DIGEST, page.digest);
  }

  lemma BodiesNext(pages: seq<Page>, k: nat)
    requires k < |pages|
    ensures Bodies(pages[..k + 1]) == Bodies(pages[..k]) + [pages[k].bytes]
  {
  }

  lemma NoPageFrames(pages: seq<Page>, rest: string)
    ensures PageFrames(pages, 0) + rest == rest && Bodies(pages[..0]) == []
  {
  }

  lemma PageFramesNext(pages: seq<Page>, k: nat, rest: string)
    requires k < |pages|
    ensures PageFrames(pages, k + 1) + rest ==
            PageFrames(pages, k) + (Frame(PageTitle(pages[k], k, |pages|), pages[k].bytes) + rest)
  {
    hide Frame, PageTitle;
  }

  lemma {:induction false} TakePageFrames(pages: seq<Page>, upTo: nat, rest: string)
    requires upTo <= |pages|
    requires forall p :: p in pages ==> OneLine(p.repository) && OneLine(p.digest)
    ensures TakeFrames(PageFrames(pages, upTo) + rest) ==
            Frames(Bodies(pages[..upTo]) + TakeFrames(rest).bodies, TakeFrames(rest).rest)
  {
    hide *;
    if upTo == 0 {
      NoPageFrames(pages, rest);
    } else {
      var k := upTo - 1;
      var title := PageTitle(pages[k], k, |pages|);
      assert pages[k] in pages;
      PageTitleIsOneLine(pages[k], k, |pages|);
      TakeFramesFirst(title, pages[k].bytes, rest);
      TakePageFrames(pages, k, Frame(title, pages[k].bytes) + rest);
      PageFramesNext(pages, k, rest);
      BodiesNext(pages, k);
    }
  }

  // ---- The whole input ----

  datatype Contents = Contents(pages: seq<string>, documents: seq<string>)

  /** The frames between a preamble line and the closing line, and what follows that line. */
  function TakePart(s: string): Frames {
    var f := TakeFrames(AfterLine(s));
    Frames(f.bodies, AfterLine(f.rest))
  }

  /** Everything after the known prompt, read back. */
  function ReadBack(s: string): Contents {
    var context := if |s| >= 2 && s[0] == '\n' && s[1] == '\n' then TakePart(s[2..]) else Frames([], s);
    var documents := if |context.rest| >= 1 then TakePart(context.rest[1..]).bodies else [];
    Contents(context.bodies, documents)
  }

  function ContentsOf(r: Request): Contents {
    Contents(
      match r.context case None => [] case Some(c) => Bodies(c.pages),
      match r.documentation
      case None => []
      case Some(d) => DocumentsOf(d))
  }

  ghost predicate SingleLineDigests(d: Documentation) {
    OneLine(d.task.digest) && OneLine(d.resultSchema.digest) && (d.skill.Some? ==> OneLine(d.skill.value.digest))
  }

  ghost predicate SingleLine(r: Request) {
    && (r.context.Some? ==> SingleLineIds(r.context.value))
    && (r.documentation.Some? ==> SingleLineDigests(r.documentation.value))
  }

  lemma ContextEndIsOneLine()
    ensures OneLine(CONTEXT_END)
  {
  }

  lemma ContextEndDeclaresNothing()
    ensures DeclaredLength(CONTEXT_END).None?
  {
    assert |CONTEXT_END| < |FOLLOW|;
  }

  lemma TaskEndIsOneLine()
    ensures OneLine(TASK_END)
  {
  }

  lemma TaskEndDeclaresNothing()
    ensures DeclaredLength(TASK_END).None?
  {
    var n := |TASK_END| - |FOLLOW|;
    assert TASK_END[n + |FOLLOW| - 6] != FOLLOW[|FOLLOW| - 6];
    hide TASK_END, FOLLOW;
    assert TASK_END[n..][|FOLLOW| - 6] == TASK_END[n + |FOLLOW| - 6];
  }

  lemma ContextPreambleIsOneLine(c: Context)
    requires OneLine(c.manifestDigest)
    ensures OneLine(ContextPreamble(c))
  {
    NumeralIsOneLine(|c.pages|);
    ContextOpensOnOneLine();
    assert OneLine(COMMA);
    NoticeIsOneLine();
    hide CONTEXT_OPEN, COMMA, NOTICE_SUPPLIED, NOTICE_DATA, NOTICE_AUTHORITY, OneLine, Decimal.Print;
    var notice := NOTICE_SUPPLIED + NOTICE_DATA + NOTICE_AUTHORITY;
    OneLineAppend(NOTICE_SUPPLIED, NOTICE_DATA);
    OneLineAppend(NOTICE_SUPPLIED + NOTICE_DATA, NOTICE_AUTHORITY);
    OneLineAppend(CONTEXT_OPEN, c.manifestDigest);
    OneLineAppend(CONTEXT_OPEN + c.manifestDigest, COMMA);
    OneLineAppend(CONTEXT_OPEN + c.manifestDigest + COMMA, Decimal.Print(|c.pages|));
    OneLineAppend(CONTEXT_OPEN + c.manifestDigest + COMMA + Decimal.Print(|c.pages|), notice);
  }

  lemma TaskPreambleIsOneLine()
    ensures OneLine(TASK_PREAMBLE)
  {
    TaskOpensOnOneLine();
    TaskGoesOnOnOneLine();
    hide TASK_OPEN, TASK_BOUNDS, TASK_VALID, TASK_AUTHORITY, OneLine;
    OneLineAppend(TASK_OPEN, TASK_BOUNDS);
    OneLineAppend(TASK_OPEN + TASK_BOUNDS, TASK_VALID);
    OneLineAppend(TASK_OPEN + TASK_BOUNDS + TASK_VALID, TASK_AUTHORITY);
  }

  /** Whatever follows, taking frames from `frames` gives exactly `bodies` first. */
  ghost predicate GivesBodies(frames: string, bodies: seq<string>) {
    forall tail :: TakeFrames(frames + tail) == Frames(bodies + TakeFrames(tail).bodies, TakeFrames(tail).rest)
  }

  /** A part is a preamble line, frames, and a line that declares nothing. */
  lemma TakePartOf(preamble: string, frames: string, bodies: seq<string>, end: string, rest: string)
    requires OneLine(preamble) && OneLine(end) && DeclaredLength(end).None?
    requires GivesBodies(frames, bodies)
    ensures TakePart(Framing.Line(preamble) + frames + Framing.Line(end) + rest) == Frames(bodies, rest)
  {
    hide TakeFrames, AfterLine, OneLine, DeclaredLength, Framing.Line;
    var tail := Framing.Line(end) + rest;
    AfterLineOf(preamble, frames + tail);
    TakeFramesNone(end, rest);
    assert Framing.Line(preamble) + frames + Framing.Line(end) + rest == Framing.Line(preamble) + (frames + tail);
  }

  lemma AfterLineOf(line: string, rest: string)
    requires OneLine(line)
    ensures AfterLine(Framing.Line(line) + rest) == rest
  {
    hide LineEnd, OneLine;
    LineEndOf(line, rest);
    assert (Framing.Line(line) + rest)[|line| + 1..] == rest;
  }

  lemma PagesGiveBodies(pages: seq<Page>)
    requires forall p :: p in pages ==> OneLine(p.repository) && OneLine(p.digest)
    ensures GivesBodies(PageFrames(pages, |pages|), Bodies(pages))
  {
    hide TakeFrames, PageFrames, Bodies, OneLine;
    assert pages[..|pages|] == pages;
    forall tail
      ensures TakeFrames(PageFrames(pages, |pages|) + tail) ==
              Frames(Bodies(pages) + TakeFrames(tail).bodies, TakeFrames(tail).rest)
    {
      TakePageFrames(pages, |pages|, tail);
    }
  }

  lemma TakeContext(c: Context, rest: string)
    requires |c.pages| > 0 && SingleLineIds(c)
    ensures TakePart((ContextPart(c) + rest)[2..]) == Frames(Bodies(c.pages), rest)
  {
    hide GivesBodies, TakePart, OneLine, DeclaredLength, CONTEXT_END, ContextPreamble, PageFrames, Framing.Line, Bodies;
    PagesGiveBodies(c.pages);
    ContextPreambleIsOneLine(c);
    ContextEndIsOneLine();
    ContextEndDeclaresNothing();
    var frames := PageFrames(c.pages, |c.pages|);
    TakePartOf(ContextPreamble(c), frames, Bodies(c.pages), CONTEXT_END, rest);
    assert (ContextPart(c) + rest)[2..] ==
           Framing.Line(ContextPreamble(c)) + frames + Framing.Line(CONTEXT_END) + rest;
  }

  lemma ContextOpens(c: Context, rest: string)
    requires |c.pages| > 0
    ensures var s := ContextPart(c) + rest; |s| >= 2 && s[0] == '\n' && s[1] == '\n'
  {
    hide CONTEXT_END, ContextPreamble, PageFrames, Framing.Line;
  }

  function DocumentsOf(d: Documentation): seq<string> {
    [d.task.bytes, d.resultSchema.bytes] + match d.skill case None => [] case Some(k) => [k.bytes]
  }

  lemma LabelsAreOneLine()
    ensures OneLine(TASK_LABEL) && OneLine(SCHEMA_LABEL) && OneLine(SKILL_LABEL)
  {
  }

  lemma TakeSkillFrames(skill: Option<Document>, tail: string)
    requires skill.Some? ==> OneLine(skill.value.digest)
    ensures TakeFrames(SkillFrame(skill) + tail) ==
            Frames((match skill case None => [] case Some(k) => [k.bytes]) + TakeFrames(tail).bodies,
                   TakeFrames(tail).rest)
  {
    hide SKILL_LABEL, Frame, TakeFrames, OneLine;
    LabelsAreOneLine();
    match skill {
      case None => assert SkillFrame(skill) + tail == tail;
      case Some(k) =>
        OneLineAppend(SKILL_LABEL, k.digest);
        TakeFramesFirst(SKILL_LABEL + k.digest, k.bytes, tail);
    }
  }

  lemma TakeDocumentFrames(d: Documentation, tail: string)
    requires SingleLineDigests(d)
    ensures TakeFrames(DocumentFrames(d) + tail) ==
            Frames(DocumentsOf(d) + TakeFrames(tail).bodies, TakeFrames(tail).rest)
  {
    hide TASK_LABEL, SCHEMA_LABEL, SKILL_LABEL, Frame, TakeFrames, OneLine, SkillFrame;
    LabelsAreOneLine();
    OneLineAppend(TASK_LABEL, d.task.digest);
    OneLineAppend(SCHEMA_LABEL, d.resultSchema.digest);
    var task, schema := TASK_LABEL + d.task.digest, SCHEMA_LABEL + d.resultSchema.digest;
    var last := SkillFrame(d.skill) + tail;
    TakeSkillFrames(d.skill, tail);
    TakeFramesFirst(schema, d.resultSchema.bytes, last);
    TakeFramesFirst(task, d.task.bytes, Frame(schema, d.resultSchema.bytes) + last);
    assert DocumentFrames(d) + tail ==
           Frame(task, d.task.bytes) + (Frame(schema, d.resultSchema.bytes) + last);
  }

  lemma DocumentsGiveBodies(d: Documentation)
    requires SingleLineDigests(d)
    ensures GivesBodies(DocumentFrames(d), DocumentsOf(d))
  {
    hide TakeFrames, DocumentFrames, DocumentsOf, OneLine;
    forall tail
      ensures TakeFrames(DocumentFrames(d) + tail) ==
              Frames(DocumentsOf(d) + TakeFrames(tail).bodies, TakeFrames(tail).rest)
    {
      TakeDocumentFrames(d, tail);
    }
  }

  lemma TakeDocumentation(d: Documentation)
    requires SingleLineDigests(d)
    ensures |DocumentationPart(d)| > 0 && TakePart(DocumentationPart(d)[1..]) == Frames(DocumentsOf(d), [])
  {
    hide GivesBodies, TakePart, DeclaredLength, TASK_END, TASK_PREAMBLE, DocumentFrames, OneLine, Framing.Line, DocumentsOf;
    DocumentsGiveBodies(d);
    TaskPreambleIsOneLine();
    TaskEndIsOneLine();
    TaskEndDeclaresNothing();
    TakePartOf(TASK_PREAMBLE, DocumentFrames(d), DocumentsOf(d), TASK_END, []);
    assert DocumentationPart(d)[1..] ==
           Framing.Line(TASK_PREAMBLE) + DocumentFrames(d) + Framing.Line(TASK_END) + [];
  }

  lemma OpeningRule()
    ensures |TASK_OPEN| > 0 && TASK_OPEN[0] == '='
  {
  }

  lemma PreambleOpens()
    ensures |TASK_PREAMBLE| > 0 && TASK_PREAMBLE[0] == '='
  {
    hide TASK_OPEN, TASK_BOUNDS, TASK_VALID, TASK_AUTHORITY;
    OpeningRule();
  }

  /** After the prompt, a second newline opens a context bundle and nothing else. */
  lemma DocumentationOpens(d: Documentation)
    ensures |DocumentationPart(d)| > 1 && DocumentationPart(d)[1] != '\n'
  {
    hide TASK_END, TASK_PREAMBLE, DocumentFrames;
    PreambleOpens();
    assert DocumentationPart(d)[1] == TASK_PREAMBLE[0];
  }

  /**
   No content can end its own frame: whatever bytes the pages and documents hold, the reader
   recovers exactly them, in order, from what follows the prompt.
   */
  lemma ReadBackIsExact(r: Request)
    requires SingleLine(r)
    ensures ReadBack(AfterPrompt(r)) == ContentsOf(r)
  {
    hide TakePart, DocumentationPart, ContextPart, DocumentsOf, OneLine, Bodies;
    var documents := match r.documentation case None => [] case Some(d) => DocumentationPart(d);
    if r.documentation.Some? {
      TakeDocumentation(r.documentation.value);
      DocumentationOpens(r.documentation.value);
    }
    if r.context.Some? {
      if |r.context.value.pages| > 0 {
        TakeContext(r.context.value, documents);
        ContextOpens(r.context.value, documents);
      } else {
        NoContext(r.context.value, documents);
      }
    } else {
      assert AfterPrompt(r) == documents;
    }
  }

  lemma NoContext(c: Context, rest: string)
    requires |c.pages| == 0
    ensures ContextPart(c) + rest == rest && Bodies(c.pages) == []
  {
  }

  /** Equal inputs under the same prompt carry equal contents. */
  lemma EqualInputsEqualContents(a: Request, b: Request)
    requires SingleLine(a) && SingleLine(b) && a.prompt == b.prompt
    requires a.prompt + AfterPrompt(a) == b.prompt + AfterPrompt(b)
    ensures ContentsOf(a) == ContentsOf(b)
  {
    hide AfterPrompt, ReadBack, SingleLine, ContentsOf;
    assert AfterPrompt(a) == (a.prompt + AfterPrompt(a))[|a.prompt|..];
    assert AfterPrompt(b) == (b.prompt + AfterPrompt(b))[|b.prompt|..];
    ReadBackIsExact(a);
    ReadBackIsExact(b);
  }

  /** Only contents are recoverable: two different repository and digest pairs can print one header. */
  lemma IdsCanCoincide(r: string, x: string, y: string, i: nat, n: nat, bytes: string)
    ensures PageTitle(Page(r + DIGEST + x, y, bytes), i, n) == PageTitle(Page(r, x + DIGEST + y, bytes), i, n)
  {
    hide PAGE, OF, REPOSITORY, DIGEST;
    var head := PAGE + Decimal.Print(i + 1) + OF + Decimal.Print(n) + REPOSITORY;
    assert head + (r + DIGEST + x) + DIGEST + y == head + r + DIGEST + (x + DIGEST + y);
  }
}
