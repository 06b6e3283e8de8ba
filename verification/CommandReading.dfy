/** How one suite command is read: the quoting scan, its first word, and what they decide. */
module CommandReading {
  import opened Prelude

  datatype Reading = Program(program: string) | Path | Unparsed

  predicate Metacharacter(c: char) {
    || c == '|' || c == '&' || c == ';' || c == '<' || c == '>' || c == '(' || c == ')' || c == '$'
    || c == '`' || c == '\\' || c == '\n' || c == '\r'
  }

  predicate BareCharacter(c: char) {
    'a' <= c <= 'z' || 'A' <= c <= 'Z' || '0' <= c <= '9' || c == '_' || c == '.' || c == '+' || c == '-'
  }

  predicate BareName(word: string) {
    word != "" && forall i :: 0 <= i < |word| ==> BareCharacter(word[i])
  }

  predicate Wrapper(w: string) {
    || w == "env" || w == "exec" || w == "command" || w == "builtin" || w == "xargs" || w == "timeout"
    || w == "nice" || w == "nohup" || w == "time" || w == "sudo" || w == "doas" || w == "eval"
    || w == "source" || w == "." || w == "sh" || w == "bash" || w == "dash" || w == "zsh" || w == "ksh"
  }

  predicate Blank(c: char) {
    c == ' ' || c == '\t'
  }

  function SkipBlanks(text: string): (n: nat)
    ensures n <= |text| && (forall i :: 0 <= i < n ==> Blank(text[i])) && (n < |text| ==> !Blank(text[n]))
  {
    if text != "" && Blank(text[0]) then 1 + SkipBlanks(text[1..]) else 0
  }

  function WordLength(text: string): (n: nat)
    ensures n <= |text| && (forall i :: 0 <= i < n ==> !Blank(text[i])) && (n < |text| ==> Blank(text[n]))
  {
    if text != "" && !Blank(text[0]) then 1 + WordLength(text[1..]) else 0
  }

  function FirstWord(command: string): string {
    var rest := command[SkipBlanks(command)..];
    rest[..WordLength(rest)]
  }

  predicate NamesFile(word: string) {
    '/' in word && '=' !in word && '\'' !in word && '"' !in word
  }

  function ReadFirst(first: string): Reading {
    if BareName(first) then (if Wrapper(first) then Unparsed else Program(first))
    else if NamesFile(first) then Path
    else Unparsed
  }

  // ---- The quoting scan ----

  datatype Mode = Outside | InSingle | InDouble | Refused

  function Next(mode: Mode, c: char): Mode {
    match mode
    case InSingle => if c == '\'' then Outside else InSingle
    case Outside =>
      if c == '\'' then InSingle else if c == '"' then InDouble else if Metacharacter(c) then Refused else Outside
    case InDouble => if c == '"' then Outside else if Metacharacter(c) then Refused else InDouble
    case Refused => Refused
  }

  function ModeFrom(mode: Mode, text: string): Mode {
    if |text| == 0 then mode else Next(ModeFrom(mode, text[..|text| - 1]), Last(text))
  }

  /** The reading a command has: scan it, then read its first word. */
  function ReadingOf(command: string): Reading {
    if ModeFrom(Outside, command) == Outside then ReadFirst(FirstWord(command)) else Unparsed
  }

  method Classify(command: string) returns (r: Reading)
    ensures r == ReadingOf(command)
  {
    hide Metacharacter, ReadFirst, FirstWord;
    var single, double := false, false;
    for i := 0 to |command|
      invariant ModeFrom(Outside, command[..i]) == if single then InSingle else if double then InDouble else Outside
      invariant !(single && double)
    {
      assert command[..i + 1][..i] == command[..i];
      var c := command[i];
      if single {
        if c == '\'' {
          single := false;
        }
        continue;
      }
      if c == '\'' && !double {
        single := true;
      } else if c == '"' {
        double := !double;
      } else if Metacharacter(c) {
        RefusedStays(command, i + 1);
        return Unparsed;
      }
    }
    assert command[..|command|] == command;
    r := if single || double then Unparsed else ReadFirst(FirstWord(command));
  }

  lemma {:induction false} RefusedStays(command: string, n: nat)
    requires n <= |command| && ModeFrom(Outside, command[..n]) == Refused
    ensures ModeFrom(Outside, command) == Refused
  {
    hide Metacharacter;
    if n < |command| {
      assert command[..|command| - 1][..n] == command[..n];
      RefusedStays(command[..|command| - 1], n);
    } else {
      assert command[..n] == command;
    }
  }

  // ---- The grammar it reads ----

  /** One character outside quotes, or one closed quoted span. */
  datatype Segment = Plain(c: char) | SingleQuoted(body: string) | DoubleQuoted(body: string)

  predicate Sound(s: Segment) {
    match s
    case Plain(c) => c != '\'' && c != '"' && !Metacharacter(c)
    case SingleQuoted(body) => '\'' !in body
    case DoubleQuoted(body) => forall i :: 0 <= i < |body| ==> body[i] != '"' && !Metacharacter(body[i])
  }

  function Spell(s: Segment): string {
    match s
    case Plain(c) => [c]
    case SingleQuoted(body) => "'" + body + "'"
    case DoubleQuoted(body) => "\"" + body + "\""
  }

  function SpellAll(segments: seq<Segment>): string {
    if |segments| == 0 then "" else SpellAll(segments[..|segments| - 1]) + Spell(Last(segments))
  }

  predicate AllSound(segments: seq<Segment>) {
    forall i :: 0 <= i < |segments| ==> Sound(segments[i])
  }

  /** Every quote is closed and no metacharacter stands outside a single-quoted span. */
  ghost predicate Simple(command: string) {
    exists segments :: AllSound(segments) && SpellAll(segments) == command
  }

  lemma {:induction false} ModeAppend(mode: Mode, a: string, b: string)
    ensures ModeFrom(mode, a + b) == ModeFrom(ModeFrom(mode, a), b)
    decreases |b|
  {
    hide Next;
    if |b| == 0 {
      assert a + b == a;
    } else {
      assert (a + b)[..|a + b| - 1] == a + b[..|b| - 1];
      ModeAppend(mode, a, b[..|b| - 1]);
    }
  }

  lemma ModeOne(mode: Mode, c: char)
    ensures ModeFrom(mode, [c]) == Next(mode, c)
  {
    assert [c][..0] == "";
  }

  lemma {:induction false} InsideSingle(body: string)
    requires '\'' !in body
    ensures ModeFrom(InSingle, body) == InSingle
  {
    hide Metacharacter;
    if |body| > 0 {
      InsideSingle(body[..|body| - 1]);
    }
  }

  lemma {:induction false} InsideDouble(body: string)
    requires Sound(DoubleQuoted(body))
    ensures ModeFrom(InDouble, body) == InDouble
  {
    hide Metacharacter;
    if |body| > 0 {
      InsideDouble(body[..|body| - 1]);
    }
  }

  lemma SegmentKeepsOutside(s: Segment)
    requires Sound(s)
    ensures ModeFrom(Outside, Spell(s)) == Outside
  {
    hide Metacharacter, ModeFrom;
    match s
    case Plain(c) => ModeOne(Outside, c);
    case SingleQuoted(body) =>
      ModeAppend(Outside, "'" + body, "'");
      ModeAppend(Outside, "'", body);
      ModeOne(Outside, '\'');
      InsideSingle(body);
      ModeOne(InSingle, '\'');
    case DoubleQuoted(body) =>
      ModeAppend(Outside, "\"" + body, "\"");
      ModeAppend(Outside, "\"", body);
      ModeOne(Outside, '"');
      InsideDouble(body);
      ModeOne(InDouble, '"');
  }

  lemma {:induction false} SegmentsKeepOutside(segments: seq<Segment>)
    requires AllSound(segments)
    ensures ModeFrom(Outside, SpellAll(segments)) == Outside
  {
    hide Sound, Spell, Next;
    if |segments| > 0 {
      var front := segments[..|segments| - 1];
      SegmentsKeepOutside(front);
      SegmentKeepsOutside(Last(segments));
      ModeAppend(Outside, SpellAll(front), Spell(Last(segments)));
    }
  }

  /** What an unfinished scan has read: whole segments, then an open quote and its body. */
  ghost predicate Reads(text: string, segments: seq<Segment>, body: string) {
    && AllSound(segments)
    && match ModeFrom(Outside, text)
       case Outside => text == SpellAll(segments)
       case InSingle => text == SpellAll(segments) + "'" + body && '\'' !in body
       case InDouble => text == SpellAll(segments) + "\"" + body && Sound(DoubleQuoted(body))
       case Refused => true
  }

  lemma SpellMore(segments: seq<Segment>, s: Segment)
    ensures SpellAll(segments + [s]) == SpellAll(segments) + Spell(s)
  {
    hide Spell;
    assert (segments + [s])[..|segments|] == segments;
  }

  lemma {:induction false} Segmented(text: string) returns (segments: seq<Segment>, body: string)
    ensures Reads(text, segments, body)
  {
    hide Metacharacter, SpellAll;
    segments, body := [], "";
    if |text| == 0 {
      NothingSpelled();
    } else {
      var front, c := text[..|text| - 1], Last(text);
      segments, body := Segmented(front);
      assert text == front + [c];
      match ModeFrom(Outside, front)
      case Outside => segments, body := FromOutside(text, front, c, segments);
      case InSingle => segments, body := FromSingle(text, front, c, segments, body);
      case InDouble => segments, body := FromDouble(text, front, c, segments, body);
      case Refused =>
    }
  }

  lemma NothingSpelled()
    ensures SpellAll([]) == ""
  {
  }

  lemma FromOutside(text: string, front: string, c: char, before: seq<Segment>)
    returns (segments: seq<Segment>, body: string)
    requires text == front + [c] && ModeFrom(Outside, front) == Outside && Reads(front, before, "")
    ensures Reads(text, segments, body)
  {
    hide Metacharacter, SpellAll;
    segments, body := before, "";
    assert text[..|text| - 1] == front;
    if c != '\'' && c != '"' && !Metacharacter(c) {
      SpellMore(before, Plain(c));
      segments := before + [Plain(c)];
    }
  }

  lemma FromSingle(text: string, front: string, c: char, before: seq<Segment>, read: string)
    returns (segments: seq<Segment>, body: string)
    requires text == front + [c] && ModeFrom(Outside, front) == InSingle && Reads(front, before, read)
    ensures Reads(text, segments, body)
  {
    hide Metacharacter, SpellAll;
    segments, body := before, read + [c];
    assert text[..|text| - 1] == front;
    if c == '\'' {
      SpellMore(before, SingleQuoted(read));
      segments, body := before + [SingleQuoted(read)], "";
      assert text == SpellAll(before) + ("'" + read + "'");
    } else {
      assert text == SpellAll(before) + "'" + (read + [c]);
    }
  }

  lemma FromDouble(text: string, front: string, c: char, before: seq<Segment>, read: string)
    returns (segments: seq<Segment>, body: string)
    requires text == front + [c] && ModeFrom(Outside, front) == InDouble && Reads(front, before, read)
    ensures Reads(text, segments, body)
  {
    hide Metacharacter, SpellAll;
    segments, body := before, read + [c];
    assert text[..|text| - 1] == front;
    if c == '"' {
      SpellMore(before, DoubleQuoted(read));
      segments, body := before + [DoubleQuoted(read)], "";
      assert text == SpellAll(before) + ("\"" + read + "\"");
    } else {
      assert text == SpellAll(before) + "\"" + (read + [c]);
    }
  }

  /** The scan ends outside quotes exactly when the command is simple. */
  lemma ScanMeansSimple(command: string)
    ensures ModeFrom(Outside, command) == Outside <==> Simple(command)
  {
    hide ModeFrom, SpellAll, AllSound;
    if Simple(command) {
      var segments :| AllSound(segments) && SpellAll(segments) == command;
      SegmentsKeepOutside(segments);
    }
    if ModeFrom(Outside, command) == Outside {
      var segments, body := Segmented(command);
    }
  }

  /** `p` is the first field of `command`: only blanks before it, a blank or the end after it. */
  ghost predicate LeadsWith(command: string, p: string) {
    exists n :: 0 <= n <= |command| && LeadsAt(command, p, n)
  }

  predicate LeadsAt(command: string, p: string, n: nat) {
    && n + |p| <= |command| && command[n..n + |p|] == p
    && (forall i :: 0 <= i < n ==> Blank(command[i]))
    && (forall i :: 0 <= i < |p| ==> !Blank(p[i]))
    && (n + |p| < |command| ==> Blank(command[n + |p|]))
  }

  lemma FirstWordLeads(command: string)
    ensures LeadsWith(command, FirstWord(command))
  {
    var n := SkipBlanks(command);
    var rest := command[n..];
    assert rest[..WordLength(rest)] == command[n..n + WordLength(rest)];
    assert LeadsAt(command, FirstWord(command), n);
  }

  lemma OneFirstWord(command: string, p: string)
    requires p != "" && LeadsWith(command, p)
    ensures FirstWord(command) == p
  {
    hide Blank;
    var n :| 0 <= n <= |command| && LeadsAt(command, p, n);
    var skip := SkipBlanks(command);
    assert command[n] == p[0];
    assert n == skip;
    var rest := command[n..];
    assert forall i :: 0 <= i < |p| ==> rest[i] == p[i];
  }

  lemma BareNamesHaveNoBlank(p: string)
    requires BareName(p)
    ensures p != "" && forall i :: 0 <= i < |p| ==> !Blank(p[i])
  {
  }

  /**
   A command is read as the program `p` exactly when it is simple, leads with `p`, and `p` is a bare
   name that is no wrapper; it is read as a path exactly when it is simple and leads with the name of
   a file.
   */
  lemma ReadExactly(command: string, p: string)
    ensures ReadingOf(command) == Program(p) <==>
              Simple(command) && LeadsWith(command, p) && BareName(p) && !Wrapper(p)
    ensures ReadingOf(command) == Path <==>
              Simple(command) && !BareName(FirstWord(command)) && NamesFile(FirstWord(command))
  {
    hide ModeFrom, Simple, Wrapper, NamesFile, BareName, LeadsWith, FirstWord;
    ScanMeansSimple(command);
    FirstWordLeads(command);
    if BareName(p) {
      BareNamesHaveNoBlank(p);
      if LeadsWith(command, p) {
        OneFirstWord(command, p);
      }
    }
  }
}
