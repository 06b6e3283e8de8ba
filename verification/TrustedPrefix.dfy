/**
 What the reader's items mean in terms of the lines of the stream: the trusted prefix, stated
 without the reader's loop.
 */
module TrustedPrefix {
  import opened Prelude
  import opened EventStream

  /** The newline-terminated lines of `b`, the last one possibly without its newline. */
  function Lines(b: seq<byte>): seq<seq<byte>> {
    if |b| == 0 then [] else [b[..LineLength(b)]] + Lines(b[LineLength(b)..])
  }

  function Flatten(ls: seq<seq<byte>>): seq<byte> {
    if |ls| == 0 then [] else ls[0] + Flatten(ls[1..])
  }

  function Offset(ls: seq<seq<byte>>, i: nat): nat
    requires i <= |ls|
  {
    if i == 0 then 0 else Offset(ls, i - 1) + |ls[i - 1]|
  }

  lemma {:induction false} FlattenLines(b: seq<byte>)
    ensures Flatten(Lines(b)) == b
  {
    if |b| > 0 {
      FlattenLines(b[LineLength(b)..]);
    }
  }

  lemma {:induction false} FlattenPrefix(ls: seq<seq<byte>>, c: nat)
    requires c <= |ls|
    ensures Flatten(ls[..c]) <= Flatten(ls)
    ensures |Flatten(ls[..c])| == Offset(ls, c)
  {
    if c == 0 {
    } else {
      FlattenPrefix(ls, c - 1);
      FlattenSplit(ls[..c], c - 1);
      FlattenSplit(ls, c);
      assert ls[..c][..c - 1] == ls[..c - 1];
      assert Flatten(ls[..c][c - 1..]) == ls[c - 1] + Flatten([]);
    }
  }

  lemma {:induction false} FlattenSplit(ls: seq<seq<byte>>, c: nat)
    requires c <= |ls|
    ensures Flatten(ls) == Flatten(ls[..c]) + Flatten(ls[c..])
  {
    if c == 0 {
      assert ls[c..] == ls;
    } else {
      FlattenSplit(ls[1..], c - 1);
      assert ls[1..][..c - 1] == ls[..c][1..];
      assert ls[1..][c - 1..] == ls[c..];
    }
  }

  function EventsOf<E>(items: seq<Item<E>>): seq<E> {
    if |items| == 0 then []
    else EventsOf(items[..|items| - 1]) + (if Last(items).Event? then [Last(items).event] else [])
  }

  lemma {:induction false} EventsOfAppend<E>(a: seq<Item<E>>, b: seq<Item<E>>)
    ensures EventsOf(a + b) == EventsOf(a) + EventsOf(b)
  {
    if |b| == 0 {
      assert a + b == a;
    } else {
      assert (a + b)[..|a + b| - 1] == a + b[..|b| - 1];
      EventsOfAppend(a, b[..|b| - 1]);
    }
  }

  /** Line `k` is within both bounds, is text, and was not cut short by a read failure. */
  ghost predicate Readable<E>(src: Source, d: Decoder<E>, ls: seq<seq<byte>>, k: nat)
    requires k < |ls|
  {
    && 0 < |ls[k]| <= LINE_LIMIT
    && Offset(ls, k) + |ls[k]| <= STREAM_LIMIT
    && (src.failure.None? || Last(ls[k]) == NEWLINE)
    && d.utf8(ls[k]).None?
  }

  predicate MalformedAt<E>(d: Decoder<E>, ls: seq<seq<byte>>, k: nat)
    requires k < |ls|
  {
    !d.blank(ls[k]) && d.decode(ls[k], k + 1).Err?
  }

  predicate DecodesAt<E>(d: Decoder<E>, ls: seq<seq<byte>>, k: nat)
    requires k < |ls|
  {
    !d.blank(ls[k]) && d.decode(ls[k], k + 1).Ok?
  }

  predicate TerminalAt<E>(d: Decoder<E>, ls: seq<seq<byte>>, k: nat)
    requires k < |ls|
  {
    DecodesAt(d, ls, k) && d.terminal(d.decode(ls[k], k + 1).value)
  }

  /** The decoded events of the lines from `lo` to before `hi`, blank lines giving none. */
  function EventsBetween<E>(d: Decoder<E>, ls: seq<seq<byte>>, lo: nat, hi: nat): seq<E>
    requires lo <= hi <= |ls|
    decreases hi - lo
  {
    if lo == hi then []
    else if DecodesAt(d, ls, lo) then [d.decode(ls[lo], lo + 1).value] + EventsBetween(d, ls, lo + 1, hi)
    else EventsBetween(d, ls, lo + 1, hi)
  }

  /**
   `c` is where trust ends, counting from line `i`: every line before it is readable and
   decodes, only the last of them can be terminal, and the scan stopped there because that one
   was terminal, because the lines ran out, or because line `c` cannot be trusted.
   */
  ghost predicate TrustEnds<E>(src: Source, d: Decoder<E>, ls: seq<seq<byte>>, i: nat, c: nat) {
    && i <= c <= |ls|
    && (forall k :: i <= k < c ==> Readable(src, d, ls, k) && !MalformedAt(d, ls, k))
    && (forall k :: i <= k < c - 1 ==> !TerminalAt(d, ls, k))
    && (|| c == |ls|
        || (i < c && TerminalAt(d, ls, c - 1))
        || !Readable(src, d, ls, c)
        || MalformedAt(d, ls, c))
  }

  /** The scan stopped at a line it could not read, rather than at a verdict or the end. */
  ghost predicate StoppedUnread<E>(src: Source, d: Decoder<E>, ls: seq<seq<byte>>, i: nat, c: nat)
    requires c <= |ls|
  {
    !(i < c && TerminalAt(d, ls, c - 1)) && c < |ls| && !Readable(src, d, ls, c)
  }

  ghost predicate StoppedMalformed<E>(src: Source, d: Decoder<E>, ls: seq<seq<byte>>, i: nat, c: nat)
    requires c <= |ls|
  {
    !(i < c && TerminalAt(d, ls, c - 1)) && c < |ls| && Readable(src, d, ls, c) && MalformedAt(d, ls, c)
  }

  ghost predicate EndsInTerminal<E>(d: Decoder<E>, items: seq<Item<E>>) {
    |items| > 1 && items[|items| - 2].Event? && d.terminal(items[|items| - 2].event)
  }

  /** How `items` report the lines from `i` to the end of trust at `c`. */
  ghost predicate Reports<E>(src: Source, d: Decoder<E>, ls: seq<seq<byte>>, i: nat, c: nat, items: seq<Item<E>>)
    requires i <= c <= |ls|
  {
    && |items| > 0 && Last(items).Ended?
    && EventsOf(items) == EventsBetween(d, ls, i, c)
    && (Last(items).failure.None? <==> src.failure.None? && !StoppedUnread(src, d, ls, i, c))
    && ((i < c && TerminalAt(d, ls, c - 1)) <==> EndsInTerminal(d, items))
    && (if StoppedMalformed(src, d, ls, i, c)
        then |items| > 1 && items[|items| - 2] == BadLine(d.decode(ls[c], c + 1).error)
        else forall k :: 0 <= k < |items| ==> !items[k].BadLine?)
  }

  ghost predicate Aligned(src: Source, ls: seq<seq<byte>>, pos: nat, i: nat) {
    pos <= |src.bytes| && i <= |ls| && Lines(src.bytes[pos..]) == ls[i..] && Offset(ls, i) == pos
  }

  lemma LinesUnfold(b: seq<byte>)
    requires |b| > 0
    ensures Lines(b) == [b[..LineLength(b)]] + Lines(b[LineLength(b)..])
  {
    hide LineLength;
  }

  lemma NextLine(ls: seq<seq<byte>>, i: nat, first: seq<byte>, rest: seq<seq<byte>>)
    requires i <= |ls| && ls[i..] == [first] + rest
    ensures i < |ls| && ls[i] == first && ls[i + 1..] == rest
  {
    assert ls[i] == ls[i..][0];
    assert ls[i + 1..] == ls[i..][1..];
  }

  lemma LineHere(src: Source, ls: seq<seq<byte>>, pos: nat, i: nat, n: nat)
    requires Aligned(src, ls, pos, i) && pos < |src.bytes| && n == LineLength(src.bytes[pos..])
    ensures i < |ls| && ls[i] == src.bytes[pos..][..n] && ls[i + 1..] == Lines(src.bytes[pos..][n..])
  {
    var rest := src.bytes[pos..];
    LinesUnfold(rest);
    hide LineLength, Lines, Offset;
    NextLine(ls, i, rest[..n], Lines(rest[n..]));
  }

  lemma AlignedAt(src: Source, ls: seq<seq<byte>>, pos: nat, i: nat, n: nat)
    requires i < |ls| && pos + n <= |src.bytes| && ls[i] == src.bytes[pos..][..n]
    requires ls[i + 1..] == Lines(src.bytes[pos..][n..]) && Offset(ls, i) == pos
    ensures ls[i] == src.bytes[pos..pos + n]
    ensures Aligned(src, ls, pos + n, i + 1)
  {
    hide Lines;
    assert src.bytes[pos..][n..] == src.bytes[pos + n..];
    assert src.bytes[pos..][..n] == src.bytes[pos..pos + n];
  }

  lemma AlignedEnds(src: Source, ls: seq<seq<byte>>, pos: nat, i: nat)
    requires Aligned(src, ls, pos, i)
    ensures pos == |src.bytes| ==> i == |ls|
  {
    hide LineLength, Offset;
    assert pos == |src.bytes| ==> |ls[i..]| == 0;
  }

  ghost predicate AlignedStep(src: Source, ls: seq<seq<byte>>, pos: nat, i: nat) {
    && pos <= |src.bytes| && i <= |ls|
    && (i < |ls| <==> pos < |src.bytes|)
    && (i < |ls| ==>
          && ls[i] == src.bytes[pos..pos + LineLength(src.bytes[pos..])]
          && Aligned(src, ls, pos + |ls[i]|, i + 1))
  }

  lemma AlignedNext(src: Source, ls: seq<seq<byte>>, pos: nat, i: nat)
    requires Aligned(src, ls, pos, i)
    ensures AlignedStep(src, ls, pos, i)
  {
    hide LineLength, Lines, Offset;
    AlignedEnds(src, ls, pos, i);
    if pos < |src.bytes| {
      var n := LineLength(src.bytes[pos..]);
      LineHere(src, ls, pos, i, n);
      AlignedAt(src, ls, pos, i, n);
      assert |ls[i]| == n;
      hide Aligned;
    }
  }

  /** Reading one line meets exactly the conditions the prefix is stated by. */
  lemma TurnMeans<E>(src: Source, d: Decoder<E>, ls: seq<seq<byte>>, pos: nat, i: nat)
    requires Aligned(src, ls, pos, i)
    ensures var t := ReadTurn(src, d, pos, pos, i);
      if i == |ls| then t == Stop(if src.failure.None? then None else Some(WhileReading(src.failure.value)), src.failure.None?)
      else if !Readable(src, d, ls, i) then t.Stop? && t.failure.Some?
      else if d.blank(ls[i]) then t == Skip(|ls[i]|)
      else if MalformedAt(d, ls, i) then t == DeliverLast(BadLine(d.decode(ls[i], i + 1).error))
      else if TerminalAt(d, ls, i) then t == DeliverLast(Event(d.decode(ls[i], i + 1).value))
      else t == Deliver(d.decode(ls[i], i + 1).value, |ls[i]|)
  {
    hide Lines, Offset, LineLength;
    AlignedNext(src, ls, pos, i);
    var rest := src.bytes[pos..];
    if i < |ls| {
      assert ls[i] == rest[..LineLength(rest)];
    }
  }

  /** A line that neither ends nor breaks trust extends a report by its event, if it has one. */
  lemma ReportsNext<E>(
    src: Source, d: Decoder<E>, ls: seq<seq<byte>>, i: nat, c: nat, rest: seq<Item<E>>)
    requires i < |ls| && Readable(src, d, ls, i) && !MalformedAt(d, ls, i) && !TerminalAt(d, ls, i)
    requires TrustEnds(src, d, ls, i + 1, c) && Reports(src, d, ls, i + 1, c, rest)
    ensures TrustEnds(src, d, ls, i, c) && Reports(src, d, ls, i, c, EventAt(d, ls, i) + rest)
  {
    var first := EventAt(d, ls, i);
    EventsOfAppend(first, rest);
    assert EventsOf(first) == (if d.blank(ls[i]) then [] else [d.decode(ls[i], i + 1).value]) by {
      if |first| > 0 {
        assert EventsOf(first) == EventsOf(first[..0]) + [Last(first).event];
      }
    }
    assert EventsBetween(d, ls, i, c) == EventsOf(first) + EventsBetween(d, ls, i + 1, c);
    hide Readable, EventsOf, EventsBetween;
  }

  /** A terminal line ends trust right after itself. */
  lemma ReportsTerminal<E>(src: Source, d: Decoder<E>, ls: seq<seq<byte>>, i: nat)
    requires i < |ls| && Readable(src, d, ls, i) && TerminalAt(d, ls, i)
    ensures TrustEnds(src, d, ls, i, i + 1)
    ensures Reports(src, d, ls, i, i + 1, EventAt(d, ls, i) + [Ended(Drained(src, None))])
  {
    var event := d.decode(ls[i], i + 1).value;
    var items := [Event(event), Ended(Drained(src, None))];
    assert items[..1] == [Event(event)] && items[..1][..0] == [];
    assert EventsOf(items[..1]) == [event];
    assert EventsBetween(d, ls, i, i + 1) == [event] + EventsBetween(d, ls, i + 1, i + 1);
    hide Readable, EventsOf, EventsBetween;
  }

  /** Trust ends before line `i`, and `items` is what the reader sends there. */
  ghost predicate BreaksAs<E>(src: Source, d: Decoder<E>, ls: seq<seq<byte>>, i: nat, items: seq<Item<E>>)
    requires i <= |ls|
  {
    if i == |ls| then |items| == 1 && items[0].Ended? && items[0].failure.None? == src.failure.None?
    else if !Readable(src, d, ls, i) then |items| == 1 && items[0].Ended? && items[0].failure.Some?
    else MalformedAt(d, ls, i) && items == [BadLine(d.decode(ls[i], i + 1).error), Ended(Drained(src, None))]
  }

  function EventAt<E>(d: Decoder<E>, ls: seq<seq<byte>>, i: nat): seq<Item<E>>
    requires i < |ls| && !MalformedAt(d, ls, i)
  {
    if d.blank(ls[i]) then [] else [Event(d.decode(ls[i], i + 1).value)]
  }

  /** The end of the lines, or a line that cannot be trusted, ends trust before it. */
  lemma ReportsBreak<E>(src: Source, d: Decoder<E>, ls: seq<seq<byte>>, i: nat, items: seq<Item<E>>)
    requires i <= |ls| && BreaksAs(src, d, ls, i, items)
    ensures TrustEnds(src, d, ls, i, i)
    ensures Reports(src, d, ls, i, i, items)
  {
    assert EventsOf(items) == [] by {
      assert EventsOf(items[..0]) == [];
      if |items| == 2 {
        assert items[..1][..0] == [];
        assert EventsOf(items[..1]) == [];
      }
    }
    hide Readable, EventsOf;
  }

  lemma ItemsBreak<E>(src: Source, d: Decoder<E>, ls: seq<seq<byte>>, pos: nat, i: nat)
    requires Aligned(src, ls, pos, i)
    requires i == |ls| || !Readable(src, d, ls, i) || MalformedAt(d, ls, i)
    ensures BreaksAs(src, d, ls, i, Items(src, d, pos, pos, i))
  {
    ItemsUnfold(src, d, pos, pos, i);
    TurnMeans(src, d, ls, pos, i);
    hide Items, ReadTurn, Readable, Lines, Offset, LineLength;
  }

  lemma ItemsTerminal<E>(src: Source, d: Decoder<E>, ls: seq<seq<byte>>, pos: nat, i: nat)
    requires Aligned(src, ls, pos, i)
    requires i < |ls| && Readable(src, d, ls, i) && TerminalAt(d, ls, i)
    ensures Items(src, d, pos, pos, i) == EventAt(d, ls, i) + [Ended(Drained(src, None))]
  {
    ItemsUnfold(src, d, pos, pos, i);
    TurnMeans(src, d, ls, pos, i);
    hide Items, ReadTurn, Readable, Lines, Offset, LineLength;
  }

  lemma ItemsAfter<E>(src: Source, d: Decoder<E>, pos: nat, i: nat, n: nat, first: seq<Item<E>>)
    requires pos <= |src.bytes|
    requires var t := ReadTurn(src, d, pos, pos, i);
      (t == Skip(n) && first == []) || (t.Deliver? && t.length == n && first == [Event(t.event)])
    ensures pos + n <= |src.bytes|
    ensures Items(src, d, pos, pos, i) == first + Items(src, d, pos + n, pos + n, i + 1)
  {
    hide *;
    ItemsUnfold(src, d, pos, pos, i);
  }

  lemma ItemsNext<E>(src: Source, d: Decoder<E>, ls: seq<seq<byte>>, pos: nat, i: nat)
    requires Aligned(src, ls, pos, i)
    requires i < |ls| && Readable(src, d, ls, i) && !MalformedAt(d, ls, i) && !TerminalAt(d, ls, i)
    ensures pos + |ls[i]| <= |src.bytes|
    ensures Items(src, d, pos, pos, i) == EventAt(d, ls, i) + Items(src, d, pos + |ls[i]|, pos + |ls[i]|, i + 1)
  {
    hide Items, ReadTurn, Lines, Offset, LineLength, Readable;
    TurnMeans(src, d, ls, pos, i);
    ItemsAfter(src, d, pos, i, |ls[i]|, EventAt(d, ls, i));
  }

  /** Where trust ends for the lines from `i`, and that the reader's items report exactly that. */
  lemma {:induction false} ItemsReport<E>(src: Source, d: Decoder<E>, ls: seq<seq<byte>>, pos: nat, i: nat)
    returns (c: nat)
    requires Aligned(src, ls, pos, i)
    ensures TrustEnds(src, d, ls, i, c)
    ensures Reports(src, d, ls, i, c, Items(src, d, pos, pos, i))
    decreases |src.bytes| - pos
  {
    hide Items, TrustEnds, Reports, Readable, Lines, Offset, LineLength, MalformedAt, TerminalAt, BreaksAs, EventAt, Drained;
    AlignedNext(src, ls, pos, i);
    if i == |ls| || !Readable(src, d, ls, i) || MalformedAt(d, ls, i) {
      c := i;
      ItemsBreak(src, d, ls, pos, i);
      ReportsBreak(src, d, ls, i, Items(src, d, pos, pos, i));
    } else if TerminalAt(d, ls, i) {
      c := i + 1;
      ItemsTerminal(src, d, ls, pos, i);
      ReportsTerminal(src, d, ls, i);
    } else {
      ItemsNext(src, d, ls, pos, i);
      c := ItemsReport(src, d, ls, pos + |ls[i]|, i + 1);
      ReportsNext(src, d, ls, i, c, Items(src, d, pos + |ls[i]|, pos + |ls[i]|, i + 1));
    }
  }

  /** Read to a clean end of file, with a terminal event and no line refused. */
  ghost predicate CleanEnd<E>(d: Decoder<E>, items: seq<Item<E>>) {
    EndsInTerminal(d, items) && Last(items) == Ended(None)
  }

  /** The trusted prefix: the events of everything the reader would send. */
  function Trusted<E>(src: Source, d: Decoder<E>): seq<E> {
    EventsOf(AllItems(src, d))
  }

  /**
   The trusted prefix is the decoded non-blank lines before the point where trust ends. Those
   lines concatenate to a prefix of the raw bytes, within both bounds. The reader's items end
   cleanly exactly when the last trusted line is terminal and the pipe then closed cleanly.
   */
  lemma TrustedPrefixIs<E>(src: Source, d: Decoder<E>) returns (c: nat)
    ensures var ls := Lines(src.bytes);
      && TrustEnds(src, d, ls, 0, c)
      && Trusted(src, d) == EventsBetween(d, ls, 0, c)
      && Flatten(ls[..c]) <= src.bytes
      && |Flatten(ls[..c])| <= STREAM_LIMIT
      && (CleanEnd(d, AllItems(src, d)) <==> src.failure.None? && c > 0 && TerminalAt(d, ls, c - 1))
  {
    var ls := Lines(src.bytes);
    assert Aligned(src, ls, 0, 0) by {
      assert src.bytes[0..] == src.bytes && ls[0..] == ls;
    }
    c := ItemsReport(src, d, ls, 0, 0);
    FlattenLines(src.bytes);
    FlattenPrefix(ls, c);
    if c > 0 {
      assert Readable(src, d, ls, c - 1);
    }
  }

  /** A line ends in a line feed; a line holds at most one mebibyte, a stream at most sixty-four. */
  lemma BoundsAre()
    ensures NEWLINE == 10 && LINE_LIMIT == 1_048_576 && STREAM_LIMIT == 67_108_864
  {
  }
}
