/**
 The reader thread of the supervisor: how a byte stream becomes bounded lines, decoded
 events and one closing item.
 */
module EventStream {
  import opened Prelude

  type byte = x: int | 0 <= x < 256

  const NEWLINE: byte := 10
  const LINE_LIMIT: nat := 1024 * 1024
  const STREAM_LIMIT: nat := 64 * 1024 * 1024

  /** Why the stream was not read to its end, with the detail the failing call gave. */
  datatype ReadFailure =
    | WhileReading(detail: string)
    | ExceedsBound
    | WhileDraining(detail: string)
    | ReaderLost

  datatype StreamError =
    | Malformed(line: nat, detail: string)
    | NoResult(events: nat)
    | NoInit
    | ReadFailed(failure: ReadFailure, events: nat)

  /** Everything the pipe will ever deliver: its bytes, then an end of file or a read failure. */
  datatype Source = Source(bytes: seq<byte>, failure: Option<string>)

  /** What varies between adapters. `utf8` gives the decoding error of a line that is not text. */
  datatype Decoder<!E> = Decoder(
    utf8: seq<byte> -> Option<string>,
    blank: seq<byte> -> bool,
    decode: (seq<byte>, nat) -> Result<E, StreamError>,
    terminal: E -> bool)

  /** What the reader thread sends; the last item sent is always `Ended`. */
  datatype Item<+E> =
    | Event(event: E)
    | BadLine(error: StreamError)
    | Ended(failure: Option<ReadFailure>)

  /** The length of the first line, counting its newline when it has one. */
  function LineLength(b: seq<byte>): (n: nat)
    ensures n <= |b|
    ensures n == 0 <==> b == []
    ensures forall k :: 0 <= k < n - 1 ==> b[k] != NEWLINE
    ensures n < |b| ==> n > 0 && b[n - 1] == NEWLINE
  {
    if |b| == 0 then 0
    else if b[0] == NEWLINE then 1
    else 1 + LineLength(b[1..])
  }

  datatype Read = Line(length: nat) | EndOfFile | Failed(detail: string)

  /**
   One bounded read from `pos`: a whole line, or `LINE_LIMIT + 1` bytes of a longer one, or
   what is left before a clean end. A failure met before any of these loses the partial line.
   */
  function ReadUntil(src: Source, pos: nat): (r: Read)
    requires pos <= |src.bytes|
    ensures r.Line? ==> 0 < r.length <= LINE_LIMIT + 1 && pos + r.length <= |src.bytes|
    ensures r.Line? && r.length <= LINE_LIMIT ==> r.length == LineLength(src.bytes[pos..])
    ensures r.EndOfFile? ==> pos == |src.bytes| && src.failure.None?
    ensures r.Failed? ==> src.failure == Some(r.detail)
  {
    var rest := src.bytes[pos..];
    var n := LineLength(rest);
    if n > LINE_LIMIT then Line(LINE_LIMIT + 1)
    else if n > 0 && rest[n - 1] == NEWLINE then Line(n)
    else match src.failure
      case Some(detail) => Failed(detail)
      case None => if n == 0 then EndOfFile else Line(n)
  }

  /** How the drain after the trusted prefix reports: a failure met there replaces an earlier one. */
  function Drained(src: Source, failure: Option<ReadFailure>): Option<ReadFailure> {
    match src.failure
    case Some(detail) => Some(WhileDraining(detail))
    case None => failure
  }

  /** What one turn of the reading loop does with the bytes from `pos`. */
  datatype Turn<E> =
    | Skip(length: nat)
    | Deliver(event: E, length: nat)
    | DeliverLast(item: Item<E>)
    | Stop(failure: Option<ReadFailure>, drain: bool)

  function ReadTurn<E>(src: Source, d: Decoder<E>, pos: nat, total: nat, lines: nat): (t: Turn<E>)
    requires pos <= |src.bytes|
    ensures t.Skip? || t.Deliver? ==> 0 < t.length <= LINE_LIMIT && pos + t.length <= |src.bytes|
    ensures t.Skip? || t.Deliver? ==> total + t.length <= STREAM_LIMIT
    ensures t.Deliver? ==> !d.terminal(t.event)
    ensures t.DeliverLast? ==> total < STREAM_LIMIT
    ensures t.DeliverLast? ==> t.item.BadLine? || (t.item.Event? && d.terminal(t.item.event))
  {
    match ReadUntil(src, pos)
    case Failed(detail) => Stop(Some(WhileReading(detail)), false)
    case EndOfFile => Stop(None, true)
    case Line(n) =>
      var line := src.bytes[pos..pos + n];
      if n > LINE_LIMIT || total + n > STREAM_LIMIT then Stop(Some(ExceedsBound), true)
      else match d.utf8(line)
        case Some(detail) => Stop(Some(WhileReading(detail)), false)
        case None =>
          if d.blank(line) then Skip(n)
          else match d.decode(line, lines + 1)
            case Err(e) => DeliverLast(BadLine(e))
            case Ok(event) => if d.terminal(event) then DeliverLast(Event(event)) else Deliver(event, n)
  }

  /** Everything the reader sends from `pos` on, having read `total` bytes in `lines` lines. */
  function Items<E>(src: Source, d: Decoder<E>, pos: nat, total: nat, lines: nat): seq<Item<E>>
    requires pos <= |src.bytes|
    decreases |src.bytes| - pos
  {
    match ReadTurn(src, d, pos, total, lines)
    case Skip(n) => Items(src, d, pos + n, total + n, lines + 1)
    case Deliver(event, n) => [Event(event)] + Items(src, d, pos + n, total + n, lines + 1)
    case DeliverLast(item) => [item, Ended(Drained(src, None))]
    case Stop(failure, drain) => [Ended(if drain then Drained(src, failure) else failure)]
  }

  function AllItems<E>(src: Source, d: Decoder<E>): seq<Item<E>> {
    Items(src, d, 0, 0, 0)
  }

  /** Items end with one `Ended`, and only the last event before it can be terminal or malformed. */
  ghost predicate WellShaped<E>(d: Decoder<E>, items: seq<Item<E>>) {
    && |items| > 0 && Last(items).Ended?
    && (forall k :: 0 <= k < |items| - 1 ==> !items[k].Ended?)
    && (forall k :: 0 <= k < |items| - 2 ==> items[k].Event? && !d.terminal(items[k].event))
  }

  lemma {:induction false} ItemsAreWellShaped<E>(src: Source, d: Decoder<E>, pos: nat, total: nat, lines: nat)
    requires pos <= |src.bytes|
    ensures WellShaped(d, Items(src, d, pos, total, lines))
    ensures total <= STREAM_LIMIT ==> |Items(src, d, pos, total, lines)| <= STREAM_LIMIT - total + 1
    decreases |src.bytes| - pos
  {
    hide ReadTurn;
    var t := ReadTurn(src, d, pos, total, lines);
    if t.Skip? || t.Deliver? {
      ItemsAreWellShaped(src, d, pos + t.length, total + t.length, lines + 1);
    }
  }

  lemma ItemsUnfold<E>(src: Source, d: Decoder<E>, pos: nat, total: nat, lines: nat)
    requires pos <= |src.bytes|
    ensures Items(src, d, pos, total, lines) ==
            match ReadTurn(src, d, pos, total, lines)
            case Skip(n) => Items(src, d, pos + n, total + n, lines + 1)
            case Deliver(event, n) => [Event(event)] + Items(src, d, pos + n, total + n, lines + 1)
            case DeliverLast(item) => [item, Ended(Drained(src, None))]
            case Stop(failure, drain) => [Ended(if drain then Drained(src, failure) else failure)]
  {
    hide ReadTurn;
  }

  /** The body of the reader thread, sending into `sent`. */
  method ReadStream<E>(src: Source, d: Decoder<E>) returns (sent: seq<Item<E>>)
    ensures sent == AllItems(src, d)
  {
    hide Items, ReadUntil;
    sent := [];
    var failure: Option<ReadFailure> := None;
    var drain := true;
    var pos, total, i := 0, 0, 0;
    var reading := true;
    while reading
      invariant pos <= |src.bytes|
      invariant reading ==> failure.None? && drain && AllItems(src, d) == sent + Items(src, d, pos, total, i)
      invariant !reading ==>
        AllItems(src, d) == sent + [Ended(if drain then Drained(src, failure) else failure)]
      decreases reading, |src.bytes| - pos
    {
      ItemsUnfold(src, d, pos, total, i);
      match ReadUntil(src, pos) {
        case EndOfFile => reading := false;
        case Failed(detail) =>
          failure := Some(WhileReading(detail));
          drain, reading := false, false;
        case Line(n) =>
          var line := src.bytes[pos..pos + n];
          pos, total, i := pos + n, total + n, i + 1;
          if n > LINE_LIMIT || total > STREAM_LIMIT {
            failure := Some(ExceedsBound);
            reading := false;
          } else {
            match d.utf8(line) {
              case Some(detail) =>
                failure := Some(WhileReading(detail));
                drain, reading := false, false;
              case None =>
                if !d.blank(line) {
                  match d.decode(line, i) {
                    case Err(e) => sent, reading := sent + [BadLine(e)], false;
                    case Ok(event) => sent, reading := sent + [Event(event)], !d.terminal(event);
                  }
                }
            }
          }
      }
    }
    if drain {
      failure := Drained(src, failure);
    }
    sent := sent + [Ended(failure)];
  }
}
