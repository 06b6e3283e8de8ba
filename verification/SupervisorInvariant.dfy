/** What every step of a supervised launch keeps. */
module SupervisorInvariant {
  import opened Prelude
  import opened EventStream
  import opened TrustedPrefix
  import opened Supervisor

  // ---- Conservation: nothing is lost between the pipe and the loop ----

  /** What the reader has still to send. */
  ghost function Pending<E>(cfg: Config<E>, r: Reader<E>): seq<Item<E>> {
    match r
    case NotStarted => AllItems(cfg.source, cfg.decoder)
    case Reading(pos, total, lines) =>
      if pos <= |cfg.source.bytes| then Items(cfg.source, cfg.decoder, pos, total, lines) else []
    case DrainingPipe(failure) => [Ended(Drained(cfg.source, failure))]
    case Sending(item, next) => [item] + Pending(cfg, next)
    case Closing => []
    case Finished => []
    case Died => []
  }

  ghost predicate InBounds<E>(cfg: Config<E>, r: Reader<E>) {
    && (r.Reading? ==> r.pos <= |cfg.source.bytes|)
    && (r.Sending? ==>
          && InBounds(cfg, r.next)
          && !r.next.Died? && !r.next.NotStarted? && !r.next.Sending? && !r.next.Finished?
          && (r.item.Ended? <==> r.next.Closing?))
  }

  ghost predicate Conserved<E>(cfg: Config<E>, s: State<E>) {
    var all := AllItems(cfg.source, cfg.decoder);
    var sent := s.received + s.channel;
    && InBounds(cfg, s.reader)
    && (if s.reader.Died? then sent <= all && |sent| < |all|
        else sent + Pending(cfg, s.reader) == all)
  }

  lemma PendingOfTurn<E>(cfg: Config<E>, t: Turn<E>, pos: nat, total: nat, lines: nat)
    requires t.Skip? || t.Deliver? ==> pos + t.length <= |cfg.source.bytes|
    requires t.DeliverLast? ==> !t.item.Ended?
    ensures InBounds(cfg, AfterTurn(t, pos, total, lines))
    ensures Pending(cfg, AfterTurn(t, pos, total, lines)) ==
            match t
            case Skip(n) => Items(cfg.source, cfg.decoder, pos + n, total + n, lines + 1)
            case Deliver(event, n) =>
              [Event(event)] + Items(cfg.source, cfg.decoder, pos + n, total + n, lines + 1)
            case DeliverLast(item) => [item, Ended(Drained(cfg.source, None))]
            case Stop(failure, drain) => [Ended(if drain then Drained(cfg.source, failure) else failure)]
  {
    hide Items, Drained, AllItems;
    if t.Deliver? {
      var next := Reading(pos + t.length, total + t.length, lines + 1);
      assert Pending(cfg, Sending(Event(t.event), next)) == [Event(t.event)] + Pending(cfg, next);
    } else if t.DeliverLast? {
      assert Pending(cfg, Sending(t.item, DrainingPipe(None))) == [t.item] + Pending(cfg, DrainingPipe(None));
    }
  }

  lemma PendingAfterTurn<E>(cfg: Config<E>, pos: nat, total: nat, lines: nat)
    requires pos <= |cfg.source.bytes|
    ensures var r := AfterTurn(ReadTurn(cfg.source, cfg.decoder, pos, total, lines), pos, total, lines);
      && Pending(cfg, r) == Items(cfg.source, cfg.decoder, pos, total, lines)
      && InBounds(cfg, r)
  {
    hide *;
    ItemsUnfold(cfg.source, cfg.decoder, pos, total, lines);
    PendingOfTurn(cfg, ReadTurn(cfg.source, cfg.decoder, pos, total, lines), pos, total, lines);
  }

  lemma PendingNonempty<E>(cfg: Config<E>, r: Reader<E>)
    requires InBounds(cfg, r)
    requires r.Reading? || r.DrainingPipe? || r.Sending?
    ensures |Pending(cfg, r)| > 0
  {
    if r.Reading? {
      ItemsAreWellShaped(cfg.source, cfg.decoder, r.pos, r.total, r.lines);
    }
  }

  lemma ConservedByReader<E>(cfg: Config<E>, s: State<E>, r: ReaderStep)
    requires Conserved(cfg, s) && ReaderEnabled(cfg, s, r)
    ensures Conserved(cfg, ReaderApply(cfg, s, r))
  {
    var s' := ReaderApply(cfg, s, r);
    if r.Reads? {
      PendingAfterTurn(cfg, s.reader.pos, s.reader.total, s.reader.lines);
      hide AllItems, Items, ReadTurn, AfterTurn;
      assert Pending(cfg, s'.reader) == Pending(cfg, s.reader);
    } else if r.Sends? {
      hide AllItems, Items;
      assert Pending(cfg, s.reader) == [s.reader.item] + Pending(cfg, s'.reader);
      var sent := s.received + s.channel;
      assert s'.received + s'.channel == sent + [s.reader.item];
      assert sent + Pending(cfg, s.reader) == (sent + [s.reader.item]) + Pending(cfg, s'.reader);
    } else if r.Dies? {
      PendingNonempty(cfg, s.reader);
      hide AllItems, Items, Pending;
      PrefixOfAppend(s.received + s.channel, Pending(cfg, s.reader));
    } else if r.Drains? {
      hide AllItems, Items, Drained;
      assert InBounds<E>(cfg, Closing);
      assert Pending(cfg, s'.reader) == [s'.reader.item] + Pending(cfg, Closing) == Pending(cfg, s.reader);
      assert s'.received + s'.channel == s.received + s.channel;
    } else {
      assert r.Closes?;
      assert s'.received + s'.channel == s.received + s.channel;
      hide AllItems, Items, Drained;
      assert InBounds(cfg, s'.reader);
      assert Pending(cfg, s'.reader) == Pending(cfg, s.reader);
    }
  }

  lemma ConservedByLoop<E>(cfg: Config<E>, s: State<E>, l: LoopStep)
    requires Conserved(cfg, s) && LoopEnabled(cfg, s, l)
    requires StartSound(cfg, s)
    ensures Conserved(cfg, LoopApply(cfg, s, l))
  {
    hide Items, Accept, AcceptDelivered, ReaderGone;
    if l.Receive? || l.DrainOne? {
      assert (s.received + [s.channel[0]]) + s.channel[1..] == s.received + s.channel;
      hide AllItems, Pending, InBounds;
    }
  }

  // ---- The loop's variables say what was received ----

  function FirstBad<E>(items: seq<Item<E>>): Option<StreamError> {
    if |items| == 0 then None
    else
      var earlier := FirstBad(items[..|items| - 1]);
      if earlier.None? && Last(items).BadLine? then Some(Last(items).error) else earlier
  }

  ghost predicate Tied<E>(v: Vars<E>, received: seq<Item<E>>) {
    v.events == EventsOf(received) && v.streamError == FirstBad(received)
  }

  lemma TiedAccept<E>(v: Vars<E>, received: seq<Item<E>>, item: Item<E>)
    requires Tied(v, received)
    ensures Tied(Accept(v, item), received + [item])
    ensures Tied(AcceptDelivered(v, item), received + [item])
  {
    assert (received + [item])[..|received|] == received;
  }

  /** When and why the loop stops receiving. */
  ghost predicate EndingSound<E>(s: State<E>) {
    var v := s.vars;
    && (!v.ended ==> v.readFailure.None? && !s.disconnected)
    && (!v.ended && !v.timedOut ==> |s.received| == 0 || !Last(s.received).Ended?)
    && (v.ended && !s.disconnected ==> |s.received| > 0 && Last(s.received) == Ended(v.readFailure))
    && (s.disconnected ==> s.reader.Died? && s.channel == [] && v.readFailure == Some(ReaderLost))
    && (v.ended ==> s.phase != Spawned && s.phase != Emptying)
  }

  /** What the watch has been shown, and what the deadline keeps. */
  ghost predicate WatchSound<E>(s: State<E>) {
    && s.shown <= s.vars.events
    && (!s.vars.timedOut ==> s.shown == s.vars.events)
    && (s.phase == Emptying ==> s.backlog <= s.received + s.channel)
    && (s.phase == Left && s.vars.timedOut ==> s.backlog <= s.received)
  }

  function One(b: bool): nat {
    if b then 1 else 0
  }

  /** Every turn but the current one received an item, found the channel closed, or used a tick. */
  ghost predicate TimeSound<E>(cfg: Config<E>, s: State<E>) {
    var spent := |s.received| + s.idles + One(s.disconnected);
    && s.reading <= s.now
    && (s.phase == Spawned ==> s.turns == 0 && s.idles == 0 && |s.received| == 0)
    && (s.phase == Top ==> s.idles <= s.now && s.idles <= cfg.deadline && s.turns == spent)
    && (s.phase == Checking || s.phase == Polling || s.phase == Receiving ==>
          s.idles <= s.reading < cfg.deadline && s.turns == spent + 1)
    && (s.phase == Emptying || s.phase == Left ==> s.idles <= cfg.deadline && s.turns <= spent + 1)
    && (s.vars.timedOut ==> s.reading >= cfg.deadline)
  }

  /** Why the loop was left, and what is known of the threads then. */
  ghost predicate ExitSound<E>(cfg: Config<E>, s: State<E>) {
    && (s.vars.stopped.Some? ==> s.phase == Left && !s.vars.timedOut)
    && (s.phase == Left && !s.vars.timedOut && s.vars.stopped.None? ==>
          && s.vars.ended && s.childExited && ReaderGone(s.reader) && s.writer == Done
          && s.reading < cfg.deadline)
    && (s.phase == Emptying ==> s.vars.timedOut)
    && (s.vars.timedOut ==> s.phase == Emptying || s.phase == Left)
  }

  /** Before the spawn is confirmed, and for ever after a refusal, no thread has been started. */
  ghost predicate StartSound<E>(cfg: Config<E>, s: State<E>) {
    && (s.reader.NotStarted? <==> s.writer == Idle)
    && (s.phase == Spawned ==> s.reader.NotStarted?)
    && (s.reader.NotStarted? ==>
          && s.written == 0 && s.turns == 0 && s.received == [] && s.channel == []
          && s.vars.events == [] && s.vars.streamError.None? && !s.vars.ended && !s.vars.timedOut
          && (s.phase == Spawned || (s.phase == Left && s.vars.stopped.Some?)))
    && s.written <= |cfg.prompt|
  }

  ghost predicate Inv<E>(cfg: Config<E>, s: State<E>) {
    && Conserved(cfg, s)
    && Tied(s.vars, s.received)
    && EndingSound(s)
    && WatchSound(s)
    && TimeSound(cfg, s)
    && ExitSound(cfg, s)
    && StartSound(cfg, s)
  }

  /** Nothing but `Ended` comes last: once it was received, nothing is left on the channel. */
  lemma NothingAfterEnded<E>(cfg: Config<E>, s: State<E>)
    requires Conserved(cfg, s) && |s.received| > 0 && Last(s.received).Ended?
    ensures s.received == AllItems(cfg.source, cfg.decoder) && s.channel == [] && !s.reader.Died?
    ensures Pending(cfg, s.reader) == []
  {
    var all := AllItems(cfg.source, cfg.decoder);
    ItemsAreWellShaped(cfg.source, cfg.decoder, 0, 0, 0);
    hide AllItems, Items, Pending, InBounds;
    assert all[|s.received| - 1].Ended?;
    assert |s.received| == |all|;
  }

  /** A channel found closed and empty before `Ended` means the reader died. */
  lemma ClosedMeansDied<E>(cfg: Config<E>, s: State<E>)
    requires Inv(cfg, s) && LoopEnabled(cfg, s, FindDisconnected)
    ensures s.reader.Died?
  {
    ItemsAreWellShaped(cfg.source, cfg.decoder, 0, 0, 0);
    hide AllItems, Items, Tied, WatchSound, TimeSound, StartSound;
    assert s.received + s.channel + [] == s.received;
  }

  /** A loop that knows of the end has received everything it ever will. */
  lemma EndedHasReceivedAll<E>(cfg: Config<E>, s: State<E>)
    requires Conserved(cfg, s) && EndingSound(s) && s.vars.ended
    ensures s.channel == []
  {
    hide Conserved;
    if !s.disconnected {
      NothingAfterEnded(cfg, s);
    }
  }

  predicate TakesItem(l: LoopStep) {
    l.Receive? || l.DrainOne?
  }

  lemma EndingByItem<E>(cfg: Config<E>, s: State<E>, l: LoopStep)
    requires EndingSound(s) && ExitSound(cfg, s) && LoopEnabled(cfg, s, l) && TakesItem(l)
    ensures EndingSound(LoopApply(cfg, s, l))
  {
    hide Conserved, Tied, WatchSound, TimeSound, StartSound;
  }

  lemma EndingByOther<E>(cfg: Config<E>, s: State<E>, l: LoopStep)
    requires EndingSound(s) && ExitSound(cfg, s) && LoopEnabled(cfg, s, l) && !TakesItem(l)
    requires l.FindDisconnected? ==> s.reader.Died?
    ensures EndingSound(LoopApply(cfg, s, l))
  {
    hide Conserved, Tied, WatchSound, TimeSound, TakeItem, TakeDelivered, StartSound;
  }

  lemma WatchByReceive<E>(cfg: Config<E>, s: State<E>, l: LoopStep)
    requires WatchSound(s) && TimeSound(cfg, s) && ExitSound(cfg, s) && LoopEnabled(cfg, s, l) && l.Receive?
    ensures WatchSound(LoopApply(cfg, s, l))
  {
    hide Conserved, Tied, EndingSound, StartSound, TakeDelivered, StartTurn;
  }

  lemma EndedIsLast<E>(cfg: Config<E>, s: State<E>)
    requires Conserved(cfg, s) && StartSound(cfg, s) && LoopEnabled(cfg, s, DrainOne) && s.channel[0].Ended?
    ensures s.channel[1..] == []
  {
    ConservedByLoop(cfg, s, DrainOne);
    hide Conserved, AcceptDelivered, StartSound;
    NothingAfterEnded(cfg, LoopApply(cfg, s, DrainOne));
  }

  lemma WatchOfDelivered<E>(s: State<E>)
    requires WatchSound(s) && s.phase == Emptying && s.vars.timedOut && |s.channel| > 0
    requires s.channel[0].Ended? ==> s.channel[1..] == []
    ensures WatchSound(TakeDelivered(s))
  {
    assert (s.received + [s.channel[0]]) + s.channel[1..] == s.received + s.channel;
  }

  lemma WatchByDrain<E>(cfg: Config<E>, s: State<E>)
    requires Inv(cfg, s) && LoopEnabled(cfg, s, DrainOne)
    ensures WatchSound(LoopApply(cfg, s, DrainOne))
  {
    if s.channel[0].Ended? {
      EndedIsLast(cfg, s);
    }
    WatchOfDelivered(s);
    hide WatchSound, Conserved, Tied, EndingSound, TimeSound, StartSound;
  }

  lemma WatchByOther<E>(cfg: Config<E>, s: State<E>, l: LoopStep)
    requires WatchSound(s) && EndingSound(s) && TimeSound(cfg, s) && ExitSound(cfg, s) && LoopEnabled(cfg, s, l) && !TakesItem(l)
    requires s.vars.ended ==> s.channel == []
    ensures WatchSound(LoopApply(cfg, s, l))
  {
    hide Conserved, Tied, TimeSound, StartSound, TakeItem, TakeDelivered;
    assert s.channel == [] ==> s.received + s.channel == s.received;
  }

  lemma TimeByLoop<E>(cfg: Config<E>, s: State<E>, l: LoopStep)
    requires TimeSound(cfg, s) && EndingSound(s) && ExitSound(cfg, s) && LoopEnabled(cfg, s, l)
    ensures TimeSound(cfg, LoopApply(cfg, s, l))
  {
  }

  lemma ExitByLoop<E>(cfg: Config<E>, s: State<E>, l: LoopStep)
    requires ExitSound(cfg, s) && TimeSound(cfg, s) && LoopEnabled(cfg, s, l)
    ensures ExitSound(cfg, LoopApply(cfg, s, l))
  {
  }

  lemma StartByLoop<E>(cfg: Config<E>, s: State<E>, l: LoopStep)
    requires StartSound(cfg, s) && LoopEnabled(cfg, s, l)
    ensures StartSound(cfg, LoopApply(cfg, s, l))
  {
  }

  lemma OthersByReader<E>(cfg: Config<E>, s: State<E>, r: ReaderStep)
    requires Tied(s.vars, s.received) && EndingSound(s) && WatchSound(s) && TimeSound(cfg, s) && ExitSound(cfg, s)
    requires ReaderEnabled(cfg, s, r)
    ensures var t := ReaderApply(cfg, s, r);
      Tied(t.vars, t.received) && EndingSound(t) && WatchSound(t) && TimeSound(cfg, t) && ExitSound(cfg, t)
  {
    hide Conserved, ReadTurn;
  }

  lemma StartByReader<E>(cfg: Config<E>, s: State<E>, r: ReaderStep)
    requires StartSound(cfg, s) && InBounds(cfg, s.reader) && ReaderEnabled(cfg, s, r)
    ensures StartSound(cfg, ReaderApply(cfg, s, r))
  {
    hide ReadTurn, Items, AllItems, Pending, TimeSound, EndingSound;
  }

  lemma InvByOutside<E>(cfg: Config<E>, s: State<E>, o: OutsideStep)
    requires Inv(cfg, s) && OutsideEnabled(cfg, s, o)
    ensures Inv(cfg, OutsideApply(cfg, s, o))
  {
    hide AllItems, Pending, InBounds;
  }

  lemma InvInitially<E>(cfg: Config<E>)
    ensures Inv(cfg, Initial<E>())
  {
    hide AllItems;
  }

  lemma TiedByLoop<E>(cfg: Config<E>, s: State<E>, l: LoopStep)
    requires Tied(s.vars, s.received) && LoopEnabled(cfg, s, l)
    ensures var t := LoopApply(cfg, s, l); Tied(t.vars, t.received)
  {
    if TakesItem(l) {
      TiedByItem(cfg, s, l);
      hide LoopApply, LoopEnabled, Tied;
    } else {
      hide EventsOf, FirstBad, TakeItem, TakeDelivered;
    }
  }

  lemma TiedByItem<E>(cfg: Config<E>, s: State<E>, l: LoopStep)
    requires Tied(s.vars, s.received) && LoopEnabled(cfg, s, l) && TakesItem(l)
    ensures var t := LoopApply(cfg, s, l); Tied(t.vars, t.received)
  {
    TiedAccept(s.vars, s.received, s.channel[0]);
    hide EventsOf, FirstBad, Accept, StartTurn;
  }

  lemma InvByLoop<E>(cfg: Config<E>, s: State<E>, l: LoopStep)
    requires Inv(cfg, s) && LoopEnabled(cfg, s, l)
    ensures Inv(cfg, LoopApply(cfg, s, l))
  {
    if l.FindDisconnected? {
      ClosedMeansDied(cfg, s);
    }
    hide LoopApply, LoopEnabled, Conserved, Tied, EndingSound, WatchSound, TimeSound, ExitSound;
    if TakesItem(l) {
      EndingByItem(cfg, s, l);
    } else {
      EndingByOther(cfg, s, l);
    }
    if l.Receive? {
      WatchByReceive(cfg, s, l);
    } else if l.DrainOne? {
      WatchByDrain(cfg, s);
    } else {
      if s.vars.ended {
        EndedHasReceivedAll(cfg, s);
      }
      WatchByOther(cfg, s, l);
    }
    hide StartSound;
    ConservedByLoop(cfg, s, l);
    TiedByLoop(cfg, s, l);
    TimeByLoop(cfg, s, l);
    ExitByLoop(cfg, s, l);
    StartByLoop(cfg, s, l);
  }

  lemma InvByStep<E>(cfg: Config<E>, s: State<E>, step: Step)
    requires Inv(cfg, s) && Enabled(cfg, s, step)
    ensures Inv(cfg, Apply(cfg, s, step))
  {
    match step
    case ByReader(r) =>
      ConservedByReader(cfg, s, r);
      OthersByReader(cfg, s, r);
      StartByReader(cfg, s, r);
      hide ReaderApply, ReaderEnabled, Conserved, Tied, EndingSound, WatchSound, TimeSound, ExitSound, StartSound;
    case ByLoop(l) => InvByLoop(cfg, s, l);
    case Outside(o) => InvByOutside(cfg, s, o);
  }

  /** Every state of every run, whatever the interleaving, satisfies the invariant. */
  lemma {:induction false} InvByRun<E>(cfg: Config<E>, steps: seq<Step>)
    requires Run(cfg, steps).Some?
    ensures Inv(cfg, Run(cfg, steps).value)
  {
    if |steps| == 0 {
      InvInitially(cfg);
    } else {
      InvByRun(cfg, steps[..|steps| - 1]);
      InvByStep(cfg, Run(cfg, steps[..|steps| - 1]).value, Last(steps));
    }
    hide Inv, Apply, Enabled;
  }
}
