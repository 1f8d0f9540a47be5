/** One forward worker, seen alone: the retry loop around a pass over the epochs of its assignment.
    Everything here reads and writes only the worker's own cursors. */
module Worker {
  import opened Slots

  const MIN_STEAL_SLOTS: nat := 64

  /** The worker's entry in the shared work ledger. */
  datatype Ledger = Ledger(start: nat, next: nat, end: nat)

  /** A steal proposal. The reply channel is identified by its thief and the thief's ticket. */
  datatype Request = Request(thief: nat, ticket: nat)

  /** What has arrived on the thief's reply channel. A grant names the assignment it creates. */
  datatype Reply = NoReply | Refused | Granted(id: nat, range: Range)
  datatype Wait = Idle | Waiting(victim: nat, reply: Reply)

  /** The open epoch of a pass: the slice `[localStart, localEnd]` fixed when the epoch was opened,
      the next slot the stream can deliver, and the last slot taken up (`current_slot`). */
  datatype Pass = Pass(epoch: nat, lastEpoch: nat, localStart: nat, localEnd: nat, cursor: nat,
                       current: Option<nat>)

  datatype Phase =
    | Unstarted                                  // not spawned yet
    | PassStart                                  // top of the retry loop
    | Opening(epoch: nat, lastEpoch: nat, current: Option<nat>)
    | Streaming(pass: Pass)                      // about to read the next batch
    | Fetched(pass: Pass, got: Option<nat>)      // a batch is in hand; None is the end of the stream
    | Processing(pass: Pass, slot: nat)          // a block of the slice is being emitted
    | Backoff                                    // parked after an error
    | Finished                                   // the pass returned RangeComplete
    | Draining                                   // journaled, refusing what is left in the inbox
    | Scanning                                   // about to rank the victims
    | Hunting(candidates: seq<nat>, wait: Wait)
    | Adopting(id: nat, range: Range, stored: nat) // a grant was received, `stored` of 3 fields are out
    | Retired
    | Stopped                                    // left on shutdown or an interrupted handler

  datatype Thread = Thread(
    phase: Phase,
    start: nat, end: nat,                        // slot_range
    lastCounted: nat,
    id: nat,                                     // which assignment this is
    ledger: Ledger,
    inbox: seq<Request>,
    ticket: nat)

  /** The worker owns the slots of its current assignment (a stopped worker took them with it). */
  predicate IsHeld(phase: Phase) {
    phase.Unstarted? || phase.PassStart? || phase.Opening? || phase.Streaming? || phase.Fetched?
    || phase.Processing? || phase.Backoff? || phase.Finished? || phase.Stopped?
  }

  predicate IsExited(phase: Phase) { phase.Retired? || phase.Stopped? }

  /** The steps of a worker that touch nothing shared. */
  datatype Move =
    | Spawn
    | BeginPass
    | SkipEpoch
    | FinishPass
    | OpenEpoch
    | OpenFail
    | SeekFail
    | ReadBlock
    | ReadEnd
    | ReadFail(recycled: bool)
    | Decide(statsFail: bool)
    | ProcessFail(counted: nat)
    | Restart
    | StopNow

  function LocalStart(th: Thread, epoch: nat): nat { Max(th.start, EpochStart(epoch)) }
  function LocalEnd(th: Thread, epoch: nat): nat { Min(SatPred(th.end), EpochEnd(epoch)) }

  /** Where a mid-epoch pass enters the stream: one present slot early when the index finds one. */
  function SeekTarget(present: set<nat>, epochStart: nat, localStart: nat): nat {
    match PrevPresent(present, epochStart, localStart, PRIMING_WINDOW)
    case Some(s) => s
    case None => localStart
  }

  /** The restart after an error attributed to `slot`. */
  function Resume(th: Thread, slot: nat, recycled: bool): Thread {
    th.(start := if slot <= th.lastCounted then th.lastCounted + 1 else slot,
        phase := if recycled then PassStart else Backoff)
  }

  function NextOrStart(th: Thread, current: Option<nat>): nat {
    match current
    case Some(s) => s + 1
    case None => th.start
  }

  predicate MoveEnabled(present: set<nat>, th: Thread, m: Move) {
    match m
    case Spawn => th.phase.Unstarted?
    case BeginPass => th.phase.PassStart? && th.inbox == []
    case SkipEpoch =>
      && th.phase.Opening? && th.phase.epoch <= th.phase.lastEpoch
      && LocalStart(th, th.phase.epoch) > LocalEnd(th, th.phase.epoch)
    case FinishPass => th.phase.Opening? && th.phase.epoch > th.phase.lastEpoch
    case OpenEpoch =>
      && th.phase.Opening? && th.phase.epoch <= th.phase.lastEpoch
      && LocalStart(th, th.phase.epoch) <= LocalEnd(th, th.phase.epoch)
    case OpenFail =>
      && th.phase.Opening? && th.phase.epoch <= th.phase.lastEpoch
      && LocalStart(th, th.phase.epoch) <= LocalEnd(th, th.phase.epoch)
    case SeekFail =>
      && th.phase.Opening? && th.phase.epoch <= th.phase.lastEpoch
      && EpochStart(th.phase.epoch) < LocalStart(th, th.phase.epoch) <= LocalEnd(th, th.phase.epoch)
    case ReadBlock =>
      && th.phase.Streaming?
      && NextPresent(present, th.phase.pass.cursor, EpochEnd(th.phase.pass.epoch)).Some?
    case ReadEnd => th.phase.Streaming?
    case ReadFail(_) => th.phase.Streaming?
    case Decide(_) => th.phase.Fetched? && th.inbox == []
    case ProcessFail(counted) =>
      th.phase.Processing? && th.lastCounted <= counted && (counted < th.phase.slot || counted == th.lastCounted)
    case Restart => th.phase.Backoff?
    case StopNow =>
      || th.phase.PassStart? || th.phase.Opening? || th.phase.Streaming? || th.phase.Fetched?
      || th.phase.Processing? || th.phase.Backoff?
  }

  /** The stream ended or ran past the slice: the epoch is done, unless the stats handler fails. */
  function EpochDone(th: Thread, p: Pass, statsFail: bool): Thread {
    if statsFail then Resume(th, p.current.GetOr(p.localStart), false)
    else th.(phase := Opening(p.epoch + 1, p.lastEpoch, p.current))
  }

  function DecideStep(present: set<nat>, th: Thread, statsFail: bool): Thread
    requires th.phase.Fetched?
  {
    var p := th.phase.pass;
    match th.phase.got
    case None =>
      // The end of the stream is genuine only if the index knows no slot left in the slice.
      if NextPresent(present, th.lastCounted + 1, Min(p.localEnd, SatPred(th.end))).Some?
      then Resume(th, th.lastCounted + 1, false)
      else EpochDone(th, p, statsFail)
    case Some(slot) =>
      if slot > p.localEnd then EpochDone(th, p, statsFail)
      else if slot >= th.end then th.(phase := Finished)
      else if slot < th.start then th.(phase := Streaming(p))
      else th.(phase := Processing(p.(current := Some(slot)), slot))
  }

  function MoveStep(present: set<nat>, th: Thread, m: Move): Thread
    requires MoveEnabled(present, th, m)
  {
    match m
    case Spawn => th.(phase := PassStart)
    case BeginPass => th.(phase := Opening(Epoch(th.start), Epoch(SatPred(th.end)), None))
    case SkipEpoch => th.(phase := th.phase.(epoch := th.phase.epoch + 1))
    case FinishPass => th.(phase := Finished)
    case OpenEpoch =>
      var e := th.phase.epoch;
      var ls := LocalStart(th, e);
      var entry := if ls > EpochStart(e) then SeekTarget(present, EpochStart(e), ls) else EpochStart(e);
      th.(lastCounted := SatPred(ls),
          phase := Streaming(Pass(e, th.phase.lastEpoch, ls, LocalEnd(th, e), entry, None)))
    case OpenFail => Resume(th, th.phase.current.GetOr(th.start), false)
    case SeekFail =>
      var ls := LocalStart(th, th.phase.epoch);
      Resume(th.(lastCounted := SatPred(ls)), ls, false)
    case ReadBlock =>
      var p := th.phase.pass;
      var slot := NextPresent(present, p.cursor, EpochEnd(p.epoch)).value;
      th.(phase := Fetched(p.(cursor := slot + 1), Some(slot)))
    case ReadEnd => th.(phase := Fetched(th.phase.pass, None))
    case ReadFail(recycled) => Resume(th, NextOrStart(th, th.phase.pass.current), recycled)
    case Decide(statsFail) => DecideStep(present, th, statsFail)
    case ProcessFail(counted) => Resume(th.(lastCounted := counted), th.phase.slot, false)
    case Restart => th.(phase := PassStart)
    case StopNow => th.(phase := Stopped, inbox := [])
  }

  /** The block in hand has been emitted: commit it to the counted cursor and publish. A block at or
      below the cursor is a duplicate and leaves the cursors alone. */
  function CountStep(th: Thread): Thread
    requires th.phase.Processing?
  {
    var slot := th.phase.slot;
    var th1 := if slot <= th.lastCounted then th
               else th.(lastCounted := slot, ledger := th.ledger.(next := slot + 1));
    th1.(phase := if slot + 1 == th.end then Finished else Streaming(th.phase.pass))
  }

  /** Where a steal request splits the work left, if the victim can spare half of it. */
  function SplitPoint(position: nat, end: nat, allow: bool): (mid: Option<nat>)
    ensures mid.Some? <==> allow && end >= position + 64
    ensures mid.Some? ==> position + 32 <= mid.value <= end - 32 && mid.value - position == (end - position) / 2
  {
    if !allow || SatSub(end, position) < MIN_STEAL_SLOTS then None
    else Some(position + SatSub(end, position) / 2)
  }

  /** The phases in which the inbox is answered; only the first three may grant. */
  predicate Serves(phase: Phase) {
    phase.PassStart? || phase.Backoff? || phase.Fetched? || phase.Draining?
  }

  function ServeStep(th: Thread, mid: Option<nat>): Thread
    requires th.inbox != []
  {
    var th1 := th.(inbox := th.inbox[1..]);
    match mid
    case None => th1
    case Some(m) => th1.(end := m, ledger := th.ledger.(end := m))
  }

  // ---------------------------------------------------------------------------------------------
  // The cursor invariant.

  /** Where the inbox is answered from: the authoritative next slot to process. */
  function Position(th: Thread): nat {
    if th.phase.Fetched? then th.lastCounted + 1 else th.start
  }

  ghost predicate PassOk(th: Thread, p: Pass) {
    && p.localStart == LocalStart(th, p.epoch) <= p.localEnd <= EpochEnd(p.epoch)
    && (th.end <= p.localEnd + 1 || p.localEnd == EpochEnd(p.epoch))
    && th.end <= EpochStart(p.lastEpoch + 1)
    && EpochStart(p.epoch) <= p.cursor
    && SatPred(p.localStart) <= th.lastCounted <= EpochEnd(p.epoch)
    && (th.lastCounted == SatPred(p.localStart) || th.lastCounted < p.cursor)
  }

  /** Nothing due lies between the counted cursor and the place the worker would resume from. */
  ghost predicate CursorOk(present: set<nat>, th: Thread) {
    && th.ledger.start <= th.start <= th.end
    && th.ledger.start <= th.lastCounted + 1 <= th.end
    && th.ledger.start <= th.ledger.next <= th.lastCounted + 1
    && th.ledger.end == th.end
    && NoDue(present, th.lastCounted + 1, th.start)
    && match th.phase {
      case Unstarted => th.lastCounted <= SatPred(th.start)
      case PassStart => th.lastCounted <= SatPred(th.start)
      case Backoff => th.lastCounted <= SatPred(th.start)
      case Opening(e, last, current) =>
        && th.lastCounted <= SatPred(LocalStart(th, e))
        && NoDue(present, th.lastCounted + 1, Min(EpochStart(e), th.end))
        && th.end <= EpochStart(last + 1)
        && (current.Some? ==> current.value <= th.lastCounted)
      case Streaming(p) =>
        && PassOk(th, p)
        && NoDue(present, th.lastCounted + 1, p.cursor)
        && (p.current.Some? ==> p.current.value <= th.lastCounted)
      case Fetched(p, got) =>
        && PassOk(th, p)
        && (p.current.Some? ==> p.current.value <= th.lastCounted)
        && (got.Some? ==>
              && got.value in present
              && EpochStart(p.epoch) <= got.value <= EpochEnd(p.epoch)
              && got.value < p.cursor
              && NoDue(present, th.lastCounted + 1, got.value)
              && NoDue(present, got.value + 1, p.cursor)
              && (th.lastCounted == SatPred(p.localStart) || th.lastCounted < got.value))
      case Processing(p, slot) =>
        && PassOk(th, p)
        && slot in present
        && p.localStart <= slot <= p.localEnd && slot < th.end && slot < p.cursor
        && NoDue(present, th.lastCounted + 1, slot)
        && NoDue(present, slot + 1, p.cursor)
        && (th.lastCounted < slot || slot == 0)
        && p.current == Some(slot)
      case Finished => NoDue(present, th.lastCounted + 1, th.end)
      case _ => true
    }
  }

  /** What a local step guarantees. */
  ghost predicate GoodStep(present: set<nat>, th: Thread, th': Thread) {
    && CursorOk(present, th') && IsHeld(th'.phase)
    && th.lastCounted <= th'.lastCounted && NoDue(present, th.lastCounted + 1, th'.lastCounted + 1)
    && th'.end == th.end && th'.id == th.id && th'.ledger == th.ledger && th'.ticket == th.ticket
  }

  /** A restart goes on right above the cursor, or at the slot that failed if that is higher, and parks unless the
      connection was only recycled. It loses nothing when nothing due lies below the slot the error is attributed to. */
  lemma ResumeKeepsCursor(present: set<nat>, th: Thread, counted: nat, slot: nat, recycled: bool)
    requires CursorOk(present, th) && IsHeld(th.phase)
    requires th.lastCounted <= counted < th.end && NoDue(present, th.lastCounted + 1, counted + 1)
    requires NoDue(present, counted + 1, slot) && slot <= th.end
    ensures var th' := Resume(th.(lastCounted := counted), slot, recycled);
      && GoodStep(present, th, th') && th'.start == Max(slot, counted + 1)
      && th'.phase == if recycled then PassStart else Backoff
  {
  }

  lemma EpochDoneKeepsCursor(present: set<nat>, th: Thread, p: Pass, statsFail: bool)
    requires CursorOk(present, th) && th.phase.Fetched? && th.phase.pass == p
    requires NoDue(present, th.lastCounted + 1, Min(p.localEnd + 1, th.end))
    ensures GoodStep(present, th, EpochDone(th, p, statsFail))
  {
    if statsFail {
      ResumeKeepsCursor(present, th, th.lastCounted, p.current.GetOr(p.localStart), false);
    }
  }

  lemma ProcessKeepsCursor(present: set<nat>, th: Thread, statsFail: bool)
    requires CursorOk(present, th) && th.phase.Fetched?
    requires th.phase.got.Some? && th.phase.got.value <= th.phase.pass.localEnd
    ensures GoodStep(present, th, DecideStep(present, th, statsFail))
  {
  }

  lemma DecideKeepsCursor(present: set<nat>, th: Thread, statsFail: bool)
    requires CursorOk(present, th) && th.phase.Fetched?
    ensures GoodStep(present, th, DecideStep(present, th, statsFail))
  {
    var p := th.phase.pass;
    if th.phase.got.None? {
      if NextPresent(present, th.lastCounted + 1, Min(p.localEnd, SatPred(th.end))).Some? {
        ResumeKeepsCursor(present, th, th.lastCounted, th.lastCounted + 1, false);
      } else {
        EpochDoneKeepsCursor(present, th, p, statsFail);
      }
    } else if th.phase.got.value > p.localEnd {
      EpochDoneKeepsCursor(present, th, p, statsFail);
    } else {
      ProcessKeepsCursor(present, th, statsFail);
    }
  }

  lemma OpenKeepsCursor(present: set<nat>, th: Thread)
    requires CursorOk(present, th) && MoveEnabled(present, th, OpenEpoch)
    ensures GoodStep(present, th, MoveStep(present, th, OpenEpoch))
  {
  }

  /** A pass enters an epoch at the start of its slice, or at the one present slot before it that primes the chain:
      the nearest within 64 slots and inside the epoch, if there is one. */
  lemma OpenEntersOneEarly(present: set<nat>, th: Thread)
    requires MoveEnabled(present, th, OpenEpoch)
    ensures var e := th.phase.epoch; var ls := Max(th.start, EpochStart(e));
      var th' := MoveStep(present, th, OpenEpoch); var cursor := th'.phase.pass.cursor;
      && th'.phase == Streaming(Pass(e, th.phase.lastEpoch, ls, Min(SatPred(th.end), EpochEnd(e)), cursor, None))
      && th'.lastCounted == SatPred(ls) && EpochStart(e) <= cursor <= ls
      && (cursor < ls ==> cursor in present && ls <= cursor + 64)
      && (forall s | s in present && EpochStart(e) <= s < ls <= s + 64 :: s <= cursor < ls)
  {
  }

  lemma ReadKeepsCursor(present: set<nat>, th: Thread, m: Move)
    requires CursorOk(present, th) && (m.ReadBlock? || m.ReadEnd?) && MoveEnabled(present, th, m)
    ensures GoodStep(present, th, MoveStep(present, th, m))
  {
  }

  lemma BeginKeepsCursor(present: set<nat>, th: Thread)
    requires CursorOk(present, th) && MoveEnabled(present, th, BeginPass)
    ensures GoodStep(present, th, MoveStep(present, th, BeginPass))
  {
    EpochBounds(th.start);
    EpochBounds(SatPred(th.end));
  }

  predicate IsFailure(m: Move) { m.OpenFail? || m.SeekFail? || m.ReadFail? || m.ProcessFail? }

  lemma FailureKeepsCursor(present: set<nat>, th: Thread, m: Move)
    requires CursorOk(present, th) && IsFailure(m) && MoveEnabled(present, th, m)
    ensures GoodStep(present, th, MoveStep(present, th, m))
  {
    if m.OpenFail? {
      ResumeKeepsCursor(present, th, th.lastCounted, th.phase.current.GetOr(th.start), false);
    } else if m.SeekFail? {
      var ls := LocalStart(th, th.phase.epoch);
      ResumeKeepsCursor(present, th, SatPred(ls), ls, false);
    } else if m.ReadFail? {
      ResumeKeepsCursor(present, th, th.lastCounted, NextOrStart(th, th.phase.pass.current), m.recycled);
    } else {
      ResumeKeepsCursor(present, th, m.counted, th.phase.slot, false);
    }
  }

  /** The moves that only change the phase. */
  lemma TurnKeepsCursor(present: set<nat>, th: Thread, m: Move)
    requires CursorOk(present, th) && IsHeld(th.phase) && MoveEnabled(present, th, m)
    requires m.Spawn? || m.SkipEpoch? || m.FinishPass? || m.Restart? || m.StopNow?
    ensures GoodStep(present, th, MoveStep(present, th, m))
  {
  }

  /** Every local step of a worker keeps its cursor invariant, and moves the counted cursor only
      over slots that are not due. */
  lemma StepKeepsCursor(present: set<nat>, th: Thread, m: Move)
    requires CursorOk(present, th) && IsHeld(th.phase) && MoveEnabled(present, th, m)
    ensures GoodStep(present, th, MoveStep(present, th, m))
  {
    if IsFailure(m) {
      FailureKeepsCursor(present, th, m);
    } else if m.BeginPass? {
      BeginKeepsCursor(present, th);
    } else if m.OpenEpoch? {
      OpenKeepsCursor(present, th);
    } else if m.ReadBlock? || m.ReadEnd? {
      ReadKeepsCursor(present, th, m);
    } else if m.Decide? {
      DecideKeepsCursor(present, th, m.statsFail);
    } else {
      TurnKeepsCursor(present, th, m);
    }
  }

  /** Giving work away keeps the victim's invariant, and everything given away is above its cursor. */
  lemma ServeKeepsCursor(present: set<nat>, th: Thread)
    requires CursorOk(present, th) && IsHeld(th.phase) && Serves(th.phase) && th.inbox != []
    ensures var mid := SplitPoint(Position(th), th.end, true);
      && CursorOk(present, ServeStep(th, mid))
      && (mid.Some? ==> th.lastCounted < mid.value && th.ledger.start + MIN_STEAL_SLOTS / 2 <= mid.value)
  {
  }

  /** A count takes up exactly one due slot, the next one above the cursor and inside the range, and publishes it; a
      block that is not counted is slot 0. The last slot of the range finishes it. */
  lemma CountKeepsCursor(present: set<nat>, th: Thread)
    requires CursorOk(present, th) && th.phase.Processing?
    ensures var th' := CountStep(th); var slot := th.phase.slot;
      && CursorOk(present, th') && IsHeld(th'.phase)
      && th.ledger.start <= slot < th.end
      && if slot == 0 then th'.lastCounted == th.lastCounted
         else Due(present, slot) && th'.lastCounted == slot && NoDue(present, th.lastCounted + 1, slot)
    ensures var th' := CountStep(th); var slot := th.phase.slot;
      && (th'.phase.Finished? <==> slot == th.end - 1)
      && th'.ledger == if slot == 0 then th.ledger else th.ledger.(next := slot + 1)
  {
  }

  /** Which slot each error is attributed to, and so where the next pass begins: at the slot that was being opened,
      sought or processed, or behind the last one taken up, but always above the counted cursor. */
  lemma ErrorsAreAttributed(present: set<nat>, th: Thread, m: Move)
    requires CursorOk(present, th) && IsHeld(th.phase) && MoveEnabled(present, th, m)
    ensures var th' := MoveStep(present, th, m);
      match m
      case OpenFail =>
        th'.lastCounted == th.lastCounted && th'.start == Max(th.lastCounted + 1, th.phase.current.GetOr(th.start))
      case SeekFail =>
        th'.start == Max(th.start, EpochStart(th.phase.epoch)) && th'.lastCounted == th'.start - 1
      case ReadFail(_) =>
        && th'.lastCounted == th.lastCounted
        && th'.start == Max(th.lastCounted + 1, match th.phase.pass.current case Some(k) => k + 1 case None => th.start)
      case ProcessFail(counted) => th'.lastCounted == counted && th'.start == Max(counted + 1, th.phase.slot)
      case _ => true
  {
  }

  /** How an epoch ends: with the next one, which knows the last slot taken up, or, if the stats handler fails, with a
      retry attributed to that slot or to the start of the slice. A stream that broke off is read on behind the counted
      cursor. */
  lemma EpochEnds(present: set<nat>, th: Thread, statsFail: bool)
    requires th.phase.Fetched? && th.inbox == []
    requires th.phase.got.None? || th.phase.got.value > th.phase.pass.localEnd
    ensures var p, th' := th.phase.pass, MoveStep(present, th, Decide(statsFail));
      if th.phase.got.None? && exists s :: th.lastCounted < s <= p.localEnd && s < th.end && s in present
      then th'.phase.Backoff? && th'.start == th.lastCounted + 1
      else if statsFail
      then th'.phase.Backoff? && th'.start == Max(th.lastCounted + 1, p.current.GetOr(p.localStart))
      else th' == th.(phase := Opening(p.epoch + 1, p.lastEpoch, p.current))
  {
  }

  /** Anything can go wrong at any time: an epoch that cannot be opened or sought, a stream that fails or breaks off
      wherever it stands, a handler that fails or is interrupted. */
  lemma AnythingCanFail(present: set<nat>, th: Thread)
    ensures th.phase.Opening? && th.phase.epoch <= th.phase.lastEpoch
            && LocalStart(th, th.phase.epoch) <= LocalEnd(th, th.phase.epoch) ==>
              && MoveEnabled(present, th, OpenFail) && MoveEnabled(present, th, StopNow)
              && (EpochStart(th.phase.epoch) < th.start ==> MoveEnabled(present, th, SeekFail))
    ensures th.phase.Streaming? ==>
              && MoveEnabled(present, th, ReadFail(true)) && MoveEnabled(present, th, ReadFail(false))
              && MoveEnabled(present, th, ReadEnd) && MoveEnabled(present, th, StopNow)
    ensures th.phase.Fetched? && th.inbox == [] ==>
              MoveEnabled(present, th, Decide(true)) && MoveEnabled(present, th, Decide(false))
    ensures th.phase.Processing? ==>
              && MoveEnabled(present, th, StopNow)
              && forall k: nat | th.lastCounted <= k < th.phase.slot || k == th.lastCounted ::
                   MoveEnabled(present, th, ProcessFail(k))
    ensures th.phase.PassStart? || th.phase.Backoff? || th.phase.Fetched? ==> MoveEnabled(present, th, StopNow)
  {
  }
}
