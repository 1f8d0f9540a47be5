/** What reverse mode keeps over every sequence of errors, and exactly which error loses an epoch. */
module ReverseSafety {
  import opened Slots
  import opened Worker
  import opened Reverse

  /** How the slot of an error relates to the counted cursor: the retry resumes right behind the cursor,
      or at the block being emitted with nothing due in between. */
  ghost predicate Attributed(c: Config, s: RState, slot: nat) {
    || ResumeSlot(slot, s.lastCounted) == s.lastCounted + 1
    || (s.sliceOf == Some(Epoch(slot)) && NoDue(c.present, s.lastCounted + 1, slot))
  }

  lemma RetryMarker(c: Config, s: RState, slot: nat)
    requires CursorKnown(c, s) && Attributed(c, s, slot)
    ensures MarkerOk(c, Retry(s, slot))
  {
    var r := ResumeSlot(slot, s.lastCounted);
    EpochBounds(r);
    if s.sliceOf.Some? { EpochBounds(s.lastCounted); }
  }

  /** The error handler keeps "retired means counted" exactly when it does not retire an epoch the
      cursor never entered, or that epoch happens to be counted already. */
  lemma RetryRetired(c: Config, s: RState, slot: nat)
    requires CursorKnown(c, s) && Attributed(c, s, slot) && RetiredCounted(c, s)
    ensures RetiredCounted(c, Retry(s, slot))
            <==> !Poisoned(s, slot) || EpochCounted(c, s.counted, Epoch(s.lastCounted))
  {
    var e := Epoch(s.lastCounted);
    EpochBounds(s.lastCounted);
    EpochBounds(ResumeSlot(slot, s.lastCounted));
    if IsTail(slot, s.lastCounted) && s.highest == Some(e) {
      if s.sliceOf == Some(e) {
        assert EpochCounted(c, s.counted, e) by { TailIsCounted(c, s, slot); }
      }
      RetireOne(c, s, Retry(s, slot), e);
    }
  }

  lemma TailIsCounted(c: Config, s: RState, slot: nat)
    requires CursorKnown(c, s) && Attributed(c, s, slot) && IsTail(slot, s.lastCounted)
    requires s.sliceOf == Some(Epoch(s.lastCounted))
    ensures EpochCounted(c, s.counted, Epoch(s.lastCounted))
  {
    EpochBounds(s.lastCounted);
    EpochBounds(ResumeSlot(slot, s.lastCounted));
    assert s.lastCounted == EpochEnd(Epoch(s.lastCounted));
    forall x: nat | InRange(c, x) && Epoch(x) == Epoch(s.lastCounted)
      ensures x in s.counted
    {
      EpochBounds(x);
    }
  }

  /** Lowering the marker by one epoch is right exactly when that epoch is counted. */
  lemma RetireOne(c: Config, s: RState, s': RState, e: nat)
    requires RetiredCounted(c, s) && s.highest == Some(e)
    requires s'.highest == CheckedPred(e) && s'.counted == s.counted
    ensures RetiredCounted(c, s') <==> EpochCounted(c, s.counted, e)
  {
    if RetiredCounted(c, s') {
      forall x: nat | InRange(c, x) && Epoch(x) == e
        ensures x in s.counted
      {
        assert s'.highest.None? || Epoch(x) > s'.highest.value;
      }
    }
  }

  lemma RetryCursor(c: Config, s: RState, slot: nat)
    requires CursorKnown(c, s) && Attributed(c, s, slot)
    ensures CursorKnown(c, Retry(s, slot))
  {
    EpochBounds(s.lastCounted);
    EpochBounds(c.lo);
    EpochBounds(ResumeSlot(slot, s.lastCounted));
  }

  // ---------------------------------------------------------------------------------------------
  // Errors.

  lemma FailingAttributed(c: Config, s: RState, m: RMove)
    requires RInv(c, s) && REnabled(c, s, m) && IsError(m)
    ensures var (f, slot) := Failing(c, s, m);
      && CursorKnown(c, f) && Attributed(c, f, slot) && RetiredCounted(c, f)
      && f.highest == s.highest && f.counted == s.counted
  {
    match m {
      case SeekError => OpenCursor(c, s);
      case EmitError(counted) =>
        EmitCursor(c, s, counted);
      case _ => EpochBounds(c.lo);
    }
  }

  lemma EmitCursor(c: Config, s: RState, counted: nat)
    requires RInv(c, s) && s.phase.Emitting? && s.lastCounted <= counted
    requires counted < s.phase.slot || counted == s.lastCounted
    ensures CursorKnown(c, s.(lastCounted := counted))
    ensures Attributed(c, s.(lastCounted := counted), s.phase.slot)
  {
    InEpoch(s.phase.pass.epoch, s.phase.slot);
  }

  /** Opening a slice puts the cursor just below it, with the slots of the epoch below it counted. */
  lemma OpenCursor(c: Config, s: RState)
    requires RInv(c, s) && s.phase.Descending? && s.phase.todo > 0
    requires SliceStart(c, s, EpochAt(c, s.phase.todo)) <= SliceEnd(c, EpochAt(c, s.phase.todo))
    ensures var e := EpochAt(c, s.phase.todo);
      CursorKnown(c, s.(lastCounted := SatPred(SliceStart(c, s, e)), sliceOf := Some(e)))
  {
    var e := EpochAt(c, s.phase.todo);
    var ls := SliceStart(c, s, e);
    forall slot: nat | InRange(c, slot) && Epoch(slot) == e && slot <= SatPred(ls)
      ensures slot in s.counted
    {
      InEpoch(e, slot);
    }
  }

  /** The error retires no epoch that the cursor never entered, unless that epoch is counted anyway. */
  ghost predicate HarmlessError(c: Config, s: RState, m: RMove)
    requires REnabled(c, s, m) && IsError(m)
  {
    var (f, slot) := Failing(c, s, m);
    !Poisoned(f, slot) || EpochCounted(c, s.counted, Epoch(f.lastCounted))
  }

  lemma ErrorKeeps(c: Config, s: RState, m: RMove)
    requires RInv(c, s) && REnabled(c, s, m) && IsError(m)
    requires HarmlessError(c, s, m)
    ensures RInv(c, RStep(c, s, m))
  {
    var (f, slot) := Failing(c, s, m);
    FailingAttributed(c, s, m);
    RetryMarker(c, f, slot);
    RetryRetired(c, f, slot);
    RetryCursor(c, f, slot);
  }

  // ---------------------------------------------------------------------------------------------
  // The other steps.

  lemma BeginKeeps(c: Config, s: RState)
    requires RInv(c, s) && s.phase.Ready?
    ensures RInv(c, RStep(c, s, Begin))
  {
    RangeAboveLowest(c);
  }

  lemma RangeAboveLowest(c: Config)
    ensures forall slot: nat | InRange(c, slot) :: Epoch(slot) >= c.Lowest()
  {
    forall slot: nat | InRange(c, slot)
      ensures Epoch(slot) >= c.Lowest()
    {
      EpochMonotone(c.lo, slot);
    }
  }

  lemma EpochMonotone(a: nat, b: nat)
    requires a <= b
    ensures Epoch(a) <= Epoch(b)
  {
  }

  lemma SkipKeeps(c: Config, s: RState)
    requires RInv(c, s) && REnabled(c, s, Skip)
    ensures RInv(c, RStep(c, s, Skip))
  {
    var e := EpochAt(c, s.phase.todo);
    forall slot: nat | InRange(c, slot) && Epoch(slot) >= e
      ensures slot in s.counted
    {
      InEpoch(e, slot);
    }
  }

  lemma OpenKeeps(c: Config, s: RState)
    requires RInv(c, s) && REnabled(c, s, Open)
    ensures RInv(c, RStep(c, s, Open))
  {
    OpenCursor(c, s);
    var e := EpochAt(c, s.phase.todo);
    if s.resume.Some? { InEpoch(e, s.resume.value); }
  }

  lemma MarkKeeps(c: Config, s: RState)
    requires RInv(c, s) && s.phase.Got?
    requires NoDue(c.present, s.lastCounted + 1, s.phase.pass.localEnd + 1)
    ensures RInv(c, MarkEpoch(s, s.phase.pass))
  {
    var p := s.phase.pass;
    forall slot: nat | InRange(c, slot) && Epoch(slot) == p.epoch
      ensures slot in s.counted
    {
      InEpoch(p.epoch, slot);
    }
    if s.highest == Some(p.epoch) { RetireOne(c, s, MarkEpoch(s, p), p.epoch); }
  }

  lemma PrematureKeeps(c: Config, s: RState)
    requires RInv(c, s) && s.phase.Got?
    ensures RInv(c, Retry(s, s.lastCounted + 1))
  {
    InEpoch(s.phase.pass.epoch, s.lastCounted);
    RetryMarker(c, s, s.lastCounted + 1);
    RetryRetired(c, s, s.lastCounted + 1);
    RetryCursor(c, s, s.lastCounted + 1);
  }

  lemma JudgeEndKeeps(c: Config, s: RState)
    requires RInv(c, s) && s.phase.Got? && s.phase.got.None?
    ensures RInv(c, JudgeStep(c, s))
  {
    var p := s.phase.pass;
    if NextPresent(c.present, s.lastCounted + 1, Min(p.localEnd, SatPred(c.hi))).Some? {
      PrematureKeeps(c, s);
    } else {
      MarkKeeps(c, s);
    }
  }

  lemma JudgeBlockKeeps(c: Config, s: RState)
    requires RInv(c, s) && s.phase.Got? && s.phase.got.Some?
    ensures RInv(c, JudgeStep(c, s))
  {
    if s.phase.got.value > s.phase.pass.localEnd || s.phase.got.value >= c.hi { MarkKeeps(c, s); }
  }

  lemma JudgeKeeps(c: Config, s: RState)
    requires RInv(c, s) && s.phase.Got?
    ensures RInv(c, JudgeStep(c, s))
  {
    if s.phase.got.None? { JudgeEndKeeps(c, s); } else { JudgeBlockKeeps(c, s); }
  }

  lemma EmitKeeps(c: Config, s: RState)
    requires RInv(c, s) && s.phase.Emitting?
    ensures RInv(c, RStep(c, s, Emit))
  {
    var s' := RStep(c, s, Emit);
    forall slot: nat | InRange(c, slot) && Epoch(slot) == s.phase.pass.epoch && slot <= s'.lastCounted
      ensures slot in s'.counted
    {
    }
  }

  lemma ReadKeeps(c: Config, s: RState)
    requires RInv(c, s) && REnabled(c, s, Read)
    ensures RInv(c, RStep(c, s, Read))
  {
  }

  lemma MoveKeeps(c: Config, s: RState, m: RMove)
    requires RInv(c, s) && REnabled(c, s, m)
    requires IsError(m) ==> HarmlessError(c, s, m)
    ensures RInv(c, RStep(c, s, m))
  {
    if IsError(m) {
      ErrorKeeps(c, s, m);
    } else {
      match m {
        case Begin => BeginKeeps(c, s);
        case Skip => SkipKeeps(c, s);
        case Open => OpenKeeps(c, s);
        case Judge => JudgeKeeps(c, s);
        case Emit => EmitKeeps(c, s);
        case Finish => RangeAboveLowest(c);
        case Read => ReadKeeps(c, s);
        case _ =>
      }
    }
  }

  // ---------------------------------------------------------------------------------------------
  // What is left of a retired slice.

  lemma RetrySpent(c: Config, s: RState, slot: nat)
    requires CursorKnown(c, s) && Attributed(c, s, slot) && Spent(c, s)
    ensures Spent(c, Retry(s, slot))
  {
    if s.sliceOf.Some? {
      var y := s.sliceOf.value;
      EpochBounds(s.lastCounted);
      EpochBounds(ResumeSlot(slot, s.lastCounted));
      InEpoch(y, s.lastCounted);
    }
  }

  lemma FailingSpent(c: Config, s: RState, m: RMove)
    requires RInv(c, s) && Spent(c, s) && REnabled(c, s, m) && IsError(m)
    ensures Spent(c, Failing(c, s, m).0)
  {
    if m.SeekError? { SliceInRange(c, s, EpochAt(c, s.phase.todo)); }
  }

  lemma SliceInRange(c: Config, s: RState, e: nat)
    requires SliceStart(c, s, e) <= SliceEnd(c, e)
    ensures e <= Epoch(SatPred(c.hi))
  {
    EpochMonotone(EpochStart(e), SatPred(c.hi));
  }

  lemma JudgeSpent(c: Config, s: RState)
    requires RInv(c, s) && Spent(c, s) && s.phase.Got?
    ensures Spent(c, JudgeStep(c, s))
  {
    var p := s.phase.pass;
    if s.phase.got.None? && NextPresent(c.present, s.lastCounted + 1, Min(p.localEnd, SatPred(c.hi))).Some? {
      RetrySpent(c, s, s.lastCounted + 1);
    }
  }

  lemma MoveSpent(c: Config, s: RState, m: RMove)
    requires RInv(c, s) && Spent(c, s) && REnabled(c, s, m)
    ensures Spent(c, RStep(c, s, m))
  {
    if IsError(m) {
      FailingAttributed(c, s, m);
      FailingSpent(c, s, m);
      RetrySpent(c, Failing(c, s, m).0, Failing(c, s, m).1);
    } else if m.Judge? {
      JudgeSpent(c, s);
    } else if m.Open? {
      SliceInRange(c, s, EpochAt(c, s.phase.todo));
    }
  }

  // ---------------------------------------------------------------------------------------------
  // Whole runs.

  /** `states` is a run of the worker under the moves `moves`. */
  ghost predicate IsRRun(c: Config, states: seq<RState>, moves: seq<RMove>) {
    && c.Valid() && |states| == |moves| + 1 && states[0] == RInit(c)
    && forall i | 0 <= i < |moves| ::
         REnabled(c, states[i], moves[i]) && states[i + 1] == RStep(c, states[i], moves[i])
  }

  predicate IsPoisonedError(c: Config, s: RState, m: RMove) {
    IsError(m) && REnabled(c, s, m) && Poisoned(Failing(c, s, m).0, Failing(c, s, m).1)
  }

  /** No error along the run does harm. */
  ghost predicate Harmless(c: Config, states: seq<RState>, moves: seq<RMove>)
    requires IsRRun(c, states, moves)
  {
    forall i | 0 <= i < |moves| && IsError(moves[i]) :: HarmlessError(c, states[i], moves[i])
  }

  lemma InitRInv(c: Config)
    requires c.Valid()
    ensures RInv(c, RInit(c)) && Spent(c, RInit(c))
  {
    forall slot: nat | InRange(c, slot)
      ensures Epoch(slot) <= Epoch(SatPred(c.hi))
    {
      EpochMonotone(slot, SatPred(c.hi));
    }
    EpochMonotone(c.lo, SatPred(c.hi));
  }

  lemma {:induction false} RunKeepsRInv(c: Config, states: seq<RState>, moves: seq<RMove>)
    requires IsRRun(c, states, moves) && Harmless(c, states, moves)
    ensures RInv(c, states[|states| - 1]) && Spent(c, states[|states| - 1])
    decreases |moves|
  {
    if moves == [] {
      InitRInv(c);
    } else {
      var n := |moves| - 1;
      RunKeepsRInv(c, states[..n + 1], moves[..n]);
      MoveKeeps(c, states[n], moves[n]);
      MoveSpent(c, states[n], moves[n]);
    }
  }

  /** Over every sequence of harmless errors: epochs leave the remaining set only when
      counted, the marker never passes an uncounted slot of its epoch, and a run that ends has counted
      every due slot of its range. */
  lemma NothingIsLost(c: Config, states: seq<RState>, moves: seq<RMove>)
    requires IsRRun(c, states, moves) && Harmless(c, states, moves)
    ensures var s := states[|states| - 1];
      && RetiredCounted(c, s) && MarkerOk(c, s)
      && (s.phase.AllDone? ==> forall slot: nat | InRange(c, slot) :: slot in s.counted)
  {
    RunKeepsRInv(c, states, moves);
  }

  /** After such a run the next error breaks the promise exactly when it is harmful: it retires an epoch the
      cursor never entered and that still has an uncounted due slot. */
  lemma ErrorIsSafeIff(c: Config, states: seq<RState>, moves: seq<RMove>, m: RMove)
    requires IsRRun(c, states, moves) && Harmless(c, states, moves)
    requires IsError(m) && REnabled(c, states[|states| - 1], m)
    ensures var s := states[|states| - 1];
      RetiredCounted(c, RStep(c, s, m)) <==> HarmlessError(c, s, m)
  {
    RunKeepsRInv(c, states, moves);
    var s := states[|states| - 1];
    FailingAttributed(c, s, m);
    RetryRetired(c, Failing(c, s, m).0, Failing(c, s, m).1);
  }

  /** A poisoned error strikes only between two epochs, after a slice that began at its epoch's first slot,
      held no due slot, and has been retired. */
  lemma PoisonNeedsBlocklessSlice(c: Config, states: seq<RState>, moves: seq<RMove>, m: RMove)
    requires IsRRun(c, states, moves) && Harmless(c, states, moves)
    requires IsPoisonedError(c, states[|states| - 1], m)
    ensures var s := states[|states| - 1];
      && (m.OpenError? || m.StatsError?)
      && s.sliceOf == Some(Epoch(s.lastCounted) + 1) && s.lastCounted + 1 == EpochStart(Epoch(s.lastCounted) + 1)
      && s.highest == Some(Epoch(s.lastCounted)) && !HasDue(c, Epoch(s.lastCounted) + 1)
  {
    RunKeepsRInv(c, states, moves);
    var s := states[|states| - 1];
    FailingAttributed(c, s, m);
    var f := Failing(c, s, m).0;
    EpochBounds(f.lastCounted);
    if f.sliceOf.Some? { InEpoch(f.sliceOf.value, f.lastCounted); }
    var y := Epoch(s.lastCounted) + 1;
    forall slot: nat | InRange(c, slot) ensures Epoch(slot) != y {
      InEpoch(y, slot);
    }
  }

  /** On a request without a gap no error can do harm. */
  lemma NoGapNoHarm(c: Config, states: seq<RState>, moves: seq<RMove>, m: RMove)
    requires IsRRun(c, states, moves) && Harmless(c, states, moves) && (forall e: nat :: !Gap(c, e))
    requires IsError(m) && REnabled(c, states[|states| - 1], m)
    ensures HarmlessError(c, states[|states| - 1], m)
  {
    var s := states[|states| - 1];
    if IsPoisonedError(c, s, m) {
      PoisonNeedsBlocklessSlice(c, states, moves, m);
      var x := Epoch(s.lastCounted);
      RunKeepsRInv(c, states, moves);
      RangeAboveLowest(c);
      assert !Gap(c, x + 1);
      assert !HasDue(c, x);
      assert EpochCounted(c, s.counted, x);
    }
  }

  /** A request without a gap loses nothing, whatever fails and however often. */
  lemma {:induction false} NoGapIsHarmless(c: Config, states: seq<RState>, moves: seq<RMove>)
    requires IsRRun(c, states, moves) && (forall e: nat :: !Gap(c, e))
    ensures Harmless(c, states, moves)
    decreases |moves|
  {
    if moves != [] {
      var n := |moves| - 1;
      NoGapIsHarmless(c, states[..n + 1], moves[..n]);
      if IsError(moves[n]) { NoGapNoHarm(c, states[..n + 1], moves[..n], moves[n]); }
    }
  }

  // A whole family of losses: the range starts in epoch `e - 1` and reaches into epoch `e`, where it
  // meets no present slot.

  ghost predicate Losing(c: Config, e: nat) {
    && e > 0 && Epoch(c.lo) == e - 1 && EpochStart(e) < c.hi <= EpochEnd(e) + 1
    && forall slot: nat | EpochStart(e) <= slot < c.hi :: slot !in c.present
  }

  function LossPass(c: Config, e: nat): RPass
    requires 0 < c.hi
  {
    RPass(e, EpochStart(e), c.hi - 1, EpochStart(e), None)
  }

  function LossState(c: Config, e: nat, phase: RPhase, highest: Option<nat>): RState {
    RState(phase, SatPred(EpochStart(e)), None, highest, Some(e), [])
  }

  const LOSS_MOVES: seq<RMove> := [Begin, Open, ReadEof, Judge, NextEpoch, OpenError, Begin]

  function LossStates(c: Config, e: nat): (ss: seq<RState>)
    requires 0 < c.hi && e > 0
    ensures |ss| == 8
  {
    [RInit(c), RInit(c).(phase := Descending(2, None)),
     LossState(c, e, Reading(LossPass(c, e)), Some(e)),
     LossState(c, e, Got(LossPass(c, e), None), Some(e)),
     LossState(c, e, EpochMarked(LossPass(c, e)), Some(e - 1)),
     LossState(c, e, Descending(1, None), Some(e - 1)),
     LossState(c, e, Ready, CheckedPred(e - 1)),
     LossState(c, e, AllDone, CheckedPred(e - 1))]
  }

  ghost predicate GoesTo(c: Config, s: RState, m: RMove, s': RState) { REnabled(c, s, m) && s' == RStep(c, s, m) }

  lemma LossOpensUpper(c: Config, e: nat)
    requires Losing(c, e)
    ensures var ss := LossStates(c, e); GoesTo(c, ss[0], Begin, ss[1]) && GoesTo(c, ss[1], Open, ss[2])
  {
    EpochBounds(c.lo);
    InEpoch(e, c.hi - 1);
  }

  lemma LossReadsUpper(c: Config, e: nat)
    requires Losing(c, e)
    ensures var ss := LossStates(c, e); GoesTo(c, ss[2], ReadEof, ss[3]) && GoesTo(c, ss[3], Judge, ss[4])
  {
    InEpoch(e, c.hi - 1);
  }

  lemma LossLowerEpoch(c: Config, e: nat)
    requires Losing(c, e)
    ensures var ss := LossStates(c, e);
      GoesTo(c, ss[4], NextEpoch, ss[5]) && GoesTo(c, ss[5], OpenError, ss[6]) && GoesTo(c, ss[6], Begin, ss[7])
  {
    EpochBounds(c.lo);
    InEpoch(e - 1, EpochStart(e) - 1);
    InEpoch(e, EpochStart(e));
  }

  /** One failed attempt to open epoch `e - 1` ends the run as complete, with nothing counted. */
  lemma OneFailedOpenLosesAnEpoch(c: Config, e: nat)
    requires Losing(c, e)
    ensures IsRRun(c, LossStates(c, e), LOSS_MOVES)
    ensures LossStates(c, e)[7].phase.AllDone? && LossStates(c, e)[7].counted == []
  {
    EpochBounds(c.lo);
    LossOpensUpper(c, e);
    LossReadsUpper(c, e);
    LossLowerEpoch(c, e);
    forall i | 0 <= i < 7
      ensures GoesTo(c, LossStates(c, e)[i], LOSS_MOVES[i], LossStates(c, e)[i + 1])
    {
    }
  }

  /** The family is inhabited, with a present slot to lose. */
  lemma LossIsReal()
    ensures var c := Config(1, 432001, {5}); Losing(c, 1) && InRange(c, 5) && 5 !in LossStates(c, 1)[7].counted
  {
    OneFailedOpenLosesAnEpoch(Config(1, 432001, {5}), 1);
  }

  /** A slice is entered at its start, or at the nearest present slot of the 64 before it, and ends with the epoch or
      the range. */
  lemma OpenEntersOneEarlyInReverse(c: Config, s: RState)
    requires REnabled(c, s, Open)
    ensures var e := EpochAt(c, s.phase.todo); var s' := RStep(c, s, Open); var p := s'.phase.pass;
      && p.epoch == e && p.localEnd == Min(SatPred(c.hi), EpochEnd(e)) && p.current == None
      && p.localStart == (if s.resume.Some? && Epoch(s.resume.value) == e then s.resume.value
                          else Max(c.lo, EpochStart(e)))
      && s'.lastCounted == SatPred(p.localStart) && EpochStart(e) <= p.cursor <= p.localStart
      && (p.cursor < p.localStart ==> p.cursor in c.present && p.localStart <= p.cursor + 64)
      && (forall x | x in c.present && EpochStart(e) <= x < p.localStart <= x + 64 :: x <= p.cursor < p.localStart)
  {
    if s.resume.Some? { EpochBounds(s.resume.value); }
  }

  /** A finished slice retires its epoch if that is the highest one left, and takes its own marker with it; any other
      marker and any other highest epoch stay. */
  lemma MarkRetires(s: RState, p: RPass)
    ensures var s' := MarkEpoch(s, p);
      && (s.highest == Some(p.epoch) ==> s'.highest == if p.epoch == 0 then None else Some(p.epoch - 1))
      && (s.highest != Some(p.epoch) ==> s'.highest == s.highest)
      && (s'.resume.Some? ==> s'.resume == s.resume && Epoch(s'.resume.value) != p.epoch)
      && (s.resume.Some? && Epoch(s.resume.value) != p.epoch ==> s'.resume == s.resume)
      && s'.lastCounted == s.lastCounted && s'.counted == s.counted && s'.phase == EpochMarked(p)
  {
  }

  /** The slot each error is attributed to, and the counted cursor the handler sees. */
  function Attribution(c: Config, s: RState, m: RMove): (r: (nat, nat))
    requires IsError(m) && REnabled(c, s, m)
    ensures m.OpenError? ==> r == (s.phase.current.GetOr(c.lo), s.lastCounted)
    ensures m.SeekError? ==> r.1 == SatPred(r.0) && r.0 == SliceStart(c, s, c.Lowest() + s.phase.todo - 1)
    ensures m.ReadError? && s.phase.pass.current.Some? ==> r == (s.phase.pass.current.value + 1, s.lastCounted)
    ensures m.ReadError? && s.phase.pass.current.None? ==> r == (c.lo, s.lastCounted)
    ensures m.EmitError? ==> r == (s.phase.slot, m.counted)
    ensures m.StatsError? ==> r == (s.phase.pass.current.GetOr(s.phase.pass.localStart), s.lastCounted)
  {
    (Failing(c, s, m).1, Failing(c, s, m).0.lastCounted)
  }

  /** What the handler makes of it: an error that lies behind the end of the cursor's epoch retires that epoch, if it
      is the highest left, and drops the marker; any other sets the marker above the cursor and retires nothing. A
      stream that broke off is an error at the slot behind the cursor. */
  lemma ErrorOutcome(c: Config, s: RState, m: RMove)
    requires IsError(m) && REnabled(c, s, m)
    ensures var (slot, last) := Attribution(c, s, m); var s' := RStep(c, s, m);
      && s'.phase.Ready? && s'.lastCounted == last && s'.counted == s.counted && Handled(s, s', slot, last)
  {
  }

  ghost predicate Handled(s: RState, s': RState, slot: nat, last: nat) {
    var resume := Max(slot, last + 1);
    if Epoch(last) <= Epoch(slot) && Epoch(last) < Epoch(resume)
    then s'.resume == None
         && s'.highest == (if s.highest != Some(Epoch(last)) then s.highest
                           else if Epoch(last) == 0 then None else Some(Epoch(last) - 1))
    else s'.resume == Some(resume) && s'.highest == s.highest
  }

  lemma CutOutcome(c: Config, s: RState, x: nat)
    requires s.phase.Got? && s.phase.got.None? && x in c.present
    requires s.lastCounted < x <= s.phase.pass.localEnd && x < c.hi
    ensures var s' := RStep(c, s, Judge);
      s'.phase.Ready? && s'.lastCounted == s.lastCounted && Handled(s, s', s.lastCounted + 1, s.lastCounted)
  {
  }

  /** The next epoch down begins with the last slot taken up in this one. */
  lemma NextEpochDown(c: Config, s: RState)
    requires s.phase.EpochMarked?
    ensures RStep(c, s, NextEpoch)
         == s.(phase := Descending(SatSub(s.phase.pass.epoch, Epoch(c.lo)), s.phase.pass.current))
  {
  }

  /** Anything can go wrong at any time here too. */
  lemma AnythingCanFailInReverse(c: Config, s: RState)
    ensures s.phase.Descending? && s.phase.todo > 0
            && SliceStart(c, s, EpochAt(c, s.phase.todo)) <= SliceEnd(c, EpochAt(c, s.phase.todo)) ==>
              && REnabled(c, s, OpenError)
              && (EpochStart(EpochAt(c, s.phase.todo)) < SliceStart(c, s, EpochAt(c, s.phase.todo)) ==>
                    REnabled(c, s, SeekError))
    ensures s.phase.Reading? ==> REnabled(c, s, ReadEof) && REnabled(c, s, ReadError)
    ensures s.phase.Emitting? ==>
              forall k: nat | s.lastCounted <= k < s.phase.slot || k == s.lastCounted :: REnabled(c, s, EmitError(k))
    ensures s.phase.EpochMarked? ==> REnabled(c, s, StatsError)
  {
  }
}
