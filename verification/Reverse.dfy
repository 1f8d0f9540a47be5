/** Reverse mode: one worker takes the epochs of its range from the highest to the lowest, and keeps a
    resume marker and the highest epoch still to do across retries. */
module Reverse {
  import opened Slots
  import opened Worker

  datatype Config = Config(lo: nat, hi: nat, present: set<nat>) {
    predicate Valid() { lo < hi }
    function Lowest(): nat { Epoch(lo) }
  }

  datatype RPass = RPass(epoch: nat, localStart: nat, localEnd: nat, cursor: nat, current: Option<nat>)

  datatype RPhase =
    | Ready                                     // top of the retry loop
    | Descending(todo: nat, current: Option<nat>) // `todo` epochs left, next is `lowest + todo - 1`
    | Reading(pass: RPass)
    | Got(pass: RPass, got: Option<nat>)
    | Emitting(pass: RPass, slot: nat)
    | EpochMarked(pass: RPass)                  // slice done and marked; stats are being emitted
    | AllDone

  /** `sliceOf` is the epoch whose slice last set the counted cursor; `counted` is the history of counts. */
  datatype RState = RState(
    phase: RPhase, lastCounted: nat, resume: Option<nat>, highest: Option<nat>,
    sliceOf: Option<nat>, counted: seq<nat>)

  function RInit(c: Config): RState {
    RState(Ready, SatPred(c.lo), None, Some(Epoch(SatPred(c.hi))), None, [])
  }

  /** The slot a retry resumes from, given the slot the error is attributed to. */
  function ResumeSlot(slot: nat, lastCounted: nat): nat {
    if slot <= lastCounted then lastCounted + 1 else slot
  }

  /** The error is taken to have struck after the end of the slice of `lastCounted`'s epoch. */
  predicate IsTail(slot: nat, lastCounted: nat) {
    && Epoch(slot) >= Epoch(lastCounted)
    && Epoch(ResumeSlot(slot, lastCounted)) > Epoch(lastCounted)
  }

  function CheckedPred(e: nat): Option<nat> { if e == 0 then None else Some(e - 1) }

  function ReverseResumeAfterError(slot: nat, lastCounted: nat, highest: Option<nat>): (Option<nat>, Option<nat>) {
    if IsTail(slot, lastCounted) then
      (None, if highest == Some(Epoch(lastCounted)) then CheckedPred(Epoch(lastCounted)) else highest)
    else (Some(ResumeSlot(slot, lastCounted)), highest)
  }

  datatype RMove =
    | Begin
    | Skip
    | Finish
    | Open
    | OpenError
    | SeekError
    | Read
    | ReadEof
    | ReadError
    | Judge
    | Emit
    | EmitError(counted: nat)
    | NextEpoch
    | StatsError

  function EpochAt(c: Config, todo: nat): nat
    requires todo > 0
  {
    c.Lowest() + todo - 1
  }

  /** The slice starts at the resume marker if the marker belongs to this epoch. */
  function SliceStart(c: Config, s: RState, e: nat): nat {
    if s.resume.Some? && Epoch(s.resume.value) == e then Max(EpochStart(e), s.resume.value)
    else Max(c.lo, EpochStart(e))
  }

  function SliceEnd(c: Config, e: nat): nat { Min(SatPred(c.hi), EpochEnd(e)) }

  predicate REnabled(c: Config, s: RState, m: RMove) {
    match m
    case Begin => s.phase.Ready?
    case Skip =>
      && s.phase.Descending? && s.phase.todo > 0
      && SliceStart(c, s, EpochAt(c, s.phase.todo)) > SliceEnd(c, EpochAt(c, s.phase.todo))
    case Finish => s.phase.Descending? && s.phase.todo == 0
    case Open =>
      && s.phase.Descending? && s.phase.todo > 0
      && SliceStart(c, s, EpochAt(c, s.phase.todo)) <= SliceEnd(c, EpochAt(c, s.phase.todo))
    case OpenError =>
      && s.phase.Descending? && s.phase.todo > 0
      && SliceStart(c, s, EpochAt(c, s.phase.todo)) <= SliceEnd(c, EpochAt(c, s.phase.todo))
    case SeekError =>
      && s.phase.Descending? && s.phase.todo > 0
      && var e := EpochAt(c, s.phase.todo);
         EpochStart(e) < SliceStart(c, s, e) <= SliceEnd(c, e)
    case Read =>
      && s.phase.Reading?
      && NextPresent(c.present, s.phase.pass.cursor, EpochEnd(s.phase.pass.epoch)).Some?
    case ReadEof => s.phase.Reading?
    case ReadError => s.phase.Reading?
    case Judge => s.phase.Got?
    case Emit => s.phase.Emitting?
    case EmitError(counted) =>
      s.phase.Emitting? && s.lastCounted <= counted && (counted < s.phase.slot || counted == s.lastCounted)
    case NextEpoch => s.phase.EpochMarked?
    case StatsError => s.phase.EpochMarked?
  }

  predicate IsError(m: RMove) {
    m.OpenError? || m.SeekError? || m.ReadError? || m.EmitError? || m.StatsError?
  }

  /** The state in which an error is handled, and the slot it is attributed to. */
  function Failing(c: Config, s: RState, m: RMove): (RState, nat)
    requires IsError(m) && REnabled(c, s, m)
  {
    match m
    case OpenError => (s, s.phase.current.GetOr(c.lo))
    case SeekError =>
      var e := EpochAt(c, s.phase.todo);
      (s.(lastCounted := SatPred(SliceStart(c, s, e)), sliceOf := Some(e)), SliceStart(c, s, e))
    case ReadError =>
      (s, if s.phase.pass.current.Some? then s.phase.pass.current.value + 1 else c.lo)
    case EmitError(counted) => (s.(lastCounted := counted), s.phase.slot)
    case StatsError => (s, s.phase.pass.current.GetOr(s.phase.pass.localStart))
  }

  function Retry(s: RState, slot: nat): RState {
    var (resume, highest) := ReverseResumeAfterError(slot, s.lastCounted, s.highest);
    s.(resume := resume, highest := highest, phase := Ready)
  }

  /** The slice is done: retire the epoch if it is the highest one left, and drop its marker. */
  function MarkEpoch(s: RState, p: RPass): RState {
    s.(highest := if s.highest == Some(p.epoch) then CheckedPred(p.epoch) else s.highest,
       resume := if s.resume.Some? && Epoch(s.resume.value) == p.epoch then None else s.resume,
       phase := EpochMarked(p))
  }

  function JudgeStep(c: Config, s: RState): RState
    requires s.phase.Got?
  {
    var p := s.phase.pass;
    match s.phase.got
    case None =>
      if NextPresent(c.present, s.lastCounted + 1, Min(p.localEnd, SatPred(c.hi))).Some?
      then Retry(s, s.lastCounted + 1)
      else MarkEpoch(s, p)
    case Some(slot) =>
      if slot > p.localEnd || slot >= c.hi then MarkEpoch(s, p)
      else if slot < c.lo then s.(phase := Reading(p))
      else s.(phase := Emitting(p.(current := Some(slot)), slot))
  }

  function RStep(c: Config, s: RState, m: RMove): RState
    requires REnabled(c, s, m)
  {
    if IsError(m) then Retry(Failing(c, s, m).0, Failing(c, s, m).1)
    else match m
      case Begin =>
        if s.highest.None? || s.highest.value < c.Lowest() then s.(phase := AllDone)
        else s.(phase := Descending(s.highest.value - c.Lowest() + 1, None))
      case Skip => s.(phase := s.phase.(todo := s.phase.todo - 1))
      case Finish => s.(phase := AllDone)
      case Open =>
        var e := EpochAt(c, s.phase.todo);
        var ls := SliceStart(c, s, e);
        var entry := if ls > EpochStart(e) then SeekTarget(c.present, EpochStart(e), ls) else EpochStart(e);
        s.(lastCounted := SatPred(ls), sliceOf := Some(e),
           phase := Reading(RPass(e, ls, SliceEnd(c, e), entry, None)))
      case Read =>
        var p := s.phase.pass;
        var slot := NextPresent(c.present, p.cursor, EpochEnd(p.epoch)).value;
        s.(phase := Got(p.(cursor := slot + 1), Some(slot)))
      case ReadEof => s.(phase := Got(s.phase.pass, None))
      case Judge => JudgeStep(c, s)
      case Emit =>
        var slot := s.phase.slot;
        var s1 := s.(phase := Reading(s.phase.pass));
        if slot <= s.lastCounted then s1 else s1.(lastCounted := slot, counted := s.counted + [slot])
      case NextEpoch => s.(phase := Descending(SatSub(s.phase.pass.epoch, c.Lowest()), s.phase.pass.current))
  }

  // ---------------------------------------------------------------------------------------------
  // The promise, and the error that breaks it.

  ghost predicate InRange(c: Config, slot: nat) { c.lo <= slot < c.hi && Due(c.present, slot) }

  /** Every due slot of epoch `e`'s slice has been counted. */
  ghost predicate EpochCounted(c: Config, counted: seq<nat>, e: nat) {
    forall slot: nat | InRange(c, slot) && Epoch(slot) == e :: slot in counted
  }

  /** An epoch has left the remaining set only when its slice is counted. */
  ghost predicate RetiredCounted(c: Config, s: RState) {
    forall slot: nat | InRange(c, slot) && (s.highest.None? || Epoch(slot) > s.highest.value) :: slot in s.counted
  }

  /** The resume marker does not lie above an uncounted slot of its own epoch. */
  ghost predicate MarkerOk(c: Config, s: RState) {
    s.resume.Some? ==>
      && c.lo <= s.resume.value
      && forall slot: nat | InRange(c, slot) && Epoch(slot) == Epoch(s.resume.value) && slot < s.resume.value ::
           slot in s.counted
  }

  /** The error handler retires the epoch of the counted cursor although the cursor was never in it:
      the slice above it started at its epoch's first slot and no block of it was counted, so the
      cursor still stands on the sentinel one slot below. */
  predicate Poisoned(s: RState, slot: nat) {
    && IsTail(slot, s.lastCounted) && s.highest == Some(Epoch(s.lastCounted))
    && s.sliceOf != Some(Epoch(s.lastCounted))
  }

  ghost predicate RPassOk(c: Config, s: RState, p: RPass) {
    && s.sliceOf == Some(p.epoch) && c.Lowest() <= p.epoch
    && p.localEnd == SliceEnd(c, p.epoch)
    && EpochStart(p.epoch) <= p.localStart <= p.localEnd
    && EpochStart(p.epoch) <= p.cursor
    && SatPred(p.localStart) <= s.lastCounted <= EpochEnd(p.epoch)
    && (forall slot: nat | InRange(c, slot) && Epoch(slot) > p.epoch :: slot in s.counted)
  }

  ghost predicate CurrentOk(s: RState, current: Option<nat>) { current.Some? ==> current.value <= s.lastCounted }

  ghost predicate PhaseOk(c: Config, s: RState) {
    match s.phase
    case Ready => true
    case Descending(todo, current) =>
      && CurrentOk(s, current)
      && (forall slot: nat | InRange(c, slot) && Epoch(slot) >= c.Lowest() + todo :: slot in s.counted)
      && (todo > 0 ==> s.highest.Some? && s.highest.value + 1 >= c.Lowest() + todo)
    case Reading(p) =>
      && RPassOk(c, s, p) && CurrentOk(s, p.current) && s.highest.Some? && s.highest.value >= p.epoch
      && NoDue(c.present, s.lastCounted + 1, p.cursor)
    case Got(p, got) =>
      && RPassOk(c, s, p) && CurrentOk(s, p.current) && s.highest.Some? && s.highest.value >= p.epoch
      && (got.Some? ==>
            && got.value in c.present && EpochStart(p.epoch) <= got.value <= EpochEnd(p.epoch)
            && got.value < p.cursor
            && NoDue(c.present, s.lastCounted + 1, got.value) && NoDue(c.present, got.value + 1, p.cursor))
    case Emitting(p, slot) =>
      && RPassOk(c, s, p) && s.highest.Some? && s.highest.value >= p.epoch
      && slot in c.present && EpochStart(p.epoch) <= slot <= p.localEnd && slot < p.cursor
      && NoDue(c.present, s.lastCounted + 1, slot) && NoDue(c.present, slot + 1, p.cursor)
      && p.current == Some(slot)
    case EpochMarked(p) =>
      && RPassOk(c, s, p) && CurrentOk(s, p.current) && EpochCounted(c, s.counted, p.epoch)
      && (p.epoch > c.Lowest() ==> s.highest.Some? && s.highest.value + 1 >= p.epoch)
    case AllDone => forall slot: nat | InRange(c, slot) :: slot in s.counted
  }

  /** Where the counted cursor stands. */
  ghost predicate CursorKnown(c: Config, s: RState) {
    && c.lo <= s.lastCounted + 1
    && match s.sliceOf
    case None => s.lastCounted == SatPred(c.lo) && s.highest.Some? && s.highest.value >= c.Lowest()
    case Some(e) =>
      && SatPred(EpochStart(e)) <= s.lastCounted <= EpochEnd(e)
      && (forall slot: nat | InRange(c, slot) && Epoch(slot) == e && slot <= s.lastCounted :: slot in s.counted)
  }

  ghost predicate RInv(c: Config, s: RState) {
    c.Valid() && RetiredCounted(c, s) && MarkerOk(c, s) && CursorKnown(c, s) && PhaseOk(c, s)
  }

  /** The last slice lies in the range; once its epoch is retired, nothing due is left in it above the cursor. */
  ghost predicate Spent(c: Config, s: RState) {
    && (s.sliceOf.Some? ==> s.sliceOf.value <= Epoch(SatPred(c.hi)))
    && (s.sliceOf.Some? && (s.highest.None? || s.highest.value < s.sliceOf.value) ==>
          NoDue(c.present, s.lastCounted + 1, SliceEnd(c, s.sliceOf.value) + 1))
  }

  ghost predicate HasDue(c: Config, e: nat) { exists slot: nat :: InRange(c, slot) && Epoch(slot) == e }

  /** The request has an epoch without a due slot right above one with a due slot. */
  ghost predicate Gap(c: Config, e: nat) {
    c.Lowest() < e <= Epoch(SatPred(c.hi)) && !HasDue(c, e) && HasDue(c, e - 1)
  }
}
