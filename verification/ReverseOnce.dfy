/** For which requests reverse mode can count a slot twice: exactly those that end inside an epoch on a due slot,
    with another epoch below. */
module ReverseOnce {
  import opened Slots
  import opened Worker
  import opened Reverse
  import opened ReverseSafety
  import opened ReverseLoss

  ghost predicate Distinct(xs: seq<nat>) { forall i, j | 0 <= i < j < |xs| :: xs[i] != xs[j] }

  function Top(c: Config): nat { Epoch(SatPred(c.hi)) }

  /** The last slot of the range is due and the range ends inside that slot's epoch, above another epoch. Once that
      slot has been counted the resume marker lies beyond the slice, and the epoch is skipped without being retired. */
  ghost predicate Overrun(c: Config) {
    Due(c.present, SatPred(c.hi)) && Epoch(c.hi) == Top(c) && c.Lowest() < Top(c)
  }

  // ---------------------------------------------------------------------------------------------
  // What keeps a slot from being counted twice.

  /** Everything counted of epoch `h` lies at or below the cursor, inside the epoch, and below where its slice would
      start now. */
  ghost predicate Ahead(c: Config, s: RState, h: nat) {
    forall x | x in s.counted && Epoch(x) == h :: x <= s.lastCounted < EpochEnd(h) && x < SliceStart(c, s, h)
  }

  ghost predicate CountedTo(s: RState, e: nat) { forall x | x in s.counted && Epoch(x) == e :: x <= s.lastCounted }

  ghost predicate PassOnce(c: Config, s: RState, p: RPass) {
    && s.highest == Some(p.epoch) && c.Lowest() <= p.epoch <= Top(c)
    && p.localEnd == SliceEnd(c, p.epoch) && EpochStart(p.epoch) <= p.localStart <= p.localEnd
    && EpochStart(p.epoch) <= p.cursor
    && SatPred(p.localStart) <= s.lastCounted <= EpochEnd(p.epoch) && CountedTo(s, p.epoch)
  }

  ghost predicate CurrentIs(s: RState, p: RPass) {
    match p.current
    case None => s.lastCounted == SatPred(p.localStart)
    case Some(k) => EpochStart(p.epoch) <= k <= s.lastCounted
  }

  ghost predicate PhaseOnce(c: Config, s: RState) {
    match s.phase
    case Ready => s.highest.Some? ==> Ahead(c, s, s.highest.value)
    case Descending(todo, current) =>
      && (current.Some? ==> current.value <= s.lastCounted)
      && (todo > 0 ==> s.highest == Some(EpochAt(c, todo)) && Ahead(c, s, EpochAt(c, todo)))
    case Reading(p) => PassOnce(c, s, p) && CurrentIs(s, p)
    case Got(p, got) =>
      && PassOnce(c, s, p) && CurrentIs(s, p)
      && (got.Some? ==> got.value in c.present && EpochStart(p.epoch) <= got.value <= EpochEnd(p.epoch))
    case Emitting(p, slot) =>
      PassOnce(c, s, p) && slot in c.present && EpochStart(p.epoch) <= slot <= p.localEnd && c.lo <= slot
      && p.current == Some(slot)
    case EpochMarked(p) =>
      && s.highest == CheckedPred(p.epoch) && c.Lowest() <= p.epoch <= Top(c)
      && (forall x | x in s.counted :: p.epoch <= Epoch(x))
      && p.localStart <= SatPred(c.hi) && (p.current.Some? ==> p.current.value <= s.lastCounted)
    case AllDone => true
  }

  /** The retry never resumes beyond the range, except where that does no harm. */
  ghost predicate Inside(c: Config, s: RState) {
    || c.Lowest() == Top(c) || Top(c) < Epoch(c.hi)
    || (s.lastCounted + 1 < c.hi && (s.resume.Some? ==> s.resume.value < c.hi))
  }

  ghost predicate Once(c: Config, s: RState) {
    && Distinct(s.counted)
    && (s.highest.Some? ==> s.highest.value <= Top(c) && forall x | x in s.counted :: s.highest.value <= Epoch(x))
    && (forall x | x in s.counted :: 0 < x)
    && Inside(c, s) && PhaseOnce(c, s)
  }

  lemma InitOnce(c: Config)
    requires c.Valid() && !Overrun(c)
    ensures Once(c, RInit(c))
  {
    EpochBounds(c.lo);
    EpochBounds(SatPred(c.hi));
  }

  /** The cursor is in the highest epoch left, and the error is not taken for one below it at its very end; or
      nothing of that epoch has been counted. */
  ghost predicate Resumable(f: RState, slot: nat) {
    f.highest.Some? ==>
      var h := f.highest.value;
      || (EpochStart(h) <= f.lastCounted <= EpochEnd(h) && (Epoch(slot) >= h || f.lastCounted < EpochEnd(h)))
      || (forall x | x in f.counted :: Epoch(x) != h)
  }

  /** The retry resumes above everything counted of the highest epoch left, or has retired it. */
  lemma RetryAhead(c: Config, f: RState, slot: nat)
    requires f.highest.Some? && Resumable(f, slot) && CountedTo(f, f.highest.value)
    requires forall x | x in f.counted :: f.highest.value <= Epoch(x)
    ensures var s' := Retry(f, slot);
      s'.highest.Some? ==> s'.highest.value <= f.highest.value && Ahead(c, s', s'.highest.value)
  {
    var h, s' := f.highest.value, Retry(f, slot);
    EpochBounds(f.lastCounted);
    EpochBounds(slot);
    EpochBounds(ResumeSlot(slot, f.lastCounted));
    if s'.highest == f.highest && exists x :: x in f.counted && Epoch(x) == h {
      InEpoch(h, f.lastCounted);
      assert Epoch(f.lastCounted) == h && !IsTail(slot, f.lastCounted);
      InEpoch(h, ResumeSlot(slot, f.lastCounted));
      assert s'.resume == Some(ResumeSlot(slot, f.lastCounted)) && Epoch(s'.resume.value) == h;
    }
  }

  lemma RetryOnce(c: Config, f: RState, slot: nat)
    requires Resumable(f, slot) && Distinct(f.counted) && (forall x | x in f.counted :: 0 < x)
    requires f.highest.Some? ==>
               && f.highest.value <= Top(c) && CountedTo(f, f.highest.value)
               && forall x | x in f.counted :: f.highest.value <= Epoch(x)
    requires Inside(c, f) && (slot < c.hi || c.Lowest() == Top(c) || Top(c) < Epoch(c.hi))
    ensures Once(c, Retry(f, slot))
  {
    if f.highest.Some? { RetryAhead(c, f, slot); }
  }

  // ---------------------------------------------------------------------------------------------
  // Steps.

  lemma OpenErrorOnce(c: Config, s: RState)
    requires c.Valid() && Once(c, s) && REnabled(c, s, OpenError)
    ensures Once(c, RStep(c, s, OpenError))
  {
    var h := EpochAt(c, s.phase.todo);
    if x :| x in s.counted && Epoch(x) == h { InEpoch(h, x); }
    RetryOnce(c, s, s.phase.current.GetOr(c.lo));
  }

  lemma SeekErrorOnce(c: Config, s: RState)
    requires c.Valid() && Once(c, s) && REnabled(c, s, SeekError)
    ensures Once(c, RStep(c, s, SeekError))
  {
    var h := EpochAt(c, s.phase.todo);
    var start := SliceStart(c, s, h);
    InEpoch(h, start);
    RetryOnce(c, s.(lastCounted := SatPred(start), sliceOf := Some(h)), start);
  }

  lemma ReadErrorAtBlock(c: Config, s: RState)
    requires c.Valid() && Once(c, s) && REnabled(c, s, ReadError) && s.phase.pass.current.Some?
    ensures Once(c, Retry(s, s.phase.pass.current.value + 1))
  {
    var p := s.phase.pass;
    InEpoch(p.epoch, p.current.value);
    EpochMonotone(p.current.value, p.current.value + 1);
    RetryOnce(c, s, p.current.value + 1);
  }

  lemma ReadErrorAtStart(c: Config, s: RState)
    requires c.Valid() && Once(c, s) && REnabled(c, s, ReadError) && s.phase.pass.current.None?
    ensures Once(c, Retry(s, c.lo))
  {
    var p := s.phase.pass;
    if x :| x in s.counted && Epoch(x) == p.epoch { InEpoch(p.epoch, x); }
    RetryOnce(c, s, c.lo);
  }

  lemma ReadErrorOnce(c: Config, s: RState, s': RState)
    requires c.Valid() && Once(c, s) && REnabled(c, s, ReadError) && s' == RStep(c, s, ReadError)
    ensures Once(c, s')
  {
    if s.phase.pass.current.Some? { ReadErrorAtBlock(c, s); } else { ReadErrorAtStart(c, s); }
  }

  lemma EmitErrorOnce(c: Config, s: RState, counted: nat)
    requires c.Valid() && Once(c, s) && REnabled(c, s, EmitError(counted))
    ensures Once(c, RStep(c, s, EmitError(counted)))
  {
    var p := s.phase.pass;
    InEpoch(p.epoch, s.phase.slot);
    if x :| x in s.counted && Epoch(x) == p.epoch { InEpoch(p.epoch, x); }
    RetryOnce(c, s.(lastCounted := counted), s.phase.slot);
  }

  lemma StatsErrorOnce(c: Config, s: RState)
    requires c.Valid() && Once(c, s) && REnabled(c, s, StatsError)
    ensures Once(c, RStep(c, s, StatsError))
  {
    RetryOnce(c, s, s.phase.pass.current.GetOr(s.phase.pass.localStart));
  }

  lemma MarkOnce(c: Config, s: RState)
    requires Once(c, s) && s.phase.Got?
    ensures Once(c, MarkEpoch(s, s.phase.pass))
  {
  }

  /** A stream that broke off is read on above the cursor. */
  lemma CutOnce(c: Config, s: RState)
    requires c.Valid() && Once(c, s) && s.phase.Got?
    requires NextPresent(c.present, s.lastCounted + 1, Min(s.phase.pass.localEnd, SatPred(c.hi))).Some?
    ensures Once(c, Retry(s, s.lastCounted + 1))
  {
    var p := s.phase.pass;
    if x :| x in s.counted && Epoch(x) == p.epoch { InEpoch(p.epoch, x); }
    RetryOnce(c, s, s.lastCounted + 1);
  }

  lemma TakeOnce(c: Config, s: RState)
    requires c.Valid() && Once(c, s) && s.phase.Got? && s.phase.got.Some?
    requires s.phase.got.value <= s.phase.pass.localEnd && s.phase.got.value < c.hi
    ensures Once(c, JudgeStep(c, s))
  {
  }

  lemma JudgeEndOnce(c: Config, s: RState, s': RState)
    requires c.Valid() && Once(c, s) && s.phase.Got? && s.phase.got.None? && s' == JudgeStep(c, s)
    ensures Once(c, s')
  {
    if NextPresent(c.present, s.lastCounted + 1, Min(s.phase.pass.localEnd, SatPred(c.hi))).Some? {
      CutOnce(c, s);
    } else {
      MarkOnce(c, s);
    }
  }

  lemma JudgeBlockOnce(c: Config, s: RState, s': RState)
    requires c.Valid() && Once(c, s) && s.phase.Got? && s.phase.got.Some? && s' == JudgeStep(c, s)
    ensures Once(c, s')
  {
    if s.phase.got.value <= s.phase.pass.localEnd && s.phase.got.value < c.hi {
      TakeOnce(c, s);
    } else {
      MarkOnce(c, s);
    }
  }

  /** A count is of a slot above everything counted of its epoch. */
  lemma EmitOnce(c: Config, s: RState)
    requires c.Valid() && !Overrun(c) && Once(c, s) && s.phase.Emitting?
    ensures Once(c, RStep(c, s, Emit))
  {
    var p, slot := s.phase.pass, s.phase.slot;
    InEpoch(p.epoch, slot);
    if s.lastCounted < slot {
      var s' := RStep(c, s, Emit);
      assert slot !in s.counted;
      assert forall x | x in s'.counted :: x in s.counted || x == slot;
    }
  }

  /** Outside the requests in question, the slice of an epoch that is left to do is never empty, unless nothing is
      left below it. */
  lemma NothingSkipped(c: Config, s: RState)
    requires c.Valid() && !Overrun(c) && Once(c, s) && REnabled(c, s, Skip)
    ensures s.phase.todo == 1
  {
    var h := EpochAt(c, s.phase.todo);
    EpochBounds(c.lo);
    EpochBounds(c.hi);
    EpochBounds(SatPred(c.hi));
    if s.resume.Some? && Epoch(s.resume.value) == h { EpochBounds(s.resume.value); }
  }

  lemma OpenOnce(c: Config, s: RState)
    requires c.Valid() && Once(c, s) && REnabled(c, s, Open)
    ensures Once(c, RStep(c, s, Open))
  {
    var h := EpochAt(c, s.phase.todo);
    var ls := SliceStart(c, s, h);
    var entry := if ls > EpochStart(h) then SeekTarget(c.present, EpochStart(h), ls) else EpochStart(h);
    assert EpochStart(h) <= entry;
    assert forall x | x in s.counted && Epoch(x) == h :: x < ls;
  }

  lemma ReadOnce(c: Config, s: RState, m: RMove)
    requires c.Valid() && Once(c, s) && (m.Read? || m.ReadEof?) && REnabled(c, s, m)
    ensures Once(c, RStep(c, s, m))
  {
  }

  lemma TurnOnce(c: Config, s: RState, m: RMove)
    requires c.Valid() && !Overrun(c) && Once(c, s) && REnabled(c, s, m)
    requires m.Begin? || m.Skip? || m.Finish? || m.NextEpoch?
    ensures Once(c, RStep(c, s, m))
  {
    if m.Skip? { NothingSkipped(c, s); }
  }

  lemma MoveOnce(c: Config, s: RState, m: RMove)
    requires c.Valid() && !Overrun(c) && Once(c, s) && REnabled(c, s, m)
    ensures Once(c, RStep(c, s, m))
  {
    match m {
      case OpenError => OpenErrorOnce(c, s);
      case SeekError => SeekErrorOnce(c, s);
      case ReadError => ReadErrorOnce(c, s, RStep(c, s, m));
      case EmitError(counted) => EmitErrorOnce(c, s, counted);
      case StatsError => StatsErrorOnce(c, s);
      case Judge =>
        if s.phase.got.None? { JudgeEndOnce(c, s, RStep(c, s, m)); } else { JudgeBlockOnce(c, s, RStep(c, s, m)); }
      case Emit => EmitOnce(c, s);
      case Open => OpenOnce(c, s);
      case Read => ReadOnce(c, s, m);
      case ReadEof => ReadOnce(c, s, m);
      case _ => TurnOnce(c, s, m);
    }
  }

  lemma {:induction false} RunOnce(c: Config, states: seq<RState>, moves: seq<RMove>, n: nat)
    requires IsRRun(c, states, moves) && !Overrun(c) && n < |states|
    ensures Once(c, states[n])
  {
    if n == 0 {
      InitOnce(c);
    } else {
      RunOnce(c, states, moves, n - 1);
      MoveOnce(c, states[n - 1], moves[n - 1]);
    }
  }

  /** On every run over any other request, whatever fails on the way, no slot is counted twice. */
  lemma NeverTwice(c: Config, states: seq<RState>, moves: seq<RMove>, n: nat)
    requires IsRRun(c, states, moves) && !Overrun(c) && n < |states|
    ensures Distinct(states[n].counted)
  {
    RunOnce(c, states, moves, n);
  }

  /** There, whenever a slice is opened it starts above everything counted of its epoch. */
  lemma SlicesStartAbove(c: Config, states: seq<RState>, moves: seq<RMove>, n: nat)
    requires IsRRun(c, states, moves) && !Overrun(c) && n < |moves| && moves[n] == Open
    ensures var p := states[n + 1].phase.pass;
      forall x | x in states[n].counted && Epoch(x) == p.epoch :: x < p.localStart
  {
    RunOnce(c, states, moves, n);
  }

  /** On any request, a retry after an error inside a slice, with the cursor in its epoch and not at its end, resumes
      right above the cursor or at the block that failed, and the epoch is still to be done. */
  lemma RetryResumesAbove(c: Config, s: RState, m: RMove)
    requires REnabled(c, s, m) && (m.ReadError? || m.EmitError?)
    requires var e := s.phase.pass.epoch;
      && EpochStart(e) <= s.lastCounted && Failing(c, s, m).0.lastCounted < EpochEnd(e)
      && Failing(c, s, m).1 <= EpochEnd(e)
    ensures var e, s' := s.phase.pass.epoch, RStep(c, s, m);
      && s'.highest == s.highest
      && SliceStart(c, s', e) == Max(Failing(c, s, m).0.lastCounted + 1, Failing(c, s, m).1)
  {
    var (f, slot) := Failing(c, s, m);
    InEpoch(s.phase.pass.epoch, f.lastCounted);
    InEpoch(s.phase.pass.epoch, ResumeSlot(slot, f.lastCounted));
  }

  // ---------------------------------------------------------------------------------------------
  // A run that counts a slot twice.

  /** What reading up to a slot leaves: it is the last one counted, and nothing else of importance has changed. */
  ghost predicate ReadTo(s: RState, s': RState, slot: nat) {
    && s'.phase.Reading? && s.phase.Reading? && s'.phase.pass.epoch == s.phase.pass.epoch
    && s'.phase.pass.current == Some(slot) && s'.lastCounted == slot
    && s.counted < s'.counted && s'.counted[|s'.counted| - 1] == slot
    && s'.resume == s.resume && s'.highest == s.highest
  }

  /** Everything up to a due slot of the slice can be read and counted. */
  lemma {:induction false} ReadsUpTo(c: Config, s: RState, slot: nat) returns (moves: seq<RMove>, s': RState)
    requires s.phase.Reading? && StreamOk(c, s, s.phase.pass) && InRange(c, slot)
    requires s.lastCounted < slot <= s.phase.pass.localEnd
    ensures Leads(c, s, moves, s') && ReadTo(s, s', slot)
    decreases EpochEnd(s.phase.pass.epoch) + 1 - s.phase.pass.cursor
  {
    var p := s.phase.pass;
    assert p.cursor <= slot by { assert !Due(c.present, slot) || p.cursor <= slot; }
    var next := NextPresent(c.present, p.cursor, EpochEnd(p.epoch)).value;
    assert next <= slot;
    var s1 := Taken(c, s, next);
    moves := TakeBlock(c, s, next);
    if next == slot { return moves, s1; }
    var rest;
    rest, s' := ReadsUpTo(c, s1, slot);
    LeadsOn(c, s, moves, s1, rest, s');
    moves := moves + rest;
  }

  /** A retry into the same epochs: where `BeginAgain` stands after an error that retires nothing. */
  lemma BeginsAtTop(c: Config, s: RState)
    requires c.Valid() && s.phase.Ready? && s.highest == Some(Top(c))
    ensures REnabled(c, s, Begin)
    ensures var s' := RStep(c, s, Begin);
      && s' == s.(phase := Descending(Top(c) - c.Lowest() + 1, None)) && c.Lowest() <= Top(c)
      && EpochAt(c, s'.phase.todo) == Top(c)
  {
    EpochMonotone(c.lo, SatPred(c.hi));
  }

  /** The top epoch is opened at its start and read to the end of the range. */
  lemma ReadsTop(c: Config, s: RState) returns (moves: seq<RMove>, s': RState)
    requires c.Valid() && Overrun(c) && s.phase.Ready? && s.highest == Some(Top(c))
    requires s.resume.Some? ==> Epoch(s.resume.value) != Top(c)
    ensures Leads(c, s, moves, s') && s'.phase.Reading? && s'.phase.pass.epoch == Top(c)
    ensures s'.phase.pass.current == Some(c.hi - 1) && s'.lastCounted == c.hi - 1
    ensures s.counted < s'.counted && s'.counted[|s'.counted| - 1] == c.hi - 1
    ensures s'.resume == s.resume && s'.highest == s.highest
  {
    EpochBounds(c.lo);
    EpochBounds(c.hi - 1);
    BeginsAtTop(c, s);
    var s1 := RStep(c, s, Begin);
    var s2 := RStep(c, s1, Open);
    assert SliceStart(c, s1, Top(c)) == EpochStart(Top(c));
    assert StreamOk(c, s2, s2.phase.pass);
    moves, s' := ReadsUpTo(c, s2, c.hi - 1);
    LeadsFirst(c, s1, Open, moves, s');
    LeadsFirst(c, s, Begin, [Open] + moves, s');
    moves := [Begin] + ([Open] + moves);
  }

  /** A failure right behind the last slot leaves the marker beyond the range, and the top epoch is passed over. */
  lemma SkipsTop(c: Config, s: RState) returns (moves: seq<RMove>, s': RState)
    requires c.Valid() && Overrun(c) && s.phase.Reading? && s.phase.pass.current == Some(c.hi - 1)
    requires s.lastCounted == c.hi - 1 && s.highest == Some(Top(c))
    ensures Leads(c, s, moves, s') && s'.counted == s.counted && s'.highest == Some(Top(c)) && s'.resume == Some(c.hi)
    ensures s'.phase == Descending(Top(c) - c.Lowest(), None)
  {
    EpochBounds(c.hi);
    var s1 := RStep(c, s, ReadError);
    assert s1 == s.(resume := Some(c.hi), phase := Ready);
    BeginsAtTop(c, s1);
    var s2 := RStep(c, s1, Begin);
    assert SliceStart(c, s2, Top(c)) == c.hi;
    s' := RStep(c, s2, Skip);
    LeadsByOne(c, s2, Skip);
    LeadsFirst(c, s1, Begin, [Skip], s');
    LeadsFirst(c, s, ReadError, [Begin, Skip], s');
    moves := [ReadError] + [Begin, Skip];
  }

  /** A failure in the epoch below, before its first block, makes the top epoch start over. */
  lemma FailsBelow(c: Config, s: RState) returns (moves: seq<RMove>, s': RState)
    requires c.Valid() && Overrun(c) && s.highest == Some(Top(c)) && s.resume == Some(c.hi)
    requires s.phase == Descending(Top(c) - c.Lowest(), None)
    ensures Leads(c, s, moves, s') && s'.phase.Ready? && s'.counted == s.counted && s'.highest == Some(Top(c))
    ensures s'.resume.Some? ==> Epoch(s'.resume.value) != Top(c)
  {
    var e := Top(c) - 1;
    EpochBounds(c.lo);
    EpochBounds(c.hi - 1);
    var s1 := RStep(c, s, Open);
    var ls := SliceStart(c, s, e);
    assert ls == Max(c.lo, EpochStart(e)) && Epoch(ls) == e by { InEpoch(e, ls); }
    assert s1.lastCounted == SatPred(ls) && s1.phase.pass.current.None?;
    s' := RStep(c, s1, ReadError);
    EpochMonotone(SatPred(ls), ls);
    LeadsByOne(c, s1, ReadError);
    LeadsFirst(c, s, Open, [ReadError], s');
    moves := [Open] + [ReadError];
  }

  /** For every request in question there is a run, with two failed reads in it, that counts its last slot twice. */
  lemma LastSlotTwice(c: Config) returns (states: seq<RState>, moves: seq<RMove>)
    requires c.Valid() && Overrun(c)
    ensures IsRRun(c, states, moves) && !Distinct(states[|moves|].counted)
    ensures exists i, j :: 0 <= i < j < |states[|moves|].counted|
              && states[|moves|].counted[i] == states[|moves|].counted[j] == c.hi - 1
  {
    var s0 := RInit(c);
    var m1, s1 := ReadsTop(c, s0);
    var m2, s2 := SkipsTop(c, s1);
    var m3, s3 := FailsBelow(c, s2);
    var m4, s4 := ReadsTop(c, s3);
    LeadsOn(c, s0, m1, s1, m2, s2);
    LeadsOn(c, s0, m1 + m2, s2, m3, s3);
    LeadsOn(c, s0, m1 + m2 + m3, s3, m4, s4);
    moves := m1 + m2 + m3 + m4;
    states := LeadsIsRun(c, s0, moves, s4);
    assert s4.counted[|s1.counted| - 1] == s1.counted[|s1.counted| - 1] == c.hi - 1;
  }

  /** Some run counts a slot twice exactly when the request ends inside an epoch on a due slot, above another
      epoch. */
  lemma TwiceIffOverrun(c: Config)
    requires c.Valid()
    ensures (exists states: seq<RState>, moves: seq<RMove> ::
               IsRRun(c, states, moves) && !Distinct(states[|moves|].counted))
       <==> Overrun(c)
  {
    if Overrun(c) { var states, moves := LastSlotTwice(c); }
    if states: seq<RState>, moves: seq<RMove> :| IsRRun(c, states, moves) && !Distinct(states[|moves|].counted) {
      if !Overrun(c) { NeverTwice(c, states, moves, |moves|); }
    }
  }
}
