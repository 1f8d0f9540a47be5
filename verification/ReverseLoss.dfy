/** For which requests reverse mode can lose slots: exactly those with an epoch that holds no due slot right
    above one that does. */
module ReverseLoss {
  import opened Slots
  import opened Worker
  import opened Reverse
  import opened ReverseSafety

  /** `moves` lead from `s` to `s'`. */
  ghost predicate Leads(c: Config, s: RState, moves: seq<RMove>, s': RState)
    decreases |moves|
  {
    if moves == [] then s == s'
    else REnabled(c, s, moves[0]) && Leads(c, RStep(c, s, moves[0]), moves[1..], s')
  }

  lemma {:induction false} LeadsOn(c: Config, s: RState, a: seq<RMove>, s1: RState, b: seq<RMove>, s2: RState)
    requires Leads(c, s, a, s1) && Leads(c, s1, b, s2)
    ensures Leads(c, s, a + b, s2)
    decreases |a|
  {
    if a == [] {
      assert a + b == b;
    } else {
      assert (a + b)[1..] == a[1..] + b;
      LeadsOn(c, RStep(c, s, a[0]), a[1..], s1, b, s2);
    }
  }

  lemma LeadsByOne(c: Config, s: RState, m: RMove)
    requires REnabled(c, s, m)
    ensures Leads(c, s, [m], RStep(c, s, m))
  {
    assert [m][1..] == [];
  }

  /** A step, and then more. */
  lemma LeadsFirst(c: Config, s: RState, m: RMove, moves: seq<RMove>, s': RState)
    requires REnabled(c, s, m) && Leads(c, RStep(c, s, m), moves, s')
    ensures Leads(c, s, [m] + moves, s')
  {
    LeadsByOne(c, s, m);
    LeadsOn(c, s, [m], RStep(c, s, m), moves, s');
  }

  lemma {:induction false} LeadsIsRun(c: Config, s: RState, moves: seq<RMove>, s': RState) returns (states: seq<RState>)
    requires Leads(c, s, moves, s')
    ensures |states| == |moves| + 1 && states[0] == s && states[|moves|] == s'
    ensures forall i | 0 <= i < |moves| ::
              REnabled(c, states[i], moves[i]) && states[i + 1] == RStep(c, states[i], moves[i])
    decreases |moves|
  {
    if moves == [] { return [s]; }
    var rest := LeadsIsRun(c, RStep(c, s, moves[0]), moves[1..], s');
    states := [s] + rest;
    forall i | 0 <= i < |moves|
      ensures REnabled(c, states[i], moves[i]) && states[i + 1] == RStep(c, states[i], moves[i])
    {
      if i > 0 { assert moves[i] == moves[1..][i - 1]; }
    }
  }

  // ---------------------------------------------------------------------------------------------
  // An epoch read through without a failure.

  /** A stream whose unread part holds everything due above the cursor. */
  ghost predicate StreamOk(c: Config, s: RState, p: RPass) {
    && p.localEnd <= EpochEnd(p.epoch) && p.localEnd < c.hi && c.lo <= s.lastCounted + 1
    && EpochStart(p.epoch) <= p.cursor && NoDue(c.present, s.lastCounted + 1, p.cursor)
  }

  /** What reading epoch `e` through may change: it counts slots of that epoch, and retires it. */
  ghost predicate OnlyEpoch(s: RState, s': RState, e: nat) {
    && (forall x | x in s'.counted :: x in s.counted || Epoch(x) == e)
    && s'.resume == s.resume
    && s'.highest == (if s.highest == Some(e) then CheckedPred(e) else s.highest)
  }

  /** Nothing present is left: the end of the stream ends the epoch. */
  lemma EndOfStream(c: Config, s: RState)
    requires s.phase.Reading? && StreamOk(c, s, s.phase.pass)
    requires NextPresent(c.present, s.phase.pass.cursor, EpochEnd(s.phase.pass.epoch)).None?
    requires s.resume.None?
    ensures var s' := MarkEpoch(s, s.phase.pass);
      Leads(c, s, [ReadEof, Judge], s') && OnlyEpoch(s, s', s.phase.pass.epoch)
  {
    var p := s.phase.pass;
    var s1 := s.(phase := Got(p, None));
    forall x | s.lastCounted + 1 <= x <= Min(p.localEnd, SatPred(c.hi)) ensures x !in c.present {
      if x < p.cursor { assert !Due(c.present, x); }
    }
    assert RStep(c, s1, Judge) == MarkEpoch(s, p);
    LeadsByOne(c, s1, Judge);
    LeadsFirst(c, s, ReadEof, [Judge], MarkEpoch(s, p));
  }

  /** A block past the slice ends the epoch too. */
  lemma PastSlice(c: Config, s: RState, slot: nat)
    requires s.phase.Reading? && s.resume.None?
    requires NextPresent(c.present, s.phase.pass.cursor, EpochEnd(s.phase.pass.epoch)) == Some(slot)
    requires slot > s.phase.pass.localEnd || slot >= c.hi
    ensures var p := s.phase.pass.(cursor := slot + 1);
      Leads(c, s, [Read, Judge], MarkEpoch(s, p)) && OnlyEpoch(s, MarkEpoch(s, p), p.epoch)
  {
    var p := s.phase.pass.(cursor := slot + 1);
    var s1 := s.(phase := Got(p, Some(slot)));
    assert RStep(c, s1, Judge) == MarkEpoch(s, p);
    LeadsByOne(c, s1, Judge);
    LeadsFirst(c, s, Read, [Judge], MarkEpoch(s, p));
  }

  /** The state after a block of the slice has been taken up. */
  ghost function Taken(c: Config, s: RState, slot: nat): RState
    requires s.phase.Reading?
  {
    var p := s.phase.pass.(cursor := slot + 1);
    if slot < c.lo then s.(phase := Reading(p))
    else RStep(c, s.(phase := Emitting(p.(current := Some(slot)), slot)), Emit)
  }

  lemma TakeBlock(c: Config, s: RState, slot: nat) returns (moves: seq<RMove>)
    requires s.phase.Reading? && StreamOk(c, s, s.phase.pass)
    requires NextPresent(c.present, s.phase.pass.cursor, EpochEnd(s.phase.pass.epoch)) == Some(slot)
    requires slot <= s.phase.pass.localEnd && slot < c.hi
    ensures var s' := Taken(c, s, slot);
      && Leads(c, s, moves, s') && s'.phase.Reading? && StreamOk(c, s', s'.phase.pass)
      && s'.phase.pass.epoch == s.phase.pass.epoch && s'.phase.pass.cursor == slot + 1
      && (forall x | x in s'.counted :: x in s.counted || Epoch(x) == s.phase.pass.epoch)
      && s'.resume == s.resume && s'.highest == s.highest
  {
    var p := s.phase.pass.(cursor := slot + 1);
    var s1 := s.(phase := Got(p, Some(slot)));
    InEpoch(p.epoch, slot);
    if slot < c.lo {
      LeadsByOne(c, s1, Judge);
      moves := [Judge];
    } else {
      var s2 := s.(phase := Emitting(p.(current := Some(slot)), slot));
      LeadsByOne(c, s2, Emit);
      LeadsFirst(c, s1, Judge, [Emit], Taken(c, s, slot));
      moves := [Judge, Emit];
    }
    LeadsFirst(c, s, Read, moves, Taken(c, s, slot));
    moves := [Read] + moves;
  }

  /** Whatever the archive holds, an epoch can be read through to its mark. */
  lemma {:induction false} ReadThrough(c: Config, s: RState) returns (moves: seq<RMove>, s': RState)
    requires s.phase.Reading? && StreamOk(c, s, s.phase.pass) && s.resume.None?
    ensures Leads(c, s, moves, s') && s'.phase.EpochMarked? && s'.phase.pass.epoch == s.phase.pass.epoch
    ensures OnlyEpoch(s, s', s.phase.pass.epoch)
    decreases EpochEnd(s.phase.pass.epoch) + 1 - s.phase.pass.cursor
  {
    var p := s.phase.pass;
    var next := NextPresent(c.present, p.cursor, EpochEnd(p.epoch));
    if next.None? {
      EndOfStream(c, s);
      return [ReadEof, Judge], MarkEpoch(s, p);
    }
    var slot := next.value;
    if slot > p.localEnd || slot >= c.hi {
      PastSlice(c, s, slot);
      return [Read, Judge], MarkEpoch(s, p.(cursor := slot + 1));
    }
    var first := TakeBlock(c, s, slot);
    var rest;
    rest, s' := ReadThrough(c, Taken(c, s, slot));
    LeadsOn(c, s, first, Taken(c, s, slot), rest, s');
    moves := first + rest;
  }

  // ---------------------------------------------------------------------------------------------
  // Descending through epochs.

  ghost predicate Between(c: Config, e: nat) { c.Lowest() <= e <= Epoch(SatPred(c.hi)) }

  lemma SliceOpens(c: Config, s: RState, e: nat)
    requires c.Valid() && Between(c, e) && s.resume.None?
    ensures EpochStart(e) <= SliceStart(c, s, e) <= SliceEnd(c, e) < c.hi && c.lo <= SliceStart(c, s, e)
    ensures e > c.Lowest() ==> SliceStart(c, s, e) == EpochStart(e)
  {
    EpochBounds(c.lo);
    EpochBounds(SatPred(c.hi));
  }

  lemma OpenedStream(c: Config, s: RState)
    requires c.Valid() && s.phase.Descending? && s.phase.todo > 0 && s.resume.None?
    requires Between(c, EpochAt(c, s.phase.todo))
    ensures REnabled(c, s, Open)
    ensures var s1, e := RStep(c, s, Open), EpochAt(c, s.phase.todo);
      && s1.phase.Reading? && s1.phase.pass.epoch == e && StreamOk(c, s1, s1.phase.pass)
      && s1.counted == s.counted && s1.resume == s.resume && s1.highest == s.highest
  {
    SliceOpens(c, s, EpochAt(c, s.phase.todo));
  }

  /** One epoch, opened, read through and left behind. */
  lemma OneEpoch(c: Config, s: RState) returns (moves: seq<RMove>, s': RState)
    requires c.Valid() && s.phase.Descending? && s.phase.todo > 0 && s.resume.None?
    requires Between(c, EpochAt(c, s.phase.todo))
    ensures Leads(c, s, moves, s') && s'.phase.Descending? && s'.phase.todo == s.phase.todo - 1
    ensures OnlyEpoch(s, s', EpochAt(c, s.phase.todo))
  {
    OpenedStream(c, s);
    var s1 := RStep(c, s, Open);
    var read, s2 := ReadThrough(c, s1);
    LeadsFirst(c, s, Open, read, s2);
    LeadsByOne(c, s2, NextEpoch);
    s' := RStep(c, s2, NextEpoch);
    moves := ([Open] + read) + [NextEpoch];
    LeadsOn(c, s, [Open] + read, s2, [NextEpoch], s');
  }

  /** The descent from above `todo` epochs down to above `target` of them. */
  lemma {:induction false} DescendTo(c: Config, s: RState, target: nat) returns (moves: seq<RMove>, s': RState)
    requires c.Valid() && s.phase.Descending? && target <= s.phase.todo && s.resume.None?
    requires s.phase.todo > 0 ==> Between(c, EpochAt(c, s.phase.todo))
    ensures Leads(c, s, moves, s') && s'.phase.Descending? && s'.phase.todo == target && s'.resume.None?
    ensures forall x | x in s'.counted ::
              x in s.counted || c.Lowest() + target <= Epoch(x) < c.Lowest() + s.phase.todo
    ensures target > 0 && s.highest == Some(EpochAt(c, s.phase.todo)) ==> s'.highest == Some(EpochAt(c, target))
    decreases s.phase.todo
  {
    if target == s.phase.todo { return [], s; }
    var first, s1 := OneEpoch(c, s);
    var rest;
    rest, s' := DescendTo(c, s1, target);
    LeadsOn(c, s, first, s1, rest, s');
    moves := first + rest;
  }

  // ---------------------------------------------------------------------------------------------
  // The loss.

  /** The epoch without a due slot: it is opened at its first slot, ends at once, and is retired. Then the stats
      handler fails, and the epoch below goes with it. */
  lemma GapRetiresBoth(c: Config, s: RState, e: nat) returns (s': RState)
    requires c.Valid() && Gap(c, e) && s.resume.None? && s.highest == Some(e)
    requires s.phase.Descending? && s.phase.todo > 0 && EpochAt(c, s.phase.todo) == e
    ensures Leads(c, s, [Open, ReadEof, Judge, StatsError], s')
    ensures s'.phase.Ready? && s'.counted == s.counted && s'.resume.None? && s'.highest == CheckedPred(e - 1)
  {
    SliceOpens(c, s, e);
    OpenedStream(c, s);
    var s1 := RStep(c, s, Open);
    var p := s1.phase.pass;
    assert p == RPass(e, EpochStart(e), SliceEnd(c, e), EpochStart(e), None);
    var s2 := s1.(phase := Got(p, None));
    NothingInGap(c, e);
    var s3 := MarkEpoch(s2, p);
    assert RStep(c, s2, Judge) == s3;
    s' := RStep(c, s3, StatsError);
    RetiredByMistake(e);
    LeadsByOne(c, s3, StatsError);
    LeadsFirst(c, s2, Judge, [StatsError], s');
    LeadsFirst(c, s1, ReadEof, [Judge, StatsError], s');
    LeadsFirst(c, s, Open, [ReadEof, Judge, StatsError], s');
    assert [Open] + [ReadEof, Judge, StatsError] == [Open, ReadEof, Judge, StatsError];
  }

  lemma NothingInGap(c: Config, e: nat)
    requires c.Valid() && Gap(c, e)
    ensures NextPresent(c.present, EpochStart(e), Min(SliceEnd(c, e), SatPred(c.hi))).None?
  {
    forall x: nat | EpochStart(e) <= x <= Min(SliceEnd(c, e), SatPred(c.hi)) ensures x !in c.present {
      InEpoch(e, x);
      EpochBounds(c.lo);
      assert InRange(c, x) ==> HasDue(c, e);
    }
  }

  /** The error is attributed to the first slot of the upper epoch, the cursor stands one slot below it. */
  lemma RetiredByMistake(e: nat)
    requires e > 0
    ensures var lc := SatPred(EpochStart(e));
      ReverseResumeAfterError(EpochStart(e), lc, Some(e - 1)) == (None, CheckedPred(e - 1))
  {
    InEpoch(e - 1, SatPred(EpochStart(e)));
    InEpoch(e, EpochStart(e));
  }

  /** What is left of the range is read through, and the worker reports that all is done. */
  lemma FinishBelow(c: Config, s: RState) returns (moves: seq<RMove>, s': RState)
    requires c.Valid() && s.phase.Ready? && s.resume.None?
    requires s.highest.Some? ==> s.highest.value <= Epoch(SatPred(c.hi))
    ensures Leads(c, s, moves, s') && s'.phase.AllDone?
    ensures forall x | x in s'.counted :: x in s.counted || (s.highest.Some? && Epoch(x) <= s.highest.value)
  {
    var s1 := RStep(c, s, Begin);
    if s1.phase.AllDone? {
      LeadsByOne(c, s, Begin);
      return [Begin], s1;
    }
    var down, s2 := DescendTo(c, s1, 0);
    s' := RStep(c, s2, Finish);
    LeadsByOne(c, s2, Finish);
    LeadsOn(c, s1, down, s2, [Finish], s');
    LeadsFirst(c, s, Begin, down + [Finish], s');
    moves := [Begin] + (down + [Finish]);
  }

  /** The run up to the gap: every epoch above it is read through. */
  lemma ReachGap(c: Config, e: nat) returns (moves: seq<RMove>, s': RState)
    requires c.Valid() && Gap(c, e)
    ensures Leads(c, RInit(c), moves, s') && s'.phase.Descending? && s'.phase.todo > 0 && EpochAt(c, s'.phase.todo) == e
    ensures s'.resume.None? && s'.highest == Some(e) && forall x | x in s'.counted :: Epoch(x) > e
  {
    var s1 := RStep(c, RInit(c), Begin);
    var down;
    down, s' := DescendTo(c, s1, e - c.Lowest() + 1);
    LeadsFirst(c, RInit(c), Begin, down, s');
    moves := [Begin] + down;
  }

  /** Every request with a gap has a run that reports all done and has lost a due slot. */
  lemma GapLosesSlot(c: Config, e: nat) returns (states: seq<RState>, moves: seq<RMove>, slot: nat)
    requires c.Valid() && Gap(c, e)
    ensures IsRRun(c, states, moves) && states[|moves|].phase.AllDone?
    ensures InRange(c, slot) && Epoch(slot) == e - 1 && slot !in states[|moves|].counted
  {
    var up, s1 := ReachGap(c, e);
    var s2 := GapRetiresBoth(c, s1, e);
    var down, s3 := FinishBelow(c, s2);
    var middle := [Open, ReadEof, Judge, StatsError];
    LeadsOn(c, s1, middle, s2, down, s3);
    LeadsOn(c, RInit(c), up, s1, middle + down, s3);
    moves := up + (middle + down);
    states := LeadsIsRun(c, RInit(c), moves, s3);
    slot :| InRange(c, slot) && Epoch(slot) == e - 1;
  }

  ghost predicate CountsAll(c: Config, s: RState) { forall slot: nat | InRange(c, slot) :: slot in s.counted }

  ghost predicate EndsIncomplete(c: Config, states: seq<RState>, moves: seq<RMove>) {
    IsRRun(c, states, moves) && states[|moves|].phase.AllDone? && !CountsAll(c, states[|moves|])
  }

  /** Reverse mode can report a request as done with a due slot uncounted exactly when the request has an epoch
      without a due slot right above one with a due slot. */
  lemma LosesIffGap(c: Config)
    requires c.Valid()
    ensures (exists states: seq<RState>, moves: seq<RMove> :: EndsIncomplete(c, states, moves))
            <==> exists e: nat :: Gap(c, e)
  {
    if e: nat :| Gap(c, e) {
      var states, moves, slot := GapLosesSlot(c, e);
      assert EndsIncomplete(c, states, moves);
    } else {
      forall states: seq<RState>, moves: seq<RMove> | IsRRun(c, states, moves) && states[|moves|].phase.AllDone?
        ensures CountsAll(c, states[|moves|])
      {
        NoGapIsHarmless(c, states, moves);
        NothingIsLost(c, states, moves);
      }
    }
  }
}
