/** The resume floor as it is read: slice by slice and field by field, while the workers go on. */
module FleetFloor {
  import opened Slots
  import opened Worker
  import opened Fleet
  import opened FleetInvariant
  import opened FleetSafety
  import opened FleetTheorems

  /** No grant is on its way. */
  ghost predicate NoneSent(ps: seq<Piece>) { forall i | 0 <= i < |ps| :: !ps[i].holder.Sent? }

  /** Assignments are finished, and nothing else happens to them. */
  ghost predicate OnlyFinished(ps: seq<Piece>, ps': seq<Piece>) {
    |ps'| == |ps| && forall i | 0 <= i < |ps| :: ps'[i] == ps[i] || ps'[i] == ps[i].(holder := Done)
  }

  lemma ServeFinishes(c: Config, s: State, t: nat)
    requires Inv(c, s) && Enabled(c, s, Serve(t)) && |ServeOne(s, t).pieces| == |s.pieces|
    ensures ServeOne(s, t).pieces == s.pieces
  {
  }

  lemma AdoptMeansSent(c: Config, s: State, t: nat)
    requires Inv(c, s) && Enabled(c, s, StoreLedger(t))
    ensures !NoneSent(s.pieces)
  {
    assert GrantOf(s.threads[t]).Some?;
  }

  /** With no grant on its way, a step that commits none only finishes assignments. */
  lemma StepOnlyFinishes(c: Config, s: State, a: Action)
    requires Inv(c, s) && Enabled(c, s, a) && NoneSent(s.pieces) && |Apply(c, s, a).pieces| == |s.pieces|
    ensures OnlyFinished(s.pieces, Apply(c, s, a).pieces) && s.log <= Apply(c, s, a).log
  {
    if a.Serve? {
      ServeFinishes(c, s, a.t);
    } else if a.StoreLedger? {
      AdoptMeansSent(c, s, a.t);
    }
  }

  /** The stretch `[m, n]` of a run in which the floor is read: no grant is on its way when it begins, and none
      is committed before it ends. */
  ghost predicate Settled(c: Config, run: seq<State>, m: nat, n: nat) {
    && IsRun(c, run) && m <= n < |run| && NoneSent(run[m].pieces)
    && forall k | m <= k <= n :: |run[k].pieces| == |run[m].pieces|
  }

  lemma PrefixRuns(c: Config, run: seq<State>, k: nat)
    requires IsRun(c, run) && k < |run|
    ensures Inv(c, run[k])
  {
    RunKeepsInv(c, run[..k + 1]);
  }

  /** An assignment still held at `k` was the same, with the same holder, all the while, and what was counted
      then is counted now. */
  ghost predicate Since(s: State, s': State) {
    && |s.pieces| == |s'.pieces| && NoneSent(s'.pieces)
    && (forall i | 0 <= i < |s'.pieces| && s'.pieces[i].holder.Held? :: s.pieces[i] == s'.pieces[i])
    && s.log <= s'.log
  }

  lemma StepSince(c: Config, s: State, s': State)
    requires Inv(c, s) && NoneSent(s.pieces) && Next(c, s, s') && |s'.pieces| == |s.pieces|
    ensures Since(s, s')
  {
    var a :| Enabled(c, s, a) && s' == Apply(c, s, a);
    StepOnlyFinishes(c, s, a);
  }

  lemma SinceTrans(s: State, s': State, s'': State)
    requires Since(s, s') && Since(s', s'')
    ensures Since(s, s'')
  {
  }

  /** From step to step, as long as no grant is on its way. */
  ghost predicate StepsSince(run: seq<State>, m: nat, n: nat) {
    && m <= n < |run| && NoneSent(run[m].pieces)
    && forall k | m < k <= n :: NoneSent(run[k - 1].pieces) ==> Since(run[k - 1], run[k])
  }

  lemma StepAt(c: Config, run: seq<State>, k: nat)
    requires IsRun(c, run) && 0 < k < |run|
    ensures Inv(c, run[k - 1]) && Next(c, run[k - 1], run[k])
  {
    PrefixRuns(c, run, k - 1);
    assert Next(c, run[k - 1], run[k - 1 + 1]);
  }

  lemma SettledSteps(c: Config, run: seq<State>, m: nat, n: nat)
    requires Settled(c, run, m, n)
    ensures StepsSince(run, m, n)
  {
    forall k | m < k <= n && NoneSent(run[k - 1].pieces) ensures Since(run[k - 1], run[k]) {
      StepAt(c, run, k);
      StepSince(c, run[k - 1], run[k]);
    }
  }

  lemma {:induction false} NoneSentSince(run: seq<State>, m: nat, n: nat, k: nat)
    requires StepsSince(run, m, n) && m <= k <= n
    ensures NoneSent(run[k].pieces)
    decreases k
  {
    if m < k { NoneSentSince(run, m, n, k - 1); }
  }

  lemma {:induction false} AllSince(run: seq<State>, m: nat, n: nat, j: nat, k: nat)
    requires StepsSince(run, m, n) && m <= j <= k <= n
    ensures Since(run[j], run[k])
    decreases k
  {
    NoneSentSince(run, m, n, k);
    if j < k {
      AllSince(run, m, n, j, k - 1);
      NoneSentSince(run, m, n, k - 1);
      SinceTrans(run[j], run[k - 1], run[k]);
    }
  }

  lemma SettledSince(c: Config, run: seq<State>, m: nat, n: nat, j: nat, k: nat)
    requires Settled(c, run, m, n) && m <= j <= k <= n
    ensures Since(run[j], run[k])
  {
    SettledSteps(c, run, m, n);
    AllSince(run, m, n, j, k);
  }

  /** An uncounted slot of a held assignment shows in its holder's ledger. */
  lemma HolderShows(c: Config, s: State, i: nat, slot: nat)
    requires Core(c, s) && i < |s.pieces| && s.pieces[i].holder.Held? && s.pieces[i].range.Has(slot)
    requires Due(c.present, slot)
    ensures var t := s.pieces[i].holder.t;
      t < |s.threads| && slot < s.threads[t].ledger.end && (!Logged(s.log, slot) ==> s.threads[t].ledger.next <= slot)
  {
    var th := s.threads[s.pieces[i].holder.t];
    assert CursorOk(c.present, th);
    assert Logged(s.log, slot) <==> slot < Mark(s.threads, s.pieces[i]);
  }

  /** When worker `t`'s `next` and `end` are loaded. */
  datatype Times = Times(next: nat, end: nat)

  ghost predicate Reads(c: Config, run: seq<State>, m: nat, n: nat, at: seq<Times>) {
    && n < |run| && |at| == c.threads
    && (forall k | 0 <= k < |run| :: |run[k].threads| == c.threads)
    && forall t | 0 <= t < |at| :: m <= at[t].next <= n && m <= at[t].end <= n
  }

  ghost function LoadedAlong(c: Config, run: seq<State>, m: nat, n: nat, at: seq<Times>): (ls: seq<Loaded>)
    requires Reads(c, run, m, n, at)
    ensures |ls| == |at|
    ensures forall t | 0 <= t < |at| ::
              ls[t] == Loaded(run[at[t].next].threads[t].ledger.next, run[at[t].end].threads[t].ledger.end)
  {
    seq(|at|, t requires 0 <= t < |at| && Reads(c, run, m, n, at) =>
      Loaded(run[at[t].next].threads[t].ledger.next, run[at[t].end].threads[t].ledger.end))
  }

  lemma UncountedBefore(log: seq<Event>, log': seq<Event>, slot: nat)
    requires log <= log' && !Logged(log', slot)
    ensures !Logged(log, slot)
  {
    assert forall k | 0 <= k < |log| :: log'[k] == log[k];
  }

  /** An uncounted slot at the end of a settled stretch is seen by whoever reads its holder's fields in it. */
  lemma UncountedIsSeen(c: Config, run: seq<State>, m: nat, n: nat, at: seq<Times>, slot: nat)
    requires Settled(c, run, m, n) && Reads(c, run, m, n, at)
    requires c.lo <= slot < c.hi && Due(c.present, slot) && !Logged(run[n].log, slot)
    ensures exists t :: 0 <= t < |at| && LoadedAlong(c, run, m, n, at)[t].next <= slot
                        && slot < LoadedAlong(c, run, m, n, at)[t].end
  {
    var s := run[n];
    PrefixRuns(c, run, n);
    SettledSince(c, run, m, n, n, n);
    assert Covered(s.pieces, slot);
    var i :| 0 <= i < |s.pieces| && s.pieces[i].range.Has(slot);
    assert slot >= Mark(s.threads, s.pieces[i]);
    var t := s.pieces[i].holder.t;
    SeenAt(c, run, m, n, at[t].next, i, slot);
    SeenAt(c, run, m, n, at[t].end, i, slot);
    assert LoadedAlong(c, run, m, n, at)[t].next <= slot < LoadedAlong(c, run, m, n, at)[t].end;
  }

  lemma SeenAt(c: Config, run: seq<State>, m: nat, n: nat, k: nat, i: nat, slot: nat)
    requires Settled(c, run, m, n) && m <= k <= n && i < |run[n].pieces| && run[n].pieces[i].holder.Held?
    requires run[n].pieces[i].range.Has(slot) && Due(c.present, slot) && !Logged(run[n].log, slot)
    ensures var t := run[n].pieces[i].holder.t;
      t < |run[k].threads| && run[k].threads[t].ledger.next <= slot < run[k].threads[t].ledger.end
  {
    PrefixRuns(c, run, k);
    SettledSince(c, run, m, n, k, n);
    UncountedBefore(run[k].log, run[n].log, slot);
    HolderShows(c, run[k], i, slot);
  }

  /** Whenever the fields are loaded during such a stretch, everything below the floor they give has been
      counted when it ends. */
  lemma FloorReadAlongIsSafe(c: Config, run: seq<State>, m: nat, n: nat, at: seq<Times>)
    requires Settled(c, run, m, n) && Reads(c, run, m, n, at)
    ensures var f := Floor(LoadedAlong(c, run, m, n, at));
      forall slot: nat | c.lo <= slot < c.hi && Due(c.present, slot) && BelowFloor(f, slot) :: Logged(run[n].log, slot)
  {
    var ls := LoadedAlong(c, run, m, n, at);
    forall slot: nat | c.lo <= slot < c.hi && Due(c.present, slot) && BelowFloor(Floor(ls), slot)
      ensures Logged(run[n].log, slot)
    {
      if !Logged(run[n].log, slot) { UncountedIsSeen(c, run, m, n, at, slot); }
    }
  }
}
