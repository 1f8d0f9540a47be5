/** Runs that retire, pass their audit, and have counted a block that `on_block` was never told about: which
    requests have one. */
module DeliveryLoss {
  import opened Slots
  import opened Subranges
  import opened Worker
  import opened Fleet
  import opened FleetInvariant
  import opened FleetSafety
  import opened FleetTheorems
  import opened FleetProgress
  import opened FleetCompletion
  import opened Delivery
  import opened StealReach

  lemma DExtend(c: Config, ds: seq<DState>, xs: seq<DAction>, x: DAction)
    requires IsDRun(c, ds, xs) && DEnabled(c, ds[|xs|], x)
    ensures IsDRun(c, ds + [DStep(c, ds[|xs|], x)], xs + [x])
  {
  }

  /** A step of the fleet taken with the gates. */
  lemma LiftStep(c: Config, ds: seq<DState>, xs: seq<DAction>, s': State) returns (d': DState, x: DAction)
    requires IsDRun(c, ds, xs) && NeverTold(xs) && Next(c, ds[|xs|].fleet, s')
    ensures IsDRun(c, ds + [d'], xs + [x]) && NeverTold(xs + [x]) && d'.fleet == s'
  {
    DRunKeeps(c, ds, xs, |xs|);
    var a :| Enabled(c, ds[|xs|].fleet, a) && s' == Apply(c, ds[|xs|].fleet, a);
    x := DAction(a, false);
    DExtend(c, ds, xs, x);
    d' := DStep(c, ds[|xs|], x);
  }

  lemma FleetRunGrows(ds: seq<DState>, d': DState)
    ensures FleetRun(ds + [d']) == FleetRun(ds) + [d'.fleet]
  {
  }

  /** Every run of the fleet that goes on from `ds` is a run with gates, without interrupted handlers. */
  lemma {:induction false} LiftFrom(c: Config, ds: seq<DState>, xs: seq<DAction>, run: seq<State>)
    returns (ds': seq<DState>, xs': seq<DAction>)
    requires IsDRun(c, ds, xs) && NeverTold(xs) && IsRun(c, run) && FleetRun(ds) <= run
    ensures IsDRun(c, ds', xs') && NeverTold(xs') && FleetRun(ds') == run && ds <= ds' && xs <= xs'
    decreases |run| - |ds|
  {
    if |run| == |ds| { return ds, xs; }
    assert Next(c, run[|xs|], run[|xs| + 1]) && run[|xs|] == ds[|xs|].fleet;
    var d', x := LiftStep(c, ds, xs, run[|xs| + 1]);
    FleetRunGrows(ds, d');
    ds', xs' := LiftFrom(c, ds + [d'], xs + [x], run);
  }

  lemma StepStaysSilent(d: DState, x: DAction, d': DState, slot: nat)
    requires Outcome(d, x, d') && !x.told && Logged(d.fleet.log, slot) && !Logged(d.delivered, slot)
    ensures Logged(d'.fleet.log, slot) && !Logged(d'.delivered, slot)
  {
    LongerLog(d.fleet.log, Adds(d.fleet, x.a), slot);
  }

  /** A slot that was counted in silence stays undelivered. */
  lemma {:induction false} SilenceLasts(c: Config, ds: seq<DState>, xs: seq<DAction>, m: nat, n: nat, slot: nat)
    requires Outcomes(c, ds, xs) && NeverTold(xs) && m <= n < |ds|
    requires Logged(ds[m].fleet.log, slot) && !Logged(ds[m].delivered, slot)
    ensures Logged(ds[n].fleet.log, slot) && !Logged(ds[n].delivered, slot)
  {
    if m < n {
      SilenceLasts(c, ds, xs, m, n - 1, slot);
      StepStaysSilent(ds[n - 1], xs[n - 1], ds[n], slot);
    }
  }

  // ---------------------------------------------------------------------------------------------
  // One worker alone.

  /** Only worker `t` has moved, inside its assignment, and nothing that concerns the others has changed. */
  ghost predicate Solo(d: DState, d': DState, t: nat) {
    && t < |d.fleet.threads| == |d'.fleet.threads| && t < |d.gates| == |d'.gates|
    && (forall u | 0 <= u < |d.fleet.threads| && u != t :: d'.fleet.threads[u] == d.fleet.threads[u])
    && d'.fleet.pieces == d.fleet.pieces
    && SameRange(d.fleet.threads[t], d'.fleet.threads[t])
    && d'.gates[t].first == d.gates[t].first && (d.gates[t].failed ==> d'.gates[t].failed)
  }

  predicate SameRange(th: Thread, th': Thread) {
    && IsHeld(th'.phase) && !th'.phase.Stopped? && th'.inbox == th.inbox && th'.id == th.id
    && th'.ledger.start == th.ledger.start && th'.end == th.end
  }

  lemma SoloTrans(d: DState, d': DState, d'': DState, t: nat)
    requires Solo(d, d', t) && Solo(d', d'', t)
    ensures Solo(d, d'', t)
  {
  }

  /** Whatever worker `t` counts now, `slot` is not delivered by it. */
  predicate Muffled(d: DState, t: nat, slot: nat) {
    && t < |d.fleet.threads| && t < |d.gates|
    && (slot < d.fleet.threads[t].ledger.start || (d.gates[t].failed && slot < d.gates[t].first))
  }

  /** What a worker that has no request to answer does next. */
  function SoloAction(c: Config, d: DState, t: nat): Action
    requires t < |d.fleet.threads|
  {
    var th := d.fleet.threads[t];
    if th.phase.Processing? then Count(t) else Local(t, NextMove(c.present, th).GetOr(Restart))
  }

  ghost predicate Busy(th: Thread) {
    IsHeld(th.phase) && !th.phase.Stopped? && !th.phase.Finished? && th.inbox == []
  }

  lemma SoloEnabled(c: Config, s: State, t: nat, m: Move)
    requires t < |s.threads| && Busy(s.threads[t]) && !s.threads[t].phase.Processing?
    requires NextMove(c.present, s.threads[t]).GetOr(Restart) == m
    ensures NextMove(c.present, s.threads[t]) == Some(m) && MoveEnabled(c.present, s.threads[t], m)
    ensures Enabled(c, s, Local(t, m)) && !IsFailure(m) && !m.StopNow?
  {
  }

  lemma SoloMove(c: Config, d: DState, t: nat)
    requires DInv(c, d) && t < c.threads && Busy(d.fleet.threads[t]) && !d.fleet.threads[t].phase.Processing?
    ensures var x := DAction(SoloAction(c, d, t), false);
      DEnabled(c, d, x) && x.a.Local? && x.a.t == t && Solo(d, DStep(c, d, x), t)
      && Work(c.threads, c.present, DStep(c, d, x).fleet.threads[t]) < Work(c.threads, c.present, d.fleet.threads[t])
  {
    var th := d.fleet.threads[t];
    var m := NextMove(c.present, th).GetOr(Restart);
    SoloEnabled(c, d.fleet, t, m);
    LocalFalls(c, d.fleet.threads, t, m);
    StepKeepsCursor(c.present, th, m);
    SoloInbox(c.present, th, m);
  }

  lemma SoloInbox(present: set<nat>, th: Thread, m: Move)
    requires MoveEnabled(present, th, m) && !m.StopNow?
    ensures MoveStep(present, th, m).inbox == th.inbox
  {
  }

  lemma SoloCount(c: Config, d: DState, t: nat)
    requires DInv(c, d) && t < c.threads && Busy(d.fleet.threads[t]) && d.fleet.threads[t].phase.Processing?
    ensures var x := DAction(Count(t), false);
      DEnabled(c, d, x) && Solo(d, DStep(c, d, x), t)
      && Work(c.threads, c.present, DStep(c, d, x).fleet.threads[t]) < Work(c.threads, c.present, d.fleet.threads[t])
  {
    CountFalls(c.threads, c.present, d.fleet.threads[t]);
  }

  /** A muffled worker's step does not deliver the slot. */
  lemma SoloSilent(c: Config, d: DState, x: DAction, slot: nat)
    requires DInv(c, d) && DEnabled(c, d, x) && !x.told && !x.a.RaiseShutdown? && Muffled(d, x.a.t, slot)
    requires !Logged(d.delivered, slot)
    ensures !Logged(DStep(c, d, x).delivered, slot)
  {
    StepDelivers(c, d, x);
    var es := Adds(d.fleet, x.a);
    if es != [] { CountKeepsCursor(c.present, d.fleet.threads[x.a.t]); }
  }

  lemma SoloStep(c: Config, ds: seq<DState>, xs: seq<DAction>, t: nat, slot: nat) returns (d': DState, x: DAction)
    requires IsDRun(c, ds, xs) && NeverTold(xs) && t < c.threads && DInv(c, ds[|xs|])
    requires Busy(ds[|xs|].fleet.threads[t]) && Muffled(ds[|xs|], t, slot) && !Logged(ds[|xs|].delivered, slot)
    ensures IsDRun(c, ds + [d'], xs + [x]) && NeverTold(xs + [x]) && Solo(ds[|xs|], d', t)
    ensures !Logged(d'.delivered, slot) && Muffled(d', t, slot)
    ensures Work(c.threads, c.present, d'.fleet.threads[t]) < Work(c.threads, c.present, ds[|xs|].fleet.threads[t])
  {
    var d := ds[|xs|];
    x := DAction(SoloAction(c, d, t), false);
    if d.fleet.threads[t].phase.Processing? { SoloCount(c, d, t); } else { SoloMove(c, d, t); }
    d' := DStep(c, d, x);
    SoloSilent(c, d, x, slot);
    DExtend(c, ds, xs, x);
  }

  /** A worker nobody asks can go through its assignment on its own. */
  lemma {:induction false} GoesThrough(c: Config, ds: seq<DState>, xs: seq<DAction>, t: nat, slot: nat)
    returns (ds': seq<DState>, xs': seq<DAction>)
    requires IsDRun(c, ds, xs) && NeverTold(xs) && t < c.threads && |ds[|xs|].fleet.threads| == c.threads
    requires IsHeld(ds[|xs|].fleet.threads[t].phase) && !ds[|xs|].fleet.threads[t].phase.Stopped?
    requires ds[|xs|].fleet.threads[t].inbox == []
    requires Muffled(ds[|xs|], t, slot) && !Logged(ds[|xs|].delivered, slot)
    ensures IsDRun(c, ds', xs') && NeverTold(xs') && Solo(ds[|xs|], ds'[|xs'|], t)
    ensures ds'[|xs'|].fleet.threads[t].phase.Finished? && !Logged(ds'[|xs'|].delivered, slot)
    decreases Work(c.threads, c.present, ds[|xs|].fleet.threads[t])
  {
    DRunKeeps(c, ds, xs, |xs|);
    if ds[|xs|].fleet.threads[t].phase.Finished? { return ds, xs; }
    var d', x := SoloStep(c, ds, xs, t, slot);
    ds', xs' := GoesThrough(c, ds + [d'], xs + [x], t, slot);
    SoloTrans(ds[|xs|], d', ds'[|xs'|], t);
  }

  // ---------------------------------------------------------------------------------------------
  // A worker steals from the one before it.

  /** Where the run stands: the victim `v`, the thief `v + 1`, and a slot that has not been delivered. */
  ghost predicate Stage(c: Config, ds: seq<DState>, xs: seq<DAction>, v: nat, tv: Thread, tt: Thread, slot: nat) {
    && IsDRun(c, ds, xs) && NeverTold(xs) && v + 1 < c.threads
    && |ds[|xs|].fleet.threads| == c.threads == |ds[|xs|].gates|
    && ds[|xs|].fleet.threads[v] == tv && ds[|xs|].fleet.threads[v + 1] == tt
    && NoneStopped(ds[|xs|].fleet) && !Logged(ds[|xs|].delivered, slot)
  }

  lemma NobodyStops(c: Config, s: State, a: Action)
    requires Enabled(c, s, a) && NoneStopped(s) && !a.RaiseShutdown? && !Apply(c, s, a).threads[a.t].phase.Stopped?
    ensures NoneStopped(Apply(c, s, a))
  {
    forall u | 0 <= u < |s.threads| ensures !Apply(c, s, a).threads[u].phase.Stopped? {
      if u != a.t { OthersNeverStop(c, s, a, u); }
    }
  }

  lemma StageStep(c: Config, ds: seq<DState>, xs: seq<DAction>, v: nat, tv: Thread, tt: Thread, slot: nat, a: Action,
                  tv': Thread, tt': Thread)
    returns (ds': seq<DState>, xs': seq<DAction>)
    requires Stage(c, ds, xs, v, tv, tt, slot) && Enabled(c, ds[|xs|].fleet, a)
    requires !a.RaiseShutdown? && !a.Count? && (a.t == v || a.t == v + 1)
    requires Apply(c, ds[|xs|].fleet, a).threads[v] == tv' && !tv'.phase.Stopped?
    requires Apply(c, ds[|xs|].fleet, a).threads[v + 1] == tt' && !tt'.phase.Stopped?
    ensures Stage(c, ds', xs', v, tv', tt', slot)
    ensures ds'[|xs'|].fleet == Apply(c, ds[|xs|].fleet, a)
    ensures a.t == v + 1 ==> ds'[|xs'|].gates[v + 1] == GateAfter(c, tt, ds[|xs|].gates[v + 1], a)
  {
    var x := DAction(a, false);
    NobodyStops(c, ds[|xs|].fleet, a);
    DExtend(c, ds, xs, x);
    ds', xs' := ds + [DStep(c, ds[|xs|], x)], xs + [x];
  }

  /** The victim before its first pass, with what it has left of its first range. */
  ghost function Asked(c: Config, v: nat, end: nat): Thread
    requires c.Valid()
  {
    var lo := FirstRange(c, v).lo;
    Thread(PassStart, lo, end, SatPred(lo), v, Ledger(lo, lo, end), [], 0)
  }

  function Middle(lo: nat, end: nat): nat
    requires lo <= end
  {
    lo + (end - lo) / 2
  }

  /** The thief is done with its assignment and looks for work. */
  lemma ThiefHunts(c: Config, ds: seq<DState>, xs: seq<DAction>, v: nat, tv: Thread, th: Thread, slot: nat)
    returns (ds': seq<DState>, xs': seq<DAction>, tt: Thread)
    requires Stage(c, ds, xs, v, tv, th, slot) && tv.phase.PassStart? && th.phase.Finished? && th.inbox == []
    ensures tt.phase == Hunting([v], Idle) && tt.inbox == [] && Stage(c, ds', xs', v, tv, tt, slot)
  {
    var t := v + 1;
    var t1 := Emptied(th);
    ds', xs' := StageStep(c, ds, xs, v, tv, th, slot, Journal(t), tv, t1);
    var t2 := t1.(phase := Scanning);
    ds', xs' := StageStep(c, ds', xs', v, tv, t1, slot, DrainDone(t), tv, t2);
    tt := t2.(phase := Hunting([v], Idle));
    ds', xs' := StageStep(c, ds', xs', v, tv, t2, slot, Scan(t, [v]), tv, tt);
  }

  /** It asks its victim. */
  lemma ThiefAsks(c: Config, ds: seq<DState>, xs: seq<DAction>, v: nat, tv: Thread, th: Thread, slot: nat)
    returns (ds': seq<DState>, xs': seq<DAction>, tt: Thread)
    requires Stage(c, ds, xs, v, tv, th, slot) && tv.phase.PassStart? && tv.inbox == []
    requires th.phase.Finished? && th.inbox == []
    ensures tt.phase == Hunting([], Waiting(v, NoReply)) && tt.inbox == []
    ensures Stage(c, ds', xs', v, tv.(inbox := [Request(v + 1, tt.ticket)]), tt, slot)
  {
    var t1;
    ds', xs', t1 := ThiefHunts(c, ds, xs, v, tv, th, slot);
    tt := Asking(t1, v, []);
    assert [v][1..] == [] && [] + [Request(v + 1, tt.ticket)] == [Request(v + 1, tt.ticket)];
    ds', xs' := StageStep(c, ds', xs', v, tv, t1, slot, Ask(v + 1), tv.(inbox := [Request(v + 1, tt.ticket)]), tt);
  }

  /** The victim hands over its upper half. */
  lemma VictimGives(c: Config, ds: seq<DState>, xs: seq<DAction>, v: nat, end: nat, tt: Thread, slot: nat)
    returns (ds': seq<DState>, xs': seq<DAction>, id: nat)
    requires c.Valid() && FirstRange(c, v).lo + MIN_STEAL_SLOTS <= end
    requires tt.phase == Hunting([], Waiting(v, NoReply)) && tt.inbox == []
    requires Stage(c, ds, xs, v, Asked(c, v, end).(inbox := [Request(v + 1, tt.ticket)]), tt, slot)
    requires v < |ds[|xs|].fleet.pieces|
    ensures var mid := Middle(FirstRange(c, v).lo, end);
      Stage(c, ds', xs', v, Asked(c, v, mid), WithReply(tt, Granted(id, Range(mid, end))), slot)
  {
    var lo := FirstRange(c, v).lo;
    var s := ds[|xs|].fleet;
    id := |s.pieces|;
    assert SplitPoint(lo, end, true) == Some(Middle(lo, end));
    assert [Request(v + 1, tt.ticket)][1..] == [];
    ds', xs' := StageStep(c, ds, xs, v, s.threads[v], tt, slot, Serve(v), Asked(c, v, Middle(lo, end)),
                          WithReply(tt, Granted(id, Range(Middle(lo, end), end))));
  }

  /** The thief takes it up. */
  lemma ThiefAdopts(c: Config, ds: seq<DState>, xs: seq<DAction>, v: nat, tv: Thread, tt: Thread, slot: nat, id: nat,
                    r: Range)
    returns (ds': seq<DState>, xs': seq<DAction>)
    requires Stage(c, ds, xs, v, tv, tt, slot) && !tv.phase.Stopped?
    requires tt.phase == Hunting([], Waiting(v, Granted(id, r)))
    ensures Stage(c, ds', xs', v, tv, Adopted(tt, r, id), slot)
  {
    var t := v + 1;
    var t1 := tt.(phase := Adopting(id, r, 0));
    ds', xs' := StageStep(c, ds, xs, v, tv, tt, slot, TakeReply(t), tv, t1);
    var t2 := t1.(ledger := t1.ledger.(start := r.lo), phase := Adopting(id, r, 1));
    ds', xs' := StageStep(c, ds', xs', v, tv, t1, slot, StoreLedger(t), tv, t2);
    var t3 := t2.(ledger := t2.ledger.(next := r.lo), phase := Adopting(id, r, 2));
    ds', xs' := StageStep(c, ds', xs', v, tv, t2, slot, StoreLedger(t), tv, t3);
    ds', xs' := StageStep(c, ds', xs', v, tv, t3, slot, StoreLedger(t), tv, Adopted(tt, r, id));
  }

  /** The thief with the adopted range in front of it. */
  predicate HasAdopted(th: Thread, r: Range) {
    && th.phase.PassStart? && th.inbox == [] && th.start == r.lo && th.end == r.hi
    && th.lastCounted == SatPred(r.lo) && th.ledger == Ledger(r.lo, r.lo, r.hi)
  }

  lemma Steals(c: Config, ds: seq<DState>, xs: seq<DAction>, v: nat, end: nat, th: Thread, slot: nat)
    returns (ds': seq<DState>, xs': seq<DAction>, tt: Thread)
    requires c.Valid() && FirstRange(c, v).lo + MIN_STEAL_SLOTS <= end
    requires Stage(c, ds, xs, v, Asked(c, v, end), th, slot) && th.phase.Finished? && th.inbox == []
    ensures var mid := Middle(FirstRange(c, v).lo, end);
      HasAdopted(tt, Range(mid, end)) && Stage(c, ds', xs', v, Asked(c, v, mid), tt, slot)
  {
    var mid := Middle(FirstRange(c, v).lo, end);
    ds', xs', tt := ThiefAsks(c, ds, xs, v, Asked(c, v, end), th, slot);
    DRunKeeps(c, ds', xs', |xs'|);
    var id;
    ds', xs', id := VictimGives(c, ds', xs', v, end, tt, slot);
    tt := WithReply(tt, Granted(id, Range(mid, end)));
    ds', xs' := ThiefAdopts(c, ds', xs', v, Asked(c, v, mid), tt, slot, id, Range(mid, end));
    tt := Adopted(tt, Range(mid, end), id);
  }

  /** A local step of the thief. */
  lemma ThiefMoves(c: Config, ds: seq<DState>, xs: seq<DAction>, v: nat, tv: Thread, tt: Thread, slot: nat, m: Move)
    returns (ds': seq<DState>, xs': seq<DAction>)
    requires Stage(c, ds, xs, v, tv, tt, slot) && !tv.phase.Stopped?
    requires MoveEnabled(c.present, tt, m) && !m.StopNow? && !MoveStep(c.present, tt, m).phase.Stopped?
    ensures Stage(c, ds', xs', v, tv, MoveStep(c.present, tt, m), slot)
    ensures ds'[|xs'|].gates[v + 1] == GateAfter(c, tt, ds[|xs|].gates[v + 1], Local(v + 1, m))
  {
    ds', xs' := StageStep(c, ds, xs, v, tv, tt, slot, Local(v + 1, m), tv, MoveStep(c.present, tt, m));
  }

  /** A pass whose first epoch cannot be opened. */
  lemma FailedPass(present: set<nat>, tt: Thread, r: Range)
    requires HasAdopted(tt, r) && 0 < r.lo < r.hi
    ensures var t1 := tt.(phase := Opening(Epoch(r.lo), Epoch(r.hi - 1), None));
      && MoveEnabled(present, tt, BeginPass) && MoveStep(present, tt, BeginPass) == t1
      && MoveEnabled(present, t1, OpenFail) && MoveStep(present, t1, OpenFail) == tt.(phase := Backoff)
  {
    EpochBounds(r.lo);
    EpochBounds(r.hi - 1);
  }

  /** Opening the first epoch of the adopted range fails once. */
  lemma FailsOnce(c: Config, ds: seq<DState>, xs: seq<DAction>, v: nat, tv: Thread, tt: Thread, r: Range, slot: nat)
    returns (ds': seq<DState>, xs': seq<DAction>)
    requires Stage(c, ds, xs, v, tv, tt, slot) && !tv.phase.Stopped? && HasAdopted(tt, r) && 0 < r.lo < r.hi
    ensures Stage(c, ds', xs', v, tv, tt, slot) && ds'[|xs'|].gates[v + 1].failed
  {
    FailedPass(c.present, tt, r);
    var t1 := tt.(phase := Opening(Epoch(r.lo), Epoch(r.hi - 1), None));
    ds', xs' := ThiefMoves(c, ds, xs, v, tv, tt, slot, BeginPass);
    ds', xs' := ThiefMoves(c, ds', xs', v, tv, t1, slot, OpenFail);
    ds', xs' := ThiefMoves(c, ds', xs', v, tv, tt.(phase := Backoff), slot, Restart);
  }

  // ---------------------------------------------------------------------------------------------
  // The loss.

  /** The thief goes through what it has, and the stage stays as it was. */
  lemma ThiefFinishes(c: Config, ds: seq<DState>, xs: seq<DAction>, v: nat, tv: Thread, tt: Thread, slot: nat)
    returns (ds': seq<DState>, xs': seq<DAction>, th: Thread)
    requires Stage(c, ds, xs, v, tv, tt, slot) && IsHeld(tt.phase) && tt.inbox == []
    requires Muffled(ds[|xs|], v + 1, slot)
    ensures Stage(c, ds', xs', v, tv, th, slot) && th.phase.Finished? && SameRange(tt, th)
  {
    ds', xs' := GoesThrough(c, ds, xs, v + 1, slot);
    th := ds'[|xs'|].fleet.threads[v + 1];
    StaysOn(ds[|xs|], ds'[|xs'|], v + 1);
  }

  lemma StaysOn(d: DState, d': DState, t: nat)
    requires Solo(d, d', t) && NoneStopped(d.fleet)
    ensures NoneStopped(d'.fleet)
  {
  }

  /** A finished assignment has been counted. */
  lemma FinishedIsCounted(c: Config, s: State, t: nat, slot: nat)
    requires Core(c, s) && t < c.threads && s.threads[t].phase.Finished? && Due(c.present, slot)
    requires s.threads[t].ledger.start <= slot < s.threads[t].end
    ensures Logged(s.log, slot)
  {
    var th := s.threads[t];
    assert CursorOk(c.present, th);
    assert s.pieces[th.id].range.Has(slot);
  }

  lemma CountedAtEnd(c: Config, ds: seq<DState>, xs: seq<DAction>, t: nat, th: Thread, slot: nat)
    requires IsDRun(c, ds, xs) && t < |ds[|xs|].fleet.threads| && ds[|xs|].fleet.threads[t] == th
    requires th.phase.Finished? && Due(c.present, slot) && th.ledger.start <= slot < th.end
    ensures Logged(ds[|xs|].fleet.log, slot)
  {
    FleetRuns(c, ds, xs);
    RunKeepsInv(c, FleetRun(ds));
    FinishedIsCounted(c, ds[|xs|].fleet, t, slot);
  }

  ghost predicate CountedInSilence(d: DState, slot: nat) {
    NoneStopped(d.fleet) && Logged(d.fleet.log, slot) && !Logged(d.delivered, slot)
  }

  /** The worker after `v` starts where `v` ends. */
  lemma FirstsAbut(c: Config, d: DState, v: nat)
    requires DInv(c, d) && v + 1 < c.threads
    ensures d.gates[v + 1].first == FirstRange(c, v).hi
  {
    StartStep(c.lo, c.hi, c.threads, v);
  }

  lemma FailedIsMuffled(c: Config, ds: seq<DState>, xs: seq<DAction>, v: nat, slot: nat)
    requires IsDRun(c, ds, xs) && v + 1 < c.threads && slot < FirstRange(c, v).hi
    requires v + 1 < |ds[|xs|].gates| && ds[|xs|].gates[v + 1].failed
    ensures Muffled(ds[|xs|], v + 1, slot)
  {
    DRunKeeps(c, ds, xs, |xs|);
    FirstsAbut(c, ds[|xs|], v);
  }

  /** The thief has the slot, fails once, and counts it in silence. */
  lemma LosesIt(c: Config, ds: seq<DState>, xs: seq<DAction>, v: nat, tv: Thread, tt: Thread, r: Range, slot: nat)
    returns (ds': seq<DState>, xs': seq<DAction>)
    requires Stage(c, ds, xs, v, tv, tt, slot) && !tv.phase.Stopped? && HasAdopted(tt, r) && 0 < r.lo && r.Has(slot)
    requires slot < FirstRange(c, v).hi && Due(c.present, slot)
    ensures IsDRun(c, ds', xs') && NeverTold(xs') && CountedInSilence(ds'[|xs'|], slot)
  {
    ds', xs' := FailsOnce(c, ds, xs, v, tv, tt, r, slot);
    FailedIsMuffled(c, ds', xs', v, slot);
    var th;
    ds', xs', th := ThiefFinishes(c, ds', xs', v, tv, tt, slot);
    CountedAtEnd(c, ds', xs', v + 1, th, slot);
  }

  lemma HalfKept(lo: nat, end: nat)
    requires lo + MIN_STEAL_SLOTS <= end
    ensures lo < Middle(lo, end) < end && Kept(Middle(lo, end) - lo) == Kept(end - lo)
  {
  }

  /** Asked again and again, the victim gives away every slot beyond what it keeps. */
  lemma {:induction false} StealsDown(c: Config, ds: seq<DState>, xs: seq<DAction>, v: nat, end: nat, th: Thread,
                                      slot: nat)
    returns (ds': seq<DState>, xs': seq<DAction>)
    requires c.Valid() && Stage(c, ds, xs, v, Asked(c, v, end), th, slot) && th.phase.Finished? && th.inbox == []
    requires FirstRange(c, v).lo <= end <= FirstRange(c, v).hi && Due(c.present, slot)
    requires FirstRange(c, v).lo + Kept(end - FirstRange(c, v).lo) <= slot < end
    ensures IsDRun(c, ds', xs') && NeverTold(xs') && CountedInSilence(ds'[|xs'|], slot)
    decreases end
  {
    var lo := FirstRange(c, v).lo;
    var mid := Middle(lo, end);
    HalfKept(lo, end);
    var tt;
    ds', xs', tt := Steals(c, ds, xs, v, end, th, slot);
    if mid <= slot {
      ds', xs' := LosesIt(c, ds', xs', v, Asked(c, v, mid), tt, Range(mid, end), slot);
    } else {
      var th';
      ds', xs', th' := ThiefFinishes(c, ds', xs', v, Asked(c, v, mid), tt, slot);
      ds', xs' := StealsDown(c, ds', xs', v, mid, th', slot);
    }
  }

  /** The victim is spawned and has not begun, the thief has gone through its own range. */
  lemma StageIsSet(c: Config, v: nat, slot: nat) returns (ds: seq<DState>, xs: seq<DAction>, th: Thread)
    requires c.Valid() && v + 1 < c.threads && slot < FirstRange(c, v).hi
    ensures Stage(c, ds, xs, v, Asked(c, v, FirstRange(c, v).hi), th, slot) && th.phase.Finished? && th.inbox == []
  {
    var tv, tt := InitThread(v, FirstRange(c, v)), InitThread(v + 1, FirstRange(c, v + 1));
    ds, xs := [DInit(c)], [];
    assert Init(c).threads[v] == tv && Init(c).threads[v + 1] == tt;
    ds, xs := StageStep(c, ds, xs, v, tv, tt, slot, Local(v, Spawn), Asked(c, v, FirstRange(c, v).hi), tt);
    StartStep(c.lo, c.hi, c.threads, v);
    ds, xs, th := ThiefFinishes(c, ds, xs, v, Asked(c, v, FirstRange(c, v).hi), tt, slot);
  }

  /** A due slot of the request that a later worker can steal from worker `v`. */
  ghost predicate Stealable(c: Config, v: nat, slot: nat)
    requires c.Valid()
  {
    var r := FirstRange(c, v);
    v + 1 < c.threads && Due(c.present, slot) && r.lo + Kept(r.hi - r.lo) <= slot < r.hi
  }

  /** For every such slot there is a run after which all workers have retired, the audit passes, the slot has been
      counted, and its block was never delivered. */
  lemma CountedNeverDelivered(c: Config, v: nat, slot: nat) returns (ds: seq<DState>, xs: seq<DAction>)
    requires c.Valid() && Stealable(c, v, slot)
    ensures IsDRun(c, ds, xs) && NeverTold(xs) && AllRetired(ds[|xs|].fleet) && AuditPasses(c, ds[|xs|].fleet)
    ensures Logged(ds[|xs|].fleet.log, slot) && !Logged(ds[|xs|].delivered, slot)
  {
    var ds1, xs1, th := StageIsSet(c, v, slot);
    ds1, xs1 := StealsDown(c, ds1, xs1, v, FirstRange(c, v).hi, th, slot);
    FleetRuns(c, ds1, xs1);
    var run := EveryRunCanRetire(c, FleetRun(ds1));
    RetiredRunPassesAudit(c, run);
    ds, xs := LiftFrom(c, ds1, xs1, run);
    assert ds[|xs|].fleet == Last(run);
    RunOutcomes(c, ds, xs);
    SilenceLasts(c, ds, xs, |xs1|, |xs|, slot);
  }

  // ---------------------------------------------------------------------------------------------
  // Which requests can lose a block.

  /** All workers have retired, and a due slot of the request was never delivered. */
  ghost predicate DropsOne(c: Config, ds: seq<DState>, xs: seq<DAction>, slot: nat) {
    && IsDRun(c, ds, xs) && AllRetired(ds[|xs|].fleet)
    && c.lo <= slot < c.hi && Due(c.present, slot) && !Logged(ds[|xs|].delivered, slot)
  }

  lemma OwnerOf(c: Config, slot: nat) returns (v: nat)
    requires c.Valid() && c.lo <= slot < c.hi
    ensures v < c.threads && FirstRange(c, v).Has(slot)
  {
    InitHolds(c);
    assert Covered(Init(c).pieces, slot);
    v :| 0 <= v < |Init(c).pieces| && Init(c).pieces[v].range.Has(slot);
  }

  lemma StartsOrder(c: Config, v: nat, t: nat, slot: nat)
    requires c.Valid() && FirstRange(c, v).Has(slot) && slot < SubrangeStart(c.lo, c.hi, c.threads, t)
    ensures v < t
  {
    if t <= v { StartMonotone(c.lo, c.hi, c.threads, t, v); }
  }

  /** Only such slots are ever dropped. */
  lemma DroppedIsStealable(c: Config, ds: seq<DState>, xs: seq<DAction>, slot: nat) returns (v: nat)
    requires DropsOne(c, ds, xs, slot)
    ensures Stealable(c, v, slot)
  {
    var d := ds[|xs|];
    FleetRuns(c, ds, xs);
    var run := FleetRun(ds);
    EveryDueSlotCountedOnce(c, run);
    var k :| 0 <= k < |d.fleet.log| && d.fleet.log[k].slot == slot;
    var e := d.fleet.log[k];
    DroppedLieBelowFirst(c, ds, xs, |xs|);
    assert e !in d.delivered;
    v := OwnerOf(c, slot);
    StartsOrder(c, v, e.t, slot);
    CounterIsWorker(c, run, k);
    if CannotBeStolen(c, v, slot) { NeverStolen(c, run, v, slot); }
  }

  lemma {:induction false} CounterIsWorker(c: Config, run: seq<State>, k: nat)
    requires IsRun(c, run) && k < |Last(run).log|
    ensures Last(run).log[k].t < c.threads
  {
    if |run| > 1 {
      var prefix := run[..|run| - 1];
      RunKeepsInv(c, prefix);
      assert Next(c, run[|run| - 2], run[|run| - 2 + 1]);
      var a :| Enabled(c, Last(prefix), a) && Last(run) == Apply(c, Last(prefix), a);
      StepLogs(c, Last(prefix), a);
      if k < |Last(prefix).log| { CounterIsWorker(c, prefix, k); }
    }
  }

  /** A request can end, with everyone retired, without having delivered all its due blocks, exactly when some
      worker but the last has one beyond what it keeps of its first range. */
  lemma DropsIffStealable(c: Config)
    requires c.Valid()
    ensures (exists ds: seq<DState>, xs: seq<DAction>, slot: nat :: DropsOne(c, ds, xs, slot))
            <==> exists v: nat, slot: nat :: Stealable(c, v, slot)
  {
    if ds: seq<DState>, xs: seq<DAction>, slot: nat :| DropsOne(c, ds, xs, slot) {
      var v := DroppedIsStealable(c, ds, xs, slot);
    }
    if v: nat, slot: nat :| Stealable(c, v, slot) {
      var ds, xs := CountedNeverDelivered(c, v, slot);
      SubrangeInRequest(c, v);
      assert DropsOne(c, ds, xs, slot);
    }
  }

  lemma SubrangeInRequest(c: Config, v: nat)
    requires c.Valid() && v < c.threads
    ensures c.lo <= FirstRange(c, v).lo && FirstRange(c, v).hi <= c.hi
  {
    StartMonotone(c.lo, c.hi, c.threads, 0, v);
    StartStep(c.lo, c.hi, c.threads, v);
    StartMonotone(c.lo, c.hi, c.threads, v + 1, c.threads);
    StartLast(c.lo, c.hi, c.threads);
  }

  /** Two workers and the slots 1 to 200: slot 61 can be lost. */
  lemma SuchARequest()
    ensures var c := Config(1, 201, 2, {61}); c.Valid() && Stealable(c, 0, 61)
  {
    assert FirstRange(Config(1, 201, 2, {61}), 0) == Range(1, 101);
    assert Kept(100) == Kept(50) == 50;
  }
}
