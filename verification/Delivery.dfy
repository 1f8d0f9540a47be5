/** Which counted blocks a forward worker hands to `on_block`: the fleet together with every worker's emission
    gate, the `last_emitted_slot` of its pass and the value the next pass starts from. */
module Delivery {
  import opened Slots
  import opened Subranges
  import opened Worker
  import opened Fleet
  import opened FleetInvariant
  import opened FleetSafety
  import opened FleetTheorems

  /** `first` is the start of the worker's first range, `shared` the gate its next pass starts with, `local`
      that of the pass it is in. `origin` and `failed` are history: where its present assignment starts, and
      whether a pass over it has failed. */
  datatype Gate = Gate(first: nat, origin: nat, failed: bool, shared: nat, local: nat)

  function FirstGate(lo: nat): Gate { Gate(lo, lo, false, SatPred(lo), SatPred(lo)) }

  datatype DState = DState(fleet: State, gates: seq<Gate>, delivered: seq<Event>)

  /** A step of the fleet. `told` says that `on_block` has been called for the block in hand when a failure or a
      stop strikes before the block is counted. */
  datatype DAction = DAction(a: Action, told: bool)

  /** The block in hand is new and above the gate: `on_block` is called for it. */
  predicate Passes(th: Thread, g: Gate) {
    th.phase.Processing? && th.lastCounted < th.phase.slot && g.local < th.phase.slot
  }

  /** The step ends the pass with an error. */
  predicate IsRestart(present: set<nat>, th: Thread, m: Move)
    requires MoveEnabled(present, th, m)
  {
    IsFailure(m) || (m.Decide? && MoveStep(present, th, m).phase.Backoff?)
  }

  /** A pass starts with the shared gate, an error resets that to one below the worker's first range, and an
      adoption to one below the adopted one. */
  function GateAfter(c: Config, th: Thread, g: Gate, a: Action): Gate
    requires a.Local? ==> MoveEnabled(c.present, th, a.m)
  {
    match a
    case Local(_, m) =>
      if m.BeginPass? then g.(local := g.shared)
      else if IsRestart(c.present, th, m) then g.(shared := SatPred(g.first), failed := true)
      else g
    case Count(_) => if Passes(th, g) then g.(local := th.phase.slot) else g
    case StoreLedger(_) =>
      if th.phase.Adopting? && th.phase.stored >= 2
      then g.(origin := th.phase.range.lo, failed := false, shared := SatPred(th.phase.range.lo))
      else g
    case _ => g
  }

  function DInit(c: Config): DState
    requires c.Valid()
  {
    var subranges := GenerateSubranges(c.lo, c.hi, c.threads);
    DState(Init(c), seq(c.threads, i requires 0 <= i < c.threads => FirstGate(subranges[i].lo)), [])
  }

  /** Only a failure or a stop with a block in hand can come between telling and counting. */
  predicate CanTell(d: DState, a: Action) {
    && a.Local? && (a.m.ProcessFail? || a.m.StopNow?) && a.t < |d.fleet.threads| && a.t < |d.gates|
    && Passes(d.fleet.threads[a.t], d.gates[a.t])
  }

  ghost predicate DEnabled(c: Config, d: DState, x: DAction) {
    |d.gates| == |d.fleet.threads| && Enabled(c, d.fleet, x.a) && (x.told ==> CanTell(d, x.a))
  }

  /** The step hands the block in hand to `on_block`. */
  predicate Delivers(d: DState, x: DAction) {
    && (x.told || x.a.Count?) && !x.a.RaiseShutdown? && x.a.t < |d.fleet.threads| && x.a.t < |d.gates|
    && Passes(d.fleet.threads[x.a.t], d.gates[x.a.t])
  }

  ghost function DStep(c: Config, d: DState, x: DAction): DState
    requires DEnabled(c, d, x)
  {
    var a := x.a;
    DState(Apply(c, d.fleet, a),
           if a.RaiseShutdown? then d.gates
           else d.gates[a.t := GateAfter(c, d.fleet.threads[a.t], d.gates[a.t], a)],
           if Delivers(d, x) then d.delivered + [Event(a.t, d.fleet.threads[a.t].phase.slot)] else d.delivered)
  }

  ghost predicate IsDRun(c: Config, ds: seq<DState>, xs: seq<DAction>) {
    && c.Valid() && |ds| == |xs| + 1 && ds[0] == DInit(c)
    && forall i | 0 <= i < |xs| :: DEnabled(c, ds[i], xs[i]) && ds[i + 1] == DStep(c, ds[i], xs[i])
  }

  // ---------------------------------------------------------------------------------------------
  // What the gates are.

  /** Inside a pass, from its start to its last block. */
  predicate InPass(phase: Phase) { phase.Opening? || phase.Streaming? || phase.Fetched? || phase.Processing? }

  /** The next pass of a worker starts one below its assignment, or, after a failure, one below its first range.
      During a pass the gate follows the counted cursor from there. */
  ghost predicate GateOk(th: Thread, g: Gate) {
    && (IsHeld(th.phase) ==>
          && g.origin == th.ledger.start
          && g.shared == SatPred(if g.failed then g.first else g.origin))
    && (InPass(th.phase) ==> g.shared <= g.local <= Max(g.shared, th.lastCounted))
  }

  ghost predicate FirstsOk(c: Config, gs: seq<Gate>)
    requires c.Valid()
  {
    forall t | 0 <= t < |gs| :: gs[t].first == SubrangeStart(c.lo, c.hi, c.threads, t)
  }

  ghost predicate GatesOk(c: Config, ts: seq<Thread>, gs: seq<Gate>)
    requires c.Valid()
  {
    && |gs| == |ts| == c.threads && FirstsOk(c, gs)
    && (forall t | 0 <= t < c.threads :: GateOk(ts[t], gs[t]))
  }

  ghost predicate DInv(c: Config, d: DState) {
    c.Valid() && Inv(c, d.fleet) && GatesOk(c, d.fleet.threads, d.gates)
  }

  lemma InitKeeps(c: Config)
    requires c.Valid()
    ensures DInv(c, DInit(c))
  {
    InitHolds(c);
  }

  /** The two agree on everything a gate depends on. */
  predicate SameCursors(th: Thread, th': Thread) {
    && IsHeld(th'.phase) == IsHeld(th.phase) && InPass(th'.phase) == InPass(th.phase)
    && th'.ledger.start == th.ledger.start && th'.lastCounted == th.lastCounted
  }

  lemma DeliverSame(s: State, r: Request, reply: Reply, v: nat)
    requires v < |s.threads|
    ensures SameCursors(s.threads[v], Deliver(s, r, reply).threads[v])
  {
  }

  lemma ServeSame(s: State, t: nat, v: nat)
    requires t < |s.threads| && s.threads[t].inbox != [] && v < |s.threads|
    ensures |ServeOne(s, t).threads| == |s.threads| && SameCursors(s.threads[v], ServeOne(s, t).threads[v])
  {
    var th := s.threads[t];
    var mid := SplitPoint(Position(th), th.end, IsHeld(th.phase));
    if mid.Some? {
      DeliverSame(SetThread(s, t, ServeStep(th, mid)), th.inbox[0], Granted(|s.pieces|, Range(mid.value, th.end)), v);
    }
    DeliverSame(SetThread(s, t, ServeStep(th, None)), th.inbox[0], Refused, v);
  }

  lemma RefuseSame(c: Config, s: State, t: nat, v: nat)
    requires Enabled(c, s, Refuse(t)) && v < |s.threads|
    ensures SameCursors(s.threads[v], Apply(c, s, Refuse(t)).threads[v])
  {
    var th' := s.threads[t].(inbox := s.threads[t].inbox[1..]);
    DeliverSame(SetThread(s, t, th'), s.threads[t].inbox[0], Refused, v);
  }

  lemma AskSame(c: Config, s: State, t: nat, v: nat)
    requires Enabled(c, s, Ask(t)) && v < |s.threads|
    ensures SameCursors(s.threads[v], Apply(c, s, Ask(t)).threads[v])
  {
  }

  /** Requests and answers leave the cursors of everyone alone, and so do the steps of others. */
  lemma TalkSame(c: Config, s: State, a: Action, v: nat)
    requires Enabled(c, s, a) && v < |s.threads|
    requires a.Serve? || a.Refuse? || a.Ask? || a.RaiseShutdown? || a.t != v
    ensures SameCursors(s.threads[v], Apply(c, s, a).threads[v])
  {
    match a {
      case Serve(t) => ServeSame(s, t, v);
      case Refuse(t) => RefuseSame(c, s, t, v);
      case Ask(t) => AskSame(c, s, t, v);
      case _ =>
    }
  }

  lemma LocalKeepsGate(c: Config, th: Thread, m: Move, g: Gate)
    requires IsHeld(th.phase) && CursorOk(c.present, th) && MoveEnabled(c.present, th, m) && GateOk(th, g)
    ensures GateOk(MoveStep(c.present, th, m), GateAfter(c, th, g, Local(0, m)))
  {
    StepKeepsCursor(c.present, th, m);
  }

  lemma CountKeepsGate(c: Config, th: Thread, g: Gate)
    requires th.phase.Processing? && GateOk(th, g)
    ensures GateOk(CountStep(th), GateAfter(c, th, g, Count(0)))
    ensures GateAfter(c, th, g, Count(0)).local
         == if th.lastCounted < th.phase.slot && g.local < th.phase.slot then th.phase.slot else g.local
  {
  }

  lemma OwnKeepsGate(c: Config, s: State, a: Action, g: Gate)
    requires ThreadsOk(c, s.threads) && Enabled(c, s, a) && !a.RaiseShutdown? && GateOk(s.threads[a.t], g)
    ensures GateOk(Apply(c, s, a).threads[a.t], GateAfter(c, s.threads[a.t], g, a))
  {
    if a.Local? {
      LocalKeepsGate(c, s.threads[a.t], a.m, g);
    } else if a.Count? {
      CountKeepsGate(c, s.threads[a.t], g);
    } else if a.Serve? || a.Refuse? || a.Ask? {
      TalkSame(c, s, a, a.t);
    } else {
      HuntKeepsGate(c, s, a, g);
    }
  }

  lemma HuntKeepsGate(c: Config, s: State, a: Action, g: Gate)
    requires Enabled(c, s, a) && (IsHunterStep(a) || a.Journal? || a.StoreLedger?) && GateOk(s.threads[a.t], g)
    ensures GateOk(Apply(c, s, a).threads[a.t], GateAfter(c, s.threads[a.t], g, a))
  {
  }

  lemma StepKeepsGates(c: Config, s: State, gs: seq<Gate>, a: Action)
    requires c.Valid() && ThreadsOk(c, s.threads) && GatesOk(c, s.threads, gs) && Enabled(c, s, a)
    ensures a.RaiseShutdown? || a.t < |gs|
    ensures GatesOk(c, Apply(c, s, a).threads,
                    if a.RaiseShutdown? then gs else gs[a.t := GateAfter(c, s.threads[a.t], gs[a.t], a)])
  {
    var ts' := Apply(c, s, a).threads;
    forall t | 0 <= t < c.threads && (a.RaiseShutdown? || a.t != t) ensures GateOk(ts'[t], gs[t]) {
      TalkSame(c, s, a, t);
    }
    if !a.RaiseShutdown? { OwnKeepsGate(c, s, a, gs[a.t]); }
  }

  lemma DStepKeeps(c: Config, d: DState, x: DAction)
    requires DInv(c, d) && DEnabled(c, d, x)
    ensures DInv(c, DStep(c, d, x))
  {
    StepKeepsInv(c, d.fleet, x.a);
    StepKeepsGates(c, d.fleet, d.gates, x.a);
  }

  lemma {:induction false} DRunKeeps(c: Config, ds: seq<DState>, xs: seq<DAction>, n: nat)
    requires IsDRun(c, ds, xs) && n < |ds|
    ensures DInv(c, ds[n])
  {
    if n == 0 {
      InitKeeps(c);
    } else {
      DRunKeeps(c, ds, xs, n - 1);
      DStepKeeps(c, ds[n - 1], xs[n - 1]);
    }
  }

  /** In every reachable state the next pass of a worker starts with the gate one below its assignment, or, once a
      pass over that has failed, one below the worker's first range. */
  lemma RestartGate(c: Config, ds: seq<DState>, xs: seq<DAction>, n: nat, t: nat)
    requires IsDRun(c, ds, xs) && n < |ds| && t < c.threads
    ensures t < |ds[n].gates| && t < |ds[n].fleet.threads|
    ensures IsHeld(ds[n].fleet.threads[t].phase) ==>
              ds[n].gates[t].shared == SatPred(if ds[n].gates[t].failed then SubrangeStart(c.lo, c.hi, c.threads, t)
                                               else ds[n].fleet.threads[t].ledger.start)
  {
    DRunKeeps(c, ds, xs, n);
  }

  // ---------------------------------------------------------------------------------------------
  // Which blocks are delivered.

  /** A block that is counted is delivered, unless a pass over the worker's present assignment has failed and
      the block lies below the worker's first range. */
  lemma PassesIff(c: Config, th: Thread, g: Gate)
    requires CursorOk(c.present, th) && GateOk(th, g) && th.phase.Processing? && th.lastCounted < th.phase.slot
    ensures Passes(th, g) <==> !(g.failed && th.phase.slot < g.first)
  {
  }

  /** A pass over the worker's present assignment has failed, and the slot lies below its first range. */
  predicate Silenced(d: DState, t: nat, slot: nat) {
    t < |d.gates| && d.gates[t].failed && slot < d.gates[t].first
  }

  lemma AddsOnce(c: Config, s: State, a: Action)
    requires Inv(c, s) && Enabled(c, s, a) && Adds(s, a) != []
    ensures !Logged(s.log, s.threads[a.t].phase.slot)
  {
    var th := s.threads[a.t];
    CountKeepsCursor(c.present, th);
    assert s.pieces[th.id].range.Has(th.phase.slot);
  }

  /** How a step changes log and deliveries. */
  ghost predicate Outcome(d: DState, x: DAction, d': DState) {
    var es := Adds(d.fleet, x.a);
    && d'.fleet.log == d.fleet.log + es
    && d.delivered <= d'.delivered
    && (es != [] ==> !x.told && !Logged(d.fleet.log, es[0].slot))
    && (!x.told ==> d'.delivered
                    == d.delivered + (if es != [] && !Silenced(d, es[0].t, es[0].slot) then es else []))
  }

  /** Unless a handler was interrupted, a step delivers exactly what it counts, and drops it exactly when the
      worker has failed on its present assignment and the slot lies below its first range. */
  lemma StepDelivers(c: Config, d: DState, x: DAction)
    requires DInv(c, d) && DEnabled(c, d, x)
    ensures Outcome(d, x, DStep(c, d, x))
  {
    StepLogs(c, d.fleet, x.a);
    assert d.delivered + [] == d.delivered;
    if Adds(d.fleet, x.a) != [] {
      AddsOnce(c, d.fleet, x.a);
      PassesIff(c, d.fleet.threads[x.a.t], d.gates[x.a.t]);
    }
  }

  /** On every run, a counted slot is handed to `on_block` as it is counted, exactly when the worker has not
      failed since it took up its assignment or the slot does not lie below the start of its first range. */
  lemma CountedIsDeliveredIff(c: Config, ds: seq<DState>, xs: seq<DAction>, n: nat)
    requires IsDRun(c, ds, xs) && n < |xs| && Adds(ds[n].fleet, xs[n].a) != []
    ensures var d, e := ds[n], Adds(ds[n].fleet, xs[n].a)[0];
      && ds[n + 1].fleet.log == d.fleet.log + [e] && e.t < |d.gates|
      && ds[n + 1].delivered
         == if d.gates[e.t].failed && e.slot < SubrangeStart(c.lo, c.hi, c.threads, e.t) then d.delivered
            else d.delivered + [e]
  {
    DRunKeeps(c, ds, xs, n);
    StepDelivers(c, ds[n], xs[n]);
  }

  // ---------------------------------------------------------------------------------------------
  // Whole runs.

  /** What is needed of a run below: how each step changes log and deliveries. */
  ghost predicate Outcomes(c: Config, ds: seq<DState>, xs: seq<DAction>) {
    && c.Valid() && |ds| == |xs| + 1 && ds[0].fleet.log == [] && ds[0].delivered == []
    && (forall i | 0 <= i < |ds| :: FirstsOk(c, ds[i].gates))
    && forall i | 0 <= i < |xs| :: Outcome(ds[i], xs[i], ds[i + 1])
  }

  lemma RunOutcomes(c: Config, ds: seq<DState>, xs: seq<DAction>)
    requires IsDRun(c, ds, xs)
    ensures Outcomes(c, ds, xs)
  {
    forall i | 0 <= i < |ds| ensures FirstsOk(c, ds[i].gates) { DRunKeeps(c, ds, xs, i); }
    forall i | 0 <= i < |xs| ensures Outcome(ds[i], xs[i], ds[i + 1]) {
      DRunKeeps(c, ds, xs, i);
      StepDelivers(c, ds[i], xs[i]);
    }
  }

  ghost predicate DroppedBelow(c: Config, d: DState)
    requires c.Valid()
  {
    forall e | e in d.fleet.log && e !in d.delivered :: e.slot < SubrangeStart(c.lo, c.hi, c.threads, e.t)
  }

  lemma StepDropsBelow(c: Config, d: DState, x: DAction, d': DState)
    requires c.Valid() && FirstsOk(c, d.gates) && Outcome(d, x, d') && DroppedBelow(c, d)
    ensures DroppedBelow(c, d')
  {
    forall e | e in d'.fleet.log && e !in d'.delivered ensures e.slot < SubrangeStart(c.lo, c.hi, c.threads, e.t) {
      assert e !in d.delivered;
    }
  }

  lemma {:induction false} OutcomesDropBelow(c: Config, ds: seq<DState>, xs: seq<DAction>, n: nat)
    requires Outcomes(c, ds, xs) && n < |ds|
    ensures DroppedBelow(c, ds[n])
  {
    if n > 0 {
      OutcomesDropBelow(c, ds, xs, n - 1);
      StepDropsBelow(c, ds[n - 1], xs[n - 1], ds[n]);
    }
  }

  /** A slot that is counted and never delivered lies below the first range of the worker that counted it. So a
      single worker, or the first of several, drops nothing. */
  lemma DroppedLieBelowFirst(c: Config, ds: seq<DState>, xs: seq<DAction>, n: nat)
    requires IsDRun(c, ds, xs) && n < |ds|
    ensures forall e | e in ds[n].fleet.log && e !in ds[n].delivered ::
              e.slot < SubrangeStart(c.lo, c.hi, c.threads, e.t)
  {
    RunOutcomes(c, ds, xs);
    OutcomesDropBelow(c, ds, xs, n);
  }

  ghost predicate NeverTold(xs: seq<DAction>) { forall i | 0 <= i < |xs| :: !xs[i].told }

  ghost predicate Distinct(es: seq<Event>) { forall j, k | 0 <= j < k < |es| :: es[j].slot != es[k].slot }

  ghost predicate OnlyCounted(d: DState) {
    Distinct(d.delivered) && forall k | 0 <= k < |d.delivered| :: Logged(d.fleet.log, d.delivered[k].slot)
  }

  lemma LongerLog(log: seq<Event>, more: seq<Event>, slot: nat)
    requires Logged(log, slot)
    ensures Logged(log + more, slot)
  {
    var k :| 0 <= k < |log| && log[k].slot == slot;
    assert (log + more)[k].slot == slot;
  }

  lemma StepOnlyCounts(d: DState, x: DAction, d': DState)
    requires Outcome(d, x, d') && !x.told && OnlyCounted(d)
    ensures OnlyCounted(d')
  {
    var es := Adds(d.fleet, x.a);
    forall k | 0 <= k < |d'.delivered| ensures Logged(d'.fleet.log, d'.delivered[k].slot) {
      if k < |d.delivered| {
        LongerLog(d.fleet.log, es, d.delivered[k].slot);
      } else {
        assert d'.fleet.log[|d.fleet.log|] == es[0];
      }
    }
  }

  lemma {:induction false} OutcomesOnlyCount(c: Config, ds: seq<DState>, xs: seq<DAction>, n: nat)
    requires Outcomes(c, ds, xs) && NeverTold(xs) && n < |ds|
    ensures OnlyCounted(ds[n])
  {
    if n > 0 {
      OutcomesOnlyCount(c, ds, xs, n - 1);
      StepOnlyCounts(ds[n - 1], xs[n - 1], ds[n]);
    }
  }

  /** Unless a failure strikes between telling and counting, nothing is delivered twice, and only what is
      counted. */
  lemma DeliveredAtMostOnce(c: Config, ds: seq<DState>, xs: seq<DAction>, n: nat)
    requires IsDRun(c, ds, xs) && NeverTold(xs) && n < |ds|
    ensures Distinct(ds[n].delivered)
    ensures forall k | 0 <= k < |ds[n].delivered| :: Logged(ds[n].fleet.log, ds[n].delivered[k].slot)
  {
    RunOutcomes(c, ds, xs);
    OutcomesOnlyCount(c, ds, xs, n);
  }

  /** No failure between telling and counting, and none while the worker's assignment starts below its first. */
  ghost predicate Safe(c: Config, d: DState, x: DAction)
    requires DEnabled(c, d, x)
  {
    && !x.told
    && (x.a.Local? && IsRestart(c.present, d.fleet.threads[x.a.t], x.a.m) ==>
          d.gates[x.a.t].first <= d.gates[x.a.t].origin)
  }

  ghost predicate SafeRun(c: Config, ds: seq<DState>, xs: seq<DAction>) {
    IsDRun(c, ds, xs) && forall i | 0 <= i < |xs| :: Safe(c, ds[i], xs[i])
  }

  /** A worker that has failed on its assignment has one at or above its first. */
  ghost predicate FailedHigh(gs: seq<Gate>) { forall t | 0 <= t < |gs| && gs[t].failed :: gs[t].first <= gs[t].origin }

  lemma SafeKeepsHigh(c: Config, d: DState, x: DAction)
    requires DEnabled(c, d, x) && Safe(c, d, x) && FailedHigh(d.gates)
    ensures FailedHigh(DStep(c, d, x).gates)
  {
  }

  lemma HighIsHeard(c: Config, d: DState, a: Action)
    requires DInv(c, d) && FailedHigh(d.gates) && Adds(d.fleet, a) != []
    ensures !Silenced(d, a.t, d.fleet.threads[a.t].phase.slot)
  {
    var th := d.fleet.threads[a.t];
    assert CursorOk(c.present, th) && GateOk(th, d.gates[a.t]);
  }

  /** On runs without such failures, `on_block` is told exactly the counted slots, in the order they are counted. */
  lemma {:induction false} SafeRunsDeliver(c: Config, ds: seq<DState>, xs: seq<DAction>, n: nat)
    requires SafeRun(c, ds, xs) && n < |ds|
    ensures ds[n].delivered == ds[n].fleet.log && FailedHigh(ds[n].gates)
  {
    if n > 0 {
      SafeRunsDeliver(c, ds, xs, n - 1);
      DRunKeeps(c, ds, xs, n - 1);
      assert Safe(c, ds[n - 1], xs[n - 1]);
      StepDelivers(c, ds[n - 1], xs[n - 1]);
      SafeKeepsHigh(c, ds[n - 1], xs[n - 1]);
      if Adds(ds[n - 1].fleet, xs[n - 1].a) != [] { HighIsHeard(c, ds[n - 1], xs[n - 1].a); }
    }
  }

  // ---------------------------------------------------------------------------------------------
  // The fleet inside.

  ghost function FleetRun(ds: seq<DState>): (run: seq<State>)
    ensures |run| == |ds| && forall i | 0 <= i < |ds| :: run[i] == ds[i].fleet
  {
    seq(|ds|, i requires 0 <= i < |ds| => ds[i].fleet)
  }

  lemma FleetRuns(c: Config, ds: seq<DState>, xs: seq<DAction>)
    requires IsDRun(c, ds, xs)
    ensures IsRun(c, FleetRun(ds))
  {
    var run := FleetRun(ds);
    forall i | 0 <= i < |run| - 1 ensures Next(c, run[i], run[i + 1]) {
      assert DEnabled(c, ds[i], xs[i]) && ds[i + 1] == DStep(c, ds[i], xs[i]);
    }
  }

  /** A run of that kind after which all workers have retired has told `on_block` every due slot of the range
      exactly once, and nothing else. */
  lemma SafeRunDeliversOnce(c: Config, ds: seq<DState>, xs: seq<DAction>)
    requires SafeRun(c, ds, xs) && AllRetired(ds[|xs|].fleet)
    ensures Distinct(ds[|xs|].delivered)
    ensures forall slot: nat :: Logged(ds[|xs|].delivered, slot) <==> c.lo <= slot < c.hi && Due(c.present, slot)
  {
    FleetRuns(c, ds, xs);
    EveryDueSlotCountedOnce(c, FleetRun(ds));
    SafeRunsDeliver(c, ds, xs, |xs|);
  }
}
