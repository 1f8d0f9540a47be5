/** The fleet finishes: as long as nothing fails, breaks off or is given up, every schedule ends with all workers
    retired, from every reachable state without a stopped worker. */
module FleetCompletion {
  import opened Slots
  import opened Worker
  import opened Fleet
  import opened FleetInvariant
  import opened FleetSafety
  import opened FleetTheorems
  import opened FleetProgress
  import opened Sums

  /** More than the steps one epoch can take: three per slot, and a few around them. */
  const EPOCH_WORK: nat := 4 * SLOTS_PER_EPOCH + 8

  /** The steps ahead of a worker that begins a pass over `[start, end)`. */
  function RangeWork(start: nat, end: nat): nat { SatSub(Epoch(SatPred(end)) + 1, Epoch(start)) * EPOCH_WORK + 2 }

  function PassWork(p: Pass): nat {
    SatSub(p.lastEpoch, p.epoch) * EPOCH_WORK + 4 * SatSub(EpochEnd(p.epoch) + 1, p.cursor)
  }

  /** The stream ended although the index knows more. */
  predicate Missing(present: set<nat>, th: Thread, p: Pass) {
    NextPresent(present, th.lastCounted + 1, Min(p.localEnd, SatPred(th.end))).Some?
  }

  /** The steps ahead of a worker once its range is complete: drain, scan, ask everyone, retire. */
  function HuntWork(n: nat): nat { 6 * n + 7 }

  /** A bound on the steps ahead of a worker, as long as it is granted nothing new. */
  function PhaseWork(n: nat, present: set<nat>, th: Thread): nat {
    match th.phase
    case Unstarted => HuntWork(n) + RangeWork(th.start, th.end) + 1
    case PassStart => HuntWork(n) + RangeWork(th.start, th.end)
    case Backoff => HuntWork(n) + RangeWork(th.start, th.end) + 1
    case Opening(e, last, _) => HuntWork(n) + SatSub(last + 1, e) * EPOCH_WORK + 1
    case Streaming(p) => HuntWork(n) + PassWork(p) + 3
    case Fetched(p, got) =>
      HuntWork(n) + (if got.Some? then PassWork(p) + 5
                     else if Missing(present, th, p) then RangeWork(th.lastCounted + 1, th.end) + 2
                     else PassWork(p) + 2)
    case Processing(p, _) => HuntWork(n) + PassWork(p) + 4
    case Finished => HuntWork(n)
    case Draining => 6 * n + 6
    case Scanning => 6 * n + 5
    case Hunting(candidates, wait) =>
      if wait.Idle? then 6 * |candidates| + 4
      else if wait.reply.NoReply? then 6 * |candidates| + 6
      else if wait.reply.Refused? then 6 * |candidates| + 5
      else HuntWork(n) + RangeWork(wait.reply.range.lo, wait.reply.range.hi) + 5
    case Adopting(_, r, stored) => HuntWork(n) + RangeWork(r.lo, r.hi) + 4 - Min(stored, 2)
    case Retired => 0
    case Stopped => 0
  }

  function Work(n: nat, present: set<nat>, th: Thread): nat { PhaseWork(n, present, th) + 2 * |th.inbox| }

  function Works(n: nat, present: set<nat>, ts: seq<Thread>): (xs: seq<nat>)
    ensures |xs| == |ts| && forall i | 0 <= i < |ts| :: xs[i] == Work(n, present, ts[i])
  {
    seq(|ts|, i requires 0 <= i < |ts| => Work(n, present, ts[i]))
  }

  function TotalWork(n: nat, present: set<nat>, ts: seq<Thread>): nat { Sum(Works(n, present, ts)) }

  lemma TotalWorkUpdate(n: nat, present: set<nat>, ts: seq<Thread>, t: nat, th: Thread)
    requires t < |ts|
    ensures TotalWork(n, present, ts[t := th])
         == TotalWork(n, present, ts) - Work(n, present, ts[t]) + Work(n, present, th)
  {
    SumUpdate(Works(n, present, ts), t, Work(n, present, th));
    assert Works(n, present, ts[t := th]) == Works(n, present, ts)[t := Work(n, present, th)];
  }

  // ---------------------------------------------------------------------------------------------
  // Steps of one worker.

  /** Reading to the end of a stream that has no more leaves nothing missing. */
  lemma GenuineEnd(present: set<nat>, th: Thread)
    requires CursorOk(present, th) && th.phase.Streaming?
    requires NextPresent(present, th.phase.pass.cursor, EpochEnd(th.phase.pass.epoch)).None?
    ensures !Missing(present, th, th.phase.pass)
  {
    var p := th.phase.pass;
    forall s | th.lastCounted + 1 <= s <= Min(p.localEnd, SatPred(th.end)) ensures s !in present {
      if s < p.cursor { assert !Due(present, s); }
    }
  }

  lemma ReadFalls(n: nat, present: set<nat>, th: Thread, m: Move)
    requires CursorOk(present, th) && th.phase.Streaming?
    requires m == if NextPresent(present, th.phase.pass.cursor, EpochEnd(th.phase.pass.epoch)).Some? then ReadBlock
                  else ReadEnd
    ensures Work(n, present, MoveStep(present, th, m)) < Work(n, present, th)
  {
    if m.ReadEnd? { GenuineEnd(present, th); }
  }

  lemma DecideFalls(n: nat, present: set<nat>, th: Thread)
    requires MoveEnabled(present, th, Decide(false))
    ensures Work(n, present, MoveStep(present, th, Decide(false))) < Work(n, present, th)
  {
  }

  lemma OpenFalls(n: nat, present: set<nat>, th: Thread)
    requires MoveEnabled(present, th, OpenEpoch)
    ensures Work(n, present, MoveStep(present, th, OpenEpoch)) < Work(n, present, th)
  {
    var e, last := th.phase.epoch, th.phase.lastEpoch;
    var ls := LocalStart(th, e);
    var entry := if ls > EpochStart(e) then SeekTarget(present, EpochStart(e), ls) else EpochStart(e);
    assert EpochStart(e) <= entry;
    OpeningWork(e, last, entry);
  }

  lemma OpeningWork(e: nat, last: nat, entry: nat)
    requires e <= last && EpochStart(e) <= entry
    ensures SatSub(last, e) * EPOCH_WORK + 4 * SatSub(EpochEnd(e) + 1, entry) + 3 < SatSub(last + 1, e) * EPOCH_WORK + 1
  {
  }

  lemma TurnFalls(n: nat, present: set<nat>, th: Thread, m: Move)
    requires MoveEnabled(present, th, m) && (m.Spawn? || m.BeginPass? || m.SkipEpoch? || m.FinishPass? || m.Restart?)
    ensures Work(n, present, MoveStep(present, th, m)) < Work(n, present, th)
  {
  }

  lemma CountFalls(n: nat, present: set<nat>, th: Thread)
    requires th.phase.Processing?
    ensures Work(n, present, CountStep(th)) < Work(n, present, th)
  {
  }

  /** The next local step of a worker makes its work less. */
  lemma MoveFalls(n: nat, present: set<nat>, th: Thread, m: Move)
    requires th.phase.Streaming? ==> CursorOk(present, th)
    requires NextMove(present, th) == Some(m) && MoveEnabled(present, th, m)
    ensures Work(n, present, MoveStep(present, th, m)) < Work(n, present, th)
    ensures !MoveStep(present, th, m).phase.Stopped?
  {
    if th.phase.Streaming? {
      ReadFalls(n, present, th, m);
    } else if m.Decide? {
      DecideFalls(n, present, th);
    } else if m.OpenEpoch? {
      OpenFalls(n, present, th);
    } else {
      TurnFalls(n, present, th, m);
    }
  }

  lemma LocalFalls(c: Config, ts: seq<Thread>, t: nat, m: Move)
    requires ThreadsOk(c, ts) && t < |ts| && NextMove(c.present, ts[t]) == Some(m) && MoveEnabled(c.present, ts[t], m)
    ensures Work(c.threads, c.present, MoveStep(c.present, ts[t], m)) < Work(c.threads, c.present, ts[t])
    ensures !MoveStep(c.present, ts[t], m).phase.Stopped?
  {
    MoveFalls(c.threads, c.present, ts[t], m);
  }

  lemma ScanFalls(c: Config, s: State, t: nat, candidates: seq<nat>)
    requires |s.threads| == c.threads && Enabled(c, s, Scan(t, candidates))
    ensures var th' := Apply(c, s, Scan(t, candidates)).threads[t];
      Work(c.threads, c.present, th') < Work(c.threads, c.present, s.threads[t]) && !th'.phase.Stopped?
  {
    DistinctBelow(candidates, c.threads);
  }

  /** So do the other steps of one worker. */
  lemma HuntFalls(c: Config, s: State, a: Action)
    requires WaitOk(s.threads) && |s.threads| == c.threads && Enabled(c, s, a)
    requires (IsHunterStep(a) && !a.Abandon?) || a.StoreLedger? || a.Journal? || a.Count?
    ensures Work(c.threads, c.present, Apply(c, s, a).threads[a.t]) < Work(c.threads, c.present, s.threads[a.t])
    ensures !Apply(c, s, a).threads[a.t].phase.Stopped?
  {
    if a.Scan? {
      ScanFalls(c, s, a.t, a.candidates);
    } else if a.Count? {
      CountFalls(c.threads, c.present, s.threads[a.t]);
    } else if a.StoreLedger? || a.Journal? {
      StoreFalls(c, s, a);
    }
  }

  lemma StoreFalls(c: Config, s: State, a: Action)
    requires Enabled(c, s, a) && (a.StoreLedger? || a.Journal?)
    ensures Work(c.threads, c.present, Apply(c, s, a).threads[a.t]) < Work(c.threads, c.present, s.threads[a.t])
    ensures !Apply(c, s, a).threads[a.t].phase.Stopped?
  {
  }

  // ---------------------------------------------------------------------------------------------
  // Steps of the fleet.

  /** A step that commits a grant, or leaves less work. */
  ghost predicate Closer(c: Config, s: State, s': State) {
    || |s'.pieces| > |s.pieces|
    || (|s'.pieces| == |s.pieces|
        && TotalWork(c.threads, c.present, s'.threads) < TotalWork(c.threads, c.present, s.threads))
  }

  /** A step without a failure, a stream that breaks off, an abandoned request or a stop. */
  ghost predicate Clean(c: Config, s: State, a: Action) {
    && Enabled(c, s, a) && !a.RaiseShutdown? && !a.Abandon?
    && (a.Local? ==> NextMove(c.present, s.threads[a.t]) == Some(a.m))
  }

  lemma OwnStepIsCloser(c: Config, s: State, a: Action)
    requires Inv(c, s) && Clean(c, s, a) && !a.Serve? && !a.Refuse? && !a.Ask?
    ensures Closer(c, s, Apply(c, s, a))
  {
    var th' := Apply(c, s, a).threads[a.t];
    OwnStepFaithful(c, s, a);
    OneAssignmentPerGrant(c, s, a);
    if a.Local? { LocalFalls(c, s.threads, a.t, a.m); } else { HuntFalls(c, s, a); }
    TotalWorkUpdate(c.threads, c.present, s.threads, a.t, th');
  }

  /** A refusal on its way back adds no work. */
  lemma RefusalAddsNothing(c: Config, s: State, r: Request)
    ensures TotalWork(c.threads, c.present, Deliver(s, r, Refused).threads)
         <= TotalWork(c.threads, c.present, s.threads)
  {
    if Live(s, r) {
      TotalWorkUpdate(c.threads, c.present, s.threads, r.thief, WithReply(s.threads[r.thief], Refused));
    }
  }

  /** Taking a request from an inbox and refusing it leaves less work. */
  lemma RefusingFalls(c: Config, s: State, t: nat)
    requires t < |s.threads| && s.threads[t].inbox != []
    ensures var th' := s.threads[t].(inbox := s.threads[t].inbox[1..]);
      TotalWork(c.threads, c.present, Deliver(SetThread(s, t, th'), s.threads[t].inbox[0], Refused).threads)
      < TotalWork(c.threads, c.present, s.threads)
  {
    var th' := s.threads[t].(inbox := s.threads[t].inbox[1..]);
    TotalWorkUpdate(c.threads, c.present, s.threads, t, th');
    RefusalAddsNothing(c, SetThread(s, t, th'), s.threads[t].inbox[0]);
  }

  lemma AnswerIsCloser(c: Config, s: State, a: Action)
    requires Inv(c, s) && Enabled(c, s, a) && (a.Serve? || a.Refuse?)
    ensures Closer(c, s, Apply(c, s, a))
  {
    OneAssignmentPerGrant(c, s, a);
    RefusingFalls(c, s, a.t);
    if a.Serve? && |Apply(c, s, a).pieces| == |s.pieces| { RefusedServe(c, s, a.t); }
  }

  /** A serve that commits nothing is a refusal. */
  lemma RefusedServe(c: Config, s: State, t: nat)
    requires Inv(c, s) && Enabled(c, s, Serve(t)) && |ServeOne(s, t).pieces| == |s.pieces|
    ensures var th' := s.threads[t].(inbox := s.threads[t].inbox[1..]);
      ServeOne(s, t) == Deliver(SetThread(s, t, th'), s.threads[t].inbox[0], Refused)
  {
  }

  lemma AskSendFalls(c: Config, s: State, t: nat, v: nat, rest: seq<nat>)
    requires t < |s.threads| && v < |s.threads| && t != v
    requires s.threads[t].phase.Hunting? && s.threads[t].phase.wait.Idle?
    requires |s.threads[t].phase.candidates| == |rest| + 1
    ensures TotalWork(c.threads, c.present, AskSend(s, t, v, rest).threads) < TotalWork(c.threads, c.present, s.threads)
  {
    var th, before := s.threads[t], s.threads[v];
    var ts1 := s.threads[t := Asking(th, v, rest)];
    var w := before.(inbox := before.inbox + [Request(t, th.ticket + 1)]);
    TotalWorkUpdate(c.threads, c.present, s.threads, t, Asking(th, v, rest));
    TotalWorkUpdate(c.threads, c.present, ts1, v, w);
    InboxWork(c.threads, c.present, before, w.inbox);
    assert AskSend(s, t, v, rest).threads == ts1[v := w];
  }

  lemma InboxWork(n: nat, present: set<nat>, th: Thread, inbox: seq<Request>)
    ensures Work(n, present, th.(inbox := inbox)) == Work(n, present, th) - 2 * |th.inbox| + 2 * |inbox|
  {
  }

  lemma AskGoneFalls(c: Config, s: State, t: nat, rest: seq<nat>)
    requires t < |s.threads| && s.threads[t].phase.Hunting? && s.threads[t].phase.wait.Idle?
    requires |s.threads[t].phase.candidates| == |rest| + 1
    ensures TotalWork(c.threads, c.present, s.threads[t := s.threads[t].(phase := Hunting(rest, Idle))])
            < TotalWork(c.threads, c.present, s.threads)
  {
    TotalWorkUpdate(c.threads, c.present, s.threads, t, s.threads[t].(phase := Hunting(rest, Idle)));
  }

  lemma AskIsCloser(c: Config, s: State, t: nat)
    requires Inv(c, s) && Enabled(c, s, Ask(t))
    ensures Closer(c, s, Apply(c, s, Ask(t)))
  {
    var v, rest := s.threads[t].phase.candidates[0], s.threads[t].phase.candidates[1..];
    assert WaitOkAt(s.threads, t) && Started(s.threads, t, v);
    if IsExited(s.threads[v].phase) {
      AskGoneFalls(c, s, t, rest);
    } else {
      AskSendFalls(c, s, t, v, rest);
    }
  }

  ghost predicate NoneStopped(s: State) { forall t | 0 <= t < |s.threads| :: !s.threads[t].phase.Stopped? }

  /** A waiting thief with nothing else to do sees its victim gone, or its victim has something to do. */
  lemma WaiterIsServed(c: Config, s: State, t: nat)
    requires Inv(c, s) && t < |s.threads| && IsWaiting(s.threads[t]) && s.threads[t].phase.wait.reply.NoReply?
    ensures exists a :: Chosen(c, s, a)
  {
    assert WaitOkAt(s.threads, t) && Reachable(s.threads, t);
    var v := s.threads[t].phase.wait.victim;
    if IsExited(s.threads[v].phase) {
      assert Chosen(c, s, VictimGone(t));
    } else {
      WorkerCanStep(c, s, v);
    }
  }

  /** While a worker is left, some step brings the fleet closer to its end. */
  lemma SomeoneMoves(c: Config, s: State, t: nat)
    requires Inv(c, s) && t < |s.threads| && !IsExited(s.threads[t].phase)
    ensures exists a :: Chosen(c, s, a)
  {
    if IsWaiting(s.threads[t]) && s.threads[t].phase.wait.reply.NoReply? && s.threads[t].inbox == [] {
      WaiterIsServed(c, s, t);
    } else {
      WorkerCanStep(c, s, t);
    }
  }

  /** Whoever takes it, a clean step commits a grant or leaves less work. */
  lemma CleanIsCloser(c: Config, s: State, a: Action)
    requires Inv(c, s) && Clean(c, s, a)
    ensures Closer(c, s, Apply(c, s, a))
  {
    if a.Serve? || a.Refuse? {
      AnswerIsCloser(c, s, a);
    } else if a.Ask? {
      AskIsCloser(c, s, a.t);
    } else {
      OwnStepIsCloser(c, s, a);
    }
  }

  lemma OthersNeverStop(c: Config, s: State, a: Action, v: nat)
    requires Enabled(c, s, a) && v < |s.threads| && (a.RaiseShutdown? || a.t != v)
    ensures Apply(c, s, a).threads[v].phase.Stopped? <==> s.threads[v].phase.Stopped?
  {
  }

  lemma TalkNeverStops(c: Config, s: State, a: Action)
    requires Enabled(c, s, a) && (a.Serve? || a.Refuse? || a.Ask?) && !s.threads[a.t].phase.Stopped?
    ensures !Apply(c, s, a).threads[a.t].phase.Stopped?
  {
  }

  lemma OwnStepNeverStops(c: Config, s: State, a: Action)
    requires Inv(c, s) && Clean(c, s, a) && !s.threads[a.t].phase.Stopped?
    ensures !Apply(c, s, a).threads[a.t].phase.Stopped?
  {
    if a.Local? {
      LocalFalls(c, s.threads, a.t, a.m);
    } else if a.Serve? || a.Refuse? || a.Ask? {
      TalkNeverStops(c, s, a);
    } else {
      HuntFalls(c, s, a);
    }
  }

  lemma NoneStops(c: Config, s: State, a: Action)
    requires Inv(c, s) && Clean(c, s, a) && NoneStopped(s)
    ensures NoneStopped(Apply(c, s, a))
  {
    var s' := Apply(c, s, a);
    forall v | 0 <= v < |s'.threads| ensures !s'.threads[v].phase.Stopped? {
      if v == a.t { OwnStepNeverStops(c, s, a); } else { OthersNeverStop(c, s, a, v); }
    }
  }

  // ---------------------------------------------------------------------------------------------
  // The end.

  /** How many more grants there is room for. */
  ghost function GrantRoom(c: Config, s: State): nat {
    if c.lo <= c.hi && c.threads <= |s.pieces| then SatSub(c.hi - c.lo, MIN_PIECE * (|s.pieces| - c.threads)) else 0
  }

  lemma RoomShrinks(slots: nat, n: nat, p: nat, p': nat)
    requires n <= p < p' && MIN_PIECE * (p' - n) <= slots
    ensures SatSub(slots, MIN_PIECE * (p' - n)) < SatSub(slots, MIN_PIECE * (p - n))
  {
  }

  /** There is less room for grants, or as much room and less work. */
  ghost predicate Falls(c: Config, s: State, s': State) {
    || GrantRoom(c, s') < GrantRoom(c, s)
    || (GrantRoom(c, s') == GrantRoom(c, s)
        && TotalWork(c.threads, c.present, s'.threads) < TotalWork(c.threads, c.present, s.threads))
  }

  lemma CloserFalls(c: Config, run: seq<State>, s': State)
    requires IsRun(c, run) && IsRun(c, run + [s']) && Closer(c, Last(run), s')
    ensures Falls(c, Last(run), s')
  {
    StealsAreBounded(c, run);
    StealsAreBounded(c, run + [s']);
    if |s'.pieces| > |Last(run).pieces| {
      RoomShrinks(c.hi - c.lo, c.threads, |Last(run).pieces|, |s'.pieces|);
    }
  }

  /** A clean step goes on with the run, stops nobody, and makes a measure fall. */
  lemma CleanStepFalls(c: Config, run: seq<State>, a: Action, s': State)
    requires IsRun(c, run) && NoneStopped(Last(run)) && Clean(c, Last(run), a) && s' == Apply(c, Last(run), a)
    ensures IsRun(c, run + [s']) && NoneStopped(s') && Falls(c, Last(run), s')
  {
    RunKeepsInv(c, run);
    Extend(c, run, a);
    CleanIsCloser(c, Last(run), a);
    NoneStops(c, Last(run), a);
    CloserFalls(c, run, s');
  }

  lemma ChosenIsClean(c: Config, s: State, a: Action)
    requires Chosen(c, s, a)
    ensures Clean(c, s, a)
  {
  }

  /** While someone has not retired there is such a step. */
  lemma SomeStepIsClean(c: Config, s: State)
    requires Inv(c, s) && NoneStopped(s) && !AllRetired(s)
    ensures exists a :: Clean(c, s, a)
  {
    var t :| 0 <= t < |s.threads| && !s.threads[t].phase.Retired?;
    SomeoneMoves(c, s, t);
    var a :| Chosen(c, s, a);
    ChosenIsClean(c, s, a);
  }

  lemma GoesOn(c: Config, run: seq<State>) returns (s': State)
    requires IsRun(c, run) && NoneStopped(Last(run)) && !AllRetired(Last(run))
    ensures IsRun(c, run + [s']) && NoneStopped(s') && Falls(c, Last(run), s')
  {
    RunKeepsInv(c, run);
    SomeStepIsClean(c, Last(run));
    var a :| Clean(c, Last(run), a);
    s' := Apply(c, Last(run), a);
    CleanStepFalls(c, run, a, s');
  }

  /** Every run without a stopped worker can be continued until all workers have retired. */
  lemma {:induction false} EveryRunCanRetire(c: Config, run: seq<State>) returns (run': seq<State>)
    requires IsRun(c, run) && NoneStopped(Last(run))
    ensures IsRun(c, run') && run <= run' && AllRetired(Last(run'))
    decreases GrantRoom(c, Last(run)), TotalWork(c.threads, c.present, Last(run).threads)
  {
    if AllRetired(Last(run)) { return run; }
    var s' := GoesOn(c, run);
    run' := EveryRunCanRetire(c, run + [s']);
  }

  /** In particular every request has a run that counts all its due slots and passes its audit. */
  lemma EveryRequestCanBeServed(c: Config) returns (run: seq<State>)
    requires c.Valid()
    ensures IsRun(c, run) && AllRetired(Last(run)) && AuditPasses(c, Last(run))
    ensures forall slot: nat :: Logged(Last(run).log, slot) <==> c.lo <= slot < c.hi && Due(c.present, slot)
  {
    run := EveryRunCanRetire(c, [Init(c)]);
    EveryDueSlotCountedOnce(c, run);
    RetiredRunPassesAudit(c, run);
  }

  /** A clean step, or standing still when there is none. */
  ghost predicate CleanNext(c: Config, s: State, s': State) {
    || (exists a :: Clean(c, s, a) && s' == Apply(c, s, a))
    || (s' == s && forall a :: !Clean(c, s, a))
  }

  ghost predicate CleanAt(c: Config, f: nat -> State, i: nat) { CleanNext(c, f(i), f(i + 1)) }

  /** An endless schedule in which nothing fails, breaks off, is given up or is stopped. */
  ghost predicate CleanSchedule(c: Config, f: nat -> State) { forall i: nat :: CleanAt(c, f, i) }

  /** Until everyone has retired, such a schedule makes the measure fall. */
  lemma ScheduleFalls(c: Config, run: seq<State>, s': State)
    requires IsRun(c, run) && NoneStopped(Last(run)) && !AllRetired(Last(run)) && CleanNext(c, Last(run), s')
    ensures IsRun(c, run + [s']) && NoneStopped(s') && Falls(c, Last(run), s')
  {
    RunKeepsInv(c, run);
    SomeStepIsClean(c, Last(run));
    var a :| Clean(c, Last(run), a) && s' == Apply(c, Last(run), a);
    CleanStepFalls(c, run, a, s');
  }

  /** Whoever moves and in whatever order, such a schedule has retired all workers after finitely many steps. */
  lemma {:induction false} EveryCleanScheduleRetires(c: Config, run: seq<State>, f: nat -> State, m: nat)
    returns (n: nat)
    requires IsRun(c, run) && NoneStopped(Last(run)) && f(m) == Last(run) && CleanSchedule(c, f)
    ensures m <= n && AllRetired(f(n))
    decreases GrantRoom(c, f(m)), TotalWork(c.threads, c.present, f(m).threads)
  {
    if AllRetired(f(m)) { return m; }
    assert CleanAt(c, f, m);
    ScheduleFalls(c, run, f(m + 1));
    n := EveryCleanScheduleRetires(c, run + [f(m + 1)], f, m + 1);
  }

  /** Whenever slot 0 is requested and present, the run retires, passes its audit, and has not counted it. */
  lemma SlotZeroIsMissed(c: Config) returns (run: seq<State>)
    requires c.Valid() && c.lo == 0 && c.threads > 1 && 0 in c.present
    ensures IsRun(c, run) && AllRetired(Last(run)) && AuditPasses(c, Last(run)) && !Logged(Last(run).log, 0)
  {
    run := EveryRequestCanBeServed(c);
  }
}
