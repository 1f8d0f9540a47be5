/** Which slots can be stolen at all: however often a worker is asked, it keeps the beginning of its first range. */
module StealReach {
  import opened Slots
  import opened Subranges
  import opened Worker
  import opened Fleet
  import opened FleetInvariant
  import opened FleetSafety
  import opened FleetTheorems

  /** What a worker keeps of `n` slots when it is asked until it refuses. */
  function Kept(n: nat): nat { if n < MIN_STEAL_SLOTS then n else Kept(n / 2) }

  lemma {:induction false} KeptAtMost(n: nat)
    ensures Kept(n) <= n
  {
    if n >= MIN_STEAL_SLOTS { KeptAtMost(n / 2); }
  }

  lemma {:induction false} KeptStep(n: nat)
    requires n > 0
    ensures Kept(n) <= Kept(n - 1) + 1
  {
    if n == MIN_STEAL_SLOTS {
      KeptAtMost(n / 2);
    } else if n > MIN_STEAL_SLOTS && n % 2 == 0 {
      KeptStep(n / 2);
      assert (n - 1) / 2 == n / 2 - 1;
    } else if n > MIN_STEAL_SLOTS {
      assert (n - 1) / 2 == n / 2;
    }
  }

  /** Moving on by `k` slots before being asked never leaves less. */
  lemma {:induction false} KeptMovesOn(n: nat, k: nat)
    requires k <= n
    ensures Kept(n) <= Kept(n - k) + k
  {
    if k > 0 {
      KeptStep(n);
      KeptMovesOn(n - 1, k - 1);
    }
  }

  /** The least position the worker can be asked at from now on; its end once it gives nothing any more. */
  function NextPosition(th: Thread): nat {
    match th.phase
    case Unstarted => th.start
    case PassStart => th.start
    case Backoff => th.start
    case Opening(_, _, current) => if current.Some? then th.lastCounted + 1 else Max(th.start, th.lastCounted + 1)
    case Finished => th.end
    case Stopped => th.end
    case _ => th.lastCounted + 1
  }

  /** From here on the worker keeps at least as much of `[a, end)` as of the `n` slots it had. */
  ghost predicate KeepsEnough(n: nat, a: nat, end: nat, position: nat) {
    a <= position <= end && Kept(n) <= position - a + Kept(end - position)
  }

  lemma MovingOnKeeps(n: nat, a: nat, end: nat, position: nat, position': nat)
    requires KeepsEnough(n, a, end, position) && position <= position' <= end
    ensures KeepsEnough(n, a, end, position')
  {
    KeptMovesOn(end - position, position' - position);
  }

  lemma GivingKeeps(n: nat, a: nat, end: nat, position: nat)
    requires KeepsEnough(n, a, end, position) && SplitPoint(position, end, true).Some?
    ensures KeepsEnough(n, a, SplitPoint(position, end, true).value, position)
  {
    assert SplitPoint(position, end, true).value - position == (end - position) / 2;
  }

  lemma EndKeeps(n: nat, a: nat, end: nat, position: nat)
    requires KeepsEnough(n, a, end, position)
    ensures a + Kept(n) <= end
  {
    KeptAtMost(end - position);
  }

  // ---------------------------------------------------------------------------------------------
  // The invariant.

  ghost function FirstRange(c: Config, v: nat): Range
    requires c.Valid()
  {
    SubrangeOf(c.lo, c.hi, c.threads, v)
  }

  /** Worker `v`'s first assignment still begins where it began, is its own until it is done, and holds the
      slots that cannot be stolen. */
  ghost predicate FirstOk(c: Config, ts: seq<Thread>, ps: seq<Piece>, v: nat)
    requires c.Valid()
  {
    var r := FirstRange(c, v);
    && v < |ts| && v < |ps| && ps[v].range.lo == r.lo
    && match ps[v].holder
       case Held(t) => t == v && KeepsEnough(r.hi - r.lo, r.lo, ps[v].range.hi, NextPosition(ts[v]))
       case Done => r.lo + Kept(r.hi - r.lo) <= ps[v].range.hi
       case Sent(_) => false
  }

  ghost predicate FirstsKept(c: Config, s: State) {
    c.Valid() && forall v | 0 <= v < c.threads :: FirstOk(c, s.threads, s.pieces, v)
  }

  lemma InitFirst(c: Config, ts: seq<Thread>, ps: seq<Piece>, v: nat, r: Range)
    requires c.Valid() && v < |ts| && v < |ps| && r == FirstRange(c, v) && r.lo <= r.hi
    requires ts[v] == InitThread(v, r) && ps[v] == Piece(r, Held(v))
    ensures FirstOk(c, ts, ps, v)
  {
  }

  lemma InitKept(c: Config)
    requires c.Valid()
    ensures FirstsKept(c, Init(c))
  {
    var s := Init(c);
    forall v | 0 <= v < c.threads ensures FirstOk(c, s.threads, s.pieces, v) {
      InitFirst(c, s.threads, s.pieces, v, FirstRange(c, v));
    }
  }

  /** A restart resumes above the counted cursor. */
  lemma FailureGoesOn(present: set<nat>, th: Thread, m: Move)
    requires CursorOk(present, th) && IsHeld(th.phase) && MoveEnabled(present, th, m) && IsFailure(m)
    ensures NextPosition(th) <= NextPosition(MoveStep(present, th, m))
  {
  }

  lemma DecideGoesOn(present: set<nat>, th: Thread, statsFail: bool)
    requires CursorOk(present, th) && MoveEnabled(present, th, Decide(statsFail))
    ensures NextPosition(th) <= NextPosition(MoveStep(present, th, Decide(statsFail)))
  {
  }

  lemma TurnGoesOn(present: set<nat>, th: Thread, m: Move)
    requires CursorOk(present, th) && IsHeld(th.phase) && MoveEnabled(present, th, m) && !IsFailure(m) && !m.Decide?
    ensures NextPosition(th) <= NextPosition(MoveStep(present, th, m))
  {
  }

  /** A worker's own steps never set it back. */
  lemma MoveGoesOn(present: set<nat>, th: Thread, m: Move)
    requires CursorOk(present, th) && IsHeld(th.phase) && MoveEnabled(present, th, m)
    ensures NextPosition(th) <= NextPosition(MoveStep(present, th, m)) <= th.end
  {
    StepKeepsCursor(present, th, m);
    NextInRange(present, MoveStep(present, th, m));
    if IsFailure(m) {
      FailureGoesOn(present, th, m);
    } else if m.Decide? {
      DecideGoesOn(present, th, m.statsFail);
    } else {
      TurnGoesOn(present, th, m);
    }
  }

  lemma CountGoesOn(present: set<nat>, th: Thread)
    requires CursorOk(present, th) && th.phase.Processing?
    ensures NextPosition(th) <= NextPosition(CountStep(th)) <= th.end
  {
  }

  /** Where a worker is asked is the least position it can be asked at. */
  lemma PositionIsNext(th: Thread)
    requires Serves(th.phase) && IsHeld(th.phase)
    ensures Position(th) == NextPosition(th)
  {
  }

  /** The assignment is as it was, and its holder has moved on, at most. */
  lemma MovedOn(c: Config, s: State, s': State, v: nat)
    requires c.Valid() && FirstOk(c, s.threads, s.pieces, v) && v < |s'.threads| && v < |s'.pieces|
    requires s'.pieces[v] == s.pieces[v]
    requires s.pieces[v].holder.Held? ==>
               NextPosition(s.threads[v]) <= NextPosition(s'.threads[v]) <= s.pieces[v].range.hi
    ensures FirstOk(c, s'.threads, s'.pieces, v)
  {
    if s.pieces[v].holder.Held? {
      var r := FirstRange(c, v);
      MovingOnKeeps(r.hi - r.lo, r.lo, s.pieces[v].range.hi, NextPosition(s.threads[v]), NextPosition(s'.threads[v]));
    }
  }

  /** A worker holds its first assignment only under the number it had from the start. */
  lemma HolderHasIt(c: Config, ts: seq<Thread>, ps: seq<Piece>, v: nat)
    requires c.Valid() && ThreadsOk(c, ts) && HeldOk(ts, ps) && FirstOk(c, ts, ps, v) && ps[v].holder.Held?
    ensures IsHeld(ts[v].phase) && ts[v].id == v && CursorOk(c.present, ts[v]) && ps[v].range.hi == ts[v].end
    ensures NextPosition(ts[v]) <= ts[v].end
  {
    NextInRange(c.present, ts[v]);
  }

  lemma NextInRange(present: set<nat>, th: Thread)
    requires CursorOk(present, th) && IsHeld(th.phase)
    ensures NextPosition(th) <= th.end
  {
  }

  // ---------------------------------------------------------------------------------------------
  // What others do.

  lemma DeliverLeaves(s: State, r: Request, reply: Reply, v: nat)
    requires v < |s.threads| && IsHeld(s.threads[v].phase)
    ensures Deliver(s, r, reply).threads[v] == s.threads[v]
  {
  }

  lemma ServeStepLeaves(th: Thread, mid: Option<nat>)
    requires Serves(th.phase) && th.inbox != []
    ensures ServeStep(th, mid).phase == th.phase && NextPosition(ServeStep(th, mid)) == NextPosition(th)
  {
  }

  lemma ServeLeaves(s: State, t: nat, v: nat)
    requires t < |s.threads| && s.threads[t].inbox != [] && Serves(s.threads[t].phase)
    requires v < |s.threads| && IsHeld(s.threads[v].phase)
    ensures |ServeOne(s, t).threads| == |s.threads|
    ensures NextPosition(ServeOne(s, t).threads[v]) == NextPosition(s.threads[v])
  {
    var th := s.threads[t];
    var mid := SplitPoint(Position(th), th.end, IsHeld(th.phase));
    ServeStepLeaves(th, mid);
    ServeStepLeaves(th, None);
    if mid.Some? {
      DeliverLeaves(SetThread(s, t, ServeStep(th, mid)), th.inbox[0], Granted(|s.pieces|, Range(mid.value, th.end)), v);
    }
    DeliverLeaves(SetThread(s, t, ServeStep(th, None)), th.inbox[0], Refused, v);
  }

  lemma RefuseLeaves(c: Config, s: State, t: nat, v: nat)
    requires Enabled(c, s, Refuse(t)) && v < |s.threads| && IsHeld(s.threads[v].phase)
    ensures Apply(c, s, Refuse(t)).threads[v] == s.threads[v]
  {
    DeliverLeaves(SetThread(s, t, s.threads[t].(inbox := s.threads[t].inbox[1..])), s.threads[t].inbox[0], Refused, v);
  }

  /** Someone else's step leaves a held worker where it is. */
  lemma OthersLeave(c: Config, s: State, a: Action, v: nat)
    requires Enabled(c, s, a) && v < |s.threads| && (a.RaiseShutdown? || a.t != v) && IsHeld(s.threads[v].phase)
    ensures NextPosition(Apply(c, s, a).threads[v]) == NextPosition(s.threads[v])
  {
    match a {
      case Serve(t) => ServeLeaves(s, t, v);
      case Refuse(t) => RefuseLeaves(c, s, t, v);
      case _ =>
    }
  }

  /** So does its own, or it moves on. */
  lemma OwnMovesOn(c: Config, s: State, a: Action, v: nat)
    requires Enabled(c, s, a) && !a.RaiseShutdown? && a.t == v && (a.Local? || a.Count?)
    requires CursorOk(c.present, s.threads[v]) && IsHeld(s.threads[v].phase)
    ensures NextPosition(s.threads[v]) <= NextPosition(Apply(c, s, a).threads[v]) <= s.threads[v].end
  {
    if a.Local? { MoveGoesOn(c.present, s.threads[v], a.m); } else { CountGoesOn(c.present, s.threads[v]); }
  }

  predicate KeepsPieces(a: Action) { !a.Serve? && !a.Journal? && !a.StoreLedger? }

  lemma HeldSteps(c: Config, s: State, a: Action)
    requires Enabled(c, s, a) && !a.RaiseShutdown? && KeepsPieces(a) && IsHeld(s.threads[a.t].phase)
    ensures a.Local? || a.Count?
  {
  }

  lemma MoveKept(c: Config, s: State, a: Action, v: nat)
    requires c.Valid() && ThreadsOk(c, s.threads) && HeldOk(s.threads, s.pieces) && FirstOk(c, s.threads, s.pieces, v)
    requires Enabled(c, s, a) && KeepsPieces(a)
    ensures FirstOk(c, Apply(c, s, a).threads, Apply(c, s, a).pieces, v)
  {
    if s.pieces[v].holder.Held? {
      HolderHasIt(c, s.threads, s.pieces, v);
      if a.RaiseShutdown? || a.t != v {
        OthersLeave(c, s, a, v);
      } else {
        HeldSteps(c, s, a);
        OwnMovesOn(c, s, a, v);
      }
    }
    PiecesStay(c, s, a);
    MovedOn(c, s, Apply(c, s, a), v);
  }

  lemma PiecesStay(c: Config, s: State, a: Action)
    requires Enabled(c, s, a) && KeepsPieces(a)
    ensures Apply(c, s, a).pieces == s.pieces
  {
  }

  lemma JournalKept(c: Config, s: State, t: nat, v: nat)
    requires c.Valid() && ThreadsOk(c, s.threads) && HeldOk(s.threads, s.pieces) && FirstOk(c, s.threads, s.pieces, v)
    requires t < |s.threads| && s.threads[t].phase.Finished?
    ensures FirstOk(c, JournalOne(s, t).threads, JournalOne(s, t).pieces, v)
  {
    var r := FirstRange(c, v);
    if s.pieces[v].holder.Held? {
      HolderHasIt(c, s.threads, s.pieces, v);
      EndKeeps(r.hi - r.lo, r.lo, s.pieces[v].range.hi, NextPosition(s.threads[v]));
    }
    if s.threads[t].id != v { MovedOn(c, s, JournalOne(s, t), v); }
  }

  lemma AdoptKept(c: Config, s: State, t: nat, v: nat)
    requires c.Valid() && ThreadsOk(c, s.threads) && HeldOk(s.threads, s.pieces) && FirstOk(c, s.threads, s.pieces, v)
    requires SentOk(s.threads, s.pieces) && t < |s.threads| && s.threads[t].phase.Adopting?
    ensures FirstOk(c, Adopt(s, t).threads, Adopt(s, t).pieces, v)
  {
    assert GrantOf(s.threads[t]) == Some((s.threads[t].phase.id, s.threads[t].phase.range));
    if s.pieces[v].holder.Held? { HolderHasIt(c, s.threads, s.pieces, v); }
    MovedOn(c, s, Adopt(s, t), v);
  }

  /** What a serve does to the assignments. */
  lemma ServePieces(s: State, t: nat)
    requires t < |s.threads| && s.threads[t].inbox != []
    ensures var th := s.threads[t]; var mid := SplitPoint(Position(th), th.end, IsHeld(th.phase));
      || ServeOne(s, t).pieces == s.pieces
      || (mid.Some? && th.id < |s.pieces|
          && ServeOne(s, t).pieces == SplitPieces(s.pieces, th.id, mid.value, th.inbox[0].thief))
  {
  }

  lemma SplitKept(c: Config, ts: seq<Thread>, ps: seq<Piece>, v: nat, to: nat)
    requires c.Valid() && ThreadsOk(c, ts) && HeldOk(ts, ps) && FirstOk(c, ts, ps, v) && ps[v].holder.Held?
    requires Serves(ts[v].phase) && SplitPoint(Position(ts[v]), ts[v].end, true).Some?
    ensures var ps' := SplitPieces(ps, v, SplitPoint(Position(ts[v]), ts[v].end, true).value, to);
      && ps'[v].range.lo == ps[v].range.lo && ps'[v].holder == ps[v].holder
      && KeepsEnough(FirstRange(c, v).hi - FirstRange(c, v).lo, FirstRange(c, v).lo, ps'[v].range.hi,
                     NextPosition(ts[v]))
  {
    HolderHasIt(c, ts, ps, v);
    PositionIsNext(ts[v]);
    GivingKeeps(FirstRange(c, v).hi - FirstRange(c, v).lo, FirstRange(c, v).lo, ts[v].end, NextPosition(ts[v]));
  }

  lemma ServeKept(c: Config, s: State, t: nat, v: nat)
    requires c.Valid() && ThreadsOk(c, s.threads) && HeldOk(s.threads, s.pieces) && FirstOk(c, s.threads, s.pieces, v)
    requires t < |s.threads| && s.threads[t].inbox != [] && Serves(s.threads[t].phase)
    ensures FirstOk(c, ServeOne(s, t).threads, ServeOne(s, t).pieces, v)
  {
    ServePieces(s, t);
    var th := s.threads[t];
    if s.pieces[v].holder.Held? {
      HolderHasIt(c, s.threads, s.pieces, v);
      ServeLeaves(s, t, v);
      if t == v && ServeOne(s, t).pieces != s.pieces {
        SplitKept(c, s.threads, s.pieces, v, th.inbox[0].thief);
      } else {
        SplitElsewhere(s, t, v);
        MovedOn(c, s, ServeOne(s, t), v);
      }
    } else {
      SplitElsewhere(s, t, v);
      MovedOn(c, s, ServeOne(s, t), v);
    }
  }

  lemma SplitElsewhere(s: State, t: nat, v: nat)
    requires t < |s.threads| && s.threads[t].inbox != [] && v < |s.pieces|
    requires IsHeld(s.threads[t].phase) && s.threads[t].id == v ==> ServeOne(s, t).pieces == s.pieces
    ensures v < |ServeOne(s, t).pieces| && ServeOne(s, t).pieces[v] == s.pieces[v]
    ensures |ServeOne(s, t).threads| == |s.threads|
  {
    ServePieces(s, t);
  }

  lemma StepKept(c: Config, s: State, a: Action)
    requires Core(c, s) && FirstsKept(c, s) && Enabled(c, s, a)
    ensures FirstsKept(c, Apply(c, s, a))
  {
    forall v | 0 <= v < c.threads ensures FirstOk(c, Apply(c, s, a).threads, Apply(c, s, a).pieces, v) {
      assert FirstOk(c, s.threads, s.pieces, v);
      match a {
        case Serve(t) => ServeKept(c, s, t, v);
        case Journal(t) => JournalKept(c, s, t, v);
        case StoreLedger(t) => AdoptKept(c, s, t, v);
        case _ => MoveKept(c, s, a, v);
      }
    }
  }

  // ---------------------------------------------------------------------------------------------
  // Whole runs.

  /** The slots worker `v` keeps of its first range whatever happens. */
  ghost predicate CannotBeStolen(c: Config, v: nat, slot: nat)
    requires c.Valid()
  {
    var r := FirstRange(c, v);
    r.lo <= slot < r.lo + Kept(r.hi - r.lo)
  }

  /** They are counted by the worker they were first given to. */
  ghost predicate CountedByFirst(c: Config, log: seq<Event>)
    requires c.Valid()
  {
    forall k, v: nat | 0 <= k < |log| && v < c.threads && CannotBeStolen(c, v, log[k].slot) :: log[k].t == v
  }

  /** They never leave the first assignment of their worker. */
  lemma StaysWithFirst(c: Config, s: State, v: nat, slot: nat)
    requires Core(c, s) && FirstsKept(c, s) && v < c.threads && CannotBeStolen(c, v, slot)
    ensures v < |s.pieces| && s.pieces[v].range.Has(slot) && (s.pieces[v].holder == Held(v) || s.pieces[v].holder.Done?)
  {
    var r := FirstRange(c, v);
    assert FirstOk(c, s.threads, s.pieces, v);
    if s.pieces[v].holder.Held? {
      EndKeeps(r.hi - r.lo, r.lo, s.pieces[v].range.hi, NextPosition(s.threads[v]));
    }
  }

  lemma CounterHolds(c: Config, s: State, t: nat, v: nat)
    requires Core(c, s) && FirstsKept(c, s) && v < c.threads && Enabled(c, s, Count(t))
    requires CannotBeStolen(c, v, s.threads[t].phase.slot)
    ensures t == v
  {
    var th := s.threads[t];
    CountKeepsCursor(c.present, th);
    assert s.pieces[th.id].range.Has(th.phase.slot);
    StaysWithFirst(c, s, v, th.phase.slot);
  }

  lemma StepCountsByFirst(c: Config, s: State, a: Action, log': seq<Event>)
    requires Core(c, s) && FirstsKept(c, s) && Enabled(c, s, a) && CountedByFirst(c, s.log)
    requires log' == s.log + Adds(s, a)
    ensures CountedByFirst(c, log')
  {
    forall k, v: nat | 0 <= k < |log'| && v < c.threads && CannotBeStolen(c, v, log'[k].slot) ensures log'[k].t == v {
      if k < |s.log| { assert log'[k] == s.log[k]; } else { CounterHolds(c, s, a.t, v); }
    }
  }

  lemma {:induction false} RunKept(c: Config, run: seq<State>)
    requires IsRun(c, run)
    ensures FirstsKept(c, run[|run| - 1]) && CountedByFirst(c, run[|run| - 1].log)
  {
    if |run| == 1 {
      InitKept(c);
    } else {
      RunKept(c, run[..|run| - 1]);
      RunKeepsInv(c, run[..|run| - 1]);
      var s := run[|run| - 2];
      assert Next(c, s, run[|run| - 2 + 1]);
      var a :| Enabled(c, s, a) && run[|run| - 1] == Apply(c, s, a);
      StepKept(c, s, a);
      StepLogs(c, s, a);
      StepCountsByFirst(c, s, a, run[|run| - 1].log);
    }
  }

  /** In every reachable state, of the slots a worker was first given it still answers for, or has finished, those
      it would keep if it were asked from the start until it refuses; nobody else ever counts one of them. */
  lemma NeverStolen(c: Config, run: seq<State>, v: nat, slot: nat)
    requires IsRun(c, run) && v < c.threads && CannotBeStolen(c, v, slot)
    ensures var s := run[|run| - 1];
      && v < |s.pieces| && s.pieces[v].range.Has(slot) && (s.pieces[v].holder == Held(v) || s.pieces[v].holder.Done?)
      && forall k | 0 <= k < |s.log| && s.log[k].slot == slot :: s.log[k].t == v
  {
    RunKept(c, run);
    RunKeepsInv(c, run);
    StaysWithFirst(c, run[|run| - 1], v, slot);
  }
}
