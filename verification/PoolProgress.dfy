/** The prefetch pool cannot get stuck on memory, and every productive step brings it closer to done. */
module PoolProgress {
  import opened Slots
  import opened Octets
  import opened RangeReader
  import opened Pool
  import opened PoolInvariant
  import opened Sums
  import opened PoolSafety

  function Bytes(ps: seq<Piece>): nat { if ps == [] then 0 else ps[0].size + Bytes(ps[1..]) }

  function Failures(ps: seq<Piece>): nat {
    if ps == [] then 0 else (if ps[0].status.Failed? then 1 else 0) + Failures(ps[1..])
  }

  /** What is left to do on fetches in flight: to finish them, hand them over and read them. */
  function FetchRank(ps: seq<Piece>): nat {
    if ps == [] then 0 else (if ps[0].status.Running? then 12 else 9) * ps[0].size + FetchRank(ps[1..])
  }

  function PhaseRank(phase: Phase): nat {
    match phase
    case Filling => 2
    case Exited => 0
    case _ => 1
  }

  /** Every byte of a pipeline weighs less the further it has come. */
  function PipeRank(p: Pipe): nat {
    15 * SatSub(p.total, p.next) + FetchRank(p.pending) + 6 * Bytes(InHand(p.phase)) + 3 * Bytes(p.queue)
    + PhaseRank(p.phase)
  }

  function ReaderRank(c: Config, r: nat, rd: Reader): nat
    requires r < |c.objects|
  {
    if rd.pipe.None? then 18 * SatSub(|c.objects[r]|, rd.position)
    else if rd.current.Some? then 3 * SatSub(rd.current.value.size, rd.offset)
    else 0
  }

  function PipeFailures(p: Pipe): nat { Failures(p.queue) + Failures(InHand(p.phase)) + Failures(p.pending) }

  function PipeRanks(ps: seq<Pipe>): (xs: seq<nat>)
    ensures |xs| == |ps| && forall i | 0 <= i < |ps| :: xs[i] == PipeRank(ps[i])
  {
    seq(|ps|, i requires 0 <= i < |ps| => PipeRank(ps[i]))
  }

  function FailureCounts(ps: seq<Pipe>): (xs: seq<nat>)
    ensures |xs| == |ps| && forall i | 0 <= i < |ps| :: xs[i] == PipeFailures(ps[i])
  {
    seq(|ps|, i requires 0 <= i < |ps| => PipeFailures(ps[i]))
  }

  function ReaderRanks(c: Config, rs: seq<Reader>): (xs: seq<nat>)
    requires |rs| == |c.objects|
    ensures |xs| == |rs| && forall i | 0 <= i < |rs| :: xs[i] == ReaderRank(c, i, rs[i])
  {
    seq(|rs|, i requires 0 <= i < |rs| => ReaderRank(c, i, rs[i]))
  }

  function Failing(s: State): nat { Sum(FailureCounts(s.pipes)) }

  function Rank(c: Config, s: State): nat
    requires |s.readers| == |c.objects|
  {
    Sum(PipeRanks(s.pipes)) + Sum(ReaderRanks(c, s.readers)) + s.dying
  }

  ghost predicate Closer(c: Config, s': State, s: State)
    requires |s.readers| == |s'.readers| == |c.objects|
  {
    Failing(s') < Failing(s) || (Failing(s') == Failing(s) && Rank(c, s') < Rank(c, s))
  }

  /** A productive step: no new failure, no seek or drop, and no read that finds nothing. */
  ghost predicate Productive(c: Config, s: State, a: Action) {
    && Enabled(c, s, a)
    && match a
       case Work(p, m) => !(m.Settle? && !m.ok)
       case Poll(r, limit) =>
         && 0 < limit && s.readers[r].position < |c.objects[r]|
         && (s.readers[r].pipe.None? || s.readers[r].current.Some? || !ArrivalAt(s, r).Nothing?)
       case Release(_) => true
       case _ => false
  }

  lemma {:induction false} Splits(a: seq<Piece>, b: seq<Piece>)
    ensures FetchRank(a + b) == FetchRank(a) + FetchRank(b) && Bytes(a + b) == Bytes(a) + Bytes(b)
    ensures Failures(a + b) == Failures(a) + Failures(b)
  {
    if a == [] {
      assert a + b == b;
    } else {
      assert (a + b)[1..] == a[1..] + b;
      Splits(a[1..], b);
    }
  }

  lemma {:induction false} DueSettled(ps: seq<Piece>, i: nat, f: Piece)
    requires i < |ps| && ps[i].status.Running? && 0 < ps[i].size && f == ps[i].(status := Done)
    ensures FetchRank(ps[i := f]) < FetchRank(ps) && Failures(ps[i := f]) == Failures(ps)
  {
    if i > 0 {
      assert ps[i := f][1..] == ps[1..][i - 1 := f];
      DueSettled(ps[1..], i - 1, f);
    }
  }

  lemma {:induction false} HeldIsDue(ps: seq<Piece>)
    ensures Held(ps) <= FetchRank(ps)
  {
    if ps != [] { HeldIsDue(ps[1..]); }
  }

  ghost predicate WorkDone(p: Pipe, e: Effect) {
    PipeRank(e.pipe) + e.aborted < PipeRank(p) && PipeFailures(e.pipe) <= PipeFailures(p)
  }

  lemma RequestCloser(c: Config, avail: nat, p: Pipe)
    requires c.Valid() && PipeOk(c, p) && (p.phase.Filling? || p.phase.Acquiring?)
    requires p.next < p.total && NextSize(c, p) <= avail
    ensures WorkDone(p, Request(c, p, avail))
  {
    var f := Piece(p.next, NextSize(c, p), Running);
    Splits(p.pending, [f]);
    assert FetchRank([f]) == 12 * f.size + FetchRank([]);
    assert Failures([f]) == 0;
  }

  lemma ExitCloser(p: Pipe, avail: nat)
    requires !p.phase.Exited?
    ensures WorkDone(p, Exit(p, avail))
  {
    HeldIsDue(p.pending);
  }

  lemma PushCloser(c: Config, avail: nat, p: Pipe)
    requires PipeOk(c, p) && WorkEnabled(c, avail, p, Push) && p.live
    ensures WorkDone(p, WorkStep(c, avail, p, Push))
  {
    var f := p.phase.piece;
    assert InHand(p.phase)[0] == f;
    Splits(p.queue, [f]);
    HeldIsDue(p.pending);
    assert Bytes([f]) == f.size;
  }

  lemma TakeHeadCloser(c: Config, avail: nat, p: Pipe)
    requires PipeOk(c, p) && WorkEnabled(c, avail, p, TakeHead)
    ensures WorkDone(p, WorkStep(c, avail, p, TakeHead))
  {
    var f := p.pending[0];
    assert Bytes([f]) == f.size;
    assert Failures([f]) == if f.status.Failed? then 1 else 0;
  }

  /** Every step of a producer other than a failing fetch makes its pipeline lighter. */
  lemma WorkCloser(c: Config, avail: nat, p: Pipe, m: PipeMove)
    requires c.Valid() && PipeOk(c, p) && WorkEnabled(c, avail, p, m) && !(m.Settle? && !m.ok)
    ensures WorkDone(p, WorkStep(c, avail, p, m))
  {
    match m
    case Reserve => RequestCloser(c, avail, p);
    case Admitted => RequestCloser(c, avail, p);
    case StartWaiting =>
    case StopFilling => if p.pending == [] { ExitCloser(p, avail); }
    case Settle(i, ok) => DueSettled(p.pending, i, p.pending[i].(status := Done));
    case TakeHead => TakeHeadCloser(c, avail, p);
    case Push => if p.live { PushCloser(c, avail, p); } else { ExitCloser(p, avail + p.phase.piece.Held()); }
    case Reap => ExitCloser(p, avail + Held(InHand(p.phase)));
  }

  lemma PipeSumsUpdate(ps: seq<Pipe>, i: nat, p: Pipe)
    requires i < |ps|
    ensures Sum(PipeRanks(ps[i := p])) == Sum(PipeRanks(ps)) - PipeRank(ps[i]) + PipeRank(p)
    ensures Sum(FailureCounts(ps[i := p])) == Sum(FailureCounts(ps)) - PipeFailures(ps[i]) + PipeFailures(p)
  {
    SumUpdate(PipeRanks(ps), i, PipeRank(p));
    assert PipeRanks(ps[i := p]) == PipeRanks(ps)[i := PipeRank(p)];
    SumUpdate(FailureCounts(ps), i, PipeFailures(p));
    assert FailureCounts(ps[i := p]) == FailureCounts(ps)[i := PipeFailures(p)];
  }

  lemma PipeSumsAppend(ps: seq<Pipe>, p: Pipe)
    ensures Sum(PipeRanks(ps + [p])) == Sum(PipeRanks(ps)) + PipeRank(p)
    ensures Sum(FailureCounts(ps + [p])) == Sum(FailureCounts(ps)) + PipeFailures(p)
  {
    SumAppend(PipeRanks(ps), PipeRank(p));
    assert PipeRanks(ps + [p]) == PipeRanks(ps) + [PipeRank(p)];
    SumAppend(FailureCounts(ps), PipeFailures(p));
    assert FailureCounts(ps + [p]) == FailureCounts(ps) + [PipeFailures(p)];
  }

  lemma ReaderRanksUpdate(c: Config, rs: seq<Reader>, r: nat, rd: Reader)
    requires |rs| == |c.objects| && r < |rs|
    ensures Sum(ReaderRanks(c, rs[r := rd])) == Sum(ReaderRanks(c, rs)) - ReaderRank(c, r, rs[r]) + ReaderRank(c, r, rd)
  {
    SumUpdate(ReaderRanks(c, rs), r, ReaderRank(c, r, rd));
    assert ReaderRanks(c, rs[r := rd]) == ReaderRanks(c, rs)[r := ReaderRank(c, r, rd)];
  }

  lemma WorkIsCloser(c: Config, s: State, i: nat, m: PipeMove)
    requires c.Valid() && Inv(c, s) && Productive(c, s, Work(i, m))
    ensures Closer(c, Apply(c, s, Work(i, m)), s)
  {
    assert PipeAt(c, s.pipes, s.readers, i);
    WorkCloser(c, s.avail, s.pipes[i], m);
    PipeSumsUpdate(s.pipes, i, WorkStep(c, s.avail, s.pipes[i], m).pipe);
  }

  /** A read that meets a failure removes it. */
  lemma FailureIsCloser(c: Config, s: State, r: nat, limit: nat)
    requires c.Valid() && Inv(c, s) && Enabled(c, s, Poll(r, limit)) && PollResult(c, s, r, limit).1.Failure?
    ensures Closer(c, Polled(c, s, r, limit), s)
  {
    ReadIsExact(c, s, r, limit);
    QueueFeeds(c, s.pipes, s.readers, r);
    var i := s.readers[r].pipe.value;
    var p := s.pipes[i];
    var p' := p.(queue := [], live := false);
    assert Failures(p.queue) > 0;
    PipeSumsUpdate(s.pipes, i, p');
    assert Polled(c, s, r, limit).pipes == s.pipes[i := p'];
  }

  lemma StartIsCloser(c: Config, s: State, r: nat, limit: nat)
    requires c.Valid() && Inv(c, s) && Productive(c, s, Poll(r, limit)) && s.readers[r].pipe.None?
    ensures Closer(c, Polled(c, s, r, limit), s)
  {
    assert ReaderAt(c, s.pipes, s.readers, r);
    var rd := s.readers[r];
    PipeSumsAppend(s.pipes, NewPipe(c, r, rd.position));
    ReaderRanksUpdate(c, s.readers, r, rd.(pipe := Some(|s.pipes|)));
  }

  lemma TakeIsCloser(c: Config, s: State, r: nat, limit: nat)
    requires c.Valid() && Inv(c, s) && Productive(c, s, Poll(r, limit)) && s.readers[r].pipe.Some?
    requires s.readers[r].current.None? && PollResult(c, s, r, limit).1.Got?
    ensures Closer(c, Polled(c, s, r, limit), s)
  {
    ReadIsExact(c, s, r, limit);
    var rd := s.readers[r];
    ReaderRanksUpdate(c, s.readers, r, PollResult(c, s, r, limit).0);
    QueueFeeds(c, s.pipes, s.readers, r);
    var p := s.pipes[rd.pipe.value];
    PipeSumsUpdate(s.pipes, rd.pipe.value, p.(queue := p.queue[1..]));
  }

  lemma CopyIsCloser(c: Config, s: State, r: nat, limit: nat)
    requires c.Valid() && Inv(c, s) && Productive(c, s, Poll(r, limit)) && s.readers[r].current.Some?
    ensures Closer(c, Polled(c, s, r, limit), s)
  {
    ReadIsExact(c, s, r, limit);
    assert ReaderAt(c, s.pipes, s.readers, r);
    ReaderRanksUpdate(c, s.readers, r, PollResult(c, s, r, limit).0);
  }

  /** Every productive step is a step closer. */
  lemma StepIsCloser(c: Config, s: State, a: Action)
    requires c.Valid() && Inv(c, s) && Productive(c, s, a)
    ensures |Apply(c, s, a).readers| == |s.readers| == |c.objects|
    ensures Closer(c, Apply(c, s, a), s)
  {
    match a
    case Work(i, m) => WorkIsCloser(c, s, i, m);
    case Release(n) =>
    case Poll(r, limit) =>
      ReadIsExact(c, s, r, limit);
      if s.readers[r].pipe.None? {
        StartIsCloser(c, s, r, limit);
      } else if PollResult(c, s, r, limit).1.Failure? {
        FailureIsCloser(c, s, r, limit);
      } else if s.readers[r].current.None? {
        TakeIsCloser(c, s, r, limit);
      } else {
        CopyIsCloser(c, s, r, limit);
      }
  }

  ghost predicate Unfinished(c: Config, s: State, r: nat) {
    r < |s.readers| && r < |c.objects| && r !in s.gone && s.readers[r].position < |c.objects[r]|
  }

  /** A pipeline with something in flight, or one that is being aborted, can always move. */
  lemma BusyPipeMoves(c: Config, avail: nat, p: Pipe) returns (m: PipeMove)
    requires c.Valid() && PipeOk(c, p) && !p.phase.Exited? && !p.phase.Acquiring? && p.queue == []
    ensures WorkEnabled(c, avail, p, m) && !(m.Settle? && !m.ok)
  {
    match p.phase
    case Sending(_) => m := Push;
    case Awaiting => m := if p.pending[0].status.Running? then Settle(0, true) else TakeHead;
    case Filling =>
      m := if !WantsMore(c, p) then StopFilling
           else if NextSize(c, p) <= avail then Reserve
           else if p.pending == [] then StartWaiting else StopFilling;
    case _ =>
  }

  /** A live reader with a chunk in hand or in its queue can read. */
  lemma FedReaderReads(c: Config, s: State, r: nat)
    requires Inv(c, s) && r < |s.readers| && s.readers[r].pipe.Some?
    requires s.readers[r].current.Some?
             || (s.readers[r].pipe.value < |s.pipes| && s.pipes[s.readers[r].pipe.value].queue != [])
    ensures Productive(c, s, Poll(r, 1))
  {
    ReadIsExact(c, s, r, 1);
    assert ReaderAt(c, s.pipes, s.readers, r);
    if s.readers[r].current.None? { QueueFeeds(c, s.pipes, s.readers, r); }
  }

  /** Whoever holds memory can give it up or move on: nothing holds a permit for ever. */
  lemma HolderMoves(c: Config, s: State, i: nat) returns (a: Action)
    requires c.Valid() && Inv(c, s) && i < |s.pipes| && PipeHeld(s.pipes[i]) > 0
    ensures Productive(c, s, a)
  {
    var p := s.pipes[i];
    assert PipeAt(c, s.pipes, s.readers, i);
    if !p.live {
      return Work(i, Reap);
    } else if p.queue != [] {
      FedReaderReads(c, s, p.owner);
      return Poll(p.owner, 1);
    } else {
      assert p.pending != [] || p.phase.Sending?;
      var m := BusyPipeMoves(c, s.avail, p);
      return Work(i, m);
    }
  }

  /** While a producer is short of memory, someone holds it, and can move. */
  lemma ShortageMoves(c: Config, s: State) returns (a: Action)
    requires c.Valid() && Inv(c, s) && s.avail < c.budget
    ensures Productive(c, s, a)
  {
    if s.dying > 0 {
      return Release(s.dying);
    } else if PipesHeld(s.pipes) > 0 {
      var i := SumPositive(PipeHolds(s.pipes));
      a := HolderMoves(c, s, i);
    } else {
      var r := SumPositive(ReaderHolds(s.readers));
      assert ReaderAt(c, s.pipes, s.readers, r);
      FedReaderReads(c, s, r);
      return Poll(r, 1);
    }
  }

  /** No reachable state is stuck: while some reader has bytes left, some productive step is enabled. */
  lemma NeverStuck(c: Config, s: State, r: nat) returns (a: Action)
    requires c.Valid() && Inv(c, s) && Unfinished(c, s, r)
    ensures Productive(c, s, a)
  {
    var rd := s.readers[r];
    ReadIsExact(c, s, r, 1);
    assert ReaderAt(c, s.pipes, s.readers, r);
    if rd.pipe.None? { return Poll(r, 1); }
    var i := rd.pipe.value;
    var p := s.pipes[i];
    assert PipeAt(c, s.pipes, s.readers, i);
    if rd.current.Some? || p.queue != [] {
      FedReaderReads(c, s, r);
      a := Poll(r, 1);
    } else if p.phase.Acquiring? {
      if NextSize(c, p) <= s.avail {
        a := Work(i, Admitted);
      } else {
        a := ShortageMoves(c, s);
      }
    } else {
      QueueFeeds(c, s.pipes, s.readers, r);
      var m := BusyPipeMoves(c, s.avail, p);
      a := Work(i, m);
    }
  }

  ghost predicate ProductiveRun(c: Config, ss: seq<State>, actions: seq<Action>) {
    && |ss| == |actions| + 1
    && forall i | 0 <= i < |actions| :: Productive(c, ss[i], actions[i]) && ss[i + 1] == Apply(c, ss[i], actions[i])
  }

  ghost predicate AllFinished(c: Config, s: State) { forall r | 0 <= r < |c.objects| :: !Unfinished(c, s, r) }

  /** Without new failures, seeks or drops, productive steps alone lead to a state where every reader has
      read its object to the end, whatever state they start from. */
  lemma {:induction false} EveryReaderFinishes(c: Config, s: State) returns (ss: seq<State>, actions: seq<Action>)
    requires c.Valid() && Inv(c, s)
    ensures ProductiveRun(c, ss, actions) && ss[0] == s
    ensures Inv(c, ss[|actions|]) && AllFinished(c, ss[|actions|])
    decreases Failing(s), Rank(c, s)
  {
    if AllFinished(c, s) { return [s], []; }
    var r :| 0 <= r < |c.objects| && Unfinished(c, s, r);
    var a := NeverStuck(c, s, r);
    StepKeepsInv(c, s, a);
    StepIsCloser(c, s, a);
    var ss', actions' := EveryReaderFinishes(c, Apply(c, s, a));
    RunFrom(c, s, a, ss', actions');
    ss, actions := [s] + ss', [a] + actions';
    assert ss[|actions|] == ss'[|actions'|];
  }

  lemma RunFrom(c: Config, s: State, a: Action, ss: seq<State>, actions: seq<Action>)
    requires Productive(c, s, a) && ProductiveRun(c, ss, actions) && ss[0] == Apply(c, s, a)
    ensures ProductiveRun(c, [s] + ss, [a] + actions)
  {
    var ss', actions' := [s] + ss, [a] + actions;
    forall i | 0 <= i < |actions'|
      ensures Productive(c, ss'[i], actions'[i]) && ss'[i + 1] == Apply(c, ss'[i], actions'[i])
    {
      if i > 0 { assert Productive(c, ss[i - 1], actions[i - 1]); }
    }
  }

  /** A productive step, or standing still when there is none. */
  ghost predicate ProductiveNext(c: Config, s: State, s': State) {
    || (exists a :: Productive(c, s, a) && s' == Apply(c, s, a))
    || (s' == s && forall a :: !Productive(c, s, a))
  }

  ghost predicate ProductiveAt(c: Config, f: nat -> State, i: nat) { ProductiveNext(c, f(i), f(i + 1)) }

  /** An endless schedule without new failures, seeks, drops or idle reads. */
  ghost predicate ProductiveSchedule(c: Config, f: nat -> State) { forall i: nat :: ProductiveAt(c, f, i) }

  /** Until every reader is done, such a schedule brings the pool closer. */
  lemma ScheduleComesCloser(c: Config, s: State, s': State)
    requires c.Valid() && Inv(c, s) && !AllFinished(c, s) && ProductiveNext(c, s, s')
    ensures Inv(c, s') && Closer(c, s', s)
  {
    var r :| 0 <= r < |c.objects| && Unfinished(c, s, r);
    var b := NeverStuck(c, s, r);
    var a :| Productive(c, s, a) && s' == Apply(c, s, a);
    StepKeepsInv(c, s, a);
    StepIsCloser(c, s, a);
  }

  /** Whoever moves and in whatever order, such a schedule has every reader at the end of its object after
      finitely many steps, whatever failures were pending when it began. */
  lemma {:induction false} EveryScheduleFinishes(c: Config, f: nat -> State, m: nat) returns (n: nat)
    requires c.Valid() && Inv(c, f(m)) && ProductiveSchedule(c, f)
    ensures m <= n && Inv(c, f(n)) && AllFinished(c, f(n))
    decreases Failing(f(m)), Rank(c, f(m))
  {
    if AllFinished(c, f(m)) { return m; }
    assert ProductiveAt(c, f, m);
    ScheduleComesCloser(c, f(m), f(m + 1));
    n := EveryScheduleFinishes(c, f, m + 1);
  }

  /** When no failure is pending, the length of a productive run is bounded by the rank it starts with. */
  lemma {:induction false} ProductiveRunsAreBounded(c: Config, ss: seq<State>, actions: seq<Action>)
    requires c.Valid() && ProductiveRun(c, ss, actions) && Inv(c, ss[0]) && Failing(ss[0]) == 0
    ensures |actions| <= Rank(c, ss[0])
    decreases |actions|
  {
    if actions != [] {
      StepKeepsInv(c, ss[0], actions[0]);
      StepIsCloser(c, ss[0], actions[0]);
      ProductiveRunsAreBounded(c, ss[1..], actions[1..]);
    }
  }
}
