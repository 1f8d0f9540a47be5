/** The steal handshake cannot deadlock: every request is answered after a bounded number of its
    victim's own steps, and there is always a step to take. */
module FleetProgress {
  import opened Slots
  import opened Worker
  import opened Fleet
  import opened FleetInvariant
  import opened FleetSafety

  /** An upper bound on the own steps a worker takes before it turns to its inbox. */
  function Rank(n: nat, phase: Phase): nat {
    match phase
    case PassStart => 0
    case Fetched(_, _) => 0
    case Draining => 0
    case Unstarted => 1
    case Backoff => 1
    case Finished => 1
    case Streaming(_) => 2
    case Processing(_, _) => 3
    case Opening(e, last, _) => 3 + SatSub(last + 1, e)
    case Adopting(_, _, stored) => 1 + SatSub(3, stored)
    case Hunting(candidates, wait) => (if wait.Idle? then 6 else 7) + 2 * |candidates|
    case Scanning => 8 + 2 * n
    case Retired => 0
    case Stopped => 0
  }

  lemma {:induction false} DistinctBelow(xs: seq<nat>, n: nat)
    requires forall i | 0 <= i < |xs| :: xs[i] < n
    requires forall i, j | 0 <= i < j < |xs| :: xs[i] != xs[j]
    ensures |xs| <= n
  {
    if |xs| > n {
      assert xs[0] < n;
      if i :| 0 <= i < |xs| && xs[i] == n - 1 {
        DistinctBelow(xs[..i] + xs[i + 1..], n - 1);
      } else {
        DistinctBelow(xs, n - 1);
      }
    }
  }

  /** The next thing a worker does about its inbox: leave, answer the first request without falling
      behind, or come closer to answering. */
  ghost predicate ComesCloser(n: nat, th: Thread, th': Thread)
    requires th.inbox != []
  {
    || IsExited(th'.phase)
    || (th'.inbox == th.inbox[1..] && Rank(n, th'.phase) <= Rank(n, th.phase))
    || (th'.inbox == th.inbox && Rank(n, th'.phase) < Rank(n, th.phase))
  }

  lemma LocalComesCloser(c: Config, th: Thread, m: Move)
    requires MoveEnabled(c.present, th, m) && th.inbox != []
    ensures ComesCloser(c.threads, th, MoveStep(c.present, th, m))
  {
  }

  lemma ScanComesCloser(c: Config, s: State, t: nat, candidates: seq<nat>)
    requires |s.threads| == c.threads && Enabled(c, s, Scan(t, candidates)) && s.threads[t].inbox != []
    ensures ComesCloser(c.threads, s.threads[t], Apply(c, s, Scan(t, candidates)).threads[t])
  {
    DistinctBelow(candidates, c.threads);
  }

  lemma AnswerComesCloser(c: Config, s: State, a: Action)
    requires Enabled(c, s, a) && (a.Serve? || a.Refuse?)
    ensures ComesCloser(c.threads, s.threads[a.t], Apply(c, s, a).threads[a.t])
  {
  }

  lemma WorkComesCloser(c: Config, s: State, a: Action)
    requires Enabled(c, s, a) && (a.Count? || a.Journal? || a.StoreLedger?) && s.threads[a.t].inbox != []
    ensures ComesCloser(c.threads, s.threads[a.t], Apply(c, s, a).threads[a.t])
  {
  }

  lemma HuntComesCloser(c: Config, s: State, a: Action)
    requires Enabled(c, s, a) && IsHunterStep(a) && !a.Scan? && s.threads[a.t].inbox != []
    ensures ComesCloser(c.threads, s.threads[a.t], Apply(c, s, a).threads[a.t])
  {
  }

  /** A request at position `k` of its victim's inbox is answered within `k + Rank` own steps. */
  lemma OwnStepsAnswerInbox(c: Config, s: State, a: Action)
    requires WaitOk(s.threads) && |s.threads| == c.threads
    requires Enabled(c, s, a) && !a.RaiseShutdown? && s.threads[a.t].inbox != []
    ensures ComesCloser(c.threads, s.threads[a.t], Apply(c, s, a).threads[a.t])
  {
    match a {
      case Local(t, m) => LocalComesCloser(c, s.threads[t], m);
      case Scan(t, candidates) => ScanComesCloser(c, s, t, candidates);
      case Ask(t) => assert WaitOkAt(s.threads, t) && Started(s.threads, t, s.threads[t].phase.candidates[0]);
      case _ =>
        if a.Serve? || a.Refuse? {
          AnswerComesCloser(c, s, a);
        } else if IsHunterStep(a) {
          HuntComesCloser(c, s, a);
        } else {
          WorkComesCloser(c, s, a);
        }
    }
  }

  /** `th'` is `th` with at most requests added to its inbox and an answer put on its channel. */
  ghost predicate Undisturbed(n: nat, th: Thread, th': Thread) {
    && th.inbox <= th'.inbox && Rank(n, th'.phase) == Rank(n, th.phase)
    && IsExited(th'.phase) == IsExited(th.phase)
  }

  lemma DeliverUndisturbed(c: Config, s: State, r: Request, reply: Reply, v: nat)
    requires v < |s.threads|
    ensures Undisturbed(c.threads, s.threads[v], Deliver(s, r, reply).threads[v])
  {
  }

  lemma ServeUndisturbed(c: Config, s: State, t: nat, v: nat)
    requires t < |s.threads| && s.threads[t].inbox != [] && v < |s.threads| && v != t
    ensures |ServeOne(s, t).threads| == |s.threads|
    ensures Undisturbed(c.threads, s.threads[v], ServeOne(s, t).threads[v])
  {
    var th := s.threads[t];
    var mid := SplitPoint(Position(th), th.end, IsHeld(th.phase));
    if mid.Some? {
      DeliverUndisturbed(c, SetThread(s, t, ServeStep(th, mid)), th.inbox[0],
                         Granted(|s.pieces|, Range(mid.value, th.end)), v);
    }
    DeliverUndisturbed(c, SetThread(s, t, ServeStep(th, None)), th.inbox[0], Refused, v);
  }

  /** The others can only add to the end of a worker's inbox; they never set it back. */
  lemma OthersDoNotDisturb(c: Config, s: State, a: Action, v: nat)
    requires Enabled(c, s, a) && v < |s.threads| && (a.RaiseShutdown? || a.t != v)
    ensures Undisturbed(c.threads, s.threads[v], Apply(c, s, a).threads[v])
  {
    match a {
      case Serve(t) => ServeUndisturbed(c, s, t, v);
      case Refuse(t) =>
        DeliverUndisturbed(c, SetThread(s, t, s.threads[t].(inbox := s.threads[t].inbox[1..])),
                           s.threads[t].inbox[0], Refused, v);
      case _ =>
    }
  }

  /** `ss` are the states along the actions `acts`. */
  ghost predicate Path(c: Config, ss: seq<State>, acts: seq<Action>) {
    && |ss| == |acts| + 1 && (forall i | 0 <= i < |ss| :: |ss[i].threads| == c.threads)
    && forall i | 0 <= i < |acts| :: Enabled(c, ss[i], acts[i]) && ss[i + 1] == Apply(c, ss[i], acts[i])
  }

  predicate IsOwn(a: Action, v: nat) { !a.RaiseShutdown? && a.t == v }

  /** One step as worker `v` sees it: its own, or someone else's. */
  ghost predicate Advances(n: nat, th: Thread, th': Thread, own: bool) {
    if own then th.inbox != [] ==> ComesCloser(n, th, th') else Undisturbed(n, th, th')
  }

  /** What worker `v` goes through along a path, and which of the steps are its own. */
  ghost function History(ss: seq<State>, v: nat): (ths: seq<Thread>)
    requires forall i | 0 <= i < |ss| :: v < |ss[i].threads|
    ensures |ths| == |ss| && forall i | 0 <= i < |ss| :: ths[i] == ss[i].threads[v]
  {
    seq(|ss|, i requires 0 <= i < |ss| && v < |ss[i].threads| => ss[i].threads[v])
  }

  ghost function Owned(acts: seq<Action>, v: nat): (own: seq<bool>)
    ensures |own| == |acts| && forall i | 0 <= i < |acts| :: own[i] == IsOwn(acts[i], v)
  {
    seq(|acts|, i requires 0 <= i < |acts| => IsOwn(acts[i], v))
  }

  ghost predicate Advancing(n: nat, ths: seq<Thread>, own: seq<bool>) {
    && |ths| == |own| + 1
    && forall i | 0 <= i < |own| :: Advances(n, ths[i], ths[i + 1], own[i])
  }

  lemma {:induction false} PathKeepsWait(c: Config, ss: seq<State>, acts: seq<Action>, i: nat)
    requires Path(c, ss, acts) && WaitOk(ss[0].threads) && i < |ss|
    ensures WaitOk(ss[i].threads)
  {
    if i > 0 {
      PathKeepsWait(c, ss, acts, i - 1);
      StepKeepsWait(c, ss[i - 1], acts[i - 1]);
    }
  }

  lemma StepAdvances(c: Config, s: State, a: Action, v: nat)
    requires WaitOk(s.threads) && |s.threads| == c.threads && Enabled(c, s, a) && v < |s.threads|
    ensures Advances(c.threads, s.threads[v], Apply(c, s, a).threads[v], IsOwn(a, v))
  {
    if !IsOwn(a, v) {
      OthersDoNotDisturb(c, s, a, v);
    } else if s.threads[v].inbox != [] {
      OwnStepsAnswerInbox(c, s, a);
    }
  }

  lemma PathAdvances(c: Config, ss: seq<State>, acts: seq<Action>, v: nat)
    requires Path(c, ss, acts) && WaitOk(ss[0].threads) && v < c.threads
    ensures Advancing(c.threads, History(ss, v), Owned(acts, v))
  {
    var ths, own := History(ss, v), Owned(acts, v);
    forall i | 0 <= i < |own| ensures Advances(c.threads, ths[i], ths[i + 1], own[i]) {
      PathKeepsWait(c, ss, acts, i);
      StepAdvances(c, ss[i], acts[i], v);
    }
  }

  function OwnSteps(own: seq<bool>): nat {
    if own == [] then 0 else (if own[0] then 1 else 0) + OwnSteps(own[1..])
  }

  /** Somewhere along its history the worker answers the request at position `k` of its inbox, or leaves. An
      own step that changes the inbox answers its first request. */
  ghost predicate Answers(ths: seq<Thread>, own: seq<bool>, k: nat)
    requires |ths| == |own| + 1
    decreases |own|
  {
    && own != []
    && (|| IsExited(ths[1].phase)
        || if !own[0] || ths[1].inbox == ths[0].inbox then Answers(ths[1..], own[1..], k)
           else k == 0 || Answers(ths[1..], own[1..], k - 1))
  }

  lemma {:induction false} AnswersInTime(n: nat, ths: seq<Thread>, own: seq<bool>, k: nat)
    requires Advancing(n, ths, own) && k < |ths[0].inbox| && OwnSteps(own) > k + Rank(n, ths[0].phase)
    ensures Answers(ths, own, k)
    decreases |own|
  {
    assert Advances(n, ths[0], ths[1], own[0]);
    if !IsExited(ths[1].phase) {
      if !own[0] || ths[1].inbox == ths[0].inbox {
        AnswersInTime(n, ths[1..], own[1..], k);
      } else if k > 0 {
        AnswersInTime(n, ths[1..], own[1..], k - 1);
      }
    }
  }

  /** Whatever the others do meanwhile, a request is answered once its victim has taken
      `k + Rank + 1` steps. */
  lemma RequestsAreAnsweredInTime(c: Config, ss: seq<State>, acts: seq<Action>, v: nat, k: nat)
    requires Path(c, ss, acts) && WaitOk(ss[0].threads) && v < c.threads && k < |ss[0].threads[v].inbox|
    requires OwnSteps(Owned(acts, v)) > k + Rank(c.threads, ss[0].threads[v].phase)
    ensures Answers(History(ss, v), Owned(acts, v), k)
  {
    PathAdvances(c, ss, acts, v);
    AnswersInTime(c.threads, History(ss, v), Owned(acts, v), k);
  }

  function EligibleBelow(s: State, t: nat, n: nat): (vs: seq<nat>)
    ensures forall v: nat :: v in vs <==> v < n && Eligible(s, t, v)
    ensures forall i | 0 <= i < |vs| :: Eligible(s, t, vs[i])
    ensures forall i, j | 0 <= i < j < |vs| :: vs[i] != vs[j]
  {
    if n == 0 then []
    else if Eligible(s, t, n - 1) then EligibleBelow(s, t, n - 1) + [n - 1]
    else EligibleBelow(s, t, n - 1)
  }

  /** A step of worker `t` on its own account (giving up a request and shutting down do not count). */
  ghost predicate CanStep(c: Config, s: State, t: nat) {
    exists a :: Enabled(c, s, a) && !a.RaiseShutdown? && !a.Abandon? && a.t == t
  }

  /** The next local step of a worker that works on its range: it answers its inbox first, and reads on while
      the archive has more. */
  function NextMove(present: set<nat>, th: Thread): Option<Move> {
    match th.phase
    case Unstarted => Some(Spawn)
    case PassStart => if th.inbox == [] then Some(BeginPass) else None
    case Opening(e, last, _) =>
      Some(if e > last then FinishPass else if LocalStart(th, e) > LocalEnd(th, e) then SkipEpoch else OpenEpoch)
    case Streaming(p) =>
      Some(if NextPresent(present, p.cursor, EpochEnd(p.epoch)).Some? then ReadBlock else ReadEnd)
    case Fetched(_, _) => if th.inbox == [] then Some(Decide(false)) else None
    case Backoff => Some(Restart)
    case _ => None
  }

  /** What worker `t` can do next without help and without failing. */
  function NextAction(c: Config, s: State, t: nat): Action
    requires t < |s.threads|
  {
    var th := s.threads[t];
    if NextMove(c.present, th).Some? then Local(t, NextMove(c.present, th).value)
    else match th.phase
      case PassStart => Serve(t)
      case Fetched(_, _) => Serve(t)
      case Processing(_, _) => Count(t)
      case Finished => Journal(t)
      case Draining => if th.inbox == [] then DrainDone(t) else Serve(t)
      case Scanning => Scan(t, EligibleBelow(s, t, |s.threads|))
      case Hunting(candidates, wait) =>
        if wait.Waiting? then (if wait.reply.NoReply? then Refuse(t) else TakeReply(t))
        else if candidates == [] then Retire(t) else Ask(t)
      case Adopting(_, _, _) => StoreLedger(t)
      case _ => RaiseShutdown
  }

  /** A step that brings the fleet closer to its end: what a worker does next, or giving up on a victim that
      has left. */
  ghost predicate Chosen(c: Config, s: State, a: Action) {
    && Enabled(c, s, a) && !a.RaiseShutdown?
    && (a.VictimGone? || (a.t < |s.threads| && !IsExited(s.threads[a.t].phase) && a == NextAction(c, s, a.t)))
  }

  /** A worker that has not left can step, unless it waits for an answer with nothing to answer itself. */
  lemma WorkerCanStep(c: Config, s: State, t: nat)
    requires WaitOk(s.threads) && t < |s.threads| && !IsExited(s.threads[t].phase)
    requires IsWaiting(s.threads[t]) && s.threads[t].phase.wait.reply.NoReply? ==> s.threads[t].inbox != []
    ensures CanStep(c, s, t) && Chosen(c, s, NextAction(c, s, t))
  {
    var a := NextAction(c, s, t);
    assert WaitOkAt(s.threads, t);
    if a.Ask? { assert Started(s.threads, t, s.threads[t].phase.candidates[0]); }
    assert Chosen(c, s, a);
  }

  /** In every reachable state, a thief that waits without an answer can see that its victim is gone,
      or its request lies in the inbox of a victim that can step. */
  lemma WaitingThiefIsServed(c: Config, run: seq<State>, t: nat)
    requires IsRun(c, run) && t < |run[|run| - 1].threads| && IsWaiting(run[|run| - 1].threads[t])
    requires run[|run| - 1].threads[t].phase.wait.reply.NoReply?
    ensures var s := run[|run| - 1]; var v := s.threads[t].phase.wait.victim;
      || Enabled(c, s, VictimGone(t))
      || (v < |s.threads| && Request(t, s.threads[t].ticket) in s.threads[v].inbox && CanStep(c, s, v))
  {
    RunKeepsInv(c, run);
    var s := run[|run| - 1];
    assert WaitOkAt(s.threads, t);
    var v := s.threads[t].phase.wait.victim;
    if !IsExited(s.threads[v].phase) { WorkerCanStep(c, s, v); }
  }

  /** No reachable state with a worker still in it is stuck, cycles of waiting thieves included. */
  lemma NoDeadlock(c: Config, run: seq<State>, t: nat)
    requires IsRun(c, run) && t < |run[|run| - 1].threads| && !IsExited(run[|run| - 1].threads[t].phase)
    ensures var s := run[|run| - 1]; exists v :: CanStep(c, s, v)
  {
    RunKeepsInv(c, run);
    var s := run[|run| - 1];
    if IsWaiting(s.threads[t]) && s.threads[t].phase.wait.reply.NoReply? && s.threads[t].inbox == [] {
      WaitingThiefIsServed(c, run, t);
      if Enabled(c, s, VictimGone(t)) { assert CanStep(c, s, t); }
    } else {
      WorkerCanStep(c, s, t);
    }
  }
}
