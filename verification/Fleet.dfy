/** The forward threaded run: every worker, the steal inboxes and the grants in flight, as one state
    machine. Which worker moves, which fetches fail, where streams break off, in which order victims
    are tried and when a thief gives up waiting are all left open. */
module Fleet {
  import opened Slots
  import opened Subranges
  import opened Worker

  /** The requested range, the number of workers, and the archive: the set of present slots. */
  datatype Config = Config(lo: nat, hi: nat, threads: nat, present: set<nat>) {
    predicate Valid() { lo <= hi && 1 <= hi && threads > 0 }
  }

  /** Who answers for an assignment. */
  datatype Holder = Held(t: nat) | Sent(to: nat) | Done
  datatype Piece = Piece(range: Range, holder: Holder)

  /** Worker `t` committed `slot` to its counted cursor. */
  datatype Event = Event(t: nat, slot: nat)

  /** `pieces` lists every assignment ever made, in the order they were made: the first
      `threads` are the initial sub-ranges, each later one is a grant. `log` is the history of
      counted slots. */
  datatype State = State(
    threads: seq<Thread>,
    pieces: seq<Piece>,
    log: seq<Event>,
    journal: seq<Range>,
    shutdown: bool)

  function InitThread(id: nat, r: Range): Thread {
    Thread(Unstarted, r.lo, r.hi, SatPred(r.lo), id, Ledger(r.lo, r.lo, r.hi), [], 0)
  }

  function Init(c: Config): State
    requires c.Valid()
  {
    var subranges := GenerateSubranges(c.lo, c.hi, c.threads);
    State(seq(c.threads, i requires 0 <= i < c.threads => InitThread(i, subranges[i])),
          seq(c.threads, i requires 0 <= i < c.threads => Piece(subranges[i], Held(i))),
          [], [], false)
  }

  datatype Action =
    | Local(t: nat, m: Move)          // a step of Worker
    | Serve(t: nat)                   // answer the first request of the inbox
    | Count(t: nat)                   // commit the block in hand
    | Journal(t: nat)                 // the range is complete: journal it, publish "nothing left"
    | DrainDone(t: nat)
    | Scan(t: nat, candidates: seq<nat>)
    | Ask(t: nat)                     // propose to the next candidate
    | Refuse(t: nat)                  // while waiting, turn down a proposal of one's own inbox
    | TakeReply(t: nat)
    | VictimGone(t: nat)              // the victim's inbox was dropped with our request in it
    | Abandon(t: nat)                 // drop the reply channel before an answer came
    | StoreLedger(t: nat)             // write the next ledger field of an adopted grant
    | Retire(t: nat)
    | RaiseShutdown

  /** The thief still holds the receiving end of the request's reply channel, and it is empty. */
  predicate Live(s: State, r: Request) {
    && r.thief < |s.threads|
    && s.threads[r.thief].phase.Hunting?
    && s.threads[r.thief].phase.wait.Waiting?
    && s.threads[r.thief].phase.wait.reply.NoReply?
    && s.threads[r.thief].ticket == r.ticket
  }

  /** The victims `t` may end up with. Their ledgers are loaded field by field while the others go on, so all
      that is known of one is that it had been started. */
  predicate Candidate(s: State, t: nat, v: nat) { v < |s.threads| && v != t && !s.threads[v].phase.Unstarted? }

  /** The victims `t` ranks when nobody stores meanwhile: not retired either, and with enough left to split. */
  predicate Eligible(s: State, t: nat, v: nat) {
    && Candidate(s, t, v) && !s.threads[v].phase.Retired?
    && SatSub(s.threads[v].ledger.end, s.threads[v].ledger.next) >= MIN_STEAL_SLOTS
  }

  predicate IsWaiting(th: Thread) { th.phase.Hunting? && th.phase.wait.Waiting? }

  ghost predicate Enabled(c: Config, s: State, a: Action) {
    match a
    case RaiseShutdown => true
    case Local(t, m) =>
      && t < |s.threads| && MoveEnabled(c.present, s.threads[t], m)
      && (m.StopNow? ==> s.shutdown || s.threads[t].phase.Fetched? || s.threads[t].phase.Processing?)
    case Serve(t) => t < |s.threads| && Serves(s.threads[t].phase) && s.threads[t].inbox != []
    case Count(t) => t < |s.threads| && s.threads[t].phase.Processing?
    case Journal(t) => t < |s.threads| && s.threads[t].phase.Finished?
    case DrainDone(t) => t < |s.threads| && s.threads[t].phase.Draining? && s.threads[t].inbox == []
    case Scan(t, candidates) =>
      && t < |s.threads| && s.threads[t].phase.Scanning?
      && (forall i | 0 <= i < |candidates| :: Candidate(s, t, candidates[i]))
      && (forall i, j | 0 <= i < j < |candidates| :: candidates[i] != candidates[j])
    case Ask(t) =>
      && t < |s.threads| && s.threads[t].phase.Hunting? && s.threads[t].phase.wait.Idle?
      && s.threads[t].phase.candidates != [] && s.threads[t].phase.candidates[0] < |s.threads|
    case Refuse(t) => t < |s.threads| && IsWaiting(s.threads[t]) && s.threads[t].inbox != []
    case TakeReply(t) =>
      t < |s.threads| && IsWaiting(s.threads[t]) && !s.threads[t].phase.wait.reply.NoReply?
    case VictimGone(t) =>
      && t < |s.threads| && IsWaiting(s.threads[t]) && s.threads[t].phase.wait.reply.NoReply?
      && s.threads[t].phase.wait.victim < |s.threads|
      && IsExited(s.threads[s.threads[t].phase.wait.victim].phase)
    case Abandon(t) =>
      t < |s.threads| && IsWaiting(s.threads[t]) && s.threads[t].phase.wait.reply.NoReply?
    case StoreLedger(t) => t < |s.threads| && s.threads[t].phase.Adopting?
    case Retire(t) =>
      && t < |s.threads| && s.threads[t].phase.Hunting? && s.threads[t].phase.wait.Idle?
      && s.threads[t].phase.candidates == []
  }

  function SetThread(s: State, t: nat, th: Thread): State
    requires t < |s.threads|
  {
    s.(threads := s.threads[t := th])
  }

  function WithReply(thief: Thread, reply: Reply): Thread
    requires IsWaiting(thief)
  {
    thief.(phase := thief.phase.(wait := thief.phase.wait.(reply := reply)))
  }

  /** Put `reply` on the request's channel; a dropped channel swallows it. */
  function Deliver(s: State, r: Request, reply: Reply): State {
    if !Live(s, r) then s else SetThread(s, r.thief, WithReply(s.threads[r.thief], reply))
  }

  /** Assignment `id` keeps the slots below `mid`; the rest becomes a new assignment, sent to `to`. */
  function SplitPieces(ps: seq<Piece>, id: nat, mid: nat, to: nat): seq<Piece>
    requires id < |ps|
  {
    ps[id := ps[id].(range := Range(ps[id].range.lo, mid))] + [Piece(Range(mid, ps[id].range.hi), Sent(to))]
  }

  /** Answer the first request. The grant is committed only if its reply is delivered. */
  function ServeOne(s: State, t: nat): State
    requires t < |s.threads| && s.threads[t].inbox != []
  {
    var th := s.threads[t];
    var r := th.inbox[0];
    var mid := SplitPoint(Position(th), th.end, IsHeld(th.phase));
    if mid.Some? && Live(s, r) && th.id < |s.pieces| then
      Deliver(SetThread(s, t, ServeStep(th, mid)), r, Granted(|s.pieces|, Range(mid.value, th.end))).(
        pieces := SplitPieces(s.pieces, th.id, mid.value, r.thief))
    else Deliver(SetThread(s, t, ServeStep(th, None)), r, Refused)
  }

  /** The worker has run through its range and publishes "nothing left". */
  function Emptied(th: Thread): Thread { th.(phase := Draining, ledger := th.ledger.(next := th.end)) }

  /** The range is complete: its counted part is journaled and its assignment is done. */
  function JournalOne(s: State, t: nat): State
    requires t < |s.threads|
  {
    var th := s.threads[t];
    SetThread(s, t, Emptied(th)).(
      journal := s.journal + [Range(th.ledger.start, th.lastCounted + 1)],
      pieces := if th.id < |s.pieces| then s.pieces[th.id := s.pieces[th.id].(holder := Done)] else s.pieces)
  }

  /** The worker with the granted range as its own. */
  function Adopted(th: Thread, r: Range, id: nat): Thread {
    th.(ledger := Ledger(r.lo, r.lo, r.hi), start := r.lo, end := r.hi, lastCounted := SatPred(r.lo), id := id,
        phase := PassStart)
  }

  function Adopt(s: State, t: nat): State
    requires t < |s.threads| && s.threads[t].phase.Adopting?
  {
    var th := s.threads[t];
    var Adopting(id, range, stored) := th.phase;
    if stored == 0 then
      SetThread(s, t, th.(ledger := th.ledger.(start := range.lo), phase := Adopting(id, range, 1)))
    else if stored == 1 then
      SetThread(s, t, th.(ledger := th.ledger.(next := range.lo), phase := Adopting(id, range, 2)))
    else
      var s1 := SetThread(s, t, Adopted(th, range, id));
      if id < |s.pieces| then s1.(pieces := s.pieces[id := s.pieces[id].(holder := Held(t))]) else s1
  }

  function Enqueue(s: State, v: nat, r: Request): State
    requires v < |s.threads|
  {
    SetThread(s, v, s.threads[v].(inbox := s.threads[v].inbox + [r]))
  }

  /** The thief's half of a request: it opens a fresh reply channel and turns to waiting. */
  function Asking(th: Thread, v: nat, rest: seq<nat>): Thread {
    th.(ticket := th.ticket + 1, phase := Hunting(rest, Waiting(v, NoReply)))
  }

  /** `t` puts its request into `v`'s inbox. */
  function AskSend(s: State, t: nat, v: nat, rest: seq<nat>): State
    requires t < |s.threads| && v < |s.threads|
  {
    Enqueue(SetThread(s, t, Asking(s.threads[t], v, rest)), v, Request(t, s.threads[t].ticket + 1))
  }

  function AskNext(s: State, t: nat): State
    requires t < |s.threads| && s.threads[t].phase.Hunting? && s.threads[t].phase.candidates != []
    requires s.threads[t].phase.candidates[0] < |s.threads|
  {
    var v := s.threads[t].phase.candidates[0];
    var rest := s.threads[t].phase.candidates[1..];
    if IsExited(s.threads[v].phase) then SetThread(s, t, s.threads[t].(phase := Hunting(rest, Idle)))
    else AskSend(s, t, v, rest)
  }

  function Apply(c: Config, s: State, a: Action): (s': State)
    requires Enabled(c, s, a)
    ensures |s'.threads| == |s.threads|
  {
    match a
    case RaiseShutdown => s.(shutdown := true)
    case Local(t, m) => SetThread(s, t, MoveStep(c.present, s.threads[t], m))
    case Serve(t) => ServeOne(s, t)
    case Count(t) =>
      var th := s.threads[t];
      SetThread(s, t, CountStep(th)).(
        log := if th.phase.slot <= th.lastCounted then s.log else s.log + [Event(t, th.phase.slot)])
    case Journal(t) => JournalOne(s, t)
    case DrainDone(t) => SetThread(s, t, s.threads[t].(phase := Scanning))
    case Scan(t, candidates) => SetThread(s, t, s.threads[t].(phase := Hunting(candidates, Idle)))
    case Ask(t) => AskNext(s, t)
    case Refuse(t) =>
      var th := s.threads[t];
      Deliver(SetThread(s, t, th.(inbox := th.inbox[1..])), th.inbox[0], Refused)
    case TakeReply(t) =>
      var th := s.threads[t];
      SetThread(s, t, th.(phase :=
        if th.phase.wait.reply.Granted? then Adopting(th.phase.wait.reply.id, th.phase.wait.reply.range, 0)
        else Hunting(th.phase.candidates, Idle)))
    case VictimGone(t) => SetThread(s, t, s.threads[t].(phase := Hunting(s.threads[t].phase.candidates, Idle)))
    case Abandon(t) => SetThread(s, t, s.threads[t].(phase := Hunting(s.threads[t].phase.candidates, Idle)))
    case StoreLedger(t) => Adopt(s, t)
    case Retire(t) => SetThread(s, t, s.threads[t].(phase := Retired, inbox := []))
  }

  ghost predicate Next(c: Config, s: State, s': State) {
    exists a :: Enabled(c, s, a) && s' == Apply(c, s, a)
  }

  /** A finite run from the initial state; every prefix of it is one too. */
  ghost predicate IsRun(c: Config, run: seq<State>) {
    && c.Valid() && |run| > 0 && run[0] == Init(c)
    && forall i | 0 <= i < |run| - 1 :: Next(c, run[i], run[i + 1])
  }
}
