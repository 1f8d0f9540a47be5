/** The prefetch pool: every reader's pipeline and the memory permits they share, as a state machine. */
module Pool {
  import opened Slots
  import opened Octets
  import opened RangeReader

  /** `objects[r]` is what reader `r` reads. */
  datatype Config = Config(concurrency: nat, chunk: nat, budget: nat, objects: seq<seq<Byte>>) {
    predicate Valid() { 1 <= concurrency && 1 <= chunk <= budget }
  }

  const MAX_PERMITS: nat := U64_LIMIT / 8 - 1

  /** The settings accepted at start-up. */
  function Settings(concurrency: nat, chunk: nat, budget: nat, objects: seq<seq<Byte>>): (r: Option<Config>)
    ensures r.Some? ==> r.value.Valid() && r.value.chunk <= U32_MAX && r.value.budget <= MAX_PERMITS
    ensures r.None? <==> !(1 <= concurrency <= 1024 && 1 <= chunk <= U32_MAX && chunk <= budget <= MAX_PERMITS)
  {
    if concurrency == 0 || concurrency > 1024 || chunk == 0 || chunk > U32_MAX || budget < chunk || budget > MAX_PERMITS
    then None else Some(Config(concurrency, chunk, budget, objects))
  }

  /** Where a producer stands: filling its window, waiting for memory, waiting for the oldest fetch,
      handing a result over, or gone. */
  datatype Phase = Filling | Acquiring | Awaiting | Sending(piece: Piece) | Exited

  /** A pipeline: its producer, the fetches it has in flight, and the channel's queue. Once its reader
      cancels it, `live` is false: the receiver is gone and the producer is being aborted. */
  datatype Pipe = Pipe(owner: nat, total: nat, next: nat, pending: seq<Piece>, phase: Phase, queue: seq<Piece>,
                       live: bool)

  /** `dying` counts permits held by aborted fetches that have not been dropped yet; `heard[r]` is
      everything reader `r` has been given since it last moved, and `since[r]` where that began. Readers in
      `gone` have been dropped. */
  datatype State = State(avail: nat, dying: nat, pipes: seq<Pipe>, readers: seq<Reader>,
                         since: seq<nat>, heard: seq<seq<Byte>>, gone: set<nat>)

  function Repeat<T>(x: T, n: nat): (r: seq<T>)
    ensures |r| == n && forall i | 0 <= i < n :: r[i] == x
  {
    if n == 0 then [] else [x] + Repeat(x, n - 1)
  }

  function Init(c: Config): State {
    var n := |c.objects|;
    State(c.budget, 0, [], Repeat(Reader(0, None, None, 0), n), Repeat(0, n), Repeat([], n), {})
  }

  datatype PipeMove =
    | Reserve                     // a permit for the next chunk is free: request it
    | StartWaiting                // no permit and nothing pending: wait for memory
    | Admitted                    // the wait for memory ends
    | StopFilling                 // the window is full, the object is exhausted, or memory is short
    | Settle(i: nat, ok: bool)    // a fetch finishes
    | TakeHead                    // the oldest fetch has finished
    | Push                        // the channel has room, or is closed
    | Reap                        // an abort takes effect

  datatype Action =
    | Work(p: nat, move: PipeMove)
    | Poll(r: nat, limit: nat)
    | Seek(r: nat, target: nat)
    | Drop(r: nat)
    | Release(n: nat)

  /** Permits held by a list of pieces. */
  function Held(ps: seq<Piece>): nat {
    if ps == [] then 0 else ps[0].Held() + Held(ps[1..])
  }

  function InHand(phase: Phase): seq<Piece> { if phase.Sending? then [phase.piece] else [] }

  function PipeHeld(p: Pipe): nat { Held(p.queue) + Held(InHand(p.phase)) + Held(p.pending) }

  function ReaderHeld(rd: Reader): nat { if rd.current.Some? then rd.current.value.Held() else 0 }

  function NextSize(c: Config, p: Pipe): nat { Min(SatSub(p.total, p.next), c.chunk) }

  predicate WantsMore(c: Config, p: Pipe) { p.next < p.total && |p.pending| < c.concurrency }

  predicate WorkEnabled(c: Config, avail: nat, p: Pipe, m: PipeMove) {
    match m
    case Reserve => p.phase.Filling? && WantsMore(c, p) && NextSize(c, p) <= avail
    case StartWaiting => p.phase.Filling? && WantsMore(c, p) && avail < NextSize(c, p) && p.pending == []
    case Admitted => p.phase.Acquiring? && NextSize(c, p) <= avail
    case StopFilling => p.phase.Filling? && (!WantsMore(c, p) || (avail < NextSize(c, p) && p.pending != []))
    case Settle(i, ok) => i < |p.pending| && p.pending[i].status.Running?
    case TakeHead => p.phase.Awaiting? && p.pending != [] && !p.pending[0].status.Running?
    case Push => p.phase.Sending? && (p.live ==> |p.queue| < c.concurrency)
    case Reap => !p.live && !p.phase.Exited?
  }

  /** What a producer's step leaves: the pipeline, the free permits, and the permits of fetches aborted. */
  datatype Effect = Effect(pipe: Pipe, avail: nat, aborted: nat)

  /** The producer returns: its fetches are aborted. */
  function Exit(p: Pipe, avail: nat): Effect {
    Effect(p.(phase := Exited, pending := []), avail, Held(p.pending))
  }

  function Request(c: Config, p: Pipe, avail: nat): Effect
    requires NextSize(c, p) <= avail
  {
    var size := NextSize(c, p);
    Effect(p.(next := p.next + size, pending := p.pending + [Piece(p.next, size, Running)], phase := Filling),
           avail - size, 0)
  }

  function WorkStep(c: Config, avail: nat, p: Pipe, m: PipeMove): Effect
    requires WorkEnabled(c, avail, p, m)
  {
    match m
    case Reserve => Request(c, p, avail)
    case Admitted => Request(c, p, avail)
    case StartWaiting => Effect(p.(phase := Acquiring), avail, 0)
    case StopFilling => if p.pending == [] then Exit(p, avail) else Effect(p.(phase := Awaiting), avail, 0)
    case Settle(i, ok) =>
      var f := p.pending[i];
      if ok then Effect(p.(pending := p.pending[i := f.(status := Done)]), avail, 0)
      else Effect(p.(pending := p.pending[i := f.(status := Failed)]), avail + f.size, 0)
    case TakeHead => Effect(p.(phase := Sending(p.pending[0]), pending := p.pending[1..]), avail, 0)
    case Push =>
      var piece := p.phase.piece;
      if !p.live then Exit(p, avail + piece.Held())
      else if piece.status.Failed? then Exit(p.(queue := p.queue + [piece]), avail)
      else Effect(p.(queue := p.queue + [piece], phase := Filling), avail, 0)
    case Reap => Exit(p, avail + Held(InHand(p.phase)))
  }

  /** What the reader of pipeline `p` sees when it polls the channel. */
  function ArrivalOf(p: Pipe): Arrival {
    if p.queue != [] then Item(p.queue[0]) else if p.phase.Exited? then Hangup else Nothing
  }

  /** `cancel`: the receiver is dropped with everything queued, the producer is told to abort, and the
      current chunk is dropped. */
  function Abandon(s: State, r: nat): State
    requires r < |s.readers|
  {
    var rd := s.readers[r];
    var s := s.(readers := s.readers[r := Cancelled(rd)], avail := s.avail + ReaderHeld(rd));
    if rd.pipe.Some? && rd.pipe.value < |s.pipes| then
      var p := s.pipes[rd.pipe.value];
      s.(pipes := s.pipes[rd.pipe.value := p.(queue := [], live := false)], avail := s.avail + Held(p.queue))
    else s
  }

  ghost predicate Indexed(s: State) {
    && |s.since| == |s.heard| == |s.readers|
    && forall r | 0 <= r < |s.readers| ::
         Sound(s.readers[r]) && (s.readers[r].pipe.Some? ==> s.readers[r].pipe.value < |s.pipes|)
  }

  function NewPipe(c: Config, r: nat, from: nat): Pipe
    requires r < |c.objects|
  {
    Pipe(r, |c.objects[r]|, from, [], Filling, [], true)
  }

  function ArrivalAt(s: State, r: nat): Arrival
    requires r < |s.readers| && Indexed(s)
  {
    var rd := s.readers[r];
    if rd.pipe.None? then Nothing else ArrivalOf(s.pipes[rd.pipe.value])
  }

  function PollResult(c: Config, s: State, r: nat, limit: nat): (Reader, Outcome)
    requires r < |s.readers| && r < |c.objects| && Indexed(s)
  {
    Read(s.readers[r], |c.objects[r]|, limit, |s.pipes|, ArrivalAt(s, r))
  }

  function Slice(bytes: seq<Byte>, from: nat, count: nat): seq<Byte> {
    if from + count <= |bytes| then bytes[from..from + count] else []
  }

  /** A read. When it starts a pipeline that pipeline is new and empty; when it takes a chunk the chunk
      leaves the queue; when the chunk is finished its permit comes back; when it fails the pipeline goes. */
  function Polled(c: Config, s: State, r: nat, limit: nat): State
    requires r < |s.readers| && r < |c.objects| && Indexed(s)
  {
    var rd := s.readers[r];
    var (rd', out) := PollResult(c, s, r, limit);
    match out
    case Failure(_) => Abandon(s, r)
    case NotReady =>
      if rd.pipe.None? then s.(readers := s.readers[r := rd'], pipes := s.pipes + [NewPipe(c, r, rd.position)]) else s
    case Got(from, count) =>
      if count == 0 then s
      else
        var taken := rd.current.None? && rd.pipe.Some? && s.pipes[rd.pipe.value].queue != [];
        var held := if taken then s.pipes[rd.pipe.value].queue[0].Held() else ReaderHeld(rd);
        var pipes := if taken then
          var p := s.pipes[rd.pipe.value];
          s.pipes[rd.pipe.value := p.(queue := p.queue[1..])] else s.pipes;
        s.(readers := s.readers[r := rd'], pipes := pipes,
           avail := s.avail + (if rd'.current.None? then held else 0),
           heard := s.heard[r := s.heard[r] + Slice(c.objects[r], from, count)])
  }

  ghost predicate Enabled(c: Config, s: State, a: Action) {
    match a
    case Work(p, m) => p < |s.pipes| && WorkEnabled(c, s.avail, s.pipes[p], m)
    case Poll(r, limit) => r < |s.readers| && r < |c.objects| && Indexed(s) && r !in s.gone
    case Seek(r, target) => r < |s.readers| && Indexed(s) && r !in s.gone
    case Drop(r) => r < |s.readers| && r !in s.gone
    case Release(n) => 0 < n <= s.dying
  }

  ghost function Apply(c: Config, s: State, a: Action): State
    requires Enabled(c, s, a)
  {
    match a
    case Work(p, m) =>
      var e := WorkStep(c, s.avail, s.pipes[p], m);
      s.(pipes := s.pipes[p := e.pipe], avail := e.avail, dying := s.dying + e.aborted)
    case Poll(r, limit) => Polled(c, s, r, limit)
    case Seek(r, target) =>
      if target == s.readers[r].position then s
      else
        var s' := Abandon(s, r);
        s'.(readers := s'.readers[r := SeekTo(s.readers[r], target)],
            since := s.since[r := target],
            heard := s.heard[r := []])
    case Drop(r) => Abandon(s, r).(gone := s.gone + {r})
    case Release(n) => s.(avail := s.avail + n, dying := s.dying - n)
  }

  ghost predicate IsRun(c: Config, ss: seq<State>, actions: seq<Action>) {
    && |ss| == |actions| + 1 && ss[0] == Init(c)
    && forall i | 0 <= i < |actions| :: Enabled(c, ss[i], actions[i]) && ss[i + 1] == Apply(c, ss[i], actions[i])
  }
}
