/** Every step of the prefetch pool keeps its invariant; what that means for readers and for memory. */
module PoolSafety {
  import opened Slots
  import opened Octets
  import opened RangeReader
  import opened Pool
  import opened PoolInvariant
  import opened Sums

  /** What a producer's own step must keep. */
  ghost predicate GoodWork(c: Config, avail: nat, p: Pipe, e: Effect, from: nat) {
    && PipeOk(c, e.pipe) && LineOk(e.pipe, from)
    && e.pipe.owner == p.owner && e.pipe.total == p.total && e.pipe.live == p.live
    && e.avail + e.aborted + PipeHeld(e.pipe) == avail + PipeHeld(p)
  }

  lemma RequestKeeps(c: Config, avail: nat, p: Pipe, from: nat)
    requires c.Valid() && PipeOk(c, p) && LineOk(p, from)
    requires (p.phase.Filling? || p.phase.Acquiring?) && WantsMore(c, p) && NextSize(c, p) <= avail
    ensures GoodWork(c, avail, p, Request(c, p, avail), from)
  {
    var f := Piece(p.next, NextSize(c, p), Running);
    HeldSplit(p.pending, [f]);
    assert Held([f]) == f.size;
    if p.live {
      TileAppend(Line(p), from, p.next, f);
      var p' := Request(c, p, avail).pipe;
      assert Line(p') == Line(p) + [f];
    }
  }

  lemma SettleTiles(p: Pipe, i: nat, f: Piece, from: nat)
    requires i < |p.pending| && f.start == p.pending[i].start && f.size == p.pending[i].size
    requires Tile(Line(p), from, p.next)
    ensures Tile(Line(p.(pending := p.pending[i := f])), from, p.next)
  {
    var k := |p.queue| + |InHand(p.phase)|;
    assert Line(p)[k + i] == p.pending[i];
    assert Line(p.(pending := p.pending[i := f])) == Line(p)[k + i := f];
    TileUpdate(Line(p), k + i, f, from, p.next);
  }

  lemma SettleKeepsPipe(c: Config, p: Pipe, i: nat, f: Piece)
    requires PipeOk(c, p) && i < |p.pending| && f.start == p.pending[i].start && f.size == p.pending[i].size
    ensures PipeOk(c, p.(pending := p.pending[i := f]))
  {
  }

  lemma SettleKeeps(c: Config, avail: nat, p: Pipe, i: nat, ok: bool, from: nat)
    requires c.Valid() && PipeOk(c, p) && LineOk(p, from) && WorkEnabled(c, avail, p, Settle(i, ok))
    ensures GoodWork(c, avail, p, WorkStep(c, avail, p, Settle(i, ok)), from)
  {
    var f := p.pending[i].(status := if ok then Done else Failed);
    HeldUpdate(p.pending, i, f);
    SettleKeepsPipe(c, p, i, f);
    if p.live {
      SettleTiles(p, i, f, from);
    }
  }

  lemma TakeHeadKeeps(c: Config, avail: nat, p: Pipe, from: nat)
    requires c.Valid() && PipeOk(c, p) && LineOk(p, from) && WorkEnabled(c, avail, p, TakeHead)
    ensures GoodWork(c, avail, p, WorkStep(c, avail, p, TakeHead), from)
  {
    var p' := WorkStep(c, avail, p, TakeHead).pipe;
    assert p.pending == [p.pending[0]] + p.pending[1..];
    assert Held([p.pending[0]]) == p.pending[0].Held() + Held([]);
    assert Line(p') == Line(p);
  }

  lemma PauseKeeps(c: Config, avail: nat, p: Pipe, phase: Phase, from: nat)
    requires PipeOk(c, p) && LineOk(p, from) && p.phase.Filling?
    requires (phase.Acquiring? && p.pending == [] && p.next < p.total) || (phase.Awaiting? && p.pending != [])
    ensures GoodWork(c, avail, p, Effect(p.(phase := phase), avail, 0), from)
  {
    assert Line(p.(phase := phase)) == Line(p);
  }

  lemma ExitKeeps(c: Config, avail: nat, p: Pipe, e: Effect, from: nat)
    requires PipeOk(c, p) && LineOk(p, from)
    requires !p.live || (p.phase.Filling? && p.pending == [] && p.next == p.total)
    requires e == Exit(p, avail + Held(InHand(p.phase)))
    ensures GoodWork(c, avail, p, e, from)
  {
    assert p.queue != [] && !p.phase.Exited? ==> !p.queue[|p.queue| - 1].status.Failed?;
    assert Line(e.pipe) == p.queue == Line(p) || !p.live;
  }

  lemma PushKeeps(c: Config, avail: nat, p: Pipe, from: nat)
    requires c.Valid() && PipeOk(c, p) && LineOk(p, from) && WorkEnabled(c, avail, p, Push) && p.live
    ensures GoodWork(c, avail, p, WorkStep(c, avail, p, Push), from)
  {
    var f := p.phase.piece;
    var p' := WorkStep(c, avail, p, Push).pipe;
    HeldSplit(p.queue, [f]);
    assert InHand(p.phase)[0] == f;
    if f.status.Failed? {
      TilePrefix(p.queue + [f], p.pending, from, p.next);
      assert Line(p') == p.queue + [f];
      assert Reach(p') <= p.total by { ReachWithin(p.queue + [f], p.pending, from, p.next); }
    } else {
      assert Line(p') == Line(p);
    }
  }

  lemma {:induction false} ReachWithin(a: seq<Piece>, b: seq<Piece>, from: nat, to: nat)
    requires a != [] && Tile(a + b, from, to)
    ensures a[|a| - 1].End() <= to
    decreases |a|
  {
    assert (a + b)[1..] == a[1..] + b;
    if |a| == 1 {
      TileOrdered(b, a[0].End(), to);
      assert a[1..] + b == b;
    } else {
      ReachWithin(a[1..], b, a[0].End(), to);
    }
  }

  /** Every step of a producer keeps its pipeline in order and its permits accounted for. */
  lemma WorkKeeps(c: Config, avail: nat, p: Pipe, m: PipeMove, from: nat)
    requires c.Valid() && PipeOk(c, p) && LineOk(p, from) && WorkEnabled(c, avail, p, m)
    ensures GoodWork(c, avail, p, WorkStep(c, avail, p, m), from)
  {
    match m
    case Reserve => RequestKeeps(c, avail, p, from);
    case Admitted => RequestKeeps(c, avail, p, from);
    case StartWaiting => PauseKeeps(c, avail, p, Acquiring, from);
    case StopFilling =>
      if p.pending == [] {
        ExitKeeps(c, avail, p, WorkStep(c, avail, p, m), from);
      } else {
        PauseKeeps(c, avail, p, Awaiting, from);
      }
    case Settle(i, ok) => SettleKeeps(c, avail, p, i, ok, from);
    case TakeHead => TakeHeadKeeps(c, avail, p, from);
    case Push =>
      if p.live {
        PushKeeps(c, avail, p, from);
      } else {
        assert Held(InHand(p.phase)) == p.phase.piece.Held() + Held([]);
        ExitKeeps(c, avail, p, WorkStep(c, avail, p, m), from);
      }
    case Reap => ExitKeeps(c, avail, p, WorkStep(c, avail, p, m), from);
  }

  /** A producer's step in the pool. */
  lemma WorkKeepsInv(c: Config, s: State, i: nat, m: PipeMove)
    requires c.Valid() && Inv(c, s) && Enabled(c, s, Work(i, m))
    ensures Inv(c, Apply(c, s, Work(i, m)))
  {
    var p := s.pipes[i];
    assert PipeAt(c, s.pipes, s.readers, i);
    var e := WorkStep(c, s.avail, p, m);
    WorkKeeps(c, s.avail, p, m, Frontier(s.readers[p.owner]));
    PipesHeldUpdate(s.pipes, i, e.pipe);
    var ps' := s.pipes[i := e.pipe];
    SamePipe(c, s.pipes, s.readers, i, e.pipe);
    assert Matched(c, ps', s.readers);
  }

  /** Replacing a pipeline by a good one with the same owner keeps the match. */
  lemma SamePipe(c: Config, ps: seq<Pipe>, rs: seq<Reader>, i: nat, p': Pipe)
    requires Matched(c, ps, rs) && i < |ps|
    requires p'.owner == ps[i].owner && p'.total == ps[i].total && p'.live == ps[i].live
    requires ps[i].owner < |rs| && PipeOk(c, p') && LineOk(p', Frontier(rs[ps[i].owner]))
    ensures Matched(c, ps[i := p'], rs)
  {
    var ps' := ps[i := p'];
    forall r | 0 <= r < |rs| ensures ReaderAt(c, ps', rs, r) {
      assert ReaderAt(c, ps, rs, r);
    }
    forall q | 0 <= q < |ps'| ensures PipeAt(c, ps', rs, q) {
      assert PipeAt(c, ps, rs, q);
    }
  }

  /** Cancelling a reader: its pipeline is orphaned, nothing else moves, no permit is lost. */
  lemma AbandonKeeps(c: Config, s: State, r: nat)
    requires Inv(c, s) && r < |s.readers|
    ensures Inv(c, Abandon(s, r))
  {
    var rd := s.readers[r];
    var rd' := Cancelled(rd);
    assert ReaderAt(c, s.pipes, s.readers, r);
    var rs' := s.readers[r := rd'];
    ReadersHeldUpdate(s.readers, r, rd');
    if rd.pipe.Some? {
      var i := rd.pipe.value;
      var p := s.pipes[i];
      var p' := p.(queue := [], live := false);
      assert PipeAt(c, s.pipes, s.readers, i);
      PipesHeldUpdate(s.pipes, i, p');
      Orphaned(c, s.pipes, s.readers, r, i, p');
    } else {
      ReaderMoved(c, s.pipes, s.readers, r, rd');
    }
  }

  lemma Orphaned(c: Config, ps: seq<Pipe>, rs: seq<Reader>, r: nat, i: nat, p': Pipe)
    requires Matched(c, ps, rs) && r < |rs| && i < |ps| && rs[r].pipe == Some(i)
    requires p' == ps[i].(queue := [], live := false)
    ensures Matched(c, ps[i := p'], rs[r := Cancelled(rs[r])])
  {
    var ps', rs' := ps[i := p'], rs[r := Cancelled(rs[r])];
    forall q | 0 <= q < |rs'| ensures ReaderAt(c, ps', rs', q) {
      assert ReaderAt(c, ps, rs, q) && ReaderAt(c, ps, rs, r);
    }
    forall q | 0 <= q < |ps'| ensures PipeAt(c, ps', rs', q) {
      assert PipeAt(c, ps, rs, q);
      assert ReaderAt(c, ps, rs, r);
    }
  }

  /** Changing a reader that has no pipeline disturbs none. */
  lemma ReaderMoved(c: Config, ps: seq<Pipe>, rs: seq<Reader>, r: nat, rd': Reader)
    requires Matched(c, ps, rs) && r < |rs| && rs[r].pipe.None? && rd'.pipe.None? && rd'.current.None?
    ensures Matched(c, ps, rs[r := rd'])
  {
    var rs' := rs[r := rd'];
    forall q | 0 <= q < |rs'| ensures ReaderAt(c, ps, rs', q) {
      assert ReaderAt(c, ps, rs, q);
    }
    forall q | 0 <= q < |ps| ensures PipeAt(c, ps, rs', q) {
      assert PipeAt(c, ps, rs, q);
    }
  }

  lemma PairReaders(c: Config, ps: seq<Pipe>, rs: seq<Reader>, r: nat, i: nat, p': Pipe, rd': Reader, q: nat)
    requires Matched(c, ps, rs) && r < |rs| && i < |ps| && rs[r].pipe == Some(i) && rd'.pipe == Some(i) && q < |rs|
    requires p'.owner == r && p'.live && ReaderOk(c, rd', |c.objects[r]|)
    ensures ReaderAt(c, ps[i := p'], rs[r := rd'], q)
  {
    assert ReaderAt(c, ps, rs, q) && ReaderAt(c, ps, rs, r);
  }

  lemma PairPipes(c: Config, ps: seq<Pipe>, rs: seq<Reader>, r: nat, i: nat, p': Pipe, rd': Reader, q: nat)
    requires Matched(c, ps, rs) && r < |rs| && i < |ps| && rs[r].pipe == Some(i) && rd'.pipe == Some(i) && q < |ps|
    requires p'.owner == r && p'.total == |c.objects[r]| && p'.live && PipeOk(c, p') && LineOk(p', Frontier(rd'))
    ensures PipeAt(c, ps[i := p'], rs[r := rd'], q)
  {
    assert PipeAt(c, ps, rs, q);
  }

  /** A reader and its own pipeline change together. */
  lemma PairMoved(c: Config, ps: seq<Pipe>, rs: seq<Reader>, r: nat, i: nat, p': Pipe, rd': Reader)
    requires Matched(c, ps, rs) && r < |rs| && i < |ps| && rs[r].pipe == Some(i) && rd'.pipe == Some(i)
    requires p'.owner == r && p'.total == |c.objects[r]| && p'.live
    requires PipeOk(c, p') && LineOk(p', Frontier(rd')) && ReaderOk(c, rd', |c.objects[r]|)
    ensures Matched(c, ps[i := p'], rs[r := rd'])
  {
    var ps', rs' := ps[i := p'], rs[r := rd'];
    forall q | 0 <= q < |rs'| ensures ReaderAt(c, ps', rs', q) {
      PairReaders(c, ps, rs, r, i, p', rd', q);
    }
    forall q | 0 <= q < |ps'| ensures PipeAt(c, ps', rs', q) {
      PairPipes(c, ps, rs, r, i, p', rd', q);
    }
  }

  /** A new pipeline starts empty where its reader stands. */
  lemma PipeAdded(c: Config, ps: seq<Pipe>, rs: seq<Reader>, r: nat)
    requires c.Valid() && Matched(c, ps, rs) && r < |rs| && rs[r].pipe.None? && rs[r].position < |c.objects[r]|
    ensures Matched(c, ps + [NewPipe(c, r, rs[r].position)], rs[r := rs[r].(pipe := Some(|ps|))])
  {
    var p := NewPipe(c, r, rs[r].position);
    var ps', rs' := ps + [p], rs[r := rs[r].(pipe := Some(|ps|))];
    assert ReaderAt(c, ps, rs, r);
    forall q | 0 <= q < |rs'| ensures ReaderAt(c, ps', rs', q) {
      assert ReaderAt(c, ps, rs, q);
    }
    forall q | 0 <= q < |ps'| ensures PipeAt(c, ps', rs', q) {
      if q < |ps| { assert PipeAt(c, ps, rs, q); } else { assert Line(p) == []; }
    }
  }

  /** The chunk at the head of a live queue starts where the reader stands. */
  lemma HeadOfQueue(c: Config, p: Pipe, from: nat)
    requires PipeOk(c, p) && LineOk(p, from) && p.live && p.queue != []
    ensures p.queue[0].start == from && p.queue[0].End() <= p.total
  {
    TileOrdered(Line(p), from, Reach(p));
    assert Line(p)[0] == p.queue[0];
  }

  lemma PopKeeps(c: Config, p: Pipe, from: nat)
    requires PipeOk(c, p) && LineOk(p, from) && p.live && p.queue != [] && !p.queue[0].status.Failed?
    ensures var p' := p.(queue := p.queue[1..]);
            PipeOk(c, p') && LineOk(p', p.queue[0].End()) && PipeHeld(p') + p.queue[0].size == PipeHeld(p)
  {
    var p' := p.(queue := p.queue[1..]);
    assert Line(p)[1..] == Line(p');
    assert Line(p)[0] == p.queue[0];
    assert Reach(p') == Reach(p);
  }

  /** What a read does, given that the reader and its pipeline are in order: it moves exactly over the
      bytes it returns, starting where the reader stood, and it never runs out before the end. */
  lemma ReadIsExact(c: Config, s: State, r: nat, limit: nat)
    requires Inv(c, s) && r < |s.readers|
    ensures Indexed(s)
    ensures var (rd', out) := PollResult(c, s, r, limit);
            match out
            case Got(from, count) =>
              && from == s.readers[r].position && rd'.position == from + count && count <= limit
              && (0 < count ==> from + count <= |c.objects[r]|)
              && (count == 0 <==> limit == 0 || |c.objects[r]| <= from)
            case NotReady => rd'.position == s.readers[r].position
            case Failure(unexpectedEof) => rd'.position == s.readers[r].position && !unexpectedEof
  {
    assert Indexed(s) by {
      forall q | 0 <= q < |s.readers|
        ensures Sound(s.readers[q]) && (s.readers[q].pipe.Some? ==> s.readers[q].pipe.value < |s.pipes|)
      {
        assert ReaderAt(c, s.pipes, s.readers, q);
      }
    }
    var rd := s.readers[r];
    assert ReaderAt(c, s.pipes, s.readers, r);
    if rd.pipe.Some? && rd.current.None? {
      QueueFeeds(c, s.pipes, s.readers, r);
    }
  }

  /** What a live pipeline offers its reader: the bytes at the reader's position, or a failure, or the
      news that everything has been delivered. */
  lemma QueueFeeds(c: Config, ps: seq<Pipe>, rs: seq<Reader>, r: nat)
    requires Matched(c, ps, rs) && r < |rs| && rs[r].pipe.Some? && rs[r].current.None?
    ensures rs[r].pipe.value < |ps|
    ensures var p := ps[rs[r].pipe.value];
            && p.live && p.owner == r && p.total == |c.objects[r]| && PipeOk(c, p) && LineOk(p, rs[r].position)
            && match ArrivalOf(p)
               case Item(f) => f.start == rs[r].position && 0 < f.size && f.End() <= p.total && !f.status.Running?
               case Hangup => rs[r].position == p.total
               case Nothing => true
  {
    assert ReaderAt(c, ps, rs, r);
    var i := rs[r].pipe.value;
    assert PipeAt(c, ps, rs, i);
    var p := ps[i];
    if p.queue != [] {
      HeadOfQueue(c, p, rs[r].position);
    } else if p.phase.Exited? {
      assert Line(p) == [];
    }
  }

  /** A read that takes a chunk from the queue. */
  lemma TakeKeeps(c: Config, s: State, r: nat, limit: nat)
    requires c.Valid() && Inv(c, s) && r < |s.readers| && Indexed(s) && r !in s.gone
    requires var out := PollResult(c, s, r, limit).1; out.Got? && 0 < out.count && s.readers[r].current.None?
    ensures var s' := Polled(c, s, r, limit);
            Matched(c, s'.pipes, s'.readers) && Conserved(c, s'.avail, s'.dying, s'.pipes, s'.readers)
  {
    var rd := s.readers[r];
    var rd' := PollResult(c, s, r, limit).0;
    QueueFeeds(c, s.pipes, s.readers, r);
    var i := rd.pipe.value;
    var p := s.pipes[i];
    var p' := p.(queue := p.queue[1..]);
    PopKeeps(c, p, rd.position);
    ReadersHeldUpdate(s.readers, r, rd');
    PipesHeldUpdate(s.pipes, i, p');
    PairMoved(c, s.pipes, s.readers, r, i, p', rd');
  }

  /** A read that copies from the current chunk. */
  lemma CopyKeeps(c: Config, s: State, r: nat, limit: nat)
    requires c.Valid() && Inv(c, s) && r < |s.readers| && Indexed(s) && r !in s.gone
    requires var out := PollResult(c, s, r, limit).1; out.Got? && 0 < out.count && s.readers[r].current.Some?
    ensures var s' := Polled(c, s, r, limit);
            Matched(c, s'.pipes, s'.readers) && Conserved(c, s'.avail, s'.dying, s'.pipes, s'.readers)
  {
    var rd := s.readers[r];
    var rd' := PollResult(c, s, r, limit).0;
    assert ReaderAt(c, s.pipes, s.readers, r);
    var i := rd.pipe.value;
    assert PipeAt(c, s.pipes, s.readers, i);
    ReadersHeldUpdate(s.readers, r, rd');
    PairMoved(c, s.pipes, s.readers, r, i, s.pipes[i], rd');
    assert s.pipes[i := s.pipes[i]] == s.pipes;
  }

  lemma DeliverKeeps(c: Config, s: State, r: nat, limit: nat)
    requires c.Valid() && Inv(c, s) && r < |s.readers| && Indexed(s) && r !in s.gone
    requires var out := PollResult(c, s, r, limit).1; out.Got? && 0 < out.count
    ensures Inv(c, Polled(c, s, r, limit))
  {
    var rd := s.readers[r];
    var (rd', out) := PollResult(c, s, r, limit);
    ReadIsExact(c, s, r, limit);
    HeardGrows(c.objects[r], rd, rd', s.since[r], s.heard[r], out.count);
    if rd.current.None? {
      TakeKeeps(c, s, r, limit);
    } else {
      CopyKeeps(c, s, r, limit);
    }
  }

  lemma HeardGrows(bytes: seq<Byte>, rd: Reader, rd': Reader, since: nat, heard: seq<Byte>, count: nat)
    requires HistoryOk(bytes, rd, since, heard)
    requires rd'.position == rd.position + count <= |bytes|
    ensures HistoryOk(bytes, rd', since, heard + Slice(bytes, rd.position, count))
  {
    assert bytes[since..rd.position] + bytes[rd.position..rd.position + count] == bytes[since..rd.position + count];
  }

  lemma PollKeeps(c: Config, s: State, r: nat, limit: nat)
    requires c.Valid() && Inv(c, s) && Enabled(c, s, Poll(r, limit))
    ensures Inv(c, Polled(c, s, r, limit))
  {
    var rd := s.readers[r];
    var (rd', out) := PollResult(c, s, r, limit);
    assert ReaderAt(c, s.pipes, s.readers, r);
    ReadIsExact(c, s, r, limit);
    match out
    case Failure(_) => AbandonKeeps(c, s, r);
    case NotReady =>
      if rd.pipe.None? {
        PipeAdded(c, s.pipes, s.readers, r);
        PipesHeldAppend(s.pipes, NewPipe(c, r, rd.position));
        ReadersHeldUpdate(s.readers, r, rd');
      }
    case Got(_, count) =>
      if 0 < count { DeliverKeeps(c, s, r, limit); }
  }

  lemma SeekKeeps(c: Config, s: State, r: nat, target: nat)
    requires c.Valid() && Inv(c, s) && Enabled(c, s, Seek(r, target))
    ensures Inv(c, Apply(c, s, Seek(r, target)))
  {
    if target != s.readers[r].position {
      AbandonKeeps(c, s, r);
      var s1 := Abandon(s, r);
      var rd' := SeekTo(s.readers[r], target);
      ReaderMoved(c, s1.pipes, s1.readers, r, rd');
      ReadersHeldUpdate(s1.readers, r, rd');
    }
  }

  lemma StepKeepsInv(c: Config, s: State, a: Action)
    requires c.Valid() && Inv(c, s) && Enabled(c, s, a)
    ensures Inv(c, Apply(c, s, a))
  {
    match a
    case Work(p, m) => WorkKeepsInv(c, s, p, m);
    case Poll(r, limit) => PollKeeps(c, s, r, limit);
    case Seek(r, target) => SeekKeeps(c, s, r, target);
    case Drop(r) => AbandonKeeps(c, s, r);
    case Release(n) =>
  }

  lemma {:induction false} RunKeepsInv(c: Config, ss: seq<State>, actions: seq<Action>, n: nat)
    requires c.Valid() && IsRun(c, ss, actions) && n < |ss|
    ensures Inv(c, ss[n])
  {
    if n == 0 {
      InitHolds(c);
    } else {
      RunKeepsInv(c, ss, actions, n - 1);
      StepKeepsInv(c, ss[n - 1], actions[n - 1]);
    }
  }

  /** Whatever the interleaving of reads, seeks, drops and failed fetches: what a reader has been given
      since it last moved is the object, from there to where it stands now. */
  lemma ReadersHearTheObject(c: Config, ss: seq<State>, actions: seq<Action>, n: nat, r: nat)
    requires c.Valid() && IsRun(c, ss, actions) && n < |ss| && r < |c.objects|
    ensures var s := ss[n];
            && |s.readers| == |s.since| == |s.heard| == |c.objects| && s.since[r] <= s.readers[r].position
            && if s.readers[r].position <= |c.objects[r]|
               then s.heard[r] == c.objects[r][s.since[r]..s.readers[r].position]
               else s.heard[r] == [] && s.since[r] == s.readers[r].position
  {
    RunKeepsInv(c, ss, actions, n);
    assert HistoryOk(c.objects[r], ss[n].readers[r], ss[n].since[r], ss[n].heard[r]);
  }

  /** Each read along a run returns the bytes at the reader's position, or leaves it where it was; the
      pipeline never ends before the object does. */
  lemma ReadsAreExact(c: Config, ss: seq<State>, actions: seq<Action>, n: nat, r: nat, limit: nat)
    requires c.Valid() && IsRun(c, ss, actions) && n < |actions| && actions[n] == Poll(r, limit)
    ensures Indexed(ss[n]) && r < |ss[n].readers| == |ss[n + 1].readers| == |c.objects|
    ensures var at, end := ss[n].readers[r].position, ss[n + 1].readers[r].position;
            var out := PollResult(c, ss[n], r, limit).1;
            match out
            case Got(from, count) =>
              from == at && end == at + count && (count == 0 <==> limit == 0 || |c.objects[r]| <= at)
            case NotReady => end == at
            case Failure(unexpectedEof) => end == at && !unexpectedEof
  {
    RunKeepsInv(c, ss, actions, n);
    RunKeepsInv(c, ss, actions, n + 1);
    ReadIsExact(c, ss[n], r, limit);
  }

  /** The chunk a read takes from: the one in hand, or the oldest in the channel. */
  function ChunkFor(s: State, r: nat): Option<Piece>
    requires r < |s.readers| && Indexed(s)
  {
    var arrival := ArrivalAt(s, r);
    if s.readers[r].current.Some? then s.readers[r].current
    else if arrival.Item? then Some(arrival.piece) else None
  }

  /** A read that yields bytes fills the buffer as far as its chunk goes. */
  lemma ReadsAreFull(c: Config, ss: seq<State>, actions: seq<Action>, n: nat, r: nat, limit: nat)
    requires c.Valid() && IsRun(c, ss, actions) && n < |actions| && actions[n] == Poll(r, limit)
    ensures Indexed(ss[n]) && r < |ss[n].readers| == |c.objects|
    ensures var out, at, chunk := PollResult(c, ss[n], r, limit).1, ss[n].readers[r].position, ChunkFor(ss[n], r);
            out.Got? && 0 < out.count ==>
              && chunk.Some? && chunk.value.start <= at < chunk.value.End()
              && out.count == Min(limit, chunk.value.End() - at)
  {
    RunKeepsInv(c, ss, actions, n);
    ReadIsExact(c, ss[n], r, limit);
    assert ReaderAt(c, ss[n].pipes, ss[n].readers, r);
  }

  /** A producer asks for as much as is left and fits a chunk, right behind what it has asked for, and pays for
      exactly that. */
  lemma RequestsAreFull(c: Config, s: State, p: nat, m: PipeMove)
    requires (m.Reserve? || m.Admitted?) && Enabled(c, s, Work(p, m))
    ensures var s', was := Apply(c, s, Work(p, m)), s.pipes[p];
            var size := if was.next + c.chunk <= was.total then c.chunk else SatSub(was.total, was.next);
            && |s'.pipes| == |s.pipes| && s'.pipes[p].pending == was.pending + [Piece(was.next, size, Running)]
            && s'.pipes[p].next == was.next + size && s'.avail == s.avail - size && s'.dying == s.dying
  {
  }

  /** No permit is ever lost or made up, no pipeline exceeds its window, and a producer that waits for
      memory has nothing in flight. */
  lemma PermitsAreConserved(c: Config, ss: seq<State>, actions: seq<Action>, n: nat)
    requires c.Valid() && IsRun(c, ss, actions) && n < |ss|
    ensures var s := ss[n];
            && s.avail + s.dying + PipesHeld(s.pipes) + ReadersHeld(s.readers) == c.budget
            && forall p | 0 <= p < |s.pipes| ::
                 && |s.pipes[p].pending| <= c.concurrency && |s.pipes[p].queue| <= c.concurrency
                 && (s.pipes[p].phase.Acquiring? ==> s.pipes[p].pending == [])
  {
    RunKeepsInv(c, ss, actions, n);
    var s := ss[n];
    forall p | 0 <= p < |s.pipes|
      ensures |s.pipes[p].pending| <= c.concurrency && |s.pipes[p].queue| <= c.concurrency
      ensures s.pipes[p].phase.Acquiring? ==> s.pipes[p].pending == []
    {
      assert PipeAt(c, s.pipes, s.readers, p);
    }
  }

  /** Once every reader is dropped, every producer has returned and every abort has taken effect, the
      whole budget is free again. */
  lemma PermitsComeBack(c: Config, ss: seq<State>, actions: seq<Action>, n: nat)
    requires c.Valid() && IsRun(c, ss, actions) && n < |ss|
    requires forall r | 0 <= r < |ss[n].readers| :: r in ss[n].gone
    requires ss[n].dying == 0 && forall p | 0 <= p < |ss[n].pipes| :: ss[n].pipes[p].phase.Exited?
    ensures ss[n].avail == c.budget
  {
    RunKeepsInv(c, ss, actions, n);
    var s := ss[n];
    forall r | 0 <= r < |s.readers| ensures ReaderHolds(s.readers)[r] == 0 {
      assert ReaderAt(c, s.pipes, s.readers, r);
    }
    forall p | 0 <= p < |s.pipes| ensures PipeHolds(s.pipes)[p] == 0 {
      assert PipeAt(c, s.pipes, s.readers, p);
    }
    SumZeros(ReaderHolds(s.readers));
    SumZeros(PipeHolds(s.pipes));
  }

  /** A producer fills its window: it asks for the next chunk whenever fewer than `concurrency` are in flight, bytes
      are left and memory is free, and stops filling in no other case but want of memory with something in flight. */
  lemma WindowFills(c: Config, s: State, p: nat)
    requires p < |s.pipes| && s.pipes[p].phase.Filling?
    ensures var pipe := s.pipes[p];
      var more := pipe.next < pipe.total && |pipe.pending| < c.concurrency;
      var free := s.avail >= if pipe.next + c.chunk <= pipe.total then c.chunk else SatSub(pipe.total, pipe.next);
      && (Enabled(c, s, Work(p, Reserve)) <==> more && free)
      && (Enabled(c, s, Work(p, StartWaiting)) <==> more && !free && pipe.pending == [])
      && (Enabled(c, s, Work(p, StopFilling)) <==> !more || (!free && pipe.pending != []))
  {
  }

  /** A finished chunk is handed over as soon as fewer than `concurrency` wait in the channel. */
  lemma ChannelHasRoom(c: Config, s: State, p: nat)
    requires p < |s.pipes| && s.pipes[p].phase.Sending?
    ensures Enabled(c, s, Work(p, Push)) <==> !s.pipes[p].live || |s.pipes[p].queue| < c.concurrency
  {
  }

  /** What a reader finds in its channel: the oldest chunk, the end of the pipeline, or nothing yet. */
  lemma ChannelShows(p: Pipe)
    ensures p.queue != [] ==> ArrivalOf(p) == Item(p.queue[0])
    ensures p.queue == [] && p.phase.Exited? ==> ArrivalOf(p) == Hangup
    ensures p.queue == [] && !p.phase.Exited? ==> ArrivalOf(p) == Nothing
  {
  }

  /** A producer that returns aborts its fetches. Their memory comes back only when the aborts take effect. */
  lemma AbortsTakeTime(c: Config, s: State, p: nat)
    requires Enabled(c, s, Work(p, Reap))
    ensures var s', was := Apply(c, s, Work(p, Reap)), s.pipes[p];
      && s'.pipes[p].phase.Exited? && s'.pipes[p].pending == [] && s'.dying == s.dying + Held(was.pending)
      && s'.avail == s.avail + Held(InHand(was.phase))
  {
  }

  /** Any fetch can fail or succeed, at any time and in any order, and a failed one returns its memory at once. */
  lemma FetchesCanFail(c: Config, s: State, p: nat, i: nat, ok: bool)
    requires p < |s.pipes| && i < |s.pipes[p].pending| && s.pipes[p].pending[i].status.Running?
    ensures Enabled(c, s, Work(p, Settle(i, ok)))
    ensures var s', was := Apply(c, s, Work(p, Settle(i, ok))), s.pipes[p];
      && |s'.pipes| == |s.pipes| && |s'.pipes[p].pending| == |was.pending|
      && s'.pipes[p].pending[i] == was.pending[i].(status := if ok then Done else Failed)
      && s'.avail == s.avail + (if ok then 0 else was.pending[i].size)
  {
  }
}
