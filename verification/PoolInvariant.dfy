/** What holds in every state of the prefetch pool, and the bookkeeping lemmas behind it. */
module PoolInvariant {
  import opened Slots
  import opened Octets
  import opened RangeReader
  import opened Pool
  import opened Sums

  lemma {:induction false} HeldSplit(a: seq<Piece>, b: seq<Piece>)
    ensures Held(a + b) == Held(a) + Held(b)
  {
    if a == [] {
      assert a + b == b;
    } else {
      assert (a + b)[1..] == a[1..] + b;
      HeldSplit(a[1..], b);
    }
  }

  lemma {:induction false} HeldUpdate(a: seq<Piece>, i: nat, f: Piece)
    requires i < |a|
    ensures Held(a[i := f]) == Held(a) - a[i].Held() + f.Held()
  {
    if i > 0 {
      assert a[i := f][1..] == a[1..][i - 1 := f];
      HeldUpdate(a[1..], i - 1, f);
    }
  }

  function PipeHolds(ps: seq<Pipe>): (xs: seq<nat>)
    ensures |xs| == |ps| && forall i | 0 <= i < |ps| :: xs[i] == PipeHeld(ps[i])
  {
    seq(|ps|, i requires 0 <= i < |ps| => PipeHeld(ps[i]))
  }

  function ReaderHolds(rs: seq<Reader>): (xs: seq<nat>)
    ensures |xs| == |rs| && forall i | 0 <= i < |rs| :: xs[i] == ReaderHeld(rs[i])
  {
    seq(|rs|, i requires 0 <= i < |rs| => ReaderHeld(rs[i]))
  }

  function PipesHeld(ps: seq<Pipe>): nat { Sum(PipeHolds(ps)) }
  function ReadersHeld(rs: seq<Reader>): nat { Sum(ReaderHolds(rs)) }

  lemma PipesHeldUpdate(ps: seq<Pipe>, i: nat, p: Pipe)
    requires i < |ps|
    ensures PipesHeld(ps[i := p]) == PipesHeld(ps) - PipeHeld(ps[i]) + PipeHeld(p)
  {
    SumUpdate(PipeHolds(ps), i, PipeHeld(p));
    assert PipeHolds(ps[i := p]) == PipeHolds(ps)[i := PipeHeld(p)];
  }

  lemma PipesHeldAppend(ps: seq<Pipe>, p: Pipe)
    ensures PipesHeld(ps + [p]) == PipesHeld(ps) + PipeHeld(p)
  {
    SumAppend(PipeHolds(ps), PipeHeld(p));
    assert PipeHolds(ps + [p]) == PipeHolds(ps) + [PipeHeld(p)];
  }

  lemma ReadersHeldUpdate(rs: seq<Reader>, i: nat, rd: Reader)
    requires i < |rs|
    ensures ReadersHeld(rs[i := rd]) == ReadersHeld(rs) - ReaderHeld(rs[i]) + ReaderHeld(rd)
  {
    SumUpdate(ReaderHolds(rs), i, ReaderHeld(rd));
    assert ReaderHolds(rs[i := rd]) == ReaderHolds(rs)[i := ReaderHeld(rd)];
  }

  /** The pieces abut, in order, from `from` to `to`. */
  ghost predicate Tile(ps: seq<Piece>, from: nat, to: nat) {
    if ps == [] then from == to else ps[0].start == from && Tile(ps[1..], ps[0].End(), to)
  }

  lemma {:induction false} TileAppend(ps: seq<Piece>, from: nat, to: nat, f: Piece)
    requires Tile(ps, from, to) && f.start == to
    ensures Tile(ps + [f], from, f.End())
    decreases |ps|
  {
    if ps == [] {
      assert ps + [f] == [f];
      assert Tile([], f.End(), f.End());
    } else {
      assert (ps + [f])[1..] == ps[1..] + [f];
      TileAppend(ps[1..], ps[0].End(), to, f);
    }
  }

  /** Changing how far a piece has got moves nothing. */
  lemma {:induction false} TileUpdate(ps: seq<Piece>, i: nat, f: Piece, from: nat, to: nat)
    requires i < |ps| && f.start == ps[i].start && f.size == ps[i].size && Tile(ps, from, to)
    ensures Tile(ps[i := f], from, to)
    decreases |ps|
  {
    if i > 0 {
      assert ps[i := f][1..] == ps[1..][i - 1 := f];
      TileUpdate(ps[1..], i - 1, f, ps[0].End(), to);
    }
  }

  lemma {:induction false} TilePrefix(a: seq<Piece>, b: seq<Piece>, from: nat, to: nat)
    requires a != [] && Tile(a + b, from, to)
    ensures Tile(a, from, a[|a| - 1].End())
    decreases |a|
  {
    assert (a + b)[1..] == a[1..] + b;
    if |a| > 1 {
      TilePrefix(a[1..], b, a[0].End(), to);
    }
  }

  lemma {:induction false} TileOrdered(ps: seq<Piece>, from: nat, to: nat)
    requires Tile(ps, from, to)
    ensures from <= to
    ensures ps != [] ==> ps[0].End() <= to
    decreases |ps|
  {
    if ps != [] { TileOrdered(ps[1..], ps[0].End(), to); }
  }

  /** Everything requested and not yet taken, in stream order. */
  function Line(p: Pipe): seq<Piece> { p.queue + InHand(p.phase) + p.pending }

  ghost predicate EndsFailed(ps: seq<Piece>) { ps != [] && ps[|ps| - 1].status.Failed? }

  /** How far the line reaches: to the next request; once the producer is gone, to the end of the object,
      unless it left after passing on a failure. */
  ghost function Reach(p: Pipe): nat {
    if !p.phase.Exited? then p.next
    else if EndsFailed(p.queue) then p.queue[|p.queue| - 1].End()
    else p.total
  }

  ghost predicate SizesOk(c: Config, ps: seq<Piece>) { forall i | 0 <= i < |ps| :: 0 < ps[i].size <= c.chunk }
  ghost predicate Finished(ps: seq<Piece>) { forall i | 0 <= i < |ps| :: !ps[i].status.Running? }

  /** What one pipeline keeps by itself. */
  ghost predicate PipeOk(c: Config, p: Pipe) {
    && p.next <= p.total && |p.pending| <= c.concurrency && |p.queue| <= c.concurrency
    && SizesOk(c, p.queue) && SizesOk(c, InHand(p.phase)) && SizesOk(c, p.pending)
    && Finished(p.queue) && Finished(InHand(p.phase))
    && (p.phase.Exited? || p.phase.Acquiring? ==> p.pending == [])
    && (p.phase.Acquiring? ==> p.next < p.total)
    && (p.phase.Awaiting? ==> p.pending != [])
    && (!p.live ==> p.queue == [])
    && (forall i | 0 <= i < |p.queue| :: p.queue[i].status.Failed? ==> i == |p.queue| - 1 && p.phase.Exited?)
  }

  /** A live pipeline's line runs on from where its reader's current chunk ends. */
  ghost predicate LineOk(p: Pipe, from: nat) { p.live ==> Tile(Line(p), from, Reach(p)) && Reach(p) <= p.total }

  /** Where the reader's current chunk ends. */
  function Frontier(rd: Reader): nat { if rd.current.Some? then rd.current.value.End() else rd.position }

  ghost predicate ReaderOk(c: Config, rd: Reader, len: nat) {
    && (rd.current.Some? ==>
          var p := rd.current.value;
          && rd.pipe.Some? && p.status.Done? && p.start + rd.offset == rd.position && rd.offset < p.size
          && p.End() <= len)
  }

  ghost predicate HistoryOk(bytes: seq<Byte>, rd: Reader, since: nat, heard: seq<Byte>) {
    && since <= rd.position && (rd.position <= |bytes| || since == rd.position)
    && heard == Slice(bytes, since, rd.position - since)
  }

  /** Reader `r` and the pipeline it names belong together. */
  ghost predicate ReaderAt(c: Config, ps: seq<Pipe>, rs: seq<Reader>, r: nat)
    requires r < |rs| == |c.objects|
  {
    && ReaderOk(c, rs[r], |c.objects[r]|)
    && (rs[r].pipe.Some? ==> rs[r].pipe.value < |ps| && ps[rs[r].pipe.value].live && ps[rs[r].pipe.value].owner == r)
  }

  ghost predicate PipeAt(c: Config, ps: seq<Pipe>, rs: seq<Reader>, p: nat)
    requires p < |ps| && |rs| == |c.objects|
  {
    && PipeOk(c, ps[p]) && ps[p].owner < |rs| && ps[p].total == |c.objects[ps[p].owner]|
    && (ps[p].live ==> rs[ps[p].owner].pipe == Some(p))
    && LineOk(ps[p], Frontier(rs[ps[p].owner]))
  }

  ghost predicate Matched(c: Config, ps: seq<Pipe>, rs: seq<Reader>) {
    && |rs| == |c.objects|
    && (forall r | 0 <= r < |rs| :: ReaderAt(c, ps, rs, r))
    && (forall p | 0 <= p < |ps| :: PipeAt(c, ps, rs, p))
  }

  ghost predicate Histories(c: Config, rs: seq<Reader>, since: seq<nat>, heard: seq<seq<Byte>>) {
    && |since| == |heard| == |rs| == |c.objects|
    && forall r | 0 <= r < |rs| :: HistoryOk(c.objects[r], rs[r], since[r], heard[r])
  }

  ghost predicate Conserved(c: Config, avail: nat, dying: nat, ps: seq<Pipe>, rs: seq<Reader>) {
    avail + dying + PipesHeld(ps) + ReadersHeld(rs) == c.budget
  }

  ghost predicate Inv(c: Config, s: State) {
    && Matched(c, s.pipes, s.readers)
    && Histories(c, s.readers, s.since, s.heard)
    && Conserved(c, s.avail, s.dying, s.pipes, s.readers)
    && forall r | r in s.gone && r < |s.readers| :: s.readers[r].pipe.None?
  }

  lemma InitHolds(c: Config)
    requires c.Valid()
    ensures Inv(c, Init(c))
  {
    var s := Init(c);
    SumZeros(PipeHolds(s.pipes));
    SumZeros(ReaderHolds(s.readers));
  }
}
