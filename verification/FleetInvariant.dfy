/** What every step of the fleet keeps: ownership of slots, the cursors, the history of counted slots
    and the journal. */
module FleetInvariant {
  import opened Slots
  import opened Subranges
  import opened Worker
  import opened Fleet

  const MIN_PIECE: nat := MIN_STEAL_SLOTS / 2

  // ---------------------------------------------------------------------------------------------
  // The parts of the invariant.

  ghost predicate ThreadsOk(c: Config, ts: seq<Thread>) {
    && |ts| == c.threads
    && forall t | 0 <= t < |ts| && IsHeld(ts[t].phase) :: CursorOk(c.present, ts[t])
  }

  /** A held assignment is `[ledger start, end)` of the worker that holds it, and conversely. */
  ghost predicate HeldOk(ts: seq<Thread>, ps: seq<Piece>) {
    && (forall t | 0 <= t < |ts| && IsHeld(ts[t].phase) ::
          ts[t].id < |ps| && ps[ts[t].id] == Piece(Range(ts[t].ledger.start, ts[t].end), Held(t)))
    && (forall i | 0 <= i < |ps| && ps[i].holder.Held? ::
          ps[i].holder.t < |ts| && IsHeld(ts[ps[i].holder.t].phase) && ts[ps[i].holder.t].id == i)
  }

  /** The grant a worker has been sent and has not adopted yet. */
  function GrantOf(th: Thread): Option<(nat, Range)> {
    if IsWaiting(th) && th.phase.wait.reply.Granted?
    then Some((th.phase.wait.reply.id, th.phase.wait.reply.range))
    else if th.phase.Adopting? then Some((th.phase.id, th.phase.range))
    else None
  }

  ghost predicate SentOk(ts: seq<Thread>, ps: seq<Piece>) {
    && (forall t | 0 <= t < |ts| && GrantOf(ts[t]).Some? ::
          GrantOf(ts[t]).value.0 < |ps| && ps[GrantOf(ts[t]).value.0] == Piece(GrantOf(ts[t]).value.1, Sent(t)))
    && (forall i | 0 <= i < |ps| && ps[i].holder.Sent? ::
          ps[i].holder.to < |ts| && GrantOf(ts[ps[i].holder.to]) == Some((i, ps[i].range)))
  }

  /** The assignments are pairwise disjoint and their union is exactly `[lo, hi)`. */
  ghost predicate Tiles(ps: seq<Piece>, lo: nat, hi: nat) {
    && (forall i | 0 <= i < |ps| :: lo <= ps[i].range.lo <= ps[i].range.hi <= hi)
    && (forall i, j | 0 <= i < |ps| && 0 <= j < |ps| && i != j ::
          ps[i].range.hi <= ps[j].range.lo || ps[j].range.hi <= ps[i].range.lo)
    && (forall slot: nat | lo <= slot < hi :: Covered(ps, slot))
  }

  ghost predicate Covered(ps: seq<Piece>, slot: nat) {
    exists i :: 0 <= i < |ps| && ps[i].range.Has(slot)
  }

  function Total(ps: seq<Piece>): int {
    if ps == [] then 0 else Total(ps[..|ps| - 1]) + ps[|ps| - 1].range.Size()
  }

  /** Only a grant is ever in flight, and a grant is at least `MIN_PIECE` slots long for good. */
  ghost predicate PiecesOk(c: Config, ps: seq<Piece>) {
    && Tiles(ps, c.lo, c.hi)
    && c.threads <= |ps|
    && Total(ps) == c.hi - c.lo
    && (forall i | 0 <= i < |ps| :: c.threads <= i || !ps[i].holder.Sent?)
    && (forall i | 0 <= i < |ps| :: i < c.threads || ps[i].range.Size() >= MIN_PIECE)
  }

  ghost predicate Logged(log: seq<Event>, slot: nat) {
    exists k :: 0 <= k < |log| && log[k].slot == slot
  }

  /** The slot below which an assignment has been counted. */
  ghost function Mark(ts: seq<Thread>, p: Piece): nat
    requires p.holder.Held? ==> p.holder.t < |ts|
  {
    match p.holder
    case Held(t) => ts[t].lastCounted + 1
    case Sent(_) => p.range.lo
    case Done => p.range.hi
  }

  /** Within every assignment exactly the due slots below its mark have been counted, and no slot has
      been counted twice. */
  ghost predicate LogOk(c: Config, ts: seq<Thread>, ps: seq<Piece>, log: seq<Event>)
    requires HeldOk(ts, ps)
  {
    && (forall i, slot: nat | 0 <= i < |ps| && ps[i].range.Has(slot) && Due(c.present, slot) ::
          Logged(log, slot) <==> slot < Mark(ts, ps[i]))
    && (forall k | 0 <= k < |log| :: Due(c.present, log[k].slot) && c.lo <= log[k].slot < c.hi)
    && (forall j, k | 0 <= j < k < |log| :: log[j].slot != log[k].slot)
  }

  /** Journaled intervals hold only counted slots, and what a finished assignment left out of its
      journal entry is not due. */
  ghost predicate JournalOk(c: Config, ps: seq<Piece>, log: seq<Event>, journal: seq<Range>) {
    && (forall k | 0 <= k < |journal| :: c.lo <= journal[k].lo <= c.hi && journal[k].hi <= c.hi)
    && (forall k, slot: nat | 0 <= k < |journal| && journal[k].Has(slot) && Due(c.present, slot) ::
          Logged(log, slot))
    && (forall i | 0 <= i < |ps| && ps[i].holder.Done? :: Journaled(c, journal, ps[i].range))
  }

  ghost predicate Journaled(c: Config, journal: seq<Range>, r: Range) {
    exists k :: 0 <= k < |journal| && journal[k].lo == r.lo && NoDue(c.present, journal[k].hi, r.hi)
  }

  /** A thief without an answer has its request in the inbox of a running victim, or the victim is gone. */
  ghost predicate WaitOk(ts: seq<Thread>) {
    forall t | 0 <= t < |ts| :: WaitOkAt(ts, t)
  }

  ghost predicate WaitOkAt(ts: seq<Thread>, t: nat)
    requires t < |ts|
  {
    && (IsWaiting(ts[t]) && ts[t].phase.wait.reply.NoReply? ==> Reachable(ts, t))
    && (ts[t].phase.Hunting? ==> forall v | v in ts[t].phase.candidates :: Started(ts, t, v))
  }

  ghost predicate Started(ts: seq<Thread>, t: nat, v: nat) {
    v < |ts| && v != t && !ts[v].phase.Unstarted?
  }

  ghost predicate Reachable(ts: seq<Thread>, t: nat)
    requires t < |ts| && IsWaiting(ts[t])
  {
    var v := ts[t].phase.wait.victim;
    && Started(ts, t, v)
    && (IsExited(ts[v].phase) || Request(t, ts[t].ticket) in ts[v].inbox)
  }

  /** Everything but the waiting thieves. */
  ghost predicate Core(c: Config, s: State) {
    && c.Valid() && ThreadsOk(c, s.threads) && HeldOk(s.threads, s.pieces) && SentOk(s.threads, s.pieces)
    && PiecesOk(c, s.pieces) && LogOk(c, s.threads, s.pieces, s.log) && JournalOk(c, s.pieces, s.log, s.journal)
  }

  ghost predicate Inv(c: Config, s: State) { Core(c, s) && WaitOk(s.threads) }

  // ---------------------------------------------------------------------------------------------
  // Pieces.

  lemma {:induction false} TotalUpdate(ps: seq<Piece>, i: nat, p: Piece)
    requires i < |ps|
    ensures Total(ps[i := p]) == Total(ps) - ps[i].range.Size() + p.range.Size()
  {
    var n := |ps| - 1;
    if i == n {
      assert ps[i := p][..n] == ps[..n];
    } else {
      assert ps[i := p][..n] == ps[..n][i := p];
      TotalUpdate(ps[..n], i, p);
    }
  }

  lemma TotalAppend(ps: seq<Piece>, p: Piece)
    ensures Total(ps + [p]) == Total(ps) + p.range.Size()
  {
    assert (ps + [p])[..|ps|] == ps;
  }

  lemma SplitCover(ps: seq<Piece>, id: nat, mid: nat, to: nat, slot: nat)
    requires id < |ps| && ps[id].range.lo <= mid <= ps[id].range.hi && Covered(ps, slot)
    ensures Covered(SplitPieces(ps, id, mid, to), slot)
  {
    var i :| 0 <= i < |ps| && ps[i].range.Has(slot);
    var j := if i != id || slot < mid then i else |ps|;
    assert SplitPieces(ps, id, mid, to)[j].range.Has(slot);
  }

  lemma SplitTotal(ps: seq<Piece>, id: nat, mid: nat, to: nat)
    requires id < |ps|
    ensures Total(SplitPieces(ps, id, mid, to)) == Total(ps)
  {
    var left := ps[id].(range := Range(ps[id].range.lo, mid));
    TotalUpdate(ps, id, left);
    TotalAppend(ps[id := left], Piece(Range(mid, ps[id].range.hi), Sent(to)));
  }

  /** Cutting one assignment in two keeps the tiling and adds nothing to the total. */
  lemma SplitKeepsTiles(c: Config, ps: seq<Piece>, id: nat, mid: nat, to: nat)
    requires Tiles(ps, c.lo, c.hi) && id < |ps|
    requires ps[id].range.lo <= mid <= ps[id].range.hi
    ensures var qs := SplitPieces(ps, id, mid, to); Tiles(qs, c.lo, c.hi) && Total(qs) == Total(ps)
  {
    SplitTotal(ps, id, mid, to);
    forall slot: nat | c.lo <= slot < c.hi
      ensures Covered(SplitPieces(ps, id, mid, to), slot)
    {
      SplitCover(ps, id, mid, to, slot);
    }
  }

  lemma SameRangesTile(ps: seq<Piece>, i: nat, h: Holder, lo: nat, hi: nat)
    requires Tiles(ps, lo, hi) && i < |ps|
    ensures Tiles(ps[i := ps[i].(holder := h)], lo, hi) && Total(ps[i := ps[i].(holder := h)]) == Total(ps)
  {
    var qs := ps[i := ps[i].(holder := h)];
    TotalUpdate(ps, i, ps[i].(holder := h));
    forall slot | lo <= slot < hi
      ensures Covered(qs, slot)
    {
      assert Covered(ps, slot);
      var j :| 0 <= j < |ps| && ps[j].range.Has(slot);
      assert qs[j].range.Has(slot);
    }
  }

  // ---------------------------------------------------------------------------------------------
  // The initial state.

  lemma {:induction false} TotalOfAbutting(ps: seq<Piece>, lo: nat)
    requires |ps| > 0 && ps[0].range.lo == lo
    requires forall i | 0 <= i < |ps| - 1 :: ps[i].range.hi == ps[i + 1].range.lo
    ensures Total(ps) == ps[|ps| - 1].range.hi - lo
  {
    if |ps| > 1 { TotalOfAbutting(ps[..|ps| - 1], lo); }
  }

  lemma {:induction false} AbuttingOrdered(ps: seq<Piece>, i: nat, j: nat)
    requires i < j < |ps|
    requires forall k | 0 <= k < |ps| :: ps[k].range.lo <= ps[k].range.hi
    requires forall k | 0 <= k < |ps| - 1 :: ps[k].range.hi == ps[k + 1].range.lo
    ensures ps[i].range.hi <= ps[j].range.lo
    decreases j - i
  {
    if i + 1 < j { AbuttingOrdered(ps, i + 1, j); }
  }

  lemma {:induction false} AbuttingCover(ps: seq<Piece>, n: nat, slot: nat)
    requires 0 < n <= |ps|
    requires forall k | 0 <= k < |ps| :: ps[k].range.lo <= ps[k].range.hi
    requires forall k | 0 <= k < |ps| - 1 :: ps[k].range.hi == ps[k + 1].range.lo
    requires ps[0].range.lo <= slot < ps[n - 1].range.hi
    ensures Covered(ps, slot)
  {
    if ps[n - 1].range.lo <= slot {
      assert ps[n - 1].range.Has(slot);
    } else {
      AbuttingCover(ps, n - 1, slot);
    }
  }

  lemma AbuttingTile(ps: seq<Piece>, lo: nat, hi: nat)
    requires |ps| > 0 && ps[0].range.lo == lo && ps[|ps| - 1].range.hi == hi
    requires forall k | 0 <= k < |ps| :: lo <= ps[k].range.lo <= ps[k].range.hi <= hi
    requires forall k | 0 <= k < |ps| - 1 :: ps[k].range.hi == ps[k + 1].range.lo
    ensures Tiles(ps, lo, hi) && Total(ps) == hi - lo
  {
    TotalOfAbutting(ps, lo);
    forall i, j | 0 <= i < |ps| && 0 <= j < |ps| && i != j
      ensures ps[i].range.hi <= ps[j].range.lo || ps[j].range.hi <= ps[i].range.lo
    {
      AbuttingOrdered(ps, if i < j then i else j, if i < j then j else i);
    }
    forall slot: nat | lo <= slot < hi
      ensures Covered(ps, slot)
    {
      AbuttingCover(ps, |ps|, slot);
    }
  }

  lemma InitPieces(c: Config)
    requires c.Valid()
    ensures PiecesOk(c, Init(c).pieces)
  {
    var ps := Init(c).pieces;
    SubrangesAbut(c.lo, c.hi, c.threads);
    assert forall k | 0 <= k < |ps| :: ps[k].range == GenerateSubranges(c.lo, c.hi, c.threads)[k];
    AbuttingTile(ps, c.lo, c.hi);
  }

  lemma InitThreads(c: Config)
    requires c.Valid()
    ensures ThreadsOk(c, Init(c).threads)
  {
    var subranges := GenerateSubranges(c.lo, c.hi, c.threads);
    SubrangesAbut(c.lo, c.hi, c.threads);
    forall t | 0 <= t < c.threads
      ensures CursorOk(c.present, InitThread(t, subranges[t]))
    {
      StartAtZero(c.lo, c.hi, c.threads, t);
    }
  }

  lemma InitHolds(c: Config)
    requires c.Valid()
    ensures Inv(c, Init(c))
  {
    InitPieces(c);
    InitThreads(c);
  }
}
