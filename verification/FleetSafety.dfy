/** Every step of the fleet keeps the invariant. */
module FleetSafety {
  import opened Slots
  import opened Worker
  import opened Fleet
  import opened FleetInvariant

  // ---------------------------------------------------------------------------------------------
  // One worker changes, the assignments do not.

  /** The worker keeps its assignment and its grant. */
  ghost predicate SameOwner(th: Thread, th': Thread) {
    && GrantOf(th') == GrantOf(th)
    && (IsHeld(th.phase) <==> IsHeld(th'.phase))
    && (IsHeld(th.phase) ==> th'.id == th.id && th'.ledger.start == th.ledger.start && th'.end == th.end)
  }

  /** And its counted cursor passes nothing due. */
  ghost predicate Quiet(c: Config, th: Thread, th': Thread) {
    && SameOwner(th, th')
    && (IsHeld(th.phase) ==>
          && th.lastCounted <= th'.lastCounted
          && NoDue(c.present, th.lastCounted + 1, th'.lastCounted + 1))
  }

  lemma SameOwners(ts: seq<Thread>, ps: seq<Piece>, t: nat, th': Thread)
    requires HeldOk(ts, ps) && SentOk(ts, ps) && t < |ts| && SameOwner(ts[t], th')
    ensures HeldOk(ts[t := th'], ps) && SentOk(ts[t := th'], ps)
  {
  }

  lemma QuietLog(c: Config, ts: seq<Thread>, ps: seq<Piece>, log: seq<Event>, t: nat, th': Thread)
    requires HeldOk(ts, ps) && LogOk(c, ts, ps, log) && t < |ts| && Quiet(c, ts[t], th')
    requires HeldOk(ts[t := th'], ps)
    ensures LogOk(c, ts[t := th'], ps, log)
  {
    forall i, slot: nat | 0 <= i < |ps| && ps[i].range.Has(slot) && Due(c.present, slot)
      ensures Logged(log, slot) <==> slot < Mark(ts[t := th'], ps[i])
    {
      assert Logged(log, slot) <==> slot < Mark(ts, ps[i]);
    }
  }

  lemma ThreadChange(c: Config, ts: seq<Thread>, t: nat, th': Thread)
    requires ThreadsOk(c, ts) && t < |ts|
    requires IsHeld(th'.phase) ==> CursorOk(c.present, th')
    ensures ThreadsOk(c, ts[t := th'])
  {
  }

  lemma FreeThread(c: Config, ts: seq<Thread>, t: nat, th': Thread)
    requires ThreadsOk(c, ts) && t < |ts| && !IsHeld(th'.phase)
    ensures ThreadsOk(c, ts[t := th'])
  {
  }

  lemma InboxThread(c: Config, ts: seq<Thread>, t: nat, inbox: seq<Request>)
    requires ThreadsOk(c, ts) && t < |ts|
    ensures ThreadsOk(c, ts[t := ts[t].(inbox := inbox)])
  {
    if IsHeld(ts[t].phase) { assert CursorOk(c.present, ts[t].(inbox := inbox)); }
  }

  lemma QuietKeeps(c: Config, s: State, t: nat, th': Thread)
    requires Core(c, s) && t < |s.threads| && Quiet(c, s.threads[t], th') && ThreadsOk(c, s.threads[t := th'])
    ensures Core(c, SetThread(s, t, th'))
  {
    SameOwners(s.threads, s.pieces, t, th');
    QuietLog(c, s.threads, s.pieces, s.log, t, th');
  }

  lemma DeliverRefusalKeeps(c: Config, s: State, r: Request)
    requires Core(c, s)
    ensures Core(c, Deliver(s, r, Refused))
  {
    if Live(s, r) {
      FreeKeeps(c, s, r.thief, WithReply(s.threads[r.thief], Refused));
    }
  }

  // ---------------------------------------------------------------------------------------------
  // A block is counted.

  lemma LoggedAppend(log: seq<Event>, e: Event, slot: nat)
    ensures Logged(log + [e], slot) <==> Logged(log, slot) || e.slot == slot
  {
    var log' := log + [e];
    if e.slot == slot { assert log'[|log|].slot == slot; }
    if Logged(log, slot) {
      var k :| 0 <= k < |log| && log[k].slot == slot;
      assert log'[k].slot == slot;
    }
  }

  /** `slot` is the next due slot above the cursor of `th`'s assignment. */
  ghost predicate IsNextDue(c: Config, th: Thread, slot: nat) {
    && Due(c.present, slot) && th.ledger.start <= slot < th.end
    && th.lastCounted < slot && NoDue(c.present, th.lastCounted + 1, slot)
  }

  /** Counting the next due slot of an assignment counts it for the first time. */
  lemma CountLog(c: Config, ts: seq<Thread>, ps: seq<Piece>, log: seq<Event>, t: nat, th': Thread, slot: nat)
    requires HeldOk(ts, ps) && LogOk(c, ts, ps, log) && PiecesOk(c, ps) && t < |ts| && IsHeld(ts[t].phase)
    requires SameOwner(ts[t], th') && HeldOk(ts[t := th'], ps)
    requires IsNextDue(c, ts[t], slot) && th'.lastCounted == slot
    ensures LogOk(c, ts[t := th'], ps, log + [Event(t, slot)])
    ensures !Logged(log, slot)
  {
    assert ps[ts[t].id].range.Has(slot);
    forall i, x: nat | 0 <= i < |ps| && ps[i].range.Has(x) && Due(c.present, x)
      ensures Logged(log + [Event(t, slot)], x) <==> x < Mark(ts[t := th'], ps[i])
    {
      LoggedAppend(log, Event(t, slot), x);
      assert Logged(log, x) <==> x < Mark(ts, ps[i]);
    }
  }

  lemma LongerLogJournal(c: Config, ps: seq<Piece>, log: seq<Event>, journal: seq<Range>, e: Event)
    requires JournalOk(c, ps, log, journal)
    ensures JournalOk(c, ps, log + [e], journal)
  {
    forall k, slot: nat | 0 <= k < |journal| && journal[k].Has(slot) && Due(c.present, slot)
      ensures Logged(log + [e], slot)
    {
      LoggedAppend(log, e, slot);
    }
  }

  lemma CountingKeeps(c: Config, s: State, t: nat, th': Thread, slot: nat)
    requires Core(c, s) && t < |s.threads| && IsHeld(s.threads[t].phase)
    requires SameOwner(s.threads[t], th') && ThreadsOk(c, s.threads[t := th'])
    requires IsNextDue(c, s.threads[t], slot) && th'.lastCounted == slot
    ensures Core(c, SetThread(s, t, th').(log := s.log + [Event(t, slot)]))
  {
    SameOwners(s.threads, s.pieces, t, th');
    CountLog(c, s.threads, s.pieces, s.log, t, th', slot);
    LongerLogJournal(c, s.pieces, s.log, s.journal, Event(t, slot));
  }

  /** What counting does to the worker itself. */
  lemma CountThread(c: Config, ts: seq<Thread>, t: nat)
    requires ThreadsOk(c, ts) && t < |ts| && ts[t].phase.Processing?
    ensures ThreadsOk(c, ts[t := CountStep(ts[t])]) && SameOwner(ts[t], CountStep(ts[t]))
    ensures var th, slot := ts[t], ts[t].phase.slot;
      if slot <= th.lastCounted then Quiet(c, th, CountStep(th))
      else IsNextDue(c, th, slot) && CountStep(th).lastCounted == slot
  {
    CountKeepsCursor(c.present, ts[t]);
    ThreadChange(c, ts, t, CountStep(ts[t]));
  }

  lemma CountKeeps(c: Config, s: State, t: nat)
    requires Core(c, s) && Enabled(c, s, Count(t))
    ensures Core(c, Apply(c, s, Count(t)))
  {
    var th := s.threads[t];
    CountThread(c, s.threads, t);
    if th.phase.slot <= th.lastCounted {
      QuietKeeps(c, s, t, CountStep(th));
    } else {
      CountingKeeps(c, s, t, CountStep(th), th.phase.slot);
    }
  }

  // ---------------------------------------------------------------------------------------------
  // An assignment is journaled.

  lemma HolderChange(c: Config, ps: seq<Piece>, id: nat, h: Holder)
    requires PiecesOk(c, ps) && id < |ps| && !h.Sent?
    ensures PiecesOk(c, ps[id := ps[id].(holder := h)])
  {
    SameRangesTile(ps, id, h, c.lo, c.hi);
  }

  lemma JournalOwners(ts: seq<Thread>, ps: seq<Piece>, t: nat, th': Thread)
    requires HeldOk(ts, ps) && SentOk(ts, ps) && t < |ts| && IsHeld(ts[t].phase)
    requires !IsHeld(th'.phase) && GrantOf(th').None?
    ensures var ps' := ps[ts[t].id := ps[ts[t].id].(holder := Done)];
      HeldOk(ts[t := th'], ps') && SentOk(ts[t := th'], ps')
  {
  }

  lemma JournalLog(c: Config, ts: seq<Thread>, ps: seq<Piece>, log: seq<Event>, t: nat, th': Thread)
    requires HeldOk(ts, ps) && LogOk(c, ts, ps, log) && t < |ts| && IsHeld(ts[t].phase)
    requires ts[t].lastCounted < ts[t].end && NoDue(c.present, ts[t].lastCounted + 1, ts[t].end)
    ensures var ps' := ps[ts[t].id := ps[ts[t].id].(holder := Done)];
      HeldOk(ts[t := th'], ps') ==> LogOk(c, ts[t := th'], ps', log)
  {
    var ps' := ps[ts[t].id := ps[ts[t].id].(holder := Done)];
    if HeldOk(ts[t := th'], ps') {
      forall i, slot: nat | 0 <= i < |ps'| && ps'[i].range.Has(slot) && Due(c.present, slot)
        ensures Logged(log, slot) <==> slot < Mark(ts[t := th'], ps'[i])
      {
        assert ps[i].range.Has(slot);
        assert Logged(log, slot) <==> slot < Mark(ts, ps[i]);
      }
    }
  }

  lemma JournalEntry(c: Config, ps: seq<Piece>, log: seq<Event>, journal: seq<Range>, id: nat, entry: Range)
    requires JournalOk(c, ps, log, journal) && id < |ps|
    requires c.lo <= entry.lo <= c.hi && entry.hi <= c.hi && entry.lo == ps[id].range.lo
    requires NoDue(c.present, entry.hi, ps[id].range.hi)
    requires forall slot: nat | entry.Has(slot) && Due(c.present, slot) :: Logged(log, slot)
    ensures JournalOk(c, ps[id := ps[id].(holder := Done)], log, journal + [entry])
  {
    var ps' := ps[id := ps[id].(holder := Done)];
    var journal' := journal + [entry];
    forall i | 0 <= i < |ps'| && ps'[i].holder.Done?
      ensures Journaled(c, journal', ps'[i].range)
    {
      if i == id {
        assert journal'[|journal|] == entry;
      } else {
        var k :| 0 <= k < |journal| && journal[k].lo == ps[i].range.lo
                 && NoDue(c.present, journal[k].hi, ps[i].range.hi);
        assert journal'[k] == journal[k];
      }
    }
  }

  lemma CountedBelowCursor(c: Config, ts: seq<Thread>, ps: seq<Piece>, log: seq<Event>, t: nat)
    requires HeldOk(ts, ps) && LogOk(c, ts, ps, log) && t < |ts| && IsHeld(ts[t].phase)
    requires ts[t].lastCounted < ts[t].end
    ensures forall slot: nat | ts[t].ledger.start <= slot <= ts[t].lastCounted && Due(c.present, slot) ::
              Logged(log, slot)
  {
    forall slot: nat | ts[t].ledger.start <= slot <= ts[t].lastCounted && Due(c.present, slot)
      ensures Logged(log, slot)
    {
      assert ps[ts[t].id].range.Has(slot);
    }
  }

  lemma JournalingKeeps(c: Config, s: State, t: nat, th': Thread, s': State)
    requires Core(c, s) && t < |s.threads| && IsHeld(s.threads[t].phase) && s.threads[t].id < |s.pieces|
    requires !IsHeld(th'.phase) && GrantOf(th').None?
    requires s.threads[t].lastCounted < s.threads[t].end
    requires NoDue(c.present, s.threads[t].lastCounted + 1, s.threads[t].end)
    requires var id := s.threads[t].id;
      s' == SetThread(s, t, th').(
              journal := s.journal + [Range(s.threads[t].ledger.start, s.threads[t].lastCounted + 1)],
              pieces := s.pieces[id := s.pieces[id].(holder := Done)])
    ensures Core(c, s')
  {
    JournalOwners(s.threads, s.pieces, t, th');
    JournalLog(c, s.threads, s.pieces, s.log, t, th');
    FreeThread(c, s.threads, t, th');
    HolderChange(c, s.pieces, s.threads[t].id, Done);
    CountedBelowCursor(c, s.threads, s.pieces, s.log, t);
    JournalEntry(c, s.pieces, s.log, s.journal, s.threads[t].id,
                 Range(s.threads[t].ledger.start, s.threads[t].lastCounted + 1));
  }

  lemma FinishedIsComplete(c: Config, ts: seq<Thread>, t: nat)
    requires ThreadsOk(c, ts) && t < |ts| && ts[t].phase.Finished?
    ensures ts[t].lastCounted < ts[t].end && NoDue(c.present, ts[t].lastCounted + 1, ts[t].end)
  {
    assert CursorOk(c.present, ts[t]);
  }

  lemma JournalKeeps(c: Config, s: State, t: nat)
    requires Core(c, s) && Enabled(c, s, Journal(t))
    ensures Core(c, Apply(c, s, Journal(t)))
  {
    FinishedIsComplete(c, s.threads, t);
    JournalingKeeps(c, s, t, Emptied(s.threads[t]), JournalOne(s, t));
  }

  // ---------------------------------------------------------------------------------------------
  // A grant is adopted.

  lemma NoNewDone(c: Config, ps: seq<Piece>, log: seq<Event>, journal: seq<Range>, id: nat, t: nat)
    requires JournalOk(c, ps, log, journal) && id < |ps|
    ensures JournalOk(c, ps[id := ps[id].(holder := Held(t))], log, journal)
  {
  }

  lemma AdoptOwners(ts: seq<Thread>, ps: seq<Piece>, t: nat, th': Thread)
    requires HeldOk(ts, ps) && SentOk(ts, ps) && t < |ts| && ts[t].phase.Adopting?
    requires IsHeld(th'.phase) && th'.id == ts[t].phase.id
    requires Range(th'.ledger.start, th'.end) == ts[t].phase.range
    ensures var id := ts[t].phase.id;
      && id < |ps| && ps[id] == Piece(ts[t].phase.range, Sent(t))
      && HeldOk(ts[t := th'], ps[id := ps[id].(holder := Held(t))])
      && SentOk(ts[t := th'], ps[id := ps[id].(holder := Held(t))])
  {
    assert GrantOf(ts[t]).Some?;
  }

  lemma AdoptLog(c: Config, ts: seq<Thread>, ps: seq<Piece>, log: seq<Event>, t: nat, th': Thread, id: nat)
    requires HeldOk(ts, ps) && LogOk(c, ts, ps, log) && t < |ts| && !IsHeld(ts[t].phase)
    requires id < |ps| && ps[id].holder.Sent? && th'.lastCounted == SatPred(ps[id].range.lo)
    ensures var ps' := ps[id := ps[id].(holder := Held(t))];
      HeldOk(ts[t := th'], ps') ==> LogOk(c, ts[t := th'], ps', log)
  {
    var ps' := ps[id := ps[id].(holder := Held(t))];
    if HeldOk(ts[t := th'], ps') {
      forall i, slot: nat | 0 <= i < |ps'| && ps'[i].range.Has(slot) && Due(c.present, slot)
        ensures Logged(log, slot) <==> slot < Mark(ts[t := th'], ps'[i])
      {
        assert ps[i].range.Has(slot);
        assert Logged(log, slot) <==> slot < Mark(ts, ps[i]);
      }
    }
  }

  lemma AdoptedThread(c: Config, ts: seq<Thread>, t: nat, r: Range, id: nat)
    requires ThreadsOk(c, ts) && t < |ts| && r.lo < r.hi
    ensures ThreadsOk(c, ts[t := Adopted(ts[t], r, id)])
  {
    ThreadChange(c, ts, t, Adopted(ts[t], r, id));
  }

  lemma AdoptingKeeps(c: Config, s: State, t: nat, th': Thread)
    requires Core(c, s) && t < |s.threads| && s.threads[t].phase.Adopting?
    requires IsHeld(th'.phase) && th'.id == s.threads[t].phase.id && ThreadsOk(c, s.threads[t := th'])
    requires Range(th'.ledger.start, th'.end) == s.threads[t].phase.range
    requires th'.lastCounted == SatPred(th'.ledger.start)
    ensures var id := s.threads[t].phase.id;
      && id < |s.pieces|
      && Core(c, SetThread(s, t, th').(pieces := s.pieces[id := s.pieces[id].(holder := Held(t))]))
  {
    var id := s.threads[t].phase.id;
    AdoptOwners(s.threads, s.pieces, t, th');
    AdoptLog(c, s.threads, s.pieces, s.log, t, th', id);
    HolderChange(c, s.pieces, id, Held(t));
    NoNewDone(c, s.pieces, s.log, s.journal, id, t);
  }

  lemma GrantIsLong(c: Config, ts: seq<Thread>, ps: seq<Piece>, t: nat)
    requires SentOk(ts, ps) && PiecesOk(c, ps) && t < |ts| && ts[t].phase.Adopting?
    ensures ts[t].phase.range.Size() >= MIN_PIECE
  {
    assert GrantOf(ts[t]).Some?;
  }

  lemma AdoptLastKeeps(c: Config, s: State, t: nat)
    requires Core(c, s) && t < |s.threads| && s.threads[t].phase.Adopting? && s.threads[t].phase.stored >= 2
    ensures Core(c, Adopt(s, t))
  {
    var Adopting(id, r, _) := s.threads[t].phase;
    GrantIsLong(c, s.threads, s.pieces, t);
    AdoptedThread(c, s.threads, t, r, id);
    AdoptingKeeps(c, s, t, Adopted(s.threads[t], r, id));
  }

  /** The first two stores touch only the ledger entry of a worker without an assignment. */
  lemma AdoptFirstKeeps(c: Config, s: State, t: nat)
    requires Core(c, s) && t < |s.threads| && s.threads[t].phase.Adopting? && s.threads[t].phase.stored < 2
    ensures Core(c, Adopt(s, t))
  {
    FreeKeeps(c, s, t, Adopt(s, t).threads[t]);
  }

  lemma AdoptKeeps(c: Config, s: State, t: nat)
    requires Core(c, s) && t < |s.threads| && s.threads[t].phase.Adopting?
    ensures Core(c, Adopt(s, t))
  {
    if s.threads[t].phase.stored < 2 { AdoptFirstKeeps(c, s, t); } else { AdoptLastKeeps(c, s, t); }
  }

  // ---------------------------------------------------------------------------------------------
  // A grant is sent.

  /** Victim `t` gives `[mid, end)` of its assignment to `to`, whose grant it becomes. */
  ghost predicate IsGrant(ts: seq<Thread>, n: nat, t: nat, v': Thread, to: nat, w': Thread, mid: nat) {
    && t < |ts| && to < |ts| && t != to
    && IsHeld(ts[t].phase) && IsHeld(v'.phase) && GrantOf(v').None?
    && v'.id == ts[t].id && v'.ledger.start == ts[t].ledger.start && v'.lastCounted == ts[t].lastCounted
    && v'.end == mid && ts[t].ledger.start + MIN_PIECE <= mid && mid + MIN_PIECE <= ts[t].end
    && ts[t].lastCounted < mid
    && !IsHeld(ts[to].phase) && !IsHeld(w'.phase) && GrantOf(ts[to]).None?
    && GrantOf(w') == Some((n, Range(mid, ts[t].end)))
  }

  lemma GrantOwners(ts: seq<Thread>, ps: seq<Piece>, t: nat, v': Thread, to: nat, w': Thread, mid: nat)
    requires HeldOk(ts, ps) && SentOk(ts, ps) && IsGrant(ts, |ps|, t, v', to, w', mid)
    ensures HeldOk(ts[t := v'][to := w'], SplitPieces(ps, ts[t].id, mid, to))
    ensures SentOk(ts[t := v'][to := w'], SplitPieces(ps, ts[t].id, mid, to))
  {
  }

  lemma GrantLog(c: Config, ts: seq<Thread>, ps: seq<Piece>, log: seq<Event>, t: nat, v': Thread, to: nat,
                 w': Thread, mid: nat)
    requires HeldOk(ts, ps) && LogOk(c, ts, ps, log) && IsGrant(ts, |ps|, t, v', to, w', mid)
    requires HeldOk(ts[t := v'][to := w'], SplitPieces(ps, ts[t].id, mid, to))
    ensures LogOk(c, ts[t := v'][to := w'], SplitPieces(ps, ts[t].id, mid, to), log)
  {
    var id := ts[t].id;
    var ps' := SplitPieces(ps, id, mid, to);
    var ts' := ts[t := v'][to := w'];
    forall i, slot: nat | 0 <= i < |ps'| && ps'[i].range.Has(slot) && Due(c.present, slot)
      ensures Logged(log, slot) <==> slot < Mark(ts', ps'[i])
    {
      var j := if i == |ps| then id else i;
      assert ps[j].range.Has(slot);
      assert Logged(log, slot) <==> slot < Mark(ts, ps[j]);
    }
  }

  lemma GrantPieces(c: Config, ps: seq<Piece>, id: nat, mid: nat, to: nat)
    requires PiecesOk(c, ps) && id < |ps| && !ps[id].holder.Sent?
    requires ps[id].range.lo + MIN_PIECE <= mid && mid + MIN_PIECE <= ps[id].range.hi
    ensures PiecesOk(c, SplitPieces(ps, id, mid, to))
  {
    SplitKeepsTiles(c, ps, id, mid, to);
  }

  lemma GrantJournal(c: Config, ps: seq<Piece>, log: seq<Event>, journal: seq<Range>, id: nat, mid: nat, to: nat)
    requires JournalOk(c, ps, log, journal) && id < |ps| && ps[id].holder.Held?
    ensures JournalOk(c, SplitPieces(ps, id, mid, to), log, journal)
  {
  }

  lemma GrantKeeps(c: Config, s: State, t: nat, v': Thread, to: nat, w': Thread, mid: nat)
    requires Core(c, s) && IsGrant(s.threads, |s.pieces|, t, v', to, w', mid) && ThreadsOk(c, s.threads[t := v'])
    ensures s.threads[t].id < |s.pieces|
    ensures Core(c, s.(threads := s.threads[t := v'][to := w'],
                       pieces := SplitPieces(s.pieces, s.threads[t].id, mid, to)))
  {
    var id := s.threads[t].id;
    GrantOwners(s.threads, s.pieces, t, v', to, w', mid);
    GrantLog(c, s.threads, s.pieces, s.log, t, v', to, w', mid);
    FreeThread(c, s.threads[t := v'], to, w');
    GrantPieces(c, s.pieces, id, mid, to);
    GrantJournal(c, s.pieces, s.log, s.journal, id, mid, to);
  }

  /** What granting does to the victim itself. */
  lemma ServeThread(c: Config, ts: seq<Thread>, t: nat, mid: nat)
    requires ThreadsOk(c, ts) && t < |ts| && Serves(ts[t].phase) && ts[t].inbox != [] && IsHeld(ts[t].phase)
    requires SplitPoint(Position(ts[t]), ts[t].end, true) == Some(mid)
    ensures ThreadsOk(c, ts[t := ServeStep(ts[t], Some(mid))])
    ensures ts[t].lastCounted < mid && ts[t].ledger.start + MIN_PIECE <= mid && mid + MIN_PIECE <= ts[t].end
  {
    ServeKeepsCursor(c.present, ts[t]);
    ThreadChange(c, ts, t, ServeStep(ts[t], Some(mid)));
  }

  lemma ServeGrantKeeps(c: Config, s: State, t: nat, mid: nat)
    requires Core(c, s) && t < |s.threads| && Serves(s.threads[t].phase) && s.threads[t].inbox != []
    requires IsHeld(s.threads[t].phase) && Live(s, s.threads[t].inbox[0])
    requires SplitPoint(Position(s.threads[t]), s.threads[t].end, true) == Some(mid)
    ensures Core(c, ServeOne(s, t))
  {
    var th := s.threads[t];
    var to := th.inbox[0].thief;
    var w' := WithReply(s.threads[to], Granted(|s.pieces|, Range(mid, th.end)));
    ServeThread(c, s.threads, t, mid);
    GrantKeeps(c, s, t, ServeStep(th, Some(mid)), to, w', mid);
    assert ServeOne(s, t).threads == s.threads[t := ServeStep(th, Some(mid))][to := w'];
  }

  lemma ServeRefusalKeeps(c: Config, s: State, t: nat)
    requires Core(c, s) && t < |s.threads| && s.threads[t].inbox != []
    ensures Core(c, Deliver(SetThread(s, t, ServeStep(s.threads[t], None)), s.threads[t].inbox[0], Refused))
  {
    InboxThread(c, s.threads, t, s.threads[t].inbox[1..]);
    QuietKeeps(c, s, t, ServeStep(s.threads[t], None));
    DeliverRefusalKeeps(c, SetThread(s, t, ServeStep(s.threads[t], None)), s.threads[t].inbox[0]);
  }

  lemma ServeKeeps(c: Config, s: State, t: nat)
    requires Core(c, s) && t < |s.threads| && Serves(s.threads[t].phase) && s.threads[t].inbox != []
    ensures Core(c, ServeOne(s, t))
  {
    var mid := SplitPoint(Position(s.threads[t]), s.threads[t].end, IsHeld(s.threads[t].phase));
    if mid.Some? && Live(s, s.threads[t].inbox[0]) {
      ServeGrantKeeps(c, s, t, mid.value);
    } else {
      ServeRefusalKeeps(c, s, t);
    }
  }

  lemma LocalThread(c: Config, ts: seq<Thread>, t: nat, m: Move)
    requires ThreadsOk(c, ts) && t < |ts| && MoveEnabled(c.present, ts[t], m)
    ensures Quiet(c, ts[t], MoveStep(c.present, ts[t], m)) && ThreadsOk(c, ts[t := MoveStep(c.present, ts[t], m)])
  {
    StepKeepsCursor(c.present, ts[t], m);
    ThreadChange(c, ts, t, MoveStep(c.present, ts[t], m));
  }

  lemma LocalKeeps(c: Config, s: State, t: nat, m: Move)
    requires Core(c, s) && t < |s.threads| && MoveEnabled(c.present, s.threads[t], m)
    ensures Core(c, SetThread(s, t, MoveStep(c.present, s.threads[t], m)))
  {
    LocalThread(c, s.threads, t, m);
    QuietKeeps(c, s, t, MoveStep(c.present, s.threads[t], m));
  }

  /** A change of a worker without an assignment that leaves its grant alone. */
  lemma FreeKeeps(c: Config, s: State, t: nat, th': Thread)
    requires Core(c, s) && t < |s.threads| && !IsHeld(s.threads[t].phase) && !IsHeld(th'.phase)
    requires GrantOf(s.threads[t]) == GrantOf(th')
    ensures Core(c, SetThread(s, t, th'))
  {
    FreeThread(c, s.threads, t, th');
    QuietKeeps(c, s, t, th');
  }

  lemma InboxGrows(c: Config, s: State, v: nat, r: Request, s': State)
    requires Core(c, s) && v < |s.threads| && s' == Enqueue(s, v, r)
    ensures Core(c, s')
  {
    InboxThread(c, s.threads, v, s.threads[v].inbox + [r]);
    QuietKeeps(c, s, v, s.threads[v].(inbox := s.threads[v].inbox + [r]));
  }

  /** The thief's half of a request. */
  lemma AskerKeeps(c: Config, s: State, t: nat, v: nat, rest: seq<nat>, s': State)
    requires Core(c, s) && t < |s.threads| && !IsHeld(s.threads[t].phase) && GrantOf(s.threads[t]).None?
    requires s' == SetThread(s, t, Asking(s.threads[t], v, rest))
    ensures Core(c, s')
  {
    FreeKeeps(c, s, t, Asking(s.threads[t], v, rest));
  }

  /** Both halves, the victim's inbox last. */
  lemma AskSendKeeps(c: Config, s: State, t: nat, v: nat, rest: seq<nat>, s1: State, s': State)
    requires t < |s.threads| && v < |s.threads| && Core(c, s1)
    requires s1 == SetThread(s, t, Asking(s.threads[t], v, rest)) && s' == AskSend(s, t, v, rest)
    ensures Core(c, s')
  {
    InboxGrows(c, s1, v, Request(t, s.threads[t].ticket + 1), s');
  }

  lemma AskKeeps(c: Config, s: State, t: nat)
    requires Core(c, s) && t < |s.threads| && s.threads[t].phase.Hunting? && s.threads[t].phase.wait.Idle?
    requires s.threads[t].phase.candidates != [] && s.threads[t].phase.candidates[0] < |s.threads|
    ensures Core(c, AskNext(s, t))
  {
    var v, rest := s.threads[t].phase.candidates[0], s.threads[t].phase.candidates[1..];
    if IsExited(s.threads[v].phase) {
      FreeKeeps(c, s, t, s.threads[t].(phase := Hunting(rest, Idle)));
    } else {
      var s1 := SetThread(s, t, Asking(s.threads[t], v, rest));
      AskerKeeps(c, s, t, v, rest, s1);
      AskSendKeeps(c, s, t, v, rest, s1, AskNext(s, t));
    }
  }

  lemma RefuseKeeps(c: Config, s: State, t: nat)
    requires Core(c, s) && Enabled(c, s, Refuse(t))
    ensures Core(c, Apply(c, s, Refuse(t)))
  {
    var th' := s.threads[t].(inbox := s.threads[t].inbox[1..]);
    FreeKeeps(c, s, t, th');
    DeliverRefusalKeeps(c, SetThread(s, t, th'), s.threads[t].inbox[0]);
  }

  predicate IsHunterStep(a: Action) {
    a.DrainDone? || a.Scan? || a.TakeReply? || a.VictimGone? || a.Abandon? || a.Retire?
  }

  lemma HunterIsFree(c: Config, s: State, a: Action)
    requires Enabled(c, s, a) && IsHunterStep(a)
    ensures var th' := Apply(c, s, a).threads[a.t];
      && Apply(c, s, a) == SetThread(s, a.t, th')
      && !IsHeld(s.threads[a.t].phase) && !IsHeld(th'.phase) && GrantOf(s.threads[a.t]) == GrantOf(th')
  {
  }

  lemma HunterKeeps(c: Config, s: State, a: Action)
    requires Core(c, s) && Enabled(c, s, a) && IsHunterStep(a)
    ensures Core(c, Apply(c, s, a))
  {
    HunterIsFree(c, s, a);
    FreeKeeps(c, s, a.t, Apply(c, s, a).threads[a.t]);
  }

  lemma StepKeepsCore(c: Config, s: State, a: Action)
    requires Core(c, s) && Enabled(c, s, a)
    ensures Core(c, Apply(c, s, a))
  {
    match a {
      case RaiseShutdown =>
      case Local(t, m) => LocalKeeps(c, s, t, m);
      case Serve(t) => ServeKeeps(c, s, t);
      case Count(t) => CountKeeps(c, s, t);
      case Journal(t) => JournalKeeps(c, s, t);
      case Ask(t) => AskKeeps(c, s, t);
      case Refuse(t) => RefuseKeeps(c, s, t);
      case StoreLedger(t) => AdoptKeeps(c, s, t);
      case _ => HunterKeeps(c, s, a);
    }
  }

  // ---------------------------------------------------------------------------------------------
  // Waiting thieves.

  /** A change of one worker that strands no other worker's request. */
  ghost predicate Faithful(th: Thread, th': Thread) {
    && (th'.phase.Unstarted? ==> th.phase.Unstarted?)
    && (IsExited(th.phase) ==> IsExited(th'.phase))
    && (IsExited(th'.phase) || th.inbox <= th'.inbox)
  }

  lemma WaitChange(ts: seq<Thread>, t: nat, th': Thread)
    requires WaitOk(ts) && t < |ts| && Faithful(ts[t], th') && WaitOkAt(ts[t := th'], t)
    ensures WaitOk(ts[t := th'])
  {
    var ts' := ts[t := th'];
    forall x | 0 <= x < |ts'|
      ensures WaitOkAt(ts', x)
    {
      assert WaitOkAt(ts, x);
    }
  }

  /** What survives in worker `v` when the first request of `t`'s inbox is answered. */
  ghost predicate AnsweredAt(ts: seq<Thread>, ts': seq<Thread>, t: nat, v: nat)
    requires t < |ts| == |ts'| && v < |ts| && ts[t].inbox != []
  {
    && ts'[v].ticket == ts[v].ticket
    && (ts'[v].phase.Unstarted? <==> ts[v].phase.Unstarted?)
    && (IsExited(ts'[v].phase) <==> IsExited(ts[v].phase))
    && ts'[v].inbox == (if v == t then ts[v].inbox[1..] else ts[v].inbox)
    && (ts'[v].phase.Hunting? ==> ts[v].phase.Hunting? && ts'[v].phase.candidates == ts[v].phase.candidates)
    && (IsWaiting(ts'[v]) && ts'[v].phase.wait.reply.NoReply? ==>
          ts'[v].phase == ts[v].phase && Request(v, ts[v].ticket) != ts[t].inbox[0])
  }

  ghost predicate Answered(ts: seq<Thread>, ts': seq<Thread>, t: nat) {
    && t < |ts| == |ts'| && ts[t].inbox != []
    && forall v | 0 <= v < |ts| :: AnsweredAt(ts, ts', t, v)
  }

  lemma AnswerIsAnsweredAt(s: State, t: nat, th': Thread, reply: Reply, v: nat)
    requires t < |s.threads| && s.threads[t].inbox != [] && !reply.NoReply? && v < |s.threads|
    requires th'.inbox == s.threads[t].inbox[1..] && th'.ticket == s.threads[t].ticket
    requires th'.phase == s.threads[t].phase
    ensures AnsweredAt(s.threads, Deliver(SetThread(s, t, th'), s.threads[t].inbox[0], reply).threads, t, v)
  {
  }

  lemma AnswerIsAnswered(s: State, t: nat, th': Thread, reply: Reply)
    requires t < |s.threads| && s.threads[t].inbox != [] && !reply.NoReply?
    requires th'.inbox == s.threads[t].inbox[1..] && th'.ticket == s.threads[t].ticket
    requires th'.phase == s.threads[t].phase
    ensures Answered(s.threads, Deliver(SetThread(s, t, th'), s.threads[t].inbox[0], reply).threads, t)
  {
    var ts' := Deliver(SetThread(s, t, th'), s.threads[t].inbox[0], reply).threads;
    forall v | 0 <= v < |s.threads| ensures AnsweredAt(s.threads, ts', t, v) {
      AnswerIsAnsweredAt(s, t, th', reply, v);
    }
  }

  /** Answering the first request of an inbox strands no one: its thief now has an answer. */
  lemma AnswerWaitAt(ts: seq<Thread>, ts': seq<Thread>, t: nat, x: nat)
    requires Answered(ts, ts', t) && x < |ts| && WaitOkAt(ts, x)
    ensures WaitOkAt(ts', x)
  {
    assert AnsweredAt(ts, ts', t, x);
    if ts'[x].phase.Hunting? {
      forall v | v in ts'[x].phase.candidates
        ensures Started(ts', x, v)
      {
        assert Started(ts, x, v);
        assert AnsweredAt(ts, ts', t, v);
      }
      if IsWaiting(ts'[x]) && ts'[x].phase.wait.reply.NoReply? {
        assert AnsweredAt(ts, ts', t, ts[x].phase.wait.victim);
      }
    }
  }

  lemma AnswerWait(s: State, t: nat, th': Thread, reply: Reply)
    requires WaitOk(s.threads) && t < |s.threads| && s.threads[t].inbox != [] && !reply.NoReply?
    requires th'.inbox == s.threads[t].inbox[1..] && th'.ticket == s.threads[t].ticket
    requires th'.phase == s.threads[t].phase
    ensures WaitOk(Deliver(SetThread(s, t, th'), s.threads[t].inbox[0], reply).threads)
  {
    var ts' := Deliver(SetThread(s, t, th'), s.threads[t].inbox[0], reply).threads;
    AnswerIsAnswered(s, t, th', reply);
    forall x | 0 <= x < |ts'|
      ensures WaitOkAt(ts', x)
    {
      AnswerWaitAt(s.threads, ts', t, x);
    }
  }

  lemma CandidatesShrink(ts: seq<Thread>, t: nat, th': Thread)
    requires t < |ts| && ts[t].phase.Hunting? && ts[t].phase.candidates != [] && WaitOkAt(ts, t)
    requires th'.phase.Hunting? && th'.phase.candidates == ts[t].phase.candidates[1..]
    requires IsWaiting(th') && th'.phase.wait.reply.NoReply? ==> Reachable(ts[t := th'], t)
    ensures WaitOkAt(ts[t := th'], t)
  {
    forall v | v in th'.phase.candidates
      ensures Started(ts[t := th'], t, v)
    {
      assert v in ts[t].phase.candidates;
      assert Started(ts, t, v);
    }
  }

  lemma AskWait(c: Config, s: State, t: nat)
    requires WaitOk(s.threads) && Enabled(c, s, Ask(t))
    ensures WaitOk(AskNext(s, t).threads)
  {
    var ts := s.threads;
    var v := ts[t].phase.candidates[0];
    var rest := ts[t].phase.candidates[1..];
    assert WaitOkAt(ts, t) && Started(ts, t, v);
    if IsExited(ts[v].phase) {
      CandidatesShrink(ts, t, ts[t].(phase := Hunting(rest, Idle)));
      WaitChange(ts, t, ts[t].(phase := Hunting(rest, Idle)));
    } else {
      var v' := ts[v].(inbox := ts[v].inbox + [Request(t, ts[t].ticket + 1)]);
      var th' := ts[t].(ticket := ts[t].ticket + 1, phase := Hunting(rest, Waiting(v, NoReply)));
      WaitGrows(ts, v, v'.inbox);
      var ts1 := ts[v := v'];
      assert WaitOkAt(ts1, t);
      CandidatesShrink(ts1, t, th');
      WaitChange(ts1, t, th');
      assert AskNext(s, t).threads == ts1[t := th'];
    }
  }

  lemma WaitGrows(ts: seq<Thread>, v: nat, inbox: seq<Request>)
    requires WaitOk(ts) && v < |ts| && ts[v].inbox <= inbox
    ensures WaitOk(ts[v := ts[v].(inbox := inbox)])
  {
    assert WaitOkAt(ts, v);
    WaitChange(ts, v, ts[v].(inbox := inbox));
  }

  lemma ServeWait(s: State, t: nat)
    requires WaitOk(s.threads) && t < |s.threads| && s.threads[t].inbox != []
    ensures WaitOk(ServeOne(s, t).threads)
  {
    var th := s.threads[t];
    var mid := SplitPoint(Position(th), th.end, IsHeld(th.phase));
    if mid.Some? {
      AnswerWait(s, t, ServeStep(th, mid), Granted(|s.pieces|, Range(mid.value, th.end)));
    }
    AnswerWait(s, t, ServeStep(th, None), Refused);
  }

  lemma LocalIsFaithful(c: Config, th: Thread, m: Move)
    requires MoveEnabled(c.present, th, m)
    ensures Faithful(th, MoveStep(c.present, th, m)) && !MoveStep(c.present, th, m).phase.Hunting?
  {
  }

  /** The steps that change one worker and no inbox but its own. */
  lemma OwnStepFaithful(c: Config, s: State, a: Action)
    requires WaitOk(s.threads) && Enabled(c, s, a)
    requires IsHunterStep(a) || a.Local? || a.Count? || a.Journal? || a.StoreLedger?
    ensures var th' := Apply(c, s, a).threads[a.t];
      && Apply(c, s, a).threads == s.threads[a.t := th']
      && Faithful(s.threads[a.t], th') && WaitOkAt(s.threads[a.t := th'], a.t)
  {
    assert WaitOkAt(s.threads, a.t);
    if a.Local? { LocalIsFaithful(c, s.threads[a.t], a.m); }
  }

  lemma StepKeepsWait(c: Config, s: State, a: Action)
    requires WaitOk(s.threads) && Enabled(c, s, a)
    ensures WaitOk(Apply(c, s, a).threads)
  {
    match a {
      case RaiseShutdown =>
      case Serve(t) => ServeWait(s, t);
      case Refuse(t) => AnswerWait(s, t, s.threads[t].(inbox := s.threads[t].inbox[1..]), Refused);
      case Ask(t) => AskWait(c, s, t);
      case _ =>
        OwnStepFaithful(c, s, a);
        WaitChange(s.threads, a.t, Apply(c, s, a).threads[a.t]);
    }
  }

  lemma StepKeepsInv(c: Config, s: State, a: Action)
    requires Inv(c, s) && Enabled(c, s, a)
    ensures Inv(c, Apply(c, s, a))
  {
    StepKeepsCore(c, s, a);
    StepKeepsWait(c, s, a);
  }

  /** The invariant holds in the last state of every run, hence in every reachable state. */
  lemma {:induction false} RunKeepsInv(c: Config, run: seq<State>)
    requires IsRun(c, run)
    ensures Inv(c, run[|run| - 1])
  {
    if |run| == 1 {
      InitHolds(c);
    } else {
      var prefix := run[..|run| - 1];
      RunKeepsInv(c, prefix);
      var s := run[|run| - 2];
      assert Next(c, s, run[|run| - 2 + 1]);
      var a :| Enabled(c, s, a) && run[|run| - 1] == Apply(c, s, a);
      StepKeepsInv(c, s, a);
    }
  }
}
