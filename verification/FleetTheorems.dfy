/** What the invariant says about whole runs: ownership, exactly-once counting, the bound on steals,
    the resume floor and the coverage audit. */
module FleetTheorems {
  import opened Slots
  import opened Worker
  import opened Fleet
  import opened FleetInvariant
  import opened FleetSafety
  import opened Audit

  function Last(run: seq<State>): State
    requires |run| > 0
  {
    run[|run| - 1]
  }

  /** A run goes on with any enabled action. */
  lemma Extend(c: Config, run: seq<State>, a: Action)
    requires IsRun(c, run) && Enabled(c, Last(run), a)
    ensures IsRun(c, run + [Apply(c, Last(run), a)])
  {
    var run' := run + [Apply(c, Last(run), a)];
    forall i | 0 <= i < |run'| - 1 ensures Next(c, run'[i], run'[i + 1]) {
      if i < |run| - 1 { assert Next(c, run[i], run[i + 1]); }
    }
  }

  /** What the step commits to the log. */
  function Adds(s: State, a: Action): seq<Event> {
    if a.Count? && a.t < |s.threads| && s.threads[a.t].phase.Processing?
       && s.threads[a.t].lastCounted < s.threads[a.t].phase.slot
    then [Event(a.t, s.threads[a.t].phase.slot)] else []
  }

  lemma StepLogs(c: Config, s: State, a: Action)
    requires Enabled(c, s, a)
    ensures Apply(c, s, a).log == s.log + Adds(s, a)
  {
    assert s.log + [] == s.log;
  }

  /** The slots worker `t` currently answers for: its ledger's `[start, end)`. */
  function Assigned(th: Thread): Range { Range(th.ledger.start, th.ledger.end) }

  /** In every reachable state the current assignments, the delivered but unadopted grants and the
      finished assignments are pairwise disjoint, and together they are exactly the requested range. */
  lemma SlotsHaveOneOwner(c: Config, run: seq<State>)
    requires IsRun(c, run)
    ensures var s := Last(run);
      && Tiles(s.pieces, c.lo, c.hi)
      && (forall t | 0 <= t < |s.threads| && IsHeld(s.threads[t].phase) ::
            s.threads[t].id < |s.pieces| && s.pieces[s.threads[t].id] == Piece(Assigned(s.threads[t]), Held(t)))
      && (forall t | 0 <= t < |s.threads| && GrantOf(s.threads[t]).Some? ::
            var (i, r) := GrantOf(s.threads[t]).value;
            i < |s.pieces| && s.pieces[i] == Piece(r, Sent(t)))
      && (forall i | 0 <= i < |s.pieces| && !s.pieces[i].holder.Done? ::
            exists t :: 0 <= t < |s.threads| && HoldsPiece(s.threads[t], i))
  {
    RunKeepsInv(c, run);
    var s := Last(run);
    forall i | 0 <= i < |s.pieces| && !s.pieces[i].holder.Done?
      ensures exists t :: 0 <= t < |s.threads| && HoldsPiece(s.threads[t], i)
    {
      var t := if s.pieces[i].holder.Held? then s.pieces[i].holder.t else s.pieces[i].holder.to;
      assert HoldsPiece(s.threads[t], i);
    }
  }

  predicate HoldsPiece(th: Thread, i: nat) {
    (IsHeld(th.phase) && th.id == i) || (GrantOf(th).Some? && GrantOf(th).value.0 == i)
  }

  /** A worker counts only slots of its own assignment, none of which anyone has counted before; in
      particular a victim never counts a slot it has granted away. */
  lemma CountsOwnSlotOnce(c: Config, run: seq<State>, t: nat)
    requires IsRun(c, run) && Enabled(c, Last(run), Count(t))
    requires Last(run).threads[t].phase.slot > Last(run).threads[t].lastCounted
    ensures var s := Last(run); var slot := s.threads[t].phase.slot;
      && Assigned(s.threads[t]).Has(slot) && Due(c.present, slot) && !Logged(s.log, slot)
      && forall i | 0 <= i < |s.pieces| && i != s.threads[t].id :: !s.pieces[i].range.Has(slot)
  {
    RunKeepsInv(c, run);
    var s := Last(run);
    CountKeepsCursor(c.present, s.threads[t]);
    assert s.pieces[s.threads[t].id].range.Has(s.threads[t].phase.slot);
  }

  /** Every worker left through the "range complete" exit; none was stopped. */
  ghost predicate AllRetired(s: State) {
    forall t | 0 <= t < |s.threads| :: s.threads[t].phase.Retired?
  }

  /** Every piece is done once everyone has retired. */
  lemma RetiredMeansDone(c: Config, s: State)
    requires Core(c, s) && AllRetired(s)
    ensures forall i | 0 <= i < |s.pieces| :: s.pieces[i].holder.Done?
  {
  }

  /** On every run that ends with all workers retired, whatever failed on the way, the counted slots are
      exactly the due slots of the requested range, each counted once, by one worker. */
  lemma EveryDueSlotCountedOnce(c: Config, run: seq<State>)
    requires IsRun(c, run) && AllRetired(Last(run))
    ensures forall slot: nat :: Logged(Last(run).log, slot) <==> c.lo <= slot < c.hi && Due(c.present, slot)
    ensures forall j, k | 0 <= j < k < |Last(run).log| :: Last(run).log[j].slot != Last(run).log[k].slot
  {
    RunKeepsInv(c, run);
    var s := Last(run);
    RetiredMeansDone(c, s);
    forall slot: nat | c.lo <= slot < c.hi && Due(c.present, slot)
      ensures Logged(s.log, slot)
    {
      assert Covered(s.pieces, slot);
    }
  }

  /** The promise for all present slots holds exactly when slot 0 is not a requested present slot. */
  lemma EveryPresentSlotCountedIff(c: Config, run: seq<State>)
    requires IsRun(c, run) && AllRetired(Last(run))
    ensures (forall slot | slot in c.present && c.lo <= slot < c.hi :: Logged(Last(run).log, slot))
            <==> !(c.lo == 0 && 0 in c.present)
  {
    EveryDueSlotCountedOnce(c, run);
  }

  // ---------------------------------------------------------------------------------------------
  // The number of steals.

  lemma {:induction false} TotalAtLeast(ps: seq<Piece>, n: nat)
    requires forall i | 0 <= i < |ps| :: ps[i].range.Size() >= (if i < n then 0 else MIN_PIECE)
    ensures n <= |ps| ==> Total(ps) >= MIN_PIECE * (|ps| - n)
    ensures Total(ps) >= 0
  {
    if ps != [] { TotalAtLeast(ps[..|ps| - 1], n); }
  }

  /** Each committed grant adds one assignment, and there is room for one per 32 requested slots. */
  lemma StealsAreBounded(c: Config, run: seq<State>)
    requires IsRun(c, run)
    ensures c.threads <= |Last(run).pieces|
    ensures MIN_PIECE * (|Last(run).pieces| - c.threads) <= c.hi - c.lo
  {
    RunKeepsInv(c, run);
    TotalAtLeast(Last(run).pieces, c.threads);
  }

  /** The number of assignments grows by one exactly at a committed grant. */
  lemma OneAssignmentPerGrant(c: Config, s: State, a: Action)
    requires Inv(c, s) && Enabled(c, s, a)
    ensures |Apply(c, s, a).pieces| ==
            |s.pieces| + (if a.Serve? && Live(s, s.threads[a.t].inbox[0])
                             && SplitPoint(Position(s.threads[a.t]), s.threads[a.t].end,
                                           IsHeld(s.threads[a.t].phase)).Some? then 1 else 0)
  {
    if a.Serve? { assert IsHeld(s.threads[a.t].phase) ==> s.threads[a.t].id < |s.pieces|; }
  }

  // ---------------------------------------------------------------------------------------------
  // The resume floor.

  /** The two fields of a slice as they were loaded. */
  datatype Loaded = Loaded(next: nat, end: nat)

  /** The lowest `next` of a slice with work left. */
  function Floor(ls: seq<Loaded>): (f: Option<nat>)
    ensures f.Some? ==> exists t :: 0 <= t < |ls| && ls[t].next == f.value && f.value < ls[t].end
    ensures forall t | 0 <= t < |ls| && ls[t].next < ls[t].end :: f.Some? && f.value <= ls[t].next
  {
    if ls == [] then None
    else
      var last := ls[|ls| - 1];
      assert forall t | 0 <= t < |ls| - 1 :: ls[..|ls| - 1][t] == ls[t];
      var rest := Floor(ls[..|ls| - 1]);
      if last.next >= last.end then rest
      else if rest.None? then Some(last.next)
      else Some(Min(rest.value, last.next))
  }

  /** The floor read in one state: the lowest published `next` of a worker with work left. */
  function ResumeFloor(ts: seq<Thread>): (f: Option<nat>)
    ensures f.Some? ==> exists t :: 0 <= t < |ts| && ts[t].ledger.next == f.value && f.value < ts[t].ledger.end
    ensures forall t | 0 <= t < |ts| && ts[t].ledger.next < ts[t].ledger.end ::
              f.Some? && f.value <= ts[t].ledger.next
  {
    var ls := seq(|ts|, t requires 0 <= t < |ts| => Loaded(ts[t].ledger.next, ts[t].ledger.end));
    assert forall t | 0 <= t < |ts| :: ls[t] == Loaded(ts[t].ledger.next, ts[t].ledger.end);
    Floor(ls)
  }

  predicate BelowFloor(f: Option<nat>, slot: nat) { f.None? || slot < f.value }

  /** `slot` belongs to a grant that has been sent and not yet adopted. */
  ghost predicate InFlight(ts: seq<Thread>, slot: nat) {
    exists t :: 0 <= t < |ts| && GrantOf(ts[t]).Some? && GrantOf(ts[t]).value.1.Has(slot)
  }

  /** "Everything below the floor is complete" is true exactly when no grant in flight, and no grant
      being adopted, holds a due slot below the floor. */
  lemma ResumeFloorExact(c: Config, run: seq<State>)
    requires IsRun(c, run)
    ensures var s := Last(run); var f := ResumeFloor(s.threads);
      (forall slot: nat | c.lo <= slot < c.hi && Due(c.present, slot) && BelowFloor(f, slot) :: Logged(s.log, slot))
      <==> (forall slot: nat | Due(c.present, slot) && BelowFloor(f, slot) :: !InFlight(s.threads, slot))
  {
    RunKeepsInv(c, run);
    var s := Last(run);
    forall slot: nat | c.lo <= slot < c.hi && Due(c.present, slot) && !Logged(s.log, slot)
      ensures BelowFloor(ResumeFloor(s.threads), slot) ==> InFlight(s.threads, slot)
    {
      UncountedBelowFloor(c, s, slot);
    }
    forall slot: nat | Due(c.present, slot) && InFlight(s.threads, slot)
      ensures c.lo <= slot < c.hi && !Logged(s.log, slot)
    {
      var t :| 0 <= t < |s.threads| && GrantOf(s.threads[t]).Some? && GrantOf(s.threads[t]).value.1.Has(slot);
      var i := GrantOf(s.threads[t]).value.0;
      assert s.pieces[i].range.Has(slot);
      assert Mark(s.threads, s.pieces[i]) == s.pieces[i].range.lo;
    }
  }

  lemma UncountedBelowFloor(c: Config, s: State, slot: nat)
    requires Core(c, s) && c.lo <= slot < c.hi && Due(c.present, slot) && !Logged(s.log, slot)
    ensures BelowFloor(ResumeFloor(s.threads), slot) ==> InFlight(s.threads, slot)
  {
    assert Covered(s.pieces, slot);
    var i :| 0 <= i < |s.pieces| && s.pieces[i].range.Has(slot);
    assert slot >= Mark(s.threads, s.pieces[i]);
    if s.pieces[i].holder.Held? {
      var th := s.threads[s.pieces[i].holder.t];
      assert CursorOk(c.present, th);
      assert th.ledger.next <= slot < th.ledger.end;
    } else {
      assert GrantOf(s.threads[s.pieces[i].holder.to]).Some?;
    }
  }

  // ---------------------------------------------------------------------------------------------
  // The audit.

  ghost predicate AuditPasses(c: Config, s: State) {
    forall slot: nat | c.lo <= slot < c.hi && Due(c.present, slot) :: CoveredBy(s.journal, slot)
  }

  /** The audit can be run on the journal of any reachable state. */
  lemma JournalFitsAudit(c: Config, run: seq<State>)
    requires IsRun(c, run)
    ensures forall k | 0 <= k < |Last(run).journal| ::
              c.lo <= Last(run).journal[k].lo <= c.hi && Last(run).journal[k].hi <= c.hi
  {
    RunKeepsInv(c, run);
  }

  /** A run whose workers all retired passes its audit. */
  lemma RetiredRunPassesAudit(c: Config, run: seq<State>)
    requires IsRun(c, run) && AllRetired(Last(run))
    ensures AuditPasses(c, Last(run))
  {
    RunKeepsInv(c, run);
    var s := Last(run);
    RetiredMeansDone(c, s);
    forall slot: nat | c.lo <= slot < c.hi && Due(c.present, slot)
      ensures CoveredBy(s.journal, slot)
    {
      assert Covered(s.pieces, slot);
      var i :| 0 <= i < |s.pieces| && s.pieces[i].range.Has(slot);
      assert Journaled(c, s.journal, s.pieces[i].range);
      var k :| 0 <= k < |s.journal| && s.journal[k].lo == s.pieces[i].range.lo
               && NoDue(c.present, s.journal[k].hi, s.pieces[i].range.hi);
      assert s.journal[k].Has(slot);
    }
  }

  /** In any state of any run, even one whose workers were stopped half-way, a passing audit means that
      every due slot of the range has been counted exactly once. */
  lemma PassedAuditMeansCounted(c: Config, run: seq<State>)
    requires IsRun(c, run) && AuditPasses(c, Last(run))
    ensures forall slot: nat :: Logged(Last(run).log, slot) <==> c.lo <= slot < c.hi && Due(c.present, slot)
    ensures forall j, k | 0 <= j < k < |Last(run).log| :: Last(run).log[j].slot != Last(run).log[k].slot
  {
    RunKeepsInv(c, run);
    var s := Last(run);
    forall slot: nat | c.lo <= slot < c.hi && Due(c.present, slot)
      ensures Logged(s.log, slot)
    {
      var k :| 0 <= k < |s.journal| && s.journal[k].Has(slot);
    }
  }
}
