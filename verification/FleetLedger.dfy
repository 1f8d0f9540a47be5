/** What the shared ledger says in every reachable state: a worker publishes exactly how far it has counted. */
module FleetLedger {
  import opened Slots
  import opened Worker
  import opened Fleet
  import opened FleetInvariant
  import opened FleetSafety
  import opened FleetTheorems

  /** Nothing due lies between the published `next` and the counted cursor. A worker without an assignment
      publishes that nothing is left, until it stores the beginning of a grant. */
  ghost predicate Published(present: set<nat>, th: Thread) {
    if IsHeld(th.phase) then NoDue(present, th.ledger.next, th.lastCounted + 1)
    else if th.phase.Adopting? && th.phase.stored >= 2 then th.ledger.next == th.phase.range.lo
    else th.ledger.next == th.ledger.end
  }

  ghost predicate AllPublished(present: set<nat>, ts: seq<Thread>) {
    forall t | 0 <= t < |ts| :: Published(present, ts[t])
  }

  lemma InitPublished(c: Config)
    requires c.Valid()
    ensures AllPublished(c.present, Init(c).threads)
  {
  }

  /** The two agree on all that is published and counted. */
  predicate SameBooks(th: Thread, th': Thread) {
    && th'.ledger == th.ledger && th'.lastCounted == th.lastCounted && IsHeld(th'.phase) == IsHeld(th.phase)
    && !th.phase.Adopting? && !th'.phase.Adopting?
  }

  lemma DeliverKeepsBooks(s: State, r: Request, reply: Reply, v: nat)
    requires v < |s.threads|
    ensures var th, th' := s.threads[v], Deliver(s, r, reply).threads[v]; th' == th || SameBooks(th, th')
  {
  }

  lemma ServePublishes(present: set<nat>, th: Thread, mid: Option<nat>)
    requires Published(present, th) && th.inbox != [] && Serves(th.phase) && (mid.Some? ==> IsHeld(th.phase))
    ensures Published(present, ServeStep(th, mid))
  {
  }

  lemma ServedPublish(present: set<nat>, s: State, t: nat, v: nat)
    requires AllPublished(present, s.threads) && v < |s.threads|
    requires t < |s.threads| && s.threads[t].inbox != [] && Serves(s.threads[t].phase)
    ensures |ServeOne(s, t).threads| == |s.threads| && Published(present, ServeOne(s, t).threads[v])
  {
    var th := s.threads[t];
    var mid := SplitPoint(Position(th), th.end, IsHeld(th.phase));
    assert Published(present, th) && Published(present, s.threads[v]);
    ServePublishes(present, th, mid);
    ServePublishes(present, th, None);
    if mid.Some? {
      DeliverKeepsBooks(SetThread(s, t, ServeStep(th, mid)), th.inbox[0],
                        Granted(|s.pieces|, Range(mid.value, th.end)), v);
    }
    DeliverKeepsBooks(SetThread(s, t, ServeStep(th, None)), th.inbox[0], Refused, v);
  }

  lemma RefusedPublish(c: Config, s: State, t: nat, v: nat)
    requires AllPublished(c.present, s.threads) && v < |s.threads| && Enabled(c, s, Refuse(t))
    ensures Published(c.present, Apply(c, s, Refuse(t)).threads[v])
  {
    assert Published(c.present, s.threads[t]) && Published(c.present, s.threads[v]);
    var s1 := SetThread(s, t, s.threads[t].(inbox := s.threads[t].inbox[1..]));
    DeliverKeepsBooks(s1, s.threads[t].inbox[0], Refused, v);
  }

  lemma AskedPublish(c: Config, s: State, t: nat, v: nat)
    requires AllPublished(c.present, s.threads) && v < |s.threads| && Enabled(c, s, Ask(t))
    ensures Published(c.present, Apply(c, s, Ask(t)).threads[v])
  {
    assert Published(c.present, s.threads[t]) && Published(c.present, s.threads[v]);
  }

  lemma MovePublishes(c: Config, th: Thread, m: Move)
    requires CursorOk(c.present, th) && IsHeld(th.phase) && MoveEnabled(c.present, th, m) && Published(c.present, th)
    ensures Published(c.present, MoveStep(c.present, th, m))
  {
    StepKeepsCursor(c.present, th, m);
  }

  /** A count publishes the slot after the one counted. */
  lemma CountPublishes(present: set<nat>, th: Thread)
    requires th.phase.Processing? && Published(present, th)
    ensures Published(present, CountStep(th))
  {
  }

  lemma OwnPublishes(c: Config, s: State, a: Action)
    requires ThreadsOk(c, s.threads) && Enabled(c, s, a) && !a.RaiseShutdown? && !a.Serve? && !a.Refuse? && !a.Ask?
    requires Published(c.present, s.threads[a.t])
    ensures Published(c.present, Apply(c, s, a).threads[a.t])
  {
    if a.Local? {
      MovePublishes(c, s.threads[a.t], a.m);
    } else if a.Count? {
      CountPublishes(c.present, s.threads[a.t]);
    } else {
      HuntPublishes(c, s, a);
    }
  }

  lemma HuntPublishes(c: Config, s: State, a: Action)
    requires ThreadsOk(c, s.threads) && Enabled(c, s, a) && (IsHunterStep(a) || a.Journal? || a.StoreLedger?)
    requires Published(c.present, s.threads[a.t])
    ensures Published(c.present, Apply(c, s, a).threads[a.t])
  {
    if a.Journal? { assert CursorOk(c.present, s.threads[a.t]); }
  }

  lemma StepPublishes(c: Config, s: State, a: Action)
    requires ThreadsOk(c, s.threads) && Enabled(c, s, a) && AllPublished(c.present, s.threads)
    ensures AllPublished(c.present, Apply(c, s, a).threads)
  {
    forall v | 0 <= v < |s.threads| ensures Published(c.present, Apply(c, s, a).threads[v]) {
      assert Published(c.present, s.threads[v]);
      match a {
        case Serve(t) => ServedPublish(c.present, s, t, v);
        case Refuse(t) => RefusedPublish(c, s, t, v);
        case Ask(t) => AskedPublish(c, s, t, v);
        case _ => if !a.RaiseShutdown? && a.t == v { OwnPublishes(c, s, a); }
      }
    }
  }

  lemma {:induction false} RunPublishes(c: Config, run: seq<State>)
    requires IsRun(c, run)
    ensures AllPublished(c.present, Last(run).threads)
  {
    if |run| == 1 {
      InitPublished(c);
    } else {
      var prefix := run[..|run| - 1];
      RunPublishes(c, prefix);
      RunKeepsInv(c, prefix);
      assert Next(c, run[|run| - 2], run[|run| - 2 + 1]);
      var a :| Enabled(c, Last(prefix), a) && Last(run) == Apply(c, Last(prefix), a);
      StepPublishes(c, Last(prefix), a);
    }
  }

  lemma BooksAreExact(c: Config, s: State, t: nat, slot: nat)
    requires Core(c, s) && t < |s.threads| && IsHeld(s.threads[t].phase) && Published(c.present, s.threads[t])
    requires s.threads[t].ledger.start <= slot < s.threads[t].ledger.end
    ensures Logged(s.log, slot) <==> Due(c.present, slot) && slot < s.threads[t].ledger.next
  {
    var th := s.threads[t];
    assert CursorOk(c.present, th);
    assert s.pieces[th.id].range.Has(slot);
    if Due(c.present, slot) { assert Logged(s.log, slot) <==> slot < th.lastCounted + 1; }
  }

  /** In every reachable state, of the slots of a worker's assignment exactly the due ones below the `next` it
      publishes have been counted. */
  lemma PublishedIsExact(c: Config, run: seq<State>, t: nat, slot: nat)
    requires IsRun(c, run) && t < |Last(run).threads| && IsHeld(Last(run).threads[t].phase)
    requires Last(run).threads[t].ledger.start <= slot < Last(run).threads[t].ledger.end
    ensures Logged(Last(run).log, slot) <==> Due(c.present, slot) && slot < Last(run).threads[t].ledger.next
  {
    RunPublishes(c, run);
    RunKeepsInv(c, run);
    BooksAreExact(c, Last(run), t, slot);
  }

  /** The slice the floor was taken from: a worker that has counted nothing from the floor to its end, or one that is
      taking up a grant which begins there and of which nothing has been counted. */
  ghost predicate WorkFrom(s: State, th: Thread, f: nat) {
    && th.ledger.next == f < th.ledger.end
    && if IsHeld(th.phase) then forall slot: nat | f <= slot < th.ledger.end :: !Logged(s.log, slot)
       else
         && th.phase.Adopting? && th.phase.range.lo == f
         && forall slot: nat | th.phase.range.Has(slot) :: !Logged(s.log, slot)
  }

  lemma GrantUncounted(c: Config, s: State, t: nat, slot: nat)
    requires Core(c, s) && t < |s.threads| && s.threads[t].phase.Adopting? && s.threads[t].phase.range.Has(slot)
    ensures !Logged(s.log, slot)
  {
    assert GrantOf(s.threads[t]).Some?;
    var i := s.threads[t].phase.id;
    assert s.pieces[i].range.Has(slot) && Mark(s.threads, s.pieces[i]) == s.pieces[i].range.lo;
  }

  lemma SliceHasWork(c: Config, s: State, t: nat)
    requires Core(c, s) && t < |s.threads| && Published(c.present, s.threads[t])
    requires s.threads[t].ledger.next < s.threads[t].ledger.end
    ensures WorkFrom(s, s.threads[t], s.threads[t].ledger.next)
  {
    var th := s.threads[t];
    if IsHeld(th.phase) {
      assert CursorOk(c.present, th);
      forall slot: nat | th.ledger.next <= slot < th.ledger.end ensures !Logged(s.log, slot) {
        BooksAreExact(c, s, t, slot);
      }
    } else {
      forall slot: nat | th.phase.range.Has(slot) ensures !Logged(s.log, slot) { GrantUncounted(c, s, t, slot); }
    }
  }

  /** The floor is as high as it may be: when it is `f`, some slice with work left begins at `f` and nothing of it
      has been counted from there on; when there is none, no slice has work left. */
  lemma FloorIsTight(c: Config, run: seq<State>)
    requires IsRun(c, run)
    ensures var s := Last(run);
      match ResumeFloor(s.threads)
      case Some(f) => exists t :: 0 <= t < |s.threads| && WorkFrom(s, s.threads[t], f)
      case None => forall t | 0 <= t < |s.threads| :: s.threads[t].ledger.end <= s.threads[t].ledger.next
  {
    var s := Last(run);
    RunPublishes(c, run);
    RunKeepsInv(c, run);
    var f := ResumeFloor(s.threads);
    if f.Some? {
      var t :| 0 <= t < |s.threads| && s.threads[t].ledger.next == f.value && f.value < s.threads[t].ledger.end;
      SliceHasWork(c, s, t);
    }
  }

  /** A finished range is journaled from where its assignment began up to the counted cursor; what lies behind that is
      left to the audit. */
  lemma JournaledAsCounted(c: Config, s: State, t: nat)
    requires Enabled(c, s, Journal(t))
    ensures var th, s' := s.threads[t], Apply(c, s, Journal(t));
      && s'.journal == s.journal + [Range(th.ledger.start, th.lastCounted + 1)] && s'.log == s.log
      && s'.threads == s.threads[t := th.(phase := Draining, ledger := th.ledger.(next := th.end))]
  {
  }

  /** An adoption stores the grant field by field, `start`, `next` and then `end`, before the worker begins on it. */
  lemma AdoptionStores(c: Config, s: State, t: nat)
    requires Enabled(c, s, StoreLedger(t)) && s.threads[t].phase.stored <= 2
    ensures var th, th' := s.threads[t], Apply(c, s, StoreLedger(t)).threads[t];
      var Adopting(id, r, stored) := th.phase;
      && th'.ledger == (if stored == 0 then th.ledger.(start := r.lo)
                        else if stored == 1 then th.ledger.(next := r.lo) else Ledger(r.lo, r.lo, r.hi))
      && th'.phase == (if stored == 2 then PassStart else Adopting(id, r, stored + 1))
      && (stored == 2 ==> th'.start == r.lo && th'.end == r.hi && th'.id == id && th'.lastCounted == SatPred(r.lo))
  {
  }

  /** A worker at a restart, parked after an error, between batches or done with its range can answer at once. */
  lemma AnswersWhereQuiescent(c: Config, s: State, t: nat)
    requires t < |s.threads| && s.threads[t].inbox != []
    ensures var phase := s.threads[t].phase;
      Enabled(c, s, Serve(t)) <==> phase.PassStart? || phase.Backoff? || phase.Fetched? || phase.Draining?
  {
  }

  // ---------------------------------------------------------------------------------------------
  // Asking around.

  /** A thief tries the victims it has ranked one after the other: a request takes the first, and a refusal, a victim
      that has left or a request given up leave the others to try. It retires only when none is left. */
  lemma HunterGoesOn(c: Config, s: State, a: Action)
    requires Enabled(c, s, a) && (a.Ask? || a.TakeReply? || a.VictimGone? || a.Abandon? || a.Retire?)
    requires a.Ask? ==> s.threads[a.t].phase.candidates[0] != a.t
    ensures var th, th' := s.threads[a.t], Apply(c, s, a).threads[a.t];
      if a.Retire? then th'.phase.Retired? && th.phase.candidates == []
      else if a.Ask? then
        th'.phase.Hunting? && th'.phase.candidates == th.phase.candidates[1..]
      else if a.TakeReply? && th.phase.wait.reply.Granted? then th'.phase.Adopting?
      else th'.phase == Hunting(th.phase.candidates, Idle)
  {
  }

  /** A worker that has left holds no request. */
  ghost predicate InboxesClosed(ts: seq<Thread>) {
    forall t | 0 <= t < |ts| && IsExited(ts[t].phase) :: ts[t].inbox == []
  }

  lemma DeliverKeepsInbox(s: State, r: Request, reply: Reply, v: nat)
    requires v < |s.threads|
    ensures var th, th' := s.threads[v], Deliver(s, r, reply).threads[v];
      th'.inbox == th.inbox && IsExited(th'.phase) == IsExited(th.phase)
  {
  }

  lemma AnswerKeepsClosed(c: Config, s: State, a: Action, v: nat)
    requires InboxesClosed(s.threads) && v < |s.threads| && Enabled(c, s, a) && (a.Serve? || a.Refuse?)
    ensures var th := Apply(c, s, a).threads[v]; IsExited(th.phase) ==> th.inbox == []
  {
    var th := s.threads[a.t];
    var mid := SplitPoint(Position(th), th.end, IsHeld(th.phase));
    if a.Refuse? {
      DeliverKeepsInbox(SetThread(s, a.t, th.(inbox := th.inbox[1..])), th.inbox[0], Refused, v);
    } else {
      if mid.Some? {
        DeliverKeepsInbox(SetThread(s, a.t, ServeStep(th, mid)), th.inbox[0],
                          Granted(|s.pieces|, Range(mid.value, th.end)), v);
      }
      DeliverKeepsInbox(SetThread(s, a.t, ServeStep(th, None)), th.inbox[0], Refused, v);
    }
  }

  lemma LocalKeepsClosed(present: set<nat>, th: Thread, m: Move)
    requires MoveEnabled(present, th, m)
    ensures var th' := MoveStep(present, th, m); IsExited(th'.phase) ==> th'.inbox == []
  {
  }

  lemma MoveKeepsClosed(c: Config, s: State, a: Action, v: nat)
    requires InboxesClosed(s.threads) && v < |s.threads| && Enabled(c, s, a) && !a.Serve? && !a.Refuse?
    ensures var th := Apply(c, s, a).threads[v]; IsExited(th.phase) ==> th.inbox == []
  {
    if a.Local? { LocalKeepsClosed(c.present, s.threads[a.t], a.m); }
  }

  /** Over every run: with a worker go the requests it has not answered, and none reaches it any more. */
  lemma {:induction false} RunClosesInboxes(c: Config, run: seq<State>)
    requires IsRun(c, run)
    ensures InboxesClosed(Last(run).threads)
  {
    if |run| > 1 {
      var prefix := run[..|run| - 1];
      RunClosesInboxes(c, prefix);
      assert Next(c, run[|run| - 2], run[|run| - 2 + 1]);
      var a :| Enabled(c, Last(prefix), a) && Last(run) == Apply(c, Last(prefix), a);
      forall t | 0 <= t < |Last(run).threads| && IsExited(Last(run).threads[t].phase)
        ensures Last(run).threads[t].inbox == []
      {
        if a.Serve? || a.Refuse? { AnswerKeepsClosed(c, Last(prefix), a, t); }
        else { MoveKeepsClosed(c, Last(prefix), a, t); }
      }
    }
  }

  /** The fleet can be told to stop at any time, a worker that has a block in hand can be stopped even before, and a
      hunter may give up on its victim whenever no answer has come. */
  lemma AnyoneCanGiveUp(c: Config, s: State, t: nat)
    requires t < |s.threads|
    ensures Enabled(c, s, RaiseShutdown)
    ensures s.threads[t].phase.Fetched? || s.threads[t].phase.Processing? ==> Enabled(c, s, Local(t, StopNow))
    ensures s.shutdown && MoveEnabled(c.present, s.threads[t], StopNow) ==> Enabled(c, s, Local(t, StopNow))
    ensures IsWaiting(s.threads[t]) && s.threads[t].phase.wait.reply.NoReply? ==> Enabled(c, s, Abandon(t))
  {
  }
}
