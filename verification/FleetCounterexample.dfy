/** A run in which `resume_floor` reports everything done while a grant in flight still holds a slot. */
module FleetCounterexample {
  import opened Slots
  import opened Subranges
  import opened Worker
  import opened Fleet
  import opened FleetInvariant
  import opened FleetTheorems

  /** Several local steps of one worker in a row. */
  ghost predicate CanWalk(present: set<nat>, th: Thread, moves: seq<Move>)
    decreases |moves|
  {
    moves == [] || (MoveEnabled(present, th, moves[0]) && !moves[0].StopNow?
                    && CanWalk(present, MoveStep(present, th, moves[0]), moves[1..]))
  }

  ghost function Walk(present: set<nat>, th: Thread, moves: seq<Move>): Thread
    requires CanWalk(present, th, moves)
    decreases |moves|
  {
    if moves == [] then th else Walk(present, MoveStep(present, th, moves[0]), moves[1..])
  }

  lemma {:induction false} Walked(c: Config, run: seq<State>, t: nat, moves: seq<Move>) returns (run': seq<State>)
    requires IsRun(c, run) && t < |Last(run).threads| && CanWalk(c.present, Last(run).threads[t], moves)
    ensures IsRun(c, run')
    ensures Last(run') == SetThread(Last(run), t, Walk(c.present, Last(run).threads[t], moves))
    decreases |moves|
  {
    if moves == [] {
      assert Last(run).threads[t := Last(run).threads[t]] == Last(run).threads;
      return run;
    }
    Extend(c, run, Local(t, moves[0]));
    run' := run + [Apply(c, Last(run), Local(t, moves[0]))];
    run' := Walked(c, run', t, moves[1..]);
  }

  /** A pass over a slice that holds no present slot. */
  const QUIET: seq<Move> := [BeginPass, OpenEpoch, ReadEnd, Decide(false), FinishPass]

  /** The worker's slice lies inside one epoch, off its first slot, and holds nothing. */
  ghost predicate QuietSlice(present: set<nat>, th: Thread) {
    && th.phase.PassStart? && th.inbox == [] && th.start < th.end
    && Epoch(th.start) == Epoch(th.end - 1) && EpochStart(Epoch(th.start)) < th.start
    && forall s | th.start <= s < th.end :: s !in present
  }

  lemma QuietPass(present: set<nat>, th: Thread)
    requires QuietSlice(present, th)
    ensures CanWalk(present, th, QUIET)
    ensures Walk(present, th, QUIET) == th.(phase := Finished, lastCounted := th.start - 1)
  {
    var e := Epoch(th.start);
    EpochBounds(th.start);
    EpochBounds(th.end - 1);
    var t1 := MoveStep(present, th, BeginPass);
    var t2 := MoveStep(present, t1, OpenEpoch);
    var t3 := MoveStep(present, t2, ReadEnd);
    var t4 := MoveStep(present, t3, Decide(false));
    var t5 := MoveStep(present, t4, FinishPass);
    assert t4.phase == Opening(e + 1, e, None);
    assert t5 == th.(phase := Finished, lastCounted := th.start - 1);
    assert QUIET[1..] == [OpenEpoch, ReadEnd, Decide(false), FinishPass];
    assert QUIET[1..][1..] == [ReadEnd, Decide(false), FinishPass];
    assert QUIET[1..][1..][1..] == [Decide(false), FinishPass];
    assert QUIET[1..][1..][1..][1..] == [FinishPass];
    assert QUIET[1..][1..][1..][1..][1..] == [];
  }

  /** Two workers, two hundred slots of one epoch, and a single present slot in the half that is granted away. */
  ghost predicate Witness(c: Config) {
    && c.threads == 2 && c.hi == c.lo + 200 && c.present == {c.lo + 60}
    && EpochStart(Epoch(c.lo)) < c.lo && c.lo + 200 <= EpochEnd(Epoch(c.lo))
  }

  ghost function Victim(c: Config): Thread { InitThread(0, Range(c.lo, c.lo + 100)).(phase := PassStart) }

  /** The thief once it has finished its own quiet range, hunting for work. */
  ghost function Thief(c: Config, phase: Phase, ticket: nat): Thread {
    Thread(phase, c.lo + 100, c.lo + 200, c.lo + 99, 1, Ledger(c.lo + 100, c.lo + 200, c.lo + 200), [], ticket)
  }

  ghost function Initial(c: Config): State {
    var a, b := Range(c.lo, c.lo + 100), Range(c.lo + 100, c.lo + 200);
    State([InitThread(0, a), InitThread(1, b)], [Piece(a, Held(0)), Piece(b, Held(1))], [], [], false)
  }

  lemma InitIs(c: Config)
    requires Witness(c)
    ensures c.Valid() && Init(c) == Initial(c)
  {
    assert SubrangeOf(c.lo, c.hi, 2, 0) == Range(c.lo, c.lo + 100);
    assert SubrangeOf(c.lo, c.hi, 2, 1) == Range(c.lo + 100, c.lo + 200);
    assert Init(c).threads == Initial(c).threads;
    assert Init(c).pieces == Initial(c).pieces;
  }

  ghost function Pieces(c: Config): seq<Piece> {
    [Piece(Range(c.lo, c.lo + 100), Held(0)), Piece(Range(c.lo + 100, c.lo + 200), Done)]
  }

  ghost function Journaled1(c: Config): seq<Range> { [Range(c.lo + 100, c.lo + 100)] }

  /** A state of the run: only the two workers change between the landmarks. */
  ghost function With(c: Config, victim: Thread, thief: Thread): State {
    State([victim, thief], Pieces(c), [], Journaled1(c), false)
  }

  /** The thief spawns and runs through its own range, where it finds nothing. */
  lemma ThiefFinishes(c: Config) returns (run: seq<State>)
    requires Witness(c)
    ensures IsRun(c, run)
    ensures Last(run) == SetThread(Initial(c), 1, Initial(c).threads[1].(phase := Finished, lastCounted := c.lo + 99))
  {
    InitIs(c);
    run := [Init(c)];
    Extend(c, run, Local(1, Spawn));
    run := run + [Apply(c, Last(run), Local(1, Spawn))];
    var th := InitThread(1, Range(c.lo + 100, c.lo + 200)).(phase := PassStart);
    InEpoch(Epoch(c.lo), th.start);
    InEpoch(Epoch(c.lo), th.end - 1);
    QuietPass(c.present, th);
    run := Walked(c, run, 1, QUIET);
  }

  /** It journals its range and starts to hunt. */
  lemma ThiefHunts(c: Config) returns (run: seq<State>)
    requires Witness(c)
    ensures IsRun(c, run) && Last(run) == With(c, InitThread(0, Range(c.lo, c.lo + 100)), Thief(c, Scanning, 0))
  {
    run := ThiefFinishes(c);
    Extend(c, run, Journal(1));
    run := run + [Apply(c, Last(run), Journal(1))];
    assert Last(run).threads == [InitThread(0, Range(c.lo, c.lo + 100)), Thief(c, Draining, 0)];
    assert Last(run).pieces == Pieces(c) && Last(run).journal == Journaled1(c);
    Extend(c, run, DrainDone(1));
    run := run + [Apply(c, Last(run), DrainDone(1))];
    assert Last(run).threads == [InitThread(0, Range(c.lo, c.lo + 100)), Thief(c, Scanning, 0)];
  }

  lemma AskOutcome(c: Config)
    requires Witness(c)
    ensures var s := With(c, Victim(c), Thief(c, Hunting([0], Idle), 0));
            Enabled(c, s, Ask(1))
            && Apply(c, s, Ask(1))
               == With(c, Victim(c).(inbox := [Request(1, 1)]), Thief(c, Hunting([], Waiting(0, NoReply)), 1))
  {
    var s := With(c, Victim(c), Thief(c, Hunting([0], Idle), 0));
    assert [0][1..] == [] && [] + [Request(1, 1)] == [Request(1, 1)];
    assert Apply(c, s, Ask(1)).threads
        == [Victim(c).(inbox := [Request(1, 1)]), Thief(c, Hunting([], Waiting(0, NoReply)), 1)];
  }

  ghost function Granting(c: Config): State {
    With(c, Victim(c).(end := c.lo + 50, ledger := Ledger(c.lo, c.lo, c.lo + 50)),
         Thief(c, Hunting([], Waiting(0, Granted(2, Range(c.lo + 50, c.lo + 100)))), 1)).(
      pieces := SplitPieces(Pieces(c), 0, c.lo + 50, 1))
  }

  lemma ServeOutcome(c: Config)
    requires Witness(c)
    ensures var s := With(c, Victim(c).(inbox := [Request(1, 1)]), Thief(c, Hunting([], Waiting(0, NoReply)), 1));
            Enabled(c, s, Serve(0)) && Apply(c, s, Serve(0)) == Granting(c)
  {
    var s := With(c, Victim(c).(inbox := [Request(1, 1)]), Thief(c, Hunting([], Waiting(0, NoReply)), 1));
    assert SplitPoint(c.lo, c.lo + 100, true) == Some(c.lo + 50);
    assert [Request(1, 1)][1..] == [];
    assert Apply(c, s, Serve(0)).threads == Granting(c).threads;
  }

  /** The victim, which has not begun its pass, is asked and hands over its upper half. */
  lemma VictimGrants(c: Config) returns (run: seq<State>)
    requires Witness(c)
    ensures IsRun(c, run) && Last(run) == Granting(c)
  {
    run := ThiefHunts(c);
    Extend(c, run, Local(0, Spawn));
    run := run + [Apply(c, Last(run), Local(0, Spawn))];
    assert Last(run).threads == [Victim(c), Thief(c, Scanning, 0)];
    Extend(c, run, Scan(1, [0]));
    run := run + [Apply(c, Last(run), Scan(1, [0]))];
    assert Last(run).threads == [Victim(c), Thief(c, Hunting([0], Idle), 0)];
    AskOutcome(c);
    Extend(c, run, Ask(1));
    run := run + [Apply(c, Last(run), Ask(1))];
    ServeOutcome(c);
    Extend(c, run, Serve(0));
    run := run + [Apply(c, Last(run), Serve(0))];
  }

  /** Then the victim finishes what it kept before the thief picks the grant up: every ledger says that
      nothing is left, and yet the granted slot has been counted by nobody. */
  lemma FloorMissesGrant(c: Config) returns (run: seq<State>)
    requires Witness(c)
    ensures IsRun(c, run) && ResumeFloor(Last(run).threads) == None
    ensures c.lo <= c.lo + 60 < c.hi && Due(c.present, c.lo + 60) && !Logged(Last(run).log, c.lo + 60)
  {
    run := VictimGrants(c);
    var s := Last(run);
    var th := s.threads[0];
    InEpoch(Epoch(c.lo), th.end - 1);
    QuietPass(c.present, th);
    run := Walked(c, run, 0, QUIET);
    assert Last(run) == SetThread(s, 0, th.(phase := Finished, lastCounted := c.lo - 1));
    Extend(c, run, Journal(0));
    run := run + [Apply(c, Last(run), Journal(0))];
    assert Last(run).threads[0].ledger == Ledger(c.lo, c.lo + 50, c.lo + 50);
    assert Last(run).threads[1].ledger == Ledger(c.lo + 100, c.lo + 200, c.lo + 200);
  }

  /** Such a configuration exists. */
  lemma WitnessExists()
    ensures Witness(Config(1, 201, 2, {61}))
  {
  }
}
