/** `service_steal_inbox`: a victim answers everything in its inbox at a quiescent point. */
module StealInbox {
  import opened Slots
  import opened Worker

  class WorkSlice {
    var start: nat
    var next: nat
    var end: nat

    constructor (r: Range)
      ensures start == r.lo && next == r.lo && end == r.hi
    {
      start, next, end := r.lo, r.lo, r.hi;
    }
  }

  /** A proposal in the inbox: whether its thief still holds the receiving end of the reply channel. */
  datatype Proposal = Proposal(waiting: bool)

  /** What comes back on a reply channel; a thief that stopped waiting receives nothing. */
  datatype Answer = Nothing | Refusal | Grant(range: Range)

  /** What the victim is left with, and what each thief received. */
  datatype Outcome = Outcome(end: nat, answers: seq<Answer>)

  function AnswerTo(p: Proposal, position: nat, end: nat, allow: bool): Answer {
    if !p.waiting then Nothing
    else match SplitPoint(position, end, allow)
      case None => Refusal
      case Some(mid) => Grant(Range(mid, end))
  }

  function EndAfter(a: Answer, end: nat): nat { if a.Grant? then a.range.lo else end }

  function ServeAll(inbox: seq<Proposal>, position: nat, end: nat, allow: bool): (out: Outcome)
    ensures |out.answers| == |inbox|
  {
    if inbox == [] then Outcome(end, [])
    else
      var a := AnswerTo(inbox[0], position, end, allow);
      var rest := ServeAll(inbox[1..], position, EndAfter(a, end), allow);
      Outcome(rest.end, [a] + rest.answers)
  }

  /** The granted ranges among `answers`, in order, abut downwards from `hi` to `lo`, and each is at
      least half of `MIN_STEAL_SLOTS` long. */
  ghost predicate Abut(answers: seq<Answer>, hi: nat, lo: nat) {
    if answers == [] then hi == lo
    else if !answers[0].Grant? then Abut(answers[1..], hi, lo)
    else
      && answers[0].range.hi == hi && answers[0].range.Size() >= MIN_STEAL_SLOTS / 2
      && Abut(answers[1..], answers[0].range.lo, lo)
  }

  /** The granted ranges are exactly the slots between the victim's new end and its old end; abandoned
      proposals cost it nothing, and it keeps at least half of `MIN_STEAL_SLOTS` if it gave at all. */
  lemma {:induction false} ServeAllConserves(inbox: seq<Proposal>, position: nat, end: nat, allow: bool)
    ensures var out := ServeAll(inbox, position, end, allow);
      && Abut(out.answers, end, out.end)
      && (out.end == end || (allow && position + MIN_STEAL_SLOTS / 2 <= out.end < end))
      && (forall k | 0 <= k < |inbox| :: out.answers[k].Nothing? <==> !inbox[k].waiting)
  {
    if inbox != [] {
      var a := AnswerTo(inbox[0], position, end, allow);
      ServeAllConserves(inbox[1..], position, EndAfter(a, end), allow);
    }
  }

  /** Whoever still waits is refused only when the victim cannot spare half, or is completing. */
  lemma {:induction false} ServeAllRefusesOnlyScraps(inbox: seq<Proposal>, position: nat, end: nat, allow: bool, k: nat)
    requires k < |inbox| && ServeAll(inbox, position, end, allow).answers[k].Refusal?
    ensures !allow || ServeAll(inbox, position, end, allow).end < position + MIN_STEAL_SLOTS
  {
    var a := AnswerTo(inbox[0], position, end, allow);
    if k > 0 {
      ServeAllRefusesOnlyScraps(inbox[1..], position, EndAfter(a, end), allow, k - 1);
    } else {
      ServeAllConserves(inbox[1..], position, EndAfter(a, end), allow);
    }
  }

  lemma ServeAllUnfold(inbox: seq<Proposal>, position: nat, end: nat, allow: bool, done: seq<Answer>)
    requires inbox != []
    ensures var a := AnswerTo(inbox[0], position, end, allow);
      var rest := ServeAll(inbox[1..], position, EndAfter(a, end), allow);
      && ServeAll(inbox, position, end, allow).end == rest.end
      && done + ServeAll(inbox, position, end, allow).answers == (done + [a]) + rest.answers
  {
  }

  /** A victim at a quiescent point: its local slot range, its ledger entry and its inbox. */
  class Victim {
    var range: Range
    const slice: WorkSlice
    var inbox: seq<Proposal>

    constructor (range: Range, slice: WorkSlice)
      ensures this.range == range && this.slice == slice && inbox == []
    {
      this.range, this.slice, inbox := range, slice, [];
    }

    /** Answers every proposal; the range end and the ledger shrink only with a delivered grant. */
    method ServiceStealInbox(position: nat, allow: bool) returns (answers: seq<Answer>)
      requires slice.end == range.hi
      modifies this, slice
      ensures Outcome(range.hi, answers) == ServeAll(old(inbox), position, old(range.hi), allow)
      ensures inbox == [] && range.lo == old(range.lo)
      ensures slice.end == range.hi && slice.start == old(slice.start) && slice.next == old(slice.next)
    {
      answers := [];
      while inbox != []
        invariant var rest := ServeAll(inbox, position, range.hi, allow);
                  ServeAll(old(inbox), position, old(range.hi), allow) == Outcome(rest.end, answers + rest.answers)
        invariant range.lo == old(range.lo) && slice.end == range.hi
        invariant slice.start == old(slice.start) && slice.next == old(slice.next)
        decreases |inbox|
      {
        var request := inbox[0];
        ServeAllUnfold(inbox, position, range.hi, allow, answers);
        inbox := inbox[1..];
        var remaining := SatSub(range.hi, position);
        if !allow || remaining < MIN_STEAL_SLOTS {
          answers := answers + [if request.waiting then Refusal else Nothing];
        } else {
          var mid := position + remaining / 2;
          if request.waiting {
            answers := answers + [Grant(Range(mid, range.hi))];
            range := Range(range.lo, mid);
            slice.end := mid;
          } else {
            answers := answers + [Nothing];
          }
        }
      }
    }
  }
}
