/** The end-of-run coverage audit: sort the journal, sweep it for holes, and ask the index whether
    any hole holds a present slot. */
module Audit {
  import opened Slots
  import opened SlotIndex

  ghost predicate CoveredBy(rs: seq<Range>, s: nat) {
    exists k :: 0 <= k < |rs| && rs[k].Has(s)
  }

  /** The order of `sort_unstable` on `(start, end)` pairs. */
  predicate Before(a: Range, b: Range) { a.lo < b.lo || (a.lo == b.lo && a.hi <= b.hi) }

  predicate Sorted(rs: seq<Range>) {
    forall i, j | 0 <= i < j < |rs| :: Before(rs[i], rs[j])
  }

  function Insert(r: Range, rs: seq<Range>): (out: seq<Range>)
    requires Sorted(rs)
    ensures Sorted(out)
    ensures forall x :: x in out <==> x == r || x in rs
  {
    if rs == [] then [r]
    else if Before(r, rs[0]) then [r] + rs
    else
      var tail := Insert(r, rs[1..]);
      assert forall x | x in tail :: Before(rs[0], x);
      [rs[0]] + tail
  }

  /** Drops the empty intervals and sorts the rest. */
  function Prepare(rs: seq<Range>): (out: seq<Range>)
    ensures Sorted(out)
    ensures forall x :: x in out <==> x in rs && x.lo < x.hi
  {
    if rs == [] then []
    else if rs[0].lo < rs[0].hi then Insert(rs[0], Prepare(rs[1..]))
    else Prepare(rs[1..])
  }

  /** The intervals that are not empty, in the order they were journaled. */
  function NonEmpty(rs: seq<Range>): seq<Range> {
    if rs == [] then [] else (if rs[0].lo < rs[0].hi then [rs[0]] else []) + NonEmpty(rs[1..])
  }

  lemma {:induction false} InsertPermutes(r: Range, rs: seq<Range>)
    requires Sorted(rs)
    ensures multiset(Insert(r, rs)) == multiset(rs) + multiset{r}
  {
    if rs != [] && !Before(r, rs[0]) {
      InsertPermutes(r, rs[1..]);
      assert rs == [rs[0]] + rs[1..];
    }
  }

  /** The prepared journal is a sorted permutation of its nonempty intervals. */
  lemma {:induction false} PrepareSorts(rs: seq<Range>)
    ensures multiset(Prepare(rs)) == multiset(NonEmpty(rs))
    ensures forall i, j | 0 <= i < j < |Prepare(rs)| ::
              var a, b := Prepare(rs)[i], Prepare(rs)[j]; a.lo < b.lo || (a.lo == b.lo && a.hi <= b.hi)
  {
    if rs != [] {
      PrepareSorts(rs[1..]);
      if rs[0].lo < rs[0].hi { InsertPermutes(rs[0], Prepare(rs[1..])); }
    }
  }

  lemma PrepareCovers(rs: seq<Range>, s: nat)
    ensures CoveredBy(Prepare(rs), s) <==> CoveredBy(rs, s)
  {
    if CoveredBy(rs, s) {
      var k :| 0 <= k < |rs| && rs[k].Has(s);
      assert rs[k] in Prepare(rs);
    }
    if CoveredBy(Prepare(rs), s) {
      var k :| 0 <= k < |Prepare(rs)| && Prepare(rs)[k].Has(s);
      assert Prepare(rs)[k] in rs;
    }
  }

  lemma CoverGrows(rs: seq<Range>, r: Range, s: nat)
    ensures CoveredBy(rs + [r], s) <==> CoveredBy(rs, s) || r.Has(s)
  {
    if r.Has(s) { assert (rs + [r])[|rs|].Has(s); }
    if CoveredBy(rs, s) {
      var k :| 0 <= k < |rs| && rs[k].Has(s);
      assert (rs + [r])[k].Has(s);
    }
  }

  /** Non-empty, ascending and separated by at least one slot. */
  ghost predicate HolesOk(holes: seq<Range>) {
    && (forall i | 0 <= i < |holes| :: holes[i].lo < holes[i].hi)
    && (forall i, j | 0 <= i < j < |holes| :: holes[i].hi < holes[j].lo)
  }

  /** Up to `cursor`, a slot is in a hole exactly when no interval of `rs` covers it. */
  ghost predicate SweptTo(rs: seq<Range>, holes: seq<Range>, lo: nat, cursor: nat) {
    && (forall s: nat | lo <= s < cursor :: CoveredBy(holes, s) <==> !CoveredBy(rs, s))
    && (forall s: nat :: CoveredBy(holes, s) ==> lo <= s < cursor)
  }

  ghost predicate HolesBelow(holes: seq<Range>, bound: nat) {
    forall k | 0 <= k < |holes| :: holes[k].hi <= bound
  }

  lemma SweepHole(rs: seq<Range>, holes: seq<Range>, lo: nat, cursor: nat, to: nat)
    requires SweptTo(rs, holes, lo, cursor) && lo <= cursor < to
    requires forall s: nat | cursor <= s < to :: !CoveredBy(rs, s)
    ensures SweptTo(rs, holes + [Range(cursor, to)], lo, to)
  {
    forall s: nat
      ensures CoveredBy(holes + [Range(cursor, to)], s) <==> CoveredBy(holes, s) || cursor <= s < to
    {
      CoverGrows(holes, Range(cursor, to), s);
    }
  }

  lemma SweepInterval(rs: seq<Range>, holes: seq<Range>, lo: nat, cursor: nat, r: Range)
    requires SweptTo(rs, holes, lo, cursor) && lo <= cursor && r.lo <= cursor
    requires HolesBelow(holes, r.lo)
    ensures SweptTo(rs + [r], holes, lo, Max(cursor, r.hi))
  {
    forall s: nat
      ensures CoveredBy(rs + [r], s) <==> CoveredBy(rs, s) || r.Has(s)
    {
      CoverGrows(rs, r, s);
    }
  }

  /** The state of the sweep after the intervals `rs`: nothing beyond the cursor has been seen. */
  ghost predicate Swept(rs: seq<Range>, holes: seq<Range>, lo: nat, cursor: nat) {
    && HolesOk(holes) && SweptTo(rs, holes, lo, cursor) && lo <= cursor
    && (forall k | 0 <= k < |holes| :: holes[k].hi < cursor)
    && (forall k | 0 <= k < |rs| :: rs[k].hi <= cursor)
  }

  function SweepHoles(holes: seq<Range>, cursor: nat, r: Range): seq<Range> {
    if r.lo > cursor then holes + [Range(cursor, r.lo)] else holes
  }

  /** One turn of the sweep, over an interval that starts no earlier than the ones before it. */
  lemma SweepStep(rs: seq<Range>, holes: seq<Range>, lo: nat, cursor: nat, r: Range)
    requires Swept(rs, holes, lo, cursor) && r.lo < r.hi
    requires HolesBelow(holes, r.lo)
    ensures Swept(rs + [r], SweepHoles(holes, cursor, r), lo, Max(cursor, r.hi))
    ensures HolesBelow(SweepHoles(holes, cursor, r), r.lo)
  {
    if r.lo > cursor {
      SweepHole(rs, holes, lo, cursor, r.lo);
      SweepInterval(rs, holes + [Range(cursor, r.lo)], lo, r.lo, r);
    } else {
      SweepInterval(rs, holes, lo, cursor, r);
    }
  }

  /** One turn of the loop, over the `i`-th interval in order. */
  lemma SweepAt(rs: seq<Range>, i: nat, holes: seq<Range>, lo: nat, cursor: nat)
    requires Sorted(rs) && i < |rs| && rs[i].lo < rs[i].hi
    requires Swept(rs[..i], holes, lo, cursor) && HolesBelow(holes, rs[i].lo)
    ensures var holes' := SweepHoles(holes, cursor, rs[i]);
      && Swept(rs[..i + 1], holes', lo, Max(cursor, rs[i].hi))
      && (i + 1 < |rs| ==> HolesBelow(holes', rs[i + 1].lo))
  {
    SweepStep(rs[..i], holes, lo, cursor, rs[i]);
    assert rs[..i + 1] == rs[..i] + [rs[i]];
    if i + 1 < |rs| { assert Before(rs[i], rs[i + 1]); }
  }

  lemma SweepEnd(journal: seq<Range>, holes: seq<Range>, lo: nat, cursor: nat, hi: nat)
    requires Swept(Prepare(journal), holes, lo, cursor) && cursor <= hi
    ensures var holes' := SweepHoles(holes, cursor, Range(hi, hi));
      && HolesOk(holes')
      && forall s: nat :: CoveredBy(holes', s) <==> lo <= s < hi && !CoveredBy(journal, s)
  {
    if cursor < hi { SweepHole(Prepare(journal), holes, lo, cursor, hi); }
    forall s: nat
      ensures CoveredBy(Prepare(journal), s) <==> CoveredBy(journal, s)
    {
      PrepareCovers(journal, s);
    }
  }

  /** The holes are exactly the requested range minus the union of the journaled intervals. */
  method FindHoles(journal: seq<Range>, lo: nat, hi: nat) returns (holes: seq<Range>)
    requires lo <= hi
    requires forall k | 0 <= k < |journal| :: lo <= journal[k].lo <= hi && journal[k].hi <= hi
    ensures HolesOk(holes)
    ensures forall s: nat :: CoveredBy(holes, s) <==> lo <= s < hi && !CoveredBy(journal, s)
  {
    var covered := Prepare(journal);
    holes := [];
    var cursor: nat := lo;
    assert covered[..0] == [];
    for i := 0 to |covered|
      invariant Swept(covered[..i], holes, lo, cursor) && cursor <= hi
      invariant i < |covered| ==> HolesBelow(holes, covered[i].lo)
    {
      var r := covered[i];
      assert r in covered && r in journal;
      SweepAt(covered, i, holes, lo, cursor);
      if r.lo > cursor {
        holes := holes + [Range(cursor, r.lo)];
      }
      cursor := Max(cursor, r.hi);
    }
    assert covered[..|covered|] == covered;
    SweepEnd(journal, holes, lo, cursor, hi);
    if cursor < hi {
      holes := holes + [Range(cursor, hi)];
    }
  }

  /** The index has nothing to say about a slot: before it in its hole, or where it is, lies an epoch that cannot
      be scanned. */
  ghost predicate Hidden(kinds: nat -> EpochIndex, journal: seq<Range>, lo: nat, s: nat) {
    exists x: nat ::
      lo <= x <= s && !kinds(Epoch(x)).Scannable? && forall y: nat | x <= y <= s :: !CoveredBy(journal, y)
  }

  /** A hole in which the index shows no due slot. */
  ghost predicate Quiet(kinds: nat -> EpochIndex, present: set<nat>, hole: Range) {
    forall s: nat | hole.Has(s) && Due(present, s) :: !Visible(kinds, SatPred(hole.lo) + 1, s)
  }

  ghost predicate AreHoles(holes: seq<Range>, journal: seq<Range>, lo: nat, hi: nat) {
    HolesOk(holes) && forall s: nat :: CoveredBy(holes, s) <==> lo <= s < hi && !CoveredBy(journal, s)
  }

  /** A hole is uncovered from end to end, and begins the range or right after something covered. */
  lemma HoleIsWhole(holes: seq<Range>, journal: seq<Range>, lo: nat, hi: nat, k: nat)
    requires AreHoles(holes, journal, lo, hi) && k < |holes|
    ensures forall y: nat | holes[k].Has(y) :: lo <= y < hi && !CoveredBy(journal, y)
    ensures lo <= holes[k].lo && (holes[k].lo == lo || CoveredBy(journal, holes[k].lo - 1))
  {
    forall y: nat | holes[k].Has(y) ensures lo <= y < hi && !CoveredBy(journal, y) {
      assert CoveredBy(holes, y);
    }
    assert holes[k].Has(holes[k].lo);
    if lo < holes[k].lo && !CoveredBy(journal, holes[k].lo - 1) {
      assert CoveredBy(holes, holes[k].lo - 1);
      var j :| 0 <= j < |holes| && holes[j].Has(holes[k].lo - 1);
    }
  }

  /** Inside a hole, what the scan cannot see is what is hidden. */
  lemma HiddenInHole(kinds: nat -> EpochIndex, holes: seq<Range>, journal: seq<Range>, lo: nat, hi: nat, k: nat, s: nat)
    requires AreHoles(holes, journal, lo, hi) && k < |holes| && holes[k].Has(s) && 0 < s
    ensures Hidden(kinds, journal, lo, s) <==> !Visible(kinds, SatPred(holes[k].lo) + 1, s)
  {
    var a := holes[k].lo;
    HoleIsWhole(holes, journal, lo, hi, k);
    assert Epoch(a) == Epoch(SatPred(a) + 1);
    if x: nat :| lo <= x <= s && !kinds(Epoch(x)).Scannable? && forall y: nat | x <= y <= s :: !CoveredBy(journal, y) {
      assert a <= x;
      assert Epoch(a) <= Epoch(x) <= Epoch(s);
    }
    if e: nat :| Epoch(a) <= e <= Epoch(s) && !kinds(e).Scannable? {
      var x := if EpochStart(e) <= a then a else EpochStart(e);
      EpochBounds(s);
      EpochBounds(a);
      InEpoch(e, x);
      assert a <= x <= s && Epoch(x) == e;
      assert Hidden(kinds, journal, lo, s);
    }
  }

  /** The holes are quiet exactly when every due slot the journal misses is hidden. */
  lemma QuietIffHidden(kinds: nat -> EpochIndex, present: set<nat>, holes: seq<Range>, journal: seq<Range>,
                       lo: nat, hi: nat)
    requires AreHoles(holes, journal, lo, hi)
    ensures (forall k | 0 <= k < |holes| :: Quiet(kinds, present, holes[k]))
       <==> forall s: nat | lo <= s < hi && Due(present, s) && !CoveredBy(journal, s) :: Hidden(kinds, journal, lo, s)
  {
    if forall k | 0 <= k < |holes| :: Quiet(kinds, present, holes[k]) {
      forall s: nat | lo <= s < hi && Due(present, s) && !CoveredBy(journal, s) ensures Hidden(kinds, journal, lo, s) {
        assert CoveredBy(holes, s);
        var k :| 0 <= k < |holes| && holes[k].Has(s);
        HiddenInHole(kinds, holes, journal, lo, hi, k, s);
      }
    }
    if forall s: nat | lo <= s < hi && Due(present, s) && !CoveredBy(journal, s) :: Hidden(kinds, journal, lo, s) {
      forall k, s: nat | 0 <= k < |holes| && holes[k].Has(s) && Due(present, s)
        ensures !Visible(kinds, SatPred(holes[k].lo) + 1, s)
      {
        assert CoveredBy(holes, s);
        HiddenInHole(kinds, holes, journal, lo, hi, k, s);
      }
    }
  }

  /** No real hole is reported exactly when every due slot of the range lies in a journaled interval or is hidden
      from the index; with all epochs scannable, exactly when every one is journaled. A hole that starts at slot 0
      is probed from slot 1, so slot 0 is again the exception. */
  method AuditCoverage(journal: seq<Range>, lo: nat, hi: nat, kinds: nat -> EpochIndex, present: set<nat>)
    returns (realHoles: nat)
    requires lo <= hi
    requires forall k | 0 <= k < |journal| :: lo <= journal[k].lo <= hi && journal[k].hi <= hi
    ensures realHoles == 0 <==>
            forall s: nat | lo <= s < hi && Due(present, s) && !CoveredBy(journal, s) :: Hidden(kinds, journal, lo, s)
    ensures (forall e: nat :: kinds(e).Scannable?) ==>
              (realHoles == 0 <==> forall s: nat | lo <= s < hi && Due(present, s) :: CoveredBy(journal, s))
  {
    var holes := FindHoles(journal, lo, hi);
    realHoles := 0;
    for i := 0 to |holes|
      invariant realHoles == 0 <==> forall k | 0 <= k < i :: Quiet(kinds, present, holes[k])
    {
      var missing := NextPresentSlot(kinds, present, SatPred(holes[i].lo), SatPred(holes[i].hi));
      assert missing.None? <==> Quiet(kinds, present, holes[i]) by {
        if missing.Some? { assert holes[i].Has(missing.value) && Due(present, missing.value); }
      }
      if missing.Some? { realHoles := realHoles + 1; }
    }
    QuietIffHidden(kinds, present, holes, journal, lo, hi);
  }
}
