/** When following continuation links comes to an end. */
module FrameChains {
  import opened Slots
  import opened Octets
  import opened Frames

  /** The last CID of a group whose frames are all there: the one whose links are followed. */
  ghost function Tip(find: Store, cids: seq<Cid>): Option<Cid> {
    if cids != [] && Group(find, cids).Frames? then Some(cids[|cids| - 1]) else None
  }

  /** The links of a stored frame. */
  ghost function LinksOf(find: Store, cid: Cid): seq<Cid> {
    if find(cid).Some? && find(cid).value.DataFrame? then find(cid).value.frame.Links() else []
  }

  /** `n` steps from `start`, as far as they lead. */
  ghost function Iterate(step: Cid -> Option<Cid>, start: Option<Cid>, n: nat): Option<Cid> {
    if n == 0 then start
    else match Iterate(step, start, n - 1)
      case None => None
      case Some(cid) => step(cid)
  }

  lemma {:induction false} IterateStays(step: Cid -> Option<Cid>, start: Option<Cid>, m: nat, n: nat)
    requires m <= n && Iterate(step, start, n).Some?
    ensures Iterate(step, start, m).Some?
    decreases n
  {
    if m < n { IterateStays(step, start, m, n - 1); }
  }

  lemma {:induction false} IterateShift(step: Cid -> Option<Cid>, start: Option<Cid>, n: nat)
    ensures Iterate(step, start, n + 1) == if start.None? then None else Iterate(step, step(start.value), n)
    decreases n
  {
    if n > 0 { IterateShift(step, start, n - 1); }
  }

  lemma {:induction false} IteratePeriod(step: Cid -> Option<Cid>, start: Option<Cid>, i: nat, j: nat, k: nat)
    requires Iterate(step, start, i) == Iterate(step, start, j)
    ensures Iterate(step, start, i + k) == Iterate(step, start, j + k)
    decreases k
  {
    if k > 0 { IteratePeriod(step, start, i, j, k - 1); }
  }

  /** A walk that comes back to where it was goes on for ever. */
  lemma {:induction false} IterateRepeats(step: Cid -> Option<Cid>, start: Option<Cid>, i: nat, j: nat, n: nat)
    requires i < j && Iterate(step, start, i).Some? && Iterate(step, start, i) == Iterate(step, start, j)
    ensures Iterate(step, start, n).Some?
    decreases n
  {
    if n <= j {
      IterateStays(step, start, n, j);
    } else {
      IteratePeriod(step, start, i, j, n - j);
      IterateRepeats(step, start, i, j, n - (j - i));
    }
  }

  ghost function StepOf(find: Store): Cid -> Option<Cid> { cid => Tip(find, LinksOf(find, cid)) }

  /** The tip of the `n`-th group after `cids`. */
  ghost function TipAfter(find: Store, cids: seq<Cid>, n: nat): Option<Cid> {
    Iterate(StepOf(find), Tip(find, cids), n)
  }

  lemma {:induction false} GroupTip(find: Store, cids: seq<Cid>)
    requires cids != [] && Group(find, cids).Frames?
    ensures find(cids[|cids| - 1]).Some? && find(cids[|cids| - 1]).value.DataFrame?
    ensures LastNext(Group(find, cids).frames) == find(cids[|cids| - 1]).value.frame.next
    decreases |cids|
  {
    if |cids| > 1 { GroupTip(find, cids[1..]); }
  }

  /** The chain from `cids` goes on as the chain from the links of its tip. */
  lemma TipShift(find: Store, cids: seq<Cid>, n: nat)
    ensures var t := Tip(find, cids);
            TipAfter(find, cids, n + 1)
            == if t.None? then None else TipAfter(find, LinksOf(find, t.value), n)
  {
    IterateShift(StepOf(find), Tip(find, cids), n);
  }

  lemma {:induction false} EndsMeansNoTip(find: Store, cids: seq<Cid>, n: nat)
    requires Ends(find, cids, n)
    ensures TipAfter(find, cids, n + 1).None?
    decreases n
  {
    TipShift(find, cids, n);
    if Tip(find, cids).Some? {
      GroupTip(find, cids);
      var links := LinksOf(find, cids[|cids| - 1]);
      if links != [] {
        EndsMeansNoTip(find, links, n - 1);
      } else if TipAfter(find, links, n).Some? {
        TipsBefore(find, links, 0, n);
      }
    }
  }

  lemma {:induction false} NoTipMeansEnds(find: Store, cids: seq<Cid>, n: nat)
    requires TipAfter(find, cids, n).None?
    ensures Ends(find, cids, n)
    decreases n
  {
    if n > 0 && Tip(find, cids).Some? {
      GroupTip(find, cids);
      TipShift(find, cids, n - 1);
      NoTipMeansEnds(find, LinksOf(find, cids[|cids| - 1]), n - 1);
    }
  }

  lemma TipsBefore(find: Store, cids: seq<Cid>, m: nat, n: nat)
    requires m <= n && TipAfter(find, cids, n).Some?
    ensures TipAfter(find, cids, m).Some?
  {
    IterateStays(StepOf(find), Tip(find, cids), m, n);
  }

  /** A chain that comes back to a tip never ends. */
  lemma RepeatNeverEnds(find: Store, cids: seq<Cid>, i: nat, j: nat, n: nat)
    requires i < j && TipAfter(find, cids, i).Some? && TipAfter(find, cids, i) == TipAfter(find, cids, j)
    ensures TipAfter(find, cids, n).Some?
  {
    IterateRepeats(StepOf(find), Tip(find, cids), i, j, n);
  }

  ghost function Keys(entries: seq<Entry>): set<Cid> { set i | 0 <= i < |entries| :: entries[i].cid }

  lemma {:induction false} FewKeys(entries: seq<Entry>)
    ensures |Keys(entries)| <= |entries|
    ensures forall cid :: Find(entries, cid).Some? ==> cid in Keys(entries)
  {
    if entries != [] {
      var last := |entries| - 1;
      FewKeys(entries[..last]);
      assert Keys(entries) == Keys(entries[..last]) + {entries[last].cid};
    }
  }

  lemma {:induction false} Pigeonhole(xs: seq<Cid>, s: set<Cid>) returns (i: nat, j: nat)
    requires |s| < |xs| && forall k | 0 <= k < |xs| :: xs[k] in s
    ensures i < j < |xs| && xs[i] == xs[j]
    decreases |s|
  {
    var last := |xs| - 1;
    if k :| 0 <= k < last && xs[k] == xs[last] {
      return k, last;
    }
    i, j := Pigeonhole(xs[..last], s - {xs[last]});
  }

  /** Among the first `n + 1` tips, two are the same. */
  ghost predicate Repeats(find: Store, cids: seq<Cid>, n: nat) {
    exists i: nat, j: nat :: i < j <= n && TipAfter(find, cids, i).Some?
                             && TipAfter(find, cids, i) == TipAfter(find, cids, j)
  }

  lemma TipIsStored(entries: seq<Entry>, cids: seq<Cid>, n: nat)
    requires TipAfter(StoreOf(entries), cids, n).Some?
    ensures TipAfter(StoreOf(entries), cids, n).value in Keys(entries)
  {
    var find := StoreOf(entries);
    FewKeys(entries);
    if n == 0 {
      GroupTip(find, cids);
    } else {
      GroupTip(find, LinksOf(find, TipAfter(find, cids, n - 1).value));
    }
  }

  /** A chain longer than the collection repeats itself. */
  lemma LongChainRepeats(entries: seq<Entry>, cids: seq<Cid>)
    requires TipAfter(StoreOf(entries), cids, |entries|).Some?
    ensures Repeats(StoreOf(entries), cids, |entries|)
  {
    var find, n := StoreOf(entries), |entries|;
    forall k: nat | k <= n ensures TipAfter(find, cids, k).Some? && TipAfter(find, cids, k).value in Keys(entries) {
      TipsBefore(find, cids, k, n);
      TipIsStored(entries, cids, k);
    }
    FewKeys(entries);
    var tips := seq(n + 1, k requires 0 <= k <= n && TipAfter(find, cids, k).Some? => TipAfter(find, cids, k).value);
    var i, j := Pigeonhole(tips, Keys(entries));
    assert tips[i] == tips[j];
  }

  lemma RepeatsNeverEnd(find: Store, cids: seq<Cid>, m: nat, n: nat)
    requires Repeats(find, cids, m)
    ensures !Ends(find, cids, n)
  {
    var i: nat, j: nat :| i < j <= m && TipAfter(find, cids, i).Some?
                          && TipAfter(find, cids, i) == TipAfter(find, cids, j);
    RepeatNeverEnds(find, cids, i, j, n + 1);
    if Ends(find, cids, n) { EndsMeansNoTip(find, cids, n); }
  }

  lemma EndsWithinNodes(entries: seq<Entry>, cids: seq<Cid>, n: nat)
    requires Ends(StoreOf(entries), cids, n)
    ensures Ends(StoreOf(entries), cids, |entries|)
  {
    var find := StoreOf(entries);
    if TipAfter(find, cids, |entries|).Some? {
      LongChainRepeats(entries, cids);
      RepeatsNeverEnd(find, cids, |entries|, n);
    }
    NoTipMeansEnds(find, cids, |entries|);
  }

  /** The links end at all exactly when they end within as many groups as there are nodes. */
  lemma EndsIffWithinNodes(entries: seq<Entry>, cids: seq<Cid>)
    ensures (exists n: nat :: Ends(StoreOf(entries), cids, n)) <==> Ends(StoreOf(entries), cids, |entries|)
  {
    if n: nat :| Ends(StoreOf(entries), cids, n) { EndsWithinNodes(entries, cids, n); }
  }

  /** And exactly when the chain of tips does not come back to one of them. */
  lemma EndsIffNoRepeat(entries: seq<Entry>, cids: seq<Cid>)
    ensures Ends(StoreOf(entries), cids, |entries|) <==> !Repeats(StoreOf(entries), cids, |entries|)
  {
    var find, n := StoreOf(entries), |entries|;
    if Repeats(find, cids, n) {
      RepeatsNeverEnd(find, cids, n, n);
    } else if TipAfter(find, cids, n).None? {
      NoTipMeansEnds(find, cids, n);
    } else {
      LongChainRepeats(entries, cids);
    }
  }

  /** Links fall in rank: there are no cycles. */
  ghost predicate Acyclic(find: Store, rank: Cid -> nat) {
    forall cid: Cid, link: Cid | link in LinksOf(find, cid) :: rank(link) < rank(cid)
  }

  lemma LinkFalls(find: Store, rank: Cid -> nat, cid: Cid, link: Cid)
    requires Acyclic(find, rank) && link in LinksOf(find, cid)
    ensures rank(link) < rank(cid)
  {
  }

  lemma {:induction false} TipsFall(find: Store, rank: Cid -> nat, cids: seq<Cid>, n: nat)
    requires Acyclic(find, rank) && TipAfter(find, cids, n).Some?
    ensures Tip(find, cids).Some? && rank(TipAfter(find, cids, n).value) + n <= rank(Tip(find, cids).value)
    decreases n
  {
    if n > 0 {
      TipsFall(find, rank, cids, n - 1);
      var t := TipAfter(find, cids, n - 1).value;
      LinkFalls(find, rank, t, TipAfter(find, cids, n).value);
    }
  }

  /** Acyclic links end. */
  lemma AcyclicEnds(entries: seq<Entry>, rank: Cid -> nat, cids: seq<Cid>)
    requires Acyclic(StoreOf(entries), rank)
    ensures Ends(StoreOf(entries), cids, |entries|)
  {
    var find := StoreOf(entries);
    var t := Tip(find, cids);
    var n: nat := if t.Some? then rank(t.value) + 1 else 0;
    if TipAfter(find, cids, n).Some? { TipsFall(find, rank, cids, n); }
    NoTipMeansEnds(find, cids, n);
    EndsWithinNodes(entries, cids, n);
  }

  /** Every link of a stored frame leads to a stored frame. */
  ghost predicate Closed(find: Store) {
    forall cid: Cid, link: Cid | link in LinksOf(find, cid) :: find(link).Some? && find(link).value.DataFrame?
  }

  /** With acyclic links and every frame there, the whole tree of links is finite. */
  lemma {:induction false} AcyclicIsComplete(find: Store, rank: Cid -> nat, cids: seq<Cid>, k: nat)
    requires Acyclic(find, rank) && Closed(find)
    requires forall i | 0 <= i < |cids| :: find(cids[i]).Some? && find(cids[i]).value.DataFrame? && rank(cids[i]) <= k
    ensures Complete(find, cids, k)
    decreases k
  {
    forall i | 0 <= i < |cids| && find(cids[i]).value.frame.Links() != []
      ensures k > 0 && Complete(find, find(cids[i]).value.frame.Links(), k - 1)
    {
      var links := LinksOf(find, cids[i]);
      forall j | 0 <= j < |links|
        ensures rank(links[j]) < rank(cids[i]) && find(links[j]).Some? && find(links[j]).value.DataFrame?
      {
        assert links[j] in LinksOf(find, cids[i]);
        LinkFalls(find, rank, cids[i], links[j]);
      }
      assert rank(links[0]) < rank(cids[i]);
      AcyclicIsComplete(find, rank, links, k - 1);
    }
  }

  /** How far ahead one looks for the end does not change what is collected on the way. */
  lemma {:induction false} ChainIsOne(find: Store, cids: seq<Cid>, m: nat, n: nat)
    requires Ends(find, cids, m) && Ends(find, cids, n)
    ensures Chain(find, cids, m) == Chain(find, cids, n)
    decreases m
  {
    if Group(find, cids).Frames? {
      var links := LastLinks(Group(find, cids).frames);
      if links != [] { ChainIsOne(find, links, m - 1, n - 1); }
    }
  }

  /** What `Reassemble` does with a collection in which all frames linked from the first are there, down to some
      depth: it ends, it collects all linked bytes in order exactly when none hang off a frame that is not the
      last of its group, and returns them when only last frames link on, provided the checksum is right. */
  lemma ReassembleReturnsAll(entries: seq<Entry>, sums: Checksums, first: Frame, k: nat)
    requires Complete(StoreOf(entries), first.Links(), k)
    ensures var find, cids := StoreOf(entries), first.Links();
      && Ends(find, cids, |entries|)
      && (Chain(find, cids, |entries|) == Payload(Tree(find, cids, k)) <==> Dropped(find, cids, k) == 0)
      && (OnlyLastLinks(find, cids, k) ==>
            var whole := first.data + Tree(find, cids, k);
            Reassembled(find, sums, first, |entries|)
            == if first.hash.None? || sums.crc64(whole) == first.hash.value || sums.fnv(whole) == first.hash.value
               then Payload(whole) else Failure(HashMismatch))
  {
    var find, cids := StoreOf(entries), first.Links();
    CompleteEnds(find, cids, k);
    EndsWithinNodes(entries, cids, k);
    ChainIsOne(find, cids, k, |entries|);
    ReassemblyIsTreeIff(find, first, k);
    if OnlyLastLinks(find, cids, k) { ReassemblyChecksWhole(find, sums, first, k); }
  }

  /** A frame linked to itself: reassembly never comes to an end. */
  lemma CycleNeverEnds(n: nat)
    ensures var nodes := [Entry(1, DataFrame(Frame([7], None, Some([1]))))]; !Ends(StoreOf(nodes), [1], n)
  {
    var nodes := [Entry(1, DataFrame(Frame([7], None, Some([1]))))];
    var find := StoreOf(nodes);
    assert find(1) == Some(nodes[0].node);
    assert Group(find, [1]).Frames? by { assert [1][1..] == []; }
    assert TipAfter(find, [1], 0) == Some(1) && TipAfter(find, [1], 1) == Some(1);
    RepeatsNeverEnd(find, [1], 1, n);
  }

  /** Bytes linked from a frame that is not the last of its group are dropped. */
  lemma DroppedBytes()
    ensures var nodes := [Entry(1, DataFrame(Frame([7], None, Some([3])))), Entry(2, DataFrame(Frame([8], None, None))),
                          Entry(3, DataFrame(Frame([9], None, None)))];
            var find := StoreOf(nodes);
            && Complete(find, [1, 2], 1) && Dropped(find, [1, 2], 1) == 1
            && Tree(find, [1, 2], 1) == [7, 9, 8] && Collected(find, [1, 2], 1) == [7, 8]
  {
    var nodes := [Entry(1, DataFrame(Frame([7], None, Some([3])))), Entry(2, DataFrame(Frame([8], None, None))),
                  Entry(3, DataFrame(Frame([9], None, None)))];
    var find := StoreOf(nodes);
    assert find(3) == Some(nodes[2].node);
    assert nodes[..2] == [nodes[0], nodes[1]] && find(2) == Some(nodes[1].node);
    assert Find([nodes[0]], 1) == Some(nodes[0].node) && nodes[..2][..1] == [nodes[0]];
    assert Find(nodes[..2], 1) == Find(nodes[..2][..1], 1);
    assert find(1) == Find(nodes[..2], 1);
    assert Complete(find, [3], 0);
    assert Tree(find, [3], 0) == [9] by { assert [3][1..] == []; }
    assert [1, 2][1..] == [2] && [2][1..] == [];
  }
}
