/** Payloads split over linked frames, and putting them together again. */
module Frames {
  import opened Slots
  import opened Octets

  type Cid = int

  /** A frame: its bytes, the checksum of the whole payload if it carries one, and the frames that follow.
      The source tells an absent list from an empty one; both mean that nothing follows. */
  datatype Frame = Frame(data: seq<Byte>, hash: Option<nat>, next: Option<seq<Cid>>) {
    function Links(): seq<Cid> { next.GetOr([]) }
  }

  datatype Node = DataFrame(frame: Frame) | OtherNode
  datatype Entry = Entry(cid: Cid, node: Node)

  datatype Problem = MissingCid(cid: Cid) | NotAFrame(cid: Cid) | HashMismatch
  datatype Outcome = Payload(bytes: seq<Byte>) | Failure(problem: Problem)

  /** The two checksum functions. */
  datatype Checksums = Checksums(crc64: seq<Byte> -> nat, fnv: seq<Byte> -> nat)

  /** The later of two nodes with the same CID is the one found. */
  ghost function Find(entries: seq<Entry>, cid: Cid): Option<Node> {
    if entries == [] then None
    else if entries[|entries| - 1].cid == cid then Some(entries[|entries| - 1].node)
    else Find(entries[..|entries| - 1], cid)
  }

  /** `verify_hash`: the current checksum, or else the legacy one. */
  predicate HashMatches(sums: Checksums, bytes: seq<Byte>, wanted: nat) {
    sums.crc64(bytes) == wanted || sums.fnv(bytes) == wanted
  }

  function Checked(sums: Checksums, first: Frame, bytes: seq<Byte>): Outcome {
    if first.hash.None? || HashMatches(sums, bytes, first.hash.value) then Payload(bytes) else Failure(HashMismatch)
  }

  /** A node store: what a CID leads to. */
  type Store = Cid -> Option<Node>

  ghost function StoreOf(entries: seq<Entry>): Store { cid => Find(entries, cid) }

  /** The frames of one group, in order, up to the first that is missing or is no frame. */
  datatype GroupResult = Frames(frames: seq<Frame>) | Stopped(problem: Problem)

  function Group(find: Store, cids: seq<Cid>): (r: GroupResult)
    ensures r.Frames? ==> |r.frames| == |cids|
  {
    if cids == [] then Frames([])
    else match find(cids[0])
      case None => Stopped(MissingCid(cids[0]))
      case Some(OtherNode) => Stopped(NotAFrame(cids[0]))
      case Some(DataFrame(f)) =>
        match Group(find, cids[1..])
        case Frames(fs) => Frames([f] + fs)
        case Stopped(p) => Stopped(p)
  }

  function Data(frames: seq<Frame>): seq<Byte> {
    if frames == [] then [] else frames[0].data + Data(frames[1..])
  }

  function LastNext(frames: seq<Frame>): Option<seq<Cid>> {
    if frames == [] then None else frames[|frames| - 1].next
  }

  function LastLinks(frames: seq<Frame>): seq<Cid> { LastNext(frames).GetOr([]) }

  /** Following the links of each group's last frame comes to an end within `n` groups. */
  ghost predicate Ends(find: Store, cids: seq<Cid>, n: nat)
    decreases n
  {
    match Group(find, cids)
    case Stopped(_) => true
    case Frames(fs) => LastLinks(fs) == [] || (n > 0 && Ends(find, LastLinks(fs), n - 1))
  }

  /** Group after group, each one linked from the last frame of the one before. */
  ghost function Chain(find: Store, cids: seq<Cid>, n: nat): Outcome
    requires Ends(find, cids, n)
    decreases n
  {
    match Group(find, cids)
    case Stopped(p) => Failure(p)
    case Frames(fs) =>
      if LastLinks(fs) == [] then Payload(Data(fs)) else After(Data(fs), Chain(find, LastLinks(fs), n - 1))
  }

  function After(bytes: seq<Byte>, rest: Outcome): Outcome {
    match rest
    case Payload(more) => Payload(bytes + more)
    case Failure(_) => rest
  }

  /** What reassembly answers: the linked bytes, checked as a whole against the first frame's checksum. */
  ghost function Reassembled(find: Store, sums: Checksums, first: Frame, n: nat): Outcome
    requires Ends(find, first.Links(), n)
  {
    match Chain(find, first.Links(), n)
    case Payload(rest) => Checked(sums, first, first.data + rest)
    case Failure(p) => Failure(p)
  }

  /** The nodes of a batch, findable by CID. */
  class NodesWithCids {
    var nodes: seq<Entry>
    var index: map<Cid, nat>

    ghost predicate Valid()
      reads this
    {
      forall cid :: (if cid in index then index[cid] < |nodes| && Find(nodes, cid) == Some(nodes[index[cid]].node)
                     else Find(nodes, cid) == None)
    }

    constructor ()
      ensures Valid() && nodes == []
    {
      nodes, index := [], map[];
    }

    method Push(entry: Entry)
      requires Valid()
      modifies this
      ensures Valid() && nodes == old(nodes) + [entry]
      ensures forall cid :: Find(nodes, cid) == if cid == entry.cid then Some(entry.node) else Find(old(nodes), cid)
    {
      index := index[entry.cid := |nodes|];
      nodes := nodes + [entry];
      assert nodes[..|nodes| - 1] == old(nodes);
    }

    method GetByCid(cid: Cid) returns (r: Option<Node>)
      requires Valid()
      ensures r == Find(nodes, cid)
    {
      if cid in index { return Some(nodes[index[cid]].node); }
      return None;
    }

    ghost function Lookup(): Store
      reads this
    {
      StoreOf(nodes)
    }

    /** The inner loop: appends the frames of one group and notes the last one's links. */
    method AppendGroup(data: seq<Byte>, cids: seq<Cid>)
      returns (problem: Option<Problem>, bytes: seq<Byte>, links: Option<seq<Cid>>)
      requires Valid()
      ensures match Group(Lookup(), cids)
              case Stopped(p) => problem == Some(p)
              case Frames(fs) => problem == None && bytes == data + Data(fs) && links == LastNext(fs)
    {
      bytes, links := data, None;
      ghost var done: seq<Frame> := [];
      for i := 0 to |cids|
        invariant bytes == data + Data(done) && links == LastNext(done)
        invariant Group(Lookup(), cids) == Joined(done, Group(Lookup(), cids[i..]))
      {
        var node := GetByCid(cids[i]);
        assert cids[i..][1..] == cids[i + 1..];
        if node.None? { return Some(MissingCid(cids[i])), bytes, links; }
        if !node.value.DataFrame? { return Some(NotAFrame(cids[i])), bytes, links; }
        var frame := node.value.frame;
        DataAppend(done, frame);
        JoinedStep(done, frame, Group(Lookup(), cids[i + 1..]));
        bytes, links, done := bytes + frame.data, frame.next, done + [frame];
      }
      assert cids[|cids|..] == [] && done + [] == done;
      problem := None;
    }

    /** `reassemble_dataframes_borrowed`, with its shortcut for a frame that nothing follows. It answers
        when the links end; `FrameChains` shows that as many groups as there are nodes decide that. */
    method Reassemble(sums: Checksums, first: Frame) returns (r: Outcome)
      requires Valid() && Ends(Lookup(), first.Links(), |nodes|)
      ensures r == Reassembled(Lookup(), sums, first, |nodes|)
      ensures match Chain(Lookup(), first.Links(), |nodes|)
              case Failure(p) => r == Failure(p)
              case Payload(rest) =>
                var whole := first.data + rest;
                r == if first.hash.None? || sums.crc64(whole) == first.hash.value || sums.fnv(whole) == first.hash.value
                     then Payload(whole) else Failure(HashMismatch)
    {
      if first.next.None? || first.next.value == [] {
        assert Data([]) == [] && first.data + [] == first.data;
        return Checked(sums, first, first.data);
      }
      var data, next := first.data, first.next;
      ghost var left: nat := |nodes|;
      ghost var whole := After(first.data, Chain(Lookup(), first.Links(), |nodes|));
      while next.Some?
        invariant next.Some? ==>
                    Ends(Lookup(), next.value, left) && whole == After(data, Chain(Lookup(), next.value, left))
        invariant next.None? ==> whole == Payload(data)
        decreases next.Some?, left, next.GetOr([]) != []
      {
        var problem, bytes, links := AppendGroup(data, next.value);
        if problem.Some? { return Failure(problem.value); }
        ChainStep(Lookup(), whole, data, next.value, left);
        data, next := bytes, links;
        if links.Some? && links.value != [] { left := left - 1; }
      }
      return Checked(sums, first, data);
    }
  }

  /** One group further along the chain. */
  lemma ChainStep(find: Store, whole: Outcome, data: seq<Byte>, cids: seq<Cid>, n: nat)
    requires Ends(find, cids, n) && whole == After(data, Chain(find, cids, n)) && Group(find, cids).Frames?
    ensures var fs := Group(find, cids).frames;
            var bytes := data + Data(fs);
            match LastNext(fs)
            case None => whole == Payload(bytes)
            case Some(links) =>
              var m := if links == [] then n else n - 1;
              0 <= m && Ends(find, links, m) && whole == After(bytes, Chain(find, links, m))
  {
    var fs := Group(find, cids).frames;
    var bytes := data + Data(fs);
    assert bytes + [] == bytes;
    if LastLinks(fs) != [] {
      var rest := Chain(find, LastLinks(fs), n - 1);
      if rest.Payload? { assert data + (Data(fs) + rest.bytes) == bytes + rest.bytes; }
    }
  }

  ghost function Joined(done: seq<Frame>, rest: GroupResult): GroupResult {
    match rest
    case Frames(fs) => Frames(done + fs)
    case Stopped(_) => rest
  }

  lemma JoinedStep(done: seq<Frame>, f: Frame, rest: GroupResult)
    ensures Joined(done, match rest case Frames(fs) => Frames([f] + fs) case Stopped(p) => Stopped(p))
            == Joined(done + [f], rest)
  {
    if rest.Frames? { assert done + ([f] + rest.frames) == (done + [f]) + rest.frames; }
  }

  lemma {:induction false} DataAppend(frames: seq<Frame>, f: Frame)
    ensures Data(frames + [f]) == Data(frames) + f.data
  {
    if frames == [] {
      assert frames + [f] == [f];
      assert Data([f]) == f.data + Data([]);
    } else {
      assert (frames + [f])[1..] == frames[1..] + [f];
      DataAppend(frames[1..], f);
    }
  }

  /** Every frame reachable from `cids` is in the store, within `k` links. */
  ghost predicate Complete(find: Store, cids: seq<Cid>, k: nat)
    decreases k
  {
    forall i | 0 <= i < |cids| ::
      && find(cids[i]).Some? && find(cids[i]).value.DataFrame?
      && var links := find(cids[i]).value.frame.Links(); links == [] || (k > 0 && Complete(find, links, k - 1))
  }

  /** The reference: every frame followed by everything linked from it, in order. */
  ghost function Tree(find: Store, cids: seq<Cid>, k: nat): seq<Byte>
    requires Complete(find, cids, k)
    decreases k, |cids|
  {
    if cids == [] then []
    else
      assert forall i | 0 <= i < |cids[1..]| :: cids[1..][i] == cids[i + 1];
      find(cids[0]).value.frame.data + Under(find, cids, k) + Tree(find, cids[1..], k)
  }

  /** What is linked from the first frame of a group. */
  ghost function Under(find: Store, cids: seq<Cid>, k: nat): seq<Byte>
    requires Complete(find, cids, k) && cids != []
    decreases k, 0
  {
    var links := find(cids[0]).value.frame.Links();
    if links == [] then [] else Tree(find, links, k - 1)
  }

  /** How many bytes reassembly passes over: those linked from a frame that is not the last of its group. */
  ghost function Dropped(find: Store, cids: seq<Cid>, k: nat): nat
    requires Complete(find, cids, k)
    decreases k, |cids|
  {
    if cids == [] then 0
    else if |cids| > 1 then
      assert forall i | 0 <= i < |cids[1..]| :: cids[1..][i] == cids[i + 1];
      |Under(find, cids, k)| + Dropped(find, cids[1..], k)
    else
      var links := find(cids[0]).value.frame.Links();
      if links == [] then 0 else Dropped(find, links, k - 1)
  }

  lemma {:induction false} CompleteGroups(find: Store, cids: seq<Cid>, k: nat)
    requires Complete(find, cids, k)
    ensures Group(find, cids).Frames?
    ensures cids != [] ==> LastNext(Group(find, cids).frames) == find(cids[|cids| - 1]).value.frame.next
    decreases |cids|
  {
    if cids != [] {
      assert forall i | 0 <= i < |cids[1..]| :: cids[1..][i] == cids[i + 1];
      CompleteGroups(find, cids[1..], k);
    }
  }

  lemma {:induction false} CompleteEnds(find: Store, cids: seq<Cid>, k: nat)
    requires Complete(find, cids, k)
    ensures Ends(find, cids, k)
    decreases k
  {
    CompleteGroups(find, cids, k);
    if cids != [] {
      var links := LastLinks(Group(find, cids).frames);
      if links != [] { CompleteEnds(find, links, k - 1); }
    }
  }

  /** The bytes the chain collects from `cids`, when the store is complete. */
  ghost function Collected(find: Store, cids: seq<Cid>, k: nat): seq<Byte>
    requires Complete(find, cids, k)
    decreases k, |cids|
  {
    if cids == [] then []
    else if |cids| > 1 then
      assert forall i | 0 <= i < |cids[1..]| :: cids[1..][i] == cids[i + 1];
      find(cids[0]).value.frame.data + Collected(find, cids[1..], k)
    else
      var f := find(cids[0]).value.frame;
      if f.Links() == [] then f.data else f.data + Collected(find, f.Links(), k - 1)
  }

  lemma {:induction false} ChainIsCollected(find: Store, cids: seq<Cid>, k: nat)
    requires Complete(find, cids, k)
    ensures Ends(find, cids, k) && Chain(find, cids, k) == Payload(Collected(find, cids, k))
    decreases k, |cids|
  {
    CompleteGroups(find, cids, k);
    CompleteEnds(find, cids, k);
    if |cids| == 1 {
      var f := find(cids[0]).value.frame;
      assert Group(find, cids).frames == [f] by { assert cids[1..] == []; }
      assert Data([f]) == f.data + Data([]) == f.data;
      if f.Links() != [] { ChainIsCollected(find, f.Links(), k - 1); }
    } else if |cids| > 1 {
      assert forall i | 0 <= i < |cids[1..]| :: cids[1..][i] == cids[i + 1];
      ChainIsCollected(find, cids[1..], k);
      FirstOfGroup(find, cids, k);
    }
  }

  /** The first frame of a longer group only contributes its own bytes. */
  lemma FirstOfGroup(find: Store, cids: seq<Cid>, k: nat)
    requires |cids| > 1 && Ends(find, cids, k) && Ends(find, cids[1..], k) && Group(find, cids).Frames?
    ensures Chain(find, cids, k) == After(Group(find, cids).frames[0].data, Chain(find, cids[1..], k))
  {
    var fs := Group(find, cids).frames;
    var f, rest := fs[0], Group(find, cids[1..]).frames;
    assert fs == [f] + rest;
    assert Data(fs) == f.data + Data(rest) by { assert fs[1..] == rest; }
    assert LastNext(fs) == LastNext(rest);
    if LastLinks(fs) != [] {
      var last := Chain(find, LastLinks(fs), k - 1);
      if last.Payload? { assert (f.data + Data(rest)) + last.bytes == f.data + (Data(rest) + last.bytes); }
    }
  }

  /** The chain's bytes and the dropped ones account for the whole tree. */
  lemma {:induction false} CollectedAndDropped(find: Store, cids: seq<Cid>, k: nat)
    requires Complete(find, cids, k)
    ensures |Tree(find, cids, k)| == |Collected(find, cids, k)| + Dropped(find, cids, k)
    ensures Dropped(find, cids, k) == 0 ==> Tree(find, cids, k) == Collected(find, cids, k)
    decreases k, |cids|
  {
    if |cids| == 1 {
      var links := find(cids[0]).value.frame.Links();
      assert cids[1..] == [];
      if links != [] { CollectedAndDropped(find, links, k - 1); }
    } else if |cids| > 1 {
      assert forall i | 0 <= i < |cids[1..]| :: cids[1..][i] == cids[i + 1];
      CollectedAndDropped(find, cids[1..], k);
    }
  }

  /** Reassembly yields all linked bytes, in order, exactly when no bytes hang off a frame that is not the
      last of its group. */
  lemma ReassemblyIsTreeIff(find: Store, first: Frame, k: nat)
    requires Complete(find, first.Links(), k)
    ensures Ends(find, first.Links(), k)
    ensures Chain(find, first.Links(), k) == Payload(Tree(find, first.Links(), k))
       <==> Dropped(find, first.Links(), k) == 0
  {
    ChainIsCollected(find, first.Links(), k);
    CollectedAndDropped(find, first.Links(), k);
  }

  /** Only the last frame of a group links on. */
  ghost predicate OnlyLastLinks(find: Store, cids: seq<Cid>, k: nat)
    requires Complete(find, cids, k)
    decreases k
  {
    forall i | 0 <= i < |cids| ::
      var links := find(cids[i]).value.frame.Links();
      if i < |cids| - 1 then links == [] else links == [] || OnlyLastLinks(find, links, k - 1)
  }

  lemma {:induction false} OnlyLastDropsNothing(find: Store, cids: seq<Cid>, k: nat)
    requires Complete(find, cids, k) && OnlyLastLinks(find, cids, k)
    ensures Dropped(find, cids, k) == 0
    decreases k, |cids|
  {
    if |cids| == 1 {
      var links := find(cids[0]).value.frame.Links();
      if links != [] { OnlyLastDropsNothing(find, links, k - 1); }
    } else if |cids| > 1 {
      assert forall i | 0 <= i < |cids[1..]| :: cids[1..][i] == cids[i + 1];
      OnlyLastDropsNothing(find, cids[1..], k);
    }
  }

  /** The answer for frames linked as they are meant to be: the whole payload, provided its checksum is right. */
  lemma ReassemblyChecksWhole(find: Store, sums: Checksums, first: Frame, k: nat)
    requires Complete(find, first.Links(), k) && OnlyLastLinks(find, first.Links(), k)
    ensures Ends(find, first.Links(), k)
    ensures var whole := first.data + Tree(find, first.Links(), k);
            Reassembled(find, sums, first, k)
            == if first.hash.None? || sums.crc64(whole) == first.hash.value || sums.fnv(whole) == first.hash.value
               then Payload(whole) else Failure(HashMismatch)
  {
    OnlyLastDropsNothing(find, first.Links(), k);
    ReassemblyIsTreeIff(find, first, k);
  }

  /** A frame that nothing follows is returned as it is, whatever the store. */
  lemma ShortcutAgrees(find: Store, sums: Checksums, first: Frame, n: nat)
    requires first.Links() == []
    ensures Ends(find, first.Links(), n) && Reassembled(find, sums, first, n) == Checked(sums, first, first.data)
  {
    assert first.data + [] == first.data;
  }

  // ---------------------------------------------------------------------------------------------
  // What stops reassembly.

  /** A group stops at its first CID that leads nowhere or to another kind of node, and says which. */
  lemma {:induction false} GroupStopsAtFirst(find: Store, cids: seq<Cid>)
    ensures Group(find, cids).Frames? <==>
              forall i | 0 <= i < |cids| :: find(cids[i]).Some? && find(cids[i]).value.DataFrame?
    ensures Group(find, cids).Frames? ==>
              forall i | 0 <= i < |cids| :: Group(find, cids).frames[i] == find(cids[i]).value.frame
    ensures Group(find, cids).Stopped? ==>
              exists i :: StopsAt(find, cids, i)
                && Group(find, cids).problem == if find(cids[i]).None? then MissingCid(cids[i]) else NotAFrame(cids[i])
    decreases |cids|
  {
    if cids != [] && find(cids[0]).Some? && find(cids[0]).value.DataFrame? {
      var rest := cids[1..];
      GroupStopsAtFirst(find, rest);
      assert forall i | 0 <= i < |rest| :: rest[i] == cids[i + 1];
      if Group(find, rest).Stopped? {
        var i :| StopsAt(find, rest, i)
          && Group(find, rest).problem == if find(rest[i]).None? then MissingCid(rest[i]) else NotAFrame(rest[i]);
        assert StopsAt(find, cids, i + 1);
      }
    } else if cids != [] {
      assert StopsAt(find, cids, 0);
    }
  }

  ghost predicate StopsAt(find: Store, cids: seq<Cid>, i: int) {
    && 0 <= i < |cids| && (find(cids[i]).None? || !find(cids[i]).value.DataFrame?)
    && forall j | 0 <= j < i :: find(cids[j]).Some? && find(cids[j]).value.DataFrame?
  }

  /** What stops a group that is reached stops the whole reassembly. */
  lemma StoppedGroupFails(find: Store, sums: Checksums, first: Frame, n: nat)
    requires Ends(find, first.Links(), n) && Group(find, first.Links()).Stopped?
    ensures Reassembled(find, sums, first, n) == Failure(Group(find, first.Links()).problem)
  {
  }
}
