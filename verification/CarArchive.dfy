/** Epoch archives as byte streams: what a reader gets after a seek, and from a stream cut short. */
module CarArchive {
  import opened Slots
  import opened Octets
  import opened Varint
  import opened SlotIndex
  import opened CarReader

  /** The data of one present slot: its other sections, then its Block. */
  datatype Group = Group(slot: nat, others: seq<seq<Byte>>, block: seq<Byte>) {
    function Payloads(): seq<seq<Byte>> { others + [block] }
  }

  /** An archive: a header, the groups of its present slots in order, and trailing sections. */
  datatype Car = Car(header: seq<Byte>, groups: seq<Group>, tail: seq<seq<Byte>>)

  function Section(payload: seq<Byte>): seq<Byte> { Encode(|payload|) + payload }

  function Sections(payloads: seq<seq<Byte>>): seq<Byte> {
    if payloads == [] then [] else Section(payloads[0]) + Sections(payloads[1..])
  }

  function GroupBytes(groups: seq<Group>): seq<Byte> {
    if groups == [] then [] else Sections(groups[0].Payloads()) + GroupBytes(groups[1..])
  }

  function Bytes(car: Car): seq<Byte> { Section(car.header) + (GroupBytes(car.groups) + Sections(car.tail)) }

  /** Where group `i` begins; `i == |groups|` is where the tail begins. */
  function Offset(car: Car, i: nat): nat
    requires i <= |car.groups|
  {
    |Section(car.header)| + |GroupBytes(car.groups[..i])|
  }

  /** Sections that decode to nodes other than blocks. */
  ghost predicate Plain(payloads: seq<seq<Byte>>, decode: Decoder) {
    forall i | 0 <= i < |payloads| ::
      |payloads[i]| <= MAX_SECTION && decode(payloads[i]).Parsed? && decode(payloads[i]).node.Other?
  }

  function Nodes(payloads: seq<seq<Byte>>, decode: Decoder): (r: seq<Node>)
    ensures |r| == |payloads|
  {
    if payloads == [] then []
    else [match decode(payloads[0]) case Parsed(n) => n case _ => Other(0)] + Nodes(payloads[1..], decode)
  }

  ghost predicate GroupOk(g: Group, decode: Decoder) {
    Plain(g.others, decode) && |g.block| <= MAX_SECTION && decode(g.block) == Parsed(Block(g.slot))
  }

  /** A well-formed archive of one epoch. */
  ghost predicate CarOk(car: Car, epoch: nat, decode: Decoder) {
    && 0 < |car.header| <= MAX_HEADER
    && (forall i | 0 <= i < |car.groups| :: GroupOk(car.groups[i], decode) && Epoch(car.groups[i].slot) == epoch)
    && (forall i, j | 0 <= i < j < |car.groups| :: car.groups[i].slot < car.groups[j].slot)
    && Plain(car.tail, decode)
  }

  /** A header announced as `size` bytes long: too long a one is refused, one the data does not hold is an early
      end, and any other is read. */
  lemma HeaderVerdict(size: nat, rest: seq<Byte>)
    requires size < U64_LIMIT
    ensures var used := |Encode(size)|;
            HeaderIn(Encode(size) + rest)
            == if size > MAX_HEADER then NoHeader(false, used)
               else if size > |rest| then NoHeader(true, used + |rest|)
               else Header(rest[..size], used + size)
  {
    var prefix, bytes := Encode(size), Encode(size) + rest;
    LimitOfAll();
    DecodeEncode(size, rest, 0);
    if size <= |rest| { assert bytes[|prefix|..|prefix| + size] == rest[..size]; }
  }

  /** The same for a section, which is then what its decoder makes of it. */
  lemma SectionVerdict(size: nat, rest: seq<Byte>, decode: Decoder)
    requires size < U64_LIMIT
    ensures var used := |Encode(size)|;
            SectionIn(Encode(size) + rest, decode)
            == if size > MAX_SECTION then Garbled(used)
               else if size > |rest| then Ended(used + |rest|)
               else match decode(rest[..size])
                    case Parsed(node) => Item(node, used + size)
                    case CutShort => Ended(used + size)
                    case Unreadable => Garbled(used + size)
  {
    var prefix, bytes := Encode(size), Encode(size) + rest;
    LimitOfAll();
    DecodeEncode(size, rest, 0);
    if size <= |rest| { assert bytes[|prefix|..|prefix| + size] == rest[..size]; }
  }

  /** Where no length can be read: the data ends inside it, or it is malformed. */
  lemma NoLength(bytes: seq<Byte>, decode: Decoder)
    ensures |bytes| < MAX_LEN && Continues(bytes, |bytes|) ==>
              HeaderIn(bytes) == NoHeader(true, |bytes|) && SectionIn(bytes, decode) == Ended(|bytes|)
    ensures MAX_LEN <= |bytes| && Continues(bytes, MAX_LEN - 1) && bytes[MAX_LEN - 1] > 1 ==>
              HeaderIn(bytes) == NoHeader(false, MAX_LEN) && SectionIn(bytes, decode) == Garbled(MAX_LEN)
  {
    DecodeRefuses(bytes, 0);
  }

  lemma SectionReads(payload: seq<Byte>, rest: seq<Byte>, decode: Decoder)
    requires |payload| <= MAX_SECTION && decode(payload).Parsed?
    ensures SectionIn(Section(payload) + rest, decode) == Item(decode(payload).node, |Section(payload)|)
  {
    var prefix, bytes := Encode(|payload|), Section(payload) + rest;
    LimitOfAll();
    DecodeEncode(|payload|, payload + rest, 0);
    assert bytes == prefix + (payload + rest);
    assert bytes[|prefix|..|prefix| + |payload|] == payload;
  }

  lemma NothingReads(decode: Decoder)
    ensures BatchIn(true, [], decode) == Batch([], 0)
  {
  }

  lemma {:induction false} PlainReads(payloads: seq<seq<Byte>>, rest: seq<Byte>, decode: Decoder)
    requires Plain(payloads, decode)
    ensures BatchIn(true, Sections(payloads) + rest, decode)
            == Prepend(Nodes(payloads, decode), |Sections(payloads)|, BatchIn(true, rest, decode))
    decreases |payloads|
  {
    if payloads == [] {
      assert Sections(payloads) + rest == rest;
      var r := BatchIn(true, rest, decode);
      if r.Batch? { assert [] + r.nodes == r.nodes; }
    } else {
      var first, more := Section(payloads[0]), Sections(payloads[1..]) + rest;
      assert Sections(payloads) + rest == first + more;
      SectionReads(payloads[0], more, decode);
      assert (first + more)[|first|..] == more;
      PlainReads(payloads[1..], rest, decode);
      PrependTwice(decode(payloads[0]).node, Nodes(payloads[1..], decode), |first|, |Sections(payloads[1..])|,
                   BatchIn(true, rest, decode));
      UnfoldBatch(first + more, decode, decode(payloads[0]).node, |first|);
    }
  }

  lemma PrependTwice(node: Node, nodes: seq<Node>, m: nat, n: nat, rest: BatchResult)
    ensures Prepend([node], m, Prepend(nodes, n, rest)) == Prepend([node] + nodes, m + n, rest)
  {
    if rest.Batch? { assert [node] + (nodes + rest.nodes) == ([node] + nodes) + rest.nodes; }
  }

  lemma UnfoldBatch(bytes: seq<Byte>, decode: Decoder, node: Node, used: nat)
    requires SectionIn(bytes, decode) == Item(node, used) && used <= |bytes|
    ensures BatchIn(true, bytes, decode)
            == if node.Block? then Batch([node], used) else Prepend([node], used, BatchIn(true, bytes[used..], decode))
  {
  }

  /** A batch read at a group is exactly that group. */
  lemma GroupReads(g: Group, rest: seq<Byte>, decode: Decoder)
    requires GroupOk(g, decode)
    ensures BatchIn(true, Sections(g.Payloads()) + rest, decode)
            == Batch(Nodes(g.others, decode) + [Block(g.slot)], |Sections(g.Payloads())|)
  {
    SectionsSplit(g.others, [g.block]);
    var last := Section(g.block);
    assert Sections([g.block]) == last + Sections([g.block][1..]) == last;
    assert Sections(g.Payloads()) + rest == Sections(g.others) + (last + rest);
    PlainReads(g.others, last + rest, decode);
    SectionReads(g.block, rest, decode);
    UnfoldBatch(last + rest, decode, Block(g.slot), |last|);
  }

  lemma {:induction false} SectionsSplit(a: seq<seq<Byte>>, b: seq<seq<Byte>>)
    ensures Sections(a + b) == Sections(a) + Sections(b)
  {
    if a == [] {
      assert a + b == b;
    } else {
      assert (a + b)[1..] == a[1..] + b;
      SectionsSplit(a[1..], b);
      assert Section(a[0]) + (Sections(a[1..]) + Sections(b)) == (Section(a[0]) + Sections(a[1..])) + Sections(b);
    }
  }

  /** What of a group arrives when the stream is cut inside it: some of its nodes, never its block, and no
      error; a cut stream looks just like the end of the archive. */
  lemma {:induction false} CutReads(others: seq<seq<Byte>>, block: seq<Byte>, cut: nat, decode: Decoder)
    returns (k: nat)
    requires Plain(others, decode) && |block| <= MAX_SECTION && decode(block).Parsed?
    requires cut < |Sections(others + [block])|
    ensures k <= |others|
    ensures BatchIn(true, Sections(others + [block])[..cut], decode) == Batch(Nodes(others[..k], decode), cut)
    decreases |others|
  {
    var payloads := others + [block];
    var first, bytes := Section(payloads[0]), Sections(payloads)[..cut];
    if cut < |first| {
      assert bytes == first[..cut];
      SectionCut(payloads[0], cut, decode);
      assert Nodes(others[..0], decode) == [];
      return 0;
    }
    var more := Sections(payloads[1..]);
    assert payloads[1..] == others[1..] + [block];
    k := CutReads(others[1..], block, cut - |first|, decode);
    assert bytes == first + more[..cut - |first|];
    SectionReads(others[0], more[..cut - |first|], decode);
    assert bytes[|first|..] == more[..cut - |first|];
    UnfoldBatch(bytes, decode, decode(others[0]).node, |first|);
    k := k + 1;
    assert others[..k][1..] == others[1..][..k - 1];
  }

  lemma SectionCut(payload: seq<Byte>, cut: nat, decode: Decoder)
    requires |payload| <= MAX_SECTION && cut < |Section(payload)|
    ensures BatchIn(true, Section(payload)[..cut], decode) == Batch([], cut)
  {
    var prefix := Encode(|payload|);
    LimitOfAll();
    if cut < |prefix| {
      DecodeCut(|payload|, cut, 0);
      assert Section(payload)[..cut] == prefix[..cut];
    } else {
      DecodeEncode(|payload|, payload[..cut - |prefix|], 0);
      assert Section(payload)[..cut] == prefix + payload[..cut - |prefix|];
    }
  }

  /** A batch read at the tail is the tail: no block. */
  lemma TailReads(tail: seq<seq<Byte>>, decode: Decoder)
    requires Plain(tail, decode)
    ensures BatchIn(true, Sections(tail), decode) == Batch(Nodes(tail, decode), |Sections(tail)|)
  {
    assert Sections(tail) + [] == Sections(tail);
    PlainReads(tail, [], decode);
    NothingReads(decode);
    assert Nodes(tail, decode) + [] == Nodes(tail, decode);
  }

  lemma {:induction false} GroupsSplit(a: seq<Group>, b: seq<Group>)
    ensures GroupBytes(a + b) == GroupBytes(a) + GroupBytes(b)
  {
    if a == [] {
      assert a + b == b;
    } else {
      assert (a + b)[1..] == a[1..] + b;
      GroupsSplit(a[1..], b);
      var first := Sections(a[0].Payloads());
      assert first + (GroupBytes(a[1..]) + GroupBytes(b)) == (first + GroupBytes(a[1..])) + GroupBytes(b);
    }
  }

  /** The bytes from group `i` on. */
  lemma RestAt(car: Car, i: nat)
    requires i <= |car.groups|
    ensures Rest(Bytes(car), Offset(car, i)) == GroupBytes(car.groups[i..]) + Sections(car.tail)
  {
    GroupsSplit(car.groups[..i], car.groups[i..]);
    assert car.groups == car.groups[..i] + car.groups[i..];
    Regroup(Section(car.header), GroupBytes(car.groups[..i]), GroupBytes(car.groups[i..]), Sections(car.tail));
  }

  lemma Regroup(a: seq<Byte>, b: seq<Byte>, c: seq<Byte>, d: seq<Byte>)
    ensures Rest(a + ((b + c) + d), |a| + |b|) == c + d
  {
    assert a + ((b + c) + d) == (a + b) + (c + d);
  }

  lemma OffsetStep(car: Car, i: nat)
    requires i < |car.groups|
    ensures Offset(car, i + 1) == Offset(car, i) + |Sections(car.groups[i].Payloads())|
  {
    GroupsSplit(car.groups[..i], [car.groups[i]]);
    assert car.groups[..i + 1] == car.groups[..i] + [car.groups[i]];
    assert GroupBytes([car.groups[i]]) == Sections(car.groups[i].Payloads()) + GroupBytes([car.groups[i]][1..]);
  }

  /** The `k`-th batch read from `bytes` on. */
  function Batches(bytes: seq<Byte>, decode: Decoder, n: nat): seq<BatchResult>
    decreases n
  {
    if n == 0 then []
    else
      var r := BatchIn(true, bytes, decode);
      [r] + Batches(bytes[r.used..], decode, n - 1)
  }

  /** What reading on from group `g` should give: each group, then the tail, then nothing. */
  function Expected(car: Car, decode: Decoder, g: nat, n: nat): seq<BatchResult>
    requires g <= |car.groups|
    decreases n
  {
    if n == 0 then []
    else if g < |car.groups| then
      var group := car.groups[g];
      [Batch(Nodes(group.others, decode) + [Block(group.slot)], |Sections(group.Payloads())|)]
      + Expected(car, decode, g + 1, n - 1)
    else [Batch(Nodes(car.tail, decode), |Sections(car.tail)|)] + Nothing(n - 1)
  }

  function Nothing(n: nat): seq<BatchResult> { if n == 0 then [] else [Batch([], 0)] + Nothing(n - 1) }

  lemma {:induction false} NothingLeft(decode: Decoder, n: nat)
    ensures Batches([], decode, n) == Nothing(n)
  {
    if n > 0 {
      NothingReads(decode);
      NothingLeft(decode, n - 1);
      var none: seq<Byte> := [];
      assert none[0..] == none;
    }
  }

  /** Reading on from a group's offset yields the remaining groups in order, then the tail, then nothing. */
  lemma {:induction false} ReadOn(car: Car, epoch: nat, decode: Decoder, g: nat, n: nat)
    requires CarOk(car, epoch, decode) && g <= |car.groups|
    ensures Batches(GroupBytes(car.groups[g..]) + Sections(car.tail), decode, n) == Expected(car, decode, g, n)
    decreases n
  {
    if n > 0 {
      var bytes := GroupBytes(car.groups[g..]) + Sections(car.tail);
      if g < |car.groups| {
        var first := Sections(car.groups[g].Payloads());
        var rest := GroupBytes(car.groups[g + 1..]) + Sections(car.tail);
        assert car.groups[g..][0] == car.groups[g] && car.groups[g..][1..] == car.groups[g + 1..];
        assert bytes == first + rest;
        GroupReads(car.groups[g], rest, decode);
        assert bytes[|first|..] == rest;
        ReadOn(car, epoch, decode, g + 1, n - 1);
      } else {
        assert bytes == Sections(car.tail);
        TailReads(car.tail, decode);
        assert bytes[|bytes|..] == [];
        NothingLeft(decode, n - 1);
      }
    }
  }

  /** The index describes the archive: every slot of the epoch is found where its group lies, or absent. */
  ghost predicate Describes(lookup: nat -> Lookup, car: Car, epoch: nat) {
    forall slot: nat | Epoch(slot) == epoch :: DescribesSlot(lookup, car, slot)
  }

  ghost predicate DescribesSlot(lookup: nat -> Lookup, car: Car, slot: nat) {
    && (forall i | 0 <= i < |car.groups| && car.groups[i].slot == slot ::
          lookup(slot) == Found(Offset(car, i), |Sections(car.groups[i].Payloads())|))
    && ((forall i | 0 <= i < |car.groups| :: car.groups[i].slot != slot) ==> lookup(slot) == NotFound)
  }

  /** The first group at or after `slot`. */
  function FirstFrom(groups: seq<Group>, slot: nat): (g: nat)
    ensures g <= |groups|
    ensures forall i | 0 <= i < g :: groups[i].slot < slot
    ensures g < |groups| ==> slot <= groups[g].slot
  {
    if groups == [] || slot <= groups[0].slot then 0 else 1 + FirstFrom(groups[1..], slot)
  }

  /** A seek goes to the first group at or after the slot, or to the tail; it is refused only when the
      archive holds no block at all. */
  lemma SeekFindsGroup(lookup: nat -> Lookup, car: Car, slot: nat, decode: Decoder)
    requires CarOk(car, Epoch(slot), decode) && Describes(lookup, car, Epoch(slot))
    ensures SeekAnswer(lookup, slot)
            == if car.groups == [] then EmptyEpoch(Epoch(slot)) else At(Offset(car, FirstFrom(car.groups, slot)))
  {
    var g := FirstFrom(car.groups, slot);
    if g < |car.groups| {
      SeekFindsNext(lookup, car, slot, g, decode);
    } else {
      SeekFindsTail(lookup, car, slot, decode);
    }
  }

  lemma NothingBetween(lookup: nat -> Lookup, car: Car, slot: nat, found: nat)
    requires Describes(lookup, car, Epoch(slot)) && found <= EpochEnd(Epoch(slot))
    requires forall j | 0 <= j < |car.groups| :: car.groups[j].slot < slot || found <= car.groups[j].slot
    ensures forall k: nat | slot <= k < found :: lookup(k).NotFound?
  {
    EpochBounds(slot);
    forall k: nat | slot <= k < found ensures lookup(k).NotFound? {
      AbsentIsNotFound(lookup, car, slot, k);
    }
  }

  lemma SeekFindsNext(lookup: nat -> Lookup, car: Car, slot: nat, g: nat, decode: Decoder)
    requires CarOk(car, Epoch(slot), decode) && Describes(lookup, car, Epoch(slot))
    requires g == FirstFrom(car.groups, slot) < |car.groups|
    ensures SeekAnswer(lookup, slot) == At(Offset(car, g))
  {
    var found := car.groups[g].slot;
    GroupIsFound(lookup, car, slot, g, decode);
    InEpoch(Epoch(slot), found);
    forall j | 0 <= j < |car.groups| ensures car.groups[j].slot < slot || found <= car.groups[j].slot {
      assert j < g || j == g || found < car.groups[j].slot;
    }
    NothingBetween(lookup, car, slot, found);
    NextKnownIs(lookup, slot, EpochEnd(Epoch(slot)), found);
  }

  /** A slot no group belongs to is absent. */
  lemma AbsentIsNotFound(lookup: nat -> Lookup, car: Car, slot: nat, k: nat)
    requires Describes(lookup, car, Epoch(slot)) && EpochStart(Epoch(slot)) <= k <= EpochEnd(Epoch(slot))
    requires forall i | 0 <= i < |car.groups| :: car.groups[i].slot != k
    ensures lookup(k).NotFound?
  {
    InEpoch(Epoch(slot), k);
    assert DescribesSlot(lookup, car, k);
  }

  /** No group lies at or after the slot: the upward search finds nothing. */
  lemma NothingAbove(lookup: nat -> Lookup, car: Car, slot: nat, last: nat)
    requires Describes(lookup, car, Epoch(slot)) && last == EpochEnd(Epoch(slot))
    requires forall i | 0 <= i < |car.groups| :: car.groups[i].slot < slot
    ensures NextKnown(lookup, slot, last).None?
  {
    EpochBounds(slot);
    forall k: nat | slot <= k <= last ensures lookup(k).NotFound? {
      AbsentIsNotFound(lookup, car, slot, k);
    }
  }

  /** In an empty archive the downward search finds nothing either. */
  lemma NothingBelow(lookup: nat -> Lookup, car: Car, slot: nat, first: nat)
    requires Describes(lookup, car, Epoch(slot)) && first == EpochStart(Epoch(slot)) && car.groups == []
    ensures PrevKnown(lookup, first, slot).None?
  {
    EpochBounds(slot);
    forall k: nat | first <= k < slot ensures lookup(k).NotFound? {
      AbsentIsNotFound(lookup, car, slot, k);
    }
  }

  lemma SeekFindsTail(lookup: nat -> Lookup, car: Car, slot: nat, decode: Decoder)
    requires CarOk(car, Epoch(slot), decode) && Describes(lookup, car, Epoch(slot))
    requires FirstFrom(car.groups, slot) == |car.groups|
    ensures SeekAnswer(lookup, slot)
            == if car.groups == [] then EmptyEpoch(Epoch(slot)) else At(Offset(car, |car.groups|))
  {
    NothingAbove(lookup, car, slot, EpochEnd(Epoch(slot)));
    if car.groups == [] {
      NothingBelow(lookup, car, slot, EpochStart(Epoch(slot)));
    } else {
      LastIsKnown(lookup, car, slot, decode);
      OffsetStep(car, |car.groups| - 1);
    }
  }

  /** Below a slot past every group, the last group is the first thing found. */
  lemma LastIsKnown(lookup: nat -> Lookup, car: Car, slot: nat, decode: Decoder)
    requires CarOk(car, Epoch(slot), decode) && Describes(lookup, car, Epoch(slot)) && car.groups != []
    requires FirstFrom(car.groups, slot) == |car.groups|
    ensures var i := |car.groups| - 1; var top := car.groups[i].slot;
            && PrevKnown(lookup, EpochStart(Epoch(slot)), slot) == Some(top)
            && lookup(top) == Found(Offset(car, i), |Sections(car.groups[i].Payloads())|)
  {
    var i := |car.groups| - 1;
    var top := car.groups[i].slot;
    GroupIsFound(lookup, car, slot, i, decode);
    EpochBounds(slot);
    InEpoch(Epoch(slot), top);
    forall k: nat | top < k < slot ensures lookup(k).NotFound? {
      forall j | 0 <= j < |car.groups| ensures car.groups[j].slot != k {
        assert j == i || car.groups[j].slot < top;
      }
      AbsentIsNotFound(lookup, car, slot, k);
    }
    PrevKnownIs(lookup, EpochStart(Epoch(slot)), slot, top);
  }

  lemma GroupIsFound(lookup: nat -> Lookup, car: Car, slot: nat, i: nat, decode: Decoder)
    requires CarOk(car, Epoch(slot), decode) && Describes(lookup, car, Epoch(slot)) && i < |car.groups|
    ensures lookup(car.groups[i].slot) == Found(Offset(car, i), |Sections(car.groups[i].Payloads())|)
  {
    assert DescribesSlot(lookup, car, car.groups[i].slot);
  }

  lemma NextKnownIs(lookup: nat -> Lookup, from: nat, upTo: nat, k: nat)
    requires from <= k <= upTo && !lookup(k).NotFound?
    requires forall j: nat | from <= j < k :: lookup(j).NotFound?
    ensures NextKnown(lookup, from, upTo) == Some(k)
  {
  }

  lemma PrevKnownIs(lookup: nat -> Lookup, floor: nat, before: nat, k: nat)
    requires floor <= k < before && !lookup(k).NotFound?
    requires forall j: nat | k < j < before :: lookup(j).NotFound?
    ensures PrevKnown(lookup, floor, before) == Some(k)
  {
  }

  /** After a seek to `slot`, reading batch by batch yields exactly the groups of the present slots at or
      after it, in order, then the non-block tail, then nothing. */
  lemma SeekThenRead(lookup: nat -> Lookup, car: Car, slot: nat, decode: Decoder, n: nat)
    requires CarOk(car, Epoch(slot), decode) && Describes(lookup, car, Epoch(slot)) && car.groups != []
    ensures SeekAnswer(lookup, slot).At?
    ensures Batches(Rest(Bytes(car), SeekAnswer(lookup, slot).offset), decode, n)
            == Expected(car, decode, FirstFrom(car.groups, slot), n)
  {
    SeekFindsGroup(lookup, car, slot, decode);
    RestAt(car, FirstFrom(car.groups, slot));
    ReadOn(car, Epoch(slot), decode, FirstFrom(car.groups, slot), n);
  }

  // ---------------------------------------------------------------------------------------------
  // What a seek and a batch report.

  /** Where a seek goes, said of the index alone: the first slot from `slot` to the end of its epoch of which the index
      does not say that it is absent decides; failing that, the last such slot below it in the epoch; failing that,
      the epoch is empty. */
  lemma SeekAnswerIs(lookup: nat -> Lookup, slot: nat, k: nat)
    requires Epoch(k) == Epoch(slot) && !lookup(k).NotFound?
    ensures slot <= k && (forall j: nat | slot <= j < k :: lookup(j).NotFound?) ==>
              SeekAnswer(lookup, slot) == if lookup(k).Found? then At(lookup(k).offset) else IndexFailure
    ensures k < slot && (forall j: nat | k < j && Epoch(j) == Epoch(slot) :: lookup(j).NotFound?) ==>
              SeekAnswer(lookup, slot)
              == if lookup(k).Found? then At(lookup(k).offset + lookup(k).length) else IndexFailure
  {
    var e := Epoch(slot);
    InEpoch(e, k);
    InEpoch(e, slot);
    if k < slot && forall j: nat | k < j && Epoch(j) == e :: lookup(j).NotFound? {
      forall j: nat | k < j <= EpochEnd(e) ensures lookup(j).NotFound? { InEpoch(e, j); }
    }
  }

  lemma SeekFindsNothing(lookup: nat -> Lookup, slot: nat)
    ensures SeekAnswer(lookup, slot) == EmptyEpoch(Epoch(slot)) <==>
              forall j: nat | Epoch(j) == Epoch(slot) :: lookup(j).NotFound?
  {
    var e := Epoch(slot);
    InEpoch(e, slot);
    forall j: nat ensures Epoch(j) == e <==> EpochStart(e) <= j <= EpochEnd(e) { InEpoch(e, j); }
  }

  /** A section that cannot be read makes the batch unusable, wherever it stands before the block. */
  lemma {:induction false} GarbledBatch(payloads: seq<seq<Byte>>, rest: seq<Byte>, decode: Decoder)
    requires Plain(payloads, decode) && SectionIn(rest, decode).Garbled?
    ensures BatchIn(true, Sections(payloads) + rest, decode)
         == Unusable(|Sections(payloads)| + SectionIn(rest, decode).used)
    decreases |payloads|
  {
    if payloads == [] {
      assert Sections(payloads) + rest == rest;
    } else {
      var first, more := Section(payloads[0]), Sections(payloads[1..]) + rest;
      assert Sections(payloads) + rest == first + more;
      SectionReads(payloads[0], more, decode);
      assert (first + more)[|first|..] == more;
      GarbledBatch(payloads[1..], rest, decode);
    }
  }
}
