/** An epoch archive together with the slots table written for it, and what goes wrong in malformed streams. */
module ArchiveIndex {
  import opened Slots
  import opened Octets
  import opened Varint
  import opened CarReader
  import opened CarArchive
  import SlotIndex

  /** The layout of an archive's groups, as the table records it. */
  function ArchiveOf(car: Car, epoch: nat): SlotIndex.Archive {
    var n := |car.groups|;
    SlotIndex.Archive(
      EpochStart(epoch), EpochEnd(epoch), |Section(car.header)|,
      seq(n, i requires 0 <= i < n => car.groups[i].slot),
      seq(n, i requires 0 <= i < n => Offset(car, i) + |Sections(car.groups[i].others)|),
      seq(n, i requires 0 <= i < n => Offset(car, i + 1)))
  }

  lemma StartIsOffset(car: Car, epoch: nat, i: nat)
    requires i <= |car.groups|
    ensures ArchiveOf(car, epoch).Start(i) == Offset(car, i)
  {
    assert car.groups[..0] == [];
  }

  lemma ArchiveIsValid(car: Car, epoch: nat, decode: Decoder)
    requires CarOk(car, epoch, decode)
    ensures ArchiveOf(car, epoch).Valid()
  {
    var a := ArchiveOf(car, epoch);
    forall i | 0 <= i < |a.slots| ensures a.GroupOk(i) && a.first <= a.slots[i] <= a.last {
      StartIsOffset(car, epoch, i);
      OffsetStep(car, i);
      SectionsSplit(car.groups[i].others, [car.groups[i].block]);
      assert Sections([car.groups[i].block]) == Section(car.groups[i].block) + Sections([]);
      InEpoch(epoch, car.groups[i].slot);
    }
    assert forall i, j | 0 <= i < j < |a.slots| :: a.slots[i] < a.slots[j];
  }

  /** Lookups in the slots table of the archive. */
  ghost function TableIndex(car: Car, epoch: nat): nat -> SlotIndex.Lookup {
    SlotIndex.TableIndex(ArchiveOf(car, epoch))
  }

  lemma GroupIsRecorded(car: Car, epoch: nat, i: nat)
    requires i < |car.groups|
    ensures ArchiveOf(car, epoch).Group(i) == SlotIndex.Found(Offset(car, i), |Sections(car.groups[i].Payloads())|)
  {
    StartIsOffset(car, epoch, i);
    OffsetStep(car, i);
  }

  lemma PresentIsRecorded(car: Car, epoch: nat, i: nat)
    requires ArchiveOf(car, epoch).Valid() && ArchiveOf(car, epoch).Encodable() && i < |car.groups|
    ensures TableIndex(car, epoch)(car.groups[i].slot)
            == SlotIndex.Found(Offset(car, i), |Sections(car.groups[i].Payloads())|)
  {
    var a := ArchiveOf(car, epoch);
    assert a.slots[i] == car.groups[i].slot;
    SlotIndex.TableFinds(a, i);
    GroupIsRecorded(car, epoch, i);
  }

  lemma AbsentIsBlank(car: Car, epoch: nat, slot: nat)
    requires ArchiveOf(car, epoch).Valid() && ArchiveOf(car, epoch).Encodable() && Epoch(slot) == epoch
    requires forall i | 0 <= i < |car.groups| :: car.groups[i].slot != slot
    ensures TableIndex(car, epoch)(slot) == SlotIndex.NotFound
  {
    var a := ArchiveOf(car, epoch);
    InEpoch(epoch, slot);
    assert slot !in a.slots;
    SlotIndex.TableMisses(a, slot);
  }

  /** The table describes the archive. */
  lemma TableDescribes(car: Car, epoch: nat, decode: Decoder)
    requires CarOk(car, epoch, decode) && ArchiveOf(car, epoch).Encodable()
    ensures Describes(TableIndex(car, epoch), car, epoch)
  {
    ArchiveIsValid(car, epoch, decode);
    forall slot: nat | Epoch(slot) == epoch ensures DescribesSlot(TableIndex(car, epoch), car, slot) {
      if i :| 0 <= i < |car.groups| && car.groups[i].slot == slot {
        PresentIsRecorded(car, epoch, i);
        assert forall j | 0 <= j < |car.groups| && car.groups[j].slot == slot :: j == i;
      } else {
        AbsentIsBlank(car, epoch, slot);
      }
    }
  }

  /** Seeking by the bytes of the table and reading on yields exactly the groups from the slot on, then the
      tail, then nothing. */
  lemma SeekByTableThenRead(car: Car, slot: nat, decode: Decoder, n: nat)
    requires CarOk(car, Epoch(slot), decode) && car.groups != [] && ArchiveOf(car, Epoch(slot)).Encodable()
    ensures var target := SeekAnswer(TableIndex(car, Epoch(slot)), slot);
            && target.At?
            && Batches(Rest(Bytes(car), target.offset), decode, n)
               == Expected(car, decode, FirstFrom(car.groups, slot), n)
  {
    TableDescribes(car, Epoch(slot), decode);
    SeekThenRead(TableIndex(car, Epoch(slot)), car, slot, decode, n);
  }

  lemma BatchesUnfold(file: seq<Byte>, position: nat, decode: Decoder, n: nat, b: BatchResult)
    requires n > 0 && b == BatchIn(true, Rest(file, position), decode)
    ensures Batches(Rest(file, position), decode, n) == [b] + Batches(Rest(file, position + b.used), decode, n - 1)
  {
    RestMoves(file, position, b.used, 0);
  }

  /** One batch, the first of the `n` left. */
  method ReadBatch(reader: NodeReader, ghost n: nat, ghost left: seq<BatchResult>)
    returns (b: BatchResult, ghost rest: seq<BatchResult>)
    requires reader.header != [] && n > 0 && left == Batches(reader.Remaining(), reader.decode, n)
    modifies reader`position, reader`header, reader`itemIndex
    ensures reader.header == old(reader.header)
    ensures left == [b] + rest && rest == Batches(reader.Remaining(), reader.decode, n - 1)
  {
    b := reader.ReadUntilBlock();
    BatchesUnfold(reader.file, old(reader.position), reader.decode, n, b);
    rest := Batches(reader.Remaining(), reader.decode, n - 1);
  }

  /** The batches a reader with a cached header reads on from where it stands. */
  method ReadBatches(reader: NodeReader, n: nat) returns (batches: seq<BatchResult>)
    requires reader.header != []
    modifies reader`position, reader`header, reader`itemIndex
    ensures batches == Batches(old(reader.Remaining()), reader.decode, n) && reader.header == old(reader.header)
  {
    batches := [];
    ghost var rest := Batches(reader.Remaining(), reader.decode, n);
    for i := 0 to n
      invariant reader.header == old(reader.header) && rest == Batches(reader.Remaining(), reader.decode, n - i)
      invariant batches + rest == Batches(old(reader.Remaining()), reader.decode, n)
    {
      var b;
      b, rest := ReadBatch(reader, n - i, rest);
      batches := batches + [b];
    }
  }

  lemma HeaderOf(car: Car)
    requires |car.header| <= MAX_HEADER
    ensures HeaderIn(Rest(Bytes(car), 0)) == Header(car.header, |Section(car.header)|)
  {
    SectionAsHeader(car.header, GroupBytes(car.groups) + Sections(car.tail));
    assert Rest(Bytes(car), 0) == Bytes(car);
  }

  /** A fresh reader of an archive: it seeks to a slot and reads `n` batches from there. */
  method SeekAndRead(ghost car: Car, file: seq<Byte>, decode: Decoder, lookup: nat -> SlotIndex.Lookup, slot: nat,
                     streamOk: bool, n: nat)
    returns (r: SeekResult, batches: seq<BatchResult>)
    requires file == Bytes(car) && CarOk(car, Epoch(slot), decode) && Describes(lookup, car, Epoch(slot))
    ensures car.groups == [] ==> r == SeekFailure(EmptyEpoch(Epoch(slot))) && batches == []
    ensures car.groups != [] && !streamOk ==> r == StreamFailure && batches == []
    ensures car.groups != [] && streamOk ==>
              r == Sought && batches == Expected(car, decode, FirstFrom(car.groups, slot), n)
  {
    var reader := new NodeReader(file, decode);
    HeaderOf(car);
    SeekFindsGroup(lookup, car, slot, decode);
    r := reader.SeekToSlot(lookup, slot, streamOk);
    if !r.Sought? { return r, []; }
    SeekThenRead(lookup, car, slot, decode, n);
    batches := ReadBatches(reader, n);
  }

  // ---------------------------------------------------------------------------------------------
  // Malformed streams.

  /** The bytes begin with a whole section whose own fields overrun it. */
  ghost predicate OverrunsAt(bytes: seq<Byte>, decode: Decoder) {
    match Decode(bytes, 0)
    case Value(size, used) =>
      size <= MAX_SECTION && used + size <= |bytes| && decode(bytes[used..used + size]).CutShort?
    case _ => false
  }

  /** After some nodes that are no blocks comes a section that overruns itself, with more data behind it. */
  ghost predicate MeetsOverrun(bytes: seq<Byte>, decode: Decoder)
    decreases |bytes|
  {
    var r := SectionIn(bytes, decode);
    match r
    case Item(node, used) => !node.Block? && MeetsOverrun(bytes[used..], decode)
    case Ended(used) => OverrunsAt(bytes, decode) && used < |bytes|
    case Garbled(_) => false
  }

  /** A batch that ends without an error and without a block has reached the end of the data exactly when
      it met no section that overruns itself with data behind it. */
  lemma {:induction false} EarlyEndIff(bytes: seq<Byte>, decode: Decoder)
    requires BatchIn(true, bytes, decode).Batch?
    requires forall i | 0 <= i < |BatchIn(true, bytes, decode).nodes| :: !BatchIn(true, bytes, decode).nodes[i].Block?
    ensures BatchIn(true, bytes, decode).used == |bytes| <==> !MeetsOverrun(bytes, decode)
    decreases |bytes|
  {
    var r := SectionIn(bytes, decode);
    if r.Item? {
      UnfoldBatch(bytes, decode, r.node, r.used);
      var rest := BatchIn(true, bytes[r.used..], decode);
      PlainTail(r.node, r.used, rest, BatchIn(true, bytes, decode));
      EarlyEndIff(bytes[r.used..], decode);
    }
  }

  /** A batch without a block that begins with a node goes on without a block. */
  lemma PlainTail(node: Node, used: nat, rest: BatchResult, whole: BatchResult)
    requires whole == if node.Block? then Batch([node], used) else Prepend([node], used, rest)
    requires whole.Batch? && forall i | 0 <= i < |whole.nodes| :: !whole.nodes[i].Block?
    ensures !node.Block? && rest.Batch? && forall i | 0 <= i < |rest.nodes| :: !rest.nodes[i].Block?
  {
    assert whole.nodes[0] == node;
    forall i | 0 <= i < |rest.nodes| ensures !rest.nodes[i].Block? {
      assert rest.nodes[i] == whole.nodes[i + 1];
    }
  }

  /** A section that overruns itself ends the batch there, as if the data had ended, whatever follows. */
  lemma OverrunEndsBatch(payload: seq<Byte>, rest: seq<Byte>, decode: Decoder)
    requires |payload| <= MAX_SECTION && decode(payload).CutShort?
    ensures BatchIn(true, Section(payload) + rest, decode) == Batch([], |Section(payload)|)
    ensures rest != [] ==> MeetsOverrun(Section(payload) + rest, decode)
  {
    var prefix, bytes := Encode(|payload|), Section(payload) + rest;
    LimitOfAll();
    DecodeEncode(|payload|, payload + rest, 0);
    assert bytes == prefix + (payload + rest);
    assert bytes[|prefix|..|prefix| + |payload|] == payload;
  }

  lemma SectionAsHeader(payload: seq<Byte>, rest: seq<Byte>)
    requires |payload| <= MAX_HEADER
    ensures HeaderIn(Section(payload) + rest) == Header(payload, |Section(payload)|)
  {
    var prefix, bytes := Encode(|payload|), Section(payload) + rest;
    LimitOfAll();
    DecodeEncode(|payload|, payload + rest, 0);
    assert bytes == prefix + (payload + rest);
    assert bytes[|prefix|..|prefix| + |payload|] == payload;
  }

  /** Without a cached header a read takes the first section for one and yields the second. */
  lemma HeaderThenSection(header: seq<Byte>, payload: seq<Byte>, rest: seq<Byte>, decode: Decoder)
    requires |header| <= MAX_HEADER && |payload| <= MAX_SECTION && decode(payload).Parsed?
    ensures var bytes := Section(header) + (Section(payload) + rest);
            && NextIn(false, bytes, decode) == Item(decode(payload).node, |Section(header)| + |Section(payload)|)
            && (Caches(false, bytes) <==> header != [])
  {
    var bytes := Section(header) + (Section(payload) + rest);
    SectionAsHeader(header, Section(payload) + rest);
    assert bytes[|Section(header)|..] == Section(payload) + rest;
    SectionReads(payload, rest, decode);
  }

  /** A header of length zero is never cached: after the first section the next one is swallowed as a header,
      and the read yields the one behind it. */
  lemma EmptyHeaderSwallows(p1: seq<Byte>, p2: seq<Byte>, p3: seq<Byte>, rest: seq<Byte>, decode: Decoder)
    requires |p1| <= MAX_SECTION && |p2| <= MAX_HEADER && |p3| <= MAX_SECTION
    requires decode(p1).Parsed? && decode(p3).Parsed?
    ensures var later := Section(p2) + (Section(p3) + rest);
            var bytes := Section([]) + (Section(p1) + later);
            var used := |Section([])| + |Section(p1)|;
            && NextIn(false, bytes, decode) == Item(decode(p1).node, used) && !Caches(false, bytes)
            && bytes[used..] == later
            && NextIn(false, later, decode) == Item(decode(p3).node, |Section(p2)| + |Section(p3)|)
  {
    var later := Section(p2) + (Section(p3) + rest);
    HeaderThenSection([], p1, later, decode);
    HeaderThenSection(p2, p3, rest, decode);
    assert Section([]) + (Section(p1) + later) == (Section([]) + Section(p1)) + later;
  }
}
