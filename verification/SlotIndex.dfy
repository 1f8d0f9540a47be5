/** Where a slot's data lies in its epoch archive: the flat slot-ranges table, the legacy derivation from
    the compact indexes, and the scans for the next and the previous present slot. */
module SlotIndex {
  import opened Slots
  import opened Octets

  /** An epoch archive of slots `first..=last`: after a header of `dataStart` bytes the data of the present
      slots follows without gaps. Group `i` belongs to `slots[i]`, ends at `ends[i]`, and its last section,
      the Block, begins at `blocks[i]`. */
  datatype Archive = Archive(first: nat, last: nat, dataStart: nat, slots: seq<nat>, blocks: seq<nat>, ends: seq<nat>) {
    function Start(i: nat): nat
      requires i <= |ends|
    {
      if i == 0 then dataStart else ends[i - 1]
    }

    /** Where group `i` lies. */
    function Group(i: nat): Lookup
      requires i < |ends|
    {
      Found(Start(i), SatSub(ends[i], Start(i)))
    }

    ghost predicate GroupOk(i: nat)
      requires i < |ends| && i < |blocks|
    {
      Start(i) <= blocks[i] < ends[i]
    }

    ghost predicate Valid() {
      && first <= last && |slots| == |blocks| == |ends|
      && (forall i | 0 <= i < |slots| :: first <= slots[i] <= last)
      && (forall i, j | 0 <= i < j < |slots| :: slots[i] < slots[j])
      && (forall i | 0 <= i < |slots| :: GroupOk(i))
    }

    /** Offsets fit eight bytes and lengths fit four, as the table's records need. */
    ghost predicate Encodable() { forall i | 0 <= i < |ends| :: Fits(i) }

    ghost predicate Fits(i: nat)
      requires i < |ends|
    {
      Start(i) < U64_LIMIT && ends[i] - Start(i) <= U32_MAX
    }
  }

  /** The answer of a range lookup. */
  datatype Lookup = Found(offset: nat, length: nat) | NotFound | Malformed

  const RECORD_SIZE: nat := 12

  /** A slot-ranges file is accepted when it has one record per slot of the epoch. */
  predicate Accepted(file: seq<Byte>, first: nat, last: nat)
    requires first <= last
  {
    |file| == (last - first + 1) * RECORD_SIZE
  }

  function DecodeRecord(record: seq<Byte>): Lookup
    requires |record| == RECORD_SIZE
  {
    var length := LittleEndian(record[8..12]);
    if length == 0 then NotFound else Found(LittleEndian(record[..8]), length)
  }

  /** `SlotRangesIndex::lookup_range`. */
  function TableLookup(file: seq<Byte>, first: nat, last: nat, slot: nat): Lookup
    requires first <= last && Accepted(file, first, last)
  {
    if !(first <= slot <= last) then Malformed
    else DecodeRecord(Slice(file, slot - first))
  }

  function IndexOf(slots: seq<nat>, slot: nat): (r: Option<nat>)
    ensures r.Some? ==> r.value < |slots| && slots[r.value] == slot
    ensures r.None? ==> slot !in slots
  {
    if slots == [] then None
    else if slots[0] == slot then Some(0)
    else match IndexOf(slots[1..], slot)
      case Some(i) => Some(i + 1)
      case None => None
  }

  function Record(a: Archive, slot: nat): (r: seq<Byte>)
    requires |a.slots| == |a.ends|
    ensures |r| == RECORD_SIZE
  {
    match IndexOf(a.slots, slot)
    case None => ToLittleEndian(0, RECORD_SIZE)
    case Some(i) => ToLittleEndian(a.Start(i), 8) + ToLittleEndian(SatSub(a.ends[i], a.Start(i)), 4)
  }

  /** The table of slots `lo..hi`. */
  function Table(a: Archive, lo: nat, hi: nat): (file: seq<Byte>)
    requires |a.slots| == |a.ends| && lo <= hi
    ensures |file| == (hi - lo) * RECORD_SIZE
    decreases hi - lo
  {
    if lo == hi then [] else Record(a, lo) + Table(a, lo + 1, hi)
  }

  /** The `i`-th record of a table. */
  function Slice(file: seq<Byte>, i: nat): seq<Byte>
    requires (i + 1) * RECORD_SIZE <= |file|
  {
    file[i * RECORD_SIZE..i * RECORD_SIZE + RECORD_SIZE]
  }

  lemma SliceShifts(record: seq<Byte>, rest: seq<Byte>, i: nat)
    requires |record| == RECORD_SIZE && (i + 1) * RECORD_SIZE <= |rest|
    ensures Slice(record + rest, 0) == record && Slice(record + rest, i + 1) == Slice(rest, i)
  {
  }

  lemma {:induction false} TableRecord(a: Archive, lo: nat, hi: nat, slot: nat)
    requires |a.slots| == |a.ends| && lo <= slot < hi
    ensures Slice(Table(a, lo, hi), slot - lo) == Record(a, slot)
    decreases hi - lo
  {
    var rest := Table(a, lo + 1, hi);
    if lo < slot {
      TableRecord(a, lo + 1, hi, slot);
      SliceShifts(Record(a, lo), rest, slot - lo - 1);
    } else {
      assert Table(a, lo, hi) == Record(a, lo) + rest;
    }
  }

  lemma Halves(r: seq<Byte>, x: seq<Byte>, y: seq<Byte>)
    requires r == x + y && |x| == 8 && |y| == 4
    ensures r[..8] == x && r[8..12] == y
  {
  }

  lemma RecordDecodes(a: Archive, slot: nat, i: nat)
    requires |a.slots| == |a.ends| && IndexOf(a.slots, slot) == Some(i) && a.Fits(i) && a.Start(i) < a.ends[i]
    ensures DecodeRecord(Record(a, slot)) == a.Group(i)
  {
    var offset, length := a.Start(i), a.ends[i] - a.Start(i);
    Widths();
    LittleEndianRoundTrip(offset, 8);
    LittleEndianRoundTrip(length, 4);
    Halves(Record(a, slot), ToLittleEndian(offset, 8), ToLittleEndian(length, 4));
  }

  /** A lookup inside the epoch decodes the slot's record. */
  lemma LookupDecodes(file: seq<Byte>, first: nat, last: nat, slot: nat, record: seq<Byte>)
    requires first <= slot <= last && Accepted(file, first, last) && record == Slice(file, slot - first)
    ensures |record| == RECORD_SIZE && TableLookup(file, first, last, slot) == DecodeRecord(record)
  {
  }

  /** The record of a slot decodes to its group, or to nothing. */
  lemma RecordIs(a: Archive, slot: nat)
    requires a.Valid() && a.Encodable()
    ensures forall i: nat | i < |a.slots| && a.slots[i] == slot :: DecodeRecord(Record(a, slot)) == a.Group(i)
    ensures slot !in a.slots ==> DecodeRecord(Record(a, slot)) == NotFound
  {
    match IndexOf(a.slots, slot)
    case Some(i) =>
      assert a.GroupOk(i) && a.Fits(i);
      RecordDecodes(a, slot, i);
    case None =>
      ZeroTail();
  }

  /** The table gives back exactly the archive's groups: present slots with their byte range, absent slots
      as not found, slots outside the epoch as an error. */
  lemma TableRoundTrip(a: Archive, slot: nat)
    requires a.Valid() && a.Encodable()
    ensures var r := TableLookup(Table(a, a.first, a.last + 1), a.first, a.last, slot);
            && (r.Malformed? <==> !(a.first <= slot <= a.last))
            && (forall i: nat | i < |a.slots| && a.slots[i] == slot :: r == a.Group(i))
            && (a.first <= slot <= a.last && slot !in a.slots ==> r == NotFound)
  {
    if a.first <= slot <= a.last {
      TableRecord(a, a.first, a.last + 1, slot);
      LookupDecodes(Table(a, a.first, a.last + 1), a.first, a.last, slot, Record(a, slot));
      RecordIs(a, slot);
    }
  }

  /** Lookups in the archive's own table. */
  ghost function TableIndex(a: Archive): nat -> Lookup
    requires |a.slots| == |a.ends| && a.first <= a.last
  {
    var file := Table(a, a.first, a.last + 1);
    (slot: nat) => TableLookup(file, a.first, a.last, slot)
  }

  lemma TableFinds(a: Archive, i: nat)
    requires a.Valid() && a.Encodable() && i < |a.slots|
    ensures TableIndex(a)(a.slots[i]) == a.Group(i)
  {
    TableRoundTrip(a, a.slots[i]);
  }

  lemma TableMisses(a: Archive, slot: nat)
    requires a.Valid() && a.Encodable() && a.first <= slot <= a.last && slot !in a.slots
    ensures TableIndex(a)(slot) == NotFound
  {
    TableRoundTrip(a, slot);
  }

  lemma ZeroTail()
    ensures LittleEndian(ToLittleEndian(0, RECORD_SIZE)[8..12]) == 0
  {
    var z := ToLittleEndian(0, RECORD_SIZE);
    Zeros(RECORD_SIZE);
    assert z[8..12] == ToLittleEndian(0, 4) by { Zeros(4); }
    LittleEndianRoundTrip(0, 4);
  }

  /** What the compact indexes say about a slot: the section of its Block, nothing, or an error. A slot
      that is absent may still be answered with someone else's section, since the hashes are truncated. */
  datatype Section = Section(offset: nat, size: nat) | Missing | Broken {
    function End(): nat
      requires Section?
    {
      offset + size
    }
  }

  /** The backward scan ends here. */
  predicate Stops(s: Section, end: nat) { s.Broken? || (s.Section? && s.End() <= end) }

  /** The greatest slot in `[floor, before)` at which the scan ends. */
  ghost function NearestStop(sections: nat -> Section, floor: nat, before: nat, end: nat): (r: Option<nat>)
    ensures r.Some? ==> floor <= r.value < before && Stops(sections(r.value), end)
    ensures r.Some? ==> forall k: nat | r.value < k < before :: !Stops(sections(k), end)
    ensures r.None? ==> forall k: nat | floor <= k < before :: !Stops(sections(k), end)
    decreases before
  {
    if before <= floor then None
    else if Stops(sections(before - 1), end) then Some(before - 1)
    else NearestStop(sections, floor, before - 1, end)
  }

  /** What the legacy lookup answers: a slot's data runs from the end of the nearest plausible section below
      it, or from the end of the header, to the end of its own section. */
  ghost function LegacyAnswer(sections: nat -> Section, first: nat, last: nat, dataStart: nat, slot: nat): Lookup {
    if !(first <= slot <= last) then Malformed
    else match sections(slot)
      case Missing => NotFound
      case Broken => Malformed
      case Section(_, _) =>
        var end := sections(slot).End();
        match NearestStop(sections, first, slot, end)
        case None => if dataStart <= end then Found(dataStart, end - dataStart) else Malformed
        case Some(k) =>
          if sections(k).Broken? then Malformed
          else Found(sections(k).End(), end - sections(k).End())
  }

  /** `LegacyEpochIndexes::lookup_range`: the scan ends, whatever the indexes say. */
  method LegacyLookup(sections: nat -> Section, first: nat, last: nat, dataStart: nat, slot: nat) returns (r: Lookup)
    ensures r == LegacyAnswer(sections, first, last, dataStart, slot)
  {
    if !(first <= slot <= last) { return Malformed; }
    var own := sections(slot);
    if own.Missing? { return NotFound; }
    if own.Broken? { return Malformed; }
    var end := own.End();
    var candidate, start := slot, dataStart;
    while candidate != first
      invariant first <= candidate <= slot && start == dataStart
      invariant NearestStop(sections, first, slot, end) == NearestStop(sections, first, candidate, end)
      decreases candidate
    {
      candidate := candidate - 1;
      match sections(candidate) {
        case Missing =>
        case Broken => return Malformed;
        case Section(offset, size) =>
          if offset + size <= end {
            start := offset + size;
            break;
          }
      }
    }
    if end < start { return Malformed; }
    return Found(start, end - start);
  }

  /** The indexes hold the Block section of every present slot. */
  ghost predicate Describes(sections: nat -> Section, a: Archive)
    requires |a.slots| == |a.blocks| == |a.ends|
  {
    forall i | 0 <= i < |a.slots| :: sections(a.slots[i]) == Section(a.blocks[i], SatSub(a.ends[i], a.blocks[i]))
  }

  lemma {:induction false} NearestSplit(sections: nat -> Section, floor: nat, mid: nat, before: nat, end: nat)
    requires floor <= mid <= before
    ensures var upper := NearestStop(sections, mid, before, end);
            NearestStop(sections, floor, before, end)
            == if upper.Some? then upper else NearestStop(sections, floor, mid, end)
    decreases before
  {
    if mid < before && !Stops(sections(before - 1), end) {
      NearestSplit(sections, floor, mid, before - 1, end);
    }
  }

  /** The slots between group `i` and the one before it. */
  function GapStart(a: Archive, i: nat): nat
    requires i < |a.slots|
  {
    if i == 0 then a.first else a.slots[i - 1] + 1
  }

  /** For a present slot the legacy derivation agrees with the archive exactly when the nearest absent slot
      below it that gets a plausible answer, if any, gets one that ends where the slot's data starts. */
  lemma LegacyAgreesIff(a: Archive, sections: nat -> Section, i: nat)
    requires a.Valid() && Describes(sections, a) && i < |a.slots|
    ensures var slot := a.slots[i];
            var stray := NearestStop(sections, GapStart(a, i), slot, a.ends[i]);
            LegacyAnswer(sections, a.first, a.last, a.dataStart, slot) == a.Group(i)
            <==> stray.None? || (sections(stray.value).Section? && sections(stray.value).End() == a.Start(i))
  {
    var slot, end, gap := a.slots[i], a.ends[i], GapStart(a, i);
    assert a.GroupOk(i);
    assert sections(slot).End() == end;
    assert gap <= slot;
    NearestSplit(sections, a.first, gap, slot, end);
    if 0 < i {
      assert a.GroupOk(i - 1);
      assert sections(a.slots[i - 1]).End() == a.ends[i - 1];
      assert NearestStop(sections, a.first, gap, end) == Some(a.slots[i - 1]);
    }
  }

  /** A slot outside the epoch is an error. An absent slot of which the compact indexes know nothing is not found, as
      the slots table says of it; one they cannot answer for is an error. */
  lemma LegacyOfAbsent(a: Archive, sections: nat -> Section, slot: nat)
    requires a.Valid() && a.Encodable() && slot !in a.slots
    ensures var r := LegacyAnswer(sections, a.first, a.last, a.dataStart, slot);
            && (!(a.first <= slot <= a.last) ==> r == Malformed)
            && (a.first <= slot <= a.last && sections(slot).Missing? ==> r == NotFound)
            && (a.first <= slot <= a.last && sections(slot).Broken? ==> r == Malformed)
            && (!(a.first <= slot <= a.last) || sections(slot).Missing? ==>
                  r == TableLookup(Table(a, a.first, a.last + 1), a.first, a.last, slot))
  {
    TableRoundTrip(a, slot);
  }

  /** So, when lookups of absent slots find nothing or something that ends beyond the slot, the legacy
      lookup and the slots table give the same answer. */
  lemma LegacyMatchesTable(a: Archive, sections: nat -> Section, i: nat)
    requires a.Valid() && a.Encodable() && Describes(sections, a) && i < |a.slots|
    requires forall k: nat | GapStart(a, i) <= k < a.slots[i] ::
               sections(k).Missing? || (sections(k).Section? && a.ends[i] < sections(k).End())
    ensures LegacyAnswer(sections, a.first, a.last, a.dataStart, a.slots[i])
            == TableLookup(Table(a, a.first, a.last + 1), a.first, a.last, a.slots[i])
  {
    LegacyAgreesIff(a, sections, i);
    TableRoundTrip(a, a.slots[i]);
  }

  /** How an epoch's index answers: from a slots table, or not at all. */
  datatype EpochIndex = Scannable | Legacy | Unavailable

  /** Every epoch that a scan from `first` to `slot` passes through can be scanned. */
  ghost predicate Visible(kinds: nat -> EpochIndex, first: nat, slot: nat) {
    forall e: nat | Epoch(first) <= e <= Epoch(slot) :: kinds(e).Scannable?
  }

  /** The least present slot after `after` and up to `upTo`, across epochs. The answer is withheld exactly when an
      epoch that cannot be scanned lies before it or holds it. */
  method NextPresentSlot(kinds: nat -> EpochIndex, present: set<nat>, after: nat, upTo: nat) returns (r: Option<nat>)
    ensures r.Some? ==>
              && after < r.value <= upTo && r.value in present && Visible(kinds, after + 1, r.value)
              && forall s: nat | after < s < r.value :: s !in present
    ensures r.None? ==> forall s: nat | after < s <= upTo && s in present :: !Visible(kinds, after + 1, s)
    ensures (forall e: nat :: kinds(e).Scannable?) ==> r == NextPresent(present, after + 1, upTo)
  {
    var probe := after + 1;
    while probe <= upTo
      invariant after < probe && (probe == after + 1 || probe == EpochStart(Epoch(probe)))
      invariant forall e: nat | Epoch(after + 1) <= e < Epoch(probe) :: kinds(e).Scannable?
      invariant forall s: nat | after < s < probe && s <= upTo :: s !in present
      decreases upTo + 1 - probe
    {
      var epoch := Epoch(probe);
      var epochEnd := EpochEnd(epoch);
      EpochBounds(probe);
      if !kinds(epoch).Scannable? {
        assert forall s: nat | probe <= s :: Epoch(after + 1) <= epoch <= Epoch(s);
        return None;
      }
      var scanEnd := Min(upTo, epochEnd);
      for slot := probe to scanEnd + 1
        invariant forall s: nat | after < s < slot :: s !in present
      {
        if slot in present {
          InEpoch(epoch, slot);
          return Some(slot);
        }
      }
      probe := epochEnd + 1;
    }
    return None;
  }

  /** The greatest slot in `[floor, before)` that the index does not call absent. */
  ghost function PrevKnown(lookup: nat -> Lookup, floor: nat, before: nat): (r: Option<nat>)
    ensures r.Some? ==> floor <= r.value < before && !lookup(r.value).NotFound?
    ensures forall k: nat | floor <= k < before && (r.Some? ==> r.value < k) :: lookup(k).NotFound?
    decreases before
  {
    if before <= floor then None
    else if lookup(before - 1).NotFound? then PrevKnown(lookup, floor, before - 1)
    else Some(before - 1)
  }

  /** The nearest present slot in `[floor, before)`, looking at no more than 64 slots. The first answer other
      than "absent" decides: a slot found is returned, and an index that cannot answer ends the search. */
  method PrevPresentSlot(lookup: nat -> Lookup, floor: nat, before: nat) returns (r: Option<nat>)
    ensures var k := PrevKnown(lookup, Max(floor, SatSub(before, PRIMING_WINDOW)), before);
            r == if k.Some? && lookup(k.value).Found? then k else None
  {
    if before == 0 { return None; }
    var slot: nat := before - 1;
    ghost var low := Max(floor, SatSub(before, PRIMING_WINDOW));
    for i := 0 to PRIMING_WINDOW
      invariant slot + i + 1 == before
      invariant PrevKnown(lookup, low, before) == PrevKnown(lookup, low, slot + 1)
    {
      if slot < floor { return None; }
      match lookup(slot) {
        case Found(_, _) => return Some(slot);
        case NotFound =>
        case Malformed => return None;
      }
      if slot == 0 { return None; }
      slot := slot - 1;
    }
    return None;
  }

  /** With an index that knows every slot, the search finds what a scan of the archive would. */
  lemma {:induction false} PrevKnownIsPresent(lookup: nat -> Lookup, present: set<nat>,
                                              floor: nat, before: nat, window: nat)
    requires forall s: nat :: if s in present then lookup(s).Found? else lookup(s).NotFound?
    ensures PrevKnown(lookup, Max(floor, SatSub(before, window)), before) == PrevPresent(present, floor, before, window)
    decreases window
  {
    if 0 < window && floor < before && before - 1 !in present {
      PrevKnownIsPresent(lookup, present, floor, before - 1, window - 1);
    }
  }
}
