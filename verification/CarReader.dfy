/** Reading an epoch's CAR stream: sections, batches up to a block, and seeking to a slot. */
module CarReader {
  import opened Slots
  import opened Octets
  import opened Varint
  import opened SlotIndex

  const MAX_HEADER: nat := 1024
  const MAX_SECTION: nat := 0x200_0000

  /** What a section decodes to. The decoder itself is a parameter. */
  datatype Node = Block(slot: nat) | Other(tag: nat)

  /** A decoder may also find the section shorter than its own fields say, or not understand it. */
  datatype Parsed = Parsed(node: Node) | CutShort | Unreadable
  type Decoder = seq<Byte> -> Parsed

  /** The next section of a stream: a node, the end of the data, or an error; and the bytes consumed. */
  datatype NextResult = Item(node: Node, used: nat) | Ended(used: nat) | Garbled(used: nat)

  /** A batch of nodes up to and including a block, or whatever is left before the end of the data. */
  datatype BatchResult = Batch(nodes: seq<Node>, used: nat) | Unusable(used: nat)

  /** What the header read yields: the header, an early end, or an oversized or malformed length. */
  datatype HeaderResult = Header(bytes: seq<Byte>, used: nat) | NoHeader(eof: bool, used: nat)

  function HeaderIn(bytes: seq<Byte>): (r: HeaderResult)
    ensures r.used <= |bytes|
  {
    match Decode(bytes, 0)
    case Short => NoHeader(true, |bytes|)
    case Overlong => NoHeader(false, MAX_LEN)
    case Value(size, used) =>
      if size > MAX_HEADER then NoHeader(false, used)
      else if used + size > |bytes| then NoHeader(true, |bytes|)
      else Header(bytes[used..used + size], used + size)
  }

  /** Whether a header is cached once the header of `bytes` has been asked for. */
  function Caches(cached: bool, bytes: seq<Byte>): bool {
    cached || (HeaderIn(bytes).Header? && HeaderIn(bytes).bytes != [])
  }

  function Verdict(parsed: Parsed, used: nat): NextResult {
    match parsed
    case Parsed(node) => Item(node, used)
    case CutShort => Ended(used)
    case Unreadable => Garbled(used)
  }

  /** The section at the start of `bytes`, parsed. A section cut short by the end of the data and one whose
      own fields overrun it look the same to the caller. */
  function SectionIn(bytes: seq<Byte>, decode: Decoder): (r: NextResult)
    ensures r.used <= |bytes| && (r.Item? ==> 0 < r.used)
  {
    match Decode(bytes, 0)
    case Short => Ended(|bytes|)
    case Overlong => Garbled(MAX_LEN)
    case Value(size, used) =>
      if size > MAX_SECTION then Garbled(used)
      else if used + size > |bytes| then Ended(|bytes|)
      else Verdict(decode(bytes[used..used + size]), used + size)
  }

  /** `next` and the parse after it, on the bytes not yet read; without a cached header, that comes first. */
  function NextIn(cached: bool, bytes: seq<Byte>, decode: Decoder): (r: NextResult)
    ensures r.used <= |bytes| && (r.Item? ==> 0 < r.used)
  {
    if cached then SectionIn(bytes, decode)
    else match HeaderIn(bytes)
      case NoHeader(eof, used) => if eof then Ended(used) else Garbled(used)
      case Header(_, used) =>
        var r := SectionIn(bytes[used..], decode);
        r.(used := used + r.used)
  }

  /** `read_until_block`, on the bytes not yet read. */
  function BatchIn(cached: bool, bytes: seq<Byte>, decode: Decoder): (r: BatchResult)
    ensures r.used <= |bytes|
    decreases |bytes|
  {
    match NextIn(cached, bytes, decode)
    case Ended(used) => Batch([], used)
    case Garbled(used) => Unusable(used)
    case Item(node, used) =>
      if node.Block? then Batch([node], used)
      else Prepend([node], used, BatchIn(Caches(cached, bytes), bytes[used..], decode))
  }

  function Prepend(nodes: seq<Node>, used: nat, rest: BatchResult): BatchResult {
    match rest
    case Batch(more, n) => Batch(nodes + more, used + n)
    case Unusable(n) => Unusable(used + n)
  }

  lemma PrependNothing(r: BatchResult)
    ensures Prepend([], 0, r) == r
  {
    if r.Batch? { assert [] + r.nodes == r.nodes; }
  }

  /** A batch that begins with `next` and goes on with `rest`. */
  function Joined(next: NextResult, rest: BatchResult): BatchResult {
    match next
    case Ended(used) => Batch([], used)
    case Garbled(used) => Unusable(used)
    case Item(node, used) => if node.Block? then Batch([node], used) else Prepend([node], used, rest)
  }

  lemma BatchUnfolds(cached: bool, bytes: seq<Byte>, decode: Decoder, next: NextResult,
                     cached': bool, bytes': seq<Byte>)
    requires next == NextIn(cached, bytes, decode)
    requires cached' == Caches(cached, bytes) && bytes' == bytes[next.used..]
    ensures BatchIn(cached, bytes, decode) == Joined(next, BatchIn(cached', bytes', decode))
  {
  }

  /** One more section: it joins the batch, and the batch goes on unless it is a block or no node at all. */
  lemma OneMore(nodes: seq<Node>, used: nat, next: NextResult, rest: BatchResult)
    ensures Prepend(nodes, used, Joined(next, rest))
            == match next
               case Ended(n) => Batch(nodes, used + n)
               case Garbled(n) => Unusable(used + n)
               case Item(node, n) =>
                 if node.Block? then Batch(nodes + [node], used + n) else Prepend(nodes + [node], used + n, rest)
  {
    if next.Ended? { assert nodes + [] == nodes; }
    if next.Item? && rest.Batch? { assert nodes + ([next.node] + rest.nodes) == (nodes + [next.node]) + rest.nodes; }
  }

  function Rest(file: seq<Byte>, position: nat): seq<Byte> { if position <= |file| then file[position..] else [] }

  /** Moving on by `m` drops `m` bytes; the next `n` are then those at `m`. */
  lemma RestMoves(file: seq<Byte>, position: nat, m: nat, n: nat)
    requires m <= |Rest(file, position)|
    ensures Rest(file, position + m) == Rest(file, position)[m..]
    ensures m + n <= |Rest(file, position)| ==> Rest(file, position + m)[..n] == Rest(file, position)[m..m + n]
  {
  }

  /** Where a seek goes. */
  datatype Target = At(offset: nat) | IndexFailure | EmptyEpoch(epoch: nat)

  /** The least slot in `[from, upTo]` that the index does not call absent. */
  ghost function NextKnown(lookup: nat -> Lookup, from: nat, upTo: nat): (r: Option<nat>)
    ensures r.Some? ==> from <= r.value <= upTo && !lookup(r.value).NotFound?
    ensures forall k: nat | from <= k <= upTo && (r.Some? ==> k < r.value) :: lookup(k).NotFound?
    decreases upTo + 1 - from
  {
    if from > upTo then None
    else if lookup(from).NotFound? then NextKnown(lookup, from + 1, upTo)
    else Some(from)
  }

  /** Where `seek_to_slot` goes: to the first present slot from `slot` to the end of its epoch; failing that,
      just past the last present slot below it; failing that, it is an index error. */
  ghost function SeekAnswer(lookup: nat -> Lookup, slot: nat): Target {
    match NextKnown(lookup, slot, EpochEnd(Epoch(slot)))
    case Some(k) => if lookup(k).Found? then At(lookup(k).offset) else IndexFailure
    case None =>
      match PrevKnown(lookup, EpochStart(Epoch(slot)), slot)
      case Some(k) => if lookup(k).Found? then At(lookup(k).offset + lookup(k).length) else IndexFailure
      case None => EmptyEpoch(Epoch(slot))
  }

  datatype SeekResult = Sought | HeaderFailure | StreamFailure | SeekFailure(target: Target)

  class NodeReader {
    const file: seq<Byte>
    const decode: Decoder
    var position: nat
    var header: seq<Byte>
    var itemIndex: nat
    var seekPermitPrimed: bool

    constructor (file: seq<Byte>, decode: Decoder)
      ensures this.file == file && this.decode == decode && position == 0 && header == [] && itemIndex == 0
    {
      this.file, this.decode := file, decode;
      position, header, itemIndex, seekPermitPrimed := 0, [], 0, false;
    }

    ghost function Remaining(): seq<Byte>
      reads this
    {
      Rest(file, position)
    }

    /** Reads the varint at the position and moves past what it took. */
    method TakeUvarint() returns (r: Decoded)
      modifies `position
      ensures r == Decode(old(Remaining()), 0) && position == old(position) + Consumed(old(Remaining()), r)
    {
      if position > |file| { return Short; }
      var used;
      r, used := ReadUvarint(file, position);
      position := position + used;
    }

    /** Reads exactly `n` bytes, or what is left if there are fewer. */
    method TakeExact(n: nat) returns (r: Option<seq<Byte>>)
      modifies `position
      ensures r == if n <= |old(Remaining())| then Some(old(Remaining())[..n]) else None
      ensures position == old(position) + Min(n, |old(Remaining())|)
    {
      var left := SatSub(|file|, position);
      if n <= left {
        r := Some(if n == 0 then [] else file[position..position + n]);
        assert r.value == Remaining()[..n];
        position := position + n;
      } else {
        r := None;
        position := position + left;
      }
    }

    /** Reads the header the first time; later calls return the cached one. A zero-length header leaves
        nothing cached, so the next call takes the following section for a header. */
    method ReadRawHeader() returns (r: HeaderResult)
      modifies `position, `header
      ensures old(header) != [] ==> r == Header(header, 0) && header == old(header) && position == old(position)
      ensures old(header) == [] ==>
                && r == HeaderIn(old(Remaining())) && position == old(position) + r.used
                && header == if r.Header? then r.bytes else []
    {
      if header != [] { return Header(header, 0); }
      var left := SatSub(|file|, position);
      var size := TakeUvarint();
      if size.Short? { return NoHeader(true, left); }
      if size.Overlong? { return NoHeader(false, MAX_LEN); }
      if size.value > MAX_HEADER { return NoHeader(false, size.used); }
      RestMoves(file, old(position), size.used, size.value);
      var bytes := TakeExact(size.value);
      if bytes.None? { return NoHeader(true, left); }
      header := bytes.value;
      return Header(bytes.value, size.used + size.value);
    }

    method NextParsed() returns (r: NextResult)
      modifies `position, `header, `itemIndex
      ensures r == NextIn(old(header) != [], old(Remaining()), decode) && position == old(position) + r.used
      ensures (header != []) == Caches(old(header) != [], old(Remaining()))
      ensures old(header) != [] ==> header == old(header)
    {
      var start := 0;
      if header == [] {
        var h := ReadRawHeader();
        if h.NoHeader? { return if h.eof then Ended(h.used) else Garbled(h.used); }
        start := h.used;
        RestMoves(file, old(position), start, 0);
      }
      itemIndex := itemIndex + 1;
      r := NextSection();
      r := r.(used := start + r.used);
    }

    method NextSection() returns (r: NextResult)
      modifies `position
      ensures r == SectionIn(old(Remaining()), decode) && position == old(position) + r.used
    {
      var left := SatSub(|file|, position);
      var size := TakeUvarint();
      if size.Short? { return Ended(left); }
      if size.Overlong? { return Garbled(MAX_LEN); }
      if size.value > MAX_SECTION { return Garbled(size.used); }
      RestMoves(file, old(position), size.used, size.value);
      var payload := TakeExact(size.value);
      r := if payload.None? then Ended(left) else Verdict(decode(payload.value), size.used + size.value);
    }

    /** Reads up to and including the next block. The end of the data ends the batch without an error. */
    method ReadUntilBlock() returns (r: BatchResult)
      modifies `position, `header, `itemIndex
      ensures r == BatchIn(old(header) != [], old(Remaining()), decode) && position == old(position) + r.used
      ensures old(header) != [] ==> header == old(header)
    {
      var nodes: seq<Node>, used: nat := [], 0;
      ghost var rest := BatchIn(header != [], Remaining(), decode);
      PrependNothing(rest);
      var more, failed := true, false;
      while more
        invariant position == old(position) + used && (old(header) != [] ==> header == old(header))
        invariant more ==> rest == BatchIn(header != [], Remaining(), decode)
        invariant BatchIn(old(header) != [], old(Remaining()), decode)
                  == if more then Prepend(nodes, used, rest) else if failed then Unusable(used) else Batch(nodes, used)
        decreases more, SatSub(|file|, position)
      {
        var next;
        next, rest := TakeNext(rest);
        OneMore(nodes, used, next, rest);
        nodes := if next.Item? then nodes + [next.node] else nodes;
        used := used + next.used;
        failed, more := next.Garbled?, next.Item? && !next.node.Block?;
      }
      r := if failed then Unusable(used) else Batch(nodes, used);
    }

    /** The next node, and the batch that is left to read after it. */
    method TakeNext(ghost batch: BatchResult) returns (next: NextResult, ghost rest: BatchResult)
      requires batch == BatchIn(header != [], Remaining(), decode)
      modifies `position, `header, `itemIndex
      ensures next.used <= SatSub(|file|, old(position)) && (next.Item? ==> 0 < next.used)
      ensures position == old(position) + next.used && (old(header) != [] ==> header == old(header))
      ensures rest == BatchIn(header != [], Remaining(), decode)
      ensures batch == Joined(next, rest)
    {
      ghost var cached, bytes := header != [], Remaining();
      next := NextParsed();
      RestMoves(file, old(position), next.used, 0);
      rest := BatchIn(header != [], Remaining(), decode);
      BatchUnfolds(cached, bytes, decode, next, header != [], Remaining());
    }

    /** Positions the stream at the first section of `slot`, or of the next present slot of its epoch, or
        just past the last present one. `streamOk` says whether the underlying stream can seek. */
    method SeekToSlot(lookup: nat -> Lookup, slot: nat, streamOk: bool) returns (r: SeekResult)
      modifies `position, `header, `seekPermitPrimed
      ensures r.HeaderFailure? <==> old(header) == [] && HeaderIn(old(Remaining())).NoHeader?
      ensures !r.HeaderFailure? ==> (r.SeekFailure? <==> !SeekAnswer(lookup, slot).At?)
      ensures r.Sought? ==> streamOk && SeekAnswer(lookup, slot) == At(position) && !seekPermitPrimed
      ensures r.StreamFailure? ==> !streamOk && !seekPermitPrimed
      ensures r.SeekFailure? ==> r.target == SeekAnswer(lookup, slot)
      ensures old(header) != [] ==> header == old(header) && (!r.Sought? ==> position == old(position))
      ensures old(header) == [] ==>
                && (!r.HeaderFailure? ==> header == HeaderIn(old(Remaining())).bytes)
                && (!r.Sought? ==> position == old(position) + HeaderIn(old(Remaining())).used)
    {
      if header == [] {
        var h := ReadRawHeader();
        if h.NoHeader? { return HeaderFailure; }
      }
      var last := EpochEnd(Epoch(slot));
      EpochBounds(slot);
      var current := slot;
      while true
        invariant slot <= current <= last
        invariant NextKnown(lookup, slot, last) == NextKnown(lookup, current, last)
        decreases last - current
      {
        match lookup(current)
        case Found(offset, _) =>
          r := SeekToOffset(offset, streamOk);
          return;
        case NotFound =>
          if current >= last {
            r := SeekToEpochTail(lookup, slot, streamOk);
            return;
          }
          current := current + 1;
        case Malformed => return SeekFailure(IndexFailure);
      }
    }

    method SeekToEpochTail(lookup: nat -> Lookup, slot: nat, streamOk: bool) returns (r: SeekResult)
      requires NextKnown(lookup, slot, EpochEnd(Epoch(slot))).None?
      modifies `position, `seekPermitPrimed
      ensures !r.HeaderFailure? && (r.SeekFailure? <==> !SeekAnswer(lookup, slot).At?)
      ensures r.Sought? ==> streamOk && SeekAnswer(lookup, slot) == At(position) && !seekPermitPrimed
      ensures r.StreamFailure? ==> !streamOk && !seekPermitPrimed
      ensures r.SeekFailure? ==> r.target == SeekAnswer(lookup, slot)
      ensures !r.Sought? ==> position == old(position)
    {
      var first := EpochStart(Epoch(slot));
      EpochBounds(slot);
      var candidate := slot;
      while candidate > first
        invariant first <= candidate <= slot
        invariant PrevKnown(lookup, first, slot) == PrevKnown(lookup, first, candidate)
        invariant position == old(position)
        decreases candidate
      {
        candidate := candidate - 1;
        match lookup(candidate)
        case Found(offset, length) =>
          r := SeekToOffset(offset + length, streamOk);
          return;
        case NotFound =>
        case Malformed => return SeekFailure(IndexFailure);
      }
      return SeekFailure(EmptyEpoch(Epoch(slot)));
    }

    /** Uses up the seek permit, whether or not the stream then moves. */
    method SeekToOffset(offset: nat, streamOk: bool) returns (r: SeekResult)
      modifies `position, `seekPermitPrimed
      ensures r == (if streamOk then Sought else StreamFailure) && !seekPermitPrimed
      ensures position == if streamOk then offset else old(position)
    {
      seekPermitPrimed := false;
      if !streamOk { return StreamFailure; }
      position := offset;
      return Sought;
    }
  }
}
