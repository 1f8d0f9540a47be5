/** The consuming end of the HTTP prefetcher: one reader, its current chunk and its seek rules. */
module RangeReader {
  import opened Slots
  import opened Octets

  /** A chunk request: the byte range it covers and how far it has got. A piece that has not failed holds
      a memory permit of its size from the moment it is requested until it is dropped. */
  datatype Status = Running | Done | Failed
  datatype Piece = Piece(start: nat, size: nat, status: Status) {
    function Held(): nat { if status.Failed? then 0 else size }
    function End(): nat { start + size }
  }

  /** `pipe` names the pipeline behind the reader's channel. */
  datatype Reader = Reader(position: nat, pipe: Option<nat>, current: Option<Piece>, offset: nat)

  /** What polling the channel yields. */
  datatype Arrival = Nothing | Hangup | Item(piece: Piece)

  /** What a read yields: bytes `[from, from + count)` of the object, or an error. */
  datatype Outcome = NotReady | Got(from: nat, count: nat) | Failure(unexpectedEof: bool)

  datatype SeekFrom = FromStart(position: nat) | FromCurrent(delta: int) | FromEnd(delta: int)

  ghost predicate Sound(rd: Reader) { rd.current.Some? ==> rd.offset <= rd.current.value.size }

  function Cancelled(rd: Reader): Reader { Reader(rd.position, None, None, 0) }

  /** Copies what fits of the current chunk; a finished chunk is dropped. */
  function Copy(rd: Reader, limit: nat): (Reader, Outcome)
    requires rd.current.Some? && rd.offset <= rd.current.value.size
  {
    var c := rd.current.value;
    var count := Min(limit, c.size - rd.offset);
    var rest := rd.offset + count < c.size;
    (Reader(rd.position + count, rd.pipe, if rest then rd.current else None, if rest then rd.offset + count else 0),
     Got(c.start + rd.offset, count))
  }

  /** `poll_read` on values: `spare` is the pipeline started when there is none. */
  function Read(rd: Reader, len: nat, limit: nat, spare: nat, arrival: Arrival): (Reader, Outcome)
    requires Sound(rd)
  {
    if limit == 0 || len <= rd.position then (rd, Got(rd.position, 0))
    else
      var rd := rd.(pipe := Some(rd.pipe.GetOr(spare)));
      if rd.current.Some? then Copy(rd, limit)
      else match arrival
        case Nothing => (rd, NotReady)
        case Hangup => (Cancelled(rd), Failure(true))
        case Item(p) =>
          if p.status.Failed? then (Cancelled(rd), Failure(false))
          else Copy(rd.(current := Some(p), offset := 0), limit)
  }

  /** The offset a seek asks for, which may lie outside what an offset can be. */
  function Wanted(rd: Reader, len: nat, from: SeekFrom): int {
    match from
    case FromStart(p) => p
    case FromCurrent(d) => rd.position + d
    case FromEnd(d) => len + d
  }

  function SeekTarget(rd: Reader, len: nat, from: SeekFrom): (r: Option<nat>)
    ensures r.Some? <==> 0 <= Wanted(rd, len, from) < U64_LIMIT
    ensures r.Some? ==> r.value == Wanted(rd, len, from)
  {
    var target := Wanted(rd, len, from);
    if 0 <= target < U64_LIMIT then Some(target) else None
  }

  /** A seek to where the reader already is keeps its pipeline; any other one drops it. */
  function SeekTo(rd: Reader, target: nat): Reader {
    if target == rd.position then rd else Cancelled(rd).(position := target)
  }

  /** The reader object. */
  class Handle {
    const len: nat
    var position: nat
    var receiver: Option<nat>
    var current: Option<Piece>
    var offset: nat

    ghost function Value(): Reader
      reads this
    {
      Reader(position, receiver, current, offset)
    }

    /** The chunk in hand continues at the position, and comes from a channel. */
    ghost predicate Valid()
      reads this
    {
      match current
      case None => offset == 0
      case Some(p) => receiver.Some? && offset < p.size && p.start + offset == position
    }

    /** `open`, after the length probe. */
    constructor (len: nat)
      ensures this.len == len && Value() == Reader(0, None, None, 0) && Valid()
    {
      this.len, position, receiver, current, offset := len, 0, None, None, 0;
    }

    method Cancel()
      modifies this
      ensures Value() == Cancelled(old(Value())) && Valid()
      ensures receiver == None && current == None && offset == 0 && position == old(position)
    {
      receiver, current, offset := None, None, 0;
    }

    /** What arrives now continues at the position, as the pipeline's order provides. */
    ghost predicate InOrder(arrival: Arrival)
      reads this
    {
      arrival.Item? && !arrival.piece.status.Failed? ==> arrival.piece.start == position && 0 < arrival.piece.size
    }

    /** A read takes what fits of the chunk in hand, or of the next one, and moves over exactly that. A failure
        gives the channel up and leaves the position. As long as chunks arrive in order, every read begins at
        the position. */
    method PollRead(limit: nat, spare: nat, arrival: Arrival) returns (out: Outcome)
      requires Sound(Value())
      modifies this
      ensures (Value(), out) == Read(old(Value()), len, limit, spare, arrival)
      ensures limit == 0 || len <= old(position) ==> out == Got(position, 0) && Value() == old(Value())
      ensures limit != 0 && old(position) < len ==>
                match (if old(current).Some? then Item(old(current).value) else arrival)
                case Nothing => out == NotReady && position == old(position) && current == None && receiver.Some?
                case Hangup => out == Failure(true) && position == old(position) && current == None && receiver == None
                case Item(p) =>
                  var at := if old(current).Some? then old(offset) else 0;
                  if old(current).None? && p.status.Failed?
                  then out == Failure(false) && position == old(position) && current == None && receiver == None
                  else
                    && out == Got(p.start + at, Min(limit, p.size - at)) && position == old(position) + out.count
                    && receiver == Some(old(receiver).GetOr(spare))
                    && (if at + out.count == p.size then current == None && offset == 0
                        else current == Some(p) && offset == at + out.count)
      ensures old(Valid()) && old(InOrder(arrival)) ==> Valid() && (out.Got? ==> out.from == old(position))
    {
      if limit == 0 || len <= position { return Got(position, 0); }
      if receiver == None { receiver := Some(spare); }
      if current == None {
        match arrival {
          case Nothing => return NotReady;
          case Hangup =>
            Cancel();
            return Failure(true);
          case Item(p) =>
            if p.status.Failed? {
              Cancel();
              return Failure(false);
            }
            current, offset := Some(p), 0;
        }
      }
      var chunk := current.value;
      var count := Min(limit, chunk.size - offset);
      out := Got(chunk.start + offset, count);
      offset, position := offset + count, position + count;
      if offset == chunk.size { current, offset := None, 0; }
    }

    /** A seek to an offset that cannot be, or to where the reader stands, changes nothing. Any other one gives
        up channel, chunk and offset, so that nothing of the old place is read at the new one. */
    method StartSeek(from: SeekFrom) returns (ok: bool)
      modifies this
      ensures ok <==> SeekTarget(old(Value()), len, from).Some?
      ensures Value() == if ok then SeekTo(old(Value()), SeekTarget(old(Value()), len, from).value) else old(Value())
      ensures var target := match from
                case FromStart(p) => p
                case FromCurrent(d) => old(position) + d
                case FromEnd(d) => len + d;
              (ok <==> 0 <= target < U64_LIMIT) && (ok ==> position == target)
      ensures position != old(position) ==> receiver == None && current == None && offset == 0
      ensures position == old(position) ==>
                receiver == old(receiver) && current == old(current) && offset == old(offset)
      ensures old(Valid()) ==> Valid()
    {
      var target := match from
        case FromStart(p) => p
        case FromCurrent(d) => position + d
        case FromEnd(d) => len + d;
      if target < 0 || U64_LIMIT <= target { return false; }
      if target != position {
        Cancel();
        position := target;
      }
      return true;
    }
  }
}
