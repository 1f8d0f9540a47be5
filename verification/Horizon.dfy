/** Bucket streaming: how buckets are shared out, and the fetcher and decoder pair that recycles buffers. */
module Horizon {
  import opened Slots

  const PREFETCH_DEPTH: nat := 2
  const RECYCLE_CAPACITY: nat := PREFETCH_DEPTH + 2

  function ShareSize(per: nat, rem: nat, i: nat): nat { if i < rem then per + 1 else per }

  /** How many buckets the first `i` workers get. */
  function SharedOut(per: nat, rem: nat, i: nat): nat {
    if i == 0 then 0 else SharedOut(per, rem, i - 1) + ShareSize(per, rem, i - 1)
  }

  lemma {:induction false} SharedOutIs(per: nat, rem: nat, i: nat)
    ensures SharedOut(per, rem, i) == per * i + Min(i, rem)
  {
    if i > 0 { SharedOutIs(per, rem, i - 1); }
  }

  lemma AllSharedOut(total: nat, threads: nat)
    requires 0 < threads
    ensures SharedOut(total / threads, total % threads, threads) == total
  {
    SharedOutIs(total / threads, total % threads, threads);
  }

  /** The loop: workers in turn take `per` buckets, the first `rem` of them one more. */
  method ShareOut(start: nat, per: nat, rem: nat, threads: nat) returns (out: seq<Range>)
    requires 0 < threads
    ensures |out| == threads && out[0].lo == start && out[threads - 1].hi == start + SharedOut(per, rem, threads)
    ensures forall i | 0 <= i < threads - 1 :: out[i].hi == out[i + 1].lo
    ensures forall i | 0 <= i < threads :: out[i].Size() == ShareSize(per, rem, i)
  {
    out := [];
    var s := start;
    for i := 0 to threads
      invariant |out| == i && s == start + SharedOut(per, rem, i)
      invariant if i == 0 then s == start else out[0].lo == start && out[i - 1].hi == s
      invariant forall k | 0 <= k < i - 1 :: out[k].hi == out[k + 1].lo
      invariant forall k | 0 <= k < i :: out[k].Size() == ShareSize(per, rem, k)
    {
      var n := if i < rem then per + 1 else per;
      out := out + [Range(s, s + n)];
      s := s + n;
    }
  }

  /** `partition_buckets`: contiguous chunks that cover the buckets exactly, none more than one larger than
      another, the larger ones first. */
  method PartitionBuckets(start: nat, endInclusive: nat, threads: nat) returns (out: seq<Range>)
    requires 0 < threads && start <= endInclusive + 1
    ensures |out| == threads
    ensures out[0].lo == start && out[threads - 1].hi == endInclusive + 1
    ensures forall i | 0 <= i < threads - 1 :: out[i].hi == out[i + 1].lo
    ensures forall i, j | 0 <= i <= j < threads :: 0 <= out[j].Size() <= out[i].Size() <= out[j].Size() + 1
  {
    var total := endInclusive + 1 - start;
    out := ShareOut(start, total / threads, total % threads, threads);
    AllSharedOut(total, threads);
  }

  /** A fetched bucket on its way to the decoder, in the buffer that carries it. */
  datatype Parcel = Parcel(bucket: nat, buffer: nat)

  /** The fetcher: about to pick a buffer, filling one, waiting to hand it over, or finished. */
  datatype Fetcher = Picking | Filling(parcel: Parcel) | Sending(parcel: Parcel) | FetchDone(ok: bool)

  /** How a decoder ends: the channel ran dry (after a clean or a failed fetch), the requested range was
      passed, or a bucket could not be loaded. */
  datatype Ending = Drained(ok: bool) | Passed | Broken

  /** The decoder: waiting for a bucket, loading one, decoding the loaded one, or finished. */
  datatype Decoder = Waiting | Loading(parcel: Parcel) | Decoding | DecodeDone(ending: Ending)

  /** One worker. `next` is the next bucket to fetch, `decoded` the buckets decoded so far, `made` the number
      of buffers ever allocated, and `lost` the number dropped because the recycle channel was full. */
  datatype State = State(next: nat, fetcher: Fetcher, decoder: Decoder, queue: seq<Parcel>, recycle: seq<nat>,
                         decoded: seq<nat>, made: nat, lost: nat)

  datatype Action =
    | Pick
    | Fill(ok: bool)
    | Send
    | FinishFetching
    | Receive
    | Load(ok: bool)
    | FinishBucket
    | StopEarly
    | Hangup

  function Init(chunk: Range): State { State(chunk.lo, Picking, Waiting, [], [], [], 0, 0) }

  predicate Enabled(chunk: Range, s: State, a: Action) {
    match a
    case Pick => s.fetcher.Picking? && s.next < chunk.hi
    case FinishFetching => s.fetcher.Picking? && s.next >= chunk.hi
    case Fill(ok) => s.fetcher.Filling?
    case Send => s.fetcher.Sending? && (s.decoder.DecodeDone? || |s.queue| < PREFETCH_DEPTH)
    case Receive => s.decoder.Waiting? && s.queue != []
    case Hangup => s.decoder.Waiting? && s.queue == [] && s.fetcher.FetchDone?
    case Load(ok) => s.decoder.Loading?
    case FinishBucket => s.decoder.Decoding?
    case StopEarly => s.decoder.Decoding?
  }

  /** The decoder is gone, and with it everything still queued. */
  function Leave(s: State, ending: Ending): State { s.(decoder := DecodeDone(ending), queue := []) }

  function Apply(chunk: Range, s: State, a: Action): State
    requires Enabled(chunk, s, a)
  {
    match a
    case Pick =>
      if s.recycle != [] then
        s.(fetcher := Filling(Parcel(s.next, s.recycle[0])), recycle := s.recycle[1..], next := s.next + 1)
      else s.(fetcher := Filling(Parcel(s.next, s.made)), made := s.made + 1, next := s.next + 1)
    case FinishFetching => s.(fetcher := FetchDone(true))
    case Fill(ok) => s.(fetcher := if ok then Sending(s.fetcher.parcel) else FetchDone(false))
    case Send =>
      if s.decoder.DecodeDone? then s.(fetcher := FetchDone(true))
      else s.(fetcher := Picking, queue := s.queue + [s.fetcher.parcel])
    case Receive => s.(decoder := Loading(s.queue[0]), queue := s.queue[1..])
    case Hangup => Leave(s, Drained(s.fetcher.ok))
    case Load(ok) =>
      if !ok then Leave(s, Broken)
      else
        var s' := s.(decoder := Decoding, decoded := s.decoded + [s.decoder.parcel.bucket]);
        if s.fetcher.FetchDone? then s'
        else if |s.recycle| < RECYCLE_CAPACITY then s'.(recycle := s.recycle + [s.decoder.parcel.buffer])
        else s'.(lost := s.lost + 1)
    case FinishBucket => s.(decoder := Waiting)
    case StopEarly => Leave(s, Passed)
  }

  function InFetcher(f: Fetcher): seq<Parcel> { if f.Filling? || f.Sending? then [f.parcel] else [] }
  function InDecoder(d: Decoder): seq<Parcel> { if d.Loading? then [d.parcel] else [] }

  function Numbers(lo: nat, n: nat): (r: seq<nat>)
    ensures |r| == n && forall i | 0 <= i < n :: r[i] == lo + i
  {
    seq(n, i => lo + i)
  }

  /** The buckets under way, oldest first; none once the decoder is gone. */
  function Way(s: State): seq<Parcel> {
    if s.decoder.DecodeDone? then [] else InDecoder(s.decoder) + s.queue + InFetcher(s.fetcher)
  }

  /** The buckets under way carry on from the decoded ones, one by one. */
  ghost predicate InOrder(chunk: Range, decoded: seq<nat>, way: seq<Parcel>) {
    && decoded == Numbers(chunk.lo, |decoded|)
    && forall i | 0 <= i < |way| :: way[i].bucket == chunk.lo + |decoded| + i
  }

  ghost predicate OrderOk(chunk: Range, s: State) {
    && s.next <= Max(chunk.lo, chunk.hi) && |s.queue| <= PREFETCH_DEPTH
    && (s.decoder.DecodeDone? ==> s.queue == [])
    && InOrder(chunk, s.decoded, Way(s)) && chunk.lo + |s.decoded| + |Way(s)| <= s.next
    && (!s.decoder.DecodeDone? && s.fetcher != FetchDone(false) ==> chunk.lo + |s.decoded| + |Way(s)| == s.next)
    && (s.fetcher == FetchDone(true) && !s.decoder.DecodeDone? ==> s.next >= chunk.hi)
    && (s.decoder == DecodeDone(Drained(true)) ==> chunk.lo + |s.decoded| == Max(chunk.lo, chunk.hi))
  }

  /** Every buffer is in exactly one place until one side leaves, and there are never too many. */
  ghost predicate BuffersOk(s: State) {
    && s.made <= PREFETCH_DEPTH + 2 && s.lost == 0
    && (!s.fetcher.FetchDone? && !s.decoder.DecodeDone? ==> s.made == |s.recycle| + |Way(s)|)
    && (s.fetcher.Picking? && s.decoder.DecodeDone? ==> s.recycle != [] || s.made < PREFETCH_DEPTH + 2)
  }

  ghost predicate Inv(chunk: Range, s: State) { OrderOk(chunk, s) && BuffersOk(s) }

  lemma InitHolds(chunk: Range)
    ensures Inv(chunk, Init(chunk))
  {
  }

  predicate IsFetching(a: Action) { a.Pick? || a.Fill? || a.Send? || a.FinishFetching? }

  lemma FetcherKeepsBuffers(chunk: Range, s: State, a: Action)
    requires Inv(chunk, s) && Enabled(chunk, s, a) && IsFetching(a)
    ensures BuffersOk(Apply(chunk, s, a))
  {
  }

  lemma DecoderKeepsBuffers(chunk: Range, s: State, a: Action)
    requires Inv(chunk, s) && Enabled(chunk, s, a) && !IsFetching(a)
    ensures BuffersOk(Apply(chunk, s, a))
  {
  }

  lemma FetcherKeepsOrder(chunk: Range, s: State, a: Action)
    requires OrderOk(chunk, s) && Enabled(chunk, s, a) && IsFetching(a)
    ensures OrderOk(chunk, Apply(chunk, s, a))
  {
    var s' := Apply(chunk, s, a);
    if a.Pick? {
      assert !s.decoder.DecodeDone? ==> Way(s') == Way(s) + [s'.fetcher.parcel];
    } else if a.Send? {
      assert !s.decoder.DecodeDone? ==> Way(s') == Way(s);
    } else {
      assert Way(s') <= Way(s);
    }
  }

  lemma DecoderKeepsOrder(chunk: Range, s: State, a: Action)
    requires OrderOk(chunk, s) && Enabled(chunk, s, a) && !IsFetching(a)
    ensures OrderOk(chunk, Apply(chunk, s, a))
  {
    var s' := Apply(chunk, s, a);
    if a.Load? {
      assert Way(s)[0] == s.decoder.parcel;
      if a.ok { assert Way(s') == Way(s)[1..]; }
    } else if a.Receive? {
      assert Way(s') == Way(s);
    } else {
      assert Way(s') <= Way(s);
    }
  }

  ghost predicate IsRun(chunk: Range, ss: seq<State>, actions: seq<Action>) {
    && |ss| == |actions| + 1 && ss[0] == Init(chunk)
    && forall i | 0 <= i < |actions| ::
         Enabled(chunk, ss[i], actions[i]) && ss[i + 1] == Apply(chunk, ss[i], actions[i])
  }

  lemma {:induction false} RunKeepsInv(chunk: Range, ss: seq<State>, actions: seq<Action>, n: nat)
    requires IsRun(chunk, ss, actions) && n < |ss|
    ensures Inv(chunk, ss[n])
  {
    if n == 0 {
      InitHolds(chunk);
    } else {
      RunKeepsInv(chunk, ss, actions, n - 1);
      var a := actions[n - 1];
      if IsFetching(a) {
        FetcherKeepsBuffers(chunk, ss[n - 1], a);
        FetcherKeepsOrder(chunk, ss[n - 1], a);
      } else {
        DecoderKeepsBuffers(chunk, ss[n - 1], a);
        DecoderKeepsOrder(chunk, ss[n - 1], a);
      }
    }
  }

  /** Over a whole run at most `PREFETCH_DEPTH + 2` buffers are ever allocated, and a buffer on its way back
      always finds room. */
  lemma BuffersAreBounded(chunk: Range, ss: seq<State>, actions: seq<Action>, n: nat)
    requires IsRun(chunk, ss, actions) && n < |ss|
    ensures ss[n].made <= PREFETCH_DEPTH + 2 && ss[n].lost == 0
    ensures ss[n].decoder.Loading? && !ss[n].fetcher.FetchDone? ==> |ss[n].recycle| < RECYCLE_CAPACITY
  {
    RunKeepsInv(chunk, ss, actions, n);
  }

  /** Buckets are decoded in order from the first, without gaps; when the channel runs dry after a clean
      fetch, all of them have been. */
  lemma BucketsInOrder(chunk: Range, ss: seq<State>, actions: seq<Action>, n: nat)
    requires IsRun(chunk, ss, actions) && n < |ss|
    ensures ss[n].decoded == Numbers(chunk.lo, |ss[n].decoded|) && chunk.lo + |ss[n].decoded| <= Max(chunk.lo, chunk.hi)
    ensures ss[n].decoder == DecodeDone(Drained(true)) ==>
              ss[n].decoded == Numbers(chunk.lo, SatSub(chunk.hi, chunk.lo))
  {
    RunKeepsInv(chunk, ss, actions, n);
  }

  /** Until both sides are done, one of them can move: the two bounded channels never block each other. */
  lemma NeverStuck(chunk: Range, ss: seq<State>, actions: seq<Action>, n: nat) returns (a: Action)
    requires IsRun(chunk, ss, actions) && n < |ss|
    requires !ss[n].fetcher.FetchDone? || !ss[n].decoder.DecodeDone?
    ensures Enabled(chunk, ss[n], a)
  {
    var s := ss[n];
    match s.decoder
    case Loading(_) => a := Load(true);
    case Decoding => a := FinishBucket;
    case _ =>
      match s.fetcher {
        case Picking => a := if s.next < chunk.hi then Pick else FinishFetching;
        case Filling(_) => a := Fill(true);
        case Sending(_) => a := if s.decoder.DecodeDone? || |s.queue| < PREFETCH_DEPTH then Send else Receive;
        case FetchDone(_) => a := if s.queue == [] then Hangup else Receive;
      }
  }

  /** How a decoder that found its channel dry ends agrees with how the fetcher ended. */
  ghost predicate EndsAgree(s: State) {
    s.decoder.DecodeDone? && s.decoder.ending.Drained? ==> s.fetcher == FetchDone(s.decoder.ending.ok)
  }

  lemma {:induction false} DrainedAsFetched(chunk: Range, ss: seq<State>, actions: seq<Action>, n: nat)
    requires IsRun(chunk, ss, actions) && n < |ss|
    ensures EndsAgree(ss[n])
  {
    if n > 0 { DrainedAsFetched(chunk, ss, actions, n - 1); }
  }

  /** Every end is reported for what it is, and any bucket can fail to be fetched or loaded. A fetcher whose decoder has
      gone stops without an error. */
  lemma EndsAreReported(chunk: Range, s: State, a: Action)
    requires Enabled(chunk, s, a)
    ensures var s' := Apply(chunk, s, a);
      && (a == Load(false) ==> s'.decoder == DecodeDone(Broken))
      && (a == StopEarly ==> s'.decoder == DecodeDone(Passed))
      && (a == Hangup ==> s'.decoder == DecodeDone(Drained(s.fetcher.ok)))
      && (a == Fill(false) ==> s'.fetcher == FetchDone(false))
      && (a == FinishFetching || (a == Send && s.decoder.DecodeDone?) ==> s'.fetcher == FetchDone(true))
    ensures a.Fill? ==> Enabled(chunk, s, Fill(true)) && Enabled(chunk, s, Fill(false))
    ensures a.Load? ==> Enabled(chunk, s, Load(true)) && Enabled(chunk, s, Load(false))
    ensures s.decoder.Decoding? ==> Enabled(chunk, s, StopEarly) && Enabled(chunk, s, FinishBucket)
  {
  }
}
