/** The parent-hash chain of a pass, and what a restart in the middle of an epoch does to it. */
module HashChain {
  import opened Slots
  import opened Worker

  type Hash = nat
  const DEFAULT_HASH: Hash := 0

  /** A block of the archive and the hashes of its entries, in order. */
  datatype Block = Block(slot: nat, entries: seq<Hash>)

  /** What `on_block` is told about a block. */
  datatype Emitted = Emitted(slot: nat, parent: Hash, blockhash: Hash)

  /** `previous_blockhash`, `latest_entry_blockhash`, the counted cursor, the emission gate
      (`last_emitted_slot`), and the blocks emitted. */
  datatype Chain = Chain(previous: Hash, latest: Hash, lastCounted: nat, gate: nat, out: seq<Emitted>)

  function LatestAfter(latest: Hash, b: Block): Hash {
    if b.entries == [] then latest else b.entries[|b.entries| - 1]
  }

  /** One block of the stream. Blocks below the range only prime the chain; blocks at or below the
      counted cursor are duplicates; the rest move the chain on, and those above the gate are emitted. The skipped
      slots reported before a block raise the gate too, but never up to the block. */
  function Take(rangeStart: nat, ch: Chain, b: Block): Chain {
    if b.slot < rangeStart then
      if b.entries == [] then ch
      else ch.(previous := LatestAfter(ch.latest, b), latest := LatestAfter(ch.latest, b))
    else
      var latest := LatestAfter(ch.latest, b);
      if b.slot <= ch.lastCounted then ch.(latest := latest)
      else if b.slot <= ch.gate then Chain(latest, latest, b.slot, ch.gate, ch.out)
      else Chain(latest, latest, b.slot, b.slot, ch.out + [Emitted(b.slot, ch.previous, latest)])
  }

  function Run(rangeStart: nat, ch: Chain, blocks: seq<Block>): Chain
    decreases |blocks|
  {
    if blocks == [] then ch else Run(rangeStart, Take(rangeStart, ch, blocks[0]), blocks[1..])
  }

  /** A fresh pass: the chain starts at the default hash, the cursor just below the slice. */
  function Fresh(localStart: nat, gate: nat): Chain {
    Chain(DEFAULT_HASH, DEFAULT_HASH, SatPred(localStart), gate, [])
  }

  /** The pass as the loop it is. */
  method EmitPass(rangeStart: nat, localStart: nat, gate: nat, blocks: seq<Block>) returns (out: seq<Emitted>)
    ensures out == Run(rangeStart, Fresh(localStart, gate), blocks).out
    ensures out == Above(Run(rangeStart, Fresh(localStart, SatPred(localStart)), blocks).out, gate)
  {
    PassIsFiltered(rangeStart, localStart, gate, blocks);
    var previous, latest, lastCounted, lastEmitted := DEFAULT_HASH, DEFAULT_HASH, SatPred(localStart), gate;
    out := [];
    for i := 0 to |blocks|
      invariant Run(rangeStart, Chain(previous, latest, lastCounted, lastEmitted, out), blocks[i..])
                == Run(rangeStart, Fresh(localStart, gate), blocks)
    {
      var b := blocks[i];
      assert blocks[i..][1..] == blocks[i + 1..];
      if b.slot < rangeStart {
        if b.entries != [] {
          latest := b.entries[|b.entries| - 1];
          previous := latest;
        }
      } else {
        if b.entries != [] { latest := b.entries[|b.entries| - 1]; }
        if b.slot > lastCounted {
          if b.slot > lastEmitted {
            lastEmitted := b.slot;
            out := out + [Emitted(b.slot, previous, latest)];
          }
          previous := latest;
          lastCounted := b.slot;
        }
      }
    }
  }

  // ---------------------------------------------------------------------------------------------
  // The gate.

  /** What the gate lets through. */
  function Above(out: seq<Emitted>, gate: nat): seq<Emitted>
    decreases |out|
  {
    if out == [] then []
    else Above(out[..|out| - 1], gate) + (if out[|out| - 1].slot > gate then [out[|out| - 1]] else [])
  }

  /** A chain behind the gate `g` against the same chain with an open gate. */
  ghost predicate Gated(g: nat, shut: Chain, wide: Chain) {
    && shut.previous == wide.previous && shut.latest == wide.latest && shut.lastCounted == wide.lastCounted
    && wide.gate <= wide.lastCounted
    && g <= shut.gate <= Max(g, wide.lastCounted)
    && shut.out == Above(wide.out, g)
  }

  lemma TakeKeepsGated(rangeStart: nat, g: nat, shut: Chain, wide: Chain, b: Block)
    requires Gated(g, shut, wide)
    ensures Gated(g, Take(rangeStart, shut, b), Take(rangeStart, wide, b))
  {
    var out' := wide.out + [Emitted(b.slot, wide.previous, LatestAfter(wide.latest, b))];
    assert out'[..|out'| - 1] == wide.out;
    assert Above(wide.out, g) + [] == Above(wide.out, g);
  }

  lemma {:induction false} RunKeepsGated(rangeStart: nat, g: nat, shut: Chain, wide: Chain, blocks: seq<Block>)
    requires Gated(g, shut, wide)
    ensures Gated(g, Run(rangeStart, shut, blocks), Run(rangeStart, wide, blocks))
    decreases |blocks|
  {
    if blocks != [] {
      TakeKeepsGated(rangeStart, g, shut, wide, blocks[0]);
      RunKeepsGated(rangeStart, g, Take(rangeStart, shut, blocks[0]), Take(rangeStart, wide, blocks[0]), blocks[1..]);
    }
  }

  /** Behind any gate a pass emits exactly the blocks above it, with the parents and hashes they have when
      nothing is held back. */
  lemma PassIsFiltered(rangeStart: nat, localStart: nat, gate: nat, blocks: seq<Block>)
    ensures Run(rangeStart, Fresh(localStart, gate), blocks).out
         == Above(Run(rangeStart, Fresh(localStart, SatPred(localStart)), blocks).out, gate)
  {
    RunKeepsGated(rangeStart, gate, Fresh(localStart, gate), Fresh(localStart, SatPred(localStart)), blocks);
  }

  lemma {:induction false} AboveSplit(a: seq<Emitted>, b: seq<Emitted>, gate: nat)
    ensures Above(a + b, gate) == Above(a, gate) + Above(b, gate)
    decreases |b|
  {
    if b == [] {
      assert a + b == a && Above(a, gate) + [] == Above(a, gate);
    } else {
      var front, last := b[..|b| - 1], b[|b| - 1];
      AboveSplit(a, front, gate);
      assert (a + b)[..|a + b| - 1] == a + front && (a + b)[|a + b| - 1] == last;
    }
  }

  lemma {:induction false} AboveNone(out: seq<Emitted>, gate: nat)
    requires forall i | 0 <= i < |out| :: out[i].slot <= gate
    ensures Above(out, gate) == []
    decreases |out|
  {
    if out != [] { AboveNone(out[..|out| - 1], gate); }
  }

  lemma {:induction false} AboveAll(out: seq<Emitted>, gate: nat)
    requires forall i | 0 <= i < |out| :: out[i].slot > gate
    ensures Above(out, gate) == out
    decreases |out|
  {
    if out != [] {
      var front, last := out[..|out| - 1], out[|out| - 1];
      AboveAll(front, gate);
      assert Above(out, gate) == Above(front, gate) + [last];
      assert out == front + [last];
    }
  }

  /** The gate cuts a beginning off an ascending list. */
  lemma AboveIsRest(out: seq<Emitted>, gate: nat, m: nat)
    requires m <= |out|
    requires forall i | 0 <= i < |out| :: out[i].slot > gate <==> m <= i
    ensures Above(out, gate) == out[m..]
  {
    AboveSplit(out[..m], out[m..], gate);
    AboveNone(out[..m], gate);
    AboveAll(out[m..], gate);
    assert out == out[..m] + out[m..];
  }

  // ---------------------------------------------------------------------------------------------
  // The chain.

  ghost predicate Ascending(blocks: seq<Block>) {
    forall i, j | 0 <= i < j < |blocks| :: blocks[i].slot < blocks[j].slot
  }

  /** The hash of the last entry in `blocks`, or the default when there is none. */
  function LastHash(blocks: seq<Block>, default: Hash): Hash
    decreases |blocks|
  {
    if blocks == [] then default else LastHash(blocks[1..], LatestAfter(default, blocks[0]))
  }

  /** What emitting `blocks` one after the other means, without any state: each block's hash is the last
      entry hash so far, and its parent is that of the block before. */
  function Linked(h: Hash, blocks: seq<Block>): (r: seq<Emitted>)
    ensures |r| == |blocks|
    decreases |blocks|
  {
    if blocks == [] then []
    else [Emitted(blocks[0].slot, h, LatestAfter(h, blocks[0]))] + Linked(LatestAfter(h, blocks[0]), blocks[1..])
  }

  lemma AscendingFrom(blocks: seq<Block>, k: nat)
    requires Ascending(blocks) && k <= |blocks|
    ensures Ascending(blocks[k..])
  {
  }

  /** A block above cursor and gate is emitted with the hash before it as its parent. */
  lemma RunStep(rangeStart: nat, h: Hash, lastCounted: nat, gate: nat, out: seq<Emitted>, blocks: seq<Block>)
    requires blocks != [] && rangeStart <= blocks[0].slot && gate <= lastCounted < blocks[0].slot
    ensures var b := blocks[0]; var h' := LatestAfter(h, b);
            Run(rangeStart, Chain(h, h, lastCounted, gate, out), blocks)
            == Run(rangeStart, Chain(h', h', b.slot, b.slot, out + [Emitted(b.slot, h, h')]), blocks[1..])
  {
  }

  lemma Associate(a: seq<Emitted>, e: Emitted, b: seq<Emitted>)
    ensures (a + [e]) + b == a + ([e] + b)
  {
  }

  /** Once primed, with an open gate, a pass over blocks above its cursor emits exactly the linked chain. */
  lemma {:induction false} RunLinks(rangeStart: nat, h: Hash, lastCounted: nat, gate: nat, out: seq<Emitted>,
                                    blocks: seq<Block>)
    requires Ascending(blocks) && gate <= lastCounted
    requires blocks != [] ==> rangeStart <= blocks[0].slot && (lastCounted < blocks[0].slot)
    ensures Run(rangeStart, Chain(h, h, lastCounted, gate, out), blocks).out == out + Linked(h, blocks)
    decreases |blocks|
  {
    if blocks == [] {
      assert out + Linked(h, blocks) == out;
    } else {
      var b := blocks[0];
      var h' := LatestAfter(h, b);
      AscendingFrom(blocks, 1);
      RunStep(rangeStart, h, lastCounted, gate, out, blocks);
      RunLinks(rangeStart, h', b.slot, b.slot, out + [Emitted(b.slot, h, h')], blocks[1..]);
      Associate(out, Emitted(b.slot, h, h'), Linked(h', blocks[1..]));
    }
  }

  lemma {:induction false} LinkedSlots(h: Hash, blocks: seq<Block>)
    ensures forall i | 0 <= i < |blocks| :: Linked(h, blocks)[i].slot == blocks[i].slot
    decreases |blocks|
  {
    if blocks != [] {
      var h' := LatestAfter(h, blocks[0]);
      LinkedSlots(h', blocks[1..]);
      forall i | 0 < i < |blocks| ensures Linked(h, blocks)[i].slot == blocks[i].slot {
        assert Linked(h, blocks)[i] == Linked(h', blocks[1..])[i - 1];
      }
    }
  }

  lemma {:induction false} LinkedSplit(h: Hash, a: seq<Block>, b: seq<Block>)
    ensures Linked(h, a + b) == Linked(h, a) + Linked(LastHash(a, h), b)
    decreases |a|
  {
    if a == [] {
      assert a + b == b;
    } else {
      assert (a + b)[1..] == a[1..] + b;
      LinkedSplit(LatestAfter(h, a[0]), a[1..], b);
    }
  }

  /** How many blocks come before slot `from`: where a seek to `from` enters the stream. */
  function Below(blocks: seq<Block>, from: nat): (k: nat)
    ensures k <= |blocks|
    ensures forall i | 0 <= i < k :: blocks[i].slot < from
    ensures k < |blocks| ==> from <= blocks[k].slot
  {
    if blocks == [] || from <= blocks[0].slot then 0 else 1 + Below(blocks[1..], from)
  }

  lemma BelowSplits(blocks: seq<Block>, at: nat, i: nat)
    requires Ascending(blocks) && i < |blocks|
    ensures blocks[i].slot < at <==> i < Below(blocks, at)
  {
    var k := Below(blocks, at);
    if k < i { assert blocks[k].slot < blocks[i].slot; }
  }

  function PresentSlots(blocks: seq<Block>): set<nat> { set i | 0 <= i < |blocks| :: blocks[i].slot }

  /** The blocks of one epoch, in order. Slot 0 is left out: its block is never emitted. */
  ghost predicate EpochBlocks(epochStart: nat, blocks: seq<Block>) {
    Ascending(blocks) && (blocks != [] ==> epochStart <= blocks[0].slot && 0 < blocks[0].slot)
  }

  /** What an uninterrupted pass over the epoch emits. */
  function Whole(epochStart: nat, blocks: seq<Block>): seq<Emitted> {
    Run(epochStart, Fresh(epochStart, SatPred(epochStart)), blocks).out
  }

  /** What a pass restarted at `start` behind `gate` emits, in a worker whose range begins at `rangeStart`. */
  function Resumed(epochStart: nat, rangeStart: nat, start: nat, gate: nat, blocks: seq<Block>): seq<Emitted> {
    var target := SeekTarget(PresentSlots(blocks), epochStart, start);
    Run(rangeStart, Fresh(start, gate), blocks[Below(blocks, target)..]).out
  }

  lemma WholeIsLinked(epochStart: nat, blocks: seq<Block>)
    requires EpochBlocks(epochStart, blocks)
    ensures Whole(epochStart, blocks) == Linked(DEFAULT_HASH, blocks)
  {
    RunLinks(epochStart, DEFAULT_HASH, SatPred(epochStart), SatPred(epochStart), [], blocks);
  }

  /** The part of the uninterrupted output from `start` on. */
  lemma WholeFrom(epochStart: nat, start: nat, blocks: seq<Block>)
    requires EpochBlocks(epochStart, blocks)
    ensures var k := Below(blocks, start);
            |Whole(epochStart, blocks)| == |blocks|
            && Whole(epochStart, blocks)[k..] == Linked(LastHash(blocks[..k], DEFAULT_HASH), blocks[k..])
  {
    var k := Below(blocks, start);
    WholeIsLinked(epochStart, blocks);
    LinkedSplit(DEFAULT_HASH, blocks[..k], blocks[k..]);
    assert blocks == blocks[..k] + blocks[k..];
  }

  /** The block just before `start` is within reach of the index probe. */
  predicate Primed(start: nat, blocks: seq<Block>) {
    var k := Below(blocks, start);
    0 < k && start <= blocks[k - 1].slot + PRIMING_WINDOW
  }

  /** The seek lands on the block before `start` when the probe reaches it, else on `start`. */
  lemma SeekEntersOneEarly(epochStart: nat, start: nat, blocks: seq<Block>)
    requires EpochBlocks(epochStart, blocks)
    ensures var target := SeekTarget(PresentSlots(blocks), epochStart, start);
            var k := Below(blocks, start);
            if Primed(start, blocks) then target == blocks[k - 1].slot && Below(blocks, target) == k - 1
            else target == start
  {
    var k := Below(blocks, start);
    var present := PresentSlots(blocks);
    var prev := PrevPresent(present, epochStart, start, PRIMING_WINDOW);
    if Primed(start, blocks) {
      var s := blocks[k - 1].slot;
      assert s in present;
      assert epochStart <= s;
      assert prev.Some?;
      var i :| 0 <= i < |blocks| && blocks[i].slot == prev.value;
      assert s <= prev.value < start;
      assert i == k - 1;
      var m := Below(blocks, s);
      assert m <= k - 1;
      assert m == k - 1;
    } else {
      assert forall i | 0 <= i < k :: blocks[i].slot <= blocks[k - 1].slot;
      assert forall s: nat | s in present && s < start :: s + PRIMING_WINDOW < start;
    }
  }

  /** The hash the priming block leaves behind. */
  function PrimedHash(start: nat, blocks: seq<Block>): Hash {
    if Primed(start, blocks) then LatestAfter(DEFAULT_HASH, blocks[Below(blocks, start) - 1]) else DEFAULT_HASH
  }

  /** The chain a restarted pass has when it reaches `start`: the priming block sets the parent only
      when it lies below the worker's range. */
  function AtStart(rangeStart: nat, start: nat, blocks: seq<Block>): Chain
    requires 0 < start
  {
    var x := PrimedHash(start, blocks);
    var above := Primed(start, blocks) && rangeStart <= blocks[Below(blocks, start) - 1].slot;
    Chain(if above then DEFAULT_HASH else x, x, start - 1, start - 1, [])
  }

  /** With an open gate the restarted pass goes on from `start` with that chain. */
  lemma ResumedFromStart(epochStart: nat, rangeStart: nat, start: nat, blocks: seq<Block>)
    requires EpochBlocks(epochStart, blocks) && 0 < start
    ensures Resumed(epochStart, rangeStart, start, start - 1, blocks)
            == Run(rangeStart, AtStart(rangeStart, start, blocks), blocks[Below(blocks, start)..]).out
  {
    SeekEntersOneEarly(epochStart, start, blocks);
    if Primed(start, blocks) {
      var k := Below(blocks, start);
      assert blocks[k - 1..][1..] == blocks[k..];
    }
  }

  /** The hash left by the blocks before the last one reaches the end unless the last one has entries. */
  lemma {:induction false} LastHashStep(blocks: seq<Block>, h: Hash)
    requires blocks != []
    ensures LastHash(blocks, h) == LatestAfter(LastHash(blocks[..|blocks| - 1], h), blocks[|blocks| - 1])
    decreases |blocks|
  {
    var h' := LatestAfter(h, blocks[0]);
    if |blocks| == 1 {
      assert LastHash(blocks, h) == LastHash([], h');
    } else {
      LastHashStep(blocks[1..], h');
      assert blocks[..|blocks| - 1][1..] == blocks[1..][..|blocks| - 2];
    }
  }

  /** When the chain has the true parent at `start`, its latest entry hash is the true one too. */
  lemma ParentFixesLatest(rangeStart: nat, start: nat, blocks: seq<Block>)
    requires 0 < start
    requires AtStart(rangeStart, start, blocks).previous == LastHash(blocks[..Below(blocks, start)], DEFAULT_HASH)
    ensures AtStart(rangeStart, start, blocks).latest == AtStart(rangeStart, start, blocks).previous
  {
    var k := Below(blocks, start);
    if Primed(start, blocks) {
      LastHashStep(blocks[..k], DEFAULT_HASH);
      assert blocks[..k][..k - 1] == blocks[..k - 1];
    }
  }

  /** Emitted are the blocks from the `k`-th on. */
  ghost predicate SlotsFrom(out: seq<Emitted>, blocks: seq<Block>, k: nat) {
    && k <= |blocks| && |out| == |blocks| - k
    && forall i | 0 <= i < |out| :: out[i].slot == blocks[k + i].slot
  }

  /** Of the blocks from the `k`-th on, those from the `j`-th on lie above the gate. */
  ghost predicate CutAt(blocks: seq<Block>, gate: nat, k: nat, j: nat) {
    k <= j <= |blocks| && forall i | k <= i < |blocks| :: blocks[i].slot > gate <==> j <= i
  }

  lemma GatedFrom(blocks: seq<Block>, start: nat, gate: nat)
    requires Ascending(blocks)
    ensures CutAt(blocks, gate, Below(blocks, start), Below(blocks, Max(start, gate + 1)))
  {
    var k, j := Below(blocks, start), Below(blocks, Max(start, gate + 1));
    forall i | k <= i < |blocks| ensures blocks[i].slot > gate <==> j <= i {
      BelowSplits(blocks, start, i);
      BelowSplits(blocks, Max(start, gate + 1), i);
    }
  }

  lemma AboveIsFrom(out: seq<Emitted>, blocks: seq<Block>, gate: nat, k: nat, j: nat)
    requires SlotsFrom(out, blocks, k) && CutAt(blocks, gate, k, j)
    ensures Above(out, gate) == out[j - k..] && SlotsFrom(Above(out, gate), blocks, j)
  {
    AboveIsRest(out, gate, j - k);
  }

  /** The gate leaves the blocks from the later of `start` and the gate on. */
  lemma FilteredFrom(wide: seq<Emitted>, out: seq<Emitted>, blocks: seq<Block>, start: nat, gate: nat)
    requires Ascending(blocks) && SlotsFrom(wide, blocks, Below(blocks, start)) && out == Above(wide, gate)
    ensures Filtered(wide, out, blocks, gate, Below(blocks, start), Below(blocks, Max(start, gate + 1)))
  {
    GatedFrom(blocks, start, gate);
    AboveIsFrom(wide, blocks, gate, Below(blocks, start), Below(blocks, Max(start, gate + 1)));
  }

  /** `wide` are the blocks from the `k`-th on, and `out` those of them above the gate. */
  ghost predicate Filtered(wide: seq<Emitted>, out: seq<Emitted>, blocks: seq<Block>, gate: nat, k: nat, j: nat) {
    && CutAt(blocks, gate, k, j) && SlotsFrom(wide, blocks, k)
    && SlotsFrom(out, blocks, j) && out == wide[j - k..]
  }

  /** Behind an open gate every block above the cursor is emitted, the first with whatever parent the chain
      had. */
  lemma AllEmitted(rangeStart: nat, ch: Chain, blocks: seq<Block>)
    requires Ascending(blocks) && ch.out == [] && ch.gate <= ch.lastCounted
    requires blocks != [] ==> rangeStart <= blocks[0].slot && ch.lastCounted < blocks[0].slot
    ensures var out := Run(rangeStart, ch, blocks).out;
            SlotsFrom(out, blocks, 0) && (blocks != [] ==> out[0].parent == ch.previous)
  {
    if blocks != [] {
      var b := blocks[0];
      var h := LatestAfter(ch.latest, b);
      var first := Emitted(b.slot, ch.previous, h);
      AscendingFrom(blocks, 1);
      assert ch.out + [first] == [first];
      RunLinks(rangeStart, h, b.slot, b.slot, [first], blocks[1..]);
      LinkedSlots(h, blocks[1..]);
    }
  }

  lemma SlotsOfRest(out: seq<Emitted>, blocks: seq<Block>, k: nat)
    requires k <= |blocks| && SlotsFrom(out, blocks[k..], 0)
    ensures SlotsFrom(out, blocks, k)
  {
  }

  /** What the restarted pass emits with an open gate. */
  lemma OpenRestart(epochStart: nat, rangeStart: nat, start: nat, blocks: seq<Block>)
    requires EpochBlocks(epochStart, blocks) && 0 < start && rangeStart <= start
    ensures var k, out := Below(blocks, start), Resumed(epochStart, rangeStart, start, start - 1, blocks);
            && SlotsFrom(out, blocks, k)
            && (k < |blocks| ==> out[0].parent == AtStart(rangeStart, start, blocks).previous)
  {
    var k := Below(blocks, start);
    ResumedFromStart(epochStart, rangeStart, start, blocks);
    AscendingFrom(blocks, k);
    AllEmitted(rangeStart, AtStart(rangeStart, start, blocks), blocks[k..]);
    SlotsOfRest(Resumed(epochStart, rangeStart, start, start - 1, blocks), blocks, k);
  }

  lemma ResumedIsFiltered(epochStart: nat, rangeStart: nat, start: nat, gate: nat, blocks: seq<Block>)
    requires 0 < start
    ensures Resumed(epochStart, rangeStart, start, gate, blocks)
         == Above(Resumed(epochStart, rangeStart, start, start - 1, blocks), gate)
  {
    var target := SeekTarget(PresentSlots(blocks), epochStart, start);
    PassIsFiltered(rangeStart, start, gate, blocks[Below(blocks, target)..]);
  }

  /** A restarted pass emits exactly the blocks from `start` on that lie above its gate, each as with an open
      gate. The others are counted and dropped. */
  lemma RestartEmitsAboveGate(epochStart: nat, rangeStart: nat, start: nat, gate: nat, blocks: seq<Block>)
    requires EpochBlocks(epochStart, blocks) && 0 < start && rangeStart <= start
    ensures Filtered(Resumed(epochStart, rangeStart, start, start - 1, blocks),
                     Resumed(epochStart, rangeStart, start, gate, blocks),
                     blocks, gate, Below(blocks, start), Below(blocks, Max(start, gate + 1)))
  {
    OpenRestart(epochStart, rangeStart, start, blocks);
    ResumedIsFiltered(epochStart, rangeStart, start, gate, blocks);
    FilteredFrom(Resumed(epochStart, rangeStart, start, start - 1, blocks),
                 Resumed(epochStart, rangeStart, start, gate, blocks), blocks, start, gate);
  }

  /** Without a gate in the way: the restart repeats the uninterrupted pass exactly when nothing is left to
      emit or the chain reaches `start` with the true parent hash. */
  lemma OpenRestartKeepsChainIff(epochStart: nat, rangeStart: nat, start: nat, blocks: seq<Block>)
    requires EpochBlocks(epochStart, blocks) && 0 < start && rangeStart <= start
    ensures var k := Below(blocks, start);
            |Whole(epochStart, blocks)| == |blocks|
            && (Resumed(epochStart, rangeStart, start, start - 1, blocks) == Whole(epochStart, blocks)[k..]
                <==> k == |blocks|
                     || AtStart(rangeStart, start, blocks).previous == LastHash(blocks[..k], DEFAULT_HASH))
  {
    var k := Below(blocks, start);
    var ch, h := AtStart(rangeStart, start, blocks), LastHash(blocks[..k], DEFAULT_HASH);
    WholeFrom(epochStart, start, blocks);
    OpenRestart(epochStart, rangeStart, start, blocks);
    if k < |blocks| {
      assert Linked(h, blocks[k..])[0].parent == h;
      if ch.previous == h {
        ResumedFromStart(epochStart, rangeStart, start, blocks);
        AscendingFrom(blocks, k);
        ParentFixesLatest(rangeStart, start, blocks);
        RunLinks(rangeStart, h, start - 1, start - 1, [], blocks[k..]);
      }
    }
  }

  /** A restarted pass repeats the uninterrupted pass from `start` on, parents and hashes included, exactly
      when nothing is left to emit, or the gate lies below the first block left and the chain reaches `start`
      with the true parent hash. */
  lemma RestartKeepsChainIff(epochStart: nat, rangeStart: nat, start: nat, gate: nat, blocks: seq<Block>)
    requires EpochBlocks(epochStart, blocks) && 0 < start && rangeStart <= start
    ensures var k := Below(blocks, start);
            |Whole(epochStart, blocks)| == |blocks|
            && (Resumed(epochStart, rangeStart, start, gate, blocks) == Whole(epochStart, blocks)[k..]
                <==> k == |blocks|
                     || (gate < blocks[k].slot
                         && AtStart(rangeStart, start, blocks).previous == LastHash(blocks[..k], DEFAULT_HASH)))
  {
    OpenRestartKeepsChainIff(epochStart, rangeStart, start, blocks);
    RestartEmitsAboveGate(epochStart, rangeStart, start, gate, blocks);
  }

  // ---------------------------------------------------------------------------------------------
  // Forward.

  /** A forward restart begins its range at `start`, and its gate is one below the start of the worker's first
      range, `first`. It keeps the chain exactly when nothing is left to emit, or no block left lies below
      `first` and the priming block leaves the true parent. */
  lemma ForwardRestartKeepsChainIff(epochStart: nat, start: nat, first: nat, blocks: seq<Block>)
    requires EpochBlocks(epochStart, blocks) && 0 < start
    ensures var k := Below(blocks, start);
            |Whole(epochStart, blocks)| == |blocks|
            && (Resumed(epochStart, start, start, SatPred(first), blocks) == Whole(epochStart, blocks)[k..]
                <==> k == |blocks|
                     || (first <= blocks[k].slot && PrimedHash(start, blocks) == LastHash(blocks[..k], DEFAULT_HASH)))
  {
    RestartKeepsChainIff(epochStart, start, start, SatPred(first), blocks);
  }

  /** A block from `start` on lies below `first`. */
  ghost predicate LeftBelow(blocks: seq<Block>, start: nat, first: nat) {
    exists i :: 0 <= i < |blocks| && start <= blocks[i].slot < first
  }

  lemma LeftBelowIff(blocks: seq<Block>, start: nat, first: nat)
    requires Ascending(blocks) && 0 < start
    ensures LeftBelow(blocks, start, first) <==> Below(blocks, start) < Below(blocks, Max(start, SatPred(first) + 1))
  {
    GatedFrom(blocks, start, SatPred(first));
    if LeftBelow(blocks, start, first) {
      var i :| 0 <= i < |blocks| && start <= blocks[i].slot < first;
      BelowSplits(blocks, start, i);
    }
  }

  /** It drops a block, which is counted all the same, exactly when a block left lies below `first`. */
  lemma ForwardRestartDropsIff(epochStart: nat, start: nat, first: nat, blocks: seq<Block>)
    requires EpochBlocks(epochStart, blocks) && 0 < start
    ensures |Resumed(epochStart, start, start, SatPred(first), blocks)| < |blocks| - Below(blocks, start)
       <==> LeftBelow(blocks, start, first)
  {
    RestartEmitsAboveGate(epochStart, start, start, SatPred(first), blocks);
    LeftBelowIff(blocks, start, first);
  }

  /** A worker whose first range was `[100, 200)` has adopted `[50, 100)` and failed once: its restarted pass
      counts the block of slot 60 and emits nothing. */
  lemma AdoptedBlockIsDropped()
    ensures var blocks := [Block(60, [7])];
            && Resumed(0, 50, 50, SatPred(100), blocks) == []
            && Whole(0, blocks)[Below(blocks, 50)..] == [Emitted(60, DEFAULT_HASH, 7)]
  {
    var blocks := [Block(60, [7])];
    RestartEmitsAboveGate(0, 50, 50, 99, blocks);
    WholeFrom(0, 50, blocks);
    assert Below(blocks, 100) == 1 && Below(blocks, 50) == 0;
    assert blocks[..0] == [] && blocks[0..] == blocks;
    assert Linked(DEFAULT_HASH, blocks) == [Emitted(60, DEFAULT_HASH, 7)] + Linked(7, []);
  }

  /** Every block has an entry, and the last one is not the default hash. */
  ghost predicate WellHashed(blocks: seq<Block>) {
    forall i | 0 <= i < |blocks| :: blocks[i].entries != [] && LatestAfter(DEFAULT_HASH, blocks[i]) != DEFAULT_HASH
  }

  lemma {:induction false} LastHashOf(blocks: seq<Block>, h: Hash)
    requires blocks != [] && forall i | 0 <= i < |blocks| :: blocks[i].entries != []
    ensures LastHash(blocks, h) == LatestAfter(DEFAULT_HASH, blocks[|blocks| - 1])
    decreases |blocks|
  {
    var h' := LatestAfter(h, blocks[0]);
    if |blocks| == 1 {
      assert LastHash(blocks, h) == LastHash([], h');
    } else {
      LastHashOf(blocks[1..], h');
    }
  }

  /** On an archive whose blocks all carry proper hashes, the chain survives a restart exactly when `start` is
      after the epoch's last block, or no block left lies below `first` and `start` is at or before the epoch's
      first block or within the index probe of 64 slots of the block before it. */
  lemma RestartKeepsChainWithin64(epochStart: nat, start: nat, first: nat, blocks: seq<Block>)
    requires EpochBlocks(epochStart, blocks) && 0 < start && WellHashed(blocks)
    ensures var k := Below(blocks, start);
            |Whole(epochStart, blocks)| == |blocks|
            && (Resumed(epochStart, start, start, SatPred(first), blocks) == Whole(epochStart, blocks)[k..]
                <==> k == |blocks| || (first <= blocks[k].slot && (k == 0 || start <= blocks[k - 1].slot + 64)))
  {
    var k := Below(blocks, start);
    ForwardRestartKeepsChainIff(epochStart, start, first, blocks);
    if 0 < k {
      LastHashOf(blocks[..k], DEFAULT_HASH);
    }
  }

  // ---------------------------------------------------------------------------------------------
  // Reverse.

  /** The priming block lies inside the worker's range and takes the duplicate path. */
  predicate PrimedInside(rangeStart: nat, start: nat, blocks: seq<Block>) {
    Primed(start, blocks) && rangeStart <= blocks[Below(blocks, start) - 1].slot
  }

  /** In reverse mode the gate is reset for each epoch, and the range usually begins below the block a restart
      primes with. That block then takes the duplicate path and sets no parent. So the chain is kept exactly
      when nothing is left to emit, or the true parent is what is left: the default hash when the priming
      block is inside the range, else what it leaves. */
  lemma ReverseRestartKeepsChainIff(epochStart: nat, rangeStart: nat, start: nat, blocks: seq<Block>)
    requires EpochBlocks(epochStart, blocks) && 0 < start && rangeStart <= start
    ensures var k := Below(blocks, start);
            && |Whole(epochStart, blocks)| == |blocks|
            && (Resumed(epochStart, rangeStart, start, start - 1, blocks) == Whole(epochStart, blocks)[k..]
                <==> k == |blocks|
                     || LastHash(blocks[..k], DEFAULT_HASH)
                        == if PrimedInside(rangeStart, start, blocks) then DEFAULT_HASH else PrimedHash(start, blocks))
  {
    OpenRestartKeepsChainIff(epochStart, rangeStart, start, blocks);
  }

  /** On an archive whose blocks all carry proper hashes that is when `start` is at or before the epoch's first
      block, after its last, or the priming block is within the probe and lies below the range. */
  lemma ReverseRestartKeepsChainWithin64(epochStart: nat, rangeStart: nat, start: nat, blocks: seq<Block>)
    requires EpochBlocks(epochStart, blocks) && 0 < start && rangeStart <= start && WellHashed(blocks)
    ensures var k := Below(blocks, start);
            && |Whole(epochStart, blocks)| == |blocks|
            && (Resumed(epochStart, rangeStart, start, start - 1, blocks) == Whole(epochStart, blocks)[k..]
                <==> k == 0 || k == |blocks|
                     || (blocks[k - 1].slot < rangeStart && start <= blocks[k - 1].slot + 64))
  {
    var k := Below(blocks, start);
    ReverseRestartKeepsChainIff(epochStart, rangeStart, start, blocks);
    if 0 < k { LastHashOf(blocks[..k], DEFAULT_HASH); }
  }

  /** Whenever the block before `start` is inside the worker's range, the first block emitted after a restart
      carries the default parent. */
  lemma ReverseRestartDropsParent(epochStart: nat, rangeStart: nat, start: nat, blocks: seq<Block>)
    requires EpochBlocks(epochStart, blocks) && 0 < start
    requires 0 < Below(blocks, start) < |blocks| && rangeStart <= blocks[Below(blocks, start) - 1].slot
    ensures var out, k := Resumed(epochStart, rangeStart, start, start - 1, blocks), Below(blocks, start);
            |out| == |blocks| - k && out[0].parent == DEFAULT_HASH && out[0].slot == blocks[k].slot
  {
    OpenRestart(epochStart, rangeStart, start, blocks);
  }

  // ---------------------------------------------------------------------------------------------
  // What the hashes are.

  lemma {:induction false} LinkedAt(h: Hash, blocks: seq<Block>, i: nat)
    requires i < |blocks|
    ensures var out, b := Linked(h, blocks), blocks[i];
      && out[i].slot == b.slot && out[i].parent == (if i == 0 then h else out[i - 1].blockhash)
      && out[i].blockhash == if b.entries == [] then out[i].parent else b.entries[|b.entries| - 1]
    decreases i
  {
    if i > 0 { LinkedAt(LatestAfter(h, blocks[0]), blocks[1..], i - 1); }
  }

  /** An uninterrupted pass emits every block with the hash of its last entry, or, without entries, the hash before
      it; and with the hash of the block before it as its parent. */
  lemma WholeEmits(epochStart: nat, blocks: seq<Block>, i: nat)
    requires EpochBlocks(epochStart, blocks) && i < |blocks|
    ensures |Whole(epochStart, blocks)| == |blocks|
    ensures var out, b := Whole(epochStart, blocks), blocks[i];
      && out[i].slot == b.slot && out[i].parent == (if i == 0 then DEFAULT_HASH else out[i - 1].blockhash)
      && out[i].blockhash == if b.entries == [] then out[i].parent else b.entries[|b.entries| - 1]
  {
    WholeIsLinked(epochStart, blocks);
    LinkedAt(DEFAULT_HASH, blocks, i);
  }
}
