/** The initial split of the requested range over the workers. */
module Subranges {
  import opened Slots

  /** The end points of worker `i`'s sub-range: `slots_per_thread` each, the first `remainder`
      workers take one slot more. */
  function SubrangeStart(lo: nat, hi: nat, threads: nat, i: nat): nat
    requires lo <= hi && threads > 0
  {
    lo + i * ((hi - lo) / threads) + Min(i, (hi - lo) % threads)
  }

  function SubrangeOf(lo: nat, hi: nat, threads: nat, i: nat): Range
    requires lo <= hi && threads > 0
  {
    var extra := if i < (hi - lo) % threads then 1 else 0;
    var start := SubrangeStart(lo, hi, threads, i);
    Range(start, start + (hi - lo) / threads + extra)
  }

  function GenerateSubranges(lo: nat, hi: nat, threads: nat): (r: seq<Range>)
    requires lo <= hi && threads > 0
  {
    seq(threads, i requires 0 <= i => SubrangeOf(lo, hi, threads, i))
  }

  lemma StartStep(lo: nat, hi: nat, threads: nat, i: nat)
    requires lo <= hi && threads > 0
    ensures SubrangeOf(lo, hi, threads, i).hi == SubrangeStart(lo, hi, threads, i + 1)
  {
    assert (i + 1) * ((hi - lo) / threads) == i * ((hi - lo) / threads) + (hi - lo) / threads;
  }

  lemma StartLast(lo: nat, hi: nat, threads: nat)
    requires lo <= hi && threads > 0
    ensures SubrangeStart(lo, hi, threads, threads) == hi
  {
    assert threads * ((hi - lo) / threads) + (hi - lo) % threads == hi - lo;
  }

  lemma ProductMonotone(i: nat, j: nat, q: nat)
    requires i <= j
    ensures i * q <= j * q
  {
    assert j * q == i * q + (j - i) * q;
  }

  lemma StartMonotone(lo: nat, hi: nat, threads: nat, i: nat, j: nat)
    requires lo <= hi && threads > 0 && i <= j
    ensures SubrangeStart(lo, hi, threads, i) <= SubrangeStart(lo, hi, threads, j)
  {
    ProductMonotone(i, j, (hi - lo) / threads);
  }

  lemma SubrangeWithin(lo: nat, hi: nat, threads: nat, i: nat)
    requires lo <= hi && i < threads
    ensures var r := SubrangeOf(lo, hi, threads, i); lo <= r.lo <= r.hi <= hi
  {
    StartStep(lo, hi, threads, i);
    StartLast(lo, hi, threads);
    StartMonotone(lo, hi, threads, 0, i);
    StartMonotone(lo, hi, threads, i, i + 1);
    StartMonotone(lo, hi, threads, i + 1, threads);
  }

  lemma SizesFall(lo: nat, hi: nat, threads: nat, i: nat, j: nat)
    requires lo <= hi && i <= j < threads
    ensures var a, b := SubrangeOf(lo, hi, threads, i).Size(), SubrangeOf(lo, hi, threads, j).Size(); b <= a <= b + 1
  {
  }

  /** The sub-ranges abut from `lo` to `hi`, and no two sizes differ by more than one, larger ones first. */
  lemma SubrangesAbut(lo: nat, hi: nat, threads: nat)
    requires lo <= hi && threads > 0
    ensures var r := GenerateSubranges(lo, hi, threads);
      && |r| == threads && r[0].lo == lo && r[threads - 1].hi == hi
      && (forall i | 0 <= i < threads - 1 :: r[i].hi == r[i + 1].lo)
      && (forall i | 0 <= i < threads :: lo <= r[i].lo <= r[i].hi <= hi)
      && (forall i, j | 0 <= i < threads && 0 <= j < threads :: r[i].Size() <= r[j].Size() + 1)
      && (forall i, j | 0 <= i <= j < threads :: r[j].Size() <= r[i].Size())
  {
    var r := GenerateSubranges(lo, hi, threads);
    StartStep(lo, hi, threads, threads - 1);
    StartLast(lo, hi, threads);
    forall i | 0 <= i < threads
      ensures i < threads - 1 ==> r[i].hi == r[i + 1].lo
      ensures lo <= r[i].lo <= r[i].hi <= hi
    {
      StartStep(lo, hi, threads, i);
      SubrangeWithin(lo, hi, threads, i);
    }
    forall i, j | 0 <= i <= j < threads ensures r[j].Size() <= r[i].Size() <= r[j].Size() + 1 {
      SizesFall(lo, hi, threads, i, j);
    }
  }

  /** A sub-range that starts at slot 0 is not empty, unless the requested range is. */
  lemma StartAtZero(lo: nat, hi: nat, threads: nat, i: nat)
    requires lo <= hi && 0 < hi && threads > 0
    ensures SubrangeOf(lo, hi, threads, i).lo == 0 ==> SubrangeOf(lo, hi, threads, i).hi > 0
  {
    if i > 0 {
      StartStep(lo, hi, threads, 0);
      StartMonotone(lo, hi, threads, 1, i);
    }
  }
}
