/** Unsigned LEB128 integers, as the CARv1 format prefixes its header and its sections with. */
module Varint {
  import opened Octets

  const MAX_LEN: nat := 10

  /** The bytes end too soon, the number is too long or too large, or a value and how many bytes it took. */
  datatype Decoded = Value(value: nat, used: nat) | Short | Overlong

  /** One more than the largest value that bytes `i` and later may add. */
  function Limit(i: nat): (n: nat)
    requires i < MAX_LEN
    ensures 2 <= n && (i < MAX_LEN - 1 ==> 256 <= n)
    decreases MAX_LEN - i
  {
    if i == MAX_LEN - 1 then 2 else 128 * Limit(i + 1)
  }

  lemma LimitOfAll()
    ensures Limit(0) == U64_LIMIT
  {
    assert Limit(6) == 128 * 128 * 128 * 2;
    assert Limit(3) == 128 * 128 * 128 * Limit(6);
  }

  /** Decoding, once `i` bytes have been read. */
  function Decode(bytes: seq<Byte>, i: nat): (r: Decoded)
    requires i < MAX_LEN
    ensures r.Value? ==> 0 < r.used <= |bytes|
    ensures r.Overlong? ==> MAX_LEN - i <= |bytes|
    decreases |bytes|
  {
    if bytes == [] then Short
    else if bytes[0] < 128 then if i == MAX_LEN - 1 && bytes[0] > 1 then Overlong else Value(bytes[0], 1)
    else if i == MAX_LEN - 1 then Overlong
    else match Decode(bytes[1..], i + 1)
      case Value(v, used) => Value(bytes[0] - 128 + 128 * v, used + 1)
      case Short => Short
      case Overlong => Overlong
  }

  /** The first `n` bytes all announce another one. */
  ghost predicate Continues(bytes: seq<Byte>, n: nat) { n <= |bytes| && forall k | 0 <= k < n :: bytes[k] >= 128 }

  /** What is refused, and why: the bytes end while another one is announced, or the last byte there may be
      announces another one or is more than the one bit left for it. */
  lemma {:induction false} DecodeRefuses(bytes: seq<Byte>, i: nat)
    requires i < MAX_LEN
    ensures Decode(bytes, i).Short? <==> |bytes| < MAX_LEN - i && Continues(bytes, |bytes|)
    ensures var last := MAX_LEN - 1 - i;
            Decode(bytes, i).Overlong? <==> last < |bytes| && Continues(bytes, last) && bytes[last] > 1
    decreases |bytes|
  {
    if bytes != [] && bytes[0] >= 128 && i < MAX_LEN - 1 {
      var rest, last := bytes[1..], MAX_LEN - 1 - i;
      DecodeRefuses(rest, i + 1);
      assert Continues(bytes, |bytes|) <==> Continues(rest, |rest|);
      if last < |bytes| { assert Continues(bytes, last) <==> Continues(rest, last - 1); }
    }
  }

  /** A decoded number fits the bits left for it: with all ten bytes to come, 64. */
  lemma {:induction false} DecodeFits(bytes: seq<Byte>, i: nat)
    requires i < MAX_LEN && Decode(bytes, i).Value?
    ensures Decode(bytes, i).value < Limit(i)
    decreases |bytes|
  {
    if bytes[0] >= 128 { DecodeFits(bytes[1..], i + 1); }
  }

  /** How many bytes reading a number from `bytes` takes, whatever comes of it. */
  function Consumed(bytes: seq<Byte>, r: Decoded): nat {
    match r
    case Value(_, used) => used
    case Short => |bytes|
    case Overlong => MAX_LEN
  }

  function Encode(n: nat): (bytes: seq<Byte>)
    ensures bytes != []
  {
    if n < 128 then [n] else [128 + n % 128] + Encode(n / 128)
  }

  /** Every number below the limit is read back from its encoding, whatever follows it. */
  lemma {:induction false} DecodeEncode(n: nat, rest: seq<Byte>, i: nat)
    requires i < MAX_LEN && n < Limit(i)
    ensures Decode(Encode(n) + rest, i) == Value(n, |Encode(n)|)
    decreases MAX_LEN - i
  {
    if n >= 128 {
      DecodeEncode(n / 128, rest, i + 1);
      assert (Encode(n) + rest)[1..] == Encode(n / 128) + rest;
    }
  }

  /** Cutting an encoding short is noticed. */
  lemma {:induction false} DecodeCut(n: nat, cut: nat, i: nat)
    requires i < MAX_LEN && n < Limit(i) && cut < |Encode(n)|
    ensures Decode(Encode(n)[..cut], i) == Short
    decreases MAX_LEN - i
  {
    if 0 < cut {
      DecodeCut(n / 128, cut - 1, i + 1);
      assert Encode(n)[..cut][1..] == Encode(n / 128)[..cut - 1];
    }
  }

  /** `v << (7 * k)`. */
  function Shift(v: nat, k: nat): nat { if k == 0 then v else 128 * Shift(v, k - 1) }

  lemma {:induction false} ShiftSplits(low: nat, v: nat, k: nat)
    ensures Shift(low + 128 * v, k) == Shift(low, k) + Shift(v, k + 1)
  {
    if k > 0 { ShiftSplits(low, v, k - 1); }
  }

  /** What is still to be decoded goes on top of the `k` groups of seven bits already read. */
  function OnTop(x: nat, k: nat, rest: Decoded): Decoded {
    match rest
    case Value(v, used) => Value(x + Shift(v, k), k + used)
    case _ => rest
  }

  /** A byte with its high bit set adds seven bits and leaves the rest to decode. */
  lemma MoreBytes(whole: Decoded, x: nat, k: nat, low: nat, bytes: seq<Byte>)
    requires k < MAX_LEN - 1 && bytes != [] && bytes[0] == 128 + low
    requires whole == OnTop(x, k, Decode(bytes, k))
    ensures whole == OnTop(x + Shift(low, k), k + 1, Decode(bytes[1..], k + 1))
  {
    var rest := Decode(bytes[1..], k + 1);
    if rest.Value? { ShiftSplits(low, rest.value, k); }
  }

  /** `read_uvarint`: the shift-and-or loop, one byte at a time from `start`. */
  method ReadUvarint(file: seq<Byte>, start: nat) returns (r: Decoded, used: nat)
    requires start <= |file|
    ensures r == Decode(file[start..], 0)
    ensures used == Consumed(file[start..], r)
  {
    var x: nat, i: nat := 0, 0;
    ghost var whole := Decode(file[start..], 0);
    while true
      invariant i < MAX_LEN && start + i <= |file|
      invariant whole == OnTop(x, i, Decode(file[start + i..], i))
      decreases MAX_LEN - i
    {
      if start + i == |file| { return Short, i; }
      var b: nat := file[start + i];
      assert file[start + i..][0] == b && file[start + i..][1..] == file[start + i + 1..];
      if b < 128 {
        if i == MAX_LEN - 1 && b > 1 { return Overlong, i + 1; }
        return Value(x + Shift(b, i), i + 1), i + 1;
      }
      if i == MAX_LEN - 1 { return Overlong, i + 1; }
      MoreBytes(whole, x, i, b - 128, file[start + i..]);
      x, i := x + Shift(b - 128, i), i + 1;
    }
  }
}
