/** Bytes, machine limits and little-endian integers. */
module Octets {
  const U64_LIMIT: nat := 0x1_0000_0000_0000_0000
  const U32_MAX: nat := 0xFFFF_FFFF

  type Byte = b: int | 0 <= b < 256

  /** `read_hash` and `from_le_bytes`: little-endian. */
  function LittleEndian(bytes: seq<Byte>): nat {
    if bytes == [] then 0 else bytes[0] + 256 * LittleEndian(bytes[1..])
  }

  function ToLittleEndian(n: nat, width: nat): (bytes: seq<Byte>)
    ensures |bytes| == width
  {
    if width == 0 then [] else [n % 256] + ToLittleEndian(n / 256, width - 1)
  }

  function Pow256(k: nat): nat { if k == 0 then 1 else 256 * Pow256(k - 1) }

  lemma {:induction false} LittleEndianRoundTrip(n: nat, width: nat)
    requires n < Pow256(width)
    ensures LittleEndian(ToLittleEndian(n, width)) == n
  {
    if width > 0 {
      LittleEndianRoundTrip(n / 256, width - 1);
      assert ToLittleEndian(n, width)[1..] == ToLittleEndian(n / 256, width - 1);
    }
  }

  lemma Widths()
    ensures Pow256(4) == 0x1_0000_0000 && Pow256(8) == U64_LIMIT
  {
    assert Pow256(2) == 256 * 256;
    assert Pow256(6) == 256 * 256 * Pow256(4);
  }

  lemma {:induction false} Zeros(width: nat)
    ensures forall i | 0 <= i < width :: ToLittleEndian(0, width)[i] == 0
    ensures 0 < Pow256(width)
  {
    if width > 0 { Zeros(width - 1); }
  }

  lemma SliceOfSlice(file: seq<Byte>, base: nat, size: nat, at: nat, len: nat)
    requires base + size <= |file| && at + len <= size
    ensures file[base..base + size][at..at + len] == file[base + at..base + at + len]
  {
    var a, b := file[base..base + size][at..at + len], file[base + at..base + at + len];
    assert |a| == |b| == len;
    assert forall i | 0 <= i < len :: a[i] == b[i];
  }
}
