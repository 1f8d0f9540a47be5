/** The compact index's bucket lookup: a descent through an implicit binary search tree stored in bytes. */
module BucketSearch {
  import opened Slots
  import opened Octets

  /** A bucket's shape: `count` records of a hash followed by a value. */
  datatype Layout = Layout(count: nat, hashLen: nat, valueWidth: nat) {
    function Stride(): nat { hashLen + valueWidth }
    function Size(): nat { count * Stride() }
  }

  lemma RecordFits(l: Layout, i: nat)
    requires i < l.count
    ensures i * l.Stride() + l.Stride() <= l.Size()
  {
    assert (i + 1) * l.Stride() <= l.count * l.Stride();
  }

  function HashAt(l: Layout, data: seq<Byte>, i: nat): nat
    requires i < l.count && l.Size() <= |data|
  {
    RecordFits(l, i);
    var at := i * l.Stride();
    LittleEndian(data[at..at + l.hashLen])
  }

  function ValueAt(l: Layout, data: seq<Byte>, i: nat): seq<Byte>
    requires i < l.count && l.Size() <= |data|
  {
    RecordFits(l, i);
    var at := i * l.Stride() + l.hashLen;
    data[at..at + l.valueWidth]
  }

  /** The reference: the first record, in storage order, that carries the hash. */
  function LinearScan(l: Layout, data: seq<Byte>, target: nat, from: nat): Option<seq<Byte>>
    requires from <= l.count && l.Size() <= |data|
    decreases l.count - from
  {
    if from == l.count then None
    else if HashAt(l, data, from) == target then Some(ValueAt(l, data, from))
    else LinearScan(l, data, target, from + 1)
  }

  /** Node `j` lies in the subtree of node `root`; the children of `i` are `2i + 1` and `2i + 2`. */
  predicate InSubtree(root: nat, j: nat) {
    j == root || (j > root && InSubtree(root, (j - 1) / 2))
  }

  /** Every hash on the left of a node is smaller, every one on its right is greater. */
  ghost predicate IsSearchTree(l: Layout, data: seq<Byte>)
    requires l.Size() <= |data|
  {
    forall i: nat, j: nat | i < l.count && j < l.count ::
      && (InSubtree(2 * i + 1, j) ==> HashAt(l, data, j) < HashAt(l, data, i))
      && (InSubtree(2 * i + 2, j) ==> HashAt(l, data, i) < HashAt(l, data, j))
  }

  lemma {:induction false} RootReachesAll(j: nat)
    ensures InSubtree(0, j)
  {
    if j > 0 { RootReachesAll((j - 1) / 2); }
  }

  /** Below a node there is only its left and its right subtree. */
  lemma {:induction false} SubtreeSplits(i: nat, j: nat)
    requires InSubtree(i, j) && j != i
    ensures InSubtree(2 * i + 1, j) || InSubtree(2 * i + 2, j)
  {
    var up := (j - 1) / 2;
    if up == i {
      assert j == 2 * i + 1 || j == 2 * i + 2;
    } else {
      SubtreeSplits(i, up);
    }
  }

  lemma {:induction false} ScanMisses(l: Layout, data: seq<Byte>, target: nat, from: nat)
    requires from <= l.count && l.Size() <= |data|
    requires forall j: nat | from <= j < l.count :: HashAt(l, data, j) != target
    ensures LinearScan(l, data, target, from) == None
    decreases l.count - from
  {
    if from < l.count { ScanMisses(l, data, target, from + 1); }
  }

  lemma {:induction false} ScanHits(l: Layout, data: seq<Byte>, target: nat, from: nat, i: nat)
    requires from <= i < l.count && l.Size() <= |data| && HashAt(l, data, i) == target
    requires forall j: nat | from <= j < l.count && HashAt(l, data, j) == target :: j == i
    ensures LinearScan(l, data, target, from) == Some(ValueAt(l, data, i))
    decreases l.count - from
  {
    if from < i { ScanHits(l, data, target, from + 1, i); }
  }

  /** Where the target can still be. */
  ghost predicate Narrowed(l: Layout, data: seq<Byte>, target: nat, index: nat)
    requires l.Size() <= |data|
  {
    forall j: nat | j < l.count && HashAt(l, data, j) == target :: InSubtree(index, j)
  }

  /** Comparing at a node sends the search to the one child that can hold the target. */
  lemma Descend(l: Layout, data: seq<Byte>, target: nat, index: nat)
    requires l.Size() <= |data| && IsSearchTree(l, data) && index < l.count
    requires Narrowed(l, data, target, index) && HashAt(l, data, index) != target
    ensures Narrowed(l, data, target, if HashAt(l, data, index) < target then 2 * index + 2 else 2 * index + 1)
  {
    forall j: nat | j < l.count && HashAt(l, data, j) == target
      ensures InSubtree(if HashAt(l, data, index) < target then 2 * index + 2 else 2 * index + 1, j)
    {
      SubtreeSplits(index, j);
    }
  }

  /** A search tree holds each hash once, so a hit is what the scan finds. */
  lemma HitIsUnique(l: Layout, data: seq<Byte>, target: nat, i: nat, j: nat)
    requires l.Size() <= |data| && IsSearchTree(l, data)
    requires i < l.count && j < l.count && InSubtree(i, j)
    requires HashAt(l, data, i) == target == HashAt(l, data, j)
    ensures j == i
  {
    if j != i { SubtreeSplits(i, j); }
  }

  lemma HitIsScanned(l: Layout, data: seq<Byte>, target: nat, i: nat)
    requires l.Size() <= |data| && IsSearchTree(l, data) && i < l.count && HashAt(l, data, i) == target
    requires Narrowed(l, data, target, i)
    ensures LinearScan(l, data, target, 0) == Some(ValueAt(l, data, i))
  {
    forall j: nat | 0 <= j < l.count && HashAt(l, data, j) == target ensures j == i {
      HitIsUnique(l, data, target, i, j);
    }
    ScanHits(l, data, target, 0, i);
  }

  lemma MissIsScanned(l: Layout, data: seq<Byte>, target: nat, index: nat)
    requires l.Size() <= |data| && index >= l.count && Narrowed(l, data, target, index)
    ensures LinearScan(l, data, target, 0) == None
  {
    forall j: nat | 0 <= j < l.count ensures HashAt(l, data, j) != target {
      assert InSubtree(index, j) ==> index <= j;
    }
    ScanMisses(l, data, target, 0);
  }

  /** Some record carries this hash and this value. */
  ghost predicate Stores(l: Layout, data: seq<Byte>, target: nat, value: seq<Byte>)
    requires l.Size() <= |data|
  {
    exists j: nat :: j < l.count && HashAt(l, data, j) == target && ValueAt(l, data, j) == value
  }

  lemma RecordAt(l: Layout, data: seq<Byte>, i: nat, at: nat)
    requires i < l.count && l.Size() <= |data| && at == i * l.Stride()
    ensures at + l.hashLen + l.valueWidth <= |data|
    ensures HashAt(l, data, i) == LittleEndian(data[at..at + l.hashLen])
    ensures ValueAt(l, data, i) == data[at + l.hashLen..at + l.hashLen + l.valueWidth]
  {
    RecordFits(l, i);
  }

  /** The descent: at each node the comparison picks one child, until the hash is found or the tree ends. */
  function Search(l: Layout, data: seq<Byte>, target: nat, index: nat): Option<seq<Byte>>
    requires l.Size() <= |data|
    decreases l.count - index
  {
    if index >= l.count then None
    else if HashAt(l, data, index) == target then Some(ValueAt(l, data, index))
    else Search(l, data, target, if HashAt(l, data, index) < target then 2 * index + 2 else 2 * index + 1)
  }

  /** Whatever the bytes, a value found is one stored under the hash. */
  lemma {:induction false} SearchFindsStored(l: Layout, data: seq<Byte>, target: nat, index: nat)
    requires l.Size() <= |data|
    ensures var r := Search(l, data, target, index); r.Some? ==> Stores(l, data, target, r.value)
    decreases l.count - index
  {
    if index < l.count && HashAt(l, data, index) != target {
      SearchFindsStored(l, data, target, if HashAt(l, data, index) < target then 2 * index + 2 else 2 * index + 1);
    }
  }

  lemma {:induction false} SearchFrom(l: Layout, data: seq<Byte>, target: nat, index: nat)
    requires l.Size() <= |data| && IsSearchTree(l, data) && Narrowed(l, data, target, index)
    ensures Search(l, data, target, index) == LinearScan(l, data, target, 0)
    decreases l.count - index
  {
    if index >= l.count {
      MissIsScanned(l, data, target, index);
    } else if HashAt(l, data, index) == target {
      HitIsScanned(l, data, target, index);
    } else {
      Descend(l, data, target, index);
      SearchFrom(l, data, target, if HashAt(l, data, index) < target then 2 * index + 2 else 2 * index + 1);
    }
  }

  /** In a search tree the descent answers, hit or miss, as a linear scan does. */
  lemma SearchIsScan(l: Layout, data: seq<Byte>, target: nat)
    requires l.Size() <= |data| && IsSearchTree(l, data)
    ensures Search(l, data, target, 0) == LinearScan(l, data, target, 0)
  {
    forall j: nat { RootReachesAll(j); }
    SearchFrom(l, data, target, 0);
  }

  method ReadHashAt(l: Layout, data: seq<Byte>, index: nat) returns (hash: nat)
    requires index < l.count && l.Size() <= |data|
    ensures hash == HashAt(l, data, index)
  {
    var offset := index * l.Stride();
    RecordAt(l, data, index, offset);
    hash := LittleEndian(data[offset..offset + l.hashLen]);
  }

  method ReadValueAt(l: Layout, data: seq<Byte>, index: nat) returns (value: seq<Byte>)
    requires index < l.count && l.Size() <= |data|
    ensures value == ValueAt(l, data, index)
  {
    var offset := index * l.Stride();
    RecordAt(l, data, index, offset);
    value := data[offset + l.hashLen..offset + l.hashLen + l.valueWidth];
  }

  /** The lookup in a bucket held in memory: the descent, whatever the bytes. */
  method LookupInMemory(l: Layout, data: seq<Byte>, target: nat) returns (r: Option<seq<Byte>>)
    requires l.Size() == |data|
    ensures r == Search(l, data, target, 0)
    ensures r.Some? ==> Stores(l, data, target, r.value)
    ensures IsSearchTree(l, data) ==> r == LinearScan(l, data, target, 0)
  {
    SearchFindsStored(l, data, target, 0);
    if IsSearchTree(l, data) { SearchIsScan(l, data, target); }
    var index := 0;
    while index < l.count
      invariant Search(l, data, target, 0) == Search(l, data, target, index)
      decreases l.count - index
    {
      var hash := ReadHashAt(l, data, index);
      if hash == target {
        var value := ReadValueAt(l, data, index);
        return Some(value);
      }
      index := 2 * index + 1;
      if hash < target { index := index + 1; }
    }
    return None;
  }

  datatype FileResult = Read(value: Option<seq<Byte>>) | OutOfBounds

  /** A checked slice of the index file. */
  function FileSlice(file: seq<Byte>, at: nat, len: nat): Option<seq<Byte>> {
    if at + len <= |file| then Some(file[at..at + len]) else None
  }

  ghost function Bucket(l: Layout, file: seq<Byte>, base: nat): seq<Byte>
    requires base + l.Size() <= |file|
  {
    file[base..base + l.Size()]
  }

  /** Inside the file, slices are the bucket's own bytes. */
  lemma SlicesAgree(l: Layout, file: seq<Byte>, base: nat, i: nat)
    requires base + l.Size() <= |file| && i < l.count
    ensures var hash := FileSlice(file, base + i * l.Stride(), l.hashLen);
            hash.Some? && LittleEndian(hash.value) == HashAt(l, Bucket(l, file, base), i)
    ensures FileSlice(file, base + i * l.Stride() + l.hashLen, l.valueWidth)
         == Some(ValueAt(l, Bucket(l, file, base), i))
  {
    RecordFits(l, i);
    var at := i * l.Stride();
    SliceOfSlice(file, base, l.Size(), at, l.hashLen);
    SliceOfSlice(file, base, l.Size(), at + l.hashLen, l.valueWidth);
  }

  function FileHash(l: Layout, file: seq<Byte>, base: nat, i: nat): Option<nat> {
    match FileSlice(file, base + i * l.Stride(), l.hashLen)
    case None => None
    case Some(slice) => Some(LittleEndian(slice))
  }

  function FileValue(l: Layout, file: seq<Byte>, base: nat, i: nat): Option<seq<Byte>> {
    FileSlice(file, base + i * l.Stride() + l.hashLen, l.valueWidth)
  }

  /** The descent in a bucket left in its file: it fails at the first slice that runs out of the file. */
  function FileSearch(l: Layout, file: seq<Byte>, base: nat, target: nat, index: nat): FileResult
    decreases l.count - index
  {
    if index >= l.count then Read(None) else
    match FileHash(l, file, base, index)
    case None => OutOfBounds
    case Some(hash) =>
      if hash != target then
        FileSearch(l, file, base, target, if hash < target then 2 * index + 2 else 2 * index + 1)
      else match FileValue(l, file, base, index)
           case None => OutOfBounds
           case Some(value) => Read(Some(value))
  }

  lemma SliceExtends(file: seq<Byte>, more: seq<Byte>, at: nat, len: nat)
    ensures FileSlice(file, at, len).Some? ==> FileSlice(file + more, at, len) == FileSlice(file, at, len)
    ensures more == [] ==> FileSlice(file, at, len) == FileSlice(file + more, at, len)
  {
    if at + len <= |file| { assert (file + more)[at..at + len] == file[at..at + len]; }
  }

  /** What can be read of a record is what the completed bucket holds. */
  lemma RecordExtends(l: Layout, file: seq<Byte>, more: seq<Byte>, base: nat, i: nat)
    requires base + l.Size() <= |file + more| && i < l.count
    ensures var hash := FileHash(l, file, base, i);
            (hash.Some? ==> hash.value == HashAt(l, Bucket(l, file + more, base), i)) && (more == [] ==> hash.Some?)
    ensures var value := FileValue(l, file, base, i);
            (value.Some? ==> value.value == ValueAt(l, Bucket(l, file + more, base), i)) && (more == [] ==> value.Some?)
  {
    SlicesAgree(l, file + more, base, i);
    SliceExtends(file, more, base + i * l.Stride(), l.hashLen);
    SliceExtends(file, more, base + i * l.Stride() + l.hashLen, l.valueWidth);
  }

  /** Where the file ends early, an answer is still the one the whole bucket would give: whatever the
      missing bytes are, the lookup on the completed bucket answers the same. */
  lemma {:induction false} FileSearchAgrees(l: Layout, file: seq<Byte>, more: seq<Byte>, base: nat, target: nat,
                                            index: nat)
    requires base + l.Size() <= |file + more|
    ensures var r := FileSearch(l, file, base, target, index);
            && (r.Read? ==> r.value == Search(l, Bucket(l, file + more, base), target, index))
            && (more == [] ==> r.Read?)
    decreases l.count - index
  {
    if index < l.count {
      RecordExtends(l, file, more, base, index);
      var hash := FileHash(l, file, base, index);
      if hash.Some? && hash.value != target {
        FileSearchAgrees(l, file, more, base, target,
                         if hash.value < target then 2 * index + 2 else 2 * index + 1);
      }
    }
  }

  /** When the bucket lies within the file the lookup never fails, and it answers as the lookup on the
      bucket's bytes does, whatever the bytes. */
  lemma InFileIsInMemory(l: Layout, file: seq<Byte>, base: nat, target: nat)
    requires base + l.Size() <= |file|
    ensures FileSearch(l, file, base, target, 0) == Read(Search(l, Bucket(l, file, base), target, 0))
  {
    assert file + [] == file;
    FileSearchAgrees(l, file, [], base, target, 0);
  }

  /** The lookup in a bucket left in its file. */
  method LookupInFile(l: Layout, file: seq<Byte>, base: nat, target: nat) returns (r: FileResult)
    ensures r == FileSearch(l, file, base, target, 0)
    ensures base + l.Size() <= |file| ==>
              && r == Read(Search(l, Bucket(l, file, base), target, 0))
              && (r.value.Some? ==> Stores(l, Bucket(l, file, base), target, r.value.value))
              && (IsSearchTree(l, Bucket(l, file, base)) ==>
                    r.value == LinearScan(l, Bucket(l, file, base), target, 0))
  {
    if base + l.Size() <= |file| {
      InFileIsInMemory(l, file, base, target);
      SearchFindsStored(l, Bucket(l, file, base), target, 0);
      if IsSearchTree(l, Bucket(l, file, base)) { SearchIsScan(l, Bucket(l, file, base), target); }
    }
    var index := 0;
    while index < l.count
      invariant FileSearch(l, file, base, target, 0) == FileSearch(l, file, base, target, index)
      decreases l.count - index
    {
      var hash := FileHash(l, file, base, index);
      if hash.None? { return OutOfBounds; }
      if hash.value == target {
        var value := FileValue(l, file, base, index);
        if value.None? { return OutOfBounds; }
        return Read(value);
      }
      index := 2 * index + 1;
      if hash.value < target { index := index + 1; }
    }
    return Read(None);
  }

  // ---------------------------------------------------------------------------------------------
  // Buckets as they are written.

  datatype Record = Record(hash: nat, value: seq<Byte>)

  /** A record's bytes: its hash, little-endian, and then its value. */
  function RecordBytes(hashLen: nat, r: Record): (bytes: seq<Byte>)
    ensures |bytes| == hashLen + |r.value|
  {
    ToLittleEndian(r.hash, hashLen) + r.value
  }

  function BucketBytes(hashLen: nat, records: seq<Record>): seq<Byte> {
    if records == [] then [] else RecordBytes(hashLen, records[0]) + BucketBytes(hashLen, records[1..])
  }

  ghost predicate Written(l: Layout, records: seq<Record>) {
    && |records| == l.count
    && forall i | 0 <= i < |records| :: records[i].hash < Pow256(l.hashLen) && |records[i].value| == l.valueWidth
  }

  lemma OneMore(n: nat, k: nat)
    requires n > 0
    ensures n * k == (n - 1) * k + k
  {
  }

  lemma {:induction false} BucketLength(hashLen: nat, width: nat, records: seq<Record>)
    requires forall i | 0 <= i < |records| :: |records[i].value| == width
    ensures |BucketBytes(hashLen, records)| == |records| * (hashLen + width)
    decreases |records|
  {
    if records != [] {
      BucketLength(hashLen, width, records[1..]);
      OneMore(|records|, hashLen + width);
    }
  }

  ghost predicate SameLength(hashLen: nat, k: nat, records: seq<Record>) {
    forall j | 0 <= j < |records| :: hashLen + |records[j].value| == k
  }

  lemma ShiftedSlice(first: seq<Byte>, rest: seq<Byte>, below: nat, k: nat)
    requires below + k <= |rest|
    ensures (first + rest)[|first| + below..|first| + below + k] == rest[below..below + k]
  {
  }

  lemma FirstSlice(first: seq<Byte>, rest: seq<Byte>)
    ensures (first + rest)[0..|first|] == first
  {
  }

  /** The bytes of the `i`-th record of `k` bytes each begin at `i * k`. */
  lemma {:induction false} BucketSlice(hashLen: nat, k: nat, records: seq<Record>, i: nat, at: nat)
    requires SameLength(hashLen, k, records) && i < |records| && at == i * k
    ensures var data := BucketBytes(hashLen, records);
            at + k <= |data| && data[at..at + k] == RecordBytes(hashLen, records[i])
    decreases i
  {
    var first, rest := RecordBytes(hashLen, records[0]), BucketBytes(hashLen, records[1..]);
    if i == 0 {
      FirstSlice(first, rest);
    } else {
      OneMore(i, k);
      assert SameLength(hashLen, k, records[1..]) && records[1..][i - 1] == records[i];
      BucketSlice(hashLen, k, records[1..], i - 1, at - k);
      ShiftedSlice(first, rest, at - k, k);
    }
  }

  lemma RecordHalves(data: seq<Byte>, at: nat, hashLen: nat, r: Record)
    requires at + hashLen + |r.value| <= |data| && data[at..at + hashLen + |r.value|] == RecordBytes(hashLen, r)
    ensures data[at..at + hashLen] == ToLittleEndian(r.hash, hashLen)
    ensures data[at + hashLen..at + hashLen + |r.value|] == r.value
  {
    var slice := data[at..at + hashLen + |r.value|];
    assert slice[..hashLen] == ToLittleEndian(r.hash, hashLen) && slice[hashLen..] == r.value;
    assert data[at..at + hashLen] == slice[..hashLen];
    assert data[at + hashLen..at + hashLen + |r.value|] == slice[hashLen..];
  }

  lemma ReadsAs(l: Layout, data: seq<Byte>, i: nat, at: nat, r: Record)
    requires i < l.count && l.Size() <= |data| && at == i * l.Stride() && at + l.Stride() <= |data|
    requires |r.value| == l.valueWidth && r.hash < Pow256(l.hashLen)
    requires data[at..at + l.Stride()] == RecordBytes(l.hashLen, r)
    ensures HashAt(l, data, i) == r.hash && ValueAt(l, data, i) == r.value
  {
    RecordHalves(data, at, l.hashLen, r);
    RecordAt(l, data, i, at);
    LittleEndianRoundTrip(r.hash, l.hashLen);
  }

  /** Every record is read back from where it was written. */
  lemma BucketReads(l: Layout, records: seq<Record>, i: nat)
    requires Written(l, records) && i < l.count
    ensures l.Size() == |BucketBytes(l.hashLen, records)|
    ensures HashAt(l, BucketBytes(l.hashLen, records), i) == records[i].hash
    ensures ValueAt(l, BucketBytes(l.hashLen, records), i) == records[i].value
  {
    var data, at := BucketBytes(l.hashLen, records), i * l.Stride();
    BucketLength(l.hashLen, l.valueWidth, records);
    BucketSlice(l.hashLen, l.Stride(), records, i, at);
    ReadsAs(l, data, i, at, records[i]);
  }
}
