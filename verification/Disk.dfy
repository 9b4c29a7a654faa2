// The virtual disk: an array of 512-byte sectors and an allocation bitmap of
// 64-bit words that is mirrored in sector 0.
module Disk {
  import opened Prelude

  const SECTOR_SIZE: nat := 512
  // Sectors below this one hold metadata and are never handed out.
  const FIRST_DATA_SECTOR: nat := 4
  // The number of bitmap words that fit into sector 0.
  const WORDS_IN_SECTOR: nat := 64

  type Sector = s: seq<byte> | |s| == 512 witness seq(512, _ => 0)

  datatype DiskError = InvalidSector(sector: nat, maxSector: nat) | BadLength | OutOfSpace

  // ---------------------------------------------------------------------
  // The bitmap
  // ---------------------------------------------------------------------

  predicate BitSet(w: bv64, i: nat)
    requires i < 64
  {
    w & (1 << i) != 0
  }

  predicate BitAt(bitmap: seq<bv64>, s: nat) {
    s / 64 < |bitmap| && BitSet(bitmap[s / 64], s % 64)
  }

  function SetBit(w: bv64, i: nat): bv64
    requires i < 64
  {
    w | (1 << i)
  }

  function ClearBit(w: bv64, i: nat): bv64
    requires i < 64
  {
    w & !(1 << i)
  }

  function MarkUsed(bitmap: seq<bv64>, s: nat): seq<bv64> {
    if s / 64 < |bitmap| then bitmap[s / 64 := SetBit(bitmap[s / 64], s % 64)] else bitmap
  }

  function MarkFree(bitmap: seq<bv64>, s: nat): seq<bv64> {
    if s / 64 < |bitmap| then bitmap[s / 64 := ClearBit(bitmap[s / 64], s % 64)] else bitmap
  }

  function MarkUsedRange(bitmap: seq<bv64>, start: nat, count: nat): seq<bv64> {
    if count == 0 then bitmap
    else MarkUsed(MarkUsedRange(bitmap, start, count - 1), start + count - 1)
  }

  // Metadata sectors are never given back.
  function MarkFreeRange(bitmap: seq<bv64>, start: nat, count: nat): seq<bv64> {
    if count == 0 then bitmap
    else
      var b := MarkFreeRange(bitmap, start, count - 1);
      if start + count - 1 >= FIRST_DATA_SECTOR then MarkFree(b, start + count - 1) else b
  }

  // The sectors a bitmap calls used.
  ghost function UsedSet(bitmap: seq<bv64>): set<nat> {
    set s: nat | s < 64 * |bitmap| && BitAt(bitmap, s)
  }

  predicate InRun(s: nat, start: nat, count: nat) {
    start <= s < start + count
  }

  ghost function Run(start: nat, count: nat): set<nat> {
    set s: nat | s < start + count && InRun(s, start, count)
  }

  ghost function DataRun(start: nat, count: nat): set<nat> {
    set s: nat | s < start + count && InRun(s, start, count) && FIRST_DATA_SECTOR <= s
  }

  lemma MaskDistinct(i: nat, j: nat)
    requires i < 64 && j < 64 && i != j
    ensures (1 as bv64 << i) & (1 as bv64 << j) == 0
  {
    MasksApart(i as bv6, j as bv6);
  }

  lemma MasksApart(x: bv6, y: bv6)
    requires x != y
    ensures (1 as bv64 << x) & (1 as bv64 << y) == 0
  {
  }

  lemma MaskNonZero(i: nat)
    requires i < 64
    ensures (1 as bv64 << i) != 0
  {
  }

  // The bit operations of the bitmap change one bit ...
  lemma OwnBitSet(w: bv64, i: nat)
    requires i < 64
    ensures BitSet(SetBit(w, i), i)
  {
    MaskNonZero(i);
  }

  lemma OwnBitClear(w: bv64, i: nat)
    requires i < 64
    ensures !BitSet(ClearBit(w, i), i)
  {
  }

  // ... and no other.
  lemma OtherBitSet(w: bv64, i: nat, j: nat)
    requires i < 64 && j < 64 && i != j
    ensures BitSet(SetBit(w, i), j) == BitSet(w, j)
  {
    MaskDistinct(i, j);
  }

  lemma OtherBitClear(w: bv64, i: nat, j: nat)
    requires i < 64 && j < 64 && i != j
    ensures BitSet(ClearBit(w, i), j) == BitSet(w, j)
  {
    MaskDistinct(i, j);
  }

  lemma MarkBit(bitmap: seq<bv64>, s: nat, t: nat)
    requires s < 64 * |bitmap|
    ensures BitAt(MarkUsed(bitmap, s), t) == (t == s || BitAt(bitmap, t))
    ensures BitAt(MarkFree(bitmap, s), t) == (t != s && BitAt(bitmap, t))
  {
    hide BitSet, SetBit, ClearBit;
    OwnBitSet(bitmap[s / 64], s % 64);
    OwnBitClear(bitmap[s / 64], s % 64);
    if s % 64 != t % 64 {
      OtherBitSet(bitmap[s / 64], s % 64, t % 64);
      OtherBitClear(bitmap[s / 64], s % 64, t % 64);
    }
  }

  // Marking one sector changes the used set by exactly that sector.
  lemma MarkSector(bitmap: seq<bv64>, s: nat)
    requires s < 64 * |bitmap|
    ensures |MarkUsed(bitmap, s)| == |MarkFree(bitmap, s)| == |bitmap|
    ensures UsedSet(MarkUsed(bitmap, s)) == UsedSet(bitmap) + {s}
    ensures UsedSet(MarkFree(bitmap, s)) == UsedSet(bitmap) - {s}
  {
    hide BitSet, SetBit, ClearBit;
    forall t: nat
      ensures BitAt(MarkUsed(bitmap, s), t) == (t == s || BitAt(bitmap, t))
      ensures BitAt(MarkFree(bitmap, s), t) == (t != s && BitAt(bitmap, t))
    {
      MarkBit(bitmap, s, t);
    }
  }

  // Sectors the bitmap does not have are ignored.
  lemma FreeSector(bitmap: seq<bv64>, s: nat)
    ensures |MarkFree(bitmap, s)| == |bitmap| && UsedSet(MarkFree(bitmap, s)) == UsedSet(bitmap) - {s}
  {
    hide BitAt, MarkUsed;
    if s < 64 * |bitmap| {
      MarkSector(bitmap, s);
    } else {
      assert MarkFree(bitmap, s) == bitmap;
    }
  }

  // Marking a run changes the used set by exactly the run.
  lemma {:induction false} MarkRun(bitmap: seq<bv64>, start: nat, count: nat)
    requires start + count <= 64 * |bitmap|
    ensures |MarkUsedRange(bitmap, start, count)| == |bitmap|
    ensures UsedSet(MarkUsedRange(bitmap, start, count)) == UsedSet(bitmap) + Run(start, count)
  {
    hide BitAt, MarkUsed, MarkFree;
    if count > 0 {
      MarkRun(bitmap, start, count - 1);
      MarkSector(MarkUsedRange(bitmap, start, count - 1), start + count - 1);
      assert Run(start, count) == Run(start, count - 1) + {start + count - 1};
    }
  }

  // Freeing one never touches the metadata sectors.
  lemma {:induction false} UnmarkRun(bitmap: seq<bv64>, start: nat, count: nat)
    ensures |MarkFreeRange(bitmap, start, count)| == |bitmap|
    ensures UsedSet(MarkFreeRange(bitmap, start, count)) == UsedSet(bitmap) - DataRun(start, count)
  {
    hide BitAt, MarkUsed, MarkFree, UsedSet;
    if count > 0 {
      UnmarkRun(bitmap, start, count - 1);
      FreeSector(MarkFreeRange(bitmap, start, count - 1), start + count - 1);
      if start + count - 1 >= FIRST_DATA_SECTOR {
        assert DataRun(start, count) == DataRun(start, count - 1) + {start + count - 1};
      } else {
        assert DataRun(start, count) == DataRun(start, count - 1);
      }
    } else {
      assert DataRun(start, 0) == {};
    }
  }

  // ---------------------------------------------------------------------
  // Counting used sectors
  // ---------------------------------------------------------------------

  // Ones among the lowest `n` bits of a word.
  function CountOnes(w: bv64, n: nat): nat
    requires n <= 64
  {
    if n == 0 then 0 else CountOnes(w, n - 1) + if BitSet(w, n - 1) then 1 else 0
  }

  function SumOnes(bitmap: seq<bv64>, words: nat): nat
    requires words <= |bitmap|
  {
    if words == 0 then 0 else SumOnes(bitmap, words - 1) + CountOnes(bitmap[words - 1], 64)
  }

  ghost function UsedBelow(bitmap: seq<bv64>, n: nat): set<nat> {
    set s: nat | s < n && BitAt(bitmap, s)
  }

  lemma {:induction false} CountOnesIsSize(bitmap: seq<bv64>, i: nat, n: nat)
    requires i < |bitmap| && n <= 64
    ensures |UsedBelow(bitmap, 64 * i + n)| == |UsedBelow(bitmap, 64 * i)| + CountOnes(bitmap[i], n)
  {
    hide BitSet, UsedBelow;
    if n > 0 {
      var s := 64 * i + n - 1;
      CountOnesIsSize(bitmap, i, n - 1);
      BitOfWord(i, n - 1);
      assert BitAt(bitmap, s) == BitSet(bitmap[i], n - 1);
      UsedBelowNext(bitmap, s);
    }
  }

  lemma BitOfWord(i: nat, k: nat)
    requires k < 64
    ensures (64 * i + k) / 64 == i && (64 * i + k) % 64 == k
  {
  }

  lemma UsedBelowNext(bitmap: seq<bv64>, s: nat)
    ensures |UsedBelow(bitmap, s + 1)| == |UsedBelow(bitmap, s)| + if BitAt(bitmap, s) then 1 else 0
  {
    hide BitAt;
    assert UsedBelow(bitmap, s + 1) == UsedBelow(bitmap, s) + if BitAt(bitmap, s) then {s} else {};
  }

  // Adding up the ones of every word counts the used sectors.
  lemma {:induction false} SumOnesIsUsed(bitmap: seq<bv64>, words: nat)
    requires words <= |bitmap|
    ensures SumOnes(bitmap, words) == |UsedBelow(bitmap, 64 * words)|
    ensures words == |bitmap| ==> SumOnes(bitmap, words) == |UsedSet(bitmap)|
  {
    if words == 0 {
      assert UsedBelow(bitmap, 0) == {};
    } else {
      SumOnesIsUsed(bitmap, words - 1);
      CountOnesIsSize(bitmap, words - 1, 64);
    }
    if words == |bitmap| {
      assert UsedSet(bitmap) == UsedBelow(bitmap, 64 * words);
    }
  }

  // ---------------------------------------------------------------------
  // First fit
  // ---------------------------------------------------------------------

  ghost predicate FreeRun(used: set<nat>, start: nat, len: nat) {
    forall s :: start <= s < start + len ==> s !in used
  }

  // The least start at or after `from` of a free run of `len` sectors.
  ghost function FirstFit(used: set<nat>, total: nat, len: nat, from: nat): (r: Option<nat>)
    ensures r.Some? ==>
      from <= r.value && r.value + len <= total && FreeRun(used, r.value, len)
      && forall t :: from <= t < r.value ==> !FreeRun(used, t, len)
    ensures r.None? ==> forall t :: from <= t && t + len <= total ==> !FreeRun(used, t, len)
    decreases total - from
  {
    if total < from + len then None
    else if FreeRun(used, from, len) then Some(from)
    else if from < total then FirstFit(used, total, len, from + 1)
    else None
  }

  // First fit is the only function with that specification.
  lemma FirstFitUnique(used: set<nat>, total: nat, len: nat, start: nat)
    requires FIRST_DATA_SECTOR <= start && start + len <= total && FreeRun(used, start, len)
    requires forall t :: FIRST_DATA_SECTOR <= t < start ==> !FreeRun(used, t, len)
    ensures FirstFit(used, total, len, FIRST_DATA_SECTOR) == Some(start)
  {
    var r := FirstFit(used, total, len, FIRST_DATA_SECTOR);
    assert r.Some?;
  }

  // ---------------------------------------------------------------------
  // The bitmap on disk
  // ---------------------------------------------------------------------

  // The bytes of a word in little-endian order, as `to_le_bytes` gives them.
  function WordBytes(w: bv64): (s: seq<byte>)
    ensures |s| == 8
  {
    [ByteValue(w & 0xff), ByteValue((w >> 8) & 0xff), ByteValue((w >> 16) & 0xff), ByteValue((w >> 24) & 0xff),
     ByteValue((w >> 32) & 0xff), ByteValue((w >> 40) & 0xff), ByteValue((w >> 48) & 0xff), ByteValue((w >> 56) & 0xff)]
  }

  function ByteValue(x: bv64): byte
    requires x < 256
  {
    (x as bv8) as int
  }

  function ByteBits(b: byte): bv64 {
    (b as bv8) as bv64
  }

  function WordOf(s: seq<byte>): bv64
    requires |s| == 8
  {
    ByteBits(s[0]) | (ByteBits(s[1]) << 8) | (ByteBits(s[2]) << 16) | (ByteBits(s[3]) << 24)
    | (ByteBits(s[4]) << 32) | (ByteBits(s[5]) << 40) | (ByteBits(s[6]) << 48) | (ByteBits(s[7]) << 56)
  }

  function BitmapBytes(bitmap: seq<bv64>): Sector {
    seq(512, j requires 0 <= j < 512 => if j / 8 < |bitmap| then WordBytes(bitmap[j / 8])[j % 8] else 0)
  }

  function LoadBitmap(sector0: Sector, words: nat): seq<bv64> {
    seq(words, i requires 0 <= i < words =>
      if i < WORDS_IN_SECTOR then WordOf(sector0[8 * i..8 * i + 8]) else 0)
  }

  lemma ByteRoundTrip(x: bv64)
    requires x < 256
    ensures ByteBits(ByteValue(x)) == x
  {
    NarrowRoundTrip(x);
    IntRoundTrip(x as bv8);
  }

  lemma NarrowRoundTrip(x: bv64)
    requires x < 256
    ensures ((x as bv8) as bv64) == x
  {
  }

  lemma IntRoundTrip(x: bv8)
    ensures ((x as int) as bv8) == x
  {
  }

  lemma RejoinBytes(w: bv64)
    ensures (w & 0xff) | (((w >> 8) & 0xff) << 8) | (((w >> 16) & 0xff) << 16) | (((w >> 24) & 0xff) << 24)
         | (((w >> 32) & 0xff) << 32) | (((w >> 40) & 0xff) << 40) | (((w >> 48) & 0xff) << 48) | (((w >> 56) & 0xff) << 56) == w
  {
  }

  lemma WordRoundTrip(w: bv64)
    ensures WordOf(WordBytes(w)) == w
  {
    hide ByteValue, ByteBits;
    RejoinBytes(w);
    ByteRoundTrip(w & 0xff);
    ByteRoundTrip((w >> 8) & 0xff);
    ByteRoundTrip((w >> 16) & 0xff);
    ByteRoundTrip((w >> 24) & 0xff);
    ByteRoundTrip((w >> 32) & 0xff);
    ByteRoundTrip((w >> 40) & 0xff);
    ByteRoundTrip((w >> 48) & 0xff);
    ByteRoundTrip((w >> 56) & 0xff);
  }

  lemma BytesOfWord(bitmap: seq<bv64>, i: nat)
    requires i < |bitmap| && i < WORDS_IN_SECTOR
    ensures BitmapBytes(bitmap)[8 * i..8 * i + 8] == WordBytes(bitmap[i])
  {
    hide WordBytes;
    forall k | 0 <= k < 8
      ensures BitmapBytes(bitmap)[8 * i + k] == WordBytes(bitmap[i])[k]
    {
      assert (8 * i + k) / 8 == i && (8 * i + k) % 8 == k;
    }
  }

  // Flushing and loading gives back every word that fits into sector 0 ...
  lemma BitmapRoundTrip(bitmap: seq<bv64>)
    ensures forall i :: 0 <= i < |bitmap| ==>
      LoadBitmap(BitmapBytes(bitmap), |bitmap|)[i] == if i < WORDS_IN_SECTOR then bitmap[i] else 0
  {
    var bytes := BitmapBytes(bitmap);
    forall i | 0 <= i < |bitmap| && i < WORDS_IN_SECTOR
      ensures WordOf(bytes[8 * i..8 * i + 8]) == bitmap[i]
    {
      BytesOfWord(bitmap, i);
      WordRoundTrip(bitmap[i]);
    }
  }

  // ... so the used set survives exactly up to the 4096 sectors those words cover.
  lemma ReloadedUsed(bitmap: seq<bv64>)
    ensures UsedSet(LoadBitmap(BitmapBytes(bitmap), |bitmap|)) == set s | s in UsedSet(bitmap) && s < 4096
    ensures |bitmap| <= WORDS_IN_SECTOR ==> LoadBitmap(BitmapBytes(bitmap), |bitmap|) == bitmap
  {
    BitmapRoundTrip(bitmap);
    var b := LoadBitmap(BitmapBytes(bitmap), |bitmap|);
    forall s: nat | s < 64 * |bitmap|
      ensures BitAt(b, s) == (BitAt(bitmap, s) && s < 4096)
    {
      assert b[s / 64] == if s / 64 < 64 then bitmap[s / 64] else 0;
      ZeroHasNoBits(s % 64);
    }
  }

  lemma ZeroHasNoBits(i: nat)
    requires i < 64
    ensures !BitSet(0, i)
  {
  }

  // ---------------------------------------------------------------------
  // The disk as a value
  // ---------------------------------------------------------------------

  const ZERO_SECTOR: Sector := seq(512, _ => 0)

  datatype DiskState = DiskState(total: nat, bitmap: seq<bv64>, sectors: seq<Sector>) {

    predicate Valid() {
      8 <= total && |bitmap| == (total + 63) / 64 && |sectors| == total
    }

    ghost function Used(): set<nat> {
      UsedSet(bitmap)
    }

    function Flush(): DiskState
      requires Valid()
    {
      this.(sectors := sectors[0 := BitmapBytes(bitmap)])
    }

    // What `allocate_sectors` is meant to do: take the first free run.  A request
    // for no sectors still looks for one free sector but marks nothing.
    ghost function Allocate(count: nat): (DiskState, Option<nat>)
      requires Valid()
    {
      match FirstFit(Used(), total, Max(count, 1), FIRST_DATA_SECTOR)
      case Some(start) => 
        MarkRun(bitmap, start, count);
        (this.(bitmap := MarkUsedRange(bitmap, start, count)).Flush(), Some(start))
      case None => (this, None)
    }

    function Free(start: nat, count: nat): DiskState
      requires Valid()
    {
      UnmarkRun(bitmap, start, count);
      this.(bitmap := MarkFreeRange(bitmap, start, count)).Flush()
    }

    function Write(sector: nat, data: Sector): DiskState
      requires sector < |sectors|
    {
      this.(sectors := sectors[sector := data])
    }

    // Starting again from the same image: only sector 0 tells what is used.
    function Reload(): DiskState
      requires Valid()
    {
      this.(bitmap := LoadBitmap(sectors[0], |bitmap|))
    }
  }

  // The effect of an allocation on the used set: exactly the run it returns, which
  // was free, lies in the data area and is the lowest such run; failure means that
  // there is none.
  lemma AllocateSpec(d: DiskState, count: nat)
    requires d.Valid()
    ensures var (d', r) := d.Allocate(count);
      && d'.Valid() && d'.total == d.total
      && (r.Some? ==>
            && FIRST_DATA_SECTOR <= r.value && r.value + count <= d.total
            && Run(r.value, count) !! d.Used()
            && d'.Used() == d.Used() + Run(r.value, count)
            && |d'.Used()| == |d.Used()| + count
            && d'.sectors == d.sectors[0 := BitmapBytes(d'.bitmap)])
      && (r.None? ==> d' == d)
      && (r.None? ==>
            forall t :: FIRST_DATA_SECTOR <= t && t + Max(count, 1) <= d.total ==> !FreeRun(d.Used(), t, Max(count, 1)))
  {
    var (d', r) := d.Allocate(count);
    if r.Some? {
      MarkRun(d.bitmap, r.value, count);
      RunSize(r.value, count);
      assert FreeRun(d.Used(), r.value, Max(count, 1));
    }
  }

  lemma {:induction false} RunSize(start: nat, count: nat)
    ensures |Run(start, count)| == count
  {
    if count == 0 {
      assert Run(start, 0) == {};
    } else {
      RunSize(start, count - 1);
      assert Run(start, count) == Run(start, count - 1) + {start + count - 1};
    }
  }

  // Freeing gives back exactly the data sectors of the range.
  lemma FreeSpec(d: DiskState, start: nat, count: nat)
    requires d.Valid()
    ensures d.Free(start, count).Valid()
    ensures d.Free(start, count).Used() == d.Used() - DataRun(start, count)
    ensures FIRST_DATA_SECTOR <= start ==> d.Free(start, count).Used() == d.Used() - Run(start, count)
  {
    UnmarkRun(d.bitmap, start, count);
    if FIRST_DATA_SECTOR <= start {
      assert DataRun(start, count) == Run(start, count);
    }
  }

  // Freeing what was just allocated restores the bitmap's meaning.
  lemma FreeUndoesAllocate(d: DiskState, count: nat)
    requires d.Valid() && d.Allocate(count).1.Some?
    ensures d.Allocate(count).0.Valid()
    ensures d.Allocate(count).0.Free(d.Allocate(count).1.value, count).Used() == d.Used()
  {
    AllocateSpec(d, count);
    var (d', r) := d.Allocate(count);
    FreeSpec(d', r.value, count);
  }

  // No used sector lies beyond the 4096 that sector 0 can describe.
  ghost predicate Describable(d: DiskState) {
    forall s :: s in d.Used() ==> s < 4096
  }

  // After a flush, a restart keeps the used set exactly in that case.
  lemma RestartKeepsUsed(d: DiskState)
    requires d.Valid()
    ensures d.Flush().Reload().Valid()
    ensures d.Flush().Reload().Used() == d.Used() <==> Describable(d)
    ensures d.total <= 4096 ==> d.Flush().Reload() == d.Flush()
  {
    ReloadedUsed(d.bitmap);
    var kept := set s | s in d.Used() && s < 4096;
    if kept == d.Used() {
      forall s | s in d.Used() ensures s < 4096 {
        assert s in kept;
      }
    }
  }

  // ---------------------------------------------------------------------
  // Byte strings on runs of sectors
  // ---------------------------------------------------------------------

  // The `i`th 512-byte piece of `data`, padded with zeros.
  function SectorOf(data: seq<byte>, i: nat): Sector {
    seq(512, j requires 0 <= j < 512 => if 512 * i + j < |data| then data[512 * i + j] else 0)
  }

  function WriteRun(d: DiskState, start: nat, data: seq<byte>, count: nat): DiskState {
    d.(sectors := seq(|d.sectors|, s requires 0 <= s < |d.sectors| =>
      if InRun(s, start, count) then SectorOf(data, s - start) else d.sectors[s]))
  }

  function ReadRun(d: DiskState, start: nat, count: nat): seq<byte>
    requires start + count <= |d.sectors|
  {
    seq(512 * count, j requires 0 <= j < 512 * count => d.sectors[start + j / 512][j % 512])
  }

  lemma WriteRunNext(d: DiskState, start: nat, data: seq<byte>, count: nat)
    requires start + count < |d.sectors|
    ensures WriteRun(d, start, data, count + 1) == WriteRun(d, start, data, count).Write(start + count, SectorOf(data, count))
  {
  }

  lemma WriteRunNone(d: DiskState, start: nat, data: seq<byte>)
    ensures WriteRun(d, start, data, 0) == d
  {
  }

  lemma ReadRunNext(d: DiskState, start: nat, count: nat)
    requires start + count < |d.sectors|
    ensures ReadRun(d, start, count + 1) == ReadRun(d, start, count) + d.sectors[start + count]
  {
    var r := ReadRun(d, start, count) + d.sectors[start + count];
    forall j | 0 <= j < 512 * (count + 1)
      ensures ReadRun(d, start, count + 1)[j] == r[j]
    {
      if 512 * count <= j {
        assert j / 512 == count && j % 512 == j - 512 * count;
      }
    }
  }

  // What was written on a run that is long enough is read back, followed by zeros.
  lemma RunRoundTrip(d: DiskState, start: nat, data: seq<byte>, count: nat)
    requires start + count <= |d.sectors| && |data| <= 512 * count
    ensures ReadRun(WriteRun(d, start, data, count), start, count) == data + seq(512 * count - |data|, _ => 0)
    ensures ReadRun(WriteRun(d, start, data, count), start, count)[..|data|] == data
  {
    var r := ReadRun(WriteRun(d, start, data, count), start, count);
    forall j | 0 <= j < 512 * count
      ensures r[j] == if j < |data| then data[j] else 0
    {
      assert start <= start + j / 512 < start + count;
      assert 512 * (j / 512) + j % 512 == j;
    }
    assert r == data + seq(512 * count - |data|, _ => 0);
  }

  // Sectors outside a run keep what they hold.
  lemma RunFrame(d: DiskState, d': DiskState, start: nat, count: nat)
    requires |d'.sectors| == |d.sectors| && start + count <= |d.sectors|
    requires forall s :: start <= s < start + count ==> d'.sectors[s] == d.sectors[s]
    ensures ReadRun(d', start, count) == ReadRun(d, start, count)
  {
    forall j | 0 <= j < 512 * count
      ensures ReadRun(d', start, count)[j] == ReadRun(d, start, count)[j]
    {
      assert start <= start + j / 512 < start + count;
    }
  }

  // ---------------------------------------------------------------------
  // The disk as an object
  // ---------------------------------------------------------------------

  class VirtualDisk {
    const total: nat
    var bitmap: seq<bv64>
    var sectors: seq<Sector>

    function Model(): DiskState
      reads this
    {
      DiskState(total, bitmap, sectors)
    }

    ghost predicate Valid()
      reads this
    {
      Model().Valid()
    }

    // An image that is long enough is reused as far as the disk goes; otherwise a blank
    // disk is made, on which the source marks sectors 0 to 2 (sector 3 is kept back only
    // by the allocator).
    constructor (totalSectors: nat, image: Option<seq<Sector>>)
      requires 8 <= totalSectors
      requires image.Some? ==> totalSectors <= |image.value|
      ensures Valid() && total == totalSectors
      ensures image.Some? ==> sectors == image.value[..total] && bitmap == LoadBitmap(image.value[0], (total + 63) / 64)
      ensures image.None? ==> Model().Used() == Run(0, 3) && sectors == seq(total, _ => ZERO_SECTOR)
    {
      var words := (totalSectors + 63) / 64;
      total := totalSectors;
      if image.Some? {
        sectors := image.value[..totalSectors];
        bitmap := LoadBitmap(image.value[0], words);
      } else {
        sectors := seq(totalSectors, _ => ZERO_SECTOR);
        ghost var blank: seq<bv64> := seq(words, _ => 0);
        bitmap := MarkUsedRange(seq(words, _ => 0), 0, 3);
        MarkRun(blank, 0, 3);
        BlankUsed(words);
      }
    }

    method CheckSector(sector: nat) returns (r: Result<(), DiskError>)
      requires Valid()
      ensures r == if sector < total then Ok(()) else Err(InvalidSector(sector, total - 1))
    {
      if sector >= total {
        return Err(InvalidSector(sector, total - 1));
      }
      return Ok(());
    }

    method ReadSector(sector: nat) returns (r: Result<Sector, DiskError>)
      requires Valid()
      ensures r == if sector < total then Ok(sectors[sector]) else Err(InvalidSector(sector, total - 1))
    {
      var c := CheckSector(sector);
      if c.Err? {
        return Err(c.error);
      }
      return Ok(sectors[sector]);
    }

    method WriteSector(sector: nat, buf: seq<byte>) returns (r: Result<(), DiskError>)
      requires Valid()
      modifies this`sectors
      ensures Valid()
      ensures sector >= total ==> r == Err(InvalidSector(sector, total - 1)) && sectors == old(sectors)
      ensures sector < total && |buf| != SECTOR_SIZE ==> r == Err(BadLength) && sectors == old(sectors)
      ensures sector < total && |buf| == SECTOR_SIZE ==> r == Ok(()) && Model() == old(Model()).Write(sector, buf)
    {
      var c := CheckSector(sector);
      if c.Err? {
        return Err(c.error);
      }
      if |buf| != SECTOR_SIZE {
        return Err(BadLength);
      }
      sectors := sectors[sector := buf];
      return Ok(());
    }

    method FlushBitmap()
      requires Valid()
      modifies this`sectors
      ensures Valid() && Model() == old(Model()).Flush()
    {
      var _ := WriteSector(0, BitmapBytes(bitmap));
    }

    method AllocateSectors(count: nat) returns (r: Result<nat, DiskError>)
      requires Valid()
      modifies this
      ensures Valid()
      ensures var (d, start) := old(Model()).Allocate(count);
        Model() == d && r == match start case Some(s) => Ok(s) case None => Err(OutOfSpace)
    {
      hide BitSet, MarkUsedRange, BitmapBytes;
      ghost var used := UsedSet(bitmap);
      ghost var len := Max(count, 1);
      var runStart, runLen := FIRST_DATA_SECTOR, 0;
      var s := FIRST_DATA_SECTOR;
      while s < total
        invariant Model() == old(Model())
        invariant FIRST_DATA_SECTOR <= s <= total
        invariant runLen < len
        invariant runLen > 0 ==> FIRST_DATA_SECTOR <= runStart && runStart + runLen == s
        invariant FreeRun(used, s - runLen, runLen)
        invariant s - runLen == FIRST_DATA_SECTOR || (FIRST_DATA_SECTOR <= s - runLen - 1 && s - runLen - 1 in used)
        invariant forall t :: FIRST_DATA_SECTOR <= t && t + len <= s ==> !FreeRun(used, t, len)
      {
        if !BitAt(bitmap, s) {
          if runLen == 0 {
            runStart := s;
          }
          runLen := runLen + 1;
          if runLen >= count {
            FirstFitUnique(used, total, len, runStart);
            MarkLoop(runStart, count);
            FlushBitmap();
            return Ok(runStart);
          }
        } else {
          assert s in used;
          runLen := 0;
        }
        s := s + 1;
      }
      return Err(OutOfSpace);
    }

    method MarkLoop(start: nat, count: nat)
      requires Valid() && start + count <= total
      modifies this`bitmap
      ensures Valid() && bitmap == MarkUsedRange(old(bitmap), start, count)
    {
      MarkRun(bitmap, start, 0);
      for i := 0 to count
        invariant Valid() && bitmap == MarkUsedRange(old(bitmap), start, i)
      {
        MarkRun(old(bitmap), start, i + 1);
        bitmap := MarkUsed(bitmap, start + i);
      }
    }

    // The single-sector form finds the same sector as a request for one.
    method AllocSector() returns (r: Option<nat>)
      requires Valid()
      modifies this
      ensures Valid()
      ensures (Model(), r) == old(Model()).Allocate(1)
    {
      ghost var used := UsedSet(bitmap);
      for s := FIRST_DATA_SECTOR to total
        invariant Model() == old(Model())
        invariant forall t :: FIRST_DATA_SECTOR <= t < s ==> t in used && !FreeRun(used, t, 1)
      {
        if !BitAt(bitmap, s) {
          FirstFitUnique(used, total, 1, s);
          MarkLoop(s, 1);
          FlushBitmap();
          return Some(s);
        }
        assert s in used;
      }
      return None;
    }

    method FreeSectors(start: nat, count: nat)
      requires Valid()
      modifies this
      ensures Valid() && Model() == old(Model()).Free(start, count)
    {
      hide MarkFree, UsedSet, BitmapBytes, DataRun;
      UnmarkRun(bitmap, start, count);
      for i := 0 to count
        invariant Valid() && bitmap == MarkFreeRange(old(bitmap), start, i) && sectors == old(sectors)
      {
        UnmarkRun(old(bitmap), start, i + 1);
        if start + i >= FIRST_DATA_SECTOR {
          bitmap := MarkFree(bitmap, start + i);
        }
      }
      FlushBitmap();
    }

    method UsedSectorsCount() returns (n: nat)
      requires Valid()
      ensures n == |Model().Used()|
    {
      n := 0;
      for i := 0 to |bitmap|
        invariant n == SumOnes(bitmap, i)
      {
        n := n + CountOnes(bitmap[i], 64);
      }
      SumOnesIsUsed(bitmap, |bitmap|);
    }
  }

  lemma BlankUsed(words: nat)
    ensures UsedSet(seq(words, _ => 0 as bv64)) == {}
  {
    var blank := seq(words, _ => 0 as bv64);
    forall s | s in UsedSet(blank)
      ensures false
    {
      ZeroHasNoBits(s % 64);
    }
  }
}
