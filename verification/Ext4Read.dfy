/** Reading ext4 files through the sector device (os/libs/ext4_rs/src/ext4_interface.rs,
    ext4_structs/{inode,extent}.rs, os/src/drivers/block/virtio_blk.rs, os/src/fs/{inode,ext4/inode}.rs). */
module Ext4Read {
  import opened Bytes
  import opened Sv39

  const SECTOR: nat := 512
  const BLOCK_SIZE: nat := 4096
  /** EXT_INIT_MAX_LEN; a larger count marks an extent as unwritten. */
  const INIT_MAX_LEN: nat := 32768

  // ---- the device

  /** Start of the sector that holds a byte. */
  function Floor512(x: nat): nat { SECTOR * (x / SECTOR) }

  lemma SectorOf(x: nat)
    ensures Floor512(x) + x % SECTOR == x && x % SECTOR < SECTOR && SECTOR * (x / SECTOR + 1) == Floor512(x) + SECTOR
  {
  }

  /** On a device of whole sectors the sector of a byte is there exactly if the byte is. */
  lemma SectorEnd(n: nat, x: nat)
    requires n % SECTOR == 0
    ensures Floor512(x) + SECTOR <= n <==> x < n
  {
  }

  lemma SliceTail(d: seq<Byte>, a: nat, n: nat, k: nat)
    requires a + n <= |d| && k <= n
    ensures d[a..a + n][k..] == d[a + k..a + n]
  {
    var x, y := d[a..a + n][k..], d[a + k..a + n];
    forall i | 0 <= i < |y| ensures x[i] == y[i] {}
  }

  /** Patching one sector in place. */
  lemma PatchSector(d: seq<Byte>, a: nat, at: nat, part: seq<Byte>)
    requires a + SECTOR <= |d| && at + |part| <= SECTOR
    ensures Overwrite(d, a, Overwrite(d[a..a + SECTOR], at, part)) == Overwrite(d, a + at, part)
  {
    var s := Overwrite(d[a..a + SECTOR], at, part);
    var x, y := Overwrite(d, a, s), Overwrite(d, a + at, part);
    forall i | 0 <= i < |d| ensures x[i] == y[i] {
      if a <= i < a + SECTOR {
        assert x[a..a + |s|][i - a] == s[i - a];
        if at <= i - a < at + |part| {
          assert s[at..at + |part|][i - a - at] == part[i - a - at];
          assert y[a + at..a + at + |part|][i - a - at] == part[i - a - at];
        }
      }
    }
  }

  /** VirtIOBlock over a device of 512-byte sectors. */
  class Device {
    var disk: seq<Byte>

    constructor (disk: seq<Byte>)
      ensures this.disk == disk
    {
      this.disk := disk;
    }

    /** `read_blocks`: `n` sectors; `None` past the end, where the driver's caller panics. */
    method ReadBlocks(id: nat, n: nat) returns (r: Option<seq<Byte>>)
      ensures r == if SECTOR * (id + n) <= |disk| then Some(disk[SECTOR * id..SECTOR * (id + n)]) else None
    {
      if SECTOR * (id + n) > |disk| { return None; }
      return Some(disk[SECTOR * id..SECTOR * (id + n)]);
    }

    method WriteBlock(id: nat, data: seq<Byte>)
      requires SECTOR * (id + 1) <= |disk| && |data| == SECTOR
      modifies this
      ensures disk == Overwrite(old(disk), SECTOR * id, data)
    {
      disk := Overwrite(disk, SECTOR * id, data);
    }

    /** `read_offset`: eight sectors from the one that holds `offset`, less the bytes before it. */
    method ReadOffset(offset: nat) returns (r: Option<seq<Byte>>)
      ensures r.Some? <==> Floor512(offset) + BLOCK_SIZE <= |disk|
      ensures r.Some? ==> offset <= Floor512(offset) + BLOCK_SIZE && r.value == disk[offset..Floor512(offset) + BLOCK_SIZE]
    {
      SectorOf(offset);
      var buf := ReadBlocks(offset / SECTOR, 8);
      if buf.None? { return None; }
      SliceTail(disk, Floor512(offset), BLOCK_SIZE, offset % SECTOR);
      return Some(buf.value[offset % SECTOR..]);
    }

    /** `write_offset`: read, patch and write back sector by sector; false if the device ends. */
    method WriteOffset(offset: nat, data: seq<Byte>) returns (ok: bool)
      requires |disk| % SECTOR == 0
      modifies this
      ensures ok <==> data == [] || offset + |data| <= |old(disk)|
      ensures ok && data != [] ==> disk == Overwrite(old(disk), offset, data)
      ensures data == [] ==> disk == old(disk)
    {
      hide Overwrite, Patched, Floor512;
      ghost var d0 := disk;
      var written := 0;
      if offset + |data| <= |d0| { PatchedNone(d0, offset, data); }
      while written < |data|
        invariant 0 <= written <= |data| && |disk| == |d0| && (written > 0 ==> offset + written <= |d0|)
        invariant offset + |data| <= |d0| ==> Patched(d0, disk, offset, data, written)
        invariant written == 0 ==> disk == d0
      {
        var x := offset + written;
        var id, at := x / SECTOR, x % SECTOR;
        SectorOf(x);
        SectorEnd(|disk|, x);
        Sectors(id, x);
        var copy := if |data| - written < SECTOR - at then |data| - written else SECTOR - at;
        var buf := ReadBlocks(id, 1);
        if buf.None? { return false; }
        var part := data[written..written + copy];
        ghost var d1 := disk;
        WriteBlock(id, Overwrite(buf.value, at, part));
        PatchSector(d1, Floor512(x), at, part);
        if offset + |data| <= |d0| { PatchedMore(d0, d1, disk, offset, data, written, copy); }
        LastInside(|disk|, x, copy);
        written := written + copy;
      }
      if data != [] { PatchedAll(d0, disk, offset, data); }
      ok := true;
    }
  }

  lemma Sectors(id: nat, x: nat)
    requires id == x / SECTOR
    ensures SECTOR * id == Floor512(x) && SECTOR * (id + 1) == Floor512(x) + SECTOR
  {
  }

  lemma LastInside(n: nat, x: nat, copy: nat)
    requires Floor512(x) + SECTOR <= n && x % SECTOR + copy <= SECTOR
    ensures x + copy <= n
  {
  }

  // ---- extents

  datatype Extent = Extent(first: nat, count: nat, hi: nat, lo: nat)

  ghost predicate Fields(e: Extent) { e.first < TWO32 && e.count < 0x1_0000 && e.hi < 0x1_0000 && e.lo < TWO32 }

  /** Words `3 + 3k` to `5 + 3k` of the inode's block array. */
  function ExtentAt(words: seq<nat>, k: nat): Extent
    requires 3 * k + 6 <= |words|
  {
    Extent(words[3 * k + 3], words[3 * k + 4] % 0x1_0000, words[3 * k + 4] / 0x1_0000, words[3 * k + 5])
  }

  /** Entry count and depth of the header. */
  function Entries(words: seq<nat>): nat requires |words| >= 3 { words[0] / 0x1_0000 }
  function Depth(words: seq<nat>): nat requires |words| >= 3 { words[1] / 0x1_0000 }

  /** A root node of depth 0 as it lies in the inode. */
  function RootWords(es: seq<Extent>): (w: seq<nat>)
    ensures |w| == 3 + 3 * |es|
  {
    if es == [] then [0xF30A, 4, 0]
    else
      var n := |es| - 1;
      var w := RootWords(es[..n]);
      w[0 := 0xF30A + 0x1_0000 * |es|] + [es[n].first, es[n].count + 0x1_0000 * es[n].hi, es[n].lo]
  }

  /** A node of depth 0 that holds the entries it counts. */
  predicate RootOk(words: seq<nat>) { |words| >= 3 && Depth(words) == 0 && 3 + 3 * Entries(words) <= |words| }

  /** The extents in the inode's block array. */
  function Extents(words: seq<nat>): (es: seq<Extent>)
    requires RootOk(words)
    ensures |es| == Entries(words) && forall k | 0 <= k < |es| :: es[k] == ExtentAt(words, k)
  {
    seq(Entries(words), k requires 0 <= k < Entries(words) => ExtentAt(words, k))
  }

  /** `load_from_header` for a node of depth 0. */
  method LoadFromHeader(words: seq<nat>) returns (es: seq<Extent>)
    requires RootOk(words)
    ensures es == Extents(words)
  {
    es := [];
    var en := 0;
    while en < Entries(words)
      invariant 0 <= en <= Entries(words) && |es| == en && forall k | 0 <= k < en :: es[k] == ExtentAt(words, k)
    {
      es := es + [ExtentAt(words, en)];
      en := en + 1;
    }
  }

  /** The block array as it lies on disk. */
  function OnDisk(words: seq<nat>): (b: seq<Byte>)
    ensures |b| == 4 * |words|
  {
    if words == [] then [] else OnDisk(words[..|words| - 1]) + ToLE(words[|words| - 1], 4)
  }

  lemma {:induction false} OnDiskAt(words: seq<nat>, i: nat)
    requires i < |words|
    ensures OnDisk(words)[4 * i..4 * i + 4] == ToLE(words[i], 4)
  {
    hide ToLE;
    var n := |words| - 1;
    if i < n {
      OnDiskAt(words[..n], i);
      var x, y := OnDisk(words[..n]), OnDisk(words);
      forall k | 4 * i <= k < 4 * i + 4 ensures y[k] == x[k] {}
      assert y[4 * i..4 * i + 4] == x[4 * i..4 * i + 4];
    }
  }

  lemma FourBytes(w: nat)
    ensures ToLE(w, 4) == [w % 256, w / 256 % 256, w / 256 / 256 % 256, w / 256 / 256 / 256 % 256]
  {
    var w1 := w / 256;
    var w2 := w1 / 256;
    var w3 := w2 / 256;
    assert ToLE(w3, 1) == [w3 % 256];
    assert ToLE(w2, 2) == [w2 % 256, w3 % 256];
    assert ToLE(w1, 3) == [w1 % 256, w2 % 256, w3 % 256];
  }

  lemma TwoBytes(s: seq<Byte>)
    requires |s| == 2
    ensures FromLE(s) == s[0] as int + 256 * (s[1] as int)
  {
    assert s[1..] == [s[1]] && FromLE(s[1..]) == s[1];
  }

  /** A little-endian word: all of it, its low half, its high half. */
  lemma Halves(w: nat, s: seq<Byte>)
    requires w < TWO32 && s == ToLE(w, 4)
    ensures FromLE(s) == w && FromLE(s[0..2]) == w % 0x1_0000 && FromLE(s[2..4]) == w / 0x1_0000
  {
    hide ToLE, FromLE;
    FourBytes(w);
    TwoBytes(s[0..2]);
    TwoBytes(s[2..4]);
    Pow4();
    LERoundTrip(w, 4);
  }

  lemma Pow4()
    ensures Pow256(4) == TWO32
  {
  }

  lemma WordOnDisk(words: seq<nat>, i: nat)
    requires i < |words| && words[i] < TWO32
    ensures var b, at := OnDisk(words), 4 * i;
            FromLE(b[at..at + 4]) == words[i] && FromLE(b[at..at + 2]) == words[i] % 0x1_0000 && FromLE(b[at + 2..at + 4]) == words[i] / 0x1_0000
  {
    hide ToLE, FromLE, OnDisk;
    var b, at := OnDisk(words), 4 * i;
    OnDiskAt(words, i);
    Halves(words[i], b[at..at + 4]);
    assert b[at..at + 4][0..2] == b[at..at + 2] && b[at..at + 4][2..4] == b[at + 2..at + 4];
  }

  /** The layout of `struct ext4_extent_header` and `struct ext4_extent` on disk: entry count and
      depth at bytes 2 and 6; from byte 12 on, 12 bytes an extent, with the first block, the count,
      the high 16 and the low 32 bits of the start. */
  lemma ExtentLayout(words: seq<nat>, k: nat)
    requires 3 * k + 6 <= |words| && forall i | 0 <= i < |words| :: words[i] < TWO32
    ensures var b, e, at := OnDisk(words), ExtentAt(words, k), 12 + 12 * k;
            && e.first == FromLE(b[at..at + 4]) && e.count == FromLE(b[at + 4..at + 6])
            && e.hi == FromLE(b[at + 6..at + 8]) && e.lo == FromLE(b[at + 8..at + 12])
            && Entries(words) == FromLE(b[2..4]) && Depth(words) == FromLE(b[6..8])
  {
    hide FromLE, OnDisk;
    WordOnDisk(words, 0);
    WordOnDisk(words, 1);
    WordOnDisk(words, 3 * k + 3);
    WordOnDisk(words, 3 * k + 4);
    WordOnDisk(words, 3 * k + 5);
  }

  /** The read path finds in a root node exactly the extents it was made of. */
  lemma {:induction false} RootRoundTrip(es: seq<Extent>)
    requires forall k | 0 <= k < |es| :: Fields(es[k])
    ensures RootOk(RootWords(es)) && Extents(RootWords(es)) == es
  {
    if es != [] {
      var n := |es| - 1;
      RootRoundTrip(es[..n]);
      var w, w' := RootWords(es[..n]), RootWords(es);
      forall k | 0 <= k < |es| ensures ExtentAt(w', k) == es[k] {
        if k < n {
          assert ExtentAt(w, k) == Extents(w)[k] == es[..n][k];
        } else {
          Unpack(es[n].count, es[n].hi);
        }
      }
      Unpack(0xF30A, |es|);
    }
  }

  lemma Unpack(c: nat, h: nat)
    requires c < 0x1_0000
    ensures (c + 0x1_0000 * h) % 0x1_0000 == c && (c + 0x1_0000 * h) / 0x1_0000 == h
  {
  }

  /** The test of `find_extent`: the raw count, and an end that wraps at 2^32. */
  predicate Covers(e: Extent, i: nat) { e.first <= i < (e.first + e.count) % TWO32 }

  /** The least extent from `k` on that passes the test for block `i`. */
  function FirstCover(es: seq<Extent>, i: nat, k: nat): (r: nat)
    requires k <= |es|
    ensures k <= r <= |es| && (r < |es| ==> Covers(es[r], i)) && forall j | k <= j < r :: !Covers(es[j], i)
    decreases |es| - k
  {
    if k == |es| || Covers(es[k], i) then k else FirstCover(es, i, k + 1)
  }

  /** The block that `get_blocks_new` computes, in 32 bits: the high part of the start is dropped.
      `None` where `path.last().unwrap()` panics. */
  function Lookup(es: seq<Extent>, i: nat): Option<nat>
  {
    var k := FirstCover(es, i, 0);
    if k == |es| then None else Some((i - es[k].first + es[k].lo) % TWO32)
  }

  /** `find_extent_new` on the inode's words, the leaf case of `find_extent`, then `get_blocks_new`
      without creation. */
  method GetBlock(words: seq<nat>, i: nat) returns (r: Option<nat>)
    requires RootOk(words)
    ensures r == Lookup(Extents(words), i)
  {
    var es := LoadFromHeader(words);
    var k := 0;
    while k < |es|
      invariant 0 <= k <= |es| && FirstCover(es, i, 0) == FirstCover(es, i, k)
    {
      if i >= es[k].first && i < (es[k].first + es[k].count) % TWO32 {
        return Some((i - es[k].first + es[k].lo) % TWO32);
      }
      k := k + 1;
    }
    return None;
  }

  // ---- what extents promise

  predicate Unwritten(e: Extent) { e.count > INIT_MAX_LEN }

  /** `get_actual_len`. */
  function ActualLen(e: Extent): nat { if Unwritten(e) then e.count - INIT_MAX_LEN else e.count }

  /** The extent is the one for block `i` of the file. */
  predicate Holds(e: Extent, i: nat) { e.first <= i < e.first + ActualLen(e) }

  /** Where block `i` is: counted from the 48-bit start; 0, no data, in an unwritten extent. */
  function Physical(e: Extent, i: nat): nat
    requires Holds(e, i)
  {
    if Unwritten(e) then 0 else e.lo + TWO32 * e.hi + (i - e.first)
  }

  /** No block of the file has two extents. */
  ghost predicate Disjoint(es: seq<Extent>)
  {
    forall j, k, i | 0 <= j < k < |es| && Holds(es[j], i) :: !Holds(es[k], i)
  }

  /** An initialized extent passes the test exactly for its blocks, unless its end is at or past
      2^32; then it passes for none. */
  lemma CoversIs(e: Extent, i: nat)
    requires Fields(e) && !Unwritten(e)
    ensures Covers(e, i) <==> Holds(e, i) && e.first + e.count < TWO32
  {
    WrapBelow(e.first + e.count);
  }

  /** The lookup is right for a block of an initialized extent, when no unwritten extent passes the
      test for it, exactly if the extent ends below 2^32 and the block's own number is below 2^32. */
  lemma LookupIff(es: seq<Extent>, k: nat, i: nat)
    requires Disjoint(es) && k < |es| && Holds(es[k], i) && !Unwritten(es[k])
    requires forall j | 0 <= j < |es| :: Fields(es[j]) && (Unwritten(es[j]) ==> !Covers(es[j], i))
    ensures Lookup(es, i) == Some(Physical(es[k], i)) <==> es[k].first + es[k].count < TWO32 && Physical(es[k], i) < TWO32
  {
    var r := FirstCover(es, i, 0);
    forall j | 0 <= j < |es| ensures Covers(es[j], i) <==> j == k && es[k].first + es[k].count < TWO32 {
      if !Unwritten(es[j]) { CoversIs(es[j], i); }
      if j != k { OnlyOne(es, j, k, i); }
    }
    if r < |es| {
      LowWord(i - es[k].first + es[k].lo, es[k].hi);
    }
  }

  lemma OnlyOne(es: seq<Extent>, j: nat, k: nat, i: nat)
    requires Disjoint(es) && j < |es| && k < |es| && j != k && Holds(es[k], i)
    ensures !Holds(es[j], i)
  {
  }

  lemma LowWord(x: nat, hi: nat)
    ensures x % TWO32 == x + TWO32 * hi <==> x + TWO32 * hi < TWO32
  {
  }

  /** An unwritten extent: the code takes the raw count for its length and hands out the blocks behind
      it. For its own blocks, which hold no data, that is wrong unless the number happens to be 0 in
      32 bits; and it answers for the 32768 blocks after them as well. */
  lemma UnwrittenLookup(es: seq<Extent>, k: nat, i: nat)
    requires k < |es| && Fields(es[k]) && Unwritten(es[k]) && Covers(es[k], i) && forall j | 0 <= j < k :: !Covers(es[j], i)
    ensures Lookup(es, i) == Some((i - es[k].first + es[k].lo) % TWO32)
    ensures Holds(es[k], i) <==> i < es[k].first + es[k].count - INIT_MAX_LEN
    ensures Holds(es[k], i) ==> (Lookup(es, i) == Some(Physical(es[k], i)) <==> (i - es[k].first + es[k].lo) % TWO32 == 0)
  {
    WrapBelow(es[k].first + es[k].count);
  }

  lemma WrapBelow(x: nat)
    requires x < 2 * TWO32
    ensures x % TWO32 == if x < TWO32 then x else x - TWO32
  {
  }

  /** So an unwritten block hides the written one that follows it. */
  lemma UnwrittenHides()
    ensures var es := [Extent(0, 32769, 0, 100), Extent(1, 1, 0, 200)];
            Disjoint(es) && Holds(es[1], 1) && Physical(es[1], 1) == 200 && Lookup(es, 1) == Some(101)
  {
    var es := [Extent(0, 32769, 0, 100), Extent(1, 1, 0, 200)];
    assert Covers(es[0], 1);
  }

  /** An extent whose blocks cross 2^32, and one whose last block of the file is the last there is. */
  lemma LookupWraps()
    ensures var e := Extent(0, 2, 0, 0xFFFF_FFFF); Holds(e, 1) && Physical(e, 1) == TWO32 && Lookup([e], 1) == Some(0)
    ensures var e := Extent(0xFFFF_FFFF, 1, 0, 7); Holds(e, 0xFFFF_FFFF) && Lookup([e], 0xFFFF_FFFF) == None
  {
    var e, e' := Extent(0, 2, 0, 0xFFFF_FFFF), Extent(0xFFFF_FFFF, 1, 0, 7);
    assert Covers(e, 1) && !Covers(e', 0xFFFF_FFFF);
    assert FirstCover([e], 1, 0) == 0 && FirstCover([e'], 0xFFFF_FFFF, 0) == 1;
  }

  /** The longest initialized extent has 32768 blocks; one more in the count, and it is an unwritten
      extent of one block. */
  lemma LongestExtent(lo: nat)
    requires 0 < lo < TWO32 - 32768
    ensures var e := Extent(0, 32768, 0, lo); Holds(e, 32767) && !Holds(e, 32768) && Physical(e, 32767) == lo + 32767 && Lookup([e], 32767) == Some(lo + 32767)
    ensures var e := Extent(0, 32769, 0, lo); Holds(e, 0) && !Holds(e, 1) && Physical(e, 0) == 0 && Lookup([e], 0) == Some(lo)
  {
    var e, e' := Extent(0, 32768, 0, lo), Extent(0, 32769, 0, lo);
    assert Covers(e, 32767) && Covers(e', 0);
    assert FirstCover([e], 32767, 0) == 0 && FirstCover([e'], 0, 0) == 0;
  }

  // ---- file bytes

  /** Byte `p` of the file as the read path sees it: block 0 stands for no data. */
  function RawByte(disk: seq<Byte>, es: seq<Extent>, p: nat): Byte
  {
    match Lookup(es, p / BLOCK_SIZE)
    case None => 0
    case Some(b) => if b != 0 && BLOCK_SIZE * b + p % BLOCK_SIZE < |disk| then disk[BLOCK_SIZE * b + p % BLOCK_SIZE] else 0
  }

  /** The block is found, and the eight sectors read from position `at` in it are on the device. */
  predicate PartOk(disk: seq<Byte>, es: seq<Extent>, i: nat, at: nat)
  {
    var b := Lookup(es, i);
    b.Some? && (b.value == 0 || Floor512(BLOCK_SIZE * b.value + at) + BLOCK_SIZE <= |disk|)
  }

  /** `buf` has the file's bytes from `fpos` in its first `n` places, else what `buf0` had. */
  ghost predicate Filled(buf0: seq<Byte>, buf: seq<Byte>, disk: seq<Byte>, es: seq<Extent>, fpos: nat, n: nat)
  {
    |buf| == |buf0| && n <= |buf| && (forall j | 0 <= j < n :: buf[j] == RawByte(disk, es, fpos + j)) && buf[n..] == buf0[n..]
  }

  lemma InBlock(i: nat, at: nat)
    requires at < BLOCK_SIZE
    ensures (BLOCK_SIZE * i + at) / BLOCK_SIZE == i && (BLOCK_SIZE * i + at) % BLOCK_SIZE == at
  {
  }

  lemma WindowLong(b: nat, at: nat)
    requires at < BLOCK_SIZE
    ensures BLOCK_SIZE * (b + 1) <= Floor512(BLOCK_SIZE * b + at) + BLOCK_SIZE
  {
  }

  /** The bytes a part of a block contributes. */
  function PartData(disk: seq<Byte>, es: seq<Extent>, i: nat, at: nat, len: nat): (r: seq<Byte>)
    requires PartOk(disk, es, i, at) && at < BLOCK_SIZE && at + len <= BLOCK_SIZE
    ensures |r| == len
  {
    var b := Lookup(es, i).value;
    WindowLong(b, at);
    if b == 0 then seq<Byte>(len, _ => 0) else disk[BLOCK_SIZE * b + at..BLOCK_SIZE * b + at + len]
  }

  lemma PartBytes(disk: seq<Byte>, es: seq<Extent>, i: nat, at: nat, len: nat, j: nat)
    requires PartOk(disk, es, i, at) && at < BLOCK_SIZE && at + len <= BLOCK_SIZE && j < len
    ensures PartData(disk, es, i, at, len)[j] == RawByte(disk, es, BLOCK_SIZE * i + at + j)
  {
    hide Lookup;
    WindowLong(Lookup(es, i).value, at);
    InBlock(i, at + j);
  }

  /** One block or part of it into the buffer; false if that panics. */
  method ReadPart(dev: Device, words: seq<nat>, i: nat, at: nat, len: nat, buf: array<Byte>, offset: nat) returns (ok: bool)
    requires RootOk(words) && at < BLOCK_SIZE && at + len <= BLOCK_SIZE && offset + len <= buf.Length
    modifies buf
    ensures ok <==> PartOk(dev.disk, Extents(words), i, at)
    ensures buf[..] == if ok then Overwrite(old(buf[..]), offset, PartData(dev.disk, Extents(words), i, at, len)) else old(buf[..])
  {
    hide Lookup, Floor512, Extents, RootOk;
    var fblock := GetBlock(words, i);
    if fblock.None? { return false; }
    var data: seq<Byte> := seq<Byte>(len, _ => 0);
    WindowLong(fblock.value, at);
    if fblock.value != 0 {
      var block := dev.ReadOffset(BLOCK_SIZE * fblock.value + at);
      if block.None? { return false; }
      data := block.value[..len];
      assert data == dev.disk[BLOCK_SIZE * fblock.value + at..BLOCK_SIZE * fblock.value + at + len];
    }
    CopyInto(buf, offset, data);
    ok := true;
  }

  /** The part at file position `fpos + n` fills the buffer further. */
  lemma FilledMore(buf0: seq<Byte>, buf: seq<Byte>, disk: seq<Byte>, es: seq<Extent>, fpos: nat, n: nat, i: nat, at: nat, len: nat)
    requires Filled(buf0, buf, disk, es, fpos, n) && PartOk(disk, es, i, at) && at < BLOCK_SIZE && at + len <= BLOCK_SIZE
    requires fpos + n == BLOCK_SIZE * i + at && n + len <= |buf|
    ensures Filled(buf0, Overwrite(buf, n, PartData(disk, es, i, at, len)), disk, es, fpos, n + len)
  {
    hide PartOk, PartData, RawByte;
    var data := PartData(disk, es, i, at, len);
    var buf' := Overwrite(buf, n, data);
    forall j | 0 <= j < n + len ensures buf'[j] == RawByte(disk, es, fpos + j) {
      if n <= j {
        assert buf'[n..n + len][j - n] == data[j - n];
        PartBytes(disk, es, i, at, len, j - n);
      }
    }
    forall j | n + len <= j < |buf| ensures buf'[j] == buf0[j] {
      assert buf[n..][j - n] == buf0[n..][j - n];
    }
  }

  // ---- ext4_file_read

  /** How much is read: a position past the end of the file is not noticed. */
  function SizeToRead(size: nat, fsize: nat, fpos: nat): nat
    requires fpos <= TWO64
  {
    if size > SubUsize(fsize, fpos) then SubUsize(fsize, fpos) else size
  }

  lemma SizeRightIff(size: nat, fsize: nat, fpos: nat)
    requires fpos < TWO63 && size < TWO63 && fsize < TWO63
    ensures SizeToRead(size, fsize, fpos) == (if fpos >= fsize then 0 else if fpos + size <= fsize then size else fsize - fpos) <==> fpos <= fsize || size == 0
  {
  }

  /** First block that is read from its beginning. */
  function FirstWhole(fpos: nat): nat { if fpos % BLOCK_SIZE > 0 then fpos / BLOCK_SIZE + 1 else fpos / BLOCK_SIZE }

  /** Every block touched is found and on the device; the first, if partial, with the sectors that
      `read_offset` takes beyond it. */
  ghost predicate Readable(disk: seq<Byte>, es: seq<Extent>, fpos: nat, n: nat)
  {
    && (fpos % BLOCK_SIZE > 0 ==> PartOk(disk, es, fpos / BLOCK_SIZE, fpos % BLOCK_SIZE))
    && (forall i: nat | FirstWhole(fpos) <= i && BLOCK_SIZE * i < fpos + n :: PartOk(disk, es, i, 0))
  }

  datatype Outcome = Eok | Einval | Panics

  class Ext4File {
    var fpos: nat
    var fsize: nat

    constructor (fpos: nat, fsize: nat)
      ensures this.fpos == fpos && this.fsize == fsize
    {
      this.fpos, this.fsize := fpos, fsize;
    }

    /** `ext4_file_read`; `words` and `inodeSize` are the inode's block array and size. */
    method FileRead(dev: Device, words: seq<nat>, inodeSize: nat, buf: array<Byte>, size: nat) returns (r: Outcome, cnt: nat)
      requires RootOk(words) && size <= buf.Length && size < TWO63 && fpos < TWO63
      modifies this, buf
      ensures old(fpos > fsize) ==> r == Einval && cnt == 0 && fpos == old(fpos) && buf[..] == old(buf[..])
      ensures old(fpos <= fsize) && size == 0 ==> r == Eok && cnt == 0 && fpos == old(fpos) && buf[..] == old(buf[..])
      ensures old(fpos <= fsize) && size > 0 ==>
        var n := SizeToRead(size, inodeSize, old(fpos));
        if !Readable(dev.disk, Extents(words), old(fpos), n) then r == Panics
        else r == Eok && cnt == n && fpos == old(fpos) + n && fsize == inodeSize && Filled(old(buf[..]), buf[..], dev.disk, Extents(words), old(fpos), n)
    {
      hide PartOk, PartData, RawByte, Filled, Overwrite, Extents, RootOk;
      ghost var es := Extents(words);
      cnt := 0;
      if fpos > fsize { return Einval, 0; }
      if size == 0 { return Eok, 0; }
      fsize := inodeSize;
      var total := SizeToRead(size, fsize, fpos);
      ghost var fpos0, buf0 := fpos, buf[..];
      FilledNone(buf0, dev.disk, es, fpos0);
      var iblock, unalg := fpos / BLOCK_SIZE, fpos % BLOCK_SIZE;
      if unalg > 0 {
        var len := if BLOCK_SIZE - unalg < total then BLOCK_SIZE - unalg else total;
        ghost var before := buf[..];
        var ok := ReadPart(dev, words, iblock, unalg, len, buf, 0);
        if !ok { return Panics, cnt; }
        FilledMore(buf0, before, dev.disk, es, fpos0, 0, iblock, unalg, len);
        fpos := fpos + len;
        cnt := cnt + len;
        iblock := iblock + 1;
      }
      while cnt < total
        invariant 0 <= cnt <= total && fpos == fpos0 + cnt && fsize == inodeSize && FirstWhole(fpos0) <= iblock
        invariant cnt < total ==> fpos == BLOCK_SIZE * iblock
        invariant unalg > 0 ==> PartOk(dev.disk, es, fpos0 / BLOCK_SIZE, unalg)
        invariant forall i: nat | FirstWhole(fpos0) <= i < iblock && BLOCK_SIZE * i < fpos0 + total :: PartOk(dev.disk, es, i, 0)
        invariant BLOCK_SIZE * iblock >= fpos && Filled(buf0, buf[..], dev.disk, es, fpos0, cnt)
      {
        var len := if BLOCK_SIZE < total - cnt then BLOCK_SIZE else total - cnt;
        ghost var before := buf[..];
        var ok := ReadPart(dev, words, iblock, 0, len, buf, cnt);
        if !ok { return Panics, cnt; }
        FilledMore(buf0, before, dev.disk, es, fpos0, cnt, iblock, 0, len);
        cnt := cnt + len;
        fpos := fpos + len;
        iblock := iblock + 1;
      }
      r := Eok;
    }
  }

  lemma FilledNone(buf: seq<Byte>, disk: seq<Byte>, es: seq<Extent>, fpos: nat)
    ensures Filled(buf, buf, disk, es, fpos, 0)
  {
  }

  // ---- whole files

  /** The extent for block `i`; the number of extents if there is none. */
  function FirstHolder(es: seq<Extent>, i: nat, k: nat): (r: nat)
    requires k <= |es|
    ensures k <= r <= |es| && (r < |es| ==> Holds(es[r], i)) && forall j | k <= j < r :: !Holds(es[j], i)
    decreases |es| - k
  {
    if k == |es| || Holds(es[k], i) then k else FirstHolder(es, i, k + 1)
  }

  /** Byte `p` of the file as its extents promise it. */
  ghost function FileByte(disk: seq<Byte>, es: seq<Extent>, p: nat): Byte
  {
    var k := FirstHolder(es, p / BLOCK_SIZE, 0);
    if k == |es| then 0
    else
      var b := Physical(es[k], p / BLOCK_SIZE);
      if b != 0 && BLOCK_SIZE * b + p % BLOCK_SIZE < |disk| then disk[BLOCK_SIZE * b + p % BLOCK_SIZE] else 0
  }

  ghost function Contents(disk: seq<Byte>, es: seq<Extent>, fsize: nat): (r: seq<Byte>)
    ensures |r| == fsize && forall p | 0 <= p < fsize :: r[p] == FileByte(disk, es, p)
  {
    seq<Byte>(fsize, p requires 0 <= p < fsize => FileByte(disk, es, p))
  }

  /** Initialized, ending below 2^32 in the file and on the device. */
  ghost predicate Plain(e: Extent) { Fields(e) && !Unwritten(e) && e.first + e.count < TWO32 && e.hi == 0 && e.lo + e.count <= TWO32 }

  /** Disjoint plain extents cover the file, and no block of it is the last on the device. */
  ghost predicate FileOk(disk: seq<Byte>, es: seq<Extent>, fsize: nat)
  {
    && fsize < TWO63 && Disjoint(es) && (forall k | 0 <= k < |es| :: Plain(es[k]))
    && (forall i: nat | BLOCK_SIZE * i < fsize :: BlockOk(disk, es, i))
  }

  ghost predicate BlockOk(disk: seq<Byte>, es: seq<Extent>, i: nat)
  {
    var k := FirstHolder(es, i, 0);
    k < |es| && BLOCK_SIZE * (Physical(es[k], i) + 2) <= |disk| + SECTOR
  }

  /** In such a file the lookup finds the promised block, and reading it stays on the device. */
  lemma BlockFound(disk: seq<Byte>, es: seq<Extent>, fsize: nat, i: nat, at: nat)
    requires FileOk(disk, es, fsize) && BLOCK_SIZE * i < fsize && at < BLOCK_SIZE
    ensures PartOk(disk, es, i, at) && FirstHolder(es, i, 0) < |es| && Lookup(es, i) == Some(Physical(es[FirstHolder(es, i, 0)], i))
  {
    assert BlockOk(disk, es, i);
    var k := FirstHolder(es, i, 0);
    assert Plain(es[k]);
    LookupIff(es, k, i);
    WindowEnd(Physical(es[k], i), at);
  }

  lemma WindowEnd(b: nat, at: nat)
    requires at < BLOCK_SIZE
    ensures Floor512(BLOCK_SIZE * b + at) + BLOCK_SIZE <= BLOCK_SIZE * (b + 2) - SECTOR
  {
  }

  lemma AllReadable(disk: seq<Byte>, es: seq<Extent>, fsize: nat, fpos: nat, n: nat)
    requires FileOk(disk, es, fsize) && fpos + n <= fsize
    ensures Readable(disk, es, fpos, n)
  {
    hide FileOk, PartOk;
    if fpos % BLOCK_SIZE > 0 { BlockFound(disk, es, fsize, fpos / BLOCK_SIZE, fpos % BLOCK_SIZE); }
    forall i: nat | FirstWhole(fpos) <= i && BLOCK_SIZE * i < fpos + n ensures PartOk(disk, es, i, 0) {
      BlockFound(disk, es, fsize, i, 0);
    }
  }

  lemma RawIsFile(disk: seq<Byte>, es: seq<Extent>, fsize: nat, p: nat)
    requires FileOk(disk, es, fsize) && p < fsize
    ensures RawByte(disk, es, p) == FileByte(disk, es, p)
  {
    hide FileOk, PartOk, FirstHolder, Lookup;
    BlockFound(disk, es, fsize, p / BLOCK_SIZE, 0);
  }

  /** What a successful read left in the buffer is the file's bytes. */
  lemma FilledIsFile(buf0: seq<Byte>, buf: seq<Byte>, disk: seq<Byte>, es: seq<Extent>, fsize: nat, fpos: nat, n: nat)
    requires FileOk(disk, es, fsize) && fpos + n <= fsize && Filled(buf0, buf, disk, es, fpos, n)
    ensures n <= |buf| && buf[..n] == Contents(disk, es, fsize)[fpos..fpos + n]
  {
    hide FileOk, RawByte, FileByte;
    forall j | 0 <= j < n ensures buf[j] == Contents(disk, es, fsize)[fpos + j] { RawIsFile(disk, es, fsize, fpos + j); }
  }

  /** `Ext4Inode::read_at`: from a position within the file, the file's bytes from there on, as many
      as fit. */
  method ReadAt(dev: Device, words: seq<nat>, inodeSize: nat, offset: nat, buf: array<Byte>) returns (r: Option<nat>)
    requires RootOk(words) && FileOk(dev.disk, Extents(words), inodeSize) && offset <= inodeSize && buf.Length < TWO63
    modifies buf
    ensures r == Some(if offset + buf.Length <= inodeSize then buf.Length else inodeSize - offset)
    ensures buf[..r.value] == Contents(dev.disk, Extents(words), inodeSize)[offset..offset + r.value]
  {
    hide FileOk, Readable, Filled, Extents, RootOk;
    ghost var es := Extents(words);
    var file := new Ext4File(offset, offset);
    Small(dev.disk, es, inodeSize);
    ghost var n := SizeToRead(buf.Length, inodeSize, offset);
    AllReadable(dev.disk, es, inodeSize, offset, n);
    ghost var buf0 := buf[..];
    var out, cnt := file.FileRead(dev, words, inodeSize, buf, buf.Length);
    if out == Panics { return None; }
    if buf.Length > 0 { FilledIsFile(buf0, buf[..], dev.disk, es, inodeSize, offset, n); }
    r := Some(cnt);
  }

  lemma Small(disk: seq<Byte>, es: seq<Extent>, fsize: nat)
    requires FileOk(disk, es, fsize)
    ensures fsize < TWO63
  {
  }

  /** The default `read_all` over it ends with the whole file. */
  method ReadAll(dev: Device, words: seq<nat>, inodeSize: nat) returns (v: seq<Byte>)
    requires RootOk(words) && FileOk(dev.disk, Extents(words), inodeSize)
    ensures v == Contents(dev.disk, Extents(words), inodeSize)
  {
    hide FileOk, FileByte, Extents, RootOk;
    var buffer := new Byte[512](_ => 0);
    v := [];
    var pos := 0;
    ghost var f := Contents(dev.disk, Extents(words), inodeSize);
    while true
      invariant 0 <= pos <= inodeSize && v == f[..pos]
      decreases inodeSize - pos
    {
      var len := ReadAt(dev, words, inodeSize, pos, buffer);
      if len.value == 0 {
        assert pos == inodeSize;
        return;
      }
      assert f[..pos + len.value] == f[..pos] + f[pos..pos + len.value];
      pos := pos + len.value;
      v := v + buffer[..len.value];
    }
  }

  /** Why the last block of the device is excluded: a read from its second sector on asks for sectors
      past the end. */
  lemma LastBlockPanics(disk: seq<Byte>, b: nat, fpos: nat, n: nat)
    requires 0 < b < TWO32 && |disk| == BLOCK_SIZE * (b + 1) && SECTOR <= fpos < BLOCK_SIZE
    ensures !Readable(disk, [Extent(0, 1, 0, b)], fpos, n)
  {
    var es := [Extent(0, 1, 0, b)];
    InBlock(0, fpos);
    assert FirstCover(es, 0, 0) == 0;
    assert Lookup(es, 0) == Some(b);
    SecondSector(b, fpos);
  }

  lemma SecondSector(b: nat, at: nat)
    requires at >= SECTOR
    ensures Floor512(BLOCK_SIZE * b + at) >= BLOCK_SIZE * b + SECTOR
  {
  }
}
