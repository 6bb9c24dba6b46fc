/** FAT32 cluster chains and file contents (os/src/fs/fat32/{fat,fs,inode}.rs), over the disk
    as seen through the block cache. */
module Fat32 {
  import opened Bytes
  import opened Sv39
  import opened BlockCache

  const CLUSTER_SIZE: nat := 4096
  const SECTORS: nat := 8
  const END_MARK: nat := 0x0FFFFFF8
  const NEW_END: nat := 0x0FFFFFFF

  /** What the code reads from the super block; `clusters` counts the entries of one FAT. */
  datatype Geometry = Geometry(reserved: nat, fatCount: nat, fatSize: nat, clusters: nat) {
    predicate Ok() { fatCount >= 1 && 2 <= clusters <= END_MARK && 4 * clusters <= BLOCK_SZ * fatSize }
    function RootSector(): nat { reserved + fatCount * fatSize }
    /** First sector of a cluster's data. */
    function DataSector(c: nat): nat requires c >= 2 { RootSector() + (c - 2) * SECTORS }
    /** Where the FAT keeps the entry of cluster `c`. */
    function FatSector(c: nat): nat { (reserved * BLOCK_SZ + c * 4) / BLOCK_SZ }
    function FatOffset(c: nat): nat { (reserved * BLOCK_SZ + c * 4) % BLOCK_SZ }
  }

  ghost predicate DiskOk(g: Geometry, d: Disk)
  {
    && g.Ok() && (forall id | id in d :: |d[id]| == BLOCK_SZ)
    && (forall id: nat | id < g.RootSector() + g.clusters * SECTORS :: id in d)
  }

  lemma FatPlace(g: Geometry, c: nat)
    requires g.Ok() && c < g.clusters
    ensures g.FatSector(c) == g.reserved + c / 128 && g.FatOffset(c) == 4 * (c % 128)
    ensures g.FatOffset(c) + 4 <= BLOCK_SZ && g.reserved <= g.FatSector(c) < g.RootSector()
  {
    assert g.reserved * BLOCK_SZ + c * 4 == BLOCK_SZ * (g.reserved + c / 128) + 4 * (c % 128);
    FatFits(g.fatCount, g.fatSize, c);
  }

  lemma FatFits(n: nat, size: nat, c: nat)
    requires n >= 1 && 4 * (c + 1) <= BLOCK_SZ * size
    ensures c / 128 < n * size
  {
    assert c / 128 < size;
    assert n * size >= size;
  }

  /** The little-endian number at byte `off` of sector `id`. */
  function Word32(d: Disk, id: nat, off: nat): nat
  {
    if id in d && off + 4 <= |d[id]| then FromLE(d[id][off..off + 4]) else 0
  }

  function FatEntry(g: Geometry, d: Disk, c: nat): nat
  {
    Word32(d, g.FatSector(c), g.FatOffset(c))
  }

  /** The FAT as a table. */
  function Fat(g: Geometry, d: Disk): (t: seq<nat>)
    ensures |t| == g.clusters && forall c | 0 <= c < g.clusters :: t[c] == FatEntry(g, d, c)
  {
    seq(g.clusters, c requires 0 <= c < g.clusters => FatEntry(g, d, c))
  }

  lemma Word32Written(d: Disk, id: nat, off: nat, w: nat, id': nat, off': nat)
    requires id in d && |d[id]| == BLOCK_SZ && off + 4 <= BLOCK_SZ && w < 0x1_0000_0000
    requires id' != id || off' == off || off' + 4 <= off || off + 4 <= off'
    ensures Word32(d[id := Overwrite(d[id], off, ToLE(w, 4))], id', off') == if id' == id && off' == off then w else Word32(d, id', off')
  {
    hide ToLE, FromLE;
    var b := Overwrite(d[id], off, ToLE(w, 4));
    if id' == id && off' + 4 <= BLOCK_SZ {
      if off' == off {
        Pow4();
        LERoundTrip(w, 4);
      } else {
        assert b[off'..off' + 4] == d[id][off'..off' + 4];
      }
    }
  }

  lemma Pow4()
    ensures Pow256(4) == 0x1_0000_0000
  {
  }

  /** Storing one FAT entry changes that entry of the table and no other. */
  lemma FatWritten(g: Geometry, d: Disk, c: nat, w: nat)
    requires DiskOk(g, d) && c < g.clusters && w < 0x1_0000_0000
    ensures g.FatSector(c) in d && g.FatOffset(c) + 4 <= BLOCK_SZ && |d[g.FatSector(c)]| == BLOCK_SZ
    ensures Fat(g, d[g.FatSector(c) := Overwrite(d[g.FatSector(c)], g.FatOffset(c), ToLE(w, 4))]) == Fat(g, d)[c := w]
  {
    hide ToLE, FromLE, Word32, Geometry.FatSector, Geometry.FatOffset;
    FatPlace(g, c);
    var d' := d[g.FatSector(c) := Overwrite(d[g.FatSector(c)], g.FatOffset(c), ToLE(w, 4))];
    forall x | 0 <= x < g.clusters ensures Fat(g, d')[x] == Fat(g, d)[c := w][x] {
      FatPlace(g, x);
      Apart(c, x);
      Word32Written(d, g.FatSector(c), g.FatOffset(c), w, g.FatSector(x), g.FatOffset(x));
    }
  }

  lemma Apart(c: nat, x: nat)
    ensures c == x || c / 128 != x / 128 || 4 * (x % 128) + 4 <= 4 * (c % 128) || 4 * (c % 128) + 4 <= 4 * (x % 128)
    ensures c / 128 == x / 128 && c % 128 == x % 128 ==> c == x
  {
  }

  // ---- chains

  /** `cs` is a chain of the table: linked, end-marked, in range, without repetition. */
  ghost predicate Chain(t: seq<nat>, cs: seq<nat>)
  {
    && |cs| > 0
    && (forall i | 0 <= i < |cs| :: 2 <= cs[i] < |t|)
    && (forall i | 0 <= i < |cs| - 1 :: t[cs[i]] == cs[i + 1])
    && t[cs[|cs| - 1]] >= END_MARK
    && (forall i, j | 0 <= i < j < |cs| :: cs[i] != cs[j])
  }

  /** All files' chains, pairwise disjoint. */
  ghost predicate Chains(t: seq<nat>, files: seq<seq<nat>>)
  {
    && (forall k | 0 <= k < |files| :: Chain(t, files[k]))
    && (forall k, l, c | 0 <= k < l < |files| && c in files[k] :: c !in files[l])
  }

  /** A free cluster is in no chain. */
  lemma FreeInNoChain(t: seq<nat>, cs: seq<nat>, c: nat)
    requires Chain(t, cs) && c < |t| && t[c] == 0
    ensures c !in cs
  {
    forall i | 0 <= i < |cs| ensures cs[i] != c {
      if i < |cs| - 1 { assert t[cs[i]] == cs[i + 1]; }
    }
  }

  /** A chain survives changes to entries outside it. */
  lemma ChainKept(t: seq<nat>, t': seq<nat>, cs: seq<nat>)
    requires Chain(t, cs) && |t| == |t'| && forall i | 0 <= i < |cs| :: t'[cs[i]] == t[cs[i]]
    ensures Chain(t', cs)
  {
  }

  lemma ChainExtended(t: seq<nat>, cs: seq<nat>, c: nat)
    requires Chain(t, cs) && 2 <= c < |t| && t[c] == 0
    ensures Chain(t[c := NEW_END][cs[|cs| - 1] := c], cs + [c])
  {
    FreeInNoChain(t, cs, c);
    var t' := t[c := NEW_END][cs[|cs| - 1] := c];
    var cs' := cs + [c];
    assert t'[c] == NEW_END;
    forall i | 0 <= i < |cs'| - 1 ensures t'[cs'[i]] == cs'[i + 1] {
      if i < |cs| - 1 { assert cs[i] != cs[|cs| - 1] && t[cs[i]] == cs[i + 1]; }
    }
  }

  /** `increase_cluster` on the tail of file `k`: exactly that chain grows, by a cluster that was
      in no chain; all chains stay disjoint, acyclic and end-marked. */
  lemma ChainsExtended(t: seq<nat>, files: seq<seq<nat>>, k: nat, c: nat)
    requires Chains(t, files) && k < |files| && 2 <= c < |t| && t[c] == 0
    ensures forall l | 0 <= l < |files| :: c !in files[l]
    ensures Chains(t[c := NEW_END][files[k][|files[k]| - 1] := c], files[k := files[k] + [c]])
  {
    hide Chain;
    var tail := Tail(t, files, k);
    var t' := t[c := NEW_END][tail := c];
    forall l | 0 <= l < |files| ensures c !in files[l] { FreeInNoChain(t, files[l], c); }
    ChainExtended(t, files[k], c);
    forall l | 0 <= l < |files| && l != k ensures Chain(t', files[l]) {
      OtherChain(t, files, k, l, c);
    }
  }

  lemma Tail(t: seq<nat>, files: seq<seq<nat>>, k: nat) returns (tail: nat)
    requires Chains(t, files) && k < |files|
    ensures |files[k]| > 0 && tail == files[k][|files[k]| - 1] < |t|
  {
    tail := files[k][|files[k]| - 1];
  }

  lemma OtherChain(t: seq<nat>, files: seq<seq<nat>>, k: nat, l: nat, c: nat)
    requires Chains(t, files) && k < |files| && l < |files| && l != k && c < |t| && c !in files[l]
    ensures |files[k]| > 0 && files[k][|files[k]| - 1] < |t| && Chain(t[c := NEW_END][files[k][|files[k]| - 1] := c], files[l])
  {
    assert Chain(t, files[k]) && Chain(t, files[l]);
    var tail := files[k][|files[k]| - 1];
    assert tail in files[k];
    assert tail !in files[l];
    ChainKept(t, t[c := NEW_END][tail := c], files[l]);
  }

  // ---- the FAT code

  /** The cache is consistent, idle, and holds a disk of this geometry. */
  ghost predicate Ready(g: Geometry, cache: BlockCacheManager)
    reads cache
  {
    cache.Valid() && cache.Idle() && DiskOk(g, cache.Contents())
  }

  lemma ContentsKeys(cache: BlockCacheManager)
    ensures cache.Contents().Keys == cache.disk.Keys
  {
  }

  lemma ReadySmall(g: Geometry, cache: BlockCacheManager)
    requires Ready(g, cache)
    ensures g.clusters <= END_MARK
  {
  }

  /** One 32-bit read at byte `offset` of the FAT region. */
  method ReadEntry(g: Geometry, cache: BlockCacheManager, c: nat) returns (w: nat)
    requires Ready(g, cache) && c < g.clusters
    modifies cache
    ensures Ready(g, cache) && cache.Contents() == old(cache.Contents())
    ensures w == Fat(g, cache.Contents())[c]
  {
    hide BlockCacheManager.Valid, BlockCacheManager.Contents, FromLE;
    var offset := g.reserved * BLOCK_SZ + c * 4;
    FatPlace(g, c);
    ContentsKeys(cache);
    var bytes := cache.ReadBlock(offset / BLOCK_SZ);
    w := FromLE(bytes[offset % BLOCK_SZ..offset % BLOCK_SZ + 4]);
  }

  method WriteEntry(g: Geometry, cache: BlockCacheManager, c: nat, w: nat)
    requires Ready(g, cache) && c < g.clusters && w < 0x1_0000_0000
    modifies cache
    ensures Ready(g, cache) && Fat(g, cache.Contents()) == Fat(g, old(cache.Contents()))[c := w]
    ensures SameData(g, old(cache.Contents()), cache.Contents())
  {
    hide BlockCacheManager.Valid, BlockCacheManager.Contents, ToLE;
    var offset := g.reserved * BLOCK_SZ + c * 4;
    FatPlace(g, c);
    ContentsKeys(cache);
    FatWritten(g, cache.Contents(), c, w);
    cache.WriteBlock(offset / BLOCK_SZ, offset % BLOCK_SZ, ToLE(w, 4));
  }

  /** The data area, from the root sector on, is the same. */
  ghost predicate SameData(g: Geometry, d: Disk, d': Disk)
  {
    forall id | id in d && id >= g.RootSector() :: id in d' && d'[id] == d[id]
  }

  /** `next_cluster_id`: the top four bits of the entry are not masked off. */
  method NextClusterId(g: Geometry, cache: BlockCacheManager, c: nat) returns (r: Option<nat>)
    requires Ready(g, cache) && c < g.clusters
    modifies cache
    ensures Ready(g, cache) && cache.Contents() == old(cache.Contents())
    ensures r == if Fat(g, cache.Contents())[c] >= 0x0FFF_FFF8 then None else Some(Fat(g, cache.Contents())[c])
  {
    hide Ready;
    var w := ReadEntry(g, cache, c);
    if w >= END_MARK { return None; }
    return Some(w);
  }

  /** `cluster_chain`: ends, with exactly the chain that starts there. */
  method ClusterChain(g: Geometry, cache: BlockCacheManager, start: nat, ghost cs: seq<nat>) returns (chain: seq<nat>)
    requires Ready(g, cache) && Chain(Fat(g, cache.Contents()), cs) && cs[0] == start
    modifies cache
    ensures Ready(g, cache) && cache.Contents() == old(cache.Contents())
    ensures chain == cs
  {
    hide Ready, Fat, FatEntry, BlockCacheManager.Contents;
    ghost var t := Fat(g, cache.Contents());
    ReadySmall(g, cache);
    chain := [];
    var cluster := start;
    while true
      invariant Ready(g, cache) && cache.Contents() == old(cache.Contents())
      invariant |chain| < |cs| && chain == cs[..|chain|] && cluster == cs[|chain|]
      decreases |cs| - |chain|
    {
      assert cs[|chain|] in cs;
      chain := chain + [cluster];
      assert |chain| < |cs| ==> t[cs[|chain| - 1]] == cs[|chain|];
      var next := NextClusterId(g, cache, cluster);
      if next.None? {
        assert |chain| == |cs|;
        return;
      }
      cluster := next.value;
    }
  }

  /** Some entry from cluster 3 on is zero. */
  ghost predicate HasFree(t: seq<nat>)
  {
    exists c :: 3 <= c < |t| && t[c] == 0
  }

  /** `alloc_new_cluster`: the first free cluster from 3 on, now an end of chain. `None` if the
      table has no free entry: the search of the code then goes on behind the table. */
  method AllocNewCluster(g: Geometry, cache: BlockCacheManager) returns (r: Option<nat>)
    requires Ready(g, cache)
    modifies cache
    ensures Ready(g, cache) && SameData(g, old(cache.Contents()), cache.Contents())
    ensures r.None? <==> !HasFree(Fat(g, old(cache.Contents())))
    ensures r.None? ==> cache.Contents() == old(cache.Contents())
    ensures var t := Fat(g, old(cache.Contents()));
            r.Some? ==> 3 <= r.value < |t| && t[r.value] == 0 && (forall x | 3 <= x < r.value :: t[x] != 0) && Fat(g, cache.Contents()) == t[r.value := 0x0FFF_FFFF]
  {
    hide Ready, Fat, FatEntry, BlockCacheManager.Contents;
    ghost var t := Fat(g, cache.Contents());
    var c := 3;
    while c < g.clusters
      invariant Ready(g, cache) && cache.Contents() == old(cache.Contents())
      invariant 3 <= c && forall x | 3 <= x < c && x < |t| :: t[x] != 0
    {
      var w := ReadEntry(g, cache, c);
      if w == 0 {
        WriteEntry(g, cache, c, NEW_END);
        return Some(c);
      }
      c := c + 1;
    }
    return None;
  }

  /** `increase_cluster(tail)` where `tail` is the last cluster of file `k`. */
  method IncreaseCluster(g: Geometry, cache: BlockCacheManager, tail: nat, ghost files: seq<seq<nat>>, ghost k: nat) returns (r: Option<nat>)
    requires Ready(g, cache) && Chains(Fat(g, cache.Contents()), files) && k < |files|
    requires |files[k]| > 0 && tail == files[k][|files[k]| - 1]
    modifies cache
    ensures Ready(g, cache) && SameData(g, old(cache.Contents()), cache.Contents())
    ensures r.None? <==> !HasFree(Fat(g, old(cache.Contents())))
    ensures r.None? ==> cache.Contents() == old(cache.Contents())
    ensures r.Some? ==> r.value < g.clusters && forall l | 0 <= l < |files| :: r.value !in files[l]
    ensures r.Some? ==> Chains(Fat(g, cache.Contents()), files[k := files[k] + [r.value]])
  {
    hide Ready, Chain, Fat, FatEntry, BlockCacheManager.Contents, HasFree;
    ghost var t := Fat(g, cache.Contents());
    ghost var _ := Tail(t, files, k);
    ReadySmall(g, cache);
    r := AllocNewCluster(g, cache);
    if r.Some? {
      WriteEntry(g, cache, tail, r.value);
      ChainsExtended(t, files, k, r.value);
    }
  }

  // ---- cluster data

  /** Byte `k` of the data of a run of sectors from `first` on. */
  function SectorByte(d: Disk, first: nat, k: nat): Byte
  {
    if first + k / BLOCK_SZ in d && |d[first + k / BLOCK_SZ]| == BLOCK_SZ then d[first + k / BLOCK_SZ][k % BLOCK_SZ] else 0
  }

  function ClusterBytes(g: Geometry, d: Disk, c: nat): (r: seq<Byte>)
    requires c >= 2
    ensures |r| == CLUSTER_SIZE && forall k | 0 <= k < CLUSTER_SIZE :: r[k] == SectorByte(d, g.DataSector(c), k)
  {
    seq<Byte>(CLUSTER_SIZE, k requires 0 <= k < CLUSTER_SIZE => SectorByte(d, g.DataSector(c), k))
  }

  /** `read_cluster`: sector by sector into the buffer. */
  method ReadCluster(g: Geometry, cache: BlockCacheManager, c: nat) returns (buf: seq<Byte>)
    requires Ready(g, cache) && 2 <= c < g.clusters
    modifies cache
    ensures Ready(g, cache) && cache.Contents() == old(cache.Contents())
    ensures buf == ClusterBytes(g, cache.Contents(), c) && InSectors(g, cache.Contents(), c, buf)
  {
    hide BlockCacheManager.Valid, BlockCacheManager.Contents, Geometry.DataSector, InSectors;
    buf := [];
    var i := 0;
    while i < SECTORS
      invariant 0 <= i <= SECTORS && |buf| == BLOCK_SZ * i
      invariant Ready(g, cache) && cache.Contents() == old(cache.Contents())
      invariant forall k | 0 <= k < |buf| :: buf[k] == SectorByte(cache.Contents(), g.DataSector(c), k)
    {
      SectorOnDisk(g, c, i);
      ContentsKeys(cache);
      var data := cache.ReadBlock(g.DataSector(c) + i);
      ReadOn(cache.Contents(), g.DataSector(c), i, buf, data);
      buf := buf + data;
      i := i + 1;
    }
    ClusterInSectors(g, cache.Contents(), c);
  }

  /** The first sector behind the reserved ones and the FATs. */
  function DataStart(g: Geometry): nat { g.reserved + g.fatCount * g.fatSize }

  /** Byte `k` of the buffer is byte `k % 512` of the cluster's sector number `k / 512`; cluster 2
      comes first, eight sectors each. */
  ghost predicate InSectors(g: Geometry, d: Disk, c: nat, buf: seq<Byte>)
  {
    |buf| == 4096 && c >= 2 && forall k | 0 <= k < 4096 ::
      var id := DataStart(g) + 8 * (c - 2) + k / 512; id in d && |d[id]| == 512 && buf[k] == d[id][k % 512]
  }

  lemma ClusterInSectors(g: Geometry, d: Disk, c: nat)
    requires DiskOk(g, d) && 2 <= c < g.clusters
    ensures InSectors(g, d, c, ClusterBytes(g, d, c))
  {
    forall k | 0 <= k < 4096 ensures DataStart(g) + 8 * (c - 2) + k / 512 in d { SectorOnDisk(g, c, k / 512); }
  }

  /** The clusters from 2 on tile the data area: every sector of it belongs to exactly one. */
  lemma ClustersTile(g: Geometry, s: nat)
    requires g.Ok() && DataStart(g) <= s < DataStart(g) + 8 * (g.clusters - 2)
    ensures var c := 2 + (s - DataStart(g)) / 8;
            && 2 <= c < g.clusters && g.DataSector(c) <= s < g.DataSector(c) + SECTORS
            && forall x | 2 <= x < g.clusters && x != c :: !(g.DataSector(x) <= s < g.DataSector(x) + SECTORS)
  {
  }

  lemma FirstSector(g: Geometry, c: nat)
    requires c >= 2
    ensures g.DataSector(c) == DataStart(g) + 8 * (c - 2)
  {
  }

  lemma SectorOnDisk(g: Geometry, c: nat, i: nat)
    requires g.Ok() && 2 <= c < g.clusters && i < SECTORS
    ensures g.RootSector() <= g.DataSector(c) + i < g.RootSector() + g.clusters * SECTORS
  {
  }

  lemma ReadOn(d: Disk, first: nat, i: nat, buf: seq<Byte>, data: seq<Byte>)
    requires |buf| == BLOCK_SZ * i && first + i in d && d[first + i] == data && |data| == BLOCK_SZ
    requires forall k | 0 <= k < |buf| :: buf[k] == SectorByte(d, first, k)
    ensures forall k | 0 <= k < |buf + data| :: (buf + data)[k] == SectorByte(d, first, k)
  {
    forall k | |buf| <= k < |buf + data| ensures (buf + data)[k] == SectorByte(d, first, k) {
      assert k / BLOCK_SZ == i && k % BLOCK_SZ == k - BLOCK_SZ * i;
    }
  }

  /** Sectors outside the cluster are the same. */
  ghost predicate SameOutside(d: Disk, d': Disk, first: nat)
  {
    d'.Keys == d.Keys && forall id | id in d && !(first <= id < first + SECTORS) :: d'[id] == d[id]
  }

  /** `write_cluster`. */
  method WriteCluster(g: Geometry, cache: BlockCacheManager, c: nat, buf: seq<Byte>)
    requires Ready(g, cache) && 2 <= c < g.clusters && |buf| == CLUSTER_SIZE
    modifies cache
    ensures Ready(g, cache) && SameOutside(old(cache.Contents()), cache.Contents(), g.DataSector(c))
    ensures ClusterBytes(g, cache.Contents(), c) == buf && InSectors(g, cache.Contents(), c, buf)
    ensures forall id | id in old(cache.Contents()) && !(DataStart(g) + 8 * (c - 2) <= id < DataStart(g) + 8 * (c - 1)) ::
              id in cache.Contents() && cache.Contents()[id] == old(cache.Contents())[id]
  {
    hide BlockCacheManager.Valid, BlockCacheManager.Contents, Geometry.DataSector, SectorByte, InSectors;
    ghost var d0 := cache.Contents();
    var i := 0;
    while i < SECTORS
      invariant 0 <= i <= SECTORS && Ready(g, cache)
      invariant SameOutside(d0, cache.Contents(), g.DataSector(c))
      invariant forall k | 0 <= k < BLOCK_SZ * i :: SectorByte(cache.Contents(), g.DataSector(c), k) == buf[k]
    {
      SectorOnDisk(g, c, i);
      ContentsKeys(cache);
      ghost var d1 := cache.Contents();
      var data := buf[BLOCK_SZ * i..BLOCK_SZ * i + BLOCK_SZ];
      cache.WriteBlock(g.DataSector(c) + i, 0, data);
      WroteOn(d1, cache.Contents(), g.DataSector(c), i, buf, data);
      i := i + 1;
    }
    ClusterInSectors(g, cache.Contents(), c);
    FirstSector(g, c);
  }

  lemma WroteOn(d: Disk, d': Disk, first: nat, i: nat, buf: seq<Byte>, data: seq<Byte>)
    requires i < SECTORS && |buf| == CLUSTER_SIZE && data == buf[BLOCK_SZ * i..BLOCK_SZ * i + BLOCK_SZ]
    requires first + i in d && |d[first + i]| == BLOCK_SZ && d' == d[first + i := Overwrite(d[first + i], 0, data)]
    requires forall k | 0 <= k < BLOCK_SZ * i :: SectorByte(d, first, k) == buf[k]
    ensures forall k | 0 <= k < BLOCK_SZ * (i + 1) :: SectorByte(d', first, k) == buf[k]
  {
    hide SectorByte;
    forall k | 0 <= k < BLOCK_SZ * (i + 1) ensures SectorByte(d', first, k) == buf[k] {
      WroteByte(d, d', first, i, buf, data, k);
      assert k < BLOCK_SZ * i ==> SectorByte(d, first, k) == buf[k];
    }
  }

  lemma WroteByte(d: Disk, d': Disk, first: nat, i: nat, buf: seq<Byte>, data: seq<Byte>, k: nat)
    requires i < SECTORS && |buf| == CLUSTER_SIZE && data == buf[BLOCK_SZ * i..BLOCK_SZ * i + BLOCK_SZ]
    requires first + i in d && |d[first + i]| == BLOCK_SZ && d' == d[first + i := Overwrite(d[first + i], 0, data)] && k < BLOCK_SZ * (i + 1)
    ensures SectorByte(d', first, k) == if k < BLOCK_SZ * i then SectorByte(d, first, k) else buf[k]
  {
    assert Overwrite(d[first + i], 0, data) == data;
    if k < BLOCK_SZ * i {
      assert k / BLOCK_SZ < i;
    } else {
      assert k / BLOCK_SZ == i && k % BLOCK_SZ == k - BLOCK_SZ * i;
    }
  }

  /** Writing one cluster leaves the FAT and every other cluster alone. */
  lemma ClusterApart(g: Geometry, d: Disk, d': Disk, c: nat)
    requires DiskOk(g, d) && 2 <= c < g.clusters && SameOutside(d, d', g.DataSector(c))
    ensures Fat(g, d') == Fat(g, d)
    ensures forall x | 2 <= x < g.clusters && x != c :: ClusterBytes(g, d', x) == ClusterBytes(g, d, x)
  {
    hide Geometry.FatSector, Geometry.FatOffset, FromLE;
    forall x | 0 <= x < g.clusters ensures FatEntry(g, d', x) == FatEntry(g, d, x) {
      FatPlace(g, x);
    }
    forall x | 2 <= x < g.clusters && x != c ensures ClusterBytes(g, d', x) == ClusterBytes(g, d, x) {
      forall k | 0 <= k < CLUSTER_SIZE ensures SectorByte(d', g.DataSector(x), k) == SectorByte(d, g.DataSector(x), k) {
        OtherSectors(g, c, x, k);
      }
    }
  }

  lemma OtherSectors(g: Geometry, c: nat, x: nat, k: nat)
    requires c >= 2 && x >= 2 && c != x && k < CLUSTER_SIZE
    ensures !(g.DataSector(c) <= g.DataSector(x) + k / BLOCK_SZ < g.DataSector(c) + SECTORS)
  {
    assert k / BLOCK_SZ < SECTORS;
  }

  // ---- files

  ghost predicate InRange(g: Geometry, cs: seq<nat>) { forall i | 0 <= i < |cs| :: 2 <= cs[i] < g.clusters }

  /** The clusters of a chain end to end. */
  function FileBytes(g: Geometry, d: Disk, cs: seq<nat>): (r: seq<Byte>)
    requires forall i | 0 <= i < |cs| :: cs[i] >= 2
    ensures |r| == CLUSTER_SIZE * |cs|
    ensures forall p | 0 <= p < |r| :: r[p] == ClusterBytes(g, d, cs[p / CLUSTER_SIZE])[p % CLUSTER_SIZE]
  {
    seq<Byte>(CLUSTER_SIZE * |cs|, p requires 0 <= p < CLUSTER_SIZE * |cs| => ClusterBytes(g, d, cs[p / CLUSTER_SIZE])[p % CLUSTER_SIZE])
  }

  /** The sector holds data of the chain. */
  ghost predicate InChain(g: Geometry, cs: seq<nat>, id: nat)
  {
    exists i | 0 <= i < |cs| :: cs[i] >= 2 && g.DataSector(cs[i]) <= id < g.DataSector(cs[i]) + SECTORS
  }

  /** Every byte of the disk is the same, but for the data of the chain and the four bytes at
      `off` of `sector`. */
  ghost predicate Elsewhere(g: Geometry, d: Disk, d': Disk, cs: seq<nat>, sector: nat, off: nat)
  {
    d'.Keys == d.Keys && forall id | id in d && !InChain(g, cs, id) :: SameBut(d[id], d'[id], id == sector, off)
  }

  ghost predicate SameBut(s: seq<Byte>, s': seq<Byte>, four: bool, off: nat)
  {
    |s'| == |s| && forall k | 0 <= k < |s| && !(four && off <= k < off + 4) :: s'[k] == s[k]
  }

  lemma ElsewhereMore(g: Geometry, d: Disk, d1: Disk, d2: Disk, cs: seq<nat>, sector: nat, off: nat, i: nat)
    requires Elsewhere(g, d, d1, cs, sector, off) && i < |cs| && cs[i] >= 2 && SameOutside(d1, d2, g.DataSector(cs[i]))
    ensures Elsewhere(g, d, d2, cs, sector, off)
  {
    forall id | id in d && !InChain(g, cs, id) ensures SameBut(d[id], d2[id], id == sector, off) {
      assert d2[id] == d1[id];
    }
  }

  lemma InCluster(p: nat, i: nat, off: nat, n: nat)
    requires off + n <= CLUSTER_SIZE
    ensures p / CLUSTER_SIZE == i && off <= p % CLUSTER_SIZE < off + n <==> CLUSTER_SIZE * i + off <= p < CLUSTER_SIZE * i + off + n
    ensures p / CLUSTER_SIZE == i ==> p == CLUSTER_SIZE * i + p % CLUSTER_SIZE
  {
  }

  /** Writing `data` at `off` in the `i`-th cluster writes it at that place of the file. */
  lemma FileWritten(g: Geometry, d: Disk, d': Disk, cs: seq<nat>, i: nat, off: nat, data: seq<Byte>)
    requires InRange(g, cs) && i < |cs| && off + |data| <= CLUSTER_SIZE && (forall a, b | 0 <= a < b < |cs| :: cs[a] != cs[b])
    requires ClusterBytes(g, d', cs[i]) == Overwrite(ClusterBytes(g, d, cs[i]), off, data)
    requires forall x | 2 <= x < g.clusters && x != cs[i] :: ClusterBytes(g, d', x) == ClusterBytes(g, d, x)
    ensures FileBytes(g, d', cs) == Overwrite(FileBytes(g, d, cs), CLUSTER_SIZE * i + off, data)
  {
    hide ClusterBytes;
    var f, f' := FileBytes(g, d, cs), FileBytes(g, d', cs);
    var w := Overwrite(f, CLUSTER_SIZE * i + off, data);
    forall p | 0 <= p < |f| ensures f'[p] == w[p] {
      InCluster(p, i, off, |data|);
      if p / CLUSTER_SIZE == i && off <= p % CLUSTER_SIZE < off + |data| {
        assert w[CLUSTER_SIZE * i + off..CLUSTER_SIZE * i + off + |data|][p - (CLUSTER_SIZE * i + off)] == data[p - (CLUSTER_SIZE * i + off)];
        var c := Overwrite(ClusterBytes(g, d, cs[i]), off, data);
        assert c[off..off + |data|][p % CLUSTER_SIZE - off] == data[p % CLUSTER_SIZE - off];
      }
    }
  }

  /** Where a directory entry keeps the file size. */
  const SIZE_FIELD: nat := 28

  /** The directory entry is 32 bytes of a data sector that belongs to no cluster of the file. */
  ghost predicate EntryOk(g: Geometry, sector: nat, off: nat, cs: seq<nat>)
  {
    g.RootSector() <= sector < g.RootSector() + g.clusters * SECTORS && off + 32 <= BLOCK_SZ && !InChain(g, cs, sector)
  }

  /** A regular file: its chain starts at `startCluster`, its directory entry is at byte
      `entryOffset` of `entrySector`, where `to_end` finds it. */
  class Fat32Inode {
    const g: Geometry
    const cache: BlockCacheManager
    const startCluster: nat
    const entrySector: nat
    const entryOffset: nat

    constructor (g: Geometry, cache: BlockCacheManager, startCluster: nat, entrySector: nat, entryOffset: nat)
      ensures this.g == g && this.cache == cache && this.startCluster == startCluster
      ensures this.entrySector == entrySector && this.entryOffset == entryOffset
    {
      this.g, this.cache, this.startCluster, this.entrySector, this.entryOffset := g, cache, startCluster, entrySector, entryOffset;
    }

    /** `cs` is the file's chain. */
    ghost predicate Valid(cs: seq<nat>)
      reads cache
    {
      Ready(g, cache) && Chain(Fat(g, cache.Contents()), cs) && cs[0] == startCluster && EntryOk(g, entrySector, entryOffset, cs)
    }

    ghost function Bytes(cs: seq<nat>): seq<Byte>
      requires Valid(cs)
      reads cache
    {
      FileBytes(g, cache.Contents(), cs)
    }

    /** The recorded size. */
    ghost function Size(): nat
      reads cache
    {
      Word32(cache.Contents(), entrySector, entryOffset + SIZE_FIELD)
    }

    /** `file_size`. */
    method FileSize(ghost cs: seq<nat>) returns (n: nat)
      requires Valid(cs)
      modifies cache
      ensures Valid(cs) && cache.Contents() == old(cache.Contents()) && n == Size() < TWO32
      ensures entrySector in cache.Contents() && |cache.Contents()[entrySector]| == 512 && entryOffset + 32 <= 512
      ensures n == FromLE(cache.Contents()[entrySector][entryOffset + 28..entryOffset + 32])
    {
      hide BlockCacheManager.Valid, BlockCacheManager.Contents, FromLE, Chain, InChain, Fat;
      ContentsKeys(cache);
      var bytes := cache.ReadBlock(entrySector);
      n := FromLE(bytes[entryOffset + SIZE_FIELD..entryOffset + SIZE_FIELD + 4]);
      Word32Bound(cache.Contents(), entrySector, entryOffset + SIZE_FIELD);
    }

    /** `set_file_size`: `size as u32` into the directory entry, and nothing else anywhere. */
    method SetFileSize(size: nat, ghost cs: seq<nat>)
      requires Valid(cs)
      modifies cache
      ensures Valid(cs) && Size() == size % TWO32 && Bytes(cs) == old(Bytes(cs)) && Fat(g, cache.Contents()) == old(Fat(g, cache.Contents()))
      ensures Elsewhere(g, old(cache.Contents()), cache.Contents(), [], entrySector, entryOffset + SIZE_FIELD)
    {
      hide BlockCacheManager.Valid, BlockCacheManager.Contents, ToLE, Chain, InChain, Fat, FileBytes, Word32, Overwrite;
      ghost var d0 := cache.Contents();
      ghost var n := FileLength(cs);
      ContentsKeys(cache);
      cache.WriteBlock(entrySector, entryOffset + SIZE_FIELD, ToLE(size % TWO32, 4));
      EntryWritten(g, d0, cs, entrySector, entryOffset, size % TWO32);
    }

    /** `increase_size`. It returns exactly if the size is below the recorded one or the chain
        covers it. Otherwise its loop, which never looks at the grown chain, takes every free
        cluster of the table and goes on. */
    method IncreaseSize(size: nat, ghost cs: seq<nat>) returns (returned: bool, ghost grown: seq<nat>)
      requires Valid(cs)
      modifies cache
      ensures returned <==> size < old(Size()) || size <= CLUSTER_SIZE * |cs|
      ensures Size() == if size < old(Size()) then old(Size()) else size % TWO32
      ensures returned ==> Valid(cs) && Bytes(cs) == old(Bytes(cs)) && grown == cs
      ensures returned ==> Elsewhere(g, old(cache.Contents()), cache.Contents(), [], entrySector, entryOffset + SIZE_FIELD)
      ensures !returned ==> Ready(g, cache) && cs <= grown && Chain(Fat(g, cache.Contents()), grown) && !HasFree(Fat(g, cache.Contents()))
    {
      hide Ready, Chain, Fat, Elsewhere, EntryOk, FileBytes, Word32, BlockCacheManager.Contents, HasFree;
      grown := cs;
      var recorded := FileSize(cs);
      if size < recorded {
        ElsewhereNone(g, cache.Contents(), [], entrySector, entryOffset + SIZE_FIELD);
        return true, cs;
      }
      SetFileSize(size, cs);
      var chain := ChainOf(cs);
      if |chain| * CLUSTER_SIZE >= size {
        return true, cs;
      }
      ghost var d1 := cache.Contents();
      ghost var n := FileLength(cs);
      var last := chain[|chain| - 1];
      OneChain(Fat(g, d1), cs);
      EntryOnDisk(cs);
      while |chain| * CLUSTER_SIZE < size
        invariant Ready(g, cache) && Chains(Fat(g, cache.Contents()), [grown]) && cs <= grown && last == grown[|grown| - 1]
        invariant |grown| <= g.clusters && entrySector in cache.Contents() && Size() == size % TWO32 && |chain| == |cs| && |chain| * CLUSTER_SIZE < size
        decreases g.clusters - |grown|
      {
        ghost var d2 := cache.Contents();
        var next := IncreaseCluster(g, cache, last, [grown], 0);
        if next.None? {
          OneChain(Fat(g, cache.Contents()), grown);
          return false, grown;
        }
        SizeKept(g, d2, cache.Contents(), entrySector, entryOffset);
        assert [grown][0 := grown + [next.value]] == [grown + [next.value]];
        last := next.value;
        grown := grown + [last];
        OneChain(Fat(g, cache.Contents()), grown);
      }
    }

    /** One turn of `write_at`: read the cluster, patch it, write it back. */
    method PatchCluster(c: nat, off: nat, data: seq<Byte>, ghost cs: seq<nat>, ghost i: nat)
      requires Valid(cs) && i < |cs| && c == cs[i] >= 2 && off + |data| <= CLUSTER_SIZE
      modifies cache
      ensures Valid(cs) && Bytes(cs) == Overwrite(old(Bytes(cs)), CLUSTER_SIZE * i + off, data) && Size() == old(Size())
      ensures SameOutside(old(cache.Contents()), cache.Contents(), g.DataSector(c))
    {
      hide BlockCacheManager.Valid, BlockCacheManager.Contents, ClusterBytes, Geometry.DataSector, Fat, Word32;
      ghost var d0 := cache.Contents();
      var buf := ReadCluster(g, cache, c);
      WriteCluster(g, cache, c, Overwrite(buf, off, data));
      ClusterApart(g, d0, cache.Contents(), c);
      FileWritten(g, d0, cache.Contents(), cs, i, off, data);
      EntryApart(g, d0, cache.Contents(), cs, i, entrySector, entryOffset);
    }

    /** The copying loop of `write_at`; `d0` is the disk before the call. */
    method CopyOver(offset: nat, buf: seq<Byte>, ghost cs: seq<nat>, ghost d0: Disk) returns (count: nat)
      requires Valid(cs) && Elsewhere(g, d0, cache.Contents(), cs, entrySector, entryOffset + SIZE_FIELD)
      modifies cache
      ensures Valid(cs) && Size() == old(Size()) && count == Room(|old(Bytes(cs))|, offset, |buf|)
      ensures Bytes(cs) == Written(old(Bytes(cs)), offset, buf)
      ensures Elsewhere(g, d0, cache.Contents(), cs, entrySector, entryOffset + SIZE_FIELD)
    {
      hide Elsewhere, Valid, ClusterBytes, Fat, Chain, FileBytes, Ready, Writing, Written, Word32, BlockCacheManager.Contents, Overwrite, ClusterOffset, SameOutside;
      ghost var f0, size' := Bytes(cs), Size();
      ghost var n := FileLength(cs);
      var chain := ChainOf(cs);
      var pos: nat := 0;
      count := 0;
      WritingNone(f0, offset, buf);
      var i := 0;
      while i < |chain|
        invariant 0 <= i <= |cs| && Valid(cs) && pos == CLUSTER_SIZE * i && count <= |buf| && Size() == size'
        invariant if pos <= offset then count == 0 else offset + count == pos && count < |buf|
        invariant Writing(f0, Bytes(cs), offset, buf, count) && |Bytes(cs)| == |f0|
        invariant Elsewhere(g, d0, cache.Contents(), cs, entrySector, entryOffset + SIZE_FIELD)
      {
        if pos < offset {
          var pass := if CLUSTER_SIZE < offset - pos then CLUSTER_SIZE else offset - pos;
          pos := pos + pass;
          if pass == CLUSTER_SIZE {
            i := i + 1;
            continue;
          }
        }
        PosIn(pos, i);
        var off := ClusterOffset(pos);
        var copy := if |buf| - count < CLUSTER_SIZE - off then |buf| - count else CLUSTER_SIZE - off;
        ghost var f1, d1 := Bytes(cs), cache.Contents();
        var part := buf[count..count + copy];
        PatchCluster(chain[i], off, part, cs, i);
        ElsewhereMore(g, d0, d1, cache.Contents(), cs, entrySector, entryOffset + SIZE_FIELD, i);
        WritingMore(f0, f1, Bytes(cs), offset, buf, count, copy);
        count := count + copy;
        pos := pos + copy;
        if count >= |buf| {
          break;
        }
        i := i + 1;
      }
      WritingAll(f0, Bytes(cs), offset, buf, count);
    }

    /** `write_at`; `None` is the loop of `increase_size` that never ends. Otherwise the part of
        `buf` that the chain has room for replaces that range of the file, the recorded size
        becomes the end of the range unless it was larger, cut to 32 bits, and no other byte of
        the disk changes. */
    method WriteAt(offset: nat, buf: seq<Byte>, ghost cs: seq<nat>) returns (written: Option<nat>, ghost grown: seq<nat>)
      requires Valid(cs) && offset < TWO64 && |buf| < TWO64
      modifies cache
      ensures var end := (offset + |buf|) % TWO64;
              && (written.None? <==> old(Size()) <= end && CLUSTER_SIZE * |cs| < end)
              && Size() == (if end < old(Size()) then old(Size()) else end % TWO32)
      ensures written.Some? ==> Valid(cs) && written.value == Room(|old(Bytes(cs))|, offset, |buf|)
      ensures written.Some? ==> Bytes(cs) == Written(old(Bytes(cs)), offset, buf)
      ensures written.Some? ==> Elsewhere(g, old(cache.Contents()), cache.Contents(), cs, entrySector, entryOffset + SIZE_FIELD)
      ensures written.None? ==> Ready(g, cache) && cs <= grown && Chain(Fat(g, cache.Contents()), grown) && !HasFree(Fat(g, cache.Contents()))
    {
      hide Elsewhere, Valid, Fat, Chain, FileBytes, Ready, Written, Word32, BlockCacheManager.Contents, HasFree;
      ghost var d0 := cache.Contents();
      ghost var n := FileLength(cs);
      var returned;
      returned, grown := IncreaseSize((offset + |buf|) % TWO64, cs);
      if !returned {
        return None, grown;
      }
      ElsewhereChain(g, d0, cache.Contents(), cs, entrySector, entryOffset + SIZE_FIELD);
      var count := CopyOver(offset, buf, cs, d0);
      written := Some(count);
    }

    /** `read_at`; `None` is the slice panic. All the data comes from the one cluster that holds
        `offset`. */
    method ReadAt(offset: nat, len: nat, ghost cs: seq<nat>) returns (r: Option<seq<Byte>>)
      requires Valid(cs) && offset < TWO64 && len < TWO63
      modifies cache
      ensures Valid(cs) && cache.Contents() == old(cache.Contents())
      ensures r == ReadResult(Bytes(cs), Size(), offset, len)
    {
      hide Valid, ClusterBytes, Fat, Chain, FileBytes, Ready, BlockCacheManager.Contents, ReadResult, SubUsize, ClusterOffset;
      ghost var n := FileLength(cs);
      ReadPast(Bytes(cs), Size(), offset, len);
      var chain := ChainOf(cs);
      var buf: seq<Byte> := [];
      var pos: nat := 0;
      var i := 0;
      while i < |chain|
        invariant 0 <= i <= |cs| && Valid(cs) && cache.Contents() == old(cache.Contents())
        invariant pos == CLUSTER_SIZE * i <= offset && buf == []
      {
        if pos < offset {
          var pass := if CLUSTER_SIZE < offset - pos then CLUSTER_SIZE else offset - pos;
          pos := pos + pass;
          if pass == CLUSTER_SIZE {
            i := i + 1;
            continue;
          }
        }
        PosIn(pos, i);
        var off := ClusterOffset(pos);
        var cluster := FetchCluster(chain[i], cs, i);
        var size := FileSize(cs);
        var rest := SubUsize(size, pos);
        var copy := if rest < len - |buf| then rest else len - |buf|;
        ReadHere(Bytes(cs), size, offset, len, i, cluster, off, copy);
        if off + copy > CLUSTER_SIZE {
          return None;
        }
        var part := cluster[off..off + copy];
        assert [] + part == part;
        buf := buf + part;
        pos := pos + copy;
        if |buf| >= len || pos >= size {
          return Some(buf);
        }
        // one of the two always holds: no second cluster is ever read
        assert false;
      }
      return Some(buf);
    }

    method FetchCluster(c: nat, ghost cs: seq<nat>, ghost i: nat) returns (cluster: seq<Byte>)
      requires Valid(cs) && i < |cs| && c == cs[i]
      modifies cache
      ensures Valid(cs) && cache.Contents() == old(cache.Contents())
      ensures |Bytes(cs)| == CLUSTER_SIZE * |cs| && cluster == Bytes(cs)[CLUSTER_SIZE * i..CLUSTER_SIZE * (i + 1)]
    {
      hide BlockCacheManager.Valid, BlockCacheManager.Contents, ClusterBytes, Geometry.DataSector, Fat;
      cluster := ReadCluster(g, cache, c);
      ClusterOfFile(g, cache.Contents(), cs, i);
    }

    /** `read_all`: the 512-byte reads never meet a cluster boundary, so the whole file comes back. */
    method ReadAll(ghost cs: seq<nat>) returns (v: seq<Byte>)
      requires Valid(cs) && CLUSTER_SIZE * |cs| < TWO63
      modifies cache
      ensures Valid(cs) && cache.Contents() == old(cache.Contents())
      ensures v == Bytes(cs)[..if Size() < |Bytes(cs)| then Size() else |Bytes(cs)|]
    {
      hide Valid, ClusterBytes, Fat, Chain, FileBytes, Ready, BlockCacheManager.Contents, ReadResult, Word32;
      ghost var n := FileLength(cs);
      Word32Bound(cache.Contents(), entrySector, entryOffset + SIZE_FIELD);
      v := [];
      while true
        invariant Valid(cs) && cache.Contents() == old(cache.Contents())
        invariant Reading(Bytes(cs), Size(), v)
        decreases |Bytes(cs)| - |v|
      {
        ReadNext(Bytes(cs), Size(), v);
        var part := ReadAt(|v|, BLOCK_SZ, cs);
        if |part.value| == 0 {
          return;
        }
        v := v + part.value;
      }
    }

    /** A write inside the chain followed by reading the file back. */
    method WriteThenReadAll(offset: nat, buf: seq<Byte>, ghost cs: seq<nat>) returns (v: seq<Byte>)
      requires Valid(cs) && offset + |buf| <= CLUSTER_SIZE * |cs| < TWO32 && Size() <= CLUSTER_SIZE * |cs|
      modifies cache
      ensures Valid(cs) && Size() <= |old(Bytes(cs))| && v == Overwrite(old(Bytes(cs)), offset, buf)[..Size()]
    {
      hide Valid, ClusterBytes, Fat, Chain, FileBytes, Ready, BlockCacheManager.Contents, Overwrite, Word32, Elsewhere;
      ghost var n := FileLength(cs);
      ghost var f0 := Bytes(cs);
      var w, _ := WriteAt(offset, buf, cs);
      WrittenInside(f0, offset, buf);
      n := FileLength(cs);
      v := ReadAll(cs);
    }

    method ChainOf(ghost cs: seq<nat>) returns (chain: seq<nat>)
      requires Valid(cs)
      modifies cache
      ensures Valid(cs) && cache.Contents() == old(cache.Contents()) && chain == cs
    {
      chain := ClusterChain(g, cache, startCluster, cs);
    }

    lemma EntryOnDisk(cs: seq<nat>)
      requires Valid(cs)
      ensures entrySector in cache.Contents() && entrySector >= g.RootSector()
    {
      hide Chain, Fat, InChain;
    }

    lemma FileLength(cs: seq<nat>) returns (n: nat)
      requires Valid(cs)
      ensures n == |cs| > 0 && |Bytes(cs)| == CLUSTER_SIZE * n && InRange(g, cs)
    {
      n := |cs|;
    }
  }

  /** How much of `n` bytes at `offset` a file of `size` bytes has room for. */
  function Room(size: nat, offset: nat, n: nat): nat
  {
    if offset >= size then 0 else if n < size - offset then n else size - offset
  }

  /** The file with the part of `buf` it has room for at `offset`. */
  function Written(f: seq<Byte>, offset: nat, buf: seq<Byte>): (r: seq<Byte>)
    ensures |r| == |f|
  {
    if offset >= |f| then f else Overwrite(f, offset, buf[..Room(|f|, offset, |buf|)])
  }

  lemma WrittenInside(f: seq<Byte>, offset: nat, buf: seq<Byte>)
    requires offset + |buf| <= |f|
    ensures Written(f, offset, buf) == Overwrite(f, offset, buf)
  {
    assert buf[..|buf|] == buf;
    if offset == |f| { assert Overwrite(f, offset, buf) == f; }
  }

  /** `f` is `f0` with the first `n` bytes of `buf` at `offset`. */
  ghost predicate Writing(f0: seq<Byte>, f: seq<Byte>, offset: nat, buf: seq<Byte>, n: nat)
  {
    n <= |buf| && if n == 0 then f == f0 else offset + n <= |f0| && f == Overwrite(f0, offset, buf[..n])
  }

  lemma WritingNone(f: seq<Byte>, offset: nat, buf: seq<Byte>)
    ensures Writing(f, f, offset, buf, 0)
  {
  }

  lemma WritingMore(f0: seq<Byte>, f: seq<Byte>, f': seq<Byte>, offset: nat, buf: seq<Byte>, n: nat, k: nat)
    requires Writing(f0, f, offset, buf, n) && n + k <= |buf| && |f| == |f0| && offset + n + k <= |f0|
    requires f' == Overwrite(f, offset + n, buf[n..n + k])
    ensures Writing(f0, f', offset, buf, n + k)
  {
    assert buf[..n] + buf[n..n + k] == buf[..n + k];
  }

  lemma WritingAll(f0: seq<Byte>, f: seq<Byte>, offset: nat, buf: seq<Byte>, n: nat)
    requires Writing(f0, f, offset, buf, n) && n == Room(|f0|, offset, |buf|)
    ensures f == Written(f0, offset, buf)
  {
    if n == 0 && offset < |f0| { assert Overwrite(f0, offset, buf[..0]) == f0; }
  }

  /** A chain among one file is a chain, no longer than the table. */
  lemma OneChain(t: seq<nat>, cs: seq<nat>)
    ensures Chains(t, [cs]) <==> Chain(t, cs)
    ensures Chain(t, cs) ==> 0 < |cs| <= |t|
  {
    if Chain(t, cs) { DistinctBelow(cs, |t|); }
    assert [cs][0] == cs;
  }

  lemma {:induction false} DistinctBelow(cs: seq<nat>, n: nat)
    requires (forall i | 0 <= i < |cs| :: cs[i] < n) && (forall i, j | 0 <= i < j < |cs| :: cs[i] != cs[j])
    ensures |cs| <= n
  {
    assert cs == [] || cs[0] < n;
    if n > 0 {
      if i :| 0 <= i < |cs| && cs[i] == n - 1 {
        DistinctBelow(cs[..i] + cs[i + 1..], n - 1);
      } else {
        DistinctBelow(cs, n - 1);
      }
    }
  }

  lemma SizeKept(g: Geometry, d: Disk, d': Disk, sector: nat, off: nat)
    requires SameData(g, d, d') && sector in d && sector >= g.RootSector()
    ensures Word32(d', sector, off + SIZE_FIELD) == Word32(d, sector, off + SIZE_FIELD)
  {
    hide FromLE;
  }

  lemma Word32Bound(d: Disk, id: nat, off: nat)
    ensures Word32(d, id, off) < TWO32
  {
    if id in d && off + 4 <= |d[id]| {
      Pow4();
      FromLEBound(d[id][off..off + 4]);
    }
  }

  lemma ElsewhereNone(g: Geometry, d: Disk, cs: seq<nat>, sector: nat, off: nat)
    ensures Elsewhere(g, d, d, cs, sector, off)
  {
  }

  lemma ElsewhereChain(g: Geometry, d: Disk, d': Disk, cs: seq<nat>, sector: nat, off: nat)
    requires Elsewhere(g, d, d', [], sector, off)
    ensures Elsewhere(g, d, d', cs, sector, off)
  {
    assert forall id :: !InChain(g, [], id);
  }

  /** Storing the size in the directory entry changes neither the FAT nor the file's clusters. */
  lemma EntryWritten(g: Geometry, d: Disk, cs: seq<nat>, sector: nat, off: nat, w: nat)
    requires DiskOk(g, d) && EntryOk(g, sector, off, cs) && w < TWO32 && InRange(g, cs)
    ensures sector in d && |d[sector]| == BLOCK_SZ && off + 32 <= BLOCK_SZ
    ensures var d' := d[sector := Overwrite(d[sector], off + SIZE_FIELD, ToLE(w, 4))];
            && DiskOk(g, d') && Word32(d', sector, off + SIZE_FIELD) == w && Fat(g, d') == Fat(g, d) && FileBytes(g, d', cs) == FileBytes(g, d, cs)
            && Elsewhere(g, d, d', [], sector, off + SIZE_FIELD)
  {
    hide ToLE, FromLE, Geometry.FatSector, Geometry.FatOffset;
    var d' := d[sector := Overwrite(d[sector], off + SIZE_FIELD, ToLE(w, 4))];
    Word32Written(d, sector, off + SIZE_FIELD, w, sector, off + SIZE_FIELD);
    forall c | 0 <= c < g.clusters ensures FatEntry(g, d', c) == FatEntry(g, d, c) { FatPlace(g, c); }
    forall i | 0 <= i < |cs| ensures ClusterBytes(g, d', cs[i]) == ClusterBytes(g, d, cs[i]) {
      forall k | 0 <= k < CLUSTER_SIZE ensures g.DataSector(cs[i]) + k / BLOCK_SZ != sector { }
    }
  }

  lemma EntryApart(g: Geometry, d: Disk, d': Disk, cs: seq<nat>, i: nat, sector: nat, off: nat)
    requires EntryOk(g, sector, off, cs) && i < |cs| && cs[i] >= 2 && SameOutside(d, d', g.DataSector(cs[i]))
    ensures Word32(d', sector, off + SIZE_FIELD) == Word32(d, sector, off + SIZE_FIELD)
  {
    hide FromLE;
  }

  function ClusterOffset(pos: nat): nat { pos % CLUSTER_SIZE }

  lemma PosIn(pos: nat, i: nat)
    requires CLUSTER_SIZE * i <= pos < CLUSTER_SIZE * (i + 1)
    ensures ClusterOffset(pos) == pos - CLUSTER_SIZE * i
  {
  }


  /** What `read_at` returns for a file whose clusters hold `f`. */
  function ReadResult(f: seq<Byte>, size: nat, offset: nat, len: nat): Option<seq<Byte>>
    requires offset < TWO64
  {
    if offset >= |f| then Some([])
    else
      var rest := SubUsize(size, offset);
      var n := if rest < len then rest else len;
      if offset % CLUSTER_SIZE + n > CLUSTER_SIZE then None
      else if offset + n > |f| then None
      else Some(f[offset..offset + n])
  }

  lemma ReadPast(f: seq<Byte>, size: nat, offset: nat, len: nat)
    requires offset < TWO64
    ensures offset >= |f| ==> ReadResult(f, size, offset, len) == Some([])
  {
  }

  lemma ReadHere(f: seq<Byte>, size: nat, offset: nat, len: nat, i: nat, cluster: seq<Byte>, off: nat, n: nat)
    requires offset < TWO64 && len < TWO63 && size < TWO32 && off == offset - CLUSTER_SIZE * i < CLUSTER_SIZE
    requires CLUSTER_SIZE * (i + 1) <= |f| && cluster == f[CLUSTER_SIZE * i..CLUSTER_SIZE * (i + 1)]
    requires n == if SubUsize(size, offset) < len then SubUsize(size, offset) else len
    ensures n >= len || offset + n >= size
    ensures ReadResult(f, size, offset, len) == if off + n > CLUSTER_SIZE then None else Some(cluster[off..off + n])
  {
    PosIn(offset, i);
    if off + n <= CLUSTER_SIZE {
      SliceOfSlice(f, CLUSTER_SIZE * i, CLUSTER_SIZE, off, n);
    }
  }

  lemma SliceOfSlice(f: seq<Byte>, a: nat, m: nat, off: nat, n: nat)
    requires a + m <= |f| && off + n <= m
    ensures f[a..a + m][off..off + n] == f[a + off..a + off + n]
  {
    var x, y := f[a..a + m][off..off + n], f[a + off..a + off + n];
    forall k | 0 <= k < n ensures x[k] == y[k] {}
  }

  /** What a reader is promised: the bytes from `offset` on, as far as `len` and the size allow. */
  function Wanted(f: seq<Byte>, size: nat, offset: nat, len: nat): seq<Byte>
    requires size <= |f|
  {
    if offset >= size then [] else if offset + len <= size then f[offset..offset + len] else f[offset..size]
  }

  /** The bytes wanted stay inside one cluster; or there are none, and `offset` is not strictly
      inside the unused rest of the last cluster. */
  predicate ReadsWell(f: seq<Byte>, size: nat, offset: nat, len: nat)
  {
    if offset < size then offset % CLUSTER_SIZE + (if size - offset < len then size - offset else len) <= CLUSTER_SIZE
    else offset == size || offset >= |f| || len == 0
  }

  /** `read_at` meets its promise exactly when the wanted bytes stay inside one cluster. */
  lemma ReadRight(f: seq<Byte>, size: nat, offset: nat, len: nat)
    requires size <= |f| && |f| % CLUSTER_SIZE == 0 && offset < TWO64 && len < TWO63 && size < TWO32
    ensures ReadResult(f, size, offset, len) == Some(Wanted(f, size, offset, len)) <==> ReadsWell(f, size, offset, len)
  {
    assert offset < |f| ==> offset - offset % CLUSTER_SIZE + CLUSTER_SIZE <= |f|;
  }

  /** Two clusters, 5000 bytes recorded: reading 2 bytes across the boundary panics. */
  lemma ReadAcrossClusters()
    ensures var f := seq<Byte>(8192, _ => 7);
            ReadResult(f, 5000, 4095, 2) == None && Wanted(f, 5000, 4095, 2) == [7, 7]
  {
    var f := seq<Byte>(8192, _ => 7);
    assert f[4095..4097] == [7, 7];
  }

  /** `v` is the part of the file that 512-byte reads have returned so far. */
  ghost predicate Reading(f: seq<Byte>, size: nat, v: seq<Byte>)
  {
    && |f| % CLUSTER_SIZE == 0 && |f| < TWO63 && size < TWO32 && v <= f && |v| <= size
    && (|v| % BLOCK_SZ == 0 || |v| == size)
  }

  lemma ReadNext(f: seq<Byte>, size: nat, v: seq<Byte>)
    requires Reading(f, size, v)
    ensures ReadResult(f, size, |v|, BLOCK_SZ).Some?
    ensures var part := ReadResult(f, size, |v|, BLOCK_SZ).value;
            if part == [] then v == f[..if size < |f| then size else |f|] else Reading(f, size, v + part)
  {
    var n := if size - |v| < BLOCK_SZ then size - |v| else BLOCK_SZ;
    if |v| < |f| && |v| % BLOCK_SZ == 0 {
      SectorInCluster(|v|, |f|);
      SectorNext(|v|, n);
      assert f[..|v|] + f[|v|..|v| + n] == f[..|v| + n];
    }
  }

  /** A sector's worth of bytes at a multiple of the sector size stays in its cluster. */
  lemma SectorInCluster(x: nat, n: nat)
    requires x % BLOCK_SZ == 0 && n % CLUSTER_SIZE == 0 && x < n
    ensures x % CLUSTER_SIZE + BLOCK_SZ <= CLUSTER_SIZE && x + BLOCK_SZ <= n
  {
  }

  lemma SectorNext(x: nat, n: nat)
    requires x % BLOCK_SZ == 0
    ensures n == BLOCK_SZ ==> (x + n) % BLOCK_SZ == 0
  {
  }

  lemma ClusterOfFile(g: Geometry, d: Disk, cs: seq<nat>, i: nat)
    requires InRange(g, cs) && i < |cs|
    ensures FileBytes(g, d, cs)[CLUSTER_SIZE * i..CLUSTER_SIZE * (i + 1)] == ClusterBytes(g, d, cs[i])
  {
    hide ClusterBytes;
    forall k | 0 <= k < CLUSTER_SIZE ensures FileBytes(g, d, cs)[CLUSTER_SIZE * i + k] == ClusterBytes(g, d, cs[i])[k] {
      InCluster(CLUSTER_SIZE * i + k, i, k, 1);
    }
  }
}
