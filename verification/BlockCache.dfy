/** The write-back block cache of os/src/block/block_cache.rs over one device. An entry's
    `handles` are the `Arc` clones held outside the queue. */
module BlockCache {
  import opened Bytes
  import opened Sv39

  const BLOCK_SZ: nat := 512
  const BLOCK_CACHE_SIZE: nat := 16

  datatype Entry = Entry(id: nat, bytes: seq<Byte>, modified: bool, handles: nat)

  type Disk = map<nat, seq<Byte>>

  datatype Store = Store(queue: seq<Entry>, disk: Disk)

  // ---- what the cache does, as functions

  /** Position of the first entry for `id`; the length of the queue when there is none. */
  function Find(q: seq<Entry>, id: nat): (i: nat)
    ensures i <= |q| && (i < |q| ==> q[i].id == id)
    ensures forall k | 0 <= k < i :: q[k].id != id
  {
    if q == [] then 0 else if q[0].id == id then 0 else 1 + Find(q[1..], id)
  }

  /** Position of the first entry nobody holds. */
  function FindFree(q: seq<Entry>): (i: nat)
    ensures i <= |q| && (i < |q| ==> q[i].handles == 0)
    ensures forall k | 0 <= k < i :: q[k].handles > 0
  {
    if q == [] then 0 else if q[0].handles == 0 then 0 else 1 + FindFree(q[1..])
  }

  /** `BlockCache::sync`, which `drop` also runs. */
  function Flush(e: Entry, disk: Disk): Disk
  {
    if e.modified then disk[e.id := e.bytes] else disk
  }

  /** Make room: evict the first free entry when the queue is full; `None` is the panic. */
  function Evict(s: Store): Option<Store>
  {
    if |s.queue| != BLOCK_CACHE_SIZE then Some(s)
    else var i := FindFree(s.queue);
    if i == |s.queue| then None
    else Some(Store(s.queue[..i] + s.queue[i + 1..], Flush(s.queue[i], s.disk)))
  }

  /** `get_block_cache`: a handle on the entry for `id`, loading the block if need be. */
  function Get(s: Store, id: nat): Option<Store>
    requires id in s.disk
  {
    var i := Find(s.queue, id);
    if i < |s.queue| then Some(Store(s.queue[i := Hold(s.queue[i])], s.disk))
    else
      var r := Evict(s);
      if r.None? || id !in r.value.disk then None
      else Some(Store(r.value.queue + [Entry(id, r.value.disk[id], false, 1)], r.value.disk))
  }

  function Hold(e: Entry): Entry { Entry(e.id, e.bytes, e.modified, e.handles + 1) }

  /** A handle goes out of scope. */
  function Release(s: Store, id: nat): Store
  {
    var i := Find(s.queue, id);
    if i < |s.queue| && s.queue[i].handles > 0
    then Store(s.queue[i := Entry(id, s.queue[i].bytes, s.queue[i].modified, s.queue[i].handles - 1)], s.disk)
    else s
  }

  /** `modify` through a handle: `get_mut` marks the entry, the closure writes. */
  function Modify(s: Store, id: nat, off: nat, data: seq<Byte>): Store
    requires forall k | 0 <= k < |s.queue| :: |s.queue[k].bytes| == BLOCK_SZ
    requires off + |data| <= BLOCK_SZ
  {
    var i := Find(s.queue, id);
    if i < |s.queue| && s.queue[i].handles > 0
    then Store(s.queue[i := Entry(id, Overwrite(s.queue[i].bytes, off, data), true, s.queue[i].handles)], s.disk)
    else s
  }

  /** `block_cache_sync_all`, front to back. */
  function SyncFrom(s: Store, k: nat): Store
    requires k <= |s.queue|
    decreases |s.queue| - k
  {
    if k == |s.queue| then s
    else
      var e := s.queue[k];
      SyncFrom(Store(s.queue[k := Entry(e.id, e.bytes, false, e.handles)], Flush(e, s.disk)), k + 1)
  }

  // ---- the plain disk it stands for

  ghost predicate Inv(s: Store)
  {
    && |s.queue| <= BLOCK_CACHE_SIZE
    && (forall i, j | 0 <= i < j < |s.queue| :: s.queue[i].id != s.queue[j].id)
    && (forall i | 0 <= i < |s.queue| :: |s.queue[i].bytes| == BLOCK_SZ && s.queue[i].id in s.disk)
    && (forall i | 0 <= i < |s.queue| :: !s.queue[i].modified ==> s.disk[s.queue[i].id] == s.queue[i].bytes)
    && (forall id | id in s.disk :: |s.disk[id]| == BLOCK_SZ)
  }

  /** The cached copy if there is one, else the device block. */
  function Block(s: Store, id: nat): seq<Byte>
    requires id in s.disk
  {
    var i := Find(s.queue, id);
    if i < |s.queue| then s.queue[i].bytes else s.disk[id]
  }

  /** The disk as its users see it. */
  function Logical(s: Store): (d: Disk)
    ensures d.Keys == s.disk.Keys
  {
    map id | id in s.disk :: Block(s, id)
  }

  lemma FindUnique(q: seq<Entry>, i: nat)
    requires i < |q| && forall a, b | 0 <= a < b < |q| :: q[a].id != q[b].id
    ensures Find(q, q[i].id) == i
  {
  }

  /** `Block` by position: whatever entry has this id. */
  lemma BlockAt(s: Store, i: nat)
    requires Inv(s) && i < |s.queue|
    ensures Block(s, s.queue[i].id) == s.queue[i].bytes
  {
    FindUnique(s.queue, i);
  }

  lemma EvictKeeps(s: Store)
    requires Inv(s)
    ensures Evict(s).None? <==> |s.queue| == BLOCK_CACHE_SIZE && forall i | 0 <= i < |s.queue| :: s.queue[i].handles > 0
    ensures Evict(s).Some? ==> Inv(Evict(s).value) && |Evict(s).value.queue| < BLOCK_CACHE_SIZE && Logical(Evict(s).value) == Logical(s)
    ensures Evict(s).Some? ==> forall e | e in s.queue && e.handles > 0 :: e in Evict(s).value.queue
    ensures Evict(s).Some? ==> forall e | e in Evict(s).value.queue :: e in s.queue
  {
    if |s.queue| == BLOCK_CACHE_SIZE && FindFree(s.queue) < |s.queue| {
      EvictOne(s, FindFree(s.queue));
    }
  }

  ghost function Without(s: Store, k: nat): Store
    requires k < |s.queue|
  {
    Store(s.queue[..k] + s.queue[k + 1..], Flush(s.queue[k], s.disk))
  }

  lemma WithoutEntries(s: Store, k: nat)
    requires k < |s.queue|
    ensures |Without(s, k).queue| == |s.queue| - 1
    ensures forall i | 0 <= i < k :: Without(s, k).queue[i] == s.queue[i]
    ensures forall i | k <= i < |s.queue| - 1 :: Without(s, k).queue[i] == s.queue[i + 1]
    ensures forall e | e in s.queue && e != s.queue[k] :: e in Without(s, k).queue
    ensures forall e | e in Without(s, k).queue :: e in s.queue
  {
    var q := Without(s, k).queue;
    forall e | e in s.queue && e != s.queue[k] ensures e in q {
      var i :| 0 <= i < |s.queue| && s.queue[i] == e;
      assert q[if i < k then i else i - 1] == e;
    }
  }

  lemma WithoutInv(s: Store, k: nat)
    requires Inv(s) && k < |s.queue|
    ensures Inv(Without(s, k)) && Without(s, k).disk.Keys == s.disk.Keys
  {
    WithoutEntries(s, k);
  }

  lemma WithoutBlock(s: Store, k: nat, id: nat)
    requires Inv(s) && k < |s.queue| && id in s.disk && id in Without(s, k).disk
    ensures Block(Without(s, k), id) == Block(s, id)
  {
    WithoutEntries(s, k);
    WithoutInv(s, k);
    var s' := Without(s, k);
    var j := Find(s.queue, id);
    if j < |s.queue| && j != k {
      FindUnique(s'.queue, if j < k then j else j - 1);
    } else {
      assert forall i | 0 <= i < |s'.queue| :: s'.queue[i].id != id;
    }
  }

  lemma EvictOne(s: Store, k: nat)
    requires Inv(s) && k < |s.queue|
    ensures Inv(Without(s, k)) && Logical(Without(s, k)) == Logical(s)
    ensures forall e | e in s.queue && e != s.queue[k] :: e in Without(s, k).queue
    ensures forall e | e in Without(s, k).queue :: e in s.queue
  {
    hide Block, Without;
    WithoutEntries(s, k);
    WithoutInv(s, k);
    forall id | id in s.disk ensures Block(Without(s, k), id) == Block(s, id) {
      WithoutBlock(s, k, id);
    }
  }

  // ---- every operation refines the plain disk

  /** How many handles there are on the block. */
  function Handles(s: Store, id: nat): nat
  {
    var i := Find(s.queue, id);
    if i < |s.queue| then s.queue[i].handles else 0
  }

  /** Replacing an entry by one for the same block. */
  lemma Replaced(s: Store, i: nat, e: Entry)
    requires Inv(s) && i < |s.queue| && e.id == s.queue[i].id && |e.bytes| == BLOCK_SZ
    requires !e.modified ==> s.disk[e.id] == e.bytes
    ensures var s' := Store(s.queue[i := e], s.disk);
            && Inv(s')
            && (forall id | id in s.disk :: Block(s', id) == if id == e.id then e.bytes else Block(s, id))
            && (forall id :: Handles(s', id) == if id == e.id then e.handles else Handles(s, id))
  {
    hide Find;
    var s' := Store(s.queue[i := e], s.disk);
    FindUnique(s.queue, i);
    assert forall id :: Find(s'.queue, id) == Find(s.queue, id) by {
      forall id ensures Find(s'.queue, id) == Find(s.queue, id) {
        SameIds(s.queue, s'.queue, id);
      }
    }
  }

  lemma SameIds(q: seq<Entry>, q': seq<Entry>, id: nat)
    requires |q| == |q'| && forall i | 0 <= i < |q| :: q[i].id == q'[i].id
    ensures Find(q, id) == Find(q', id)
  {
  }

  lemma Appended(s: Store, e: Entry)
    requires Inv(s) && |s.queue| < BLOCK_CACHE_SIZE && Find(s.queue, e.id) == |s.queue|
    requires e.id in s.disk && e.bytes == s.disk[e.id]
    ensures var s' := Store(s.queue + [e], s.disk);
            && Inv(s') && (forall id | id in s.disk :: Block(s', id) == Block(s, id))
            && (forall id :: Handles(s', id) == if id == e.id then e.handles else Handles(s, id))
  {
    var s' := Store(s.queue + [e], s.disk);
    forall id ensures Find(s'.queue, id) == if id == e.id then |s.queue| else if Find(s.queue, id) < |s.queue| then Find(s.queue, id) else |s.queue| + 1 {
      FoundIn(s, e, id);
    }
  }

  lemma FoundIn(s: Store, e: Entry, id: nat)
    requires Inv(s) && Find(s.queue, e.id) == |s.queue|
    ensures Find(s.queue + [e], id) == if id == e.id then |s.queue| else if Find(s.queue, id) < |s.queue| then Find(s.queue, id) else |s.queue| + 1
  {
    var q := s.queue + [e];
    var i := Find(q, id);
    assert forall k | 0 <= k < |s.queue| :: q[k] == s.queue[k];
    assert q[|s.queue|] == e;
    if Find(s.queue, id) < |s.queue| { assert q[Find(s.queue, id)].id == id; }
    if i < |s.queue| { assert s.queue[i].id == id; }
  }

  ghost predicate UniqueIds(q: seq<Entry>)
  {
    forall i, j | 0 <= i < j < |q| :: q[i].id != q[j].id
  }

  lemma SameHandles(q: seq<Entry>, q': seq<Entry>, id: nat)
    requires UniqueIds(q) && UniqueIds(q')
    requires forall e | e in q && e.handles > 0 :: e in q'
    requires forall e | e in q' :: e in q
    ensures (if Find(q', id) < |q'| then q'[Find(q', id)].handles else 0) == (if Find(q, id) < |q| then q[Find(q, id)].handles else 0)
  {
    hide Find;
    var j, i := Find(q, id), Find(q', id);
    if j < |q| && q[j].handles > 0 {
      assert q[j] in q';
      var k :| 0 <= k < |q'| && q'[k] == q[j];
      FindUnique(q', k);
    } else if i < |q'| {
      assert q'[i] in q;
      var k :| 0 <= k < |q| && q[k] == q'[i];
      FindUnique(q, k);
    }
  }

  lemma EvictHandles(s: Store, id: nat)
    requires Inv(s) && Evict(s).Some?
    ensures Handles(Evict(s).value, id) == Handles(s, id)
  {
    hide Evict, Logical, Find;
    EvictKeeps(s);
    SameHandles(s.queue, Evict(s).value.queue, id);
  }

  /** The queue is full of held entries and `id` is not among them. */
  ghost predicate RunOut(s: Store, id: nat)
  {
    |s.queue| == BLOCK_CACHE_SIZE && Find(s.queue, id) == |s.queue| && forall i | 0 <= i < |s.queue| :: s.queue[i].handles > 0
  }

  lemma GetRefines(s: Store, id: nat)
    requires Inv(s) && id in s.disk
    ensures Get(s, id).None? <==> RunOut(s, id)
    ensures Get(s, id).Some? ==> var s' := Get(s, id).value;
              && Inv(s') && Logical(s') == Logical(s) && Find(s'.queue, id) < |s'.queue|
              && (forall x :: Handles(s', x) == if x == id then Handles(s, x) + 1 else Handles(s, x))
  {
    hide Find, Evict, Block, Logical, Handles, Inv;
    if Find(s.queue, id) < |s.queue| {
      GetHit(s, id);
    } else {
      GetMiss(s, id);
    }
  }

  lemma GetHit(s: Store, id: nat)
    requires Inv(s) && id in s.disk && Find(s.queue, id) < |s.queue|
    ensures var i := Find(s.queue, id); var s' := Store(s.queue[i := Hold(s.queue[i])], s.disk);
            && Inv(s') && Logical(s') == Logical(s) && Find(s'.queue, id) < |s'.queue|
            && (forall x :: Handles(s', x) == if x == id then Handles(s, x) + 1 else Handles(s, x))
  {
    hide Block, Find;
    var i := Find(s.queue, id);
    Replaced(s, i, Hold(s.queue[i]));
    BlockAt(s, i);
    FindUnique(s.queue[i := Hold(s.queue[i])], i);
  }

  lemma GetMiss(s: Store, id: nat)
    requires Inv(s) && id in s.disk && Find(s.queue, id) == |s.queue|
    ensures Get(s, id).None? <==> RunOut(s, id)
    ensures Get(s, id).Some? ==> var s' := Get(s, id).value;
              && Inv(s') && Logical(s') == Logical(s) && Find(s'.queue, id) < |s'.queue|
              && (forall x :: Handles(s', x) == if x == id then Handles(s, x) + 1 else Handles(s, x))
  {
    hide Find, Block, Evict, Inv, Handles;
    EvictKeeps(s);
    if Evict(s).Some? {
      var r := Evict(s).value;
      assert r.disk.Keys == Logical(r).Keys == Logical(s).Keys;
      Absent(s, r, id);
      var e := Entry(id, r.disk[id], false, 1);
      Appended(r, e);
      FoundIn(r, e, id);
      forall x ensures Handles(r, x) == Handles(s, x) { EvictHandles(s, x); }
      NoHandles(s, id);
      var s' := Store(r.queue + [e], r.disk);
      assert Logical(s') == Logical(r);
    }
  }

  lemma NoHandles(s: Store, id: nat)
    requires Find(s.queue, id) == |s.queue|
    ensures Handles(s, id) == 0
  {
  }

  lemma Absent(s: Store, r: Store, id: nat)
    requires Find(s.queue, id) == |s.queue| && forall e | e in r.queue :: e in s.queue
    ensures Find(r.queue, id) == |r.queue|
  {
    forall i | 0 <= i < |r.queue| ensures r.queue[i].id != id {
      assert r.queue[i] in s.queue;
    }
  }

  /** The blocks in the queue, in order. */
  function QueueIds(q: seq<Entry>): (r: seq<nat>)
    ensures |r| == |q| && forall i | 0 <= i < |q| :: r[i] == q[i].id
  {
    seq(|q|, i requires 0 <= i < |q| => q[i].id)
  }

  /** Which blocks are cached: a hit changes nothing; a miss puts the block at the back, and only when
      sixteen are there the first that nobody holds leaves. The device changes only if that one
      was modified, and only in its block. */
  lemma GetPlaces(s: Store, id: nat)
    requires Inv(s) && id in s.disk && Get(s, id).Some?
    ensures var s', ids := Get(s, id).value, QueueIds(s.queue);
            && (id in ids ==> QueueIds(s'.queue) == ids && s'.disk == s.disk)
            && (id !in ids && |ids| < 16 ==> QueueIds(s'.queue) == ids + [id] && s'.disk == s.disk)
            && (id !in ids && |ids| == 16 ==> exists k | 0 <= k < 16 ::
                  && s.queue[k].handles == 0 && (forall i | 0 <= i < k :: s.queue[i].handles > 0)
                  && QueueIds(s'.queue) == ids[..k] + ids[k + 1..] + [id]
                  && s'.disk == if s.queue[k].modified then s.disk[ids[k] := s.queue[k].bytes] else s.disk)
  {
    var s', ids := Get(s, id).value, QueueIds(s.queue);
    var i := Find(s.queue, id);
    if i < |s.queue| {
      assert ids[i] == id;
    } else if |ids| == 16 {
      var k := FindFree(s.queue);
      assert QueueIds(s'.queue) == ids[..k] + ids[k + 1..] + [id];
    }
  }

  lemma ModifyRefines(s: Store, id: nat, off: nat, data: seq<Byte>)
    requires Inv(s) && id in s.disk && Handles(s, id) > 0 && off + |data| <= BLOCK_SZ
    ensures var s' := Modify(s, id, off, data);
            && Inv(s') && |Logical(s)[id]| == BLOCK_SZ && Logical(s') == Logical(s)[id := Overwrite(Logical(s)[id], off, data)]
            && (forall x :: Handles(s', x) == Handles(s, x)) && QueueIds(s'.queue) == QueueIds(s.queue) && s'.disk == s.disk
  {
    hide Block, Find;
    var i := Find(s.queue, id);
    BlockAt(s, i);
    Replaced(s, i, Entry(id, Overwrite(s.queue[i].bytes, off, data), true, s.queue[i].handles));
  }

  lemma ReleaseRefines(s: Store, id: nat)
    requires Inv(s) && id in s.disk && Handles(s, id) > 0
    ensures var s' := Release(s, id);
            && Inv(s') && Logical(s') == Logical(s)
            && (forall x :: Handles(s', x) == if x == id then Handles(s, x) - 1 else Handles(s, x))
            && QueueIds(s'.queue) == QueueIds(s.queue) && s'.disk == s.disk
  {
    hide Block, Find;
    var i := Find(s.queue, id);
    BlockAt(s, i);
    Replaced(s, i, Entry(id, s.queue[i].bytes, s.queue[i].modified, s.queue[i].handles - 1));
  }

  lemma {:induction false} SyncRefines(s: Store, k: nat)
    requires Inv(s) && k <= |s.queue| && forall i | 0 <= i < k :: !s.queue[i].modified
    ensures var s' := SyncFrom(s, k);
            && Inv(s') && Logical(s') == Logical(s) && s'.disk == Logical(s')
            && (forall x :: Handles(s', x) == Handles(s, x))
    decreases |s.queue| - k
  {
    hide Inv, Find, Block, Logical, Handles, Flush;
    if k < |s.queue| {
      SyncOne(s, k);
      SyncedClean(s, k);
      SyncRefines(Synced(s, k), k + 1);
    } else {
      CleanDisk(s);
    }
  }

  lemma SyncedClean(s: Store, k: nat)
    requires k < |s.queue| && forall i | 0 <= i < k :: !s.queue[i].modified
    ensures |Synced(s, k).queue| == |s.queue| && forall i | 0 <= i < k + 1 :: !Synced(s, k).queue[i].modified
  {
  }

  /** With no entry modified the device is the logical disk. */
  lemma CleanDisk(s: Store)
    requires Inv(s) && forall i | 0 <= i < |s.queue| :: !s.queue[i].modified
    ensures s.disk == Logical(s)
  {
    assert forall id | id in s.disk :: Block(s, id) == s.disk[id];
  }

  ghost function Synced(s: Store, k: nat): Store
    requires k < |s.queue|
  {
    var e := s.queue[k];
    Store(s.queue[k := Entry(e.id, e.bytes, false, e.handles)], Flush(e, s.disk))
  }

  lemma SyncedFind(s: Store, k: nat, id: nat)
    requires k < |s.queue|
    ensures Find(Synced(s, k).queue, id) == Find(s.queue, id)
  {
    SameIds(s.queue, Synced(s, k).queue, id);
  }

  lemma SyncedInv(s: Store, k: nat)
    requires Inv(s) && k < |s.queue|
    ensures Inv(Synced(s, k)) && s.queue[k].id in s.disk && Find(s.queue, s.queue[k].id) == k
  {
    FindUnique(s.queue, k);
  }

  lemma SyncOne(s: Store, k: nat)
    requires Inv(s) && k < |s.queue|
    ensures Inv(Synced(s, k)) && Logical(Synced(s, k)) == Logical(s) && (forall x :: Handles(Synced(s, k), x) == Handles(s, x))
    ensures forall i | 0 <= i < |s.queue| && i != k :: Synced(s, k).queue[i] == s.queue[i]
  {
    hide Find, Inv, Block;
    var s' := Synced(s, k);
    SyncedInv(s, k);
    SyncedKeys(s, k);
    forall id ensures Find(s'.queue, id) == Find(s.queue, id) { SyncedFind(s, k, id); }
    forall id | id in s.disk ensures id in s'.disk && Block(s', id) == Block(s, id) { SyncedBlock(s, k, id); }
  }

  lemma SyncedKeys(s: Store, k: nat)
    requires Inv(s) && k < |s.queue|
    ensures Synced(s, k).disk.Keys == s.disk.Keys
  {
    SyncedInv(s, k);
  }

  lemma SyncedBlock(s: Store, k: nat, id: nat)
    requires Inv(s) && k < |s.queue| && id in s.disk
    ensures id in Synced(s, k).disk && Block(Synced(s, k), id) == Block(s, id)
  {
    hide Find, Inv;
    SyncedInv(s, k);
    SyncedFind(s, k, id);
  }

  // ---- whole runs against the plain disk

  datatype Op = OpGet(id: nat) | OpModify(id: nat, off: nat, data: seq<Byte>) | OpRelease(id: nat) | OpSync

  /** The plain disk: blocks, and who holds what. Only a holder writes or lets go. */
  datatype Plain = Plain(disk: Disk, held: multiset<nat>)

  ghost predicate Allowed(p: Plain, op: Op)
  {
    match op
    case OpGet(id) => id in p.disk
    case OpModify(id, off, data) => id in p.held && off + |data| <= BLOCK_SZ
    case OpRelease(id) => id in p.held
    case OpSync => true
  }

  ghost function PlainStep(p: Plain, op: Op): Plain
    requires Allowed(p, op) && forall id | id in p.held :: id in p.disk && |p.disk[id]| == BLOCK_SZ
  {
    match op
    case OpGet(id) => Plain(p.disk, p.held + multiset{id})
    case OpModify(id, off, data) => Plain(p.disk[id := Overwrite(p.disk[id], off, data)], p.held)
    case OpRelease(id) => Plain(p.disk, p.held - multiset{id})
    case OpSync => p
  }

  ghost function Step(s: Store, op: Op): Option<Store>
    requires Inv(s)
  {
    match op
    case OpGet(id) => if id in s.disk then Get(s, id) else None
    case OpModify(id, off, data) => if off + |data| <= BLOCK_SZ then Some(Modify(s, id, off, data)) else None
    case OpRelease(id) => Some(Release(s, id))
    case OpSync => Some(SyncFrom(s, 0))
  }

  /** The cache stands for the plain disk; in particular a held block is in the queue. */
  ghost predicate Refines(s: Store, p: Plain)
  {
    && Inv(s) && Logical(s) == p.disk
    && (forall id :: p.held[id] == Handles(s, id))
  }

  lemma HeldIsCached(s: Store, p: Plain, id: nat)
    requires Refines(s, p) && id in p.held
    ensures Find(s.queue, id) < |s.queue| && id in p.disk && p.disk[id] == s.queue[Find(s.queue, id)].bytes && |p.disk[id]| == BLOCK_SZ
  {
    var i := Find(s.queue, id);
    assert p.held[id] > 0;
    assert Logical(s)[id] == Block(s, id);
  }

  /** Each operation does to the plain disk what it should. It panics only when sixteen other
      blocks are held, and `sync_all` leaves the device equal to the plain disk. */
  lemma StepRefines(s: Store, p: Plain, op: Op)
    requires Refines(s, p) && Allowed(p, op)
    ensures forall id | id in p.held :: id in p.disk && |p.disk[id]| == BLOCK_SZ
    ensures Step(s, op).Some? ==> Refines(Step(s, op).value, PlainStep(p, op))
    ensures Step(s, op).None? <==> op.OpGet? && RunOut(s, op.id)
    ensures op.OpSync? ==> Step(s, op).value.disk == p.disk
  {
    hide Find, Get, Modify, Release, SyncFrom, Handles, Logical, Inv, RunOut;
    forall id | id in p.held ensures id in p.disk && |p.disk[id]| == BLOCK_SZ {
      HeldIsCached(s, p, id);
    }
    assert s.disk.Keys == Logical(s).Keys;
    match op
    case OpGet(id) => GetRefines(s, id);
    case OpModify(id, off, data) => ModifyRefines(s, id, off, data);
    case OpRelease(id) => ReleaseRefines(s, id);
    case OpSync => SyncRefines(s, 0);
  }

  ghost predicate AllowedRun(p: Plain, ops: seq<Op>)
    requires forall id | id in p.held :: id in p.disk
    requires forall id | id in p.disk :: |p.disk[id]| == BLOCK_SZ
    decreases |ops|
  {
    ops == [] || (Allowed(p, ops[0]) && AllowedRun(PlainStep(p, ops[0]), ops[1..]))
  }

  ghost function PlainRun(p: Plain, ops: seq<Op>): Plain
    requires forall id | id in p.held :: id in p.disk
    requires forall id | id in p.disk :: |p.disk[id]| == BLOCK_SZ
    requires AllowedRun(p, ops)
    decreases |ops|
  {
    if ops == [] then p else PlainRun(PlainStep(p, ops[0]), ops[1..])
  }

  ghost predicate Reaches(s: Store, ops: seq<Op>, t: Store)
    requires Inv(s)
    decreases |ops|
  {
    if ops == [] then t == s
    else Step(s, ops[0]).Some? && Inv(Step(s, ops[0]).value) && Reaches(Step(s, ops[0]).value, ops[1..], t)
  }

  lemma PlainSizes(s: Store, p: Plain)
    requires Refines(s, p)
    ensures forall id | id in p.held :: id in p.disk
    ensures forall id | id in p.disk :: |p.disk[id]| == BLOCK_SZ
  {
    hide Find, Handles;
    forall id | id in p.held ensures id in p.disk { HeldIsCached(s, p, id); }
    forall id | id in p.disk ensures |p.disk[id]| == BLOCK_SZ { assert Logical(s)[id] == Block(s, id); }
  }

  /** Any run of gets, modifications, releases and syncs that does not panic ends in a cache
      that stands for the plain disk after the same run. */
  lemma {:induction false} RunRefines(s: Store, p: Plain, ops: seq<Op>, t: Store)
    requires Refines(s, p) && Reaches(s, ops, t)
    requires (forall id | id in p.held :: id in p.disk) && (forall id | id in p.disk :: |p.disk[id]| == BLOCK_SZ) && AllowedRun(p, ops)
    ensures Refines(t, PlainRun(p, ops)) && |t.queue| <= BLOCK_CACHE_SIZE
    decreases |ops|
  {
    hide Step, PlainStep, Handles, Logical;
    if ops != [] {
      StepRefines(s, p, ops[0]);
      PlainSizes(Step(s, ops[0]).value, PlainStep(p, ops[0]));
      RunRefines(Step(s, ops[0]).value, PlainStep(p, ops[0]), ops[1..], t);
    }
  }

  // ---- the manager

  class BlockCacheManager {
    var queue: seq<Entry>
    var disk: Disk

    ghost function State(): Store
      reads this
    {
      Store(queue, disk)
    }

    ghost predicate Valid()
      reads this
    {
      Inv(State())
    }

    /** The disk as seen through the cache. */
    ghost function Contents(): Disk
      reads this
    {
      Logical(State())
    }

    /** No handle is out: between two uses of the cache by one caller at a time. */
    ghost predicate Idle()
      reads this
    {
      forall i | 0 <= i < |queue| :: queue[i].handles == 0
    }

    /** `get_block_cache`; `ok` is false for the panic "Run out of BlockCache!". */
    method GetBlockCache(id: nat) returns (ok: bool)
      requires Valid() && id in disk
      modifies this
      ensures ok <==> Get(old(State()), id).Some?
      ensures ok ==> State() == Get(old(State()), id).value
    {
      var i := 0;
      while i < |queue| && queue[i].id != id
        invariant 0 <= i <= |queue| && forall k | 0 <= k < i :: queue[k].id != id
      {
        i := i + 1;
      }
      assert Find(queue, id) == i;
      if i < |queue| {
        queue := queue[i := Hold(queue[i])];
        return true;
      }
      if |queue| == BLOCK_CACHE_SIZE {
        var k := 0;
        while k < |queue| && queue[k].handles != 0
          invariant 0 <= k <= |queue| && forall x | 0 <= x < k :: queue[x].handles > 0
        {
          k := k + 1;
        }
        assert FindFree(queue) == k;
        if k == |queue| {
          return false;
        }
        var e := queue[k];
        queue := queue[..k] + queue[k + 1..];
        if e.modified {
          disk := disk[e.id := e.bytes];
        }
      }
      queue := queue + [Entry(id, disk[id], false, 1)];
      return true;
    }

    /** `sync_all`. */
    method SyncAll()
      requires Valid()
      modifies this
      ensures Valid() && Contents() == old(Contents()) && disk == Contents()
      ensures forall x :: Handles(State(), x) == old(Handles(State(), x))
    {
      hide Inv, Logical, Handles, Find;
      ghost var s0 := State();
      var k := 0;
      while k < |queue|
        invariant 0 <= k <= |queue|
        invariant SyncFrom(State(), k) == SyncFrom(s0, 0)
      {
        var e := queue[k];
        if e.modified {
          queue := queue[k := Entry(e.id, e.bytes, false, e.handles)];
          disk := disk[e.id := e.bytes];
        } else {
          assert queue[k := Entry(e.id, e.bytes, false, e.handles)] == queue;
        }
        k := k + 1;
      }
      SyncRefines(s0, 0);
    }

    /** `get_block_cache(id).lock().read(..)`: the handle lives for the statement only. */
    method ReadBlock(id: nat) returns (bytes: seq<Byte>)
      requires Valid() && Idle() && id in disk
      modifies this
      ensures Valid() && Idle() && Contents() == old(Contents())
      ensures bytes == Contents()[id] && |bytes| == BLOCK_SZ
    {
      bytes := Touch(id, 0, [], false);
    }

    /** `get_block_cache(id).lock().modify(..)`. */
    method WriteBlock(id: nat, off: nat, data: seq<Byte>)
      requires Valid() && Idle() && id in disk && off + |data| <= BLOCK_SZ
      modifies this
      ensures Valid() && Idle()
      ensures id in old(Contents()) && |old(Contents())[id]| == BLOCK_SZ
      ensures Contents() == old(Contents())[id := Overwrite(old(Contents())[id], off, data)]
    {
      var _ := Touch(id, off, data, true);
    }

    /** Get a handle, use it, let it go. */
    method Touch(id: nat, off: nat, data: seq<Byte>, write: bool) returns (bytes: seq<Byte>)
      requires Valid() && Idle() && id in disk && off + |data| <= BLOCK_SZ
      modifies this
      ensures Valid() && Idle() && id in old(Contents())
      ensures bytes == old(Contents())[id] && |bytes| == BLOCK_SZ
      ensures Contents() == if write then old(Contents())[id := Overwrite(old(Contents())[id], off, data)] else old(Contents())
    {
      hide Inv, Logical, Handles, Find, Get, Release, Modify, RunOut;
      ghost var s0 := State();
      GetRefines(s0, id);
      IdleNotOut(s0, id);
      var ok := GetBlockCache(id);
      ghost var s1 := State();
      assert s1.disk.Keys == Logical(s1).Keys == Logical(s0).Keys == s0.disk.Keys;
      var i := 0;
      while queue[i].id != id
        invariant 0 <= i < |queue| && i <= Find(queue, id) < |queue|
        decreases |queue| - i
      {
        i := i + 1;
      }
      bytes := queue[i].bytes;
      HeldBytes(s1, id, i);
      if write {
        ModifyRefines(s1, id, off, data);
        queue := queue[i := Entry(id, Overwrite(queue[i].bytes, off, data), true, queue[i].handles)];
        ModifyIs(s1, id, off, data, i);
      }
      ghost var s2 := State();
      assert s2.disk.Keys == s1.disk.Keys;
      HeldBytes(s2, id, i);
      ReleaseRefines(s2, id);
      ReleaseIs(s2, id, i);
      queue := queue[i := Entry(id, queue[i].bytes, queue[i].modified, queue[i].handles - 1)];
      IdleAgain(s0, State());
    }
  }

  lemma IdleNotOut(s: Store, id: nat)
    requires Inv(s) && forall i | 0 <= i < |s.queue| :: s.queue[i].handles == 0
    ensures !RunOut(s, id) && forall x :: Handles(s, x) == 0
  {
  }

  lemma HeldBytes(s: Store, id: nat, i: nat)
    requires Inv(s) && id in s.disk && i < |s.queue| && s.queue[i].id == id
    ensures Find(s.queue, id) == i && Handles(s, id) == s.queue[i].handles
    ensures Logical(s)[id] == s.queue[i].bytes && |s.queue[i].bytes| == BLOCK_SZ
  {
    FindUnique(s.queue, i);
  }

  lemma ModifyIs(s: Store, id: nat, off: nat, data: seq<Byte>, i: nat)
    requires Inv(s) && i < |s.queue| && Find(s.queue, id) == i && s.queue[i].handles > 0 && off + |data| <= BLOCK_SZ
    ensures Modify(s, id, off, data) == Store(s.queue[i := Entry(id, Overwrite(s.queue[i].bytes, off, data), true, s.queue[i].handles)], s.disk)
  {
  }

  lemma ReleaseIs(s: Store, id: nat, i: nat)
    requires i < |s.queue| && Find(s.queue, id) == i && s.queue[i].handles > 0
    ensures Release(s, id) == Store(s.queue[i := Entry(id, s.queue[i].bytes, s.queue[i].modified, s.queue[i].handles - 1)], s.disk)
  {
  }

  lemma IdleAgain(s: Store, s': Store)
    requires Inv(s') && (forall x :: Handles(s, x) == 0) && (forall x :: Handles(s', x) == Handles(s, x))
    ensures forall i | 0 <= i < |s'.queue| :: s'.queue[i].handles == 0
  {
    forall i | 0 <= i < |s'.queue| ensures s'.queue[i].handles == 0 {
      FindUnique(s'.queue, i);
      assert Handles(s', s'.queue[i].id) == 0;
    }
  }
}
