/** Physical memory as bytes, the bump frame allocator of os/src/mm/frame_allocator.rs, and
    the view of a frame as 512 decoded page table entries. */
module PhysMem {
  import opened Bytes
  import opened Sv39
  import opened TableTree

  type Frames = map<nat, seq<Byte>>

  ghost predicate FramesOk(f: Frames) { forall p | p in f :: |f[p]| == PAGE_SIZE }

  function ZeroPage(): (s: seq<Byte>)
    ensures |s| == PAGE_SIZE && forall i | 0 <= i < PAGE_SIZE :: s[i] == 0
  {
    seq(PAGE_SIZE, _ => 0)
  }

  /** `get_pte_array()[i]`: eight little-endian bytes. */
  function WordAt(page: seq<Byte>, i: nat): nat
    requires |page| == PAGE_SIZE && i < 512
  {
    FromLE(page[8 * i..8 * i + 8])
  }

  function LookFrame(page: seq<Byte>): (r: seq<Pte>)
    requires |page| == PAGE_SIZE
    ensures |r| == 512 && forall i | 0 <= i < 512 :: r[i] == Decode(WordAt(page, i))
  {
    seq(512, i requires 0 <= i < 512 => Decode(WordAt(page, i)))
  }

  function Look(f: Frames): (e: Entries)
    requires FramesOk(f)
    ensures Sized(e) && e.Keys == f.Keys
    ensures forall p | p in f :: e[p] == LookFrame(f[p])
  {
    map p | p in f :: LookFrame(f[p])
  }

  function StoreWord(page: seq<Byte>, i: nat, w: nat): (r: seq<Byte>)
    requires |page| == PAGE_SIZE && i < 512
    ensures |r| == PAGE_SIZE
  {
    Overwrite(page, 8 * i, ToLE(w, 8))
  }

  lemma WordStored(page: seq<Byte>, i: nat, w: nat, j: nat)
    requires |page| == PAGE_SIZE && i < 512 && j < 512 && w < TWO64
    ensures WordAt(StoreWord(page, i, w), j) == if i == j then w else WordAt(page, j)
  {
    hide ToLE, FromLE, Pow256;
    var r := StoreWord(page, i, w);
    if i == j {
      Pow256Of8();
      LERoundTrip(w, 8);
      assert r[8 * i..8 * i + 8] == ToLE(w, 8);
    } else {
      assert r[8 * j..8 * j + 8] == page[8 * j..8 * j + 8];
    }
  }

  /** Storing an entry in the bytes of a frame is setting that one entry in the decoded view. */
  lemma LookStore(f: Frames, p: nat, i: nat, ppn: nat, flags: Flags)
    requires FramesOk(f) && p in f && i < 512
    ensures Look(f[p := StoreWord(f[p], i, PteNew(ppn, flags))]) == SetEntry(Look(f), p, i, Pte(ppn % TWO44, flags))
  {
    hide ToLE, FromLE, PteNew, Decode;
    var page := StoreWord(f[p], i, PteNew(ppn, flags));
    var pte := Pte(ppn % TWO44, flags);
    forall j | 0 <= j < 512
      ensures LookFrame(page)[j] == LookFrame(f[p])[i := pte][j]
    {
      WordStored(f[p], i, PteNew(ppn, flags), j);
      DecodeEntry(ppn, flags);
    }
    assert LookFrame(page) == LookFrame(f[p])[i := pte];
  }

  lemma LookLink(f: Frames, p: nat, i: nat, ppn: nat, flags: Flags)
    requires FramesOk(f) && p in f && i < 512 && ppn < TWO44
    ensures Look(f[p := StoreWord(f[p], i, PteNew(ppn, flags))]) == SetEntry(Look(f), p, i, Pte(ppn, flags))
  {
    LookStore(f, p, i, ppn, flags);
  }

  /** `PageTableEntry::empty()` is the zero word. */
  lemma LookClear(f: Frames, p: nat, i: nat)
    requires FramesOk(f) && p in f && i < 512
    ensures Look(f[p := StoreWord(f[p], i, 0)]) == SetEntry(Look(f), p, i, EMPTY)
  {
    hide ToLE, FromLE, Decode;
    var page := StoreWord(f[p], i, 0);
    forall j | 0 <= j < 512
      ensures LookFrame(page)[j] == LookFrame(f[p])[i := EMPTY][j]
    {
      WordStored(f[p], i, 0, j);
      DecodeEntry(0, NO_FLAGS);
    }
    assert LookFrame(page) == LookFrame(f[p])[i := EMPTY];
  }

  lemma LookZero(f: Frames, p: nat)
    requires FramesOk(f)
    ensures Look(f[p := ZeroPage()]) == Look(f)[p := ZeroFrame()]
  {
    forall j | 0 <= j < 512
      ensures LookFrame(ZeroPage())[j] == ZeroFrame()[j]
    {
      FromLEZeros(ZeroPage()[8 * j..8 * j + 8]);
      DecodeEntry(0, NO_FLAGS);
    }
    assert LookFrame(ZeroPage()) == ZeroFrame();
  }

  /** Physical memory together with `StackFrameAllocator`. The branch that would reuse
      `recycled` frames is commented out in the source, so `current` only grows. */
  class Machine {
    var frames: Frames
    var current: nat
    var end: nat
    var recycled: seq<nat>

    ghost predicate Valid()
      reads this
    {
      && FramesOk(frames) && end <= TWO44 && current <= end
      && (forall p | 0 <= p < end :: p in frames)
      && (forall p | p in recycled :: p < current)
    }

    /** `StackFrameAllocator::init` over the memory the machine starts with. */
    constructor (frames: Frames, l: nat, r: nat)
      requires FramesOk(frames) && l <= r <= TWO44 && forall p | 0 <= p < r :: p in frames
      ensures Valid() && this.frames == frames && current == l && end == r && recycled == []
    {
      this.frames, current, end, recycled := frames, l, r, [];
    }

    /** `frame_alloc`: take the next frame and clear it byte by byte (`FrameTracker::new`). */
    method FrameAlloc() returns (r: Option<nat>)
      requires Valid()
      modifies this
      ensures Valid() && end == old(end) && recycled == old(recycled)
      ensures r.None? <==> old(current) == end
      ensures r.None? ==> frames == old(frames) && current == old(current)
      ensures r.Some? ==> r.value == old(current) && current == old(current) + 1
      ensures r.Some? ==> frames == old(frames)[r.value := ZeroPage()]
    {
      if current == end {
        return None;
      }
      var ppn := current;
      current := current + 1;
      var i := 0;
      while i < PAGE_SIZE
        invariant 0 <= i <= PAGE_SIZE && current == ppn + 1 && ppn == old(current)
        invariant end == old(end) && recycled == old(recycled)
        invariant frames.Keys == old(frames).Keys && ppn in frames && |frames[ppn]| == PAGE_SIZE
        invariant forall p | p in frames && p != ppn :: frames[p] == old(frames)[p]
        invariant forall k | 0 <= k < i :: frames[ppn][k] == 0
      {
        frames := frames[ppn := frames[ppn][i := 0]];
        i := i + 1;
      }
      assert frames[ppn] == ZeroPage();
      assert frames == old(frames)[ppn := ZeroPage()];
      return Some(ppn);
    }

    /** `dealloc`: refuses a frame never handed out or given back before. */
    method FrameDealloc(ppn: nat) returns (ok: bool)
      requires Valid()
      modifies this`recycled
      ensures Valid()
      ensures ok <==> ppn < current && ppn !in old(recycled)
      ensures recycled == if ok then old(recycled) + [ppn] else old(recycled)
    {
      if ppn >= current || ppn in recycled {
        return false;
      }
      recycled := recycled + [ppn];
      return true;
    }
  }
}
