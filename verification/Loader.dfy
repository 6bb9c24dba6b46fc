/** Reading and writing user memory through a table: `MapArea::copy_data`
    (os/src/mm/memory_set.rs), `translated_byte_buffer` and the `UserBuffer` iterator
    (os/src/mm/page_table.rs). */
module Loader {
  import opened Bytes
  import opened Sv39
  import opened TableTree
  import opened AddressSpaces
  import opened PhysMem
  import opened PageTables
  import opened MemorySets

  /** The byte a program sees at virtual address `va`. */
  function VByte(f: Frames, pages: map<nat, nat>, va: nat): Byte
  {
    if Floor(va) in pages && pages[Floor(va)] in f && |f[pages[Floor(va)]]| == PAGE_SIZE
    then f[pages[Floor(va)]][PageOffset(va)] else 0
  }

  function VRead(f: Frames, pages: map<nat, nat>, va: nat, len: nat): (r: seq<Byte>)
    ensures |r| == len && forall i | 0 <= i < len :: r[i] == VByte(f, pages, va + i)
  {
    seq<Byte>(len, i requires 0 <= i < len => VByte(f, pages, va + i))
  }

  /** Memory with `data[..n]` at `base` and everything else as in `f`. */
  ghost predicate Holds(f: Frames, f': Frames, pages: map<nat, nat>, base: nat, data: seq<Byte>, n: nat)
    requires n <= |data|
  {
    forall va: nat :: VByte(f', pages, va) == if base <= va < base + n then data[va - base] else VByte(f, pages, va)
  }

  ghost predicate Distinct(pages: map<nat, nat>)
  {
    forall u, v | u in pages && v in pages && u != v :: pages[u] != pages[v]
  }

  lemma WriteInPage(f: Frames, pages: map<nat, nat>, v: nat, off: nat, src: seq<Byte>, va: nat)
    requires FramesOk(f) && Distinct(pages) && v in pages && pages[v] in f && off + |src| <= PAGE_SIZE
    ensures VByte(f[pages[v] := Overwrite(f[pages[v]], off, src)], pages, va)
            == if Floor(va) == v && off <= PageOffset(va) < off + |src| then src[PageOffset(va) - off] else VByte(f, pages, va)
  {
    hide Floor, PageOffset;
    var page := Overwrite(f[pages[v]], off, src);
    var f' := f[pages[v] := page];
    if Floor(va) == v {
      if off <= PageOffset(va) < off + |src| {
        assert page[off..off + |src|][PageOffset(va) - off] == src[PageOffset(va) - off];
      }
    }
  }

  lemma FloorOffset(va: nat, v: nat, off: nat, n: nat)
    requires off + n <= PAGE_SIZE
    ensures Floor(va) == v && off <= PageOffset(va) < off + n <==> v * PAGE_SIZE + off <= va < v * PAGE_SIZE + off + n
    ensures Floor(va) == v ==> va == v * PAGE_SIZE + PageOffset(va)
  {
  }

  lemma HoldsStep(f: Frames, f1: Frames, pages: map<nat, nat>, base: nat, data: seq<Byte>, n: nat, v: nat, off: nat, k: nat)
    requires FramesOk(f1) && Distinct(pages) && v in pages && pages[v] in f1
    requires n + k <= |data| && off + k <= PAGE_SIZE && base + n == v * PAGE_SIZE + off
    requires Holds(f, f1, pages, base, data, n)
    ensures Holds(f, f1[pages[v] := Overwrite(f1[pages[v]], off, data[n..n + k])], pages, base, data, n + k)
  {
    hide VByte, Floor, PageOffset;
    var f2 := f1[pages[v] := Overwrite(f1[pages[v]], off, data[n..n + k])];
    forall va: nat
      ensures VByte(f2, pages, va) == if base <= va < base + n + k then data[va - base] else VByte(f, pages, va)
    {
      WriteInPage(f1, pages, v, off, data[n..n + k], va);
      FloorOffset(va, v, off, k);
    }
  }

  /** `MapArea::copy_data`: `data` goes page by page into the area that starts at page `start`,
      beginning at byte `offset` of the first page. Bytes outside keep their value. */
  method CopyData(mem: Machine, pt: PageTable, start: nat, data: seq<Byte>, offset: nat, ghost pages: map<nat, nat>, ghost floor: nat)
    requires Space(mem, pt, pages, floor) && offset < PAGE_SIZE
    requires start in pages && forall v: nat | start * PAGE_SIZE <= v * PAGE_SIZE < start * PAGE_SIZE + offset + |data| :: v in pages
    modifies mem`frames
    ensures Space(mem, pt, pages, floor)
    ensures VRead(mem.frames, pages, start * PAGE_SIZE + offset, |data|) == data
    ensures Holds(old(mem.frames), mem.frames, pages, start * PAGE_SIZE + offset, data, |data|)
  {
    hide VByte, Represents, Owned, PathOf, Holds, PageTable.Valid;
    ghost var f0 := mem.frames;
    ghost var base := start * PAGE_SIZE + offset;
    var at: nat, pageOffset: nat, current: nat := 0, offset, start;
    assert Holds(f0, f0, pages, base, data, 0) by { HoldsNothing(f0, pages, base, data); }
    while true
      invariant Space(mem, pt, pages, floor) && mem.current == old(mem.current)
      invariant at <= |data| && (at < |data| || at == 0) && pageOffset < PAGE_SIZE
      invariant base + at == current * PAGE_SIZE + pageOffset && current in pages
      invariant Holds(f0, mem.frames, pages, base, data, at)
      decreases |data| - at
    {
      var n := if |data| < at + PAGE_SIZE - pageOffset then |data| - at else PAGE_SIZE - pageOffset;
      var pte := PageOf(mem, pt, current, pages, floor);
      HoldsStep(f0, mem.frames, pages, base, data, at, current, pageOffset, n);
      WritePage(mem, pt, current, pageOffset, data[at..at + n], pte, pages, floor);
      if at + PAGE_SIZE - pageOffset >= |data| {
        assert at + n == |data|;
        HoldsAll(f0, mem.frames, pages, base, data);
        return;
      }
      at := at + PAGE_SIZE - pageOffset;
      pageOffset := 0;
      current := current + 1;
    }
  }

  lemma HoldsNothing(f: Frames, pages: map<nat, nat>, base: nat, data: seq<Byte>)
    ensures Holds(f, f, pages, base, data, 0)
  {
  }

  lemma HoldsAll(f: Frames, f': Frames, pages: map<nat, nat>, base: nat, data: seq<Byte>)
    requires Holds(f, f', pages, base, data, |data|)
    ensures VRead(f', pages, base, |data|) == data
  {
    hide VByte;
  }

  /** `page_table.translate(vpn).unwrap().ppn()` of a page the space owns. */
  method PageOf(mem: Machine, pt: PageTable, vpn: nat, ghost pages: map<nat, nat>, ghost floor: nat) returns (ppn: nat)
    requires Space(mem, pt, pages, floor) && vpn in pages
    ensures ppn == pages[vpn] && ppn in mem.frames
  {
    hide Represents, Owned, PathOf;
    LowPath(vpn);
    var pte := pt.Translate(mem, vpn);
    ppn := pte.value.ppn;
  }

  /** `dst.copy_from_slice(src)` on part of one page. */
  method WritePage(mem: Machine, pt: PageTable, vpn: nat, off: nat, src: seq<Byte>, ppn: nat, ghost pages: map<nat, nat>, ghost floor: nat)
    requires Space(mem, pt, pages, floor) && vpn in pages && ppn == pages[vpn] && ppn in mem.frames && off + |src| <= PAGE_SIZE
    modifies mem`frames
    ensures Space(mem, pt, pages, floor) && mem.frames == old(mem.frames)[ppn := Overwrite(old(mem.frames)[ppn], off, src)]
  {
    hide Represents, Owned, PathOf;
    var page := Overwrite(mem.frames[ppn], off, src);
    DataWriteKeeps(mem.frames, ppn, page, pt.tree, 256, pt.mapping);
    mem.frames := mem.frames[ppn := page];
  }

  // ---- translated_byte_buffer

  /** A slice of a frame: bytes `lo` to `hi`. */
  datatype Slice = Slice(ppn: nat, lo: nat, hi: nat)

  ghost predicate SliceOk(f: Frames, s: Slice)
  {
    s.ppn in f && s.lo < s.hi <= |f[s.ppn]|
  }

  ghost predicate SlicesOk(f: Frames, pieces: seq<Slice>)
  {
    forall i | 0 <= i < |pieces| :: SliceOk(f, pieces[i])
  }

  function SliceBytes(f: Frames, s: Slice): seq<Byte>
  {
    if s.ppn in f && s.lo <= s.hi <= |f[s.ppn]| then f[s.ppn][s.lo..s.hi] else []
  }

  function Buffers(f: Frames, pieces: seq<Slice>): (r: seq<seq<Byte>>)
    ensures |r| == |pieces| && forall i | 0 <= i < |r| :: r[i] == SliceBytes(f, pieces[i])
  {
    seq(|pieces|, i requires 0 <= i < |pieces| => SliceBytes(f, pieces[i]))
  }

  function Concat<T>(xs: seq<seq<T>>): seq<T>
  {
    if xs == [] then [] else Concat(xs[..|xs| - 1]) + xs[|xs| - 1]
  }

  lemma ReadMore(f: Frames, pages: map<nat, nat>, va: nat, n: nat, v: nat, lo: nat, hi: nat)
    requires FramesOk(f) && v in pages && pages[v] in f && lo <= hi <= PAGE_SIZE && va + n == v * PAGE_SIZE + lo
    ensures VRead(f, pages, va, n + (hi - lo)) == VRead(f, pages, va, n) + f[pages[v]][lo..hi]
  {
    hide Floor, PageOffset;
    var r := VRead(f, pages, va, n + (hi - lo));
    forall i | n <= i < n + (hi - lo)
      ensures r[i] == f[pages[v]][lo..hi][i - n]
    {
      FloorOffset(va + i, v, lo, hi - lo);
    }
  }

  /** `translated_byte_buffer`: the slices, in order, hold exactly the bytes the program sees in
      `[ptr, ptr + len)`, and none of them is empty. */
  method TranslatedByteBuffer(mem: Machine, pt: PageTable, ptr: nat, len: nat, ghost pages: map<nat, nat>, ghost floor: nat)
    returns (pieces: seq<Slice>)
    requires Space(mem, pt, pages, floor) && forall va: nat | ptr <= va < ptr + len :: Floor(va) in pages
    ensures SlicesOk(mem.frames, pieces)
    ensures Concat(Buffers(mem.frames, pieces)) == VRead(mem.frames, pages, ptr, len)
  {
    hide VByte, Represents, Owned, PathOf, PageTable.Valid, Space, SliceOk;
    SpaceFrames(mem, pt, pages, floor);
    pieces := [];
    var start: nat, end: nat := ptr, ptr + len;
    while start < end
      invariant ptr <= start <= end
      invariant SlicesOk(mem.frames, pieces)
      invariant Concat(Buffers(mem.frames, pieces)) == VRead(mem.frames, pages, ptr, start - ptr)
    {
      var vpn := Floor(start);
      var ppn := PageOf(mem, pt, vpn, pages, floor);
      var endVa := if (vpn + 1) * PAGE_SIZE <= end then (vpn + 1) * PAGE_SIZE else end;
      var lo := PageOffset(start);
      var hi := if PageOffset(endVa) == 0 then PAGE_SIZE else PageOffset(endVa);
      SliceEnds(start, endVa, end);
      ReadMore(mem.frames, pages, ptr, start - ptr, vpn, lo, hi);
      PushSlice(mem.frames, pieces, Slice(ppn, lo, hi));
      pieces := pieces + [Slice(ppn, lo, hi)];
      start := endVa;
    }
  }

  lemma SpaceFrames(mem: Machine, pt: PageTable, pages: map<nat, nat>, floor: nat)
    requires Space(mem, pt, pages, floor)
    ensures FramesOk(mem.frames) && forall v | v in pages :: pages[v] in mem.frames
  {
    hide Represents, PathOf, Owned;
  }

  lemma SliceEnds(start: nat, endVa: nat, end: nat)
    requires start < end && endVa == if (Floor(start) + 1) * PAGE_SIZE <= end then (Floor(start) + 1) * PAGE_SIZE else end
    ensures start < endVa <= end
    ensures var hi := if PageOffset(endVa) == 0 then PAGE_SIZE else PageOffset(endVa);
            PageOffset(start) < hi <= PAGE_SIZE && hi - PageOffset(start) == endVa - start
    ensures start == Floor(start) * PAGE_SIZE + PageOffset(start)
  {
  }

  lemma PushSlice(f: Frames, pieces: seq<Slice>, s: Slice)
    requires SlicesOk(f, pieces) && SliceOk(f, s)
    ensures SlicesOk(f, pieces + [s])
    ensures Concat(Buffers(f, pieces + [s])) == Concat(Buffers(f, pieces)) + f[s.ppn][s.lo..s.hi]
  {
    var xs := Buffers(f, pieces + [s]);
    assert xs[..|pieces|] == Buffers(f, pieces);
  }

  /** The loader's round trip: what `copy_data` stored, `translated_byte_buffer` of the same
      range hands back. */
  method LoadThenRead(mem: Machine, pt: PageTable, start: nat, data: seq<Byte>, offset: nat, ghost pages: map<nat, nat>, ghost floor: nat)
    returns (pieces: seq<Slice>)
    requires Space(mem, pt, pages, floor) && offset < PAGE_SIZE
    requires start in pages && forall v: nat | start * PAGE_SIZE <= v * PAGE_SIZE < start * PAGE_SIZE + offset + |data| :: v in pages
    modifies mem`frames
    ensures SlicesOk(mem.frames, pieces) && Concat(Buffers(mem.frames, pieces)) == data
    ensures Holds(old(mem.frames), mem.frames, pages, start * PAGE_SIZE + offset, data, |data|)
  {
    hide VByte, Space, Holds, Floor;
    CopyData(mem, pt, start, data, offset, pages, floor);
    forall va: nat | start * PAGE_SIZE + offset <= va < start * PAGE_SIZE + offset + |data| ensures Floor(va) in pages {
      FloorIn(va, start, offset, |data|);
    }
    pieces := TranslatedByteBuffer(mem, pt, start * PAGE_SIZE + offset, |data|, pages, floor);
  }

  lemma FloorIn(va: nat, start: nat, offset: nat, n: nat)
    requires start * PAGE_SIZE + offset <= va < start * PAGE_SIZE + offset + n
    ensures start * PAGE_SIZE <= Floor(va) * PAGE_SIZE < start * PAGE_SIZE + offset + n
  {
  }

  /** `push` and `push_with_offset`: map a new area and load `data` into it. The area then reads
      as zeros with `data` at `offset`; pages mapped before are not touched. */
  method PushArea(mem: Machine, pt: PageTable, area: Area, data: seq<Byte>, offset: nat, ghost pages: map<nat, nat>, ghost floor: nat)
    returns (ok: bool, r: Area, ghost pages': map<nat, nat>)
    requires Space(mem, pt, pages, floor) && area.framed && area.frames == map[] && area.start < area.end <= TWO26
    requires offset < PAGE_SIZE && area.start * PAGE_SIZE + offset + |data| <= area.end * PAGE_SIZE
    modifies mem, pt
    ensures !ok ==> (exists v: nat | area.start <= v < area.end :: PathOf(v) in old(pt.mapping)) || mem.current + 2 > mem.end
    ensures ok ==> Space(mem, pt, pages', floor) && pages' == pages + r.frames && AreaOk(r, pages', pt.mapping)
    ensures ok ==> Loaded(old(mem.frames), pages, mem.frames, r.frames, area.start * PAGE_SIZE + offset, data)
  {
    hide Space, AreaOk, Floor, PathOf, Holds, SamePages, ZeroPages, VByte, Loaded;
    ghost var f0 := mem.frames;
    SpaceFrames(mem, pt, pages, floor);
    ok, r, pages' := MapArea(mem, pt, area, pages, floor);
    if ok {
      AreaRange(r, pages', pt.mapping);
      ghost var f1 := mem.frames;
      SpaceFrames(mem, pt, pages', floor);
      CopyData(mem, pt, area.start, data, offset, pages', floor);
      LoadedHolds(f0, f1, mem.frames, pages, r.frames, area.start * PAGE_SIZE + offset, data);
    }
  }

  /** Memory reads as `data` at `base`, as zero in the rest of the pages `frames`, else as before. */
  ghost predicate Loaded(f0: Frames, pages: map<nat, nat>, f: Frames, frames: map<nat, nat>, base: nat, data: seq<Byte>)
  {
    forall va: nat :: VByte(f, pages + frames, va) ==
      if base <= va < base + |data| then data[va - base] else if Floor(va) in frames then 0 else VByte(f0, pages, va)
  }

  lemma LoadedHolds(f0: Frames, f1: Frames, f2: Frames, pages: map<nat, nat>, frames: map<nat, nat>, base: nat, data: seq<Byte>)
    requires FramesOk(f0) && FramesOk(f1) && SamePages(f0, f1, pages) && ZeroPages(f1, frames) && pages.Keys !! frames.Keys
    requires forall v | v in pages :: pages[v] in f0
    requires Holds(f1, f2, pages + frames, base, data, |data|)
    ensures Loaded(f0, pages, f2, frames, base, data)
  {
    hide VByte, Floor;
    forall va: nat ensures VByte(f2, pages + frames, va) ==
      if base <= va < base + |data| then data[va - base] else if Floor(va) in frames then 0 else VByte(f0, pages, va)
    {
      AfterMap(f0, f1, pages, frames, va);
    }
  }

  lemma AreaRange(a: Area, pages: map<nat, nat>, m: Mapping)
    requires AreaOk(a, pages, m)
    ensures forall v :: v in a.frames <==> a.start <= v < a.end
    ensures forall v | v in a.frames :: v in pages
  {
  }

  lemma AfterMap(f0: Frames, f1: Frames, pages: map<nat, nat>, frames: map<nat, nat>, va: nat)
    requires FramesOk(f0) && FramesOk(f1) && SamePages(f0, f1, pages) && ZeroPages(f1, frames) && pages.Keys !! frames.Keys
    requires forall v | v in pages :: pages[v] in f0
    ensures VByte(f1, pages + frames, va) == if Floor(va) in frames then 0 else VByte(f0, pages, va)
  {
    hide Floor, PageOffset;
  }

  // ---- UserBuffer

  /** `UserBufferIterator` over the slices of a `UserBuffer`. */
  class BufferIterator {
    const buffers: seq<seq<Byte>>
    var currentBuffer: nat
    var currentIdx: nat

    ghost predicate Valid()
      reads this
    {
      && (forall i | 0 <= i < |buffers| :: |buffers[i]| > 0)
      && currentBuffer <= |buffers|
      && (if currentBuffer < |buffers| then currentIdx < |buffers[currentBuffer]| else currentIdx == 0)
    }

    /** What the iterator has yet to yield. */
    ghost function Remaining(): seq<Byte>
      requires Valid()
      reads this
    {
      Left(buffers, currentBuffer, currentIdx)
    }

    constructor (buffers: seq<seq<Byte>>)
      requires forall i | 0 <= i < |buffers| :: |buffers[i]| > 0
      ensures Valid() && Remaining() == Concat(buffers)
    {
      this.buffers := buffers;
      currentBuffer, currentIdx := 0, 0;
      new;
      if buffers != [] { ConcatHead(buffers); }
    }

    /** `next`: the first byte that remains, or `None` exactly at the end. */
    method Next() returns (r: Option<Byte>)
      requires Valid()
      modifies this
      ensures Valid()
      ensures r.None? <==> old(Remaining()) == []
      ensures r.Some? ==> old(Remaining()) == [r.value] + Remaining()
      ensures r.None? ==> Remaining() == []
    {
      hide Left;
      LeftStep(buffers, currentBuffer, currentIdx);
      if currentBuffer >= |buffers| {
        return None;
      }
      r := Some(buffers[currentBuffer][currentIdx]);
      if currentIdx + 1 == |buffers[currentBuffer]| {
        currentIdx := 0;
        currentBuffer := currentBuffer + 1;
      } else {
        currentIdx := currentIdx + 1;
      }
    }
  }

  /** A `for` loop over a `UserBuffer`: every byte of its slices, in order. */
  method Drain(buffers: seq<seq<Byte>>) returns (out: seq<Byte>)
    requires forall i | 0 <= i < |buffers| :: |buffers[i]| > 0
    ensures out == Concat(buffers)
  {
    hide Left, Concat;
    var it := new BufferIterator(buffers);
    out := [];
    var b := it.Next();
    while b.Some?
      invariant it.Valid() && fresh(it)
      invariant b.Some? ==> Concat(buffers) == out + [b.value] + it.Remaining()
      invariant b.None? ==> Concat(buffers) == out
      decreases b.Some?, |it.Remaining()|
    {
      out := out + [b.value];
      b := it.Next();
    }
  }

  lemma BuffersNonEmpty(f: Frames, pieces: seq<Slice>)
    requires SlicesOk(f, pieces)
    ensures forall i | 0 <= i < |pieces| :: |Buffers(f, pieces)[i]| > 0
  {
  }

  /** The round trip as a system call sees it: a program's `data`, stored by `copy_data`, comes
      back byte by byte from the iteration over the `UserBuffer` of its range. */
  method LoadThenIterate(mem: Machine, pt: PageTable, start: nat, data: seq<Byte>, offset: nat, ghost pages: map<nat, nat>, ghost floor: nat)
    returns (out: seq<Byte>)
    requires Space(mem, pt, pages, floor) && offset < PAGE_SIZE
    requires start in pages && forall v: nat | start * PAGE_SIZE <= v * PAGE_SIZE < start * PAGE_SIZE + offset + |data| :: v in pages
    modifies mem`frames
    ensures out == data
  {
    hide Space, Holds, Concat, SlicesOk;
    var pieces := LoadThenRead(mem, pt, start, data, offset, pages, floor);
    BuffersNonEmpty(mem.frames, pieces);
    out := Drain(Buffers(mem.frames, pieces));
  }

  /** What is left from byte `idx` of slice `k` on. */
  ghost function Left(buffers: seq<seq<Byte>>, k: nat, idx: nat): seq<Byte>
    requires k < |buffers| ==> idx < |buffers[k]|
  {
    if k < |buffers| then buffers[k][idx..] + Concat(buffers[k + 1..]) else []
  }

  lemma LeftStep(buffers: seq<seq<Byte>>, k: nat, idx: nat)
    requires (forall i | 0 <= i < |buffers| :: |buffers[i]| > 0) && k <= |buffers| && (k < |buffers| ==> idx < |buffers[k]|)
    ensures Left(buffers, k, idx) == [] <==> k == |buffers|
    ensures k < |buffers| ==>
      Left(buffers, k, idx) == [buffers[k][idx]] + (if idx + 1 == |buffers[k]| then Left(buffers, k + 1, 0) else Left(buffers, k, idx + 1))
  {
    hide Concat;
    if k < |buffers| {
      Uncons(buffers[k], idx);
      if idx + 1 == |buffers[k]| { LeftNext(buffers, k); }
      Assoc([buffers[k][idx]], buffers[k][idx + 1..], Concat(buffers[k + 1..]));
    }
  }

  /** A new slice: all of it, and all after it. */
  lemma LeftNext(buffers: seq<seq<Byte>>, k: nat)
    requires (forall i | 0 <= i < |buffers| :: |buffers[i]| > 0) && k < |buffers|
    ensures Left(buffers, k + 1, 0) == Concat(buffers[k + 1..])
  {
    if k + 1 < |buffers| {
      ConcatHead(buffers[k + 1..]);
      assert buffers[k + 1..][1..] == buffers[k + 2..];
    } else {
      assert buffers[k + 1..] == [];
    }
  }

  lemma Uncons(s: seq<Byte>, i: nat)
    requires i < |s|
    ensures s[i..] == [s[i]] + s[i + 1..]
  {
  }

  lemma Assoc(a: seq<Byte>, b: seq<Byte>, c: seq<Byte>)
    ensures (a + b) + c == a + (b + c) && (b == [] ==> b + c == c)
  {
  }

  lemma {:induction false} ConcatHead<T>(xs: seq<seq<T>>)
    requires xs != []
    ensures Concat(xs) == xs[0] + Concat(xs[1..])
  {
    if |xs| > 1 {
      ConcatHead(xs[..|xs| - 1]);
      assert xs[..|xs| - 1][1..] == xs[1..][..|xs| - 2];
    }
  }
}
