/** Address spaces on top of the page table: areas of framed pages, the loader's copy, and
    the copy made by fork (os/src/mm/memory_set.rs). */
module MemorySets {
  import opened Bytes
  import opened Sv39
  import opened TableTree
  import opened AddressSpaces
  import opened PhysMem
  import opened PageTables
  import Spaces

  /** `pages` are user pages (page number to data frame) the table maps to frames of their own. */
  ghost predicate PagesOk(pages: map<nat, nat>, m: Mapping, tables: set<nat>, current: nat)
  {
    && (forall v | v in pages :: v < TWO26 && PathOf(v) in m && m[PathOf(v)].ppn == pages[v])
    && (forall v | v in pages :: pages[v] < current && pages[v] !in tables)
    && (forall u, v | u in pages && v in pages && u != v :: pages[u] != pages[v])
  }

  ghost predicate AllAbove(frames: set<nat>, floor: nat) { forall p | p in frames :: p >= floor }

  /** Everything allocated before `floor` is as it was. */
  ghost predicate KeptBelow(f: Frames, f': Frames, floor: nat)
  {
    forall p | p in f && p < floor :: p in f' && f'[p] == f[p]
  }

  lemma LowPath(v: nat)
    requires v < TWO26
    ensures PathOf(v).i < 256 && Canonical(v)
  {
    KernelHalf(v);
  }

  lemma PathInjective(u: nat, v: nat)
    requires u < TWO26 && v < TWO26 && PathOf(u) == PathOf(v)
    ensures u == v
  {
    IndexesInjective(u, v);
  }

  lemma EntryPpn(ppn: nat, flags: Flags)
    requires ppn < TWO44
    ensures Spaces.MapEntry(ppn, flags).ppn == ppn
  {
  }

  lemma GrowAbove(t: Tree, i: nat, j: nat, next: nat, floor: nat)
    requires AllAbove(Owned(t), floor) && floor <= next
    ensures AllAbove(Owned(Grow(t, i, j, next)), floor)
    ensures forall p | p in Owned(Grow(t, i, j, next)) :: p in Owned(t) || p >= next
  {
    Spaces.GrowOwned(t, i, j, next);
  }

  lemma AddedPage(pages: map<nat, nat>, m: Mapping, tables: set<nat>, current: nat,
                  m': Mapping, tables': set<nat>, current': nat, v: nat, ppn: nat, flags: Flags)
    requires PagesOk(pages, m, tables, current) && v < TWO26 && PathOf(v) !in m
    requires current <= ppn < current' && ppn < TWO44 && ppn !in tables'
    requires m' == m[PathOf(v) := Spaces.MapEntry(ppn, flags)]
    requires forall p | p in tables' :: p in tables || p >= current
    ensures v !in pages && PagesOk(pages[v := ppn], m', tables', current')
  {
    EntryPpn(ppn, flags);
    forall u | u in pages ensures PathOf(u) != PathOf(v) {
    }
  }

  /** The table is sound, `pages` are pages of its lower half with frames of their own, and
      its tables were allocated from `floor` on. */
  ghost predicate Space(mem: Machine, pt: PageTable, pages: map<nat, nat>, floor: nat)
    reads mem, pt
  {
    && mem.Valid() && pt.Valid(mem) && pt.lim == 256 && floor <= mem.current
    && PagesOk(pages, pt.mapping, Owned(pt.tree), mem.current) && AllAbove(Owned(pt.tree), floor)
  }

  ghost predicate SamePages(f: Frames, f': Frames, pages: map<nat, nat>)
  {
    forall v | v in pages && pages[v] in f :: pages[v] in f' && f'[pages[v]] == f[pages[v]]
  }

  /** `frame_alloc` and `page_table.map`, as `map_one`, `map_heap`, `mmap` and the copy
      loops do it for one page. It fails only on a mapped page or for lack of frames. */
  method AddPage(mem: Machine, pt: PageTable, vpn: nat, flags: Flags, ghost pages: map<nat, nat>, ghost floor: nat)
    returns (frame: Option<nat>)
    requires Space(mem, pt, pages, floor) && vpn < TWO26
    modifies mem, pt
    ensures mem.Valid() && mem.end == old(mem.end) && mem.recycled == old(mem.recycled) && old(mem.current) <= mem.current && pt.root == old(pt.root)
    ensures frame.None? ==> PathOf(vpn) in old(pt.mapping) || mem.current + 2 > mem.end
    ensures frame.Some? ==> PathOf(vpn) !in old(pt.mapping) && vpn !in pages && old(mem.current) <= frame.value < mem.end
    ensures frame.Some? ==> Space(mem, pt, pages[vpn := frame.value], floor) && mem.frames[frame.value] == ZeroPage()
    ensures frame.Some? ==> pt.mapping == old(pt.mapping)[PathOf(vpn) := Spaces.MapEntry(frame.value, flags)]
    ensures frame.Some? ==> SamePages(old(mem.frames), mem.frames, pages)
    ensures KeptBelow(old(mem.frames), mem.frames, floor)
    ensures BytesKept(old(mem.frames), mem.frames, old(mem.current), old(Owned(pt.tree)))
    ensures frame.Some? ==> forall p | p in Owned(pt.tree) :: p in old(Owned(pt.tree)) || p >= old(mem.current)
  {
    hide Represents, Owned, PathOf, Grow, Spaces.MapEntry;
    LowPath(vpn);
    ghost var n0, f0, t0, m0 := mem.current, mem.frames, pt.tree, pt.mapping;
    frame := mem.FrameAlloc();
    if frame.None? {
      return;
    }
    TableKept(f0, mem.frames, t0, 256, m0, n0);
    ghost var f1, n1 := mem.frames, mem.current;
    var ok := pt.Map(mem, vpn, frame.value, flags, false);
    if !ok {
      return None;
    }
    GrowAbove(t0, PathOf(vpn).i, PathOf(vpn).j, n1, floor);
    AddedPage(pages, m0, Owned(t0), n0, pt.mapping, Owned(pt.tree), mem.current, vpn, frame.value, flags);
  }

  lemma TableKept(f: Frames, f': Frames, t: Tree, lim: nat, m: Mapping, next: nat)
    requires FramesOk(f) && FramesOk(f') && lim <= 512 && Represents(Look(f), t, lim, m) && Below(t, next)
    requires KeptBelow(f, f', next)
    ensures Represents(Look(f'), t, lim, m)
  {
    hide Represents;
    RepresentsFrame(Look(f), Look(f'), t, lim, m);
  }

  // ---- areas

  /** `MapArea`: a range of pages, its permissions and the data frames it holds. */
  datatype Area = Area(start: nat, end: nat, framed: bool, perm: Flags, frames: map<nat, nat>)

  /** The area's pages are exactly its range, each mapped to its own frame with the area's permissions. */
  ghost predicate AreaOk(a: Area, pages: map<nat, nat>, m: Mapping)
  {
    && a.framed && a.start <= a.end <= TWO26
    && (forall v :: v in a.frames <==> a.start <= v < a.end)
    && (forall v | v in a.frames :: v in pages && pages[v] == a.frames[v])
    && (forall v | v in a.frames :: PathOf(v) in m && m[PathOf(v)] == Spaces.MapEntry(a.frames[v], a.perm))
  }

  ghost predicate Mapped(m: Mapping, m': Mapping)
  {
    forall at | at in m :: at in m' && m'[at] == m[at]
  }

  /** New bindings lie in the page range only. */
  ghost predicate NewIn(m: Mapping, m': Mapping, start: nat, end: nat)
  {
    forall at | at in m' && at !in m :: exists v: nat | start <= v < end :: at == PathOf(v)
  }

  lemma NotMappedYet(m: Mapping, m': Mapping, start: nat, v: nat)
    requires NewIn(m, m', start, v) && v < TWO26 && PathOf(v) in m'
    ensures PathOf(v) in m
  {
    if PathOf(v) !in m {
      var u: nat :| start <= u < v && PathOf(v) == PathOf(u);
      PathInjective(u, v);
    }
  }

  ghost predicate ZeroPages(f: Frames, frames: map<nat, nat>)
  {
    forall v | v in frames :: frames[v] in f && f[frames[v]] == ZeroPage()
  }

  /** `MapArea::map` of a framed area that holds no frames yet: a fresh zeroed frame per page. */
  method MapArea(mem: Machine, pt: PageTable, area: Area, ghost pages: map<nat, nat>, ghost floor: nat)
    returns (ok: bool, r: Area, ghost pages': map<nat, nat>)
    requires Space(mem, pt, pages, floor) && area.framed && area.frames == map[] && area.start <= area.end <= TWO26
    modifies mem, pt
    ensures mem.Valid() && mem.end == old(mem.end) && mem.recycled == old(mem.recycled) && old(mem.current) <= mem.current && pt.root == old(pt.root)
    ensures !ok ==> (exists v: nat | area.start <= v < area.end :: PathOf(v) in old(pt.mapping)) || mem.current + 2 > mem.end
    ensures ok ==> Space(mem, pt, pages', floor) && pages' == pages + r.frames && pages.Keys !! r.frames.Keys
    ensures ok ==> r == Area(area.start, area.end, area.framed, area.perm, r.frames) && AreaOk(r, pages', pt.mapping)
    ensures ok ==> Mapped(old(pt.mapping), pt.mapping) && NewIn(old(pt.mapping), pt.mapping, area.start, area.end)
    ensures ok ==> SamePages(old(mem.frames), mem.frames, pages) && ZeroPages(mem.frames, r.frames)
    ensures ok ==> forall v | v in r.frames :: r.frames[v] >= old(mem.current)
    ensures KeptBelow(old(mem.frames), mem.frames, floor)
  {
    hide PageTable.Valid, PagesOk, AllAbove, PathOf, Spaces.MapEntry, Owned, Mapped, NewIn, AreaSoFar, SamePages, ZeroPages;
    ghost var m0, n0 := pt.mapping, mem.current;
    r := area;
    pages' := pages;
    AreaStart(area, m0, n0, pages, mem.frames);
    var v := area.start;
    while v < area.end
      invariant area.start <= v <= area.end
      invariant mem.Valid() && mem.end == old(mem.end) && mem.recycled == old(mem.recycled) && n0 <= mem.current && pt.root == old(pt.root)
      invariant Space(mem, pt, pages', floor) && pages' == pages + r.frames && pages.Keys !! r.frames.Keys
      invariant r == Area(area.start, area.end, area.framed, area.perm, r.frames)
      invariant AreaSoFar(r, v, m0, pt.mapping, n0)
      invariant SamePages(old(mem.frames), mem.frames, pages) && ZeroPages(mem.frames, r.frames)
      invariant KeptBelow(old(mem.frames), mem.frames, floor)
    {
      ghost var m1, f1, r1 := pt.mapping, mem.frames, r;
      var frame := AddPage(mem, pt, v, area.perm, pages', floor);
      if frame.None? {
        AreaFailed(r, v, m0, m1, n0);
        ok := false;
        return;
      }
      r := Area(r.start, r.end, r.framed, r.perm, r.frames[v := frame.value]);
      AreaStep(r1, v, m0, m1, n0, frame.value);
      PagesStep(old(mem.frames), f1, mem.frames, pages, r1.frames, v, frame.value);
      pages' := pages'[v := frame.value];
      v := v + 1;
    }
    AreaDone(r, m0, pt.mapping, n0, pages');
    ok := true;
  }

  /** The pages from the start up to `v` are mapped, and no others were added. */
  ghost predicate AreaSoFar(a: Area, v: nat, m0: Mapping, m: Mapping, n0: nat)
  {
    && (forall u :: u in a.frames <==> a.start <= u < v)
    && (forall u | u in a.frames :: PathOf(u) in m && m[PathOf(u)] == Spaces.MapEntry(a.frames[u], a.perm))
    && (forall u | u in a.frames :: a.frames[u] >= n0)
    && Mapped(m0, m) && NewIn(m0, m, a.start, v)
  }

  lemma AreaStart(a: Area, m0: Mapping, n0: nat, pages: map<nat, nat>, f: Frames)
    requires a.frames == map[]
    ensures AreaSoFar(a, a.start, m0, m0, n0) && SamePages(f, f, pages) && ZeroPages(f, a.frames)
  {
  }

  lemma AreaFailed(a: Area, v: nat, m0: Mapping, m: Mapping, n0: nat)
    requires AreaSoFar(a, v, m0, m, n0) && v < TWO26
    ensures PathOf(v) in m ==> PathOf(v) in m0
  {
    if PathOf(v) in m { NotMappedYet(m0, m, a.start, v); }
  }

  lemma AreaStep(a: Area, v: nat, m0: Mapping, m: Mapping, n0: nat, ppn: nat)
    requires AreaSoFar(a, v, m0, m, n0) && a.start <= v && PathOf(v) !in m && ppn >= n0
    ensures AreaSoFar(Area(a.start, a.end, a.framed, a.perm, a.frames[v := ppn]), v + 1, m0, m[PathOf(v) := Spaces.MapEntry(ppn, a.perm)], n0)
  {
    hide PathOf, Spaces.MapEntry;
    var m' := m[PathOf(v) := Spaces.MapEntry(ppn, a.perm)];
    forall at | at in m' && at !in m0
      ensures exists u: nat | a.start <= u < v + 1 :: at == PathOf(u)
    {
      if at in m {
        var u: nat :| a.start <= u < v && at == PathOf(u);
      }
    }
  }

  lemma PagesStep(f0: Frames, f1: Frames, f2: Frames, pages: map<nat, nat>, frames: map<nat, nat>, v: nat, ppn: nat)
    requires SamePages(f0, f1, pages) && SamePages(f1, f2, pages + frames) && pages.Keys !! frames.Keys
    requires ZeroPages(f1, frames) && ppn in f2 && f2[ppn] == ZeroPage()
    ensures SamePages(f0, f2, pages) && ZeroPages(f2, frames[v := ppn])
  {
    forall u | u in pages && pages[u] in f0 ensures pages[u] in f2 && f2[pages[u]] == f0[pages[u]] {
      assert (pages + frames)[u] == pages[u];
    }
    forall u | u in frames ensures frames[u] in f2 && f2[frames[u]] == ZeroPage() {
      assert (pages + frames)[u] == frames[u];
    }
  }

  lemma AreaDone(a: Area, m0: Mapping, m: Mapping, n0: nat, pages: map<nat, nat>)
    requires AreaSoFar(a, a.end, m0, m, n0) && a.framed && a.start <= a.end <= TWO26
    requires forall v | v in a.frames :: v in pages && pages[v] == a.frames[v]
    ensures AreaOk(a, pages, m) && Mapped(m0, m) && NewIn(m0, m, a.start, a.end)
    ensures forall v | v in a.frames :: a.frames[v] >= n0
  {
  }

  // ---- fork

  /** The space was complete before `floor`: its tables and its pages lie below. */
  ghost predicate Older(tree: Tree, pages: map<nat, nat>, floor: nat)
  {
    Below(tree, floor) && forall v | v in pages :: pages[v] < floor
  }

  ghost predicate NewPages(pages: map<nat, nat>, floor: nat)
  {
    forall v | v in pages :: pages[v] >= floor
  }

  /** The pages in `vs` hold the bytes the old space had in memory `f0`. */
  ghost predicate Copied(f0: Frames, old_: map<nat, nat>, f: Frames, new_: map<nat, nat>, vs: set<nat>)
  {
    forall v | v in vs :: v in old_ && v in new_ && old_[v] in f0 && new_[v] in f && f[new_[v]] == f0[old_[v]]
  }

  lemma DataWriteKeeps(f: Frames, p: nat, page: seq<Byte>, t: Tree, lim: nat, m: Mapping)
    requires FramesOk(f) && |page| == PAGE_SIZE && lim <= 512 && Represents(Look(f), t, lim, m) && p !in Owned(t)
    ensures Represents(Look(f[p := page]), t, lim, m)
  {
    hide Represents;
    RepresentsFrame(Look(f), Look(f[p := page]), t, lim, m);
  }

  /** `dst.copy_from_slice(src)` into one of the space's own data pages. */
  method CopyPage(mem: Machine, pt: PageTable, dst: nat, src: nat, ghost v: nat, ghost pages: map<nat, nat>, ghost floor: nat)
    requires Space(mem, pt, pages, floor) && v in pages && dst == pages[v] && dst in mem.frames && src in mem.frames && dst >= floor
    modifies mem`frames
    ensures Space(mem, pt, pages, floor) && mem.frames == old(mem.frames)[dst := old(mem.frames)[src]]
    ensures KeptBelow(old(mem.frames), mem.frames, floor)
  {
    hide Represents, Owned, PathOf;
    DataWriteKeeps(mem.frames, dst, mem.frames[src], pt.tree, 256, pt.mapping);
    mem.frames := mem.frames[dst := mem.frames[src]];
  }

  lemma CopiedStep(f0: Frames, pp: map<nat, nat>, f: Frames, cp: map<nat, nat>, vs: set<nat>, v: nat)
    requires Copied(f0, pp, f, cp, vs) && v in pp && v in cp && pp[v] in f0
    requires forall u, w | u in cp && w in cp && u != w :: cp[u] != cp[w]
    ensures Copied(f0, pp, f[cp[v] := f0[pp[v]]], cp, vs + {v})
  {
  }

  /** The pages of a range. */
  ghost function Upto(start: nat, end: nat): (s: set<nat>)
    ensures forall v :: v in s <==> start <= v < end
    decreases end - start
  {
    if start >= end then {} else {start} + Upto(start + 1, end)
  }

  /** The space being copied: sound in memory `f0`, complete before `floor`. */
  ghost predicate Source(f0: Frames, src: PageTable, pp: map<nat, nat>, floor: nat)
    reads src
  {
    && FramesOk(f0) && (forall p | 0 <= p < floor :: p in f0)
    && src.lim == 256 && src.root == src.tree.root && Represents(Look(f0), src.tree, 256, src.mapping)
    && Older(src.tree, pp, floor) && PagesOk(pp, src.mapping, Owned(src.tree), floor)
  }

  /** The space being built, and how much of it is a copy already. */
  ghost predicate Copying(mem: Machine, dst: PageTable, f0: Frames, pp: map<nat, nat>, cp: map<nat, nat>, floor: nat, vs: set<nat>)
    reads mem, dst
  {
    && Space(mem, dst, cp, floor) && NewPages(cp, floor) && KeptBelow(f0, mem.frames, floor)
    && Copied(f0, pp, mem.frames, cp, vs) && Only(dst.mapping, cp)
  }

  /** The table maps these pages and no others. */
  ghost predicate Only(m: Mapping, pages: map<nat, nat>)
  {
    forall at | at in m :: exists v :: v in pages && at == PathOf(v)
  }

  lemma OnlyFree(m: Mapping, pages: map<nat, nat>, v: nat)
    requires Only(m, pages) && v < TWO26 && v !in pages && forall u | u in pages :: u < TWO26
    ensures PathOf(v) !in m
  {
    if PathOf(v) in m {
      var u :| u in pages && PathOf(v) == PathOf(u);
      PathInjective(u, v);
    }
  }

  lemma OnlyStep(m: Mapping, pages: map<nat, nat>, v: nat, pte: Pte, ppn: nat)
    requires Only(m, pages)
    ensures Only(m[PathOf(v) := pte], pages[v := ppn])
  {
    hide PathOf;
    var m', pages' := m[PathOf(v) := pte], pages[v := ppn];
    forall at | at in m' ensures exists u :: u in pages' && at == PathOf(u) {
      if at == PathOf(v) {
        assert v in pages';
      } else {
        var u :| u in pages && at == PathOf(u);
        assert u in pages';
      }
    }
  }

  /** One page of the inner loop of `from_existed_user`: through both tables. */
  method CopyThrough(mem: Machine, src: PageTable, dst: PageTable, v: nat,
                     ghost f0: Frames, ghost pp: map<nat, nat>, ghost cp: map<nat, nat>, ghost floor: nat, ghost vs: set<nat>)
    requires src != dst && Source(f0, src, pp, floor) && Copying(mem, dst, f0, pp, cp, floor, vs)
    requires v < TWO26 && v in pp && v in cp
    modifies mem`frames
    ensures Copying(mem, dst, f0, pp, cp, floor, vs + {v})
  {
    hide Represents, Owned, PathOf, Copied, Below, AllAbove;
    TableKept(f0, mem.frames, src.tree, 256, src.mapping, floor);
    LowPath(v);
    assert src.Valid(mem) by { BelowMore(src.tree, floor, mem.current); }
    var s := src.Translate(mem, v);
    var d := dst.Translate(mem, v);
    CopiedStep(f0, pp, mem.frames, cp, vs, v);
    CopyPage(mem, dst, d.value.ppn, s.value.ppn, v, cp, floor);
  }

  lemma BelowMore(t: Tree, n: nat, n': nat)
    requires Below(t, n) && n <= n'
    ensures Below(t, n')
  {
  }

  /** The inner loop of `from_existed_user` over an area's pages. */
  method CopyRange(mem: Machine, src: PageTable, dst: PageTable, start: nat, end: nat,
                   ghost f0: Frames, ghost pp: map<nat, nat>, ghost cp: map<nat, nat>, ghost floor: nat, ghost vs: set<nat>)
    requires src != dst && Source(f0, src, pp, floor) && Copying(mem, dst, f0, pp, cp, floor, vs)
    requires start <= end <= TWO26 && forall v | v in Upto(start, end) :: v in pp && v in cp
    modifies mem`frames
    ensures Copying(mem, dst, f0, pp, cp, floor, vs + Upto(start, end))
  {
    hide Source, Copying;
    var v := start;
    assert vs + Upto(start, v) == vs;
    while v < end
      invariant start <= v <= end
      invariant Copying(mem, dst, f0, pp, cp, floor, vs + Upto(start, v))
    {
      CopyThrough(mem, src, dst, v, f0, pp, cp, floor, vs + Upto(start, v));
      assert vs + Upto(start, v) + {v} == vs + Upto(start, v + 1);
      v := v + 1;
    }
  }

  lemma CopiedKept(f0: Frames, pp: map<nat, nat>, f: Frames, cp: map<nat, nat>, f': Frames, cp': map<nat, nat>, vs: set<nat>)
    requires Copied(f0, pp, f, cp, vs) && SamePages(f, f', cp) && forall v | v in cp :: v in cp' && cp'[v] == cp[v]
    ensures Copied(f0, pp, f', cp', vs)
  {
  }

  lemma OnlyArea(m: Mapping, pages: map<nat, nat>, m': Mapping, a: Area)
    requires Only(m, pages) && NewIn(m, m', a.start, a.end) && forall v :: v in a.frames <==> a.start <= v < a.end
    ensures Only(m', pages + a.frames)
  {
    hide PathOf;
    forall at | at in m' ensures exists u :: u in pages + a.frames && at == PathOf(u) {
      if at in m {
        var u :| u in pages && at == PathOf(u);
        assert u in pages + a.frames;
      } else {
        var u: nat :| a.start <= u < a.end && at == PathOf(u);
        assert u in pages + a.frames;
      }
    }
  }

  lemma AreaFree(m: Mapping, pages: map<nat, nat>, a: Area)
    requires Only(m, pages) && a.end <= TWO26 && Upto(a.start, a.end) !! pages.Keys && forall u | u in pages :: u < TWO26
    ensures !exists v: nat | a.start <= v < a.end :: PathOf(v) in m
  {
    forall v: nat | a.start <= v < a.end ensures PathOf(v) !in m {
      OnlyFree(m, pages, v);
    }
  }

  lemma PagesLow(pages: map<nat, nat>, m: Mapping, tables: set<nat>, current: nat)
    requires PagesOk(pages, m, tables, current)
    ensures forall v | v in pages :: v < TWO26
    ensures forall u, v | u in pages && v in pages && u != v :: pages[u] != pages[v]
  {
  }

  /** One area of `from_existed_user`: `from_another`, `push`, then the copy loop. */
  method CopyArea(mem: Machine, src: PageTable, dst: PageTable, area: Area,
                  ghost f0: Frames, ghost pp: map<nat, nat>, ghost cp: map<nat, nat>, ghost floor: nat, ghost vs: set<nat>)
    returns (ok: bool, r: Area, ghost cp': map<nat, nat>)
    requires src != dst && Source(f0, src, pp, floor) && Copying(mem, dst, f0, pp, cp, floor, vs)
    requires AreaOk(area, pp, src.mapping) && Upto(area.start, area.end) !! cp.Keys
    modifies mem, dst
    ensures mem.Valid() && mem.end == old(mem.end) && mem.recycled == old(mem.recycled) && KeptBelow(f0, mem.frames, floor)
    ensures !ok ==> mem.current + 2 > mem.end
    ensures ok ==> Copying(mem, dst, f0, pp, cp', floor, vs + Upto(area.start, area.end))
    ensures ok ==> r == Area(area.start, area.end, true, area.perm, r.frames) && AreaOk(r, cp', dst.mapping)
    ensures ok ==> Mapped(old(dst.mapping), dst.mapping) && cp' == cp + r.frames && cp.Keys !! r.frames.Keys
  {
    hide Represents, Owned, PathOf, Copied, Only, PageTable.Valid, PagesOk, AllAbove, Spaces.MapEntry, Source, Older, NewIn, Mapped;
    ghost var f1, m1 := mem.frames, dst.mapping;
    PagesLow(cp, dst.mapping, Owned(dst.tree), mem.current);
    AreaFree(dst.mapping, cp, area);
    ok, r, cp' := MapArea(mem, dst, Area(area.start, area.end, area.framed, area.perm, map[]), cp, floor);
    if !ok {
      return;
    }
    OnlyArea(m1, cp, dst.mapping, r);
    CopiedKept(f0, pp, f1, cp, mem.frames, cp', vs);
    ghost var n := mem.current;
    CopyRange(mem, src, dst, area.start, area.end, f0, pp, cp', floor, vs);
  }

  const USER_RW := Flags(false, true, true, false, true, false, false, false)

  /** The copies hold their pages with the flags the fork gives heap and mmap pages. */
  ghost predicate FramesMapped(frames: map<nat, nat>, m: Mapping, flags: Flags)
  {
    forall v | v in frames :: PathOf(v) in m && m[PathOf(v)] == Spaces.MapEntry(frames[v], flags)
  }

  lemma FramesMappedStep(frames: map<nat, nat>, m: Mapping, flags: Flags, v: nat, ppn: nat)
    requires FramesMapped(frames, m, flags) && PathOf(v) !in m
    ensures FramesMapped(frames[v := ppn], m[PathOf(v) := Spaces.MapEntry(ppn, flags)], flags)
  {
    hide PathOf, Spaces.MapEntry;
  }

  lemma FramesMappedMore(frames: map<nat, nat>, m: Mapping, m': Mapping, flags: Flags)
    requires FramesMapped(frames, m, flags) && Mapped(m, m')
    ensures FramesMapped(frames, m', flags)
  {
  }

  /** One page of the heap and mmap loops of `from_existed_user`: allocate, map, copy. */
  method CopyFrame(mem: Machine, src: PageTable, dst: PageTable, vpn: nat, srcPpn: nat, ghost f0: Frames, ghost pp: map<nat, nat>, ghost cp: map<nat, nat>,
                   ghost floor: nat, ghost vs: set<nat>)
    returns (frame: Option<nat>)
    requires src != dst && Source(f0, src, pp, floor) && Copying(mem, dst, f0, pp, cp, floor, vs)
    requires vpn < TWO26 && vpn in pp && pp[vpn] == srcPpn && vpn !in cp
    modifies mem, dst
    ensures mem.Valid() && mem.end == old(mem.end) && mem.recycled == old(mem.recycled) && KeptBelow(f0, mem.frames, floor)
    ensures frame.None? ==> mem.current + 2 > mem.end
    ensures frame.Some? ==> PathOf(vpn) !in old(dst.mapping) && dst.mapping == old(dst.mapping)[PathOf(vpn) := Spaces.MapEntry(frame.value, USER_RW)]
    ensures frame.Some? ==> Copying(mem, dst, f0, pp, cp[vpn := frame.value], floor, vs + {vpn})
  {
    hide Represents, Owned, PathOf, Copied, Only, PageTable.Valid, PagesOk, AllAbove, Spaces.MapEntry, SamePages;
    ghost var f1, m1 := mem.frames, dst.mapping;
    PagesLow(cp, dst.mapping, Owned(dst.tree), mem.current);
    OnlyFree(dst.mapping, cp, vpn);
    frame := AddPage(mem, dst, vpn, USER_RW, cp, floor);
    if frame.None? {
      return;
    }
    ghost var cp' := cp[vpn := frame.value];
    OnlyStep(m1, cp, vpn, Spaces.MapEntry(frame.value, USER_RW), frame.value);
    CopiedKept(f0, pp, f1, cp, mem.frames, cp', vs);
    PagesLow(cp', dst.mapping, Owned(dst.tree), mem.current);
    assert srcPpn < floor && mem.frames[srcPpn] == f0[srcPpn];
    CopiedStep(f0, pp, mem.frames, cp', vs, vpn);
    CopyPage(mem, dst, frame.value, srcPpn, vpn, cp', floor);
  }

  /** The heap loop and the mmap loop of `from_existed_user`; the order of pages does not matter. */
  method CopyFrames(mem: Machine, src: PageTable, dst: PageTable, frames: map<nat, nat>, ghost f0: Frames, ghost pp: map<nat, nat>, ghost cp: map<nat, nat>,
                    ghost floor: nat, ghost vs: set<nat>)
    returns (ok: bool, r: map<nat, nat>, ghost cp': map<nat, nat>)
    requires src != dst && Source(f0, src, pp, floor) && Copying(mem, dst, f0, pp, cp, floor, vs)
    requires frames.Keys !! cp.Keys && forall v | v in frames :: v < TWO26 && v in pp && pp[v] == frames[v]
    modifies mem, dst
    ensures mem.Valid() && mem.end == old(mem.end) && mem.recycled == old(mem.recycled) && KeptBelow(f0, mem.frames, floor)
    ensures !ok ==> mem.current + 2 > mem.end
    ensures ok ==> Copying(mem, dst, f0, pp, cp', floor, vs + frames.Keys)
    ensures ok ==> r.Keys == frames.Keys && FramesMapped(r, dst.mapping, USER_RW)
    ensures ok ==> Mapped(old(dst.mapping), dst.mapping) && cp' == cp + r && cp.Keys !! r.Keys
  {
    hide Source, Copying, PathOf, FramesMapped, Mapped, Spaces.MapEntry;
    r := map[];
    cp' := cp;
    var todo := frames.Keys;
    assert FramesMapped(r, dst.mapping, USER_RW) && Mapped(dst.mapping, dst.mapping) by { FramesStart(dst.mapping, USER_RW); }
    CopyingOk(mem, dst, f0, pp, cp, floor, vs);
    assert vs + r.Keys == vs;
    while todo != {}
      invariant mem.Valid() && mem.end == old(mem.end) && mem.recycled == old(mem.recycled) && KeptBelow(f0, mem.frames, floor)
      invariant todo !! r.Keys && todo + r.Keys == frames.Keys
      invariant Copying(mem, dst, f0, pp, cp', floor, vs + r.Keys)
      invariant FramesMapped(r, dst.mapping, USER_RW) && Mapped(old(dst.mapping), dst.mapping)
      invariant cp' == cp + r && cp.Keys !! r.Keys
      decreases todo
    {
      var v :| v in todo;
      ghost var m1 := dst.mapping;
      var frame := CopyFrame(mem, src, dst, v, frames[v], f0, pp, cp', floor, vs + r.Keys);
      if frame.None? {
        ok := false;
        return;
      }
      FramesMappedStep(r, m1, USER_RW, v, frame.value);
      MappedStep(old(dst.mapping), m1, PathOf(v), Spaces.MapEntry(frame.value, USER_RW));
      assert vs + r.Keys + {v} == vs + r[v := frame.value].Keys;
      r := r[v := frame.value];
      cp' := cp'[v := frame.value];
      todo := todo - {v};
    }
    assert r.Keys == frames.Keys;
    ok := true;
  }

  lemma FramesStart(m: Mapping, flags: Flags)
    ensures FramesMapped(map[], m, flags) && Mapped(m, m)
  {
  }

  lemma MappedStep(m0: Mapping, m: Mapping, at: Path, pte: Pte)
    requires Mapped(m0, m) && at !in m
    ensures Mapped(m0, m[at := pte])
  {
  }

  lemma CopyingOk(mem: Machine, dst: PageTable, f0: Frames, pp: map<nat, nat>, cp: map<nat, nat>, floor: nat, vs: set<nat>)
    requires Copying(mem, dst, f0, pp, cp, floor, vs)
    ensures mem.Valid() && KeptBelow(f0, mem.frames, floor)
  {
  }

  // ---- whole address spaces

  /** `from_existed_user` skips such areas. */
  predicate KernelArea(a: Area) { a.start > KERNEL_SPACE_OFFSET }

  /** The space's pages are those of its areas, its heap and its mmap region, without overlap. */
  ghost predicate PartsOk(areas: seq<Area>, heap: map<nat, nat>, mmap: map<nat, nat>, pages: map<nat, nat>, m: Mapping)
  {
    && (forall i | 0 <= i < |areas| :: KernelArea(areas[i]) || AreaOk(areas[i], pages, m))
    && (forall i, j | 0 <= i < j < |areas| && !KernelArea(areas[i]) && !KernelArea(areas[j]) :: areas[i].frames.Keys !! areas[j].frames.Keys)
    && (forall i | 0 <= i < |areas| && !KernelArea(areas[i]) :: areas[i].frames.Keys !! heap.Keys && areas[i].frames.Keys !! mmap.Keys)
    && heap.Keys !! mmap.Keys
    && (forall v | v in heap :: v in pages && pages[v] == heap[v])
    && (forall v | v in mmap :: v in pages && pages[v] == mmap[v])
  }

  /** The pages fork copies. */
  ghost function AreaPages(areas: seq<Area>): set<nat>
  {
    if areas == [] then {} else AreaPages(areas[..|areas| - 1]) + (if KernelArea(areas[|areas| - 1]) then {} else areas[|areas| - 1].frames.Keys)
  }

  function UserAreas(areas: seq<Area>): seq<Area>
  {
    if areas == [] then [] else UserAreas(areas[..|areas| - 1]) + (if KernelArea(areas[|areas| - 1]) then [] else [areas[|areas| - 1]])
  }

  /** Same ranges and permissions, area by area. */
  ghost predicate SameAreas(xs: seq<Area>, ys: seq<Area>)
  {
    |xs| == |ys| && forall i | 0 <= i < |xs| ::
      xs[i].start == ys[i].start && xs[i].end == ys[i].end && xs[i].perm == ys[i].perm && ys[i].framed && xs[i].frames.Keys == ys[i].frames.Keys
  }

  ghost predicate AreasOk(areas: seq<Area>, pages: map<nat, nat>, m: Mapping)
  {
    forall i | 0 <= i < |areas| :: AreaOk(areas[i], pages, m)
  }

  class MemorySet {
    var pt: PageTable
    var areas: seq<Area>
    var heap: map<nat, nat>
    var mmap: map<nat, nat>
    var mmapEnd: nat
    ghost var pages: map<nat, nat>

    ghost predicate Valid(mem: Machine)
      reads this, pt, mem
    {
      Space(mem, pt, pages, 0) && PartsOk(areas, heap, mmap, pages, pt.mapping)
    }

    constructor (pt: PageTable, areas: seq<Area>, heap: map<nat, nat>, mmap: map<nat, nat>, mmapEnd: nat, ghost pages: map<nat, nat>)
      ensures this.pt == pt && this.areas == areas && this.heap == heap && this.mmap == mmap && this.mmapEnd == mmapEnd && this.pages == pages
    {
      this.pt, this.areas, this.heap, this.mmap, this.mmapEnd, this.pages := pt, areas, heap, mmap, mmapEnd, pages;
    }
  }

  lemma SourceHolds(mem: Machine, s: MemorySet)
    requires s.Valid(mem)
    ensures Source(mem.frames, s.pt, s.pages, mem.current)
  {
    hide Represents, PathOf, Owned;
  }

  lemma {:induction false} AreaPagesIn(areas: seq<Area>, v: nat)
    ensures v in AreaPages(areas) <==> exists i | 0 <= i < |areas| :: !KernelArea(areas[i]) && v in areas[i].frames
  {
    if areas != [] {
      var n := |areas| - 1;
      AreaPagesIn(areas[..n], v);
      if exists i | 0 <= i < n :: !KernelArea(areas[..n][i]) && v in areas[..n][i].frames {
        var i :| 0 <= i < n && !KernelArea(areas[..n][i]) && v in areas[..n][i].frames;
        assert !KernelArea(areas[i]) && v in areas[i].frames;
      }
      forall i | 0 <= i < |areas| && !KernelArea(areas[i]) && v in areas[i].frames
        ensures v in AreaPages(areas)
      {
        if i < n { assert !KernelArea(areas[..n][i]) && v in areas[..n][i].frames; }
      }
    }
  }

  lemma AreasMore(areas: seq<Area>, pages: map<nat, nat>, m: Mapping, pages': map<nat, nat>, m': Mapping)
    requires AreasOk(areas, pages, m) && Mapped(m, m') && forall v | v in pages :: v in pages' && pages'[v] == pages[v]
    ensures AreasOk(areas, pages', m')
  {
    hide PathOf, Spaces.MapEntry;
    forall i | 0 <= i < |areas| ensures AreaOk(areas[i], pages', m') {
      assert AreaOk(areas[i], pages, m);
    }
  }

  /** What the areas of a space must satisfy to be copied. */
  ghost predicate Copyable(areas: seq<Area>, pages: map<nat, nat>, m: Mapping)
  {
    && (forall i | 0 <= i < |areas| :: KernelArea(areas[i]) || AreaOk(areas[i], pages, m))
    && (forall i, j | 0 <= i < j < |areas| && !KernelArea(areas[i]) && !KernelArea(areas[j]) :: areas[i].frames.Keys !! areas[j].frames.Keys)
  }

  lemma NextArea(areas: seq<Area>, pages: map<nat, nat>, m: Mapping, i: nat)
    requires Copyable(areas, pages, m) && i < |areas| && !KernelArea(areas[i])
    ensures AreaOk(areas[i], pages, m) && Upto(areas[i].start, areas[i].end) == areas[i].frames.Keys
    ensures areas[i].frames.Keys !! AreaPages(areas[..i])
  {
    hide PathOf, Spaces.MapEntry;
    assert AreaOk(areas[i], pages, m);
    forall v | v in AreaPages(areas[..i]) ensures v !in areas[i].frames {
      AreaPagesIn(areas[..i], v);
      var k :| 0 <= k < |areas[..i]| && !KernelArea(areas[..i][k]) && v in areas[..i][k].frames;
      assert areas[k] == areas[..i][k];
    }
    assert Upto(areas[i].start, areas[i].end) == areas[i].frames.Keys;
  }

  lemma PrefixStep(areas: seq<Area>, i: nat)
    requires i < |areas|
    ensures AreaPages(areas[..i + 1]) == if KernelArea(areas[i]) then AreaPages(areas[..i]) else AreaPages(areas[..i]) + areas[i].frames.Keys
    ensures UserAreas(areas[..i + 1]) == if KernelArea(areas[i]) then UserAreas(areas[..i]) else UserAreas(areas[..i]) + [areas[i]]
  {
    assert areas[..i + 1][..i] == areas[..i] && areas[..i + 1][i] == areas[i];
  }

  /** The areas loop of `from_existed_user`. */
  method CopyAreas(mem: Machine, src: PageTable, dst: PageTable, areas: seq<Area>,
                   ghost f0: Frames, ghost pp: map<nat, nat>, ghost floor: nat)
    returns (ok: bool, r: seq<Area>, ghost cp: map<nat, nat>)
    requires src != dst && Source(f0, src, pp, floor) && Copying(mem, dst, f0, pp, map[], floor, {})
    requires Copyable(areas, pp, src.mapping)
    modifies mem, dst
    ensures mem.Valid() && mem.end == old(mem.end) && mem.recycled == old(mem.recycled) && KeptBelow(f0, mem.frames, floor)
    ensures !ok ==> mem.current + 2 > mem.end
    ensures ok ==> Copying(mem, dst, f0, pp, cp, floor, AreaPages(areas)) && cp.Keys == AreaPages(areas)
    ensures ok ==> SameAreas(UserAreas(areas), r) && AreasOk(r, cp, dst.mapping)
  {
    hide Source, Copying, AreaOk, Copyable, AreasOk, Mapped, AreaPages, UserAreas, PathOf, SameAreas;
    r, cp := [], map[];
    var i := 0;
    CopyingOk(mem, dst, f0, pp, cp, floor, {});
    assert AreaPages(areas[..0]) == {} && AreasOk(r, cp, dst.mapping) && SameAreas(UserAreas(areas[..0]), r) by { NoAreas(areas, cp, dst.mapping); }
    while i < |areas|
      invariant 0 <= i <= |areas|
      invariant mem.Valid() && mem.end == old(mem.end) && mem.recycled == old(mem.recycled) && KeptBelow(f0, mem.frames, floor)
      invariant Copying(mem, dst, f0, pp, cp, floor, AreaPages(areas[..i])) && cp.Keys == AreaPages(areas[..i])
      invariant SameAreas(UserAreas(areas[..i]), r) && AreasOk(r, cp, dst.mapping)
    {
      PrefixStep(areas, i);
      if !KernelArea(areas[i]) {
        NextArea(areas, pp, src.mapping, i);
        ghost var m1, cp1 := dst.mapping, cp;
        var new_: Area;
        ok, new_, cp := CopyArea(mem, src, dst, areas[i], f0, pp, cp, floor, AreaPages(areas[..i]));
        if !ok {
          return;
        }
        CopyingOk(mem, dst, f0, pp, cp, floor, AreaPages(areas[..i]) + Upto(areas[i].start, areas[i].end));
        AreasMore(r, cp1, m1, cp, dst.mapping);
        OneMore(UserAreas(areas[..i]), r, areas[i], new_, pp, src.mapping, cp, dst.mapping);
        r := r + [new_];
      }
      i := i + 1;
    }
    assert areas[..i] == areas;
    ok := true;
  }

  lemma NoAreas(areas: seq<Area>, pages: map<nat, nat>, m: Mapping)
    ensures AreaPages(areas[..0]) == {} && AreasOk([], pages, m) && SameAreas(UserAreas(areas[..0]), [])
  {
  }

  lemma OneMore(xs: seq<Area>, ys: seq<Area>, x: Area, y: Area, pp: map<nat, nat>, m: Mapping, cp: map<nat, nat>, m': Mapping)
    requires SameAreas(xs, ys) && AreasOk(ys, cp, m') && AreaOk(x, pp, m) && AreaOk(y, cp, m')
    requires y == Area(x.start, x.end, true, x.perm, y.frames)
    ensures SameAreas(xs + [x], ys + [y]) && AreasOk(ys + [y], cp, m') && y.frames.Keys == x.frames.Keys
  {
    hide PathOf, Spaces.MapEntry;
    assert y.frames.Keys == x.frames.Keys;
  }

  lemma PartsCopyable(areas: seq<Area>, heap: map<nat, nat>, mmap: map<nat, nat>, pages: map<nat, nat>, m: Mapping)
    requires PartsOk(areas, heap, mmap, pages, m)
    ensures Copyable(areas, pages, m) && heap.Keys !! AreaPages(areas) && mmap.Keys !! AreaPages(areas) && heap.Keys !! mmap.Keys
    ensures forall v | v in heap :: v in pages && pages[v] == heap[v]
    ensures forall v | v in mmap :: v in pages && pages[v] == mmap[v]
  {
    hide AreaOk;
    forall v | v in AreaPages(areas) ensures v !in heap && v !in mmap {
      AreaPagesIn(areas, v);
    }
  }

  lemma {:induction false} UserAreasAre(areas: seq<Area>, k: nat)
    requires k < |UserAreas(areas)|
    ensures exists i | 0 <= i < |areas| :: areas[i] == UserAreas(areas)[k] && !KernelArea(areas[i])
    ensures UserAreas(areas)[k].frames.Keys <= AreaPages(areas)
  {
    var n := |areas| - 1;
    if k < |UserAreas(areas[..n])| {
      UserAreasAre(areas[..n], k);
      var i :| 0 <= i < n && areas[..n][i] == UserAreas(areas[..n])[k] && !KernelArea(areas[..n][i]);
      assert areas[i] == areas[..n][i];
    } else {
      assert areas[n] == UserAreas(areas)[k];
    }
  }

  lemma {:induction false} UserAreasDisjoint(areas: seq<Area>, j: nat, k: nat)
    requires j < k < |UserAreas(areas)|
    requires forall x, y | 0 <= x < y < |areas| && !KernelArea(areas[x]) && !KernelArea(areas[y]) :: areas[x].frames.Keys !! areas[y].frames.Keys
    ensures UserAreas(areas)[j].frames.Keys !! UserAreas(areas)[k].frames.Keys
  {
    var n := |areas| - 1;
    var front := areas[..n];
    assert forall x | 0 <= x < n :: front[x] == areas[x];
    if k < |UserAreas(front)| {
      UserAreasDisjoint(front, j, k);
    } else {
      UserAreasAre(front, j);
      var i :| 0 <= i < n && front[i] == UserAreas(front)[j] && !KernelArea(front[i]);
    }
  }

  lemma ChildParts(areas: seq<Area>, child: seq<Area>, heap: map<nat, nat>, mmap: map<nat, nat>, pages: map<nat, nat>, m: Mapping,
                   pheap: map<nat, nat>, pmmap: map<nat, nat>, pp: map<nat, nat>, pm: Mapping)
    requires PartsOk(areas, pheap, pmmap, pp, pm) && SameAreas(UserAreas(areas), child) && AreasOk(child, pages, m)
    requires heap.Keys == pheap.Keys && mmap.Keys == pmmap.Keys
    requires forall v | v in heap :: v in pages && pages[v] == heap[v]
    requires forall v | v in mmap :: v in pages && pages[v] == mmap[v]
    ensures PartsOk(child, heap, mmap, pages, m)
  {
    hide AreaOk;
    PartsCopyable(areas, pheap, pmmap, pp, pm);
    forall i | 0 <= i < |child| ensures child[i].frames.Keys !! heap.Keys && child[i].frames.Keys !! mmap.Keys {
      UserAreasAre(areas, i);
    }
    forall i, j | 0 <= i < j < |child| ensures child[i].frames.Keys !! child[j].frames.Keys {
      UserAreasDisjoint(areas, i, j);
    }
  }

  lemma SpaceLater(f: Frames, f': Frames, current: nat, current': nat, tree: Tree, m: Mapping, pages: map<nat, nat>)
    requires FramesOk(f) && FramesOk(f') && current <= current' && KeptBelow(f, f', current)
    requires Represents(Look(f), tree, 256, m) && Below(tree, current) && PagesOk(pages, m, Owned(tree), current)
    ensures Represents(Look(f'), tree, 256, m) && Below(tree, current') && PagesOk(pages, m, Owned(tree), current')
  {
    hide PathOf, Represents, Owned;
    TableKept(f, f', tree, 256, m, current);
  }

  lemma EmptyCopying(mem: Machine, dst: PageTable, f0: Frames, pp: map<nat, nat>, floor: nat)
    requires mem.Valid() && dst.Valid(mem) && dst.lim == 256 && dst.mapping == map[] && floor <= mem.current
    requires AllAbove(Owned(dst.tree), floor) && KeptBelow(f0, mem.frames, floor)
    ensures Copying(mem, dst, f0, pp, map[], floor, {})
  {
    hide Represents, Owned, PathOf;
  }

  lemma Widen(mem: Machine, dst: PageTable, f0: Frames, pp: map<nat, nat>, cp: map<nat, nat>, floor: nat, vs: set<nat>)
    requires Copying(mem, dst, f0, pp, cp, floor, vs)
    ensures Space(mem, dst, cp, 0) && Only(dst.mapping, cp) && floor <= mem.current && NewPages(cp, floor) && AllAbove(Owned(dst.tree), floor) && Copied(f0, pp, mem.frames, cp, vs)
  {
    hide Represents, Owned, PathOf, Copied, Only, PageTable.Valid;
  }

  /** `MemorySet::from_existed_user`: the child has every user page of the parent, byte for
      byte, in frames and tables that did not exist before; the parent and everything else
      is untouched. It fails only for lack of frames. */
  method FromExistedUser(mem: Machine, kernelRoot: nat, parent: MemorySet) returns (child: MemorySet?)
    requires parent.Valid(mem) && kernelRoot < mem.current
    modifies mem
    ensures mem.Valid() && mem.recycled == old(mem.recycled) && KeptBelow(old(mem.frames), mem.frames, old(mem.current))
    ensures child == null ==> mem.current + 2 > mem.end
    ensures child != null ==> fresh(child) && fresh(child.pt) && child.Valid(mem) && parent.Valid(mem)
    ensures child != null ==> child.pages.Keys == AreaPages(parent.areas) + parent.heap.Keys + parent.mmap.Keys
    ensures child != null ==> Copied(old(mem.frames), parent.pages, mem.frames, child.pages, child.pages.Keys)
    ensures child != null ==> Only(child.pt.mapping, child.pages) && NewPages(child.pages, old(mem.current)) && AllAbove(Owned(child.pt.tree), old(mem.current))
    ensures child != null ==> SameAreas(UserAreas(parent.areas), child.areas) && child.mmapEnd == parent.mmapEnd
    ensures child != null ==> child.heap.Keys == parent.heap.Keys && FramesMapped(child.heap, child.pt.mapping, USER_RW)
    ensures child != null ==> child.mmap.Keys == parent.mmap.Keys && FramesMapped(child.mmap, child.pt.mapping, USER_RW)
  {
    hide Represents, Owned, PathOf, Copied, Copying, Source, PartsOk, Only, AreasOk, SameAreas, FramesMapped, Mapped, Copyable, AreaPages, UserAreas, PagesOk, AllAbove, Below;
    ghost var f0, n0, pp := mem.frames, mem.current, parent.pages;
    SourceHolds(mem, parent);
    PartsCopyable(parent.areas, parent.heap, parent.mmap, pp, parent.pt.mapping);
    child := null;
    var root := mem.FrameAlloc();
    if root.None? {
      return;
    }
    var pt := new PageTable.NewProcess(mem, root.value, kernelRoot);
    AboveRoot(pt.tree, n0);
    EmptyCopying(mem, pt, f0, pp, n0);
    var ok, areas, cp := CopyAreas(mem, parent.pt, pt, parent.areas, f0, pp, n0);
    if !ok {
      return;
    }
    ghost var m1 := pt.mapping;
    LowHeap(pp, parent.pt, f0, n0);
    var heap, mmap;
    ghost var cp1, cp2;
    ok, heap, cp1 := CopyFrames(mem, parent.pt, pt, parent.heap, f0, pp, cp, n0, cp.Keys);
    if !ok {
      return;
    }
    AreasMore(areas, cp, m1, cp1, pt.mapping);
    ghost var m2 := pt.mapping;
    ok, mmap, cp2 := CopyFrames(mem, parent.pt, pt, parent.mmap, f0, pp, cp1, n0, cp.Keys + heap.Keys);
    if !ok {
      return;
    }
    AreasMore(areas, cp1, m2, cp2, pt.mapping);
    FramesMappedMore(heap, m2, pt.mapping, USER_RW);
    ChildParts(parent.areas, areas, heap, mmap, cp2, pt.mapping, parent.heap, parent.mmap, pp, parent.pt.mapping);
    assert cp2.Keys == cp.Keys + heap.Keys + mmap.Keys;
    Widen(mem, pt, f0, pp, cp2, n0, cp2.Keys);
    SpaceLater(f0, mem.frames, n0, mem.current, parent.pt.tree, parent.pt.mapping, pp);
    AllAboveZero(parent.pt.tree);
    child := new MemorySet(pt, areas, heap, mmap, parent.mmapEnd, cp2);
  }

  lemma LowHeap(pp: map<nat, nat>, src: PageTable, f0: Frames, floor: nat)
    requires Source(f0, src, pp, floor)
    ensures forall v | v in pp :: v < TWO26
  {
  }

  lemma AllAboveZero(t: Tree)
    ensures AllAbove(Owned(t), 0)
  {
  }

  lemma AboveRoot(t: Tree, n: nat)
    requires Owned(t) == {n}
    ensures AllAbove(Owned(t), n)
  {
  }
}
