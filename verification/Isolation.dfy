/** Processes after fork: whatever either of them maps, unmaps, gives back or stores, each sees
    exactly the effect of its own operations (os/src/mm/memory_set.rs). */
module Isolation {
  import opened Bytes
  import opened Sv39
  import opened TableTree
  import opened AddressSpaces
  import opened PhysMem
  import opened PageTables
  import opened MemorySets
  import Loader
  import Spaces

  // ---- what a process sees

  datatype PageView = PageView(flags: Flags, bytes: seq<Byte>)

  /** Its pages, each with the permissions of its entry and the bytes of its frame. */
  type View = map<nat, PageView>

  ghost function FlagsAt(m: Mapping, at: Path): Flags { if at in m then m[at].flags else NO_FLAGS }

  ghost function BytesAt(f: Frames, p: nat): seq<Byte> { if p in f then f[p] else [] }

  ghost function ViewOf(f: Frames, m: Mapping, pages: map<nat, nat>): View
  {
    map v | v in pages :: PageView(FlagsAt(m, PathOf(v)), BytesAt(f, pages[v]))
  }

  /** Page by page: a fresh page of an area or the heap (`map_one`, `map_heap`), a fresh page of
      `mmap`, `unmap_one`, `munmap`, a store. */
  datatype Op =
    | OpMap(vpn: nat, flags: Flags)
    | OpMmap(vpn: nat)
    | OpUnmap(vpn: nat)
    | OpMunmap(vpn: nat)
    | OpStore(vpn: nat, off: nat, data: seq<Byte>)

  /** The flags `mmap` gives its pages. */
  const USER_RWX := Flags(false, true, true, true, true, false, false, false)

  /** User addresses other than `foreign`, and stores within one page. */
  ghost predicate UserOp(op: Op, foreign: set<nat>)
  {
    op.vpn < TWO26 && op.vpn !in foreign && (op.OpStore? ==> op.off + |op.data| <= PAGE_SIZE)
  }

  /** The operations that panic or fault. */
  ghost predicate Refused(view: View, op: Op)
  {
    match op
    case OpMap(vpn, _) => vpn in view
    case OpMmap(vpn) => vpn in view
    case OpUnmap(vpn) => vpn !in view
    case OpMunmap(_) => false
    case OpStore(vpn, _, _) => vpn !in view
  }

  /** What a process alone on the machine would see. `munmap` gives the frame back and leaves the
      page mapped. */
  ghost function Effect(view: View, op: Op): View
  {
    match op
    case OpMap(vpn, flags) => view[vpn := PageView(Spaces.MapEntry(0, flags).flags, ZeroPage())]
    case OpMmap(vpn) => view[vpn := PageView(Spaces.MapEntry(0, USER_RWX).flags, ZeroPage())]
    case OpUnmap(vpn) => view - {vpn}
    case OpMunmap(_) => view
    case OpStore(vpn, off, data) =>
      if vpn in view && off + |data| <= |view[vpn].bytes|
      then view[vpn := PageView(view[vpn].flags, Overwrite(view[vpn].bytes, off, data))] else view
  }

  /** Page by page: a new page is zero and has the caller's permissions, for `mmap` all of a user's;
      a store changes those bytes of that page; every other page is as it was. */
  lemma EffectIs(view: View, op: Op, v: nat)
    requires !Refused(view, op) && (op.OpStore? ==> |view[op.vpn].bytes| == 4096 && op.off + |op.data| <= 4096)
    ensures var view' := Effect(view, op);
            && (v in view' <==> (if op.OpUnmap? then v in view && v != op.vpn else v in view || ((op.OpMap? || op.OpMmap?) && v == op.vpn)))
            && (v in view' && (v != op.vpn || op.OpMunmap?) ==> view'[v] == view[v])
            && (op.OpMap? || op.OpMmap? ==>
                  && op.vpn in view' && |view'[op.vpn].bytes| == 4096 && (forall k | 0 <= k < 4096 :: view'[op.vpn].bytes[k] == 0)
                  && view'[op.vpn].flags.v && view'[op.vpn].flags.a && view'[op.vpn].flags.d)
            && (op.OpMap? ==> var g := view'[op.vpn].flags;
                  g.r == op.flags.r && g.w == op.flags.w && g.x == op.flags.x && g.u == op.flags.u && g.g == op.flags.g)
            && (op.OpMmap? ==> var g := view'[op.vpn].flags; g.r && g.w && g.x && g.u && !g.g)
            && (op.OpStore? ==>
                  && op.vpn in view' && view'[op.vpn].flags == view[op.vpn].flags && |view'[op.vpn].bytes| == 4096
                  && forall k | 0 <= k < 4096 :: view'[op.vpn].bytes[k] == if op.off <= k < op.off + |op.data| then op.data[k - op.off] else view[op.vpn].bytes[k])
  {
    if op.OpStore? {
      var page := view[op.vpn].bytes;
      var page' := Overwrite(page, op.off, op.data);
      forall k | op.off <= k < op.off + |op.data| ensures page'[k] == op.data[k - op.off] {
        assert page'[op.off..op.off + |op.data|][k - op.off] == op.data[k - op.off];
      }
    }
  }

  ghost function After(view: View, ops: seq<Op>): View
  {
    if ops == [] then view else Effect(After(view, ops[..|ops| - 1]), ops[|ops| - 1])
  }

  // ---- the frames a process holds

  ghost function Holdings(t: Tree, pages: map<nat, nat>): set<nat> { Owned(t) + pages.Values }

  /** The table maps the process's pages, the pages `foreign` of other processes (fork leaves the
      child's trap context in the parent's table) and nothing else. */
  ghost predicate OnlyThese(m: Mapping, pages: map<nat, nat>, foreign: set<nat>)
  {
    && (forall at | at in m :: exists v :: (v in pages || v in foreign) && at == PathOf(v))
    && (forall v | v in foreign :: v < TWO26 && v !in pages)
  }

  /** The trackers are of the process's own pages, and none has been given back. */
  ghost predicate HeldOk(held: map<nat, nat>, pages: map<nat, nat>, recycled: seq<nat>)
  {
    forall v | v in held :: v in pages && held[v] == pages[v] && held[v] !in recycled
  }

  /** Memory below the old allocation mark changed in the frames `mine` only, and only such
      frames were given back. */
  ghost predicate Touched(f: Frames, f': Frames, n: nat, n': nat, recycled: seq<nat>, recycled': seq<nat>, mine: set<nat>)
  {
    n <= n' && BytesKept(f, f', n, mine) && forall p | p in recycled' :: p in recycled || p in mine
  }

  ghost predicate NewAbove(mine: set<nat>, mine': set<nat>, n: nat) { forall p | p in mine' :: p in mine || p >= n }

  /** The recycled list after the tracker of a page is dropped. */
  function GivenBack(recycled: seq<nat>, held: map<nat, nat>, vpn: nat): seq<nat>
  {
    if vpn in held then recycled + [held[vpn]] else recycled
  }

  /** A process's page table, the frame trackers its areas, heap and mmap region hold, and the
      pages of the mmap region. */
  class UserSpace {
    const pt: PageTable
    var held: map<nat, nat>
    var mmapped: set<nat>
    ghost var pages: map<nat, nat>
    ghost const foreign: set<nat>

    ghost predicate Live(mem: Machine)
      reads this, pt, mem
    {
      Space(mem, pt, pages, 0) && OnlyThese(pt.mapping, pages, foreign) && HeldOk(held, pages, mem.recycled)
    }

    ghost function Sees(mem: Machine): View
      reads this, pt, mem
    {
      ViewOf(mem.frames, pt.mapping, pages)
    }

    ghost function Holds(): set<nat>
      reads this, pt
    {
      Holdings(pt.tree, pages)
    }

    constructor (pt: PageTable, held: map<nat, nat>, mmapped: set<nat>, ghost pages: map<nat, nat>, ghost foreign: set<nat>)
      ensures this.pt == pt && this.held == held && this.mmapped == mmapped && this.pages == pages && this.foreign == foreign
    {
      this.pt, this.held, this.mmapped, this.pages, this.foreign := pt, held, mmapped, pages, foreign;
    }

    /** A fresh zeroed page. */
    method MapPage(mem: Machine, vpn: nat, flags: Flags) returns (ok: bool)
      requires Live(mem) && vpn < TWO26 && vpn !in foreign
      modifies mem, this, pt
      ensures mem.Valid() && mem.end == old(mem.end)
      ensures Touched(old(mem.frames), mem.frames, old(mem.current), mem.current, old(mem.recycled), mem.recycled, old(Holds()))
      ensures ok ==> Live(mem) && NewAbove(old(Holds()), Holds(), old(mem.current))
      ensures ok ==> !Refused(old(Sees(mem)), OpMap(vpn, flags)) && Sees(mem) == Effect(old(Sees(mem)), OpMap(vpn, flags))
      ensures !ok ==> Refused(old(Sees(mem)), OpMap(vpn, flags)) || mem.current + 2 > mem.end
    {
      hide Space, PathOf, Owned, OnlyThese, Spaces.MapEntry, ViewOf, HeldOk, Holdings, BytesKept, PagesOk, Effect;
      ghost var f0, m0, n0, t0, p0 := mem.frames, pt.mapping, mem.current, pt.tree, pages;
      SpaceFacts(mem, pt, pages);
      ViewKeys(f0, m0, p0);
      var frame := AddPage(mem, pt, vpn, flags, pages, 0);
      TablesTouched(f0, mem.frames, n0, t0, p0);
      if frame.None? {
        if vpn !in p0 { NotMapped(m0, p0, foreign, vpn); }
        return false;
      }
      TheseAndOne(m0, p0, foreign, vpn, Spaces.MapEntry(frame.value, flags), frame.value);
      MappedHoldings(t0, pt.tree, p0, vpn, frame.value, n0);
      HeldMore(held, p0, mem.recycled, n0, vpn, frame.value);
      ViewMapped(f0, mem.frames, m0, p0, vpn, frame.value, flags);
      held := held[vpn := frame.value];
      pages := pages[vpn := frame.value];
      ok := true;
    }

    /** Dropping the `FrameTracker` of a page, if there is one: the frame goes back, and
        `frame_dealloc` never refuses it. */
    method DropTracker(mem: Machine, vpn: nat)
      requires Live(mem)
      modifies mem`recycled, this`held
      ensures Live(mem) && held == old(held) - {vpn} && mem.recycled == GivenBack(old(mem.recycled), old(held), vpn)
      ensures forall p | p in mem.recycled :: p in old(mem.recycled) || p in Holds()
    {
      hide Represents, PathOf, Owned, OnlyThese, ViewOf;
      if vpn in held {
        var ok := mem.FrameDealloc(held[vpn]);
        assert ok;
        assert held[vpn] in pages.Values;
        held := held - {vpn};
      }
    }

    /** One page of `munmap`: the tracker goes, the page stays mapped. */
    method MunmapPage(mem: Machine, vpn: nat)
      requires Live(mem)
      modifies mem, this, pt
      ensures mem.Valid() && mem.end == old(mem.end) && Live(mem) && Holds() == old(Holds())
      ensures Touched(old(mem.frames), mem.frames, old(mem.current), mem.current, old(mem.recycled), mem.recycled, old(Holds()))
      ensures Sees(mem) == Effect(old(Sees(mem)), OpMunmap(vpn))
      ensures mem.recycled == if vpn in old(mmapped) then GivenBack(old(mem.recycled), old(held), vpn) else old(mem.recycled)
    {
      hide Represents, PathOf, Owned, OnlyThese, ViewOf, HeldOk, Holdings, PagesOk;
      if vpn in mmapped {
        DropTracker(mem, vpn);
        mmapped := mmapped - {vpn};
      }
    }

    /** `unmap_one`. */
    method UnmapPage(mem: Machine, vpn: nat) returns (ok: bool)
      requires Live(mem) && vpn < TWO26 && vpn !in foreign
      modifies mem, this, pt
      ensures mem.Valid() && mem.end == old(mem.end)
      ensures Touched(old(mem.frames), mem.frames, old(mem.current), mem.current, old(mem.recycled), mem.recycled, old(Holds()))
      ensures ok <==> !Refused(old(Sees(mem)), OpUnmap(vpn))
      ensures ok ==> Live(mem) && NewAbove(old(Holds()), Holds(), old(mem.current))
      ensures ok ==> Sees(mem) == Effect(old(Sees(mem)), OpUnmap(vpn)) && mem.recycled == GivenBack(old(mem.recycled), old(held), vpn)
    {
      hide Represents, PathOf, Owned, OnlyThese, ViewOf, HeldOk, Holdings, PagesOk, BytesKept, Below;
      ghost var f0, m0, p0 := mem.frames, pt.mapping, pages;
      ViewKeys(f0, m0, p0);
      SpaceFacts(mem, pt, p0);
      DropTracker(mem, vpn);
      DroppedHeld(held, p0, mem.recycled, vpn);
      UnmapFacts(mem, pt, p0, foreign, vpn);
      ok := pt.Unmap(mem, vpn);
      TablesTouched(f0, mem.frames, mem.current, pt.tree, p0);
      if ok {
        pages := pages - {vpn};
        UnmappedPages(p0, m0, Owned(pt.tree), mem.current, foreign, vpn);
        FewerHoldings(pt.tree, p0, vpn);
        ViewUnmapped(f0, mem.frames, m0, p0, Owned(pt.tree), mem.current, vpn);
      }
    }

    /** A store through the table; it faults on a page that is not mapped. */
    method StorePage(mem: Machine, vpn: nat, off: nat, data: seq<Byte>) returns (ok: bool)
      requires Live(mem) && vpn < TWO26 && vpn !in foreign && off + |data| <= PAGE_SIZE
      modifies mem, this, pt
      ensures mem.Valid() && mem.end == old(mem.end)
      ensures Touched(old(mem.frames), mem.frames, old(mem.current), mem.current, old(mem.recycled), mem.recycled, old(Holds()))
      ensures ok <==> !Refused(old(Sees(mem)), OpStore(vpn, off, data))
      ensures ok ==> Live(mem) && NewAbove(old(Holds()), Holds(), old(mem.current))
      ensures ok ==> Sees(mem) == Effect(old(Sees(mem)), OpStore(vpn, off, data))
    {
      hide Represents, PathOf, Owned, OnlyThese, ViewOf, HeldOk, Holdings, PagesOk, BytesKept, Below;
      ghost var f0, m0, p0 := mem.frames, pt.mapping, pages;
      ViewKeys(f0, m0, p0);
      UnmapFacts(mem, pt, p0, foreign, vpn);
      var pte := pt.Translate(mem, vpn);
      if pte.None? || !pte.value.flags.v {
        NothingTouched(f0, mem.current, Holds());
        return false;
      }
      StoredPage(mem, pt, p0, vpn);
      Loader.WritePage(mem, pt, vpn, off, data, pte.value.ppn, pages, 0);
      ViewStored(f0, m0, p0, Owned(pt.tree), mem.current, vpn, off, data);
      PageTouched(f0, mem.current, pt.tree, p0, vpn, mem.frames[pte.value.ppn]);
      ok := true;
    }
  }

  // ---- why each operation does so

  lemma SpaceFacts(mem: Machine, pt: PageTable, pages: map<nat, nat>)
    requires Space(mem, pt, pages, 0)
    ensures FramesOk(mem.frames) && PagesOk(pages, pt.mapping, Owned(pt.tree), mem.current)
    ensures forall v | v in pages :: v < TWO26 && pages[v] in mem.frames
    ensures forall p | p in mem.recycled :: p < mem.current
  {
    hide Represents, Owned, PathOf;
  }

  lemma ViewKeys(f: Frames, m: Mapping, pages: map<nat, nat>)
    ensures ViewOf(f, m, pages).Keys == pages.Keys
  {
  }

  lemma TablesTouched(f: Frames, f': Frames, n: nat, t: Tree, pages: map<nat, nat>)
    requires BytesKept(f, f', n, Owned(t))
    ensures BytesKept(f, f', n, Holdings(t, pages))
  {
    hide Owned;
  }

  lemma NothingTouched(f: Frames, n: nat, mine: set<nat>)
    ensures BytesKept(f, f, n, mine)
  {
  }

  lemma MappedHoldings(t: Tree, t': Tree, pages: map<nat, nat>, vpn: nat, ppn: nat, n: nat)
    requires ppn >= n && forall p | p in Owned(t') :: p in Owned(t) || p >= n
    ensures NewAbove(Holdings(t, pages), Holdings(t', pages[vpn := ppn]), n)
  {
    hide Owned;
  }

  lemma HeldMore(held: map<nat, nat>, pages: map<nat, nat>, recycled: seq<nat>, n: nat, vpn: nat, ppn: nat)
    requires HeldOk(held, pages, recycled) && vpn !in pages && ppn >= n && forall p | p in recycled :: p < n
    ensures HeldOk(held[vpn := ppn], pages[vpn := ppn], recycled)
  {
  }

  lemma DroppedHeld(held: map<nat, nat>, pages: map<nat, nat>, recycled: seq<nat>, vpn: nat)
    requires HeldOk(held, pages, recycled) && vpn !in held
    ensures HeldOk(held, pages - {vpn}, recycled)
  {
  }

  lemma ViewMapped(f: Frames, f': Frames, m: Mapping, pages: map<nat, nat>, vpn: nat, ppn: nat, flags: Flags)
    requires SamePages(f, f', pages) && vpn !in pages && vpn < TWO26 && ppn in f' && f'[ppn] == ZeroPage()
    requires forall v | v in pages :: v < TWO26 && pages[v] in f
    ensures ViewOf(f', m[PathOf(vpn) := Spaces.MapEntry(ppn, flags)], pages[vpn := ppn]) == Effect(ViewOf(f, m, pages), OpMap(vpn, flags))
  {
    hide PathOf;
    forall v | v in pages ensures PathOf(v) != PathOf(vpn) {
      if PathOf(v) == PathOf(vpn) { PathInjective(v, vpn); }
    }
  }

  lemma NotMapped(m: Mapping, pages: map<nat, nat>, foreign: set<nat>, vpn: nat)
    requires OnlyThese(m, pages, foreign) && vpn < TWO26 && vpn !in pages && vpn !in foreign && forall u | u in pages :: u < TWO26
    ensures PathOf(vpn) !in m
  {
    hide PathOf;
    if PathOf(vpn) in m {
      var u :| (u in pages || u in foreign) && PathOf(vpn) == PathOf(u);
      PathInjective(u, vpn);
    }
  }

  lemma TheseAndOne(m: Mapping, pages: map<nat, nat>, foreign: set<nat>, vpn: nat, pte: Pte, ppn: nat)
    requires OnlyThese(m, pages, foreign) && vpn !in foreign
    ensures OnlyThese(m[PathOf(vpn) := pte], pages[vpn := ppn], foreign)
  {
    hide PathOf;
    var m', pages' := m[PathOf(vpn) := pte], pages[vpn := ppn];
    forall at | at in m' ensures exists u :: (u in pages' || u in foreign) && at == PathOf(u) {
      if at == PathOf(vpn) {
        assert vpn in pages';
      } else {
        var u :| (u in pages || u in foreign) && at == PathOf(u);
        assert u in pages' || u in foreign;
      }
    }
  }

  lemma UnmapFacts(mem: Machine, pt: PageTable, pages: map<nat, nat>, foreign: set<nat>, vpn: nat)
    requires Space(mem, pt, pages, 0) && OnlyThese(pt.mapping, pages, foreign) && vpn < TWO26 && vpn !in foreign
    ensures PathOf(vpn).i < 256 && (PathOf(vpn) in pt.mapping <==> vpn in pages)
    ensures vpn in pages ==> pt.mapping[PathOf(vpn)].flags.v
  {
    hide Owned, PathOf, Shape, LeafAt, OnlyThese;
    LowPath(vpn);
    if vpn !in pages { NotMapped(pt.mapping, pages, foreign, vpn); }
  }

  lemma UnmappedPages(pages: map<nat, nat>, m: Mapping, tables: set<nat>, n: nat, foreign: set<nat>, vpn: nat)
    requires PagesOk(pages, m, tables, n) && OnlyThese(m, pages, foreign) && vpn < TWO26
    ensures PagesOk(pages - {vpn}, m - {PathOf(vpn)}, tables, n) && OnlyThese(m - {PathOf(vpn)}, pages - {vpn}, foreign)
  {
    hide PathOf;
    forall v | v in pages && v != vpn ensures PathOf(v) != PathOf(vpn) {
      if PathOf(v) == PathOf(vpn) { PathInjective(v, vpn); }
    }
    forall at | at in m - {PathOf(vpn)} ensures exists v :: (v in pages - {vpn} || v in foreign) && at == PathOf(v) {
      var v :| (v in pages || v in foreign) && at == PathOf(v);
      assert v in pages - {vpn} || v in foreign;
    }
  }

  lemma FewerHoldings(t: Tree, pages: map<nat, nat>, vpn: nat)
    ensures Holdings(t, pages - {vpn}) <= Holdings(t, pages)
  {
    hide Owned;
    assert (pages - {vpn}).Values <= pages.Values;
  }

  lemma ViewUnmapped(f: Frames, f': Frames, m: Mapping, pages: map<nat, nat>, tables: set<nat>, n: nat, vpn: nat)
    requires PagesOk(pages, m, tables, n) && BytesKept(f, f', n, tables) && vpn < TWO26 && forall v | v in pages :: pages[v] in f
    ensures ViewOf(f', m - {PathOf(vpn)}, pages - {vpn}) == Effect(ViewOf(f, m, pages), OpUnmap(vpn))
  {
    hide PathOf;
    forall v | v in pages && v != vpn ensures PathOf(v) != PathOf(vpn) {
      if PathOf(v) == PathOf(vpn) { PathInjective(v, vpn); }
    }
  }

  lemma StoredPage(mem: Machine, pt: PageTable, pages: map<nat, nat>, vpn: nat)
    requires Space(mem, pt, pages, 0) && vpn in pages
    ensures PathOf(vpn) in pt.mapping && pt.mapping[PathOf(vpn)].ppn == pages[vpn] && pages[vpn] in mem.frames
    ensures |mem.frames[pages[vpn]]| == PAGE_SIZE
  {
    hide Represents, Owned, PathOf;
  }

  lemma ViewStored(f: Frames, m: Mapping, pages: map<nat, nat>, tables: set<nat>, n: nat, vpn: nat, off: nat, data: seq<Byte>)
    requires PagesOk(pages, m, tables, n) && vpn in pages && pages[vpn] in f && off + |data| <= |f[pages[vpn]]|
    ensures ViewOf(f[pages[vpn] := Overwrite(f[pages[vpn]], off, data)], m, pages) == Effect(ViewOf(f, m, pages), OpStore(vpn, off, data))
  {
    hide PathOf, Overwrite;
  }

  lemma PageTouched(f: Frames, n: nat, t: Tree, pages: map<nat, nat>, vpn: nat, page: seq<Byte>)
    requires vpn in pages
    ensures BytesKept(f, f[pages[vpn] := page], n, Holdings(t, pages))
  {
    hide Owned;
    assert pages[vpn] in pages.Values;
  }

  // ---- two processes

  /** Both spaces are sound and no frame, table or page, belongs to both. */
  ghost predicate Apart(mem: Machine, a: UserSpace, b: UserSpace)
    reads mem, a, a.pt, b, b.pt
  {
    a != b && a.pt != b.pt && a.Live(mem) && b.Live(mem) && a.Holds() !! b.Holds()
  }

  /** A space none of whose frames was touched is as before. */
  lemma OtherKept(f: Frames, f': Frames, n: nat, n': nat, recycled: seq<nat>, recycled': seq<nat>, mine: set<nat>,
                  t: Tree, m: Mapping, pages: map<nat, nat>, held: map<nat, nat>)
    requires FramesOk(f) && FramesOk(f') && Touched(f, f', n, n', recycled, recycled', mine) && Holdings(t, pages) !! mine
    requires Represents(Look(f), t, 256, m) && Below(t, n) && PagesOk(pages, m, Owned(t), n) && HeldOk(held, pages, recycled)
    requires forall v | v in pages :: pages[v] in f
    ensures Represents(Look(f'), t, 256, m) && Below(t, n') && PagesOk(pages, m, Owned(t), n') && HeldOk(held, pages, recycled')
    ensures ViewOf(f', m, pages) == ViewOf(f, m, pages)
  {
    hide Represents, Owned, PathOf;
    assert forall v | v in pages :: pages[v] in pages.Values;
    RepresentsFrame(Look(f), Look(f'), t, 256, m);
  }

  lemma StillApart(mine: set<nat>, mine': set<nat>, t: Tree, pages: map<nat, nat>, m: Mapping, n: nat)
    requires NewAbove(mine, mine', n) && mine !! Holdings(t, pages) && Below(t, n) && PagesOk(pages, m, Owned(t), n)
    ensures mine' !! Holdings(t, pages)
  {
    hide Owned, PathOf;
  }

  method Perform(mem: Machine, a: UserSpace, op: Op) returns (ok: bool)
    requires a.Live(mem) && UserOp(op, a.foreign)
    modifies mem, a, a.pt
    ensures mem.Valid() && mem.end == old(mem.end)
    ensures Touched(old(mem.frames), mem.frames, old(mem.current), mem.current, old(mem.recycled), mem.recycled, old(a.Holds()))
    ensures ok ==> a.Live(mem) && NewAbove(old(a.Holds()), a.Holds(), old(mem.current))
    ensures ok ==> !Refused(old(a.Sees(mem)), op) && a.Sees(mem) == Effect(old(a.Sees(mem)), op)
    ensures !ok ==> Refused(old(a.Sees(mem)), op) || mem.current + 2 > mem.end
  {
    hide Space, OnlyThese, HeldOk, ViewOf, Holdings, Touched;
    match op
    case OpMap(vpn, flags) => ok := a.MapPage(mem, vpn, flags);
    case OpMmap(vpn) =>
      ok := a.MapPage(mem, vpn, USER_RWX);
      if ok { a.mmapped := a.mmapped + {vpn}; }
    case OpUnmap(vpn) => ok := a.UnmapPage(mem, vpn);
    case OpMunmap(vpn) => a.MunmapPage(mem, vpn); ok := true;
    case OpStore(vpn, off, data) => ok := a.StorePage(mem, vpn, off, data);
  }

  /** An operation of one process has its effect there and none in the other: every page, byte
      and binding of the other is as it was, even if the operation fails. */
  method Act(mem: Machine, a: UserSpace, b: UserSpace, op: Op) returns (ok: bool)
    requires Apart(mem, a, b) && UserOp(op, a.foreign)
    modifies mem, a, a.pt
    ensures mem.end == old(mem.end) && b.Live(mem) && b.Sees(mem) == old(b.Sees(mem))
    ensures ok ==> Apart(mem, a, b) && !Refused(old(a.Sees(mem)), op) && a.Sees(mem) == Effect(old(a.Sees(mem)), op)
    ensures !ok ==> Refused(old(a.Sees(mem)), op) || mem.current + 2 > mem.end
  {
    hide Represents, Owned, PathOf, OnlyThese, HeldOk, ViewOf, Holdings, Touched, PagesOk, Below, Effect, NewAbove;
    ghost var f0, n0, r0, mine := mem.frames, mem.current, mem.recycled, a.Holds();
    SpaceFacts(mem, b.pt, b.pages);
    ok := Perform(mem, a, op);
    OtherKept(f0, mem.frames, n0, mem.current, r0, mem.recycled, mine, b.pt.tree, b.pt.mapping, b.pages, b.held);
    if ok { StillApart(mine, a.Holds(), b.pt.tree, b.pages, b.pt.mapping, n0); }
  }

  /** The operations of one process among those of both. */
  ghost function Mine(ops: seq<(bool, Op)>, side: bool): seq<Op>
  {
    if ops == [] then [] else Mine(ops[..|ops| - 1], side) + (if ops[|ops| - 1].0 == side then [ops[|ops| - 1].1] else [])
  }

  lemma MineStep(ops: seq<(bool, Op)>, i: nat, side: bool, view: View)
    requires i < |ops|
    ensures After(view, Mine(ops[..i + 1], side)) ==
            if ops[i].0 == side then Effect(After(view, Mine(ops[..i], side)), ops[i].1) else After(view, Mine(ops[..i], side))
  {
    assert ops[..i + 1][..i] == ops[..i];
    if ops[i].0 == side {
      var xs := Mine(ops[..i + 1], side);
      assert xs == Mine(ops[..i], side) + [ops[i].1];
      assert xs[..|xs| - 1] == Mine(ops[..i], side);
    } else {
      assert Mine(ops[..i + 1], side) == Mine(ops[..i], side);
    }
  }

  /** Any interleaving of operations of two processes with nothing in common (`true` marks those of
      `a`): each sees what its own operations alone would have made it see, and they still have
      nothing in common. A run stops only at an operation refused by the process's own view, or
      for lack of frames. */
  method RunBoth(mem: Machine, a: UserSpace, b: UserSpace, ops: seq<(bool, Op)>) returns (done: nat)
    requires Apart(mem, a, b) && forall i | 0 <= i < |ops| :: UserOp(ops[i].1, if ops[i].0 then a.foreign else b.foreign)
    modifies mem, a, a.pt, b, b.pt
    ensures done <= |ops|
    ensures done == |ops| ==> Apart(mem, a, b)
    ensures done == |ops| ==> a.Sees(mem) == After(old(a.Sees(mem)), Mine(ops, true)) && b.Sees(mem) == After(old(b.Sees(mem)), Mine(ops, false))
    ensures done < |ops| ==>
      (mem.current + 2 > mem.end ||
       Refused(After(old(if ops[done].0 then a.Sees(mem) else b.Sees(mem)), Mine(ops[..done], ops[done].0)), ops[done].1))
  {
    hide Apart, Effect, Refused, Mine, After, UserOp, UserSpace.Sees, UserSpace.Live, UserSpace.Holds;
    ghost var va, vb := a.Sees(mem), b.Sees(mem);
    assert a != b && a.pt != b.pt by { ApartObjects(mem, a, b); }
    assert After(va, Mine(ops[..0], true)) == va && After(vb, Mine(ops[..0], false)) == vb by { NothingYet(ops, va, vb); }
    done := 0;
    while done < |ops|
      invariant 0 <= done <= |ops| && Apart(mem, a, b)
      invariant a.Sees(mem) == After(va, Mine(ops[..done], true)) && b.Sees(mem) == After(vb, Mine(ops[..done], false))
    {
      MineStep(ops, done, true, va);
      MineStep(ops, done, false, vb);
      var ok;
      if ops[done].0 {
        ok := Act(mem, a, b, ops[done].1);
      } else {
        ApartSymmetric(mem, a, b);
        ok := Act(mem, b, a, ops[done].1);
        if ok { ApartSymmetric(mem, b, a); }
      }
      if !ok {
        return;
      }
      done := done + 1;
    }
    assert ops[..done] == ops;
  }

  lemma ApartObjects(mem: Machine, a: UserSpace, b: UserSpace)
    requires Apart(mem, a, b)
    ensures a != b && a.pt != b.pt
  {
  }

  lemma ApartSymmetric(mem: Machine, a: UserSpace, b: UserSpace)
    requires Apart(mem, a, b)
    ensures Apart(mem, b, a)
  {
    hide Space, OnlyThese, HeldOk, Holdings;
  }

  lemma NothingYet(ops: seq<(bool, Op)>, va: View, vb: View)
    ensures After(va, Mine(ops[..0], true)) == va && After(vb, Mine(ops[..0], false)) == vb
  {
  }

  // ---- fork

  /** The frame trackers of a space: those of its user areas, its heap and its mmap region. */
  function Trackers(areas: seq<Area>, heap: map<nat, nat>, mmap: map<nat, nat>): map<nat, nat>
  {
    AreaTrackers(areas) + heap + mmap
  }

  function AreaTrackers(areas: seq<Area>): map<nat, nat>
  {
    if areas == [] then map[]
    else AreaTrackers(areas[..|areas| - 1]) + (if KernelArea(areas[|areas| - 1]) then map[] else areas[|areas| - 1].frames)
  }

  lemma {:induction false} AreaTrackersOwn(areas: seq<Area>, pages: map<nat, nat>, m: Mapping, v: nat)
    requires (forall i | 0 <= i < |areas| :: KernelArea(areas[i]) || AreaOk(areas[i], pages, m)) && v in AreaTrackers(areas)
    ensures v in pages && AreaTrackers(areas)[v] == pages[v]
  {
    hide PathOf, Spaces.MapEntry;
    var n := |areas| - 1;
    if v in AreaTrackers(areas[..n]) { AreaTrackersOwn(areas[..n], pages, m, v); }
    if !KernelArea(areas[n]) { assert AreaOk(areas[n], pages, m); }
  }

  lemma TrackersHeld(areas: seq<Area>, heap: map<nat, nat>, mmap: map<nat, nat>, pages: map<nat, nat>, m: Mapping, n: nat, recycled: seq<nat>)
    requires PartsOk(areas, heap, mmap, pages, m) && NewPages(pages, n) && forall p | p in recycled :: p < n
    ensures HeldOk(Trackers(areas, heap, mmap), pages, recycled)
  {
    hide AreaOk, AreaTrackers;
    forall v | v in AreaTrackers(areas) ensures v in pages && AreaTrackers(areas)[v] == pages[v] {
      AreaTrackersOwn(areas, pages, m, v);
    }
  }

  /** What fork shows the child of the parent's view: the same bytes; the same permissions in the
      areas, and user, read and write in heap and mmap pages. */
  ghost function ForkView(view: View, areaPages: set<nat>, framePages: set<nat>): View
  {
    map v | v in view && v in areaPages + framePages ::
      PageView(if v in areaPages then view[v].flags else Spaces.MapEntry(0, USER_RW).flags, view[v].bytes)
  }

  /** A heap or mmap page looks the same to the child exactly if the parent had mapped it
      user, read and write: execute permission, which `mmap` gives, is lost. */
  lemma ForkSameIff(view: View, areaPages: set<nat>, framePages: set<nat>, v: nat, ppn: nat, perm: Flags)
    requires v in view && v in framePages && v !in areaPages && view[v].flags == Spaces.MapEntry(ppn, perm).flags
    ensures ForkView(view, areaPages, framePages)[v] == view[v] <==> perm.r && perm.w && perm.u && !perm.x && !perm.g
    ensures perm == USER_RWX ==> ForkView(view, areaPages, framePages)[v] != view[v]
  {
    var w := ForkView(view, areaPages, framePages);
    assert w[v] == PageView(Spaces.MapEntry(0, USER_RW).flags, view[v].bytes);
  }

  /** Every page of a user area is in an area the child has too. */
  lemma {:induction false} InUserArea(areas: seq<Area>, v: nat) returns (i: nat, k: nat)
    requires v in AreaPages(areas)
    ensures i < |areas| && !KernelArea(areas[i]) && k < |UserAreas(areas)| && UserAreas(areas)[k] == areas[i] && v in areas[i].frames
  {
    var n := |areas| - 1;
    if v in AreaPages(areas[..n]) {
      i, k := InUserArea(areas[..n], v);
      assert areas[..n][i] == areas[i];
    } else {
      i, k := n, |UserAreas(areas)| - 1;
    }
  }

  lemma AreaFlags(areas: seq<Area>, child: seq<Area>, pages: map<nat, nat>, m: Mapping, pages': map<nat, nat>, m': Mapping, v: nat)
    requires forall i | 0 <= i < |areas| :: KernelArea(areas[i]) || AreaOk(areas[i], pages, m)
    requires forall i | 0 <= i < |child| :: KernelArea(child[i]) || AreaOk(child[i], pages', m')
    requires SameAreas(UserAreas(areas), child) && v in AreaPages(areas)
    ensures FlagsAt(m', PathOf(v)) == FlagsAt(m, PathOf(v))
  {
    hide PathOf, UserAreas, AreaPages;
    var i, k := InUserArea(areas, v);
    assert AreaOk(areas[i], pages, m) && AreaOk(child[k], pages', m');
  }

  /** The child was given copies of the parent's pages, with these entries. */
  ghost predicate Forked(f: Frames, pages: map<nat, nat>, m: Mapping, areas: seq<Area>, f': Frames, pages': map<nat, nat>, m': Mapping,
                         child: seq<Area>, heap: map<nat, nat>, mmap: map<nat, nat>)
  {
    && (forall i | 0 <= i < |areas| :: KernelArea(areas[i]) || AreaOk(areas[i], pages, m))
    && (forall i | 0 <= i < |child| :: KernelArea(child[i]) || AreaOk(child[i], pages', m'))
    && SameAreas(UserAreas(areas), child) && pages'.Keys == AreaPages(areas) + heap.Keys + mmap.Keys
    && Copied(f, pages, f', pages', pages'.Keys) && FramesMapped(heap, m', USER_RW) && FramesMapped(mmap, m', USER_RW)
  }

  lemma ForkedPage(f: Frames, pages: map<nat, nat>, m: Mapping, areas: seq<Area>, f': Frames, pages': map<nat, nat>, m': Mapping,
                   child: seq<Area>, heap: map<nat, nat>, mmap: map<nat, nat>, v: nat)
    requires Forked(f, pages, m, areas, f', pages', m', child, heap, mmap) && v in pages'
    ensures v in pages && BytesAt(f', pages'[v]) == BytesAt(f, pages[v])
    ensures FlagsAt(m', PathOf(v)) == if v in AreaPages(areas) then FlagsAt(m, PathOf(v)) else Spaces.MapEntry(0, USER_RW).flags
  {
    hide PathOf, UserAreas, AreaPages, AreaOk, SameAreas;
    if v in AreaPages(areas) { AreaFlags(areas, child, pages, m, pages', m', v); }
  }

  lemma ForkSees(f: Frames, pages: map<nat, nat>, m: Mapping, areas: seq<Area>, f': Frames, pages': map<nat, nat>, m': Mapping,
                 child: seq<Area>, heap: map<nat, nat>, mmap: map<nat, nat>)
    requires Forked(f, pages, m, areas, f', pages', m', child, heap, mmap)
    ensures ViewOf(f', m', pages') == ForkView(ViewOf(f, m, pages), AreaPages(areas), heap.Keys + mmap.Keys)
  {
    hide PathOf, AreaPages, Forked, FlagsAt, BytesAt;
    assert pages'.Keys == AreaPages(areas) + heap.Keys + mmap.Keys by { ForkedKeys(f, pages, m, areas, f', pages', m', child, heap, mmap); }
    forall v | v in pages'
      ensures v in pages && BytesAt(f', pages'[v]) == BytesAt(f, pages[v])
      ensures FlagsAt(m', PathOf(v)) == if v in AreaPages(areas) then FlagsAt(m, PathOf(v)) else Spaces.MapEntry(0, USER_RW).flags
    {
      ForkedPage(f, pages, m, areas, f', pages', m', child, heap, mmap, v);
    }
  }

  lemma ForkedKeys(f: Frames, pages: map<nat, nat>, m: Mapping, areas: seq<Area>, f': Frames, pages': map<nat, nat>, m': Mapping,
                   child: seq<Area>, heap: map<nat, nat>, mmap: map<nat, nat>)
    requires Forked(f, pages, m, areas, f', pages', m', child, heap, mmap)
    ensures pages'.Keys == AreaPages(areas) + heap.Keys + mmap.Keys
  {
    hide PathOf, UserAreas, AreaPages, AreaOk, SameAreas;
  }

  lemma PartsAreas(areas: seq<Area>, heap: map<nat, nat>, mmap: map<nat, nat>, pages: map<nat, nat>, m: Mapping)
    requires PartsOk(areas, heap, mmap, pages, m)
    ensures forall i | 0 <= i < |areas| :: KernelArea(areas[i]) || AreaOk(areas[i], pages, m)
  {
  }

  lemma ForkHoldings(t: Tree, pages: map<nat, nat>, m: Mapping, n: nat, t': Tree, pages': map<nat, nat>)
    requires Below(t, n) && PagesOk(pages, m, Owned(t), n) && AllAbove(Owned(t'), n) && NewPages(pages', n)
    ensures Holdings(t, pages) !! Holdings(t', pages')
  {
    hide Owned, PathOf;
  }

  lemma ViewKept(f: Frames, f': Frames, m: Mapping, pages: map<nat, nat>, tables: set<nat>, n: nat)
    requires KeptBelow(f, f', n) && PagesOk(pages, m, tables, n) && forall v | v in pages :: pages[v] in f
    ensures ViewOf(f', m, pages) == ViewOf(f, m, pages)
  {
    hide PathOf;
  }

  lemma AllOwn(m: Mapping, pages: map<nat, nat>)
    requires Only(m, pages)
    ensures OnlyThese(m, pages, {})
  {
    hide PathOf;
  }

  lemma ParentFacts(mem: Machine, s: MemorySet)
    requires s.Valid(mem)
    ensures mem.Valid() && Below(s.pt.tree, mem.current) && PartsOk(s.areas, s.heap, s.mmap, s.pages, s.pt.mapping)
    ensures PagesOk(s.pages, s.pt.mapping, Owned(s.pt.tree), mem.current) && Space(mem, s.pt, s.pages, 0)
  {
    hide Represents, Owned, PathOf, PartsOk;
  }

  /** The parent and the child as processes. */
  method Fork(mem: Machine, kernelRoot: nat, parent: MemorySet, ghost foreign: set<nat>) returns (p: UserSpace, child: UserSpace?)
    requires parent.Valid(mem) && kernelRoot < mem.current && OnlyThese(parent.pt.mapping, parent.pages, foreign)
    requires HeldOk(Trackers(parent.areas, parent.heap, parent.mmap), parent.pages, mem.recycled)
    modifies mem
    ensures fresh(p) && p.pt == parent.pt && p.pages == parent.pages && p.foreign == foreign
    ensures child == null ==> mem.current + 2 > mem.end
    ensures child != null ==> fresh(child) && fresh(child.pt) && child.foreign == {} && Apart(mem, p, child)
    ensures child != null ==> p.Sees(mem) == old(ViewOf(mem.frames, parent.pt.mapping, parent.pages))
    ensures child != null ==>
      (child.Sees(mem) ==
       ForkView(old(ViewOf(mem.frames, parent.pt.mapping, parent.pages)), AreaPages(parent.areas), parent.heap.Keys + parent.mmap.Keys))
  {
    hide Space, OnlyThese, HeldOk, ViewOf, Holdings, PartsOk, PagesOk, Below, Owned, AreaPages, UserAreas, SameAreas, Copied, FramesMapped,
         ForkView, Trackers, AllAbove, NewPages, MemorySet.Valid, KeptBelow, AreaOk, KernelArea;
    ghost var f0, n0, m0 := mem.frames, mem.current, parent.pt.mapping;
    ParentFacts(mem, parent);
    SpaceFacts(mem, parent.pt, parent.pages);
    PartsAreas(parent.areas, parent.heap, parent.mmap, parent.pages, m0);
    p := new UserSpace(parent.pt, Trackers(parent.areas, parent.heap, parent.mmap), parent.mmap.Keys, parent.pages, foreign);
    child := null;
    var c := FromExistedUser(mem, kernelRoot, parent);
    if c == null {
      return;
    }
    ParentFacts(mem, parent);
    ParentFacts(mem, c);
    PartsAreas(c.areas, c.heap, c.mmap, c.pages, c.pt.mapping);
    ViewKept(f0, mem.frames, m0, parent.pages, Owned(parent.pt.tree), n0);
    ForkHoldings(parent.pt.tree, parent.pages, m0, n0, c.pt.tree, c.pages);
    TrackersHeld(c.areas, c.heap, c.mmap, c.pages, c.pt.mapping, n0, mem.recycled);
    ForkSees(f0, parent.pages, m0, parent.areas, mem.frames, c.pages, c.pt.mapping, c.areas, c.heap, c.mmap);
    AllOwn(c.pt.mapping, c.pages);
    child := new UserSpace(c.pt, Trackers(c.areas, c.heap, c.mmap), c.mmap.Keys, c.pages, {});
  }

  /** Fork, and then anything the two processes do (`true` marks the parent's operations): the
      parent sees its own pages changed by its own operations, the child the fork of the parent's
      pages changed by its own. */
  method ForkThenRun(mem: Machine, kernelRoot: nat, parent: MemorySet, ops: seq<(bool, Op)>, ghost foreign: set<nat>)
    returns (p: UserSpace, child: UserSpace?, done: nat)
    requires parent.Valid(mem) && kernelRoot < mem.current && OnlyThese(parent.pt.mapping, parent.pages, foreign)
    requires HeldOk(Trackers(parent.areas, parent.heap, parent.mmap), parent.pages, mem.recycled)
    requires forall i | 0 <= i < |ops| :: UserOp(ops[i].1, if ops[i].0 then foreign else {})
    modifies mem, parent.pt
    ensures p.pt == parent.pt
    ensures child == null ==> mem.current + 2 > mem.end
    ensures child != null && done < |ops| ==>
      (mem.current + 2 > mem.end ||
       Refused(After(if ops[done].0 then old(ViewOf(mem.frames, parent.pt.mapping, parent.pages))
                     else ForkView(old(ViewOf(mem.frames, parent.pt.mapping, parent.pages)), AreaPages(parent.areas), parent.heap.Keys + parent.mmap.Keys),
                     Mine(ops[..done], ops[done].0)), ops[done].1))
    ensures child != null && done == |ops| ==> Apart(mem, p, child)
    ensures child != null && done == |ops| ==>
      p.Sees(mem) == After(old(ViewOf(mem.frames, parent.pt.mapping, parent.pages)), Mine(ops, true))
    ensures child != null && done == |ops| ==>
      (child.Sees(mem) == After(ForkView(old(ViewOf(mem.frames, parent.pt.mapping, parent.pages)), AreaPages(parent.areas),
                                         parent.heap.Keys + parent.mmap.Keys), Mine(ops, false)))
  {
    hide Apart, OnlyThese, HeldOk, ViewOf, MemorySet.Valid, AreaPages, ForkView, After, Mine, UserOp, UserSpace.Sees, Trackers, Refused;
    p, child := Fork(mem, kernelRoot, parent, foreign);
    if child == null {
      done := 0;
    } else {
      done := RunBoth(mem, p, child, ops);
    }
  }

  // ---- from boot to the first fork

  ghost function BlankArea(start: nat, end: nat, perm: Flags): View
  {
    map v | v in Upto(start, end) :: PageView(Spaces.MapEntry(0, perm).flags, ZeroPage())
  }

  /** A machine at boot: the frame allocator, and the root of the kernel's table. */
  method Boot(frames: Frames, l: nat, r: nat) returns (mem: Machine, kernelRoot: Option<nat>)
    requires FramesOk(frames) && l <= r <= TWO44 && forall i | 0 <= i < r :: i in frames
    ensures fresh(mem) && mem.Valid() && mem.recycled == []
    ensures kernelRoot.None? ==> mem.current + 2 > mem.end
    ensures kernelRoot.Some? ==> kernelRoot.value < mem.current
  {
    mem := new Machine(frames, l, r);
    kernelRoot := mem.FrameAlloc();
  }

  /** A process with one area. */
  method Spawn(mem: Machine, kernelRoot: nat, start: nat, end: nat, perm: Flags) returns (space: MemorySet?)
    requires mem.Valid() && kernelRoot < mem.current && start <= end <= TWO26
    modifies mem
    ensures mem.Valid() && mem.recycled == old(mem.recycled) && kernelRoot < mem.current
    ensures space == null ==> mem.current + 2 > mem.end
    ensures space != null ==> fresh(space) && fresh(space.pt) && space.Valid(mem) && Only(space.pt.mapping, space.pages)
    ensures space != null ==> |space.areas| == 1 && space.heap == map[] && space.mmap == map[]
    ensures space != null ==> AreaIs(space.areas[0], space.pages, space.pt.mapping, mem.frames, start, end, perm)
  {
    hide Space, Owned, PathOf, AreaOk, NewIn, ZeroPages, OnlyThese, Represents, PartsOk;
    space := null;
    var root := mem.FrameAlloc();
    if root.None? {
      return;
    }
    var pt := new PageTable.NewProcess(mem, root.value, kernelRoot);
    EmptySpace(mem, pt);
    var ok, area, pages := MapArea(mem, pt, Area(start, end, true, perm, map[]), map[], 0);
    if !ok {
      return;
    }
    OneArea(area, pages, pt.mapping);
    space := new MemorySet(pt, [area], map[], map[], 0, pages);
  }

  ghost predicate AreaIs(area: Area, pages: map<nat, nat>, m: Mapping, f: Frames, start: nat, end: nat, perm: Flags)
  {
    AreaOk(area, pages, m) && ZeroPages(f, area.frames) && area.start == start && area.end == end && area.perm == perm && pages == area.frames
  }

  /** From boot to the first fork: parent and child both see the parent's one area, zeroed. */
  method BootAndFork(frames: Frames, l: nat, r: nat, start: nat, end: nat, perm: Flags) returns (mem: Machine, p: UserSpace?, child: UserSpace?)
    requires FramesOk(frames) && l <= r <= TWO44 && (forall i | 0 <= i < r :: i in frames) && start <= end <= TWO26
    ensures p == null || child == null ==> mem.current + 2 > mem.end
    ensures p != null && child != null ==> Apart(mem, p, child)
    ensures p != null && child != null ==> p.Sees(mem) == BlankArea(start, end, perm) && child.Sees(mem) == BlankArea(start, end, perm)
  {
    hide OnlyThese, HeldOk, ViewOf, BlankArea, Apart, AreaPages, ForkView, Trackers, MemorySet.Valid, AreaIs;
    p, child := null, null;
    var kernelRoot;
    mem, kernelRoot := Boot(frames, l, r);
    if kernelRoot.None? {
      return;
    }
    var space := Spawn(mem, kernelRoot.value, start, end, perm);
    if space == null {
      return;
    }
    assert space.heap.Keys + space.mmap.Keys == {};
    BlankView(space.areas, space.pages, space.pt.mapping, mem.frames, start, end, perm);
    AllOwn(space.pt.mapping, space.pages);
    p, child := Fork(mem, kernelRoot.value, space, {});
  }

  lemma EmptySpace(mem: Machine, pt: PageTable)
    requires mem.Valid() && pt.Valid(mem) && pt.lim == 256 && pt.mapping == map[]
    ensures Space(mem, pt, map[], 0)
  {
    hide Represents, Owned, PathOf;
  }

  lemma OneArea(area: Area, pages: map<nat, nat>, m: Mapping)
    requires AreaOk(area, pages, m) && pages == area.frames && NewIn(map[], m, area.start, area.end)
    ensures PartsOk([area], map[], map[], pages, m) && Only(m, pages)
  {
    hide PathOf, Spaces.MapEntry;
    assert !KernelArea(area);
  }

  lemma BlankView(areas: seq<Area>, pages: map<nat, nat>, m: Mapping, f: Frames, start: nat, end: nat, perm: Flags)
    requires |areas| == 1 && AreaIs(areas[0], pages, m, f, start, end, perm)
    ensures ViewOf(f, m, pages) == BlankArea(start, end, perm) && HeldOk(Trackers(areas, map[], map[]), pages, [])
    ensures ForkView(ViewOf(f, m, pages), AreaPages(areas), {}) == ViewOf(f, m, pages)
  {
    hide PathOf;
    var none: seq<Area> := areas[..0];
    assert none == [] && AreaTrackers(none) == map[] && AreaPages(none) == {};
    assert AreaTrackers(areas) == areas[0].frames && AreaPages(areas) == areas[0].frames.Keys;
    forall v ensures v in pages <==> v in Upto(start, end) { }
    assert ViewOf(f, m, pages).Keys == BlankArea(start, end, perm).Keys;
  }
}
