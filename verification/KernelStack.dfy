/** Kernel stacks above MEMORY_END (os/src/task/res.rs, os/src/mm/memory_set.rs). The kernel page
    table appears as the map that module Spaces proves it to be. */
module KernelStacks {
  import opened Sv39
  import opened Recycle

  const STACK_PAGES: nat := 8
  /** Eight pages and a guard page. */
  const STRIDE: nat := 9
  /** Page number of MEMORY_END, 0xffff_ffc0_88000000. */
  const BASE: nat := 0xFFFFFFC088000
  /** One past the last physical page number. */
  const FRAMES_END: nat := 0x88000

  /** First page of a stack. */
  function Start(id: nat): nat { BASE + STRIDE * id }
  /** Which stack's stretch a page lies in, and where. */
  function Slot(v: nat): nat requires v >= BASE { (v - BASE) / STRIDE }
  function Offset(v: nat): nat requires v >= BASE { (v - BASE) % STRIDE }

  lemma Place(v: nat, id: nat)
    requires v >= BASE
    ensures Start(id) <= v < Start(id) + STACK_PAGES <==> Slot(v) == id && Offset(v) < STACK_PAGES
    ensures v == Start(id) <==> Slot(v) == id && Offset(v) == 0
    ensures v == Start(Slot(v)) + Offset(v) && Offset(v) < STRIDE
  {
  }

  /** `kernel_stack_position`: from MEMORY_END on, 32 KiB each with a page in between. */
  lemma Position(id: nat)
    ensures PAGE_SIZE * Start(id) == 0xffff_ffc0_8800_0000 + id * (4096 * 8 + 4096)
    ensures PAGE_SIZE * (Start(id) + STACK_PAGES) == PAGE_SIZE * Start(id) + 4096 * 8
    ensures PAGE_SIZE * FRAMES_END == 0xffff_ffc0_8800_0000 - 0xffff_ffc0_0000_0000
  {
  }

  datatype Area = Area(start: nat, end: nat, frames: map<nat, nat>)

  /** `mapped` is the kernel's page map; frames below `next` have been handed out, none twice. */
  datatype Kern = Kern(ids: Ids, mapped: map<nat, nat>, areas: seq<Area>, next: nat, recycled: seq<nat>)

  // ---- what the operations do

  /** The pages of a stack with the frames `ppns`. */
  function Pages(start: nat, ppns: seq<nat>): (m: map<nat, nat>)
    ensures forall v :: v in m <==> start <= v < start + |ppns|
    ensures forall v | v in m :: m[v] == ppns[v - start]
  {
    if ppns == [] then map[] else var n := |ppns| - 1; Pages(start, ppns[..n])[start + n := ppns[n]]
  }

  /** The map without `n` pages from `start` on. */
  function Unmapped(m: map<nat, nat>, start: nat, n: nat): (r: map<nat, nat>)
    ensures forall v :: v in r <==> v in m && !(start <= v < start + n)
    ensures forall v | v in r :: r[v] == m[v]
  {
    if n == 0 then m else Unmapped(m, start, n - 1) - {start + n - 1}
  }

  function AllocStack(y: Kern, ppns: seq<nat>, next': nat): Kern
  {
    var a := Alloc(y.ids);
    var pages := Pages(Start(a.1), ppns);
    Kern(a.0, y.mapped + pages, y.areas + [Area(Start(a.1), Start(a.1) + |ppns|, pages)], next', y.recycled)
  }

  /** The first area that starts at `start`; the number of areas if none does. */
  function FindArea(areas: seq<Area>, start: nat): (k: nat)
    ensures k <= |areas| && (k < |areas| ==> areas[k].start == start) && forall i | 0 <= i < k :: areas[i].start != start
  {
    if areas == [] then 0 else if areas[0].start == start then 0 else 1 + FindArea(areas[1..], start)
  }

  function Without(areas: seq<Area>, k: nat): (r: seq<Area>)
    requires k < |areas|
  {
    areas[..k] + areas[k + 1..]
  }

  /** The frames behind the pages, in page order. */
  function Behind(start: nat, n: nat, frames: map<nat, nat>): (s: seq<nat>)
    ensures |s| == n && forall i | 0 <= i < n :: s[i] == if start + i in frames then frames[start + i] else 0
  {
    seq(n, i requires 0 <= i < n => if start + i in frames then frames[start + i] else 0)
  }

  function DropStack(y: Kern, id: nat): Kern
    requires Dealloc(y.ids, id).Some?
  {
    var k := FindArea(y.areas, Start(id));
    if k == |y.areas| then Kern(Dealloc(y.ids, id).value, y.mapped, y.areas, y.next, y.recycled)
    else
      Kern(Dealloc(y.ids, id).value, Unmapped(y.mapped, Start(id), STACK_PAGES), Without(y.areas, k),
           y.next, y.recycled + Behind(Start(id), STACK_PAGES, y.areas[k].frames))
  }

  // ---- the invariant

  ghost predicate PageOk(y: Kern, v: nat)
  {
    v >= BASE ==>
      && (v in y.mapped <==> Offset(v) < STACK_PAGES && Live(y.ids, Slot(v)))
      && (v in y.mapped ==> y.mapped[v] < y.next && y.mapped[v] !in y.recycled)
  }

  ghost predicate FramesApart(y: Kern)
  {
    forall v, w | v in y.mapped && w in y.mapped && BASE <= v < w :: y.mapped[v] != y.mapped[w]
  }

  /** A live stack has its area, holding the frames its pages are mapped to. */
  ghost predicate StackOk(y: Kern, id: nat)
  {
    var k := FindArea(y.areas, Start(id));
    k < |y.areas| && y.areas[k].end == Start(id) + STACK_PAGES
    && forall v | Start(id) <= v < Start(id) + STACK_PAGES :: v in y.areas[k].frames && v in y.mapped && y.areas[k].frames[v] == y.mapped[v]
  }

  ghost predicate AreaOk(y: Kern, i: nat)
    requires i < |y.areas|
  {
    y.areas[i].start >= BASE ==> Offset(y.areas[i].start) == 0 && Live(y.ids, Slot(y.areas[i].start))
  }

  ghost predicate StartsApart(areas: seq<Area>)
  {
    forall i, j | 0 <= i < j < |areas| :: areas[i].start != areas[j].start
  }

  ghost predicate Inv(y: Kern)
  {
    && IdsOk(y.ids) && STACK_PAGES * y.ids.current <= y.next <= FRAMES_END
    && (forall i | 0 <= i < |y.recycled| :: y.recycled[i] < y.next)
    && (forall v: nat :: PageOk(y, v)) && FramesApart(y)
    && (forall id | Live(y.ids, id) :: StackOk(y, id))
    && (forall i | 0 <= i < |y.areas| :: AreaOk(y, i)) && StartsApart(y.areas)
  }

  /** The frames a `kstack_alloc` takes: new ones, in order, with page-table frames in between. */
  ghost predicate NewFrames(y: Kern, ppns: seq<nat>, next': nat)
  {
    && |ppns| == STACK_PAGES && y.next + STACK_PAGES <= next' <= FRAMES_END
    && (forall i | 0 <= i < |ppns| :: y.next <= ppns[i] < next')
    && (forall i, j | 0 <= i < j < |ppns| :: ppns[i] < ppns[j])
  }

  lemma FindAppended(areas: seq<Area>, a: Area, start: nat)
    ensures FindArea(areas + [a], start) == if FindArea(areas, start) < |areas| then FindArea(areas, start) else if a.start == start then |areas| else |areas| + 1
  {
    if areas == [] {
      assert areas + [a] == [a];
    } else {
      assert (areas + [a])[1..] == areas[1..] + [a];
      FindAppended(areas[1..], a, start);
    }
  }

  /** The area of a start that occurs is found where it is. */
  lemma FindThere(areas: seq<Area>, i: nat)
    requires StartsApart(areas) && i < |areas|
    ensures FindArea(areas, areas[i].start) == i
  {
  }

  /** The pages of a fresh id are not mapped, so the assertion of `map` cannot fire. */
  lemma FreshUnmapped(y: Kern, v: nat)
    requires Inv(y) && Start(Alloc(y.ids).1) <= v < Start(Alloc(y.ids).1) + STACK_PAGES
    ensures v !in y.mapped
  {
    hide Slot, Offset, Alloc;
    AllocLive(y.ids);
    Place(v, Alloc(y.ids).1);
    assert PageOk(y, v);
  }

  lemma AllocPage(y: Kern, ppns: seq<nat>, next': nat, v: nat)
    requires Inv(y) && NewFrames(y, ppns, next')
    ensures PageOk(AllocStack(y, ppns, next'), v)
  {
    hide Slot, Offset, Alloc;
    AllocLive(y.ids);
    assert PageOk(y, v);
    if v >= BASE { Place(v, Alloc(y.ids).1); }
  }

  lemma AllocApart(y: Kern, ppns: seq<nat>, next': nat)
    requires Inv(y) && NewFrames(y, ppns, next')
    ensures FramesApart(AllocStack(y, ppns, next'))
  {
    hide Slot, Offset, Alloc, StackOk, AreaOk, Live;
    var y' := AllocStack(y, ppns, next');
    var pages := Pages(Start(Alloc(y.ids).1), ppns);
    forall v | v in y.mapped && v >= BASE ensures y.mapped[v] < y.next { assert PageOk(y, v); }
    forall v, w | v in y'.mapped && w in y'.mapped && BASE <= v < w ensures y'.mapped[v] != y'.mapped[w] {
      if v in pages && w in pages {
        assert ppns[v - Start(Alloc(y.ids).1)] < ppns[w - Start(Alloc(y.ids).1)];
      }
    }
  }

  lemma AllocStackOk(y: Kern, ppns: seq<nat>, next': nat, id: nat)
    requires Inv(y) && NewFrames(y, ppns, next') && Live(AllocStack(y, ppns, next').ids, id)
    ensures StackOk(AllocStack(y, ppns, next'), id)
  {
    hide Slot, Offset, Alloc, PageOk;
    AllocLive(y.ids);
    var newId := Alloc(y.ids).1;
    var area := Area(Start(newId), Start(newId) + |ppns|, Pages(Start(newId), ppns));
    FindAppended(y.areas, area, Start(id));
    if id == newId {
      NoArea(y, id);
    } else {
      assert StackOk(y, id);
      var k := FindArea(y.areas, Start(id));
      assert (y.areas + [area])[k] == y.areas[k];
      forall v | Start(id) <= v < Start(id) + STACK_PAGES ensures v !in area.frames {}
    }
  }

  lemma NoArea(y: Kern, id: nat)
    requires Inv(y) && !Live(y.ids, id)
    ensures FindArea(y.areas, Start(id)) == |y.areas|
    ensures forall i | 0 <= i < |y.areas| :: y.areas[i].start != Start(id)
  {
    hide Slot, Offset;
    forall i | 0 <= i < |y.areas| ensures y.areas[i].start != Start(id) {
      assert AreaOk(y, i);
      if y.areas[i].start >= BASE { Place(y.areas[i].start, id); }
    }
  }

  lemma AllocKeeps(y: Kern, ppns: seq<nat>, next': nat)
    requires Inv(y) && NewFrames(y, ppns, next')
    ensures Inv(AllocStack(y, ppns, next'))
  {
    hide Slot, Offset, StackOk, PageOk, FramesApart, Live, IdsOk;
    AllocLive(y.ids);
    var y' := AllocStack(y, ppns, next');
    forall v: nat ensures PageOk(y', v) { AllocPage(y, ppns, next', v); }
    AllocApart(y, ppns, next');
    forall id | Live(y'.ids, id) ensures StackOk(y', id) { AllocStackOk(y, ppns, next', id); }
    NoArea(y, Alloc(y.ids).1);
    var n := |y.areas|;
    forall i | 0 <= i < |y'.areas| ensures AreaOk(y', i) {
      if i < n { assert AreaOk(y, i); } else { Place(y'.areas[i].start, Alloc(y.ids).1); }
    }
  }

  /** A new stack maps its eight pages to the new frames, in order, and nothing else. */
  lemma AllocAt(y: Kern, ppns: seq<nat>, next': nat)
    requires Inv(y) && NewFrames(y, ppns, next')
    ensures var y', start := AllocStack(y, ppns, next'), Start(Alloc(y.ids).1);
            && (forall v | start <= v < start + 8 :: v !in y.mapped && v in y'.mapped && y'.mapped[v] == ppns[v - start])
            && (forall v | !(start <= v < start + 8) :: (v in y'.mapped <==> v in y.mapped) && (v in y.mapped ==> y'.mapped[v] == y.mapped[v]))
            && y'.recycled == y.recycled && y'.next == next' && !Live(y.ids, Alloc(y.ids).1) && Live(y'.ids, Alloc(y.ids).1)
  {
    hide Inv, Slot, Offset, Alloc;
    IdsFine(y);
    AllocLive(y.ids);
    var start := Start(Alloc(y.ids).1);
    forall v | start <= v < start + 8 ensures v !in y.mapped { FreshUnmapped(y, v); }
  }

  lemma IdsFine(y: Kern)
    requires Inv(y)
    ensures IdsOk(y.ids)
  {
  }

  // ---- dropping

  /** A dropped stack gives back exactly the frames behind its pages, in order, and unmaps exactly
      those pages. */
  lemma DropAt(y: Kern, id: nat)
    requires Inv(y) && Live(y.ids, id) && Dealloc(y.ids, id).Some?
    ensures var y', start := DropStack(y, id), Start(id);
            && |y'.recycled| == |y.recycled| + 8 && y'.recycled[..|y.recycled|] == y.recycled && y'.next == y.next && !Live(y'.ids, id)
            && (forall v | start <= v < start + 8 :: v in y.mapped && y'.recycled[|y.recycled| + (v - start)] == y.mapped[v])
            && (forall v :: v in y'.mapped <==> v in y.mapped && !(start <= v < start + 8))
            && (forall v | v in y'.mapped :: y'.mapped[v] == y.mapped[v]) && |y'.areas| == |y.areas| - 1
  {
    hide Inv, Slot, Offset, FindArea;
    IdsFine(y);
    DeallocLive(y.ids, id);
    DropFine(y, id);
  }

  /** Neither `unmap` nor the frame allocator objects: the pages are mapped, and their frames are
      handed out, not given back, and different. */
  lemma DropFine(y: Kern, id: nat)
    requires Inv(y) && Live(y.ids, id)
    ensures var k := FindArea(y.areas, Start(id));
            k < |y.areas| && y.areas[k].end == Start(id) + STACK_PAGES
    ensures var frames := y.areas[FindArea(y.areas, Start(id))].frames;
            && (forall v | Start(id) <= v < Start(id) + STACK_PAGES :: v in y.mapped && v in frames && frames[v] == y.mapped[v] && frames[v] < y.next && frames[v] !in y.recycled)
            && (forall v, w | Start(id) <= v < w < Start(id) + STACK_PAGES :: frames[v] != frames[w])
  {
    hide Slot, Offset;
    assert StackOk(y, id);
    forall v | Start(id) <= v < Start(id) + STACK_PAGES ensures v in y.mapped && y.mapped[v] < y.next && y.mapped[v] !in y.recycled {
      assert PageOk(y, v);
    }
  }

  lemma DropPage(y: Kern, id: nat, v: nat)
    requires Inv(y) && Live(y.ids, id) && Dealloc(y.ids, id).Some?
    ensures PageOk(DropStack(y, id), v)
  {
    hide Slot, Offset, Inv, FindArea;
    DropFine(y, id);
    Facts(y, v);
    DeallocLive(y.ids, id);
    if v >= BASE {
      Place(v, id);
      var frames := y.areas[FindArea(y.areas, Start(id))].frames;
      var gone := Behind(Start(id), STACK_PAGES, frames);
      forall i | 0 <= i < |gone| && v in y.mapped && !(Start(id) <= v < Start(id) + STACK_PAGES) ensures gone[i] != y.mapped[v] {
        Different(y, Start(id) + i, v);
      }
    }
  }

  lemma Facts(y: Kern, v: nat)
    requires Inv(y)
    ensures PageOk(y, v) && IdsOk(y.ids)
  {
  }

  lemma Different(y: Kern, v: nat, w: nat)
    requires Inv(y) && v in y.mapped && w in y.mapped && v >= BASE && w >= BASE && v != w
    ensures y.mapped[v] != y.mapped[w]
  {
  }

  lemma FindRemoved(areas: seq<Area>, k: nat, start: nat)
    requires StartsApart(areas) && k < |areas| && start != areas[k].start
    ensures var rest := Without(areas, k);
            FindArea(areas, start) < |areas| ==> FindArea(rest, start) < |rest| && rest[FindArea(rest, start)] == areas[FindArea(areas, start)]
  {
    var rest := Without(areas, k);
    var i := FindArea(areas, start);
    if i < |areas| {
      RestApart(areas, k);
      var j := if i < k then i else i - 1;
      assert rest[j] == areas[i];
      FindThere(rest, j);
    }
  }

  lemma RestApart(areas: seq<Area>, k: nat)
    requires StartsApart(areas) && k < |areas|
    ensures StartsApart(Without(areas, k))
    ensures forall i | 0 <= i < |Without(areas, k)| :: Without(areas, k)[i] == areas[if i < k then i else i + 1]
  {
  }

  lemma DropStackOk(y: Kern, id: nat, other: nat)
    requires Inv(y) && Live(y.ids, id) && Dealloc(y.ids, id).Some? && Live(y.ids, other) && other != id
    ensures StackOk(DropStack(y, id), other)
  {
    hide Slot, Offset, PageOk, AreaOk, IdsOk;
    DropFine(y, id);
    assert StackOk(y, other);
    FindRemoved(y.areas, FindArea(y.areas, Start(id)), Start(other));
  }

  lemma DropKeeps(y: Kern, id: nat)
    requires Inv(y) && Live(y.ids, id)
    ensures Dealloc(y.ids, id).Some? && Inv(DropStack(y, id))
  {
    hide Slot, Offset, StackOk, PageOk, IdsOk, Live, FindArea, Dealloc;
    DeallocLive(y.ids, id);
    DeallocCurrent(y.ids, id);
    DropFine(y, id);
    var y' := DropStack(y, id);
    var k := FindArea(y.areas, Start(id));
    forall v: nat ensures PageOk(y', v) { DropPage(y, id, v); }
    forall other | Live(y'.ids, other) ensures StackOk(y', other) { DropStackOk(y, id, other); }
    RestApart(y.areas, k);
    forall i | 0 <= i < |y'.areas| ensures AreaOk(y', i) {
      var j := if i < k then i else i + 1;
      assert AreaOk(y, j) && y.areas[j].start != Start(id);
      if y.areas[j].start >= BASE { Place(y.areas[j].start, id); }
    }
  }

  lemma DeallocCurrent(a: Ids, id: nat)
    requires Dealloc(a, id).Some?
    ensures Dealloc(a, id).value.current == a.current
  {
  }

  // ---- runs

  datatype Op = OpAlloc(ppns: seq<nat>, next: nat) | OpDrop(id: nat) | OpOther(next: nat, freed: seq<nat>)

  /** The rest of the kernel takes new frames and gives back frames of its own. */
  ghost predicate OthersOk(y: Kern, next': nat, freed: seq<nat>)
  {
    && y.next <= next' <= FRAMES_END && (forall i | 0 <= i < |freed| :: freed[i] < next')
    && (forall v | v in y.mapped && v >= BASE :: y.mapped[v] !in freed)
  }

  /** A stack is dropped once, by its owner. */
  ghost predicate Enabled(y: Kern, op: Op)
  {
    match op
    case OpAlloc(ppns, next') => NewFrames(y, ppns, next')
    case OpDrop(id) => Live(y.ids, id) && Dealloc(y.ids, id).Some?
    case OpOther(next', freed) => OthersOk(y, next', freed)
  }

  ghost function Step(y: Kern, op: Op): Kern
    requires Enabled(y, op)
  {
    match op
    case OpAlloc(ppns, next') => AllocStack(y, ppns, next')
    case OpDrop(id) => DropStack(y, id)
    case OpOther(next', freed) => Kern(y.ids, y.mapped, y.areas, next', y.recycled + freed)
  }

  ghost predicate Legal(y: Kern, ops: seq<Op>)
    decreases |ops|
  {
    ops == [] || (Enabled(y, ops[0]) && Legal(Step(y, ops[0]), ops[1..]))
  }

  ghost function Run(y: Kern, ops: seq<Op>): Kern
    requires Legal(y, ops)
    decreases |ops|
  {
    if ops == [] then y else Run(Step(y, ops[0]), ops[1..])
  }

  /** Before the first stack: everything mapped lies below MEMORY_END. */
  ghost predicate Boot(y: Kern)
  {
    && y.ids == Ids(0, []) && y.next <= FRAMES_END && y.recycled == []
    && (forall v | v in y.mapped :: v < BASE) && (forall i | 0 <= i < |y.areas| :: y.areas[i].start < BASE) && StartsApart(y.areas)
  }

  lemma OtherKeeps(y: Kern, next': nat, freed: seq<nat>)
    requires Inv(y) && OthersOk(y, next', freed)
    ensures Inv(Kern(y.ids, y.mapped, y.areas, next', y.recycled + freed))
  {
    hide Slot, Offset, IdsOk;
    var y' := Kern(y.ids, y.mapped, y.areas, next', y.recycled + freed);
    forall v: nat ensures PageOk(y', v) { assert PageOk(y, v); }
    forall id | Live(y'.ids, id) ensures StackOk(y', id) { assert StackOk(y, id); }
    forall i | 0 <= i < |y'.areas| ensures AreaOk(y', i) { assert AreaOk(y, i); }
  }

  lemma StepKeeps(y: Kern, op: Op)
    requires Inv(y) && Enabled(y, op)
    ensures Inv(Step(y, op))
    ensures forall v: nat | v < BASE :: v in Step(y, op).mapped <==> v in y.mapped
  {
    hide Inv;
    match op {
      case OpAlloc(ppns, next') => AllocKeeps(y, ppns, next');
      case OpDrop(id) => DropKeeps(y, id);
      case OpOther(next', freed) => OtherKeeps(y, next', freed);
    }
  }

  lemma {:induction false} RunKeeps(y: Kern, ops: seq<Op>)
    requires Inv(y) && Legal(y, ops)
    ensures Inv(Run(y, ops))
    ensures forall v: nat | v < BASE :: v in Run(y, ops).mapped <==> v in y.mapped
    decreases |ops|
  {
    hide Inv, Step;
    if ops != [] {
      StepKeeps(y, ops[0]);
      RunKeeps(Step(y, ops[0]), ops[1..]);
    }
  }

  /** The page lies in a live stack. */
  ghost predicate InStack(y: Kern, v: nat)
  {
    exists id :: Live(y.ids, id) && Start(id) <= v < Start(id) + STACK_PAGES
  }

  /** In every run: above MEMORY_END exactly the pages of live stacks are mapped, all to different
      frames; the page after each stack is not mapped; and the stacks stay below the top of the
      address space, because every stack ever made took eight frames. */
  lemma Stacks(y0: Kern, ops: seq<Op>)
    requires Boot(y0) && Legal(y0, ops)
    ensures var y := Run(y0, ops);
            && (forall v: nat | v >= BASE :: v in y.mapped <==> InStack(y, v))
            && (forall v, w | v in y.mapped && w in y.mapped && BASE <= v < w :: y.mapped[v] != y.mapped[w])
            && (forall id: nat | Live(y.ids, id) :: Start(id) + STACK_PAGES !in y.mapped)
            && (forall id: nat | Live(y.ids, id) :: id < FRAMES_END / STACK_PAGES && Start(id) + STRIDE <= TWO52)
  {
    hide Slot, Offset;
    BootInv(y0);
    RunKeeps(y0, ops);
    var y := Run(y0, ops);
    forall v: nat | v >= BASE ensures v in y.mapped <==> InStack(y, v) {
      assert PageOk(y, v);
      Place(v, Slot(v));
      if InStack(y, v) {
        var id :| Live(y.ids, id) && Start(id) <= v < Start(id) + STACK_PAGES;
        Place(v, id);
      }
    }
    forall id | Live(y.ids, id) ensures Start(id) + STACK_PAGES !in y.mapped {
      var v := Start(id) + STACK_PAGES;
      assert PageOk(y, v);
      Place(v, id);
      GuardOffset(id);
    }
  }

  lemma GuardOffset(id: nat)
    ensures Offset(Start(id) + STACK_PAGES) == STACK_PAGES
  {
  }

  lemma BootInv(y: Kern)
    requires Boot(y)
    ensures Inv(y)
  {
  }

  /** The page below a live stack is unmapped, except that below the first one there is whatever
      the kernel mapped just under MEMORY_END at boot. */
  lemma Below(y0: Kern, ops: seq<Op>, id: nat)
    requires Boot(y0) && Legal(y0, ops) && Live(Run(y0, ops).ids, id)
    ensures Start(id) - 1 in Run(y0, ops).mapped <==> id == 0 && BASE - 1 in y0.mapped
  {
    hide Slot, Offset;
    BootInv(y0);
    RunKeeps(y0, ops);
    var y := Run(y0, ops);
    if id > 0 {
      var v := Start(id) - 1;
      assert v == Start(id - 1) + STACK_PAGES;
      GuardOffset(id - 1);
      assert PageOk(y, v);
    }
  }

  // ---- the code

  /** Part of a stack mapped: `ppns` are the frames so far. */
  ghost predicate Mapping(y: Kern, start: nat, area: map<nat, nat>, mapped: map<nat, nat>, ppns: seq<nat>, next: nat)
  {
    area == Pages(start, ppns) && mapped == y.mapped + Pages(start, ppns) && Rising(y.next, ppns, next)
  }

  /** New frames in order. */
  ghost predicate Rising(first: nat, ppns: seq<nat>, next: nat)
  {
    && first + |ppns| <= next && (ppns == [] || next <= FRAMES_END)
    && (forall i | 0 <= i < |ppns| :: first <= ppns[i] < next)
    && (forall i, k | 0 <= i < k < |ppns| :: ppns[i] < ppns[k])
  }

  lemma RisingMore(first: nat, ppns: seq<nat>, next: nat, tables: nat)
    requires Rising(first, ppns, next) && next + 1 + tables <= FRAMES_END
    ensures Rising(first, ppns + [next], next + 1 + tables)
  {
  }

  lemma MappingNone(y: Kern, start: nat)
    ensures Mapping(y, start, map[], y.mapped, [], y.next)
  {
    assert y.mapped + map[] == y.mapped;
  }

  lemma MappingMore(y: Kern, start: nat, area: map<nat, nat>, mapped: map<nat, nat>, ppns: seq<nat>, next: nat, tables: nat)
    requires Mapping(y, start, area, mapped, ppns, next) && start + |ppns| !in y.mapped
    ensures start + |ppns| !in mapped
    ensures next + 1 + tables <= FRAMES_END ==>
      Mapping(y, start, area[start + |ppns| := next], mapped[start + |ppns| := next], ppns + [next], next + 1 + tables)
  {
    hide Rising;
    if next + 1 + tables <= FRAMES_END { RisingMore(y.next, ppns, next, tables); }
    PagesMore(start, ppns, next);
    MergeMore(y.mapped, Pages(start, ppns), start + |ppns|, next);
  }

  lemma PagesMore(start: nat, ppns: seq<nat>, ppn: nat)
    ensures Pages(start, ppns + [ppn]) == Pages(start, ppns)[start + |ppns| := ppn]
  {
    assert (ppns + [ppn])[..|ppns|] == ppns;
  }

  lemma MergeMore(m: map<nat, nat>, p: map<nat, nat>, v: nat, ppn: nat)
    ensures m + p[v := ppn] == (m + p)[v := ppn]
  {
  }

  lemma MappingDone(y: Kern, area: map<nat, nat>, mapped: map<nat, nat>, ppns: seq<nat>, next: nat)
    requires Mapping(y, Start(Alloc(y.ids).1), area, mapped, ppns, next) && |ppns| == STACK_PAGES
    ensures NewFrames(y, ppns, next)
    ensures AllocStack(y, ppns, next)
      == Kern(Alloc(y.ids).0, mapped, y.areas + [Area(Start(Alloc(y.ids).1), Start(Alloc(y.ids).1) + STACK_PAGES, area)], next, y.recycled)
  {
  }

  /** Every page of the stack has its own frame, handed out and not given back. */
  ghost predicate Freeable(y: Kern, start: nat, frames: map<nat, nat>)
  {
    && (forall v | start <= v < start + STACK_PAGES :: v in y.mapped && v in frames && frames[v] < y.next && frames[v] !in y.recycled)
    && (forall v, w | start <= v < w < start + STACK_PAGES :: frames[v] != frames[w])
  }

  /** `j` pages of the stack unmapped and their frames given back. */
  ghost predicate Freeing(y: Kern, start: nat, frames: map<nat, nat>, j: nat, mapped: map<nat, nat>, recycled: seq<nat>)
  {
    && Freeable(y, start, frames) && j <= STACK_PAGES
    && recycled == y.recycled + Behind(start, STACK_PAGES, frames)[..j] && mapped == Unmapped(y.mapped, start, j)
  }

  lemma FreeingNone(y: Kern, start: nat, frames: map<nat, nat>)
    requires Freeable(y, start, frames)
    ensures Freeing(y, start, frames, 0, y.mapped, y.recycled)
  {
    assert y.recycled + [] == y.recycled;
  }

  lemma FreeingMore(y: Kern, start: nat, frames: map<nat, nat>, j: nat, mapped: map<nat, nat>, recycled: seq<nat>)
    requires Freeing(y, start, frames, j, mapped, recycled) && j < STACK_PAGES
    ensures start + j in frames && frames[start + j] < y.next && frames[start + j] !in recycled && start + j in mapped
    ensures Freeing(y, start, frames, j + 1, mapped - {start + j}, recycled + [frames[start + j]])
  {
    var gone := Behind(start, STACK_PAGES, frames);
    var ppn := frames[start + j];
    forall i | 0 <= i < j ensures gone[i] != ppn { assert frames[start + i] != frames[start + j]; }
    assert gone[..j + 1] == gone[..j] + [ppn];
  }

  lemma FreeingDone(y: Kern, start: nat, frames: map<nat, nat>, mapped: map<nat, nat>, recycled: seq<nat>)
    requires Freeing(y, start, frames, STACK_PAGES, mapped, recycled)
    ensures recycled == y.recycled + Behind(start, STACK_PAGES, frames) && mapped == Unmapped(y.mapped, start, STACK_PAGES)
  {
    var gone := Behind(start, STACK_PAGES, frames);
    assert gone[..STACK_PAGES] == gone;
  }

  /** The frames taken for tables by the first `k` pages. */
  function Sum(tables: seq<nat>, k: nat): nat
    requires k <= |tables|
  {
    if k == 0 then 0 else Sum(tables, k - 1) + tables[k - 1]
  }

  lemma {:induction false} SumGrows(tables: seq<nat>, i: nat, k: nat)
    requires i <= k <= |tables|
    ensures Sum(tables, i) <= Sum(tables, k)
    decreases k
  {
    if i < k { SumGrows(tables, i, k - 1); }
  }

  lemma NoTables(tables: seq<nat>)
    ensures Sum(tables, 0) == 0
  {
  }

  lemma NextTables(tables: seq<nat>, k: nat)
    requires k < |tables|
    ensures Sum(tables, k + 1) == Sum(tables, k) + tables[k]
  {
  }

  lemma Bounded(y: Kern)
    requires Inv(y)
    ensures y.next <= FRAMES_END
  {
  }

  datatype Outcome = Allocated(id: nat) | OutOfFrames | AssertionFailed

  /** KERNEL_SPACE, the frame allocator and KSTACK_ALLOCATOR. */
  class KernelSpace {
    const ids: RecycleAllocator
    var mapped: map<nat, nat>
    var areas: seq<Area>
    var next: nat
    var recycled: seq<nat>

    constructor (mapped: map<nat, nat>, areas: seq<Area>, next: nat)
      ensures fresh(ids) && View() == Kern(Ids(0, []), mapped, areas, next, [])
    {
      ids := new RecycleAllocator();
      this.mapped, this.areas, this.next, recycled := mapped, areas, next, [];
    }

    function View(): Kern
      reads this, ids
    {
      Kern(ids.View(), mapped, areas, next, recycled)
    }

    /** `kstack_alloc`; mapping page `j` takes `tables[j]` more frames for page tables. It panics
        exactly when the frames run out; the assertion of `map` never fires. */
    method KstackAlloc(tables: seq<nat>) returns (r: Outcome, ghost ppns: seq<nat>)
      requires Inv(View()) && |tables| == STACK_PAGES
      modifies this, ids
      ensures !r.AssertionFailed?
      ensures r.OutOfFrames? <==> old(next) + STACK_PAGES + Sum(tables, STACK_PAGES) > FRAMES_END
      ensures r.Allocated? ==> NewFrames(old(View()), ppns, next) && View() == AllocStack(old(View()), ppns, next) && r.id == Alloc(old(ids.View())).1
    {
      hide Inv, Alloc, Mapping, AllocStack, NewFrames, Sum;
      assert Sum(tables, 0) == 0 by { NoTables(tables); }
      ghost var y := View();
      ppns := [];
      var id := ids.AllocId();
      var start := Start(id);
      var area: map<nat, nat> := map[];
      var j := 0;
      Bounded(y);
      MappingNone(y, start);
      while j < STACK_PAGES
        invariant 0 <= j <= STACK_PAGES && |ppns| == j
        invariant (ids.View(), id) == Alloc(y.ids) && areas == y.areas && recycled == y.recycled
        invariant Mapping(y, start, area, mapped, ppns, next)
        invariant next == y.next + j + Sum(tables, j) <= FRAMES_END
      {
        SumGrows(tables, j + 1, STACK_PAGES);
        NextTables(tables, j);
        var vpn := start + j;
        FreshUnmapped(y, vpn);
        MappingMore(y, start, area, mapped, ppns, next, tables[j]);
        if next >= FRAMES_END { return OutOfFrames, ppns; }
        var ppn := next;
        next := next + 1;
        area := area[vpn := ppn];
        if next + tables[j] > FRAMES_END { return OutOfFrames, ppns; }
        next := next + tables[j];
        if vpn in mapped { return AssertionFailed, ppns; }
        mapped := mapped[vpn := ppn];
        ppns := ppns + [ppn];
        j := j + 1;
      }
      MappingDone(y, area, mapped, ppns, next);
      areas := areas + [Area(start, start + STACK_PAGES, area)];
      r := Allocated(id);
    }

    /** The search of `remove_area_with_start_vpn`. */
    method Position(start: nat) returns (k: nat)
      ensures k == FindArea(areas, start)
    {
      k := 0;
      while k < |areas| && areas[k].start != start
        invariant 0 <= k <= FindArea(areas, start)
      {
        k := k + 1;
      }
    }

    /** Drop of a live `KernelStack`; false if an assertion or a panic fires. */
    method Drop(id: nat) returns (ok: bool)
      requires Inv(View()) && Live(ids.View(), id) && Dealloc(ids.View(), id).Some?
      modifies this, ids
      ensures ok && View() == DropStack(old(View()), id)
    {
      hide Inv, Live, Freeing, FindArea, Unmapped, Behind;
      ghost var y := View();
      var start := Start(id);
      var k := Position(start);
      DropFine(y, id);
      var area := areas[k];
      var j := 0;
      FreeingNone(y, start, area.frames);
      while j < area.end - start
        invariant 0 <= j <= STACK_PAGES && areas == y.areas && next == y.next && ids.View() == y.ids
        invariant Freeing(y, start, area.frames, j, mapped, recycled)
      {
        var vpn := start + j;
        FreeingMore(y, start, area.frames, j, mapped, recycled);
        var ppn := area.frames[vpn];
        if ppn >= next || ppn in recycled { return false; }
        recycled := recycled + [ppn];
        if vpn !in mapped { return false; }
        mapped := mapped - {vpn};
        j := j + 1;
      }
      FreeingDone(y, start, area.frames, mapped, recycled);
      areas := areas[..k] + areas[k + 1..];
      ok := ids.DeallocId(id);
    }
  }
}
