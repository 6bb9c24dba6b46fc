/** All page tables of the system in one physical memory: the kernel's and one per process,
    each process root copied from the kernel's upper half by `PageTable::new_process`. */
module Spaces {
  import opened Sv39
  import opened TableTree
  import opened AddressSpaces

  /** `next` and `end` are the bump allocator, `data` the frames held by data `FrameTracker`s. */
  datatype Sys = Sys(e: Entries, next: nat, end: nat, kernel: nat, procs: seq<nat>, data: set<nat>)

  datatype Op =
    | KernelMap(at: Path, ppn: nat, flags: Flags, cover: bool)
    | KernelUnmap(at: Path)
    | NewProcess
    | ProcessMap(j: nat, at: Path, ppn: nat, flags: Flags, cover: bool)
    | ProcessUnmap(j: nat, at: Path)
    | AllocData
    | WriteData(p: nat, frame: seq<Pte>)

  /** What `map` writes: `flags | V | D | A`, the page number cut to the entry's 44 bits. */
  function MapEntry(ppn: nat, flags: Flags): Pte
  {
    Pte(ppn % TWO44, Flags(true, flags.r, flags.w, flags.x, flags.u, flags.g, true, true))
  }

  /** `new_process`: a zeroed root with the kernel's entries 256 to 511. */
  function ProcessRoot(kernelRoot: seq<Pte>): (r: seq<Pte>)
    requires |kernelRoot| == 512
    ensures |r| == 512
    ensures forall i | 0 <= i < 512 :: r[i] == if i < 256 then EMPTY else kernelRoot[i]
  {
    ZeroFrame()[..256] + kernelRoot[256..]
  }

  function Apply(s: Sys, r: Outcome): Option<Sys>
  {
    if r.Panic? then None else Some(Sys(r.e, r.next, s.end, s.kernel, s.procs, s.data))
  }

  /** One operation; `None` when the kernel panics or the operation does not apply. Processes
      map and unmap pages of their own half only. */
  function Step(s: Sys, op: Op): (r: Option<Sys>)
    requires Sized(s.e)
    ensures r.Some? ==> Sized(r.value.e)
  {
    match op
    case KernelMap(at, ppn, flags, cover) =>
      Apply(s, Map(s.e, s.next, s.end, s.kernel, at, MapEntry(ppn, flags), cover))
    case KernelUnmap(at) => Apply(s, Unmap(s.e, s.next, s.kernel, at))
    case NewProcess =>
      if s.next >= s.end || s.kernel !in s.e then None
      else Some(Sys(s.e[s.next := ProcessRoot(s.e[s.kernel])], s.next + 1, s.end, s.kernel, s.procs + [s.next], s.data))
    case ProcessMap(j, at, ppn, flags, cover) =>
      if j >= |s.procs| || at.i >= 256 then None
      else Apply(s, Map(s.e, s.next, s.end, s.procs[j], at, MapEntry(ppn, flags), cover))
    case ProcessUnmap(j, at) =>
      if j >= |s.procs| || at.i >= 256 then None else Apply(s, Unmap(s.e, s.next, s.procs[j], at))
    case AllocData =>
      if s.next >= s.end then None
      else Some(Sys(s.e[s.next := ZeroFrame()], s.next + 1, s.end, s.kernel, s.procs, s.data + {s.next}))
    case WriteData(p, frame) =>
      if p !in s.data || |frame| != 512 then None
      else Some(Sys(s.e[p := frame], s.next, s.end, s.kernel, s.procs, s.data))
  }

  /** What an operation takes: one frame for a root, one for data, at most two for tables, none
      otherwise; and the process and the data frame it adds are that frame. */
  lemma StepTakes(s: Sys, op: Op)
    requires Sized(s.e) && Step(s, op).Some?
    ensures var s' := Step(s, op).value;
            && s'.end == s.end && s'.kernel == s.kernel && s.next <= s'.next
            && s'.procs == (if op.NewProcess? then s.procs + [s.next] else s.procs)
            && s'.data == (if op.AllocData? then s.data + {s.next} else s.data)
            && (op.NewProcess? || op.AllocData? ==> s'.next == s.next + 1 && s.next < s.end)
            && (op.KernelMap? || op.ProcessMap? ==> s'.next <= s.next + 2)
            && (op.KernelUnmap? || op.ProcessUnmap? || op.WriteData? ==> s'.next == s.next)
  {
  }

  // ---- the abstract address spaces

  /** A process has its own pages and the kernel root entries it was born with. */
  datatype Process = Process(own: Mapping, top: set<nat>)

  /** `roots` are the kernel's root entries in use; they are never taken away. */
  datatype Abs = Abs(kernel: Mapping, roots: set<nat>, procs: seq<Process>)

  function AbsMap(m: Mapping, at: Path, pte: Pte, cover: bool): Option<Mapping>
  {
    if !cover && at in m then None else Some(m[at := pte])
  }

  function AbsUnmap(m: Mapping, at: Path): Option<Mapping>
  {
    if at !in m then None else Some(m - {at})
  }

  function WithOwn(a: Abs, j: nat, m: Option<Mapping>): Option<Abs>
    requires j < |a.procs|
  {
    if m.None? then None else Some(Abs(a.kernel, a.roots, a.procs[j := Process(m.value, a.procs[j].top)]))
  }

  function AbsStep(a: Abs, op: Op): Option<Abs>
  {
    match op
    case KernelMap(at, ppn, flags, cover) =>
      var m := AbsMap(a.kernel, at, MapEntry(ppn, flags), cover);
      if m.None? then None else Some(Abs(m.value, a.roots + {at.i}, a.procs))
    case KernelUnmap(at) =>
      var m := AbsUnmap(a.kernel, at);
      if m.None? then None else Some(Abs(m.value, a.roots, a.procs))
    case NewProcess => Some(Abs(a.kernel, a.roots, a.procs + [Process(map[], set i | i in a.roots && i >= 256)]))
    case ProcessMap(j, at, ppn, flags, cover) =>
      if j >= |a.procs| || at.i >= 256 then None
      else WithOwn(a, j, AbsMap(a.procs[j].own, at, MapEntry(ppn, flags), cover))
    case ProcessUnmap(j, at) =>
      if j >= |a.procs| || at.i >= 256 then None
      else WithOwn(a, j, AbsUnmap(a.procs[j].own, at))
    case AllocData => Some(a)
    case WriteData(p, frame) => Some(a)
  }

  /** What process `j` sees at `at`: its own half, or the kernel's through an inherited root entry. */
  function View(a: Abs, j: nat, at: Path): Option<Pte>
    requires j < |a.procs|
  {
    if at.i < 256 then (if at in a.procs[j].own then Some(a.procs[j].own[at]) else None)
    else if at.i in a.procs[j].top && at in a.kernel then Some(a.kernel[at]) else None
  }

  // ---- the invariant

  /** The trees behind the tables. */
  datatype Forest = Forest(kernel: Tree, procs: seq<Tree>)

  ghost predicate SharedTop(e: Entries, root: nat, kt: Tree, top: set<nat>)
    requires Sized(e)
  {
    && root in e
    && (forall i | i in top :: 256 <= i < 512 && i in kt.mid && e[root][i] == Pte(kt.mid[i], V_ONLY))
    && (forall i | 256 <= i < 512 && i !in top :: !e[root][i].flags.v)
  }

  ghost predicate ProcessOk(s: Sys, kt: Tree, t: Tree, p: Process)
  {
    && Represents(s.e, t, 256, p.own) && SharedTop(s.e, t.root, kt, p.top) && Below(t, s.next)
    && Owned(t) !! Owned(kt) && Owned(t) !! s.data
  }

  ghost predicate KernelOk(s: Sys, kt: Tree, a: Abs)
  {
    && Represents(s.e, kt, 512, a.kernel) && Below(kt, s.next) && kt.mid.Keys == a.roots
    && Owned(kt) !! s.data && kt.root == s.kernel
    && (forall p | p in s.data :: p < s.next)
  }

  ghost predicate ProcessesOk(s: Sys, f: Forest, a: Abs)
  {
    && |s.procs| == |f.procs| == |a.procs|
    && (forall j | 0 <= j < |s.procs| :: f.procs[j].root == s.procs[j] && ProcessOk(s, f.kernel, f.procs[j], a.procs[j]))
    && (forall j, k | 0 <= j < k < |s.procs| :: Owned(f.procs[j]) !! Owned(f.procs[k]))
  }

  ghost predicate Inv(s: Sys, f: Forest, a: Abs)
  {
    KernelOk(s, f.kernel, a) && ProcessesOk(s, f, a)
  }

  function NextForest(s: Sys, f: Forest, op: Op): Forest
  {
    match op
    case KernelMap(at, _, _, _) => Forest(Grow(f.kernel, at.i, at.j, s.next), f.procs)
    case NewProcess => Forest(f.kernel, f.procs + [Tree(s.next, map[], map[])])
    case ProcessMap(j, at, _, _, _) =>
      if j < |f.procs| then Forest(f.kernel, f.procs[j := Grow(f.procs[j], at.i, at.j, s.next)]) else f
    case _ => f
  }

  // ---- every operation keeps it

  lemma GrowOwned(t: Tree, i: nat, j: nat, next: nat)
    ensures forall p | p in Owned(Grow(t, i, j, next)) :: p in Owned(t) || p >= next
    ensures Extends(t, Grow(t, i, j, next))
    ensures Grow(t, i, j, next).mid.Keys == t.mid.Keys + {i}
  {
    OwnedMembers(t);
    var t1 := GrowMid(t, i, next);
    assert forall p | p in t1.mid.Values :: p in t.mid.Values || p == next;
    var t2 := Grow(t, i, j, next);
    assert forall p | p in t2.low.Values :: p in t.low.Values || p >= next;
  }

  lemma ProcessKept(s: Sys, s': Sys, kt: Tree, kt': Tree, t: Tree, p: Process)
    requires ProcessOk(s, kt, t, p) && Sized(s'.e) && s.next <= s'.next && Extends(kt, kt')
    requires forall q | q in Owned(t) && q in s.e :: q in s'.e && s'.e[q] == s.e[q]
    requires Owned(t) !! Owned(kt') && Owned(t) !! s'.data
    ensures ProcessOk(s', kt', t, p)
  {
    RepresentsFrame(s.e, s'.e, t, 256, p.own);
    OwnedMembers(t);
  }

  lemma KernelChange(s: Sys, f: Forest, a: Abs, e': Entries, next': nat, kt': Tree, a': Abs)
    requires Inv(s, f, a) && Sized(e') && SameElsewhere(s.e, e', f.kernel, s.next)
    requires Represents(e', kt', 512, a'.kernel) && Below(kt', next') && s.next <= next'
    requires Extends(f.kernel, kt') && kt'.mid.Keys == a'.roots && a'.procs == a.procs
    requires forall p | p in Owned(kt') :: p in Owned(f.kernel) || p >= s.next
    ensures Inv(Sys(e', next', s.end, s.kernel, s.procs, s.data), Forest(kt', f.procs), a')
  {
    hide Represents, SharedTop;
    var s' := Sys(e', next', s.end, s.kernel, s.procs, s.data);
    forall j | 0 <= j < |s.procs|
      ensures ProcessOk(s', kt', f.procs[j], a.procs[j])
    {
      ProcessKept(s, s', f.kernel, kt', f.procs[j], a.procs[j]);
    }
  }

  lemma ProcessChange(s: Sys, f: Forest, a: Abs, j: nat, e': Entries, next': nat, t': Tree, own': Mapping)
    requires Inv(s, f, a) && j < |s.procs| && Sized(e') && SameElsewhere(s.e, e', f.procs[j], s.next)
    requires Represents(e', t', 256, own') && Below(t', next') && s.next <= next' && t'.root == f.procs[j].root
    requires forall i | 256 <= i < 512 :: e'[t'.root][i] == s.e[t'.root][i]
    requires forall p | p in Owned(t') :: p in Owned(f.procs[j]) || p >= s.next
    ensures Inv(Sys(e', next', s.end, s.kernel, s.procs, s.data), Forest(f.kernel, f.procs[j := t']),
                Abs(a.kernel, a.roots, a.procs[j := Process(own', a.procs[j].top)]))
  {
    hide MidShape, Distinct, LeafAt;
    var s' := Sys(e', next', s.end, s.kernel, s.procs, s.data);
    var t := f.procs[j];
    RepresentsFrame(s.e, e', f.kernel, 512, a.kernel);
    forall k | 0 <= k < |s.procs| && k != j
      ensures ProcessOk(s', f.kernel, f.procs[k], a.procs[k]) && Owned(f.procs[k]) !! Owned(t')
    {
      assert Owned(f.procs[k]) !! Owned(t);
      ProcessKept(s, s', f.kernel, f.kernel, f.procs[k], a.procs[k]);
    }
    assert ProcessOk(s', f.kernel, t', Process(own', a.procs[j].top));
  }

  lemma DescendOther(e: Entries, next: nat, end: nat, table: nat, idx: nat)
    requires Sized(e) && table in e && table != next && idx < 512
    ensures var c := Descend(e, next, end, table, idx);
            c.Some? ==> && (forall p | p in e && p != table && p != next :: p in c.value.e && c.value.e[p] == e[p])
                        && table in c.value.e
                        && (forall x | 0 <= x < 512 && x != idx :: c.value.e[table][x] == e[table][x])
  {
  }

  lemma CreateKeepsRoot(e: Entries, t: Tree, next: nat, end: nat, i: nat, j: nat)
    requires Shape(e, t, 256) && Below(t, next) && i < 256 && j < 512
    ensures var c := Create(e, next, end, t.root, i, j);
            c.Some? ==> t.root in c.value.e && forall x | 256 <= x < 512 :: c.value.e[t.root][x] == e[t.root][x]
  {
    OwnedMembers(t);
    DescendOther(e, next, end, t.root, i);
    var c := Descend(e, next, end, t.root, i);
    if c.Some? && c.value.child in c.value.e {
      assert c.value.child != t.root && t.root < next <= c.value.next;
      if c.value.child != c.value.next {
        DescendOther(c.value.e, c.value.next, end, c.value.child, j);
      }
    }
  }

  lemma MapKeepsRoot(e: Entries, t: Tree, next: nat, end: nat, at: Path, pte: Pte, cover: bool)
    requires Shape(e, t, 256) && Below(t, next) && at.i < 256
    ensures var r := Map(e, next, end, t.root, at, pte, cover);
            r.Done? ==> t.root in r.e && forall x | 256 <= x < 512 :: r.e[t.root][x] == e[t.root][x]
  {
    hide SameLeaves, SameElsewhere, Create;
    CreateKeepsRoot(e, t, next, end, at.i, at.j);
    CreateCorrect(e, t, 256, next, end, at.i, at.j);
  }

  lemma UnmapKeepsRoot(e: Entries, t: Tree, next: nat, at: Path)
    requires Shape(e, t, 256) && at.i < 256
    ensures var r := Unmap(e, next, t.root, at);
            r.Done? ==> t.root in r.e && r.e[t.root] == e[t.root]
  {
    WalkFollowsTree(e, t, 256, at.i, at.j);
  }

  lemma DataChange(s: Sys, f: Forest, a: Abs, e': Entries, next': nat, data': set<nat>)
    requires Inv(s, f, a) && Sized(e') && s.next <= next'
    requires forall p | p in s.e && p < s.next && p !in s.data :: p in e' && e'[p] == s.e[p]
    requires forall p | p in data' :: p < next' && (p in s.data || p >= s.next)
    ensures Inv(Sys(e', next', s.end, s.kernel, s.procs, data'), f, a)
  {
    hide Represents, SharedTop;
    var s' := Sys(e', next', s.end, s.kernel, s.procs, data');
    RepresentsFrame(s.e, e', f.kernel, 512, a.kernel);
    forall j | 0 <= j < |s.procs|
      ensures ProcessOk(s', f.kernel, f.procs[j], a.procs[j])
    {
      ProcessKept(s, s', f.kernel, f.kernel, f.procs[j], a.procs[j]);
    }
  }

  lemma FreshProcess(s: Sys, s': Sys, kt: Tree, a: Abs)
    requires KernelOk(s, kt, a) && Sized(s'.e) && s'.next == s.next + 1 && s'.data == s.data
    requires s.next in s'.e && s'.e[s.next] == ProcessRoot(s.e[s.kernel])
    ensures ProcessOk(s', kt, Tree(s.next, map[], map[]), Process(map[], set i | i in a.roots && i >= 256))
  {
    var t := Tree(s.next, map[], map[]);
    assert Owned(t) == {s.next};
    assert Shape(s'.e, t, 256);
    assert forall at: Path :: LeafAt(s'.e, t, at) == EMPTY;
  }

  lemma AddProcess(s: Sys, f: Forest, a: Abs, t: Tree, p: Process)
    requires Inv(s, f, a) && ProcessOk(s, f.kernel, t, p)
    requires forall j | 0 <= j < |f.procs| :: Owned(f.procs[j]) !! Owned(t)
    ensures Inv(Sys(s.e, s.next, s.end, s.kernel, s.procs + [t.root], s.data), Forest(f.kernel, f.procs + [t]),
                Abs(a.kernel, a.roots, a.procs + [p]))
  {
    hide Represents, Owned, SharedTop;
    var s' := Sys(s.e, s.next, s.end, s.kernel, s.procs + [t.root], s.data);
    forall j | 0 <= j < |s.procs| ensures ProcessOk(s', f.kernel, f.procs[j], a.procs[j]) {
      assert ProcessOk(s, f.kernel, f.procs[j], a.procs[j]);
    }
  }

  lemma NewProcessKeeps(s: Sys, f: Forest, a: Abs)
    requires Inv(s, f, a)
    ensures StepOk(s, f, a, NewProcess)
  {
    hide MidShape, Distinct, LeafAt, SharedTop;
    if s.next < s.end {
      var e' := s.e[s.next := ProcessRoot(s.e[s.kernel])];
      var same := Sys(e', s.next + 1, s.end, s.kernel, s.procs, s.data);
      var t, p := Tree(s.next, map[], map[]), Process(map[], set i | i in a.roots && i >= 256);
      DataChange(s, f, a, e', s.next + 1, s.data);
      FreshProcess(s, same, f.kernel, a);
      assert Owned(t) == {s.next};
      forall j | 0 <= j < |f.procs| ensures Owned(f.procs[j]) !! Owned(t) {
        assert ProcessOk(s, f.kernel, f.procs[j], a.procs[j]);
      }
      AddProcess(same, f, a, t, p);
    }
  }

  /** The abstract step follows the concrete one, and a panic the abstract step does not
      foresee means that fewer than two frames were left. */
  ghost predicate StepOk(s: Sys, f: Forest, a: Abs, op: Op)
    requires Sized(s.e)
  {
    && (Step(s, op).Some? ==> AbsStep(a, op).Some? && Inv(Step(s, op).value, NextForest(s, f, op), AbsStep(a, op).value))
    && (Step(s, op).None? && AbsStep(a, op).Some? && !op.WriteData? ==> s.next + 2 > s.end)
  }

  /** Every operation on every table keeps the invariant and does the abstract step. */
  lemma StepRefines(s: Sys, f: Forest, a: Abs, op: Op)
    requires Inv(s, f, a)
    ensures StepOk(s, f, a, op)
  {
    if op.KernelMap? { KernelMapRefines(s, f, a, op); }
    else if op.KernelUnmap? { KernelUnmapRefines(s, f, a, op); }
    else if op.NewProcess? { NewProcessKeeps(s, f, a); }
    else if op.ProcessMap? { ProcessMapRefines(s, f, a, op); }
    else if op.ProcessUnmap? { ProcessUnmapRefines(s, f, a, op); }
    else { DataKeeps(s, f, a, op); }
  }

  lemma DataKeeps(s: Sys, f: Forest, a: Abs, op: Op)
    requires Inv(s, f, a) && (op.AllocData? || op.WriteData?)
    ensures StepOk(s, f, a, op)
  {
    if op.AllocData? && s.next < s.end {
      DataChange(s, f, a, s.e[s.next := ZeroFrame()], s.next + 1, s.data + {s.next});
    } else if op.WriteData? && op.p in s.data && |op.frame| == 512 {
      DataChange(s, f, a, s.e[op.p := op.frame], s.next, s.data);
    }
  }

  lemma KernelMapRefines(s: Sys, f: Forest, a: Abs, op: Op)
    requires Inv(s, f, a) && op.KernelMap?
    ensures StepOk(s, f, a, op)
  {
    hide Inv, Map, Grow, AbsMap;
    MapInKernel(s, f, a, op.at, MapEntry(op.ppn, op.flags), op.cover);
  }

  lemma MapInKernel(s: Sys, f: Forest, a: Abs, at: Path, pte: Pte, cover: bool)
    requires Inv(s, f, a) && pte.flags.v
    ensures var s' := Apply(s, Map(s.e, s.next, s.end, s.kernel, at, pte, cover));
            var m := AbsMap(a.kernel, at, pte, cover);
            && (s'.Some? ==> m.Some? && Inv(s'.value, Forest(Grow(f.kernel, at.i, at.j, s.next), f.procs),
                                            Abs(m.value, a.roots + {at.i}, a.procs)))
            && (s'.None? && m.Some? ==> s.next + 2 > s.end)
  {
    hide RootShape, MidShape, Distinct, LeafAt, Owned, Map, Grow, SharedTop;
    MapRefines(s.e, f.kernel, 512, s.next, s.end, at, pte, cover, a.kernel);
    GrowOwned(f.kernel, at.i, at.j, s.next);
    var r := Map(s.e, s.next, s.end, s.kernel, at, pte, cover);
    if r.Done? {
      KernelChange(s, f, a, r.e, r.next, Grow(f.kernel, at.i, at.j, s.next), Abs(a.kernel[at := pte], a.roots + {at.i}, a.procs));
    }
  }

  lemma KernelUnmapRefines(s: Sys, f: Forest, a: Abs, op: Op)
    requires Inv(s, f, a) && op.KernelUnmap?
    ensures StepOk(s, f, a, op)
  {
    hide RootShape, MidShape, Distinct, LeafAt, Owned, Unmap, SharedTop;
    UnmapRefines(s.e, f.kernel, 512, s.next, op.at, a.kernel);
    var r := Unmap(s.e, s.next, s.kernel, op.at);
    if r.Done? {
      KernelChange(s, f, a, r.e, r.next, f.kernel, Abs(a.kernel - {op.at}, a.roots, a.procs));
    }
  }

  lemma ProcessMapRefines(s: Sys, f: Forest, a: Abs, op: Op)
    requires Inv(s, f, a) && op.ProcessMap?
    ensures StepOk(s, f, a, op)
  {
    hide Inv, Map, Grow, WithOwn, AbsMap;
    Sizes(s, f, a);
    if op.j < |s.procs| && op.at.i < 256 {
      MapInProcess(s, f, a, op.j, op.at, MapEntry(op.ppn, op.flags), op.cover);
    }
  }

  lemma MapInProcess(s: Sys, f: Forest, a: Abs, j: nat, at: Path, pte: Pte, cover: bool)
    requires Inv(s, f, a) && j < |s.procs| && at.i < 256 && pte.flags.v
    ensures var s' := Apply(s, Map(s.e, s.next, s.end, s.procs[j], at, pte, cover));
            var a' := WithOwn(a, j, AbsMap(a.procs[j].own, at, pte, cover));
            var f' := Forest(f.kernel, f.procs[j := Grow(f.procs[j], at.i, at.j, s.next)]);
            && (s'.Some? ==> a'.Some? && Inv(s'.value, f', a'.value))
            && (s'.None? && a'.Some? ==> s.next + 2 > s.end)
  {
    hide RootShape, MidShape, Distinct, LeafAt, Owned, Map, Grow, SharedTop;
    var t := f.procs[j];
    assert ProcessOk(s, f.kernel, t, a.procs[j]);
    MapRefines(s.e, t, 256, s.next, s.end, at, pte, cover, a.procs[j].own);
    GrowOwned(t, at.i, at.j, s.next);
    MapKeepsRoot(s.e, t, s.next, s.end, at, pte, cover);
    var r := Map(s.e, s.next, s.end, s.procs[j], at, pte, cover);
    if r.Done? {
      ProcessChange(s, f, a, j, r.e, r.next, Grow(t, at.i, at.j, s.next), a.procs[j].own[at := pte]);
    }
  }

  lemma ProcessUnmapRefines(s: Sys, f: Forest, a: Abs, op: Op)
    requires Inv(s, f, a) && op.ProcessUnmap?
    ensures StepOk(s, f, a, op)
  {
    hide Inv, Unmap, WithOwn, AbsUnmap;
    Sizes(s, f, a);
    if op.j < |s.procs| && op.at.i < 256 {
      UnmapInProcess(s, f, a, op.j, op.at);
    }
  }

  lemma UnmapInProcess(s: Sys, f: Forest, a: Abs, j: nat, at: Path)
    requires Inv(s, f, a) && j < |s.procs| && at.i < 256
    ensures var s' := Apply(s, Unmap(s.e, s.next, s.procs[j], at));
            var a' := WithOwn(a, j, AbsUnmap(a.procs[j].own, at));
            && (s'.Some? ==> a'.Some? && Inv(s'.value, f, a'.value))
            && (s'.None? ==> a'.None?)
  {
    hide RootShape, MidShape, Distinct, LeafAt, Owned, Unmap, SharedTop;
    var t := f.procs[j];
    assert ProcessOk(s, f.kernel, t, a.procs[j]) && t.root == s.procs[j];
    UnmapRefines(s.e, t, 256, s.next, at, a.procs[j].own);
    UnmapKeepsRoot(s.e, t, s.next, at);
    var r := Unmap(s.e, s.next, t.root, at);
    if r.Done? {
      assert f == Forest(f.kernel, f.procs[j := t]);
      ProcessChange(s, f, a, j, r.e, s.next, t, a.procs[j].own - {at});
    }
  }

  // ---- whole runs

  function Run(s: Sys, ops: seq<Op>): (r: Option<Sys>)
    requires Sized(s.e)
    ensures r.Some? ==> Sized(r.value.e)
    decreases |ops|
  {
    if ops == [] then Some(s) else
    var s1 := Step(s, ops[0]);
    if s1.None? then None else Run(s1.value, ops[1..])
  }

  function AbsRun(a: Abs, ops: seq<Op>): Option<Abs>
    decreases |ops|
  {
    if ops == [] then Some(a) else
    var a1 := AbsStep(a, ops[0]);
    if a1.None? then None else AbsRun(a1.value, ops[1..])
  }

  /** Over every run the tables stay the trees that stand for the abstract address spaces. */
  lemma {:induction false} RunRefines(s: Sys, f: Forest, a: Abs, ops: seq<Op>) returns (f': Forest)
    requires Inv(s, f, a)
    ensures Run(s, ops).Some? ==> AbsRun(a, ops).Some? && Inv(Run(s, ops).value, f', AbsRun(a, ops).value)
    decreases |ops|
  {
    f' := f;
    if ops != [] {
      StepRefines(s, f, a, ops[0]);
      if Step(s, ops[0]).Some? {
        f' := RunRefines(Step(s, ops[0]).value, NextForest(s, f, ops[0]), AbsStep(a, ops[0]).value, ops[1..]);
      }
    }
  }

  /** `PageTable::new` for the kernel, before any process exists. */
  function Boot(e: Entries, next: nat, end: nat): Sys
  {
    Sys(e[next := ZeroFrame()], next + 1, end, next, [], {})
  }

  const NOTHING := Abs(map[], {}, [])

  lemma BootRepresents(e: Entries, next: nat, end: nat)
    requires Sized(e)
    ensures Inv(Boot(e, next, end), Forest(Tree(next, map[], map[]), []), NOTHING)
  {
    var t := Tree(next, map[], map[]);
    var s := Boot(e, next, end);
    assert Owned(t) == {next};
    assert Shape(s.e, t, 512);
    assert forall at: Path :: LeafAt(s.e, t, at) == EMPTY;
  }

  /** A valid entry, as the hardware would use it. */
  function ValidOnly(r: Option<Pte>): Option<Pte>
  {
    if r.Some? && r.value.flags.v then r else None
  }

  lemma KernelViewRefines(s: Sys, f: Forest, a: Abs, at: Path)
    requires Inv(s, f, a)
    ensures ValidOnly(Translate(s.e, s.kernel, at)) == if at in a.kernel then Some(a.kernel[at]) else None
  {
    TranslateRefines(s.e, f.kernel, 512, a.kernel, at);
  }

  lemma ViewRefines(s: Sys, f: Forest, a: Abs, j: nat, at: Path)
    requires Inv(s, f, a) && j < |s.procs|
    ensures ValidOnly(Translate(s.e, s.procs[j], at)) == View(a, j, at)
  {
    var t := f.procs[j];
    assert ProcessOk(s, f.kernel, t, a.procs[j]) && t.root == s.procs[j];
    if at.i < 256 {
      TranslateRefines(s.e, t, 256, a.procs[j].own, at);
    } else {
      KernelViewRefines(s, f, a, at);
    }
  }

  // ---- the last call on a page

  /** What the calls made on one page of one table leave: nothing, or the frame and permissions of
      the last `map`. */
  datatype Call = NoCall | Mapped(ppn: nat, perm: Flags)

  /** The calls on the kernel's page at `at`. */
  function KernelCall(c: Call, op: Op, at: Path): Call
  {
    match op
    case KernelMap(at', ppn, perm, _) => if at' == at then Mapped(ppn, perm) else c
    case KernelUnmap(at') => if at' == at then NoCall else c
    case _ => c
  }

  /** The calls on the page at `at` of process `j`. */
  function ProcessCall(c: Call, op: Op, j: nat, at: Path): Call
  {
    match op
    case ProcessMap(j', at', ppn, perm, _) => if j' == j && at' == at then Mapped(ppn, perm) else c
    case ProcessUnmap(j', at') => if j' == j && at' == at then NoCall else c
    case _ => c
  }

  function LastKernelCall(c: Call, ops: seq<Op>, at: Path): Call
    decreases |ops|
  {
    if ops == [] then c else LastKernelCall(KernelCall(c, ops[0], at), ops[1..], at)
  }

  function LastProcessCall(c: Call, ops: seq<Op>, j: nat, at: Path): Call
    decreases |ops|
  {
    if ops == [] then c else LastProcessCall(ProcessCall(c, ops[0], j, at), ops[1..], j, at)
  }

  /** The entry found is what the call asked for: its frame number in 44 bits, its permissions, and
      V, A and D. Without a call there is none. */
  ghost predicate Carries(r: Option<Pte>, c: Call)
  {
    match c
    case NoCall => r.None?
    case Mapped(ppn, perm) =>
      && r.Some? && r.value.ppn == ppn % TWO44
      && r.value.flags.r == perm.r && r.value.flags.w == perm.w && r.value.flags.x == perm.x
      && r.value.flags.u == perm.u && r.value.flags.g == perm.g
      && r.value.flags.v && r.value.flags.a && r.value.flags.d
  }

  function At(m: Mapping, at: Path): Option<Pte> { if at in m then Some(m[at]) else None }

  lemma {:induction false} KernelCarries(a: Abs, ops: seq<Op>, at: Path, c: Call)
    requires AbsRun(a, ops).Some? && Carries(At(a.kernel, at), c)
    ensures Carries(At(AbsRun(a, ops).value.kernel, at), LastKernelCall(c, ops, at))
    decreases |ops|
  {
    if ops != [] {
      KernelCarries(AbsStep(a, ops[0]).value, ops[1..], at, KernelCall(c, ops[0], at));
    }
  }

  /** A process that does not exist yet has had no calls. */
  ghost predicate ProcessCarries(a: Abs, j: nat, at: Path, c: Call)
  {
    if j < |a.procs| then Carries(At(a.procs[j].own, at), c) else c == NoCall
  }

  lemma {:induction false} ProcessCarriesRun(a: Abs, ops: seq<Op>, j: nat, at: Path, c: Call)
    requires AbsRun(a, ops).Some? && ProcessCarries(a, j, at, c)
    ensures ProcessCarries(AbsRun(a, ops).value, j, at, LastProcessCall(c, ops, j, at))
    decreases |ops|
  {
    if ops != [] {
      ProcessCarriesRun(AbsStep(a, ops[0]).value, ops[1..], j, at, ProcessCall(c, ops[0], j, at));
    }
  }

  /** For every run from boot and every canonical page: each table's walk finds a valid leaf
      exactly where the last call made on it was a `map`, with that call's frame and permissions;
      the tables are the finite maps the calls build. */
  lemma TablesAreMaps(e: Entries, next: nat, end: nat, ops: seq<Op>, vpn: nat)
    requires Sized(e) && Canonical(vpn) && Run(Boot(e, next, end), ops).Some?
    ensures var s := Run(Boot(e, next, end), ops).value;
            && Sized(s.e) && Carries(ValidOnly(Translate(s.e, s.kernel, PathOf(vpn))), LastKernelCall(NoCall, ops, PathOf(vpn)))
            && (PathOf(vpn).i < 256 ==> forall j: nat | j < |s.procs| ::
                  Carries(ValidOnly(Translate(s.e, s.procs[j], PathOf(vpn))), LastProcessCall(NoCall, ops, j, PathOf(vpn))))
    ensures var s := Run(Boot(e, next, end), ops).value;
            && AbsRun(NOTHING, ops).Some?
            && var a := AbsRun(NOTHING, ops).value;
               && |s.procs| == |a.procs|
               && ValidOnly(Translate(s.e, s.kernel, PathOf(vpn))) == At(a.kernel, PathOf(vpn))
               && (forall j: nat | j < |s.procs| :: ValidOnly(Translate(s.e, s.procs[j], PathOf(vpn))) == View(a, j, PathOf(vpn)))
  {
    hide Carries, Run, AbsRun, PathOf, Inv, Translate, LastKernelCall, LastProcessCall;
    BootRepresents(e, next, end);
    var f := RunRefines(Boot(e, next, end), Forest(Tree(next, map[], map[]), []), NOTHING, ops);
    var s, a := Run(Boot(e, next, end), ops).value, AbsRun(NOTHING, ops).value;
    Sizes(s, f, a);
    KernelViewRefines(s, f, a, PathOf(vpn));
    NothingCarries(PathOf(vpn));
    KernelCarries(NOTHING, ops, PathOf(vpn), NoCall);
    forall j: nat | j < |s.procs|
      ensures ValidOnly(Translate(s.e, s.procs[j], PathOf(vpn))) == View(a, j, PathOf(vpn))
      ensures PathOf(vpn).i < 256 ==> Carries(ValidOnly(Translate(s.e, s.procs[j], PathOf(vpn))), LastProcessCall(NoCall, ops, j, PathOf(vpn)))
    {
      ViewRefines(s, f, a, j, PathOf(vpn));
      ProcessCarriesRun(NOTHING, ops, j, PathOf(vpn), NoCall);
    }
  }

  lemma NothingCarries(at: Path)
    ensures Carries(At(NOTHING.kernel, at), NoCall) && forall j: nat :: ProcessCarries(NOTHING, j, at, NoCall)
  {
  }

  /** A finite map by page number instead of by index path. */
  ghost function ByVpn(m: Mapping): (r: map<nat, Pte>)
    ensures forall vpn :: vpn in r <==> Canonical(vpn) && PathOf(vpn) in m
    ensures forall vpn | vpn in r :: r[vpn] == m[PathOf(vpn)]
  {
    VpnKeys(m);
    map vpn | vpn in (set at | at in m :: VpnOf(at)) :: m[PathOf(vpn)]
  }

  lemma VpnKeys(m: Mapping)
    ensures forall vpn :: vpn in (set at | at in m :: VpnOf(at)) <==> Canonical(vpn) && PathOf(vpn) in m
  {
    hide PathOf, VpnOf, Canonical;
    var keys := set at | at in m :: VpnOf(at);
    forall vpn | vpn in keys ensures Canonical(vpn) && PathOf(vpn) in m {
      var at :| at in m && VpnOf(at) == vpn;
      VpnOfPath(at);
    }
    forall vpn | Canonical(vpn) && PathOf(vpn) in m ensures vpn in keys {
      PathsAreVpns(vpn, PathOf(vpn));
    }
  }

  lemma VpnOfPath(at: Path)
    ensures Canonical(VpnOf(at)) && PathOf(VpnOf(at)) == at
  {
    hide PathOf, VpnOf;
    CanonicalZero();
    PathsAreVpns(0, at);
  }

  lemma CanonicalZero()
    ensures Canonical(0)
  {
  }

  /** The same by page number: on canonical page numbers the kernel table is the finite map that the
      calls built, keyed by page number. */
  lemma KernelIsVpnMap(e: Entries, next: nat, end: nat, ops: seq<Op>, vpn: nat)
    requires Sized(e) && Canonical(vpn) && Run(Boot(e, next, end), ops).Some?
    ensures AbsRun(NOTHING, ops).Some? && Sized(Run(Boot(e, next, end), ops).value.e)
    ensures var s, m := Run(Boot(e, next, end), ops).value, ByVpn(AbsRun(NOTHING, ops).value.kernel);
            && ValidOnly(Translate(s.e, s.kernel, PathOf(vpn))) == (if vpn in m then Some(m[vpn]) else None)
            && Carries(if vpn in m then Some(m[vpn]) else None, LastKernelCall(NoCall, ops, PathOf(vpn)))
  {
    hide Run, AbsRun, PathOf, Canonical, Translate, Carries, LastKernelCall;
    TablesAreMaps(e, next, end, ops, vpn);
  }

  /** In every run from boot the tables are trees: none is reachable twice, no frame is a table of
      two trees, and no table is a data frame. */
  lemma TablesStayTrees(e: Entries, next: nat, end: nat, ops: seq<Op>) returns (f: Forest)
    requires Sized(e) && Run(Boot(e, next, end), ops).Some?
    ensures var s := Run(Boot(e, next, end), ops).value;
            && f.kernel.root == s.kernel && Shape(s.e, f.kernel, 512) && Owned(f.kernel) !! s.data
            && |f.procs| == |s.procs|
            && (forall j | 0 <= j < |s.procs| :: f.procs[j].root == s.procs[j] && Shape(s.e, f.procs[j], 256)
                  && Owned(f.procs[j]) !! Owned(f.kernel) && Owned(f.procs[j]) !! s.data)
            && (forall j, k | 0 <= j < k < |s.procs| :: Owned(f.procs[j]) !! Owned(f.procs[k]))
  {
    hide RootShape, MidShape, Distinct, LeafAt, Owned, SharedTop, Run;
    BootRepresents(e, next, end);
    f := RunRefines(Boot(e, next, end), Forest(Tree(next, map[], map[]), []), NOTHING, ops);
    var s, a := Run(Boot(e, next, end), ops).value, AbsRun(NOTHING, ops).value;
    forall j | 0 <= j < |s.procs| ensures Shape(s.e, f.procs[j], 256) { assert ProcessOk(s, f.kernel, f.procs[j], a.procs[j]); }
  }

  /** A process keeps the root entries it was born with. */
  lemma {:induction false} TopsStay(a: Abs, ops: seq<Op>, j: nat)
    requires AbsRun(a, ops).Some? && j < |a.procs|
    ensures j < |AbsRun(a, ops).value.procs| && AbsRun(a, ops).value.procs[j].top == a.procs[j].top
    decreases |ops|
  {
    if ops != [] {
      TopsStay(AbsStep(a, ops[0]).value, ops[1..], j);
    }
  }

  /** Kernel-half sharing, exactly: right after `new_process` and after any later run, the new
      process sees a kernel page as the kernel does if and only if the kernel's root entry for
      it was in use at creation or the kernel maps nothing there now. */
  lemma KernelHalfShared(s: Sys, f: Forest, a: Abs, ops: seq<Op>, at: Path)
    requires Inv(s, f, a) && at.i >= 256 && Run(s, [NewProcess] + ops).Some?
    ensures var s' := Run(s, [NewProcess] + ops).value;
            && Sized(s'.e) && |s.procs| < |s'.procs|
            && (ValidOnly(Translate(s'.e, s'.procs[|s.procs|], at)) == ValidOnly(Translate(s'.e, s'.kernel, at))
                <==> s.e[s.kernel][at.i].flags.v || ValidOnly(Translate(s'.e, s'.kernel, at)).None?)
  {
    hide Inv;
    var all := [NewProcess] + ops;
    RootsAre(s, f, a, at.i);
    Sizes(s, f, a);
    assert all[0] == NewProcess && all[1..] == ops;
    var f' := RunRefines(s, f, a, all);
    var s', a' := Run(s, all).value, AbsRun(a, all).value;
    var a1 := AbsStep(a, NewProcess).value;
    var j := |s.procs|;
    TopsStay(a1, ops, j);
    Sizes(s', f', a');
    assert a'.procs[j].top == set i | i in a.roots && i >= 256;
    KernelViewRefines(s', f', a', at);
    ViewRefines(s', f', a', j, at);
  }

  /** The same for every process made in any run from boot. */
  lemma SharedFromBoot(e: Entries, next: nat, end: nat, before: seq<Op>, ops: seq<Op>, at: Path)
    requires Sized(e) && Run(Boot(e, next, end), before).Some? && at.i >= 256
    requires Run(Run(Boot(e, next, end), before).value, [NewProcess] + ops).Some?
    ensures var s := Run(Boot(e, next, end), before).value;
            var s' := Run(s, [NewProcess] + ops).value;
            && Sized(s.e) && s.kernel in s.e && Sized(s'.e) && |s.procs| < |s'.procs|
            && (ValidOnly(Translate(s'.e, s'.procs[|s.procs|], at)) == ValidOnly(Translate(s'.e, s'.kernel, at))
                <==> s.e[s.kernel][at.i].flags.v || ValidOnly(Translate(s'.e, s'.kernel, at)).None?)
  {
    hide Inv, Run;
    BootRepresents(e, next, end);
    var f := RunRefines(Boot(e, next, end), Forest(Tree(next, map[], map[]), []), NOTHING, before);
    RootsAre(Run(Boot(e, next, end), before).value, f, AbsRun(NOTHING, before).value, at.i);
    KernelHalfShared(Run(Boot(e, next, end), before).value, f, AbsRun(NOTHING, before).value, ops, at);
  }

  lemma Sizes(s: Sys, f: Forest, a: Abs)
    requires Inv(s, f, a)
    ensures |f.procs| == |s.procs| == |a.procs| && Sized(s.e)
  {
  }

  lemma RootsAre(s: Sys, f: Forest, a: Abs, i: nat)
    requires Inv(s, f, a) && i < 512
    ensures s.kernel in s.e && Sized(s.e) && (i in a.roots <==> s.e[s.kernel][i].flags.v)
  {
  }

  /** A process's own maps and unmaps change no other table's view. */
  lemma OthersUntouched(s: Sys, f: Forest, a: Abs, op: Op, k: nat, at: Path)
    requires Inv(s, f, a) && (op.ProcessMap? || op.ProcessUnmap?) && Step(s, op).Some? && k < |s.procs| && k != op.j
    ensures var s' := Step(s, op).value;
            && Sized(s'.e) && s'.procs == s.procs
            && ValidOnly(Translate(s'.e, s'.procs[k], at)) == ValidOnly(Translate(s.e, s.procs[k], at))
            && ValidOnly(Translate(s'.e, s'.kernel, at)) == ValidOnly(Translate(s.e, s.kernel, at))
  {
    StepRefines(s, f, a, op);
    ViewOther(a, op, k, at);
    SameProcesses(s, op);
    SameView(s, f, a, Step(s, op).value, NextForest(s, f, op), AbsStep(a, op).value, k, at);
  }

  lemma SameProcesses(s: Sys, op: Op)
    requires Sized(s.e) && (op.ProcessMap? || op.ProcessUnmap?) && Step(s, op).Some?
    ensures Step(s, op).value.procs == s.procs && Step(s, op).value.kernel == s.kernel
  {
  }

  lemma ViewOther(a: Abs, op: Op, k: nat, at: Path)
    requires (op.ProcessMap? || op.ProcessUnmap?) && AbsStep(a, op).Some? && k < |a.procs| && k != op.j
    ensures var a' := AbsStep(a, op).value; |a'.procs| == |a.procs| && View(a', k, at) == View(a, k, at) && a'.kernel == a.kernel
  {
  }

  lemma SameView(s: Sys, f: Forest, a: Abs, s': Sys, f': Forest, a': Abs, k: nat, at: Path)
    requires Inv(s, f, a) && Inv(s', f', a') && k < |s.procs| == |s'.procs|
    requires View(a', k, at) == View(a, k, at) && a'.kernel == a.kernel
    ensures ValidOnly(Translate(s'.e, s'.procs[k], at)) == ValidOnly(Translate(s.e, s.procs[k], at))
    ensures ValidOnly(Translate(s'.e, s'.kernel, at)) == ValidOnly(Translate(s.e, s.kernel, at))
  {
    ViewRefines(s, f, a, k, at);
    ViewRefines(s', f', a', k, at);
    KernelViewRefines(s, f, a, at);
    KernelViewRefines(s', f', a', at);
  }
}
