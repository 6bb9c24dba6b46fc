/** `PageTable` of os/src/mm/page_table.rs over bytes: every method is tied to the function
    of modules TableTree and AddressSpaces that says what it does to the decoded entries. */
module PageTables {
  import opened Bytes
  import opened Sv39
  import opened TableTree
  import opened AddressSpaces
  import opened PhysMem
  import Spaces

  /** Bytes of allocated frames outside `tables` are as before. */
  ghost predicate BytesKept(f: Frames, f': Frames, current: nat, tables: set<nat>)
  {
    forall p | p in f && p < current && p !in tables :: p in f' && f'[p] == f[p]
  }

  class PageTable {
    var root: nat
    var frames: seq<nat>

    /** The tree the frames form and the finite map it stands for, for root entries below `lim`. */
    ghost var tree: Tree
    ghost var mapping: Mapping
    ghost const lim: nat

    ghost predicate Valid(mem: Machine)
      reads this, mem
    {
      && mem.Valid() && lim <= 512 && root == tree.root
      && Represents(Look(mem.frames), tree, lim, mapping) && Below(tree, mem.current)
    }

    /** `PageTable::new`, for the kernel. */
    constructor (mem: Machine, ppn: nat)
      requires mem.Valid() && ppn < mem.current && mem.frames[ppn] == ZeroPage()
      ensures Valid(mem) && root == ppn && frames == [ppn] && mapping == map[] && lim == 512 && Owned(tree) == {ppn}
    {
      root := ppn;
      frames := [ppn];
      tree := Tree(ppn, map[], map[]);
      mapping := map[];
      lim := 512;
      LookZero(mem.frames, ppn);
      assert mem.frames[ppn := ZeroPage()] == mem.frames;
      new;
      EmptyTable(Look(mem.frames), ppn, 512);
    }

    /** `PageTable::new_process`: a zeroed frame whose upper half is copied from the kernel's root. */
    constructor NewProcess(mem: Machine, ppn: nat, kernelRoot: nat)
      requires mem.Valid() && ppn < mem.current && mem.frames[ppn] == ZeroPage()
      requires kernelRoot < mem.current && kernelRoot != ppn
      modifies mem`frames
      ensures Valid(mem) && root == ppn && frames == [ppn] && mapping == map[] && lim == 256 && Owned(tree) == {ppn}
      ensures mem.frames == old(mem.frames)[ppn := ZeroPage()[..2048] + old(mem.frames)[kernelRoot][2048..]]
      ensures Look(mem.frames)[ppn] == Spaces.ProcessRoot(old(Look(mem.frames))[kernelRoot])
    {
      root := ppn;
      frames := [ppn];
      tree := Tree(ppn, map[], map[]);
      mapping := map[];
      lim := 256;
      new;
      var page := ZeroPage()[..2048] + mem.frames[kernelRoot][2048..];
      ProcessRootBytes(mem.frames[kernelRoot]);
      mem.frames := mem.frames[ppn := page];
      EmptyLowerHalf(Look(mem.frames), ppn);
    }

    /** One level of `find_pte_create`. */
    method Descend(mem: Machine, table: nat, idx: nat) returns (child: Option<nat>)
      requires mem.Valid() && idx < 512 && table in mem.frames && table < mem.current
      modifies this`frames, mem
      ensures mem.Valid() && mem.end == old(mem.end) && mem.recycled == old(mem.recycled) && old(mem.current) <= mem.current
      ensures var r := TableTree.Descend(old(Look(mem.frames)), old(mem.current), mem.end, table, idx);
              && (child.None? <==> r.None?)
              && (child.Some? ==> r.value == Created(Look(mem.frames), mem.current, child.value))
      ensures frames == old(frames) + (if mem.current == old(mem.current) then [] else [old(mem.current)])
      ensures BytesKept(old(mem.frames), mem.frames, old(mem.current), {table})
    {
      var word := WordAt(mem.frames[table], idx);
      if PteValid(word) {
        return Some(PtePpn(word));
      }
      var frame := mem.FrameAlloc();
      if frame.None? {
        return None;
      }
      LookZero(old(mem.frames), frame.value);
      LookLink(mem.frames, table, idx, frame.value, V_ONLY);
      mem.frames := mem.frames[table := StoreWord(mem.frames[table], idx, PteNew(frame.value, V_ONLY))];
      frames := frames + [frame.value];
      return Some(frame.value);
    }

    /** `find_pte_create`, the loop over the two upper levels: the frame of the leaf table.
        `tables` are the frames the walk may find on its way. */
    method FindPteCreate(mem: Machine, at: Path, ghost tables: set<nat>) returns (leaf: Option<nat>)
      requires mem.Valid() && root in mem.frames && root < mem.current && root in tables
      requires SecondTable(TableTree.Descend(Look(mem.frames), mem.current, mem.end, root, at.i), mem.current, tables)
      modifies this`frames, mem
      ensures mem.Valid() && mem.end == old(mem.end) && mem.recycled == old(mem.recycled) && old(mem.current) <= mem.current
      ensures var r := Create(old(Look(mem.frames)), old(mem.current), mem.end, root, at.i, at.j);
              && (leaf.None? <==> r.None?)
              && (leaf.Some? ==> r.value == Created(Look(mem.frames), mem.current, leaf.value))
      ensures BytesKept(old(mem.frames), mem.frames, old(mem.current), tables)
    {
      var ppn: nat := root;
      ghost var f0, n0 := mem.frames, mem.current;
      ghost var mid := TableTree.Descend(Look(f0), n0, mem.end, root, at.i);
      var i := 0;
      while i < 2
        invariant 0 <= i <= 2 && mem.Valid() && mem.end == old(mem.end) && mem.recycled == old(mem.recycled) && n0 <= mem.current
        invariant i < 2 ==> ppn in mem.frames && ppn < mem.current && (ppn in tables || ppn >= n0)
        invariant i == 0 ==> mem.frames == f0 && mem.current == n0 && ppn == root
        invariant i == 1 ==> mid == Some(Created(Look(mem.frames), mem.current, ppn))
        invariant i == 2 ==> mid.Some? && TableTree.Descend(mid.value.e, mid.value.next, mem.end, mid.value.child, at.j) == Some(Created(Look(mem.frames), mem.current, ppn))
        invariant BytesKept(f0, mem.frames, n0, tables)
      {
        ghost var f1, n1 := mem.frames, mem.current;
        var child := Descend(mem, ppn, if i == 0 then at.i else at.j);
        BytesKeptTwice(f0, f1, mem.frames, n0, n1, tables, ppn);
        if child.None? {
          return None;
        }
        ppn := child.value;
        i := i + 1;
      }
      return Some(ppn);
    }

    /** The body of `map` and `map_allow_cover`, tied to what it does to the decoded entries. */
    method Store(mem: Machine, at: Path, ppn: nat, flags: Flags, cover: bool, ghost pte: Pte, ghost tables: set<nat>) returns (ok: bool)
      requires mem.Valid() && root in mem.frames && root < mem.current && root in tables
      requires SecondTable(TableTree.Descend(Look(mem.frames), mem.current, mem.end, root, at.i), mem.current, tables)
      requires ThirdTable(Create(Look(mem.frames), mem.current, mem.end, root, at.i, at.j), mem.current, tables)
      requires pte == Spaces.MapEntry(ppn, flags)
      modifies this`frames, mem
      ensures mem.Valid() && mem.end == old(mem.end) && mem.recycled == old(mem.recycled) && old(mem.current) <= mem.current
      ensures var r := AddressSpaces.Map(old(Look(mem.frames)), old(mem.current), mem.end, root, at, pte, cover);
              (ok <==> r.Done?) && (ok ==> r == Done(Look(mem.frames), mem.current))
      ensures BytesKept(old(mem.frames), mem.frames, old(mem.current), tables)
    {
      var leaf := FindPteCreate(mem, at, tables);
      if leaf.None? {
        return false;
      }
      if !cover && PteValid(WordAt(mem.frames[leaf.value], at.k)) {
        return false;
      }
      var full := Flags(true, flags.r, flags.w, flags.x, flags.u, flags.g, true, true);
      StoreEntry(mem, leaf.value, at.k, ppn, full, pte);
      return true;
    }

    /** `*pte = PageTableEntry::new(ppn, flags)`. */
    method StoreEntry(mem: Machine, table: nat, idx: nat, ppn: nat, flags: Flags, ghost pte: Pte)
      requires mem.Valid() && table in mem.frames && idx < 512 && pte == Pte(ppn % TWO44, flags)
      modifies mem`frames
      ensures mem.Valid() && Look(mem.frames) == SetEntry(old(Look(mem.frames)), table, idx, pte)
      ensures BytesKept(old(mem.frames), mem.frames, mem.current, {table})
    {
      LookStore(mem.frames, table, idx, ppn, flags);
      mem.frames := mem.frames[table := StoreWord(mem.frames[table], idx, PteNew(ppn, flags))];
    }

    /** `map` (`cover` false) and `map_allow_cover` (`cover` true). Failure is the panic on a
        page that is mapped already, or on running out of frames. */
    method Map(mem: Machine, vpn: nat, ppn: nat, flags: Flags, cover: bool) returns (ok: bool)
      requires Valid(mem) && PathOf(vpn).i < lim
      modifies this, mem
      ensures mem.Valid() && mem.end == old(mem.end) && mem.recycled == old(mem.recycled) && old(mem.current) <= mem.current && root == old(root)
      ensures ok <==> !(!cover && PathOf(vpn) in old(mapping)) && !OutOfFrames(old(tree), old(mem.current), mem.end, PathOf(vpn))
      ensures ok ==> Valid(mem) && mapping == old(mapping)[PathOf(vpn) := Spaces.MapEntry(ppn, flags)]
      ensures ok ==> PathOf(vpn) in mapping && Spaces.Carries(Some(mapping[PathOf(vpn)]), Spaces.Mapped(ppn, flags))
      ensures ok ==> tree == Grow(old(tree), PathOf(vpn).i, PathOf(vpn).j, old(mem.current))
      ensures BytesKept(old(mem.frames), mem.frames, old(mem.current), old(Owned(tree)))
    {
      var idxs := Indexes(vpn);
      var at: Path := Path(idxs[0], idxs[1], idxs[2]);
      ok := MapAt(mem, at, ppn, flags, cover, Spaces.MapEntry(ppn, flags));
    }

    method MapAt(mem: Machine, at: Path, ppn: nat, flags: Flags, cover: bool, ghost pte: Pte) returns (ok: bool)
      requires Valid(mem) && at.i < lim && pte == Spaces.MapEntry(ppn, flags)
      modifies this, mem
      ensures mem.Valid() && mem.end == old(mem.end) && mem.recycled == old(mem.recycled) && old(mem.current) <= mem.current && root == old(root)
      ensures ok <==> !(!cover && at in old(mapping)) && !OutOfFrames(old(tree), old(mem.current), mem.end, at)
      ensures ok ==> Valid(mem) && mapping == old(mapping)[at := pte] && tree == Grow(old(tree), at.i, at.j, old(mem.current))
      ensures BytesKept(old(mem.frames), mem.frames, old(mem.current), old(Owned(tree)))
    {
      hide Represents, Create, TableTree.Descend, AddressSpaces.Map, Owned;
      ghost var e0, n0 := Look(mem.frames), mem.current;
      MapPlan(e0, tree, lim, n0, mem.end, at, pte, cover, mapping);
      ok := Store(mem, at, ppn, flags, cover, pte, Owned(tree));
      if ok {
        tree := Grow(tree, at.i, at.j, n0);
        mapping := mapping[at := pte];
      }
    }

    /** `find_pte`: the walk without creation. */
    method FindPte(mem: Machine, at: Path) returns (leaf: Option<nat>)
      requires mem.Valid()
      ensures leaf == Walk(Look(mem.frames), root, at.i, at.j)
    {
      var ppn: nat := root;
      var i := 0;
      while i < 2
        invariant 0 <= i <= 2
        invariant i == 0 ==> ppn == root
        invariant i == 1 ==> root in mem.frames && Look(mem.frames)[root][at.i].flags.v && ppn == Look(mem.frames)[root][at.i].ppn
        invariant i == 2 ==> Walk(Look(mem.frames), root, at.i, at.j) == Some(ppn)
      {
        if ppn !in mem.frames {
          return None;
        }
        var word := WordAt(mem.frames[ppn], if i == 0 then at.i else at.j);
        if !PteValid(word) {
          return None;
        }
        ppn := PtePpn(word);
        i := i + 1;
      }
      return Some(ppn);
    }

    /** `translate`: any entry the walk ends in, valid or not. On a table that stands for
        `mapping` it finds the bindings and nothing else that is valid. */
    method Translate(mem: Machine, vpn: nat) returns (r: Option<Pte>)
      requires Valid(mem) && PathOf(vpn).i < lim
      ensures r == AddressSpaces.Translate(Look(mem.frames), root, PathOf(vpn))
      ensures PathOf(vpn) in mapping ==> r == Some(mapping[PathOf(vpn)])
      ensures PathOf(vpn) !in mapping ==> r.None? || !r.value.flags.v
    {
      var idxs := Indexes(vpn);
      var at: Path := Path(idxs[0], idxs[1], idxs[2]);
      r := TranslateAt(mem, at);
    }

    method TranslateAt(mem: Machine, at: Path) returns (r: Option<Pte>)
      requires Valid(mem) && at.i < lim
      ensures r == AddressSpaces.Translate(Look(mem.frames), root, at)
      ensures at in mapping ==> r == Some(mapping[at])
      ensures at !in mapping ==> r.None? || !r.value.flags.v
    {
      hide Represents;
      TranslateRefines(Look(mem.frames), tree, lim, mapping, at);
      var leaf := FindPte(mem, at);
      if leaf.None? || leaf.value !in mem.frames {
        return None;
      }
      return Some(Decode(WordAt(mem.frames[leaf.value], at.k)));
    }

    /** `unmap`: failure is the panic on a page that is not mapped. */
    method Unmap(mem: Machine, vpn: nat) returns (ok: bool)
      requires Valid(mem) && PathOf(vpn).i < lim
      modifies this`mapping, mem`frames
      ensures Valid(mem)
      ensures ok <==> PathOf(vpn) in old(mapping)
      ensures mapping == old(mapping) - {PathOf(vpn)}
      ensures BytesKept(old(mem.frames), mem.frames, mem.current, Owned(tree))
    {
      var idxs := Indexes(vpn);
      var at: Path := Path(idxs[0], idxs[1], idxs[2]);
      ok := UnmapAt(mem, at);
    }

    method UnmapAt(mem: Machine, at: Path) returns (ok: bool)
      requires Valid(mem) && at.i < lim
      modifies this`mapping, mem`frames
      ensures Valid(mem)
      ensures ok <==> at in old(mapping)
      ensures mapping == old(mapping) - {at}
      ensures BytesKept(old(mem.frames), mem.frames, mem.current, Owned(tree))
    {
      hide Represents, Owned, Below, Walk;
      UnmapPlan(Look(mem.frames), tree, lim, mem.current, at, mapping);
      var leaf := FindPte(mem, at);
      if leaf.None? || leaf.value !in mem.frames || !PteValid(WordAt(mem.frames[leaf.value], at.k)) {
        assert mapping == mapping - {at};
        return false;
      }
      LookClear(mem.frames, leaf.value, at.k);
      mem.frames := mem.frames[leaf.value := StoreWord(mem.frames[leaf.value], at.k, 0)];
      mapping := mapping - {at};
      return true;
    }
  }

  lemma UnmapPlan(e: Entries, t: Tree, lim: nat, next: nat, at: Path, m: Mapping)
    requires lim <= 512 && Represents(e, t, lim, m) && Below(t, next) && at.i < lim
    ensures var r := AddressSpaces.Unmap(e, next, t.root, at);
            && (r.Panic? <==> at !in m)
            && (r.Done? ==> Represents(r.e, t, lim, m - {at}) && r.next == next)
    ensures Walk(e, t.root, at.i, at.j).Some? ==> Walk(e, t.root, at.i, at.j).value in Owned(t)
  {
    UnmapRefines(e, t, lim, next, at, m);
    WalkFollowsTree(e, t, lim, at.i, at.j);
    OwnedMembers(t);
  }

  lemma MapPlan(e: Entries, t: Tree, lim: nat, next: nat, end: nat, at: Path, pte: Pte, cover: bool, m: Mapping)
    requires lim <= 512 && Represents(e, t, lim, m) && Below(t, next) && at.i < lim && pte.flags.v
    ensures t.root in e && t.root < next && t.root in Owned(t)
    ensures SecondTable(TableTree.Descend(e, next, end, t.root, at.i), next, Owned(t))
    ensures ThirdTable(Create(e, next, end, t.root, at.i, at.j), next, Owned(t))
    ensures var r := AddressSpaces.Map(e, next, end, t.root, at, pte, cover);
            var t' := Grow(t, at.i, at.j, next);
            && (r.Panic? <==> (!cover && at in m) || OutOfFrames(t, next, end, at))
            && (r.Done? ==> Represents(r.e, t', lim, m[at := pte]) && Below(t', r.next))
  {
    OwnedMembers(t);
    SecondLevel(e, t, lim, next, end, at.i);
    LeafTable(e, t, lim, next, end, at);
    MapRefines(e, t, lim, next, end, at, pte, cover, m);
  }

  ghost predicate ThirdTable(r: Option<Created>, next: nat, tables: set<nat>)
  {
    r.Some? ==> r.value.child in r.value.e && (r.value.child in tables || r.value.child >= next)
  }

  /** The leaf table too is in memory and either the tree's or new. */
  lemma LeafTable(e: Entries, t: Tree, lim: nat, next: nat, end: nat, at: Path)
    requires lim <= 512 && Shape(e, t, lim) && Below(t, next) && at.i < lim
    ensures ThirdTable(Create(e, next, end, t.root, at.i, at.j), next, Owned(t))
  {
    CreateCorrect(e, t, lim, next, end, at.i, at.j);
    OwnedMembers(t);
  }

  lemma BytesKeptTwice(f0: Frames, f1: Frames, f2: Frames, n0: nat, n1: nat, tables: set<nat>, table: nat)
    requires BytesKept(f0, f1, n0, tables) && BytesKept(f1, f2, n1, {table}) && n0 <= n1
    requires table in tables || table >= n0
    ensures BytesKept(f0, f2, n0, tables)
  {
  }

  ghost predicate SecondTable(r: Option<Created>, next: nat, tables: set<nat>)
  {
    r.Some? ==> r.value.child in r.value.e && r.value.child < r.value.next && (r.value.child in tables || r.value.child >= next)
  }

  /** The second-level table is in memory, allocated, and either the tree's or new. */
  lemma SecondLevel(e: Entries, t: Tree, lim: nat, next: nat, end: nat, i: nat)
    requires lim <= 512 && Shape(e, t, lim) && Below(t, next) && i < lim
    ensures SecondTable(TableTree.Descend(e, next, end, t.root, i), next, Owned(t))
  {
    DescendRoot(e, t, lim, next, end, i);
    OwnedMembers(t);
    OwnedMembers(GrowMid(t, i, next));
  }

  /** Copying the upper 2048 bytes copies the upper 256 entries. */
  lemma ProcessRootBytes(kernel: seq<Byte>)
    requires |kernel| == PAGE_SIZE
    ensures LookFrame(ZeroPage()[..2048] + kernel[2048..]) == Spaces.ProcessRoot(LookFrame(kernel))
  {
    var page := ZeroPage()[..2048] + kernel[2048..];
    forall i | 0 <= i < 512
      ensures LookFrame(page)[i] == Spaces.ProcessRoot(LookFrame(kernel))[i]
    {
      if i < 256 {
        var word := page[8 * i..8 * i + 8];
        forall k | 0 <= k < |word| ensures word[k] == 0 { assert page[8 * i + k] == ZeroPage()[8 * i + k]; }
        FromLEZeros(word);
        DecodeEntry(0, NO_FLAGS);
      } else {
        assert page[8 * i..8 * i + 8] == kernel[8 * i..8 * i + 8];
      }
    }
  }

  lemma EmptyLowerHalf(e: Entries, ppn: nat)
    requires Sized(e) && ppn in e && forall i | 0 <= i < 256 :: e[ppn][i] == EMPTY
    ensures Represents(e, Tree(ppn, map[], map[]), 256, map[]) && Owned(Tree(ppn, map[], map[])) == {ppn}
  {
    var t := Tree(ppn, map[], map[]);
    assert Owned(t) == {ppn};
    assert Shape(e, t, 256);
    assert forall at: Path :: LeafAt(e, t, at) == EMPTY;
  }

  lemma EmptyTable(e: Entries, ppn: nat, lim: nat)
    requires Sized(e) && lim <= 512 && ppn in e && e[ppn] == ZeroFrame()
    ensures Represents(e, Tree(ppn, map[], map[]), lim, map[]) && Owned(Tree(ppn, map[], map[])) == {ppn}
  {
    var t := Tree(ppn, map[], map[]);
    assert Owned(t) == {ppn};
    assert Shape(e, t, lim);
    assert forall at: Path :: LeafAt(e, t, at) == EMPTY;
  }
}
