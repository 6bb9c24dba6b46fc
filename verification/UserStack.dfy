/** The initial user stack: `MemorySet::build_stack` (os/src/mm/memory_set.rs) writes it while
    `exec` runs, and `_start` (user/src/lib.rs) parses the arguments back out of it. */
module UserStack {
  import opened Bytes
  import opened Sv39
  import opened TableTree
  import opened AddressSpaces
  import opened PhysMem
  import opened PageTables
  import opened MemorySets
  import opened Loader
  import Spaces

  /** During `exec`: the kernel still runs on the table `cur`; `new_` and its `pages` are the
      address space under construction, with no frame in common. */
  ghost predicate Exec(mem: Machine, cur: PageTable, new_: PageTable, pages: map<nat, nat>)
    reads mem, cur, new_
  {
    && Space(mem, new_, pages, 0) && cur != new_ && cur.Valid(mem) && cur.lim == 256
    && Owned(cur.tree) !! Owned(new_.tree) && Owned(cur.tree) !! pages.Values
  }

  lemma CoverKeeps(f: Frames, f': Frames, n: nat, n': nat, t: Tree, at: Path, nt: Tree, nm: Mapping, pages: map<nat, nat>)
    requires FramesOk(f) && FramesOk(f') && n <= n' && BytesKept(f, f', n, Owned(t))
    requires Represents(Look(f), nt, 256, nm) && Below(nt, n) && PagesOk(pages, nm, Owned(nt), n)
    requires Owned(t) !! Owned(nt) && Owned(t) !! pages.Values
    ensures Represents(Look(f'), nt, 256, nm) && Below(nt, n') && PagesOk(pages, nm, Owned(nt), n') && SamePages(f, f', pages)
    ensures Owned(Grow(t, at.i, at.j, n)) !! Owned(nt) && Owned(Grow(t, at.i, at.j, n)) !! pages.Values
  {
    hide Represents, Owned, PathOf, Grow;
    RepresentsFrame(Look(f), Look(f'), nt, 256, nm);
    Spaces.GrowOwned(t, at.i, at.j, n);
    assert forall v | v in pages :: pages[v] in pages.Values;
  }

  lemma SameBytes(f: Frames, f': Frames, pages: map<nat, nat>, va: nat)
    requires FramesOk(f) && FramesOk(f') && SamePages(f, f', pages) && forall v | v in pages :: pages[v] in f
    ensures VByte(f', pages, va) == VByte(f, pages, va)
  {
  }

  lemma SameHolds(f: Frames, f': Frames, f'': Frames, pages: map<nat, nat>, base: nat, data: seq<Byte>)
    requires FramesOk(f) && FramesOk(f') && SamePages(f, f', pages) && forall v | v in pages :: pages[v] in f
    requires Holds(f', f'', pages, base, data, |data|)
    ensures Holds(f, f'', pages, base, data, |data|)
  {
    hide VByte;
    forall va: nat ensures VByte(f', pages, va) == VByte(f, pages, va) {
      SameBytes(f, f', pages, va);
    }
  }

  const KERNEL_RW := Flags(false, true, true, false, false, false, false, false)

  /** The entry in the current table: the other space's frame, for the kernel to read and write. */
  ghost predicate Borrowed(pte: Pte, ppn: nat)
  {
    pte.ppn == ppn % TWO44 && pte.flags.v && pte.flags.r && pte.flags.w && !pte.flags.x && !pte.flags.u && !pte.flags.g
  }

  /** `write_to_user_ptr` and the store through the pointer it returns: find the frame in the
      new table, map it at the same address in the current one, write. Fails for lack of frames. */
  method WriteToUser(mem: Machine, cur: PageTable, new_: PageTable, va: nat, bytes: seq<Byte>, ghost pages: map<nat, nat>) returns (ok: bool)
    requires Exec(mem, cur, new_, pages) && Floor(va) in pages && PageOffset(va) + |bytes| <= PAGE_SIZE
    modifies mem, cur
    ensures ok ==> Exec(mem, cur, new_, pages) && Holds(old(mem.frames), mem.frames, pages, va, bytes, |bytes|)
    ensures ok ==> PathOf(Floor(va)) in cur.mapping && Borrowed(cur.mapping[PathOf(Floor(va))], pages[Floor(va)])
    ensures !ok ==> mem.current + 2 > mem.end
  {
    hide Represents, Owned, PathOf, Grow, Holds, VByte, Floor, PageOffset, Below;
    ghost var f0, n0, t0 := mem.frames, mem.current, cur.tree;
    SpaceFrames(mem, new_, pages, 0);
    LowPath(Floor(va));
    var ppn := PageOf(mem, new_, Floor(va), pages, 0);
    ok := cur.Map(mem, Floor(va), ppn, KERNEL_RW, true);
    if !ok {
      return;
    }
    CoverKeeps(f0, mem.frames, n0, mem.current, t0, PathOf(Floor(va)), new_.tree, new_.mapping, pages);
    ghost var f1 := mem.frames;
    var page := Overwrite(mem.frames[ppn], PageOffset(va), bytes);
    assert pages[Floor(va)] in pages.Values;
    DataWriteKeeps(mem.frames, ppn, page, cur.tree, 256, cur.mapping);
    WritePage(mem, new_, Floor(va), PageOffset(va), bytes, ppn, pages, 0);
    WriteHolds(f1, pages, va, bytes);
    SameHolds(f0, f1, mem.frames, pages, va, bytes);
  }

  lemma WriteHolds(f: Frames, pages: map<nat, nat>, va: nat, bytes: seq<Byte>)
    requires FramesOk(f) && Loader.Distinct(pages) && Floor(va) in pages && pages[Floor(va)] in f && PageOffset(va) + |bytes| <= PAGE_SIZE
    ensures Holds(f, f[pages[Floor(va)] := Overwrite(f[pages[Floor(va)]], PageOffset(va), bytes)], pages, va, bytes, |bytes|)
  {
    hide VByte;
    var p := pages[Floor(va)];
    var f' := f[p := Overwrite(f[p], PageOffset(va), bytes)];
    forall x: nat ensures VByte(f', pages, x) == if va <= x < va + |bytes| then bytes[x - va] else VByte(f, pages, x) {
      WriteInPage(f, pages, Floor(va), PageOffset(va), bytes, x);
      FloorOffset(x, Floor(va), PageOffset(va), |bytes|);
      FloorOffset(va, Floor(va), 0, PAGE_SIZE);
    }
  }

  // ---- what lies on the stack

  /** No byte at or above `from` has changed. */
  ghost predicate Frozen(f: Frames, f': Frames, pages: map<nat, nat>, from: nat)
  {
    forall x: nat | x >= from :: VByte(f', pages, x) == VByte(f, pages, x)
  }

  /** The string `s` and its terminating zero are at `p`. */
  ghost predicate CStr(f: Frames, pages: map<nat, nat>, p: nat, s: seq<Byte>)
  {
    (forall k | 0 <= k < |s| :: VByte(f, pages, p + k) == s[k]) && VByte(f, pages, p + |s|) == 0
  }

  function VWord(f: Frames, pages: map<nat, nat>, va: nat): nat
  {
    FromLE(VRead(f, pages, va, 8))
  }

  /** The words `ws` lie one after the other from `base` on. */
  ghost predicate Words(f: Frames, pages: map<nat, nat>, base: nat, ws: seq<nat>)
  {
    forall k | 0 <= k < |ws| :: VWord(f, pages, base + 8 * k) == ws[k]
  }

  /** `[lo, hi)` is mapped. */
  ghost predicate Covers(pages: map<nat, nat>, lo: nat, hi: nat)
  {
    forall va: nat | lo <= va < hi :: Floor(va) in pages
  }

  lemma FrozenTwice(f0: Frames, f1: Frames, f2: Frames, pages: map<nat, nat>, from0: nat, from1: nat)
    requires Frozen(f0, f1, pages, from0) && Frozen(f1, f2, pages, from1) && from1 <= from0
    ensures Frozen(f0, f2, pages, from0)
  {
    hide VByte;
  }

  lemma CStrFrozen(f: Frames, f': Frames, pages: map<nat, nat>, from: nat, p: nat, s: seq<Byte>)
    requires CStr(f, pages, p, s) && Frozen(f, f', pages, from) && p >= from
    ensures CStr(f', pages, p, s)
  {
    hide VByte;
  }

  lemma WordsFrozen(f: Frames, f': Frames, pages: map<nat, nat>, from: nat, base: nat, ws: seq<nat>)
    requires Words(f, pages, base, ws) && Frozen(f, f', pages, from) && base >= from
    ensures Words(f', pages, base, ws)
  {
    hide VByte;
    forall k | 0 <= k < |ws| ensures VWord(f', pages, base + 8 * k) == ws[k] {
      assert VRead(f', pages, base + 8 * k, 8) == VRead(f, pages, base + 8 * k, 8);
    }
  }

  lemma HoldsFrozen(f: Frames, f': Frames, pages: map<nat, nat>, va: nat, bytes: seq<Byte>)
    requires Holds(f, f', pages, va, bytes, |bytes|)
    ensures Frozen(f, f', pages, va + |bytes|)
    ensures forall k | 0 <= k < |bytes| :: VByte(f', pages, va + k) == bytes[k]
    ensures forall x: nat | x < va :: VByte(f', pages, x) == VByte(f, pages, x)
  {
    hide VByte;
  }

  // ---- strings

  /** The first `n` bytes of the string with its terminator are at `p`. */
  ghost predicate Prefix(f: Frames, pages: map<nat, nat>, p: nat, s: seq<Byte>, n: nat)
    requires n <= |s|
  {
    forall k | 0 <= k < n :: VByte(f, pages, p + k) == s[k]
  }

  lemma PrefixStep(f: Frames, f': Frames, pages: map<nat, nat>, p: nat, s: seq<Byte>, n: nat, b: Byte)
    requires n < |s| && b == s[n] && Prefix(f, pages, p, s, n) && Holds(f, f', pages, p + n, [b], 1)
    ensures Prefix(f', pages, p, s, n + 1)
  {
    hide VByte;
  }

  lemma OneByteFits(va: nat)
    ensures PageOffset(va) + 1 <= PAGE_SIZE
  {
  }

  /** One string of `push_stack`: byte by byte, then the zero. */
  method PushString(mem: Machine, cur: PageTable, new_: PageTable, sp: nat, s: seq<Byte>, ghost pages: map<nat, nat>) returns (ok: bool)
    requires Exec(mem, cur, new_, pages) && Covers(pages, sp, sp + |s| + 1)
    modifies mem, cur
    ensures ok ==> Exec(mem, cur, new_, pages)
    ensures ok ==> CStr(mem.frames, pages, sp, s) && Frozen(old(mem.frames), mem.frames, pages, sp + |s| + 1)
    ensures !ok ==> mem.current + 2 > mem.end
  {
    hide VByte, Exec, Holds, Frozen, Prefix, Floor, PageOffset, CStr;
    ghost var f0, full := mem.frames, s + [0];
    var n := 0;
    NothingYet(f0, pages, sp, full);
    while n < |s|
      invariant 0 <= n <= |s| && Exec(mem, cur, new_, pages)
      invariant Prefix(mem.frames, pages, sp, full, n) && Frozen(f0, mem.frames, pages, sp + |s| + 1)
    {
      ghost var f1 := mem.frames;
      OneByteFits(sp + n);
      ok := WriteToUser(mem, cur, new_, sp + n, [s[n]], pages);
      if !ok {
        return;
      }
      PrefixStep(f1, mem.frames, pages, sp, full, n, s[n]);
      StillFrozen(f0, f1, mem.frames, pages, sp + n, [s[n]], sp + |s| + 1);
      n := n + 1;
    }
    ghost var f1 := mem.frames;
    OneByteFits(sp + n);
    ok := WriteToUser(mem, cur, new_, sp + n, [0], pages);
    if ok {
      PrefixStep(f1, mem.frames, pages, sp, full, n, 0);
      StillFrozen(f0, f1, mem.frames, pages, sp + n, [0], sp + |s| + 1);
      WholeString(mem.frames, pages, sp, s);
    }
  }

  lemma NothingYet(f: Frames, pages: map<nat, nat>, p: nat, s: seq<Byte>)
    ensures Prefix(f, pages, p, s, 0) && forall from: nat :: Frozen(f, f, pages, from)
  {
  }

  lemma StillFrozen(f0: Frames, f1: Frames, f2: Frames, pages: map<nat, nat>, va: nat, bytes: seq<Byte>, from: nat)
    requires Frozen(f0, f1, pages, from) && Holds(f1, f2, pages, va, bytes, |bytes|) && va + |bytes| <= from
    ensures Frozen(f0, f2, pages, from)
  {
    hide VByte;
  }

  lemma WholeString(f: Frames, pages: map<nat, nat>, p: nat, s: seq<Byte>)
    requires Prefix(f, pages, p, s + [0], |s| + 1)
    ensures CStr(f, pages, p, s)
  {
    hide VByte;
    var full := s + [0];
    forall k | 0 <= k < |s| ensures VByte(f, pages, p + k) == s[k] {
      assert full[k] == s[k];
    }
    assert full[|s|] == 0;
  }

  /** Room the strings take, terminators included. */
  function Room(parms: seq<seq<Byte>>): nat
  {
    if parms == [] then 0 else Room(parms[..|parms| - 1]) + |parms[|parms| - 1]| + 1
  }

  /** All strings are in place at their pointers, between `lo` and `hi`. */
  ghost predicate Strings(f: Frames, pages: map<nat, nat>, ptrs: seq<nat>, parms: seq<seq<Byte>>, lo: nat, hi: nat)
  {
    && |ptrs| == |parms|
    && (forall i | 0 <= i < |parms| :: CStr(f, pages, ptrs[i], parms[i]))
    && (forall i | 0 <= i < |parms| :: lo <= ptrs[i] && ptrs[i] + |parms[i]| < hi)
  }

  lemma StringsFrozen(f: Frames, f': Frames, pages: map<nat, nat>, ptrs: seq<nat>, parms: seq<seq<Byte>>, lo: nat, hi: nat, from: nat)
    requires Strings(f, pages, ptrs, parms, lo, hi) && Frozen(f, f', pages, from) && from <= lo
    ensures Strings(f', pages, ptrs, parms, lo, hi)
  {
    hide CStr;
    forall i | 0 <= i < |parms| ensures CStr(f', pages, ptrs[i], parms[i]) {
      CStrFrozen(f, f', pages, from, ptrs[i], parms[i]);
    }
  }

  lemma StringsStep(f: Frames, f': Frames, pages: map<nat, nat>, ptrs: seq<nat>, parms: seq<seq<Byte>>, lo: nat, hi: nat, p: nat, s: seq<Byte>)
    requires Strings(f, pages, ptrs, parms, lo, hi) && Frozen(f, f', pages, lo) && CStr(f', pages, p, s) && p + |s| + 1 == lo <= hi
    ensures Strings(f', pages, ptrs + [p], parms + [s], p, hi)
  {
    hide CStr;
    StringsFrozen(f, f', pages, ptrs, parms, lo, hi, lo);
  }

  lemma RoomStep(parms: seq<seq<Byte>>, i: nat)
    requires i < |parms|
    ensures Room(parms[..i + 1]) == Room(parms[..i]) + |parms[i]| + 1
  {
    assert parms[..i + 1][..i] == parms[..i];
  }

  /** A prefix takes no more room than the whole. */
  lemma {:induction false} RoomPrefix(parms: seq<seq<Byte>>, i: nat)
    requires i <= |parms|
    ensures Room(parms[..i]) <= Room(parms)
    decreases |parms| - i
  {
    if i < |parms| {
      RoomStep(parms, i);
      RoomPrefix(parms, i + 1);
    } else {
      assert parms[..i] == parms;
    }
  }

  /** `push_stack`: the strings go down from `sp`, each below the one before. */
  method PushStack(mem: Machine, cur: PageTable, new_: PageTable, parms: seq<seq<Byte>>, sp0: nat, ghost pages: map<nat, nat>)
    returns (ok: bool, sp: nat, ptrs: seq<nat>)
    requires Exec(mem, cur, new_, pages) && Room(parms) <= sp0 && Covers(pages, sp0 - Room(parms), sp0)
    modifies mem, cur
    ensures ok ==> Exec(mem, cur, new_, pages) && sp == sp0 - Room(parms)
    ensures ok ==> Strings(mem.frames, pages, ptrs, parms, sp, sp0) && Frozen(old(mem.frames), mem.frames, pages, sp0)
    ensures !ok ==> mem.current + 2 > mem.end
  {
    hide VByte, Exec, Frozen, Strings, CStr, Room, Floor;
    ghost var f0 := mem.frames;
    sp, ptrs := sp0, [];
    NoStrings(f0, pages, sp0, parms);
    var i := 0;
    while i < |parms|
      invariant 0 <= i <= |parms| && Exec(mem, cur, new_, pages)
      invariant sp + Room(parms[..i]) == sp0
      invariant Strings(mem.frames, pages, ptrs, parms[..i], sp, sp0) && Frozen(f0, mem.frames, pages, sp0)
    {
      RoomStep(parms, i);
      RoomPrefix(parms, i + 1);
      ghost var f1, sp1 := mem.frames, sp;
      sp := sp - (|parms[i]| + 1);
      ok := PushString(mem, cur, new_, sp, parms[i], pages);
      if !ok {
        return;
      }
      StringsStep(f1, mem.frames, pages, ptrs, parms[..i], sp1, sp0, sp, parms[i]);
      FrozenTwice(f0, f1, mem.frames, pages, sp0, sp1);
      assert parms[..i] + [parms[i]] == parms[..i + 1];
      ptrs := ptrs + [sp];
      i := i + 1;
    }
    assert parms[..i] == parms;
    ok := true;
  }

  lemma NoStrings(f: Frames, pages: map<nat, nat>, sp: nat, parms: seq<seq<Byte>>)
    ensures Strings(f, pages, [], parms[..0], sp, sp) && Frozen(f, f, pages, sp) && Room(parms[..0]) == 0
  {
  }

  // ---- words

  lemma WordFits(va: nat)
    requires va % 8 == 0
    ensures PageOffset(va) + 8 <= PAGE_SIZE
  {
  }

  lemma WordHeld(f: Frames, f': Frames, pages: map<nat, nat>, va: nat, w: nat)
    requires w < TWO64 && Holds(f, f', pages, va, ToLE(w, 8), 8)
    ensures VWord(f', pages, va) == w
  {
    hide VByte, ToLE, FromLE, Pow256;
    assert VRead(f', pages, va, 8) == ToLE(w, 8);
    Pow256Of8();
    LERoundTrip(w, 8);
  }

  lemma WordsStep(f: Frames, f': Frames, pages: map<nat, nat>, base: nat, ws: seq<nat>, w: nat)
    requires Words(f, pages, base, ws) && w < TWO64 && Holds(f, f', pages, base + 8 * |ws|, ToLE(w, 8), 8)
    ensures Words(f', pages, base, ws + [w])
  {
    hide VByte, Holds, VWord, ToLE, FromLE;
    WordHeld(f, f', pages, base + 8 * |ws|, w);
    HoldsFrozen(f, f', pages, base + 8 * |ws|, ToLE(w, 8));
    forall k | 0 <= k < |ws| ensures VWord(f', pages, base + 8 * k) == ws[k] {
      SameWord(f, f', pages, base + 8 * k, base + 8 * |ws|);
    }
  }

  lemma SameWord(f: Frames, f': Frames, pages: map<nat, nat>, va: nat, limit: nat)
    requires va + 8 <= limit && forall x: nat | x < limit :: VByte(f', pages, x) == VByte(f, pages, x)
    ensures VWord(f', pages, va) == VWord(f, pages, va)
  {
    hide VByte;
    assert VRead(f', pages, va, 8) == VRead(f, pages, va, 8);
  }

  /** The array loops of `build_stack`: consecutive words upwards from `base`. */
  method WriteWords(mem: Machine, cur: PageTable, new_: PageTable, base: nat, ws: seq<nat>, ghost pages: map<nat, nat>) returns (ok: bool)
    requires Exec(mem, cur, new_, pages) && base % 8 == 0 && Covers(pages, base, base + 8 * |ws|)
    requires forall k | 0 <= k < |ws| :: ws[k] < TWO64
    modifies mem, cur
    ensures ok ==> Exec(mem, cur, new_, pages)
    ensures ok ==> Words(mem.frames, pages, base, ws) && Frozen(old(mem.frames), mem.frames, pages, base + 8 * |ws|)
    ensures !ok ==> mem.current + 2 > mem.end
  {
    hide VByte, Exec, Frozen, Words, Holds, Floor, PageOffset, ToLE, FromLE;
    ghost var f0 := mem.frames;
    NoWords(f0, pages, base, ws);
    var k := 0;
    while k < |ws|
      invariant 0 <= k <= |ws| && Exec(mem, cur, new_, pages)
      invariant Words(mem.frames, pages, base, ws[..k]) && Frozen(f0, mem.frames, pages, base + 8 * |ws|)
    {
      ghost var f1 := mem.frames;
      WordFits(base + 8 * k);
      ok := WriteToUser(mem, cur, new_, base + 8 * k, ToLE(ws[k], 8), pages);
      if !ok {
        return;
      }
      WordsStep(f1, mem.frames, pages, base, ws[..k], ws[k]);
      assert ws[..k] + [ws[k]] == ws[..k + 1];
      StillFrozen(f0, f1, mem.frames, pages, base + 8 * k, ToLE(ws[k], 8), base + 8 * |ws|);
      k := k + 1;
    }
    assert ws[..k] == ws;
    ok := true;
  }

  lemma NoWords(f: Frames, pages: map<nat, nat>, base: nat, ws: seq<nat>)
    ensures Words(f, pages, base, ws[..0]) && forall from: nat :: Frozen(f, f, pages, from)
  {
  }

  lemma WordsJoin(f: Frames, f': Frames, pages: map<nat, nat>, base: nat, xs: seq<nat>, ys: seq<nat>)
    requires Words(f', pages, base, xs) && Words(f, pages, base + 8 * |xs|, ys) && Frozen(f, f', pages, base + 8 * |xs|)
    ensures Words(f', pages, base, xs + ys)
  {
    hide VWord, Frozen;
    WordsFrozen(f, f', pages, base + 8 * |xs|, base + 8 * |xs|, ys);
    forall k | 0 <= k < |xs + ys| ensures VWord(f', pages, base + 8 * k) == (xs + ys)[k] {
      if k >= |xs| {
        assert VWord(f', pages, base + 8 * |xs| + 8 * (k - |xs|)) == ys[k - |xs|];
      }
    }
  }

  // ---- build_stack

  datatype Aux = Aux(kind: nat, value: nat)

  const AT_NULL: nat := 0
  const AT_RANDOM: nat := 25
  const AT_EXECFN: nat := 31

  function Flatten(auxv: seq<Aux>): (r: seq<nat>)
    ensures |r| == 2 * |auxv|
    ensures forall k | 0 <= k < |auxv| :: r[2 * k] == auxv[k].kind && r[2 * k + 1] == auxv[k].value
  {
    if auxv == [] then [] else Flatten(auxv[..|auxv| - 1]) + [auxv[|auxv| - 1].kind, auxv[|auxv| - 1].value]
  }

  /** The words of the stack from its pointer up: `argc`, `argv[]`, `envp[]`, `auxv[]`. */
  function Table(argPtrs: seq<nat>, envPtrs: seq<nat>, aux: seq<nat>): seq<nat>
  {
    var argc: nat := |argPtrs|;
    [argc] + (argPtrs + [0]) + (envPtrs + [0]) + aux
  }

  /** Where everything goes, from the top of the stack down. */
  datatype Layout = Layout(env: int, arg: int, rand: int, auxBase: int, envpBase: int, argvBase: int, sp: int)

  function Down(x: int, n: nat): int
    requires n > 0
  {
    x - x % n
  }

  function Place(top: int, argv: seq<seq<Byte>>, envp: seq<seq<Byte>>, auxv: seq<Aux>): Layout
  {
    var env := Down(top - 16 - Room(envp), 8);
    var arg := Down(env - Room(argv), 8);
    var rand := arg - 16;
    var auxBase := Down(rand, 16) - 16 * (|auxv| + 3);
    var envpBase := auxBase - 8 * (|envp| + 1);
    var argvBase := envpBase - 8 * (|argv| + 1);
    Layout(env, arg, rand, auxBase, envpBase, argvBase, argvBase - 8)
  }

  /** The finished stack: `argc`, the argument and environment pointers, each list closed by a
      null, and the auxiliary vector, in one unbroken run of words from `sp`; the strings and
      the sixteen random bytes lie above. */
  ghost predicate Image(f: Frames, pages: map<nat, nat>, l: Layout, argv: seq<seq<Byte>>, envp: seq<seq<Byte>>, auxv: seq<Aux>,
                        argPtrs: seq<nat>, envPtrs: seq<nat>, top: nat)
  {
    && 0 <= l.sp <= l.rand <= l.arg <= l.env <= top && l.sp % 8 == 0 && |argPtrs| == |argv|
    && Words(f, pages, l.sp, Table(argPtrs, envPtrs, Flatten(FullAux(auxv, l.rand, argPtrs))))
    && Words(f, pages, l.rand, [0x01020304050607, 0x08090a0b0c0d0e0f])
    && Strings(f, pages, argPtrs, argv, l.arg, l.env)
    && Strings(f, pages, envPtrs, envp, l.env, top)
  }

  function FullAux(auxv: seq<Aux>, rand: int, argPtrs: seq<nat>): seq<Aux>
    requires rand >= 0
  {
    auxv + [Aux(AT_RANDOM, rand), Aux(AT_EXECFN, if argPtrs == [] then 0 else argPtrs[0]), Aux(AT_NULL, 0)]
  }

  lemma DownFacts(x: int)
    ensures x - 8 < Down(x, 8) <= x && Down(x, 8) % 8 == 0
    ensures x - 16 < Down(x, 16) <= x && Down(x, 16) % 8 == 0 && Down(x, 16) % 16 == 0
  {
    assert Down(x, 8) == 8 * (x / 8);
    assert Down(x, 16) == 8 * (2 * (x / 16));
    Eights(x / 8);
    Eights(2 * (x / 16));
  }

  lemma Eights(k: int)
    ensures 8 * k % 8 == 0
  {
  }

  lemma Below8(x: int, n: int)
    requires x % 8 == 0
    ensures (x - 8 * n) % 8 == 0
  {
  }

  lemma Below16(x: int, n: int)
    requires x % 16 == 0
    ensures (x - 16 * n) % 16 == 0
  {
  }

  lemma PlaceOrder(top: nat, argv: seq<seq<Byte>>, envp: seq<seq<Byte>>, auxv: seq<Aux>)
    ensures var l := Place(top, argv, envp, auxv);
            && l.sp + 8 == l.argvBase && l.argvBase + 8 * (|argv| + 1) == l.envpBase && l.envpBase + 8 * (|envp| + 1) == l.auxBase
            && l.auxBase + 16 * (|auxv| + 3) <= l.rand && l.rand + 16 == l.arg
            && l.env - Room(argv) - 8 < l.arg <= l.env - Room(argv) && top - 16 - Room(envp) - 8 < l.env <= top - 16 - Room(envp)
            && l.rand < l.auxBase + 16 * (|auxv| + 3) + 16 && l.auxBase % 16 == 0
            && l.env % 8 == 0 && l.rand % 8 == 0 && l.auxBase % 8 == 0 && l.sp % 8 == 0
  {
    hide Room, Down;
    var l := Place(top, argv, envp, auxv);
    DownFacts(top - 16 - Room(envp));
    DownFacts(l.env - Room(argv));
    DownFacts(l.rand);
    Below8(l.arg, 2);
    Below8(Down(l.rand, 16), 2 * (|auxv| + 3));
    Below16(Down(l.rand, 16), |auxv| + 3);
    Below8(l.auxBase, |envp| + |argv| + 3);
  }

  lemma StringsWiden(f: Frames, pages: map<nat, nat>, ptrs: seq<nat>, parms: seq<seq<Byte>>, lo: nat, hi: nat, lo': nat, hi': nat)
    requires Strings(f, pages, ptrs, parms, lo, hi) && lo' <= lo && hi <= hi'
    ensures Strings(f, pages, ptrs, parms, lo', hi')
  {
  }

  lemma CoversPart(pages: map<nat, nat>, lo: nat, hi: nat, lo': nat, hi': nat)
    requires Covers(pages, lo, hi) && lo <= lo' && hi' <= hi
    ensures Covers(pages, lo', hi')
  {
    hide Floor;
  }

  lemma FullAuxSmall(auxv: seq<Aux>, rand: nat, argPtrs: seq<nat>)
    requires forall k | 0 <= k < |auxv| :: auxv[k].kind < TWO64 && auxv[k].value < TWO64
    requires rand < TWO64 && forall i | 0 <= i < |argPtrs| :: argPtrs[i] < TWO64
    ensures |Flatten(FullAux(auxv, rand, argPtrs))| == 2 * (|auxv| + 3)
    ensures forall k | 0 <= k < |Flatten(FullAux(auxv, rand, argPtrs))| :: Flatten(FullAux(auxv, rand, argPtrs))[k] < TWO64
  {
    hide Flatten;
    var xs := FullAux(auxv, rand, argPtrs);
    var ws := Flatten(xs);
    forall k | 0 <= k < |ws| ensures ws[k] < TWO64 {
      assert ws[2 * (k / 2)] == xs[k / 2].kind && ws[2 * (k / 2) + 1] == xs[k / 2].value;
      assert k == 2 * (k / 2) || k == 2 * (k / 2) + 1;
    }
  }

  lemma PtrsSmall(f: Frames, pages: map<nat, nat>, ptrs: seq<nat>, parms: seq<seq<Byte>>, lo: nat, hi: nat)
    requires Strings(f, pages, ptrs, parms, lo, hi) && hi <= TWO64
    ensures |ptrs| == |parms| && forall i | 0 <= i < |ptrs| :: ptrs[i] < TWO64
  {
  }

  /** The pointer part of `build_stack`: auxiliary vector, environment and argument pointers,
      `argc`, each block written right below the one before. */
  method WriteTables(mem: Machine, cur: PageTable, new_: PageTable, aux: seq<nat>, envPtrs: seq<nat>, argPtrs: seq<nat>, auxBase: nat, ghost pages: map<nat, nat>)
    returns (ok: bool, sp: nat)
    requires Exec(mem, cur, new_, pages) && auxBase % 8 == 0 && 8 * (|envPtrs| + |argPtrs| + 3) <= auxBase
    requires Covers(pages, auxBase - 8 * (|envPtrs| + |argPtrs| + 3), auxBase + 8 * |aux|)
    requires forall k | 0 <= k < |aux| :: aux[k] < TWO64
    requires forall k | 0 <= k < |envPtrs| :: envPtrs[k] < TWO64
    requires forall k | 0 <= k < |argPtrs| :: argPtrs[k] < TWO64
    requires |argPtrs| < TWO64
    modifies mem, cur
    ensures ok ==> Exec(mem, cur, new_, pages) && sp == auxBase - 8 * (|envPtrs| + |argPtrs| + 3)
    ensures ok ==> Words(mem.frames, pages, sp, Table(argPtrs, envPtrs, aux))
    ensures ok ==> Frozen(old(mem.frames), mem.frames, pages, auxBase + 8 * |aux|)
    ensures !ok ==> mem.current + 2 > mem.end
  {
    hide VByte, Exec, Frozen, Words, Covers;
    sp := 0;
    Below8(auxBase, |envPtrs| + 1);
    Below8(auxBase, |envPtrs| + |argPtrs| + 2);
    Below8(auxBase, |envPtrs| + |argPtrs| + 3);
    ghost var lo: nat, hi: nat := auxBase - 8 * (|envPtrs| + |argPtrs| + 3), auxBase + 8 * |aux|;
    ghost var f0 := mem.frames;
    CoversPart(pages, lo, hi, auxBase, hi);
    ok := WriteWords(mem, cur, new_, auxBase, aux, pages);
    if !ok { return; }
    ghost var f1 := mem.frames;
    var envpBase := auxBase - 8 * (|envPtrs| + 1);
    CoversPart(pages, lo, hi, envpBase, auxBase);
    ok := WriteWords(mem, cur, new_, envpBase, envPtrs + [0], pages);
    if !ok { return; }
    ghost var f2 := mem.frames;
    WordsJoin(f1, f2, pages, envpBase, envPtrs + [0], aux);
    FrozenTwice(f0, f1, f2, pages, hi, auxBase);
    var argvBase := envpBase - 8 * (|argPtrs| + 1);
    CoversPart(pages, lo, hi, argvBase, envpBase);
    ok := WriteWords(mem, cur, new_, argvBase, argPtrs + [0], pages);
    if !ok { return; }
    ghost var f3 := mem.frames;
    WordsJoin(f2, f3, pages, argvBase, argPtrs + [0], envPtrs + [0] + aux);
    FrozenTwice(f0, f2, f3, pages, hi, envpBase);
    sp := argvBase - 8;
    CoversPart(pages, lo, hi, sp, argvBase);
    ok := WriteWords(mem, cur, new_, sp, [|argPtrs|], pages);
    if !ok { return; }
    WordsJoin(f3, mem.frames, pages, sp, [|argPtrs|], argPtrs + [0] + (envPtrs + [0] + aux));
    FrozenTwice(f0, f3, mem.frames, pages, hi, argvBase);
    assert [|argPtrs|] + (argPtrs + [0] + (envPtrs + [0] + aux)) == Table(argPtrs, envPtrs, aux);
  }

  /** `build_stack`. The caller must have mapped the stack down to where the layout ends. */
  method BuildStack(mem: Machine, cur: PageTable, new_: PageTable, top: nat, argv: seq<seq<Byte>>, envp: seq<seq<Byte>>, auxv: seq<Aux>, ghost pages: map<nat, nat>)
    returns (ok: bool, l: Layout, argPtrs: seq<nat>, envPtrs: seq<nat>)
    requires Exec(mem, cur, new_, pages) && top < TWO64 && |argv| < TWO64
    requires Place(top, argv, envp, auxv).sp >= 0 && Covers(pages, Place(top, argv, envp, auxv).sp, top)
    requires forall k | 0 <= k < |auxv| :: auxv[k].kind < TWO64 && auxv[k].value < TWO64
    modifies mem, cur
    ensures ok ==> Exec(mem, cur, new_, pages) && l == Place(top, argv, envp, auxv)
    ensures ok ==> Image(mem.frames, pages, l, argv, envp, auxv, argPtrs, envPtrs, top)
    ensures ok ==> Tables(mem.frames, pages, l, argv, auxv, argPtrs, envPtrs)
    ensures ok ==> Frozen(old(mem.frames), mem.frames, pages, top)
    ensures !ok ==> mem.current + 2 > mem.end
  {
    hide VByte, Exec, Frozen, Words, Covers, Strings, Room, Flatten, FullAux, Down, Tables;
    ghost var f0 := mem.frames;
    ghost var place := Place(top, argv, envp, auxv);
    PlaceOrder(top, argv, envp, auxv);
    l := Layout(0, 0, 0, 0, 0, 0, 0);
    argPtrs := [];
    var sp: nat := top - 16;
    CoversPart(pages, place.sp, top, sp - Room(envp), sp);
    ok, sp, envPtrs := PushStack(mem, cur, new_, envp, sp, pages);
    if !ok { return; }
    ghost var f1, sp1 := mem.frames, sp;
    sp := Down(sp, 8);
    var env := sp;
    CoversPart(pages, place.sp, top, sp - Room(argv), sp);
    ok, sp, argPtrs := PushStack(mem, cur, new_, argv, sp, pages);
    if !ok { return; }
    ghost var f2, sp2 := mem.frames, sp;
    sp := Down(sp, 8);
    var arg := sp;
    sp := sp - 16;
    var rand := sp;
    CoversPart(pages, place.sp, top, rand, rand + 16);
    ok := WriteWords(mem, cur, new_, rand, [0x01020304050607, 0x08090a0b0c0d0e0f], pages);
    if !ok { return; }
    ghost var f3 := mem.frames;
    sp := Down(sp, 16);
    var aux := Flatten(FullAux(auxv, rand, argPtrs));
    PtrsSmall(f1, pages, envPtrs, envp, sp1, top - 16);
    PtrsSmall(f2, pages, argPtrs, argv, sp2, env);
    FullAuxSmall(auxv, rand, argPtrs);
    sp := sp - |aux| * 8;
    var auxBase := sp;
    CoversPart(pages, place.sp, top, place.sp, auxBase + 8 * |aux|);
    ok, sp := WriteTables(mem, cur, new_, aux, envPtrs, argPtrs, auxBase, pages);
    if !ok { return; }
    ghost var f4 := mem.frames;
    l := Layout(env, arg, rand, auxBase, auxBase - 8 * (|envPtrs| + 1), sp + 8, sp);
    assert l == place;
    Settle(f0, f1, f2, f3, f4, pages, place, argv, envp, auxv, argPtrs, envPtrs, top, sp1, sp2);
    ImageTables(f4, pages, place, argv, auxv, argPtrs, envPtrs);
  }

  /** An auxiliary header of this kind and value is at `va`. */
  ghost predicate AuxAt(f: Frames, pages: map<nat, nat>, va: nat, kind: nat, value: nat)
  {
    VWord(f, pages, va) == kind && VWord(f, pages, va + 8) == value
  }

  /** Word by word: `argc` at `sp`, then the argument pointers and a null, the environment pointers
      and a null, the headers given, and those for the random bytes, the program's name and the end. */
  ghost predicate Tables(f: Frames, pages: map<nat, nat>, l: Layout, argv: seq<seq<Byte>>, auxv: seq<Aux>, argPtrs: seq<nat>, envPtrs: seq<nat>)
  {
    && l.sp >= 0 && l.argvBase >= 0 && l.envpBase >= 0 && l.auxBase >= 0 && l.rand >= 0
    && VWord(f, pages, l.sp) == |argv|
    && (forall k | 0 <= k < |argPtrs| :: VWord(f, pages, l.argvBase + 8 * k) == argPtrs[k]) && VWord(f, pages, l.argvBase + 8 * |argPtrs|) == 0
    && (forall k | 0 <= k < |envPtrs| :: VWord(f, pages, l.envpBase + 8 * k) == envPtrs[k]) && VWord(f, pages, l.envpBase + 8 * |envPtrs|) == 0
    && (forall k | 0 <= k < |auxv| :: AuxAt(f, pages, l.auxBase + 16 * k, auxv[k].kind, auxv[k].value))
    && AuxAt(f, pages, l.auxBase + 16 * |auxv|, 25, l.rand)
    && AuxAt(f, pages, l.auxBase + 16 * (|auxv| + 1), 31, if argPtrs == [] then 0 else argPtrs[0])
    && AuxAt(f, pages, l.auxBase + 16 * (|auxv| + 2), 0, 0)
  }

  lemma TableAt(f: Frames, pages: map<nat, nat>, sp: nat, argPtrs: seq<nat>, envPtrs: seq<nat>, aux: seq<nat>)
    requires Words(f, pages, sp, Table(argPtrs, envPtrs, aux))
    ensures VWord(f, pages, sp) == |argPtrs|
    ensures Words(f, pages, sp + 8, argPtrs + [0])
    ensures Words(f, pages, sp + 8 * (|argPtrs| + 2), envPtrs + [0])
    ensures Words(f, pages, sp + 8 * (|argPtrs| + |envPtrs| + 3), aux)
  {
    hide VWord;
    var ws, a, e := Table(argPtrs, envPtrs, aux), argPtrs + [0], envPtrs + [0];
    assert VWord(f, pages, sp + 8 * 0) == ws[0];
    forall k | 0 <= k < |a| ensures VWord(f, pages, sp + 8 + 8 * k) == a[k] {
      assert VWord(f, pages, sp + 8 * (k + 1)) == ws[k + 1];
    }
    forall k | 0 <= k < |e| ensures VWord(f, pages, sp + 8 * (|argPtrs| + 2) + 8 * k) == e[k] {
      assert VWord(f, pages, sp + 8 * (k + |argPtrs| + 2)) == ws[k + |argPtrs| + 2];
    }
    forall k | 0 <= k < |aux| ensures VWord(f, pages, sp + 8 * (|argPtrs| + |envPtrs| + 3) + 8 * k) == aux[k] {
      assert VWord(f, pages, sp + 8 * (k + |argPtrs| + |envPtrs| + 3)) == ws[k + |argPtrs| + |envPtrs| + 3];
    }
  }

  lemma FlatAt(f: Frames, pages: map<nat, nat>, base: nat, ws: seq<nat>, k: nat)
    requires Words(f, pages, base, ws) && 2 * k + 1 < |ws|
    ensures AuxAt(f, pages, base + 16 * k, ws[2 * k], ws[2 * k + 1])
  {
    hide VWord;
    assert VWord(f, pages, base + 8 * (2 * k)) == ws[2 * k];
    assert VWord(f, pages, base + 8 * (2 * k + 1)) == ws[2 * k + 1];
  }

  lemma ImageTables(f: Frames, pages: map<nat, nat>, l: Layout, argv: seq<seq<Byte>>, auxv: seq<Aux>, argPtrs: seq<nat>, envPtrs: seq<nat>)
    requires l.sp >= 0 && l.rand >= 0 && |argPtrs| == |argv|
    requires l.argvBase == l.sp + 8 && l.envpBase == l.argvBase + 8 * (|argPtrs| + 1) && l.auxBase == l.envpBase + 8 * (|envPtrs| + 1)
    requires Words(f, pages, l.sp, Table(argPtrs, envPtrs, Flatten(FullAux(auxv, l.rand, argPtrs))))
    ensures Tables(f, pages, l, argv, auxv, argPtrs, envPtrs)
  {
    hide VWord, Flatten, Table, AuxAt;
    var xs, n := FullAux(auxv, l.rand, argPtrs), |auxv|;
    TableAt(f, pages, l.sp, argPtrs, envPtrs, Flatten(xs));
    forall k | 0 <= k < |xs| ensures AuxAt(f, pages, l.auxBase + 16 * k, xs[k].kind, xs[k].value) {
      FlatAt(f, pages, l.auxBase, Flatten(xs), k);
    }
    forall k | 0 <= k < n ensures AuxAt(f, pages, l.auxBase + 16 * k, auxv[k].kind, auxv[k].value) { assert xs[k] == auxv[k]; }
    assert xs[n] == Aux(25, l.rand) && xs[n + 1] == Aux(31, if argPtrs == [] then 0 else argPtrs[0]) && xs[n + 2] == Aux(0, 0);
    NullEnd(f, pages, l.argvBase, argPtrs);
    NullEnd(f, pages, l.envpBase, envPtrs);
  }

  lemma NullEnd(f: Frames, pages: map<nat, nat>, base: nat, ptrs: seq<nat>)
    requires Words(f, pages, base, ptrs + [0])
    ensures Words(f, pages, base, ptrs) && VWord(f, pages, base + 8 * |ptrs|) == 0
  {
    hide VWord;
    var ws := ptrs + [0];
    forall k | 0 <= k < |ptrs| ensures VWord(f, pages, base + 8 * k) == ptrs[k] { assert ws[k] == ptrs[k]; }
    assert ws[|ptrs|] == 0;
  }

  /** Every block lies below the ones written before it, so none of them is disturbed. */
  lemma Settle(f0: Frames, f1: Frames, f2: Frames, f3: Frames, f4: Frames, pages: map<nat, nat>, l: Layout,
               argv: seq<seq<Byte>>, envp: seq<seq<Byte>>, auxv: seq<Aux>, argPtrs: seq<nat>, envPtrs: seq<nat>, top: nat, sp1: nat, sp2: nat)
    requires top >= 16 && 0 <= l.sp <= l.auxBase <= l.rand <= l.arg <= sp2 && l.env <= sp1 <= top - 16 && sp2 <= l.env && l.rand + 16 == l.arg && l.sp % 8 == 0
    requires l.auxBase + 8 * |Flatten(FullAux(auxv, l.rand, argPtrs))| <= l.rand
    requires Strings(f1, pages, envPtrs, envp, sp1, top - 16) && Frozen(f0, f1, pages, top - 16)
    requires Strings(f2, pages, argPtrs, argv, sp2, l.env) && Frozen(f1, f2, pages, l.env)
    requires Words(f3, pages, l.rand, [0x01020304050607, 0x08090a0b0c0d0e0f]) && Frozen(f2, f3, pages, l.arg)
    requires Words(f4, pages, l.sp, Table(argPtrs, envPtrs, Flatten(FullAux(auxv, l.rand, argPtrs))))
    requires Frozen(f3, f4, pages, l.auxBase + 8 * |Flatten(FullAux(auxv, l.rand, argPtrs))|) && |argPtrs| == |argv|
    ensures Image(f4, pages, l, argv, envp, auxv, argPtrs, envPtrs, top) && Frozen(f0, f4, pages, top)
  {
    hide VByte, Frozen, Words, Strings, Flatten, FullAux;
    var end := l.auxBase + 8 * |Flatten(FullAux(auxv, l.rand, argPtrs))|;
    FrozenTwice(f2, f3, f4, pages, l.arg, end);
    FrozenTwice(f1, f2, f4, pages, l.env, l.arg);
    FrozenTwice(f0, f1, f4, pages, top - 16, l.env);
    FrozenLess(f0, f4, pages, top - 16, top);
    StringsFrozen(f1, f4, pages, envPtrs, envp, sp1, top - 16, l.env);
    StringsWiden(f4, pages, envPtrs, envp, sp1, top - 16, l.env, top);
    StringsFrozen(f2, f4, pages, argPtrs, argv, sp2, l.env, l.arg);
    StringsWiden(f4, pages, argPtrs, argv, sp2, l.env, l.arg, l.env);
    WordsFrozen(f3, f4, pages, end, l.rand, [0x01020304050607, 0x08090a0b0c0d0e0f]);
  }

  lemma FrozenLess(f: Frames, f': Frames, pages: map<nat, nat>, from: nat, from': nat)
    requires Frozen(f, f', pages, from) && from <= from'
    ensures Frozen(f, f', pages, from')
  {
    hide VByte;
  }

  // ---- _start

  /** A string read as C does: up to the first zero. */
  function UntilNul(s: seq<Byte>): seq<Byte>
  {
    if s == [] || s[0] == 0 then [] else [s[0]] + UntilNul(s[1..])
  }

  lemma {:induction false} UntilNulWhole(s: seq<Byte>)
    ensures UntilNul(s) == s <==> 0 !in s
    ensures |UntilNul(s)| <= |s| && UntilNul(s) == s[..|UntilNul(s)|]
    ensures |UntilNul(s)| < |s| ==> s[|UntilNul(s)|] == 0
    ensures forall k | 0 <= k < |UntilNul(s)| :: s[k] != 0
  {
    if s != [] && s[0] != 0 {
      UntilNulWhole(s[1..]);
      assert s == [s[0]] + s[1..];
    }
  }

  /** `_start`: read `argc` pointers, scan each string for its zero, collect the strings.
      `argv` and `argPtrs` are what the kernel put there. */
  method Start(mem: Machine, pages: map<nat, nat>, argc: nat, argvBase: nat, ghost argv: seq<seq<Byte>>, ghost argPtrs: seq<nat>, ghost lo: nat, ghost hi: nat)
    returns (v: seq<seq<Byte>>)
    requires argc == |argv| && Words(mem.frames, pages, argvBase, argPtrs) && Strings(mem.frames, pages, argPtrs, argv, lo, hi)
    ensures |v| == argc && forall i | 0 <= i < argc :: v[i] == UntilNul(argv[i])
  {
    hide VByte, VWord;
    v := [];
    var i := 0;
    while i < argc
      invariant 0 <= i <= argc && |v| == i
      invariant forall k | 0 <= k < i :: v[k] == UntilNul(argv[k])
    {
      var start := VWord(mem.frames, pages, argvBase + i * 8);
      assert start == argPtrs[i];
      var s := Scan(mem, pages, start, argv[i]);
      v := v + [s];
      i := i + 1;
    }
  }

  /** `(0..).find(|i| byte at start + i == 0)` and the slice up to there. */
  method Scan(mem: Machine, pages: map<nat, nat>, start: nat, ghost arg: seq<Byte>) returns (s: seq<Byte>)
    requires CStr(mem.frames, pages, start, arg)
    ensures s == UntilNul(arg)
  {
    hide VByte;
    UntilNulWhole(arg);
    ghost var stop := |UntilNul(arg)|;
    var len: nat := 0;
    while VByte(mem.frames, pages, start + len) != 0
      invariant len <= stop
      decreases stop - len
    {
      assert len < stop;
      len := len + 1;
    }
    s := VRead(mem.frames, pages, start, len);
    if len < |arg| {
      assert VByte(mem.frames, pages, start + len) == arg[len];
    }
    assert len == stop;
    assert s == arg[..stop];
  }

  /** What `exec` hands over is what `_start` gets: the arguments come back exactly when none
      of them contains a zero byte. */
  method ArgumentRoundTrip(mem: Machine, cur: PageTable, new_: PageTable, top: nat, argv: seq<seq<Byte>>, envp: seq<seq<Byte>>, auxv: seq<Aux>, pages: map<nat, nat>)
    returns (ok: bool, v: seq<seq<Byte>>)
    requires Exec(mem, cur, new_, pages) && top < TWO64 && |argv| < TWO64
    requires Place(top, argv, envp, auxv).sp >= 0 && Covers(pages, Place(top, argv, envp, auxv).sp, top)
    requires forall k | 0 <= k < |auxv| :: auxv[k].kind < TWO64 && auxv[k].value < TWO64
    modifies mem, cur
    ensures ok ==> (v == argv <==> forall i | 0 <= i < |argv| :: 0 !in argv[i])
    ensures !ok ==> mem.current + 2 > mem.end
  {
    hide VByte, Exec, Frozen, Covers, Strings, Room, Flatten, FullAux, VWord, UntilNul, Place;
    var l, argPtrs, envPtrs;
    v := [];
    ok, l, argPtrs, envPtrs := BuildStack(mem, cur, new_, top, argv, envp, auxv, pages);
    if ok {
      PlaceOrder(top, argv, envp, auxv);
      v := Start(mem, pages, |argv|, l.argvBase, argv, argPtrs, l.arg, l.env);
      forall i | 0 <= i < |argv| ensures v[i] == argv[i] <==> 0 !in argv[i] {
        UntilNulWhole(argv[i]);
      }
    }
  }

  // ---- reading the whole stack, as a C library does

  /** The strings behind a null-terminated list of pointers at `base`. */
  method ReadStrings(mem: Machine, pages: map<nat, nat>, base: nat, ghost parms: seq<seq<Byte>>, ghost ptrs: seq<nat>, ghost lo: nat, ghost hi: nat)
    returns (v: seq<seq<Byte>>, next: nat)
    requires lo > 0 && Strings(mem.frames, pages, ptrs, parms, lo, hi)
    requires Words(mem.frames, pages, base, ptrs) && VWord(mem.frames, pages, base + 8 * |ptrs|) == 0
    ensures |v| == |parms| && (forall i | 0 <= i < |v| :: v[i] == UntilNul(parms[i])) && next == base + 8 * (|parms| + 1)
  {
    hide VByte, VWord, UntilNul, CStr;
    v, next := [], base;
    while true
      invariant |v| <= |parms| && next == base + 8 * |v|
      invariant forall i | 0 <= i < |v| :: v[i] == UntilNul(parms[i])
      decreases |parms| - |v|
    {
      var p := VWord(mem.frames, pages, base + 8 * |v|);
      assert |v| < |ptrs| ==> p == ptrs[|v|];
      next := next + 8;
      if p == 0 {
        return;
      }
      var s := Scan(mem, pages, p, parms[|v|]);
      v := v + [s];
    }
  }

  /** The headers before the first of kind AT_NULL. */
  function BeforeNull(xs: seq<Aux>): seq<Aux>
  {
    if xs == [] || xs[0].kind == 0 then [] else [xs[0]] + BeforeNull(xs[1..])
  }

  lemma {:induction false} BeforeNullIs(xs: seq<Aux>, k: nat)
    requires k <= |xs| && forall i | 0 <= i < k :: xs[i].kind != 0
    ensures k < |xs| && xs[k].kind == 0 ==> BeforeNull(xs) == xs[..k]
    ensures k == |xs| ==> BeforeNull(xs) == xs
  {
    if k > 0 {
      BeforeNullIs(xs[1..], k - 1);
      assert xs[..k] == [xs[0]] + xs[1..][..k - 1] && xs == [xs[0]] + xs[1..];
    }
  }

  /** The headers `xs`, and one that ends them, are at `base`. */
  ghost predicate AuxList(f: Frames, pages: map<nat, nat>, base: nat, xs: seq<Aux>)
  {
    (forall k | 0 <= k < |xs| :: AuxAt(f, pages, base + 16 * k, xs[k].kind, xs[k].value)) && VWord(f, pages, base + 16 * |xs|) == 0
  }

  method ReadAux(mem: Machine, pages: map<nat, nat>, base: nat, ghost xs: seq<Aux>) returns (aux: seq<Aux>)
    requires AuxList(mem.frames, pages, base, xs)
    ensures aux == BeforeNull(xs)
  {
    hide VWord, BeforeNull;
    aux := [];
    while true
      invariant |aux| <= |xs| && aux == xs[..|aux|]
      invariant forall i | 0 <= i < |aux| :: xs[i].kind != 0
      decreases |xs| - |aux|
    {
      var kind := VWord(mem.frames, pages, base + 16 * |aux|);
      assert |aux| < |xs| ==> AuxAt(mem.frames, pages, base + 16 * |aux|, xs[|aux|].kind, xs[|aux|].value);
      if kind == 0 {
        BeforeNullIs(xs, |aux|);
        return;
      }
      var value := VWord(mem.frames, pages, base + 16 * |aux| + 8);
      assert Aux(kind, value) == xs[|aux|];
      aux := aux + [Aux(kind, value)];
    }
  }

  /** The user's headers, and those `build_stack` adds before the end. */
  function GivenAux(auxv: seq<Aux>, rand: nat, name: nat): seq<Aux> { auxv + [Aux(25, rand), Aux(31, name)] }

  lemma GivenAuxList(f: Frames, pages: map<nat, nat>, l: Layout, argv: seq<seq<Byte>>, auxv: seq<Aux>, argPtrs: seq<nat>, envPtrs: seq<nat>)
    requires Tables(f, pages, l, argv, auxv, argPtrs, envPtrs)
    ensures l.auxBase >= 0 && l.rand >= 0 && AuxList(f, pages, l.auxBase, GivenAux(auxv, l.rand, if argPtrs == [] then 0 else argPtrs[0]))
  {
    hide VWord;
    var xs := GivenAux(auxv, l.rand, if argPtrs == [] then 0 else argPtrs[0]);
    forall k | 0 <= k < |xs| ensures AuxAt(f, pages, l.auxBase + 16 * k, xs[k].kind, xs[k].value) {
      assert k < |auxv| ==> xs[k] == auxv[k] && AuxAt(f, pages, l.auxBase + 16 * k, auxv[k].kind, auxv[k].value);
    }
    assert AuxAt(f, pages, l.auxBase + 16 * (|auxv| + 2), 0, 0);
  }

  /** From the stack pointer alone: `argc`, the arguments, the environment and the auxiliary vector. */
  method ReadStack(mem: Machine, pages: map<nat, nat>, sp: nat, ghost l: Layout, ghost argv: seq<seq<Byte>>, ghost envp: seq<seq<Byte>>, ghost auxv: seq<Aux>,
                   ghost argPtrs: seq<nat>, ghost envPtrs: seq<nat>, ghost top: nat)
    returns (argc: nat, args: seq<seq<Byte>>, envs: seq<seq<Byte>>, aux: seq<Aux>)
    requires Image(mem.frames, pages, l, argv, envp, auxv, argPtrs, envPtrs, top) && l == Place(top, argv, envp, auxv) && l.sp == sp
    requires Tables(mem.frames, pages, l, argv, auxv, argPtrs, envPtrs)
    ensures argc == |argv| && |args| == |argv| && |envs| == |envp| && l.rand >= 0
    ensures forall i | 0 <= i < |args| :: args[i] == UntilNul(argv[i])
    ensures forall i | 0 <= i < |envs| :: envs[i] == UntilNul(envp[i])
    ensures aux == BeforeNull(GivenAux(auxv, l.rand, if argPtrs == [] then 0 else argPtrs[0]))
  {
    hide VByte, VWord, UntilNul, CStr, Place, BeforeNull, GivenAux, AuxAt, AuxList, FullAux, Flatten, Table;
    PlaceOrder(top, argv, envp, auxv);
    GivenAuxList(mem.frames, pages, l, argv, auxv, argPtrs, envPtrs);
    argc := VWord(mem.frames, pages, sp);
    var at: nat;
    args, at := ReadStrings(mem, pages, sp + 8, argv, argPtrs, l.arg, l.env);
    envs, at := ReadStrings(mem, pages, at, envp, envPtrs, l.env, top);
    aux := ReadAux(mem, pages, at, GivenAux(auxv, l.rand, if argPtrs == [] then 0 else argPtrs[0]));
  }

  /** The whole stack comes back from its pointer: `argc` always; the arguments and the environment
      exactly when no string of theirs contains a zero byte; the auxiliary vector, with the two
      headers added, exactly when no header given is of kind AT_NULL. */
  method StackRoundTrip(mem: Machine, cur: PageTable, new_: PageTable, top: nat, argv: seq<seq<Byte>>, envp: seq<seq<Byte>>, auxv: seq<Aux>, pages: map<nat, nat>)
    returns (ok: bool, argc: nat, args: seq<seq<Byte>>, envs: seq<seq<Byte>>, aux: seq<Aux>, rand: nat, name: nat)
    requires Exec(mem, cur, new_, pages) && top < TWO64 && |argv| < TWO64
    requires Place(top, argv, envp, auxv).sp >= 0 && Covers(pages, Place(top, argv, envp, auxv).sp, top)
    requires forall k | 0 <= k < |auxv| :: auxv[k].kind < TWO64 && auxv[k].value < TWO64
    modifies mem, cur
    ensures ok ==> argc == |argv| && (args == argv <==> forall i | 0 <= i < |argv| :: 0 !in argv[i])
    ensures ok ==> (envs == envp <==> forall i | 0 <= i < |envp| :: 0 !in envp[i])
    ensures ok ==> (aux == auxv + [Aux(25, rand), Aux(31, name)] <==> forall k | 0 <= k < |auxv| :: auxv[k].kind != 0)
    ensures ok ==> Words(mem.frames, pages, rand, [0x01020304050607, 0x08090a0b0c0d0e0f])
    ensures ok && argv != [] ==> CStr(mem.frames, pages, name, argv[0])
    ensures !ok ==> mem.current + 2 > mem.end
  {
    hide VByte, Exec, Frozen, Covers, Room, Flatten, FullAux, VWord, UntilNul, Place, BeforeNull, Table, Tables, CStr;
    argc, args, envs, aux, rand, name := 0, [], [], [], 0, 0;
    var l, argPtrs, envPtrs;
    ok, l, argPtrs, envPtrs := BuildStack(mem, cur, new_, top, argv, envp, auxv, pages);
    if ok {
      rand, name := l.rand, if argPtrs == [] then 0 else argPtrs[0];
      argc, args, envs, aux := ReadStack(mem, pages, l.sp, l, argv, envp, auxv, argPtrs, envPtrs, top);
      WholeStrings(args, argv);
      WholeStrings(envs, envp);
      WholeAux(auxv, rand, name);
    }
  }

  lemma WholeStrings(v: seq<seq<Byte>>, parms: seq<seq<Byte>>)
    requires |v| == |parms| && forall i | 0 <= i < |v| :: v[i] == UntilNul(parms[i])
    ensures v == parms <==> forall i | 0 <= i < |parms| :: 0 !in parms[i]
  {
    forall i | 0 <= i < |parms| ensures v[i] == parms[i] <==> 0 !in parms[i] { UntilNulWhole(parms[i]); }
  }

  lemma WholeAux(auxv: seq<Aux>, rand: nat, name: nat)
    ensures BeforeNull(GivenAux(auxv, rand, name)) == GivenAux(auxv, rand, name) <==> forall k | 0 <= k < |auxv| :: auxv[k].kind != 0
  {
    var xs := GivenAux(auxv, rand, name);
    if forall k | 0 <= k < |auxv| :: auxv[k].kind != 0 {
      BeforeNullIs(xs, |xs|);
    } else {
      NoNullBefore(xs);
      var k :| 0 <= k < |auxv| && auxv[k].kind == 0;
      assert xs[k] == auxv[k];
    }
  }

  lemma {:induction false} NoNullBefore(xs: seq<Aux>)
    ensures forall k | 0 <= k < |BeforeNull(xs)| :: BeforeNull(xs)[k].kind != 0
  {
    if xs != [] && xs[0].kind != 0 { NoNullBefore(xs[1..]); }
  }
}
