/** fork, exit and wait4 on the process tree (os/src/task/{task,mod,manager}.rs,
    os/src/syscall/process.rs). */
module ProcessTree {
  import opened Seqs
  import opened Sv39
  import opened Recycle

  /** A task control block, named by its place in the order of creation; init is the first. */
  type Id = nat

  const INIT: Id := 0
  const TWO64_INT: int := 0x1_0000_0000_0000_0000

  datatype Proc = Proc(pid: nat, parent: Option<Id>, children: seq<Id>, zombie: bool, exitCode: Option<int>)

  type Procs = map<Id, Proc>

  /** `reaped` are the processes whose exit a `wait4` has collected. */
  datatype Tree = Tree(procs: Procs, next: Id, pids: Ids, pcbs: map<nat, Id>, reaped: set<Id>)

  datatype Waited = NoChild | Collected(pid: nat, code: int) | NotYet

  // ---- what each operation does

  function Fork(y: Tree, p: Id): Tree
    requires p in y.procs
  {
    var a := Alloc(y.pids);
    var parent := y.procs[p];
    Tree(y.procs[p := Proc(parent.pid, parent.parent, parent.children + [y.next], parent.zombie, parent.exitCode)]
                [y.next := Proc(a.1, Some(p), [], false, None)],
         y.next + 1, a.0, y.pcbs[a.1 := y.next], y.reaped)
  }

  /** The children `cs` handed to init. */
  function Moved(procs: Procs, cs: seq<Id>): (r: Procs)
    ensures r.Keys == procs.Keys
  {
    map q | q in procs :: MovedProc(q, procs[q], cs)
  }

  function MovedProc(q: Id, x: Proc, cs: seq<Id>): Proc
  {
    if q == INIT then Proc(x.pid, x.parent, x.children + cs, x.zombie, x.exitCode)
    else if q in cs then Proc(x.pid, Some(INIT), x.children, x.zombie, x.exitCode)
    else x
  }

  function Gone(x: Proc, code: int): Proc { Proc(x.pid, x.parent, [], true, Some(code)) }

  /** Exit of a process other than init. */
  function Exit(y: Tree, p: Id, code: int): Tree
    requires p in y.procs
  {
    var procs := Moved(y.procs, y.procs[p].children);
    Tree(procs[p := Gone(procs[p], code)], y.next, y.pids, y.pcbs - {y.procs[p].pid}, y.reaped)
  }

  /** `pid as usize` comparisons of `wait4`. */
  predicate Matches(pid: int, x: Proc)
  {
    pid == -1 || (if pid < 0 then pid + TWO64_INT else pid) == x.pid
  }

  /** The least index from `i` on of a zombie child that matches; the length if none. */
  function FirstZombie(procs: Procs, cs: seq<Id>, pid: int, i: nat): nat
    requires i <= |cs|
    decreases |cs| - i
  {
    if i == |cs| || (cs[i] in procs && procs[cs[i]].zombie && Matches(pid, procs[cs[i]])) then i else FirstZombie(procs, cs, pid, i + 1)
  }

  predicate HasChild(procs: Procs, cs: seq<Id>, pid: int)
  {
    exists i :: 0 <= i < |cs| && cs[i] in procs && Matches(pid, procs[cs[i]])
  }

  function Drop(cs: seq<Id>, k: nat): seq<Id>
    requires k < |cs|
  {
    cs[..k] + cs[k + 1..]
  }

  /** Child number `k` of `p` is collected. */
  function Collect(y: Tree, p: Id, k: nat): Tree
    requires p in y.procs && k < |y.procs[p].children|
  {
    var x := y.procs[p];
    Tree(y.procs[p := Proc(x.pid, x.parent, Drop(x.children, k), x.zombie, x.exitCode)], y.next, y.pids, y.pcbs, y.reaped + {x.children[k]})
  }

  /** One turn of the loop of `sys_wait4`. */
  function Wait(y: Tree, p: Id, pid: int): (Tree, Waited)
    requires p in y.procs
  {
    var x := y.procs[p];
    var k := FirstZombie(y.procs, x.children, pid, 0);
    if !HasChild(y.procs, x.children, pid) then (y, NoChild)
    else if k < |x.children| && x.children[k] in y.procs && y.procs[x.children[k]].exitCode.Some? then
      (Collect(y, p, k), Collected(y.procs[x.children[k]].pid, y.procs[x.children[k]].exitCode.value))
    else (y, NotYet)
  }

  /** A collected control block is freed and its pid recycled. */
  function Free(y: Tree, c: Id): Tree
    requires c in y.procs && Dealloc(y.pids, y.procs[c].pid).Some?
  {
    Tree(y.procs - {c}, y.next, Dealloc(y.pids, y.procs[c].pid).value, y.pcbs, y.reaped)
  }

  // ---- the invariant

  /** A children list has no duplicates, its members know their parent, a zombie's is empty. */
  ghost predicate ListOk(procs: Procs, q: Id)
  {
    && q in procs && NoDup(procs[q].children)
    && (procs[q].zombie ==> procs[q].children == [])
    && (procs[q].zombie <==> procs[q].exitCode.Some?)
    && (forall c | c in procs[q].children :: c in procs && c != INIT && procs[c].parent == Some(q))
  }

  /** `c` is in the list of its parent, an older process that is alive. */
  ghost predicate Hangs(procs: Procs, c: Id)
  {
    c in procs && procs[c].parent.Some? && var q := procs[c].parent.value; q < c && q in procs && !procs[q].zombie && c in procs[q].children
  }

  /** `c` is a zombie that its parent no longer lists. */
  ghost predicate Off(procs: Procs, c: Id)
  {
    c in procs && procs[c].zombie && (procs[c].parent.Some? && procs[c].parent.value in procs ==> c !in procs[procs[c].parent.value].children)
  }

  /** Alive, but not init: in PID2PCB under its pid. */
  ghost predicate NameOk(y: Tree, c: Id)
  {
    && c in y.procs && Live(y.pids, y.procs[c].pid)
    && (c != INIT && !y.procs[c].zombie ==> y.procs[c].pid in y.pcbs && y.pcbs[y.procs[c].pid] == c)
  }

  ghost predicate ProcOk(y: Tree, q: Id)
  {
    && q < y.next && ListOk(y.procs, q) && NameOk(y, q)
    && (q == INIT || q in y.reaped || Hangs(y.procs, q)) && (q in y.reaped ==> Off(y.procs, q))
  }

  ghost predicate PidsOk(y: Tree)
  {
    && IdsOk(y.pids)
    && (forall c, d | c in y.procs && d in y.procs && c != d :: y.procs[c].pid != y.procs[d].pid)
    && (forall pid | pid in y.pcbs :: y.pcbs[pid] in y.procs && !y.procs[y.pcbs[pid]].zombie && y.procs[y.pcbs[pid]].pid == pid)
  }

  ghost predicate Inv(y: Tree)
  {
    && INIT in y.procs && !y.procs[INIT].zombie && y.procs[INIT].pid == 0 && INIT !in y.reaped
    && (forall c | c in y.reaped :: c < y.next)
    && (forall q | q in y.procs :: ProcOk(y, q))
    && PidsOk(y)
  }

  lemma Get(y: Tree, q: Id)
    requires Inv(y) && q in y.procs
    ensures ProcOk(y, q)
  {
  }

  lemma Init(y: Tree)
    requires Inv(y)
    ensures INIT in y.procs && !y.procs[INIT].zombie && y.procs[INIT].pid == 0 && INIT !in y.reaped && y.next !in y.procs && y.next !in y.reaped
  {
    forall q | q in y.procs ensures q < y.next { Get(y, q); }
  }

  lemma ForkProc(y: Tree, p: Id, q: Id)
    requires Inv(y) && p in y.procs && !y.procs[p].zombie && IdsOk(y.pids) && q in Fork(y, p).procs
    ensures ProcOk(Fork(y, p), q)
  {
    hide Inv;
    AllocLive(y.pids);
    Init(y);
    Get(y, p);
    if q != y.next { Get(y, q); }
  }

  /** A process's record after `p` forks: the new one hangs under `p`, which lists it last; nobody
      else changes. */
  lemma ForkAt(y: Tree, p: Id, q: Id)
    requires Inv(y) && p in y.procs
    ensures var y', c := Fork(y, p), y.next;
            && c !in y.procs && y'.procs.Keys == y.procs.Keys + {c} && y'.next == c + 1 && y'.reaped == y.reaped
            && !Live(y.pids, y'.procs[c].pid) && Live(y'.pids, y'.procs[c].pid)
            && y'.procs[c].parent == Some(p) && y'.procs[c].children == [] && !y'.procs[c].zombie && y'.procs[c].exitCode == None
            && y'.procs[p].children == y.procs[p].children + [c]
            && (q in y.procs && q != p ==> y'.procs[q] == y.procs[q])
            && y'.procs[p].pid == y.procs[p].pid && y'.procs[p].parent == y.procs[p].parent
            && y'.procs[p].zombie == y.procs[p].zombie && y'.procs[p].exitCode == y.procs[p].exitCode
            && y'.pcbs == y.pcbs[y'.procs[c].pid := c]
  {
    hide ProcOk;
    Init(y);
    AllocLive(y.pids);
  }

  /** The forker waits for its child: it has one of that pid, and it has not exited yet. */
  lemma ForkThenWait(y: Tree, p: Id)
    requires Inv(y) && p in y.procs && !y.procs[p].zombie
    ensures y.next in Fork(y, p).procs && p in Fork(y, p).procs && Wait(Fork(y, p), p, Fork(y, p).procs[y.next].pid) == (Fork(y, p), NotYet)
  {
    hide Inv, Fork, Wait;
    ForkKeeps(y, p);
    ForkAt(y, p, p);
    LiveChildWaits(Fork(y, p), p, |y.procs[p].children|);
  }

  lemma LiveChildWaits(y: Tree, p: Id, k: nat)
    requires Inv(y) && p in y.procs && k < |y.procs[p].children| && y.procs[p].children[k] in y.procs && !y.procs[y.procs[p].children[k]].zombie
    ensures Wait(y, p, y.procs[y.procs[p].children[k]].pid) == (y, NotYet)
  {
    hide Inv, Wait;
    var cs, pid := y.procs[p].children, y.procs[y.procs[p].children[k]].pid;
    WaitAnswers(y, p, pid);
    assert Asked(y, p, pid, k);
    forall i | 0 <= i < |cs| && Asked(y, p, pid, i) ensures !Exited(y, p, i) {
      OtherPid(y, cs[i], cs[k]);
    }
  }

  lemma ForkKeeps(y: Tree, p: Id)
    requires Inv(y) && p in y.procs && !y.procs[p].zombie
    ensures Inv(Fork(y, p))
  {
    hide ProcOk;
    AllocLive(y.pids);
    Init(y);
    forall q | q in Fork(y, p).procs ensures ProcOk(Fork(y, p), q) { ForkProc(y, p, q); }
    forall c | c in y.procs ensures y.procs[c].pid != Alloc(y.pids).1 { PidLive(y, c); }
  }

  lemma PidLive(y: Tree, c: Id)
    requires Inv(y) && c in y.procs
    ensures Live(y.pids, y.procs[c].pid)
  {
    assert ProcOk(y, c);
  }

  ghost predicate CanExit(y: Tree, p: Id) { p in y.procs && !y.procs[p].zombie && p != INIT }

  /** The children of an exiting process are listed nowhere else. */
  lemma ExitApart(y: Tree, p: Id, c: Id)
    requires Inv(y) && CanExit(y, p) && c in y.procs[p].children
    ensures c in y.procs && c != INIT && c != p && c !in y.reaped && y.procs[c].parent == Some(p)
    ensures forall q | q in y.procs && q != p :: c !in y.procs[q].children
  {
    hide Inv;
    Get(y, p);
    Get(y, c);
    forall q | q in y.procs && q != p ensures c !in y.procs[q].children { Get(y, q); }
  }

  lemma MovedAt(procs: Procs, cs: seq<Id>, q: Id)
    requires q in procs
    ensures q in Moved(procs, cs) && Moved(procs, cs)[q] == MovedProc(q, procs[q], cs)
  {
  }

  /** A process's record after `p` exits. */
  lemma ExitAt(y: Tree, p: Id, code: int, q: Id)
    requires Inv(y) && CanExit(y, p) && q in y.procs
    ensures q in Exit(y, p, code).procs
    ensures var x, x', cs := y.procs[q], Exit(y, p, code).procs[q], y.procs[p].children;
            && x'.pid == x.pid
            && x'.parent == (if q in cs then Some(INIT) else x.parent)
            && x'.children == (if q == p then [] else if q == INIT then x.children + cs else x.children)
            && x'.zombie == (q == p || x.zombie)
            && x'.exitCode == (if q == p then Some(code) else x.exitCode)
  {
    hide Inv, Moved;
    MovedAt(y.procs, y.procs[p].children, q);
    MovedAt(y.procs, y.procs[p].children, p);
    if p in y.procs[p].children { ExitApart(y, p, p); }
    if INIT in y.procs[p].children { ExitApart(y, p, INIT); }
  }

  lemma ExitList(y: Tree, p: Id, code: int, q: Id)
    requires Inv(y) && CanExit(y, p) && q in y.procs
    ensures ListOk(Exit(y, p, code).procs, q)
  {
    hide Inv, Exit;
    var y', cs := Exit(y, p, code), y.procs[p].children;
    Get(y, q);
    Get(y, p);
    Init(y);
    ExitAt(y, p, code, q);
    ExitAt(y, p, code, INIT);
    forall c | c in y'.procs[q].children ensures c in y'.procs && c != INIT && y'.procs[c].parent == Some(q) {
      if c in cs { ExitApart(y, p, c); }
      ExitAt(y, p, code, c);
    }
    if q == INIT {
      forall c | c in cs ensures c !in y.procs[INIT].children { ExitApart(y, p, c); }
      NoDupJoin(y.procs[INIT].children, cs);
    }
  }

  lemma NoDupJoin(a: seq<Id>, b: seq<Id>)
    requires NoDup(a) && NoDup(b) && forall c | c in b :: c !in a
    ensures NoDup(a + b)
  {
    var s := a + b;
    forall i, j | 0 <= i < j < |s| ensures s[i] != s[j] {
      if i < |a| <= j {
        assert s[j] == b[j - |a|] && s[j] in b && s[i] in a;
      }
    }
  }

  lemma ExitPlace(y: Tree, p: Id, code: int, q: Id)
    requires Inv(y) && CanExit(y, p) && q in y.procs
    ensures q == INIT || q in y.reaped || Hangs(Exit(y, p, code).procs, q)
    ensures q in y.reaped ==> Off(Exit(y, p, code).procs, q)
  {
    hide Inv, Exit;
    Get(y, q);
    Init(y);
    ExitAt(y, p, code, q);
    ExitAt(y, p, code, INIT);
    if q in y.procs[p].children { ExitApart(y, p, q); }
    if y.procs[q].parent.Some? && y.procs[q].parent.value in y.procs { ExitAt(y, p, code, y.procs[q].parent.value); }
    if y.procs[q].parent.Some? && y.procs[q].parent.value in Exit(y, p, code).procs { ExitKeys(y, p, code); }
  }

  lemma ExitKeys(y: Tree, p: Id, code: int)
    requires p in y.procs
    ensures Exit(y, p, code).procs.Keys == y.procs.Keys
  {
  }

  lemma ExitProc(y: Tree, p: Id, code: int, q: Id)
    requires Inv(y) && CanExit(y, p) && q in y.procs
    ensures ProcOk(Exit(y, p, code), q)
  {
    hide Inv, ListOk, Hangs, Off;
    ExitList(y, p, code, q);
    ExitPlace(y, p, code, q);
    ExitAt(y, p, code, q);
    Get(y, q);
    Get(y, p);
    OtherPid(y, p, q);
  }

  lemma OtherPid(y: Tree, p: Id, q: Id)
    requires Inv(y) && p in y.procs && q in y.procs
    ensures p != q ==> y.procs[p].pid != y.procs[q].pid
  {
  }

  lemma ExitPids(y: Tree, p: Id, code: int)
    requires Inv(y) && CanExit(y, p)
    ensures PidsOk(Exit(y, p, code))
  {
    hide Exit, ProcOk;
    ExitKeys(y, p, code);
    forall q | q in y.procs ensures q in Exit(y, p, code).procs && Exit(y, p, code).procs[q].pid == y.procs[q].pid
        && Exit(y, p, code).procs[q].zombie == (q == p || y.procs[q].zombie) {
      ExitAt(y, p, code, q);
    }
    ExitRest(y, p, code);
  }

  lemma ExitRest(y: Tree, p: Id, code: int)
    requires p in y.procs
    ensures var y' := Exit(y, p, code); y'.next == y.next && y'.pids == y.pids && y'.reaped == y.reaped && y'.pcbs == y.pcbs - {y.procs[p].pid}
  {
  }

  lemma ExitKeeps(y: Tree, p: Id, code: int)
    requires Inv(y) && CanExit(y, p)
    ensures Inv(Exit(y, p, code))
  {
    hide Exit, ProcOk, PidsOk;
    ExitKeys(y, p, code);
    ExitRest(y, p, code);
    ExitPids(y, p, code);
    ExitAt(y, p, code, INIT);
    forall q | q in y.procs ensures ProcOk(Exit(y, p, code), q) { ExitProc(y, p, code, q); }
  }

  lemma FirstZombieIs(procs: Procs, cs: seq<Id>, pid: int, i: nat)
    requires i <= |cs|
    ensures var k := FirstZombie(procs, cs, pid, i);
            && i <= k <= |cs| && (k < |cs| ==> cs[k] in procs && procs[cs[k]].zombie && Matches(pid, procs[cs[k]]))
            && forall j | i <= j < k :: !(cs[j] in procs && procs[cs[j]].zombie && Matches(pid, procs[cs[j]]))
    decreases |cs| - i
  {
  }

  lemma Dropped(cs: seq<Id>, k: nat)
    requires k < |cs| && NoDup(cs)
    ensures NoDup(Drop(cs, k)) && forall c :: c in Drop(cs, k) <==> c in cs && c != cs[k]
  {
    forall c | c in cs && c != cs[k] ensures c in Drop(cs, k) {
      var i :| 0 <= i < |cs| && cs[i] == c;
      if i < k { assert Drop(cs, k)[i] == c; } else { assert Drop(cs, k)[i - 1] == c; }
    }
  }

  ghost predicate CanCollect(y: Tree, p: Id, k: nat)
  {
    p in y.procs && !y.procs[p].zombie && k < |y.procs[p].children| && y.procs[p].children[k] in y.procs && y.procs[y.procs[p].children[k]].zombie
  }

  lemma CollectProc(y: Tree, p: Id, k: nat, q: Id)
    requires Inv(y) && CanCollect(y, p, k) && q in y.procs
    ensures ProcOk(Collect(y, p, k), q)
  {
    hide Inv, Drop;
    Get(y, p);
    Get(y, q);
    Dropped(y.procs[p].children, k);
    assert y.procs[p].children[k] in y.procs[p].children;
  }

  lemma CollectKeeps(y: Tree, p: Id, k: nat)
    requires Inv(y) && CanCollect(y, p, k)
    ensures Inv(Collect(y, p, k))
  {
    hide ProcOk, Drop;
    Get(y, p);
    Get(y, y.procs[p].children[k]);
    Older(y, y.procs[p].children[k]);
    forall q | q in y.procs ensures ProcOk(Collect(y, p, k), q) { CollectProc(y, p, k, q); }
  }

  lemma Older(y: Tree, c: Id)
    requires Inv(y) && c in y.procs
    ensures c < y.next
  {
    assert ProcOk(y, c);
  }

  lemma WaitKeeps(y: Tree, p: Id, pid: int)
    requires Inv(y) && p in y.procs && !y.procs[p].zombie
    ensures Inv(Wait(y, p, pid).0)
  {
    hide Inv;
    var k := FirstZombie(y.procs, y.procs[p].children, pid, 0);
    FirstZombieIs(y.procs, y.procs[p].children, pid, 0);
    if k < |y.procs[p].children| {
      CollectKeeps(y, p, k);
    }
  }

  lemma FreeProc(y: Tree, c: Id, q: Id)
    requires Inv(y) && c in y.procs && c in y.reaped && q in y.procs && q != c && IdsOk(y.pids) && Dealloc(y.pids, y.procs[c].pid).Some?
    ensures ProcOk(Free(y, c), q)
  {
    hide Inv;
    DeallocLive(y.pids, y.procs[c].pid);
    Get(y, c);
    Get(y, q);
    OtherPid(y, c, q);
    forall d | d in y.procs[q].children ensures d != c {}
  }

  lemma FreeKeeps(y: Tree, c: Id)
    requires Inv(y) && c in y.procs && c in y.reaped
    ensures Dealloc(y.pids, y.procs[c].pid).Some? && Inv(Free(y, c))
  {
    hide ProcOk;
    DeallocLive(y.pids, y.procs[c].pid);
    PidLive(y, c);
    ReapedZombie(y, c);
    forall q | q in Free(y, c).procs ensures ProcOk(Free(y, c), q) { FreeProc(y, c, q); }
  }

  lemma ReapedZombie(y: Tree, c: Id)
    requires Inv(y) && c in y.procs && c in y.reaped
    ensures y.procs[c].zombie && c != INIT
  {
    assert ProcOk(y, c);
  }

  // ---- runs

  datatype Op = OpFork(p: Id) | OpExit(p: Id, code: int) | OpWait(p: Id, pid: int) | OpFree(c: Id)

  /** Only a process that is alive acts; init's exit shuts the machine down; only a collected
      control block is freed. */
  ghost predicate Enabled(y: Tree, op: Op)
  {
    match op
    case OpFork(p) => p in y.procs && !y.procs[p].zombie
    case OpExit(p, _) => p in y.procs && !y.procs[p].zombie && p != INIT
    case OpWait(p, _) => p in y.procs && !y.procs[p].zombie
    case OpFree(c) => c in y.procs && c in y.reaped && Dealloc(y.pids, y.procs[c].pid).Some?
  }

  ghost function Step(y: Tree, op: Op): Tree
    requires Enabled(y, op)
  {
    match op
    case OpFork(p) => Fork(y, p)
    case OpExit(p, code) => Exit(y, p, code)
    case OpWait(p, pid) => Wait(y, p, pid).0
    case OpFree(c) => Free(y, c)
  }

  ghost predicate Legal(y: Tree, ops: seq<Op>)
    decreases |ops|
  {
    ops == [] || (Enabled(y, ops[0]) && Legal(Step(y, ops[0]), ops[1..]))
  }

  ghost function Run(y: Tree, ops: seq<Op>): Tree
    requires Legal(y, ops)
    decreases |ops|
  {
    if ops == [] then y else Run(Step(y, ops[0]), ops[1..])
  }

  /** init holds pid 0 and is not in PID2PCB. */
  function Boot(): Tree { Tree(map[INIT := Proc(0, None, [], false, None)], 1, Ids(1, []), map[], {}) }

  lemma StepKeeps(y: Tree, op: Op)
    requires Inv(y) && Enabled(y, op)
    ensures Inv(Step(y, op))
  {
    hide Inv, Fork, Exit, Wait, Free;
    match op {
      case OpFork(p) => ForkKeeps(y, p);
      case OpExit(p, code) => ExitKeeps(y, p, code);
      case OpWait(p, pid) => WaitKeeps(y, p, pid);
      case OpFree(c) => FreeKeeps(y, c);
    }
  }

  lemma {:induction false} RunKeeps(y: Tree, ops: seq<Op>)
    requires Inv(y) && Legal(y, ops)
    ensures Inv(Run(y, ops))
    decreases |ops|
  {
    hide Inv, Step;
    if ops != [] {
      StepKeeps(y, ops[0]);
      RunKeeps(Step(y, ops[0]), ops[1..]);
    }
  }

  lemma BootInv()
    ensures Inv(Boot())
  {
  }

  /** Following parents from `c` ends at init. */
  ghost predicate ReachesInit(procs: Procs, c: Id)
    decreases c
  {
    c == INIT || (c in procs && procs[c].parent.Some? && procs[c].parent.value < c && ReachesInit(procs, procs[c].parent.value))
  }

  lemma {:induction false} Reaches(y: Tree, c: Id)
    requires Inv(y) && c in y.procs && c !in y.reaped
    ensures ReachesInit(y.procs, c)
    decreases c
  {
    hide Inv;
    if c != INIT {
      Get(y, c);
      var q := y.procs[c].parent.value;
      Get(y, q);
      Reaches(y, q);
    }
  }

  /** In every run: a process that is not init and not collected is in exactly one children list,
      once; the list's owner is its recorded parent and is alive; its parents lead to init. */
  lemma TreeShape(ops: seq<Op>, c: Id)
    requires Legal(Boot(), ops) && c in Run(Boot(), ops).procs && c != INIT && c !in Run(Boot(), ops).reaped
    ensures var y := Run(Boot(), ops);
            exists q :: q in y.procs && y.procs[c].parent == Some(q) && !y.procs[q].zombie && multiset(y.procs[q].children)[c] == 1
              && (forall r | r in y.procs && r != q :: c !in y.procs[r].children)
    ensures ReachesInit(Run(Boot(), ops).procs, c)
  {
    BootInv();
    RunKeeps(Boot(), ops);
    hide Inv, Run;
    var y := Run(Boot(), ops);
    Get(y, c);
    var q := y.procs[c].parent.value;
    Get(y, q);
    Once(y.procs[q].children, c);
    forall r | r in y.procs && r != q ensures c !in y.procs[r].children { Get(y, r); }
    Reaches(y, c);
  }

  // ---- parents over a run

  ghost predicate Exits(ops: seq<Op>, p: Id)
  {
    ops != [] && ((ops[0].OpExit? && ops[0].p == p) || Exits(ops[1..], p))
  }

  lemma ParentStep(y: Tree, op: Op, c: Id)
    requires Inv(y) && Enabled(y, op) && c in y.procs && c != INIT && c in Step(y, op).procs && c !in Step(y, op).reaped
    ensures c !in y.reaped && y.procs[c].parent.Some?
    ensures Step(y, op).procs[c].parent == if op.OpExit? && y.procs[c].parent == Some(op.p) then Some(INIT) else y.procs[c].parent
  {
    hide Inv, Exit;
    Get(y, c);
    match op {
      case OpExit(p, code) =>
        ExitRest(y, p, code);
        ExitAt(y, p, code, c);
        Get(y, p);
      case OpFork(p) => ForkAt(y, p, c);
      case _ =>
    }
  }

  lemma StillThere(y: Tree, op: Op, c: Id)
    requires Inv(y) && Enabled(y, op) && c < y.next && c in Step(y, op).procs
    ensures c in y.procs
  {
    hide Inv, Exit;
    match op {
      case OpExit(p, code) => ExitKeys(y, p, code);
      case OpFork(p) => ForkAt(y, p, p);
      case _ =>
    }
  }

  lemma NextGrows(y: Tree, op: Op)
    requires Inv(y) && Enabled(y, op)
    ensures y.next <= Step(y, op).next && y.reaped <= Step(y, op).reaped
  {
    hide Inv, Exit;
    match op {
      case OpExit(p, code) => ExitRest(y, p, code);
      case _ =>
    }
  }

  /** Later operations leave a process under its parent, or under init if that parent exits. */
  lemma {:induction false} ParentAfter(y: Tree, ops: seq<Op>, c: Id)
    requires Inv(y) && Legal(y, ops) && c < y.next && c != INIT && c in Run(y, ops).procs && c !in Run(y, ops).reaped
    ensures c in y.procs && c !in y.reaped && y.procs[c].parent.Some?
    ensures Run(y, ops).procs[c].parent == Some(if Exits(ops, y.procs[c].parent.value) then INIT else y.procs[c].parent.value)
    decreases |ops|
  {
    hide Inv, Step;
    if ops == [] {
      Get(y, c);
    } else {
      var y' := Step(y, ops[0]);
      StepKeeps(y, ops[0]);
      NextGrows(y, ops[0]);
      ParentAfter(y', ops[1..], c);
      StillThere(y, ops[0], c);
      ParentStep(y, ops[0], c);
      if y'.procs[c].parent.value == INIT { InitStays(y', ops[1..]); }
    }
  }

  lemma {:induction false} InitStays(y: Tree, ops: seq<Op>)
    requires Inv(y) && Legal(y, ops)
    ensures !Exits(ops, INIT)
    decreases |ops|
  {
    hide Inv, Step;
    if ops != [] {
      StepKeeps(y, ops[0]);
      InitStays(Step(y, ops[0]), ops[1..]);
    }
  }

  /** In every run, a process not yet collected hangs under the process that forked it as long as
      that one has not exited, and under init from then on. */
  lemma ParentIsForker(before: seq<Op>, p: Id, later: seq<Op>)
    requires Legal(Boot(), before) && Enabled(Run(Boot(), before), OpFork(p)) && Legal(Step(Run(Boot(), before), OpFork(p)), later)
    ensures var c, y := Run(Boot(), before).next, Run(Step(Run(Boot(), before), OpFork(p)), later);
            c in y.procs && c !in y.reaped ==> y.procs[c].parent == Some(if Exits(later, p) then INIT else p)
  {
    BootInv();
    RunKeeps(Boot(), before);
    hide Inv, Run, Legal;
    var y0 := Run(Boot(), before);
    StepKeeps(y0, OpFork(p));
    ForkAt(y0, p, p);
    Init(y0);
    var y1, c := Step(y0, OpFork(p)), y0.next;
    if c in Run(y1, later).procs && c !in Run(y1, later).reaped {
      ParentAfter(y1, later, c);
    }
  }

  // ---- pids over a run

  /** A pid in use is some process's. */
  ghost predicate Named(y: Tree) { forall pid | Live(y.pids, pid) :: exists c :: c in y.procs && y.procs[c].pid == pid }

  lemma NamedStep(y: Tree, op: Op)
    requires Inv(y) && Named(y) && Enabled(y, op)
    ensures Named(Step(y, op))
  {
    hide Inv, Exit;
    var y' := Step(y, op);
    IdsFine(y);
    match op {
      case OpFork(p) =>
        AllocLive(y.pids);
        ForkAt(y, p, p);
        assert Live(y'.pids, y'.procs[y.next].pid) && y'.procs[y.next].pid == Alloc(y.pids).1;
      case OpFree(c) => DeallocLive(y.pids, y.procs[c].pid);
      case OpExit(p, code) =>
        ExitRest(y, p, code);
        ExitKeys(y, p, code);
      case _ =>
    }
    forall pid | Live(y'.pids, pid) ensures exists c :: c in y'.procs && y'.procs[c].pid == pid {
      if Live(y.pids, pid) {
        var c :| c in y.procs && y.procs[c].pid == pid;
        if op.OpExit? { ExitAt(y, op.p, op.code, c); }
        assert c in y'.procs && y'.procs[c].pid == pid;
      } else {
        assert y.next in y'.procs;
      }
    }
  }

  lemma IdsFine(y: Tree)
    requires Inv(y)
    ensures IdsOk(y.pids)
  {
  }

  lemma {:induction false} NamedRun(y: Tree, ops: seq<Op>)
    requires Inv(y) && Named(y) && Legal(y, ops)
    ensures Named(Run(y, ops))
    decreases |ops|
  {
    hide Inv, Step, Named;
    if ops != [] {
      NamedStep(y, ops[0]);
      StepKeeps(y, ops[0]);
      NamedRun(Step(y, ops[0]), ops[1..]);
    }
  }

  /** In every run the pids in use are exactly those of the control blocks that exist, each of one. */
  lemma PidsExact(ops: seq<Op>, pid: nat)
    requires Legal(Boot(), ops)
    ensures var y := Run(Boot(), ops);
            && (Live(y.pids, pid) <==> exists c :: c in y.procs && y.procs[c].pid == pid)
            && (forall c, d | c in y.procs && d in y.procs && y.procs[c].pid == y.procs[d].pid :: c == d)
  {
    BootInv();
    assert Named(Boot()) by { assert Boot().procs[INIT].pid == 0; }
    RunKeeps(Boot(), ops);
    NamedRun(Boot(), ops);
    hide Run, Legal, ProcOk;
    var y := Run(Boot(), ops);
    forall c | c in y.procs ensures Live(y.pids, y.procs[c].pid) { PidLive(y, c); }
  }

  /** In every run no panic of these operations can fire: exit finds its pid in PID2PCB, mapped to
      itself; a zombie that `wait4` finds has an exit code; a collected control block's pid can be
      given back. */
  lemma NoPanic(ops: seq<Op>, p: Id)
    requires Legal(Boot(), ops) && p in Run(Boot(), ops).procs
    ensures var y := Run(Boot(), ops);
            && (p != INIT && !y.procs[p].zombie ==> y.procs[p].pid in y.pcbs && y.pcbs[y.procs[p].pid] == p)
            && (y.procs[p].zombie ==> y.procs[p].exitCode.Some?)
            && (p in y.reaped ==> Dealloc(y.pids, y.procs[p].pid).Some?)
  {
    BootInv();
    RunKeeps(Boot(), ops);
    Get(Run(Boot(), ops), p);
    DeallocLive(Run(Boot(), ops).pids, Run(Boot(), ops).procs[p].pid);
  }

  /** Child number `i` is one that `pid` asks for: any child for -1, else the child of that pid,
      where a negative number stands for its 64-bit pattern. */
  ghost predicate Asked(y: Tree, p: Id, pid: int, i: nat)
    requires p in y.procs && i < |y.procs[p].children|
  {
    && y.procs[p].children[i] in y.procs
    && var x := y.procs[y.procs[p].children[i]];
       pid == -1 || (pid >= 0 && x.pid == pid) || (pid < -1 && x.pid == pid + 0x1_0000_0000_0000_0000)
  }

  ghost predicate Exited(y: Tree, p: Id, i: nat)
    requires p in y.procs && i < |y.procs[p].children|
  {
    y.procs[p].children[i] in y.procs && y.procs[y.procs[p].children[i]].zombie
  }

  /** Child `k` is the first one asked for that has exited; it is collected. */
  ghost predicate Takes(y: Tree, p: Id, pid: int, k: nat, y': Tree, r: Waited)
    requires p in y.procs
  {
    && k < |y.procs[p].children| && Asked(y, p, pid, k) && Exited(y, p, k)
    && (forall i | 0 <= i < k :: !(Asked(y, p, pid, i) && Exited(y, p, i)))
    && var c := y.procs[p].children[k];
       && y.procs[c].exitCode.Some? && r == Collected(y.procs[c].pid, y.procs[c].exitCode.value)
       && y'.next == y.next && y'.pids == y.pids && y'.pcbs == y.pcbs && y'.reaped == y.reaped + {c}
       && y'.procs.Keys == y.procs.Keys && (forall q | q in y.procs && q != p :: y'.procs[q] == y.procs[q])
       && y'.procs[p] == y.procs[p].(children := y.procs[p].children[..k] + y.procs[p].children[k + 1..])
  }

  /** What `wait4` answers: ECHILD exactly without a child asked for; else the first child asked for
      that has exited, by its pid and with its code, and only that child leaves the list; else
      nothing yet, and nothing changes. */
  lemma WaitAnswers(y: Tree, p: Id, pid: int)
    requires Inv(y) && p in y.procs
    ensures var cs := y.procs[p].children;
            var (y', r) := Wait(y, p, pid);
            && (r.NoChild? <==> forall i | 0 <= i < |cs| :: !Asked(y, p, pid, i))
            && (r.Collected? <==> exists i :: 0 <= i < |cs| && Asked(y, p, pid, i) && Exited(y, p, i))
            && (!r.Collected? ==> y' == y)
            && (r.Collected? ==> exists k :: Takes(y, p, pid, k, y', r))
            && (r.Collected? && pid >= 0 ==> r.pid == pid)
  {
    hide Inv, Takes, Asked, Exited, Matches, Collect;
    var cs := y.procs[p].children;
    var k := FirstZombie(y.procs, cs, pid, 0);
    FirstZombieIs(y.procs, cs, pid, 0);
    forall i | 0 <= i < |cs| ensures cs[i] in y.procs && (Asked(y, p, pid, i) <==> Matches(pid, y.procs[cs[i]])) && (Exited(y, p, i) <==> y.procs[cs[i]].zombie) {
      AskedMatches(y, p, pid, i);
    }
    if k < |cs| {
      TakesFirst(y, p, pid, k);
    }
    if HasChild(y.procs, cs, pid) {
      var i :| 0 <= i < |cs| && cs[i] in y.procs && Matches(pid, y.procs[cs[i]]);
      assert Asked(y, p, pid, i);
    }
  }

  lemma AskedMatches(y: Tree, p: Id, pid: int, i: nat)
    requires Inv(y) && p in y.procs && i < |y.procs[p].children|
    ensures y.procs[p].children[i] in y.procs
    ensures Asked(y, p, pid, i) <==> Matches(pid, y.procs[y.procs[p].children[i]])
    ensures Exited(y, p, i) <==> y.procs[y.procs[p].children[i]].zombie
  {
    hide Inv;
    Get(y, p);
    assert y.procs[p].children[i] in y.procs[p].children;
  }

  lemma TakesFirst(y: Tree, p: Id, pid: int, k: nat)
    requires Inv(y) && p in y.procs && k < |y.procs[p].children| && Asked(y, p, pid, k) && Exited(y, p, k)
    requires forall i | 0 <= i < k :: !(Asked(y, p, pid, i) && Exited(y, p, i))
    ensures var c := y.procs[p].children[k];
            && y.procs[c].exitCode.Some? && (pid >= 0 ==> y.procs[c].pid == pid)
            && Takes(y, p, pid, k, Collect(y, p, k), Collected(y.procs[c].pid, y.procs[c].exitCode.value))
  {
    hide Inv;
    Get(y, y.procs[p].children[k]);
  }

  // ---- exit codes

  /** The child a wait collects, with the code it hands over. */
  ghost function CollectedBy(y: Tree, op: Op): seq<(Id, int)>
    requires Enabled(y, op)
  {
    if op.OpWait? && Wait(y, op.p, op.pid).1.Collected? then
      [(y.procs[op.p].children[FirstZombie(y.procs, y.procs[op.p].children, op.pid, 0)], Wait(y, op.p, op.pid).1.code)]
    else []
  }

  ghost function Delivered(y: Tree, ops: seq<Op>): seq<(Id, int)>
    requires Legal(y, ops)
    decreases |ops|
  {
    if ops == [] then [] else CollectedBy(y, ops[0]) + Delivered(Step(y, ops[0]), ops[1..])
  }

  lemma CollectStep(y: Tree, op: Op)
    requires Inv(y) && Enabled(y, op)
    ensures |CollectedBy(y, op)| <= 1
    ensures forall d | d in CollectedBy(y, op) :: d.0 in y.procs && y.procs[d.0].zombie && y.procs[d.0].exitCode == Some(d.1)
    ensures forall d | d in CollectedBy(y, op) :: d.0 !in y.reaped && d.0 in Step(y, op).reaped
    ensures y.reaped <= Step(y, op).reaped
  {
    hide Inv;
    if op.OpWait? {
      var cs := y.procs[op.p].children;
      var k := FirstZombie(y.procs, cs, op.pid, 0);
      FirstZombieIs(y.procs, cs, op.pid, 0);
      Get(y, op.p);
      if k < |cs| {
        assert cs[k] in cs;
        Get(y, cs[k]);
      }
    }
  }

  /** Each process's exit is delivered at most once, over any run. */
  lemma {:induction false} DeliveredOnce(y: Tree, ops: seq<Op>)
    requires Inv(y) && Legal(y, ops)
    ensures forall i | 0 <= i < |Delivered(y, ops)| :: Delivered(y, ops)[i].0 !in y.reaped
    ensures forall i, j | 0 <= i < j < |Delivered(y, ops)| :: Delivered(y, ops)[i].0 != Delivered(y, ops)[j].0
    decreases |ops|
  {
    hide Inv, Step, CollectedBy;
    if ops != [] {
      CollectStep(y, ops[0]);
      StepKeeps(y, ops[0]);
      DeliveredOnce(Step(y, ops[0]), ops[1..]);
    }
  }

  /** `c` exited with `code`: on record, or somewhere in `ops`. */
  ghost predicate ExitedWith(y: Tree, ops: seq<Op>, c: Id, code: int)
  {
    (c in y.procs && y.procs[c].zombie && y.procs[c].exitCode == Some(code)) || OpExit(c, code) in ops
  }

  /** A zombie after a step was one before, with the same code, unless the step is its exit. */
  lemma ZombieStep(y: Tree, op: Op, c: Id)
    requires Inv(y) && Enabled(y, op) && c in Step(y, op).procs && Step(y, op).procs[c].zombie
    ensures op == OpExit(c, if op.OpExit? then op.code else 0) || (c in y.procs && y.procs[c].zombie)
    ensures !op.OpExit? || op.p != c ==> c in y.procs && y.procs[c].exitCode == Step(y, op).procs[c].exitCode
    ensures op.OpExit? && op.p == c ==> Step(y, op).procs[c].exitCode == Some(op.code)
  {
    hide Inv, Exit;
    match op {
      case OpExit(p, code) =>
        ExitKeys(y, p, code);
        ExitAt(y, p, code, c);
      case OpWait(p, pid) => FirstZombieIs(y.procs, y.procs[p].children, pid, 0);
      case _ =>
    }
  }

  lemma ExitStep(y: Tree, op: Op, rest: seq<Op>, c: Id, code: int)
    requires Inv(y) && Enabled(y, op) && ExitedWith(Step(y, op), rest, c, code)
    ensures ExitedWith(y, [op] + rest, c, code)
  {
    hide Inv, Step, Enabled;
    assert ([op] + rest)[0] == op;
    if OpExit(c, code) !in rest {
      ZombieStep(y, op, c);
    }
  }

  /** The code delivered for a process is the one it exited with. */
  lemma {:induction false} DeliveredCode(y: Tree, ops: seq<Op>, i: nat)
    requires Inv(y) && Legal(y, ops) && i < |Delivered(y, ops)|
    ensures ExitedWith(y, ops, Delivered(y, ops)[i].0, Delivered(y, ops)[i].1)
    decreases |ops|
  {
    hide Inv, Step, CollectedBy;
    if ops != [] {
      CollectStep(y, ops[0]);
      var n := |CollectedBy(y, ops[0])|;
      if i < n {
        assert Delivered(y, ops)[i] in CollectedBy(y, ops[0]);
      } else {
        StepKeeps(y, ops[0]);
        DeliveredCode(Step(y, ops[0]), ops[1..], i - n);
        var d := Delivered(y, ops)[i];
        ExitStep(y, ops[0], ops[1..], d.0, d.1);
        assert [ops[0]] + ops[1..] == ops;
      }
    }
  }

  /** From boot: every delivered code comes from an exit of that process in the run, and no process
      is delivered twice. */
  lemma ExitCodes(ops: seq<Op>)
    requires Legal(Boot(), ops)
    ensures var ds := Delivered(Boot(), ops);
            && (forall i, j | 0 <= i < j < |ds| :: ds[i].0 != ds[j].0)
            && (forall i | 0 <= i < |ds| :: OpExit(ds[i].0, ds[i].1) in ops)
  {
    BootInv();
    DeliveredOnce(Boot(), ops);
    forall i | 0 <= i < |Delivered(Boot(), ops)| ensures OpExit(Delivered(Boot(), ops)[i].0, Delivered(Boot(), ops)[i].1) in ops {
      DeliveredCode(Boot(), ops, i);
    }
  }

  // ---- the code

  /** The task control blocks with their tree fields, PID2PCB and the pid allocator. */
  class Processes {
    const pids: RecycleAllocator
    var procs: Procs
    var next: Id
    var pcbs: map<nat, Id>
    ghost var reaped: set<Id>

    /** init takes the first pid. */
    constructor ()
      ensures fresh(pids) && View() == Boot()
    {
      var a := new RecycleAllocator();
      var pid := a.AllocId();
      pids, pcbs, reaped := a, map[], {};
      procs, next := map[INIT := Proc(pid, None, [], false, None)], 1;
    }

    ghost function View(): Tree
      reads this, pids
    {
      Tree(procs, next, pids.View(), pcbs, reaped)
    }

    /** `fork`, the part that concerns the tree; returns the child's pid. */
    method ForkProcess(p: Id) returns (pid: nat)
      requires p in procs
      modifies this, pids
      ensures View() == Fork(old(View()), p) && pid == Alloc(old(pids.View())).1
    {
      pid := pids.AllocId();
      var child := next;
      var x := procs[p];
      procs := procs[p := Proc(x.pid, x.parent, x.children + [child], x.zombie, x.exitCode)];
      procs := procs[child := Proc(pid, Some(p), [], false, None)];
      next := next + 1;
      pcbs := pcbs[pid := child];
    }

    /** `exit_current_and_run_next` for a process other than init. */
    method ExitProcess(p: Id, code: int)
      requires Inv(View()) && CanExit(View(), p)
      modifies this
      ensures View() == Exit(old(View()), p, code)
    {
      hide Inv, Moved;
      ghost var y := View();
      InPcbs(y, p);
      Init(y);
      // the panic of remove_from_pid2process cannot fire
      assert procs[p].pid in pcbs;
      pcbs := pcbs - {procs[p].pid};
      procs := procs[p := Proc(procs[p].pid, procs[p].parent, procs[p].children, true, Some(code))];
      ghost var procs1 := procs;
      var cs := procs[p].children;
      MovedNone(procs);
      var i := 0;
      while i < |cs|
        invariant 0 <= i <= |cs| && procs == Moved(procs1, cs[..i])
        invariant next == y.next && pcbs == y.pcbs - {y.procs[p].pid} && reaped == y.reaped
      {
        var c := cs[i];
        assert c in cs;
        ExitApart(y, p, c);
        ChildrenNoDup(y, p);
        MovedOne(procs1, cs, i);
        var x := procs[c];
        procs := procs[c := Proc(x.pid, Some(INIT), x.children, x.zombie, x.exitCode)];
        var init := procs[INIT];
        procs := procs[INIT := Proc(init.pid, init.parent, init.children + [c], init.zombie, init.exitCode)];
        i := i + 1;
      }
      assert cs[..|cs|] == cs;
      var x := procs[p];
      procs := procs[p := Proc(x.pid, x.parent, [], x.zombie, x.exitCode)];
      ExitedLater(y, p, code, cs);
    }

    /** One turn of the loop of `sys_wait4`; the retry after a suspension is a later turn. */
    method WaitTurn(p: Id, pid: int) returns (r: Waited)
      requires Inv(View()) && p in procs
      modifies this
      ensures (View(), r) == Wait(old(View()), p, pid)
    {
      hide Inv;
      ghost var y := View();
      Get(y, p);
      var x := procs[p];
      var cs := x.children;
      var found := false;
      var i := 0;
      while i < |cs|
        invariant 0 <= i <= |cs| && View() == y
        invariant found <==> HasChild(procs, cs[..i], pid)
      {
        assert cs[i] in cs;
        if Matches(pid, procs[cs[i]]) { found := true; }
        HasChildMore(procs, cs, pid, i);
        i := i + 1;
      }
      assert cs[..|cs|] == cs;
      if !found { return NoChild; }
      var k := 0;
      while k < |cs|
        invariant 0 <= k <= |cs| && View() == y
        invariant FirstZombie(procs, cs, pid, 0) == FirstZombie(procs, cs, pid, k)
      {
        assert cs[k] in cs;
        if procs[cs[k]].zombie && Matches(pid, procs[cs[k]]) { break; }
        k := k + 1;
      }
      if k == |cs| { return NotYet; }
      var c := cs[k];
      var child := procs[c];
      Get(y, c);
      procs := procs[p := Proc(x.pid, x.parent, cs[..k] + cs[k + 1..], x.zombie, x.exitCode)];
      reaped := reaped + {c};
      r := Collected(child.pid, child.exitCode.value);
    }
  }

  lemma InPcbs(y: Tree, p: Id)
    requires Inv(y) && CanExit(y, p)
    ensures y.procs[p].pid in y.pcbs
  {
    assert ProcOk(y, p);
  }

  lemma ChildrenNoDup(y: Tree, p: Id)
    requires Inv(y) && p in y.procs
    ensures NoDup(y.procs[p].children)
  {
    assert ProcOk(y, p);
  }

  lemma MovedNone(procs: Procs)
    ensures Moved(procs, []) == procs
  {
    forall q | q in procs ensures Moved(procs, [])[q] == procs[q] {
      assert procs[q].children + [] == procs[q].children;
    }
  }

  lemma MovedOne(procs: Procs, cs: seq<Id>, i: nat)
    requires i < |cs| && NoDup(cs) && INIT in procs && cs[i] in procs && cs[i] != INIT
    ensures var m := Moved(procs, cs[..i]);
            var x := m[cs[i]];
            var m1 := m[cs[i] := Proc(x.pid, Some(INIT), x.children, x.zombie, x.exitCode)];
            var n := m1[INIT];
            m1[INIT := Proc(n.pid, n.parent, n.children + [cs[i]], n.zombie, n.exitCode)] == Moved(procs, cs[..i + 1])
  {
    var m := Moved(procs, cs[..i]);
    var x := m[cs[i]];
    var m1 := m[cs[i] := Proc(x.pid, Some(INIT), x.children, x.zombie, x.exitCode)];
    var n := m1[INIT];
    var m2 := m1[INIT := Proc(n.pid, n.parent, n.children + [cs[i]], n.zombie, n.exitCode)];
    assert cs[..i + 1] == cs[..i] + [cs[i]];
    assert procs[INIT].children + cs[..i] + [cs[i]] == procs[INIT].children + cs[..i + 1];
    forall q | q in procs ensures m2[q] == Moved(procs, cs[..i + 1])[q] {}
  }

  /** Marking the zombie before handing its children on, as the code does, or after is the same. */
  lemma ExitedLater(y: Tree, p: Id, code: int, cs: seq<Id>)
    requires p in y.procs && p != INIT && cs == y.procs[p].children
    ensures var x := y.procs[p];
            var m := Moved(y.procs[p := Proc(x.pid, x.parent, cs, true, Some(code))], cs);
            m[p := Proc(m[p].pid, m[p].parent, [], m[p].zombie, m[p].exitCode)] == Exit(y, p, code).procs
  {
  }

  lemma HasChildMore(procs: Procs, cs: seq<Id>, pid: int, i: nat)
    requires i < |cs|
    ensures HasChild(procs, cs[..i + 1], pid) <==> HasChild(procs, cs[..i], pid) || (cs[i] in procs && Matches(pid, procs[cs[i]]))
  {
    var a, b := cs[..i], cs[..i + 1];
    if HasChild(procs, a, pid) {
      var j :| 0 <= j < |a| && a[j] in procs && Matches(pid, procs[a[j]]);
      assert b[j] == a[j];
    }
    assert b[i] == cs[i];
    if HasChild(procs, b, pid) {
      var j :| 0 <= j < |b| && b[j] in procs && Matches(pid, procs[b[j]]);
      assert j < i ==> a[j] == b[j];
    }
  }
}
