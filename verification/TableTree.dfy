/** The three-level table of os/src/mm/page_table.rs as a tree of frames: the walk, the walk
    that creates missing levels, and what both do to the tree. Frames are seen as 512
    decoded entries; module PhysMem ties this view to bytes. */
module TableTree {
  import opened Sv39

  type Entries = map<nat, seq<Pte>>

  ghost predicate Sized(e: Entries) { forall p | p in e :: |e[p]| == 512 }

  function ZeroFrame(): (s: seq<Pte>)
    ensures |s| == 512 && forall i | 0 <= i < 512 :: s[i] == EMPTY
  {
    seq(512, _ => EMPTY)
  }

  /** Which frame serves which index path: `mid[i]` is the second-level table under root
      entry `i`, `low[(i, j)]` the leaf table under `mid[i]`'s entry `j`. */
  datatype Tree = Tree(root: nat, mid: map<nat, nat>, low: map<(nat, nat), nat>)

  function Owned(t: Tree): set<nat>
  {
    {t.root} + t.mid.Values + t.low.Values
  }

  ghost predicate Distinct(t: Tree)
  {
    && (forall i | i in t.mid :: t.mid[i] != t.root)
    && (forall k | k in t.low :: t.low[k] != t.root)
    && (forall i, k | i in t.mid && k in t.low :: t.mid[i] != t.low[k])
    && (forall i, i' | i in t.mid && i' in t.mid && i != i' :: t.mid[i] != t.mid[i'])
    && (forall k, k' | k in t.low && k' in t.low && k != k' :: t.low[k] != t.low[k'])
  }

  ghost predicate RootShape(e: Entries, t: Tree, lim: nat)
    requires lim <= 512 && Sized(e)
  {
    && t.root in e
    && (forall i | i in t.mid :: i < lim && t.mid[i] in e && e[t.root][i] == Pte(t.mid[i], V_ONLY))
    && (forall i | 0 <= i < lim && i !in t.mid :: !e[t.root][i].flags.v)
  }

  ghost predicate MidShape(e: Entries, t: Tree)
    requires Sized(e) && forall i | i in t.mid :: t.mid[i] in e
  {
    && (forall k | k in t.low :: k.0 in t.mid && k.1 < 512 && t.low[k] in e
                              && e[t.mid[k.0]][k.1] == Pte(t.low[k], V_ONLY))
    && (forall i, j | i in t.mid && 0 <= j < 512 && (i, j) !in t.low :: !e[t.mid[i]][j].flags.v)
  }

  /** The frames form the tree `t` under the root entries below `lim`: no table is shared,
      none is reachable twice, and the entries are valid exactly where the tree has a child. */
  ghost predicate Shape(e: Entries, t: Tree, lim: nat)
    requires lim <= 512
  {
    Sized(e) && RootShape(e, t, lim) && MidShape(e, t) && Distinct(t)
  }

  // ---- the walk

  /** `find_pte`: the leaf table the walk reaches, if the upper levels are present. */
  function Walk(e: Entries, root: nat, i: nat, j: nat): Option<nat>
    requires i < 512 && j < 512 && Sized(e)
  {
    if root !in e || !e[root][i].flags.v then None else
    var p := e[root][i].ppn;
    if p !in e || !e[p][j].flags.v then None else Some(e[p][j].ppn)
  }

  lemma WalkFollowsTree(e: Entries, t: Tree, lim: nat, i: nat, j: nat)
    requires lim <= 512 && Shape(e, t, lim) && i < lim && j < 512
    ensures Walk(e, t.root, i, j) == if (i, j) in t.low then Some(t.low[(i, j)]) else None
  {
  }

  // ---- creating the missing levels

  function SetEntry(e: Entries, table: nat, idx: nat, pte: Pte): Entries
    requires Sized(e) && table in e && idx < 512
  {
    e[table := e[table][idx := pte]]
  }

  datatype Created = Created(e: Entries, next: nat, child: nat)

  /** One turn of `find_pte_create`: go through entry `idx` of `table`, first pointing it
      to a new zeroed frame when it is not valid. `None` is the allocator's end. */
  function Descend(e: Entries, next: nat, end: nat, table: nat, idx: nat): (r: Option<Created>)
    requires Sized(e) && table in e && idx < 512
    ensures r.Some? ==> Sized(r.value.e)
  {
    if e[table][idx].flags.v then Some(Created(e, next, e[table][idx].ppn))
    else if next >= end then None
    else Some(Created(SetEntry(e[next := ZeroFrame()], table, idx, Pte(next, V_ONLY)), next + 1, next))
  }

  function GrowMid(t: Tree, i: nat, next: nat): Tree
  {
    if i in t.mid then t else Tree(t.root, t.mid[i := next], t.low)
  }

  function GrowLow(t: Tree, i: nat, j: nat, next: nat): Tree
  {
    if (i, j) in t.low then t else Tree(t.root, t.mid, t.low[(i, j) := next])
  }

  /** The frames outside `t` and below the allocator's mark are as before. */
  ghost predicate SameElsewhere(e: Entries, e': Entries, t: Tree, next: nat)
  {
    forall p | p in e && p < next && p !in Owned(t) :: p in e' && e'[p] == e[p]
  }

  ghost predicate Below(t: Tree, next: nat)
  {
    forall p | p in Owned(t) :: p < next
  }

  lemma OwnedMembers(t: Tree)
    ensures t.root in Owned(t)
    ensures forall i | i in t.mid :: t.mid[i] in Owned(t)
    ensures forall k | k in t.low :: t.low[k] in Owned(t)
  {
    assert forall i | i in t.mid :: t.mid[i] in t.mid.Values;
    assert forall k | k in t.low :: t.low[k] in t.low.Values;
  }

  lemma AddMidTree(t: Tree, i: nat, next: nat)
    requires Distinct(t) && i !in t.mid && next !in Owned(t)
    ensures Distinct(GrowMid(t, i, next)) && Owned(GrowMid(t, i, next)) == Owned(t) + {next}
  {
    OwnedMembers(t);
    var t' := GrowMid(t, i, next);
    OwnedMembers(t');
    assert t'.mid[i] == next;
    assert forall x | x in t.mid :: t'.mid[x] == t.mid[x];
    assert t'.mid.Values == t.mid.Values + {next};
  }

  lemma AddLowTree(t: Tree, i: nat, j: nat, next: nat)
    requires Distinct(t) && (i, j) !in t.low && next !in Owned(t)
    ensures Distinct(GrowLow(t, i, j, next)) && Owned(GrowLow(t, i, j, next)) == Owned(t) + {next}
  {
    OwnedMembers(t);
    var t' := GrowLow(t, i, j, next);
    OwnedMembers(t');
    assert t'.low[(i, j)] == next;
    assert forall k | k in t.low :: t'.low[k] == t.low[k];
    assert t'.low.Values == t.low.Values + {next};
  }

  /** `e'` is `e` with a zeroed frame `next` hung under entry `idx` of `table`. */
  ghost predicate Hung(e: Entries, e': Entries, next: nat, table: nat, idx: nat)
  {
    && Sized(e) && Sized(e') && table in e && idx < 512 && table != next
    && e'.Keys == e.Keys + {next} && e'[next] == ZeroFrame()
    && e'[table] == e[table][idx := Pte(next, V_ONLY)]
    && (forall p | p in e && p != next && p != table :: e'[p] == e[p])
  }

  lemma DescendHangs(e: Entries, next: nat, end: nat, table: nat, idx: nat)
    requires Sized(e) && table in e && idx < 512 && table != next && next < end && !e[table][idx].flags.v
    ensures Descend(e, next, end, table, idx).Some?
    ensures Hung(e, Descend(e, next, end, table, idx).value.e, next, table, idx)
  {
  }

  lemma AddMidShape(e: Entries, e': Entries, t: Tree, lim: nat, next: nat, i: nat)
    requires lim <= 512 && Shape(e, t, lim) && i < lim && i !in t.mid && next !in Owned(t)
    requires Hung(e, e', next, t.root, i)
    ensures Shape(e', GrowMid(t, i, next), lim)
  {
    OwnedMembers(t);
    AddMidTree(t, i, next);
    var t' := GrowMid(t, i, next);
    assert RootShape(e', t', lim);
    forall x, y | x in t'.mid && 0 <= y < 512 && (x, y) !in t'.low
      ensures !e'[t'.mid[x]][y].flags.v
    {
      if x == i { assert e'[next][y] == EMPTY; } else { assert e'[t.mid[x]] == e[t.mid[x]]; }
    }
  }

  lemma AddLowShape(e: Entries, e': Entries, t: Tree, lim: nat, next: nat, i: nat, j: nat)
    requires lim <= 512 && Shape(e, t, lim) && i in t.mid && j < 512 && (i, j) !in t.low && next !in Owned(t)
    requires Hung(e, e', next, t.mid[i], j)
    ensures Shape(e', GrowLow(t, i, j, next), lim)
  {
    OwnedMembers(t);
    AddLowTree(t, i, j, next);
    var t' := GrowLow(t, i, j, next);
    assert RootShape(e', t', lim);
    forall k | k in t'.low
      ensures k.0 in t'.mid && k.1 < 512 && t'.low[k] in e' && e'[t'.mid[k.0]][k.1] == Pte(t'.low[k], V_ONLY)
    {
      if k.0 != i && k in t.low { assert e'[t.mid[k.0]] == e[t.mid[k.0]]; }
    }
    forall x, y | x in t'.mid && 0 <= y < 512 && (x, y) !in t'.low
      ensures !e'[t'.mid[x]][y].flags.v
    {
      if x != i { assert e'[t.mid[x]] == e[t.mid[x]]; }
    }
  }

  lemma DescendRoot(e: Entries, t: Tree, lim: nat, next: nat, end: nat, i: nat)
    requires lim <= 512 && Shape(e, t, lim) && Below(t, next) && i < lim
    ensures var r := Descend(e, next, end, t.root, i);
            var t' := GrowMid(t, i, next);
            && (r.None? <==> i !in t.mid && next >= end)
            && (r.Some? ==> && Shape(r.value.e, t', lim) && r.value.child == t'.mid[i]
                            && r.value.next == (if i in t.mid then next else next + 1)
                            && Below(t', r.value.next)
                            && SameElsewhere(e, r.value.e, t, next)
                            && (forall k | k in t.low :: r.value.e[t.low[k]] == e[t.low[k]]))
  {
    OwnedMembers(t);
    if i !in t.mid && next < end {
      DescendHangs(e, next, end, t.root, i);
      AddMidShape(e, Descend(e, next, end, t.root, i).value.e, t, lim, next, i);
      AddMidTree(t, i, next);
    }
  }

  lemma DescendMid(e: Entries, t: Tree, lim: nat, next: nat, end: nat, i: nat, j: nat)
    requires lim <= 512 && Shape(e, t, lim) && Below(t, next) && i in t.mid && j < 512
    ensures var r := Descend(e, next, end, t.mid[i], j);
            var t' := GrowLow(t, i, j, next);
            && (r.None? <==> (i, j) !in t.low && next >= end)
            && (r.Some? ==> && Shape(r.value.e, t', lim) && r.value.child == t'.low[(i, j)]
                            && r.value.next == (if (i, j) in t.low then next else next + 1)
                            && Below(t', r.value.next)
                            && SameElsewhere(e, r.value.e, t, next)
                            && (forall k | k in t.low :: r.value.e[t.low[k]] == e[t.low[k]])
                            && ((i, j) !in t.low ==> r.value.e[t'.low[(i, j)]] == ZeroFrame()))
  {
    OwnedMembers(t);
    if (i, j) !in t.low && next < end {
      DescendHangs(e, next, end, t.mid[i], j);
      AddLowShape(e, Descend(e, next, end, t.mid[i], j).value.e, t, lim, next, i, j);
      AddLowTree(t, i, j, next);
    }
  }

  // ---- find_pte_create

  /** Both upper levels of `find_pte_create`: the leaf table for the path `(i, j)`. */
  function Create(e: Entries, next: nat, end: nat, root: nat, i: nat, j: nat): (r: Option<Created>)
    requires Sized(e) && root in e && i < 512 && j < 512
    ensures r.Some? ==> Sized(r.value.e)
  {
    var c := Descend(e, next, end, root, i);
    if c.None? || c.value.child !in c.value.e then None
    else Descend(c.value.e, c.value.next, end, c.value.child, j)
  }

  /** How many table frames the path `(i, j)` still lacks. */
  function Missing(t: Tree, i: nat, j: nat): nat
  {
    (if i in t.mid then 0 else 1) + (if (i, j) in t.low then 0 else 1)
  }

  function Grow(t: Tree, i: nat, j: nat, next: nat): Tree
  {
    GrowLow(GrowMid(t, i, next), i, j, if i in t.mid then next else next + 1)
  }

  function Leaf(e: Entries, t: Tree, i: nat, j: nat, k: nat): Pte
    requires Sized(e) && k < 512
  {
    if (i, j) in t.low && t.low[(i, j)] in e then e[t.low[(i, j)]][k] else EMPTY
  }

  ghost predicate SameLeaves(e: Entries, t: Tree, e': Entries, t': Tree)
    requires Sized(e) && Sized(e')
  {
    forall i, j, k | 0 <= i < 512 && 0 <= j < 512 && 0 <= k < 512 :: Leaf(e', t', i, j, k) == Leaf(e, t, i, j, k)
  }

  lemma CreateCorrect(e: Entries, t: Tree, lim: nat, next: nat, end: nat, i: nat, j: nat)
    requires lim <= 512 && Shape(e, t, lim) && Below(t, next) && i < lim && j < 512
    ensures var r := Create(e, next, end, t.root, i, j);
            var m := Missing(t, i, j);
            var t' := Grow(t, i, j, next);
            && (r.None? <==> m > 0 && next + m > end)
            && (r.Some? ==> && Shape(r.value.e, t', lim) && (i, j) in t'.low && r.value.child == t'.low[(i, j)]
                            && r.value.next == next + m && Below(t', next + m)
                            && SameElsewhere(e, r.value.e, t, next)
                            && SameLeaves(e, t, r.value.e, t'))
  {
    DescendRoot(e, t, lim, next, end, i);
    var c := Descend(e, next, end, t.root, i);
    if c.Some? {
      CreateSecond(e, c.value.e, t, lim, next, c.value.next, end, i, j);
    }
  }

  lemma CreateSecond(e: Entries, e1: Entries, t: Tree, lim: nat, next: nat, next1: nat, end: nat, i: nat, j: nat)
    requires lim <= 512 && Sized(e) && i < lim && j < 512
    requires next1 == (if i in t.mid then next else next + 1)
    requires var t1 := GrowMid(t, i, next); Shape(e1, t1, lim) && Below(t1, next1) && SameElsewhere(e, e1, t, next)
    requires forall k | k in t.low :: t.low[k] in e && t.low[k] in e1 && e1[t.low[k]] == e[t.low[k]]
    ensures var t1 := GrowMid(t, i, next);
            var r := Descend(e1, next1, end, t1.mid[i], j);
            var t' := Grow(t, i, j, next);
            && (r.None? <==> (i, j) !in t.low && next1 >= end)
            && (r.Some? ==> && Shape(r.value.e, t', lim) && (i, j) in t'.low && r.value.child == t'.low[(i, j)]
                            && r.value.next == next + Missing(t, i, j) && Below(t', next + Missing(t, i, j))
                            && SameElsewhere(e, r.value.e, t, next)
                            && SameLeaves(e, t, r.value.e, t'))
  {
    var t1 := GrowMid(t, i, next);
    DescendMid(e1, t1, lim, next1, end, i, j);
    var r := Descend(e1, next1, end, t1.mid[i], j);
    assert t1.low == t.low;
    assert Grow(t, i, j, next) == GrowLow(t1, i, j, next1);
    if r.Some? {
      ElsewhereTwice(e, e1, r.value.e, t, i, next, next1);
      SecondLeaves(e, e1, r.value.e, t, GrowLow(t1, i, j, next1), i, j);
    }
  }

  lemma SecondLeaves(e: Entries, e1: Entries, e2: Entries, t: Tree, t': Tree, i: nat, j: nat)
    requires Sized(e) && Sized(e2) && (i, j) in t'.low
    requires t'.low == if (i, j) in t.low then t.low else t.low[(i, j) := t'.low[(i, j)]]
    requires forall k | k in t.low :: t.low[k] in e && t.low[k] in e1 && e1[t.low[k]] == e[t.low[k]]
    requires forall k | k in t.low :: t.low[k] in e2 && e2[t.low[k]] == e1[t.low[k]]
    requires (i, j) !in t.low ==> t'.low[(i, j)] in e2 && e2[t'.low[(i, j)]] == ZeroFrame()
    ensures SameLeaves(e, t, e2, t')
  {
  }

  lemma ElsewhereTwice(e: Entries, e1: Entries, e2: Entries, t: Tree, i: nat, next: nat, next1: nat)
    requires next <= next1 && SameElsewhere(e, e1, t, next) && SameElsewhere(e1, e2, GrowMid(t, i, next), next1)
    ensures SameElsewhere(e, e2, t, next)
  {
    var t1 := GrowMid(t, i, next);
    assert forall p | p in t1.mid.Values :: p in t.mid.Values || p == next;
  }

  /** Writing an entry of a leaf table changes that one leaf and nothing of the tree. */
  lemma SetLeafCorrect(e: Entries, t: Tree, lim: nat, i: nat, j: nat, k: nat, pte: Pte)
    requires lim <= 512 && Shape(e, t, lim) && (i, j) in t.low && k < 512
    ensures var e' := SetEntry(e, t.low[(i, j)], k, pte);
            && Shape(e', t, lim) && Sized(e')
            && (forall x: nat, y: nat, z: nat | z < 512 ::
                  Leaf(e', t, x, y, z) == if (x, y, z) == (i, j, k) then pte else Leaf(e, t, x, y, z))
  {
    var e' := SetEntry(e, t.low[(i, j)], k, pte);
    assert forall p | p in e && p != t.low[(i, j)] :: e'[p] == e[p];
    assert RootShape(e', t, lim);
    assert MidShape(e', t);
  }

  /** A tree is untouched by writes to frames it does not own. */
  lemma ShapeFrame(e: Entries, e': Entries, t: Tree, lim: nat)
    requires lim <= 512 && Shape(e, t, lim) && Sized(e')
    requires forall p | p in Owned(t) && p in e :: p in e' && e'[p] == e[p]
    ensures Shape(e', t, lim)
    ensures SameLeaves(e, t, e', t)
  {
    OwnedMembers(t);
    assert RootShape(e', t, lim);
    assert MidShape(e', t);
  }
}
