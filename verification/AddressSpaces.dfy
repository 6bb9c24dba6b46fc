/** `PageTable::{map, map_allow_cover, unmap, translate, new_process}` and what every run of
    them keeps: each table stands for a finite map from page numbers to entries, processes
    share the kernel's half through its second-level tables and share nothing else. */
module AddressSpaces {
  import opened Sv39
  import opened TableTree

  /** The kernel's memory after an operation; `Panic` is a failed assertion or `unwrap`. */
  datatype Outcome = Panic | Done(e: Entries, next: nat)

  /** `map` (`cover` false) and `map_allow_cover` (`cover` true) of the page at `at`. */
  function Map(e: Entries, next: nat, end: nat, root: nat, at: Path, pte: Pte, cover: bool): (r: Outcome)
    requires Sized(e)
    ensures r.Done? ==> Sized(r.e)
  {
    if root !in e then Panic else
    var c := Create(e, next, end, root, at.i, at.j);
    if c.None? || c.value.child !in c.value.e then Panic
    else if !cover && c.value.e[c.value.child][at.k].flags.v then Panic
    else Done(SetEntry(c.value.e, c.value.child, at.k, pte), c.value.next)
  }

  /** `translate`: the entry the walk ends in, valid or not. */
  function Translate(e: Entries, root: nat, at: Path): Option<Pte>
    requires Sized(e)
  {
    var leaf := Walk(e, root, at.i, at.j);
    if leaf.None? || leaf.value !in e then None else Some(e[leaf.value][at.k])
  }

  function Unmap(e: Entries, next: nat, root: nat, at: Path): (r: Outcome)
    requires Sized(e)
    ensures r.Done? ==> Sized(r.e)
  {
    var leaf := Walk(e, root, at.i, at.j);
    if leaf.None? || leaf.value !in e || !e[leaf.value][at.k].flags.v then Panic
    else Done(SetEntry(e, leaf.value, at.k, EMPTY), next)
  }

  // ---- one table stands for one finite map

  function LeafAt(e: Entries, t: Tree, at: Path): Pte
    requires Sized(e)
  {
    Leaf(e, t, at.i, at.j, at.k)
  }

  type Mapping = map<Path, Pte>

  /** The valid leaves under the root entries below `lim` are exactly `m`. */
  ghost predicate Represents(e: Entries, t: Tree, lim: nat, m: Mapping)
    requires lim <= 512
  {
    && Shape(e, t, lim)
    && (forall at | at in m :: at.i < lim && m[at].flags.v && LeafAt(e, t, at) == m[at])
    && (forall at: Path | at.i < lim && at !in m :: !LeafAt(e, t, at).flags.v)
  }

  ghost predicate Extends(t: Tree, t': Tree)
  {
    t'.root == t.root && forall i | i in t.mid :: i in t'.mid && t'.mid[i] == t.mid[i]
  }

  lemma TranslateRefines(e: Entries, t: Tree, lim: nat, m: Mapping, at: Path)
    requires lim <= 512 && Represents(e, t, lim, m) && at.i < lim
    ensures at in m ==> Translate(e, t.root, at) == Some(m[at])
    ensures at !in m ==> Translate(e, t.root, at).None? || !Translate(e, t.root, at).value.flags.v
  {
    WalkFollowsTree(e, t, lim, at.i, at.j);
  }

  lemma LeafUpdate(e: Entries, t: Tree, e': Entries, t': Tree, lim: nat, m: Mapping, at: Path, pte: Pte)
    requires lim <= 512 && Represents(e, t, lim, m) && Shape(e', t', lim) && at.i < lim
    requires forall q: Path :: LeafAt(e', t', q) == if q == at then pte else LeafAt(e, t, q)
    ensures Represents(e', t', lim, if pte.flags.v then m[at := pte] else m - {at})
  {
  }

  ghost predicate OutOfFrames(t: Tree, next: nat, end: nat, at: Path)
  {
    Missing(t, at.i, at.j) > 0 && next + Missing(t, at.i, at.j) > end
  }

  /** `map` panics exactly when the page is mapped already (unless covering is allowed) or the
      frames run out; otherwise it adds the one binding and grows the tree in place. */
  lemma MapRefines(e: Entries, t: Tree, lim: nat, next: nat, end: nat, at: Path, pte: Pte, cover: bool, m: Mapping)
    requires lim <= 512 && Represents(e, t, lim, m) && Below(t, next) && at.i < lim && pte.flags.v
    ensures var r := Map(e, next, end, t.root, at, pte, cover);
            var t' := Grow(t, at.i, at.j, next);
            && (r.Panic? <==> (!cover && at in m) || OutOfFrames(t, next, end, at))
            && (r.Done? ==> && Represents(r.e, t', lim, m[at := pte]) && next <= r.next && Below(t', r.next)
                            && SameElsewhere(e, r.e, t, next) && Extends(t, t'))
  {
    hide Represents, Shape, SameLeaves, SameElsewhere, Below, Missing, Create;
    ShapeOf(e, t, lim, m);
    CreateCorrect(e, t, lim, next, end, at.i, at.j);
    var c := Create(e, next, end, t.root, at.i, at.j);
    var t' := Grow(t, at.i, at.j, next);
    GrowExtends(t, at.i, at.j, next);
    if c.Some? {
      MapIntoLeaf(e, t, c.value.e, t', lim, m, at, pte);
      LeafElsewhere(e, c.value.e, t, next, at, pte);
    }
  }

  lemma ShapeOf(e: Entries, t: Tree, lim: nat, m: Mapping)
    requires lim <= 512 && Represents(e, t, lim, m)
    ensures Shape(e, t, lim) && Sized(e) && t.root in e
  {
  }

  lemma GrowExtends(t: Tree, i: nat, j: nat, next: nat)
    ensures Extends(t, Grow(t, i, j, next))
  {
  }

  lemma MapIntoLeaf(e: Entries, t: Tree, e1: Entries, t': Tree, lim: nat, m: Mapping, at: Path, pte: Pte)
    requires lim <= 512 && Represents(e, t, lim, m) && Shape(e1, t', lim) && SameLeaves(e, t, e1, t')
    requires (at.i, at.j) in t'.low && at.i < lim && pte.flags.v
    ensures t'.low[(at.i, at.j)] in e1 && (e1[t'.low[(at.i, at.j)]][at.k].flags.v <==> at in m)
    ensures Represents(SetEntry(e1, t'.low[(at.i, at.j)], at.k, pte), t', lim, m[at := pte])
  {
    assert LeafAt(e1, t', at) == LeafAt(e, t, at);
    SetLeafCorrect(e1, t', lim, at.i, at.j, at.k, pte);
    var e2 := SetEntry(e1, t'.low[(at.i, at.j)], at.k, pte);
    assert forall q: Path :: LeafAt(e2, t', q) == if q == at then pte else LeafAt(e, t, q);
    LeafUpdate(e, t, e2, t', lim, m, at, pte);
  }

  lemma LeafElsewhere(e: Entries, e1: Entries, t: Tree, next: nat, at: Path, pte: Pte)
    requires Sized(e1) && SameElsewhere(e, e1, t, next)
    requires var t' := Grow(t, at.i, at.j, next); (at.i, at.j) in t'.low && t'.low[(at.i, at.j)] in e1
    ensures var t' := Grow(t, at.i, at.j, next); SameElsewhere(e, SetEntry(e1, t'.low[(at.i, at.j)], at.k, pte), t, next)
  {
    OwnedMembers(t);
    var t' := Grow(t, at.i, at.j, next);
    assert t'.low[(at.i, at.j)] in Owned(t) || t'.low[(at.i, at.j)] >= next;
  }

  /** `unmap` panics exactly when the page is not mapped; otherwise it removes the one binding. */
  lemma UnmapRefines(e: Entries, t: Tree, lim: nat, next: nat, at: Path, m: Mapping)
    requires lim <= 512 && Represents(e, t, lim, m) && Below(t, next) && at.i < lim
    ensures var r := Unmap(e, next, t.root, at);
            && (r.Panic? <==> at !in m)
            && (r.Done? ==> Represents(r.e, t, lim, m - {at}) && r.next == next && SameElsewhere(e, r.e, t, next))
  {
    hide Represents, Shape, Walk;
    ShapeOf(e, t, lim, m);
    WalkFollowsTree(e, t, lim, at.i, at.j);
    OwnedMembers(t);
    LeafIs(e, t, lim, m, at);
    if (at.i, at.j) in t.low {
      SetLeafCorrect(e, t, lim, at.i, at.j, at.k, EMPTY);
      var e' := SetEntry(e, t.low[(at.i, at.j)], at.k, EMPTY);
      assert forall q: Path :: LeafAt(e', t, q) == if q == at then EMPTY else LeafAt(e, t, q);
      LeafUpdate(e, t, e', t, lim, m, at, EMPTY);
    }
  }

  /** The leaf entry is valid exactly if the page is in the map. */
  lemma LeafIs(e: Entries, t: Tree, lim: nat, m: Mapping, at: Path)
    requires lim <= 512 && Represents(e, t, lim, m) && at.i < lim
    ensures (at.i, at.j) in t.low ==> t.low[(at.i, at.j)] in e && (e[t.low[(at.i, at.j)]][at.k].flags.v <==> at in m)
    ensures (at.i, at.j) !in t.low ==> at !in m
  {
    var leaf := LeafAt(e, t, at);
    assert leaf.flags.v <==> at in m;
  }

  lemma RepresentsFrame(e: Entries, e': Entries, t: Tree, lim: nat, m: Mapping)
    requires lim <= 512 && Represents(e, t, lim, m) && Sized(e')
    requires forall p | p in Owned(t) && p in e :: p in e' && e'[p] == e[p]
    ensures Represents(e', t, lim, m)
  {
    ShapeFrame(e, e', t, lim);
    assert forall at: Path :: LeafAt(e', t, at) == LeafAt(e, t, at);
  }
}
