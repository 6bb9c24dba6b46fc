/** The id allocator behind pids and kernel stacks (os/src/task/res.rs). */
module Recycle {
  import opened Sv39

  datatype Ids = Ids(current: nat, recycled: seq<nat>)

  /** `id` is handed out and not given back. */
  predicate Live(a: Ids, id: nat) { id < a.current && id !in a.recycled }

  ghost predicate IdsOk(a: Ids)
  {
    && (forall i | 0 <= i < |a.recycled| :: a.recycled[i] < a.current)
    && (forall i, j | 0 <= i < j < |a.recycled| :: a.recycled[i] != a.recycled[j])
  }

  function Alloc(a: Ids): (Ids, nat)
  {
    if a.recycled == [] then (Ids(a.current + 1, []), a.current)
    else (Ids(a.current, a.recycled[..|a.recycled| - 1]), a.recycled[|a.recycled| - 1])
  }

  /** `None` when one of the two assertions fires. */
  function Dealloc(a: Ids, id: nat): Option<Ids>
  {
    if id < a.current && id !in a.recycled then Some(Ids(a.current, a.recycled + [id])) else None
  }

  /** The id handed out is exactly the one that becomes live. */
  lemma AllocLive(a: Ids)
    requires IdsOk(a)
    ensures IdsOk(Alloc(a).0) && !Live(a, Alloc(a).1)
    ensures forall id :: Live(Alloc(a).0, id) <==> Live(a, id) || id == Alloc(a).1
  {
    if a.recycled != [] {
      var n := |a.recycled| - 1;
      assert a.recycled == a.recycled[..n] + [a.recycled[n]];
    }
  }

  /** Giving back panics exactly when the id is not live. */
  lemma DeallocLive(a: Ids, id: nat)
    requires IdsOk(a)
    ensures Dealloc(a, id).Some? <==> Live(a, id)
    ensures Live(a, id) ==>
      IdsOk(Dealloc(a, id).value) && forall x :: Live(Dealloc(a, id).value, x) <==> Live(a, x) && x != id
  {
  }

  /** The id given back last is handed out first, and that undoes the giving back. */
  lemma ReuseLast(a: Ids, id: nat)
    requires Live(a, id)
    ensures Alloc(Dealloc(a, id).value) == (a, id)
  {
  }

  /** A new id is made only when none has been given back; it is the next number. */
  lemma NewOnlyIfNone(a: Ids)
    requires IdsOk(a)
    ensures Alloc(a).1 <= a.current
    ensures Alloc(a).1 == a.current <==> forall id | 0 <= id < a.current :: Live(a, id)
  {
    if a.recycled != [] {
      var id := a.recycled[|a.recycled| - 1];
      assert !Live(a, id);
    }
  }

  class RecycleAllocator {
    var current: nat
    var recycled: seq<nat>

    constructor ()
      ensures View() == Ids(0, [])
    {
      current, recycled := 0, [];
    }

    function View(): Ids
      reads this
    {
      Ids(current, recycled)
    }

    method AllocId() returns (id: nat)
      modifies this
      ensures (View(), id) == Alloc(old(View()))
    {
      if |recycled| > 0 {
        id := recycled[|recycled| - 1];
        recycled := recycled[..|recycled| - 1];
      } else {
        current := current + 1;
        id := current - 1;
      }
    }

    /** False when an assertion fires. */
    method DeallocId(id: nat) returns (ok: bool)
      modifies this
      ensures ok == Dealloc(old(View()), id).Some?
      ensures View() == if ok then Dealloc(old(View()), id).value else old(View())
    {
      if id >= current { return false; }
      var i := 0;
      while i < |recycled|
        invariant 0 <= i <= |recycled| && View() == old(View())
        invariant id !in recycled[..i]
      {
        if recycled[i] == id { return false; }
        i := i + 1;
      }
      recycled := recycled + [id];
      ok := true;
    }
  }
}
