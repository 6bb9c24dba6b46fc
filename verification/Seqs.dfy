/** Facts about sequences that several modules share. */
module Seqs {
  ghost predicate NoDup<T>(q: seq<T>) { forall i, j | 0 <= i < j < |q| :: q[i] != q[j] }

  /** An element of a duplicate-free sequence is there once. */
  lemma Once<T>(q: seq<T>, t: T)
    requires NoDup(q) && t in q
    ensures multiset(q)[t] == 1
  {
    var i :| 0 <= i < |q| && q[i] == t;
    assert q == q[..i] + [t] + q[i + 1..];
    assert t !in q[..i] && t !in q[i + 1..];
  }

  /** Two steps of a queue put together: what was there and what was added is what left and what is
      there now. */
  lemma Splice<T>(q: seq<T>, added: seq<T>, gone: seq<T>, q': seq<T>, added': seq<T>, gone': seq<T>, q'': seq<T>)
    requires q + added == gone + q' && q' + added' == gone' + q''
    ensures q + (added + added') == (gone + gone') + q''
  {
    assert q + (added + added') == (q + added) + added' == gone + (q' + added') == (gone + gone') + q'';
  }
}
