/** Pipes (os/src/fs/pipe.rs): a ring buffer, and readers and writers that take turns at their
    suspension points. */
module Pipes {
  import opened Bytes
  import opened Seqs
  import opened Sv39

  const RING_BUFFER_SIZE: nat := 3200

  datatype RingStatus = Full | Empty | Normal

  // ---- the ring buffer

  /** `n` bytes from `head` on, around the end. */
  function Window(s: seq<Byte>, head: nat, n: nat): (w: seq<Byte>)
    requires |s| == RING_BUFFER_SIZE && head < RING_BUFFER_SIZE && n <= RING_BUFFER_SIZE
    ensures |w| == n
  {
    seq<Byte>(n, i requires 0 <= i < n => if head + i < RING_BUFFER_SIZE then s[head + i] else s[head + i - RING_BUFFER_SIZE])
  }

  class PipeRingBuffer {
    const arr: array<Byte>
    var head: nat
    var tail: nat
    var status: RingStatus

    constructor ()
      ensures Valid() && fresh(arr) && Contents() == []
    {
      arr := new Byte[RING_BUFFER_SIZE](_ => 0);
      head, tail, status := 0, 0, Empty;
    }

    ghost predicate Valid()
      reads this
    {
      arr.Length == RING_BUFFER_SIZE && head < RING_BUFFER_SIZE && tail < RING_BUFFER_SIZE && (status == Normal <==> head != tail)
    }

    function Count(): (n: nat)
      requires Valid()
      reads this
      ensures n <= RING_BUFFER_SIZE && (n == 0 <==> status == Empty) && (n == RING_BUFFER_SIZE <==> status == Full)
    {
      if status == Empty then 0 else if tail > head then tail - head else tail + RING_BUFFER_SIZE - head
    }

    /** The buffered bytes, oldest first. */
    ghost function Contents(): (s: seq<Byte>)
      requires Valid()
      reads this, arr
      ensures |s| == Count()
    {
      Window(arr[..], head, Count())
    }

    method WriteByte(b: Byte)
      requires Valid() && status != Full
      modifies this, arr
      ensures Valid() && Contents() == old(Contents()) + [b]
    {
      status := Normal;
      arr[tail] := b;
      tail := (tail + 1) % RING_BUFFER_SIZE;
      if tail == head {
        status := Full;
      }
    }

    method ReadByte() returns (c: Byte)
      requires Valid() && status != Empty
      modifies this
      ensures Valid() && [c] + Contents() == old(Contents())
    {
      ghost var was := Contents();
      status := Normal;
      c := arr[head];
      head := (head + 1) % RING_BUFFER_SIZE;
      if head == tail {
        status := Empty;
      }
    }

    method AvailableRead() returns (n: nat)
      requires Valid()
      ensures n == |Contents()|
    {
      if status == Empty { return 0; }
      if tail > head { return tail - head; }
      return tail + RING_BUFFER_SIZE - head;
    }

    method AvailableWrite() returns (n: nat)
      requires Valid()
      ensures n + |Contents()| == RING_BUFFER_SIZE
    {
      if status == Full { return 0; }
      var r := AvailableRead();
      return RING_BUFFER_SIZE - r;
    }
  }

  // ---- one turn of a call, from one suspension to the next

  function Min(a: nat, b: nat): nat { if a < b then a else b }

  /** What a reader that has `got` out of `want` bytes takes this turn; then the new buffer, its
      bytes so far, and whether the call returns. */
  function ReadTurn(buffered: seq<Byte>, closed: bool, want: nat, got: seq<Byte>): (seq<Byte>, seq<Byte>, bool)
    requires |got| <= want
  {
    var n := Min(|buffered|, want - |got|);
    (buffered[n..], got + buffered[..n], if buffered == [] then closed else |got| + n == want || closed)
  }

  function WriteTurn(buffered: seq<Byte>, data: seq<Byte>, done: nat): (seq<Byte>, nat, bool)
    requires done <= |data| && |buffered| <= RING_BUFFER_SIZE
  {
    var n := Min(RING_BUFFER_SIZE - |buffered|, |data| - done);
    (buffered + data[done..done + n], done + n, |buffered| < RING_BUFFER_SIZE && done + n == |data|)
  }

  /** `n` bytes have moved from the buffer `c0` to the reader. */
  ghost predicate Taken(c0: seq<Byte>, got: seq<Byte>, n: nat, c: seq<Byte>, got': seq<Byte>)
  {
    n <= |c0| && c == c0[n..] && got' == got + c0[..n]
  }

  lemma TakenOne(c0: seq<Byte>, got: seq<Byte>, n: nat, b: Byte, c: seq<Byte>, got': seq<Byte>)
    requires Taken(c0, got, n, [b] + c, got')
    ensures Taken(c0, got, n + 1, c, got' + [b])
  {
    assert |c0[n..]| == 1 + |c|;
    assert c0[n..][0] == b;
    assert c == c0[n..][1..];
    assert c0[..n + 1] == c0[..n] + [b];
  }

  lemma TakenSize(c0: seq<Byte>, got: seq<Byte>, n: nat, c: seq<Byte>, got': seq<Byte>)
    requires Taken(c0, got, n, c, got')
    ensures |c| == |c0| - n && |got'| == |got| + n
  {
  }

  lemma TakenAll(c0: seq<Byte>, closed: bool, want: nat, got: seq<Byte>, n: nat, c: seq<Byte>, got': seq<Byte>, finished: bool)
    requires Taken(c0, got, n, c, got') && |got'| <= want && (c == [] || |got'| == want)
    requires finished == if c0 == [] then closed else |got'| == want || closed
    ensures (c, got', finished) == ReadTurn(c0, closed, want, got)
  {
    assert n == Min(|c0|, want - |got|);
  }

  /** The loop of `read` up to the next suspension; `closed` is what `all_write_ends_closed` says. */
  method ReadLoop(ring: PipeRingBuffer, closed: bool, want: nat, got: seq<Byte>) returns (got': seq<Byte>, finished: bool)
    requires ring.Valid() && |got| <= want && (|got| == want ==> want == 0)
    modifies ring
    ensures ring.Valid() && (ring.Contents(), got', finished) == ReadTurn(old(ring.Contents()), closed, want, got)
  {
    hide Taken, Window, ReadTurn;
    got' := got;
    ghost var c0 := ring.Contents();
    ghost var n: nat := 0;
    assert Taken(c0, got, 0, c0, got) by { TakenNone(c0, got); }
    while true
      invariant ring.Valid() && Taken(c0, got, n, ring.Contents(), got') && |got'| <= want
      invariant |got'| == want ==> n == 0 && want == 0
      decreases |ring.Contents()|
    {
      TakenSize(c0, got, n, ring.Contents(), got');
      var available := ring.AvailableRead();
      if available == 0 {
        finished := closed;
        TakenAll(c0, closed, want, got, n, ring.Contents(), got', finished);
        return;
      }
      ghost var m := n;
      var k := 0;
      while k < available
        invariant 0 <= k <= available && n == m + k && m + available == |c0|
        invariant ring.Valid() && Taken(c0, got, n, ring.Contents(), got') && |got'| <= want
        invariant |got'| == want ==> n == 0 && want == 0
      {
        TakenSize(c0, got, n, ring.Contents(), got');
        if |got'| < want {
          var b := ring.ReadByte();
          TakenOne(c0, got, n, b, ring.Contents(), got');
          got' := got' + [b];
          n := n + 1;
          TakenSize(c0, got, n, ring.Contents(), got');
          if |got'| == want {
            finished := true;
            TakenAll(c0, closed, want, got, n, ring.Contents(), got', finished);
            return;
          }
        } else {
          finished := true;
          TakenAll(c0, closed, want, got, n, ring.Contents(), got', finished);
          return;
        }
        k := k + 1;
      }
      TakenSize(c0, got, n, ring.Contents(), got');
    }
  }

  lemma TakenNone(c0: seq<Byte>, got: seq<Byte>)
    ensures Taken(c0, got, 0, c0, got)
  {
    assert got + c0[..0] == got;
  }

  /** `data[done..done']` has been appended to the buffer `c0`. */
  ghost predicate Put(c0: seq<Byte>, data: seq<Byte>, done: nat, done': nat, c: seq<Byte>)
  {
    done <= done' <= |data| && c == c0 + data[done..done']
  }

  lemma PutOne(c0: seq<Byte>, data: seq<Byte>, done: nat, done': nat, c: seq<Byte>)
    requires Put(c0, data, done, done', c) && done' < |data|
    ensures Put(c0, data, done, done' + 1, c + [data[done']])
  {
    assert data[done..done' + 1] == data[done..done'] + [data[done']];
  }

  lemma PutSize(c0: seq<Byte>, data: seq<Byte>, done: nat, done': nat, c: seq<Byte>)
    requires Put(c0, data, done, done', c)
    ensures done <= done' <= |data| && |c| == |c0| + done' - done
  {
  }

  lemma PutAll(c0: seq<Byte>, data: seq<Byte>, done: nat, done': nat, c: seq<Byte>, finished: bool)
    requires Put(c0, data, done, done', c) && |c| <= RING_BUFFER_SIZE && |c0| <= RING_BUFFER_SIZE
    requires |c| == RING_BUFFER_SIZE || done' == |data|
    requires finished == (|c0| < RING_BUFFER_SIZE && done' == |data|)
    ensures done <= |data| && (c, done', finished) == WriteTurn(c0, data, done)
  {
    assert done' - done == Min(RING_BUFFER_SIZE - |c0|, |data| - done);
  }

  /** The loop of `write` up to the next suspension. */
  method WriteLoop(ring: PipeRingBuffer, data: seq<Byte>, done: nat) returns (done': nat, finished: bool)
    requires ring.Valid() && done <= |data| && (done == |data| ==> data == [])
    modifies ring, ring.arr
    ensures ring.Valid() && |old(ring.Contents())| <= RING_BUFFER_SIZE
    ensures (ring.Contents(), done', finished) == WriteTurn(old(ring.Contents()), data, done)
  {
    hide Put, Window, WriteTurn;
    done' := done;
    ghost var c0 := ring.Contents();
    assert Put(c0, data, done, done, c0) by { PutNone(c0, data, done); }
    while true
      invariant ring.Valid() && Put(c0, data, done, done', ring.Contents())
      invariant done' == |data| ==> data == []
      decreases RING_BUFFER_SIZE - |ring.Contents()|
    {
      PutSize(c0, data, done, done', ring.Contents());
      var available := ring.AvailableWrite();
      if available == 0 {
        finished := false;
        PutAll(c0, data, done, done', ring.Contents(), finished);
        return;
      }
      ghost var d1 := done';
      var k := 0;
      while k < available
        invariant 0 <= k <= available && done' == d1 + k && |c0| + (d1 - done) + available == RING_BUFFER_SIZE
        invariant ring.Valid() && Put(c0, data, done, done', ring.Contents())
        invariant done' == |data| ==> data == []
      {
        PutSize(c0, data, done, done', ring.Contents());
        if done' < |data| {
          PutOne(c0, data, done, done', ring.Contents());
          ring.WriteByte(data[done']);
          done' := done' + 1;
          if done' == |data| {
            finished := true;
            PutAll(c0, data, done, done', ring.Contents(), finished);
            return;
          }
        } else {
          finished := true;
          PutAll(c0, data, done, done', ring.Contents(), finished);
          return;
        }
        k := k + 1;
      }
      PutSize(c0, data, done, done', ring.Contents());
    }
  }

  lemma PutNone(c0: seq<Byte>, data: seq<Byte>, done: nat)
    requires done <= |data|
    ensures Put(c0, data, done, done, c0)
  {
    assert c0 + data[done..done] == c0;
  }

  // ---- all interleavings

  datatype ReadCall = ReadCall(want: nat, got: seq<Byte>)
  /** A write may come through either end: `writable` says yes for both. */
  datatype WriteCall = WriteCall(data: seq<Byte>, done: nat, viaWriteEnd: bool)

  /** `ends` counts the descriptors of the write end; a write in progress through it holds it too. */
  datatype Sys = Sys(buffered: seq<Byte>, ends: nat, readers: map<nat, ReadCall>, writers: map<nat, WriteCall>)

  datatype Op =
    | OpRead(task: nat, want: nat)
    | OpReadTurn(task: nat)
    | OpWrite(task: nat, data: seq<Byte>, viaWriteEnd: bool)
    | OpWriteTurn(task: nat)
    | OpClone
    | OpClose

  /** `all_write_ends_closed`: nothing holds the write end any more. */
  ghost predicate Closed(y: Sys)
  {
    y.ends == 0 && forall t | t in y.writers :: !y.writers[t].viaWriteEnd
  }

  ghost predicate Enabled(y: Sys, op: Op)
  {
    match op
    case OpRead(t, _) => t !in y.readers && t !in y.writers
    case OpReadTurn(t) => t in y.readers && |y.readers[t].got| <= y.readers[t].want
    case OpWrite(t, _, via) => t !in y.readers && t !in y.writers && (via ==> y.ends > 0)
    case OpWriteTurn(t) => t in y.writers && y.writers[t].done <= |y.writers[t].data| && |y.buffered| <= RING_BUFFER_SIZE
    case _ => y.ends > 0
  }

  ghost function Step(y: Sys, op: Op): Sys
    requires Enabled(y, op)
  {
    match op
    case OpRead(t, want) => Sys(y.buffered, y.ends, y.readers[t := ReadCall(want, [])], y.writers)
    case OpReadTurn(t) =>
      var c := y.readers[t];
      var r := ReadTurn(y.buffered, Closed(y), c.want, c.got);
      Sys(r.0, y.ends, if r.2 then y.readers - {t} else y.readers[t := ReadCall(c.want, r.1)], y.writers)
    case OpWrite(t, data, via) => Sys(y.buffered, y.ends, y.readers, y.writers[t := WriteCall(data, 0, via)])
    case OpWriteTurn(t) =>
      var c := y.writers[t];
      var r := WriteTurn(y.buffered, c.data, c.done);
      Sys(r.0, y.ends, y.readers, if r.2 then y.writers - {t} else y.writers[t := WriteCall(c.data, r.1, c.viaWriteEnd)])
    case OpClone => Sys(y.buffered, y.ends + 1, y.readers, y.writers)
    case OpClose => Sys(y.buffered, y.ends - 1, y.readers, y.writers)
  }

  ghost predicate Legal(y: Sys, ops: seq<Op>)
    decreases |ops|
  {
    ops == [] || (Enabled(y, ops[0]) && Legal(Step(y, ops[0]), ops[1..]))
  }

  ghost function Run(y: Sys, ops: seq<Op>): Sys
    requires Legal(y, ops)
    decreases |ops|
  {
    if ops == [] then y else Run(Step(y, ops[0]), ops[1..])
  }

  /** `make_pipe`. */
  function NewPipe(): Sys { Sys([], 1, map[], map[]) }

  /** A suspended call still lacks something, and the buffer is within its size. */
  ghost predicate Inv(y: Sys)
  {
    && |y.buffered| <= RING_BUFFER_SIZE
    && (forall t | t in y.readers :: |y.readers[t].got| < y.readers[t].want || y.readers[t] == ReadCall(0, []))
    && (forall t | t in y.writers :: y.writers[t].done < |y.writers[t].data| || (y.writers[t].data == [] && y.writers[t].done == 0))
  }

  lemma StepKeeps(y: Sys, op: Op)
    requires Inv(y) && Enabled(y, op)
    ensures Inv(Step(y, op))
  {
  }

  lemma {:induction false} RunKeeps(y: Sys, ops: seq<Op>)
    requires Inv(y) && Legal(y, ops)
    ensures Inv(Run(y, ops))
    decreases |ops|
  {
    hide Inv, Step;
    if ops != [] {
      StepKeeps(y, ops[0]);
      RunKeeps(Step(y, ops[0]), ops[1..]);
    }
  }

  // ---- conservation

  /** The bytes a step takes from a writer. */
  ghost function AcceptedBy(y: Sys, op: Op): seq<Byte>
    requires Enabled(y, op)
  {
    if op.OpWriteTurn? then
      var c := y.writers[op.task];
      c.data[c.done..WriteTurn(y.buffered, c.data, c.done).1]
    else []
  }

  /** The bytes a step hands to a reader. */
  ghost function DeliveredBy(y: Sys, op: Op): seq<Byte>
    requires Enabled(y, op)
  {
    if op.OpReadTurn? then
      var c := y.readers[op.task];
      ReadTurn(y.buffered, Closed(y), c.want, c.got).1[|c.got|..]
    else []
  }

  ghost function Accepted(y: Sys, ops: seq<Op>): seq<Byte>
    requires Legal(y, ops)
    decreases |ops|
  {
    if ops == [] then [] else AcceptedBy(y, ops[0]) + Accepted(Step(y, ops[0]), ops[1..])
  }

  ghost function Delivered(y: Sys, ops: seq<Op>): seq<Byte>
    requires Legal(y, ops)
    decreases |ops|
  {
    if ops == [] then [] else DeliveredBy(y, ops[0]) + Delivered(Step(y, ops[0]), ops[1..])
  }

  lemma StepConserves(y: Sys, op: Op)
    requires Enabled(y, op)
    ensures y.buffered + AcceptedBy(y, op) == DeliveredBy(y, op) + Step(y, op).buffered
  {
  }

  lemma {:induction false} RunConserves(y: Sys, ops: seq<Op>)
    requires Legal(y, ops)
    ensures y.buffered + Accepted(y, ops) == Delivered(y, ops) + Run(y, ops).buffered
    decreases |ops|
  {
    hide Step, AcceptedBy, DeliveredBy;
    if ops != [] {
      var y' := Step(y, ops[0]);
      StepConserves(y, ops[0]);
      RunConserves(y', ops[1..]);
      Splice(y.buffered, AcceptedBy(y, ops[0]), DeliveredBy(y, ops[0]), y'.buffered, Accepted(y', ops[1..]), Delivered(y', ops[1..]), Run(y, ops).buffered);
    }
  }

  /** Under every interleaving the bytes accepted are the bytes delivered followed by the bytes in
      the buffer, which is never over-full. */
  lemma NothingLost(ops: seq<Op>)
    requires Legal(NewPipe(), ops)
    ensures Accepted(NewPipe(), ops) == Delivered(NewPipe(), ops) + Run(NewPipe(), ops).buffered
    ensures Delivered(NewPipe(), ops) <= Accepted(NewPipe(), ops)
    ensures |Run(NewPipe(), ops).buffered| <= RING_BUFFER_SIZE
  {
    RunKeeps(NewPipe(), ops);
    RunConserves(NewPipe(), ops);
    assert [] + Accepted(NewPipe(), ops) == Accepted(NewPipe(), ops);
  }

  // ---- what can happen, and the write ends

  /** Every call in progress can take its turn; a task without one can start a read, a write through
      its read end, and as long as there is a write end a write through that. */
  lemma Always(y: Sys, t: nat, n: nat, data: seq<Byte>)
    requires Inv(y)
    ensures t in y.readers ==> Enabled(y, OpReadTurn(t))
    ensures t in y.writers ==> Enabled(y, OpWriteTurn(t))
    ensures t !in y.readers && t !in y.writers <==> Enabled(y, OpRead(t, n))
    ensures t !in y.readers && t !in y.writers <==> Enabled(y, OpWrite(t, data, false))
    ensures t !in y.readers && t !in y.writers && y.ends > 0 <==> Enabled(y, OpWrite(t, data, true))
  {
  }

  function Times(ops: seq<Op>, op: Op): nat
  {
    if ops == [] then 0 else (if ops[0] == op then 1 else 0) + Times(ops[1..], op)
  }

  /** The write ends are the ones there were, plus the clones, less the closes. */
  lemma {:induction false} EndsCount(y: Sys, ops: seq<Op>)
    requires Legal(y, ops)
    ensures Run(y, ops).ends == y.ends + Times(ops, OpClone) - Times(ops, OpClose)
    decreases |ops|
  {
    if ops != [] {
      EndsCount(Step(y, ops[0]), ops[1..]);
    }
  }

  // ---- each call

  /** After a turn that does not finish the call, a reader has emptied the buffer and a writer has
      filled it; a read that finishes has what it asked for, or all there was of a closed pipe. */
  lemma TurnEnds(y: Sys, op: Op)
    requires Inv(y) && Enabled(y, op)
    ensures op.OpReadTurn? && op.task in Step(y, op).readers ==> Step(y, op).buffered == []
    ensures op.OpReadTurn? && op.task !in Step(y, op).readers ==>
      (|y.readers[op.task].got| + |DeliveredBy(y, op)| == y.readers[op.task].want || (Step(y, op).buffered == [] && Closed(y)))
    ensures op.OpWriteTurn? && op.task in Step(y, op).writers ==> |Step(y, op).buffered| == 3200
    ensures op.OpWriteTurn? && op.task !in Step(y, op).writers ==> y.writers[op.task].done + |AcceptedBy(y, op)| == |y.writers[op.task].data|
  {
  }

  ghost predicate StartsRead(ops: seq<Op>, t: nat) { exists i | 0 <= i < |ops| :: ops[i].OpRead? && ops[i].task == t }

  ghost predicate StartsWrite(ops: seq<Op>, t: nat) { exists i | 0 <= i < |ops| :: ops[i].OpWrite? && ops[i].task == t }

  /** The bytes handed to the reads of task `t`. */
  ghost function DeliveredTo(y: Sys, ops: seq<Op>, t: nat): seq<Byte>
    requires Legal(y, ops)
    decreases |ops|
  {
    if ops == [] then []
    else (if ops[0] == OpReadTurn(t) then DeliveredBy(y, ops[0]) else []) + DeliveredTo(Step(y, ops[0]), ops[1..], t)
  }

  /** The bytes taken from the writes of task `t`. */
  ghost function AcceptedFrom(y: Sys, ops: seq<Op>, t: nat): seq<Byte>
    requires Legal(y, ops)
    decreases |ops|
  {
    if ops == [] then []
    else (if ops[0] == OpWriteTurn(t) then AcceptedBy(y, ops[0]) else []) + AcceptedFrom(Step(y, ops[0]), ops[1..], t)
  }

  lemma ReaderStep(y: Sys, op: Op, t: nat)
    requires Enabled(y, op) && t in Step(y, op).readers && !(op.OpRead? && op.task == t)
    ensures t in y.readers
    ensures Step(y, op).readers[t] == ReadCall(y.readers[t].want, y.readers[t].got + (if op == OpReadTurn(t) then DeliveredBy(y, op) else []))
  {
    if op == OpReadTurn(t) {
      assert y.readers[t].got + DeliveredBy(y, op) == ReadTurn(y.buffered, Closed(y), y.readers[t].want, y.readers[t].got).1;
    } else {
      assert y.readers[t].got + [] == y.readers[t].got;
    }
  }

  lemma {:induction false} ReaderRun(y: Sys, ops: seq<Op>, t: nat)
    requires Legal(y, ops) && !StartsRead(ops, t) && t in Run(y, ops).readers
    ensures t in y.readers && Run(y, ops).readers[t] == ReadCall(y.readers[t].want, y.readers[t].got + DeliveredTo(y, ops, t))
    decreases |ops|
  {
    hide Step, DeliveredBy;
    if ops == [] {
      assert y.readers[t].got + [] == y.readers[t].got;
    } else {
      assert forall i | 0 <= i < |ops[1..]| :: ops[1..][i] == ops[i + 1];
      ReaderRun(Step(y, ops[0]), ops[1..], t);
      ReaderStep(y, ops[0], t);
    }
  }

  /** What the read of task `t` returns when this turn finishes it. */
  ghost function Returned(y: Sys, t: nat): seq<Byte>
    requires Enabled(y, OpReadTurn(t))
  {
    ReadTurn(y.buffered, Closed(y), y.readers[t].want, y.readers[t].got).1
  }

  /** A read that lasts over `ops`: what it has, and what it returns if the next turn ends it, are
      the bytes delivered to it since it began, in order. */
  lemma ReadIsItsDeliveries(y: Sys, t: nat, want: nat, ops: seq<Op>)
    requires Enabled(y, OpRead(t, want)) && Legal(Step(y, OpRead(t, want)), ops) && !StartsRead(ops, t)
    requires t in Run(Step(y, OpRead(t, want)), ops).readers
    ensures var y1 := Step(y, OpRead(t, want));
            var y2 := Run(y1, ops);
            && y2.readers[t].want == want && y2.readers[t].got == DeliveredTo(y1, ops, t)
            && (Enabled(y2, OpReadTurn(t)) ==> Returned(y2, t) == DeliveredTo(y1, ops, t) + DeliveredBy(y2, OpReadTurn(t)))
  {
    hide Run, Legal, StartsRead;
    var y1 := Step(y, OpRead(t, want));
    ReaderRun(y1, ops, t);
    assert y1.readers[t].got == [] && [] + DeliveredTo(y1, ops, t) == DeliveredTo(y1, ops, t);
    var y2 := Run(y1, ops);
    if Enabled(y2, OpReadTurn(t)) {
      assert Returned(y2, t) == y2.readers[t].got + Returned(y2, t)[|y2.readers[t].got|..];
    }
  }

  lemma WriterStep(y: Sys, op: Op, t: nat)
    requires Inv(y) && Enabled(y, op) && t in Step(y, op).writers && !(op.OpWrite? && op.task == t)
    ensures t in y.writers && var c, c' := y.writers[t], Step(y, op).writers[t];
            && c'.data == c.data && c'.viaWriteEnd == c.viaWriteEnd && c.done <= c'.done <= |c.data|
            && c.data[c.done..c'.done] == if op == OpWriteTurn(t) then AcceptedBy(y, op) else []
  {
  }

  lemma {:induction false} WriterRun(y: Sys, ops: seq<Op>, t: nat)
    requires Inv(y) && Legal(y, ops) && !StartsWrite(ops, t) && t in Run(y, ops).writers
    ensures t in y.writers && var c, c' := y.writers[t], Run(y, ops).writers[t];
            && c'.data == c.data && c'.viaWriteEnd == c.viaWriteEnd && c.done <= c'.done <= |c.data|
            && c.data[c.done..c'.done] == AcceptedFrom(y, ops, t)
    decreases |ops|
  {
    hide Step, AcceptedBy, Inv;
    if ops == [] {
      WritersOk(y, t);
    } else {
      var y' := Step(y, ops[0]);
      assert forall i | 0 <= i < |ops[1..]| :: ops[1..][i] == ops[i + 1];
      StepKeeps(y, ops[0]);
      WriterRun(y', ops[1..], t);
      WriterStep(y, ops[0], t);
      var c := y.writers[t];
      SplitSlice(c.data, c.done, y'.writers[t].done, Run(y, ops).writers[t].done);
    }
  }

  lemma WritersOk(y: Sys, t: nat)
    requires Inv(y) && t in y.writers
    ensures y.writers[t].done <= |y.writers[t].data|
  {
  }

  lemma SplitSlice(s: seq<Byte>, a: nat, b: nat, c: nat)
    requires a <= b <= c <= |s|
    ensures s[a..c] == s[a..b] + s[b..c]
  {
  }

  /** A write that lasts over `ops`: the bytes taken from it since it began are a prefix of its data;
      when the next turn ends it, they are all of its data. Nothing is taken twice. */
  lemma WriteIsItsData(y: Sys, t: nat, data: seq<Byte>, via: bool, ops: seq<Op>)
    requires Inv(y) && Enabled(y, OpWrite(t, data, via)) && Legal(Step(y, OpWrite(t, data, via)), ops) && !StartsWrite(ops, t)
    requires t in Run(Step(y, OpWrite(t, data, via)), ops).writers
    ensures var y1 := Step(y, OpWrite(t, data, via));
            var y2 := Run(y1, ops);
            && AcceptedFrom(y1, ops, t) <= data && y2.writers[t].viaWriteEnd == via
            && (Enabled(y2, OpWriteTurn(t)) ==> AcceptedFrom(y1, ops, t) + AcceptedBy(y2, OpWriteTurn(t)) <= data)
            && (Enabled(y2, OpWriteTurn(t)) && t !in Step(y2, OpWriteTurn(t)).writers ==> AcceptedFrom(y1, ops, t) + AcceptedBy(y2, OpWriteTurn(t)) == data)
  {
    hide Run, Legal, StartsWrite, Inv;
    var y1 := Step(y, OpWrite(t, data, via));
    StepKeeps(y, OpWrite(t, data, via));
    RunKeeps(y1, ops);
    WriterRun(y1, ops, t);
    var y2 := Run(y1, ops);
    var c := y2.writers[t];
    assert AcceptedFrom(y1, ops, t) == data[..c.done];
    if Enabled(y2, OpWriteTurn(t)) {
      TurnEnds(y2, OpWriteTurn(t));
      var n := WriteTurn(y2.buffered, c.data, c.done).1;
      SplitSlice(data, 0, c.done, n);
      assert data[0..c.done] == data[..c.done] && data[0..n] == data[..n];
    }
  }

  // ---- end of file

  lemma {:induction false} ClosedForever(y: Sys, ops: seq<Op>)
    requires Closed(y) && Legal(y, ops)
    ensures Closed(Run(y, ops))
    decreases |ops|
  {
    if ops != [] {
      ClosedForever(Step(y, ops[0]), ops[1..]);
    }
  }

  /** The read call of `op.task` returns with this turn. */
  ghost predicate Returns(y: Sys, op: Op)
    requires Enabled(y, op)
  {
    op.OpReadTurn? && ReadTurn(y.buffered, Closed(y), y.readers[op.task].want, y.readers[op.task].got).2
  }

  /** In every run, a read that returns fewer bytes than asked for leaves the buffer empty, and no
      write end exists then or ever after. */
  lemma ShortRead(ops: seq<Op>, t: nat, later: seq<Op>)
    requires Legal(NewPipe(), ops) && Enabled(Run(NewPipe(), ops), OpReadTurn(t))
    requires var y := Run(NewPipe(), ops); Returns(y, OpReadTurn(t)) && |y.readers[t].got| + |DeliveredBy(y, OpReadTurn(t))| < y.readers[t].want
    requires Legal(Step(Run(NewPipe(), ops), OpReadTurn(t)), later)
    ensures Step(Run(NewPipe(), ops), OpReadTurn(t)).buffered == []
    ensures Closed(Run(Step(Run(NewPipe(), ops), OpReadTurn(t)), later))
  {
    RunKeeps(NewPipe(), ops);
    ClosedForever(Step(Run(NewPipe(), ops), OpReadTurn(t)), later);
  }

  /** What each write in progress was asked to write. */
  ghost function Pending(y: Sys): map<nat, seq<Byte>> { map t | t in y.writers :: y.writers[t].data }

  /** Every write turn in `ops` belongs to a write of no bytes; `pending` are the writes in progress. */
  ghost predicate OnlyEmptyWrites(pending: map<nat, seq<Byte>>, ops: seq<Op>)
    decreases |ops|
  {
    if ops == [] then true
    else match ops[0]
      case OpWrite(t, data, _) => OnlyEmptyWrites(pending[t := data], ops[1..])
      case OpWriteTurn(t) => t in pending && pending[t] == [] && OnlyEmptyWrites(pending - {t}, ops[1..])
      case _ => OnlyEmptyWrites(pending, ops[1..])
  }

  /** On an empty buffer a write turn accepts nothing exactly if there was nothing to write, and then
      the buffer stays empty. */
  lemma EmptyStep(y: Sys, op: Op)
    requires Inv(y) && y.buffered == [] && Enabled(y, op)
    ensures AcceptedBy(y, op) == [] <==> (op.OpWriteTurn? ==> y.writers[op.task].data == [])
    ensures AcceptedBy(y, op) == [] ==> Step(y, op).buffered == []
    ensures op.OpWrite? ==> Pending(Step(y, op)) == Pending(y)[op.task := op.data]
    ensures op.OpWriteTurn? && AcceptedBy(y, op) == [] ==> Pending(Step(y, op)) == Pending(y) - {op.task}
    ensures !op.OpWrite? && !op.OpWriteTurn? ==> Pending(Step(y, op)) == Pending(y)
  {
    if op.OpWriteTurn? {
      var c := y.writers[op.task];
      assert c.data == [] ==> c.done == 0;
    }
  }

  lemma {:induction false} EmptyRun(y: Sys, ops: seq<Op>)
    requires Inv(y) && y.buffered == [] && Legal(y, ops)
    ensures Accepted(y, ops) == [] <==> OnlyEmptyWrites(Pending(y), ops)
    decreases |ops|
  {
    hide Inv, Step, AcceptedBy;
    if ops != [] {
      EmptyStep(y, ops[0]);
      StepKeeps(y, ops[0]);
      if AcceptedBy(y, ops[0]) == [] {
        EmptyRun(Step(y, ops[0]), ops[1..]);
      }
    }
  }

  /** Once the write end is gone every write is through a read end. */
  lemma {:induction false} AllStray(y: Sys, ops: seq<Op>, i: nat)
    requires Closed(y) && Legal(y, ops) && i < |ops| && ops[i].OpWrite?
    ensures !ops[i].viaWriteEnd
    decreases |ops|
  {
    hide Closed;
    if i > 0 {
      assert Legal(Step(y, ops[0]), ops[1..]);
      ClosedForever(y, [ops[0]]);
      assert Run(y, [ops[0]]) == Step(y, ops[0]);
      AllStray(Step(y, ops[0]), ops[1..], i - 1);
    } else {
      NoEnds(y);
    }
  }

  lemma NoEnds(y: Sys)
    requires Closed(y)
    ensures y.ends == 0
  {
  }

  /** In every run, after a short read: no byte is accepted any more if and only if every write turn
      that follows belongs to a write of no bytes. All those writes come through a read end. */
  lemma NoMoreBytes(ops: seq<Op>, t: nat, later: seq<Op>)
    requires Legal(NewPipe(), ops) && Enabled(Run(NewPipe(), ops), OpReadTurn(t))
    requires var y := Run(NewPipe(), ops); Returns(y, OpReadTurn(t)) && |y.readers[t].got| + |DeliveredBy(y, OpReadTurn(t))| < y.readers[t].want
    requires Legal(Step(Run(NewPipe(), ops), OpReadTurn(t)), later)
    ensures var y := Step(Run(NewPipe(), ops), OpReadTurn(t));
            && (Accepted(y, later) == [] <==> OnlyEmptyWrites(Pending(y), later))
            && (forall u | u in y.writers :: !y.writers[u].viaWriteEnd)
            && (forall i | 0 <= i < |later| && later[i].OpWrite? :: !later[i].viaWriteEnd)
  {
    hide Inv;
    RunKeeps(NewPipe(), ops) by { NewInv(); }
    ShortRead(ops, t, []);
    var y := Step(Run(NewPipe(), ops), OpReadTurn(t));
    StepKeeps(Run(NewPipe(), ops), OpReadTurn(t));
    EmptyRun(y, later);
    assert Run(y, []) == y;
    forall i | 0 <= i < |later| && later[i].OpWrite? ensures !later[i].viaWriteEnd { AllStray(y, later, i); }
  }

  lemma NewInv()
    ensures Inv(NewPipe())
  {
  }

  /** Such a write: the write end is closed, and a read end accepts a byte. */
  lemma StrayWrite()
    ensures var ops := [OpClose, OpWrite(1, [7], false), OpWriteTurn(1)];
            Legal(NewPipe(), ops) && Closed(Step(NewPipe(), OpClose)) && Run(NewPipe(), ops).buffered == [7]
  {
    var y := Step(NewPipe(), OpClose);
    var ops := [OpClose, OpWrite(1, [7], false), OpWriteTurn(1)];
    assert ops[1..] == [OpWrite(1, [7], false), OpWriteTurn(1)] && ops[1..][1..] == [OpWriteTurn(1)];
    var y1 := Step(y, ops[1]);
    assert y1.writers == map[1 := WriteCall([7], 0, false)];
    assert Legal(y1, [OpWriteTurn(1)]) && Run(y1, [OpWriteTurn(1)]) == Step(y1, OpWriteTurn(1));
    assert Legal(y, ops[1..]) && Run(y, ops[1..]) == Step(y1, OpWriteTurn(1));
  }
}
