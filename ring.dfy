/** The receive queue `struct circular_buf`: a fixed array of `BUF_LEN` bytes
    with a write index `head` and a read index `tail`, both taken modulo
    `BUF_LEN`. There is no full check: the `BUF_LEN`-th unread byte makes the
    queue look empty again.

    `Ring` is the value of the queue, with its operations as functions; the
    class `CircularBuf` is the queue the firmware updates in place, and each
    of its methods is specified by the matching `Ring` function. */
module CircularBuffer {
  import opened Bits

  const BUF_LEN: nat := 1024

  datatype Ring = Ring(slots: seq<Byte>, head: nat, tail: nat)
  {
    predicate Wf()
    {
      |slots| == BUF_LEN && head < BUF_LEN && tail < BUF_LEN
    }

    /** Number of bytes written and not yet read back. */
    function Count(): (n: nat)
      requires Wf()
      ensures n < BUF_LEN
    {
      (head - tail) % BUF_LEN
    }

    /** The unread bytes, oldest first: the slots from `tail` up to `head`,
        wrapping round the end of the array. */
    function Unread(): (u: seq<Byte>)
      requires Wf()
      ensures |u| == Count()
    {
      var n := Count();
      seq(n, i requires 0 <= i < n => slots[(tail + i) % BUF_LEN])
    }

    /** `buf_empty`. */
    function IsEmpty(): (e: bool)
      requires Wf()
      ensures e <==> Unread() == []
    {
      tail == head
    }

    /** `buf_push`: store at `head`, advance `head`. */
    function Push(b: Byte): (r: Ring)
      requires Wf()
      ensures r.Wf()
    {
      Ring(slots[head := b], (head + 1) % BUF_LEN, tail)
    }

    /** `buf_pop`: read at `tail`, advance `tail`. */
    function Pop(): (r: (Byte, Ring))
      requires Wf()
      ensures r.1.Wf()
    {
      (slots[tail], this.(tail := (tail + 1) % BUF_LEN))
    }

    /** `buf_clear`: both indices back to 0; the slots keep their bytes. */
    function Clear(): (r: Ring)
      requires Wf()
      ensures r.Wf() && r.IsEmpty() && r.Unread() == []
      ensures r.slots == slots
    {
      this.(head := 0, tail := 0)
    }
  }

  /** Below capacity a push appends at the back of the unread bytes. */
  lemma PushAppends(r: Ring, b: Byte)
    requires r.Wf() && r.Count() < BUF_LEN - 1
    ensures r.Push(b).Unread() == r.Unread() + [b]
  {
    var r' := r.Push(b);
    var n := r.Count();
    assert r'.Count() == n + 1;
    forall i | 0 <= i < n
      ensures r'.Unread()[i] == r.Unread()[i]
    {
      assert (r.tail + i) % BUF_LEN != r.head;
    }
    assert r'.Unread()[n] == b;
  }

  /** The push that would make `BUF_LEN` unread bytes makes the queue look empty:
      all of them are lost. */
  lemma PushOverflow(r: Ring, b: Byte)
    requires r.Wf() && r.Count() == BUF_LEN - 1
    ensures r.Push(b).IsEmpty()
  {
  }

  /** A pop of a non-empty queue returns the oldest unread byte and removes it. */
  lemma PopFront(r: Ring)
    requires r.Wf() && !r.IsEmpty()
    ensures r.Pop().0 == r.Unread()[0]
    ensures r.Pop().1.Unread() == r.Unread()[1..]
  {
    var r' := r.Pop().1;
    assert r'.Count() == r.Count() - 1;
    forall i | 0 <= i < r'.Count()
      ensures r'.Unread()[i] == r.Unread()[i + 1]
    {
      assert (r'.tail + i) % BUF_LEN == (r.tail + (i + 1)) % BUF_LEN;
    }
  }

  /** A pop of an empty queue returns a stale slot and leaves `BUF_LEN - 1`
      stale bytes looking unread; the firmware's callers check first. */
  lemma PopFromEmpty(r: Ring)
    requires r.Wf() && r.IsEmpty()
    ensures r.Pop().0 == r.slots[r.tail]
    ensures r.Pop().1.Count() == BUF_LEN - 1
  {
  }

  /** A push onto an empty queue followed by a pop hands back the pushed byte
      and leaves the queue empty. */
  lemma PushPopEmpty(r: Ring, b: Byte)
    requires r.Wf() && r.IsEmpty()
    ensures r.Push(b).Pop().0 == b
    ensures r.Push(b).Pop().1.IsEmpty()
  {
  }

  /** Pushes of `xs`, one after the other. */
  ghost function PushAll(r: Ring, xs: seq<Byte>): (r': Ring)
    requires r.Wf()
    ensures r'.Wf()
    decreases |xs|
  {
    if xs == [] then r else PushAll(r.Push(xs[0]), xs[1..])
  }

  /** `n` pops, one after the other, with the bytes they return in order. */
  ghost function PopAll(r: Ring, n: nat): (p: (seq<Byte>, Ring))
    requires r.Wf()
    ensures |p.0| == n && p.1.Wf()
    decreases n
  {
    if n == 0 then ([], r)
    else
      var (b, r1) := r.Pop();
      var (bs, r2) := PopAll(r1, n - 1);
      ([b] + bs, r2)
  }

  lemma {:induction false} PushAllAppends(r: Ring, xs: seq<Byte>)
    requires r.Wf() && r.Count() + |xs| < BUF_LEN
    ensures PushAll(r, xs).Unread() == r.Unread() + xs
    decreases |xs|
  {
    if xs != [] {
      PushAppends(r, xs[0]);
      PushAllAppends(r.Push(xs[0]), xs[1..]);
      assert r.Unread() + [xs[0]] + xs[1..] == r.Unread() + xs;
    }
  }

  lemma {:induction false} PopAllDrains(r: Ring, n: nat)
    requires r.Wf() && n <= r.Count()
    ensures PopAll(r, n).0 == r.Unread()[..n]
    ensures PopAll(r, n).1.Unread() == r.Unread()[n..]
    decreases n
  {
    if n > 0 {
      PopFront(r);
      var r1 := r.Pop().1;
      PopAllDrains(r1, n - 1);
      assert r.Unread()[1..][..n - 1] == r.Unread()[1..n];
      assert r.Unread()[1..][n - 1..] == r.Unread()[n..];
    }
  }

  /** FIFO order below capacity: starting from an empty queue, fewer than
      `BUF_LEN` pushes followed by as many pops return the pushed bytes in the
      order they were pushed and leave the queue empty. */
  lemma Fifo(r: Ring, xs: seq<Byte>)
    requires r.Wf() && r.IsEmpty() && |xs| < BUF_LEN
    ensures PopAll(PushAll(r, xs), |xs|).0 == xs
    ensures PopAll(PushAll(r, xs), |xs|).1.IsEmpty()
  {
    PushAllAppends(r, xs);
    PopAllDrains(PushAll(r, xs), |xs|);
  }

  /** After a clear and fewer than `BUF_LEN` pushes, the queue is empty exactly
      when as many pops as pushes have been made. */
  lemma EmptyIffBalanced(r: Ring, xs: seq<Byte>, pops: nat)
    requires r.Wf() && |xs| < BUF_LEN && pops <= |xs|
    ensures PopAll(PushAll(r.Clear(), xs), pops).1.IsEmpty() <==> pops == |xs|
  {
    PushAllAppends(r.Clear(), xs);
    PopAllDrains(PushAll(r.Clear(), xs), pops);
  }

  /** One operation on the queue, as the interrupt handlers issue them. */
  datatype Op = PushOp(b: Byte) | PopOp

  /** The queue after `ops`, applied in order. */
  ghost function Apply(r: Ring, ops: seq<Op>): (r': Ring)
    requires r.Wf()
    ensures r'.Wf()
    decreases |ops|
  {
    if ops == [] then r
    else
      var q := Apply(r, ops[..|ops| - 1]);
      match ops[|ops| - 1]
      case PushOp(b) => q.Push(b)
      case PopOp => q.Pop().1
  }

  /** The bytes pushed by `ops`, in order. */
  function Pushed(ops: seq<Op>): (bs: seq<Byte>)
    ensures |bs| <= |ops|
    decreases |ops|
  {
    if ops == [] then []
    else Pushed(ops[..|ops| - 1]) + (match ops[|ops| - 1] case PushOp(b) => [b] case PopOp => [])
  }

  /** The number of pops in `ops`. */
  function Pops(ops: seq<Op>): (n: nat)
    ensures n <= |ops|
    decreases |ops|
  {
    if ops == [] then 0
    else Pops(ops[..|ops| - 1]) + (if ops[|ops| - 1].PopOp? then 1 else 0)
  }

  /** No prefix of `ops` pops more than it has pushed, and none leaves
      `BUF_LEN` or more bytes unread. */
  predicate Balanced(ops: seq<Op>)
  {
    forall k :: 0 <= k <= |ops| ==> Pops(ops[..k]) <= |Pushed(ops[..k])| < Pops(ops[..k]) + BUF_LEN
  }

  /** FIFO order for any interleaving of pushes and pops on an empty queue:
      as long as no pop finds the queue empty and it never holds `BUF_LEN`
      unread bytes, the unread bytes are those pushed and not yet popped, in
      push order, and the queue is empty exactly when pushes and pops balance. */
  lemma {:induction false} InterleavedFifo(r: Ring, ops: seq<Op>)
    requires r.Wf() && r.IsEmpty() && Balanced(ops)
    ensures Pops(ops) <= |Pushed(ops)|
    ensures Apply(r, ops).Unread() == Pushed(ops)[Pops(ops)..]
    ensures Apply(r, ops).Count() == |Pushed(ops)| - Pops(ops)
    ensures Apply(r, ops).IsEmpty() <==> |Pushed(ops)| == Pops(ops)
    decreases |ops|
  {
    assert ops[..|ops|] == ops;
    if ops != [] {
      var n := |ops| - 1;
      var p := ops[..n];
      forall k | 0 <= k <= |p|
        ensures Pops(p[..k]) <= |Pushed(p[..k])| < Pops(p[..k]) + BUF_LEN
      {
        assert p[..k] == ops[..k];
      }
      InterleavedFifo(r, p);
      var q := Apply(r, p);
      match ops[n] {
        case PushOp(b) =>
          PushAppends(q, b);
          assert Pushed(ops) == Pushed(p) + [b];
          assert Pushed(p)[Pops(p)..] + [b] == (Pushed(p) + [b])[Pops(p)..];
        case PopOp =>
          PopFront(q);
          assert Pushed(p)[Pops(p)..][1..] == Pushed(p)[Pops(p) + 1..];
      }
    }
  }

  /** The queue the firmware owns: `recv_buf`. The array is allocated once and
      never replaced; only the indices and the slots change. */
  class CircularBuf {
    const buf: array<Byte>
    var head: nat
    var tail: nat

    ghost predicate Valid()
      reads this
    {
      buf.Length == BUF_LEN && head < BUF_LEN && tail < BUF_LEN
    }

    /** The queue as a value. */
    ghost function Model(): (r: Ring)
      reads this, buf
      requires Valid()
      ensures r.Wf()
    {
      Ring(buf[..], head, tail)
    }

    /** Static storage: zero-filled array, both indices 0. */
    constructor ()
      ensures Valid() && fresh(buf)
      ensures buf[..] == seq(BUF_LEN, _ => 0)
      ensures head == 0 && tail == 0 && Model().Unread() == []
    {
      buf := new Byte[BUF_LEN](_ => 0);
      head, tail := 0, 0;
    }

    /** `buf_push`. */
    method Push(b: Byte)
      requires Valid()
      modifies this`head, buf
      ensures Valid()
      ensures Model() == old(Model()).Push(b)
      ensures head == (old(head) + 1) % BUF_LEN && tail == old(tail)
      ensures old(Model().Count()) < BUF_LEN - 1 ==> Model().Unread() == old(Model().Unread()) + [b]
      ensures old(Model().Count()) == BUF_LEN - 1 ==> Model().IsEmpty()
    {
      ghost var before := Model();
      buf[head] := b;
      head := (head + 1) % BUF_LEN;
      assert Model() == before.Push(b);
      if before.Count() < BUF_LEN - 1 {
        PushAppends(before, b);
      }
    }

    /** `buf_pop`. */
    method Pop() returns (b: Byte)
      requires Valid()
      modifies this`tail
      ensures Valid()
      ensures (b, Model()) == old(Model()).Pop()
      ensures tail == (old(tail) + 1) % BUF_LEN && head == old(head) && b == buf[old(tail)]
      ensures !old(Model().IsEmpty()) ==> b == old(Model().Unread())[0] && Model().Unread() == old(Model().Unread())[1..]
    {
      ghost var before := Model();
      b := buf[tail];
      tail := (tail + 1) % BUF_LEN;
      if !before.IsEmpty() {
        PopFront(before);
      }
    }

    /** `buf_clear`. */
    method Clear()
      requires Valid()
      modifies this`head, this`tail
      ensures Valid()
      ensures Model() == old(Model()).Clear()
      ensures head == 0 && tail == 0 && Model().Unread() == []
    {
      head := 0;
      tail := 0;
    }

    /** `buf_empty`. */
    function Empty(): (e: bool)
      reads this, buf
      requires Valid()
      ensures e <==> Model().Unread() == []
    {
      tail == head
    }
  }
}
