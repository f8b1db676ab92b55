/** The lock-free single-producer single-consumer ring of the IPC latency benchmark.

    Two views of the same protocol. `RingBuffer` is the structure with its two non-blocking
    operations, each run without interference. `State` is the two-thread program: one `Step` is one
    load of an index, one byte of a copy, or one index store, and the two threads interleave in any
    way under sequential consistency. */
module Ring {
  import opened Bits
  import opened Bytes
  import opened Modulo
  import opened Options

  const RING_SIZE: nat := 1024
  const CAPACITY: nat := RING_SIZE - 1
  const DATA_BYTES: nat := 64
  const MESSAGE_BYTES: nat := 72

  /** A `Message`: 64 data bytes, then the 64-bit timestamp. */
  type Message = m: seq<Byte> | |m| == MESSAGE_BYTES witness Zeros(MESSAGE_BYTES)

  type Time = t: nat | t < 0x1_0000_0000_0000_0000

  /** The index after this one around the ring. */
  function Advance(index: nat): (next: nat)
    requires index < RING_SIZE
    ensures next < RING_SIZE
  {
    (index + 1) % RING_SIZE
  }

  /** The source's increment of an index: 64-bit addition, then the mask. */
  function Increment(index: nat): (next: nat)
    requires index < RING_SIZE
  {
    And((index + 1) % 0x1_0000_0000_0000_0000, RING_SIZE - 1)
  }

  /** On every index it is the increment modulo the ring's size. */
  lemma {:induction false} IncrementIsAdvance(index: nat)
    requires index < RING_SIZE
    ensures Increment(index) == Advance(index)
  {
    var bits := TenBits();
    MaskIsModulo(index + 1, RING_SIZE, bits);
  }

  lemma {:induction false} TenBits() returns (bits: nat)
    ensures Pow2(bits) == RING_SIZE
  {
    bits := 10;
    assert Pow2(5) == 32;
    assert Pow2(6) == 2 * Pow2(5);
    assert Pow2(8) == 2 * (2 * Pow2(6));
  }

  // --------------------------------------------------------------------------------------------
  // The abstract queue

  /** What a push that sees the true state of the queue does to it. */
  function Enqueue(queue: seq<Message>, msg: Message): (seq<Message>, bool) {
    if |queue| == CAPACITY then (queue, false) else (queue + [msg], true)
  }

  /** What a pop that sees the true state of the queue does to it. */
  function Dequeue(queue: seq<Message>): (seq<Message>, Option<Message>) {
    if queue == [] then (queue, None) else (queue[1..], Some(queue[0]))
  }

  /** `buffer[head..tail)` read around the ring holds `queue`. */
  ghost predicate Holds(buffer: seq<Message>, tail: nat, head: nat, queue: seq<Message>) {
    && |buffer| == RING_SIZE
    && |queue| <= CAPACITY
    && tail < RING_SIZE
    && head == (tail + |queue|) % RING_SIZE
    && forall k :: 0 <= k < |queue| ==> buffer[(tail + k) % RING_SIZE] == queue[k]
  }

  lemma {:induction false} FullIff(buffer: seq<Message>, tail: nat, head: nat, queue: seq<Message>)
    requires Holds(buffer, tail, head, queue)
    ensures Advance(head) == tail <==> |queue| == CAPACITY
    ensures head == tail <==> queue == []
  {
  }

  lemma {:induction false} HoldsOneMore(buffer: seq<Message>, tail: nat, head: nat, queue: seq<Message>, msg: Message)
    requires Holds(buffer, tail, head, queue) && |queue| < CAPACITY
    ensures Holds(buffer[head := msg], tail, Advance(head), queue + [msg])
  {
    var more := queue + [msg];
    forall k | 0 <= k < |more| ensures buffer[head := msg][(tail + k) % RING_SIZE] == more[k] {
      if k < |queue| {
        ModDistinct(tail + k, tail + |queue|, RING_SIZE);
      }
    }
  }

  /** A queue read around a ring of any size, from its second message on. */
  lemma {:induction false} ReadOneOn(buffer: seq<Message>, tail: nat, queue: seq<Message>, n: nat)
    requires |buffer| == n > 0 && queue != []
    requires forall k :: 0 <= k < |queue| ==> buffer[(tail + k) % n] == queue[k]
    ensures forall k :: 0 <= k < |queue| - 1 ==> buffer[((tail + 1) % n + k) % n] == queue[1..][k]
  {
    forall k | 0 <= k < |queue| - 1 ensures buffer[((tail + 1) % n + k) % n] == queue[1..][k] {
      ModPlus(tail + 1, k, n);
      assert tail + 1 + k == tail + (k + 1);
      assert buffer[(tail + (k + 1)) % n] == queue[k + 1];
    }
  }

  lemma {:induction false} HoldsOneLess(buffer: seq<Message>, tail: nat, head: nat, queue: seq<Message>)
    requires Holds(buffer, tail, head, queue) && queue != []
    ensures buffer[tail] == queue[0]
    ensures Holds(buffer, Advance(tail), head, queue[1..])
  {
    assert buffer[(tail + 0) % RING_SIZE] == queue[0];
    ReadOneOn(buffer, tail, queue, RING_SIZE);
  }

  class RingBuffer {
    var head: nat
    var tail: nat
    const buffer: array<Message>
    ghost var queue: seq<Message>

    ghost predicate Valid()
      reads this, buffer
    {
      buffer.Length == RING_SIZE && Holds(buffer[..], tail, head, queue)
    }

    /** `ring_buffer_init` on freshly allocated memory. */
    constructor ()
      ensures Valid() && fresh(buffer) && queue == []
      ensures head == 0 && tail == 0 && forall k :: 0 <= k < RING_SIZE ==> buffer[k] == Zeros(MESSAGE_BYTES)
    {
      head, tail, queue := 0, 0, [];
      buffer := new Message[RING_SIZE](_ => Zeros(MESSAGE_BYTES));
    }

    method Push(msg: Message) returns (ok: bool)
      requires Valid()
      modifies this`head, this`queue, buffer
      ensures Valid()
      ensures (queue, ok) == Enqueue(old(queue), msg)
    {
      var h := head;
      IncrementIsAdvance(h);
      FullIff(buffer[..], tail, head, queue);
      var next := Increment(h);
      if next == tail {
        return false;
      }
      HoldsOneMore(buffer[..], tail, head, queue, msg);
      buffer[h] := msg;
      head := next;
      queue := queue + [msg];
      return true;
    }

    method Pop() returns (msg: Option<Message>)
      requires Valid()
      modifies this`tail, this`queue
      ensures Valid()
      ensures (queue, msg) == Dequeue(old(queue))
    {
      var t := tail;
      FullIff(buffer[..], tail, head, queue);
      if t == head {
        return None;
      }
      HoldsOneLess(buffer[..], tail, head, queue);
      IncrementIsAdvance(t);
      msg := Some(buffer[t]);
      tail := Increment(t);
      queue := queue[1..];
    }
  }
}
