/** The producer and consumer threads over one shared ring, interleaved step by step.

    Every load of a shared index, every byte of either `memcpy` and every index store is a step of
    its own. A copy may take its bytes in any order, so a copy done in larger pieces is the special
    case in which the bytes of one piece are adjacent in the schedule. */
module RingThreads {
  import opened Bytes
  import opened Options
  import opened Ring

  const FILL: Byte := 0xAA

  /** The message the producer sends with time stamp `t`: the fill pattern, then the stamp. */
  function StampedMessage(t: Time): (m: Message) {
    Widths();
    seq(DATA_BYTES, _ => FILL) + LeEncode(t, 8)
  }

  function TimestampOf(m: Message): (t: Time) {
    Widths();
    LeDecode(m[DATA_BYTES..])
  }

  /** Unsigned 64-bit subtraction of two clock readings. */
  function Elapsed(sent: Time, arrival: Time): (l: Time) {
    (arrival as int - sent as int) % 0x1_0000_0000_0000_0000
  }

  /** `recv_time - msg.timestamp`. */
  function Latency(arrival: Time, m: Message): (l: Time) {
    Elapsed(TimestampOf(m), arrival)
  }

  /** Where the producer thread stands. The locals of `ring_buffer_push` live in the constructors. */
  datatype Producer =
    | PStamp
    | PLoadHead
    | PLoadTail(head: nat)
    | PCopy(head: nat, next: nat, copied: set<nat>)
    | PReturned

  /** Where the consumer thread stands. The locals of `ring_buffer_pop` live in the constructors. */
  datatype Consumer =
    | CLoadTail
    | CLoadHead(tail: nat)
    | CCopy(tail: nat, copied: set<nat>)
    | CRecord
    | CReturned

  /** Shared memory, both threads' locals, and the history of what was pushed, popped and timed. */
  datatype State = State(
    n: nat,
    head: nat, tail: nat, buffer: seq<Message>,
    producer: Producer, outgoing: Message,
    consumer: Consumer, incoming: Message, received: nat, latencies: seq<Time>, done: bool,
    pushed: seq<Message>, popped: seq<Message>, stamps: seq<Time>, arrivals: seq<Time>)
  {
    /** The messages in flight: pushed and not yet popped. */
    function Queue(): (q: seq<Message>)
      requires |popped| <= |pushed|
    {
      pushed[|popped|..]
    }

    predicate Finished() {
      producer.PReturned? && consumer.CReturned?
    }
  }

  datatype Step =
    | StampMessage(now: Time)
    | ProducerLoadsHead
    | ProducerLoadsTail
    | ProducerCopies(k: nat)
    | ProducerCommits
    | ConsumerLoadsTail
    | ConsumerLoadsHead
    | ConsumerCopies(k: nat)
    | ConsumerCommits
    | RecordLatency(now: Time)
  {
    predicate OfProducer() {
      StampMessage? || ProducerLoadsHead? || ProducerLoadsTail? || ProducerCopies? || ProducerCommits?
    }
  }

  const ALL_BYTES: set<nat> := set k: nat | 0 <= k < MESSAGE_BYTES

  predicate Enabled(s: State, step: Step) {
    match step
    case StampMessage(_) => s.producer.PStamp?
    case ProducerLoadsHead => s.producer.PLoadHead?
    case ProducerLoadsTail => s.producer.PLoadTail? && s.producer.head < RING_SIZE
    case ProducerCopies(k) =>
      s.producer.PCopy? && k < MESSAGE_BYTES && k !in s.producer.copied && s.producer.head < |s.buffer|
    case ProducerCommits => s.producer.PCopy? && s.producer.copied == ALL_BYTES
    case ConsumerLoadsTail => s.consumer.CLoadTail?
    case ConsumerLoadsHead => s.consumer.CLoadHead?
    case ConsumerCopies(k) =>
      s.consumer.CCopy? && k < MESSAGE_BYTES && k !in s.consumer.copied && s.consumer.tail < |s.buffer|
    case ConsumerCommits =>
      s.consumer.CCopy? && s.consumer.copied == ALL_BYTES && s.consumer.tail < RING_SIZE
    case RecordLatency(_) => s.consumer.CRecord? && s.received < |s.latencies|
  }

  function Apply(s: State, step: Step): (s': State)
    requires Enabled(s, step)
  {
    match step
    case StampMessage(now) =>
      Widths();
      s.(outgoing := s.outgoing[..DATA_BYTES] + LeEncode(now, 8), stamps := s.stamps + [now],
         producer := PLoadHead)
    case ProducerLoadsHead =>
      s.(producer := PLoadTail(s.head))
    case ProducerLoadsTail =>
      var next := Advance(s.producer.head);
      // Full: `push` returns false and the thread spins.
      s.(producer := if next == s.tail then PLoadHead else PCopy(s.producer.head, next, {}))
    case ProducerCopies(k) =>
      var h := s.producer.head;
      s.(buffer := s.buffer[h := s.buffer[h][k := s.outgoing[k]]],
         producer := s.producer.(copied := s.producer.copied + {k}))
    case ProducerCommits =>
      s.(head := s.producer.next, pushed := s.pushed + [s.outgoing],
         producer := if |s.pushed| + 1 < s.n then PStamp else PReturned)
    case ConsumerLoadsTail =>
      s.(consumer := CLoadHead(s.tail))
    case ConsumerLoadsHead =>
      // Empty: `pop` returns false and the thread spins.
      s.(consumer := if s.consumer.tail == s.head then CLoadTail else CCopy(s.consumer.tail, {}))
    case ConsumerCopies(k) =>
      s.(incoming := s.incoming[k := s.buffer[s.consumer.tail][k]],
         consumer := s.consumer.(copied := s.consumer.copied + {k}))
    case ConsumerCommits =>
      s.(tail := Advance(s.consumer.tail), popped := s.popped + [s.incoming], consumer := CRecord)
    case RecordLatency(now) =>
      var received := s.received + 1;
      s.(latencies := s.latencies[s.received := Latency(now, s.incoming)], received := received,
         arrivals := s.arrivals + [now],
         consumer := if received < s.n then CLoadTail else CReturned,
         done := s.done || received >= s.n)
  }

  /** Both threads just started on an initialised ring, with whatever `latencies` and the
      consumer's uninitialised `msg` held before. */
  function Start(n: nat, latencies: seq<Time>, garbage: Message): (s: State)
    requires n <= |latencies|
  {
    State(n, 0, 0, seq(RING_SIZE, _ => Zeros(MESSAGE_BYTES)),
          if n == 0 then PReturned else PStamp, seq(MESSAGE_BYTES, _ => FILL),
          if n == 0 then CReturned else CLoadTail, garbage, 0, latencies, n == 0,
          [], [], [], [])
  }

  /** The states a schedule passes through. */
  predicate Schedulable(s: State, schedule: seq<Step>)
    decreases |schedule|
  {
    schedule == [] || (Enabled(s, schedule[0]) && Schedulable(Apply(s, schedule[0]), schedule[1..]))
  }

  function Run(s: State, schedule: seq<Step>): (s': State)
    requires Schedulable(s, schedule)
    decreases |schedule|
  {
    if schedule == [] then s else Run(Apply(s, schedule[0]), schedule[1..])
  }

  // --------------------------------------------------------------------------------------------
  // The inductive invariant

  /** The masked indices are the counters modulo the ring size, and every unread slot is whole. */
  ghost predicate SharedInv(s: State) {
    && |s.buffer| == RING_SIZE
    && |s.popped| <= |s.pushed| <= |s.popped| + CAPACITY
    && |s.pushed| <= s.n
    && s.head == |s.pushed| % RING_SIZE
    && s.tail == |s.popped| % RING_SIZE
    && s.popped == s.pushed[..|s.popped|]
    && forall j :: |s.popped| <= j < |s.pushed| ==> s.buffer[j % RING_SIZE] == s.pushed[j]
  }

  ghost predicate ProducerInv(s: State)
    requires SharedInv(s)
  {
    && |s.stamps| == |s.pushed| + (if s.producer.PStamp? || s.producer.PReturned? then 0 else 1)
    && (forall j :: 0 <= j < |s.pushed| ==> s.pushed[j] == StampedMessage(s.stamps[j]))
    && (forall k :: 0 <= k < DATA_BYTES ==> s.outgoing[k] == FILL)
    && (s.producer.PReturned? <==> |s.pushed| == s.n)
    && (!s.producer.PStamp? && !s.producer.PReturned? ==>
          s.outgoing == StampedMessage(s.stamps[|s.pushed|]))
    && (s.producer.PLoadTail? ==> s.producer.head == s.head)
    && (s.producer.PCopy? ==>
          && s.producer.head == s.head
          && s.producer.next == Advance(s.head)
          && |s.pushed| < |s.popped| + CAPACITY
          && s.producer.copied <= ALL_BYTES
          && forall k :: k in s.producer.copied ==> s.buffer[s.head][k] == s.outgoing[k])
  }

  ghost predicate ConsumerInv(s: State)
    requires SharedInv(s)
  {
    && |s.popped| == s.received + (if s.consumer.CRecord? then 1 else 0)
    && s.n <= |s.latencies|
    && (s.consumer.CReturned? <==> s.received == s.n)
    && s.done == s.consumer.CReturned?
    && (s.consumer.CRecord? ==> s.popped[s.received] == s.incoming)
    && (s.consumer.CLoadHead? ==> s.consumer.tail == s.tail)
    && (s.consumer.CCopy? ==>
          && s.consumer.tail == s.tail
          && |s.popped| < |s.pushed|
          && s.consumer.copied <= ALL_BYTES
          && forall k :: k in s.consumer.copied ==> s.incoming[k] == s.buffer[s.tail][k])
  }

  /** Entry `j` of `latencies` holds the latency of the `j`-th message once it has been received,
      and what it held before until then: no entry is written twice or out of order. */
  ghost predicate LatencyInv(s: State, before: seq<Time>) {
    && |s.latencies| == |before|
    && |s.arrivals| == s.received <= |s.popped|
    && s.received <= |before|
    && (forall j :: 0 <= j < s.received ==> s.latencies[j] == Latency(s.arrivals[j], s.popped[j]))
    && (forall j :: s.received <= j < |before| ==> s.latencies[j] == before[j])
  }

  ghost predicate Inv(s: State, before: seq<Time>) {
    SharedInv(s) && ProducerInv(s) && ConsumerInv(s) && LatencyInv(s, before)
  }

  lemma {:induction false} StartEstablishesInv(n: nat, latencies: seq<Time>, garbage: Message)
    requires n <= |latencies|
    ensures Inv(Start(n, latencies, garbage), latencies)
  {
  }

  /** Two counters less than a ring apart that share a slot are equal. */
  lemma {:induction false} SlotsDiffer(i: nat, j: nat)
    requires i <= j < i + RING_SIZE
    ensures i % RING_SIZE == j % RING_SIZE ==> i == j
  {
  }

  /** The masked indices tell a full ring and an empty one apart from every other. */
  lemma {:induction false} IndicesTell(pushed: nat, popped: nat)
    requires popped <= pushed <= popped + CAPACITY
    ensures Advance(pushed % RING_SIZE) == popped % RING_SIZE <==> pushed == popped + CAPACITY
    ensures pushed % RING_SIZE == popped % RING_SIZE <==> pushed == popped
    ensures Advance(pushed % RING_SIZE) == (pushed + 1) % RING_SIZE
  {
    var q, r := pushed / RING_SIZE - popped / RING_SIZE, pushed % RING_SIZE;
    assert pushed - popped == RING_SIZE * q + r - popped % RING_SIZE && 0 <= q <= 1;
    assert (r + 1) % RING_SIZE == if r == CAPACITY then 0 else r + 1;
  }

  /** The slot being filled holds no unread message. */
  lemma {:induction false} FillSlotIsFree(s: State, j: nat)
    requires SharedInv(s) && |s.pushed| < |s.popped| + CAPACITY
    requires |s.popped| <= j < |s.pushed|
    ensures j % RING_SIZE != s.head
  {
    SlotsDiffer(j, |s.pushed|);
  }

  lemma {:induction false} ProducerCopyKeepsInv(s: State, k: nat, before: seq<Time>)
    requires Inv(s, before) && Enabled(s, ProducerCopies(k))
    ensures Inv(Apply(s, ProducerCopies(k)), before)
  {
    forall j | |s.popped| <= j < |s.pushed| ensures j % RING_SIZE != s.head {
      FillSlotIsFree(s, j);
    }
    if s.consumer.CCopy? {
      assert s.tail != s.head by { FillSlotIsFree(s, |s.popped|); }
    }
  }

  /** A finished copy is the whole message, byte for byte. */
  lemma {:induction false} CopyComplete(a: Message, b: Message, copied: set<nat>)
    requires copied == ALL_BYTES
    requires forall k :: k in copied && k < MESSAGE_BYTES ==> a[k] == b[k]
    ensures a == b
  {
    forall k | 0 <= k < MESSAGE_BYTES ensures a[k] == b[k] {
      assert k in ALL_BYTES;
    }
  }

  lemma {:induction false} ProducerCommitKeepsShared(s: State)
    requires SharedInv(s) && ProducerInv(s) && Enabled(s, ProducerCommits)
    ensures SharedInv(Apply(s, ProducerCommits))
  {
    CopyComplete(s.buffer[s.head], s.outgoing, s.producer.copied);
    IndicesTell(|s.pushed|, |s.popped|);
    var s', p := Apply(s, ProducerCommits), |s.pushed|;
    assert s'.pushed[..|s'.popped|] == s.pushed[..|s.popped|];
    forall j | |s.popped| <= j < p + 1 ensures s'.buffer[j % RING_SIZE] == s'.pushed[j] {
      if j == p {
        assert s.buffer[p % RING_SIZE] == s.outgoing == s'.pushed[p];
      }
    }
  }

  lemma {:induction false} ProducerCommitKeepsProducer(s: State)
    requires SharedInv(s) && ProducerInv(s) && Enabled(s, ProducerCommits)
    requires SharedInv(Apply(s, ProducerCommits))
    ensures ProducerInv(Apply(s, ProducerCommits))
  {
    var s', p := Apply(s, ProducerCommits), |s.pushed|;
    forall j | 0 <= j < p + 1 ensures s'.pushed[j] == StampedMessage(s'.stamps[j]) {
      if j < p {
        assert s'.pushed[j] == s.pushed[j];
      }
    }
  }

  lemma {:induction false} ProducerCommitKeepsConsumer(s: State)
    requires SharedInv(s) && ConsumerInv(s) && Enabled(s, ProducerCommits)
    requires SharedInv(Apply(s, ProducerCommits))
    ensures ConsumerInv(Apply(s, ProducerCommits))
  {
  }

  lemma {:induction false} ProducerCommitKeepsInv(s: State, before: seq<Time>)
    requires Inv(s, before) && Enabled(s, ProducerCommits)
    ensures Inv(Apply(s, ProducerCommits), before)
  {
    ProducerCommitKeepsShared(s);
    ProducerCommitKeepsProducer(s);
    ProducerCommitKeepsConsumer(s);
  }

  lemma {:induction false} CopiedMessageIsOldest(s: State)
    requires SharedInv(s) && ConsumerInv(s) && Enabled(s, ConsumerCommits)
    ensures |s.popped| < |s.pushed| && s.incoming == s.pushed[|s.popped|]
  {
    var t := |s.popped|;
    assert s.buffer[t % RING_SIZE] == s.pushed[t];
    CopyComplete(s.incoming, s.buffer[s.tail], s.consumer.copied);
  }

  lemma {:induction false} ConsumerCommitKeepsShared(s: State)
    requires SharedInv(s) && ConsumerInv(s) && Enabled(s, ConsumerCommits)
    ensures SharedInv(Apply(s, ConsumerCommits))
  {
    CopiedMessageIsOldest(s);
    var t := |s.popped|;
    IndicesTell(t, t);
    assert s.pushed[..t + 1] == s.pushed[..t] + [s.pushed[t]];
  }

  lemma {:induction false} ConsumerCommitKeepsInv(s: State, before: seq<Time>)
    requires Inv(s, before) && Enabled(s, ConsumerCommits)
    ensures Inv(Apply(s, ConsumerCommits), before)
  {
    ConsumerCommitKeepsShared(s);
  }

  lemma {:induction false} StampKeepsInv(s: State, now: Time, before: seq<Time>)
    requires Inv(s, before) && Enabled(s, StampMessage(now))
    ensures Inv(Apply(s, StampMessage(now)), before)
  {
    Widths();
    var s' := Apply(s, StampMessage(now));
    assert s'.outgoing == StampedMessage(now);
  }

  lemma {:induction false} ProducerLoadKeepsInv(s: State, before: seq<Time>)
    requires Inv(s, before)
    ensures Enabled(s, ProducerLoadsHead) ==> Inv(Apply(s, ProducerLoadsHead), before)
    ensures Enabled(s, ProducerLoadsTail) ==> Inv(Apply(s, ProducerLoadsTail), before)
  {
    IndicesTell(|s.pushed|, |s.popped|);
  }

  lemma {:induction false} ConsumerLoadKeepsInv(s: State, before: seq<Time>)
    requires Inv(s, before)
    ensures Enabled(s, ConsumerLoadsTail) ==> Inv(Apply(s, ConsumerLoadsTail), before)
    ensures Enabled(s, ConsumerLoadsHead) ==> Inv(Apply(s, ConsumerLoadsHead), before)
  {
    IndicesTell(|s.pushed|, |s.popped|);
  }

  lemma {:induction false} ConsumerCopyKeepsInv(s: State, k: nat, before: seq<Time>)
    requires Inv(s, before) && Enabled(s, ConsumerCopies(k))
    ensures Inv(Apply(s, ConsumerCopies(k)), before)
  {
  }

  lemma {:induction false} RecordKeepsInv(s: State, now: Time, before: seq<Time>)
    requires Inv(s, before) && Enabled(s, RecordLatency(now))
    ensures Inv(Apply(s, RecordLatency(now)), before)
  {
  }

  /** Every step of either thread keeps the invariant. */
  lemma {:induction false} StepKeepsInv(s: State, step: Step, before: seq<Time>)
    requires Inv(s, before) && Enabled(s, step)
    ensures Inv(Apply(s, step), before)
  {
    match step
    case StampMessage(now) => StampKeepsInv(s, now, before);
    case ProducerLoadsHead => ProducerLoadKeepsInv(s, before);
    case ProducerLoadsTail => ProducerLoadKeepsInv(s, before);
    case ProducerCopies(k) => ProducerCopyKeepsInv(s, k, before);
    case ProducerCommits => ProducerCommitKeepsInv(s, before);
    case ConsumerLoadsTail => ConsumerLoadKeepsInv(s, before);
    case ConsumerLoadsHead => ConsumerLoadKeepsInv(s, before);
    case ConsumerCopies(k) => ConsumerCopyKeepsInv(s, k, before);
    case ConsumerCommits => ConsumerCommitKeepsInv(s, before);
    case RecordLatency(now) => RecordKeepsInv(s, now, before);
  }

  lemma {:induction false} RunKeepsInv(s: State, schedule: seq<Step>, before: seq<Time>)
    requires Inv(s, before) && Schedulable(s, schedule)
    ensures Inv(Run(s, schedule), before)
    decreases |schedule|
  {
    if schedule != [] {
      StepKeepsInv(s, schedule[0], before);
      RunKeepsInv(Apply(s, schedule[0]), schedule[1..], before);
    }
  }

  // --------------------------------------------------------------------------------------------
  // What holds in every reachable state

  /** Whatever the interleaving, the messages popped are a prefix of the messages pushed, each one
      whole; the ring is the queue of the rest; and the latencies written so far are those of the
      messages in the order they were sent. */
  lemma {:induction false} FifoInEveryInterleaving(n: nat, latencies: seq<Time>, garbage: Message, schedule: seq<Step>)
    requires n <= |latencies|
    requires Schedulable(Start(n, latencies, garbage), schedule)
    ensures var s := Run(Start(n, latencies, garbage), schedule);
            && s.popped <= s.pushed
            && 0 <= |s.pushed| - |s.popped| <= CAPACITY
            && s.head == |s.pushed| % RING_SIZE && s.tail == |s.popped| % RING_SIZE
            && Holds(s.buffer, s.tail, s.head, s.Queue())
            && |s.pushed| <= |s.stamps|
            && (forall j :: 0 <= j < |s.pushed| ==> s.pushed[j] == StampedMessage(s.stamps[j]))
            && LatencyInv(s, latencies)
  {
    StartEstablishesInv(n, latencies, garbage);
    RunKeepsInv(Start(n, latencies, garbage), schedule, latencies);
    var s := Run(Start(n, latencies, garbage), schedule);
    RingHoldsQueue(s);
  }

  lemma {:induction false} RingHoldsQueue(s: State)
    requires SharedInv(s)
    ensures Holds(s.buffer, s.tail, s.head, s.Queue())
  {
    forall k | 0 <= k < |s.Queue()| ensures s.buffer[(s.tail + k) % RING_SIZE] == s.Queue()[k] {
      assert (s.tail + k) % RING_SIZE == (|s.popped| + k) % RING_SIZE;
    }
  }

  /** A stamp survives the trip through a message, so a recorded latency is the difference of the
      two clock readings modulo 2^64. */
  lemma {:induction false} LatencyOfStampedMessage(sent: Time, arrival: Time)
    ensures Latency(arrival, StampedMessage(sent)) == Elapsed(sent, arrival)
  {
    Widths();
    assert StampedMessage(sent)[DATA_BYTES..] == LeEncode(sent, 8);
    LeDecodeEncode(sent, 8);
  }

  /** The rest of a sequence grows at its end, and shrinks at its front. */
  lemma {:induction false} RestOf(all: seq<Message>, p: nat, msg: Message)
    requires p <= |all|
    ensures (all + [msg])[p..] == all[p..] + [msg]
    ensures p < |all| ==> all[p..] == [all[p]] + all[p + 1..]
  {
  }

  lemma {:induction false} CommitEnqueues(s: State)
    requires SharedInv(s) && ProducerInv(s) && Enabled(s, ProducerCommits)
    ensures SharedInv(Apply(s, ProducerCommits))
    ensures (Apply(s, ProducerCommits).Queue(), true) == Enqueue(s.Queue(), s.outgoing)
  {
    ProducerCommitKeepsShared(s);
    RestOf(s.pushed, |s.popped|, s.outgoing);
  }

  lemma {:induction false} CommitDequeues(s: State)
    requires SharedInv(s) && ConsumerInv(s) && Enabled(s, ConsumerCommits)
    ensures SharedInv(Apply(s, ConsumerCommits))
    ensures (Apply(s, ConsumerCommits).Queue(), Some(s.incoming)) == Dequeue(s.Queue())
  {
    ConsumerCommitKeepsShared(s);
    var s', p := Apply(s, ConsumerCommits), |s.popped|;
    assert s'.popped[p] == s.incoming && s'.popped[p] == s'.pushed[..p + 1][p];
    RestOf(s.pushed, p, s.incoming);
  }

  lemma {:induction false} LoadsAnswerForTheQueue(s: State, before: seq<Time>)
    requires Inv(s, before)
    ensures Enabled(s, ProducerLoadsTail) ==>
              (Apply(s, ProducerLoadsTail).producer.PLoadHead? <==> !Enqueue(s.Queue(), s.outgoing).1)
    ensures Enabled(s, ConsumerLoadsHead) ==>
              (Apply(s, ConsumerLoadsHead).consumer.CLoadTail? <==> Dequeue(s.Queue()).1.None?)
  {
    assert |s.Queue()| == |s.pushed| - |s.popped|;
    IndicesTell(|s.pushed|, |s.popped|);
  }

  /** The two-thread program refines the abstract queue: the index stores are its enqueue and
      dequeue, every other step leaves it alone, and the two loads that decide "full" and "empty"
      answer for the queue as it is at the load. */
  lemma {:induction false} StepsRefineTheQueue(s: State, step: Step, before: seq<Time>)
    requires Inv(s, before) && Enabled(s, step)
    ensures SharedInv(Apply(s, step))
    ensures step.ProducerCommits? ==> (Apply(s, step).Queue(), true) == Enqueue(s.Queue(), s.outgoing)
    ensures step.ConsumerCommits? ==> (Apply(s, step).Queue(), Some(s.incoming)) == Dequeue(s.Queue())
    ensures !step.ProducerCommits? && !step.ConsumerCommits? ==> Apply(s, step).Queue() == s.Queue()
    ensures step.ProducerLoadsTail? ==>
              (Apply(s, step).producer.PLoadHead? <==> !Enqueue(s.Queue(), s.outgoing).1)
    ensures step.ConsumerLoadsHead? ==>
              (Apply(s, step).consumer.CLoadTail? <==> Dequeue(s.Queue()).1.None?)
  {
    StepKeepsInv(s, step, before);
    LoadsAnswerForTheQueue(s, before);
    if step.ProducerCommits? {
      CommitEnqueues(s);
    } else if step.ConsumerCommits? {
      CommitDequeues(s);
    }
  }

  /** While the producer copies, it touches no slot that holds an unread message, and in particular
      not the one the consumer is reading. */
  lemma {:induction false} ProducerWritesOnlyFreeSlots(s: State, k: nat, before: seq<Time>)
    requires Inv(s, before) && Enabled(s, ProducerCopies(k))
    ensures forall slot :: 0 <= slot < RING_SIZE && slot != s.head ==>
              Apply(s, ProducerCopies(k)).buffer[slot] == s.buffer[slot]
    ensures forall j :: |s.popped| <= j < |s.pushed| ==> j % RING_SIZE != s.head
    ensures s.consumer.CCopy? ==> s.consumer.tail != s.head
  {
    forall j | |s.popped| <= j < |s.pushed| ensures j % RING_SIZE != s.head {
      FillSlotIsFree(s, j);
    }
    if s.consumer.CCopy? {
      assert |s.popped| % RING_SIZE == s.tail;
    }
  }

  lemma {:induction false} SomeByteIsLeft(copied: set<nat>) returns (k: nat)
    requires copied <= ALL_BYTES && copied != ALL_BYTES
    ensures k < MESSAGE_BYTES && k !in copied
  {
    k :| k in ALL_BYTES && k !in copied;
  }

  /** A thread that has not returned always has a step, and the two never both see failure. */
  lemma {:induction false} SomeThreadCanSucceed(s: State, before: seq<Time>)
    requires Inv(s, before)
    ensures !s.producer.PReturned? ==> exists step: Step :: step.OfProducer() && Enabled(s, step)
    ensures !s.consumer.CReturned? ==> exists step: Step :: !step.OfProducer() && Enabled(s, step)
    ensures Enqueue(s.Queue(), s.outgoing).1 || Dequeue(s.Queue()).1.Some?
  {
    if s.producer.PCopy? && s.producer.copied != ALL_BYTES {
      var k := SomeByteIsLeft(s.producer.copied);
      assert ProducerCopies(k).OfProducer() && Enabled(s, ProducerCopies(k));
    } else if !s.producer.PReturned? {
      var step := match s.producer
        case PStamp => StampMessage(0)
        case PLoadHead => ProducerLoadsHead
        case PLoadTail(_) => ProducerLoadsTail
        case _ => ProducerCommits;
      assert step.OfProducer() && Enabled(s, step);
    }
    if s.consumer.CCopy? && s.consumer.copied != ALL_BYTES {
      var k := SomeByteIsLeft(s.consumer.copied);
      assert !ConsumerCopies(k).OfProducer() && Enabled(s, ConsumerCopies(k));
    } else if !s.consumer.CReturned? {
      var step := if s.consumer.CRecord? then RecordLatency(0)
                  else if s.consumer.CLoadTail? then ConsumerLoadsTail
                  else if s.consumer.CLoadHead? then ConsumerLoadsHead
                  else ConsumerCommits;
      assert !step.OfProducer() && Enabled(s, step);
    }
  }

  /** When both threads have returned, every message was received and timed exactly once and the
      ring is empty. */
  lemma {:induction false} AtTheEnd(s: State, before: seq<Time>)
    requires Inv(s, before) && s.Finished()
    ensures s.popped == s.pushed && |s.pushed| == s.n && s.received == s.n
    ensures s.head == s.tail && s.Queue() == [] && s.done
    ensures |s.arrivals| == |s.stamps| == s.n <= |s.latencies|
    ensures forall j :: 0 <= j < s.n ==> s.latencies[j] == Elapsed(s.stamps[j], s.arrivals[j])
    ensures s.latencies[s.n..] == before[s.n..]
  {
    forall j | 0 <= j < s.n ensures s.latencies[j] == Elapsed(s.stamps[j], s.arrivals[j]) {
      LatencyOfStampedMessage(s.stamps[j], s.arrivals[j]);
    }
  }
}
