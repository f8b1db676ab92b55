/** Progress of the two spinning threads: every fair execution finishes. */
module RingProgress {
  import opened Ring
  import opened RingThreads
  import opened Sets

  /** How many of its own steps the producer is from its next commit, if the ring is not full. */
  ghost function ProducerRank(s: State): nat {
    match s.producer
    case PStamp => |ALL_BYTES| + 3
    case PLoadHead => |ALL_BYTES| + 2
    case PLoadTail(_) => |ALL_BYTES| + 1
    case PCopy(_, _, copied) => |ALL_BYTES - copied|
    case PReturned => 0
  }

  /** How many of its own steps the consumer is from its next commit, if the ring is not empty. */
  ghost function ConsumerRank(s: State): nat {
    match s.consumer
    case CRecord => |ALL_BYTES| + 3
    case CLoadTail => |ALL_BYTES| + 2
    case CLoadHead(_) => |ALL_BYTES| + 1
    case CCopy(_, copied) => |ALL_BYTES - copied|
    case CReturned => 0
  }

  lemma {:induction false} OneByteLess(copied: set<nat>, k: nat)
    requires k in ALL_BYTES && k !in copied
    ensures |ALL_BYTES - (copied + {k})| < |ALL_BYTES - copied| <= |ALL_BYTES|
  {
    assert ALL_BYTES - (copied + {k}) == (ALL_BYTES - copied) - {k};
    SubsetSize(ALL_BYTES - copied, ALL_BYTES);
  }

  lemma {:induction false} ProducerStepRanks(s: State, step: Step)
    requires SharedInv(s) && ProducerInv(s) && Enabled(s, step) && step.OfProducer()
    requires |s.pushed| < |s.popped| + CAPACITY
    ensures var s' := Apply(s, step);
            || (|s'.pushed| == |s.pushed| + 1 && s'.popped == s.popped)
            || (s'.pushed == s.pushed && s'.popped == s.popped && ProducerRank(s') < ProducerRank(s))
  {
    match step
    case ProducerCopies(k) => OneByteLess(s.producer.copied, k);
    case ProducerLoadsTail => assert ALL_BYTES - {} == ALL_BYTES;
    case _ =>
  }

  lemma {:induction false} ConsumerStepRanks(s: State, step: Step)
    requires SharedInv(s) && ConsumerInv(s) && Enabled(s, step) && !step.OfProducer()
    requires |s.popped| < |s.pushed|
    ensures var s' := Apply(s, step);
            || (|s'.popped| == |s.popped| + 1 && s'.pushed == s.pushed)
            || (s'.pushed == s.pushed && s'.popped == s.popped && ConsumerRank(s') < ConsumerRank(s))
  {
    match step
    case ConsumerCopies(k) => OneByteLess(s.consumer.copied, k);
    case ConsumerLoadsHead => assert ALL_BYTES - {} == ALL_BYTES;
    case _ =>
  }

  /** A step of one thread changes neither the other's place nor its count. */
  lemma {:induction false} StepLeavesTheOther(s: State, step: Step)
    requires Enabled(s, step)
    ensures var s' := Apply(s, step);
            && s'.n == s.n
            && |s.pushed| <= |s'.pushed| && |s.popped| <= |s'.popped|
            && (step.OfProducer() ==> s'.consumer == s.consumer && s'.popped == s.popped)
            && (!step.OfProducer() ==> s'.producer == s.producer && s'.pushed == s.pushed)
  {
  }

  // --------------------------------------------------------------------------------------------
  // Infinite executions

  /** At time `k` the scheduler picks one enabled step; a finished program stays as it is. */
  ghost predicate StepAt(tr: nat -> State, sc: nat -> Step, k: nat) {
    if tr(k).Finished() then tr(k + 1) == tr(k)
    else Enabled(tr(k), sc(k)) && tr(k + 1) == Apply(tr(k), sc(k))
  }

  ghost predicate Execution(tr: nat -> State, sc: nat -> Step) {
    forall k: nat :: StepAt(tr, sc, k)
  }

  ghost predicate ProducerTurn(tr: nat -> State, sc: nat -> Step, k: nat, j: nat) {
    k <= j && (tr(j).producer.PReturned? || sc(j).OfProducer())
  }

  ghost predicate ConsumerTurn(tr: nat -> State, sc: nat -> Step, k: nat, j: nat) {
    k <= j && (tr(j).consumer.CReturned? || !sc(j).OfProducer())
  }

  ghost predicate ProducerRunsAgain(tr: nat -> State, sc: nat -> Step, k: nat) {
    exists j: nat :: ProducerTurn(tr, sc, k, j)
  }

  ghost predicate ConsumerRunsAgain(tr: nat -> State, sc: nat -> Step, k: nat) {
    exists j: nat :: ConsumerTurn(tr, sc, k, j)
  }

  /** Neither thread is starved for ever. */
  ghost predicate Fair(tr: nat -> State, sc: nat -> Step) {
    forall k: nat :: ProducerRunsAgain(tr, sc, k) && ConsumerRunsAgain(tr, sc, k)
  }

  lemma {:induction false} ProducerAdvances(tr: nat -> State, sc: nat -> Step, before: seq<Time>, k: nat, j: nat)
    returns (m: nat)
    requires Execution(tr, sc) && Fair(tr, sc)
    requires Inv(tr(k), before) && ProducerTurn(tr, sc, k, j)
    requires |tr(k).pushed| < tr(k).n && |tr(k).pushed| < |tr(k).popped| + CAPACITY
    ensures m > k && Inv(tr(m), before) && tr(m).n == tr(k).n
    ensures |tr(m).pushed| > |tr(k).pushed| && |tr(m).popped| >= |tr(k).popped|
    decreases ProducerRank(tr(k)), j - k
  {
    assert StepAt(tr, sc, k);
    var s, step := tr(k), sc(k);
    StepKeepsInv(s, step, before);
    StepLeavesTheOther(s, step);
    if step.OfProducer() {
      ProducerStepRanks(s, step);
      if |tr(k + 1).pushed| > |s.pushed| {
        return k + 1;
      }
      assert ProducerRunsAgain(tr, sc, k + 1);
      var j' :| ProducerTurn(tr, sc, k + 1, j');
      m := ProducerAdvances(tr, sc, before, k + 1, j');
    } else {
      assert j != k;
      assert ProducerTurn(tr, sc, k + 1, j);
      m := ProducerAdvances(tr, sc, before, k + 1, j);
    }
  }

  lemma {:induction false} ConsumerAdvances(tr: nat -> State, sc: nat -> Step, before: seq<Time>, k: nat, j: nat)
    returns (m: nat)
    requires Execution(tr, sc) && Fair(tr, sc)
    requires Inv(tr(k), before) && ConsumerTurn(tr, sc, k, j)
    requires |tr(k).popped| < |tr(k).pushed|
    ensures m > k && Inv(tr(m), before) && tr(m).n == tr(k).n
    ensures |tr(m).popped| > |tr(k).popped| && |tr(m).pushed| >= |tr(k).pushed|
    decreases ConsumerRank(tr(k)), j - k
  {
    assert StepAt(tr, sc, k);
    var s, step := tr(k), sc(k);
    StepKeepsInv(s, step, before);
    StepLeavesTheOther(s, step);
    if !step.OfProducer() {
      ConsumerStepRanks(s, step);
      if |tr(k + 1).popped| > |s.popped| {
        return k + 1;
      }
      assert ConsumerRunsAgain(tr, sc, k + 1);
      var j' :| ConsumerTurn(tr, sc, k + 1, j');
      m := ConsumerAdvances(tr, sc, before, k + 1, j');
    } else {
      assert j != k;
      assert ConsumerTurn(tr, sc, k + 1, j);
      m := ConsumerAdvances(tr, sc, before, k + 1, j);
    }
  }

  lemma {:induction false} FinishesFrom(tr: nat -> State, sc: nat -> Step, before: seq<Time>, k: nat)
    returns (m: nat)
    requires Execution(tr, sc) && Fair(tr, sc) && Inv(tr(k), before)
    ensures m >= k && Inv(tr(m), before) && tr(m).Finished()
    decreases (tr(k).n - |tr(k).pushed|) + (tr(k).n - |tr(k).popped|)
  {
    var s := tr(k);
    if |s.popped| == s.n {
      // The producer has returned, so the step taken, if any, records the last latency.
      assert StepAt(tr, sc, k);
      m := if s.Finished() then k else k + 1;
      if !s.Finished() {
        StepKeepsInv(s, sc(k), before);
      }
    } else if |s.popped| < |s.pushed| {
      assert ConsumerRunsAgain(tr, sc, k);
      var j :| ConsumerTurn(tr, sc, k, j);
      var k' := ConsumerAdvances(tr, sc, before, k, j);
      m := FinishesFrom(tr, sc, before, k');
    } else {
      assert ProducerRunsAgain(tr, sc, k);
      var j :| ProducerTurn(tr, sc, k, j);
      var k' := ProducerAdvances(tr, sc, before, k, j);
      m := FinishesFrom(tr, sc, before, k');
    }
  }

  /** For any message count and any fair schedule both threads return, with every message popped in
      order, every latency recorded, and the ring empty. */
  lemma {:induction false} FairExecutionsFinish(tr: nat -> State, sc: nat -> Step,
                             n: nat, latencies: seq<Time>, garbage: Message)
    requires n <= |latencies|
    requires tr(0) == Start(n, latencies, garbage)
    requires Execution(tr, sc) && Fair(tr, sc)
    ensures exists m: nat ::
              && tr(m).Finished() && tr(m).n == n
              && tr(m).popped == tr(m).pushed && |tr(m).popped| == n
              && tr(m).head == tr(m).tail
              && Inv(tr(m), latencies)
  {
    StartEstablishesInv(n, latencies, garbage);
    var m := FinishesFrom(tr, sc, latencies, 0);
    AtTheEnd(tr(m), latencies);
    CountIsFixed(tr, sc, m);
  }

  lemma {:induction false} CountIsFixed(tr: nat -> State, sc: nat -> Step, m: nat)
    requires Execution(tr, sc)
    ensures tr(m).n == tr(0).n
  {
    if m > 0 {
      CountIsFixed(tr, sc, m - 1);
      assert StepAt(tr, sc, m - 1);
    }
  }
}
