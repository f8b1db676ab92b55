/** Any number of threads sending through one `ControlSender`, under any clock.

    The lock is held from the allocation of a sequence number until its frame is on the wire or has
    failed; every move between two points of that section is a step of its own. */
module SenderRuns {
  import opened Digests
  import opened Options
  import opened Sender

  /** Where a thread stands: outside, or inside the locked section with or without its number. */
  datatype Place = Outside | Entered | Allocated(s: int) | Framed(s: int) | Leaving

  datatype Sys = Sys(lastSeq: int, owner: Option<nat>, threads: seq<Place>, wire: seq<int>)

  datatype Action =
    | Enter(t: nat)
    | Allocate(t: nat, now: int)
    | BuildFrame(t: nat, queryLen: nat)
    | Transmit(t: nat, reachesWire: bool)
    | Leave(t: nat)
    | TakeSeq(now: int)

  function Start(threads: nat): (s: Sys) {
    Sys(0, None, seq(threads, _ => Outside), [])
  }

  predicate Enabled(s: Sys, a: Action) {
    match a
    case Enter(t) => t < |s.threads| && s.threads[t].Outside? && s.owner.None?
    case Allocate(t, _) => t < |s.threads| && s.threads[t].Entered?
    case BuildFrame(t, _) => t < |s.threads| && s.threads[t].Allocated?
    case Transmit(t, _) => t < |s.threads| && s.threads[t].Framed?
    case Leave(t) => t < |s.threads| && s.threads[t].Leaving?
    case TakeSeq(_) => s.owner.None?
  }

  /** A frame that cannot be built and a transmit that fails both go straight to leaving the lock;
      a transmit that raises may or may not have reached the wire first. `TakeSeq` is a caller of
      `next_seq` that never sends. */
  function Apply(s: Sys, a: Action): (s': Sys)
    requires Enabled(s, a)
  {
    match a
    case Enter(t) => s.(owner := Some(t), threads := s.threads[t := Entered])
    case Allocate(t, now) =>
      var n := NextSeq(s.lastSeq, now);
      s.(lastSeq := n, threads := s.threads[t := Allocated(n)])
    case BuildFrame(t, queryLen) =>
      var n := s.threads[t].s;
      s.(threads := s.threads[t := if queryLen <= CONTROL_QUERY_MAX && n <= SEQ_MAX then Framed(n) else Leaving])
    case Transmit(t, reachesWire) =>
      s.(wire := if reachesWire then s.wire + [s.threads[t].s] else s.wire,
         threads := s.threads[t := Leaving])
    case Leave(t) => s.(owner := None, threads := s.threads[t := Outside])
    case TakeSeq(now) => s.(lastSeq := NextSeq(s.lastSeq, now))
  }

  predicate Schedulable(s: Sys, actions: seq<Action>)
    decreases |actions|
  {
    actions == [] || (Enabled(s, actions[0]) && Schedulable(Apply(s, actions[0]), actions[1..]))
  }

  function Run(s: Sys, actions: seq<Action>): (s': Sys)
    requires Schedulable(s, actions)
    decreases |actions|
  {
    if actions == [] then s else Run(Apply(s, actions[0]), actions[1..])
  }

  ghost predicate StrictlyIncreasing(xs: seq<int>) {
    forall i, j :: 0 <= i < j < |xs| ==> xs[i] < xs[j]
  }

  /** Only the owner is inside; a number handed out and not yet used is above everything sent. */
  ghost predicate Inv(s: Sys) {
    && s.lastSeq >= 0
    && StrictlyIncreasing(s.wire)
    && (forall i :: 0 <= i < |s.wire| ==> 1 <= s.wire[i] <= s.lastSeq)
    && (forall t :: 0 <= t < |s.threads| ==>
          && (s.threads[t].Outside? <==> s.owner != Some(t))
          && (s.threads[t].Allocated? || s.threads[t].Framed? ==>
                s.threads[t].s == s.lastSeq >= 1 && forall i :: 0 <= i < |s.wire| ==> s.wire[i] < s.lastSeq))
  }

  lemma {:induction false} ActionKeepsInv(s: Sys, a: Action)
    requires Inv(s) && Enabled(s, a)
    ensures Inv(Apply(s, a))
  {
  }

  lemma {:induction false} RunKeepsInv(s: Sys, actions: seq<Action>)
    requires Inv(s) && Schedulable(s, actions)
    ensures Inv(Run(s, actions))
    decreases |actions|
  {
    if actions != [] {
      ActionKeepsInv(s, actions[0]);
      RunKeepsInv(Apply(s, actions[0]), actions[1..]);
    }
  }

  // --------------------------------------------------------------------------------------------
  // The receiver's replay floor

  /** What a receiver does that rejects every number not above its floor and raises the floor to
      each number it accepts: the numbers it accepts. */
  function Accepted(floor: int, wire: seq<int>): (accepted: seq<int>)
    decreases |wire|
  {
    if wire == [] then []
    else if wire[0] <= floor then Accepted(floor, wire[1..])
    else [wire[0]] + Accepted(wire[0], wire[1..])
  }

  lemma {:induction false} AboveTheFloorAllAccepted(floor: int, wire: seq<int>)
    requires StrictlyIncreasing(wire)
    ensures Accepted(floor, wire) == wire <==> wire == [] || wire[0] > floor
    ensures |Accepted(floor, wire)| <= |wire|
    decreases |wire|
  {
    if wire != [] {
      AboveTheFloorAllAccepted(floor, wire[1..]);
      AboveTheFloorAllAccepted(wire[0], wire[1..]);
      assert wire == [wire[0]] + wire[1..];
    }
  }

  /** What is rejected is exactly a leading run of numbers at or below the floor. */
  lemma {:induction false} RejectionsAreAPrefix(floor: int, wire: seq<int>) returns (k: nat)
    requires StrictlyIncreasing(wire)
    ensures k <= |wire| && Accepted(floor, wire) == wire[k..]
    ensures forall i :: 0 <= i < k ==> wire[i] <= floor
    ensures forall i :: k <= i < |wire| ==> wire[i] > floor
    decreases |wire|
  {
    if wire == [] || wire[0] > floor {
      AboveTheFloorAllAccepted(floor, wire);
      k := 0;
    } else {
      var k' := RejectionsAreAPrefix(floor, wire[1..]);
      k := k' + 1;
      assert wire[1..][k'..] == wire[k..];
      forall i | 0 <= i < k ensures wire[i] <= floor {
        if i > 0 {
          assert wire[i] == wire[1..][i - 1];
        }
      }
      forall i | k <= i < |wire| ensures wire[i] > floor {
        assert wire[i] == wire[1..][i - 1];
      }
    }
  }

  /** With any number of threads, any clock and any failures, frames reach the wire in strictly
      increasing sequence order, so the receiver accepts every one of them exactly when the first is
      above its floor, and otherwise loses only the leading ones that are not. */
  lemma {:induction false} WireOrderIsSequenceOrder(threads: nat, actions: seq<Action>, floor: int)
    requires Schedulable(Start(threads), actions)
    ensures var wire := Run(Start(threads), actions).wire;
            && StrictlyIncreasing(wire)
            && (Accepted(floor, wire) == wire <==> wire == [] || wire[0] > floor)
            && (forall i :: 0 <= i < |wire| ==> (wire[i] in Accepted(floor, wire) <==> wire[i] > floor))
  {
    RunKeepsInv(Start(threads), actions);
    var wire := Run(Start(threads), actions).wire;
    AboveTheFloorAllAccepted(floor, wire);
    var k := RejectionsAreAPrefix(floor, wire);
    forall i | 0 <= i < |wire| ensures wire[i] in Accepted(floor, wire) <==> wire[i] > floor {
      if i >= k {
        assert wire[k..][i - k] == wire[i];
      }
    }
  }

  /** The lock admits one thread at a time, and a thread inside it can always go on to leave. */
  lemma {:induction false} LockIsExclusiveAndReleased(threads: nat, actions: seq<Action>, t: nat, u: nat)
    requires Schedulable(Start(threads), actions)
    requires t < |Run(Start(threads), actions).threads| && u < |Run(Start(threads), actions).threads|
    ensures var s := Run(Start(threads), actions);
            && (!s.threads[t].Outside? && !s.threads[u].Outside? ==> t == u)
            && (!s.threads[t].Outside? ==>
                  exists a: Action :: Enabled(s, a) && Apply(s, a).threads[t] != s.threads[t])
  {
    RunKeepsInv(Start(threads), actions);
    var s := Run(Start(threads), actions);
    if !s.threads[t].Outside? {
      var a := match s.threads[t]
        case Entered => Allocate(t, 0)
        case Allocated(_) => BuildFrame(t, 0)
        case Framed(_) => Transmit(t, true)
        case _ => Leave(t);
      assert Enabled(s, a) && Apply(s, a).threads[t] != s.threads[t];
    }
  }
}
