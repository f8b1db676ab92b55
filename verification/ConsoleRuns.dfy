/** What every stream of events leaves in the console. */
module ConsoleRuns {
  import opened Console
  import opened Newest
  import opened Options

  function Run(events: seq<Event>): (s: State) {
    if events == [] then INITIAL else Step(Run(events[..|events| - 1]), events[|events| - 1])
  }

  /** The packets of a stream, and the ones whose checksum holds. */
  function Packets(events: seq<Event>): (recs: seq<Record>) {
    if events == [] then []
    else
      var e := events[|events| - 1];
      Packets(events[..|events| - 1]) + if e.Packet? then [e.rec] else []
  }

  function Valid(recs: seq<Record>): (valid: seq<Record>)
    ensures forall r :: r in valid ==> r.crcOk
  {
    if recs == [] then []
    else
      var r := recs[|recs| - 1];
      Valid(recs[..|recs| - 1]) + if r.crcOk then [r] else []
  }

  function Replies(events: seq<Event>): (replies: seq<Reply>) {
    if events == [] then []
    else
      var e := events[|events| - 1];
      Replies(events[..|events| - 1]) + if e.ReplyArrives? then [e.reply] else []
  }

  function Samples(events: seq<Event>): (samples: seq<Sample>) {
    if events == [] then []
    else
      var e := events[|events| - 1];
      Samples(events[..|events| - 1]) + if e.Packet? && e.rec.crcOk then [SampleOf(e.rec, e.now)] else []
  }

  // --------------------------------------------------------------------------------------------
  // The rings

  function Reversed<T>(s: seq<T>): (r: seq<T>)
    ensures |r| == |s| && forall i :: 0 <= i < |s| ==> r[i] == s[|s| - 1 - i]
  {
    seq(|s|, i requires 0 <= i < |s| => s[|s| - 1 - i])
  }

  lemma {:induction false} UnshiftedIsNewest<T>(all: seq<T>, item: T, limit: nat)
    requires limit > 0
    ensures Unshifted(Reversed(Last(all, limit)), item, limit) == Reversed(Last(all + [item], limit))
  {
  }

  lemma {:induction false} RecordsAreTheNewest(events: seq<Event>)
    ensures Run(events).records == Reversed(Last(Packets(events), MAX_RECORDS))
  {
    if events != [] {
      var front, e := events[..|events| - 1], events[|events| - 1];
      RecordsAreTheNewest(front);
      if e.Packet? {
        UnshiftedIsNewest(Packets(front), e.rec, MAX_RECORDS);
      }
    }
  }

  lemma {:induction false} SamplesAreTheNewest(events: seq<Event>)
    ensures Run(events).rateBuf == Last(Samples(events), RATE_BUF)
  {
    if events != [] {
      var front, e := events[..|events| - 1], events[|events| - 1];
      SamplesAreTheNewest(front);
      if e.Packet? {
        PushedIsLast(Samples(front), SampleOf(e.rec, e.now), RATE_BUF);
      }
    }
  }

  lemma {:induction false} RepliesAreTheNewest(events: seq<Event>)
    ensures Run(events).replies == Last(Replies(events), MAX_REPLIES)
  {
    if events != [] {
      var front, e := events[..|events| - 1], events[|events| - 1];
      RepliesAreTheNewest(front);
      if e.ReplyArrives? {
        PushedIsLast(Replies(front), e.reply, MAX_REPLIES);
      }
    }
  }

  /** Whatever is interleaved, the activity feed is exactly the newest 60 packets, newest first and
      corrupt ones included; the rate buffer the newest 30 samples of valid packets; and the reply
      ring the newest 30 replies. */
  lemma {:induction false} RingsAreTheNewest(events: seq<Event>)
    ensures Run(events).records == Reversed(Last(Packets(events), MAX_RECORDS))
    ensures Run(events).rateBuf == Last(Samples(events), RATE_BUF)
    ensures Run(events).replies == Last(Replies(events), MAX_REPLIES)
  {
    RecordsAreTheNewest(events);
    SamplesAreTheNewest(events);
    RepliesAreTheNewest(events);
  }

  // --------------------------------------------------------------------------------------------
  // The dropped count

  /** The gap before the packet at `i`, if it is a gap. */
  function Gap(vs: seq<Record>, i: nat): (n: nat)
    requires 0 < i < |vs|
  {
    if vs[i].seqNo > vs[i - 1].seqNo + 1 then vs[i].seqNo - vs[i - 1].seqNo - 1 else 0
  }

  /** Where the current boot began: the packet after the last change of boot. */
  function BootStart(vs: seq<Record>): (f: nat)
    requires vs != []
    ensures f < |vs|
  {
    var n := |vs|;
    if n > 1 && vs[n - 2].bootId == vs[n - 1].bootId then BootStart(vs[..n - 1]) else n - 1
  }

  lemma {:induction false} BootStartBegins(vs: seq<Record>)
    requires vs != []
    ensures var f := BootStart(vs);
            && (forall i :: f <= i < |vs| ==> vs[i].bootId == vs[|vs| - 1].bootId)
            && (f > 0 ==> vs[f - 1].bootId != vs[f].bootId)
  {
    var n := |vs|;
    if n > 1 && vs[n - 2].bootId == vs[n - 1].bootId {
      BootStartBegins(vs[..n - 1]);
      assert forall i :: 0 <= i < n - 1 ==> vs[..n - 1][i] == vs[i];
    }
  }

  /** The gaps since the current boot began. */
  function GapsFrom(vs: seq<Record>, f: nat): (n: nat)
    requires f < |vs|
    decreases |vs|
  {
    if f == |vs| - 1 then 0 else GapsFrom(vs[..|vs| - 1], f) + Gap(vs, |vs| - 1)
  }

  /** The console's account of the valid packets. */
  ghost predicate Accounts(s: State, vs: seq<Record>) {
    if vs == [] then s.latest == None && s.lastSeq == None && s.dropped == 0
    else
      && s.latest == Some(vs[|vs| - 1]) && s.lastSeq == Some(vs[|vs| - 1].seqNo)
      && s.dropped == GapsFrom(vs, BootStart(vs))
  }

  lemma {:induction false} AccountsForOneMore(s: State, vs: seq<Record>, rec: Record, now: int)
    requires Accounts(s, vs) && rec.crcOk
    ensures Accounts(Step(s, Packet(rec, now)), vs + [rec])
  {
    var more := vs + [rec];
    assert more[..|vs|] == vs;
    if vs != [] && vs[|vs| - 1].bootId == rec.bootId {
      assert BootStart(more) == BootStart(vs);
      assert GapsFrom(more, BootStart(more)) == GapsFrom(vs, BootStart(vs)) + Gap(more, |vs|);
    }
  }

  lemma {:induction false} AccountsUnlessValid(s: State, vs: seq<Record>, e: Event)
    requires Accounts(s, vs) && !(e.Packet? && e.rec.crcOk)
    ensures Accounts(Step(s, e), vs)
  {
  }

  lemma {:induction false} ValidOfEvents(events: seq<Event>)
    requires events != []
    ensures var front, e := events[..|events| - 1], events[|events| - 1];
            Valid(Packets(events)) ==
            if e.Packet? && e.rec.crcOk then Valid(Packets(front)) + [e.rec] else Valid(Packets(front))
  {
    var front, e := events[..|events| - 1], events[|events| - 1];
    if e.Packet? {
      ValidOfOneMore(Packets(front), e.rec);
    } else {
      assert Packets(events) == Packets(front);
    }
  }

  /** What the console holds of the valid packets, whatever corrupt packets, replies, ticks and errors
      are interleaved with them. */
  lemma {:induction false} ConsoleHoldsValidPackets(events: seq<Event>)
    ensures Accounts(Run(events), Valid(Packets(events)))
  {
    if events != [] {
      var front, e := events[..|events| - 1], events[|events| - 1];
      ConsoleHoldsValidPackets(front);
      ValidOfEvents(events);
      if e.Packet? && e.rec.crcOk {
        AccountsForOneMore(Run(front), Valid(Packets(front)), e.rec, e.now);
      } else {
        AccountsUnlessValid(Run(front), Valid(Packets(front)), e);
      }
    }
  }

  lemma {:induction false} ValidOfOneMore(recs: seq<Record>, r: Record)
    ensures Valid(recs + [r]) == Valid(recs) + if r.crcOk then [r] else []
    ensures !r.crcOk ==> Valid(recs + [r]) == Valid(recs)
  {
    assert (recs + [r])[..|recs|] == recs;
  }

  /** The displayed record is always one whose checksum held, and the newest of them. */
  lemma {:induction false} LatestIsValid(events: seq<Event>)
    ensures var s, vs := Run(events), Valid(Packets(events));
            && (s.latest.Some? <==> vs != [])
            && (s.latest.Some? ==> s.latest.value == vs[|vs| - 1] && s.latest.value.crcOk)
  {
    ConsoleHoldsValidPackets(events);
    var vs := Valid(Packets(events));
    if vs != [] {
      assert vs[|vs| - 1] in vs;
    }
  }

  predicate Increasing(vs: seq<Record>, f: nat) {
    forall i :: f < i < |vs| ==> vs[i - 1].seqNo < vs[i].seqNo
  }

  lemma {:induction false} GapsCountMissingIff(vs: seq<Record>, f: nat)
    requires f < |vs|
    ensures GapsFrom(vs, f) >= vs[|vs| - 1].seqNo - vs[f].seqNo + 1 - (|vs| - f)
    ensures GapsFrom(vs, f) == vs[|vs| - 1].seqNo - vs[f].seqNo + 1 - (|vs| - f) <==> Increasing(vs, f)
    decreases |vs|
  {
    if f < |vs| - 1 {
      var front := vs[..|vs| - 1];
      GapsCountMissingIff(front, f);
      assert Increasing(vs, f) <==> Increasing(front, f) && vs[|vs| - 2].seqNo < vs[|vs| - 1].seqNo by {
        assert forall i :: 0 <= i < |front| ==> front[i] == vs[i];
        if Increasing(vs, f) {
          forall i | f < i < |front| ensures front[i - 1].seqNo < front[i].seqNo {
            assert vs[i - 1].seqNo < vs[i].seqNo;
          }
        }
      }
    }
  }

  /** Within a boot, the dropped count is the last sequence number less the first plus one, less the
      valid packets received, exactly if the sequence numbers strictly increased; else it is more. */
  lemma {:induction false} DroppedCountsMissingIff(events: seq<Event>)
    requires Valid(Packets(events)) != []
    ensures var vs := Valid(Packets(events));
            var f, last := BootStart(vs), |vs| - 1;
            var missing := vs[last].seqNo - vs[f].seqNo + 1 - (|vs| - f);
            && Run(events).dropped >= missing
            && (Run(events).dropped == missing <==> Increasing(vs, f))
  {
    ConsoleHoldsValidPackets(events);
    var vs := Valid(Packets(events));
    GapsCountMissingIff(vs, BootStart(vs));
  }

  // --------------------------------------------------------------------------------------------
  // The receiver's reports

  function DropSum(drops: seq<Drop>, boot: nat): (n: nat) {
    if drops == [] then 0
    else
      DropSum(drops[..|drops| - 1], boot)
      + if drops[|drops| - 1].bootId == boot then drops[|drops| - 1].count else 0
  }

  lemma {:induction false} DropSumAppend(drops: seq<Drop>, d: Drop, boot: nat)
    ensures DropSum(drops + [d], boot) == DropSum(drops, boot) + if d.bootId == boot then d.count else 0
  {
    assert (drops + [d])[..|drops|] == drops;
  }

  /** Corrupt packets change nothing at the receiver. */
  lemma {:induction false} ReceiverIgnoresCorrupt(recs: seq<Record>)
    ensures ReceivedAll(recs) == ReceivedAll(Valid(recs))
  {
    if recs != [] {
      var front, r := recs[..|recs| - 1], recs[|recs| - 1];
      ReceiverIgnoresCorrupt(front);
      if r.crcOk {
        assert (Valid(front) + [r])[..|Valid(front)|] == Valid(front);
      } else {
        assert Valid(recs) == Valid(front);
      }
    }
  }

  lemma {:induction false} ReceiverRemembers(vs: seq<Record>, boot: nat)
    requires forall r :: r in vs ==> r.crcOk
    ensures boot in ReceivedAll(vs).0 <==> exists i :: 0 <= i < |vs| && vs[i].bootId == boot
    ensures vs != [] ==> vs[|vs| - 1].bootId in ReceivedAll(vs).0
                         && ReceivedAll(vs).0[vs[|vs| - 1].bootId] == vs[|vs| - 1].seqNo
  {
    if vs != [] {
      var front, r := vs[..|vs| - 1], vs[|vs| - 1];
      ReceiverRemembers(front, boot);
      assert r in vs;
      assert forall i :: 0 <= i < |front| ==> front[i] == vs[i];
      if boot in ReceivedAll(front).0 {
        var i :| 0 <= i < |front| && front[i].bootId == boot;
        assert vs[i].bootId == boot;
      }
    }
  }

  lemma {:induction false} ReportOfNext(front: seq<Record>, r: Record)
    requires front != [] && r.crcOk && front[|front| - 1].bootId == r.bootId
    requires forall q :: q in front ==> q.crcOk
    ensures DropSum(ReceivedAll(front + [r]).1, r.bootId) ==
            DropSum(ReceivedAll(front).1, r.bootId) + Gap(front + [r], |front|)
  {
    var vs := front + [r];
    assert vs[..|front|] == front;
    ReceiverRemembers(front, r.bootId);
    DropSumAppend(ReceivedAll(front).1, Drop(r.bootId, Gap(vs, |front|)), r.bootId);
  }

  lemma {:induction false} StartOfMore(front: seq<Record>, r: Record)
    requires front != [] && front[|front| - 1].bootId == r.bootId
    ensures var vs := front + [r];
            && BootStart(vs) == BootStart(front) && vs[..BootStart(vs) + 1] == front[..BootStart(front) + 1]
            && GapsFrom(vs, BootStart(vs)) == GapsFrom(front, BootStart(front)) + Gap(vs, |front|)
  {
    assert (front + [r])[..|front|] == front;
  }

  /** What the receiver has reported for the current boot, but for its first packet. */
  ghost predicate Reported(vs: seq<Record>)
    requires vs != []
  {
    var f, boot := BootStart(vs), vs[|vs| - 1].bootId;
    DropSum(ReceivedAll(vs).1, boot) == DropSum(ReceivedAll(vs[..f + 1]).1, boot) + GapsFrom(vs, f)
  }

  lemma {:induction false} ReportedWithOneMore(front: seq<Record>, r: Record)
    requires front != [] && r.crcOk && front[|front| - 1].bootId == r.bootId
    requires forall q :: q in front ==> q.crcOk
    requires Reported(front)
    ensures Reported(front + [r])
  {
    ReportOfNext(front, r);
    StartOfMore(front, r);
  }

  /** Since the current boot began, the receiver has reported for it exactly the console's count. */
  lemma {:induction false} ReportsSinceStart(vs: seq<Record>)
    requires vs != [] && forall r :: r in vs ==> r.crcOk
    ensures Reported(vs)
  {
    var n := |vs|;
    if n > 1 && vs[n - 2].bootId == vs[n - 1].bootId {
      var front, r := vs[..n - 1], vs[n - 1];
      assert vs == front + [r] && r in vs;
      ReportsSinceStart(front);
      ReportedWithOneMore(front, r);
    } else {
      assert vs[..n] == vs;
    }
  }

  /** Where a boot's newest packet is, or -1. */
  function LastOf(vs: seq<Record>, boot: nat): (j: int)
    ensures -1 <= j < |vs|
    ensures j >= 0 ==> vs[j].bootId == boot
    ensures forall k :: j < k < |vs| ==> vs[k].bootId != boot
  {
    if vs == [] then -1
    else if vs[|vs| - 1].bootId == boot then |vs| - 1
    else LastOf(vs[..|vs| - 1], boot)
  }

  /** The packet at `i` skips no sequence number after its boot's packet before it, if there is one. */
  predicate Follows(vs: seq<Record>, i: nat)
    requires i < |vs|
  {
    var j := LastOf(vs[..i], vs[i].bootId);
    j >= 0 ==> vs[i].seqNo <= vs[j].seqNo + 1
  }

  /** No packet of a boot skips a sequence number after the boot's packet before it, whatever other
      boots' packets are between them. */
  predicate InStep(vs: seq<Record>, boot: nat) {
    forall i :: 0 <= i < |vs| && vs[i].bootId == boot ==> Follows(vs, i)
  }

  lemma {:induction false} InStepOfMore(front: seq<Record>, r: Record, boot: nat)
    ensures InStep(front + [r], boot) <==> InStep(front, boot) && (r.bootId == boot ==> Follows(front + [r], |front|))
  {
    var vs := front + [r];
    forall i | 0 <= i < |front| ensures Follows(vs, i) == Follows(front, i) {
      assert vs[..i] == front[..i];
    }
    if InStep(vs, boot) {
      forall i | 0 <= i < |front| && front[i].bootId == boot ensures Follows(front, i) {
        assert Follows(vs, i);
      }
    }
  }

  /** The receiver's last sequence number of a boot is that of the boot's newest packet. */
  lemma {:induction false} ReceiverRemembersLast(vs: seq<Record>, boot: nat)
    requires forall r :: r in vs ==> r.crcOk
    ensures boot in ReceivedAll(vs).0 <==> LastOf(vs, boot) >= 0
    ensures LastOf(vs, boot) >= 0 ==> ReceivedAll(vs).0[boot] == vs[LastOf(vs, boot)].seqNo
  {
    if vs != [] {
      assert vs[|vs| - 1] in vs;
      ReceiverRemembersLast(vs[..|vs| - 1], boot);
    }
  }

  /** The receiver has reported nothing for a boot exactly if its packets never skipped a number. */
  lemma {:induction false} NothingReportedIff(vs: seq<Record>, boot: nat)
    requires forall r :: r in vs ==> r.crcOk
    ensures DropSum(ReceivedAll(vs).1, boot) == 0 <==> InStep(vs, boot)
  {
    if vs != [] {
      var front, r := vs[..|vs| - 1], vs[|vs| - 1];
      assert vs == front + [r] && r in vs && vs[..|front|] == front;
      NothingReportedIff(front, boot);
      ReceiverRemembersLast(front, r.bootId);
      InStepOfMore(front, r, boot);
      var before := ReceivedAll(front);
      if r.bootId in before.0 && r.seqNo > before.0[r.bootId] + 1 {
        DropSumAppend(before.1, Drop(r.bootId, r.seqNo - before.0[r.bootId] - 1), boot);
      }
    }
  }

  lemma {:induction false} NewBootIsInStep(vs: seq<Record>, boot: nat)
    requires vs != [] && forall i :: 0 <= i < |vs| - 1 ==> vs[i].bootId != boot
    ensures InStep(vs, boot)
  {
    forall i | 0 <= i < |vs| && vs[i].bootId == boot ensures Follows(vs, i) {
      assert i == |vs| - 1;
    }
  }

  /** A count is the sum of the reports for the current boot exactly if none of the boot's packets up to
      where the count began skipped a number after the one before it; so it is whenever the boot was not
      seen before. */
  ghost predicate CountsReports(count: nat, drops: seq<Drop>, vs: seq<Record>)
    requires vs != []
  {
    var f, boot := BootStart(vs), vs[|vs| - 1].bootId;
    && count <= DropSum(drops, boot)
    && (count == DropSum(drops, boot) <==> InStep(vs[..f + 1], boot))
    && ((forall i :: 0 <= i < f ==> vs[i].bootId != boot) ==> count == DropSum(drops, boot))
  }

  lemma {:induction false} GapsCountReports(vs: seq<Record>)
    requires vs != [] && forall r :: r in vs ==> r.crcOk
    ensures CountsReports(GapsFrom(vs, BootStart(vs)), ReceivedAll(vs).1, vs)
  {
    var f, boot := BootStart(vs), vs[|vs| - 1].bootId;
    ReportsSinceStart(vs);
    NothingReportedIff(vs[..f + 1], boot);
    if forall i :: 0 <= i < f ==> vs[i].bootId != boot {
      NewBootIsInStep(vs[..f + 1], boot);
    }
  }

  /** The console's count is never more than the sum of the receiver's reports for the boot, and equal
      to it exactly if none of the boot's packets up to where the console last began to count skipped a
      number after the boot's packet before it. So they agree, in particular, whenever a boot's packets
      are not interleaved with another's. */
  lemma {:induction false} DroppedIsReportedIff(events: seq<Event>)
    requires Valid(Packets(events)) != []
    ensures CountsReports(Run(events).dropped, ReceivedAll(Packets(events)).1, Valid(Packets(events)))
  {
    ConsoleHoldsValidPackets(events);
    ReceiverIgnoresCorrupt(Packets(events));
    GapsCountReports(Valid(Packets(events)));
  }

  function ValidPacket(boot: nat, s: int): (e: Event) {
    Packet(Record(0, boot, s, true, 0.0, 0), 0)
  }

  lemma {:induction false} ThreeValidPackets(a: Event, b: Event, c: Event)
    requires a.Packet? && b.Packet? && c.Packet? && a.rec.crcOk && b.rec.crcOk && c.rec.crcOk
    ensures Packets([a, b, c]) == [a.rec, b.rec, c.rec] == Valid([a.rec, b.rec, c.rec])
  {
    OneMoreEvent([], a);
    OneMoreEvent([a], b);
    OneMoreEvent([a, b], c);
    assert [] + [a] == [a] && [a] + [b] == [a, b] && [a, b] + [c] == [a, b, c];
    ValidOfOneMore([], a.rec);
    ValidOfOneMore([a.rec], b.rec);
    ValidOfOneMore([a.rec, b.rec], c.rec);
    assert [] + [a.rec] == [a.rec] && [a.rec] + [b.rec] == [a.rec, b.rec];
    assert [a.rec, b.rec] + [c.rec] == [a.rec, b.rec, c.rec];
  }

  lemma {:induction false} ReceivedThree(a: Record, b: Record, c: Record)
    requires a.crcOk && b.crcOk && c.crcOk && a.bootId == c.bootId != b.bootId && c.seqNo > a.seqNo + 1
    ensures ReceivedAll([a, b, c]).1 == [Drop(a.bootId, c.seqNo - a.seqNo - 1)]
  {
    OneMoreReceived([], a);
    OneMoreReceived([a], b);
    OneMoreReceived([a, b], c);
    assert [] + [a] == [a] && [a] + [b] == [a, b] && [a, b] + [c] == [a, b, c];
  }

  /** Boot 1 sends 1, boot 2 sends 1, boot 1 sends 5: the console shows 0 dropped, the receiver has
      reported 3. */
  lemma {:induction false} InterleavedBootsDisagree()
    ensures var events := [ValidPacket(1, 1), ValidPacket(2, 1), ValidPacket(1, 5)];
            Run(events).dropped == 0 && ReceivedAll(Packets(events)).1 == [Drop(1, 3)]
  {
    var a, b, c := ValidPacket(1, 1), ValidPacket(2, 1), ValidPacket(1, 5);
    ThreeValidPackets(a, b, c);
    ReceivedThree(a.rec, b.rec, c.rec);
    ConsoleHoldsValidPackets([a, b, c]);
    var vs := [a.rec, b.rec, c.rec];
    assert BootStart(vs) == 2 && GapsFrom(vs, 2) == 0;
  }

  lemma {:induction false} OneMoreEvent(front: seq<Event>, e: Event)
    ensures Packets(front + [e]) == Packets(front) + if e.Packet? then [e.rec] else []
    ensures Run(front + [e]) == Step(Run(front), e)
  {
    assert (front + [e])[..|front|] == front;
  }

  lemma {:induction false} OneMoreReceived(front: seq<Record>, r: Record)
    ensures ReceivedAll(front + [r]) == Received(ReceivedAll(front).0, ReceivedAll(front).1, r)
  {
    assert (front + [r])[..|front|] == front;
  }

  // --------------------------------------------------------------------------------------------
  // Liveness

  /** Where the newest packet or end of the stream is, or -1. */
  function NewestAt(events: seq<Event>): (at: int)
    ensures -1 <= at < |events|
    ensures at >= 0 ==> events[at].Packet? || events[at].StreamError?
    ensures forall j :: at < j < |events| ==> events[j].ReplyArrives? || events[j].Tick?
  {
    if events == [] then -1
    else
      var last := |events| - 1;
      if events[last].Packet? || events[last].StreamError? then last else NewestAt(events[..last])
  }

  /** Some tick of the watchdog after event `at` found it too long ago. */
  ghost predicate FoundLate(events: seq<Event>, at: nat)
    requires at < |events| && events[at].Packet?
  {
    exists j | at < j < |events| :: events[j].Tick? && events[j].now - events[at].now > STALE_MS
  }

  /** The connection state over the whole history. */
  ghost function ConnOf(events: seq<Event>): (c: ConnState) {
    var at := NewestAt(events);
    if at < 0 then Connecting
    else if events[at].StreamError? then Disconnected
    else if !events[at].rec.crcOk then CrcFail
    else if FoundLate(events, at) then IsStale
    else Live
  }

  /** The connection shown depends on the newest packet or end of the stream alone, and a valid packet
      is live until a tick finds it late: a clock stepping back or a reply never revives it. */
  lemma {:induction false} ConnIsOfNewest(events: seq<Event>)
    ensures Run(events).conn == ConnOf(events)
    ensures ConnOf(events) == Live || ConnOf(events) == IsStale ==>
              NewestAt(events) >= 0 && Run(events).lastArrival == events[NewestAt(events)].now
  {
    if events != [] {
      var front, last := events[..|events| - 1], |events| - 1;
      ConnIsOfNewest(front);
      var at := NewestAt(front);
      if !events[last].Packet? && !events[last].StreamError? && at >= 0 && events[at].Packet? {
        LateWithOneMore(events, at);
      }
    }
  }

  lemma {:induction false} LateWithOneMore(events: seq<Event>, at: nat)
    requires at < |events| - 1 && events[at].Packet?
    ensures var last := |events| - 1;
            FoundLate(events, at) <==>
              FoundLate(events[..last], at)
              || (events[last].Tick? && events[last].now - events[at].now > STALE_MS)
  {
    var front, last := events[..|events| - 1], |events| - 1;
    if FoundLate(events, at) {
      var j :| at < j < |events| && events[j].Tick? && events[j].now - events[at].now > STALE_MS;
      assert j < last ==> front[j] == events[j];
    }
    if FoundLate(front, at) {
      var j :| at < j < |front| && front[j].Tick? && front[j].now - front[at].now > STALE_MS;
      assert events[j] == front[j];
    }
  }
}
