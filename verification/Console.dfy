/** The console's telemetry state, and the receiver's drop reports. */
module Console {
  import opened Newest
  import opened Options

  const STALE_MS: int := 2800
  const MAX_RECORDS: nat := 60
  const RATE_BUF: nat := 30
  const MAX_REPLIES: nat := 30

  /** What the console reads of a packet record; `id` stands for the rest of it. */
  datatype Record = Record(id: nat, bootId: nat, seqNo: int, crcOk: bool, recvTs: real, qTotal: int)

  datatype Reply = Reply(id: nat)

  datatype ConnState = Connecting | Live | IsStale | CrcFail | Disconnected

  datatype Sample = Sample(t: real, q: int)

  datatype State = State(conn: ConnState, latest: Option<Record>, lastAny: Option<Record>, records: seq<Record>,
                         dropped: nat, lastSeq: Option<int>, lastArrival: int, rateBuf: seq<Sample>,
                         replies: seq<Reply>)

  const INITIAL: State := State(Connecting, None, None, [], 0, None, 0, [], [])

  /** What reaches the state: a packet or a reply at a client time in milliseconds, a tick of the
      watchdog, or the end of the stream. */
  datatype Event = Packet(rec: Record, now: int) | ReplyArrives(reply: Reply) | Tick(now: int) | StreamError

  function SampleOf(rec: Record, now: int): (s: Sample) {
    Sample(if rec.recvTs != 0.0 then rec.recvTs else now as real / 1000.0, rec.qTotal)
  }

  /** Put in front, then drop the last beyond the limit. */
  function Unshifted<T>(ring: seq<T>, item: T, limit: nat): (ring': seq<T>) {
    var all := [item] + ring;
    if |all| > limit then all[..|all| - 1] else all
  }

  function DroppedWith(s: State, rec: Record): (dropped: nat) {
    if s.latest.Some? && rec.bootId == s.latest.value.bootId && s.lastSeq.Some? then
      var gap := rec.seqNo - s.lastSeq.value - 1;
      if gap > 0 then s.dropped + gap else s.dropped
    else if s.latest.Some? && rec.bootId != s.latest.value.bootId then 0
    else s.dropped
  }

  function Step(s: State, e: Event): (s': State) {
    match e
    case ReplyArrives(reply) => s.(replies := Pushed(s.replies, reply, MAX_REPLIES))
    case Tick(now) => if s.conn == Live && now - s.lastArrival > STALE_MS then s.(conn := IsStale) else s
    case StreamError => s.(conn := Disconnected)
    case Packet(rec, now) =>
      var seen := s.(lastAny := Some(rec), records := Unshifted(s.records, rec, MAX_RECORDS));
      if !rec.crcOk then seen.(conn := CrcFail)
      else
        seen.(dropped := DroppedWith(s, rec), lastSeq := Some(rec.seqNo), latest := Some(rec),
              lastArrival := now, conn := Live, rateBuf := Pushed(s.rateBuf, SampleOf(rec, now), RATE_BUF))
  }

  class Telemetry {
    var conn: ConnState
    var latest: Option<Record>
    var lastAny: Option<Record>
    var records: seq<Record>
    var droppedPackets: nat
    var lastSeq: Option<int>
    var lastArrival: int
    var rateBuf: seq<Sample>
    var replies: seq<Reply>

    ghost function Abs(): (s: State)
      reads this
    {
      State(conn, latest, lastAny, records, droppedPackets, lastSeq, lastArrival, rateBuf, replies)
    }

    constructor ()
      ensures Abs() == INITIAL
    {
      conn, latest, lastAny, records := Connecting, None, None, [];
      droppedPackets, lastSeq, lastArrival, rateBuf, replies := 0, None, 0, [], [];
    }

    method IngestReply(reply: Reply)
      modifies this`replies
      ensures Abs() == Step(old(Abs()), ReplyArrives(reply))
    {
      replies := replies + [reply];
      if |replies| > MAX_REPLIES {
        replies := replies[1..];
      }
    }

    method PushRecord(rec: Record)
      modifies this`records
      ensures records == Unshifted(old(records), rec, MAX_RECORDS)
    {
      records := [rec] + records;
      if |records| > MAX_RECORDS {
        records := records[..|records| - 1];
      }
    }

    method Ingest(rec: Record, now: int)
      modifies this
      ensures Abs() == Step(old(Abs()), Packet(rec, now))
    {
      lastAny := Some(rec);
      if !rec.crcOk {
        conn := CrcFail;
        PushRecord(rec);
        return;
      }
      if latest.Some? && rec.bootId == latest.value.bootId && lastSeq.Some? {
        var gap := rec.seqNo - lastSeq.value - 1;
        if gap > 0 {
          droppedPackets := droppedPackets + gap;
        }
      } else if latest.Some? && rec.bootId != latest.value.bootId {
        droppedPackets := 0;
      }
      lastSeq := Some(rec.seqNo);
      latest := Some(rec);
      lastArrival := now;
      conn := Live;
      rateBuf := rateBuf + [SampleOf(rec, now)];
      if |rateBuf| > RATE_BUF {
        rateBuf := rateBuf[1..];
      }
      PushRecord(rec);
    }

    method Watchdog(now: int)
      modifies this`conn
      ensures Abs() == Step(old(Abs()), Tick(now))
    {
      if conn == Live && now - lastArrival > STALE_MS {
        conn := IsStale;
      }
    }
  }

  // --------------------------------------------------------------------------------------------
  // The receiver's drop reports

  datatype Drop = Drop(bootId: nat, count: nat)

  /** One turn of the receiver's loop on a decoded packet: the last sequence number of each boot, and
      the reports so far. */
  function Received(lastSeq: map<nat, int>, drops: seq<Drop>, rec: Record): (r: (map<nat, int>, seq<Drop>)) {
    if !rec.crcOk then (lastSeq, drops)
    else
      (lastSeq[rec.bootId := rec.seqNo],
       if rec.bootId in lastSeq && rec.seqNo > lastSeq[rec.bootId] + 1
       then drops + [Drop(rec.bootId, rec.seqNo - lastSeq[rec.bootId] - 1)]
       else drops)
  }

  function ReceivedAll(recs: seq<Record>): (r: (map<nat, int>, seq<Drop>)) {
    if recs == [] then (map[], [])
    else
      var before := ReceivedAll(recs[..|recs| - 1]);
      Received(before.0, before.1, recs[|recs| - 1])
  }

  /** The loop of `_run_live_stdout` over the packets it could decode. */
  method RunLiveStdout(recs: seq<Record>) returns (drops: seq<Drop>)
    ensures drops == ReceivedAll(recs).1
  {
    var lastSeq: map<nat, int> := map[];
    drops := [];
    for i := 0 to |recs|
      invariant (lastSeq, drops) == ReceivedAll(recs[..i])
    {
      assert recs[..i + 1][..i] == recs[..i];
      var d := recs[i];
      if !d.crcOk {
        continue;
      }
      if d.bootId in lastSeq && d.seqNo > lastSeq[d.bootId] + 1 {
        drops := drops + [Drop(d.bootId, d.seqNo - lastSeq[d.bootId] - 1)];
      }
      lastSeq := lastSeq[d.bootId := d.seqNo];
    }
    assert recs[..|recs|] == recs;
  }
}
