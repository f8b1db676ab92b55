/** The signing sender of control frames: its sequence allocator and the frame it builds. */
module Sender {
  import opened Bytes
  import opened Digests
  import opened Options

  const CONTROL_HDR_LEN: nat := 36
  const CONTROL_NONCE_LEN: nat := 16
  const CONTROL_KEY_LEN: nat := 32
  const CONTROL_QUERY_MAX: nat := 172
  const SEQ_MAX: nat := 0xFFFF_FFFF_FFFF_FFFF
  const EPOCH_MAX: nat := 0xFFFF_FFFF
  const CONTROL_MAGIC: seq<Byte> := [0x4A, 0x43, 0x54, 0x4C]
  const CONTROL_VERSION: Byte := 1

  predicate Buildable(key: seq<Byte>, s: int, epoch: int, query: seq<Byte>, nonce: seq<Byte>) {
    && |key| == CONTROL_KEY_LEN
    && |nonce| == CONTROL_NONCE_LEN
    && |query| <= CONTROL_QUERY_MAX
    && 0 <= s <= SEQ_MAX
    && 0 <= epoch <= EPOCH_MAX
  }

  /** Everything before the tag. */
  function Payload(s: nat, epoch: nat, query: seq<Byte>, nonce: seq<Byte>): (payload: seq<Byte>)
    requires s <= SEQ_MAX && epoch <= EPOCH_MAX && |query| <= CONTROL_QUERY_MAX
    ensures |payload| == 20 + |nonce| + |query| && CONTROL_MAGIC + [CONTROL_VERSION, 0] <= payload
  {
    Widths();
    CONTROL_MAGIC + [CONTROL_VERSION, 0] + BeEncode(s, 8) + BeEncode(epoch, 4) + nonce + BeEncode(|query|, 2) + query
  }

  /** `build_control_frame`; `None` stands for its ValueError. */
  function BuildControlFrame(mac: Mac, key: seq<Byte>, s: int, epoch: int, query: seq<Byte>,
                             nonce: seq<Byte>): (frame: Option<seq<Byte>>)
    ensures frame.Some? <==> Buildable(key, s, epoch, query, nonce)
    ensures frame.Some? ==>
              && |frame.value| == CONTROL_HDR_LEN + |query| + TAG_LEN
              && CONTROL_MAGIC + [CONTROL_VERSION, 0] <= frame.value
  {
    if Buildable(key, s, epoch, query, nonce) then
      var payload := Payload(s, epoch, query, nonce);
      Some(payload + mac(key, payload))
    else None
  }

  /** The documented layout, as a reader of the frame sees it: each field at its offset, and a trailing
      tag over everything before it. */
  predicate ReadsAs(mac: Mac, key: seq<Byte>, frame: seq<Byte>, s: int, epoch: int, query: seq<Byte>,
                    nonce: seq<Byte>) {
    var q := |query|;
    && |frame| == CONTROL_HDR_LEN + q + TAG_LEN
    && frame[0..4] == CONTROL_MAGIC && frame[4] == CONTROL_VERSION && frame[5] == 0
    && BeDecode(frame[6..14]) == s
    && BeDecode(frame[14..18]) == epoch
    && frame[18..34] == nonce
    && BeDecode(frame[34..36]) == q
    && frame[36..36 + q] == query
    && frame[36 + q..] == mac(key, frame[..36 + q])
  }

  lemma {:induction false} FrameReadsBack(mac: Mac, key: seq<Byte>, s: int, epoch: int, query: seq<Byte>, nonce: seq<Byte>)
    requires Buildable(key, s, epoch, query, nonce)
    ensures ReadsAs(mac, key, BuildControlFrame(mac, key, s, epoch, query, nonce).value, s, epoch, query, nonce)
  {
    Widths();
    var frame := BuildControlFrame(mac, key, s, epoch, query, nonce).value;
    assert frame[6..14] == BeEncode(s, 8);
    assert frame[14..18] == BeEncode(epoch, 4);
    assert frame[34..36] == BeEncode(|query|, 2);
    assert frame[..36 + |query|] == Payload(s, epoch, query, nonce);
    BeDecodeEncode(s, 8);
    BeDecodeEncode(epoch, 4);
    BeDecodeEncode(|query|, 2);
  }

  lemma {:induction false} PayloadOfRead(mac: Mac, key: seq<Byte>, frame: seq<Byte>, s: int, epoch: int, query: seq<Byte>,
                                         nonce: seq<Byte>)
    requires |query| <= CONTROL_QUERY_MAX && ReadsAs(mac, key, frame, s, epoch, query, nonce)
    ensures |nonce| == CONTROL_NONCE_LEN && 0 <= s <= SEQ_MAX && 0 <= epoch <= EPOCH_MAX
    ensures frame[..36 + |query|] == Payload(s, epoch, query, nonce)
  {
    Widths();
    var q := |query|;
    BeEncodeDecode(frame[6..14]);
    BeEncodeDecode(frame[14..18]);
    BeEncodeDecode(frame[34..36]);
    assert frame[..36 + q] == frame[0..4] + [frame[4], frame[5]] + frame[6..14] + frame[14..18] + frame[18..34]
                              + frame[34..36] + frame[36..36 + q];
  }

  /** A frame is built exactly for a key of 32 bytes and a query of at most 172, and it is then the one
      byte string that reads back as the fields given; so no two assignments of fields share a frame.
      That the numbers are in range and the nonce has 16 bytes is no more than the layout asks. */
  lemma {:induction false} FrameIsTheLayout(mac: Mac, key: seq<Byte>, s: int, epoch: int, query: seq<Byte>, nonce: seq<Byte>,
                                            frame: seq<Byte>)
    ensures BuildControlFrame(mac, key, s, epoch, query, nonce) == Some(frame)
            <==> |key| == CONTROL_KEY_LEN && |query| <= CONTROL_QUERY_MAX
                 && ReadsAs(mac, key, frame, s, epoch, query, nonce)
  {
    if Buildable(key, s, epoch, query, nonce) {
      FrameReadsBack(mac, key, s, epoch, query, nonce);
    }
    if |key| == CONTROL_KEY_LEN && |query| <= CONTROL_QUERY_MAX && ReadsAs(mac, key, frame, s, epoch, query, nonce) {
      PayloadOfRead(mac, key, frame, s, epoch, query, nonce);
      assert frame == Payload(s, epoch, query, nonce) + mac(key, Payload(s, epoch, query, nonce));
    }
  }

  /** The allocator: the clock in milliseconds, or one more than the last number given out when the
      clock has not moved past it. */
  function NextSeq(last: int, now: int): (s: int)
    ensures s > last && s >= now
    ensures s == now || s == last + 1
  {
    if now <= last then last + 1 else now
  }

  /** What one send came to. */
  datatype Outcome =
    | Sent(s: int, frame: seq<Byte>)
    | Unavailable
    | BadFrame

  /** What the environment does during one send: whether scapy and a route are there, the clock, the
      fresh nonce, and whether the transmit call returns. */
  datatype World = World(scapy: bool, route: bool, now: int, nonce: seq<Byte>, transmits: bool)

  class ControlSender {
    const key: seq<Byte>
    const epoch: int
    const mac: Mac
    var lastSeq: int

    constructor (key: seq<Byte>, epoch: int, mac: Mac)
      ensures this.key == key && this.epoch == epoch && this.mac == mac && lastSeq == 0
    {
      this.key, this.epoch, this.mac, lastSeq := key, epoch, mac, 0;
    }

    method AllocateSeq(now: int) returns (s: int)
      modifies this`lastSeq
      ensures s == lastSeq == NextSeq(old(lastSeq), now)
    {
      s := now;
      if s <= lastSeq {
        s := lastSeq + 1;
      }
      lastSeq := s;
    }

    /** One send, run under the sender's lock from the allocation to the transmit. A sequence number
        is consumed exactly when the lock was reached, whether or not a frame went out. */
    method Send(query: seq<Byte>, world: World) returns (out: Outcome)
      modifies this`lastSeq
      ensures lastSeq == if world.scapy && key != [] && world.route then NextSeq(old(lastSeq), world.now)
                         else old(lastSeq)
      ensures out.Sent? <==>
                && world.scapy && key != [] && world.route && world.transmits
                && Buildable(key, lastSeq, epoch, query, world.nonce)
      ensures out.Sent? ==>
                && out.s == lastSeq > old(lastSeq)
                && Some(out.frame) == BuildControlFrame(mac, key, out.s, epoch, query, world.nonce)
      ensures out.BadFrame? <==>
                && world.scapy
                && (key == [] || (world.route && !Buildable(key, lastSeq, epoch, query, world.nonce)))
    {
      if !world.scapy {
        return Unavailable;
      }
      if key == [] {
        return BadFrame;
      }
      if !world.route {
        return Unavailable;
      }
      var s := AllocateSeq(world.now);
      var frame := BuildControlFrame(mac, key, s, epoch, query, world.nonce);
      if frame == None {
        return BadFrame;
      }
      if !world.transmits {
        return Unavailable;
      }
      return Sent(s, frame.value);
    }
  }
}
