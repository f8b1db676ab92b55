/** The legacy pcap walker of the receiver and the capture builder of the fixture
    (sections 4 and 5 of draft-ietf-opsawg-pcap). */
module Pcap {
  import opened Bytes
  import Fixture
  import opened Digests
  import opened Framing
  import opened Options
  import opened Wire

  const GLOBAL_HEADER: nat := 24
  const RECORD_HEADER: nat := 16
  const ETH_IP_UDP_HDR: nat := 42
  const MAGIC_BYTES: seq<Byte> := [0x4C, 0x45, 0x54, 0x4A]

  /** The packet decoder the walker calls, and the size of the packets it offers it. */
  datatype Reader = Reader(size: nat, decode: seq<Byte> -> DecodeResult)

  /** The reader of the current wire: `decode_packet` on packets of the newest size. */
  function CurrentReader(crc: Crc): (r: Reader) {
    Reader(CalcSize(FORMATS.Packet(14)), data => DecodePacket(crc, data))
  }

  /** One yielded record: seconds, fraction, whether the fraction counts nanoseconds, the packet. */
  datatype Yielded = Yielded(seconds: nat, fraction: nat, nano: bool, packet: Packet)

  datatype Walked = Records(records: seq<Yielded>) | TooShort | BadGlobalMagic

  /** Byte order and time unit of a capture, by its global magic. */
  datatype Flavour = Flavour(little: bool, nano: bool)

  function FlavourOf(magic: seq<Byte>): (f: Option<Flavour>) {
    if magic == [0xD4, 0xC3, 0xB2, 0xA1] then Some(Flavour(true, false))
    else if magic == [0xA1, 0xB2, 0xC3, 0xD4] then Some(Flavour(false, false))
    else if magic == [0x4D, 0x3C, 0xB2, 0xA1] then Some(Flavour(true, true))
    else if magic == [0xA1, 0xB2, 0x3C, 0x4D] then Some(Flavour(false, true))
    else None
  }

  function MagicOf(f: Flavour): (magic: seq<Byte>)
    ensures |magic| == 4 && FlavourOf(magic) == Some(f)
  {
    if f.little then (if f.nano then [0x4D, 0x3C, 0xB2, 0xA1] else [0xD4, 0xC3, 0xB2, 0xA1])
    else (if f.nano then [0xA1, 0xB2, 0x3C, 0x4D] else [0xA1, 0xB2, 0xC3, 0xD4])
  }

  datatype Header = Header(seconds: nat, fraction: nat, incl: nat)

  function ReadU32(little: bool, bs: seq<Byte>): (n: nat) {
    if little then LeDecode(bs) else BeDecode(bs)
  }

  /** `struct.unpack` of a record header; the original length is read and not used. */
  function UnpackHeader(f: Flavour, bs: seq<Byte>): (h: Header) {
    Header(ReadU32(f.little, Slice(bs, 0, 4)), ReadU32(f.little, Slice(bs, 4, 8)), ReadU32(f.little, Slice(bs, 8, 12)))
  }

  /** What one whole frame contributes: a record if its payload starts like a packet of the current
      wire and is at least that long. */
  function Yields(r: Reader, f: Flavour, h: Header, frame: seq<Byte>): (ys: seq<Yielded>) {
    var payload := if |frame| >= ETH_IP_UDP_HDR then frame[ETH_IP_UDP_HDR..] else [];
    if |payload| >= r.size && |payload| >= 4 && payload[..4] == MAGIC_BYTES then
      match r.decode(payload[..r.size])
      case Decoded(packet) => [Yielded(h.seconds, h.fraction, f.nano, packet)]
      case _ => []
    else []
  }

  /** How the loop unpacks a record header, and what it keeps of a frame. */
  datatype Rules = Rules(unpack: seq<Byte> -> Header, keep: (Header, seq<Byte>) -> seq<Yielded>)

  function RulesFor(r: Reader, f: Flavour): (p: Rules) {
    Rules(bs => UnpackHeader(f, bs), (h, frame) => Yields(r, f, h, frame))
  }

  /** The record at the front of what is left of a capture. A record that is cut off ends the walk. */
  function NextRecord(p: Rules, rest: seq<Byte>): (s: Step<Yielded>) {
    if |rest| < RECORD_HEADER then End
    else
      var h := p.unpack(rest[..RECORD_HEADER]);
      if |rest| < RECORD_HEADER + h.incl then End
      else Next(p.keep(h, rest[RECORD_HEADER..RECORD_HEADER + h.incl]), RECORD_HEADER + h.incl)
  }

  function Stepper(p: Rules): seq<Byte> -> Step<Yielded> {
    rest => NextRecord(p, rest)
  }

  /** The same walk by offsets into the whole file. */
  function WalkFrom(p: Rules, data: seq<Byte>, off: nat): (records: seq<Yielded>)
    decreases |data| - off
  {
    var body := off + RECORD_HEADER;
    if |data| < body then []
    else
      var h := p.unpack(data[off..body]);
      if |data| < body + h.incl then []
      else p.keep(h, data[body..body + h.incl]) + WalkFrom(p, data, body + h.incl)
  }

  lemma {:induction false} RestOfSlices(data: seq<Byte>, off: nat, incl: nat)
    requires off + RECORD_HEADER + incl <= |data|
    ensures var body := off + RECORD_HEADER;
            && data[off..][RECORD_HEADER..RECORD_HEADER + incl] == data[body..body + incl]
            && data[off..][RECORD_HEADER + incl..] == data[body + incl..]
  {
  }

  lemma {:induction false} WalkFromIsWalk(p: Rules, data: seq<Byte>, off: nat)
    requires off <= |data|
    ensures WalkFrom(p, data, off) == Walk(Stepper(p), data[off..])
    decreases |data| - off
  {
    var rest, body := data[off..], off + RECORD_HEADER;
    if body <= |data| {
      assert rest[..RECORD_HEADER] == data[off..body];
      var h := p.unpack(data[off..body]);
      if body + h.incl <= |data| {
        RestOfSlices(data, off, h.incl);
        WalkFromIsWalk(p, data, body + h.incl);
      }
    }
  }

  /** The specification of the walk. */
  function WalkCapture(r: Reader, data: seq<Byte>): (w: Walked) {
    if |data| < GLOBAL_HEADER then TooShort
    else match FlavourOf(data[..4])
      case None => BadGlobalMagic
      case Some(f) => Records(WalkFrom(RulesFor(r, f), data, GLOBAL_HEADER))
  }

  /** One turn of the loop: a record wholly inside the data is kept, and one that is cut off ends it. */
  lemma {:induction false} WalkFromStep(p: Rules, data: seq<Byte>, off: nat, records: seq<Yielded>)
    requires off + RECORD_HEADER <= |data|
    ensures var body := off + RECORD_HEADER;
            var h := p.unpack(data[off..body]);
            var frame := Slice(data, body, body + h.incl);
            if body + h.incl <= |data| then
              && |frame| == h.incl
              && records + WalkFrom(p, data, off) == (records + p.keep(h, frame)) + WalkFrom(p, data, body + h.incl)
            else |frame| < h.incl && records + WalkFrom(p, data, off) == records
  {
  }

  /** Too little for a record header ends the walk. */
  lemma {:induction false} WalkFromEnd(p: Rules, data: seq<Byte>, off: nat, records: seq<Yielded>)
    requires off + RECORD_HEADER > |data|
    ensures records + WalkFrom(p, data, off) == records
  {
  }

  /** The loop over the records that follow the global header. It ends on every input. */
  method WalkFrames(p: Rules, data: seq<Byte>) returns (records: seq<Yielded>)
    requires |data| >= GLOBAL_HEADER
    ensures records == WalkFrom(p, data, GLOBAL_HEADER)
  {
    records := [];
    ghost var all := WalkFrom(p, data, GLOBAL_HEADER);
    var off, n := GLOBAL_HEADER, |data|;
    while off + RECORD_HEADER <= n
      invariant GLOBAL_HEADER <= off <= n
      invariant records + WalkFrom(p, data, off) == all
      decreases n - off
    {
      WalkFromStep(p, data, off, records);
      var h := p.unpack(data[off..off + RECORD_HEADER]);
      off := off + RECORD_HEADER;
      var frame := Slice(data, off, off + h.incl);
      off := off + h.incl;
      if |frame| < h.incl {
        return records;
      }
      records := records + p.keep(h, frame);
    }
    WalkFromEnd(p, data, off, records);
  }

  /** `iter_pcap_telemetry` over the bytes of the file, run to its end. */
  method IterPcapTelemetry(r: Reader, data: seq<Byte>) returns (w: Walked)
    ensures w == WalkCapture(r, data)
  {
    if |data| < GLOBAL_HEADER {
      return TooShort;
    }
    var flavour := FlavourOf(data[..4]);
    if flavour == None {
      return BadGlobalMagic;
    }
    var records := WalkFrames(RulesFor(r, flavour.value), data);
    w := Records(records);
  }

  // --------------------------------------------------------------------------------------------
  // Building captures

  /** One frame given to the builder; without seconds it is stamped from the start time. */
  datatype Frame = Frame(payload: seq<Byte>, seconds: Option<nat>, fraction: nat)

  function Seconds(fr: Frame, tsStart: nat, i: nat): (s: nat) {
    if fr.seconds.Some? then fr.seconds.value else tsStart + i
  }

  /** The values `struct.pack` accepts in a record header. */
  predicate FitsHeader(fr: Frame, seconds: nat) {
    && seconds < 0x1_0000_0000 && fr.fraction < 0x1_0000_0000
    && ETH_IP_UDP_HDR + |fr.payload| < 0x1_0000_0000
  }

  predicate Packable(frames: seq<Frame>, tsStart: nat) {
    forall i :: 0 <= i < |frames| ==> FitsHeader(frames[i], Seconds(frames[i], tsStart, i))
  }

  function FrameBytes(fr: Frame): (bs: seq<Byte>)
    ensures |bs| == ETH_IP_UDP_HDR + |fr.payload|
  {
    Zeros(ETH_IP_UDP_HDR) + fr.payload
  }

  function WriteU32(little: bool, n: nat): (bs: seq<Byte>)
    requires n < 0x1_0000_0000
    ensures |bs| == 4 && ReadU32(little, bs) == n
  {
    Widths();
    if little then
      LeDecodeEncode(n, 4);
      LeEncode(n, 4)
    else
      BeDecodeEncode(n, 4);
      BeEncode(n, 4)
  }

  function HeaderBytes(f: Flavour, fr: Frame, seconds: nat): (bs: seq<Byte>)
    requires FitsHeader(fr, seconds)
    ensures |bs| == RECORD_HEADER
  {
    var size := |FrameBytes(fr)|;
    WriteU32(f.little, seconds) + WriteU32(f.little, fr.fraction) + WriteU32(f.little, size) + WriteU32(f.little, size)
  }

  /** The records of a capture, one byte string each. */
  function RecordsOf(f: Flavour, frames: seq<Frame>, tsStart: nat): (parts: seq<seq<Byte>>)
    requires Packable(frames, tsStart)
    ensures |parts| == |frames|
  {
    seq(|frames|, i requires 0 <= i < |frames| =>
      HeaderBytes(f, frames[i], Seconds(frames[i], tsStart, i)) + FrameBytes(frames[i]))
  }

  /** A capture of any flavour; `settings` is what follows the magic in the global header. */
  function CaptureAs(f: Flavour, settings: seq<Byte>, frames: seq<Frame>, tsStart: nat): (bs: seq<Byte>)
    requires Packable(frames, tsStart)
  {
    MagicOf(f) + settings + Join(RecordsOf(f, frames, tsStart))
  }

  /** The little-endian, microsecond flavour the builder writes. */
  const BUILT: Flavour := Flavour(true, false)

  /** The builder's settings: version 2.4, no offset, snap length 65535, Ethernet. */
  const SETTINGS: seq<Byte> := [2, 0, 4, 0, 0, 0, 0, 0, 0, 0, 0, 0, 0xFF, 0xFF, 0, 0, 1, 0, 0, 0]

  /** `build_pcap_many`; `None` stands for the error of `struct.pack` on a value out of range. */
  method BuildPcapMany(frames: seq<Frame>, tsStart: nat) returns (out: Option<seq<Byte>>)
    ensures out == if Packable(frames, tsStart) then Some(CaptureAs(BUILT, SETTINGS, frames, tsStart)) else None
  {
    var parts := [MagicOf(BUILT) + SETTINGS];
    for i := 0 to |frames|
      invariant Packable(frames[..i], tsStart)
      invariant parts == [MagicOf(BUILT) + SETTINGS] + RecordsOf(BUILT, frames[..i], tsStart)
    {
      var tsS := Seconds(frames[i], tsStart, i);
      if !FitsHeader(frames[i], tsS) {
        return None;
      }
      parts := parts + [HeaderBytes(BUILT, frames[i], tsS) + FrameBytes(frames[i])];
    }
    assert frames[..|frames|] == frames;
    assert parts[1..] == RecordsOf(BUILT, frames, tsStart);
    out := Some(Join(parts));
  }

  // --------------------------------------------------------------------------------------------
  // Walking a cut capture

  /** What the walker makes of each frame. */
  function YieldsOf(r: Reader, f: Flavour, frames: seq<Frame>, tsStart: nat): (yss: seq<seq<Yielded>>)
    ensures |yss| == |frames|
  {
    seq(|frames|, i requires 0 <= i < |frames| =>
      Yields(r, f, Header(Seconds(frames[i], tsStart, i), frames[i].fraction, |FrameBytes(frames[i])|),
             FrameBytes(frames[i])))
  }

  lemma {:induction false} HeaderReads(f: Flavour, fr: Frame, seconds: nat)
    requires FitsHeader(fr, seconds)
    ensures UnpackHeader(f, HeaderBytes(f, fr, seconds)) == Header(seconds, fr.fraction, |FrameBytes(fr)|)
  {
    var size, data := |FrameBytes(fr)|, HeaderBytes(f, fr, seconds);
    assert data[0..4] == WriteU32(f.little, seconds);
    assert data[4..8] == WriteU32(f.little, fr.fraction);
    assert data[8..12] == WriteU32(f.little, size);
  }

  /** A header followed by as many bytes as it says is one record, cut or not. */
  lemma {:induction false} RecordIsFramed(p: Rules, header: seq<Byte>, frame: seq<Byte>)
    requires |header| == RECORD_HEADER && p.unpack(header).incl == |frame|
    ensures Framed(Stepper(p), header + frame, p.keep(p.unpack(header), frame))
  {
    forall more: seq<Byte>
      ensures NextRecord(p, header + frame + more) == Next(p.keep(p.unpack(header), frame), |header + frame|)
    {
      var rest := header + frame + more;
      assert rest[..RECORD_HEADER] == header;
      assert rest[RECORD_HEADER..RECORD_HEADER + |frame|] == frame;
    }
    forall k | 0 <= k < |header + frame| ensures NextRecord(p, (header + frame)[..k]) == End {
      if k >= RECORD_HEADER {
        assert (header + frame)[..k][..RECORD_HEADER] == header;
      }
    }
  }

  lemma {:induction false} GlobalHeaderReads(r: Reader, f: Flavour, settings: seq<Byte>, rest: seq<Byte>)
    requires |settings| == GLOBAL_HEADER - 4
    ensures WalkCapture(r, MagicOf(f) + settings + rest) == Records(Walk(Stepper(RulesFor(r, f)), rest))
  {
    var data := MagicOf(f) + settings + rest;
    assert data[..4] == MagicOf(f);
    assert data[GLOBAL_HEADER..] == rest;
    WalkFromIsWalk(RulesFor(r, f), data, GLOBAL_HEADER);
  }

  /** A capture of any byte order and time unit, cut at any byte from the end of its global header on,
      yields what its leading whole frames yield, in order, and nothing for the frame the cut falls in. */
  lemma {:induction false} CutCaptureYieldsWholeFrames(r: Reader, f: Flavour, settings: seq<Byte>, frames: seq<Frame>,
                                                       tsStart: nat, cut: nat)
    requires |settings| == GLOBAL_HEADER - 4 && Packable(frames, tsStart)
    requires GLOBAL_HEADER <= cut <= |CaptureAs(f, settings, frames, tsStart)|
    ensures var whole := WholeParts(RecordsOf(f, frames, tsStart), cut - GLOBAL_HEADER);
            WalkCapture(r, CaptureAs(f, settings, frames, tsStart)[..cut]) ==
            Records(Flatten(YieldsOf(r, f, frames, tsStart)[..whole]))
  {
    var parts, yss, k := RecordsOf(f, frames, tsStart), YieldsOf(r, f, frames, tsStart), cut - GLOBAL_HEADER;
    var p := RulesFor(r, f);
    forall i | 0 <= i < |parts| ensures Framed(Stepper(p), parts[i], yss[i]) {
      var seconds := Seconds(frames[i], tsStart, i);
      HeaderReads(f, frames[i], seconds);
      RecordIsFramed(p, HeaderBytes(f, frames[i], seconds), FrameBytes(frames[i]));
    }
    WalkOfCut(Stepper(p), parts, yss, k);
    assert CaptureAs(f, settings, frames, tsStart)[..cut] == MagicOf(f) + settings + Join(parts)[..k];
    GlobalHeaderReads(r, f, settings, Join(parts)[..k]);
  }

  // --------------------------------------------------------------------------------------------
  // Captures of current-wire packets

  /** The payload is a packet the fixture built for the current wire, with its magic intact. */
  ghost predicate CurrentWire(crc: Crc, payload: seq<Byte>) {
    exists finalize: bool, overrides: map<Field, Value> ::
      && Magic !in overrides
      && Fixture.BuildPacket(crc, finalize, 14, overrides) == Some(payload)
  }

  lemma {:induction false} CurrentWireDecodes(crc: Crc, payload: seq<Byte>)
    requires CurrentWire(crc, payload)
    ensures |payload| == CurrentReader(crc).size == 276 && payload[..4] == MAGIC_BYTES
    ensures DecodePacket(crc, payload).Decoded?
  {
    var finalize: bool, overrides: map<Field, Value> :|
      Magic !in overrides && Fixture.BuildPacket(crc, finalize, 14, overrides) == Some(payload);
    Fixture.DecodeOfBuild(crc, finalize, 14, overrides, payload);
    Fixture.PacketStartsWithMagic(crc, finalize, 14, overrides, payload);
    WireSizes();
  }

  /** A frame whose payload is a packet of the reader's size that it can decode is yielded once. */
  lemma {:induction false} FrameYieldsItself(r: Reader, f: Flavour, fr: Frame, h: Header)
    requires |fr.payload| == r.size >= 4 && fr.payload[..4] == MAGIC_BYTES && r.decode(fr.payload).Decoded?
    ensures Yields(r, f, h, FrameBytes(fr)) ==
            [Yielded(h.seconds, h.fraction, f.nano, r.decode(fr.payload).packet)]
  {
    assert FrameBytes(fr)[ETH_IP_UDP_HDR..] == fr.payload;
    assert fr.payload[..r.size] == fr.payload;
  }

  lemma {:induction false} CurrentFrameYieldsItself(crc: Crc, f: Flavour, fr: Frame, h: Header)
    requires CurrentWire(crc, fr.payload)
    ensures |fr.payload| == 276 && DecodePacket(crc, fr.payload).Decoded?
    ensures Yields(CurrentReader(crc), f, h, FrameBytes(fr)) ==
            [Yielded(h.seconds, h.fraction, f.nano, DecodePacket(crc, fr.payload).packet)]
  {
    CurrentWireDecodes(crc, fr.payload);
    FrameYieldsItself(CurrentReader(crc), f, fr, h);
  }

  lemma {:induction false} RoomFor(f: Flavour, frames: seq<Frame>, tsStart: nat, budget: nat)
    requires Packable(frames, tsStart) && forall k :: 0 <= k < |frames| ==> |frames[k].payload| == 276
    ensures WholeParts(RecordsOf(f, frames, tsStart), budget)
            == if budget / 334 < |frames| then budget / 334 else |frames|
  {
    WholePartsOfOneSize(RecordsOf(f, frames, tsStart), 334, budget);
  }

  lemma {:induction false} SinglesOf(w: Walked, yss: seq<seq<Yielded>>, whole: nat)
    requires whole <= |yss| && w == Records(Flatten(yss[..whole]))
    requires forall k :: 0 <= k < |yss| ==> |yss[k]| == 1
    ensures w.Records? && |w.records| == whole && forall k :: 0 <= k < whole ==> w.records[k] == yss[k][0]
  {
    FlattenOfLeadingSingles(yss, whole);
  }

  /** A capture of frames the reader turns into one record each. */
  lemma {:induction false} CutCaptureOfSingles(r: Reader, f: Flavour, settings: seq<Byte>, frames: seq<Frame>,
                                               tsStart: nat, cut: nat)
    requires |settings| == GLOBAL_HEADER - 4 && Packable(frames, tsStart)
    requires GLOBAL_HEADER <= cut <= |CaptureAs(f, settings, frames, tsStart)|
    requires forall k :: 0 <= k < |frames| ==> |frames[k].payload| == 276
    requires forall k :: 0 <= k < |frames| ==> |YieldsOf(r, f, frames, tsStart)[k]| == 1
    ensures var w := WalkCapture(r, CaptureAs(f, settings, frames, tsStart)[..cut]);
            var room := (cut - GLOBAL_HEADER) / 334;
            && w.Records? && |w.records| == (if room < |frames| then room else |frames|)
            && forall k :: 0 <= k < |w.records| ==> w.records[k] == YieldsOf(r, f, frames, tsStart)[k][0]
  {
    var w := WalkCapture(r, CaptureAs(f, settings, frames, tsStart)[..cut]);
    var yss, whole := YieldsOf(r, f, frames, tsStart), WholeParts(RecordsOf(f, frames, tsStart), cut - GLOBAL_HEADER);
    assert w == Records(Flatten(yss[..whole])) by {
      CutCaptureYieldsWholeFrames(r, f, settings, frames, tsStart, cut);
    }
    SinglesOf(w, yss, whole);
    RoomFor(f, frames, tsStart, cut - GLOBAL_HEADER);
  }

  /** For any list of current-wire packets, any byte order and time unit and any cut, the walk yields
      exactly the frames wholly inside the cut, in order, each with its time stamp and its decoded
      packet. Each takes a record of 16 + 42 + 276 bytes, so the number of whole frames is the number
      of those that fit. */
  lemma {:induction false} CutCaptureOfCurrentWire(crc: Crc, f: Flavour, settings: seq<Byte>, frames: seq<Frame>,
                                                   tsStart: nat, cut: nat)
    requires |settings| == GLOBAL_HEADER - 4 && Packable(frames, tsStart)
    requires forall k :: 0 <= k < |frames| ==> CurrentWire(crc, frames[k].payload)
    requires GLOBAL_HEADER <= cut <= |CaptureAs(f, settings, frames, tsStart)|
    ensures var w := WalkCapture(CurrentReader(crc), CaptureAs(f, settings, frames, tsStart)[..cut]);
            var room := (cut - GLOBAL_HEADER) / 334;
            var whole := if room < |frames| then room else |frames|;
            && w.Records? && |w.records| == whole
            && forall k :: 0 <= k < whole ==>
                 && DecodePacket(crc, frames[k].payload).Decoded?
                 && w.records[k] == Yielded(Seconds(frames[k], tsStart, k), frames[k].fraction, f.nano,
                                            DecodePacket(crc, frames[k].payload).packet)
  {
    var r := CurrentReader(crc);
    forall k | 0 <= k < |frames|
      ensures |frames[k].payload| == 276 && DecodePacket(crc, frames[k].payload).Decoded?
      ensures YieldsOf(r, f, frames, tsStart)[k] ==
              [Yielded(Seconds(frames[k], tsStart, k), frames[k].fraction, f.nano,
                       DecodePacket(crc, frames[k].payload).packet)]
    {
      CurrentFrameYieldsItself(crc, f, frames[k],
                               Header(Seconds(frames[k], tsStart, k), frames[k].fraction, |FrameBytes(frames[k])|));
    }
    CutCaptureOfSingles(r, f, settings, frames, tsStart, cut);
  }
}
