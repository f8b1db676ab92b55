/** The reader of the NVMe log, which does not clamp a record's length to its sector. */
module NvmeLog {
  import opened Bytes
  import opened CircularLog
  import opened Newest
  import opened StoreLayout

  const MAGIC: nat := 0x4A524C47
  const PAYLOAD_OFF: nat := 16

  /** The fixed fields of an entry. */
  datatype Head = Head(bootId: nat, seqNo: nat, kind: nat, length: nat)

  datatype Entry = Entry(slot: nat, head: Head, payload: seq<Byte>)

  function HeadOf(v: View): (h: Head) {
    Head(v.num(0, 4), v.num(4, 4), v.num(8, 2), v.num(10, 2))
  }

  /** `rstrip('\x00')`. */
  function StripNuls(bs: seq<Byte>): (s: seq<Byte>) {
    if bs != [] && bs[|bs| - 1] == 0 then StripNuls(bs[..|bs| - 1]) else bs
  }

  /** As many bytes as the length field says, wherever the sector ends. */
  function PayloadOf(v: View): (payload: seq<Byte>) {
    StripNuls(v.bytes(PAYLOAD_OFF, PAYLOAD_OFF + v.num(10, 2)))
  }

  lemma {:induction false} HeadIsLocal()
    ensures Local(HeadOf, SECTOR)
  {
  }

  function Order(hdr: Header, data: seq<Byte>): (order: seq<nat>) {
    OrderAbove(hdr.cursor, hdr.total, |data| / SECTOR - 1)
  }

  function EntryAt(data: seq<Byte>, slot: nat): (e: Entry) {
    Entry(slot, HeadOf(At(data, SECTOR + slot * SECTOR)), PayloadOf(At(data, SECTOR + slot * SECTOR)))
  }

  function Records(hdr: Header, data: seq<Byte>): (entries: seq<Entry>)
    ensures |entries| == |Order(hdr, data)|
  {
    var order := Order(hdr, data);
    seq(|order|, i requires 0 <= i < |order| => EntryAt(data, order[i]))
  }

  /** `parse_header`, which unlike the other readers raises on a bad magic. */
  method ParseLogHeader(data: seq<Byte>) returns (r: Result<Header>)
    ensures r == if |data| < SECTOR then Err(ShortRead)
                 else if HeaderOf(data).magic != MAGIC then Err(BadMagic)
                 else Ok(HeaderOf(data))
  {
    r := ParseHeader(data);
    if r.Ok? && r.value.magic != MAGIC {
      r := Err(BadMagic);
    }
  }

  method ReadEntries(hdr: Header, data: seq<Byte>) returns (out: seq<Entry>)
    ensures out == Records(hdr, data)
  {
    var order := Order(hdr, data);
    ghost var recs := Records(hdr, data);
    out := [];
    for i := 0 to |order|
      invariant out == recs[..i]
    {
      var off := (order[i] + 1) * SECTOR;
      if off + SECTOR > |data| {
        assert false;
        continue;
      }
      out := out + [Entry(order[i], HeadOf(At(data, off)), PayloadOf(At(data, off)))];
    }
  }

  /** The specification of the reader. */
  function Reading(data: seq<Byte>): (r: Result<seq<Entry>>) {
    if |data| < SECTOR then Err(ShortRead)
    else if HeaderOf(data).magic != MAGIC then Err(BadMagic)
    else Ok(Records(HeaderOf(data), data))
  }

  /** `iter_records`, run to its end. */
  method IterRecords(data: seq<Byte>) returns (r: Result<seq<Entry>>)
    ensures r == Reading(data)
  {
    var header := ParseLogHeader(data);
    if header.Err? {
      return Err(header.error);
    }
    var out := ReadEntries(header.value, data);
    r := Ok(out);
  }

  // --------------------------------------------------------------------------------------------
  // Whose bytes a payload is

  lemma {:induction false} StripNulsIff(p: seq<Byte>, more: seq<Byte>)
    ensures StripNuls(p + more) == StripNuls(p) <==> forall i :: 0 <= i < |more| ==> more[i] == 0
    ensures |StripNuls(p)| <= |p|
    decreases |p| + |more|
  {
    if more == [] {
      assert p + more == p;
      if p != [] {
        StripNulsIff(p[..|p| - 1], []);
      }
    } else {
      var last := |more| - 1;
      StripNulsIff(p, more[..last]);
      assert (p + more)[..|p| + last] == p + more[..last];
      if more[last] != 0 {
        assert StripNuls(p + more) == p + more;
      }
    }
  }

  /** The bytes between the end of a record's sector and the end of the payload it declares. */
  function Spill(data: seq<Byte>, off: nat, length: nat): (bs: seq<Byte>) {
    Slice(data, off + SECTOR, off + PAYLOAD_OFF + length)
  }

  /** Whatever a record declares beyond its sector is NUL or beyond the buffer. */
  predicate SpillsOnlyNuls(data: seq<Byte>, off: nat, length: nat) {
    forall i :: 0 <= i < |Spill(data, off, length)| ==> Spill(data, off, length)[i] == 0
  }

  /** A length that fits its sector spills nothing. */
  lemma {:induction false} FittingLengthSpillsNothing(data: seq<Byte>, off: nat, length: nat)
    requires length <= SECTOR - PAYLOAD_OFF
    ensures SpillsOnlyNuls(data, off, length)
  {
  }

  lemma {:induction false} PayloadSplits(data: seq<Byte>, off: nat, length: nat)
    requires off + SECTOR <= |data|
    ensures Slice(data, off + PAYLOAD_OFF, off + (PAYLOAD_OFF + length)) ==
            Slice(data[off..off + SECTOR], PAYLOAD_OFF, PAYLOAD_OFF + length) + Spill(data, off, length)
  {
    var lo, end, hi := off + PAYLOAD_OFF, off + SECTOR, Least(off + PAYLOAD_OFF + length, |data|);
    if hi <= end {
      SliceOfSlice(data, off, SECTOR, PAYLOAD_OFF, hi - off);
      assert Spill(data, off, length) == [];
    } else {
      SliceOfSlice(data, off, SECTOR, PAYLOAD_OFF, SECTOR);
      assert data[lo..hi] == data[lo..end] + data[end..hi];
    }
  }

  /** The payload read is the record's own exactly when it spills only NULs. */
  lemma {:induction false} PayloadIsOwnIff(data: seq<Byte>, off: nat)
    requires off + SECTOR <= |data|
    ensures var rec := data[off..off + SECTOR];
            PayloadOf(At(data, off)) == PayloadOf(At(rec, 0))
            <==> SpillsOnlyNuls(data, off, HeadOf(At(rec, 0)).length)
  {
    var rec := data[off..off + SECTOR];
    RecordView(data, off, SECTOR);
    var v, v' := At(data, off), At(rec, 0);
    var length := v'.num(10, 2);
    assert v.num(10, 2) == length;
    PayloadSplits(data, off, length);
    StripNulsIff(Slice(rec, PAYLOAD_OFF, PAYLOAD_OFF + length), Spill(data, off, length));
  }

  /** An entry has the fixed fields of a record, and its payload exactly when what the record declares
      beyond its sector is NUL; so always when it declares no more than the sector holds. */
  ghost predicate ReadsAs(e: Entry, data: seq<Byte>, rec: seq<Byte>) {
    && e.head == HeadOf(At(rec, 0))
    && (e.payload == PayloadOf(At(rec, 0)) <==> SpillsOnlyNuls(data, SECTOR + e.slot * SECTOR, e.head.length))
    && (e.head.length <= SECTOR - PAYLOAD_OFF ==> e.payload == PayloadOf(At(rec, 0)))
  }

  lemma {:induction false} EntryOfSlot(data: seq<Byte>, slot: nat, rec: seq<Byte>)
    requires HoldsAt(data, SECTOR + slot * SECTOR, rec, SECTOR)
    ensures ReadsAs(EntryAt(data, slot), data, rec)
  {
    HeadIsLocal();
    DecodedSlot(data, SECTOR + slot * SECTOR, rec, SECTOR, HeadOf);
    PayloadIsOwnIff(data, SECTOR + slot * SECTOR);
    var length := HeadOf(At(rec, 0)).length;
    if length <= SECTOR - PAYLOAD_OFF {
      FittingLengthSpillsNothing(data, SECTOR + slot * SECTOR, length);
    }
  }

  lemma {:induction false} EntriesOfSlots(data: seq<Byte>, order: seq<nat>, last: seq<seq<Byte>>)
    requires HoldsInOrder(data, order, last, SECTOR)
    ensures forall i :: 0 <= i < |order| ==> ReadsAs(EntryAt(data, order[i]), data, last[i])
  {
    forall i | 0 <= i < |order| ensures ReadsAs(EntryAt(data, order[i]), data, last[i]) {
      EntryOfSlot(data, order[i], last[i]);
    }
  }

  lemma {:induction false} RecordsAt(hdr: Header, data: seq<Byte>)
    ensures |Records(hdr, data)| == |Order(hdr, data)|
    ensures forall i :: 0 <= i < |Order(hdr, data)| ==> Records(hdr, data)[i] == EntryAt(data, Order(hdr, data)[i])
  {
  }

  /** For any number of appends to a store of any capacity, the reader of the whole region returns one
      entry for each of the last records appended, oldest to newest, with that record's fixed fields,
      and with its payload exactly when what the length declares beyond the sector is NUL; so for every
      length up to 496. */
  lemma {:induction false} ReadsTheLastRecords(hdr: Header, data: seq<Byte>, blank: seq<seq<Byte>>, recs: seq<seq<Byte>>)
    requires |blank| > 0 && Holds(hdr, data, AppendAll(Fresh(blank), recs), SECTOR)
    ensures |Records(hdr, data)| == |Last(recs, |blank|)|
    ensures forall i :: 0 <= i < |Records(hdr, data)| ==>
              ReadsAs(Records(hdr, data)[i], data, Last(recs, |blank|)[i])
  {
    HeldHeader(hdr, data, blank, recs, SECTOR);
    RegionHoldsTheLast(hdr, data, blank, recs, SECTOR);
    assert |data| / SECTOR - 1 == |blank|;
    EntriesOfSlots(data, Order(hdr, data), Last(recs, |blank|));
    RecordsAt(hdr, data);
  }

  /** A log of two slots and two records: the first declares 497 bytes, one more than its sector holds,
      all of them NUL in it; the second is the first record's neighbour, with boot number 1. */
  function SpillHeader(): (bs: seq<Byte>)
    ensures |bs| == SECTOR
  {
    [0x47, 0x4C, 0x52, 0x4A, 1, 0, 0, 0, 0, 0, 0, 0, 2, 0, 0, 0] + Zeros(SECTOR - 16)
  }

  function SpillFirst(): (bs: seq<Byte>)
    ensures |bs| == SECTOR
  {
    Zeros(10) + [0xF1, 1] + Zeros(SECTOR - 12)
  }

  function SpillSecond(): (bs: seq<Byte>)
    ensures |bs| == SECTOR
  {
    [1] + Zeros(SECTOR - 1)
  }

  function SpillFile(): (data: seq<Byte>)
    ensures |data| == 3 * SECTOR
  {
    SpillHeader() + SpillFirst() + SpillSecond()
  }

  lemma {:induction false} FourBytes(bs: seq<Byte>)
    requires |bs| == 4
    ensures LeDecode(bs) == bs[0] as nat + 0x100 * bs[1] as nat + 0x1_0000 * bs[2] as nat + 0x100_0000 * bs[3] as nat
  {
    assert LeDecode(bs[3..]) == bs[3] as nat + 256 * LeDecode(bs[3..][1..]) && LeDecode(bs[3..][1..]) == 0;
    assert LeDecode(bs[2..]) == bs[2] as nat + 256 * LeDecode(bs[2..][1..]) && bs[2..][1..] == bs[3..];
    assert LeDecode(bs[1..]) == bs[1] as nat + 256 * LeDecode(bs[1..][1..]) && bs[1..][1..] == bs[2..];
  }

  lemma {:induction false} SpillFileIsAccepted()
    ensures var h := HeaderOf(SpillFile()); h.magic == MAGIC && h.total == 2
    ensures Order(HeaderOf(SpillFile()), SpillFile()) == [0, 1]
  {
    var data := SpillFile();
    assert data[0..4] == [0x47, 0x4C, 0x52, 0x4A];
    assert data[12..16] == [2, 0, 0, 0];
    FourBytes(data[0..4]);
    FourBytes(data[12..16]);
  }

  lemma {:induction false} SpillLengths()
    ensures LeDecode(Slice(SpillFile(), SECTOR + 10, SECTOR + 12)) == SECTOR - PAYLOAD_OFF + 1
    ensures LeDecode(Slice(SpillFirst(), 10, 12)) == SECTOR - PAYLOAD_OFF + 1
  {
    assert LeDecode([0xF1, 1]) == SECTOR - PAYLOAD_OFF + 1;
    assert SpillFirst()[10..12] == [0xF1, 1];
    assert SpillFile()[SECTOR + 10..SECTOR + 12] == [0xF1, 1];
  }

  lemma {:induction false} SpillBytes()
    ensures Slice(SpillFile(), SECTOR + PAYLOAD_OFF, 2 * SECTOR + 1) == Zeros(SECTOR - PAYLOAD_OFF) + [1]
    ensures StripNuls(Slice(SpillFirst(), PAYLOAD_OFF, SECTOR + 1)) == []
  {
    assert SpillFile()[SECTOR + PAYLOAD_OFF..2 * SECTOR + 1] == Zeros(SECTOR - PAYLOAD_OFF) + [1];
    assert Slice(SpillFirst(), PAYLOAD_OFF, SECTOR + 1) == [] + Zeros(SECTOR - PAYLOAD_OFF);
    StripNulsIff([], Zeros(SECTOR - PAYLOAD_OFF));
  }

  lemma {:induction false} SpillFirstOfFile()
    ensures EntryAt(SpillFile(), 0).payload == Zeros(SECTOR - PAYLOAD_OFF) + [1]
    ensures PayloadOf(At(SpillFirst(), 0)) == []
  {
    SpillLengths();
    SpillBytes();
  }

  /** The reader accepts that file, and shows as the first record's payload, which is empty, 497 bytes
      ending in a byte of the second record. */
  lemma {:induction false} SpilledPayload()
    ensures Reading(SpillFile()).Ok? && |Reading(SpillFile()).value| == 2
    ensures SpillFile()[SECTOR..2 * SECTOR] == SpillFirst() && PayloadOf(At(SpillFirst(), 0)) == []
    ensures Reading(SpillFile()).value[0].payload == Zeros(SECTOR - PAYLOAD_OFF) + [1]
  {
    SpillFileIsAccepted();
    SpillFirstOfFile();
    RecordsAt(HeaderOf(SpillFile()), SpillFile());
  }
}
