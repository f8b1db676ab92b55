/** The reader of the semantic fact store, which takes the whole region or nothing. */
module SemanticStore {
  import opened Bytes
  import opened CircularLog
  import opened Modulo
  import opened Newest
  import opened StoreLayout

  const MAX_FACTS: nat := 4096
  const REGION_BYTES: nat := (MAX_FACTS + 1) * SECTOR
  const MAGIC: nat := 0x4A53454D
  const VERSION: nat := 1
  const REC_HDR_SIZE: nat := 32
  const TEXT_MAX: nat := 440

  datatype Fact = Fact(bootId: nat, seqNo: nat, tMs: nat, key: nat, factType: nat, support: nat,
                       confidenceX100: nat, textLen: nat, text: seq<Byte>)

  function FactOf(v: View): (f: Fact) {
    var textLen := v.num(30, 2);
    Fact(v.num(0, 4), v.num(4, 4), v.num(8, 8), v.num(16, 8), v.num(24, 2), v.num(26, 2), v.num(28, 2), textLen,
         v.bytes(REC_HDR_SIZE, REC_HDR_SIZE + Least(textLen, TEXT_MAX)))
  }

  lemma {:induction false} FactIsLocal()
    ensures Local(FactOf, SECTOR)
  {
  }

  /** The header the box accepts; any other it treats as absent. */
  predicate Present(hdr: Header) {
    hdr.magic == MAGIC && hdr.version == VERSION && hdr.checksumOk
  }

  /** The slots read: the cursor is clamped first. */
  function Order(hdr: Header): (order: seq<nat>) {
    OrderAtLeast(hdr.cursor % MAX_FACTS, hdr.total, MAX_FACTS)
  }

  function Records(hdr: Header, buf: seq<Byte>): (facts: seq<Fact>) {
    if Present(hdr) then Decoded(buf, Order(hdr), SECTOR, FactOf) else []
  }

  /** The loop of `iter_records`, on a header the box accepts: each fact with the slot it was in. */
  method ReadFacts(hdr: Header, buf: seq<Byte>) returns (out: seq<(nat, Fact)>)
    ensures |out| == |Order(hdr)|
    ensures forall i :: 0 <= i < |out| ==>
              out[i] == (Order(hdr)[i], FactOf(At(buf, SECTOR + Order(hdr)[i] * SECTOR)))
  {
    ghost var order := Order(hdr);
    var total := hdr.total;
    var count := Least(total, MAX_FACTS);
    var cursor := hdr.cursor % MAX_FACTS;
    out := [];
    for i := 0 to count
      invariant |out| == i
      invariant forall k :: 0 <= k < i ==> out[k] == (order[k], FactOf(At(buf, SECTOR + order[k] * SECTOR)))
    {
      var slot := if total < MAX_FACTS then i else (cursor + i) % MAX_FACTS;
      assert slot == order[i];
      var off := (slot + 1) * SECTOR;
      out := out + [(slot, FactOf(At(buf, off)))];
    }
  }

  lemma {:induction false} RecordsAt(hdr: Header, buf: seq<Byte>)
    ensures Present(hdr) ==> |Records(hdr, buf)| == |Order(hdr)|
    ensures forall i :: 0 <= i < |Records(hdr, buf)| ==>
              Records(hdr, buf)[i] == FactOf(At(buf, SECTOR + Order(hdr)[i] * SECTOR))
  {
  }

  /** `iter_records`. */
  method IterRecords(buf: seq<Byte>) returns (r: Result<seq<(nat, Fact)>>)
    ensures |buf| != REGION_BYTES ==> r == Err(WrongLength)
    ensures |buf| == REGION_BYTES ==>
              && r.Ok? && |r.value| == |Records(HeaderOf(buf), buf)|
              && forall i :: 0 <= i < |r.value| ==>
                   r.value[i] == (Order(HeaderOf(buf))[i], Records(HeaderOf(buf), buf)[i])
  {
    if |buf| != REGION_BYTES {
      return Err(WrongLength);
    }
    var header := ParseHeader(buf);
    var hdr := header.value;
    RecordsAt(hdr, buf);
    if !(hdr.magic == MAGIC && hdr.version == VERSION && hdr.checksumOk) {
      return Ok([]);
    }
    var out := ReadFacts(hdr, buf);
    r := Ok(out);
  }

  /** Clamping the cursor never changes the order, stale cursor or not. */
  lemma {:induction false} ClampIsIdle(hdr: Header)
    ensures Order(hdr) == OrderAtLeast(hdr.cursor, hdr.total, MAX_FACTS)
  {
    var clamped, plain := Order(hdr), OrderAtLeast(hdr.cursor, hdr.total, MAX_FACTS);
    if hdr.total >= MAX_FACTS {
      forall i | 0 <= i < MAX_FACTS ensures clamped[i] == plain[i] {
        ModPlus(hdr.cursor, i, MAX_FACTS);
      }
    }
  }

  /** A reachable header lists the slots of the last records appended, oldest first. */
  lemma {:induction false} OrderIsOfTheLast(hdr: Header, appended: nat)
    requires hdr.total == appended && hdr.cursor == appended % MAX_FACTS
    ensures Order(hdr) == OrderAbove(hdr.cursor, hdr.total, MAX_FACTS)
    ensures |Order(hdr)| == Least(appended, MAX_FACTS)
    ensures forall i :: 0 <= i < |Order(hdr)| ==> Order(hdr)[i] == (appended - |Order(hdr)| + i) % MAX_FACTS
  {
    ClampIsIdle(hdr);
    OrdersOfReachable(appended, MAX_FACTS);
  }

  lemma {:induction false} DecodesTheLast(hdr: Header, buf: seq<Byte>, blank: seq<seq<Byte>>, recs: seq<seq<Byte>>)
    requires |blank| == MAX_FACTS && Holds(hdr, buf, AppendAll(Fresh(blank), recs), SECTOR)
    ensures |buf| == REGION_BYTES
    ensures Decoded(buf, OrderAtLeast(hdr.cursor, hdr.total, MAX_FACTS), SECTOR, FactOf)
            == DecodedLast(recs, MAX_FACTS, FactOf)
  {
    FactIsLocal();
    RegionReads(hdr, buf, blank, recs, SECTOR, FactOf);
  }

  /** For any number of appends, the reader returns exactly the last records appended, oldest to
      newest, if the box accepts the header, and nothing if not. */
  lemma {:induction false} ReadsTheLastRecords(hdr: Header, buf: seq<Byte>, blank: seq<seq<Byte>>, recs: seq<seq<Byte>>)
    requires |blank| == MAX_FACTS && Holds(hdr, buf, AppendAll(Fresh(blank), recs), SECTOR)
    ensures |buf| == REGION_BYTES
    ensures Records(hdr, buf) == if Present(hdr) then DecodedLast(recs, MAX_FACTS, FactOf) else []
  {
    ClampIsIdle(hdr);
    DecodesTheLast(hdr, buf, blank, recs);
  }
}
