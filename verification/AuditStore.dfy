/** The reader of the action-audit store. */
module AuditStore {
  import opened Bytes
  import opened CircularLog
  import opened Newest
  import opened StoreLayout

  const TRIGGER_OFF: nat := 28
  const TRIGGER_MAX: nat := 456

  datatype Audit = Audit(bootId: nat, seqNo: nat, tMs: nat, actionId: nat, trust: nat, verdict: nat,
                         riskX100: nat, outcome: nat, triggerLen: nat, trigger: seq<Byte>)

  function AuditOf(v: View): (a: Audit) {
    var triggerLen := v.num(26, 2);
    Audit(v.num(0, 4), v.num(4, 4), v.num(8, 8), v.num(16, 2), v.num(18, 2), v.num(20, 2), v.num(22, 2),
          v.num(24, 2), triggerLen, v.bytes(TRIGGER_OFF, TRIGGER_OFF + Least(triggerLen, TRIGGER_MAX)))
  }

  lemma {:induction false} AuditIsLocal()
    ensures Local(AuditOf, SECTOR)
  {
  }

  function Records(hdr: Header, data: seq<Byte>): (recs: seq<Audit>)
    requires |data| >= SECTOR
  {
    Decoded(data, OrderAbove(hdr.cursor, hdr.total, |data| / SECTOR - 1), SECTOR, AuditOf)
  }

  /** `iter_records`. A slot of the order is never outside the buffer, so no record is skipped. */
  method IterRecords(data: seq<Byte>) returns (r: Result<seq<Audit>>)
    ensures r == if |data| < SECTOR then Err(ShortRead) else Ok(Records(HeaderOf(data), data))
  {
    var header := ParseHeader(data);
    if header.Err? {
      return Err(header.error);
    }
    var hdr, slots := header.value, |data| / SECTOR - 1;
    var order := OrderAbove(hdr.cursor, hdr.total, slots);
    var out := DecodeSlots(data, order, AuditOf);
    AllPresent(order, |data|);
    r := Ok(out);
  }

  /** For any number of appends to a store of any capacity, the reader of the whole region returns
      exactly the last records appended, oldest to newest. */
  lemma {:induction false} ReadsTheLastRecords(hdr: Header, data: seq<Byte>, blank: seq<seq<Byte>>, recs: seq<seq<Byte>>)
    requires |blank| > 0 && Holds(hdr, data, AppendAll(Fresh(blank), recs), SECTOR)
    ensures |data| >= SECTOR && Records(hdr, data) == DecodedLast(recs, |blank|, AuditOf)
  {
    AuditIsLocal();
    RegionReads(hdr, data, blank, recs, SECTOR, AuditOf);
    assert |data| / SECTOR - 1 == |blank|;
  }
}
