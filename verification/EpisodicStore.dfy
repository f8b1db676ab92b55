/** The reader of the episodic memory store. */
module EpisodicStore {
  import opened Bytes
  import opened CircularLog
  import opened Newest
  import opened StoreLayout

  const QUERY_OFF: nat := 32
  const QUERY_MAX: nat := 200
  const RESP_OFF: nat := 232
  const RESP_MAX: nat := 256

  /** The three recall blocks are a kind or count, a sequence number and a cosine. */
  datatype Recall = Recall(kind: nat, src: nat, cos: nat)

  datatype Episode = Episode(bootId: nat, seqNo: nat, tMs: nat, queryKey: nat, action: nat, outcome: nat,
                             feedback: nat, queryLen: nat, respLen: nat, query: seq<Byte>, resp: seq<Byte>,
                             recall: Recall, selected: Recall, emitMask: nat)

  function RecallAt(v: View, off: nat): (b: Recall) {
    Recall(v.num(off, 1), v.num(off + 1, 4), v.num(off + 5, 2))
  }

  /** One record; the texts are cut at their length or their capacity, whichever is less. */
  function EpisodeOf(v: View): (e: Episode) {
    var queryLen, respLen := v.num(28, 2), v.num(30, 2);
    Episode(v.num(0, 4), v.num(4, 4), v.num(8, 8), v.num(16, 8), v.num(24, 2), v.num(26, 1), v.num(27, 1),
            queryLen, respLen,
            v.bytes(QUERY_OFF, QUERY_OFF + Least(queryLen, QUERY_MAX)),
            v.bytes(RESP_OFF, RESP_OFF + Least(respLen, RESP_MAX)),
            RecallAt(v, 488), RecallAt(v, 495), v.num(502, 1))
  }

  /** A record is decoded from its own 512 bytes alone, whatever its length fields say. */
  lemma {:induction false} EpisodeIsLocal()
    ensures Local(EpisodeOf, SECTOR)
  {
  }

  /** The specification: every slot of the order, decoded. */
  function Records(hdr: Header, data: seq<Byte>): (recs: seq<Episode>)
    requires |data| >= SECTOR
  {
    Decoded(data, OrderAbove(hdr.cursor, hdr.total, |data| / SECTOR - 1), SECTOR, EpisodeOf)
  }

  /** `iter_records`. A slot of the order is never outside the buffer, so no record is skipped. */
  method IterRecords(data: seq<Byte>) returns (r: Result<seq<Episode>>)
    ensures r == if |data| < SECTOR then Err(ShortRead) else Ok(Records(HeaderOf(data), data))
  {
    var header := ParseHeader(data);
    if header.Err? {
      return Err(header.error);
    }
    var hdr, slots := header.value, |data| / SECTOR - 1;
    var order := OrderAbove(hdr.cursor, hdr.total, slots);
    var out := DecodeSlots(data, order, EpisodeOf);
    AllPresent(order, |data|);
    r := Ok(out);
  }

  /** For any number of appends to a store of any capacity, the reader of the whole region returns
      exactly the last records appended, oldest to newest. */
  lemma {:induction false} ReadsTheLastRecords(hdr: Header, data: seq<Byte>, blank: seq<seq<Byte>>, recs: seq<seq<Byte>>)
    requires |blank| > 0 && Holds(hdr, data, AppendAll(Fresh(blank), recs), SECTOR)
    ensures |data| >= SECTOR && Records(hdr, data) == DecodedLast(recs, |blank|, EpisodeOf)
  {
    EpisodeIsLocal();
    RegionReads(hdr, data, blank, recs, SECTOR, EpisodeOf);
    assert |data| / SECTOR - 1 == |blank|;
  }
}
