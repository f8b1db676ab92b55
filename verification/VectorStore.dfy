/** The reader of the embedding vector store, whose records take two sectors. */
module VectorStore {
  import opened Bytes
  import opened Checksum
  import opened CircularLog
  import opened Newest
  import opened StoreLayout

  const REC_SIZE: nat := 1024
  const REC_WORDS: nat := 256
  const CHECKSUM_WORD: nat := 135
  const DIM: nat := 128

  /** The norm of a vector in floating point: any function from the bit patterns of the floats to that of
      a double. */
  type Norm = seq<nat> -> nat

  /** The vector is carried as the bit patterns of its floats. */
  datatype Vector = Vector(ownerSeq: nat, ownerKey: nat, bootId: nat, seqNo: nat, dim: nat, status: nat,
                           checksum: nat, checksumOk: bool, l2Norm: nat, vec: seq<nat>)

  function VectorFrom(norm: Norm, v: View, checksumOk: bool): (r: Vector) {
    var vec := seq(DIM, i requires 0 <= i < DIM => v.num(4 * i, 4));
    Vector(v.num(528, 4), v.num(512, 8), v.num(520, 4), v.num(524, 4), v.num(532, 4), v.num(536, 2),
           v.num(540, 4), checksumOk, norm(vec), vec)
  }

  predicate RecordMatches(rec: seq<Byte>) {
    |rec| >= REC_SIZE && Matches(Words(rec), REC_WORDS, CHECKSUM_WORD)
  }

  function VectorOf(norm: Norm): View -> Vector {
    (v: View) => VectorFrom(norm, v, RecordMatches(v.bytes(0, REC_SIZE)))
  }

  lemma {:induction false} VectorIsLocal(norm: Norm)
    ensures Local(VectorOf(norm), REC_SIZE)
  {
    forall v, v' | Agree(v, v', REC_SIZE) ensures VectorOf(norm)(v) == VectorOf(norm)(v') {
      assert v.bytes(0, REC_SIZE) == v'.bytes(0, REC_SIZE);
      assert VectorOf(norm)(v).vec == VectorOf(norm)(v').vec;
    }
  }

  /** `parse_record`: the stored checksum against the fold over the other 255 words. */
  method ParseRecord(norm: Norm, rec: seq<Byte>) returns (r: Vector)
    requires |rec| == REC_SIZE
    ensures r == VectorOf(norm)(At(rec, 0))
  {
    var storedCs := WordAt(rec, CHECKSUM_WORD);
    assert storedCs == Words(rec)[CHECKSUM_WORD];
    var calcCs := XorWords(rec, REC_WORDS, SkipWord(CHECKSUM_WORD));
    assert At(rec, 0).bytes(0, REC_SIZE) == rec;
    r := VectorFrom(norm, At(rec, 0), storedCs == calcCs);
  }

  /** A record's checksum holds exactly when its 256 words XOR to zero. */
  lemma {:induction false} RecordMatchesIff(rec: seq<Byte>)
    requires |rec| == REC_SIZE
    ensures RecordMatches(rec) <==> XorAll(Words(rec)) == 0
  {
    MatchesIffAllXorToZero(Words(rec), REC_WORDS, CHECKSUM_WORD);
    assert Words(rec)[..REC_WORDS] == Words(rec);
  }

  /** Bytes changed within one word of a good record always break its checksum. */
  lemma {:induction false} RecordChangeIsRejected(rec: seq<Byte>, rec': seq<Byte>, j: nat)
    requires |rec| == |rec'| == REC_SIZE && j < REC_WORDS && RecordMatches(rec)
    requires rec[..4 * j] == rec'[..4 * j] && rec[4 * j + 4..] == rec'[4 * j + 4..]
    ensures RecordMatches(rec') <==> rec == rec'
  {
    WordsDiffer(rec, rec', j);
    ChangeOfOneWordIsRejected(Words(rec), REC_WORDS, CHECKSUM_WORD, j, WordAt(rec', j));
  }

  function Slots(data: seq<Byte>): (slots: nat)
    requires |data| >= SECTOR
  {
    (|data| - SECTOR) / REC_SIZE
  }

  function Records(norm: Norm, hdr: Header, data: seq<Byte>): (recs: seq<Vector>)
    requires |data| >= SECTOR
  {
    Decoded(data, OrderAtLeast(hdr.cursor, hdr.total, Slots(data)), REC_SIZE, VectorOf(norm))
  }

  lemma {:induction false} VectorAt(norm: Norm, data: seq<Byte>, off: nat)
    requires off + REC_SIZE <= |data|
    ensures VectorOf(norm)(At(data[off..off + REC_SIZE], 0)) == VectorOf(norm)(At(data, off))
  {
    VectorIsLocal(norm);
    RecordView(data, off, REC_SIZE);
  }

  /** The loop of `iter_records`. A slot of the order is never outside the buffer, so it never breaks. */
  method ReadVectors(norm: Norm, data: seq<Byte>, order: seq<nat>) returns (out: seq<(nat, Vector)>)
    requires |data| >= SECTOR && forall i :: 0 <= i < |order| ==> order[i] < Slots(data)
    ensures |out| == |order|
    ensures forall i :: 0 <= i < |out| ==> out[i] == (i, VectorOf(norm)(At(data, SECTOR + order[i] * REC_SIZE)))
  {
    out := [];
    for li := 0 to |order|
      invariant |out| == li
      invariant forall i :: 0 <= i < li ==> out[i] == (i, VectorOf(norm)(At(data, SECTOR + order[i] * REC_SIZE)))
    {
      var off := SECTOR + order[li] * REC_SIZE;
      if off + REC_SIZE > |data| {
        assert false;
        break;
      }
      var record := ParseRecord(norm, data[off..off + REC_SIZE]);
      VectorAt(norm, data, off);
      out := out + [(li, record)];
    }
  }

  /** `enumerate`. */
  function Enumerated<R>(recs: seq<R>): (out: seq<(nat, R)>)
    ensures |out| == |recs| && forall i :: 0 <= i < |recs| ==> out[i] == (i, recs[i])
  {
    seq(|recs|, i requires 0 <= i < |recs| => (i, recs[i]))
  }

  method ReadAll(norm: Norm, hdr: Header, data: seq<Byte>) returns (out: seq<(nat, Vector)>)
    requires |data| >= SECTOR
    ensures out == Enumerated(Records(norm, hdr, data))
  {
    out := ReadVectors(norm, data, OrderAtLeast(hdr.cursor, hdr.total, Slots(data)));
  }

  /** `iter_records`, run to its end: each record with its logical index. */
  method IterRecords(norm: Norm, data: seq<Byte>) returns (r: Result<seq<(nat, Vector)>>)
    ensures r == if |data| < SECTOR then Err(ShortRead) else Ok(Enumerated(Records(norm, HeaderOf(data), data)))
  {
    var header := ParseHeader(data);
    if header.Err? {
      return Err(header.error);
    }
    var out := ReadAll(norm, header.value, data);
    r := Ok(out);
  }

  /** For any number of appends to a store of any capacity, the reader of the whole region returns
      exactly the last records appended, oldest to newest. */
  lemma {:induction false} ReadsTheLastRecords(norm: Norm, hdr: Header, data: seq<Byte>, blank: seq<seq<Byte>>,
                                               recs: seq<seq<Byte>>)
    requires |blank| > 0 && Holds(hdr, data, AppendAll(Fresh(blank), recs), REC_SIZE)
    ensures |data| >= SECTOR && Records(norm, hdr, data) == DecodedLast(recs, |blank|, VectorOf(norm))
  {
    VectorIsLocal(norm);
    RegionReads(hdr, data, blank, recs, REC_SIZE, VectorOf(norm));
    assert Slots(data) == |blank|;
  }
}
