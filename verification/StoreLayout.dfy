/** What the five on-disk stores share: a header sector followed by a circular log of records. */
module StoreLayout {
  import opened Bytes
  import opened Checksum
  import opened CircularLog
  import opened Newest

  const SECTOR: nat := 512

  datatype Error = ShortRead | BadMagic | WrongLength
  datatype Result<+T> = Ok(value: T) | Err(error: Error)

  /** What `struct.unpack_from` and slicing see of a buffer from an offset on: numbers by offset and
      width, and bytes by bounds. */
  datatype View = View(num: (nat, nat) -> nat, bytes: (nat, nat) -> seq<Byte>)

  function At(data: seq<Byte>, off: nat): (v: View) {
    View((a, width) => LeDecode(Slice(data, off + a, off + a + width)),
         (lo, hi) => Slice(data, off + lo, off + hi))
  }

  /** Two views show the same within the first `size` bytes. */
  ghost predicate Agree(v: View, v': View, size: nat) {
    && (forall a: nat, width: nat {:trigger v.num(a, width)} :: a + width <= size ==> v.num(a, width) == v'.num(a, width))
    && (forall lo: nat, hi: nat {:trigger v.bytes(lo, hi)} :: lo <= hi <= size ==> v.bytes(lo, hi) == v'.bytes(lo, hi))
  }

  /** A decoder looks at the first `size` bytes only. */
  ghost predicate Local<R>(decode: View -> R, size: nat) {
    forall v, v' :: Agree(v, v', size) ==> decode(v) == decode(v')
  }

  lemma {:induction false} SliceOfSlice(data: seq<Byte>, off: nat, size: nat, lo: nat, hi: nat)
    requires off + size <= |data| && lo <= hi <= size
    ensures Slice(data, off + lo, off + hi) == Slice(data[off..off + size], lo, hi)
  {
    var rec := data[off..off + size];
    assert |data[off + lo..off + hi]| == |rec[lo..hi]|;
    assert forall i :: 0 <= i < hi - lo ==> data[off + lo..off + hi][i] == rec[lo..hi][i];
  }

  /** The view of a record inside a buffer agrees with the view of its own bytes. */
  lemma {:induction false} RecordView(data: seq<Byte>, off: nat, size: nat)
    requires off + size <= |data|
    ensures Agree(At(data, off), At(data[off..off + size], 0), size)
  {
    var rec := data[off..off + size];
    var v, v' := At(data, off), At(rec, 0);
    forall lo: nat, hi: nat | lo <= hi <= size ensures v.bytes(lo, hi) == v'.bytes(lo, hi) {
      SliceOfSlice(data, off, size, lo, hi);
    }
    forall a: nat, width: nat | a + width <= size ensures v.num(a, width) == v'.num(a, width) {
      SliceOfSlice(data, off, size, a, a + width);
    }
  }

  datatype Header = Header(magic: nat, version: nat, cursor: nat, total: nat, bootId: nat, checksum: nat,
                           checksumOk: bool)

  function HeaderFrom(v: View, checksumOk: bool): (h: Header) {
    Header(v.num(0, 4), v.num(4, 4), v.num(8, 4), v.num(12, 4), v.num(16, 4), v.num(60, 4), checksumOk)
  }

  /** The header sector: five words, and at word 15 the exclusive or of words 0 to 14. */
  function HeaderOf(data: seq<Byte>): (h: Header)
    requires |data| >= SECTOR
  {
    HeaderFrom(At(data, 0), Matches(Words(data), 15, 15))
  }

  /** `parse_header`: raises on a short buffer, reports magic and checksum without judging them. */
  method ParseHeader(data: seq<Byte>) returns (r: Result<Header>)
    ensures r == if |data| < SECTOR then Err(ShortRead) else Ok(HeaderOf(data))
  {
    if |data| < SECTOR {
      return Err(ShortRead);
    }
    var checksum := WordAt(data, 15);
    assert checksum == Words(data)[15];
    var computed := XorWords(data, 15, NoSkip);
    r := Ok(HeaderFrom(At(data, 0), computed == checksum));
  }

  /** The header checksum holds exactly when the first sixteen words XOR to zero. */
  lemma {:induction false} HeaderChecksumOkIff(data: seq<Byte>)
    requires |data| >= SECTOR
    ensures HeaderOf(data).checksumOk <==> XorAll(Words(data)[..16]) == 0
  {
    MatchesIffAllXorToZero(Words(data), 15, 15);
    assert Involved(Words(data), 15, 15) == Words(data)[..16];
  }

  lemma {:induction false} WordsDiffer(buf: seq<Byte>, buf': seq<Byte>, j: nat)
    requires |buf| == |buf'| && 4 * j + 4 <= |buf|
    requires buf[..4 * j] == buf'[..4 * j] && buf[4 * j + 4..] == buf'[4 * j + 4..]
    ensures Words(buf') == Words(buf)[j := WordAt(buf', j)]
    ensures WordAt(buf, j) == WordAt(buf', j) <==> buf == buf'
  {
    forall i | 0 <= i < |buf| / 4 && i != j ensures WordAt(buf, i) == WordAt(buf', i) {
      if i < j {
        assert buf[4 * i..4 * i + 4] == buf[..4 * j][4 * i..4 * i + 4];
        assert buf'[4 * i..4 * i + 4] == buf'[..4 * j][4 * i..4 * i + 4];
      } else {
        assert buf[4 * i..4 * i + 4] == buf[4 * j + 4..][4 * i - 4 * j - 4..4 * i - 4 * j];
        assert buf'[4 * i..4 * i + 4] == buf'[4 * j + 4..][4 * i - 4 * j - 4..4 * i - 4 * j];
      }
    }
    var w, w' := buf[4 * j..4 * j + 4], buf'[4 * j..4 * j + 4];
    LeEncodeDecode(w);
    LeEncodeDecode(w');
    assert buf == buf[..4 * j] + w + buf[4 * j + 4..];
    assert buf' == buf'[..4 * j] + w' + buf'[4 * j + 4..];
  }

  /** Bytes changed within one of the sixteen words of a good header always break its checksum. */
  lemma {:induction false} HeaderChangeIsRejected(data: seq<Byte>, data': seq<Byte>, j: nat)
    requires |data| == |data'| && |data| >= SECTOR && j < 16
    requires data[..4 * j] == data'[..4 * j] && data[4 * j + 4..] == data'[4 * j + 4..]
    requires HeaderOf(data).checksumOk
    ensures HeaderOf(data').checksumOk <==> data == data'
  {
    WordsDiffer(data, data', j);
    ChangeOfOneWordIsRejected(Words(data), 15, 15, j, WordAt(data', j));
  }

  /** The whole region of a store: the header carries the cursor and the total of the log, and each
      slot its record. */
  ghost predicate Holds(hdr: Header, data: seq<Byte>, l: Log<seq<Byte>>, size: nat) {
    && |data| == SECTOR + |l.slots| * size
    && hdr.cursor == l.cursor && hdr.total == l.total
    && forall j {:trigger l.slots[j]} :: 0 <= j < |l.slots| ==> HoldsAt(data, SECTOR + j * size, l.slots[j], size)
  }

  predicate HoldsAt(data: seq<Byte>, off: nat, rec: seq<Byte>, size: nat) {
    off + size <= |data| && data[off..off + size] == rec
  }

  /** The records a reader makes of the slots of an order. */
  function Decoded<R>(data: seq<Byte>, order: seq<nat>, size: nat, decode: View -> R): (recs: seq<R>)
    ensures |recs| == |order|
  {
    seq(|order|, i requires 0 <= i < |order| => decode(At(data, SECTOR + order[i] * size)))
  }

  /** The records a reader should return: the last ones appended, each decoded from its own bytes. */
  function DecodedLast<R>(recs: seq<seq<Byte>>, n: nat, decode: View -> R): (out: seq<R>) {
    var last := Last(recs, n);
    seq(|last|, i requires 0 <= i < |last| => decode(At(last[i], 0)))
  }

  lemma {:induction false} DecodedSlot<R>(data: seq<Byte>, off: nat, rec: seq<Byte>, size: nat, decode: View -> R)
    requires HoldsAt(data, off, rec, size) && Local(decode, size)
    ensures decode(At(data, off)) == decode(At(rec, 0))
  {
    RecordView(data, off, size);
  }

  lemma {:induction false} DecodedSlots<R>(hdr: Header, data: seq<Byte>, l: Log<seq<Byte>>, size: nat, order: seq<nat>,
                        last: seq<seq<Byte>>, decode: View -> R)
    requires Holds(hdr, data, l, size) && Local(decode, size) && |order| == |last|
    requires forall i :: 0 <= i < |order| ==> order[i] < |l.slots| && l.slots[order[i]] == last[i]
    ensures Decoded(data, order, size, decode) == DecodedLast(last, |last|, decode)
  {
    assert Last(last, |last|) == last;
    forall i | 0 <= i < |order|
      ensures decode(At(data, SECTOR + order[i] * size)) == decode(At(last[i], 0))
    {
      assert l.slots[order[i]] == last[i];
      DecodedSlot(data, SECTOR + order[i] * size, last[i], size, decode);
    }
  }

  lemma {:induction false} HeldHeader(hdr: Header, data: seq<Byte>, blank: seq<seq<Byte>>, recs: seq<seq<Byte>>, size: nat)
    requires |blank| > 0 && Holds(hdr, data, AppendAll(Fresh(blank), recs), size)
    ensures hdr.total == |recs| && hdr.cursor == |recs| % |blank| && |data| == SECTOR + |blank| * size
  {
    SlotsAfter(blank, recs);
  }

  /** For any number of appends to a store of any capacity, decoding the slots of the whole region in
      the order of either convention gives exactly the last records appended, oldest to newest. */
  lemma {:induction false} RegionReads<R>(hdr: Header, data: seq<Byte>, blank: seq<seq<Byte>>, recs: seq<seq<Byte>>, size: nat,
                       decode: View -> R)
    requires |blank| > 0 && Holds(hdr, data, AppendAll(Fresh(blank), recs), size) && Local(decode, size)
    ensures var order := OrderAbove(hdr.cursor, hdr.total, |blank|);
            && order == OrderAtLeast(hdr.cursor, hdr.total, |blank|)
            && Decoded(data, order, size, decode) == DecodedLast(recs, |blank|, decode)
  {
    ReadsBackTheLast(blank, recs);
    var last := Last(recs, |blank|);
    DecodedSlots(hdr, data, AppendAll(Fresh(blank), recs), size,
                 OrderAbove(hdr.cursor, hdr.total, |blank|), last, decode);
    assert Last(last, |last|) == last;
  }

  /** The slots of an order hold these records, one each. */
  ghost predicate HoldsInOrder(data: seq<Byte>, order: seq<nat>, recs: seq<seq<Byte>>, size: nat) {
    && |order| == |recs|
    && forall i :: 0 <= i < |order| ==> HoldsAt(data, SECTOR + order[i] * size, recs[i], size)
  }

  lemma {:induction false} SlotsHeld(hdr: Header, data: seq<Byte>, l: Log<seq<Byte>>, size: nat, order: seq<nat>,
                  last: seq<seq<Byte>>)
    requires Holds(hdr, data, l, size) && |order| == |last|
    requires forall i :: 0 <= i < |order| ==> order[i] < |l.slots| && l.slots[order[i]] == last[i]
    ensures HoldsInOrder(data, order, last, size)
  {
    forall i | 0 <= i < |order| ensures HoldsAt(data, SECTOR + order[i] * size, last[i], size) {
      assert l.slots[order[i]] == last[i];
    }
  }

  /** In the order of the slots, the region holds the last records appended. */
  lemma {:induction false} RegionHoldsTheLast(hdr: Header, data: seq<Byte>, blank: seq<seq<Byte>>, recs: seq<seq<Byte>>, size: nat)
    requires |blank| > 0 && Holds(hdr, data, AppendAll(Fresh(blank), recs), size)
    ensures HoldsInOrder(data, OrderAbove(hdr.cursor, hdr.total, |blank|), Last(recs, |blank|), size)
  {
    ReadsBackTheLast(blank, recs);
    SlotsHeld(hdr, data, AppendAll(Fresh(blank), recs), size,
              OrderAbove(hdr.cursor, hdr.total, |blank|), Last(recs, |blank|));
  }

  /** The slots whose sectors lie inside a buffer of `size` bytes. */
  function Present(order: seq<nat>, size: nat): (slots: seq<nat>) {
    if order == [] then []
    else
      Present(order[..|order| - 1], size)
      + if (order[|order| - 1] + 2) * SECTOR <= size then [order[|order| - 1]] else []
  }

  lemma {:induction false} AllPresent(order: seq<nat>, size: nat)
    requires forall i :: 0 <= i < |order| ==> (order[i] + 2) * SECTOR <= size
    ensures Present(order, size) == order
  {
    if order != [] {
      AllPresent(order[..|order| - 1], size);
    }
  }

  /** The loop of the readers that skip a slot whose sector is not in the buffer. */
  method DecodeSlots<R>(data: seq<Byte>, order: seq<nat>, decode: View -> R) returns (out: seq<R>)
    ensures out == Decoded(data, Present(order, |data|), SECTOR, decode)
  {
    out := [];
    for i := 0 to |order|
      invariant out == Decoded(data, Present(order[..i], |data|), SECTOR, decode)
    {
      assert order[..i + 1][..i] == order[..i];
      var off := (order[i] + 1) * SECTOR;
      if off + SECTOR > |data| {
        continue;
      }
      out := out + [decode(At(data, off))];
    }
    assert order[..|order|] == order;
  }
}
