/** Walking GGUF metadata (the 'File Structure' section of the GGUF specification in ggml). */
module Gguf {
  import opened Bytes

  /** A short read makes `struct.unpack` raise; a length of 2^63 or more makes `f.read` raise. */
  datatype Error = ShortRead | TooLarge
  datatype Result<+T> = Ok(value: T) | Err(error: Error)

  const MAX_READ: nat := 0x7FFF_FFFF_FFFF_FFFF
  const STRING: nat := 8
  const ARRAY: nat := 9

  /** The size of a scalar type; 0 for the string, the array and the unknown types. */
  function ScalarSize(vt: nat): (n: nat)
    ensures n <= 8
  {
    if vt in {0, 1, 7} then 1
    else if vt in {2, 3} then 2
    else if vt in {4, 5, 6} then 4
    else if vt in {10, 11, 12} then 8
    else 0
  }

  /** Where the cursor is after `f.read(n)`: a read stops at the end of the file. */
  function Advance(data: seq<Byte>, pos: nat, n: nat): (q: nat)
    requires pos <= |data|
    ensures pos <= q <= |data|
  {
    if pos + n <= |data| then pos + n else |data|
  }

  /** `struct.unpack` of one integer at the cursor. */
  function ReadNum(data: seq<Byte>, pos: nat, width: nat): (n: Result<nat>)
    ensures n.Ok? <==> pos + width <= |data|
    ensures n.Err? ==> n.error == ShortRead
  {
    if pos + width <= |data| then Ok(LeDecode(data[pos..pos + width])) else Err(ShortRead)
  }

  /** Where a string at the cursor ends: it is read for its length and then by it. */
  function SkipString(data: seq<Byte>, pos: nat): (q: Result<nat>)
    requires pos <= |data|
    ensures q.Ok? ==> pos + 8 <= q.value <= |data|
  {
    match ReadNum(data, pos, 8)
    case Err(e) => Err(e)
    case Ok(sl) => if sl > MAX_READ then Err(TooLarge) else Ok(Advance(data, pos + 8, sl))
  }

  // --------------------------------------------------------------------------------------------
  // Skipping

  /** Where `skip_value` leaves the cursor. It ends on every file: each nesting of an array takes
      twelve bytes, and each element counts. */
  function Skip(data: seq<Byte>, pos: nat, vt: nat): (q: Result<nat>)
    requires pos <= |data|
    ensures q.Ok? ==> pos <= q.value <= |data|
    decreases |data| - pos, 0
  {
    if vt == STRING then SkipString(data, pos)
    else if vt == ARRAY then
      if pos + 12 > |data| then Err(ShortRead)
      else SkipMany(data, pos + 12, ElementType(data, pos), ElementCount(data, pos))
    else Ok(Advance(data, pos, ScalarSize(vt)))
  }

  function SkipMany(data: seq<Byte>, pos: nat, at: nat, count: nat): (q: Result<nat>)
    requires pos <= |data|
    ensures q.Ok? ==> pos <= q.value <= |data|
    decreases |data| - pos, count
  {
    if count == 0 then Ok(pos)
    else match Skip(data, pos, at)
      case Err(e) => Err(e)
      case Ok(next) => SkipMany(data, next, at, count - 1)
  }

  /** The two integers of an array header, `<IQ`. */
  function ElementType(data: seq<Byte>, pos: nat): (at: nat)
    requires pos + 12 <= |data|
  {
    LeDecode(data[pos..pos + 4])
  }

  function ElementCount(data: seq<Byte>, pos: nat): (ac: nat)
    requires pos + 12 <= |data|
  {
    LeDecode(data[pos + 4..pos + 12])
  }

  // --------------------------------------------------------------------------------------------
  // Values and their encoding

  datatype GValue =
    | Scalar(vt: nat, bytes: seq<Byte>)
    | Str(text: seq<Byte>)
    | Arr(at: nat, items: seq<GValue>)

  function TypeOf(v: GValue): (vt: nat) {
    match v
    case Scalar(vt, _) => vt
    case Str(_) => STRING
    case Arr(_, _) => ARRAY
  }

  predicate WellFormed(v: GValue)
    decreases v
  {
    match v
    case Scalar(vt, bytes) => ScalarSize(vt) > 0 && |bytes| == ScalarSize(vt)
    case Str(text) => |text| < 0x1_0000_0000_0000_0000
    case Arr(at, items) =>
      && at < 0x1_0000_0000 && |items| < 0x1_0000_0000_0000_0000
      && (forall i :: 0 <= i < |items| ==> WellFormed(items[i]) && TypeOf(items[i]) == at)
  }

  predicate AllWellFormed(items: seq<GValue>, at: nat) {
    forall i :: 0 <= i < |items| ==> WellFormed(items[i]) && TypeOf(items[i]) == at
  }

  function EncodeString(text: seq<Byte>): (bs: seq<Byte>)
    requires |text| < 0x1_0000_0000_0000_0000
    ensures |bs| == 8 + |text|
  {
    Widths();
    LeEncode(|text|, 8) + text
  }

  function Encode(v: GValue): (bs: seq<Byte>)
    requires WellFormed(v)
    decreases v
  {
    match v
    case Scalar(_, bytes) => bytes
    case Str(text) => EncodeString(text)
    case Arr(at, items) =>
      Widths();
      LeEncode(at, 4) + LeEncode(|items|, 8) + EncodeAll(items, at)
  }

  function EncodeAll(items: seq<GValue>, at: nat): (bs: seq<Byte>)
    requires AllWellFormed(items, at)
    decreases items
  {
    if items == [] then [] else Encode(items[0]) + EncodeAll(items[1..], at)
  }

  /** A string too long for one `f.read` somewhere inside. */
  predicate Huge(v: GValue)
    decreases v
  {
    match v
    case Scalar(_, _) => false
    case Str(text) => |text| > MAX_READ
    case Arr(_, items) => AnyHuge(items)
  }

  predicate AnyHuge(items: seq<GValue>)
    decreases items
  {
    items != [] && (Huge(items[0]) || AnyHuge(items[1..]))
  }

  /** The file holds these bytes at this position. */
  ghost predicate HasAt(data: seq<Byte>, pos: nat, bs: seq<Byte>) {
    pos + |bs| <= |data| && data[pos..pos + |bs|] == bs
  }

  lemma {:induction false} HasConcat(data: seq<Byte>, pos: nat, a: seq<Byte>, b: seq<Byte>)
    ensures HasAt(data, pos, a + b) <==> HasAt(data, pos, a) && HasAt(data, pos + |a|, b)
  {
    if pos + |a| + |b| <= |data| {
      assert data[pos..pos + |a| + |b|] == data[pos..pos + |a|] + data[pos + |a|..pos + |a| + |b|];
      if HasAt(data, pos, a + b) {
        assert a == (a + b)[..|a|] && b == (a + b)[|a|..];
      }
    }
  }

  lemma {:induction false} ReadsNumber(data: seq<Byte>, pos: nat, n: nat, width: nat)
    requires n < Pow256(width) && HasAt(data, pos, LeEncode(n, width))
    ensures ReadNum(data, pos, width) == Ok(n)
  {
    LeDecodeEncode(n, width);
  }

  lemma {:induction false} StringConsumed(data: seq<Byte>, pos: nat, text: seq<Byte>)
    requires |text| < 0x1_0000_0000_0000_0000 && HasAt(data, pos, EncodeString(text))
    ensures SkipString(data, pos) == if |text| > MAX_READ then Err(TooLarge) else Ok(pos + 8 + |text|)
    ensures HasAt(data, pos + 8, text)
  {
    Widths();
    HasConcat(data, pos, LeEncode(|text|, 8), text);
    ReadsNumber(data, pos, |text|, 8);
  }

  lemma {:induction false} ArrayHeaderRead(data: seq<Byte>, pos: nat, at: nat, count: nat, rest: seq<Byte>)
    requires at < Pow256(4) && count < Pow256(8)
    requires HasAt(data, pos, LeEncode(at, 4) + LeEncode(count, 8) + rest)
    ensures pos + 12 <= |data| && ElementType(data, pos) == at && ElementCount(data, pos) == count
    ensures HasAt(data, pos + 12, rest)
  {
    HasConcat(data, pos, LeEncode(at, 4) + LeEncode(count, 8), rest);
    HasConcat(data, pos, LeEncode(at, 4), LeEncode(count, 8));
    LeDecodeEncode(at, 4);
    LeDecodeEncode(count, 8);
  }

  /** Skipping consumes exactly the encoding of every well-formed value, however deeply its arrays are
      nested; it fails only on a string too long to be read in one piece. */
  lemma {:induction false} SkipConsumesValue(data: seq<Byte>, pos: nat, v: GValue)
    requires WellFormed(v) && HasAt(data, pos, Encode(v))
    ensures Skip(data, pos, TypeOf(v)) == if Huge(v) then Err(TooLarge) else Ok(pos + |Encode(v)|)
    decreases v
  {
    match v
    case Scalar(vt, bytes) =>
    case Str(text) =>
      StringConsumed(data, pos, text);
    case Arr(at, items) =>
      Widths();
      ArrayHeaderRead(data, pos, at, |items|, EncodeAll(items, at));
      SkipConsumesItems(data, pos + 12, items, at);
  }

  lemma {:induction false} SkipConsumesItems(data: seq<Byte>, pos: nat, items: seq<GValue>, at: nat)
    requires AllWellFormed(items, at) && HasAt(data, pos, EncodeAll(items, at))
    ensures SkipMany(data, pos, at, |items|) ==
            if AnyHuge(items) then Err(TooLarge) else Ok(pos + |EncodeAll(items, at)|)
    decreases items
  {
    if items != [] {
      HasConcat(data, pos, Encode(items[0]), EncodeAll(items[1..], at));
      SkipConsumesValue(data, pos, items[0]);
      if !Huge(items[0]) {
        SkipConsumesItems(data, pos + |Encode(items[0])|, items[1..], at);
      }
    }
  }

  // --------------------------------------------------------------------------------------------
  // The print path of the key dump

  /** Where `read_value` leaves the cursor: unlike skipping it unpacks scalars, so a short one raises,
      and it has no case for arrays. */
  function ReadValue(data: seq<Byte>, pos: nat, vt: nat): (q: Result<nat>)
    requires pos <= |data|
    ensures q.Ok? ==> pos <= q.value <= |data|
  {
    if vt == STRING then SkipString(data, pos)
    else if pos + ScalarSize(vt) <= |data| then Ok(pos + ScalarSize(vt))
    else Err(ShortRead)
  }

  function ReadMany(data: seq<Byte>, pos: nat, at: nat, count: nat): (q: Result<nat>)
    requires pos <= |data|
    ensures q.Ok? ==> pos <= q.value <= |data|
    decreases count
  {
    if count == 0 then Ok(pos)
    else match ReadValue(data, pos, at)
      case Err(e) => Err(e)
      case Ok(next) => ReadMany(data, next, at, count - 1)
  }

  /** The elements of a printed array: all of up to ten, else three, a skipped middle, and the last. */
  function PrintElements(data: seq<Byte>, pos: nat, at: nat, ac: nat): (q: Result<nat>)
    requires pos <= |data|
    ensures q.Ok? ==> pos <= q.value <= |data|
  {
    if ac <= 10 then ReadMany(data, pos, at, ac)
    else match ReadMany(data, pos, at, 3)
      case Err(e) => Err(e)
      case Ok(p) =>
        match SkipMany(data, p, at, ac - 4)
        case Err(e) => Err(e)
        case Ok(q) => ReadValue(data, q, at)
  }

  lemma {:induction false} SkipManySplits(data: seq<Byte>, pos: nat, at: nat, m: nat, n: nat)
    requires pos <= |data|
    ensures SkipMany(data, pos, at, m + n) ==
            match SkipMany(data, pos, at, m)
            case Err(e) => Err(e)
            case Ok(p) => SkipMany(data, p, at, n)
    decreases m
  {
    if m > 0 {
      var next := Skip(data, pos, at);
      if next.Ok? {
        SkipManySplits(data, next.value, at, m - 1, n);
      }
    }
  }

  lemma {:induction false} SkipsScalars(data: seq<Byte>, pos: nat, at: nat, count: nat)
    requires pos <= |data| && at != STRING && at != ARRAY
    ensures SkipMany(data, pos, at, count) == Ok(Advance(data, pos, count * ScalarSize(at)))
    decreases count
  {
    if count > 0 {
      var next := Advance(data, pos, ScalarSize(at));
      assert count * ScalarSize(at) == ScalarSize(at) + (count - 1) * ScalarSize(at);
      SkipsScalars(data, next, at, count - 1);
      assert (count - 1) * ScalarSize(at) >= 0;
    }
  }

  lemma {:induction false} ReadsScalars(data: seq<Byte>, pos: nat, at: nat, count: nat)
    requires pos <= |data| && at != STRING
    ensures ReadMany(data, pos, at, count) ==
            if pos + count * ScalarSize(at) <= |data| then Ok(pos + count * ScalarSize(at)) else Err(ShortRead)
    decreases count
  {
    if count > 0 {
      assert count * ScalarSize(at) == ScalarSize(at) + (count - 1) * ScalarSize(at);
      assert (count - 1) * ScalarSize(at) >= 0;
      if pos + ScalarSize(at) <= |data| {
        ReadsScalars(data, pos + ScalarSize(at), at, count - 1);
      }
    }
  }

  lemma {:induction false} ReadsStrings(data: seq<Byte>, pos: nat, count: nat)
    requires pos <= |data|
    ensures ReadMany(data, pos, STRING, count) == SkipMany(data, pos, STRING, count)
    decreases count
  {
    if count > 0 {
      var next := SkipString(data, pos);
      if next.Ok? {
        ReadsStrings(data, next.value, count - 1);
      }
    }
  }

  lemma {:induction false} PrintsStrings(data: seq<Byte>, pos: nat, ac: nat)
    requires pos <= |data|
    ensures PrintElements(data, pos, STRING, ac) == SkipMany(data, pos, STRING, ac)
  {
    if ac <= 10 {
      ReadsStrings(data, pos, ac);
    } else {
      ReadsStrings(data, pos, 3);
      SkipManySplits(data, pos, STRING, 3, ac - 3);
      var p := SkipMany(data, pos, STRING, 3);
      if p.Ok? {
        SkipManySplits(data, p.value, STRING, ac - 4, 1);
        var q := SkipMany(data, p.value, STRING, ac - 4);
        if q.Ok? {
          SkipOne(data, q.value, STRING);
        }
      }
    }
  }

  lemma {:induction false} SkipOne(data: seq<Byte>, pos: nat, at: nat)
    requires pos <= |data|
    ensures SkipMany(data, pos, at, 1) == Skip(data, pos, at)
  {
    var next := Skip(data, pos, at);
    if next.Ok? {
      assert SkipMany(data, next.value, at, 0) == Ok(next.value);
    }
  }

  lemma {:induction false} PrintsScalars(data: seq<Byte>, pos: nat, at: nat, ac: nat)
    requires pos <= |data| && at != STRING && at != ARRAY
    ensures PrintElements(data, pos, at, ac) ==
            if pos + ac * ScalarSize(at) <= |data| then Ok(pos + ac * ScalarSize(at)) else Err(ShortRead)
  {
    var size := ScalarSize(at);
    if ac <= 10 {
      ReadsScalars(data, pos, at, ac);
    } else {
      ReadsScalars(data, pos, at, 3);
      assert ac * size == 3 * size + (ac - 4) * size + size;
      assert (ac - 4) * size >= 0;
      if pos + 3 * size <= |data| {
        SkipsScalars(data, pos + 3 * size, at, ac - 4);
      }
    }
  }

  lemma {:induction false} ArraysTakeTwelve(data: seq<Byte>, pos: nat, count: nat)
    requires pos <= |data| && SkipMany(data, pos, ARRAY, count).Ok?
    ensures SkipMany(data, pos, ARRAY, count).value >= pos + 12 * count
    decreases count
  {
    if count > 0 {
      var next := Skip(data, pos, ARRAY);
      ArraysTakeTwelve(data, next.value, count - 1);
    }
  }

  lemma {:induction false} PrintsNoArrays(data: seq<Byte>, pos: nat, ac: nat)
    requires pos <= |data|
    ensures PrintElements(data, pos, ARRAY, ac) ==
            if ac <= 10 then Ok(pos) else SkipMany(data, pos, ARRAY, ac - 4)
  {
    ReadsScalars(data, pos, ARRAY, if ac <= 10 then ac else 3);
  }

  lemma {:induction false} PrintsLikeSkipsArrays(data: seq<Byte>, pos: nat, ac: nat)
    requires pos <= |data| && SkipMany(data, pos, ARRAY, ac).Ok?
    ensures PrintElements(data, pos, ARRAY, ac) == SkipMany(data, pos, ARRAY, ac) <==> ac == 0
  {
    PrintsNoArrays(data, pos, ac);
    if ac <= 10 {
      ArraysTakeTwelve(data, pos, ac);
    } else {
      SkipManySplits(data, pos, ARRAY, ac - 4, 4);
      ArraysTakeTwelve(data, SkipMany(data, pos, ARRAY, ac - 4).value, 4);
    }
  }

  lemma {:induction false} PrintsLikeSkipsScalars(data: seq<Byte>, pos: nat, at: nat, ac: nat)
    requires pos <= |data| && at != STRING && at != ARRAY
    ensures PrintElements(data, pos, at, ac) == SkipMany(data, pos, at, ac)
            <==> pos + ac * ScalarSize(at) <= |data|
  {
    PrintsScalars(data, pos, at, ac);
    SkipsScalars(data, pos, at, ac);
  }

  /** Printing an array that can be skipped consumes the same bytes as skipping it exactly when it has
      no elements, or its elements are not arrays and, if they are scalars, are all in the file. */
  lemma {:induction false} PrintConsumesLikeSkipIff(data: seq<Byte>, pos: nat, at: nat, ac: nat)
    requires pos <= |data| && SkipMany(data, pos, at, ac).Ok?
    ensures PrintElements(data, pos, at, ac) == SkipMany(data, pos, at, ac)
            <==> ac == 0 || (at != ARRAY && pos + ac * ScalarSize(at) <= |data|)
  {
    if at == STRING {
      PrintsStrings(data, pos, ac);
      assert ac * ScalarSize(at) == 0;
    } else if at == ARRAY {
      PrintsLikeSkipsArrays(data, pos, ac);
    } else {
      PrintsLikeSkipsScalars(data, pos, at, ac);
      assert ac == 0 ==> ac * ScalarSize(at) == 0;
    }
  }

  /** Where the key dump is after printing a value. */
  function PrintValue(data: seq<Byte>, pos: nat, vt: nat): (q: Result<nat>)
    requires pos <= |data|
    ensures q.Ok? ==> pos <= q.value <= |data|
  {
    if vt != ARRAY then ReadValue(data, pos, vt)
    else if pos + 12 > |data| then Err(ShortRead)
    else PrintElements(data, pos + 12, ElementType(data, pos), ElementCount(data, pos))
  }

  lemma {:induction false} ScalarsEncoded(items: seq<GValue>, at: nat)
    requires AllWellFormed(items, at) && at != STRING && at != ARRAY
    ensures |EncodeAll(items, at)| == |items| * ScalarSize(at)
  {
    if items != [] {
      ScalarsEncoded(items[1..], at);
      assert |items| * ScalarSize(at) == ScalarSize(at) + (|items| - 1) * ScalarSize(at);
    }
  }

  predicate NestedArray(v: GValue) {
    v.Arr? && v.at == ARRAY && v.items != []
  }

  lemma {:induction false} PrintConsumesItemsIff(data: seq<Byte>, pos: nat, items: seq<GValue>, at: nat)
    requires AllWellFormed(items, at) && HasAt(data, pos, EncodeAll(items, at)) && !AnyHuge(items)
    ensures PrintElements(data, pos, at, |items|) == Ok(pos + |EncodeAll(items, at)|)
            <==> !(at == ARRAY && items != [])
  {
    SkipConsumesItems(data, pos, items, at);
    PrintConsumesLikeSkipIff(data, pos, at, |items|);
    if at != STRING && at != ARRAY {
      ScalarsEncoded(items, at);
    } else {
      assert |items| * ScalarSize(at) == 0;
    }
  }

  lemma {:induction false} PrintsElements(data: seq<Byte>, pos: nat, at: nat, count: nat, rest: seq<Byte>)
    requires at < Pow256(4) && count < Pow256(8)
    requires HasAt(data, pos, LeEncode(at, 4) + LeEncode(count, 8) + rest)
    ensures pos + 12 <= |data| && HasAt(data, pos + 12, rest)
    ensures PrintValue(data, pos, ARRAY) == PrintElements(data, pos + 12, at, count)
  {
    ArrayHeaderRead(data, pos, at, count, rest);
  }

  /** The key dump consumes exactly the encoding of every well-formed value except the non-empty arrays
      of arrays, of which it loses its place. */
  lemma {:induction false} PrintConsumesValueIff(data: seq<Byte>, pos: nat, v: GValue)
    requires WellFormed(v) && HasAt(data, pos, Encode(v)) && !Huge(v)
    ensures PrintValue(data, pos, TypeOf(v)) == Ok(pos + |Encode(v)|) <==> !NestedArray(v)
  {
    match v
    case Scalar(vt, bytes) =>
    case Str(text) =>
      StringConsumed(data, pos, text);
    case Arr(at, items) =>
      Widths();
      PrintsElements(data, pos, at, |items|, EncodeAll(items, at));
      PrintConsumesItemsIff(data, pos + 12, items, at);
  }
}
