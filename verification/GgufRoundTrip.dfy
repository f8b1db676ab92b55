/** What the tensor dump makes of a whole well-formed file. */
module GgufRoundTrip {
  import opened Bytes
  import opened Framing
  import opened Gguf
  import opened GgufFile

  datatype KeyValue = KeyValue(key: seq<Byte>, value: GValue)

  datatype TensorInfo = TensorInfo(tensor: Tensor, offset: nat)

  const BIG: nat := 0x1_0000_0000_0000_0000

  predicate KeyOk(kv: KeyValue) {
    |kv.key| < BIG && WellFormed(kv.value) && TypeOf(kv.value) < 0x1_0000_0000
  }

  predicate TensorOk(t: TensorInfo) {
    && |t.tensor.name| < BIG && |t.tensor.dims| < 0x1_0000_0000
    && (forall i :: 0 <= i < |t.tensor.dims| ==> t.tensor.dims[i] < BIG)
    && t.tensor.tt < 0x1_0000_0000 && t.offset < BIG
  }

  function EncodeKey(kv: KeyValue): (bs: seq<Byte>)
    requires KeyOk(kv)
  {
    Widths();
    EncodeString(kv.key) + LeEncode(TypeOf(kv.value), 4) + Encode(kv.value)
  }

  function EncodeDims(dims: seq<nat>): (bs: seq<Byte>)
    requires forall i :: 0 <= i < |dims| ==> dims[i] < BIG
    ensures |bs| == 8 * |dims|
  {
    Widths();
    if dims == [] then [] else LeEncode(dims[0], 8) + EncodeDims(dims[1..])
  }

  function EncodeShape(dims: seq<nat>, tt: nat, offset: nat): (bs: seq<Byte>)
    requires |dims| < 0x1_0000_0000 && (forall i :: 0 <= i < |dims| ==> dims[i] < BIG)
    requires tt < 0x1_0000_0000 && offset < BIG
    ensures |bs| == 16 + 8 * |dims|
  {
    Widths();
    LeEncode(|dims|, 4) + (EncodeDims(dims) + (LeEncode(tt, 4) + LeEncode(offset, 8)))
  }

  function EncodeTensor(t: TensorInfo): (bs: seq<Byte>)
    requires TensorOk(t)
  {
    Widths();
    EncodeString(t.tensor.name) + EncodeShape(t.tensor.dims, t.tensor.tt, t.offset)
  }

  /** The encoded keys, and the encoded tensor infos, one byte string each. */
  function KeyParts(kvs: seq<KeyValue>): (parts: seq<seq<Byte>>)
    requires forall i :: 0 <= i < |kvs| ==> KeyOk(kvs[i])
    ensures |parts| == |kvs| && forall i :: 0 <= i < |kvs| ==> parts[i] == EncodeKey(kvs[i])
  {
    seq(|kvs|, i requires 0 <= i < |kvs| => EncodeKey(kvs[i]))
  }

  function TensorParts(ts: seq<TensorInfo>): (parts: seq<seq<Byte>>)
    requires forall i :: 0 <= i < |ts| ==> TensorOk(ts[i])
    ensures |parts| == |ts| && forall i :: 0 <= i < |ts| ==> parts[i] == EncodeTensor(ts[i])
  {
    seq(|ts|, i requires 0 <= i < |ts| => EncodeTensor(ts[i]))
  }

  predicate HugeKey(kv: KeyValue) {
    |kv.key| > MAX_READ || Huge(kv.value)
  }

  lemma {:induction false} KeyHeaderRead(data: seq<Byte>, pos: nat, kv: KeyValue)
    requires KeyOk(kv) && HasAt(data, pos, EncodeKey(kv))
    ensures var p := pos + 8 + |kv.key|;
            && HasAt(data, pos, EncodeString(kv.key))
            && ReadNum(data, p, 4) == Ok(TypeOf(kv.value))
            && HasAt(data, p + 4, Encode(kv.value)) && |EncodeKey(kv)| == 12 + |kv.key| + |Encode(kv.value)|
  {
    Widths();
    var key, vt, value := EncodeString(kv.key), LeEncode(TypeOf(kv.value), 4), Encode(kv.value);
    HasConcat(data, pos, key + vt, value);
    HasConcat(data, pos, key, vt);
    ReadsNumber(data, pos + |key|, TypeOf(kv.value), 4);
  }

  lemma {:induction false} SkipKeyIs(data: seq<Byte>, pos: nat, key: Result<nat>, vt: nat)
    requires pos <= |data| && SkipString(data, pos) == key
    requires key.Ok? ==> key.value + 4 <= |data| && ReadNum(data, key.value, 4) == Ok(vt)
    ensures SkipKey(data, pos) == match key
                                  case Err(e) => Err(e)
                                  case Ok(p) => Skip(data, p + 4, vt)
  {
  }

  lemma {:induction false} KeyConsumed(data: seq<Byte>, pos: nat, kv: KeyValue)
    requires KeyOk(kv) && HasAt(data, pos, EncodeKey(kv))
    ensures SkipKey(data, pos) == if HugeKey(kv) then Err(TooLarge) else Ok(pos + |EncodeKey(kv)|)
  {
    KeyHeaderRead(data, pos, kv);
    StringConsumed(data, pos, kv.key);
    SkipKeyIs(data, pos, SkipString(data, pos), TypeOf(kv.value));
    SkipConsumesValue(data, pos + 12 + |kv.key|, kv.value);
  }

  /** What a step makes of each part: the thing it encodes, or an error. */
  ghost predicate StepReads<T(!new)>(data: seq<Byte>, step: nat -> Result<(T, nat)>, part: seq<Byte>, want: Result<T>) {
    forall pos: nat {:trigger HasAt(data, pos, part)} :: HasAt(data, pos, part) ==>
      step(pos) == match want
                   case Err(e) => Err(e)
                   case Ok(t) => Ok((t, pos + |part|))
  }

  /** All the things wanted, or the first error among them. */
  function Gather<T>(wants: seq<Result<T>>): (r: Result<seq<T>>) {
    if wants == [] then Ok([])
    else match wants[0]
      case Err(e) => Err(e)
      case Ok(t) =>
        match Gather(wants[1..])
        case Err(e) => Err(e)
        case Ok(ts) => Ok([t] + ts)
  }

  /** A loop over encoded things reads them all and ends exactly where they end. */
  lemma {:induction false} LoopReads<T(!new)>(data: seq<Byte>, pos: nat, step: nat -> Result<(T, nat)>,
                                              parts: seq<seq<Byte>>, wants: seq<Result<T>>, done: seq<T>)
    requires |parts| == |wants| && forall i :: 0 <= i < |parts| ==> StepReads(data, step, parts[i], wants[i])
    requires HasAt(data, pos, Join(parts))
    ensures ReadLoop(step, pos, |parts|, done) ==
            match Gather(wants)
            case Err(e) => Err(e)
            case Ok(ts) => Ok((done + ts, pos + |Join(parts)|))
    decreases |parts|
  {
    if parts == [] {
      assert done + [] == done;
    } else {
      HasConcat(data, pos, parts[0], Join(parts[1..]));
      assert StepReads(data, step, parts[0], wants[0]);
      if wants[0].Ok? {
        var more := done + [wants[0].value];
        LoopReads(data, pos + |parts[0]|, step, parts[1..], wants[1..], more);
        var rest := Gather(wants[1..]);
        if rest.Ok? {
          assert more + rest.value == done + ([wants[0].value] + rest.value);
        }
      }
    }
  }

  lemma {:induction false} LoopReadsAll<T(!new)>(data: seq<Byte>, pos: nat, step: nat -> Result<(T, nat)>,
                              parts: seq<seq<Byte>>, wants: seq<Result<T>>)
    requires |parts| == |wants| && forall i :: 0 <= i < |parts| ==> StepReads(data, step, parts[i], wants[i])
    requires HasAt(data, pos, Join(parts))
    ensures ReadLoop(step, pos, |parts|, []) ==
            match Gather(wants)
            case Err(e) => Err(e)
            case Ok(ts) => Ok((ts, pos + |Join(parts)|))
  {
    LoopReads(data, pos, step, parts, wants, []);
    var all := Gather(wants);
    if all.Ok? {
      assert [] + all.value == all.value;
    }
  }

  lemma {:induction false} DimsRead(data: seq<Byte>, pos: nat, dims: seq<nat>)
    requires forall i :: 0 <= i < |dims| ==> dims[i] < BIG
    requires HasAt(data, pos, EncodeDims(dims))
    decreases |dims|
    ensures ReadDims(data, pos, |dims|) == dims
  {
    if dims != [] {
      Widths();
      HasConcat(data, pos, LeEncode(dims[0], 8), EncodeDims(dims[1..]));
      LeDecodeEncode(dims[0], 8);
      DimsRead(data, pos + 8, dims[1..]);
    }
  }

  lemma {:induction false} NameRead(data: seq<Byte>, pos: nat, name: seq<Byte>)
    requires |name| < BIG && HasAt(data, pos, EncodeString(name))
    ensures ReadString(data, pos) == if |name| > MAX_READ then Err(TooLarge) else Ok((name, pos + 8 + |name|))
  {
    StringConsumed(data, pos, name);
  }

  lemma {:induction false} ShapeRead(data: seq<Byte>, pos: nat, dims: seq<nat>, tt: nat, offset: nat)
    requires |dims| < 0x1_0000_0000 && (forall i :: 0 <= i < |dims| ==> dims[i] < BIG)
    requires tt < 0x1_0000_0000 && offset < BIG
    requires HasAt(data, pos, EncodeShape(dims, tt, offset))
    ensures ReadShape(data, pos) == Ok((dims, tt, pos + 16 + 8 * |dims|))
  {
    Widths();
    var n, ds, t, o := LeEncode(|dims|, 4), EncodeDims(dims), LeEncode(tt, 4), LeEncode(offset, 8);
    HasConcat(data, pos, n, ds + (t + o));
    HasConcat(data, pos + 4, ds, t + o);
    HasConcat(data, pos + 4 + |ds|, t, o);
    ReadsNumber(data, pos, |dims|, 4);
    DimsRead(data, pos + 4, dims);
    ReadsNumber(data, pos + 4 + |ds|, tt, 4);
  }

  lemma {:induction false} TensorRead(data: seq<Byte>, pos: nat, t: TensorInfo)
    requires TensorOk(t) && HasAt(data, pos, EncodeTensor(t))
    ensures ReadTensor(data, pos) ==
            if |t.tensor.name| > MAX_READ then Err(TooLarge) else Ok((t.tensor, pos + |EncodeTensor(t)|))
  {
    var name := EncodeString(t.tensor.name);
    HasConcat(data, pos, name, EncodeShape(t.tensor.dims, t.tensor.tt, t.offset));
    NameRead(data, pos, t.tensor.name);
    ShapeRead(data, pos + |name|, t.tensor.dims, t.tensor.tt, t.offset);
  }

  function KeyWants(kvs: seq<KeyValue>): (wants: seq<Result<()>>)
    ensures |wants| == |kvs|
  {
    seq(|kvs|, i requires 0 <= i < |kvs| => if HugeKey(kvs[i]) then Err(TooLarge) else Ok(()))
  }

  function TensorWants(ts: seq<TensorInfo>): (wants: seq<Result<Tensor>>)
    ensures |wants| == |ts|
  {
    seq(|ts|, i requires 0 <= i < |ts| =>
      if |ts[i].tensor.name| > MAX_READ then Err(TooLarge) else Ok(ts[i].tensor))
  }

  lemma {:induction false} KeyStepReads(data: seq<Byte>, kv: KeyValue)
    requires KeyOk(kv)
    ensures StepReads(data, KeyStep(data), EncodeKey(kv), if HugeKey(kv) then Err(TooLarge) else Ok(()))
  {
    forall pos: nat | HasAt(data, pos, EncodeKey(kv))
      ensures KeyStep(data)(pos) == if HugeKey(kv) then Err(TooLarge) else Ok(((), pos + |EncodeKey(kv)|))
    {
      KeyConsumed(data, pos, kv);
    }
  }

  lemma {:induction false} TensorStepReads(data: seq<Byte>, t: TensorInfo)
    requires TensorOk(t)
    ensures StepReads(data, TensorStep(data), EncodeTensor(t),
                      if |t.tensor.name| > MAX_READ then Err(TooLarge) else Ok(t.tensor))
  {
    forall pos: nat | HasAt(data, pos, EncodeTensor(t))
      ensures TensorStep(data)(pos) ==
              if |t.tensor.name| > MAX_READ then Err(TooLarge) else Ok((t.tensor, pos + |EncodeTensor(t)|))
    {
      TensorRead(data, pos, t);
    }
  }

  /** The loop over the keys ends exactly where the encoded keys end. */
  lemma {:induction false} KeysConsumed(data: seq<Byte>, pos: nat, kvs: seq<KeyValue>)
    requires forall i :: 0 <= i < |kvs| ==> KeyOk(kvs[i])
    requires HasAt(data, pos, Join(KeyParts(kvs)))
    ensures ReadLoop(KeyStep(data), pos, |kvs|, []) ==
            match Gather(KeyWants(kvs))
            case Err(e) => Err(e)
            case Ok(keys) => Ok((keys, pos + |Join(KeyParts(kvs))|))
  {
    forall i | 0 <= i < |kvs| ensures StepReads(data, KeyStep(data), KeyParts(kvs)[i], KeyWants(kvs)[i]) {
      KeyStepReads(data, kvs[i]);
    }
    LoopReadsAll(data, pos, KeyStep(data), KeyParts(kvs), KeyWants(kvs));
  }

  lemma {:induction false} TensorsRead(data: seq<Byte>, pos: nat, ts: seq<TensorInfo>)
    requires forall i :: 0 <= i < |ts| ==> TensorOk(ts[i])
    requires HasAt(data, pos, Join(TensorParts(ts)))
    ensures ReadLoop(TensorStep(data), pos, |ts|, []) ==
            match Gather(TensorWants(ts))
            case Err(e) => Err(e)
            case Ok(tensors) => Ok((tensors, pos + |Join(TensorParts(ts))|))
  {
    forall i | 0 <= i < |ts| ensures StepReads(data, TensorStep(data), TensorParts(ts)[i], TensorWants(ts)[i]) {
      TensorStepReads(data, ts[i]);
    }
    LoopReadsAll(data, pos, TensorStep(data), TensorParts(ts), TensorWants(ts));
  }

  lemma {:induction false} GatherIff<T>(wants: seq<Result<T>>)
    ensures Gather(wants).Ok? <==> forall i :: 0 <= i < |wants| ==> wants[i].Ok?
    ensures Gather(wants).Ok? ==>
              && |Gather(wants).value| == |wants|
              && forall i :: 0 <= i < |wants| ==> wants[i] == Ok(Gather(wants).value[i])
  {
    if wants != [] {
      GatherIff(wants[1..]);
      assert forall i :: 0 < i < |wants| ==> wants[i] == wants[1..][i - 1];
    }
  }

  /** A file: magic, version, the two counts, the keys, the tensor infos, and whatever follows. */
  function FileBytes(magic: seq<Byte>, ver: nat, nt: nat, nk: nat, keys: seq<Byte>, tensors: seq<Byte>, rest: seq<Byte>)
    : (bs: seq<Byte>)
    requires |magic| == 4 && ver < 0x1_0000_0000 && nt < BIG && nk < BIG
  {
    Widths();
    magic + LeEncode(ver, 4) + LeEncode(nt, 8) + LeEncode(nk, 8) + (keys + (tensors + rest))
  }

  lemma {:induction false} SectionsRead(magic: seq<Byte>, ver: nat, nt: nat, nk: nat, keys: seq<Byte>, tensors: seq<Byte>, rest: seq<Byte>)
    requires |magic| == 4 && ver < 0x1_0000_0000 && nt < BIG && nk < BIG
    ensures var data := FileBytes(magic, ver, nt, nk, keys, tensors, rest);
            && |data| >= HEADER && LeDecode(data[8..16]) == nt && LeDecode(data[16..24]) == nk
            && HasAt(data, HEADER, keys) && HasAt(data, HEADER + |keys|, tensors)
  {
    Widths();
    var data := FileBytes(magic, ver, nt, nk, keys, tensors, rest);
    assert data[8..16] == LeEncode(nt, 8) && data[16..24] == LeEncode(nk, 8);
    LeDecodeEncode(nt, 8);
    LeDecodeEncode(nk, 8);
    assert HasAt(data, HEADER, keys + (tensors + rest));
    HasConcat(data, HEADER, keys, tensors + rest);
    HasConcat(data, HEADER + |keys|, tensors, rest);
  }

  lemma {:induction false} KeyWantsOk(kvs: seq<KeyValue>)
    ensures Gather(KeyWants(kvs)).Ok? <==> forall i :: 0 <= i < |kvs| ==> !HugeKey(kvs[i])
  {
    GatherIff(KeyWants(kvs));
    assert forall i :: 0 <= i < |kvs| ==> (KeyWants(kvs)[i].Ok? <==> !HugeKey(kvs[i]));
  }

  lemma {:induction false} TensorWantsOk(ts: seq<TensorInfo>)
    ensures Gather(TensorWants(ts)).Ok? <==> forall i :: 0 <= i < |ts| ==> |ts[i].tensor.name| <= MAX_READ
    ensures Gather(TensorWants(ts)).Ok? ==>
              && |Gather(TensorWants(ts)).value| == |ts|
              && forall i :: 0 <= i < |ts| ==> Gather(TensorWants(ts)).value[i] == ts[i].tensor
  {
    GatherIff(TensorWants(ts));
    assert forall i :: 0 <= i < |ts| ==> (TensorWants(ts)[i].Ok? <==> |ts[i].tensor.name| <= MAX_READ);
  }

  lemma {:induction false} TensorsOfSections(data: seq<Byte>, kvs: seq<KeyValue>, ts: seq<TensorInfo>)
    requires forall i :: 0 <= i < |kvs| ==> KeyOk(kvs[i])
    requires forall i :: 0 <= i < |ts| ==> TensorOk(ts[i])
    requires |data| >= HEADER && LeDecode(data[8..16]) == |ts| && LeDecode(data[16..24]) == |kvs|
    requires HasAt(data, HEADER, Join(KeyParts(kvs)))
    requires HasAt(data, HEADER + |Join(KeyParts(kvs))|, Join(TensorParts(ts)))
    ensures TensorsOf(data) == if Gather(KeyWants(kvs)).Ok? then Gather(TensorWants(ts)) else Err(Gather(KeyWants(kvs)).error)
  {
    KeysConsumed(data, HEADER, kvs);
    TensorsRead(data, HEADER + |Join(KeyParts(kvs))|, ts);
  }

  /** On every well-formed file, whatever its keys hold and however deeply their arrays nest, the dump
      reaches the tensor section and lists exactly its tensors; it fails exactly if some string is too
      long to be read in one piece. */
  lemma {:induction false} TensorsOfFile(magic: seq<Byte>, ver: nat, kvs: seq<KeyValue>, ts: seq<TensorInfo>, rest: seq<Byte>)
    requires |magic| == 4 && ver < 0x1_0000_0000 && |kvs| < BIG && |ts| < BIG
    requires forall i :: 0 <= i < |kvs| ==> KeyOk(kvs[i])
    requires forall i :: 0 <= i < |ts| ==> TensorOk(ts[i])
    ensures var data := FileBytes(magic, ver, |ts|, |kvs|, Join(KeyParts(kvs)), Join(TensorParts(ts)), rest);
            && (TensorsOf(data).Ok? <==>
                  && (forall i :: 0 <= i < |kvs| ==> !HugeKey(kvs[i]))
                  && (forall i :: 0 <= i < |ts| ==> |ts[i].tensor.name| <= MAX_READ))
            && (TensorsOf(data).Ok? ==>
                  && |TensorsOf(data).value| == |ts|
                  && forall i :: 0 <= i < |ts| ==> TensorsOf(data).value[i] == ts[i].tensor)
  {
    var keys, tensors := Join(KeyParts(kvs)), Join(TensorParts(ts));
    SectionsRead(magic, ver, |ts|, |kvs|, keys, tensors, rest);
    var data := FileBytes(magic, ver, |ts|, |kvs|, keys, tensors, rest);
    TensorsOfSections(data, kvs, ts);
    KeyWantsOk(kvs);
    TensorWantsOk(ts);
  }

  // --------------------------------------------------------------------------------------------
  // What the key dump displays

  /** What is shown of one value: the bytes of a scalar or a string, and nothing of an array. */
  function ShownItem(v: GValue): (bs: seq<Byte>) {
    match v
    case Scalar(_, bytes) => bytes
    case Str(text) => text
    case Arr(_, _) => []
  }

  /** All of up to ten items; of more, the first three and the last. */
  function ShownItems(items: seq<GValue>): (shown: seq<seq<Byte>>)
    ensures |items| <= 10 ==> |shown| == |items| && forall i :: 0 <= i < |items| ==> shown[i] == ShownItem(items[i])
    ensures |items| > 10 ==>
              && |shown| == 4 && shown[3] == ShownItem(items[|items| - 1])
              && forall i :: 0 <= i < 3 ==> shown[i] == ShownItem(items[i])
  {
    var n := |items|;
    if n <= 10 then ShownEach(items) else ShownEach(items[..3]) + [ShownItem(items[n - 1])]
  }

  function ShownEach(items: seq<GValue>): (shown: seq<seq<Byte>>)
    ensures |shown| == |items| && forall i :: 0 <= i < |items| ==> shown[i] == ShownItem(items[i])
  {
    seq(|items|, i requires 0 <= i < |items| => ShownItem(items[i]))
  }

  function DisplayOf(v: GValue): (d: Display) {
    match v
    case Arr(at, items) => Many(at, |items|, ShownItems(items))
    case _ => One(ShownItem(v))
  }

  lemma {:induction false} ItemRead(data: seq<Byte>, pos: nat, v: GValue)
    requires WellFormed(v) && !v.Arr? && !Huge(v) && HasAt(data, pos, Encode(v))
    ensures ValueAt(data, pos, TypeOf(v)) == Ok((ShownItem(v), pos + |Encode(v)|))
  {
    if v.Str? {
      StringConsumed(data, pos, v.text);
    }
  }

  /** What the proofs below use of reading a value: it shows each value of a type and ends where it ends. */
  ghost predicate ReadsItems(data: seq<Byte>, step: nat -> Result<(seq<Byte>, nat)>, at: nat) {
    forall v: GValue {:trigger Encode(v)} :: WellFormed(v) && !Huge(v) && TypeOf(v) == at ==>
      StepReads(data, step, Encode(v), Ok(ShownItem(v)))
  }

  lemma {:induction false} ValueStepReadsItems(data: seq<Byte>, at: nat)
    requires at != ARRAY
    ensures ReadsItems(data, ValueStep(data, at), at)
  {
    forall v: GValue | WellFormed(v) && !Huge(v) && TypeOf(v) == at
      ensures StepReads(data, ValueStep(data, at), Encode(v), Ok(ShownItem(v)))
    {
      forall pos: nat | HasAt(data, pos, Encode(v))
        ensures ValueStep(data, at)(pos) == Ok((ShownItem(v), pos + |Encode(v)|))
      {
        ItemRead(data, pos, v);
      }
    }
  }

  lemma {:induction false} NoneHuge(items: seq<GValue>)
    ensures !AnyHuge(items) <==> forall i :: 0 <= i < |items| ==> !Huge(items[i])
  {
    if items != [] {
      NoneHuge(items[1..]);
      assert forall i :: 0 < i < |items| ==> items[i] == items[1..][i - 1];
    }
  }

  function ItemParts(items: seq<GValue>, at: nat): (parts: seq<seq<Byte>>)
    requires AllWellFormed(items, at)
    ensures |parts| == |items| && forall i :: 0 <= i < |items| ==> parts[i] == Encode(items[i])
  {
    seq(|items|, i requires 0 <= i < |items| => Encode(items[i]))
  }

  lemma {:induction false} EncodeAllIsJoin(items: seq<GValue>, at: nat)
    requires AllWellFormed(items, at)
    ensures EncodeAll(items, at) == Join(ItemParts(items, at))
  {
    if items != [] {
      EncodeAllIsJoin(items[1..], at);
      assert ItemParts(items, at)[1..] == ItemParts(items[1..], at);
    }
  }

  lemma {:induction false} EncodeAllOfConcat(a: seq<GValue>, b: seq<GValue>, at: nat)
    requires AllWellFormed(a, at) && AllWellFormed(b, at) && AllWellFormed(a + b, at)
    ensures EncodeAll(a + b, at) == EncodeAll(a, at) + EncodeAll(b, at)
  {
    EncodeAllIsJoin(a, at);
    EncodeAllIsJoin(b, at);
    EncodeAllIsJoin(a + b, at);
    assert ItemParts(a + b, at) == ItemParts(a, at) + ItemParts(b, at);
    JoinOfConcat(ItemParts(a, at), ItemParts(b, at));
  }

  function ItemWants(items: seq<GValue>): (wants: seq<Result<seq<Byte>>>)
    ensures |wants| == |items| && forall i :: 0 <= i < |items| ==> wants[i] == Ok(ShownItem(items[i]))
  {
    seq(|items|, i requires 0 <= i < |items| => Ok(ShownItem(items[i])))
  }

  lemma {:induction false} PartHuge(a: seq<GValue>, b: seq<GValue>)
    requires !AnyHuge(a + b)
    ensures !AnyHuge(a) && !AnyHuge(b)
  {
    NoneHuge(a + b);
    NoneHuge(a);
    NoneHuge(b);
    assert forall i :: 0 <= i < |a| ==> (a + b)[i] == a[i];
    assert forall i :: 0 <= i < |b| ==> (a + b)[|a| + i] == b[i];
  }

  lemma {:induction false} PartWellFormed(a: seq<GValue>, b: seq<GValue>, at: nat)
    requires AllWellFormed(a + b, at)
    ensures AllWellFormed(a, at) && AllWellFormed(b, at)
  {
    assert forall i :: 0 <= i < |a| ==> (a + b)[i] == a[i];
    assert forall i :: 0 <= i < |b| ==> (a + b)[|a| + i] == b[i];
  }

  /** Well-formed items, none huge, are encoded at this position. */
  ghost predicate ItemsAt(data: seq<Byte>, pos: nat, items: seq<GValue>, at: nat) {
    AllWellFormed(items, at) && !AnyHuge(items) && HasAt(data, pos, EncodeAll(items, at))
  }

  /** Where the items at a position end. */
  ghost function EndOf(pos: nat, items: seq<GValue>, at: nat): (q: nat)
    requires AllWellFormed(items, at)
  {
    pos + |EncodeAll(items, at)|
  }

  /** Where two parts of an encoded array are. */
  lemma {:induction false} ItemsSplit(data: seq<Byte>, pos: nat, a: seq<GValue>, b: seq<GValue>, at: nat)
    requires ItemsAt(data, pos, a + b, at)
    ensures ItemsAt(data, pos, a, at) && ItemsAt(data, EndOf(pos, a, at), b, at)
    ensures EndOf(pos, a + b, at) == EndOf(EndOf(pos, a, at), b, at)
  {
    PartHuge(a, b);
    PartWellFormed(a, b, at);
    EncodeAllOfConcat(a, b, at);
    HasConcat(data, pos, EncodeAll(a, at), EncodeAll(b, at));
  }

  /** What the proofs below use of skipping values: it ends where they end. */
  ghost predicate SkipsItems(data: seq<Byte>, skip: (nat, nat) -> Result<nat>, at: nat) {
    forall pos: nat, items: seq<GValue> {:trigger ItemsAt(data, pos, items, at)} :: ItemsAt(data, pos, items, at) ==>
      skip(pos, |items|) == Ok(EndOf(pos, items, at))
  }

  lemma {:induction false} SkipStepSkipsItems(data: seq<Byte>, at: nat)
    ensures SkipsItems(data, SkipStep(data, at), at)
  {
    forall pos: nat, items: seq<GValue> | ItemsAt(data, pos, items, at)
      ensures SkipStep(data, at)(pos, |items|) == Ok(EndOf(pos, items, at))
    {
      SkipConsumesItems(data, pos, items, at);
    }
  }

  /** Reading items one after the other shows each and ends where they end. */
  lemma {:induction false} ItemsRead(data: seq<Byte>, step: nat -> Result<(seq<Byte>, nat)>, pos: nat, items: seq<GValue>,
                                     at: nat)
    requires ReadsItems(data, step, at) && ItemsAt(data, pos, items, at)
    ensures ReadLoop(step, pos, |items|, []) == Ok((ShownEach(items), EndOf(pos, items, at)))
  {
    NoneHuge(items);
    EncodeAllIsJoin(items, at);
    forall i | 0 <= i < |items| ensures StepReads(data, step, ItemParts(items, at)[i], ItemWants(items)[i]) {
      assert ItemParts(items, at)[i] == Encode(items[i]);
    }
    LoopReadsAll(data, pos, step, ItemParts(items, at), ItemWants(items));
    GatherIff(ItemWants(items));
    assert Gather(ItemWants(items)).value == ShownEach(items);
  }

  lemma {:induction false} OneItemRead(data: seq<Byte>, step: nat -> Result<(seq<Byte>, nat)>, pos: nat, last: GValue,
                                       at: nat)
    requires ReadsItems(data, step, at) && ItemsAt(data, pos, [last], at)
    ensures step(pos) == Ok((ShownItem(last), EndOf(pos, [last], at)))
  {
    assert TypeOf([last][0]) == at && WellFormed([last][0]) && [last][1..] == [];
    assert EncodeAll([last], at) == Encode(last);
    assert StepReads(data, step, Encode(last), Ok(ShownItem(last)));
  }

  lemma {:induction false} LongElements<T>(step: nat -> Result<(T, nat)>, skip: (nat, nat) -> Result<nat>, pos: nat,
                                           ac: nat, first: (seq<T>, nat), q: nat, last: (T, nat))
    requires ac > 10 && ReadLoop(step, pos, 3, []) == Ok(first)
    requires skip(first.1, ac - 4) == Ok(q) && step(q) == Ok(last)
    ensures Elements(step, skip, pos, ac) == Ok((first.0 + [last.0], last.1))
  {
  }

  lemma {:induction false} LongArrayRead(data: seq<Byte>, step: nat -> Result<(seq<Byte>, nat)>,
                                         skip: (nat, nat) -> Result<nat>, pos: nat, first: seq<GValue>,
                                         middle: seq<GValue>, last: GValue, at: nat)
    requires ReadsItems(data, step, at) && SkipsItems(data, skip, at) && |first| == 3 && |middle| > 6
    requires ItemsAt(data, pos, first + (middle + [last]), at)
    ensures Elements(step, skip, pos, |middle| + 4) ==
            Ok((ShownEach(first) + [ShownItem(last)], EndOf(pos, first + (middle + [last]), at)))
  {
    ItemsSplit(data, pos, first, middle + [last], at);
    var p := EndOf(pos, first, at);
    ItemsSplit(data, p, middle, [last], at);
    var q := EndOf(p, middle, at);
    ItemsRead(data, step, pos, first, at);
    OneItemRead(data, step, q, last, at);
    LongElements(step, skip, pos, |middle| + 4, (ShownEach(first), p), q, (ShownItem(last), EndOf(q, [last], at)));
  }

  lemma {:induction false} ShownItemsOfLong(first: seq<GValue>, middle: seq<GValue>, last: GValue)
    requires |first| == 3 && |middle| > 6
    ensures ShownItems(first + (middle + [last])) == ShownEach(first) + [ShownItem(last)]
  {
    var items := first + (middle + [last]);
    assert items[..3] == first && items[|items| - 1] == last;
  }

  lemma {:induction false} ElementsRead(data: seq<Byte>, step: nat -> Result<(seq<Byte>, nat)>,
                                        skip: (nat, nat) -> Result<nat>, pos: nat, items: seq<GValue>, at: nat)
    requires ReadsItems(data, step, at) && SkipsItems(data, skip, at) && ItemsAt(data, pos, items, at)
    ensures Elements(step, skip, pos, |items|) == Ok((ShownItems(items), EndOf(pos, items, at)))
  {
    var n := |items|;
    if n <= 10 {
      ItemsRead(data, step, pos, items, at);
    } else {
      var first, middle, last := items[..3], items[3..n - 1], items[n - 1];
      assert items == first + (middle + [last]);
      LongArrayRead(data, step, skip, pos, first, middle, last, at);
      ShownItemsOfLong(first, middle, last);
    }
  }

  // --------------------------------------------------------------------------------------------
  // Arrays of arrays

  /** Reading an array moves nothing and shows nothing. */
  ghost predicate ReadsNothing(data: seq<Byte>, step: nat -> Result<(seq<Byte>, nat)>) {
    forall pos: nat {:trigger step(pos)} :: pos <= |data| ==> step(pos) == Ok(([], pos))
  }

  lemma {:induction false} ArrayStepReadsNothing(data: seq<Byte>)
    ensures ReadsNothing(data, ValueStep(data, ARRAY))
  {
    forall pos: nat | pos <= |data| ensures ValueStep(data, ARRAY)(pos) == Ok(([], pos)) {
      assert data[pos..pos] == [];
    }
  }

  function Nothing(n: nat): (shown: seq<seq<Byte>>)
    ensures |shown| == n && forall i :: 0 <= i < n ==> shown[i] == []
  {
    seq(n, _ => [])
  }

  lemma {:induction false} NothingRead(data: seq<Byte>, step: nat -> Result<(seq<Byte>, nat)>, pos: nat, n: nat,
                                       done: seq<seq<Byte>>)
    requires ReadsNothing(data, step) && pos <= |data|
    ensures ReadLoop(step, pos, n, done) == Ok((done + Nothing(n), pos))
    decreases n
  {
    if n == 0 {
      assert done + Nothing(0) == done;
    } else {
      NothingRead(data, step, pos, n - 1, done + [[]]);
      assert done + [[]] + Nothing(n - 1) == done + Nothing(n);
    }
  }

  lemma {:induction false} ArraysShowNothing(items: seq<GValue>)
    requires AllWellFormed(items, ARRAY)
    ensures ShownItems(items) == Nothing(if |items| <= 10 then |items| else 4)
  {
    forall i | 0 <= i < |items| ensures ShownItem(items[i]) == [] {
      assert TypeOf(items[i]) == ARRAY && WellFormed(items[i]);
    }
  }

  /** Of an array of arrays too something is shown, though the cursor is left inside it. */
  lemma {:induction false} NestedShown(data: seq<Byte>, step: nat -> Result<(seq<Byte>, nat)>,
                                       skip: (nat, nat) -> Result<nat>, pos: nat, items: seq<GValue>)
    requires ReadsNothing(data, step) && SkipsItems(data, skip, ARRAY) && ItemsAt(data, pos, items, ARRAY)
    ensures Elements(step, skip, pos, |items|).Ok?
    ensures Elements(step, skip, pos, |items|).value.0 == Nothing(if |items| <= 10 then |items| else 4)
  {
    var n := |items|;
    NothingRead(data, step, pos, if n <= 10 then n else 3, []);
    if n <= 10 {
      assert [] + Nothing(n) == Nothing(n);
    } else {
      assert items == items[..n - 4] + items[n - 4..];
      ItemsSplit(data, pos, items[..n - 4], items[n - 4..], ARRAY);
      var q := EndOf(pos, items[..n - 4], ARRAY);
      assert q <= |data| && step(q) == Ok(([], q));
      LongElements(step, skip, pos, n, ([] + Nothing(3), pos), q, ([], q));
      assert [] + Nothing(3) + [[]] == Nothing(4);
    }
  }

  // --------------------------------------------------------------------------------------------
  // Values

  lemma {:induction false} ArrayDisplayed(data: seq<Byte>, pos: nat, at: nat, count: nat, rest: seq<Byte>)
    requires at < Pow256(4) && count < Pow256(8)
    requires HasAt(data, pos, LeEncode(at, 4) + LeEncode(count, 8) + rest)
    ensures HasAt(data, pos + 12, rest)
    ensures pos <= |data| && DisplayAt(data, pos, ARRAY) ==
            match ElementsAt(data, pos + 12, at, count)
            case Err(e) => Err(e)
            case Ok(values) => Ok((Many(at, count, values.0), values.1))
  {
    ArrayHeaderRead(data, pos, at, count, rest);
  }

  lemma {:induction false} ItemsDisplayed(data: seq<Byte>, pos: nat, items: seq<GValue>, at: nat)
    requires ItemsAt(data, pos, items, at)
    ensures ElementsAt(data, pos, at, |items|).Ok? && ElementsAt(data, pos, at, |items|).value.0 == ShownItems(items)
    ensures at != ARRAY || items == [] ==> ElementsAt(data, pos, at, |items|).value.1 == EndOf(pos, items, at)
  {
    SkipStepSkipsItems(data, at);
    if at == ARRAY {
      ArrayStepReadsNothing(data);
      ArraysShowNothing(items);
      NestedShown(data, ValueStep(data, at), SkipStep(data, at), pos, items);
    } else {
      ValueStepReadsItems(data, at);
      ElementsRead(data, ValueStep(data, at), SkipStep(data, at), pos, items, at);
    }
  }

  /** Every well-formed value is displayed as it is; and the display ends where the value ends, unless
      it is a non-empty array of arrays. */
  lemma {:induction false} ValueDisplayed(data: seq<Byte>, pos: nat, v: GValue)
    requires WellFormed(v) && !Huge(v) && HasAt(data, pos, Encode(v))
    ensures DisplayAt(data, pos, TypeOf(v)).Ok? && DisplayAt(data, pos, TypeOf(v)).value.0 == DisplayOf(v)
    ensures !NestedArray(v) ==> DisplayAt(data, pos, TypeOf(v)).value.1 == pos + |Encode(v)|
  {
    if v.Arr? {
      Widths();
      ArrayDisplayed(data, pos, v.at, |v.items|, EncodeAll(v.items, v.at));
      ItemsDisplayed(data, pos + 12, v.items, v.at);
    } else {
      ItemRead(data, pos, v);
    }
  }

  // --------------------------------------------------------------------------------------------
  // The key dump

  lemma {:induction false} DumpKeyIs(data: seq<Byte>, pos: nat, key: seq<Byte>, p: nat, vt: nat, d: (Display, nat))
    requires pos <= |data| && p + 4 <= |data|
    requires ReadString(data, pos) == Ok((key, p)) && ReadNum(data, p, 4) == Ok(vt)
    requires DisplayAt(data, p + 4, vt) == Ok(d)
    ensures DumpKey(data, pos) == Ok((Shown(key, vt, d.0), d.1))
  {
  }

  function ShownKey(kv: KeyValue): (s: Shown) {
    Shown(kv.key, TypeOf(kv.value), DisplayOf(kv.value))
  }

  lemma {:induction false} KeyShownFrom(data: seq<Byte>, pos: nat, key: seq<Byte>, p: nat, v: GValue)
    requires pos <= |data| && p + 4 <= |data|
    requires ReadString(data, pos) == Ok((key, p)) && ReadNum(data, p, 4) == Ok(TypeOf(v))
    requires WellFormed(v) && !Huge(v) && HasAt(data, p + 4, Encode(v))
    ensures DumpKey(data, pos).Ok? && DumpKey(data, pos).value.0 == Shown(key, TypeOf(v), DisplayOf(v))
    ensures !NestedArray(v) ==> DumpKey(data, pos).value.1 == p + 4 + |Encode(v)|
  {
    ValueDisplayed(data, p + 4, v);
    DumpKeyIs(data, pos, key, p, TypeOf(v), DisplayAt(data, p + 4, TypeOf(v)).value);
  }

  lemma {:induction false} KeyShown(data: seq<Byte>, pos: nat, kv: KeyValue)
    requires KeyOk(kv) && !HugeKey(kv) && HasAt(data, pos, EncodeKey(kv))
    ensures DumpKey(data, pos).Ok? && DumpKey(data, pos).value.0 == ShownKey(kv)
    ensures !NestedArray(kv.value) ==> DumpKey(data, pos).value.1 == pos + |EncodeKey(kv)|
  {
    KeyHeaderRead(data, pos, kv);
    NameRead(data, pos, kv.key);
    KeyShownFrom(data, pos, kv.key, pos + 8 + |kv.key|, kv.value);
  }

  /** A step shows what it is to show of a part, wherever it ends. */
  ghost predicate StepShows<T(!new)>(data: seq<Byte>, step: nat -> Result<(T, nat)>, part: seq<Byte>, want: T) {
    forall pos: nat {:trigger HasAt(data, pos, part)} :: HasAt(data, pos, part) ==>
      step(pos).Ok? && step(pos).value.0 == want
  }

  /** What the proofs below use of dumping a key: it shows every key, and ends where the key ends unless
      its value is a non-empty array of arrays. */
  ghost predicate ShowsKeys(data: seq<Byte>, step: nat -> Result<(Shown, nat)>) {
    && (forall kv: KeyValue {:trigger EncodeKey(kv)} :: KeyOk(kv) && !HugeKey(kv) ==>
          StepShows(data, step, EncodeKey(kv), ShownKey(kv)))
    && (forall kv: KeyValue {:trigger EncodeKey(kv)} :: KeyOk(kv) && !HugeKey(kv) && !NestedArray(kv.value) ==>
          StepReads(data, step, EncodeKey(kv), Ok(ShownKey(kv))))
  }

  lemma {:induction false} DumpStepShows(data: seq<Byte>, kv: KeyValue)
    requires KeyOk(kv) && !HugeKey(kv)
    ensures StepShows(data, DumpStep(data), EncodeKey(kv), ShownKey(kv))
    ensures !NestedArray(kv.value) ==> StepReads(data, DumpStep(data), EncodeKey(kv), Ok(ShownKey(kv)))
  {
    forall pos: nat | HasAt(data, pos, EncodeKey(kv))
      ensures DumpStep(data)(pos).Ok? && DumpStep(data)(pos).value.0 == ShownKey(kv)
      ensures !NestedArray(kv.value) ==> DumpStep(data)(pos).value.1 == pos + |EncodeKey(kv)|
    {
      KeyShown(data, pos, kv);
    }
  }

  lemma {:induction false} DumpStepShowsKeys(data: seq<Byte>)
    ensures ShowsKeys(data, DumpStep(data))
  {
    forall kv: KeyValue | KeyOk(kv) && !HugeKey(kv)
      ensures StepShows(data, DumpStep(data), EncodeKey(kv), ShownKey(kv))
      ensures !NestedArray(kv.value) ==> StepReads(data, DumpStep(data), EncodeKey(kv), Ok(ShownKey(kv)))
    {
      DumpStepShows(data, kv);
    }
  }

  function ShownKeys(kvs: seq<KeyValue>): (shown: seq<Shown>)
    ensures |shown| == |kvs| && forall i :: 0 <= i < |kvs| ==> shown[i] == ShownKey(kvs[i])
  {
    seq(|kvs|, i requires 0 <= i < |kvs| => ShownKey(kvs[i]))
  }

  function ShownWants(kvs: seq<KeyValue>): (wants: seq<Result<Shown>>)
    ensures |wants| == |kvs| && forall i :: 0 <= i < |kvs| ==> wants[i] == Ok(ShownKey(kvs[i]))
  {
    seq(|kvs|, i requires 0 <= i < |kvs| => Ok(ShownKey(kvs[i])))
  }

  /** Keys that are dumped whole. */
  ghost predicate AllPlain(kvs: seq<KeyValue>)
    ensures AllPlain(kvs) ==> forall i :: 0 <= i < |kvs| ==> KeyOk(kvs[i])
  {
    forall i :: 0 <= i < |kvs| ==> KeyOk(kvs[i]) && !HugeKey(kvs[i]) && !NestedArray(kvs[i].value)
  }

  lemma {:induction false} KeysShown(data: seq<Byte>, step: nat -> Result<(Shown, nat)>, pos: nat, kvs: seq<KeyValue>)
    requires ShowsKeys(data, step)
    requires AllPlain(kvs)
    requires HasAt(data, pos, Join(KeyParts(kvs)))
    ensures ReadLoop(step, pos, |kvs|, []) == Ok((ShownKeys(kvs), pos + |Join(KeyParts(kvs))|))
  {
    forall i | 0 <= i < |kvs| ensures StepReads(data, step, KeyParts(kvs)[i], ShownWants(kvs)[i]) {
      assert KeyParts(kvs)[i] == EncodeKey(kvs[i]);
    }
    LoopReadsAll(data, pos, step, KeyParts(kvs), ShownWants(kvs));
    GatherIff(ShownWants(kvs));
    assert Gather(ShownWants(kvs)).value == ShownKeys(kvs);
  }

  /** A loop of one more turn than `n`. */
  lemma {:induction false} LoopThenStep<T>(step: nat -> Result<(T, nat)>, pos: nat, n: nat, done: seq<T>)
    ensures ReadLoop(step, pos, n + 1, done) ==
            match ReadLoop(step, pos, n, done)
            case Err(e) => Err(e)
            case Ok(all) =>
              match step(all.1)
              case Err(e) => Err(e)
              case Ok(t) => Ok((all.0 + [t.0], t.1))
    decreases n
  {
    if n > 0 {
      var t := step(pos);
      if t.Ok? {
        LoopThenStep(step, t.value.1, n - 1, done + [t.value.0]);
      }
    }
  }

  lemma {:induction false} KeyPartsSplit(data: seq<Byte>, pos: nat, front: seq<KeyValue>, last: KeyValue)
    requires forall i :: 0 <= i < |front| ==> KeyOk(front[i])
    requires KeyOk(last) && (forall i :: 0 <= i < |front + [last]| ==> KeyOk((front + [last])[i]))
    requires HasAt(data, pos, Join(KeyParts(front + [last])))
    ensures HasAt(data, pos, Join(KeyParts(front)))
    ensures HasAt(data, pos + |Join(KeyParts(front))|, EncodeKey(last))
  {
    assert KeyParts(front + [last]) == KeyParts(front) + [EncodeKey(last)];
    JoinOfConcat(KeyParts(front), [EncodeKey(last)]);
    assert Join([EncodeKey(last)]) == EncodeKey(last) + Join([EncodeKey(last)][1..]);
    HasConcat(data, pos, Join(KeyParts(front)), EncodeKey(last));
  }

  lemma {:induction false} LoopThenShown<T>(step: nat -> Result<(T, nat)>, pos: nat, n: nat, shown: seq<T>, q: nat, t: T)
    requires ReadLoop(step, pos, n, []) == Ok((shown, q)) && step(q).Ok? && step(q).value.0 == t
    ensures Outcome(ReadLoop(step, pos, n + 1, [])) == Ok(shown + [t])
  {
    LoopThenStep(step, pos, n, []);
  }

  lemma {:induction false} KeyAtShown(data: seq<Byte>, step: nat -> Result<(Shown, nat)>, pos: nat, kv: KeyValue)
    requires ShowsKeys(data, step) && KeyOk(kv) && !HugeKey(kv) && HasAt(data, pos, EncodeKey(kv))
    ensures step(pos).Ok? && step(pos).value.0 == ShownKey(kv)
  {
    assert StepShows(data, step, EncodeKey(kv), ShownKey(kv));
  }

  lemma {:induction false} KeysThenOne(data: seq<Byte>, step: nat -> Result<(Shown, nat)>, pos: nat, front: seq<KeyValue>,
                                       last: Shown)
    requires ShowsKeys(data, step) && AllPlain(front) && HasAt(data, pos, Join(KeyParts(front)))
    requires var q := pos + |Join(KeyParts(front))|; step(q).Ok? && step(q).value.0 == last
    ensures Outcome(ReadLoop(step, pos, |front| + 1, [])) == Ok(ShownKeys(front) + [last])
  {
    KeysShown(data, step, pos, front);
    LoopThenShown(step, pos, |front|, ShownKeys(front), pos + |Join(KeyParts(front))|, last);
  }

  /** All keys are shown, whatever the last one holds. */
  lemma {:induction false} KeysThenLast(data: seq<Byte>, step: nat -> Result<(Shown, nat)>, pos: nat, front: seq<KeyValue>,
                                        last: KeyValue)
    requires ShowsKeys(data, step) && AllPlain(front) && KeyOk(last) && !HugeKey(last)
    requires forall i :: 0 <= i < |front + [last]| ==> KeyOk((front + [last])[i])
    requires HasAt(data, pos, Join(KeyParts(front + [last])))
    ensures Outcome(ReadLoop(step, pos, |front| + 1, [])) == Ok(ShownKeys(front) + [ShownKey(last)])
  {
    KeyPartsSplit(data, pos, front, last);
    KeyAtShown(data, step, pos + |Join(KeyParts(front))|, last);
    KeysThenOne(data, step, pos, front, ShownKey(last));
  }

  lemma {:induction false} AllKeysShown(data: seq<Byte>, step: nat -> Result<(Shown, nat)>, pos: nat, kvs: seq<KeyValue>)
    requires ShowsKeys(data, step) && forall i :: 0 <= i < |kvs| ==> KeyOk(kvs[i]) && !HugeKey(kvs[i])
    requires forall i :: 0 <= i < |kvs| - 1 ==> !NestedArray(kvs[i].value)
    requires HasAt(data, pos, Join(KeyParts(kvs)))
    ensures Outcome(ReadLoop(step, pos, |kvs|, [])) == Ok(ShownKeys(kvs))
  {
    if kvs != [] {
      var front, last := kvs[..|kvs| - 1], kvs[|kvs| - 1];
      assert kvs == front + [last];
      KeysThenLast(data, step, pos, front, last);
      assert ShownKeys(front) + [ShownKey(last)] == ShownKeys(kvs);
    }
  }

  /** On every well-formed file whose keys before the last hold no non-empty arrays of arrays, the key
      dump shows exactly the keys, in order, with the types of their values and what is to be displayed
      of them: a scalar's or a string's bytes, and of an array its element type, its count, and all of
      up to ten elements or the first three and the last. */
  lemma {:induction false} KeysOfFile(magic: seq<Byte>, ver: nat, kvs: seq<KeyValue>, ts: seq<TensorInfo>, rest: seq<Byte>)
    requires |magic| == 4 && ver < 0x1_0000_0000 && |kvs| < BIG && |ts| < BIG
    requires forall i :: 0 <= i < |kvs| ==> KeyOk(kvs[i]) && !HugeKey(kvs[i])
    requires forall i :: 0 <= i < |kvs| - 1 ==> !NestedArray(kvs[i].value)
    requires forall i :: 0 <= i < |ts| ==> TensorOk(ts[i])
    ensures var data := FileBytes(magic, ver, |ts|, |kvs|, Join(KeyParts(kvs)), Join(TensorParts(ts)), rest);
            && KeysOf(data).Ok? && |KeysOf(data).value| == |kvs|
            && forall i :: 0 <= i < |kvs| ==>
                 KeysOf(data).value[i] == Shown(kvs[i].key, TypeOf(kvs[i].value), DisplayOf(kvs[i].value))
  {
    var keys, tensors := Join(KeyParts(kvs)), Join(TensorParts(ts));
    SectionsRead(magic, ver, |ts|, |kvs|, keys, tensors, rest);
    var data := FileBytes(magic, ver, |ts|, |kvs|, keys, tensors, rest);
    DumpStepShowsKeys(data);
    AllKeysShown(data, DumpStep(data), HEADER, kvs);
  }
}
