/** The two GGUF dump scripts: a shared file cursor, the key loops and the tensor loop. */
module GgufFile {
  import opened Bytes
  import opened Gguf

  // --------------------------------------------------------------------------------------------
  // What the loops read, as functions of the file and the cursor

  /** A string at the cursor: its bytes and where it ends. */
  function ReadString(data: seq<Byte>, pos: nat): (r: Result<(seq<Byte>, nat)>)
    requires pos <= |data|
    ensures r.Ok? ==> pos + 8 <= r.value.1 <= |data|
  {
    match SkipString(data, pos)
    case Err(e) => Err(e)
    case Ok(q) => Ok((data[pos + 8..q], q))
  }

  /** Where one key and its value end. */
  function SkipKey(data: seq<Byte>, pos: nat): (q: Result<nat>)
    requires pos <= |data|
    ensures q.Ok? ==> pos <= q.value <= |data|
  {
    match SkipString(data, pos)
    case Err(e) => Err(e)
    case Ok(p) =>
      match ReadNum(data, p, 4)
      case Err(e) => Err(e)
      case Ok(vt) => Skip(data, p + 4, vt)
  }

  /** What is kept of a tensor: its name, its dimensions and its type. */
  datatype Tensor = Tensor(name: seq<Byte>, dims: seq<nat>, tt: nat)

  function ReadDims(data: seq<Byte>, pos: nat, n: nat): (dims: seq<nat>)
    requires pos + 8 * n <= |data|
    ensures |dims| == n
    decreases n
  {
    if n == 0 then [] else [LeDecode(data[pos..pos + 8])] + ReadDims(data, pos + 8, n - 1)
  }

  /** The dimensions and the type of a tensor; the offset is read and dropped. */
  function ReadShape(data: seq<Byte>, pos: nat): (r: Result<(seq<nat>, nat, nat)>)
    requires pos <= |data|
    ensures r.Ok? ==> pos <= r.value.2 <= |data|
  {
    match ReadNum(data, pos, 4)
    case Err(e) => Err(e)
    case Ok(n) =>
      var p := pos + 4;
      if p + 8 * n > |data| then Err(ShortRead)
      else match ReadNum(data, p + 8 * n, 4)
        case Err(e) => Err(e)
        case Ok(tt) =>
          if p + 8 * n + 12 > |data| then Err(ShortRead)
          else Ok((ReadDims(data, p, n), tt, p + 8 * n + 12))
  }

  /** One tensor info. */
  function ReadTensor(data: seq<Byte>, pos: nat): (r: Result<(Tensor, nat)>)
    requires pos <= |data|
    ensures r.Ok? ==> pos <= r.value.1 <= |data|
  {
    match ReadString(data, pos)
    case Err(e) => Err(e)
    case Ok(name) =>
      match ReadShape(data, name.1)
      case Err(e) => Err(e)
      case Ok(shape) => Ok((Tensor(name.0, shape.0, shape.1), shape.2))
  }

  /** A loop that reads `n` more things one after the other, each from where the one before it ended,
      and appends them to those it has. */
  function ReadLoop<T>(step: nat -> Result<(T, nat)>, pos: nat, n: nat, done: seq<T>): (r: Result<(seq<T>, nat)>)
    decreases n
  {
    if n == 0 then Ok((done, pos))
    else match step(pos)
      case Err(e) => Err(e)
      case Ok(t) => ReadLoop(step, t.1, n - 1, done + [t.0])
  }

  /** A method returned what a step of the specification says and left the cursor where it ends. */
  ghost predicate Did<T>(want: Result<(T, nat)>, r: Result<T>, pos: nat) {
    match want
    case Err(e) => r == Err(e)
    case Ok(t) => r == Ok(t.0) && pos == t.1
  }

  /** One turn of a loop, from where a step was taken to where it ended. */
  lemma {:induction false} ReadLoopTurn<T>(step: nat -> Result<(T, nat)>, from: nat, n: nat, done: seq<T>, r: Result<T>,
                                           to: nat)
    requires n > 0 && Did(step(from), r, to)
    ensures ReadLoop(step, from, n, done) == if r.Ok? then ReadLoop(step, to, n - 1, done + [r.value]) else Err(r.error)
  {
  }

  /** What a loop returns, and where it ends. */
  function Outcome<T>(loop: Result<(seq<T>, nat)>): (r: Result<seq<T>>) {
    match loop
    case Err(e) => Err(e)
    case Ok(done) => Ok(done.0)
  }

  function KeyStep(data: seq<Byte>): nat -> Result<((), nat)> {
    (pos: nat) =>
      if pos > |data| then Err(ShortRead)
      else match SkipKey(data, pos)
        case Err(e) => Err(e)
        case Ok(q) => Ok(((), q))
  }

  function TensorStep(data: seq<Byte>): nat -> Result<(Tensor, nat)> {
    (pos: nat) => if pos > |data| then Err(ShortRead) else ReadTensor(data, pos)
  }

  /** `read_value`: the bytes of the value read, without a string's length, and where it ends. Nothing is
      read of an array or an unknown type. */
  function ValueAt(data: seq<Byte>, pos: nat, vt: nat): (r: Result<(seq<Byte>, nat)>)
    requires pos <= |data|
    ensures r.Ok? ==> pos <= r.value.1 <= |data|
  {
    match ReadValue(data, pos, vt)
    case Err(e) => Err(e)
    case Ok(q) => Ok((if vt == STRING then data[pos + 8..q] else data[pos..q], q))
  }

  function ValueStep(data: seq<Byte>, vt: nat): nat -> Result<(seq<Byte>, nat)> {
    (pos: nat) => if pos > |data| then Err(ShortRead) else ValueAt(data, pos, vt)
  }

  /** Reading values one after the other ends where `ReadMany` says. */
  lemma {:induction false} LoopEndsLikeReadMany(data: seq<Byte>, pos: nat, at: nat, n: nat, done: seq<seq<Byte>>)
    requires pos <= |data|
    ensures match ReadLoop(ValueStep(data, at), pos, n, done)
            case Err(e) => ReadMany(data, pos, at, n) == Err(e)
            case Ok(values) => values.1 <= |data| && ReadMany(data, pos, at, n) == Ok(values.1)
    decreases n
  {
    if n > 0 {
      var value := ValueAt(data, pos, at);
      if value.Ok? {
        LoopEndsLikeReadMany(data, value.value.1, at, n - 1, done + [value.value.0]);
      }
    }
  }

  /** The elements a printed array shows: all of up to ten, else the first three and the last. */
  function Elements<T>(step: nat -> Result<(T, nat)>, skip: (nat, nat) -> Result<nat>, pos: nat, ac: nat)
    : (r: Result<(seq<T>, nat)>)
  {
    if ac <= 10 then ReadLoop(step, pos, ac, [])
    else match ReadLoop(step, pos, 3, [])
      case Err(e) => Err(e)
      case Ok(first) =>
        match skip(first.1, ac - 4)
        case Err(e) => Err(e)
        case Ok(q) =>
          match step(q)
          case Err(e) => Err(e)
          case Ok(last) => Ok((first.0 + [last.0], last.1))
  }

  function SkipStep(data: seq<Byte>, at: nat): (nat, nat) -> Result<nat> {
    (pos: nat, n: nat) => if pos > |data| then Err(ShortRead) else SkipMany(data, pos, at, n)
  }

  function ElementsAt(data: seq<Byte>, pos: nat, at: nat, ac: nat): (r: Result<(seq<seq<Byte>>, nat)>) {
    Elements(ValueStep(data, at), SkipStep(data, at), pos, ac)
  }

  /** What the dump displays of a value: its bytes, or of an array the element type, the number of
      elements and those shown. */
  datatype Display = One(bytes: seq<Byte>) | Many(at: nat, count: nat, values: seq<seq<Byte>>)

  function DisplayAt(data: seq<Byte>, pos: nat, vt: nat): (r: Result<(Display, nat)>)
    requires pos <= |data|
  {
    if vt != ARRAY then
      match ValueAt(data, pos, vt)
      case Err(e) => Err(e)
      case Ok(value) => Ok((One(value.0), value.1))
    else if pos + 12 > |data| then Err(ShortRead)
    else
      var at, ac := ElementType(data, pos), ElementCount(data, pos);
      match ElementsAt(data, pos + 12, at, ac)
      case Err(e) => Err(e)
      case Ok(values) => Ok((Many(at, ac, values.0), values.1))
  }

  lemma {:induction false} ElementsEndLikePrint(data: seq<Byte>, pos: nat, at: nat, ac: nat)
    requires pos <= |data|
    ensures match ElementsAt(data, pos, at, ac)
            case Err(e) => PrintElements(data, pos, at, ac) == Err(e)
            case Ok(values) => PrintElements(data, pos, at, ac) == Ok(values.1)
  {
    LoopEndsLikeReadMany(data, pos, at, if ac <= 10 then ac else 3, []);
  }

  /** Displaying a value leaves the cursor where `PrintValue` says. */
  lemma {:induction false} DisplayEndsLikePrint(data: seq<Byte>, pos: nat, vt: nat)
    requires pos <= |data|
    ensures match DisplayAt(data, pos, vt)
            case Err(e) => PrintValue(data, pos, vt) == Err(e)
            case Ok(d) => d.1 <= |data| && PrintValue(data, pos, vt) == Ok(d.1)
  {
    if vt == ARRAY && pos + 12 <= |data| {
      ElementsEndLikePrint(data, pos + 12, ElementType(data, pos), ElementCount(data, pos));
    }
  }

  /** What the key dump shows of a key: its name, the type of its value and the value's display. */
  datatype Shown = Shown(key: seq<Byte>, vt: nat, display: Display)

  function DumpKey(data: seq<Byte>, pos: nat): (r: Result<(Shown, nat)>)
    requires pos <= |data|
  {
    match ReadString(data, pos)
    case Err(e) => Err(e)
    case Ok(key) =>
      match ReadNum(data, key.1, 4)
      case Err(e) => Err(e)
      case Ok(vt) =>
        match DisplayAt(data, key.1 + 4, vt)
        case Err(e) => Err(e)
        case Ok(d) => Ok((Shown(key.0, vt, d.0), d.1))
  }

  function DumpStep(data: seq<Byte>): nat -> Result<(Shown, nat)> {
    (pos: nat) => if pos > |data| then Err(ShortRead) else DumpKey(data, pos)
  }

  const HEADER: nat := 24

  /** `dump_gguf_tensors.py`: the list the script builds. The magic and version are read, not judged. */
  function TensorsOf(data: seq<Byte>): (r: Result<seq<Tensor>>) {
    if |data| < HEADER then Err(ShortRead)
    else
      var nt, nk := LeDecode(data[8..16]), LeDecode(data[16..24]);
      match ReadLoop(KeyStep(data), HEADER, nk, [])
      case Err(e) => Err(e)
      case Ok(keys) => Outcome(ReadLoop(TensorStep(data), keys.1, nt, []))
  }

  /** `dump_gguf_keys.py`: the keys the script shows. */
  function KeysOf(data: seq<Byte>): (r: Result<seq<Shown>>) {
    if |data| < HEADER then Err(ShortRead)
    else Outcome(ReadLoop(DumpStep(data), HEADER, LeDecode(data[16..24]), []))
  }

  // --------------------------------------------------------------------------------------------
  // The scripts

  class GgufFile {
    const data: seq<Byte>
    var pos: nat

    ghost predicate Valid() reads this {
      pos <= |data|
    }

    constructor (data: seq<Byte>)
      ensures Valid() && this.data == data && pos == 0
    {
      this.data := data;
      pos := 0;
    }

    /** `f.read(n)`. */
    method Read(n: nat) returns (r: Result<seq<Byte>>)
      requires Valid()
      modifies this
      ensures Valid()
      ensures n > MAX_READ ==> r == Err(TooLarge) && pos == old(pos)
      ensures n <= MAX_READ ==> pos == Advance(data, old(pos), n) && r == Ok(data[old(pos)..pos])
    {
      if n > MAX_READ {
        return Err(TooLarge);
      }
      var start := pos;
      pos := Advance(data, pos, n);
      r := Ok(data[start..pos]);
    }

    /** `struct.unpack` of one integer of `width` bytes. */
    method Unpack(width: nat) returns (r: Result<nat>)
      requires Valid() && width <= 8
      modifies this
      ensures Valid() && pos >= old(pos) && r == ReadNum(data, old(pos), width)
      ensures r.Ok? ==> pos == old(pos) + width
    {
      var bytes := Read(width);
      if |bytes.value| < width {
        return Err(ShortRead);
      }
      r := Ok(LeDecode(bytes.value));
    }

    /** A length and as many bytes as it says, or as there are. */
    method ReadText() returns (r: Result<seq<Byte>>)
      requires Valid()
      modifies this
      ensures Valid() && pos >= old(pos)
      ensures match ReadString(data, old(pos))
              case Ok(text) => r == Ok(text.0) && pos == text.1
              case Err(e) => r == Err(e)
    {
      var sl := Unpack(8);
      if sl.Err? {
        return Err(sl.error);
      }
      r := Read(sl.value);
    }

    /** `skip_value`, which ends on every file and moves the cursor to where `Skip` says. */
    method SkipValue(vt: nat) returns (r: Result<()>)
      requires Valid()
      modifies this
      ensures Valid() && pos >= old(pos)
      ensures match Skip(data, old(pos), vt)
              case Ok(q) => r == Ok(()) && pos == q
              case Err(e) => r == Err(e)
      decreases |data| - pos
    {
      if vt == STRING {
        var text := ReadText();
        if text.Err? {
          return Err(text.error);
        }
      } else if vt == ARRAY {
        var start := pos;
        var header := Read(12);
        if |header.value| < 12 {
          return Err(ShortRead);
        }
        var at, ac := ElementType(data, start), ElementCount(data, start);
        ghost var all, left := SkipMany(data, pos, at, ac), ac;
        for i := 0 to ac
          invariant Valid() && pos >= start + 12 && left == ac - i
          invariant all == SkipMany(data, pos, at, left)
        {
          var element := SkipValue(at);
          if element.Err? {
            return element;
          }
          left := left - 1;
        }
      } else {
        var scalar := Read(ScalarSize(vt));
      }
      r := Ok(());
    }

    method SkipOneKey() returns (r: Result<()>)
      requires Valid()
      modifies this
      ensures Valid()
      ensures Did(KeyStep(data)(old(pos)), r, pos)
    {
      var key := ReadText();
      if key.Err? {
        return Err(key.error);
      }
      var vt := Unpack(4);
      if vt.Err? {
        return Err(vt.error);
      }
      r := SkipValue(vt.value);
    }

    /** The loop that skips every key and its value. */
    method SkipAllKeys(nk: nat) returns (r: Result<()>)
      requires Valid()
      modifies this
      ensures Valid()
      ensures match ReadLoop(KeyStep(data), old(pos), nk, [])
              case Ok(keys) => r == Ok(()) && pos == keys.1
              case Err(e) => r == Err(e)
    {
      ghost var step, skipped: seq<()> := KeyStep(data), [];
      ghost var all, left := ReadLoop(step, pos, nk, []), nk;
      for i := 0 to nk
        invariant Valid() && left == nk - i && all == ReadLoop(step, pos, left, skipped)
      {
        ghost var from := pos;
        var key := SkipOneKey();
        ReadLoopTurn(step, from, left, skipped, key, pos);
        if key.Err? {
          return key;
        }
        skipped, left := skipped + [()], left - 1;
      }
      r := Ok(());
    }

    method UnpackDims(n: nat) returns (r: Result<seq<nat>>)
      requires Valid() && 8 * n <= MAX_READ
      modifies this
      ensures Valid()
      ensures r == if old(pos) + 8 * n <= |data| then Ok(ReadDims(data, old(pos), n)) else Err(ShortRead)
      ensures r.Ok? ==> pos == old(pos) + 8 * n
    {
      var start := pos;
      var bytes := Read(8 * n);
      if |bytes.value| < 8 * n {
        return Err(ShortRead);
      }
      r := Ok(ReadDims(data, start, n));
    }

    method ReadTensorInfo() returns (r: Result<Tensor>)
      requires Valid()
      modifies this
      ensures Valid()
      ensures Did(TensorStep(data)(old(pos)), r, pos)
    {
      var name := ReadText();
      if name.Err? {
        return Err(name.error);
      }
      var nDims := Unpack(4);
      if nDims.Err? {
        return Err(nDims.error);
      }
      Widths();
      var dims := UnpackDims(nDims.value);
      if dims.Err? {
        return Err(dims.error);
      }
      var tt := Unpack(4);
      if tt.Err? {
        return Err(tt.error);
      }
      var offset := Unpack(8);
      if offset.Err? {
        return Err(offset.error);
      }
      r := Ok(Tensor(name.value, dims.value, tt.value));
    }

    /** The tensor loop. */
    method ReadTensorInfos(nt: nat) returns (r: Result<seq<Tensor>>)
      requires Valid()
      modifies this
      ensures Valid()
      ensures r == Outcome(ReadLoop(TensorStep(data), old(pos), nt, []))
    {
      var tensors: seq<Tensor> := [];
      ghost var step := TensorStep(data);
      ghost var all, left := ReadLoop(step, pos, nt, []), nt;
      for i := 0 to nt
        invariant Valid() && left == nt - i && all == ReadLoop(step, pos, left, tensors)
      {
        ghost var from := pos;
        var t := ReadTensorInfo();
        ReadLoopTurn(step, from, left, tensors, t, pos);
        if t.Err? {
          return Err(t.error);
        }
        tensors, left := tensors + [t.value], left - 1;
      }
      r := Ok(tensors);
    }

    /** The whole of `dump_gguf_tensors.py` up to its printing. */
    method DumpTensors() returns (r: Result<seq<Tensor>>)
      requires Valid() && pos == 0
      modifies this
      ensures r == TensorsOf(data)
    {
      var magic := Read(4);
      var header := Read(20);
      if |header.value| < 20 {
        return Err(ShortRead);
      }
      var nt, nk := LeDecode(data[8..16]), LeDecode(data[16..24]);
      assert pos == HEADER;
      var skipped := SkipAllKeys(nk);
      if skipped.Err? {
        return Err(skipped.error);
      }
      r := ReadTensorInfos(nt);
    }

    /** `read_value`. */
    method ReadOne(vt: nat) returns (r: Result<seq<Byte>>)
      requires Valid()
      modifies this
      ensures Valid()
      ensures Did(ValueAt(data, old(pos), vt), r, pos)
    {
      if vt == STRING {
        r := ReadText();
      } else if ScalarSize(vt) > 0 {
        r := Read(ScalarSize(vt));
        if |r.value| < ScalarSize(vt) {
          r := Err(ShortRead);
        }
      } else {
        r := Ok([]);
        assert data[pos..pos] == [];
      }
    }

    /** The loop that prints `n` elements of an array. */
    method ReadElements(at: nat, n: nat) returns (r: Result<seq<seq<Byte>>>)
      requires Valid()
      modifies this
      ensures Valid()
      ensures Did(ReadLoop(ValueStep(data, at), old(pos), n, []), r, pos)
    {
      var values: seq<seq<Byte>> := [];
      ghost var step := ValueStep(data, at);
      ghost var all, left := ReadLoop(step, pos, n, []), n;
      for j := 0 to n
        invariant Valid() && left == n - j && all == ReadLoop(step, pos, left, values)
      {
        ghost var from := pos;
        var value := ReadOne(at);
        ReadLoopTurn(step, from, left, values, value, pos);
        if value.Err? {
          return Err(value.error);
        }
        values, left := values + [value.value], left - 1;
      }
      r := Ok(values);
    }

    /** The loop that skips the middle of an array. */
    method SkipElements(at: nat, n: nat) returns (r: Result<()>)
      requires Valid()
      modifies this
      ensures Valid()
      ensures match SkipMany(data, old(pos), at, n)
              case Ok(q) => r == Ok(()) && pos == q
              case Err(e) => r == Err(e)
    {
      ghost var all, left := SkipMany(data, pos, at, n), n;
      for j := 0 to n
        invariant Valid() && left == n - j && all == SkipMany(data, pos, at, left)
      {
        var element := SkipValue(at);
        if element.Err? {
          return element;
        }
        left := left - 1;
      }
      r := Ok(());
    }

    /** Up to ten elements are all printed; of more, the first three and the last. */
    method PrintArray(at: nat, ac: nat) returns (r: Result<seq<seq<Byte>>>)
      requires Valid()
      modifies this
      ensures Valid()
      ensures Did(ElementsAt(data, old(pos), at, ac), r, pos)
    {
      if ac <= 10 {
        r := ReadElements(at, ac);
      } else {
        var first := ReadElements(at, 3);
        if first.Err? {
          return first;
        }
        var skipped := SkipElements(at, ac - 4);
        if skipped.Err? {
          return Err(skipped.error);
        }
        var last := ReadOne(at);
        if last.Err? {
          return Err(last.error);
        }
        r := Ok(first.value + [last.value]);
      }
    }

    /** What is printed of a value after its type has been read. */
    method PrintDisplay(vt: nat) returns (r: Result<Display>)
      requires Valid()
      modifies this
      ensures Valid()
      ensures Did(DisplayAt(data, old(pos), vt), r, pos)
    {
      if vt == ARRAY {
        var start := pos;
        var header := Read(12);
        if |header.value| < 12 {
          return Err(ShortRead);
        }
        var at, ac := ElementType(data, start), ElementCount(data, start);
        var values := PrintArray(at, ac);
        if values.Err? {
          return Err(values.error);
        }
        r := Ok(Many(at, ac, values.value));
      } else {
        var value := ReadOne(vt);
        if value.Err? {
          return Err(value.error);
        }
        r := Ok(One(value.value));
      }
    }

    method PrintOneKey() returns (r: Result<Shown>)
      requires Valid()
      modifies this
      ensures Valid()
      ensures Did(DumpStep(data)(old(pos)), r, pos)
    {
      var key := ReadText();
      if key.Err? {
        return Err(key.error);
      }
      var vt := Unpack(4);
      if vt.Err? {
        return Err(vt.error);
      }
      var display := PrintDisplay(vt.value);
      if display.Err? {
        return Err(display.error);
      }
      r := Ok(Shown(key.value, vt.value, display.value));
    }

    /** The key loop of the dump. */
    method PrintAllKeys(nk: nat) returns (r: Result<seq<Shown>>)
      requires Valid()
      modifies this
      ensures Valid()
      ensures r == Outcome(ReadLoop(DumpStep(data), old(pos), nk, []))
    {
      var shown: seq<Shown> := [];
      ghost var step := DumpStep(data);
      ghost var all, left := ReadLoop(step, pos, nk, []), nk;
      for i := 0 to nk
        invariant Valid() && left == nk - i && all == ReadLoop(step, pos, left, shown)
      {
        ghost var from := pos;
        var key := PrintOneKey();
        ReadLoopTurn(step, from, left, shown, key, pos);
        if key.Err? {
          return Err(key.error);
        }
        shown, left := shown + [key.value], left - 1;
      }
      r := Ok(shown);
    }

    /** The whole of `dump_gguf_keys.py`, up to how it formats the values. */
    method DumpKeys() returns (r: Result<seq<Shown>>)
      requires Valid() && pos == 0
      modifies this
      ensures r == KeysOf(data)
    {
      var magic := Read(4);
      var header := Read(20);
      if |header.value| < 20 {
        return Err(ShortRead);
      }
      assert pos == HEADER;
      r := PrintAllKeys(LeDecode(data[16..24]));
    }
  }
}
