/** The append-only telemetry packet: the receiver's decoder, dispatched by length. */
module Wire {
  import opened Bytes
  import opened Digests
  import opened Options
  import opened Strings

  // --------------------------------------------------------------------------------------------
  // Little-endian, unpadded struct formats

  datatype Code = B | H | I | Q | S(width: nat)

  datatype Value = Num(n: nat) | Raw(bytes: seq<Byte>)

  function Size(c: Code): (n: nat) {
    match c
    case B => 1
    case H => 2
    case I => 4
    case Q => 8
    case S(width) => width
  }

  /** `struct.calcsize`. */
  function CalcSize(fmt: seq<Code>): (n: nat) {
    if fmt == [] then 0 else Size(fmt[0]) + CalcSize(fmt[1..])
  }

  predicate Fits(c: Code, v: Value) {
    if c.S? then v.Raw? else v.Num? && v.n < Pow256(Size(c))
  }

  /** A fixed-width byte field: too long is cut, too short is filled with NULs. */
  function Padded(bytes: seq<Byte>, width: nat): (p: seq<Byte>)
    ensures |p| == width
  {
    if |bytes| >= width then bytes[..width] else bytes + Zeros(width - |bytes|)
  }

  function PackOne(c: Code, v: Value): (bs: seq<Byte>)
    requires Fits(c, v)
    ensures |bs| == Size(c)
  {
    if c.S? then Padded(v.bytes, c.width) else LeEncode(v.n, Size(c))
  }

  function UnpackOne(c: Code, bs: seq<Byte>): (v: Value)
    requires |bs| == Size(c)
  {
    if c.S? then Raw(bs) else Num(LeDecode(bs))
  }

  predicate AllFit(fmt: seq<Code>, vs: seq<Value>) {
    |fmt| == |vs| && forall i :: 0 <= i < |fmt| ==> Fits(fmt[i], vs[i])
  }

  /** `struct.pack` on values that fit their codes. */
  function Pack(fmt: seq<Code>, vs: seq<Value>): (bs: seq<Byte>)
    requires AllFit(fmt, vs)
    ensures |bs| == CalcSize(fmt)
  {
    if fmt == [] then [] else PackOne(fmt[0], vs[0]) + Pack(fmt[1..], vs[1..])
  }

  /** `struct.unpack`. */
  function Unpack(fmt: seq<Code>, bs: seq<Byte>): (vs: seq<Value>)
    requires |bs| == CalcSize(fmt)
    ensures |vs| == |fmt|
  {
    if fmt == [] then [] else [UnpackOne(fmt[0], bs[..Size(fmt[0])])] + Unpack(fmt[1..], bs[Size(fmt[0])..])
  }

  /** What a value becomes by being packed. */
  function Stored(c: Code, v: Value): (s: Value) {
    if c.S? && v.Raw? then Raw(Padded(v.bytes, c.width)) else v
  }

  lemma {:induction false} UnpackOfPack(fmt: seq<Code>, vs: seq<Value>)
    requires AllFit(fmt, vs)
    ensures |Unpack(fmt, Pack(fmt, vs))| == |fmt|
    ensures forall i :: 0 <= i < |fmt| ==> Unpack(fmt, Pack(fmt, vs))[i] == Stored(fmt[i], vs[i])
  {
    if fmt != [] {
      var head := PackOne(fmt[0], vs[0]);
      var bs := Pack(fmt, vs);
      assert bs[..Size(fmt[0])] == head && bs[Size(fmt[0])..] == Pack(fmt[1..], vs[1..]);
      if !fmt[0].S? {
        LeDecodeEncode(vs[0].n, Size(fmt[0]));
      }
      UnpackOfPack(fmt[1..], vs[1..]);
    }
  }

  lemma {:induction false} PackOfConcat(f: seq<Code>, us: seq<Value>, g: seq<Code>, vs: seq<Value>)
    requires AllFit(f, us) && AllFit(g, vs)
    ensures AllFit(f + g, us + vs)
    ensures Pack(f + g, us + vs) == Pack(f, us) + Pack(g, vs)
  {
    if f == [] {
      assert f + g == g && us + vs == vs;
    } else {
      assert (f + g)[1..] == f[1..] + g && (us + vs)[1..] == us[1..] + vs;
      PackOfConcat(f[1..], us[1..], g, vs);
    }
  }

  lemma {:induction false} CalcSizeOfConcat(f: seq<Code>, g: seq<Code>)
    ensures CalcSize(f + g) == CalcSize(f) + CalcSize(g)
  {
    if f == [] {
      assert f + g == g;
    } else {
      assert (f + g)[1..] == f[1..] + g;
      CalcSizeOfConcat(f[1..], g);
    }
  }

  // --------------------------------------------------------------------------------------------
  // The packet

  datatype Field =
    | Magic | Version | Kind | Flags | BootId | Seq | UptimeMs | InferActive | InferDutyPct | LogCursor
    | QTotal | QHits | QInfer | QHeartbeat | QShield | QErrors
    | NumNodes | ModelLoadPct | FbBpp | SelftestScore | FbW | FbH | ModelSizeMb | TotalRamMb
    | InferGenTokens | CacheGrowthCount | LastText | ModelName
    | NvmeTotalMb | EpisodicCount | PoolEvents | PoolDecisions | RetrievalHits | RetrievalLatencyUs
    | InferLastTokX100 | ShieldLearnKeys | ShieldLearnMaxRiskX100 | SemanticFactCount
    | RestartCount | ActionsFired | ActionsBlocked | MonitorsFired | LastMonitorEvent | MonPad
    | WakesFired | LastWakeEvent | WakePad | BehaviorsFired | BehaviorsMask | LastBehavior | BehPad
    | ControlInAnswered | ControlInBlocked | ControlInDropped
    | RouteSysfacts | RouteDecline | RouteInfer | RouteInited | RoutePad
    | SemRecallHits | SemRecallTried | SemRecallFloor | SemInited | SemPad
    | RouteVetoChecked | RouteVetoed | VetoInited | VetoPad
    | Crc32

  const MAGIC: nat := 0x4A54454C

  const FMT_IDENTITY: seq<Code> := [I, B, B, H, I, I, I, B, B, H]
  const FMT_QUERIES: seq<Code> := [Q, Q, Q, Q, Q, Q]
  const FMT_SYSTEM: seq<Code> := [B, B, B, B, H, H, I, I, H, H]
  const FMT_MODEL: seq<Code> := [S(56), S(40), I, I, I, I, I, I]
  const FMT_LEARNING: seq<Code> := [H, H, H, H, I, H, H]
  const FMT_ACTIVITY: seq<Code> := [H, B, B, H, B, B, H, H, B, B]
  const FMT_COMMON: seq<Code> :=
    FMT_IDENTITY + FMT_QUERIES + FMT_SYSTEM + FMT_MODEL + FMT_LEARNING + FMT_ACTIVITY
  const FMT_CTRL_IN: seq<Code> := [H, H, I]
  const FMT_ROUTE: seq<Code> := [H, H, H, B, B]
  const FMT_SEM: seq<Code> := [H, H, H, B, B]
  const FMT_VETO: seq<Code> := [H, H, B, B]

  /** The format of a packet, group by group; every layout ends in the checksum. */
  datatype Formats = Formats(common: seq<Code>, ctrlIn: seq<Code>, route: seq<Code>, sem: seq<Code>,
                             veto: seq<Code>)
  {
    /** What wire version `layout` packs before the checksum. */
    function Body(layout: nat): (fmt: seq<Code>) {
      if layout == 10 then common
      else if layout == 11 then common + ctrlIn
      else if layout == 12 then common + ctrlIn + route
      else if layout == 13 then common + ctrlIn + route + sem
      else common + ctrlIn + route + sem + veto
    }

    function Packet(layout: nat): (fmt: seq<Code>) {
      Body(layout) + [I]
    }

    /** The sizes of the groups, and that no appended group is empty. */
    ghost predicate WellSized() {
      && |common| >= 17 && |ctrlIn| == 3 && |route| == 5 && |sem| == 5 && |veto| == 4
      && CalcSize(ctrlIn) > 0 && CalcSize(route) > 0 && CalcSize(sem) > 0 && CalcSize(veto) > 0
    }
  }

  const FORMATS: Formats := Formats(FMT_COMMON, FMT_CTRL_IN, FMT_ROUTE, FMT_SEM, FMT_VETO)

  lemma {:induction false} SizeFrom(fmt: seq<Code>, i: nat)
    requires i < |fmt|
    ensures CalcSize(fmt[i..]) == Size(fmt[i]) + CalcSize(fmt[i + 1..])
  {
    assert fmt[i..][1..] == fmt[i + 1..];
  }

  /** The groups are short enough to add up one code at a time. */
  lemma {:induction false} SizeOfGroup(f: seq<Code>, g: seq<Code>)
    requires |g| <= 10
    ensures CalcSize(f + g) == CalcSize(f) + CalcSize(g)
    ensures CalcSize(g) ==
            (if |g| > 0 then Size(g[0]) else 0) + (if |g| > 1 then Size(g[1]) else 0)
            + (if |g| > 2 then Size(g[2]) else 0) + (if |g| > 3 then Size(g[3]) else 0)
            + (if |g| > 4 then Size(g[4]) else 0) + (if |g| > 5 then Size(g[5]) else 0)
            + (if |g| > 6 then Size(g[6]) else 0) + (if |g| > 7 then Size(g[7]) else 0)
            + (if |g| > 8 then Size(g[8]) else 0) + (if |g| > 9 then Size(g[9]) else 0)
  {
    CalcSizeOfConcat(f, g);
    assert g[0..] == g;
    if |g| > 0 { SizeFrom(g, 0); }
    if |g| > 1 { SizeFrom(g, 1); }
    if |g| > 2 { SizeFrom(g, 2); }
    if |g| > 3 { SizeFrom(g, 3); }
    if |g| > 4 { SizeFrom(g, 4); }
    if |g| > 5 { SizeFrom(g, 5); }
    if |g| > 6 { SizeFrom(g, 6); }
    if |g| > 7 { SizeFrom(g, 7); }
    if |g| > 8 { SizeFrom(g, 8); }
    if |g| > 9 { SizeFrom(g, 9); }
  }

  lemma {:induction false} SizesOfFirstGroups()
    ensures |FMT_IDENTITY| == 10 && CalcSize(FMT_IDENTITY) == 24
    ensures |FMT_QUERIES| == 6 && CalcSize(FMT_QUERIES) == 48
    ensures |FMT_SYSTEM| == 10 && CalcSize(FMT_SYSTEM) == 20
  {
    SizeOfGroup([], FMT_IDENTITY);
    SizeOfGroup([], FMT_QUERIES);
    SizeOfGroup([], FMT_SYSTEM);
  }

  lemma {:induction false} SizesOfLastGroups()
    ensures |FMT_MODEL| == 8 && CalcSize(FMT_MODEL) == 120
    ensures |FMT_LEARNING| == 7 && CalcSize(FMT_LEARNING) == 16
    ensures |FMT_ACTIVITY| == 10 && CalcSize(FMT_ACTIVITY) == 14
  {
    SizeOfGroup([], FMT_MODEL);
    SizeOfGroup([], FMT_LEARNING);
    SizeOfGroup([], FMT_ACTIVITY);
  }

  lemma {:induction false} SizeOfSix(a: seq<Code>, b: seq<Code>, c: seq<Code>, d: seq<Code>, e: seq<Code>, f: seq<Code>)
    ensures CalcSize(a + b + c + d + e + f) ==
            CalcSize(a) + CalcSize(b) + CalcSize(c) + CalcSize(d) + CalcSize(e) + CalcSize(f)
  {
    CalcSizeOfConcat(a, b);
    CalcSizeOfConcat(a + b, c);
    CalcSizeOfConcat(a + b + c, d);
    CalcSizeOfConcat(a + b + c + d, e);
    CalcSizeOfConcat(a + b + c + d + e, f);
  }

  lemma {:induction false} SizeOfCommon()
    ensures |FMT_COMMON| == 51 && CalcSize(FMT_COMMON) == 242
  {
    SizesOfFirstGroups();
    SizesOfLastGroups();
    SizeOfSix(FMT_IDENTITY, FMT_QUERIES, FMT_SYSTEM, FMT_MODEL, FMT_LEARNING, FMT_ACTIVITY);
  }

  lemma {:induction false} SizesOfAppended()
    ensures CalcSize(FMT_CTRL_IN) == 8 && CalcSize(FMT_ROUTE) == 8
    ensures CalcSize(FMT_SEM) == 8 && CalcSize(FMT_VETO) == 6
  {
    SizeOfGroup([], FMT_CTRL_IN);
    SizeOfGroup([], FMT_ROUTE);
    SizeOfGroup([], FMT_SEM);
    SizeOfGroup([], FMT_VETO);
  }

  lemma {:induction false} SizesOfLayouts(fm: Formats)
    ensures CalcSize(fm.Packet(10)) == CalcSize(fm.common) + 4
    ensures CalcSize(fm.Packet(11)) == CalcSize(fm.Packet(10)) + CalcSize(fm.ctrlIn)
    ensures CalcSize(fm.Packet(12)) == CalcSize(fm.Packet(11)) + CalcSize(fm.route)
    ensures CalcSize(fm.Packet(13)) == CalcSize(fm.Packet(12)) + CalcSize(fm.sem)
    ensures CalcSize(fm.Packet(14)) == CalcSize(fm.Packet(13)) + CalcSize(fm.veto)
  {
    CalcSizeOfConcat(fm.common, fm.ctrlIn);
    CalcSizeOfConcat(fm.common + fm.ctrlIn, fm.route);
    CalcSizeOfConcat(fm.common + fm.ctrlIn + fm.route, fm.sem);
    CalcSizeOfConcat(fm.common + fm.ctrlIn + fm.route + fm.sem, fm.veto);
    CalcSizeOfConcat(fm.Body(10), [I]);
    CalcSizeOfConcat(fm.Body(11), [I]);
    CalcSizeOfConcat(fm.Body(12), [I]);
    CalcSizeOfConcat(fm.Body(13), [I]);
    CalcSizeOfConcat(fm.Body(14), [I]);
  }

  /** The sizes on the wire, version by version. */
  lemma {:induction false} WireSizes()
    ensures FORMATS.WellSized()
    ensures CalcSize(FORMATS.Packet(10)) == 246
    ensures CalcSize(FORMATS.Packet(11)) == 254
    ensures CalcSize(FORMATS.Packet(12)) == 262
    ensures CalcSize(FORMATS.Packet(13)) == 270
    ensures CalcSize(FORMATS.Packet(14)) == 276
  {
    SizeOfCommon();
    SizesOfAppended();
    SizesOfLayouts(FORMATS);
  }

  /** The names the decoder gives the unpacked values, group by group. */
  const IDENTITY_NAMES: seq<Field> :=
    [Magic, Version, Kind, Flags, BootId, Seq, UptimeMs, InferActive, InferDutyPct, LogCursor]
  const QUERY_NAMES: seq<Field> := [QTotal, QHits, QInfer, QHeartbeat, QShield, QErrors]
  const SYSTEM_NAMES: seq<Field> :=
    [NumNodes, ModelLoadPct, FbBpp, SelftestScore, FbW, FbH, ModelSizeMb, TotalRamMb, InferGenTokens,
     CacheGrowthCount]
  const MODEL_NAMES: seq<Field> :=
    [LastText, ModelName, NvmeTotalMb, EpisodicCount, PoolEvents, PoolDecisions, RetrievalHits,
     RetrievalLatencyUs]
  const LEARNING_NAMES: seq<Field> :=
    [InferLastTokX100, ShieldLearnKeys, ShieldLearnMaxRiskX100, SemanticFactCount, RestartCount,
     ActionsFired, ActionsBlocked]
  const ACTIVITY_NAMES: seq<Field> :=
    [MonitorsFired, LastMonitorEvent, MonPad, WakesFired, LastWakeEvent, WakePad, BehaviorsFired,
     BehaviorsMask, LastBehavior, BehPad]
  const COMMON_NAMES: seq<Field> :=
    IDENTITY_NAMES + QUERY_NAMES + SYSTEM_NAMES + MODEL_NAMES + LEARNING_NAMES + ACTIVITY_NAMES
  const CTRL_IN_NAMES: seq<Field> := [ControlInAnswered, ControlInBlocked, ControlInDropped]
  const ROUTE_NAMES: seq<Field> := [RouteSysfacts, RouteDecline, RouteInfer, RouteInited, RoutePad]
  const SEM_NAMES: seq<Field> := [SemRecallHits, SemRecallTried, SemRecallFloor, SemInited, SemPad]
  const VETO_NAMES: seq<Field> := [RouteVetoChecked, RouteVetoed, VetoInited, VetoPad]

  predicate IsPad(f: Field) {
    f in {MonPad, WakePad, BehPad, RoutePad, SemPad, VetoPad}
  }

  /** The decoder's names, group by group. */
  datatype Names = Names(common: seq<Field>, ctrlIn: seq<Field>, route: seq<Field>, sem: seq<Field>,
                         veto: seq<Field>)
  {
    /** The first wire version that carries the field. */
    function Since(f: Field): (version: nat) {
      if f in ctrlIn then 11
      else if f in route then 12
      else if f in sem then 13
      else if f in veto then 14
      else 10
    }

    /** The decoder names the field, and the checksum is in no group. */
    predicate Has(f: Field) {
      if f == Crc32 then Since(f) == 10 && f !in common
      else f in ctrlIn || f in route || f in sem || f in veto || f in common
    }
  }

  const NAMES: Names := Names(COMMON_NAMES, CTRL_IN_NAMES, ROUTE_NAMES, SEM_NAMES, VETO_NAMES)

  // --------------------------------------------------------------------------------------------
  // Text fields

  predicate IsSpace(b: Byte) {
    9 <= b <= 13 || 28 <= b <= 32
  }

  function BeforeNul(raw: seq<Byte>): (s: seq<Byte>) {
    if raw == [] || raw[0] == 0 then [] else [raw[0]] + BeforeNul(raw[1..])
  }

  /** ASCII decoding with replacement: a byte outside ASCII becomes U+FFFD, which is not a space. */
  function Ascii(s: seq<Byte>): (t: string) {
    seq(|s|, i requires 0 <= i < |s| => if s[i] < 128 then s[i] as char else '\U{FFFD}')
  }

  /** `_cstr`: up to the first NUL, as ASCII, stripped of surrounding white space. */
  function CStr(raw: seq<Byte>): (t: string) {
    Ascii(Strip(BeforeNul(raw), IsSpace))
  }

  /** The bytes one by one as characters. */
  function Latin(s: seq<Byte>): (t: string) {
    seq(|s|, i requires 0 <= i < |s| => s[i] as char)
  }

  lemma {:induction false} BeforeNulOfPadded(bytes: seq<Byte>, n: nat)
    ensures |BeforeNul(bytes + Zeros(n))| <= |bytes|
    ensures BeforeNul(bytes + Zeros(n)) == bytes <==> 0 !in bytes
    ensures 0 in bytes ==> |BeforeNul(bytes + Zeros(n))| < |bytes|
  {
    if bytes == [] {
    } else {
      var rest := bytes[1..];
      assert (bytes + Zeros(n))[1..] == rest + Zeros(n);
      assert bytes == [bytes[0]] + rest;
      BeforeNulOfPadded(rest, n);
    }
  }

  lemma {:induction false} BeforeNulIsShorter(raw: seq<Byte>)
    ensures |BeforeNul(raw)| <= |raw|
  {
    if raw != [] {
      BeforeNulIsShorter(raw[1..]);
    }
  }

  /** A text comes back as it was given exactly when it fits its field, is ASCII without NUL, and
      neither begins nor ends with white space. */
  predicate TextSurvives(bytes: seq<Byte>, width: nat) {
    && |bytes| <= width
    && (forall i :: 0 <= i < |bytes| ==> 0 < bytes[i] < 128)
    && (bytes == [] || (!IsSpace(bytes[0]) && !IsSpace(bytes[|bytes| - 1])))
  }

  lemma {:induction false} TextRoundTripsIff(bytes: seq<Byte>, width: nat)
    ensures CStr(Padded(bytes, width)) == Latin(bytes) <==> TextSurvives(bytes, width)
  {
    var cut := BeforeNul(Padded(bytes, width));
    var shown := Strip(cut, IsSpace);
    if |bytes| > width {
      BeforeNulIsShorter(bytes[..width]);
    } else {
      assert Padded(bytes, width) == bytes + Zeros(width - |bytes|);
      BeforeNulOfPadded(bytes, width - |bytes|);
      if 0 !in bytes {
        assert cut == bytes;
        if StripLeft(bytes, IsSpace) != bytes {
          assert IsSpace(bytes[0]);
          assert |StripLeft(bytes, IsSpace)| < |bytes|;
        } else if shown != bytes {
          assert |shown| < |bytes|;
        } else if !(forall i :: 0 <= i < |bytes| ==> 0 < bytes[i] < 128) {
          var i :| 0 <= i < |bytes| && !(0 < bytes[i] < 128);
          assert bytes[i] in bytes;
          assert Ascii(bytes)[i] != Latin(bytes)[i];
        } else {
          assert forall i :: 0 <= i < |bytes| ==> Ascii(bytes)[i] == Latin(bytes)[i];
        }
      }
    }
  }

  // --------------------------------------------------------------------------------------------
  // Decoding

  /** What the decoded dictionary holds under a name: `Missing` is Python's None. */
  datatype Shown = Missing | Number(n: nat) | Text(text: string)

  datatype Packet = Packet(fields: map<Field, Shown>, crcCalc: U32, crcOk: bool)

  datatype DecodeResult = Decoded(packet: Packet) | BadLength | BadMagic

  /** The values of one packet, split into the groups of the format. */
  datatype Groups = Groups(common: seq<Value>, ctrlIn: seq<Value>, route: seq<Value>, sem: seq<Value>,
                           veto: seq<Value>, crc32: Value)

  /** Python's `fields[-from:-to]`. */
  function FromEnd(fields: seq<Value>, from: nat, to: nat): (s: seq<Value>)
    requires to <= from <= |fields|
  {
    fields[|fields| - from..|fields| - to]
  }

  /** The slices each branch of the dispatch takes; a group the layout does not carry is empty. */
  function Split(layout: nat, f: seq<Value>): (g: Groups)
    requires |f| >= 18
  {
    match layout
    case 14 =>
      Groups(f[..|f| - 18], FromEnd(f, 18, 15), FromEnd(f, 15, 10), FromEnd(f, 10, 5), FromEnd(f, 5, 1), f[|f| - 1])
    case 13 =>
      Groups(f[..|f| - 14], FromEnd(f, 14, 11), FromEnd(f, 11, 6), FromEnd(f, 6, 1), [], f[|f| - 1])
    case 12 =>
      Groups(f[..|f| - 9], FromEnd(f, 9, 6), FromEnd(f, 6, 1), [], [], f[|f| - 1])
    case 11 =>
      Groups(f[..|f| - 4], FromEnd(f, 4, 1), [], [], [], f[|f| - 1])
    case _ =>
      Groups(f[..|f| - 1], [], [], [], [], f[|f| - 1])
  }

  /** The dispatch by length. */
  function LayoutOfLength(fm: Formats, n: nat): (layout: Option<nat>)
    ensures layout.Some? ==> 10 <= layout.value <= 14 && n == CalcSize(fm.Packet(layout.value))
  {
    if n == CalcSize(fm.Packet(14)) then Some(14)
    else if n == CalcSize(fm.Packet(13)) then Some(13)
    else if n == CalcSize(fm.Packet(12)) then Some(12)
    else if n == CalcSize(fm.Packet(11)) then Some(11)
    else if n == CalcSize(fm.Packet(10)) then Some(10)
    else None
  }

  /** The value the decoder's tuple assignment gives to a name. */
  function Lookup(names: seq<Field>, values: seq<Value>, f: Field): (s: Shown) {
    if names == [] || values == [] then Missing
    else if names[0] == f then
      match values[0]
      case Num(n) => Number(n)
      case Raw(bytes) => Text(CStr(bytes))
    else Lookup(names[1..], values[1..], f)
  }

  function ShownField(names: Names, g: Groups, f: Field): (s: Shown) {
    if f == Crc32 then Lookup([Crc32], [g.crc32], f)
    else if f in names.ctrlIn then Lookup(names.ctrlIn, g.ctrlIn, f)
    else if f in names.route then Lookup(names.route, g.route, f)
    else if f in names.sem then Lookup(names.sem, g.sem, f)
    else if f in names.veto then Lookup(names.veto, g.veto, f)
    else Lookup(names.common, g.common, f)
  }

  /** The values of a packet of a layout, split into groups. */
  function GroupsOf(fm: Formats, layout: nat, data: seq<Byte>): (g: Groups)
    requires fm.WellSized() && 10 <= layout <= 14 && |data| == CalcSize(fm.Packet(layout))
  {
    var values := Unpack(fm.Packet(layout), data);
    assert |values| >= 18;
    Split(layout, values)
  }

  lemma {:induction false} PacketsHoldChecksum(fm: Formats, layout: nat)
    requires 10 <= layout <= 14
    ensures CalcSize(fm.Packet(layout)) >= 4
  {
    SizesOfLayouts(fm);
  }

  /** The decoder for any format and naming of the fields. */
  function DecodeAs(fm: Formats, names: Names, crc: Crc, data: seq<Byte>): (r: DecodeResult)
    requires fm.WellSized()
  {
    var layout := LayoutOfLength(fm, |data|);
    if layout.None? then BadLength
    else
      PacketsHoldChecksum(fm, layout.value);
      var g := GroupsOf(fm, layout.value, data);
      if ShownField(names, g, Magic) != Number(MAGIC) then BadMagic
      else
        var computed := crc(data[..|data| - 4]);
        Decoded(Packet(map f: Field | !IsPad(f) :: ShownField(names, g, f), computed, g.crc32 == Num(computed)))
  }

  /** `decode_packet`. */
  function DecodePacket(crc: Crc, data: seq<Byte>): (r: DecodeResult) {
    WireSizes();
    DecodeAs(FORMATS, NAMES, crc, data)
  }
}
