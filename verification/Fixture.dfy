/** The packer of telemetry packets, and its round trip through the receiver's decoder. */
module Fixture {
  import opened Bytes
  import opened Digests
  import opened Options
  import opened Wire

  /** The order in which the packer lists the common fields, and each appended group. */
  const ORDER_IDENTITY: seq<Field> :=
    [Magic, Version, Kind, Flags, BootId, Seq, UptimeMs, InferActive, InferDutyPct, LogCursor]
  const ORDER_QUERIES: seq<Field> := [QTotal, QHits, QInfer, QHeartbeat, QShield, QErrors]
  const ORDER_SYSTEM: seq<Field> :=
    [NumNodes, ModelLoadPct, FbBpp, SelftestScore, FbW, FbH, ModelSizeMb, TotalRamMb, InferGenTokens,
     CacheGrowthCount]
  const ORDER_MODEL: seq<Field> :=
    [LastText, ModelName, NvmeTotalMb, EpisodicCount, PoolEvents, PoolDecisions, RetrievalHits,
     RetrievalLatencyUs]
  const ORDER_LEARNING: seq<Field> :=
    [InferLastTokX100, ShieldLearnKeys, ShieldLearnMaxRiskX100, SemanticFactCount, RestartCount,
     ActionsFired, ActionsBlocked]
  const ORDER_ACTIVITY: seq<Field> :=
    [MonitorsFired, LastMonitorEvent, MonPad, WakesFired, LastWakeEvent, WakePad, BehaviorsFired,
     BehaviorsMask, LastBehavior, BehPad]
  const ORDER_COMMON: seq<Field> :=
    ORDER_IDENTITY + ORDER_QUERIES + ORDER_SYSTEM + ORDER_MODEL + ORDER_LEARNING + ORDER_ACTIVITY
  const ORDER_CTRL_IN: seq<Field> := [ControlInAnswered, ControlInBlocked, ControlInDropped]
  const ORDER_ROUTE: seq<Field> := [RouteSysfacts, RouteDecline, RouteInfer, RouteInited, RoutePad]
  const ORDER_SEM: seq<Field> := [SemRecallHits, SemRecallTried, SemRecallFloor, SemInited, SemPad]
  const ORDER_VETO: seq<Field> := [RouteVetoChecked, RouteVetoed, VetoInited, VetoPad]
  const ORDER: Names := Names(ORDER_COMMON, ORDER_CTRL_IN, ORDER_ROUTE, ORDER_SEM, ORDER_VETO)

  /** The default of every field; the version byte is set by `FieldValue`. */
  function Default(f: Field): (v: Value) {
    match f
    case Magic => Num(MAGIC)
    case Kind => Num(1)
    case Flags => Num(0x11)
    case BootId => Num(1)
    case Seq => Num(42)
    case UptimeMs => Num(120000)
    case InferDutyPct => Num(18)
    case LogCursor => Num(137)
    case QTotal => Num(289)
    case QHits => Num(211)
    case QInfer => Num(29)
    case QHeartbeat => Num(40)
    case QShield => Num(9)
    case NumNodes => Num(6)
    case ModelLoadPct => Num(100)
    case FbBpp => Num(32)
    case SelftestScore => Num(5)
    case FbW => Num(1024)
    case FbH => Num(768)
    case ModelSizeMb => Num(2962)
    case TotalRamMb => Num(30000)
    case LastText => Raw([0x68, 0x65, 0x6C, 0x6C, 0x6F])
    case ModelName => Raw([0x47, 0x65, 0x6D, 0x6D, 0x61, 0x20, 0x34, 0x20, 0x45, 0x32, 0x42])
    case NvmeTotalMb => Num(1953892)
    case _ => Num(0)
  }

  /** Defaults, then overrides; the version byte follows the wire version unless overridden. */
  function FieldValue(overrides: map<Field, Value>, wireVersion: nat, f: Field): (v: Value) {
    if f in overrides then overrides[f]
    else if f == Version then Num(wireVersion)
    else Default(f)
  }

  /** The layout a wire version selects: anything but 10 to 13 is packed as 14. */
  function Layout(wireVersion: nat): (layout: nat)
    ensures 10 <= layout <= 14
  {
    if 10 <= wireVersion <= 13 then wireVersion else 14
  }

  /** The fields packed before the checksum, in order. */
  function BodyOrder(order: Names, layout: nat): (names: seq<Field>) {
    if layout == 10 then order.common
    else if layout == 11 then order.common + order.ctrlIn
    else if layout == 12 then order.common + order.ctrlIn + order.route
    else if layout == 13 then order.common + order.ctrlIn + order.route + order.sem
    else order.common + order.ctrlIn + order.route + order.sem + order.veto
  }

  function Values(names: seq<Field>, value: Field -> Value): (vs: seq<Value>)
    ensures |vs| == |names|
    ensures forall i :: 0 <= i < |names| ==> vs[i] == value(names[i])
  {
    seq(|names|, i requires 0 <= i < |names| => value(names[i]))
  }

  function Plain(overrides: map<Field, Value>, wireVersion: nat): Field -> Value {
    f => FieldValue(overrides, wireVersion, f)
  }

  /** Pack the fields and the checksum, then stamp the checksum of what was packed before it. */
  function BuildFrom(crc: Crc, finalize: bool, fmt: seq<Code>, names: seq<Field>, value: Field -> Value)
    : (packet: Option<seq<Byte>>)
  {
    if !AllFit(fmt + [I], Values(names + [Crc32], value)) then None
    else
      var packed := Pack(fmt + [I], Values(names + [Crc32], value));
      CalcSizeOfConcat(fmt, [I]);
      var size := |packed|;
      if finalize then
        Widths();
        Some(packed[..size - 4] + LeEncode(crc(packed[..size - 4]), 4))
      else Some(packed)
  }

  /** `build_packet`; `None` stands for a value that does not fit its field. */
  function BuildPacket(crc: Crc, finalize: bool, wireVersion: nat, overrides: map<Field, Value>)
    : (packet: Option<seq<Byte>>)
  {
    BuildFrom(crc, finalize, FORMATS.Body(Layout(wireVersion)), BodyOrder(ORDER, Layout(wireVersion)),
              Plain(overrides, wireVersion))
  }

  // --------------------------------------------------------------------------------------------
  // The packer's order is the decoder's order

  /** The width of the two text fields. */
  function TextWidth(f: Field): (width: nat) {
    if f == LastText then 56 else 40
  }

  predicate IsText(f: Field) {
    f == LastText || f == ModelName
  }

  /** Exactly the text fields have a text code, and it has their width. */
  ghost predicate Coded(fmt: seq<Code>, names: seq<Field>) {
    |fmt| == |names| && forall i :: 0 <= i < |names| ==>
      && (fmt[i].S? <==> IsText(names[i]))
      && (fmt[i].S? ==> fmt[i].width == TextWidth(names[i]))
  }

  lemma {:induction false} CodedConcat(f: seq<Code>, m: seq<Field>, g: seq<Code>, n: seq<Field>)
    requires Coded(f, m) && Coded(g, n)
    ensures Coded(f + g, m + n)
  {
  }

  /** The wire version that introduced each field. */
  function IntroducedIn(f: Field): (version: nat) {
    if f in {ControlInAnswered, ControlInBlocked, ControlInDropped} then 11
    else if f in {RouteSysfacts, RouteDecline, RouteInfer, RouteInited, RoutePad} then 12
    else if f in {SemRecallHits, SemRecallTried, SemRecallFloor, SemInited, SemPad} then 13
    else if f in {RouteVetoChecked, RouteVetoed, VetoInited, VetoPad} then 14
    else 10
  }

  /** The packer's order is the decoder's naming, and the codes fit it group by group. */
  ghost predicate Agree(fm: Formats, names: Names) {
    && fm.WellSized()
    && Coded(fm.common, names.common) && Coded(fm.ctrlIn, names.ctrlIn) && Coded(fm.route, names.route)
    && Coded(fm.sem, names.sem) && Coded(fm.veto, names.veto)
    && fm.common[0] == I && names.common[0] == Magic
    && forall f: Field :: names.Has(f) && names.Since(f) == IntroducedIn(f)
  }

  lemma {:induction false} FirstGroupsAreCoded()
    ensures Coded(FMT_IDENTITY, ORDER_IDENTITY) && ORDER_IDENTITY == IDENTITY_NAMES
    ensures Coded(FMT_QUERIES, ORDER_QUERIES) && ORDER_QUERIES == QUERY_NAMES
    ensures Coded(FMT_SYSTEM, ORDER_SYSTEM) && ORDER_SYSTEM == SYSTEM_NAMES
  {
  }

  lemma {:induction false} LastGroupsAreCoded()
    ensures Coded(FMT_MODEL, ORDER_MODEL) && ORDER_MODEL == MODEL_NAMES
    ensures Coded(FMT_LEARNING, ORDER_LEARNING) && ORDER_LEARNING == LEARNING_NAMES
    ensures Coded(FMT_ACTIVITY, ORDER_ACTIVITY) && ORDER_ACTIVITY == ACTIVITY_NAMES
  {
  }

  lemma {:induction false} AppendedGroupsAreCoded()
    ensures Coded(FMT_CTRL_IN, ORDER_CTRL_IN) && ORDER_CTRL_IN == CTRL_IN_NAMES
    ensures Coded(FMT_ROUTE, ORDER_ROUTE) && ORDER_ROUTE == ROUTE_NAMES
    ensures Coded(FMT_SEM, ORDER_SEM) && ORDER_SEM == SEM_NAMES
    ensures Coded(FMT_VETO, ORDER_VETO) && ORDER_VETO == VETO_NAMES
  {
    assert Coded(FMT_CTRL_IN, ORDER_CTRL_IN);
    assert Coded(FMT_ROUTE, ORDER_ROUTE);
    assert Coded(FMT_SEM, ORDER_SEM);
    assert Coded(FMT_VETO, ORDER_VETO);
  }

  lemma {:induction false} CodedSix(f1: seq<Code>, f2: seq<Code>, f3: seq<Code>, f4: seq<Code>, f5: seq<Code>, f6: seq<Code>,
                 m1: seq<Field>, m2: seq<Field>, m3: seq<Field>, m4: seq<Field>, m5: seq<Field>, m6: seq<Field>)
    requires Coded(f1, m1) && Coded(f2, m2) && Coded(f3, m3) && Coded(f4, m4) && Coded(f5, m5) && Coded(f6, m6)
    ensures Coded(f1 + f2 + f3 + f4 + f5 + f6, m1 + m2 + m3 + m4 + m5 + m6)
  {
    CodedConcat(f1, m1, f2, m2);
    CodedConcat(f1 + f2, m1 + m2, f3, m3);
    CodedConcat(f1 + f2 + f3, m1 + m2 + m3, f4, m4);
    CodedConcat(f1 + f2 + f3 + f4, m1 + m2 + m3 + m4, f5, m5);
    CodedConcat(f1 + f2 + f3 + f4 + f5, m1 + m2 + m3 + m4 + m5, f6, m6);
  }

  lemma {:induction false} CommonIsCoded()
    ensures Coded(FMT_COMMON, ORDER_COMMON) && ORDER_COMMON == COMMON_NAMES
  {
    FirstGroupsAreCoded();
    LastGroupsAreCoded();
    CodedSix(FMT_IDENTITY, FMT_QUERIES, FMT_SYSTEM, FMT_MODEL, FMT_LEARNING, FMT_ACTIVITY,
             ORDER_IDENTITY, ORDER_QUERIES, ORDER_SYSTEM, ORDER_MODEL, ORDER_LEARNING, ORDER_ACTIVITY);
  }

  lemma {:induction false} CommonOtherwise(f: Field)
    requires f != Crc32 && f !in CTRL_IN_NAMES && f !in ROUTE_NAMES && f !in SEM_NAMES && f !in VETO_NAMES
    ensures f in COMMON_NAMES
  {
    assert f in IDENTITY_NAMES || f in QUERY_NAMES || f in SYSTEM_NAMES || f in MODEL_NAMES
           || f in LEARNING_NAMES || f in ACTIVITY_NAMES;
  }

  lemma {:induction false} CrcIsInNoGroup()
    ensures NAMES.Since(Crc32) == 10 && Crc32 !in COMMON_NAMES
  {
    assert Crc32 !in IDENTITY_NAMES && Crc32 !in QUERY_NAMES && Crc32 !in SYSTEM_NAMES
           && Crc32 !in MODEL_NAMES && Crc32 !in LEARNING_NAMES && Crc32 !in ACTIVITY_NAMES;
  }

  lemma {:induction false} MagicComesFirst()
    ensures FMT_COMMON[0] == I && COMMON_NAMES[0] == Magic && NAMES.Since(Magic) == 10
  {
    assert FMT_IDENTITY[0] == I && IDENTITY_NAMES[0] == Magic;
  }

  lemma {:induction false} AppendedNames(f: Field)
    ensures f in CTRL_IN_NAMES <==> f in {ControlInAnswered, ControlInBlocked, ControlInDropped}
    ensures f in ROUTE_NAMES <==> f in {RouteSysfacts, RouteDecline, RouteInfer, RouteInited, RoutePad}
    ensures f in SEM_NAMES <==> f in {SemRecallHits, SemRecallTried, SemRecallFloor, SemInited, SemPad}
    ensures f in VETO_NAMES <==> f in {RouteVetoChecked, RouteVetoed, VetoInited, VetoPad}
  {
  }

  lemma {:induction false} Introduction(f: Field)
    ensures NAMES.Since(f) == IntroducedIn(f)
  {
    AppendedNames(f);
  }

  /** The packer's list and the decoder's tuple agree name by name. */
  lemma {:induction false} OrderIsNaming()
    ensures ORDER == NAMES && Agree(FORMATS, NAMES)
  {
    WireSizes();
    CommonIsCoded();
    AppendedGroupsAreCoded();
    MagicComesFirst();
    forall f: Field ensures NAMES.Has(f) && NAMES.Since(f) == IntroducedIn(f) {
      Introduction(f);
      if f == Crc32 {
        CrcIsInNoGroup();
      } else if f !in NAMES.ctrlIn && f !in NAMES.route && f !in NAMES.sem && f !in NAMES.veto {
        CommonOtherwise(f);
      }
    }
  }

  // --------------------------------------------------------------------------------------------
  // The round trip, for any format and naming that agree

  function StoredAs(value: Field -> Value): Field -> Value {
    f => Stored(S(TextWidth(f)), value(f))
  }

  function ShowValue(v: Value): (s: Shown) {
    match v
    case Num(n) => Number(n)
    case Raw(bytes) => Text(CStr(bytes))
  }

  lemma {:induction false} LookupFinds(names: seq<Field>, value: Field -> Value, f: Field)
    ensures Lookup(names, Values(names, value), f) == if f in names then ShowValue(value(f)) else Missing
  {
    if names != [] {
      LookupFinds(names[1..], value, f);
      assert Values(names, value)[1..] == Values(names[1..], value);
      assert f in names <==> f == names[0] || f in names[1..];
    }
  }

  lemma {:induction false} BodyIsCoded(fm: Formats, names: Names, layout: nat)
    requires Agree(fm, names) && 10 <= layout <= 14
    ensures Coded(fm.Body(layout), BodyOrder(names, layout)) && |fm.Body(layout)| >= 17
    ensures Coded(fm.Packet(layout), BodyOrder(names, layout) + [Crc32])
    ensures fm.Body(layout)[0] == I && BodyOrder(names, layout)[0] == Magic
    ensures Crc32 !in BodyOrder(names, layout)
  {
    CodedConcat(fm.common, names.common, fm.ctrlIn, names.ctrlIn);
    CodedConcat(fm.common + fm.ctrlIn, names.common + names.ctrlIn, fm.route, names.route);
    CodedConcat(fm.common + fm.ctrlIn + fm.route, names.common + names.ctrlIn + names.route, fm.sem, names.sem);
    CodedConcat(fm.common + fm.ctrlIn + fm.route + fm.sem,
                names.common + names.ctrlIn + names.route + names.sem, fm.veto, names.veto);
    assert Coded([I], [Crc32]);
    CodedConcat(fm.Body(layout), BodyOrder(names, layout), [I], [Crc32]);
    assert names.Has(Crc32);
  }

  lemma {:induction false} UnpackOfFields(fmt: seq<Code>, names: seq<Field>, value: Field -> Value)
    requires Coded(fmt, names) && AllFit(fmt, Values(names, value))
    ensures Unpack(fmt, Pack(fmt, Values(names, value))) == Values(names, StoredAs(value))
  {
    UnpackOfPack(fmt, Values(names, value));
    forall i | 0 <= i < |fmt|
      ensures Stored(fmt[i], value(names[i])) == StoredAs(value)(names[i])
    {
      assert Fits(fmt[i], Values(names, value)[i]);
    }
  }

  /** The slices counted from the end pick out the groups. */
  lemma {:induction false} SlicesAreGroups(common: seq<Value>, ctrlIn: seq<Value>, route: seq<Value>, sem: seq<Value>,
                        veto: seq<Value>, c: Value)
    requires |ctrlIn| == 3 && |route| == 5 && |sem| == 5 && |veto| == 4
    ensures var f := common + ctrlIn + route + sem + veto + [c];
            && f[..|f| - 18] == common && FromEnd(f, 18, 15) == ctrlIn && FromEnd(f, 15, 10) == route
            && FromEnd(f, 10, 5) == sem && FromEnd(f, 5, 1) == veto && f[|f| - 1] == c
    ensures var f := common + ctrlIn + route + sem + [c];
            && f[..|f| - 14] == common && FromEnd(f, 14, 11) == ctrlIn && FromEnd(f, 11, 6) == route
            && FromEnd(f, 6, 1) == sem && f[|f| - 1] == c
    ensures var f := common + ctrlIn + route + [c];
            && f[..|f| - 9] == common && FromEnd(f, 9, 6) == ctrlIn && FromEnd(f, 6, 1) == route
            && f[|f| - 1] == c
    ensures var f := common + ctrlIn + [c];
            && f[..|f| - 4] == common && FromEnd(f, 4, 1) == ctrlIn && f[|f| - 1] == c
    ensures var f := common + [c]; f[..|f| - 1] == common && f[|f| - 1] == c
  {
  }

  lemma {:induction false} ValuesConcat(m: seq<Field>, n: seq<Field>, value: Field -> Value)
    ensures Values(m + n, value) == Values(m, value) + Values(n, value)
  {
  }

  /** The groups holding the values of their names; groups newer than the layout are empty. */
  function GroupsFor(names: Names, layout: nat, value: Field -> Value): (g: Groups) {
    Groups(Values(names.common, value),
           if layout >= 11 then Values(names.ctrlIn, value) else [],
           if layout >= 12 then Values(names.route, value) else [],
           if layout >= 13 then Values(names.sem, value) else [],
           if layout >= 14 then Values(names.veto, value) else [],
           value(Crc32))
  }

  lemma {:induction false} BodyValues(names: Names, layout: nat, value: Field -> Value)
    requires 10 <= layout <= 14
    ensures var common, ctrlIn := Values(names.common, value), Values(names.ctrlIn, value);
            var route, sem, veto := Values(names.route, value), Values(names.sem, value), Values(names.veto, value);
            Values(BodyOrder(names, layout) + [Crc32], value) ==
            (if layout == 10 then common
             else if layout == 11 then common + ctrlIn
             else if layout == 12 then common + ctrlIn + route
             else if layout == 13 then common + ctrlIn + route + sem
             else common + ctrlIn + route + sem + veto) + [value(Crc32)]
  {
    ValuesConcat(names.common, names.ctrlIn, value);
    ValuesConcat(names.common + names.ctrlIn, names.route, value);
    ValuesConcat(names.common + names.ctrlIn + names.route, names.sem, value);
    ValuesConcat(names.common + names.ctrlIn + names.route + names.sem, names.veto, value);
    ValuesConcat(BodyOrder(names, layout), [Crc32], value);
    assert Values([Crc32], value) == [value(Crc32)];
  }

  lemma {:induction false} SplitOfValues(names: Names, layout: nat, value: Field -> Value)
    requires 10 <= layout <= 14 && |names.common| >= 17
    requires |names.ctrlIn| == 3 && |names.route| == 5 && |names.sem| == 5 && |names.veto| == 4
    ensures |Values(BodyOrder(names, layout) + [Crc32], value)| >= 18
    ensures Split(layout, Values(BodyOrder(names, layout) + [Crc32], value)) == GroupsFor(names, layout, value)
  {
    BodyValues(names, layout, value);
    SlicesAreGroups(Values(names.common, value), Values(names.ctrlIn, value), Values(names.route, value),
                    Values(names.sem, value), Values(names.veto, value), value(Crc32));
  }

  lemma {:induction false} ShownOfGroups(names: Names, layout: nat, value: Field -> Value, f: Field)
    requires 10 <= layout <= 14 && names.Has(f)
    ensures ShownField(names, GroupsFor(names, layout, value), f) ==
            if names.Since(f) <= layout then ShowValue(value(f)) else Missing
  {
    LookupFinds(names.common, value, f);
    LookupFinds(names.ctrlIn, value, f);
    LookupFinds(names.route, value, f);
    LookupFinds(names.sem, value, f);
    LookupFinds(names.veto, value, f);
  }

  /** What the decoder must show for a field: None if it is newer than the layout, else the number,
      or the text cut at its width. */
  function Expected(layout: nat, value: Field -> Value, f: Field): (s: Shown) {
    if IntroducedIn(f) > layout then Missing
    else match value(f)
      case Num(n) => Number(n)
      case Raw(bytes) => Text(CStr(Padded(bytes, TextWidth(f))))
  }

  /** The field values a packet carries in the end: a finalized packet has its checksum stamped. */
  function Stamped(crc: Crc, finalize: bool, value: Field -> Value, body: seq<Byte>): Field -> Value {
    f => if f == Crc32 && finalize then Num(crc(body)) else value(f)
  }

  lemma {:induction false} PackEndsWithCrc(fmt: seq<Code>, names: seq<Field>, value: Field -> Value)
    requires |fmt| == |names|
    requires AllFit(fmt + [I], Values(names + [Crc32], value))
    ensures AllFit(fmt, Values(names, value)) && Fits(I, value(Crc32))
    ensures Pack(fmt + [I], Values(names + [Crc32], value)) ==
            Pack(fmt, Values(names, value)) + PackOne(I, value(Crc32))
  {
    var vs, all := Values(names, value), Values(names + [Crc32], value);
    assert forall i :: 0 <= i < |fmt| ==> (fmt + [I])[i] == fmt[i] && all[i] == vs[i];
    assert (fmt + [I])[|fmt|] == I && all[|fmt|] == value(Crc32);
    assert all == vs + [value(Crc32)];
    PackOfConcat(fmt, vs, [I], [value(Crc32)]);
    assert Pack([I], [value(Crc32)]) == PackOne(I, value(Crc32)) + Pack([], []);
  }

  lemma {:induction false} StampedFits(crc: Crc, finalize: bool, fmt: seq<Code>, names: seq<Field>, value: Field -> Value,
                    body: seq<Byte>)
    requires |fmt| == |names| && Crc32 !in names
    requires AllFit(fmt + [I], Values(names + [Crc32], value))
    ensures AllFit(fmt + [I], Values(names + [Crc32], Stamped(crc, finalize, value, body)))
    ensures Values(names, Stamped(crc, finalize, value, body)) == Values(names, value)
  {
    Widths();
    var before, all := Values(names + [Crc32], value), Values(names + [Crc32], Stamped(crc, finalize, value, body));
    forall i | 0 <= i < |fmt + [I]| ensures Fits((fmt + [I])[i], all[i]) {
      assert Fits((fmt + [I])[i], before[i]);
      if i < |fmt| {
        assert (names + [Crc32])[i] == names[i];
      }
    }
  }

  /** A packet is the packing of the fields it carries, and its checksum region is its body. */
  lemma {:induction false} PacketIsPacking(crc: Crc, finalize: bool, fmt: seq<Code>, names: seq<Field>, value: Field -> Value)
    requires |fmt| == |names| && Crc32 !in names
    requires BuildFrom(crc, finalize, fmt, names, value).Some?
    ensures AllFit(fmt, Values(names, value))
    ensures var p := BuildFrom(crc, finalize, fmt, names, value).value;
            && |p| == CalcSize(fmt + [I]) && |p| >= 4
            && p[..|p| - 4] == Pack(fmt, Values(names, value))
            && var carried := Stamped(crc, finalize, value, p[..|p| - 4]);
            && AllFit(fmt + [I], Values(names + [Crc32], carried))
            && p == Pack(fmt + [I], Values(names + [Crc32], carried))
  {
    Widths();
    PackEndsWithCrc(fmt, names, value);
    var body := Pack(fmt, Values(names, value));
    StampedFits(crc, finalize, fmt, names, value, body);
    PackEndsWithCrc(fmt, names, Stamped(crc, finalize, value, body));
  }

  lemma {:induction false} LayoutIsRecognised(fm: Formats, layout: nat)
    requires fm.WellSized() && 10 <= layout <= 14
    ensures LayoutOfLength(fm, CalcSize(fm.Packet(layout))) == Some(layout)
    ensures CalcSize(fm.Packet(layout)) >= 4
  {
    SizesOfLayouts(fm);
  }

  /** The decoder's slices of a packing are the packed groups. */
  lemma {:induction false} SplitOfPacked(fm: Formats, names: Names, layout: nat, value: Field -> Value)
    requires Agree(fm, names) && 10 <= layout <= 14
    requires AllFit(fm.Packet(layout), Values(BodyOrder(names, layout) + [Crc32], value))
    ensures var p := Pack(fm.Packet(layout), Values(BodyOrder(names, layout) + [Crc32], value));
            && |p| >= 4
            && LayoutOfLength(fm, |p|) == Some(layout)
            && |Unpack(fm.Packet(layout), p)| >= 18
            && Split(layout, Unpack(fm.Packet(layout), p)) == GroupsFor(names, layout, StoredAs(value))
    ensures value(Magic).Num? && value(Crc32).Num?
  {
    BodyIsCoded(fm, names, layout);
    var fmt, all := fm.Packet(layout), BodyOrder(names, layout) + [Crc32];
    UnpackOfFields(fmt, all, value);
    SplitOfValues(names, layout, StoredAs(value));
    LayoutIsRecognised(fm, layout);
    assert Fits(fmt[0], Values(all, value)[0]);
    assert Fits(fmt[|fmt| - 1], Values(all, value)[|fmt| - 1]);
  }

  lemma {:induction false} GroupsShowExpected(names: Names, layout: nat, value: Field -> Value)
    requires 10 <= layout <= 14 && value(Crc32).Num?
    requires forall f: Field :: names.Has(f) && names.Since(f) == IntroducedIn(f)
    ensures var g := GroupsFor(names, layout, StoredAs(value));
            && (forall f: Field :: ShownField(names, g, f) == Expected(layout, value, f))
            && g.crc32 == value(Crc32)
  {
    var g := GroupsFor(names, layout, StoredAs(value));
    forall f: Field ensures ShownField(names, g, f) == Expected(layout, value, f) {
      ShownOfGroups(names, layout, StoredAs(value), f);
    }
  }

  /** What the decoder makes of data whose groups show what is expected. */
  lemma {:induction false} DecodeOfGroups(fm: Formats, names: Names, crc: Crc, layout: nat, data: seq<Byte>, value: Field -> Value)
    requires fm.WellSized() && 10 <= layout <= 14 && |data| >= 4
    requires LayoutOfLength(fm, |data|) == Some(layout)
    requires |Unpack(fm.Packet(layout), data)| >= 18
    requires var g := Split(layout, Unpack(fm.Packet(layout), data));
             && (forall f: Field :: ShownField(names, g, f) == Expected(layout, value, f))
             && g.crc32 == value(Crc32)
    requires value(Magic).Num? && value(Crc32).Num?
    ensures var d := DecodeAs(fm, names, crc, data);
            && !d.BadLength?
            && (d.Decoded? <==> value(Magic) == Num(MAGIC))
            && (d.Decoded? ==>
                  && (forall f: Field :: f in d.packet.fields <==> !IsPad(f))
                  && (forall f: Field :: f in d.packet.fields ==>
                        d.packet.fields[f] == Expected(layout, value, f))
                  && (d.packet.crcOk <==> value(Crc32) == Num(crc(data[..|data| - 4]))))
  {
    assert IntroducedIn(Magic) == 10;
  }

  lemma {:induction false} DecodeOfBuildAs(fm: Formats, names: Names, crc: Crc, finalize: bool, layout: nat, value: Field -> Value)
    requires Agree(fm, names) && 10 <= layout <= 14
    requires BuildFrom(crc, finalize, fm.Body(layout), BodyOrder(names, layout), value).Some?
    ensures var p := BuildFrom(crc, finalize, fm.Body(layout), BodyOrder(names, layout), value).value;
            && |p| == CalcSize(fm.Packet(layout)) && |p| >= 4
            && var carried := Stamped(crc, finalize, value, p[..|p| - 4]);
            var d := DecodeAs(fm, names, crc, p);
            && !d.BadLength?
            && (d.Decoded? <==> value(Magic) == Num(MAGIC))
            && (d.Decoded? ==>
                  && (forall f: Field :: f in d.packet.fields <==> !IsPad(f))
                  && (forall f: Field :: f in d.packet.fields ==>
                        d.packet.fields[f] == Expected(layout, carried, f))
                  && (d.packet.crcOk <==> finalize || value(Crc32) == Num(crc(p[..|p| - 4]))))
  {
    BodyIsCoded(fm, names, layout);
    PacketIsPacking(crc, finalize, fm.Body(layout), BodyOrder(names, layout), value);
    var p := BuildFrom(crc, finalize, fm.Body(layout), BodyOrder(names, layout), value).value;
    var carried := Stamped(crc, finalize, value, p[..|p| - 4]);
    SplitOfPacked(fm, names, layout, carried);
    GroupsShowExpected(names, layout, carried);
    DecodeOfGroups(fm, names, crc, layout, p, carried);
  }

  /** The size of each version on the wire. */
  function WireSize(layout: nat): (n: nat) {
    match layout
    case 10 => 246
    case 11 => 254
    case 12 => 262
    case 13 => 270
    case _ => 276
  }

  lemma {:induction false} TheSchema() returns (fm: Formats, names: Names)
    ensures fm == FORMATS && names == NAMES == ORDER && Agree(fm, names)
  {
    OrderIsNaming();
    fm, names := FORMATS, NAMES;
  }

  lemma {:induction false} PackerUses(fm: Formats, names: Names, crc: Crc, finalize: bool, wireVersion: nat,
                   overrides: map<Field, Value>)
    requires fm == FORMATS && names == ORDER
    ensures BuildPacket(crc, finalize, wireVersion, overrides) ==
            BuildFrom(crc, finalize, fm.Body(Layout(wireVersion)), BodyOrder(names, Layout(wireVersion)),
                      Plain(overrides, wireVersion))
  {
  }

  lemma {:induction false} DecoderUses(fm: Formats, names: Names, crc: Crc, data: seq<Byte>)
    requires fm == FORMATS && names == NAMES && fm.WellSized()
    ensures DecodePacket(crc, data) == DecodeAs(fm, names, crc, data)
  {
  }

  lemma {:induction false} SizeUses(fm: Formats, layout: nat)
    requires fm == FORMATS && 10 <= layout <= 14
    ensures CalcSize(fm.Packet(layout)) == WireSize(layout)
  {
    WireSizes();
  }

  /** The format and names behind one call of the packer and the decoder. */
  lemma {:induction false} Schema(crc: Crc, finalize: bool, wireVersion: nat, overrides: map<Field, Value>, p: seq<Byte>)
    returns (fm: Formats, names: Names)
    requires BuildPacket(crc, finalize, wireVersion, overrides) == Some(p)
    ensures Agree(fm, names)
    ensures var layout := Layout(wireVersion);
            && BuildFrom(crc, finalize, fm.Body(layout), BodyOrder(names, layout), Plain(overrides, wireVersion))
               == Some(p)
            && CalcSize(fm.Packet(layout)) == WireSize(layout)
    ensures DecodePacket(crc, p) == DecodeAs(fm, names, crc, p)
  {
    fm, names := TheSchema();
    PackerUses(fm, names, crc, finalize, wireVersion, overrides);
    DecoderUses(fm, names, crc, p);
    SizeUses(fm, Layout(wireVersion));
  }

  /** The round trip: for every wire version and every assignment of values that fit, the decoder
      returns each field the version carries as it was packed and None for exactly the newer ones;
      a packet is refused exactly when its magic was overridden; and it passes its checksum exactly
      when it was finalized or given the right one. */
  lemma {:induction false} DecodeOfBuild(crc: Crc, finalize: bool, wireVersion: nat, overrides: map<Field, Value>, p: seq<Byte>)
    requires BuildPacket(crc, finalize, wireVersion, overrides) == Some(p)
    ensures |p| == WireSize(Layout(wireVersion))
    ensures var value := Plain(overrides, wireVersion);
            var carried := Stamped(crc, finalize, value, p[..|p| - 4]);
            var d := DecodePacket(crc, p);
            && !d.BadLength?
            && (d.Decoded? <==> value(Magic) == Num(MAGIC))
            && (d.Decoded? ==>
                  && (forall f: Field :: f in d.packet.fields <==> !IsPad(f))
                  && (forall f: Field :: f in d.packet.fields ==>
                        d.packet.fields[f] == Expected(Layout(wireVersion), carried, f))
                  && (d.packet.crcOk <==> finalize || value(Crc32) == Num(crc(p[..|p| - 4]))))
  {
    var fm, names := Schema(crc, finalize, wireVersion, overrides, p);
    DecodeOfBuildAs(fm, names, crc, finalize, Layout(wireVersion), Plain(overrides, wireVersion));
  }

  lemma {:induction false} TextIsRaw(fm: Formats, names: Names, layout: nat, value: Field -> Value, f: Field)
    requires Agree(fm, names) && 10 <= layout <= 14 && IsText(f)
    requires AllFit(fm.Packet(layout), Values(BodyOrder(names, layout) + [Crc32], value))
    ensures value(f).Raw?
  {
    BodyIsCoded(fm, names, layout);
    assert names.Has(f);
    var i :| 0 <= i < |names.common| && names.common[i] == f;
    var fmt, all := fm.Packet(layout), BodyOrder(names, layout) + [Crc32];
    assert all[i] == f && fmt[i] == fm.common[i];
    assert Fits(fmt[i], Values(all, value)[i]);
  }

  lemma {:induction false} ExpectedText(layout: nat, value: Field -> Value, f: Field)
    requires IsText(f) && 10 <= layout && value(f).Raw?
    ensures Expected(layout, value, f) == Text(Latin(value(f).bytes))
            <==> TextSurvives(value(f).bytes, TextWidth(f))
  {
    TextRoundTripsIff(value(f).bytes, TextWidth(f));
  }

  lemma {:induction false} TextIsPacked(crc: Crc, finalize: bool, wireVersion: nat, overrides: map<Field, Value>, p: seq<Byte>,
                     f: Field)
    requires IsText(f)
    requires BuildPacket(crc, finalize, wireVersion, overrides) == Some(p)
    ensures Plain(overrides, wireVersion)(f).Raw?
  {
    var fm, names := Schema(crc, finalize, wireVersion, overrides, p);
    TextIsRaw(fm, names, Layout(wireVersion), Plain(overrides, wireVersion), f);
  }

  lemma {:induction false} StampLeavesText(crc: Crc, layout: nat, value: Field -> Value, body: seq<Byte>, f: Field)
    requires f != Crc32
    ensures Expected(layout, Stamped(crc, true, value, body), f) == Expected(layout, value, f)
  {
  }

  lemma {:induction false} DefaultMagic(overrides: map<Field, Value>, wireVersion: nat)
    requires Magic !in overrides
    ensures Plain(overrides, wireVersion)(Magic) == Num(MAGIC)
  {
  }

  /** What the decoder shows of one field, of whatever was built and decodes as `DecodeOfBuild` says. */
  lemma {:induction false} FieldIsShown(crc: Crc, layout: nat, value: Field -> Value, body: seq<Byte>, d: DecodeResult, f: Field)
    requires d.Decoded? <==> value(Magic) == Num(MAGIC)
    requires d.Decoded? ==> forall x: Field :: x in d.packet.fields <==> !IsPad(x)
    requires d.Decoded? ==> forall x: Field :: x in d.packet.fields ==>
                              d.packet.fields[x] == Expected(layout, Stamped(crc, true, value, body), x)
    requires value(Magic) == Num(MAGIC) && !IsPad(f) && f != Crc32
    ensures d.Decoded? && f in d.packet.fields && d.packet.fields[f] == Expected(layout, value, f)
  {
    StampLeavesText(crc, layout, value, body, f);
  }

  /** A text field of a finalized packet whose magic was not overridden, as the decoder shows it. */
  lemma {:induction false} TextIsShown(crc: Crc, wireVersion: nat, overrides: map<Field, Value>, p: seq<Byte>, f: Field)
    requires IsText(f)
    requires BuildPacket(crc, true, wireVersion, overrides) == Some(p) && Magic !in overrides
    ensures var d := DecodePacket(crc, p);
            d.Decoded? && f in d.packet.fields
            && d.packet.fields[f] == Expected(Layout(wireVersion), Plain(overrides, wireVersion), f)
  {
    DecodeOfBuild(crc, true, wireVersion, overrides, p);
    DefaultMagic(overrides, wireVersion);
    FieldIsShown(crc, Layout(wireVersion), Plain(overrides, wireVersion), p[..|p| - 4], DecodePacket(crc, p), f);
  }

  /** The text fields come back as given exactly when they survive their field. */
  lemma {:induction false} TextFieldsRoundTripIff(crc: Crc, wireVersion: nat, overrides: map<Field, Value>, p: seq<Byte>, f: Field)
    requires IsText(f)
    requires BuildPacket(crc, true, wireVersion, overrides) == Some(p) && Magic !in overrides
    ensures var value := FieldValue(overrides, wireVersion, f);
            var d := DecodePacket(crc, p);
            && value.Raw? && d.Decoded? && f in d.packet.fields
            && (d.packet.fields[f] == Text(Latin(value.bytes)) <==> TextSurvives(value.bytes, TextWidth(f)))
  {
    TextIsPacked(crc, true, wireVersion, overrides, p, f);
    TextIsShown(crc, wireVersion, overrides, p, f);
    ExpectedText(Layout(wireVersion), Plain(overrides, wireVersion), f);
  }

  lemma {:induction false} PacketStartsWithMagicAs(fm: Formats, names: Names, crc: Crc, finalize: bool, layout: nat,
                                                   value: Field -> Value)
    requires Agree(fm, names) && 10 <= layout <= 14 && value(Magic) == Num(MAGIC)
    requires BuildFrom(crc, finalize, fm.Body(layout), BodyOrder(names, layout), value).Some?
    ensures var p := BuildFrom(crc, finalize, fm.Body(layout), BodyOrder(names, layout), value).value;
            |p| >= 8 && p[..4] == [0x4C, 0x45, 0x54, 0x4A]
  {
    BodyIsCoded(fm, names, layout);
    PacketStartsWithFirst(crc, finalize, fm.Body(layout), BodyOrder(names, layout), value);
    MagicBytes();
  }

  /** A packet whose magic was not overridden starts with the magic, little-endian. */
  lemma {:induction false} PacketStartsWithMagic(crc: Crc, finalize: bool, wireVersion: nat, overrides: map<Field, Value>,
                              p: seq<Byte>)
    requires BuildPacket(crc, finalize, wireVersion, overrides) == Some(p) && Magic !in overrides
    ensures |p| >= 8 && p[..4] == [0x4C, 0x45, 0x54, 0x4A]
  {
    var fm, names := Schema(crc, finalize, wireVersion, overrides, p);
    DefaultMagic(overrides, wireVersion);
    PacketStartsWithMagicAs(fm, names, crc, finalize, Layout(wireVersion), Plain(overrides, wireVersion));
  }

  lemma {:induction false} MagicBytes()
    ensures MAGIC < Pow256(4) && LeEncode(MAGIC, 4) == [0x4C, 0x45, 0x54, 0x4A]
  {
    Widths();
    assert LeEncode(0x4A, 1) == [0x4A];
    assert LeEncode(0x4A54, 2) == [0x54] + LeEncode(0x4A, 1);
    assert LeEncode(0x4A5445, 3) == [0x45] + LeEncode(0x4A54, 2);
    assert LeEncode(0x4A54454C, 4) == [0x4C] + LeEncode(0x4A5445, 3);
  }

  lemma {:induction false} PacketStartsWithFirst(crc: Crc, finalize: bool, fmt: seq<Code>, names: seq<Field>, value: Field -> Value)
    requires |fmt| == |names| > 0 && Crc32 !in names && fmt[0] == I
    requires BuildFrom(crc, finalize, fmt, names, value).Some?
    ensures var p := BuildFrom(crc, finalize, fmt, names, value).value;
            && |p| >= 8 && Fits(I, value(names[0]))
            && p[..4] == PackOne(I, value(names[0]))
  {
    PacketIsPacking(crc, finalize, fmt, names, value);
    var p := BuildFrom(crc, finalize, fmt, names, value).value;
    var body := Pack(fmt, Values(names, value));
    assert Fits(fmt[0], Values(names, value)[0]);
    assert body[..4] == PackOne(I, value(names[0]));
    assert p[..4] == p[..|p| - 4][..4];
  }

  // --------------------------------------------------------------------------------------------
  // The wire is append-only

  lemma {:induction false} PrefixOfPacked(f: seq<Code>, m: seq<Field>, g: seq<Code>, n: seq<Field>,
                       value: Field -> Value, value': Field -> Value)
    requires |f| == |m| && |g| == |n| && f <= g && m <= n
    requires forall x: Field :: value(x) == value'(x)
    requires AllFit(f, Values(m, value)) && AllFit(g, Values(n, value'))
    ensures Pack(f, Values(m, value)) <= Pack(g, Values(n, value'))
  {
    var k := |f|;
    assert g == f + g[k..] && n == m + n[k..];
    assert Values(n, value') == Values(m, value) + Values(n[k..], value);
    forall i | 0 <= i < |g| - k ensures Fits(g[k..][i], Values(n[k..], value)[i]) {
      assert Fits(g[k + i], Values(n, value')[k + i]);
    }
    PackOfConcat(f, Values(m, value), g[k..], Values(n[k..], value));
  }

  /** Two packets of nested layouts with the same field values. */
  lemma {:induction false} BodiesNest(crc: Crc, finalize: bool, f: seq<Code>, m: seq<Field>, g: seq<Code>, n: seq<Field>,
                   value: Field -> Value, value': Field -> Value)
    requires |f| == |m| && |g| == |n| && f <= g && m <= n && Crc32 !in n && Crc32 !in m
    requires CalcSize(f + [I]) < CalcSize(g + [I])
    requires forall x: Field :: value(x) == value'(x)
    requires BuildFrom(crc, finalize, f, m, value).Some? && BuildFrom(crc, finalize, g, n, value').Some?
    ensures var p := BuildFrom(crc, finalize, f, m, value).value;
            var q := BuildFrom(crc, finalize, g, n, value').value;
            4 <= |p| < |q| && p[..|p| - 4] <= q[..|q| - 4]
  {
    PacketIsPacking(crc, finalize, f, m, value);
    PacketIsPacking(crc, finalize, g, n, value');
    PrefixOfPacked(f, m, g, n, value, value');
  }

  lemma {:induction false} LayoutsNest(fm: Formats, names: Names, layout: nat)
    requires fm.WellSized() && 10 <= layout < 14
    ensures fm.Body(layout) <= fm.Body(layout + 1)
    ensures BodyOrder(names, layout) <= BodyOrder(names, layout + 1)
    ensures CalcSize(fm.Packet(layout)) < CalcSize(fm.Packet(layout + 1))
  {
    SizesOfLayouts(fm);
  }

  lemma {:induction false} OlderBodyIsPrefixAs(fm: Formats, names: Names, crc: Crc, finalize: bool, layout: nat,
                            value: Field -> Value, value': Field -> Value)
    requires Agree(fm, names) && 10 <= layout < 14
    requires forall x: Field :: value(x) == value'(x)
    requires BuildFrom(crc, finalize, fm.Body(layout), BodyOrder(names, layout), value).Some?
    requires BuildFrom(crc, finalize, fm.Body(layout + 1), BodyOrder(names, layout + 1), value').Some?
    ensures var p := BuildFrom(crc, finalize, fm.Body(layout), BodyOrder(names, layout), value).value;
            var q := BuildFrom(crc, finalize, fm.Body(layout + 1), BodyOrder(names, layout + 1), value').value;
            4 <= |p| < |q| && p[..|p| - 4] <= q[..|q| - 4]
  {
    BodyIsCoded(fm, names, layout);
    BodyIsCoded(fm, names, layout + 1);
    LayoutsNest(fm, names, layout);
    BodiesNest(crc, finalize, fm.Body(layout), BodyOrder(names, layout), fm.Body(layout + 1),
               BodyOrder(names, layout + 1), value, value');
  }

  lemma {:induction false} SameButVersion(overrides: map<Field, Value>, wireVersion: nat)
    requires Version in overrides
    ensures forall x: Field :: Plain(overrides, wireVersion)(x) == Plain(overrides, wireVersion + 1)(x)
  {
  }

  /** With the same field values, what a version covers with its checksum starts what the next
      version covers, and the next packet is longer. */
  lemma {:induction false} OlderBodyIsPrefix(crc: Crc, finalize: bool, wireVersion: nat, overrides: map<Field, Value>,
                          p: seq<Byte>, q: seq<Byte>)
    requires 10 <= wireVersion < 14 && Version in overrides
    requires BuildPacket(crc, finalize, wireVersion, overrides) == Some(p)
    requires BuildPacket(crc, finalize, wireVersion + 1, overrides) == Some(q)
    ensures 4 <= |p| < |q| && p[..|p| - 4] <= q[..|q| - 4]
  {
    SameButVersion(overrides, wireVersion);
    var fm, names := TwoSchemas(crc, finalize, wireVersion, overrides, p, q);
    OlderBodyIsPrefixAs(fm, names, crc, finalize, wireVersion,
                        Plain(overrides, wireVersion), Plain(overrides, wireVersion + 1));
  }

  lemma {:induction false} TwoSchemas(crc: Crc, finalize: bool, wireVersion: nat, overrides: map<Field, Value>,
                   p: seq<Byte>, q: seq<Byte>)
    returns (fm: Formats, names: Names)
    requires 10 <= wireVersion < 14
    requires BuildPacket(crc, finalize, wireVersion, overrides) == Some(p)
    requires BuildPacket(crc, finalize, wireVersion + 1, overrides) == Some(q)
    ensures Agree(fm, names)
    ensures BuildFrom(crc, finalize, fm.Body(wireVersion), BodyOrder(names, wireVersion),
                      Plain(overrides, wireVersion)) == Some(p)
    ensures BuildFrom(crc, finalize, fm.Body(wireVersion + 1), BodyOrder(names, wireVersion + 1),
                      Plain(overrides, wireVersion + 1)) == Some(q)
  {
    fm, names := TheSchema();
    PackerUses(fm, names, crc, finalize, wireVersion, overrides);
    PackerUses(fm, names, crc, finalize, wireVersion + 1, overrides);
  }
}
