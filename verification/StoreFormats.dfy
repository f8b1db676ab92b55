/** The fields the store readers show are the values `struct.unpack_from` gives for the formats their
    scripts declare. */
module StoreFormats {
  import opened Bytes
  import opened StoreLayout
  import opened Wire
  import AuditStore
  import EpisodicStore
  import NvmeLog
  import SemanticStore

  const HEADER_FMT: seq<Code> := [I, I, I, I, I]
  const EPISODE_FMT: seq<Code> := [I, I, Q, Q, H, B, B, H, H]
  const RECALL_FMT: seq<Code> := [B, I, H]
  const AUDIT_FMT: seq<Code> := [I, I, Q, H, H, H, H, H, H]
  const FACT_FMT: seq<Code> := [I, I, Q, Q, H, H, H, H]
  const ENTRY_FMT: seq<Code> := [I, I, H, H]

  /** Where the value `i` of a format starts. */
  function Offset(fmt: seq<Code>, i: nat): (off: nat)
    requires i <= |fmt|
  {
    if i == 0 then 0 else Offset(fmt, i - 1) + Size(fmt[i - 1])
  }

  lemma {:induction false} OffsetOfRest(fmt: seq<Code>, i: nat)
    requires 0 < i <= |fmt|
    ensures Offset(fmt, i) == Size(fmt[0]) + Offset(fmt[1..], i - 1)
  {
    if i > 1 {
      OffsetOfRest(fmt, i - 1);
    }
  }

  lemma {:induction false} OffsetsFit(fmt: seq<Code>, i: nat)
    requires i < |fmt|
    ensures Offset(fmt, i) + Size(fmt[i]) <= CalcSize(fmt)
  {
    if i > 0 {
      OffsetOfRest(fmt, i);
      OffsetsFit(fmt[1..], i - 1);
    }
  }

  lemma {:induction false} SliceOfRest<T>(s: seq<T>, head: nat, lo: nat, hi: nat)
    requires lo <= hi && head + hi <= |s|
    ensures s[head..][lo..hi] == s[head + lo..head + hi]
  {
    assert s[head..][lo..hi] == s[head + lo..head + hi];
  }

  /** A number unpacked from bytes is the little-endian number at its offset. */
  lemma {:induction false} NumberAt(fmt: seq<Code>, bs: seq<Byte>, i: nat)
    requires |bs| == CalcSize(fmt) && i < |fmt| && !fmt[i].S?
    ensures Offset(fmt, i) + Size(fmt[i]) <= |bs|
    ensures Unpack(fmt, bs)[i] == Num(LeDecode(bs[Offset(fmt, i)..Offset(fmt, i) + Size(fmt[i])]))
  {
    OffsetsFit(fmt, i);
    if i > 0 {
      var head, o := Size(fmt[0]), Offset(fmt[1..], i - 1);
      OffsetOfRest(fmt, i);
      NumberAt(fmt[1..], bs[head..], i - 1);
      SliceOfRest(bs, head, o, o + Size(fmt[i]));
    }
  }

  /** A view shows these numbers from an offset on, in a format. */
  ghost predicate Shows(v: View, at: nat, fmt: seq<Code>, vs: seq<Value>) {
    && |vs| == |fmt|
    && forall i {:trigger vs[i]} :: 0 <= i < |fmt| ==> vs[i] == Num(v.num(at + Offset(fmt, i), Size(fmt[i])))
  }

  lemma {:induction false} ViewShowsNumber(rec: seq<Byte>, at: nat, fmt: seq<Code>, i: nat)
    requires at + CalcSize(fmt) <= |rec| && i < |fmt| && !fmt[i].S?
    ensures Unpack(fmt, rec[at..at + CalcSize(fmt)])[i] == Num(At(rec, 0).num(at + Offset(fmt, i), Size(fmt[i])))
  {
    OffsetsFit(fmt, i);
    NumberAt(fmt, rec[at..at + CalcSize(fmt)], i);
    SliceOfSlice(rec, at, CalcSize(fmt), Offset(fmt, i), Offset(fmt, i) + Size(fmt[i]));
  }

  /** The view shows the numbers `struct.unpack_from` gives for a format at an offset. */
  lemma {:induction false} ViewShowsUnpacked(rec: seq<Byte>, at: nat, fmt: seq<Code>)
    requires at + CalcSize(fmt) <= |rec| && forall i :: 0 <= i < |fmt| ==> !fmt[i].S?
    ensures Shows(At(rec, 0), at, fmt, Unpack(fmt, rec[at..at + CalcSize(fmt)]))
  {
    var bs := rec[at..at + CalcSize(fmt)];
    var vs := Unpack(fmt, bs);
    forall i {:trigger vs[i]} | 0 <= i < |fmt|
      ensures vs[i] == Num(At(rec, 0).num(at + Offset(fmt, i), Size(fmt[i])))
    {
      ViewShowsNumber(rec, at, fmt, i);
    }
  }

  // --------------------------------------------------------------------------------------------
  // Offsets and sizes, format by format

  lemma {:induction false} ShortOffsets()
    ensures Offset(HEADER_FMT, 1) == 4 && Offset(HEADER_FMT, 2) == 8 && Offset(HEADER_FMT, 3) == 12
            && Offset(HEADER_FMT, 4) == 16
    ensures Offset(ENTRY_FMT, 1) == 4 && Offset(ENTRY_FMT, 2) == 8 && Offset(ENTRY_FMT, 3) == 10
    ensures Offset(RECALL_FMT, 1) == 1 && Offset(RECALL_FMT, 2) == 5
  {
  }

  lemma {:induction false} EpisodeOffsets()
    ensures var f := EPISODE_FMT;
            && Offset(f, 1) == 4 && Offset(f, 2) == 8 && Offset(f, 3) == 16 && Offset(f, 4) == 24
            && Offset(f, 5) == 26 && Offset(f, 6) == 27 && Offset(f, 7) == 28 && Offset(f, 8) == 30
  {
    assert Offset(EPISODE_FMT, 4) == 24;
    assert Offset(EPISODE_FMT, 6) == 27;
  }

  lemma {:induction false} AuditOffsets()
    ensures var f := AUDIT_FMT;
            && Offset(f, 1) == 4 && Offset(f, 2) == 8 && Offset(f, 3) == 16 && Offset(f, 4) == 18
            && Offset(f, 5) == 20 && Offset(f, 6) == 22 && Offset(f, 7) == 24 && Offset(f, 8) == 26
  {
    assert Offset(AUDIT_FMT, 4) == 18;
    assert Offset(AUDIT_FMT, 6) == 22;
  }

  lemma {:induction false} FactOffsets()
    ensures var f := FACT_FMT;
            && Offset(f, 1) == 4 && Offset(f, 2) == 8 && Offset(f, 3) == 16 && Offset(f, 4) == 24
            && Offset(f, 5) == 26 && Offset(f, 6) == 28 && Offset(f, 7) == 30
  {
    assert Offset(FACT_FMT, 4) == 24;
    assert Offset(FACT_FMT, 6) == 28;
  }

  lemma {:induction false} FormatSizes()
    ensures CalcSize(HEADER_FMT) == 20 && CalcSize(RECALL_FMT) == 7 && CalcSize(ENTRY_FMT) == 12
    ensures CalcSize(EPISODE_FMT) == EpisodicStore.QUERY_OFF
    ensures CalcSize(AUDIT_FMT) == AuditStore.TRIGGER_OFF
    ensures CalcSize(FACT_FMT) == SemanticStore.REC_HDR_SIZE
  {
    SizeOfGroup([], HEADER_FMT);
    SizeOfGroup([], RECALL_FMT);
    SizeOfGroup([], ENTRY_FMT);
    SizeOfGroup([], EPISODE_FMT);
    SizeOfGroup([], AUDIT_FMT);
    SizeOfGroup([], FACT_FMT);
  }

  // --------------------------------------------------------------------------------------------
  // The fields

  /** The header's words. */
  lemma {:induction false} HeaderShows(v: View, ok: bool, vs: seq<Value>)
    requires Shows(v, 0, HEADER_FMT, vs)
    ensures var h := HeaderFrom(v, ok);
            vs == [Num(h.magic), Num(h.version), Num(h.cursor), Num(h.total), Num(h.bootId)]
  {
    ShortOffsets();
    assert vs == [vs[0], vs[1], vs[2], vs[3], vs[4]];
  }

  /** The fixed fields of a log entry. */
  lemma {:induction false} EntryShows(v: View, vs: seq<Value>)
    requires Shows(v, 0, ENTRY_FMT, vs)
    ensures var h := NvmeLog.HeadOf(v);
            vs == [Num(h.bootId), Num(h.seqNo), Num(h.kind), Num(h.length)]
  {
    ShortOffsets();
    assert vs == [vs[0], vs[1], vs[2], vs[3]];
  }

  /** A recall block, wherever it starts. */
  lemma {:induction false} RecallShows(v: View, at: nat, vs: seq<Value>)
    requires Shows(v, at, RECALL_FMT, vs)
    ensures var b := EpisodicStore.RecallAt(v, at); vs == [Num(b.kind), Num(b.src), Num(b.cos)]
  {
    ShortOffsets();
    assert vs == [vs[0], vs[1], vs[2]];
  }

  /** The numbers of an episode. */
  lemma {:induction false} EpisodeShows(v: View, vs: seq<Value>)
    requires Shows(v, 0, EPISODE_FMT, vs)
    ensures var e := EpisodicStore.EpisodeOf(v);
            vs == [Num(e.bootId), Num(e.seqNo), Num(e.tMs), Num(e.queryKey), Num(e.action), Num(e.outcome),
                   Num(e.feedback), Num(e.queryLen), Num(e.respLen)]
  {
    EpisodeOffsets();
    assert vs == [vs[0], vs[1], vs[2], vs[3], vs[4], vs[5], vs[6], vs[7], vs[8]];
  }

  /** The numbers of an audit record. */
  lemma {:induction false} AuditShows(v: View, vs: seq<Value>)
    requires Shows(v, 0, AUDIT_FMT, vs)
    ensures var a := AuditStore.AuditOf(v);
            vs == [Num(a.bootId), Num(a.seqNo), Num(a.tMs), Num(a.actionId), Num(a.trust), Num(a.verdict),
                   Num(a.riskX100), Num(a.outcome), Num(a.triggerLen)]
  {
    AuditOffsets();
    assert vs == [vs[0], vs[1], vs[2], vs[3], vs[4], vs[5], vs[6], vs[7], vs[8]];
  }

  /** The numbers of a fact. */
  lemma {:induction false} FactShows(v: View, vs: seq<Value>)
    requires Shows(v, 0, FACT_FMT, vs)
    ensures var f := SemanticStore.FactOf(v);
            vs == [Num(f.bootId), Num(f.seqNo), Num(f.tMs), Num(f.key), Num(f.factType), Num(f.support),
                   Num(f.confidenceX100), Num(f.textLen)]
  {
    FactOffsets();
    assert vs == [vs[0], vs[1], vs[2], vs[3], vs[4], vs[5], vs[6], vs[7]];
  }
}
