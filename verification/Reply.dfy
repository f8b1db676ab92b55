/** The authenticated control reply, JRPL version 2: its layout and its fail-closed decoder. */
module Reply {
  import opened Bytes
  import opened Digests
  import opened Options

  const REPLY_MAGIC: seq<Byte> := [0x4A, 0x52, 0x50, 0x4C]
  const REPLY_VERSION: Byte := 2
  const REPLY_HDR_LEN: nat := 10
  const REPLY_CRC_LEN: nat := 4
  const REPLY_OVERHEAD: nat := REPLY_HDR_LEN + REPLY_CRC_LEN + TAG_LEN
  const REPLY_TEXT_MAX: nat := 1426

  type U16 = n: nat | n < 0x1_0000

  datatype ReplyError =
    | Short
    | BadMagic
    | BadVersion(version: Byte)
    | TextTooLong(tlen: nat)
    | TruncatedText
    | NoKey
    | BadCrc
    | BadHmac

  datatype Reply = Reply(verdict: Byte, seqNo: U16, text: seq<Byte>)

  datatype Decoded = Accepted(reply: Reply) | Dropped(error: ReplyError)

  /** The documented layout of a reply with `text` of at most `REPLY_TEXT_MAX` bytes. */
  function Encode(crc: Crc, mac: Mac, key: seq<Byte>, reply: Reply): (payload: seq<Byte>)
    requires |reply.text| <= REPLY_TEXT_MAX
    ensures |payload| == REPLY_OVERHEAD + |reply.text|
  {
    Widths();
    var body := REPLY_MAGIC + [REPLY_VERSION, reply.verdict] + LeEncode(reply.seqNo, 2)
                + LeEncode(|reply.text|, 2) + reply.text;
    var signed := body + LeEncode(crc(body), 4);
    signed + mac(key, signed)
  }

  /** `decode_control_reply`, check by check in its order. */
  function Decode(crc: Crc, mac: Mac, payload: Option<seq<Byte>>, key: Option<seq<Byte>>): (d: Decoded) {
    if payload.None? || |payload.value| < REPLY_HDR_LEN + REPLY_CRC_LEN + TAG_LEN then Dropped(Short)
    else
      var p := payload.value;
      if p[0..4] != REPLY_MAGIC then Dropped(BadMagic)
      else if p[4] != REPLY_VERSION then Dropped(BadVersion(p[4]))
      else
        Widths();
        var seqNo := LeDecode(p[6..8]);
        var tlen := LeDecode(p[8..10]);
        if tlen > REPLY_TEXT_MAX then Dropped(TextTooLong(tlen))
        else
          var crcOff := REPLY_HDR_LEN + tlen;
          var tagOff := crcOff + REPLY_CRC_LEN;
          if |p| < tagOff + TAG_LEN then Dropped(TruncatedText)
          else if key.None? then Dropped(NoKey)
          else if LeDecode(p[crcOff..crcOff + 4]) != crc(p[..crcOff]) then Dropped(BadCrc)
          else if mac(key.value, p[..tagOff]) != p[tagOff..tagOff + TAG_LEN] then Dropped(BadHmac)
          else Accepted(Reply(p[5], seqNo, p[REPLY_HDR_LEN..crcOff]))
  }

  /** The fields of an encoding sit where the decoder looks for them, whatever follows it. */
  lemma {:induction false} EncodingLayout(crc: Crc, mac: Mac, key: seq<Byte>, reply: Reply, trailing: seq<Byte>)
    requires |reply.text| <= REPLY_TEXT_MAX
    ensures var p := Encode(crc, mac, key, reply) + trailing;
            var n := |reply.text|;
            && p[0..4] == REPLY_MAGIC && p[4] == REPLY_VERSION && p[5] == reply.verdict
            && LeDecode(p[6..8]) == reply.seqNo && LeDecode(p[8..10]) == n
            && p[10..10 + n] == reply.text
            && LeDecode(p[10 + n..14 + n]) == crc(p[..10 + n])
            && p[14 + n..46 + n] == mac(key, p[..14 + n])
  {
    Widths();
    var n := |reply.text|;
    var p := Encode(crc, mac, key, reply) + trailing;
    var body := REPLY_MAGIC + [REPLY_VERSION, reply.verdict] + LeEncode(reply.seqNo, 2)
                + LeEncode(n, 2) + reply.text;
    assert p[6..8] == LeEncode(reply.seqNo, 2);
    LeDecodeEncode(reply.seqNo, 2);
    assert p[8..10] == LeEncode(n, 2);
    LeDecodeEncode(n, 2);
    assert p[..10 + n] == body;
    assert p[10 + n..14 + n] == LeEncode(crc(body), 4);
    LeDecodeEncode(crc(body), 4);
    assert p[..14 + n] == body + LeEncode(crc(body), 4);
  }

  /** Every reply decodes to itself under the key it was encoded with, with anything after it. */
  lemma {:induction false} DecodeOfEncode(crc: Crc, mac: Mac, key: seq<Byte>, reply: Reply, trailing: seq<Byte>)
    requires |reply.text| <= REPLY_TEXT_MAX
    ensures Decode(crc, mac, Some(Encode(crc, mac, key, reply) + trailing), Some(key)) == Accepted(reply)
  {
    EncodingLayout(crc, mac, key, reply, trailing);
  }

  /** The leading bytes of every accepted payload are the encoding of what was decoded. */
  lemma {:induction false} EncodeOfDecode(crc: Crc, mac: Mac, payload: Option<seq<Byte>>, key: Option<seq<Byte>>)
    requires Decode(crc, mac, payload, key).Accepted?
    ensures payload.Some? && key.Some?
    ensures var reply := Decode(crc, mac, payload, key).reply;
            && |reply.text| <= REPLY_TEXT_MAX
            && Encode(crc, mac, key.value, reply) <= payload.value
  {
    Widths();
    var p := payload.value;
    var reply := Decode(crc, mac, payload, key).reply;
    var n := |reply.text|;
    LeEncodeDecode(p[6..8]);
    LeEncodeDecode(p[8..10]);
    LeEncodeDecode(p[10 + n..14 + n]);
    var body := REPLY_MAGIC + [REPLY_VERSION, reply.verdict] + LeEncode(reply.seqNo, 2)
                + LeEncode(n, 2) + reply.text;
    assert p[..10 + n] == body;
    assert p[..14 + n] == body + LeEncode(crc(body), 4);
    assert p[..46 + n] == p[..14 + n] + p[14 + n..46 + n];
  }

  /** Acceptance is exactly "starts with an encoding under the key the receiver holds". */
  lemma {:induction false} AcceptedIffStartsWithEncoding(crc: Crc, mac: Mac, payload: seq<Byte>, key: seq<Byte>, reply: Reply)
    ensures Decode(crc, mac, Some(payload), Some(key)) == Accepted(reply)
            <==> |reply.text| <= REPLY_TEXT_MAX && Encode(crc, mac, key, reply) <= payload
  {
    if Decode(crc, mac, Some(payload), Some(key)) == Accepted(reply) {
      EncodeOfDecode(crc, mac, Some(payload), Some(key));
    }
    if |reply.text| <= REPLY_TEXT_MAX && Encode(crc, mac, key, reply) <= payload {
      var e := Encode(crc, mac, key, reply);
      assert payload == e + payload[|e|..];
      DecodeOfEncode(crc, mac, key, reply, payload[|e|..]);
    }
  }

  /** Bytes after the declared end never change the verdict: only a payload dropped for being too
      short can be decided differently once it is longer. */
  lemma {:induction false} TrailingBytesAreIgnored(crc: Crc, mac: Mac, payload: seq<Byte>, trailing: seq<Byte>,
                                key: Option<seq<Byte>>)
    requires Decode(crc, mac, Some(payload), key) !in {Dropped(Short), Dropped(TruncatedText)}
    ensures Decode(crc, mac, Some(payload + trailing), key) == Decode(crc, mac, Some(payload), key)
  {
    var p, q := payload, payload + trailing;
    assert q[0..4] == p[0..4] && q[6..8] == p[6..8] && q[8..10] == p[8..10];
    var n := LeDecode(p[8..10]);
    if n <= REPLY_TEXT_MAX && 46 + n <= |p| {
      assert q[..10 + n] == p[..10 + n] && q[10 + n..14 + n] == p[10 + n..14 + n];
      assert q[..14 + n] == p[..14 + n] && q[14 + n..46 + n] == p[14 + n..46 + n];
      assert q[10..10 + n] == p[10..10 + n];
    }
  }
}
