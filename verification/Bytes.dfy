/** Byte strings and the fixed-width integers packed into them. */
module Bytes {

  type Byte = b: int | 0 <= b < 256

  function Pow256(width: nat): (p: nat)
    ensures p > 0
  {
    if width == 0 then 1 else 256 * Pow256(width - 1)
  }

  /** Little-endian encoding in exactly `width` bytes (struct codes `<B`, `<H`, `<I`, `<Q`). */
  function LeEncode(n: nat, width: nat): (bs: seq<Byte>)
    requires n < Pow256(width)
    ensures |bs| == width
  {
    if width == 0 then [] else [n % 256] + LeEncode(n / 256, width - 1)
  }

  function LeDecode(bs: seq<Byte>): (n: nat)
    ensures n < Pow256(|bs|)
  {
    if bs == [] then 0 else bs[0] + 256 * LeDecode(bs[1..])
  }

  lemma {:induction false} LeDecodeEncode(n: nat, width: nat)
    requires n < Pow256(width)
    ensures LeDecode(LeEncode(n, width)) == n
  {
    if width > 0 {
      LeDecodeEncode(n / 256, width - 1);
      assert LeEncode(n, width)[1..] == LeEncode(n / 256, width - 1);
    }
  }

  lemma {:induction false} LeEncodeDecode(bs: seq<Byte>)
    ensures LeEncode(LeDecode(bs), |bs|) == bs
  {
    if bs != [] {
      LeEncodeDecode(bs[1..]);
      var n := LeDecode(bs);
      assert n / 256 == LeDecode(bs[1..]) && n % 256 == bs[0];
      assert bs == [bs[0]] + bs[1..];
    }
  }

  /** Big-endian encoding in exactly `width` bytes (struct codes `>H`, `>I`, `>Q`). */
  function BeEncode(n: nat, width: nat): (bs: seq<Byte>)
    requires n < Pow256(width)
    ensures |bs| == width
  {
    if width == 0 then [] else BeEncode(n / 256, width - 1) + [n % 256]
  }

  function BeDecode(bs: seq<Byte>): (n: nat)
    ensures n < Pow256(|bs|)
  {
    if bs == [] then 0 else bs[|bs| - 1] + 256 * BeDecode(bs[..|bs| - 1])
  }

  lemma {:induction false} BeDecodeEncode(n: nat, width: nat)
    requires n < Pow256(width)
    ensures BeDecode(BeEncode(n, width)) == n
  {
    if width > 0 {
      BeDecodeEncode(n / 256, width - 1);
      assert BeEncode(n, width)[..width - 1] == BeEncode(n / 256, width - 1);
    }
  }

  lemma {:induction false} BeEncodeDecode(bs: seq<Byte>)
    ensures BeEncode(BeDecode(bs), |bs|) == bs
  {
    if bs != [] {
      var front := bs[..|bs| - 1];
      BeEncodeDecode(front);
      var n := BeDecode(bs);
      assert n / 256 == BeDecode(front) && n % 256 == bs[|bs| - 1];
      assert bs == front + [bs[|bs| - 1]];
    }
  }

  /** The widths the formats use, as numbers. */
  lemma {:induction false} Widths()
    ensures Pow256(1) == 0x100
    ensures Pow256(2) == 0x1_0000
    ensures Pow256(4) == 0x1_0000_0000
    ensures Pow256(8) == 0x1_0000_0000_0000_0000
  {
    assert Pow256(3) == 0x100_0000;
    assert Pow256(4) == 256 * Pow256(3);
    assert Pow256(6) == 256 * (256 * Pow256(4));
    assert Pow256(8) == 256 * (256 * Pow256(6));
  }

  /** Python's `data[lo:hi]` for non-negative bounds: both are clamped to the length. */
  function Slice<T>(data: seq<T>, lo: nat, hi: nat): (s: seq<T>)
    ensures lo <= hi <= |data| ==> s == data[lo..hi]
    ensures |s| <= |data|
  {
    var l := if lo <= |data| then lo else |data|;
    var h := if hi <= |data| then hi else |data|;
    if l <= h then data[l..h] else []
  }

  function Zeros(n: nat): (bs: seq<Byte>)
    ensures |bs| == n
    ensures forall i :: 0 <= i < n ==> bs[i] == 0
  {
    seq(n, _ => 0)
  }
}
