/** The XOR checksum of the on-disk stores, over Python's unbounded integers. */
module Checksum {
  import opened Bits
  import opened Bytes

  /** Bitwise exclusive or. */
  function Xor(a: nat, b: nat): (c: nat)
    decreases a + b
  {
    if a == 0 && b == 0 then 0 else (a % 2 + b % 2) % 2 + 2 * Xor(a / 2, b / 2)
  }

  lemma {:induction false} XorCommutes(a: nat, b: nat)
    ensures Xor(a, b) == Xor(b, a)
    decreases a + b
  {
    if a != 0 || b != 0 {
      XorCommutes(a / 2, b / 2);
    }
  }

  lemma {:induction false} XorAssociates(a: nat, b: nat, c: nat)
    ensures Xor(Xor(a, b), c) == Xor(a, Xor(b, c))
    decreases a + b + c
  {
    if a != 0 || b != 0 || c != 0 {
      var ab := XorParts(a, b);
      var bc := XorParts(b, c);
      var left := XorParts(ab, c);
      var right := XorParts(a, bc);
      XorAssociates(a / 2, b / 2, c / 2);
      assert left % 2 == right % 2;
      assert left == left / 2 * 2 + left % 2 && right == right / 2 * 2 + right % 2;
    }
  }

  /** The lowest bit and the rest of an exclusive or. */
  lemma {:induction false} XorParts(a: nat, b: nat) returns (c: nat)
    ensures c == Xor(a, b)
    ensures c / 2 == Xor(a / 2, b / 2)
    ensures c % 2 == if a % 2 == b % 2 then 0 else 1
  {
    c := Xor(a, b);
  }

  /** A bit of an exclusive or is set exactly where the operands differ. */
  lemma {:induction false} XorBits(a: nat, b: nat, k: nat)
    ensures Bit(Xor(a, b), k) == if Bit(a, k) == Bit(b, k) then 0 else 1
  {
    var c := XorParts(a, b);
    if k > 0 {
      XorBits(a / 2, b / 2, k - 1);
    } else {
      assert Bit(a, 0) == a % 2 && Bit(b, 0) == b % 2;
    }
  }

  lemma {:induction false} XorZero(a: nat)
    ensures Xor(a, 0) == a == Xor(0, a)
  {
    if a != 0 {
      XorZero(a / 2);
    }
  }

  lemma {:induction false} XorIsZeroIffEqual(a: nat, b: nat)
    ensures Xor(a, b) == 0 <==> a == b
    decreases a + b
  {
    if a != 0 || b != 0 {
      XorIsZeroIffEqual(a / 2, b / 2);
      var c := XorParts(a, b);
    }
  }

  lemma {:induction false} XorCancels(a: nat, b: nat, c: nat)
    ensures Xor(a, b) == Xor(a, c) <==> b == c
  {
    if Xor(a, b) == Xor(a, c) {
      XorAssociates(a, a, b);
      XorAssociates(a, a, c);
      XorIsZeroIffEqual(a, a);
      XorZero(b);
      XorZero(c);
    }
  }

  lemma {:induction false} XorSwap(a: nat, b: nat, c: nat)
    ensures Xor(Xor(a, b), c) == Xor(Xor(a, c), b)
  {
    XorAssociates(a, b, c);
    XorCommutes(b, c);
    XorAssociates(a, c, b);
  }

  /** The little-endian 32-bit word `i` of a buffer. */
  function WordAt(buf: seq<Byte>, i: nat): (w: nat)
    requires 4 * i + 4 <= |buf|
  {
    LeDecode(buf[4 * i..4 * i + 4])
  }

  function Words(buf: seq<Byte>): (ws: seq<nat>)
    ensures |ws| == |buf| / 4
  {
    seq(|buf| / 4, i requires 0 <= i < |buf| / 4 => WordAt(buf, i))
  }

  datatype Skip = NoSkip | SkipWord(index: nat)

  function XorAll(ws: seq<nat>): (cs: nat) {
    if ws == [] then 0 else Xor(XorAll(ws[..|ws| - 1]), ws[|ws| - 1])
  }

  /** The words a checksum covers: all but the skipped one. */
  function Covered(ws: seq<nat>, skip: Skip): (covered: seq<nat>) {
    if skip.SkipWord? && skip.index < |ws| then ws[..skip.index] + ws[skip.index + 1..] else ws
  }

  lemma {:induction false} XorAllAppend(ws: seq<nat>, w: nat)
    ensures XorAll(ws + [w]) == Xor(XorAll(ws), w)
  {
    assert (ws + [w])[..|ws|] == ws;
  }

  lemma {:induction false} CoveredAppend(ws: seq<nat>, w: nat, skip: Skip)
    ensures Covered(ws + [w], skip) == Covered(ws, skip) + if skip == SkipWord(|ws|) then [] else [w]
  {
    var all := ws + [w];
    if skip.SkipWord? && skip.index < |ws| {
      assert all[..skip.index] == ws[..skip.index] && all[skip.index + 1..] == ws[skip.index + 1..] + [w];
    } else if skip == SkipWord(|ws|) {
      assert all[..|ws|] == ws && all[|ws| + 1..] == [];
    }
  }

  lemma {:induction false} XorAllStep(ws: seq<nat>, i: nat, skip: Skip)
    requires i < |ws|
    ensures XorAll(Covered(ws[..i + 1], skip)) ==
            if skip == SkipWord(i) then XorAll(Covered(ws[..i], skip))
            else Xor(XorAll(Covered(ws[..i], skip)), ws[i])
  {
    assert ws[..i + 1] == ws[..i] + [ws[i]];
    CoveredAppend(ws[..i], ws[i], skip);
    XorAllAppend(Covered(ws[..i], skip), ws[i]);
    assert Covered(ws[..i], skip) + [] == Covered(ws[..i], skip);
  }

  /** `_xor_words`: the loop that folds the covered words. */
  method XorWords(buf: seq<Byte>, nwords: nat, skip: Skip) returns (cs: nat)
    requires nwords <= |buf| / 4
    ensures cs == XorAll(Covered(Words(buf)[..nwords], skip))
  {
    cs := 0;
    ghost var ws := Words(buf);
    for i := 0 to nwords
      invariant cs == XorAll(Covered(ws[..i], skip))
    {
      XorAllStep(ws, i, skip);
      if skip == SkipWord(i) {
        continue;
      }
      cs := Xor(cs, WordAt(buf, i));
    }
  }

  /** A stored checksum, word `at`, matches the first `nwords` words. In a record it is one of them
      and skipped; in a header it is the one after them. */
  predicate Matches(ws: seq<nat>, nwords: nat, at: nat)
    requires nwords <= |ws| && at < |ws|
  {
    ws[at] == XorAll(Covered(ws[..nwords], if at < nwords then SkipWord(at) else NoSkip))
  }

  // --------------------------------------------------------------------------------------------
  // What a match means

  lemma {:induction false} XorAllWithout(ws: seq<nat>, k: nat)
    requires k < |ws|
    ensures XorAll(ws) == Xor(XorAll(ws[..k] + ws[k + 1..]), ws[k])
  {
    var last := |ws| - 1;
    if k == last {
      assert ws[..k] + ws[k + 1..] == ws[..last];
    } else {
      XorAllWithout(ws[..last], k);
      var rest := ws[..k] + ws[k + 1..last];
      assert ws[..last][..k] + ws[..last][k + 1..] == rest;
      assert ws[..k] + ws[k + 1..] == rest + [ws[last]];
      XorAllAppend(rest, ws[last]);
      XorSwap(XorAll(rest), ws[k], ws[last]);
    }
  }

  /** Every word a match depends on: the covered ones and the checksum itself. */
  function Involved(ws: seq<nat>, nwords: nat, at: nat): (all: seq<nat>)
    requires nwords <= |ws| && at < |ws|
  {
    if at < nwords then ws[..nwords] else ws[..nwords] + [ws[at]]
  }

  /** A stored checksum matches exactly when all words involved, the checksum among them, XOR to
      zero. */
  lemma {:induction false} MatchesIffAllXorToZero(ws: seq<nat>, nwords: nat, at: nat)
    requires nwords <= |ws| && at < |ws|
    ensures Matches(ws, nwords, at) <==> XorAll(Involved(ws, nwords, at)) == 0
  {
    if at < nwords {
      XorAllWithout(ws[..nwords], at);
      XorIsZeroIffEqual(XorAll(Covered(ws[..nwords], SkipWord(at))), ws[at]);
    } else {
      XorAllAppend(ws[..nwords], ws[at]);
      XorIsZeroIffEqual(XorAll(ws[..nwords]), ws[at]);
    }
  }

  lemma {:induction false} ChangeOneOf(all: seq<nat>, k: nat, w: nat)
    requires k < |all| && XorAll(all) == 0
    ensures XorAll(all[k := w]) == 0 <==> w == all[k]
  {
    XorAllWithout(all, k);
    XorAllWithout(all[k := w], k);
    assert all[k := w][..k] == all[..k] && all[k := w][k + 1..] == all[k + 1..];
    XorCancels(XorAll(all[..k] + all[k + 1..]), all[k], w);
  }

  /** A change confined to one covered word, or to the checksum itself, is always rejected. */
  lemma {:induction false} ChangeOfOneWordIsRejected(ws: seq<nat>, nwords: nat, at: nat, j: nat, w: nat)
    requires nwords <= |ws| && at < |ws| && (j < nwords || j == at)
    requires Matches(ws, nwords, at)
    ensures Matches(ws[j := w], nwords, at) <==> w == ws[j]
  {
    var k := if j < nwords then j else nwords;
    var all := Involved(ws, nwords, at);
    MatchesIffAllXorToZero(ws, nwords, at);
    MatchesIffAllXorToZero(ws[j := w], nwords, at);
    assert all[k] == ws[j];
    assert Involved(ws[j := w], nwords, at) == all[k := w];
    ChangeOneOf(all, k, w);
  }

  // --------------------------------------------------------------------------------------------
  // What a match cannot see

  lemma {:induction false} XorAllOfPermutation(ws: seq<nat>, ws': seq<nat>)
    requires multiset(ws) == multiset(ws')
    ensures XorAll(ws) == XorAll(ws')
    decreases |ws|
  {
    if ws == [] {
      assert |ws'| == |multiset(ws')| == 0;
    } else {
      var last := ws[|ws| - 1];
      assert ws == ws[..|ws| - 1] + [last];
      assert last in multiset(ws);
      var k :| 0 <= k < |ws'| && ws'[k] == last;
      assert ws' == ws'[..k] + [last] + ws'[k + 1..];
      var rest' := ws'[..k] + ws'[k + 1..];
      assert multiset(rest') == multiset(ws') - multiset{last};
      assert multiset(ws[..|ws| - 1]) == multiset(ws) - multiset{last};
      XorAllOfPermutation(ws[..|ws| - 1], rest');
      XorAllWithout(ws', k);
    }
  }

  /** Any reordering of the covered words keeps a match, and keeps a mismatch. */
  lemma {:induction false} ReorderingIsAccepted(ws: seq<nat>, ws': seq<nat>, nwords: nat, at: nat)
    requires nwords <= |ws| == |ws'| && at < |ws| && ws[at] == ws'[at]
    requires var skip := if at < nwords then SkipWord(at) else NoSkip;
             multiset(Covered(ws[..nwords], skip)) == multiset(Covered(ws'[..nwords], skip))
    ensures Matches(ws, nwords, at) <==> Matches(ws', nwords, at)
  {
    var skip := if at < nwords then SkipWord(at) else NoSkip;
    XorAllOfPermutation(Covered(ws[..nwords], skip), Covered(ws'[..nwords], skip));
  }
}
