/** Walking a byte stream made of self-delimiting records. */
module Framing {
  import opened Bytes

  /** What a walker makes of the bytes in front of it: stop, or some results and how far to move on. */
  datatype Step<Y> = End | Next(results: seq<Y>, size: nat)

  /** `b''.join(parts)`. */
  function Join(parts: seq<seq<Byte>>): (bs: seq<Byte>) {
    if parts == [] then [] else parts[0] + Join(parts[1..])
  }

  lemma {:induction false} JoinOfConcat(a: seq<seq<Byte>>, b: seq<seq<Byte>>)
    ensures Join(a + b) == Join(a) + Join(b)
  {
    if a == [] {
      assert a + b == b;
    } else {
      JoinOfConcat(a[1..], b);
      assert (a + b)[0] == a[0] && (a + b)[1..] == a[1..] + b;
      assert Join(a + b) == a[0] + Join(a[1..] + b);
      assert a[0] + (Join(a[1..]) + Join(b)) == (a[0] + Join(a[1..])) + Join(b);
    }
  }

  function Flatten<Y>(yss: seq<seq<Y>>): (ys: seq<Y>) {
    if yss == [] then [] else yss[0] + Flatten(yss[1..])
  }

  function Walk<Y>(step: seq<Byte> -> Step<Y>, rest: seq<Byte>): (ys: seq<Y>)
    decreases |rest|
  {
    match step(rest)
    case End => []
    case Next(results, size) => if 0 < size <= |rest| then results + Walk(step, rest[size..]) else results
  }

  /** How many leading parts lie wholly inside the first `budget` bytes. */
  function WholeParts(parts: seq<seq<Byte>>, budget: nat): (w: nat)
    ensures w <= |parts|
  {
    if parts == [] || budget < |parts[0]| then 0 else 1 + WholeParts(parts[1..], budget - |parts[0]|)
  }

  lemma {:induction false} WholePartsIsGreatest(parts: seq<seq<Byte>>, budget: nat)
    ensures var w := WholeParts(parts, budget);
            && |Join(parts[..w])| <= budget
            && (w < |parts| ==> |Join(parts[..w + 1])| > budget)
  {
    if parts != [] {
      if budget < |parts[0]| {
        assert parts[..1][1..] == [];
      } else {
        WholePartsIsGreatest(parts[1..], budget - |parts[0]|);
        var w := WholeParts(parts[1..], budget - |parts[0]|);
        assert parts[..w + 1][1..] == parts[1..][..w];
        if w < |parts[1..]| {
          assert parts[..w + 2][1..] == parts[1..][..w + 1];
        }
      }
    }
  }

  /** The walker reads the part as one record yielding `ys`, whatever follows it, and stops at
      every proper prefix of it. */
  ghost predicate Framed<Y(!new)>(step: seq<Byte> -> Step<Y>, part: seq<Byte>, ys: seq<Y>) {
    && |part| > 0
    && (forall more: seq<Byte> {:trigger part + more} :: step(part + more) == Next(ys, |part|))
    && (forall k {:trigger part[..k]} :: 0 <= k < |part| ==> step(part[..k]) == End)
  }

  /** A stream of framed records, cut anywhere, yields what its leading whole records yield. */
  lemma {:induction false} WalkOfCut<Y(!new)>(step: seq<Byte> -> Step<Y>, parts: seq<seq<Byte>>, yss: seq<seq<Y>>, k: nat)
    requires |parts| == |yss| && forall i :: 0 <= i < |parts| ==> Framed(step, parts[i], yss[i])
    requires step([]) == End && k <= |Join(parts)|
    ensures Walk(step, Join(parts)[..k]) == Flatten(yss[..WholeParts(parts, k)])
  {
    if parts == [] {
    } else {
      var part, more := parts[0], Join(parts[1..]);
      assert Framed(step, part, yss[0]);
      if k < |part| {
        assert Join(parts)[..k] == part[..k];
      } else {
        var cut := more[..k - |part|];
        assert Join(parts)[..k] == part + cut;
        assert (part + cut)[|part|..] == cut;
        WalkOfCut(step, parts[1..], yss[1..], k - |part|);
        var w := WholeParts(parts[1..], k - |part|);
        assert yss[..w + 1][1..] == yss[1..][..w];
      }
    }
  }

  lemma {:induction false} FlattenOfSingles<Y>(yss: seq<seq<Y>>)
    requires forall i :: 0 <= i < |yss| ==> |yss[i]| == 1
    ensures |Flatten(yss)| == |yss|
    ensures forall i :: 0 <= i < |yss| ==> Flatten(yss)[i] == yss[i][0]
  {
    if yss != [] {
      FlattenOfSingles(yss[1..]);
      forall i | 0 <= i < |yss| ensures Flatten(yss)[i] == yss[i][0] {
        if i > 0 {
          assert yss[1..][i - 1] == yss[i];
        }
      }
    }
  }

  lemma {:induction false} FlattenOfLeadingSingles<Y>(yss: seq<seq<Y>>, n: nat)
    requires n <= |yss| && forall i :: 0 <= i < |yss| ==> |yss[i]| == 1
    ensures |Flatten(yss[..n])| == n
    ensures forall i :: 0 <= i < n ==> Flatten(yss[..n])[i] == yss[i][0]
  {
    FlattenOfSingles(yss[..n]);
  }

  lemma {:induction false} WholePartsOfRoom(parts: seq<seq<Byte>>, size: nat, budget: nat, room: nat)
    requires size > 0 && forall k :: 0 <= k < |parts| ==> |parts[k]| == size
    requires room * size <= budget < room * size + size
    ensures WholeParts(parts, budget) == if room < |parts| then room else |parts|
    decreases |parts|
  {
    if parts != [] && room > 0 {
      assert room * size == (room - 1) * size + size;
      WholePartsOfRoom(parts[1..], size, budget - size, room - 1);
    }
  }

  /** Of parts of one size, as many are whole as the budget has room for. */
  lemma {:induction false} WholePartsOfOneSize(parts: seq<seq<Byte>>, size: nat, budget: nat)
    requires size > 0 && forall k :: 0 <= k < |parts| ==> |parts[k]| == size
    ensures WholeParts(parts, budget) == if budget / size < |parts| then budget / size else |parts|
  {
    assert budget == size * (budget / size) + budget % size;
    WholePartsOfRoom(parts, size, budget, budget / size);
  }
}
