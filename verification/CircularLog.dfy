/** A circular log and the two ways its readers reconstruct the order of its slots. */
module CircularLog {
  import opened Modulo
  import opened Newest

  /** What the readers document of the writer: write at the cursor, move it on, count. */
  datatype Log<T> = Log(slots: seq<T>, cursor: nat, total: nat)

  function Append<T>(l: Log<T>, rec: T): (l': Log<T>)
    requires l.cursor < |l.slots|
    ensures |l'.slots| == |l.slots| && l'.cursor < |l'.slots|
  {
    Log(l.slots[l.cursor := rec], (l.cursor + 1) % |l.slots|, l.total + 1)
  }

  function AppendAll<T>(l: Log<T>, recs: seq<T>): (l': Log<T>)
    requires l.cursor < |l.slots|
    ensures |l'.slots| == |l.slots| && l'.cursor < |l'.slots|
  {
    if recs == [] then l else Append(AppendAll(l, recs[..|recs| - 1]), recs[|recs| - 1])
  }

  /** An empty log over whatever the slots happened to hold. */
  function Fresh<T>(blank: seq<T>): (l: Log<T>) {
    Log(blank, 0, 0)
  }

  // --------------------------------------------------------------------------------------------
  // What a log holds

  /** After any number of appends to a log of any capacity, each of the last records appended is in
      the slot of its number, the cursor and the total count the appends, and slots never reached
      are untouched. */
  lemma {:induction false} SlotsAfter<T>(blank: seq<T>, recs: seq<T>)
    requires |blank| > 0
    ensures var l, n := AppendAll(Fresh(blank), recs), |blank|;
            && l.total == |recs| && l.cursor == |recs| % n
            && (forall j {:trigger recs[j]} :: 0 <= j < |recs| && |recs| - n <= j ==> l.slots[j % n] == recs[j])
            && (forall j :: |recs| <= j < n ==> l.slots[j] == blank[j])
  {
    if recs != [] {
      var n, k := |blank|, |recs| - 1;
      SlotsAfter(blank, recs[..k]);
      ModNext(k, n);
      var l := AppendAll(Fresh(blank), recs);
      forall j | 0 <= j < |recs| && |recs| - n <= j ensures l.slots[j % n] == recs[j] {
        if j < k {
          ModDistinct(j, k, n);
          assert recs[..k][j] == recs[j];
        }
      }
      forall j | |recs| <= j < n ensures l.slots[j] == blank[j] {
        ModUnique(0, k, n);
      }
    } else {
      ModUnique(0, 0, |blank|);
    }
  }

  // --------------------------------------------------------------------------------------------
  // The two conventions for the order of the slots

  /** `_wrap_order` of the episodic store, the NVMe log and the action audit: wrapped when the total
      exceeds the slots. */
  function OrderAbove(cursor: nat, total: nat, slots: int): (order: seq<nat>)
    ensures forall i :: 0 <= i < |order| ==> order[i] < slots
  {
    if slots <= 0 || total == 0 then []
    else if total > slots then seq(slots, i requires 0 <= i < slots => (cursor + i) % slots)
    else seq(Least(total, slots), i requires 0 <= i < Least(total, slots) => i)
  }

  /** `_wrap_order` of the vector store, and the slots of the semantic store: wrapped as soon as the
      total reaches the slots. */
  function OrderAtLeast(cursor: nat, total: nat, slots: int): (order: seq<nat>)
    ensures forall i :: 0 <= i < |order| ==> order[i] < slots
  {
    if slots <= 0 then []
    else if total < slots then seq(Least(total, slots), i requires 0 <= i < Least(total, slots) => i)
    else seq(slots, i requires 0 <= i < slots => (cursor + i) % slots)
  }

  /** The conventions give different orders for exactly one kind of header: a full log whose cursor
      is not at a multiple of the slots. No writer reaches it. */
  lemma {:induction false} ConventionsAgreeIff(cursor: nat, total: nat, slots: nat)
    requires slots > 0
    ensures OrderAbove(cursor, total, slots) == OrderAtLeast(cursor, total, slots)
            <==> !(total == slots && cursor % slots != 0)
  {
    var above, atLeast := OrderAbove(cursor, total, slots), OrderAtLeast(cursor, total, slots);
    if total == slots {
      if cursor % slots == 0 {
        forall i | 0 <= i < slots ensures above[i] == atLeast[i] {
          ModPlus(cursor, i, slots);
          ModUnique(0, i, slots);
        }
      } else {
        assert above[0] == 0 && atLeast[0] == cursor % slots;
      }
    }
  }

  /** On every header a writer reaches, both conventions list the slots of the last records, oldest
      first. */
  lemma {:induction false} OrdersOfReachable(total: nat, slots: nat)
    requires slots > 0
    ensures var above, atLeast := OrderAbove(total % slots, total, slots), OrderAtLeast(total % slots, total, slots);
            && above == atLeast && |above| == Least(total, slots)
            && forall i :: 0 <= i < |above| ==> above[i] == (total - |above| + i) % slots
  {
    var cursor := total % slots;
    ModPlus(total, 0, slots);
    if total == slots {
      ModUnique(1, 0, slots);
    }
    ConventionsAgreeIff(cursor, total, slots);
    var above := OrderAbove(cursor, total, slots);
    forall i | 0 <= i < |above| ensures above[i] == (total - |above| + i) % slots {
      if total > slots {
        ModPlus(total, i, slots);
        ModMinus(total + i, slots);
      } else {
        ModUnique(0, i, slots);
      }
    }
  }

  /** Reading the slots in order gives the last records appended, oldest to newest. */
  lemma {:induction false} ReadsBackTheLast<T>(blank: seq<T>, recs: seq<T>)
    requires |blank| > 0
    ensures var l := AppendAll(Fresh(blank), recs);
            var order := OrderAbove(l.cursor, l.total, |l.slots|);
            && order == OrderAtLeast(l.cursor, l.total, |l.slots|)
            && |order| == |Last(recs, |blank|)|
            && forall i :: 0 <= i < |order| ==> l.slots[order[i]] == Last(recs, |blank|)[i]
  {
    var l, n := AppendAll(Fresh(blank), recs), |blank|;
    SlotsAfter(blank, recs);
    OrdersOfReachable(|recs|, n);
    var order := OrderAbove(l.cursor, l.total, n);
    forall i | 0 <= i < |order| ensures l.slots[order[i]] == Last(recs, n)[i] {
      var j := |recs| - |order| + i;
      assert l.slots[j % n] == recs[j];
    }
  }
}
