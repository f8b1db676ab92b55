/** The newest items of a list, and a list that keeps no more of them than a limit. */
module Newest {

  function Least(a: nat, b: nat): (m: nat) {
    if a < b then a else b
  }

  /** The last `n` items, or all of them. */
  function Last<T>(s: seq<T>, n: nat): (t: seq<T>)
    ensures |t| == Least(|s|, n)
  {
    s[|s| - Least(|s|, n)..]
  }

  /** Append, then drop the oldest beyond the limit. */
  function Pushed<T>(ring: seq<T>, item: T, limit: nat): (ring': seq<T>) {
    var all := ring + [item];
    if |all| > limit then all[1..] else all
  }

  lemma {:induction false} PushedIsLast<T>(all: seq<T>, item: T, limit: nat)
    requires limit > 0
    ensures Pushed(Last(all, limit), item, limit) == Last(all + [item], limit)
  {
  }
}
