/** Queues of threads. */
module Queues {
  predicate NoRepeats(q: seq<nat>)
  {
    forall i, j {:trigger q[i], q[j]} :: 0 <= i < j < |q| ==> q[i] != q[j]
  }

  function Without(q: seq<nat>, t: nat): seq<nat>
  {
    if q == [] then [] else if q[0] == t then q[1..] else [q[0]] + Without(q[1..], t)
  }

  /** The threads with these ids find different cells in thread-local storage of this size. */
  predicate OwnCells(ids: seq<nat>, size: nat)
    requires 0 < size
  {
    forall t, u :: 0 <= t < u < |ids| ==> ids[t] % size != ids[u] % size
  }
}
