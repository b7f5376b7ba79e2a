/** A map kept in buckets, one per remainder of the hash (maps/LockHashMap.hpp, maps/SetBasedMap.hpp). */
module Buckets {
  import opened Elements

  /** getBucketIndexOfKey: the last bucket is never used. */
  function Index(id: Id, size: nat): (b: nat)
    requires 2 <= size
    ensures b < size - 1
  {
    id.hash % (size - 1)
  }

  /** Every element is in the bucket of its hash. */
  ghost predicate Placed(ms: seq<Contents>)
  {
    2 <= |ms| && forall b, id :: 0 <= b < |ms| && id in ms[b] ==> Index(id, |ms|) == b
  }

  /** All buckets together. */
  function Union(ms: seq<Contents>): Contents
  {
    if ms == [] then map[] else Union(ms[..|ms| - 1]) + ms[|ms| - 1]
  }

  lemma {:induction false} UnionFinds(ms: seq<Contents>, id: Id, b: nat)
    requires forall c :: 0 <= c < |ms| && id in ms[c] ==> c == b
    ensures id in Union(ms) <==> b < |ms| && id in ms[b]
    ensures id in Union(ms) ==> Union(ms)[id] == ms[b][id]
    decreases |ms|
  {
    if ms != [] {
      var front := ms[..|ms| - 1];
      assert forall c :: 0 <= c < |front| ==> front[c] == ms[c];
      UnionFinds(front, id, b);
    }
  }

  lemma UnionAt(ms: seq<Contents>, id: Id)
    requires Placed(ms)
    ensures id in Union(ms) <==> id in ms[Index(id, |ms|)]
    ensures id in Union(ms) ==> Union(ms)[id] == ms[Index(id, |ms|)][id]
  {
    UnionFinds(ms, id, Index(id, |ms|));
  }

  /** An operation on the bucket of its key is the operation on the whole map. */
  lemma ApplyInBucket(ms: seq<Contents>, op: Op)
    requires Placed(ms)
    ensures var b := Index(op.Key(), |ms|); var (m, r) := Apply(ms[b], op);
            && Placed(ms[b := m])
            && Apply(Union(ms), op) == (Union(ms[b := m]), r)
  {
    var b, key := Index(op.Key(), |ms|), op.Key();
    var ms' := ms[b := Apply(ms[b], op).0];
    UnionAt(ms, key);
    assert Placed(ms');
    var whole := Apply(Union(ms), op).0;
    forall id
      ensures id in whole <==> id in Union(ms')
      ensures id in whole ==> whole[id] == Union(ms')[id]
    {
      UnionAt(ms, id);
      UnionAt(ms', id);
    }
    assert whole == Union(ms');
  }

  lemma {:induction false} UnionOfEmpty(ms: seq<Contents>)
    requires forall b :: 0 <= b < |ms| ==> ms[b] == map[]
    ensures Union(ms) == map[]
    decreases |ms|
  {
    if ms != [] {
      UnionOfEmpty(ms[..|ms| - 1]);
    }
  }
}
