/** The elements of a list set in list order: sorted by hash, elements with equal hashes in order of insertion. */
module SortedChain {
  import opened Elements
  import opened HashChain

  ghost predicate Sorted(c: Chain)
  {
    forall i, j {:trigger c[i], c[j]} :: 0 <= i < j < |c| ==> c[i].id.hash <= c[j].id.hash
  }

  /** Where a search for `id` stops: at the element, or at the first one with a greater hash, or at the end. */
  function Stop(c: Chain, id: Id): (k: nat)
    ensures k <= |c|
    ensures forall i :: 0 <= i < k ==> c[i].id.hash <= id.hash && c[i].id != id
    ensures k < |c| ==> c[k].id.hash > id.hash || c[k].id == id
  {
    if c == [] || c[0].id.hash > id.hash || c[0].id == id then 0 else 1 + Stop(c[1..], id)
  }

  lemma StopIs(c: Chain, id: Id, k: nat)
    requires k <= |c| && (forall i :: 0 <= i < k ==> c[i].id.hash <= id.hash && c[i].id != id)
    requires k < |c| ==> c[k].id.hash > id.hash || c[k].id == id
    ensures Stop(c, id) == k
  {
  }

  /** Behind all elements whose hash is not greater. */
  function Insert(c: Chain, e: Elem): Chain
  {
    if c == [] || c[0].id.hash > e.id.hash then [e] + c else [c[0]] + Insert(c[1..], e)
  }

  lemma {:induction false} InsertAt(c: Chain, e: Elem, k: nat)
    requires k <= |c| && (forall i :: 0 <= i < k ==> c[i].id.hash <= e.id.hash) && (k < |c| ==> c[k].id.hash > e.id.hash)
    ensures Insert(c, e) == c[..k] + [e] + c[k..]
    decreases |c|
  {
    if k == 0 {
      assert c[..0] + [e] + c[0..] == [e] + c;
    } else {
      InsertAt(c[1..], e, k - 1);
      assert c[1..][..k - 1] == c[1..k] && c[1..][k - 1..] == c[k..];
      assert [c[0]] + (c[1..k] + [e] + c[k..]) == c[..k] + [e] + c[k..];
    }
  }

  lemma {:induction false} InsertMembers(c: Chain, e: Elem, x: Elem)
    ensures x in Insert(c, e) <==> x in c || x == e
    decreases |c|
  {
    if c != [] && c[0].id.hash <= e.id.hash {
      InsertMembers(c[1..], e, x);
      assert x in c <==> x == c[0] || x in c[1..];
    }
  }

  lemma {:induction false} InsertKeeps(c: Chain, e: Elem)
    requires Sorted(c) && KeysOnce(c) && Find(c, e.id) == |c|
    ensures Sorted(Insert(c, e)) && KeysOnce(Insert(c, e))
    decreases |c|
  {
    var c' := Insert(c, e);
    if c == [] || c[0].id.hash > e.id.hash {
      assert c'[1..] == c;
    } else {
      NotInRest(c, e.id);
      InsertKeeps(c[1..], e);
      assert c'[1..] == Insert(c[1..], e);
      forall j | 0 < j < |c'|
        ensures c[0].id.hash <= c'[j].id.hash && c[0].id != c'[j].id
      {
        InsertMembers(c[1..], e, c'[j]);
        assert c'[j] in c'[1..];
      }
    }
  }

  lemma NotInRest(c: Chain, id: Id)
    requires c != [] && Find(c, id) == |c|
    ensures Find(c[1..], id) == |c[1..]|
  {
    assert forall i :: 0 <= i < |c[1..]| ==> c[1..][i].id != id;
    FindIs(c[1..], id, |c[1..]|);
  }

  /** Inserting a new element is the set's `add`. */
  lemma {:induction false} InsertIsAdd(c: Chain, e: Elem)
    requires KeysOnce(c) && Find(c, e.id) == |c|
    ensures Apply(ToMap(c), Add(e)) == (ToMap(Insert(c, e)), Result(true, None))
    decreases |c|
  {
    ToMapFinds(c, e.id);
    if c == [] || c[0].id.hash > e.id.hash {
      assert Insert(c, e)[1..] == c;
      assert map[e.id := e.payload] + ToMap(c) == ToMap(c)[e.id := e.payload];
    } else {
      var rest := c[1..];
      NotInRest(c, e.id);
      InsertIsAdd(rest, e);
      ToMapFinds(rest, e.id);
      assert Insert(c, e)[1..] == Insert(rest, e);
      assert map[c[0].id := c[0].payload] + ToMap(rest)[e.id := e.payload] == ToMap(c)[e.id := e.payload];
    }
  }

  lemma DelSorted(c: Chain, id: Id)
    requires Sorted(c)
    ensures Sorted(Del(c, id))
  {
    var c' := Del(c, id);
    forall i, j | 0 <= i < j < |c'| && Find(c, id) < |c|
      ensures c'[i].id.hash <= c'[j].id.hash
    {
      DelAt(c, id, i);
      DelAt(c, id, j);
    }
  }
}
