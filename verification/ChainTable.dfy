/** All chains of LockHashMap, one per bucket, as one map. */
module ChainTable {
  import opened Elements
  import opened HashChain
  import opened Buckets

  type Table = seq<Chain>

  /** A key is in one entry at most, and that is in the bucket of its hash. */
  ghost predicate Sound(cs: Table)
  {
    && 2 <= |cs|
    && (forall b :: 0 <= b < |cs| ==> KeysOnce(cs[b]))
    && forall b, i :: 0 <= b < |cs| && 0 <= i < |cs[b]| ==> Index(cs[b][i].id, |cs|) == b
  }

  ghost function Maps(cs: Table): seq<Contents>
  {
    seq(|cs|, b requires 0 <= b < |cs| => ToMap(cs[b]))
  }

  ghost function Whole(cs: Table): Contents
  {
    Union(Maps(cs))
  }

  /** A key found anywhere is found in its own bucket. */
  lemma KeyOnce(cs: Table, b: nat, i: nat, c: nat, j: nat)
    requires Sound(cs) && b < |cs| && i < |cs[b]| && c < |cs| && j < |cs[c]| && cs[b][i].id == cs[c][j].id
    ensures b == c && i == j
  {
    assert Index(cs[b][i].id, |cs|) == Index(cs[c][j].id, |cs|);
  }

  lemma MapsPlaced(cs: Table)
    requires Sound(cs)
    ensures Placed(Maps(cs))
  {
    forall b, id | 0 <= b < |cs| && id in Maps(cs)[b]
      ensures Index(id, |cs|) == b
    {
      ToMapFinds(cs[b], id);
    }
  }

  /** Whatever an operation does to the chain of its bucket, it does to the whole map. */
  lemma InBucket(cs: Table, op: Op, chain: Chain)
    requires Sound(cs) && KeysOnce(chain) && ToMap(chain) == Apply(ToMap(cs[Index(op.Key(), |cs|)]), op).0
    ensures var b := Index(op.Key(), |cs|);
            Apply(Whole(cs), op) == (Whole(cs[b := chain]), Apply(ToMap(cs[b]), op).1)
  {
    var b := Index(op.Key(), |cs|);
    MapsPlaced(cs);
    ApplyInBucket(Maps(cs), op);
    assert Maps(cs)[b := ToMap(chain)] == Maps(cs[b := chain]);
  }

  function AfterPut(cs: Table, e: Elem): Table
    requires 2 <= |cs|
  {
    var b := Index(e.id, |cs|);
    cs[b := HashChain.Put(cs[b], e)]
  }

  function AfterDel(cs: Table, id: Id): Table
    requires 2 <= |cs|
  {
    var b := Index(id, |cs|);
    cs[b := HashChain.Del(cs[b], id)]
  }

  lemma PutWhole(cs: Table, e: Elem)
    requires Sound(cs)
    ensures Sound(AfterPut(cs, e))
    ensures Apply(Whole(cs), Op.Put(e)) == (Whole(AfterPut(cs, e)), Result(true, None))
  {
    var b := Index(e.id, |cs|);
    PutIsPut(cs[b], e);
    InBucket(cs, Op.Put(e), HashChain.Put(cs[b], e));
  }

  lemma DelWhole(cs: Table, id: Id)
    requires Sound(cs)
    ensures Sound(AfterDel(cs, id))
    ensures var b := Index(id, |cs|);
            Apply(Whole(cs), Remove(id)) == (Whole(AfterDel(cs, id)), Result(Find(cs[b], id) < |cs[b]|, None))
  {
    var b := Index(id, |cs|);
    DelIsRemove(cs[b], id);
    ToMapFinds(cs[b], id);
    InBucket(cs, Remove(id), HashChain.Del(cs[b], id));
    if Find(cs[b], id) < |cs[b]| {
      forall i | 0 <= i < |cs[b]| - 1
        ensures Index(HashChain.Del(cs[b], id)[i].id, |cs|) == b
      {
        DelAt(cs[b], id, i);
      }
    }
  }

  lemma GetWhole(cs: Table, id: Id)
    requires Sound(cs)
    ensures var c := cs[Index(id, |cs|)]; var k := Find(c, id);
            Apply(Whole(cs), GetEqual(id)) == (Whole(cs), if k < |c| then Result(true, Some(c[k])) else Result(false, None))
  {
    var b := Index(id, |cs|);
    ToMapFinds(cs[b], id);
    InBucket(cs, GetEqual(id), cs[b]);
    assert cs[b := cs[b]] == cs;
  }

  /** The last bucket is never used. */
  lemma LastIsEmpty(cs: Table)
    requires Sound(cs)
    ensures cs[|cs| - 1] == []
  {
    assert cs[|cs| - 1] != [] ==> Index(cs[|cs| - 1][0].id, |cs|) == |cs| - 1;
  }

  lemma EmptyWhole(cs: Table)
    requires 2 <= |cs| && forall b :: 0 <= b < |cs| ==> cs[b] == []
    ensures Sound(cs) && Whole(cs) == map[]
  {
    UnionOfEmpty(Maps(cs));
  }

  // ---- The entries that are stored ----

  predicate Stored(cs: Table, e: Elem)
  {
    exists b :: 0 <= b < |cs| && e in cs[b]
  }

  ghost predicate HasKey(cs: Table, id: Id)
  {
    exists e :: Stored(cs, e) && e.id == id
  }

  lemma StoredInItsBucket(cs: Table, e: Elem)
    requires Sound(cs)
    ensures Stored(cs, e) <==> e in cs[Index(e.id, |cs|)]
  {
    if b :| 0 <= b < |cs| && e in cs[b] {
      var i :| 0 <= i < |cs[b]| && cs[b][i] == e;
      assert Index(cs[b][i].id, |cs|) == b;
    }
  }

  lemma KeyInItsBucket(cs: Table, id: Id)
    requires Sound(cs)
    ensures var c := cs[Index(id, |cs|)]; HasKey(cs, id) <==> Find(c, id) < |c|
  {
    var b := Index(id, |cs|);
    var k := Find(cs[b], id);
    if k < |cs[b]| {
      assert cs[b][k] in cs[b];
      assert Stored(cs, cs[b][k]);
    }
    if e :| Stored(cs, e) && e.id == id {
      StoredInItsBucket(cs, e);
      var i :| 0 <= i < |cs[b]| && cs[b][i] == e;
    }
  }

  lemma PutStores(cs: Table, e: Elem, x: Elem)
    requires Sound(cs)
    ensures Stored(AfterPut(cs, e), x) <==> x == e || (Stored(cs, x) && x.id != e.id)
  {
    PutWhole(cs, e);
    StoredInItsBucket(cs, x);
    StoredInItsBucket(AfterPut(cs, e), x);
    PutMembers(cs[Index(e.id, |cs|)], e, x);
  }

  lemma DelStores(cs: Table, id: Id, x: Elem)
    requires Sound(cs)
    ensures Stored(AfterDel(cs, id), x) <==> Stored(cs, x) && x.id != id
  {
    DelWhole(cs, id);
    StoredInItsBucket(cs, x);
    StoredInItsBucket(AfterDel(cs, id), x);
    DelMembers(cs[Index(id, |cs|)], id, x);
  }
}
