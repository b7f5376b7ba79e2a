/** The chain of one bucket of LockHashMap, in order, and what the three operations do to it. */
module HashChain {
  import opened Elements

  type Chain = seq<Elem>

  /** Each key at most once. */
  predicate KeysOnce(c: Chain)
  {
    forall i, j {:trigger c[i], c[j]} :: 0 <= i < j < |c| ==> c[i].id != c[j].id
  }

  /** The first position of the key, or the length. */
  function Find(c: Chain, id: Id): (k: nat)
    ensures k <= |c|
    ensures forall i :: 0 <= i < k ==> c[i].id != id
    ensures k < |c| ==> c[k].id == id
  {
    if c == [] || c[0].id == id then 0 else 1 + Find(c[1..], id)
  }

  lemma FindIs(c: Chain, id: Id, k: nat)
    requires k <= |c| && (forall i :: 0 <= i < k ==> c[i].id != id) && (k < |c| ==> c[k].id == id)
    ensures Find(c, id) == k
  {
  }

  /** Overwrite the value in place, or append at the end. */
  function Put(c: Chain, e: Elem): Chain
  {
    var k := Find(c, e.id);
    if k < |c| then c[k := e] else c + [e]
  }

  /** Take the key out and keep the rest in order. */
  function Del(c: Chain, id: Id): Chain
  {
    var k := Find(c, id);
    if k < |c| then c[..k] + c[k + 1..] else c
  }

  function ToMap(c: Chain): Contents
  {
    if c == [] then map[] else map[c[0].id := c[0].payload] + ToMap(c[1..])
  }

  lemma {:induction false} ToMapFinds(c: Chain, id: Id)
    requires KeysOnce(c)
    ensures id in ToMap(c) <==> Find(c, id) < |c|
    ensures id in ToMap(c) ==> ToMap(c)[id] == c[Find(c, id)].payload
    decreases |c|
  {
    if c != [] {
      ToMapFinds(c[1..], id);
    }
  }

  lemma PutIsPut(c: Chain, e: Elem)
    requires KeysOnce(c)
    ensures KeysOnce(Put(c, e)) && ToMap(Put(c, e)) == Apply(ToMap(c), Op.Put(e)).0
  {
    var k, c' := Find(c, e.id), Put(c, e);
    forall id
      ensures id in ToMap(c') <==> id in ToMap(c) || id == e.id
      ensures id in ToMap(c') ==> ToMap(c')[id] == if id == e.id then e.payload else ToMap(c)[id]
    {
      ToMapFinds(c, id);
      ToMapFinds(c', id);
      FindIs(c', id, if id == e.id || Find(c, id) < |c| then (if id == e.id then k else Find(c, id)) else |c'|);
    }
  }

  lemma DelAt(c: Chain, id: Id, i: nat)
    requires Find(c, id) < |c|
    ensures |Del(c, id)| == |c| - 1
    ensures i < |c| - 1 ==> Del(c, id)[i] == c[if i < Find(c, id) then i else i + 1]
  {
  }

  lemma DelOnce(c: Chain, id: Id)
    requires KeysOnce(c)
    ensures KeysOnce(Del(c, id))
  {
    var c' := Del(c, id);
    forall i, j | 0 <= i < j < |c'| && Find(c, id) < |c|
      ensures c'[i].id != c'[j].id
    {
      DelAt(c, id, i);
      DelAt(c, id, j);
    }
  }

  lemma DelFinds(c: Chain, id: Id, x: Id)
    requires KeysOnce(c) && Find(c, id) < |c|
    ensures var (c', j, k) := (Del(c, id), Find(c, x), Find(c, id));
            Find(c', x) == if x == id || j == |c| then |c'| else if j < k then j else j - 1
  {
    var c', j, k := Del(c, id), Find(c, x), Find(c, id);
    var p := if x == id || j == |c| then |c| - 1 else if j < k then j else j - 1;
    DelAt(c, id, p);
    forall i | 0 <= i < p
      ensures c'[i].id != x
    {
      DelAt(c, id, i);
    }
    FindIs(c', x, p);
  }

  lemma DelIsRemove(c: Chain, id: Id)
    requires KeysOnce(c)
    ensures KeysOnce(Del(c, id)) && ToMap(Del(c, id)) == Apply(ToMap(c), Remove(id)).0
  {
    var k, c' := Find(c, id), Del(c, id);
    ToMapFinds(c, id);
    DelOnce(c, id);
    if k < |c| {
      forall x
        ensures x in ToMap(c') <==> x in ToMap(c) && x != id
        ensures x in ToMap(c') ==> ToMap(c')[x] == ToMap(c)[x]
      {
        DelFinds(c, id, x);
        ToMapFinds(c, x);
        ToMapFinds(c', x);
      }
    }
  }

  /** The entries with other keys, in order. */
  function Others(c: Chain, id: Id): Chain
  {
    if c == [] then [] else (if c[0].id == id then [] else [c[0]]) + Others(c[1..], id)
  }

  lemma {:induction false} OthersAll(c: Chain, id: Id)
    requires Find(c, id) == |c|
    ensures Others(c, id) == c
    decreases |c|
  {
    if c != [] {
      OthersAll(c[1..], id);
    }
  }

  lemma HeadPut(c: Chain, e: Elem)
    requires c != [] && c[0].id == e.id
    ensures Put(c, e) == [e] + c[1..]
  {
    assert Find(c, e.id) == 0;
    assert c[0 := e] == [e] + c[1..];
  }

  lemma HeadDel(c: Chain, id: Id)
    requires c != [] && c[0].id == id
    ensures Del(c, id) == c[1..]
  {
    assert Find(c, id) == 0;
    assert c[..0] + c[1..] == c[1..];
  }

  lemma HeadOthers(c: Chain, id: Id)
    requires c != [] && c[0].id == id && forall i :: 0 < i < |c| ==> c[i].id != id
    ensures Others(c, id) == c[1..]
  {
    assert forall i :: 0 <= i < |c[1..]| ==> c[1..][i].id != id;
    FindIs(c[1..], id, |c| - 1);
    OthersAll(c[1..], id);
    assert [] + c[1..] == c[1..];
  }

  lemma HeadMiss(c: Chain, e: Elem)
    requires c != [] && c[0].id != e.id
    ensures Del(c, e.id) == [c[0]] + Del(c[1..], e.id)
    ensures Put(c, e) == [c[0]] + Put(c[1..], e)
  {
  }

  /** Deleting keeps all other entries and their order; putting keeps them too, and a key that is there keeps its place. */
  lemma {:induction false} OrderKept(c: Chain, e: Elem)
    requires KeysOnce(c)
    ensures Del(c, e.id) == Others(c, e.id)
    ensures Others(Put(c, e), e.id) == Others(c, e.id)
    ensures Find(Put(c, e), e.id) == Find(c, e.id)
    decreases |c|
  {
    if c == [] {
      assert Put(c, e) == [e] && [e][1..] == [];
    } else if c[0].id == e.id {
      HeadPut(c, e);
      HeadDel(c, e.id);
      HeadOthers(c, e.id);
      HeadOthers([e] + c[1..], e.id);
    } else {
      HeadMiss(c, e);
      OrderKept(c[1..], e);
      assert Put(c, e)[1..] == Put(c[1..], e);
    }
  }

  /** Putting stores the new entry instead of any old one with its key, and nothing else changes. */
  lemma PutMembers(c: Chain, e: Elem, x: Elem)
    requires KeysOnce(c)
    ensures x in Put(c, e) <==> x == e || (x in c && x.id != e.id)
  {
    var k, c' := Find(c, e.id), Put(c, e);
    assert c'[k] == e;
    if x in c && x.id != e.id {
      var i :| 0 <= i < |c| && c[i] == x;
      assert c'[i] == x;
    }
  }

  lemma DelMembers(c: Chain, id: Id, x: Elem)
    requires KeysOnce(c)
    ensures x in Del(c, id) <==> x in c && x.id != id
  {
    var k, c' := Find(c, id), Del(c, id);
    if x in c && x.id != id && k < |c| {
      var i :| 0 <= i < |c| && c[i] == x;
      assert c'[if i < k then i else i - 1] == x;
    }
  }
}
