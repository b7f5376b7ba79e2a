/** The list sets on heap nodes, one caller at a time: what each call does to the nodes and what it answers when
    nobody interferes. ListSets has the threads. */
module SequentialListSets {
  import opened Elements
  import opened HashChain
  import opened SortedChain
  import opened ListSets

  class Node {
    const key: Usize
    const value: Option<Elem>
    var next: Node?
    var deleted: bool

    constructor Head()
      ensures key == 0 && value == None && next == null && !deleted
    {
      key, value, next, deleted := 0, None, null, false;
    }

    constructor Tail()
      ensures key == SIZE_MAX && value == None && next == null && !deleted
    {
      key, value, next, deleted := SIZE_MAX, None, null, false;
    }

    constructor (e: Elem)
      ensures key == e.id.hash && value == Some(e) && next == null && !deleted
    {
      key, value, next, deleted := e.id.hash, Some(e), null, false;
    }

    /** `t == current->value`. */
    predicate Holds(id: Id)
    {
      value.Some? && value.value.id == id
    }
  }

  /** A head, a tail, and nodes with elements in between. */
  ghost predicate Valued(q: seq<Node>)
  {
    && 2 <= |q| && q[0].value == None && q[|q| - 1].value == None && q[0].key == 0 && q[|q| - 1].key == SIZE_MAX
    && forall i {:trigger q[i].value} :: 0 < i < |q| - 1 ==> q[i].value.Some? && q[i].key == q[i].value.value.id.hash
  }

  ghost function EntriesOf(q: seq<Node>): (c: Chain)
    requires Valued(q)
    ensures |c| == |q| - 2
    ensures forall i :: 0 <= i < |c| ==> c[i] == q[i + 1].value.value
  {
    seq(|q| - 2, i requires 0 <= i < |q| - 2 => q[i + 1].value.value)
  }

  lemma WithNode(q: seq<Node>, k: nat, node: Node)
    requires Valued(q) && k < |q| - 1 && node.value.Some? && node.key == node.value.value.id.hash
    ensures var q' := q[..k + 1] + [node] + q[k + 1..];
            Valued(q') && EntriesOf(q') == EntriesOf(q)[..k] + [node.value.value] + EntriesOf(q)[k..]
  {
    var q' := q[..k + 1] + [node] + q[k + 1..];
    assert forall i :: 0 <= i < |q'| ==> q'[i] == if i <= k then q[i] else if i == k + 1 then node else q[i - 1];
  }

  lemma WithoutNode(q: seq<Node>, k: nat)
    requires Valued(q) && k < |q| - 2
    ensures var q' := q[..k + 1] + q[k + 2..];
            Valued(q') && EntriesOf(q') == EntriesOf(q)[..k] + EntriesOf(q)[k + 1..]
  {
    var q' := q[..k + 1] + q[k + 2..];
    assert forall i :: 0 <= i < |q'| ==> q'[i] == q[if i <= k then i else i + 1];
  }

  /** What becomes of the elements when a new one is inserted where the search for it stops. */
  lemma Inserts(c: Chain, e: Elem, k: nat)
    requires Sorted(c) && KeysOnce(c) && HashChain.Find(c, e.id) == |c| && k == Stop(c, e.id)
    ensures var c' := Insert(c, e);
            && c' == c[..k] + [e] + c[k..] && Sorted(c') && KeysOnce(c')
            && Apply(ToMap(c), Op.Add(e)) == (ToMap(c'), Result(true, None))
            && forall x :: x in c' <==> x in c || x == e
  {
    InsertAt(c, e, k);
    InsertKeeps(c, e);
    InsertIsAdd(c, e);
    forall x
      ensures x in Insert(c, e) <==> x in c || x == e
    {
      InsertMembers(c, e, x);
    }
  }

  lemma Deletes(c: Chain, id: Id)
    requires KeysOnce(c)
    ensures forall x :: x in Del(c, id) <==> x in c && x.id != id
  {
    forall x
      ensures x in Del(c, id) <==> x in c && x.id != id
    {
      DelMembers(c, id, x);
    }
  }

  class ListSet {
    const kind: Kind
    const head: Node
    ghost var spine: seq<Node>
    ghost var repr: set<object>

    ghost predicate Linked()
      reads this, repr
    {
      && this in repr && (forall i :: 0 <= i < |spine| ==> spine[i] in repr)
      && 2 <= |spine| && head == spine[0]
      && (forall i {:trigger spine[i].next} :: 0 <= i < |spine| ==> spine[i].next == if i + 1 < |spine| then spine[i + 1] else null)
      && (forall i, j {:trigger spine[i], spine[j]} :: 0 <= i < j < |spine| ==> spine[i] != spine[j])
      && (forall i {:trigger spine[i].deleted} :: 0 <= i < |spine| ==> !spine[i].deleted)
    }

    ghost function Entries(): Chain
      requires Valued(spine)
      reads this
    {
      EntriesOf(spine)
    }

    ghost predicate Valid()
      reads this, repr
    {
      Linked() && Valued(spine) && Sorted(Entries()) && KeysOnce(Entries())
    }

    ghost function Contents(): Contents
      requires Valid()
      reads this, repr
    {
      ToMap(Entries())
    }

    constructor (kind: Kind)
      ensures Valid() && fresh(repr) && this.kind == kind && Contents() == map[]
    {
      var first := new Node.Head();
      var last := new Node.Tail();
      this.kind := kind;
      head := first;
      spine := [first, last];
      repr := {this, first, last};
      new;
      first.next := last;
    }

    // ---- find ----

    method Walk(id: Id) returns (predecessor: Node, current: Node)
      requires Valid()
      ensures var k := Stop(Entries(), id); predecessor == spine[k] && current == spine[k + 1]
    {
      predecessor := head;
      current := predecessor.next;
      ghost var k := 0;
      while current.next != null && current.key <= id.hash && (id.hash != current.key || !current.Holds(id))
        invariant k < |spine| - 1 && predecessor == spine[k] && current == spine[k + 1]
        invariant forall i :: 0 <= i < k ==> Entries()[i].id.hash <= id.hash && Entries()[i].id != id
        decreases |spine| - k
      {
        predecessor := current;
        current := current.next;
        k := k + 1;
      }
      StopIs(Entries(), id, k);
    }

    /** The re-walk of OptimisticSet: no null pointer, and it ends at the predecessor. */
    method ReWalk(predecessor: Node, current: Node, ghost k: nat) returns (check: Node)
      requires Valid() && k < |spine| - 1 && predecessor == spine[k] && current == spine[k + 1]
      ensures check == predecessor
    {
      check := head;
      var next := check.next;
      ghost var j := 0;
      while check.key < predecessor.key || (check.key == predecessor.key && !SameValue(next.value, current.value))
        invariant 0 <= j <= k && check == spine[j] && next == spine[j + 1]
        decreases k - j
      {
        OnTheWay(k, j);
        check := next;
        next := check.next;
        j := j + 1;
      }
      OnTheWay(k, j);
    }

    /** The re-walk goes on exactly as long as it has not reached position `k`. */
    lemma OnTheWay(k: nat, j: nat)
      requires Valid() && j <= k < |spine| - 1
      ensures var (c, p) := (spine[j], spine[k]);
              j < k <==> c.key < p.key || (c.key == p.key && !SameValue(spine[j + 1].value, spine[k + 1].value))
    {
      if 0 < j < k {
        assert Entries()[j - 1].id.hash <= Entries()[k - 1].id.hash;
      }
      if j < k < |spine| - 2 {
        assert Entries()[j].id != Entries()[k].id;
      }
    }

    /** The loop of find: alone, the first attempt is validated. */
    method Find(id: Id) returns (predecessor: Node, current: Node)
      requires Valid()
      ensures var k := Stop(Entries(), id); predecessor == spine[k] && current == spine[k + 1]
    {
      ghost var k := Stop(Entries(), id);
      predecessor, current := head, head;
      var valid := false;
      while !valid
        invariant valid ==> predecessor == spine[k] && current == spine[k + 1]
        decreases !valid
      {
        predecessor, current := Walk(id);
        match kind {
          case Lazy => valid := !predecessor.deleted && !current.deleted && predecessor.next == current;
          case Optimistic =>
            var check := ReWalk(predecessor, current, k);
            valid := check == predecessor && predecessor.next == current;
          case FineGrained => valid := true;
        }
      }
    }

    // ---- The callbacks ----

    /** What the search found decides whether the element is there. */
    lemma Found(id: Id)
      requires Valid()
      ensures var k := Stop(Entries(), id);
              && (spine[k + 1].Holds(id) <==> id in Contents())
              && HashChain.Find(Entries(), id) == (if id in Contents() then k else |Entries()|)
              && (id in Contents() ==> Contents()[id] == Entries()[k].payload)
    {
      var c, k := Entries(), Stop(Entries(), id);
      ToMapFinds(c, id);
      if k < |c| && c[k].id == id {
        FindIs(c, id, k);
      } else {
        forall i | k <= i < |c|
          ensures c[i].id != id
        {
          assert c[k].id.hash <= c[i].id.hash;
        }
        FindIs(c, id, |c|);
      }
    }

    /** The only node that can hold the element is the one where the search stops. */
    lemma HoldsAt(id: Id)
      requires Valid()
      ensures var k := Stop(Entries(), id) + 1;
              && (spine[k].Holds(id) ==> 0 < k < |spine| - 1)
              && forall i :: 0 < i < |spine| - 1 && spine[i].Holds(id) ==> i == k
    {
      Found(id);
      var c, k := Entries(), Stop(Entries(), id);
      forall i | 0 < i < |spine| - 1 && spine[i].Holds(id)
        ensures i == k + 1
      {
        assert c[i - 1].id == id;
      }
    }

    method Contains(id: Id) returns (ok: bool)
      requires Valid()
      ensures (Contents(), Result(ok, None)) == Apply(Contents(), Op.Contains(id))
      ensures ok <==> exists i :: 0 < i < |spine| - 1 && spine[i].Holds(id)
    {
      var predecessor, current := Find(id);
      Found(id);
      HoldsAt(id);
      ok := current.Holds(id);
    }

    method GetEqual(id: Id) returns (found: Option<Elem>)
      requires Valid()
      ensures (Contents(), Result(found.Some?, found)) == Apply(Contents(), Op.GetEqual(id))
      ensures found.Some? <==> exists i :: 0 < i < |spine| - 1 && spine[i].Holds(id)
      ensures found.Some? ==> exists i :: 0 < i < |spine| - 1 && spine[i].Holds(id) && spine[i].value == found
    {
      var predecessor, current := Find(id);
      Found(id);
      HoldsAt(id);
      found := if current.Holds(id) then current.value else None;
    }

    method Add(e: Elem) returns (ok: bool)
      requires Valid()
      modifies repr
      ensures Valid() && fresh(repr - old(repr))
      ensures (Contents(), Result(ok, None)) == Apply(old(Contents()), Op.Add(e))
      ensures Entries() == if ok then Insert(old(Entries()), e) else old(Entries())
      ensures ok <==> !exists i :: 0 < i < old(|spine|) - 1 && old(spine)[i].Holds(e.id)
      ensures forall x :: x in Entries() <==> x in old(Entries()) || (ok && x == e)
    {
      var predecessor, current := Find(e.id);
      ghost var k := Stop(Entries(), e.id);
      Found(e.id);
      HoldsAt(e.id);
      if current.Holds(e.id) {
        return false;
      }
      Inserts(Entries(), e, k);
      InsertBehind(predecessor, e, k);
      ok := true;
    }

    method InsertBehind(predecessor: Node, e: Elem, ghost k: nat)
      requires Valid() && k == Stop(Entries(), e.id) && predecessor == spine[k]
      requires HashChain.Find(Entries(), e.id) == |Entries()|
      modifies repr
      ensures Valid() && fresh(repr - old(repr)) && Entries() == Insert(old(Entries()), e)
    {
      Inserts(Entries(), e, k);
      var newNode := LinkBehind(predecessor, e, k);
      WithNode(old(spine), k, newNode);
    }

    method LinkBehind(predecessor: Node, e: Elem, ghost k: nat) returns (newNode: Node)
      requires Linked() && k < |spine| - 1 && predecessor == spine[k]
      modifies repr
      ensures Linked() && fresh(repr - old(repr))
      ensures newNode.value == Some(e) && newNode.key == e.id.hash
      ensures spine == old(spine)[..k + 1] + [newNode] + old(spine)[k + 1..]
    {
      newNode := new Node(e);
      newNode.next := predecessor.next;
      predecessor.next := newNode;
      spine, repr := spine[..k + 1] + [newNode] + spine[k + 1..], repr + {newNode};
      assert forall i :: 0 <= i < |spine| ==>
               spine[i] == if i <= k then old(spine)[i] else if i == k + 1 then newNode else old(spine)[i - 1];
    }

    method Remove(id: Id) returns (ok: bool)
      requires Valid()
      modifies repr
      ensures Valid() && repr == old(repr)
      ensures (Contents(), Result(ok, None)) == Apply(old(Contents()), Op.Remove(id))
      ensures Entries() == Del(old(Entries()), id)
      ensures ok <==> exists i :: 0 < i < old(|spine|) - 1 && old(spine)[i].Holds(id)
      ensures forall x :: x in Entries() <==> x in old(Entries()) && x.id != id
    {
      var predecessor, current := Find(id);
      ghost var k := Stop(Entries(), id);
      Found(id);
      HoldsAt(id);
      Deletes(Entries(), id);
      if !current.Holds(id) {
        return false;
      }
      DelIsRemove(Entries(), id);
      TakeOut(predecessor, current, id, k);
      ok := true;
    }

    method TakeOut(predecessor: Node, current: Node, id: Id, ghost k: nat)
      requires Valid() && k < |spine| - 2 && predecessor == spine[k] && current == spine[k + 1]
      requires HashChain.Find(Entries(), id) == k
      modifies repr
      ensures Valid() && repr == old(repr) && Entries() == Del(old(Entries()), id)
    {
      DelOnce(Entries(), id);
      DelSorted(Entries(), id);
      Unlink(predecessor, current, k);
      WithoutNode(old(spine), k);
    }

    /** Only LazySet marks the node first. */
    method Unlink(predecessor: Node, current: Node, ghost k: nat)
      requires Linked() && k < |spine| - 2 && predecessor == spine[k] && current == spine[k + 1]
      modifies repr
      ensures Linked() && repr == old(repr) && spine == old(spine)[..k + 1] + old(spine)[k + 2..]
      ensures current.deleted == (old(current.deleted) || kind == Lazy)
    {
      if kind == Lazy {
        current.deleted := true;
      }
      predecessor.next := current.next;
      spine := spine[..k + 1] + spine[k + 2..];
      assert forall i :: 0 <= i < |spine| ==> spine[i] == old(spine)[if i <= k then i else i + 1];
    }
  }
}
