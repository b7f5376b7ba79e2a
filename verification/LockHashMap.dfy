/** The hash map of maps/LockHashMap.hpp on heap nodes: what each operation does between locking and unlocking
    the mutex of its bucket. LockHashMapRuns has the threads. */
module LockHashMap {
  import opened Elements
  import opened HashChain
  import opened Buckets
  import opened ChainTable

  class Node {
    const key: Id
    var value: int
    var next: Node?

    constructor (key: Id, value: int)
      ensures this.key == key && this.value == value && next == null
    {
      this.key := key;
      this.value := value;
      next := null;
    }
  }

  /** One bucket. `spine` is its chain of nodes, `repr` its objects. */
  class NodeHead {
    var head: Node?
    ghost var spine: seq<Node>
    ghost var repr: set<object>

    ghost predicate Valid()
      reads this, repr
    {
      && this in repr && (forall i :: 0 <= i < |spine| ==> spine[i] in repr)
      && head == (if |spine| == 0 then null else spine[0])
      && (forall i {:trigger spine[i].next} :: 0 <= i < |spine| ==> spine[i].next == if i + 1 < |spine| then spine[i + 1] else null)
      && (forall i, j {:trigger spine[i], spine[j]} :: 0 <= i < j < |spine| ==> spine[i] != spine[j] && spine[i].key != spine[j].key)
    }

    ghost function Entries(): (c: Chain)
      requires Valid()
      reads this, repr
      ensures |c| == |spine|
      ensures forall i :: 0 <= i < |spine| ==> c[i] == Elem(spine[i].key, spine[i].value)
    {
      seq(|spine|, i requires 0 <= i < |spine| && Valid() reads this, repr => Elem(spine[i].key, spine[i].value))
    }

    /** The chain, when the bucket is in order. */
    ghost function Look(): Option<Chain>
      reads this, repr
    {
      if Valid() then Some(Entries()) else None
    }

    constructor ()
      ensures Look() == Some([]) && fresh(repr)
    {
      head := null;
      spine := [];
      repr := {this};
    }

    method Put(key: Id, value: int)
      requires Look().Some?
      modifies repr
      ensures Look() == Some(HashChain.Put(old(Look()).value, Elem(key, value)))
      ensures fresh(repr - old(repr))
    {
      if head == null {
        head := new Node(key, value);
        spine, repr := [head], repr + {head};
        assert Entries() == old(Entries()) + [Elem(key, value)];
        return;
      }
      var current := head;
      ghost var k := 0;
      while true
        invariant 0 <= k < |spine| && current == spine[k]
        invariant forall i :: 0 <= i < k ==> spine[i].key != key
        decreases |spine| - k
      {
        if current.key == key {
          FindIs(Entries(), key, k);
          Overwrite(current, k, value);
          return;
        }
        if current.next != null {
          current := current.next;
          k := k + 1;
        } else {
          break;
        }
      }
      FindIs(Entries(), key, |spine|);
      Append(current, key, value);
    }

    /** `current` is at position `k`. */
    method Overwrite(current: Node, ghost k: nat, value: int)
      requires Valid() && k < |spine| && current == spine[k]
      modifies repr
      ensures Valid() && repr == old(repr) && Entries() == old(Entries())[k := Elem(current.key, value)]
    {
      current.value := value;
    }

    /** `current` is the last node. */
    method Append(current: Node, key: Id, value: int)
      requires Valid() && |spine| > 0 && current == spine[|spine| - 1]
      requires forall i :: 0 <= i < |spine| ==> spine[i].key != key
      modifies repr
      ensures Valid() && Entries() == old(Entries()) + [Elem(key, value)]
      ensures fresh(repr - old(repr))
    {
      var node := new Node(key, value);
      current.next := node;
      spine, repr := spine + [node], repr + {node};
    }

    method Get(key: Id) returns (found: bool, outValue: int)
      requires Look().Some?
      ensures var c := Look().value; var k := Find(c, key);
              if k < |c| then found && outValue == c[k].payload else !found
    {
      outValue := 0;
      var current := head;
      ghost var k := 0;
      while current != null
        invariant 0 <= k <= |spine| && current == (if k < |spine| then spine[k] else null)
        invariant forall i :: 0 <= i < k ==> spine[i].key != key
        decreases |spine| - k
      {
        if current.key == key {
          FindIs(Entries(), key, k);
          return true, current.value;
        }
        current := current.next;
        k := k + 1;
      }
      FindIs(Entries(), key, |spine|);
      found := false;
    }

    /** `current`, at position `k`, is taken out of the chain. */
    method Unlink(prev: Node?, current: Node, ghost k: nat)
      requires Valid() && k < |spine| && current == spine[k] && prev == (if k == 0 then null else spine[k - 1])
      modifies repr
      ensures Valid() && repr == old(repr)
      ensures Entries() == old(Entries()[..k] + Entries()[k + 1..])
    {
      if prev == null {
        head := current.next;
      } else {
        prev.next := current.next;
      }
      spine := spine[..k] + spine[k + 1..];
      assert forall i :: 0 <= i < |spine| ==> spine[i] == old(spine)[if i < k then i else i + 1];
      assert Valid();
    }

    method Del(key: Id) returns (found: bool)
      requires Look().Some?
      modifies repr
      ensures Look() == Some(HashChain.Del(old(Look()).value, key)) && repr == old(repr)
      ensures var c := old(Look()).value; found <==> Find(c, key) < |c|
    {
      var current := head;
      var prev: Node? := null;
      ghost var k := 0;
      while current != null
        invariant 0 <= k <= |spine| && current == (if k < |spine| then spine[k] else null)
        invariant prev == (if k == 0 then null else spine[k - 1])
        invariant forall i :: 0 <= i < k ==> spine[i].key != key
        decreases |spine| - k
      {
        if current.key == key {
          FindIs(Entries(), key, k);
          Unlink(prev, current, k);
          return true;
        }
        prev := current;
        current := current.next;
        k := k + 1;
      }
      FindIs(Entries(), key, |spine|);
      found := false;
    }
  }

  class Map {
    const buckets: seq<NodeHead>
    ghost var repr: set<object>

    /** The objects of the buckets belong to this map, and none to two buckets. */
    ghost predicate Owned()
      reads this, repr
    {
      && 2 <= |buckets| && this in repr
      && (forall b :: 0 <= b < |buckets| ==>
            && buckets[b] in repr && buckets[b] in buckets[b].repr
            && buckets[b].repr <= repr && this !in buckets[b].repr)
      && (forall b, c {:trigger buckets[b], buckets[c]} :: 0 <= b < c < |buckets| ==> buckets[b].repr !! buckets[c].repr)
    }

    ghost function Chains(): (cs: Table)
      requires Owned()
      reads this, repr
      ensures |cs| == |buckets|
      ensures forall b :: 0 <= b < |buckets| ==> cs[b] == buckets[b].Look().GetOr([])
    {
      seq(|buckets|, b requires Owned() && 0 <= b < |buckets| reads this, repr => buckets[b].Look().GetOr([]))
    }

    ghost predicate Valid()
      reads this, repr
    {
      Owned() && (forall b :: 0 <= b < |buckets| ==> buckets[b].Look().Some?) && Sound(Chains())
    }

    ghost function Contents(): Contents
      requires Valid()
      reads this, repr
    {
      Whole(Chains())
    }

    constructor (size: nat)
      requires 2 <= size
      ensures Valid() && fresh(repr) && |buckets| == size && Contents() == map[]
    {
      var bs: seq<NodeHead> := [];
      ghost var all: set<object> := {};
      while |bs| < size
        invariant |bs| <= size && fresh(all)
        invariant forall b :: 0 <= b < |bs| ==> bs[b] in bs[b].repr && bs[b].repr <= all && bs[b].Look() == Some([])
        invariant forall b, c {:trigger bs[b], bs[c]} :: 0 <= b < c < |bs| ==> bs[b].repr !! bs[c].repr
      {
        var bucket := new NodeHead();
        bs, all := bs + [bucket], all + bucket.repr;
      }
      buckets := bs;
      repr := all + {this};
      new;
      EmptyWhole(Chains());
    }

    /** The part of Put behind getNodeHead: the other buckets stay as they are. */
    method PutInBucket(b: nat, key: Id, value: int)
      requires Owned() && b < |buckets| && buckets[b].Look().Some?
      modifies repr
      ensures Owned() && fresh(repr - old(repr))
      ensures buckets[b].Look() == Some(HashChain.Put(old(buckets[b].Look()).value, Elem(key, value)))
      ensures forall c :: 0 <= c < |buckets| && c != b ==> buckets[c].Look() == old(buckets[c].Look())
    {
      buckets[b].Put(key, value);
      repr := repr + buckets[b].repr;
    }

    method Put(key: Id, value: int) returns (ok: bool)
      requires Valid()
      modifies repr
      ensures Valid() && fresh(repr - old(repr))
      ensures Chains() == AfterPut(old(Chains()), Elem(key, value))
      ensures forall b :: 0 <= b < |buckets| && b != key.hash % (|buckets| - 1) ==> Chains()[b] == old(Chains())[b]
      ensures (Contents(), Result(ok, None)) == Apply(old(Contents()), Op.Put(Elem(key, value)))
      ensures ok && forall x :: Stored(Chains(), x) <==> x == Elem(key, value) || (Stored(old(Chains()), x) && x.id != key)
    {
      ghost var before := Chains();
      PutWhole(before, Elem(key, value));
      PutInBucket(Index(key, |buckets|), key, value);
      assert Chains() == AfterPut(before, Elem(key, value));
      forall x
        ensures Stored(Chains(), x) <==> x == Elem(key, value) || (Stored(before, x) && x.id != key)
      {
        PutStores(before, Elem(key, value), x);
      }
      ok := true;
    }

    /** `outValue` is meaningful when `found` holds; C++ leaves the caller's variable alone otherwise. */
    method Get(key: Id) returns (found: bool, outValue: int)
      requires Valid()
      ensures Apply(Contents(), GetEqual(key)) == (Contents(), Result(found, if found then Some(Elem(key, outValue)) else None))
      ensures (found <==> HasKey(Chains(), key)) && (found ==> Stored(Chains(), Elem(key, outValue)))
    {
      var b := Index(key, |buckets|);
      found, outValue := buckets[b].Get(key);
      GetWhole(Chains(), key);
      KeyInItsBucket(Chains(), key);
    }

    method DelInBucket(b: nat, key: Id) returns (found: bool)
      requires Owned() && b < |buckets| && buckets[b].Look().Some?
      modifies repr
      ensures Owned() && repr == old(repr)
      ensures buckets[b].Look() == Some(HashChain.Del(old(buckets[b].Look()).value, key))
      ensures var c := old(buckets[b].Look()).value; found <==> Find(c, key) < |c|
      ensures forall c :: 0 <= c < |buckets| && c != b ==> buckets[c].Look() == old(buckets[c].Look())
    {
      found := buckets[b].Del(key);
    }

    method Del(key: Id) returns (found: bool)
      requires Valid()
      modifies repr
      ensures Valid() && repr == old(repr)
      ensures Chains() == AfterDel(old(Chains()), key)
      ensures forall b :: 0 <= b < |buckets| && b != key.hash % (|buckets| - 1) ==> Chains()[b] == old(Chains())[b]
      ensures (Contents(), Result(found, None)) == Apply(old(Contents()), Remove(key))
      ensures found <==> HasKey(old(Chains()), key)
      ensures forall x :: Stored(Chains(), x) <==> Stored(old(Chains()), x) && x.id != key
    {
      ghost var before := Chains();
      DelWhole(before, key);
      found := DelInBucket(Index(key, |buckets|), key);
      assert Chains() == AfterDel(before, key);
      KeyInItsBucket(before, key);
      forall x
        ensures Stored(Chains(), x) <==> Stored(before, x) && x.id != key
      {
        DelStores(before, key, x);
      }
    }
  }
}
