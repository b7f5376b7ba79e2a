/** threadlocal/ThreadLocal.hpp: one slot per thread id modulo the number of slots. MCSLock, CLHLock and ALock keep
    their per-thread nodes here. */
module ThreadLocal {
  import opened Elements

  /** What the slots hold: nothing until `get` or `set` is called. */
  type Slots<T> = seq<Option<T>>

  class Cells<T> {
    const dataArr: array<T>
    const setArr: array<bool>
    const empty: T

    ghost predicate Valid()
      reads this
    {
      0 < dataArr.Length == setArr.Length && dataArr as object != setArr as object
    }

    ghost function Contents(): (s: Slots<T>)
      requires Valid()
      reads this, dataArr, setArr
      ensures |s| == dataArr.Length
      ensures forall i :: 0 <= i < |s| ==> s[i] == if setArr[i] then Some(dataArr[i]) else None
    {
      seq(dataArr.Length, i requires Valid() && 0 <= i < dataArr.Length reads this, dataArr, setArr =>
        if setArr[i] then Some(dataArr[i]) else None)
    }

    /** `empty` is the value of `T()`. */
    constructor (maxThreads: nat, empty: T)
      requires 0 < maxThreads
      ensures Valid() && fresh(dataArr) && fresh(setArr)
      ensures this.empty == empty && |Contents()| == maxThreads && forall i :: 0 <= i < maxThreads ==> Contents()[i] == None
    {
      this.empty := empty;
      dataArr := new T[maxThreads](_ => empty);
      setArr := new bool[maxThreads];
      new;
      for i := 0 to maxThreads
        invariant forall j :: 0 <= j < i ==> !setArr[j]
      {
        setArr[i] := false;
      }
    }

    function GetIdx(thread: nat): (i: nat)
      requires Valid()
      reads this
      ensures i < dataArr.Length
    {
      thread % dataArr.Length
    }

    method Get(thread: nat) returns (val: T)
      requires Valid()
      modifies dataArr, setArr
      ensures Contents() == AfterGet(old(Contents()), empty, thread)
      ensures val == old(Contents())[thread % |old(Contents())|].GetOr(empty)
    {
      var idx := GetIdx(thread);
      if !setArr[idx] {
        dataArr[idx] := empty;
        setArr[idx] := true;
      }
      val := dataArr[idx];
    }

    method IsSet(thread: nat) returns (ok: bool)
      requires Valid()
      ensures ok <==> Contents()[thread % |Contents()|].Some?
    {
      var idx := GetIdx(thread);
      ok := setArr[idx];
    }

    method Set(thread: nat, val: T)
      requires Valid()
      modifies dataArr, setArr
      ensures Contents() == AfterSet(old(Contents()), thread, val)
    {
      var idx := GetIdx(thread);
      setArr[idx] := true;
      dataArr[idx] := val;
    }
  }

  function AfterSet<T>(s: Slots<T>, thread: nat, val: T): Slots<T>
    requires |s| > 0
  {
    s[thread % |s| := Some(val)]
  }

  /** Reading an empty slot fills it. */
  function AfterGet<T>(s: Slots<T>, empty: T, thread: nat): Slots<T>
    requires |s| > 0
  {
    s[thread % |s| := Some(s[thread % |s|].GetOr(empty))]
  }

  /** One thread using its cell. */
  datatype Access<T> = Set(thread: nat, val: T) | Get(thread: nat)

  function After<T>(s: Slots<T>, empty: T, xs: seq<Access<T>>): (s': Slots<T>)
    requires |s| > 0
    ensures |s'| == |s|
  {
    if xs == [] then s
    else
      var before := After(s, empty, xs[..|xs| - 1]);
      match xs[|xs| - 1]
      case Set(thread, val) => AfterSet(before, thread, val)
      case Get(thread) => AfterGet(before, empty, thread)
  }

  /** What the cell of a thread should hold: what the thread itself put there last. */
  function Own<T>(xs: seq<Access<T>>, empty: T, thread: nat): Option<T>
  {
    if xs == [] then None
    else
      var before := Own(xs[..|xs| - 1], empty, thread);
      match xs[|xs| - 1]
      case Set(u, val) => if u == thread then Some(val) else before
      case Get(u) => if u == thread then Some(before.GetOr(empty)) else before
  }

  function Fresh<T>(size: nat): Slots<T>
  {
    seq(size, _ => None)
  }

  ghost predicate UsedBy<T>(xs: seq<Access<T>>, threads: set<nat>)
  {
    forall i :: 0 <= i < |xs| ==> xs[i].thread in threads
  }

  ghost predicate Private<T>(size: nat, empty: T, xs: seq<Access<T>>, thread: nat)
    requires size > 0
  {
    After(Fresh(size), empty, xs)[thread % size] == Own(xs, empty, thread)
  }

  lemma {:induction false} OwnValue<T>(size: nat, empty: T, threads: set<nat>, thread: nat, xs: seq<Access<T>>)
    requires size > 0 && UsedBy(xs, threads)
    requires forall u :: u in threads && u != thread ==> u % size != thread % size
    ensures Private(size, empty, xs, thread)
    decreases |xs|
  {
    if xs != [] {
      assert xs[|xs| - 1].thread in threads;
      OwnValue(size, empty, threads, thread, xs[..|xs| - 1]);
    }
  }

  /** The first access to a slot, by another thread that shares it. */
  lemma SharedSlot<T>(size: nat, empty: T, thread: nat, u: nat, xs: seq<Access<T>>)
    requires size > 0 && u != thread && u % size == thread % size && xs == [Get(u)]
    ensures !Private(size, empty, xs, thread)
  {
    var before := xs[..|xs| - 1];
    assert before == [];
    assert After(Fresh(size), empty, before) == Fresh(size) && Own(before, empty, thread) == None;
    assert xs[|xs| - 1].Get? && xs[|xs| - 1].thread == u;
    assert After(Fresh(size), empty, xs) == AfterGet(After(Fresh(size), empty, before), empty, u);
    assert Own(xs, empty, thread) == Own(before, empty, thread);
  }

  /** A cell is private to its thread, whatever the threads do, exactly when no other thread's id has the same
      remainder; only then is the storage thread local. */
  lemma PrivateIff<T>(size: nat, empty: T, threads: set<nat>, thread: nat)
    requires size > 0
    ensures (forall xs: seq<Access<T>> :: UsedBy(xs, threads) ==> Private(size, empty, xs, thread))
            <==> (forall u :: u in threads && u != thread ==> u % size != thread % size)
  {
    if forall u :: u in threads && u != thread ==> u % size != thread % size {
      forall xs: seq<Access<T>> | UsedBy(xs, threads)
        ensures Private(size, empty, xs, thread)
      {
        OwnValue(size, empty, threads, thread, xs);
      }
    } else {
      var u :| u in threads && u != thread && u % size == thread % size;
      var xs: seq<Access<T>> := [Get(u)];
      assert UsedBy(xs, threads);
      SharedSlot(size, empty, thread, u, xs);
    }
  }
}
