/** A program that counts under a lock without further synchronisation (bench/test/TestLocks.cpp). */
module CountingClient {
  import opened Elements
  import opened FifoLock

  datatype Phase = Outside | Entered | Loaded | Stored

  /** `++counter` is a load and a store. */
  datatype Action = Lock(e: FifoLock.Event) | Load(t: nat) | Store(t: nat)

  datatype Client = Client(counter: nat, phase: seq<Phase>, local: seq<nat>)

  function Fresh(n: nat): Client
  {
    Client(0, seq(n, _ => Outside), seq(n, _ => 0))
  }

  function Who(a: Action): nat
  {
    match a
    case Lock(e) => e.t
    case Load(t) => t
    case Store(t) => t
  }

  /** What a thread does in its own order: enter, load, store, leave. Other threads are not looked at. */
  predicate Allowed(c: Client, a: Action)
  {
    && Who(a) < |c.phase| == |c.local|
    && match a
       case Lock(Doorway(t)) => c.phase[t] == Outside
       case Lock(Enter(t)) => c.phase[t] == Outside
       case Load(t) => c.phase[t] == Entered
       case Store(t) => c.phase[t] == Loaded
       case Lock(Exit(t)) => c.phase[t] == Stored
  }

  function Do(c: Client, a: Action): Client
    requires Allowed(c, a)
  {
    match a
    case Lock(Doorway(_)) => c
    case Lock(Enter(t)) => c.(phase := c.phase[t := Entered])
    case Load(t) => c.(local := c.local[t := c.counter], phase := c.phase[t := Loaded])
    case Store(t) => c.(counter := c.local[t] + 1, phase := c.phase[t := Stored])
    case Lock(Exit(t)) => c.(phase := c.phase[t := Outside])
  }

  function DoAll(c: Client, xs: seq<Action>): Option<Client>
    decreases |xs|
  {
    if xs == [] then Some(c) else if !Allowed(c, xs[0]) then None else DoAll(Do(c, xs[0]), xs[1..])
  }

  function LockPart(xs: seq<Action>): seq<FifoLock.Event>
  {
    if xs == [] then [] else (if xs[0].Lock? then [xs[0].e] else []) + LockPart(xs[1..])
  }

  function StoresBy(t: nat, xs: seq<Action>): nat
  {
    if xs == [] then 0 else (if xs[0] == Store(t) then 1 else 0) + StoresBy(t, xs[1..])
  }

  function Stores(xs: seq<Action>): nat
  {
    if xs == [] then 0 else (if xs[0].Store? then 1 else 0) + Stores(xs[1..])
  }

  /** Whoever is between entering and leaving is the one the lock has let in, and has loaded the current value. */
  predicate Guarded(c: Client, s: FifoLock.State)
  {
    && |c.phase| == |c.local|
    && forall t :: 0 <= t < |c.phase| && c.phase[t] != Outside ==>
         s.entered && s.queue != [] && s.queue[0] == t && (c.phase[t] == Loaded ==> c.local[t] == c.counter)
  }

  lemma {:induction false} CountFrom(c: Client, s: FifoLock.State, xs: seq<Action>)
    requires DoAll(c, xs).Some? && FifoLock.Run(s, LockPart(xs)).Some? && Guarded(c, s)
    ensures DoAll(c, xs).value.counter == c.counter + Stores(xs)
    decreases |xs|
  {
    if xs != [] {
      var c1 := Do(c, xs[0]);
      if xs[0].Lock? {
        assert LockPart(xs)[0] == xs[0].e && LockPart(xs)[1..] == LockPart(xs[1..]);
        CountFrom(c1, FifoLock.Next(s, xs[0].e), xs[1..]);
      } else {
        assert LockPart(xs) == LockPart(xs[1..]);
        CountFrom(c1, s, xs[1..]);
      }
    }
  }

  lemma {:induction false} StoresAddUp(n: nat, xs: seq<Action>)
    requires forall i :: 0 <= i < |xs| ==> Who(xs[i]) < n
    ensures Stores(xs) == SumOf(n, xs)
    decreases |xs|
  {
    if xs == [] {
      SumZero(n);
    } else {
      assert forall i :: 0 <= i < |xs| - 1 ==> xs[1..][i] == xs[i + 1];
      StoresAddUp(n, xs[1..]);
      SumStep(n, xs);
    }
  }

  function SumOf(n: nat, xs: seq<Action>): nat
  {
    if n == 0 then 0 else SumOf(n - 1, xs) + StoresBy(n - 1, xs)
  }

  lemma {:induction false} SumZero(n: nat)
    ensures SumOf(n, []) == 0
  {
    if n > 0 {
      SumZero(n - 1);
    }
  }

  lemma {:induction false} SumStep(n: nat, xs: seq<Action>)
    requires xs != []
    ensures SumOf(n, xs) == SumOf(n, xs[1..]) + if xs[0].Store? && xs[0].t < n then 1 else 0
  {
    if n > 0 {
      SumStep(n - 1, xs);
    }
  }

  lemma {:induction false} SumEven(n: nat, k: nat, xs: seq<Action>)
    requires forall t: nat :: t < n ==> StoresBy(t, xs) == k
    ensures SumOf(n, xs) == n * k
  {
    if n > 0 {
      SumEven(n - 1, k, xs);
    }
  }

  lemma {:induction false} ActorsKnown(c: Client, xs: seq<Action>)
    requires DoAll(c, xs).Some?
    ensures forall i :: 0 <= i < |xs| ==> Who(xs[i]) < |c.phase|
    decreases |xs|
  {
    if xs != [] {
      ActorsKnown(Do(c, xs[0]), xs[1..]);
      assert forall i :: 0 < i < |xs| ==> xs[i] == xs[1..][i - 1];
    }
  }

  /** No increment is lost under any lock that behaves like the specification: after `n` threads have counted
      `k` times each, in any interleaving, the counter is `n * k`. */
  lemma CountsUp(n: nat, k: nat, xs: seq<Action>)
    requires DoAll(Fresh(n), xs).Some? && FifoLock.Run(START, LockPart(xs)).Some?
    requires forall t: nat :: t < n ==> StoresBy(t, xs) == k
    ensures DoAll(Fresh(n), xs).value.counter == n * k
  {
    CountFrom(Fresh(n), START, xs);
    ActorsKnown(Fresh(n), xs);
    StoresAddUp(n, xs);
    SumEven(n, k, xs);
  }
}
