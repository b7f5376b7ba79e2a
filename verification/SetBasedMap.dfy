/** maps/SetBasedMap.hpp: one list set per bucket, of any of the three kinds, under any interleaving.
    A node compares by its key alone, so `put` is the set's `add`, which keeps a binding that is already there. */
module SetBasedMap {
  import opened Elements
  import opened Buckets
  import opened ListHeap
  import LS = ListSets
  import LI = ListSetInvariant
  import LP = ListSetSteps
  import LT = ListSetTheorems
  import AtomicMap

  /** Every thread has a place in every bucket's set; `at[t]` is the bucket of thread `t`'s latest call. */
  datatype State = State(buckets: seq<LS.State>, at: seq<nat>)

  function Init(kind: LS.Kind, lang: LS.Lang, size: nat, n: nat): State
  {
    State(seq(size, _ => LS.Init(kind, lang, n)), seq(n, _ => 0))
  }

  datatype Event = Invoke(t: nat, op: Op) | Move(t: nat)

  /** The step of the bucket's set behind an event of the map. */
  function BucketEvent(e: Event): LS.Event
  {
    match e
    case Invoke(t, op) => LS.Invoke(t, op)
    case Move(t) => LS.Move(t)
  }

  function Target(s: State, e: Event): nat
    requires 2 <= |s.buckets| && e.t < |s.at|
  {
    match e
    case Invoke(_, op) => Index(op.Key(), |s.buckets|)
    case Move(t) => s.at[t]
  }

  /** A thread starts a call when its last one has returned. */
  predicate Routed(s: State, e: Event)
  {
    && 2 <= |s.buckets| && e.t < |s.at| && s.at[e.t] < |s.buckets|
    && match e
       case Invoke(t, op) =>
         && (op.Add? || op.GetEqual? || op.Remove?)
         && t < |s.buckets[s.at[t]].threads| && s.buckets[s.at[t]].threads[t].pc == LS.Idle
       case Move(_) => true
  }

  predicate Enabled(s: State, e: Event)
  {
    Routed(s, e) && LS.Enabled(s.buckets[Target(s, e)], BucketEvent(e))
  }

  function Next(s: State, e: Event): State
    requires Enabled(s, e)
  {
    With(s, e, LS.Next(s.buckets[Target(s, e)], BucketEvent(e)))
  }

  /** The set of the event's bucket becomes `set'`. */
  function With(s: State, e: Event, set': LS.State): State
    requires Routed(s, e)
  {
    State(s.buckets[Target(s, e) := set'], s.at[e.t := Target(s, e)])
  }

  function Visible(s: State, e: Event): seq<Action>
    requires Enabled(s, e)
  {
    LS.Visible(s.buckets[Target(s, e)], BucketEvent(e))
  }

  function Run(s: State, es: seq<Event>): Option<(State, seq<Action>)>
    decreases |es|
  {
    if es == [] then Some((s, []))
    else if !Enabled(s, es[0]) then None
    else
      match Run(Next(s, es[0]), es[1..])
      case None => None
      case Some((b, seen)) => Some((b, Visible(s, es[0]) + seen))
  }

  // ---- What holds in every state ----

  ghost function Maps(s: State): seq<Contents>
  {
    seq(|s.buckets|, b requires 0 <= b < |s.buckets| => ContentsOf(s.buckets[b].heap))
  }

  predicate Busy(s: State, b: nat, t: nat)
    requires b < |s.buckets| && t < |s.buckets[b].threads|
  {
    s.buckets[b].threads[t].pc != LS.Idle
  }

  ghost function Good(): iset<LS.State>
  {
    iset x | LI.Inv(x)
  }

  ghost predicate BucketsOk(s: State)
  {
    forall b {:trigger s.buckets[b]} :: 0 <= b < |s.buckets| ==> s.buckets[b] in Good() && |s.buckets[b].threads| == |s.at|
  }

  /** A thread is at work in the bucket of its key and nowhere else. */
  ghost predicate ThreadsOk(s: State)
    requires 2 <= |s.buckets| && forall b :: 0 <= b < |s.buckets| ==> |s.buckets[b].threads| == |s.at|
  {
    && (forall t :: 0 <= t < |s.at| ==> s.at[t] < |s.buckets|)
    && forall b, t {:trigger Busy(s, b, t)} :: 0 <= b < |s.buckets| && 0 <= t < |s.at| && Busy(s, b, t) ==>
         b == s.at[t] == Index(s.buckets[b].threads[t].op.Key(), |s.buckets|)
  }

  ghost predicate Inv(s: State)
  {
    2 <= |s.buckets| && BucketsOk(s) && Placed(Maps(s)) && ThreadsOk(s)
  }

  // ---- The map that a state stands for ----

  ghost function Status(s: State, t: nat): AtomicMap.Status
    requires t < |s.at|
  {
    if s.at[t] < |s.buckets| && t < |s.buckets[s.at[t]].threads| then LT.AbstractThread(s.buckets[s.at[t]].threads[t])
    else AtomicMap.Out
  }

  ghost function Abstract(s: State): AtomicMap.State
  {
    AtomicMap.State(Union(Maps(s)), seq(|s.at|, t requires 0 <= t < |s.at| => Status(s, t)))
  }

  /** What a step of a bucket's set is for the whole map. */
  function AbstractEvent(s: State, e: Event): seq<AtomicMap.Event>
    requires Enabled(s, e)
  {
    LT.AbstractEvent(s.buckets[Target(s, e)], BucketEvent(e))
  }

  ghost function AbstractRun(s: State, es: seq<Event>): seq<AtomicMap.Event>
    requires Run(s, es).Some?
    decreases |es|
  {
    if es == [] then [] else AbstractEvent(s, es[0]) + AbstractRun(Next(s, es[0]), es[1..])
  }

  ghost predicate Moved(a: AtomicMap.State, es: seq<AtomicMap.Event>, a': AtomicMap.State)
  {
    if es == [] then a' == a else |es| == 1 && AtomicMap.Enabled(a, es[0]) && a' == AtomicMap.Next(a, es[0])
  }

  /** The threads of a bucket's set after a step. */
  ghost predicate ThreadsMoved(b: LS.State, e: LS.Event, b': LS.State)
  {
    && LP.OnlyMoves(b, b', e.t)
    && if e.Move? then b.threads[e.t].pc != LS.Idle && b'.threads[e.t].op == b.threads[e.t].op
       else b'.threads[e.t].op == e.op && b'.threads[e.t].pc == LS.Start
  }

  lemma BucketStep(b: LS.State, e: LS.Event, b': LS.State)
    requires b in Good() && LS.Enabled(b, e) && b' == LS.Next(b, e)
    ensures b' in Good() && ThreadsMoved(b, e, b')
  {
    LT.EventOk(b, e);
    if e.Move? {
      LP.MoveOk(b, e.t);
    }
  }

  lemma BucketMoves(b: LS.State, e: LS.Event, b': LS.State)
    requires b in Good() && LS.Enabled(b, e) && b' == LS.Next(b, e)
    ensures Moved(LT.Abstract(b), LT.AbstractEvent(b, e), LT.Abstract(b'))
  {
    match e {
      case Invoke(t, op) =>
        LT.InvokeRefines(b, t, op);
        AtomicMap.RunSingle(LT.Abstract(b), AtomicMap.Invoke(t, op));
      case Move(t) =>
        assert LI.ThreadOk(b.kind, b.lang, b.heap, b.threads[t]);
        LP.MoveOk(b, t);
        LT.FinishEnds(b, t);
        LT.MoveRefines(b, b', t);
    }
  }

  /** Before the step: the thread's status is that in the event's bucket, and a thread at work is in its key's bucket. */
  lemma StatusNow(s: State, e: Event)
    requires Inv(s) && Routed(s, e)
    ensures Target(s, e) < |s.buckets| && |s.buckets[Target(s, e)].threads| == |s.at|
    ensures var th := s.buckets[Target(s, e)].threads[e.t];
            && Status(s, e.t) == LT.AbstractThread(th)
            && (e.Move? && th.pc != LS.Idle ==> Index(th.op.Key(), |s.buckets|) == Target(s, e))
  {
    var b, t := Target(s, e), e.t;
    assert Busy(s, b, t) ==> b == s.at[t];
    assert e.Invoke? ==> !Busy(s, b, t);
  }

  lemma StatusMoves(s: State, e: Event, set': LS.State)
    requires Routed(s, e) && LP.OnlyMoves(s.buckets[Target(s, e)], set', e.t)
    ensures Abstract(With(s, e, set')).threads == Abstract(s).threads[e.t := LT.AbstractThread(set'.threads[e.t])]
  {
    var s' := With(s, e, set');
    forall u | 0 <= u < |s.at|
      ensures Status(s', u) == if u == e.t then LT.AbstractThread(set'.threads[u]) else Status(s, u)
    {
      assert u != e.t ==> s'.at[u] == s.at[u];
    }
  }

  lemma WithOk(s: State, e: Event, set': LS.State)
    requires Inv(s) && Routed(s, e) && ThreadsMoved(s.buckets[Target(s, e)], BucketEvent(e), set')
    ensures |With(s, e, set').buckets| == |s.buckets| && |With(s, e, set').at| == |s.at|
    ensures set' in Good() ==> BucketsOk(With(s, e, set')) && ThreadsOk(With(s, e, set'))
  {
    var b, t, s' := Target(s, e), e.t, With(s, e, set');
    assert e.Move? ==> Busy(s, b, t);
    if set' in Good() {
      forall c, u | 0 <= c < |s'.buckets| && 0 <= u < |s'.at| && Busy(s', c, u)
        ensures c == s'.at[u] == Index(s'.buckets[c].threads[u].op.Key(), |s'.buckets|)
      {
        if u != t || c != b {
          assert s'.buckets[c].threads[u] == s.buckets[c].threads[u];
          assert Busy(s, c, u);
        }
      }
    }
  }

  /** The same step, of the whole map: the other buckets hold other keys. */
  lemma LiftMoved(ms: seq<Contents>, threads: seq<AtomicMap.Status>, b: nat, t: nat,
                  ba: AtomicMap.State, es: seq<AtomicMap.Event>, ba': AtomicMap.State)
    requires Placed(ms) && b < |ms| && ms[b] == ba.contents && t < |threads| && t < |ba.threads| && threads[t] == ba.threads[t]
    requires Moved(ba, es, ba') && (es != [] ==> es[0].t == t)
    requires es == [AtomicMap.Commit(t)] && ba.threads[t].Pending? ==> Index(ba.threads[t].op.Key(), |ms|) == b
    ensures |ba'.threads| == |ba.threads| && Placed(ms[b := ba'.contents])
    ensures Moved(AtomicMap.State(Union(ms), threads), es,
                  AtomicMap.State(Union(ms[b := ba'.contents]), threads[t := ba'.threads[t]]))
  {
    assert ms[b := ba.contents] == ms;
    if es == [AtomicMap.Commit(t)] {
      ApplyInBucket(ms, ba.threads[t].op);
    } else if es == [] {
      assert threads[t := ba.threads[t]] == threads;
    }
  }

  lemma Lift(s: State, e: Event, set': LS.State, es: seq<AtomicMap.Event>)
    requires Routed(s, e) && Placed(Maps(s)) && LP.OnlyMoves(s.buckets[Target(s, e)], set', e.t)
    requires var th := s.buckets[Target(s, e)].threads[e.t];
             && Status(s, e.t) == LT.AbstractThread(th)
             && (e.Move? && th.pc != LS.Idle ==> Index(th.op.Key(), |s.buckets|) == Target(s, e))
    requires Moved(LT.Abstract(s.buckets[Target(s, e)]), es, LT.Abstract(set')) && (es != [] ==> es[0].t == e.t)
    requires e.Invoke? ==> es == [AtomicMap.Invoke(e.t, e.op)]
    ensures Placed(Maps(With(s, e, set'))) && Moved(Abstract(s), es, Abstract(With(s, e, set')))
  {
    var b := Target(s, e);
    StatusMoves(s, e, set');
    assert Maps(With(s, e, set')) == Maps(s)[b := ContentsOf(set'.heap)];
    LiftMoved(Maps(s), Abstract(s).threads, b, e.t, LT.Abstract(s.buckets[b]), es, LT.Abstract(set'));
  }

  lemma EventOk(s: State, e: Event)
    requires Inv(s) && Enabled(s, e)
    ensures Inv(Next(s, e)) && |Next(s, e).at| == |s.at| && |Next(s, e).buckets| == |s.buckets|
    ensures Moved(Abstract(s), AbstractEvent(s, e), Abstract(Next(s, e)))
  {
    var b := Target(s, e);
    var set' := LS.Next(s.buckets[b], BucketEvent(e));
    BucketStep(s.buckets[b], BucketEvent(e), set');
    BucketMoves(s.buckets[b], BucketEvent(e), set');
    WithOk(s, e, set');
    StatusNow(s, e);
    Lift(s, e, set', AbstractEvent(s, e));
  }

  lemma {:induction false} RunRefines(s: State, es: seq<Event>)
    requires Inv(s) && Run(s, es).Some?
    ensures var (s', seen) := Run(s, es).value;
            && Inv(s') && |s'.at| == |s.at| && |s'.buckets| == |s.buckets|
            && AtomicMap.Run(Abstract(s), AbstractRun(s, es)) == Some((Abstract(s'), seen))
    decreases |es|
  {
    if es != [] {
      var s1 := Next(s, es[0]);
      EventOk(s, es[0]);
      EventRefines(s, es[0]);
      RunRefines(s1, es[1..]);
      AtomicMap.RunConcat(Abstract(s), AbstractEvent(s, es[0]), AbstractRun(s1, es[1..]));
    }
  }

  /** An event shows callers the same in the bucket's set and in the whole map. */
  lemma MovedRuns(a: AtomicMap.State, es: seq<AtomicMap.Event>, a': AtomicMap.State, ba: AtomicMap.State)
    requires Moved(a, es, a') && AtomicMap.Run(ba, es).Some?
    requires es != [] ==> es[0].t < |ba.threads| && a.threads[es[0].t] == ba.threads[es[0].t]
    ensures AtomicMap.Run(a, es) == Some((a', AtomicMap.Run(ba, es).value.1))
  {
    if es != [] {
      assert es == [es[0]];
      AtomicMap.RunSingle(a, es[0]);
      AtomicMap.RunSingle(ba, es[0]);
    }
  }

  /** What an event shows is what it shows of the bucket's set. */
  lemma EventSeen(s: State, e: Event)
    requires Inv(s) && Enabled(s, e)
    ensures var (ba, es) := (LT.Abstract(s.buckets[Target(s, e)]), AbstractEvent(s, e));
            && AtomicMap.Run(ba, es).Some? && AtomicMap.Run(ba, es).value.1 == Visible(s, e)
            && (es != [] ==> es[0].t == e.t < |ba.threads|) && Abstract(s).threads[e.t] == ba.threads[e.t]
  {
    StatusNow(s, e);
    LT.EventRefines(s.buckets[Target(s, e)], BucketEvent(e));
  }

  lemma EventRefines(s: State, e: Event)
    requires Inv(s) && Enabled(s, e)
    ensures AtomicMap.Run(Abstract(s), AbstractEvent(s, e)) == Some((Abstract(Next(s, e)), Visible(s, e)))
  {
    EventOk(s, e);
    EventSeen(s, e);
    MovedRuns(Abstract(s), AbstractEvent(s, e), Abstract(Next(s, e)), LT.Abstract(s.buckets[Target(s, e)]));
  }

  lemma InitOk(kind: LS.Kind, lang: LS.Lang, size: nat, n: nat)
    requires 2 <= size
    ensures Inv(Init(kind, lang, size, n)) && Abstract(Init(kind, lang, size, n)) == AtomicMap.Init(n)
  {
    var s0 := Init(kind, lang, size, n);
    LI.InitInv(kind, lang, n);
    assert ContentsOf(LS.Init(kind, lang, n).heap) == map[] by {
      assert forall i, id :: !Live(EmptyList(), i, id);
    }
    UnionOfEmpty(Maps(s0));
    assert forall t :: 0 <= t < n ==> Status(s0, t) == AtomicMap.Out;
    assert Abstract(s0).threads == AtomicMap.Init(n).threads;
  }

  /** Whatever the kind of list set, a SetBasedMap is linearizable: a map with put-if-absent, get and remove
      has a run with the same calls and answers in the same order, ending with the same bindings. */
  lemma Linearizable(kind: LS.Kind, lang: LS.Lang, size: nat, n: nat, es: seq<Event>)
    requires 2 <= size && Run(Init(kind, lang, size, n), es).Some?
    ensures var s0 := Init(kind, lang, size, n); var (s, seen) := Run(s0, es).value;
            AtomicMap.Run(AtomicMap.Init(n), AbstractRun(s0, es)) == Some((Abstract(s), seen))
  {
    InitOk(kind, lang, size, n);
    RunRefines(Init(kind, lang, size, n), es);
  }

  lemma InPlace(s: State, b: nat, id: Id)
    requires Placed(Maps(s)) && b < |s.buckets| && id in ContentsOf(s.buckets[b].heap)
    ensures b == id.hash % (|s.buckets| - 1)
  {
    var ms := Maps(s);
    assert |ms| == |s.buckets| && id in ms[b] && Index(id, |ms|) == b;
  }

  lemma RunPlaced(s: State, es: seq<Event>)
    requires Inv(s) && Run(s, es).Some?
    ensures |Run(s, es).value.0.buckets| == |s.buckets| && Placed(Maps(Run(s, es).value.0))
  {
    RunRefines(s, es);
  }

  /** In every run, an element is in the bucket of its hash modulo `size - 1` and in no other. */
  lemma ElementsStayPut(kind: LS.Kind, lang: LS.Lang, size: nat, n: nat, es: seq<Event>, b: nat, id: Id)
    requires 2 <= size && Run(Init(kind, lang, size, n), es).Some?
    ensures var s := Run(Init(kind, lang, size, n), es).value.0;
            |s.buckets| == size && (b < size && id in ContentsOf(s.buckets[b].heap) ==> b == id.hash % (size - 1))
  {
    InitOk(kind, lang, size, n);
    RunPlaced(Init(kind, lang, size, n), es);
    var s := Run(Init(kind, lang, size, n), es).value.0;
    if b < size && id in ContentsOf(s.buckets[b].heap) {
      InPlace(s, b, id);
    }
  }
}
