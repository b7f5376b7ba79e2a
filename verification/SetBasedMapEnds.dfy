/** SetBasedMap's calls come to their end, because those of its list sets do. */
module SetBasedMapEnds {
  import opened Elements
  import opened Sums
  import opened SetBasedMap
  import LS = ListSets
  import LI = ListSetInvariant
  import LT = ListSetTheorems
  import T = Termination
  import N = ReWalkNull

  predicate UsesOnly(es: seq<Event>, ids: set<Id>)
  {
    forall i :: 0 <= i < |es| && es[i].Invoke? ==> es[i].op.Key() in ids
  }

  /** No set follows a null pointer. */
  ghost predicate AllSafe(s: State, ids: set<Id>)
  {
    Inv(s) && forall b {:trigger s.buckets[b]} :: 0 <= b < |s.buckets| ==> s.buckets[b] in T.Safe(ids)
  }

  lemma SetSafe(x: LS.State, e: LS.Event, ids: set<Id>)
    requires x in T.Safe(ids) && LS.Enabled(x, e) && (e.Invoke? ==> e.op.Key() in ids)
    ensures LS.Next(x, e) in T.Safe(ids)
  {
    match e
    case Move(t) => T.NoNullsKept(x, t, ids);
    case Invoke(t, op) =>
      LT.InvokeOk(x, t, op);
      if x.kind == LS.Optimistic {
        N.IdsKept(x, e, ids);
      }
  }

  lemma EventSafe(s: State, e: Event, ids: set<Id>)
    requires AllSafe(s, ids) && Enabled(s, e) && (e.Invoke? ==> e.op.Key() in ids)
    ensures AllSafe(Next(s, e), ids)
    ensures |Next(s, e).buckets| == |s.buckets| && |Next(s, e).at| == |s.at|
  {
    EventOk(s, e);
    SetSafe(s.buckets[Target(s, e)], BucketEvent(e), ids);
  }

  lemma {:induction false} RunSafe(s: State, es: seq<Event>, ids: set<Id>)
    requires AllSafe(s, ids) && Run(s, es).Some? && UsesOnly(es, ids)
    ensures var s' := Run(s, es).value.0; AllSafe(s', ids) && |s'.buckets| == |s.buckets| && |s'.at| == |s.at|
    decreases |es|
  {
    if es != [] {
      EventSafe(s, es[0], ids);
      RunSafe(Next(s, es[0]), es[1..], ids);
    }
  }

  lemma InitSafe(kind: LS.Kind, lang: LS.Lang, size: nat, n: nat, ids: set<Id>)
    requires 2 <= size && (kind == LS.Optimistic ==> N.OneLargest(ids))
    ensures AllSafe(Init(kind, lang, size, n), ids)
  {
    InitOk(kind, lang, size, n);
    LI.InitInv(kind, lang, n);
    assert LS.Init(kind, lang, n) in T.Safe(ids);
  }

  // ---- All calls together ----

  /** No set can ever have more than `size` nodes by the calls under way. */
  ghost predicate Fits(s: State, size: nat)
  {
    forall b {:trigger s.buckets[b]} :: 0 <= b < |s.buckets| ==>
      |s.buckets[b].heap| + Sum(T.AllChanges(s.buckets[b])) <= size
  }

  ghost function Totals(s: State, size: nat): seq<nat>
  {
    seq(|s.buckets|, b requires 0 <= b < |s.buckets| => T.Total(s.buckets[b], size))
  }

  ghost function SafeMaps(ids: set<Id>): iset<State>
  {
    iset s | AllSafe(s, ids)
  }

  /** The same, with room for what the calls under way may add. */
  ghost function Roomy(ids: set<Id>, size: nat): iset<State>
  {
    iset s | AllSafe(s, ids) && Fits(s, size)
  }

  lemma TotalsFall(s: State, s': State, b: nat, size: nat)
    requires b < |s.buckets| == |s'.buckets| && s'.buckets == s.buckets[b := s'.buckets[b]]
    requires T.Total(s'.buckets[b], size) < T.Total(s.buckets[b], size)
    ensures Sum(Totals(s', size)) < Sum(Totals(s, size))
  {
    SumChange(Totals(s, size), Totals(s', size), b);
  }

  /** What the step does to the set of its bucket. */
  lemma SetCounts(s: State, t: nat, ids: set<Id>, size: nat)
    requires s in Roomy(ids, size) && Enabled(s, Move(t))
    ensures var (b, s') := (s.at[t], Next(s, Move(t)));
            && b < |s.buckets| == |s'.buckets| && s'.buckets == s.buckets[b := s'.buckets[b]]
            && |s'.buckets[b].heap| + Sum(T.AllChanges(s'.buckets[b])) <= size
            && T.Total(s'.buckets[b], size) < T.Total(s.buckets[b], size)
  {
    T.OneCounts(s.buckets[s.at[t]], t, ids, size);
  }

  lemma StaysRoomy(s: State, s': State, b: nat, ids: set<Id>, size: nat)
    requires s in Roomy(ids, size) && s' in SafeMaps(ids)
    requires b < |s.buckets| == |s'.buckets| && s'.buckets == s.buckets[b := s'.buckets[b]]
    requires |s'.buckets[b].heap| + Sum(T.AllChanges(s'.buckets[b])) <= size
    ensures s' in Roomy(ids, size)
  {
  }

  lemma StaysSafe(s: State, t: nat, ids: set<Id>, size: nat)
    requires s in Roomy(ids, size) && Enabled(s, Move(t))
    ensures Next(s, Move(t)) in SafeMaps(ids)
    ensures |Next(s, Move(t)).buckets| == |s.buckets| && |Next(s, Move(t)).at| == |s.at|
  {
    EventSafe(s, Move(t), ids);
  }

  lemma StepCounts(s: State, t: nat, ids: set<Id>, size: nat)
    requires s in Roomy(ids, size) && Enabled(s, Move(t))
    ensures var s' := Next(s, Move(t));
            && s' in Roomy(ids, size) && |s'.buckets| == |s.buckets| && |s'.at| == |s.at|
            && Sum(Totals(s', size)) < Sum(Totals(s, size))
  {
    var b, s' := s.at[t], Next(s, Move(t));
    StaysSafe(s, t, ids, size);
    SetCounts(s, t, ids, size);
    StaysRoomy(s, s', b, ids, size);
    TotalsFall(s, s', b, size);
  }

  /** A schedule of steps of calls under way. */
  predicate Works(s: State, us: seq<nat>)
    decreases |us|
  {
    us == [] || (Enabled(s, Move(us[0])) && Works(Next(s, Move(us[0])), us[1..]))
  }

  function Moves(us: seq<nat>): (es: seq<Event>)
    ensures |es| == |us| && forall i :: 0 <= i < |us| ==> es[i] == Move(us[i])
  {
    seq(|us|, i requires 0 <= i < |us| => Move(us[i]))
  }

  lemma RunFirst(s: State, us: seq<nat>)
    requires us != [] && Enabled(s, Move(us[0])) && Run(Next(s, Move(us[0])), Moves(us[1..])).Some?
    ensures Run(s, Moves(us)).Some?
    ensures Run(s, Moves(us)).value.0 == Run(Next(s, Move(us[0])), Moves(us[1..])).value.0
  {
    assert Moves(us)[1..] == Moves(us[1..]);
  }

  lemma {:induction false} WorkBounded(s: State, us: seq<nat>, ids: set<Id>, size: nat)
    requires s in Roomy(ids, size) && Works(s, us)
    ensures Run(s, Moves(us)).Some?
    ensures var s' := Run(s, Moves(us)).value.0;
            && s' in Roomy(ids, size) && |s'.buckets| == |s.buckets| && |s'.at| == |s.at|
            && |us| + Sum(Totals(s', size)) <= Sum(Totals(s, size))
    decreases |us|
  {
    if us != [] {
      StepCounts(s, us[0], ids, size);
      WorkBounded(Next(s, Move(us[0])), us[1..], ids, size);
      RunFirst(s, us);
    }
  }

  /** No call can go on. */
  predicate AtRest(s: State)
  {
    forall t: nat :: t < |s.at| ==> !Enabled(s, Move(t))
  }

  /** A thread at work in a set is at work there in the map. */
  lemma EnabledInMap(s: State, b: nat, t: nat)
    requires Inv(s) && b < |s.buckets| && LS.Enabled(s.buckets[b], LS.Move(t))
    ensures t < |s.at| && Enabled(s, Move(t))
  {
    assert Busy(s, b, t);
  }

  ghost predicate AllIdle(s: State)
  {
    forall b: nat, t: nat :: b < |s.buckets| && t < |s.at| ==> t < |s.buckets[b].threads| && !Busy(s, b, t)
  }

  lemma RestIsIdle(s: State, ids: set<Id>)
    requires s in SafeMaps(ids) && AtRest(s)
    ensures AllIdle(s)
  {
    forall b: nat | b < |s.buckets|
      ensures T.AtRest(s.buckets[b])
    {
      forall t: nat | t < |s.buckets[b].threads|
        ensures !LS.Enabled(s.buckets[b], LS.Move(t))
      {
        if LS.Enabled(s.buckets[b], LS.Move(t)) {
          EnabledInMap(s, b, t);
        }
      }
    }
    forall b: nat | b < |s.buckets|
      ensures forall t: nat :: t < |s.at| ==> t < |s.buckets[b].threads| && !Busy(s, b, t)
    {
      T.AllRest(s.buckets[b], ids);
    }
  }

  lemma RoomySafe(s: State, ids: set<Id>, size: nat)
    requires s in Roomy(ids, size)
    ensures s in SafeMaps(ids)
  {
  }

  ghost predicate NoLarger(s: State, largest: nat)
  {
    forall b :: 0 <= b < |s.buckets| ==> |s.buckets[b].heap| <= largest
  }

  lemma RoomFor(s: State, ids: set<Id>, largest: nat, size: nat)
    requires s in SafeMaps(ids) && NoLarger(s, largest) && size == largest + 2 * |s.at|
    ensures s in Roomy(ids, size)
  {
    forall b | 0 <= b < |s.buckets|
      ensures Sum(T.AllChanges(s.buckets[b])) <= 2 * |s.at|
    {
      T.FewChanges(s.buckets[b]);
    }
  }

  /** The schedules that run in no more than `bound` steps and, if they cannot be continued then, let every call return. */
  ghost function EndWithin(s: State, bound: nat): iset<seq<nat>>
  {
    iset us: seq<nat> | |us| <= bound && Run(s, Moves(us)).Some? && Done(s, Run(s, Moves(us)).value.0)
  }

  ghost predicate Done(s: State, s': State)
  {
    |s'.at| == |s.at| && (AtRest(s') ==> AllIdle(s'))
  }

  lemma WorkEnds(s: State, us: seq<nat>, ids: set<Id>, size: nat)
    requires s in Roomy(ids, size) && Works(s, us)
    ensures us in EndWithin(s, Sum(Totals(s, size)))
  {
    WorkBounded(s, us, ids, size);
    var s' := Run(s, Moves(us)).value.0;
    RoomySafe(s', ids, size);
    if AtRest(s') {
      RestIsIdle(s', ids);
    }
  }

  lemma RunStarts(kind: LS.Kind, lang: LS.Lang, size: nat, n: nat, es: seq<Event>, ids: set<Id>)
    requires 2 <= size && Run(Init(kind, lang, size, n), es).Some? && UsesOnly(es, ids)
    requires kind == LS.Optimistic ==> N.OneLargest(ids)
    ensures Run(Init(kind, lang, size, n), es).value.0 in SafeMaps(ids)
    ensures |Run(Init(kind, lang, size, n), es).value.0.at| == n
  {
    InitSafe(kind, lang, size, n, ids);
    RunSafe(Init(kind, lang, size, n), es, ids);
  }

  lemma RunLeavesRoom(kind: LS.Kind, lang: LS.Lang, size: nat, n: nat, es: seq<Event>, ids: set<Id>, largest: nat)
    requires 2 <= size && Run(Init(kind, lang, size, n), es).Some? && UsesOnly(es, ids)
    requires kind == LS.Optimistic ==> N.OneLargest(ids)
    requires NoLarger(Run(Init(kind, lang, size, n), es).value.0, largest)
    ensures Run(Init(kind, lang, size, n), es).value.0 in Roomy(ids, largest + 2 * n)
  {
    RunStarts(kind, lang, size, n, es, ids);
    RoomFor(Run(Init(kind, lang, size, n), es).value.0, ids, largest, largest + 2 * n);
  }

  /** In any run, over any kind of list set: once no more calls are started, every schedule ends after a number of steps
      that the state bounds, and when it cannot be continued every call has returned. `largest` is the number of nodes
      of the largest set. */
  lemma CallsEnd(kind: LS.Kind, lang: LS.Lang, size: nat, n: nat, es: seq<Event>, us: seq<nat>, ids: set<Id>, largest: nat)
    requires 2 <= size && Run(Init(kind, lang, size, n), es).Some? && UsesOnly(es, ids)
    requires kind == LS.Optimistic ==> N.OneLargest(ids)
    requires var s := Run(Init(kind, lang, size, n), es).value.0;
             Works(s, us) && NoLarger(s, largest)
    ensures var s := Run(Init(kind, lang, size, n), es).value.0; us in EndWithin(s, Sum(Totals(s, largest + 2 * n)))
  {
    RunLeavesRoom(kind, lang, size, n, es, ids, largest);
    WorkEnds(Run(Init(kind, lang, size, n), es).value.0, us, ids, largest + 2 * n);
  }
}
