/** When OptimisticSet's re-walk follows a null pointer: exactly when two different elements have the largest
    possible hash, which is also the key of the tail. */
module ReWalkNull {
  import opened Elements
  import opened ListHeap
  import opened ListSets
  import opened ListSetInvariant
  import opened ListSetSteps
  import opened ListSetTheorems
  import opened Undisturbed

  predicate UsesOnly(es: seq<Event>, ids: set<Id>)
  {
    forall i :: 0 <= i < |es| && es[i].Invoke? ==> es[i].op.Key() in ids
  }

  predicate NobodyCrashed(s: State)
  {
    forall t :: 0 <= t < |s.threads| ==> s.threads[t].pc != Crashed
  }

  predicate OneLargest(ids: set<Id>)
  {
    forall a, b :: a in ids && b in ids && a.hash == SIZE_MAX && b.hash == SIZE_MAX ==> a == b
  }

  // ---- With at most one largest hash ----

  predicate IdsIn(s: State, ids: set<Id>)
  {
    && (forall i {:trigger s.heap[i]} :: 0 <= i < |s.heap| && s.heap[i].value.Some? ==> s.heap[i].value.value.id in ids)
    && forall t {:trigger s.threads[t]} :: 0 <= t < |s.threads| && s.threads[t].pc != Idle ==> s.threads[t].op.Key() in ids
  }

  lemma IdsKept(s: State, e: Event, ids: set<Id>)
    requires Inv(s) && Enabled(s, e) && IdsIn(s, ids) && (e.Invoke? ==> e.op.Key() in ids)
    ensures IdsIn(Next(s, e), ids)
  {
    var s' := Next(s, e);
    if e.Move? {
      MoveOk(s, e.t);
      assert ThreadOk(s.kind, s.lang, s.heap, s.threads[e.t]) && s.threads[e.t].pc != Idle;
      NewIds(s, e.t);
      forall i | 0 <= i < |s'.heap| && s'.heap[i].value.Some?
        ensures s'.heap[i].value.value.id in ids
      {
        assert i < |s.heap| ==> s'.heap[i].value == s.heap[i].value;
      }
    }
  }

  lemma NewIds(s: State, t: nat)
    requires Inv(s) && t < |s.threads| && CanStep(s, t)
    ensures forall i {:trigger Step(s, t).heap[i]} :: |s.heap| <= i < |Step(s, t).heap| ==>
              Step(s, t).heap[i].value.Some? && Step(s, t).heap[i].value.value.id == s.threads[t].op.Key()
  {
    if |Step(s, t).heap| != |s.heap| {
      GrowsByLink(s, t);
      LinkStep(s, t);
    }
  }

  lemma GrowsByLink(s: State, t: nat)
    requires 2 <= |s.heap| && t < |s.threads| && CanStep(s, t) && |Step(s, t).heap| != |s.heap|
    ensures s.threads[t].pc == AddLink && PointersFine(s, s.threads[t])
  {
  }

  lemma {:induction false} NoCrash(s: State, es: seq<Event>, ids: set<Id>)
    requires Inv(s) && NobodyCrashed(s) && IdsIn(s, ids) && OneLargest(ids)
    requires Run(s, es).Some? && UsesOnly(es, ids)
    ensures NobodyCrashed(Run(s, es).value.0) && IdsIn(Run(s, es).value.0, ids)
    decreases |es|
  {
    if es != [] {
      var e := es[0];
      EventOk(s, e);
      IdsKept(s, e, ids);
      if e.Move? {
        StaysUp(s, e.t, ids);
      }
      NoCrash(Next(s, e), es[1..], ids);
    }
  }

  /** Who follows the null pointer searches for an element with the largest hash next to another one. */
  lemma CrashNeedsTwo(s: State, t: nat, ids: set<Id>) returns (a: Id, b: Id)
    requires Inv(s) && IdsIn(s, ids) && t < |s.threads| && CanStep(s, t) && !PointersFine(s, s.threads[t])
    ensures a in ids && b in ids && a != b && a.hash == SIZE_MAX && b.hash == SIZE_MAX
  {
    OnlyReWalkCrashes(s, t);
    var th := s.threads[t];
    a, b := s.heap[th.pred].value.value.id, th.op.Key();
  }

  lemma StaysUp(s: State, t: nat, ids: set<Id>)
    requires Inv(s) && NobodyCrashed(s) && IdsIn(s, ids) && OneLargest(ids) && t < |s.threads| && CanStep(s, t)
    ensures NobodyCrashed(Step(s, t))
  {
    if !PointersFine(s, s.threads[t]) {
      var a, b := CrashNeedsTwo(s, t, ids);
    } else {
      MoveOk(s, t);
      FineStepsOn(s, t);
    }
  }

  lemma FineStepsOn(s: State, t: nat)
    requires Inv(s) && t < |s.threads| && CanStep(s, t) && PointersFine(s, s.threads[t])
    ensures Step(s, t).threads[t].pc != Crashed
  {
    assert ThreadOk(s.kind, s.lang, s.heap, s.threads[t]);
  }

  // ---- With two of them ----

  /** The states that some run of OptimisticSet on these elements leads to. */
  ghost function Reach(lang: Lang, n: nat, ids: set<Id>): iset<State>
  {
    iset s: State | Reached(lang, n, ids, s)
  }

  ghost predicate Reached(lang: Lang, n: nat, ids: set<Id>, s: State)
  {
    exists es :: UsesOnly(es, ids) && Leads(lang, n, es, s)
  }

  predicate Leads(lang: Lang, n: nat, es: seq<Event>, s: State)
  {
    Run(Init(Optimistic, lang, n), es).Some? && Run(Init(Optimistic, lang, n), es).value.0 == s
  }

  lemma {:induction false} RunLast(s: State, es: seq<Event>, e: Event)
    requires Run(s, es).Some? && Enabled(Run(s, es).value.0, e)
    ensures Run(s, es + [e]).Some? && Run(s, es + [e]).value.0 == Next(Run(s, es).value.0, e)
    decreases |es|
  {
    if es == [] {
      assert [] + [e] == [e] && [e][1..] == [];
      assert Run(Next(s, e), []) == Some((Next(s, e), []));
    } else {
      assert (es + [e])[1..] == es[1..] + [e];
      RunLast(Next(s, es[0]), es[1..], e);
    }
  }

  /** One more event. */
  lemma Then(lang: Lang, n: nat, ids: set<Id>, s: State, e: Event) returns (s': State)
    requires s in Reach(lang, n, ids) && Enabled(s, e) && (e.Invoke? ==> e.op.Key() in ids)
    ensures s' == Next(s, e) && s' in Reach(lang, n, ids)
  {
    var es :| UsesOnly(es, ids) && Leads(lang, n, es, s);
    RunLast(Init(Optimistic, lang, n), es, e);
    s' := Next(s, e);
    assert UsesOnly(es + [e], ids) && Leads(lang, n, es + [e], s');
  }

  lemma ReachInv(lang: Lang, n: nat, ids: set<Id>, s: State)
    requires s in Reach(lang, n, ids)
    ensures Inv(s) && s.kind == Optimistic && s.lang == lang && |s.threads| == n
  {
    var es :| UsesOnly(es, ids) && Leads(lang, n, es, s);
    InitInv(Optimistic, lang, n);
    RunOk(Init(Optimistic, lang, n), es);
  }

  /** The states in which `t` has gone on alone with the same call. */
  ghost function Onward(s: State, t: nat): iset<State>
  {
    iset s': State | OnlyMoves(s, s', t) && s'.threads[t].op == s.threads[t].op && SameKeys(s.heap, s'.heap)
  }

  lemma OnwardChain(s: State, s1: State, s': State, t: nat)
    requires s1 in Onward(s, t) && s' in Onward(s1, t)
    ensures s' in Onward(s, t)
  {
    SameKeysChain(s.heap, s1.heap, s'.heap);
  }

  lemma StepAlone(lang: Lang, n: nat, ids: set<Id>, s: State, t: nat, m: Contents) returns (s1: State)
    requires s in Reach(lang, n, ids) && s in Calls(t, m) && t < |s.threads| && s.threads[t].pc != Finish
    ensures s1 in Reach(lang, n, ids) && s1 in Calls(t, m) && s1 in Onward(s, t)
    ensures |s1.threads| == |s.threads| && s1.kind == s.kind && Closer(s, s1, t)
    ensures s.kind != FineGrained && Rank(s.threads[t].pc) > Rank(LockPair) ==> Rank(s1.threads[t].pc) >= Rank(LockPair)
  {
    s1 := OneStep(s, t, m);
    MoveOk(s, t);
    var s2 := Then(lang, n, ids, s, Move(t));
  }

  lemma {:induction false} WalkAlone(lang: Lang, n: nat, ids: set<Id>, s: State, t: nat, m: Contents, stop: Pc) returns (s': State)
    requires s in Reach(lang, n, ids) && s in Calls(t, m) && t < |s.threads|
    requires stop == Finish || (stop == LockPair && s.kind != FineGrained && Rank(stop) <= Rank(s.threads[t].pc))
    ensures s' in Reach(lang, n, ids) && s' in Calls(t, m) && s' in Onward(s, t)
    ensures |s'.threads| == |s.threads| && s'.threads[t].pc == stop
    decreases Rank(s.threads[t].pc), Ahead2(s, s.threads[t]), Within(s.threads[t].pc)
  {
    if s.threads[t].pc == stop {
      s' := s;
    } else {
      var s1 := StepAlone(lang, n, ids, s, t, m);
      s' := WalkAlone(lang, n, ids, s1, t, m, stop);
      OnwardChain(s, s1, s', t);
    }
  }

  /** A call by `t` is started while nobody holds a lock, and runs alone up to `stop`. */
  lemma CallAlone(lang: Lang, n: nat, ids: set<Id>, s: State, t: nat, op: Op, stop: Pc) returns (s': State)
    requires s in Reach(lang, n, ids) && t < n && n == |s.threads| && s.threads[t].pc == Idle
    requires forall u: nat :: u < n && u != t ==> HeldBy(s, u) == {}
    requires op.Key() in ids && !op.Put? && stop in {Finish, LockPair}
    ensures s' in Reach(lang, n, ids) && |s'.threads| == n && s'.threads[t].op == op && s'.threads[t].pc == stop
    ensures forall u :: 0 <= u < n && u != t ==> s'.threads[u] == s.threads[u]
    ensures s' in Calls(t, ContentsOf(s.heap)) && SameKeys(s.heap, s'.heap)
  {
    ReachInv(lang, n, ids, s);
    var s1 := Then(lang, n, ids, s, Invoke(t, op));
    InvokeOk(s, t, op);
    assert Quiet(s1, t) by {
      forall u: nat | u < n && u != t
        ensures HeldBy(s1, u) == {}
      {
        assert HeldBy(s, u) == {};
      }
    }
    s' := WalkAlone(lang, n, ids, s1, t, ContentsOf(s.heap), stop);
  }

  /** A complete call. */
  lemma WholeCall(lang: Lang, n: nat, ids: set<Id>, s: State, t: nat, op: Op) returns (s': State)
    requires s in Reach(lang, n, ids) && t < n && n == |s.threads| && s.threads[t].pc == Idle
    requires forall u: nat :: u < n && u != t ==> HeldBy(s, u) == {}
    requires op.Key() in ids && !op.Put?
    ensures s' in Reach(lang, n, ids) && |s'.threads| == n && s'.threads[t].pc == Idle
    ensures forall u :: 0 <= u < n && u != t ==> s'.threads[u] == s.threads[u]
    ensures ContentsOf(s'.heap) == Apply(ContentsOf(s.heap), op).0
    ensures SameKeys(s.heap, s'.heap)
  {
    var s1 := CallAlone(lang, n, ids, s, t, op, Finish);
    assert ThreadOk(s1.kind, s1.lang, s1.heap, s1.threads[t]);
    s' := Answer(lang, n, ids, s1, t);
  }

  lemma Answer(lang: Lang, n: nat, ids: set<Id>, s: State, t: nat) returns (s': State)
    requires s in Reach(lang, n, ids) && 2 <= |s.heap| && t < |s.threads| && s.threads[t].pc == Finish
    ensures s' in Reach(lang, n, ids) && s'.heap == s.heap
    ensures s'.threads == s.threads[t := s.threads[t].(pc := Idle, res := None)]
  {
    s' := Then(lang, n, ids, s, Move(t));
  }

  /** When `a` is the one element, a search for `b` stops between it and the tail. */
  lemma StopsBehind(s: State, t: nat, a: Id, b: Id)
    requires Inv(s) && s.kind == Optimistic && t < |s.threads| && s.threads[t].pc == LockPair && OnTrack(s, t)
    requires s.threads[t].op == Contains(b) && a != b && a.hash == SIZE_MAX && b.hash == SIZE_MAX
    requires ContentsOf(s.heap).Keys == {a}
    ensures var th := s.threads[t]; IsNode(s.heap, th.pred) && th.cur == TAIL && s.heap[th.pred].key == SIZE_MAX
  {
    var h, th := s.heap, s.threads[t];
    assert ThreadOk(s.kind, s.lang, h, th);
    forall y | 2 <= y < |h| && h[y].linked && !h[y].deleted
      ensures Match(h, y, a)
    {
      assert Live(h, y, h[y].value.value.id) && Present(h, h[y].value.value.id);
    }
    var x :| Live(h, x, a);
    assert !Skips(h, HEAD, x);
  }

  lemma EmptyMeansAdjacent(h: Heap)
    requires HeapOk(h) && ContentsOf(h) == map[] && forall i :: 0 <= i < |h| ==> !h[i].deleted
    ensures h[HEAD].next == TAIL
  {
    var w := h[HEAD].next;
    assert IsNode(h, w) && h[w].linked && w != HEAD;
    if w != TAIL {
      assert Live(h, w, h[w].value.value.id) && Present(h, h[w].value.value.id);
    }
  }

  /** A search between a removed node with the largest key and the tail, in an empty list. */
  predicate AtEdge(s: State, t: nat)
  {
    && s.kind == Optimistic && 2 <= |s.heap| && t < |s.threads|
    && s.heap[HEAD].key == 0 && s.heap[TAIL].key == SIZE_MAX && s.heap[HEAD].next == TAIL && s.heap[TAIL].next == NULL
    && var th := s.threads[t];
       && IsNode(s.heap, th.pred) && th.cur == TAIL && s.heap[th.pred].key == SIZE_MAX
       && (th.pc == WalkTest && th.check == HEAD && s.lang == Cpp ==> th.nxt == TAIL)
       && (th.pc == WalkMove ==> th.check == HEAD && (s.lang == Cpp ==> th.nxt == TAIL))
       && (th.pc == WalkTest && th.check == TAIL && s.lang == Cpp ==> th.nxt == NULL)
  }

  lemma EdgeStep(s: State, t: nat)
    requires AtEdge(s, t) && CanStep(s, t)
    requires s.threads[t].pc in {LockPair, LockSecond, WalkStart, WalkTest, WalkMove}
    requires s.threads[t].pc == WalkTest ==> s.threads[t].check in {HEAD, TAIL}
    ensures AtEdge(Step(s, t), t)
    ensures var (th, th') := (s.threads[t], Step(s, t).threads[t]);
            match th.pc
            case LockPair => th'.pc == if s.lang == Java then LockSecond else WalkStart
            case LockSecond => th'.pc == WalkStart
            case WalkStart => th'.pc == WalkTest && th'.check == HEAD
            case WalkTest => th'.pc == if th.check == HEAD then WalkMove else Crashed
            case _ => th'.pc == WalkTest && th'.check == TAIL
  {
  }

  /** The next step of thread `t`, which is at the edge and waits for nobody. */
  lemma OneEdge(lang: Lang, n: nat, ids: set<Id>, s: State, t: nat) returns (s': State)
    requires s in Reach(lang, n, ids) && AtEdge(s, t) && Quiet(s, t)
    requires s.threads[t].pc in {LockPair, LockSecond, WalkStart, WalkTest, WalkMove}
    requires s.threads[t].pc == WalkTest ==> s.threads[t].check in {HEAD, TAIL}
    ensures s' in Reach(lang, n, ids) && AtEdge(s', t) && Quiet(s', t)
    ensures var (th, th') := (s.threads[t], s'.threads[t]);
            match th.pc
            case LockPair => th'.pc in {LockSecond, WalkStart}
            case LockSecond => th'.pc == WalkStart
            case WalkStart => th'.pc == WalkTest && th'.check == HEAD
            case WalkTest => th'.pc == if th.check == HEAD then WalkMove else Crashed
            case _ => th'.pc == WalkTest && th'.check == TAIL
  {
    ReachInv(lang, n, ids, s);
    QuietCanStep(s, t);
    EdgeStep(s, t);
    MoveOk(s, t);
    s' := Then(lang, n, ids, s, Move(t));
    assert forall u: nat :: u < |s.threads| && u != t ==> HeldBy(s', u) == HeldBy(s, u);
  }

  lemma FallsOff(lang: Lang, n: nat, ids: set<Id>, s: State, t: nat) returns (s': State)
    requires s in Reach(lang, n, ids) && AtEdge(s, t) && Quiet(s, t) && s.threads[t].pc == LockPair
    ensures s' in Reach(lang, n, ids) && t < |s'.threads| && s'.threads[t].pc == Crashed
  {
    s' := OneEdge(lang, n, ids, s, t);
    if s'.threads[t].pc == LockSecond {
      s' := OneEdge(lang, n, ids, s', t);
    }
    s' := OneEdge(lang, n, ids, s', t);
    s' := OneEdge(lang, n, ids, s', t);
    s' := OneEdge(lang, n, ids, s', t);
    s' := OneEdge(lang, n, ids, s', t);
  }

  /** The run: `a` is added, a search for `b` walks up to it, `a` is removed, the search goes on. */
  lemma TwoLargestCrash(lang: Lang, n: nat, ids: set<Id>, a: Id, b: Id) returns (s: State)
    requires 2 <= n && a in ids && b in ids && a != b && a.hash == SIZE_MAX && b.hash == SIZE_MAX
    ensures s in Reach(lang, n, ids) && 1 < |s.threads| && s.threads[1].pc == Crashed
  {
    s := SearchBehind(lang, n, ids, a, b);
    s := TakenAway(lang, n, ids, s, a, b);
    s := FallsOff(lang, n, ids, s, 1);
  }

  lemma InReach(lang: Lang, n: nat, ids: set<Id>) returns (s: State)
    ensures s in Reach(lang, n, ids) && s.kind == Optimistic && |s.threads| == n && ContentsOf(s.heap) == map[]
    ensures forall u :: 0 <= u < n ==> s.threads[u].pc == Idle
  {
    s := Init(Optimistic, lang, n);
    assert UsesOnly([], ids) && Leads(lang, n, [], s);
    assert forall i, id :: !Live(s.heap, i, id);
  }

  lemma NowBehind(lang: Lang, n: nat, ids: set<Id>, s: State, m: Contents, a: Id, b: Id)
    requires s in Reach(lang, n, ids) && s in Calls(1, m) && 1 < |s.threads| && m.Keys == {a}
    requires s.threads[1].pc == LockPair && s.threads[1].op == Contains(b)
    requires a != b && a.hash == SIZE_MAX && b.hash == SIZE_MAX
    ensures ContentsOf(s.heap) == m
    ensures var th := s.threads[1]; IsNode(s.heap, th.pred) && th.cur == TAIL && s.heap[th.pred].key == SIZE_MAX
  {
    ReachInv(lang, n, ids, s);
    assert ThreadOk(s.kind, s.lang, s.heap, s.threads[1]);
    StopsBehind(s, 1, a, b);
  }

  lemma SearchBehind(lang: Lang, n: nat, ids: set<Id>, a: Id, b: Id) returns (s: State)
    requires 2 <= n && a in ids && b in ids && a != b && a.hash == SIZE_MAX && b.hash == SIZE_MAX
    ensures s in Reach(lang, n, ids) && n == |s.threads| && s.threads[1].pc == LockPair
    ensures forall u: nat :: u < n && u != 1 ==> s.threads[u].pc == Idle
    ensures ContentsOf(s.heap).Keys == {a}
    ensures var th := s.threads[1]; IsNode(s.heap, th.pred) && th.cur == TAIL && s.heap[th.pred].key == SIZE_MAX
  {
    s := InReach(lang, n, ids);
    s := WholeCall(lang, n, ids, s, 0, Add(Elem(a, 0)));
    var m := ContentsOf(s.heap);
    s := CallAlone(lang, n, ids, s, 1, Contains(b), LockPair);
    NowBehind(lang, n, ids, s, m, a, b);
  }

  lemma TakenAway(lang: Lang, n: nat, ids: set<Id>, s: State, a: Id, b: Id) returns (s': State)
    requires s in Reach(lang, n, ids) && 2 <= n == |s.threads| && s.threads[1].pc == LockPair && a in ids
    requires forall u: nat :: u < n && u != 1 ==> s.threads[u].pc == Idle
    requires ContentsOf(s.heap).Keys == {a}
    requires var th := s.threads[1]; IsNode(s.heap, th.pred) && th.cur == TAIL && s.heap[th.pred].key == SIZE_MAX
    ensures s' in Reach(lang, n, ids) && AtEdge(s', 1) && Quiet(s', 1) && s'.threads[1].pc == LockPair
  {
    s' := WholeCall(lang, n, ids, s, 0, Remove(a));
    ReachInv(lang, n, ids, s');
    NothingLeft(ContentsOf(s.heap), ContentsOf(s'.heap), a);
    EmptyMeansAdjacent(s'.heap);
    OthersIdle(s, s');
  }

  lemma NothingLeft(m: Contents, m': Contents, a: Id)
    requires m.Keys == {a} && m' == Apply(m, Remove(a)).0
    ensures m' == map[]
  {
  }

  lemma OthersIdle(s: State, s': State)
    requires 2 <= |s.threads| == |s'.threads| && s'.threads[0].pc == Idle
    requires forall u: nat :: u < |s.threads| && u != 1 ==> s.threads[u].pc == Idle
    requires forall u :: 0 <= u < |s.threads| && u != 0 ==> s'.threads[u] == s.threads[u]
    ensures Quiet(s', 1)
  {
    forall u: nat | u < |s'.threads| && u != 1
      ensures HeldBy(s', u) == {}
    {
      assert u != 0 ==> s'.threads[u] == s.threads[u];
    }
  }

  /** OptimisticSet never follows a null pointer, in any run on the elements `ids`, exactly when at most one of
      them has the largest hash. */
  lemma NullSafeIff(lang: Lang, n: nat, ids: set<Id>)
    requires 2 <= n
    ensures OneLargest(ids) <==>
              forall es :: UsesOnly(es, ids) && Run(Init(Optimistic, lang, n), es).Some? ==>
                NobodyCrashed(Run(Init(Optimistic, lang, n), es).value.0)
  {
    var s0 := Init(Optimistic, lang, n);
    if OneLargest(ids) {
      InitInv(Optimistic, lang, n);
      forall es | UsesOnly(es, ids) && Run(s0, es).Some?
        ensures NobodyCrashed(Run(s0, es).value.0)
      {
        NoCrash(s0, es, ids);
      }
    } else {
      var a, b :| a in ids && b in ids && a.hash == SIZE_MAX && b.hash == SIZE_MAX && a != b;
      var s := TwoLargestCrash(lang, n, ids, a, b);
      var es :| UsesOnly(es, ids) && Leads(lang, n, es, s);
      assert !NobodyCrashed(Run(s0, es).value.0);
    }
  }

  /** The other two algorithms never do. */
  lemma OthersNullSafe(kind: Kind, lang: Lang, n: nat, es: seq<Event>)
    requires kind != Optimistic && Run(Init(kind, lang, n), es).Some?
    ensures NobodyCrashed(Run(Init(kind, lang, n), es).value.0)
  {
    InitInv(kind, lang, n);
    RunOk(Init(kind, lang, n), es);
    var s := Run(Init(kind, lang, n), es).value.0;
    forall t | 0 <= t < |s.threads|
      ensures s.threads[t].pc != Crashed
    {
      assert ThreadOk(s.kind, s.lang, s.heap, s.threads[t]);
    }
  }
}
