/** What the list sets promise, over every run. */
module ListSetTheorems {
  import opened Elements
  import opened ListHeap
  import opened ListSets
  import opened ListSetInvariant
  import opened ListSetSteps
  import AtomicMap

  // ---- Linearizability ----

  ghost function AbstractThread(th: Thread): AtomicMap.Status
  {
    if th.pc == Idle then AtomicMap.Out
    else if th.res.Some? then AtomicMap.Done(th.res.value)
    else AtomicMap.Pending(th.op)
  }

  /** The specification object that a state stands for. */
  ghost function Abstract(s: State): AtomicMap.State
  {
    AtomicMap.State(ContentsOf(s.heap), seq(|s.threads|, i requires 0 <= i < |s.threads| => AbstractThread(s.threads[i])))
  }

  /** A call takes effect at the step in which its answer becomes known. */
  function AbstractEvent(s: State, e: Event): seq<AtomicMap.Event>
    requires Enabled(s, e)
  {
    match e
    case Invoke(t, op) => [AtomicMap.Invoke(t, op)]
    case Move(t) =>
      if s.threads[t].pc == Finish then [AtomicMap.Return(t)]
      else if s.threads[t].res.None? && Next(s, e).threads[t].res.Some? then [AtomicMap.Commit(t)]
      else []
  }

  ghost function AbstractRun(s: State, es: seq<Event>): seq<AtomicMap.Event>
    requires Run(s, es).Some?
    decreases |es|
  {
    if es == [] then [] else AbstractEvent(s, es[0]) + AbstractRun(Next(s, es[0]), es[1..])
  }

  lemma InvokeOk(s: State, t: nat, op: Op)
    requires Inv(s) && Enabled(s, Invoke(t, op))
    ensures Inv(Next(s, Invoke(t, op)))
  {
    var s' := Next(s, Invoke(t, op));
    assert ThreadOk(s.kind, s.lang, s.heap, s.threads[t]);
    LocksSame(s, s', t);
    MarksKept(s, s', t);
  }

  predicate SameSetup(s: State, s': State)
  {
    s'.kind == s.kind && s'.lang == s.lang && |s'.threads| == |s.threads|
  }

  lemma EventOk(s: State, e: Event)
    requires Inv(s) && Enabled(s, e)
    ensures Inv(Next(s, e)) && SameSetup(s, Next(s, e))
  {
    match e
    case Invoke(t, op) => InvokeOk(s, t, op);
    case Move(t) => MoveOk(s, t);
  }

  lemma InvokeRefines(s: State, t: nat, op: Op)
    requires Inv(s) && Enabled(s, Invoke(t, op))
    ensures AtomicMap.Run(Abstract(s), [AtomicMap.Invoke(t, op)]) == Some((Abstract(Next(s, Invoke(t, op))), [Call(t, op)]))
  {
    var a, a' := Abstract(s), Abstract(Next(s, Invoke(t, op)));
    assert a'.threads == a.threads[t := AtomicMap.Pending(op)];
    AtomicMap.RunSingle(a, AtomicMap.Invoke(t, op));
  }

  /** A step either leaves the specification object as it is, or is one step of it. */
  lemma MoveRefines(s: State, s': State, t: nat)
    requires StepOk(s, s', t) && ThreadOk(s.kind, s.lang, s.heap, s.threads[t]) && s.threads[t].pc != Idle
    requires s.threads[t].pc == Finish <==> s'.threads[t].pc == Idle
    ensures var (a, a', th) := (Abstract(s), Abstract(s'), s.threads[t]);
            if th.pc == Finish then
              AtomicMap.Enabled(a, AtomicMap.Return(t)) && AtomicMap.Next(a, AtomicMap.Return(t)) == a'
            else if th.res.None? && s'.threads[t].res.Some? then
              AtomicMap.Enabled(a, AtomicMap.Commit(t)) && AtomicMap.Next(a, AtomicMap.Commit(t)) == a'
            else a' == a
  {
    var a, a' := Abstract(s), Abstract(s');
    assert a'.threads == a.threads[t := AbstractThread(s'.threads[t])];
    assert a.threads[t] == AbstractThread(s.threads[t]);
  }

  /** The thread is idle after its last step only. */
  lemma FinishEnds(s: State, t: nat)
    requires 2 <= |s.heap| && t < |s.threads| && CanStep(s, t)
    ensures s.threads[t].pc == Finish <==> Step(s, t).threads[t].pc == Idle
  {
  }

  lemma EventRefines(s: State, e: Event)
    requires Inv(s) && Enabled(s, e)
    ensures AtomicMap.Run(Abstract(s), AbstractEvent(s, e)) == Some((Abstract(Next(s, e)), Visible(s, e)))
  {
    match e
    case Invoke(t, op) => InvokeRefines(s, t, op);
    case Move(t) =>
      assert ThreadOk(s.kind, s.lang, s.heap, s.threads[t]);
      MoveOk(s, t);
      FinishEnds(s, t);
      MoveRefines(s, Step(s, t), t);
      var es := AbstractEvent(s, e);
      if es != [] {
        AtomicMap.RunSingle(Abstract(s), es[0]);
      }
  }

  lemma {:induction false} RunOk(s: State, es: seq<Event>)
    requires Inv(s) && Run(s, es).Some?
    ensures Inv(Run(s, es).value.0) && SameSetup(s, Run(s, es).value.0)
    decreases |es|
  {
    if es != [] {
      EventOk(s, es[0]);
      RunOk(Next(s, es[0]), es[1..]);
    }
  }

  lemma {:induction false} RunRefines(s: State, es: seq<Event>)
    requires Inv(s) && Run(s, es).Some?
    ensures AtomicMap.Run(Abstract(s), AbstractRun(s, es)) == Some((Abstract(Run(s, es).value.0), Run(s, es).value.1))
    decreases |es|
  {
    if es != [] {
      var s' := Next(s, es[0]);
      EventOk(s, es[0]);
      EventRefines(s, es[0]);
      RunRefines(s', es[1..]);
      AtomicMap.RunConcat(Abstract(s), AbstractEvent(s, es[0]), AbstractRun(s', es[1..]));
    }
  }

  /** Every run of every algorithm in both languages is linearizable: the specification object has a run with the
      same calls and answers in the same order, ending with exactly the linked unmarked elements. */
  lemma Linearizable(kind: Kind, lang: Lang, n: nat, es: seq<Event>)
    requires Run(Init(kind, lang, n), es).Some?
    ensures var (s, seen) := Run(Init(kind, lang, n), es).value;
            AtomicMap.Run(AtomicMap.Init(n), AbstractRun(Init(kind, lang, n), es)) == Some((Abstract(s), seen))
  {
    var s0 := Init(kind, lang, n);
    InitInv(kind, lang, n);
    RunRefines(s0, es);
    assert ContentsOf(s0.heap) == map[] by {
      assert forall i, id :: !Live(s0.heap, i, id);
    }
    assert Abstract(s0) == AtomicMap.Init(n);
  }
}
