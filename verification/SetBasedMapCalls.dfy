/** SetBasedMap called by one thread, one call after the other. */
module SetBasedMapCalls {
  import opened Elements
  import opened Buckets
  import opened SetBasedMap
  import opened SequentialHistories
  import opened ListHeap
  import U = Undisturbed
  import LS = ListSets
  import LI = ListSetInvariant
  import LP = ListSetSteps
  import LT = ListSetTheorems

  /** The states that runs from `s0` lead to, each with what was seen on the way. */
  ghost function From(s0: State): iset<(State, seq<Action>)>
  {
    iset x: (State, seq<Action>) | Reaches(s0, x.0, x.1)
  }

  ghost predicate Reaches(s0: State, s: State, seen: seq<Action>)
  {
    exists es :: Leads(s0, es, s, seen)
  }

  predicate Leads(s0: State, es: seq<Event>, s: State, seen: seq<Action>)
  {
    Run(s0, es) == Some((s, seen))
  }

  lemma {:induction false} RunLast(s: State, es: seq<Event>, e: Event)
    requires Run(s, es).Some? && Enabled(Run(s, es).value.0, e)
    ensures var (b, seen) := Run(s, es).value; Run(s, es + [e]) == Some((Next(b, e), seen + Visible(b, e)))
    decreases |es|
  {
    if es == [] {
      assert [] + [e] == [e] && [e][1..] == [];
      assert Run(Next(s, e), []) == Some((Next(s, e), []));
      assert [] + Visible(s, e) == Visible(s, e) + [];
    } else {
      assert (es + [e])[1..] == es[1..] + [e];
      RunLast(Next(s, es[0]), es[1..], e);
      var (b, seen) := Run(Next(s, es[0]), es[1..]).value;
      assert Visible(s, es[0]) + (seen + Visible(b, e)) == (Visible(s, es[0]) + seen) + Visible(b, e);
    }
  }

  /** One more event. */
  lemma Then(s0: State, s: State, seen: seq<Action>, e: Event) returns (s': State)
    requires (s, seen) in From(s0) && Enabled(s, e)
    ensures s' == Next(s, e) && (s', seen + Visible(s, e)) in From(s0)
  {
    var es :| Leads(s0, es, s, seen);
    RunLast(s0, es, e);
    s' := Next(s, e);
    assert Leads(s0, es + [e], s', seen + Visible(s, e));
  }

  ghost predicate AllIdle(s: State)
  {
    forall b, t {:trigger s.buckets[b].threads[t]} :: 0 <= b < |s.buckets| && 0 <= t < |s.buckets[b].threads| ==>
      s.buckets[b].threads[t].pc == LS.Idle
  }

  /** The set of bucket `b` is `set'` and thread 0 is at work in it. */
  function At(s: State, b: nat, set': LS.State): State
    requires b < |s.buckets| && 0 < |s.at|
  {
    State(s.buckets[b := set'], s.at[0 := b])
  }

  lemma AtTwice(s: State, b: nat, x: LS.State, y: LS.State)
    requires b < |s.buckets| && 0 < |s.at|
    ensures At(At(s, b, x), b, y) == At(s, b, y)
  {
  }

  ghost function Sound(): iset<State>
  {
    iset s: State | Inv(s)
  }

  /** One step of an undisturbed call. */
  lemma OneStep(s0: State, s: State, seen: seq<Action>, b: nat, m: Contents) returns (set': LS.State)
    requires (s, seen) in From(s0) && 2 <= |s.buckets| && 0 < |s.at| && s.at[0] == b < |s.buckets|
    requires s.buckets[b] in U.Calls(0, m) && 0 < |s.buckets[b].threads| && s.buckets[b].threads[0].pc != LS.Finish
    ensures (At(s, b, set'), seen) in From(s0)
    ensures set' in U.Calls(0, m) && LP.OnlyMoves(s.buckets[b], set', 0) && U.Closer(s.buckets[b], set', 0)
  {
    set' := U.OneStep(s.buckets[b], 0, m);
    var s1 := Then(s0, s, seen, Move(0));
    assert seen + [] == seen && s1 == At(s, b, set');
  }

  /** The call of thread 0 is under way in bucket `b`, and runs on to its end. */
  lemma {:induction false} ToItsEnd(s0: State, s: State, seen: seq<Action>, b: nat, m: Contents) returns (set': LS.State)
    requires (s, seen) in From(s0) && 2 <= |s.buckets| && 0 < |s.at| && s.at[0] == b < |s.buckets|
    requires s.buckets[b] in U.Calls(0, m) && 0 < |s.buckets[b].threads|
    ensures (At(s, b, set'), seen) in From(s0)
    ensures set' in U.Calls(0, m) && LP.OnlyMoves(s.buckets[b], set', 0) && set'.threads[0].pc == LS.Finish
    decreases U.Rank(s.buckets[b].threads[0].pc), U.Ahead2(s.buckets[b], s.buckets[b].threads[0]),
              U.Within(s.buckets[b].threads[0].pc)
  {
    var set0 := s.buckets[b];
    if set0.threads[0].pc == LS.Finish {
      set' := set0;
      assert At(s, b, set0) == s;
    } else {
      var set1 := OneStep(s0, s, seen, b, m);
      var s1 := At(s, b, set1);
      set' := ToItsEnd(s0, s1, seen, b, m);
      AtTwice(s, b, set1, set');
    }
  }

  /** A call made while nobody is at work is under way undisturbed. */
  lemma Begins(set0: LS.State, op: Op)
    requires set0 in Good() && 0 < |set0.threads| && !op.Put?
    requires forall t :: 0 <= t < |set0.threads| ==> set0.threads[t].pc == LS.Idle
    ensures LS.Enabled(set0, LS.Invoke(0, op))
    ensures var set1 := LS.Next(set0, LS.Invoke(0, op));
            set1 in U.Calls(0, ContentsOf(set0.heap)) && LP.OnlyMoves(set0, set1, 0)
  {
    var set1 := LS.Next(set0, LS.Invoke(0, op));
    LT.InvokeOk(set0, 0, op);
    assert U.Quiet(set1, 0) by {
      forall u: nat | u < |set1.threads| && u != 0
        ensures LI.HeldBy(set1, u) == {}
      {
        assert set1.threads[u] == set0.threads[u];
      }
    }
    assert U.InCall(set1, 0, ContentsOf(set0.heap));
  }

  /** The first step of a call. */
  lemma Starts(s0: State, s: State, seen: seq<Action>, op: Op, b: nat) returns (set': LS.State)
    requires (s, seen) in From(s0) && s in Sound() && 2 <= |s.buckets| && 0 < |s.at| && AllIdle(s)
    requires op.Add? || op.GetEqual? || op.Remove?
    requires b == Index(op.Key(), |s.buckets|)
    ensures (At(s, b, set'), seen + [Call(0, op)]) in From(s0)
    ensures set' in U.Calls(0, ContentsOf(s.buckets[b].heap)) && LP.OnlyMoves(s.buckets[b], set', 0)
  {
    Begins(s.buckets[b], op);
    var s1 := Then(s0, s, seen, Invoke(0, op));
    set' := s1.buckets[b];
  }

  /** The last step of a call. */
  lemma Ends(s0: State, s: State, seen: seq<Action>, b: nat, m: Contents) returns (set': LS.State, res: Result)
    requires (s, seen) in From(s0) && 2 <= |s.buckets| && 0 < |s.at| && s.at[0] == b < |s.buckets|
    requires s.buckets[b] in U.Calls(0, m) && 0 < |s.buckets[b].threads| && s.buckets[b].threads[0].pc == LS.Finish
    ensures (At(s, b, set'), seen + [Reply(0, res)]) in From(s0)
    ensures LP.OnlyMoves(s.buckets[b], set', 0) && set'.threads[0].pc == LS.Idle
  {
    var set0 := s.buckets[b];
    assert LI.ThreadOk(set0.kind, set0.lang, set0.heap, set0.threads[0]);
    res := set0.threads[0].res.value;
    var s1 := Then(s0, s, seen, Move(0));
    set' := s1.buckets[b];
  }

  lemma IdleAgain(s: State, b: nat, set': LS.State)
    requires AllIdle(s) && b < |s.buckets| && 0 < |s.at| && |set'.threads| == |s.buckets[b].threads|
    requires forall t :: 0 <= t < |set'.threads| ==> set'.threads[t].pc == LS.Idle || set'.threads[t] == s.buckets[b].threads[t]
    ensures AllIdle(At(s, b, set'))
  {
  }

  /** A whole call; `s` is a state of a run, so it keeps the invariant. */
  lemma OneCall(s0: State, s: State, seen: seq<Action>, op: Op) returns (s': State, res: Result)
    requires (s, seen) in From(s0) && s in Sound() && 2 <= |s.buckets| && 0 < |s.at| && AllIdle(s)
    requires op.Add? || op.GetEqual? || op.Remove?
    ensures (s', seen + [Call(0, op), Reply(0, res)]) in From(s0) && AllIdle(s')
  {
    var b := Index(op.Key(), |s.buckets|);
    var m, seen1 := ContentsOf(s.buckets[b].heap), seen + [Call(0, op)];
    var set2 := Almost(s0, s, seen, op, b);
    var set3;
    set3, res := Ends(s0, At(s, b, set2), seen1, b, m);
    s' := At(s, b, set3);
    AtTwice(s, b, set2, set3);
    assert seen1 + [Reply(0, res)] == seen + [Call(0, op), Reply(0, res)];
    IdleAgain(s, b, set3);
  }

  /** All but the last step of a call. */
  lemma Almost(s0: State, s: State, seen: seq<Action>, op: Op, b: nat) returns (set': LS.State)
    requires (s, seen) in From(s0) && s in Sound() && 2 <= |s.buckets| && 0 < |s.at| && AllIdle(s)
    requires op.Add? || op.GetEqual? || op.Remove?
    requires b == Index(op.Key(), |s.buckets|)
    ensures (At(s, b, set'), seen + [Call(0, op)]) in From(s0)
    ensures set' in U.Calls(0, ContentsOf(s.buckets[b].heap)) && LP.OnlyMoves(s.buckets[b], set', 0)
    ensures set'.threads[0].pc == LS.Finish
  {
    var set1 := Starts(s0, s, seen, op, b);
    set' := ToItsEnd(s0, At(s, b, set1), seen + [Call(0, op)], b, ContentsOf(s.buckets[b].heap));
    AtTwice(s, b, set1, set');
  }

  lemma ReachesInv(s0: State, s: State, seen: seq<Action>)
    requires s0 in Sound() && (s, seen) in From(s0)
    ensures s in Sound() && |s.at| == |s0.at| && |s.buckets| == |s0.buckets|
  {
    var es :| Leads(s0, es, s, seen);
    RunRefines(s0, es);
  }

  /** A state between two calls. */
  ghost predicate Between(s0: State, s: State, seen: seq<Action>, ops: seq<Op>)
  {
    && (s, seen) in From(s0) && s in Sound() && 2 <= |s.buckets| && 0 < |s.at| && AllIdle(s)
    && Sequential(seen) && Ops(seen) == ops
  }

  lemma NextCall(s0: State, s: State, seen: seq<Action>, ops: seq<Op>, op: Op) returns (s': State, seen': seq<Action>)
    requires s0 in Sound() && Between(s0, s, seen, ops) && (op.Add? || op.GetEqual? || op.Remove?)
    ensures Between(s0, s', seen', ops + [op])
  {
    var res;
    s', res := OneCall(s0, s, seen, op);
    seen' := seen + [Call(0, op), Reply(0, res)];
    OneMore(seen, 0, op, res);
    ReachesInv(s0, s, seen);
    ReachesInv(s0, s', seen');
  }

  lemma {:induction false} CallAll(s0: State, ops: seq<Op>) returns (s: State, seen: seq<Action>)
    requires s0 in Sound() && Between(s0, s0, [], [])
    requires forall i :: 0 <= i < |ops| ==> ops[i].Add? || ops[i].GetEqual? || ops[i].Remove?
    ensures Between(s0, s, seen, ops)
    decreases |ops|
  {
    if ops == [] {
      s, seen := s0, [];
    } else {
      var k := |ops| - 1;
      assert ops == ops[..k] + [ops[k]];
      s, seen := CallAll(s0, ops[..k]);
      s, seen := NextCall(s0, s, seen, ops[..k], ops[k]);
    }
  }

  /** For any operations there is a run that calls them one after the other. */
  lemma Calls(s0: State, ops: seq<Op>) returns (es: seq<Event>)
    requires Inv(s0) && 0 < |s0.at| && AllIdle(s0)
    requires forall i :: 0 <= i < |ops| ==> ops[i].Add? || ops[i].GetEqual? || ops[i].Remove?
    ensures Run(s0, es).Some? && Sequential(Run(s0, es).value.1) && Ops(Run(s0, es).value.1) == ops
  {
    assert Leads(s0, [], s0, []);
    var s, seen := CallAll(s0, ops);
    es :| Leads(s0, es, s, seen);
  }
}
