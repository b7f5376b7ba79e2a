/** LockHashMap's calls come to their end, alone or among others; and any operations can be called one after the other. */
module LockHashMapCalls {
  import opened Elements
  import opened ChainTable
  import opened Sums
  import opened LockHashMapRuns
  import opened SequentialHistories

  /** The states that runs from `s0` lead to, each with what was seen on the way. */
  ghost function From(s0: State): iset<(State, seq<Action>)>
  {
    iset x: (State, seq<Action>) | Reaches(s0, x.0, x.1)
  }

  ghost predicate Reaches(s0: State, s: State, seen: seq<Action>)
  {
    exists es :: Leads(s0, es, s, seen)
  }

  predicate Leads(s0: State, es: seq<Event>, s: State, seen: seq<Action>)
  {
    Run(s0, es) == Some((s, seen))
  }

  lemma {:induction false} RunLast(s: State, es: seq<Event>, e: Event)
    requires Run(s, es).Some? && Enabled(Run(s, es).value.0, e)
    ensures var (b, seen) := Run(s, es).value; Run(s, es + [e]) == Some((Next(b, e), seen + Visible(b, e)))
    decreases |es|
  {
    if es == [] {
      assert [] + [e] == [e] && [e][1..] == [];
      assert Run(Next(s, e), []) == Some((Next(s, e), []));
      assert [] + Visible(s, e) == Visible(s, e) + [];
    } else {
      assert (es + [e])[1..] == es[1..] + [e];
      RunLast(Next(s, es[0]), es[1..], e);
      var (b, seen) := Run(Next(s, es[0]), es[1..]).value;
      assert Visible(s, es[0]) + (seen + Visible(b, e)) == (Visible(s, es[0]) + seen) + Visible(b, e);
    }
  }

  /** One more event. */
  lemma Then(s0: State, s: State, seen: seq<Action>, e: Event) returns (s': State)
    requires (s, seen) in From(s0) && Enabled(s, e)
    ensures s' == Next(s, e) && (s', seen + Visible(s, e)) in From(s0)
  {
    var es :| Leads(s0, es, s, seen);
    RunLast(s0, es, e);
    s' := Next(s, e);
    assert Leads(s0, es + [e], s', seen + Visible(s, e));
  }

  ghost predicate IdleBut(s: State, t: nat)
  {
    forall u :: 0 <= u < |s.threads| && u != t ==> s.threads[u].pc == Idle
  }

  ghost predicate AllIdle(s: State)
  {
    forall u :: 0 <= u < |s.threads| ==> s.threads[u].pc == Idle
  }

  /** How many steps the call still has to make, at most. */
  function Left(s: State, t: nat): nat
    requires 2 <= |s.table| && t < |s.threads|
  {
    var th := s.threads[t];
    var c := |s.table[BucketOf(s, th)]|;
    var rest := if th.at <= c then c - th.at else 0;
    match th.pc
    case Lock => 3 * c + 10
    case ReadHead => 3 * c + 9
    case Compare => 3 * rest + 5
    case Advance => 3 * rest + 4
    case Hit | Append => 3
    case Unlock => 2
    case Finish => 1
    case Idle => 0
  }

  /** The thread is in a call and does not wait for a lock. */
  predicate Unblocked(s: State, t: nat)
    requires 2 <= |s.table| == |s.owner|
  {
    t < |s.threads| && s.threads[t].pc != Idle && (s.threads[t].pc == Lock ==> s.owner[BucketOf(s, s.threads[t])] == None)
  }

  /** From then on every step of its own brings it nearer to its end, whatever the others are at. */
  lemma StepOn(s: State, t: nat)
    requires Inv(s) && Unblocked(s, t) && s.threads[t].pc != Finish
    ensures CanStep(s, t)
    ensures var s' := Step(s, t);
            && Inv(s') && |s'.threads| == |s.threads| && |s'.table| == |s.table| && Unblocked(s', t)
            && s'.threads == s.threads[t := s'.threads[t]]
            && s'.threads[t].op == s.threads[t].op && Left(s', t) < Left(s, t)
  {
    var b := BucketOf(s, s.threads[t]);
    assert ThreadOk(s.table[b], s.threads[t]);
    EventOk(s, Move(t));
    StepFrame(s, t);
  }

  lemma AloneIsUnblocked(s: State, t: nat)
    requires Inv(s) && t < |s.threads| && IdleBut(s, t) && s.threads[t].pc != Idle
    ensures Unblocked(s, t)
  {
    var b := BucketOf(s, s.threads[t]);
    assert s.owner[b].Some? ==> Holds(s, s.owner[b].value, b);
  }

  lemma {:induction false} ToItsEnd(s0: State, s: State, seen: seq<Action>, t: nat) returns (s': State)
    requires (s, seen) in From(s0) && Inv(s) && Unblocked(s, t)
    ensures (s', seen) in From(s0)
    ensures Inv(s') && t < |s'.threads| == |s.threads| && s'.threads[t].pc == Finish
    ensures s'.threads == s.threads[t := s'.threads[t]]
    decreases Left(s, t)
  {
    if s.threads[t].pc == Finish {
      s' := s;
    } else {
      StepOn(s, t);
      var s1 := Then(s0, s, seen, Move(t));
      assert seen + [] == seen;
      s' := ToItsEnd(s0, s1, seen, t);
    }
  }

  predicate AllBy(es: seq<Event>, t: nat)
  {
    forall i :: 0 <= i < |es| ==> es[i] == Move(t)
  }

  /** The call has returned `r`: as it was already settled, or as the operation answers now. */
  ghost predicate Returned(s: State, s': State, t: nat, r: Result)
    requires t < |s.threads|
  {
    && t < |s'.threads| && s'.threads[t].pc == Idle && |s'.table| == |s.table|
    && if s.threads[t].res.Some? then Whole(s'.table) == Whole(s.table) && r == s.threads[t].res.value
       else (Whole(s'.table), r) == Apply(Whole(s.table), s.threads[t].op)
  }

  lemma RunFirst(s: State, e: Event, es: seq<Event>)
    requires Enabled(s, e) && Run(Next(s, e), es).Some?
    ensures var (s', seen) := Run(Next(s, e), es).value; Run(s, [e] + es) == Some((s', Visible(s, e) + seen))
  {
    assert ([e] + es)[1..] == es;
  }

  lemma LastStep(s: State, t: nat) returns (s': State, r: Result)
    requires Inv(s) && t < |s.threads| && s.threads[t].pc == Finish
    ensures Run(s, [Move(t)]) == Some((s', [Reply(t, r)])) && Returned(s, s', t, r)
  {
    assert ThreadOk(s.table[BucketOf(s, s.threads[t])], s.threads[t]);
    s', r := Step(s, t), s.threads[t].res.value;
    RunFirst(s, Move(t), []);
    assert [Move(t)] + [] == [Move(t)] && [Reply(t, r)] + [] == [Reply(t, r)];
  }

  lemma ReturnedBefore(s: State, t: nat, s': State, r: Result)
    requires Inv(s) && t < |s.threads| && CanStep(s, t) && s.threads[t].pc != Finish
    requires var s1 := Step(s, t);
             && t < |s1.threads| && |s1.table| == |s.table| && s1.threads[t].op == s.threads[t].op && Returned(s1, s', t, r)
    ensures Returned(s, s', t, r)
  {
    assert ThreadOk(s.table[BucketOf(s, s.threads[t])], s.threads[t]);
    StepEffect(s, t);
  }

  lemma {:induction false} Ends(s: State, t: nat) returns (fs: seq<Event>, s': State, r: Result)
    requires Inv(s) && Unblocked(s, t)
    ensures AllBy(fs, t) && |fs| <= Left(s, t) && Run(s, fs) == Some((s', [Reply(t, r)])) && Returned(s, s', t, r)
    decreases Left(s, t)
  {
    if s.threads[t].pc == Finish {
      fs := [Move(t)];
      s', r := LastStep(s, t);
    } else {
      StepOn(s, t);
      var gs;
      gs, s', r := Ends(Step(s, t), t);
      ReturnedBefore(s, t, s', r);
      fs := [Move(t)] + gs;
      RunFirst(s, Move(t), gs);
      assert [] + [Reply(t, r)] == [Reply(t, r)];
    }
  }

  lemma RunInv(size: nat, n: nat, es: seq<Event>)
    requires 2 <= size && Run(Init(size, n), es).Some?
    ensures Inv(Run(Init(size, n), es).value.0) && |Run(Init(size, n), es).value.0.threads| == n
  {
    EmptyWhole(Init(size, n).table);
    RunRefines(Init(size, n), es);
  }

  /** In any run, a call that holds its bucket's lock, or finds it free, returns by its own steps alone, in at most ten
      and three for each node of the chain, whatever calls the others are in: with the answer it had settled, or else
      with the answer and the effect that the operation has on the map as it is now. */
  lemma Completes(size: nat, n: nat, es: seq<Event>, t: nat) returns (fs: seq<Event>, s': State, r: Result)
    requires 2 <= size && Run(Init(size, n), es).Some?
    requires var s := Run(Init(size, n), es).value.0; 2 <= |s.table| == |s.owner| && Unblocked(s, t)
    ensures var s := Run(Init(size, n), es).value.0;
            && AllBy(fs, t) && |fs| <= 3 * |s.table[BucketOf(s, s.threads[t])]| + 10
            && Run(s, fs) == Some((s', [Reply(t, r)])) && Returned(s, s', t, r)
  {
    RunInv(size, n, es);
    fs, s', r := Ends(Run(Init(size, n), es).value.0, t);
  }

  // ---- All calls together ----

  /** A call changes a chain once at most, when its answer is settled. */
  function ChangesLeft(th: Thread): nat
  {
    if th.pc == Idle || th.res.Some? then 0 else 1
  }

  function AllChanges(s: State): seq<nat>
  {
    seq(|s.threads|, t requires 0 <= t < |s.threads| => ChangesLeft(s.threads[t]))
  }

  function AllLeft(s: State): seq<nat>
    requires 2 <= |s.table|
  {
    seq(|s.threads|, t requires 0 <= t < |s.threads| => Left(s, t))
  }

  /** No chain can ever get longer than `size` by the calls under way. */
  ghost predicate Fits(s: State, size: nat)
  {
    forall b :: 0 <= b < |s.table| ==> |s.table[b]| + Sum(AllChanges(s)) <= size
  }

  /** More than all calls together have left to do on chains of no more than `size` nodes. */
  function Share(n: nat, size: nat): nat
  {
    n * (3 * size + 10) + 1
  }

  ghost function Total(s: State, size: nat): nat
    requires 2 <= |s.table|
  {
    Sum(AllChanges(s)) * Share(|s.threads|, size) + Sum(AllLeft(s))
  }

  lemma LeftBound(s: State, size: nat)
    requires 2 <= |s.table| && Fits(s, size)
    ensures Sum(AllLeft(s)) < Share(|s.threads|, size)
  {
    SumBound(AllLeft(s), 3 * size + 10);
  }

  /** What one step does to the chain of its bucket and to its own call. */
  lemma OwnStep(s: State, t: nat)
    requires Inv(s) && t < |s.threads| && CanStep(s, t)
    ensures var (s', b) := (Step(s, t), BucketOf(s, s.threads[t]));
            && |s'.table| == |s.table| && |s'.threads| == |s.threads|
            && s'.threads == s.threads[t := s'.threads[t]] && s'.table == s.table[b := s'.table[b]]
            && Left(s', t) < Left(s, t)
            && var (x, y) := (ChangesLeft(s.threads[t]), ChangesLeft(s'.threads[t]));
               && y <= x && (s'.table != s.table ==> y < x && |s'.table[b]| + y <= |s.table[b]| + x)
  {
    assert ThreadOk(s.table[BucketOf(s, s.threads[t])], s.threads[t]);
    StepFrame(s, t);
  }

  /** The chain got longer by no more than the changes left got fewer. */
  lemma FitsKept(s: State, t: nat, size: nat)
    requires Inv(s) && t < |s.threads| && CanStep(s, t) && Fits(s, size)
    ensures var s' := Step(s, t);
            && |s'.threads| == |s.threads| && Fits(s', size) && Sum(AllChanges(s')) <= Sum(AllChanges(s))
            && (s'.table != s.table ==> Sum(AllChanges(s')) < Sum(AllChanges(s)))
  {
    OwnStep(s, t);
    SumChange(AllChanges(s), AllChanges(Step(s, t)), t);
  }

  lemma LeftFalls(s: State, t: nat)
    requires Inv(s) && t < |s.threads| && CanStep(s, t) && Step(s, t).table == s.table
    ensures Sum(AllLeft(Step(s, t))) < Sum(AllLeft(s))
  {
    OwnStep(s, t);
    SumChange(AllLeft(s), AllLeft(Step(s, t)), t);
  }

  lemma StepCounts(s: State, t: nat, size: nat)
    requires Inv(s) && t < |s.threads| && CanStep(s, t) && Fits(s, size)
    ensures var s' := Step(s, t);
            2 <= |s'.table| && |s'.threads| == |s.threads| && Fits(s', size) && Total(s', size) < Total(s, size)
  {
    var s' := Step(s, t);
    FitsKept(s, t, size);
    StepFrame(s, t);
    var x, y := Sum(AllChanges(s)), Sum(AllChanges(s'));
    if y < x {
      LeftBound(s', size);
      LessPairs(x, y, Share(|s.threads|, size), Sum(AllLeft(s)), Sum(AllLeft(s')));
    } else {
      LeftFalls(s, t);
    }
  }

  /** A schedule of steps of calls under way. */
  predicate Works(s: State, us: seq<nat>)
    decreases |us|
  {
    us == [] || (Enabled(s, Move(us[0])) && Works(Next(s, Move(us[0])), us[1..]))
  }

  function Moves(us: seq<nat>): (es: seq<Event>)
    ensures |es| == |us| && forall i :: 0 <= i < |us| ==> es[i] == Move(us[i])
  {
    seq(|us|, i requires 0 <= i < |us| => Move(us[i]))
  }

  /** No call can go on. */
  predicate AtRest(s: State)
  {
    forall t: nat :: t < |s.threads| ==> !Enabled(s, Move(t))
  }

  lemma {:induction false} WorkBounded(s: State, us: seq<nat>, size: nat)
    requires Inv(s) && Works(s, us) && Fits(s, size)
    ensures Run(s, Moves(us)).Some?
    ensures var s' := Run(s, Moves(us)).value.0;
            Inv(s') && |s'.threads| == |s.threads| && |us| + Total(s', size) <= Total(s, size)
    decreases |us|
  {
    if us != [] {
      EventOk(s, Move(us[0]));
      StepCounts(s, us[0], size);
      WorkBounded(Step(s, us[0]), us[1..], size);
      assert Moves(us)[1..] == Moves(us[1..]);
    }
  }

  lemma RestIsIdle(s: State, t: nat)
    requires Inv(s) && AtRest(s) && t < |s.threads|
    ensures s.threads[t].pc == Idle
  {
    var b := BucketOf(s, s.threads[t]);
    assert ThreadOk(s.table[b], s.threads[t]);
    if s.threads[t].pc != Idle {
      var u := t;
      if s.owner[b].Some? && s.threads[t].pc == Lock {
        u := s.owner[b].value;
        assert Holds(s, u, b) && ThreadOk(s.table[b], s.threads[u]);
      }
      assert Enabled(s, Move(u));
    }
  }

  lemma TotalBound(s: State, size: nat)
    requires 2 <= |s.table| && Fits(s, size)
    ensures Total(s, size) < (|s.threads| + 1) * Share(|s.threads|, size)
  {
    LeftBound(s, size);
    SumBound(AllChanges(s), 1);
    LessPairs(|s.threads| + 1, Sum(AllChanges(s)), Share(|s.threads|, size), 0, Sum(AllLeft(s)));
  }

  /** The schedule runs in no more than `bound` steps; if it cannot be continued then, every call has returned. */
  ghost predicate EndsWithin(s: State, us: seq<nat>, bound: nat)
  {
    && |us| <= bound && Run(s, Moves(us)).Some?
    && var s' := Run(s, Moves(us)).value.0; |s'.threads| == |s.threads| && (AtRest(s') ==> AllIdle(s'))
  }

  lemma WorkEnds(s: State, us: seq<nat>, longest: nat)
    requires Inv(s) && Works(s, us) && forall b :: 0 <= b < |s.table| ==> |s.table[b]| <= longest
    ensures EndsWithin(s, us, (|s.threads| + 1) * Share(|s.threads|, longest + |s.threads|))
  {
    var size := longest + |s.threads|;
    SumBound(AllChanges(s), 1);
    WorkBounded(s, us, size);
    TotalBound(s, size);
    var s' := Run(s, Moves(us)).value.0;
    forall t: nat | t < |s'.threads| && AtRest(s')
      ensures s'.threads[t].pc == Idle
    {
      RestIsIdle(s', t);
    }
  }

  /** In any run: once no more calls are started, every schedule ends, and when it cannot be continued every call has
      returned. `longest` is the length of the longest chain. */
  lemma CallsEnd(size: nat, n: nat, es: seq<Event>, us: seq<nat>, longest: nat)
    requires 2 <= size && Run(Init(size, n), es).Some? && Works(Run(Init(size, n), es).value.0, us)
    requires var s := Run(Init(size, n), es).value.0; forall b :: 0 <= b < |s.table| ==> |s.table[b]| <= longest
    ensures EndsWithin(Run(Init(size, n), es).value.0, us, (n + 1) * Share(n, longest + n))
  {
    RunInv(size, n, es);
    WorkEnds(Run(Init(size, n), es).value.0, us, longest);
  }

  // ---- One call after the other ----

  lemma OneCall(s0: State, s: State, seen: seq<Action>, op: Op) returns (s': State, res: Result)
    requires (s, seen) in From(s0) && Inv(s) && 0 < |s.threads| && AllIdle(s) && (op.Put? || op.GetEqual? || op.Remove?)
    ensures (s', seen + [Call(0, op), Reply(0, res)]) in From(s0)
    ensures Inv(s') && |s'.threads| == |s.threads| && AllIdle(s')
  {
    EventOk(s, Invoke(0, op));
    var s1 := Then(s0, s, seen, Invoke(0, op));
    AloneIsUnblocked(s1, 0);
    var s2 := ToItsEnd(s0, s1, seen + [Call(0, op)], 0);
    assert ThreadOk(s2.table[BucketOf(s2, s2.threads[0])], s2.threads[0]);
    EventOk(s2, Move(0));
    res := s2.threads[0].res.value;
    s' := Then(s0, s2, seen + [Call(0, op)], Move(0));
    assert seen + [Call(0, op)] + [Reply(0, res)] == seen + [Call(0, op), Reply(0, res)];
  }

  /** A state between two calls. */
  ghost predicate Between(s0: State, s: State, seen: seq<Action>, ops: seq<Op>)
  {
    (s, seen) in From(s0) && Inv(s) && 0 < |s.threads| && AllIdle(s) && Sequential(seen) && Ops(seen) == ops
  }

  lemma {:induction false} CallAll(s0: State, ops: seq<Op>) returns (s: State, seen: seq<Action>)
    requires Between(s0, s0, [], [])
    requires forall i :: 0 <= i < |ops| ==> ops[i].Put? || ops[i].GetEqual? || ops[i].Remove?
    ensures Between(s0, s, seen, ops)
    decreases |ops|
  {
    if ops == [] {
      s, seen := s0, [];
    } else {
      var k := |ops| - 1;
      assert ops == ops[..k] + [ops[k]];
      var res;
      s, seen := CallAll(s0, ops[..k]);
      s, res := OneCall(s0, s, seen, ops[k]);
      OneMore(seen, 0, ops[k], res);
      seen := seen + [Call(0, ops[k]), Reply(0, res)];
    }
  }

  /** For any operations there is a run that calls them one after the other. */
  lemma Calls(s0: State, ops: seq<Op>) returns (es: seq<Event>)
    requires Inv(s0) && 0 < |s0.threads| && AllIdle(s0)
    requires forall i :: 0 <= i < |ops| ==> ops[i].Put? || ops[i].GetEqual? || ops[i].Remove?
    ensures Run(s0, es).Some? && Sequential(Run(s0, es).value.1) && Ops(Run(s0, es).value.1) == ops
  {
    assert Leads(s0, [], s0, []);
    var s, seen := CallAll(s0, ops);
    es :| Leads(s0, es, s, seen);
  }
}
