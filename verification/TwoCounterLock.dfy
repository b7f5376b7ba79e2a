/** The ticket lock (locks/TwoCounterLock.hpp) on counters that wrap around after `range` values (2^64 for usize). */
module TwoCounterLock {
  import opened Elements
  import opened Queues
  import opened Sums
  import opened Remainders
  import FifoLock
  import CountingClient

  /** Named after what the thread does next. */
  datatype Pc = Out | Spin | Inside

  datatype Thread = Thread(pc: Pc, ticket: nat)

  /** `queue` is bookkeeping: the threads in the order of their tickets, until they leave. */
  datatype State = State(range: nat, current: nat, counter: nat, threads: seq<Thread>, queue: seq<nat>)

  function Init(range: nat, n: nat): State
  {
    State(range, 0, 0, seq(n, _ => Thread(Out, 0)), [])
  }

  function Step(s: State, t: nat): State
    requires t < |s.threads|
  {
    var th := s.threads[t];
    match th.pc
    case Out =>
      s.(counter := Add1(s.counter, s.range), threads := s.threads[t := Thread(Spin, s.counter)], queue := s.queue + [t])
    case Spin => if s.current == th.ticket then s.(threads := s.threads[t := th.(pc := Inside)]) else s
    case Inside =>
      s.(current := Add1(s.current, s.range), threads := s.threads[t := th.(pc := Out)], queue := Without(s.queue, t))
  }

  function Visible(s: State, t: nat): seq<FifoLock.Event>
    requires t < |s.threads|
  {
    match s.threads[t].pc
    case Out => [FifoLock.Doorway(t)]
    case Spin => if s.current == s.threads[t].ticket then [FifoLock.Enter(t)] else []
    case Inside => [FifoLock.Exit(t)]
  }

  function Run(s: State, ts: seq<nat>): Option<(State, seq<FifoLock.Event>)>
    decreases |ts|
  {
    if ts == [] then Some((s, []))
    else if ts[0] >= |s.threads| then None
    else
      match Run(Step(s, ts[0]), ts[1..])
      case None => None
      case Some((b, seen)) => Some((b, Visible(s, ts[0]) + seen))
  }

  // ---- The invariant, with no more threads than values ----

  /** The ticket `i` after the current one. */
  function Ticket(s: State, i: nat): int
  {
    if s.current + i < s.range then s.current + i else s.current + i - s.range
  }

  ghost predicate SlotOk(s: State, i: int)
  {
    && 0 <= i < |s.queue| && s.queue[i] < |s.threads|
    && s.threads[s.queue[i]].ticket == Ticket(s, i)
    && s.threads[s.queue[i]].pc != Out && (0 < i ==> s.threads[s.queue[i]].pc == Spin)
  }

  ghost predicate Inv(s: State)
  {
    && |s.threads| <= s.range && 0 <= s.current < s.range && NoRepeats(s.queue) && |s.queue| <= |s.threads|
    && s.counter == Ticket(s, |s.queue|)
    && (forall i {:trigger SlotOk(s, i)} :: 0 <= i < |s.queue| ==> SlotOk(s, i))
    && (forall t: nat {:trigger t in s.queue} :: t < |s.threads| ==> (t in s.queue <==> s.threads[t].pc != Out))
  }

  function Abstract(s: State): FifoLock.State
  {
    FifoLock.State(s.queue, s.queue != [] && s.queue[0] < |s.threads| && s.threads[s.queue[0]].pc == Inside)
  }

  lemma {:induction false} NoMoreThan(q: seq<nat>, n: nat)
    requires NoRepeats(q) && forall i :: 0 <= i < |q| ==> q[i] < n
    ensures |q| <= n
    decreases n
  {
    assert |q| == 0 || q[0] < n;
    if n > 0 && n - 1 in q {
      var k :| 0 <= k < |q| && q[k] == n - 1;
      var rest := q[..k] + q[k + 1..];
      assert forall i :: 0 <= i < |rest| ==> rest[i] == if i < k then q[i] else q[i + 1];
      NoMoreThan(rest, n - 1);
    } else if n > 0 {
      NoMoreThan(q, n - 1);
    }
  }

  lemma StepOk(s: State, t: nat)
    requires Inv(s) && t < |s.threads|
    ensures Inv(Step(s, t)) && |Step(s, t).threads| == |s.threads| && Step(s, t).range == s.range
    ensures FifoLock.Run(Abstract(s), Visible(s, t)) == Some(Abstract(Step(s, t)))
  {
    var s' := Step(s, t);
    if s.threads[t].pc == Out {
      assert t !in s.queue;
      JoinOk(s, t);
    } else {
      assert t in s.queue;
      var k :| 0 <= k < |s.queue| && s.queue[k] == t;
      assert SlotOk(s, k);
      if s.threads[t].pc == Inside {
        LeaveOk(s, t);
        assert 1 < |s.queue| ==> SlotOk(s, 1);
      } else {
        forall i | 0 <= i < |s'.queue|
          ensures SlotOk(s', i)
        {
          assert SlotOk(s, i);
        }
      }
    }
  }

  lemma JoinOk(s: State, t: nat)
    requires Inv(s) && t < |s.threads| && s.threads[t].pc == Out
    ensures Inv(Step(s, t)) && Step(s, t).queue == s.queue + [t]
  {
    var s' := Step(s, t);
    assert t !in s.queue;
    forall i | 0 <= i < |s'.queue|
      ensures s'.queue[i] < |s.threads| && (i < |s.queue| ==> SlotOk(s, i))
    {
      assert i < |s.queue| ==> SlotOk(s, i);
    }
    NoMoreThan(s'.queue, |s.threads|);
    forall i | 0 <= i < |s'.queue|
      ensures SlotOk(s', i)
    {
    }
    assert s'.queue[|s.queue|] == t;
    assert forall u: nat :: u < |s.threads| ==> (u in s'.queue <==> u in s.queue || u == t);
  }

  lemma LeaveOk(s: State, t: nat)
    requires Inv(s) && t < |s.threads| && s.threads[t].pc == Inside
    ensures s.queue != [] && s.queue[0] == t
    ensures Inv(Step(s, t)) && Step(s, t).queue == s.queue[1..]
  {
    var s' := Step(s, t);
    assert t in s.queue;
    var k :| 0 <= k < |s.queue| && s.queue[k] == t;
    assert SlotOk(s, k);
    assert s'.queue == s.queue[1..];
    forall i | 0 <= i < |s'.queue|
      ensures SlotOk(s', i)
    {
      assert SlotOk(s, i + 1);
    }
    forall u: nat | u < |s.threads|
      ensures u in s'.queue <==> s'.threads[u].pc != Out
    {
      assert u in s.queue <==> s.threads[u].pc != Out;
      assert u in s.queue <==> u == t || u in s'.queue;
    }
  }

  lemma {:induction false} RunOk(s: State, ts: seq<nat>)
    requires Inv(s) && Run(s, ts).Some?
    ensures Inv(Run(s, ts).value.0) && |Run(s, ts).value.0.threads| == |s.threads|
    ensures FifoLock.Run(Abstract(s), Run(s, ts).value.1) == Some(Abstract(Run(s, ts).value.0))
    decreases |ts|
  {
    if ts != [] {
      var s1 := Step(s, ts[0]);
      StepOk(s, ts[0]);
      RunOk(s1, ts[1..]);
      FifoLock.RunConcat(Abstract(s), Visible(s, ts[0]), Run(s1, ts[1..]).value.1);
    }
  }

  /** However often the counters wrap around, the lock behaves like the specification, provided that there are no
      more threads than counter values. */
  lemma RefinesFifo(range: nat, n: nat, ts: seq<nat>)
    requires 0 < range && n <= range && Run(Init(range, n), ts).Some?
    ensures var (s, seen) := Run(Init(range, n), ts).value;
            FifoLock.Run(FifoLock.START, seen) == Some(Abstract(s)) && FifoLock.InOrder(seen)
  {
    RunOk(Init(range, n), ts);
    FifoLock.FirstComeFirstServed(Run(Init(range, n), ts).value.1);
  }

  // ---- Every call ends ----

  /** How many steps the rest of a call takes, waiting apart. */
  function ToGo(pc: Pc): nat
  {
    match pc
    case Out => 0
    case Inside => 1
    case Spin => 2
  }

  function AllToGo(s: State): seq<nat>
  {
    seq(|s.threads|, t requires 0 <= t < |s.threads| => ToGo(s.threads[t].pc))
  }

  /** The thread waits, and its ticket is not the current one. */
  predicate Spins(s: State, t: nat)
    requires t < |s.threads|
  {
    s.threads[t].pc == Spin && s.current != s.threads[t].ticket
  }

  /** A schedule in which no call starts and no thread spins. */
  predicate Works(s: State, us: seq<nat>)
    decreases |us|
  {
    us == [] ||
    (us[0] < |s.threads| && s.threads[us[0]].pc != Out && !Spins(s, us[0]) && Works(Step(s, us[0]), us[1..]))
  }

  /** Nobody has a step left in its call but spinning. */
  predicate AtRest(s: State)
  {
    forall t: nat :: t < |s.threads| ==> s.threads[t].pc == Out || Spins(s, t)
  }

  lemma StepCounts(s: State, t: nat)
    requires t < |s.threads| && s.threads[t].pc != Out
    ensures if Spins(s, t) then Step(s, t) == s else ToGo(Step(s, t).threads[t].pc) < ToGo(s.threads[t].pc)
    ensures |Step(s, t).threads| == |s.threads|
    ensures forall u: nat :: u < |s.threads| && u != t ==> Step(s, t).threads[u] == s.threads[u]
  {
  }

  lemma SomebodyCan(s: State, t: nat) returns (u: nat)
    requires Inv(s) && t < |s.threads| && s.threads[t].pc != Out
    ensures u < |s.threads| && s.queue != [] && u == s.queue[0] && s.threads[u].pc != Out && !Spins(s, u)
  {
    assert t in s.queue;
    assert SlotOk(s, 0);
    u := s.queue[0];
  }

  lemma {:induction false} WorkBounded(s: State, us: seq<nat>)
    requires Inv(s) && Works(s, us)
    ensures Run(s, us).Some? && Inv(Run(s, us).value.0) && |Run(s, us).value.0.threads| == |s.threads|
    ensures |us| + Sum(AllToGo(Run(s, us).value.0)) <= Sum(AllToGo(s))
    decreases |us|
  {
    if us != [] {
      var s1 := Step(s, us[0]);
      StepOk(s, us[0]);
      StepCounts(s, us[0]);
      SumChange(AllToGo(s), AllToGo(s1), us[0]);
      WorkBounded(s1, us[1..]);
    }
  }

  /** Nobody waits for ever: a schedule that starts no call and lets nobody spin is finite, and when it cannot be
      continued every thread has left its call. */
  lemma CallsEnd(range: nat, n: nat, ts: seq<nat>, us: seq<nat>)
    requires 0 < range && n <= range && Run(Init(range, n), ts).Some?
    requires Works(Run(Init(range, n), ts).value.0, us)
    ensures var s := Run(Init(range, n), ts).value.0;
            && |us| <= n * 2 && Run(s, us).Some?
            && var s' := Run(s, us).value.0;
               && |s'.threads| == n
               && (AtRest(s') ==> forall t :: 0 <= t < n ==> s'.threads[t].pc == Out)
  {
    RunOk(Init(range, n), ts);
    var s := Run(Init(range, n), ts).value.0;
    WorkBounded(s, us);
    SumBound(AllToGo(s), 2);
    var s' := Run(s, us).value.0;
    if t: nat :| t < n && s'.threads[t].pc != Out {
      var u := SomebodyCan(s', t);
    }
  }

  /** In any run, a step within a call is spinning, which changes nothing, or brings the call nearer to its end. */
  lemma EveryStepCounts(range: nat, n: nat, ts: seq<nat>, t: nat)
    requires 0 < range && n <= range && Run(Init(range, n), ts).Some?
    requires t < n
    ensures var s := Run(Init(range, n), ts).value.0;
            && |s.threads| == n
            && (s.threads[t].pc != Out ==>
                  if Spins(s, t) then Step(s, t) == s else ToGo(Step(s, t).threads[t].pc) < ToGo(s.threads[t].pc))
  {
    RunOk(Init(range, n), ts);
    var s := Run(Init(range, n), ts).value.0;
    if s.threads[t].pc != Out {
      StepCounts(s, t);
    }
  }

  /** While anybody is in the queue, its first thread has a step that is not spinning. */
  lemma SomebodyMoves(range: nat, n: nat, ts: seq<nat>, t: nat)
    requires 0 < range && n <= range && Run(Init(range, n), ts).Some? && t < n
    ensures var s := Run(Init(range, n), ts).value.0;
            && |s.threads| == n
            && (s.threads[t].pc != Out ==>
                  && s.queue != [] && s.queue[0] < n
                  && Step(s, s.queue[0]).threads[s.queue[0]].pc != s.threads[s.queue[0]].pc)
  {
    RunOk(Init(range, n), ts);
    var s := Run(Init(range, n), ts).value.0;
    assert t in s.queue <==> s.threads[t].pc != Out;
    if s.queue != [] {
      assert SlotOk(s, 0);
    }
  }

  // ---- More threads than values ----

  predicate OneInside(s: State)
  {
    forall t, u :: 0 <= t < u < |s.threads| ==> !(s.threads[t].pc == Inside && s.threads[u].pc == Inside)
  }

  lemma {:induction false} RunLast(s: State, ts: seq<nat>, t: nat)
    requires Run(s, ts).Some? && t < |Run(s, ts).value.0.threads|
    ensures Run(s, ts + [t]).Some? && Run(s, ts + [t]).value.0 == Step(Run(s, ts).value.0, t)
    decreases |ts|
  {
    if ts == [] {
      assert [] + [t] == [t] && [t][1..] == [];
      assert Run(Step(s, t), []) == Some((Step(s, t), []));
    } else {
      assert (ts + [t])[1..] == ts[1..] + [t];
      RunLast(Step(s, ts[0]), ts[1..], t);
    }
  }

  /** The first `k` threads take tickets, one after the other. */
  lemma {:induction false} AllTakeTickets(range: nat, n: nat, k: nat) returns (ts: seq<nat>)
    requires 0 < range < n && k <= range + 1
    ensures Run(Init(range, n), ts).Some?
    ensures var s := Run(Init(range, n), ts).value.0;
            && s.range == range && s.current == 0 && |s.threads| == n && (k <= range ==> s.counter == if k < range then k else 0)
            && forall t :: 0 <= t < n ==>
                 if t < k then s.threads[t] == Thread(Spin, if t < range then t else 0) else s.threads[t].pc == Out
  {
    if k == 0 {
      ts := [];
    } else {
      ts := AllTakeTickets(range, n, k - 1);
      RunLast(Init(range, n), ts, k - 1);
      ts := ts + [k - 1];
    }
  }

  /** One thread more than there are values: the first and the last hold the same ticket and both get in. */
  lemma TwoGetIn(range: nat, n: nat) returns (ts: seq<nat>)
    requires 0 < range < n
    ensures Run(Init(range, n), ts).Some? && !OneInside(Run(Init(range, n), ts).value.0)
  {
    ts := AllTakeTickets(range, n, range + 1);
    RunLast(Init(range, n), ts, 0);
    ts := ts + [0];
    RunLast(Init(range, n), ts, range);
    ts := ts + [range];
    var s := Run(Init(range, n), ts).value.0;
    assert s.threads[0].pc == Inside && s.threads[range].pc == Inside;
  }

  /** Mutual exclusion holds in every run exactly when there are no more threads than counter values. */
  lemma MutualExclusionIff(range: nat, n: nat)
    requires 0 < range
    ensures n <= range <==> forall ts :: Run(Init(range, n), ts).Some? ==> OneInside(Run(Init(range, n), ts).value.0)
  {
    if n <= range {
      forall ts | Run(Init(range, n), ts).Some?
        ensures OneInside(Run(Init(range, n), ts).value.0)
      {
        RunOk(Init(range, n), ts);
        var s := Run(Init(range, n), ts).value.0;
        forall t, u | 0 <= t < u < |s.threads|
          ensures !(s.threads[t].pc == Inside && s.threads[u].pc == Inside)
        {
          if s.threads[t].pc == Inside && s.threads[u].pc == Inside {
            LeaveOk(s, t);
            LeaveOk(s, u);
          }
        }
      }
    } else {
      var ts := TwoGetIn(range, n);
    }
  }

  /** The test program: no increment made under the lock is lost. */
  lemma CountsUp(range: nat, n: nat, k: nat, ts: seq<nat>, xs: seq<CountingClient.Action>)
    requires 0 < range && n <= range
    requires Run(Init(range, n), ts).Some? && CountingClient.LockPart(xs) == Run(Init(range, n), ts).value.1
    requires CountingClient.DoAll(CountingClient.Fresh(n), xs).Some?
    requires forall t: nat :: t < n ==> CountingClient.StoresBy(t, xs) == k
    ensures CountingClient.DoAll(CountingClient.Fresh(n), xs).value.counter == n * k
  {
    RefinesFifo(range, n, ts);
    CountingClient.CountsUp(n, k, xs);
  }
}
