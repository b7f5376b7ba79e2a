/** The cyclic barrier (barrier/Barrier.hpp and Barrier.java), used by exactly `nThreads` threads. */
module Barrier {
  import opened Elements
  import opened FiniteSets
  import opened Remainders
  import opened Sums

  datatype Lang = Cpp | Java

  /** Named after what the thread does next. `Outside` is outside and about to lock the mutex; `Asleep` is inside the
      wait, without the mutex. */
  datatype Pc =
    | Outside | IncCount | ReadMarch | Compare
    | ZeroCount | IncMarch | Unlock | Notify
    | Test | Wait | Asleep | Woken | Leave

  /** `arrivals` and `done` are bookkeeping: how many calls the thread has counted in and how many have returned. */
  datatype Thread = Thread(pc: Pc, check: nat, arrivals: nat, done: nat)

  /** `march` wraps around after `range` values. `round` and `releaser` are bookkeeping: how often `march` was
      incremented, and by whom last. */
  datatype State = State(lang: Lang, range: nat, count: nat, march: nat, mutex: Option<nat>, threads: seq<Thread>,
                         round: nat, releaser: nat)

  function Init(lang: Lang, range: nat, n: nat): State
  {
    State(lang, range, 0, 0, None, seq(n, _ => Thread(Outside, 0, 0, 0)), 0, 0)
  }

  /** `Spurious` wakes a sleeping thread without anybody having notified it. */
  datatype Event = Move(t: nat) | Spurious(t: nat)

  predicate Enabled(s: State, e: Event)
  {
    && 0 < s.range && e.t < |s.threads|
    && match e
       case Move(t) =>
         match s.threads[t].pc {
           case Outside | Woken => s.mutex.None?
           case Asleep => false
           case _ => true
         }
       case Spurious(t) => s.threads[t].pc == Asleep
  }

  function Goto(s: State, t: nat, pc: Pc): State
    requires t < |s.threads|
  {
    s.(threads := s.threads[t := s.threads[t].(pc := pc)])
  }

  /** The call is over. */
  function Return(s: State, t: nat): State
    requires t < |s.threads|
  {
    s.(threads := s.threads[t := s.threads[t].(pc := Outside, done := s.threads[t].done + 1)])
  }

  function WakeAll(ths: seq<Thread>): seq<Thread>
  {
    seq(|ths|, i requires 0 <= i < |ths| => if ths[i].pc == Asleep then ths[i].(pc := Woken) else ths[i])
  }

  function Next(s: State, e: Event): State
    requires Enabled(s, e)
  {
    match e
    case Spurious(t) => Goto(s, t, Woken)
    case Move(t) => Step(s, t)
  }

  function Step(s: State, t: nat): State
    requires Enabled(s, Move(t))
  {
    var th := s.threads[t];
    match th.pc
    case Outside => Goto(s.(mutex := Some(t)), t, IncCount)
    case IncCount =>
      s.(count := s.count + 1, threads := s.threads[t := th.(pc := ReadMarch, arrivals := th.arrivals + 1)])
    case ReadMarch => s.(threads := s.threads[t := th.(pc := Compare, check := s.march)])
    case Compare => Goto(s, t, if s.count == |s.threads| then ZeroCount else Test)
    case ZeroCount => Goto(s.(count := 0), t, IncMarch)
    case IncMarch =>
      Goto(s.(march := (s.march + 1) % s.range, round := s.round + 1, releaser := t), t,
           if s.lang == Cpp then Unlock else Notify)
    case Unlock => if s.lang == Cpp then Goto(s.(mutex := None), t, Notify) else Return(s.(mutex := None), t)
    case Notify =>
      var woken := s.(threads := WakeAll(s.threads));
      if s.lang == Cpp then Return(woken, t) else Goto(woken, t, Unlock)
    case Test => Goto(s, t, if th.check != s.march then Leave else Wait)
    case Wait => Goto(s.(mutex := None), t, Asleep)
    case Woken => Goto(s.(mutex := Some(t)), t, Test)
    case Leave => Return(s.(mutex := None), t)
    case Asleep => s
  }

  function Run(s: State, es: seq<Event>): Option<State>
    decreases |es|
  {
    if es == [] then Some(s)
    else if !Enabled(s, es[0]) then None
    else Run(Next(s, es[0]), es[1..])
  }

  // ---- The invariant ----

  predicate HoldsMutex(lang: Lang, pc: Pc)
  {
    pc !in {Outside, Asleep, Woken} && (pc == Notify ==> lang == Java)
  }

  predicate Waiting(pc: Pc)
  {
    pc in {Test, Wait, Asleep, Woken}
  }

  function Arrived(s: State): set<int>
  {
    set u | 0 <= u < |s.threads| && s.threads[u].arrivals == s.round + 1
  }

  ghost predicate ThreadOk(s: State, t: nat)
    requires t < |s.threads| && 0 < s.range
  {
    var th := s.threads[t];
    && (s.mutex == Some(t) <==> HoldsMutex(s.lang, th.pc))
    && (th.arrivals == s.round || th.arrivals == s.round + 1)
    && match th.pc
       case Outside | IncCount => th.done == th.arrivals == s.round
       case ReadMarch => th.done == s.round && th.arrivals == s.round + 1
       case Compare => th.done == s.round && th.arrivals == s.round + 1 && th.check == s.march
       case ZeroCount => th.done == s.round && th.arrivals == s.round + 1 && s.count == |s.threads|
       case IncMarch =>
         && th.done == s.round && s.count == 0
         && forall u :: 0 <= u < |s.threads| ==> s.threads[u].arrivals == s.round + 1
       case Unlock | Notify => th.done + 1 == th.arrivals == s.round && t == s.releaser
       case Leave => th.done + 1 == th.arrivals == s.round
       case _ =>
         && th.done + 1 == th.arrivals && th.check == th.done % s.range
         && (th.pc == Wait ==> th.arrivals == s.round + 1)
         && (th.pc == Asleep && th.arrivals == s.round ==> NotifyPending(s))
  }

  /** The thread that ended the last round has yet to notify. */
  predicate NotifyPending(s: State)
  {
    s.releaser < |s.threads| && (s.threads[s.releaser].pc == Notify || (s.lang == Cpp && s.threads[s.releaser].pc == Unlock))
  }

  ghost predicate CountOk(s: State)
  {
    && (match s.mutex
        case None => s.count < |s.threads| || |s.threads| == 0
        case Some(h) =>
          && h < |s.threads|
          && (s.threads[h].pc !in {ReadMarch, Compare, ZeroCount} ==> s.count < |s.threads|))
    && ((s.mutex.Some? && s.mutex.value < |s.threads| && s.threads[s.mutex.value].pc == IncMarch) || s.count == |Arrived(s)|)
  }

  ghost predicate Inv(s: State)
  {
    && 2 <= s.range && s.march == s.round % s.range && CountOk(s)
    && forall t: nat {:trigger ThreadOk(s, t)} :: t < |s.threads| ==> ThreadOk(s, t)
  }

  lemma ArrivedBound(s: State)
    ensures |Arrived(s)| <= |s.threads|
    ensures |Arrived(s)| == |s.threads| <==> forall u :: 0 <= u < |s.threads| ==> s.threads[u].arrivals == s.round + 1
  {
    assert Arrived(s) <= Below(|s.threads|);
    SubsetCount(Arrived(s), Below(|s.threads|));
    assert forall u :: 0 <= u < |s.threads| && u in Arrived(s) ==> s.threads[u].arrivals == s.round + 1;
    if forall u :: 0 <= u < |s.threads| ==> s.threads[u].arrivals == s.round + 1 {
      assert Arrived(s) == Below(|s.threads|);
    }
    if |Arrived(s)| == |s.threads| {
      assert forall u :: 0 <= u < |s.threads| ==> u in Arrived(s);
    }
  }

  /** What a waiting thread reads from `check == march`: whether its round is still the current one. */
  lemma TestIsExact(s: State, t: nat)
    requires Inv(s) && t < |s.threads| && Waiting(s.threads[t].pc)
    ensures s.threads[t].check == s.march <==> s.threads[t].arrivals == s.round + 1
  {
    assert ThreadOk(s, t);
    var th := s.threads[t];
    if th.arrivals == s.round {
      ModApart(th.done, s.round, s.range);
    }
  }

  lemma LockOk(s: State, t: nat)
    requires Inv(s) && Enabled(s, Move(t)) && s.threads[t].pc in {Outside, Woken}
    ensures Inv(Step(s, t))
  {
    var s' := Step(s, t);
    assert ThreadOk(s, t);
    assert Arrived(s') == Arrived(s);
    forall u: nat | u < |s'.threads|
      ensures ThreadOk(s', u)
    {
      assert ThreadOk(s, u);
    }
  }

  lemma ReadOk(s: State, t: nat)
    requires Inv(s) && Enabled(s, Move(t)) && s.threads[t].pc in {ReadMarch, Compare, ZeroCount}
    ensures Inv(Step(s, t))
  {
    var s' := Step(s, t);
    assert ThreadOk(s, t);
    ArrivedBound(s);
    assert Arrived(s') == Arrived(s);
    forall u: nat | u < |s'.threads|
      ensures ThreadOk(s', u)
    {
      assert ThreadOk(s, u);
    }
  }

  lemma TestOk(s: State, t: nat)
    requires Inv(s) && Enabled(s, Move(t)) && s.threads[t].pc in {Test}
    ensures Inv(Step(s, t))
  {
    var s' := Step(s, t);
    assert ThreadOk(s, t);
    TestIsExact(s, t);
    assert Arrived(s') == Arrived(s);
    forall u: nat | u < |s'.threads|
      ensures ThreadOk(s', u)
    {
      assert ThreadOk(s, u);
    }
  }

  lemma LeaveOk(s: State, t: nat)
    requires Inv(s) && Enabled(s, Move(t)) && s.threads[t].pc in {Wait, Leave}
    ensures Inv(Step(s, t))
  {
    var s' := Step(s, t);
    assert ThreadOk(s, t);
    assert Arrived(s') == Arrived(s);
    forall u: nat | u < |s'.threads|
      ensures ThreadOk(s', u)
    {
      assert ThreadOk(s, u);
    }
  }

  lemma UnlockOk(s: State, t: nat)
    requires Inv(s) && Enabled(s, Move(t)) && s.threads[t].pc in {Unlock}
    ensures Inv(Step(s, t))
  {
    var s' := Step(s, t);
    assert ThreadOk(s, t);
    assert Arrived(s') == Arrived(s);
    forall u: nat | u < |s'.threads|
      ensures ThreadOk(s', u)
    {
      assert ThreadOk(s, u);
    }
  }

  lemma OneMoreArrived(s: State, s': State, t: nat)
    requires t < |s.threads| == |s'.threads| && s'.round == s.round && s.threads[t].arrivals == s.round
    requires s'.threads == s.threads[t := s'.threads[t]] && s'.threads[t].arrivals == s.round + 1
    ensures |Arrived(s')| == |Arrived(s)| + 1
  {
    assert t !in Arrived(s);
    forall u
      ensures u in Arrived(s') <==> u in Arrived(s) + {t as int}
    {
      assert 0 <= u < |s.threads| && u != t ==> s'.threads[u] == s.threads[u];
    }
    assert Arrived(s') == Arrived(s) + {t as int};
  }

  lemma CountInOk(s: State, t: nat)
    requires Inv(s) && Enabled(s, Move(t)) && s.threads[t].pc == IncCount
    ensures Inv(Step(s, t))
  {
    var s' := Step(s, t);
    assert ThreadOk(s, t);
    OneMoreArrived(s, s', t);
    assert CountOk(s');
    forall u: nat | u < |s'.threads|
      ensures ThreadOk(s', u)
    {
      assert ThreadOk(s, u);
    }
  }

  /** The last to arrive starts the next round, of which nobody has arrived yet. */
  lemma NextRoundOk(s: State, t: nat)
    requires Inv(s) && Enabled(s, Move(t)) && s.threads[t].pc == IncMarch
    ensures Inv(Step(s, t))
  {
    var s' := Step(s, t);
    assert ThreadOk(s, t);
    ModSucc(s.round, s.range);
    assert Arrived(s') == {};
    forall u: nat | u < |s'.threads|
      ensures ThreadOk(s', u)
    {
      assert ThreadOk(s, u);
    }
  }

  lemma NotifyOk(s: State, t: nat)
    requires Inv(s) && Enabled(s, Move(t)) && s.threads[t].pc == Notify
    ensures Inv(Step(s, t))
  {
    var s' := Step(s, t);
    assert ThreadOk(s, t);
    assert forall u: nat :: u < |s.threads| ==> s'.threads[u].pc != Asleep;
    assert Arrived(s') == Arrived(s);
    forall u: nat | u < |s'.threads|
      ensures ThreadOk(s', u)
    {
      assert ThreadOk(s, u);
    }
  }

  lemma SpuriousOk(s: State, t: nat)
    requires Inv(s) && Enabled(s, Spurious(t))
    ensures Inv(Next(s, Spurious(t)))
  {
    var s' := Next(s, Spurious(t));
    assert ThreadOk(s, t);
    assert Arrived(s') == Arrived(s);
    forall u: nat | u < |s'.threads|
      ensures ThreadOk(s', u)
    {
      assert ThreadOk(s, u);
    }
  }

  lemma EventOk(s: State, e: Event)
    requires Inv(s) && Enabled(s, e)
    ensures Inv(Next(s, e)) && |Next(s, e).threads| == |s.threads|
  {
    match e
    case Spurious(t) => SpuriousOk(s, t);
    case Move(t) =>
      match s.threads[t].pc {
        case Outside | Woken => LockOk(s, t);
        case IncCount => CountInOk(s, t);
        case ReadMarch | Compare | ZeroCount => ReadOk(s, t);
        case IncMarch => NextRoundOk(s, t);
        case Unlock => UnlockOk(s, t);
        case Notify => NotifyOk(s, t);
        case Test => TestOk(s, t);
        case Wait | Leave => LeaveOk(s, t);
        case Asleep =>
      }
  }

  // ---- Over whole runs ----

  lemma InitOk(lang: Lang, range: nat, n: nat)
    requires 2 <= range
    ensures Inv(Init(lang, range, n))
  {
    var s := Init(lang, range, n);
    assert Arrived(s) == {};
    ModIs(0, range, 0, 0);
    assert forall t: nat :: t < n ==> ThreadOk(s, t);
  }

  lemma {:induction false} RunOk(s: State, es: seq<Event>)
    requires Inv(s) && Run(s, es).Some?
    ensures Inv(Run(s, es).value) && |Run(s, es).value.threads| == |s.threads|
    decreases |es|
  {
    if es != [] {
      EventOk(s, es[0]);
      RunOk(Next(s, es[0]), es[1..]);
    }
  }

  /** Rounds never overlap: when a thread has returned k times, every participant has arrived k times; and nobody
      is more than one call ahead of anybody else. `march` may have wrapped around any number of times. */
  lemma RoundsAreSeparate(lang: Lang, range: nat, n: nat, es: seq<Event>, t: nat, u: nat)
    requires 2 <= range && Run(Init(lang, range, n), es).Some? && t < n && u < n
    ensures var s := Run(Init(lang, range, n), es).value;
            && |s.threads| == n
            && s.threads[t].done <= s.threads[u].arrivals <= s.threads[t].done + 2
            && s.threads[u].arrivals <= s.threads[t].arrivals + 1
  {
    InitOk(lang, range, n);
    RunOk(Init(lang, range, n), es);
    var s := Run(Init(lang, range, n), es).value;
    assert ThreadOk(s, t) && ThreadOk(s, u);
  }

  /** The test `check == march` is right in every round: it holds for a waiting thread exactly while some
      participant has yet to arrive in its round, or the last to arrive has yet to say so. */
  lemma CheckLagsByOne(lang: Lang, range: nat, n: nat, es: seq<Event>, t: nat)
    requires 2 <= range && Run(Init(lang, range, n), es).Some? && t < n
    ensures var s := Run(Init(lang, range, n), es).value;
            && |s.threads| == n
            && var th := s.threads[t];
               Waiting(th.pc) ==>
                 && (th.check == s.march <==> th.arrivals == s.round + 1)
                 && (th.check != s.march <==> th.arrivals == s.round)
                 && (th.check != s.march ==> s.march == (th.check + 1) % range)
  {
    InitOk(lang, range, n);
    RunOk(Init(lang, range, n), es);
    RangeKept(Init(lang, range, n), es);
    var s := Run(Init(lang, range, n), es).value;
    if Waiting(s.threads[t].pc) {
      assert ThreadOk(s, t);
      TestIsExact(s, t);
      ModSucc(s.threads[t].done, range);
    }
  }

  lemma {:induction false} RangeKept(s: State, es: seq<Event>)
    requires Run(s, es).Some?
    ensures Run(s, es).value.range == s.range
    decreases |es|
  {
    if es != [] {
      RangeKept(Next(s, es[0]), es[1..]);
    }
  }

  /** The threads that wait for the end of the current round. */
  function CurrentWaiters(s: State): set<int>
  {
    set u | 0 <= u < |s.threads| && Waiting(s.threads[u].pc) && s.threads[u].check == s.march
  }

  /** Whenever the mutex is free, `count` is the number of threads waiting in the current round, and below
      `nThreads`; and a sleeping thread whose round is over has a notification coming. */
  lemma NoLostWakeup(lang: Lang, range: nat, n: nat, es: seq<Event>, t: nat)
    requires 2 <= range && Run(Init(lang, range, n), es).Some? && t < n
    ensures var s := Run(Init(lang, range, n), es).value;
            && |s.threads| == n
            && (s.mutex.None? ==> s.count == |CurrentWaiters(s)| && s.count < n)
            && (s.threads[t].pc == Asleep && s.threads[t].check != s.march ==> NotifyPending(s))
  {
    InitOk(lang, range, n);
    RunOk(Init(lang, range, n), es);
    var s := Run(Init(lang, range, n), es).value;
    assert ThreadOk(s, t);
    if Waiting(s.threads[t].pc) {
      TestIsExact(s, t);
    }
    if s.mutex.None? {
      forall u | 0 <= u < n
        ensures u in CurrentWaiters(s) <==> u in Arrived(s)
      {
        assert ThreadOk(s, u);
        if Waiting(s.threads[u].pc) {
          TestIsExact(s, u);
        }
      }
      assert CurrentWaiters(s) == Arrived(s);
    }
  }

  /** While all participants are in `sync`, one of them can step, without any spurious wakeup. */
  lemma NeverAllStuck(lang: Lang, range: nat, n: nat, es: seq<Event>)
    requires 2 <= range && 0 < n && Run(Init(lang, range, n), es).Some?
    requires var s := Run(Init(lang, range, n), es).value; forall t :: 0 <= t < |s.threads| ==> s.threads[t].pc != Outside
    ensures exists t: nat :: Enabled(Run(Init(lang, range, n), es).value, Move(t))
  {
    InitOk(lang, range, n);
    RunOk(Init(lang, range, n), es);
    var s := Run(Init(lang, range, n), es).value;
    if s.mutex.Some? {
      assert ThreadOk(s, s.mutex.value);
      assert Enabled(s, Move(s.mutex.value));
    } else if t: nat :| t < n && s.threads[t].pc != Asleep {
      assert ThreadOk(s, t);
      assert Enabled(s, Move(t));
    } else {
      ArrivedBound(s);
      var u: nat :| u < n && s.threads[u].arrivals != s.round + 1;
      assert ThreadOk(s, u);
      assert Enabled(s, Move(s.releaser));
    }
  }

  // ---- Every call of sync returns ----

  /** How many steps a thread may still take in its call before it sleeps or returns, counting for each thread that it
      may wake the three steps to sleep again. */
  function ToGo(s: State, pc: Pc): nat
  {
    var all := 3 * |s.threads|;
    match pc
    case Outside => 0
    case Asleep | Leave => 1
    case Wait => 2
    case Test => 3
    case Woken => 4
    case Unlock => if s.lang == Cpp then all + 3 else 1
    case Notify => all + 2
    case IncMarch => all + 4
    case ZeroCount => all + 5
    case Compare => all + 6
    case ReadMarch => all + 7
    case IncCount => all + 8
  }

  function AllToGo(s: State): seq<nat>
  {
    seq(|s.threads|, t requires 0 <= t < |s.threads| => ToGo(s, s.threads[t].pc))
  }

  lemma OneNearer(s: State, s': State, t: nat)
    requires t < |s.threads| == |s'.threads| && s'.lang == s.lang && s'.threads == s.threads[t := s'.threads[t]]
    requires ToGo(s, s'.threads[t].pc) < ToGo(s, s.threads[t].pc)
    ensures Sum(AllToGo(s')) < Sum(AllToGo(s))
  {
    SumChange(AllToGo(s), AllToGo(s'), t);
  }

  /** Waking a sleeper costs three steps. */
  lemma WakeCosts(s: State, t: nat, u: nat)
    requires Enabled(s, Move(t)) && s.threads[t].pc == Notify && u < |s.threads| && u != t
    ensures |Step(s, t).threads| == |s.threads|
    ensures ToGo(Step(s, t), Step(s, t).threads[u].pc) <= ToGo(s, s.threads[u].pc) + 3
  {
  }

  lemma NotifierCounts(s: State, t: nat)
    requires Enabled(s, Move(t)) && s.threads[t].pc == Notify
    ensures |Step(s, t).threads| == |s.threads|
    ensures ToGo(Step(s, t), Step(s, t).threads[t].pc) + 3 * |s.threads| < ToGo(s, Notify)
  {
  }

  /** The notifier's own way gets shorter by more than those of the woken get longer. */
  lemma NotifyCounts(s: State, t: nat)
    requires Enabled(s, Move(t)) && s.threads[t].pc == Notify
    ensures Sum(AllToGo(Step(s, t))) < Sum(AllToGo(s))
  {
    var s' := Step(s, t);
    NotifierCounts(s, t);
    var before, behind := AllToGo(s)[t := 0], AllToGo(s')[t := 0];
    forall u | 0 <= u < |s.threads|
      ensures behind[u] <= before[u] + 3
    {
      if u != t {
        WakeCosts(s, t, u);
      }
    }
    SumChange(AllToGo(s), before, t);
    SumGrows(before, behind, 3);
    SumChange(AllToGo(s'), behind, t);
  }

  /** Every step within a call brings the threads together nearer to the end. */
  lemma StepCounts(s: State, t: nat)
    requires Enabled(s, Move(t)) && s.threads[t].pc != Outside
    ensures |Step(s, t).threads| == |s.threads| && Step(s, t).lang == s.lang
    ensures Sum(AllToGo(Step(s, t))) < Sum(AllToGo(s))
  {
    if s.threads[t].pc == Notify {
      NotifyCounts(s, t);
    } else {
      OneNearer(s, Step(s, t), t);
    }
  }

  /** Steps within calls: nobody starts a call, and nobody is woken without a notification. */
  predicate Works(s: State, ts: seq<nat>)
    decreases |ts|
  {
    ts == [] ||
    (Enabled(s, Move(ts[0])) && s.threads[ts[0]].pc != Outside && Works(Step(s, ts[0]), ts[1..]))
  }

  function Moves(ts: seq<nat>): (es: seq<Event>)
    ensures |es| == |ts| && forall i :: 0 <= i < |ts| ==> es[i] == Move(ts[i])
  {
    seq(|ts|, i requires 0 <= i < |ts| => Move(ts[i]))
  }

  /** How many calls the thread has begun, as far as having locked the mutex. */
  function Calls(th: Thread): nat
  {
    th.arrivals + if th.pc == IncCount then 1 else 0
  }

  lemma CallsSame(s: State, t: nat, u: nat)
    requires Enabled(s, Move(t)) && s.threads[t].pc != Outside && u < |s.threads|
    ensures u < |Step(s, t).threads| && Calls(Step(s, t).threads[u]) == Calls(s.threads[u])
  {
  }

  lemma {:induction false} WorkBounded(s: State, ts: seq<nat>)
    requires Inv(s) && Works(s, ts)
    ensures Run(s, Moves(ts)).Some?
    ensures var s' := Run(s, Moves(ts)).value;
            && Inv(s') && |s'.threads| == |s.threads| && |ts| + Sum(AllToGo(s')) <= Sum(AllToGo(s))
            && forall u :: 0 <= u < |s.threads| ==> Calls(s'.threads[u]) == Calls(s.threads[u])
    decreases |ts|
  {
    if ts != [] {
      var t := ts[0];
      EventOk(s, Move(t));
      StepCounts(s, t);
      WorkBounded(Step(s, t), ts[1..]);
      assert Moves(ts)[1..] == Moves(ts[1..]);
      forall u | 0 <= u < |s.threads|
        ensures Calls(Step(s, t).threads[u]) == Calls(s.threads[u])
      {
        CallsSame(s, t, u);
      }
    }
  }

  /** Nobody has a step left in its call. */
  predicate AtRest(s: State)
  {
    forall t: nat :: t < |s.threads| && s.threads[t].pc != Outside ==> !Enabled(s, Move(t))
  }

  /** Who holds the mutex can step, and so can a thread that has yet to notify. */
  lemma HolderMoves(s: State)
    requires Inv(s) && s.mutex.Some?
    ensures s.mutex.value < |s.threads| && s.threads[s.mutex.value].pc != Outside && Enabled(s, Move(s.mutex.value))
  {
    assert s.mutex.value < |s.threads|;
    assert ThreadOk(s, s.mutex.value);
  }

  lemma NotifierMoves(s: State)
    requires Inv(s) && NotifyPending(s)
    ensures s.threads[s.releaser].pc != Outside && Enabled(s, Move(s.releaser))
  {
    assert ThreadOk(s, s.releaser);
  }

  /** At rest everybody is outside, or asleep in the current round. */
  lemma RestingPlaces(s: State, t: nat)
    requires Inv(s) && AtRest(s) && t < |s.threads|
    ensures s.mutex.None?
    ensures var th := s.threads[t];
            th.pc in {Outside, Asleep} && th.done == s.round && (th.pc == Asleep ==> th.arrivals == s.round + 1)
  {
    assert ThreadOk(s, t);
    if s.mutex.Some? {
      HolderMoves(s);
    } else if s.threads[t].pc == Asleep && s.threads[t].arrivals == s.round {
      NotifierMoves(s);
    }
  }

  lemma RestIsDone(s: State, k: nat, t: nat)
    requires Inv(s) && AtRest(s) && t < |s.threads|
    requires forall u :: 0 <= u < |s.threads| ==> k <= Calls(s.threads[u])
    ensures k <= s.threads[t].done
  {
    RestingPlaces(s, t);
    if s.threads[t].done < k {
      forall u: nat | u < |s.threads|
        ensures s.threads[u].arrivals == s.round + 1
      {
        RestingPlaces(s, u);
        assert ThreadOk(s, u);
      }
      ArrivedBound(s);
    }
  }

  /** Everybody gets through: in any run, once every participant has called `sync` k times, steps that start no further
      call and wake nobody without a notification come to an end, and then everybody has returned k times. */
  lemma AllReturn(lang: Lang, range: nat, n: nat, es: seq<Event>, k: nat, ts: seq<nat>)
    requires 2 <= range && Run(Init(lang, range, n), es).Some? && Works(Run(Init(lang, range, n), es).value, ts)
    requires var s := Run(Init(lang, range, n), es).value; forall u :: 0 <= u < |s.threads| ==> k <= Calls(s.threads[u])
    ensures var s := Run(Init(lang, range, n), es).value;
            && |ts| <= n * (3 * n + 8) && Run(s, Moves(ts)).Some?
            && var s' := Run(s, Moves(ts)).value;
               |s'.threads| == n && (AtRest(s') ==> forall t :: 0 <= t < n ==> k <= s'.threads[t].done)
  {
    InitOk(lang, range, n);
    RunOk(Init(lang, range, n), es);
    var s := Run(Init(lang, range, n), es).value;
    WorkBounded(s, ts);
    SumBound(AllToGo(s), 3 * n + 8);
    var s' := Run(s, Moves(ts)).value;
    forall t: nat | AtRest(s') && t < n
      ensures k <= s'.threads[t].done
    {
      RestIsDone(s', k, t);
    }
  }

  // ---- A released thread returns by itself ----

  /** The thread's round is over, it has been woken, and the mutex is free or its own. */
  ghost predicate Released(s: State, t: nat)
  {
    && Inv(s) && t < |s.threads| && (s.mutex.None? || s.mutex == Some(t))
    && s.threads[t].arrivals == s.round && s.threads[t].done < s.round && s.threads[t].pc != Asleep
  }

  function StepsLeft(lang: Lang, pc: Pc): nat
  {
    match pc
    case Woken => 3
    case Test => 2
    case Leave => 1
    case Unlock => if lang == Cpp then 2 else 1
    case Notify => if lang == Cpp then 1 else 2
    case _ => 0
  }

  lemma ReleasedStep(s: State, t: nat)
    requires Released(s, t)
    ensures Enabled(s, Move(t)) && Inv(Step(s, t)) && |Step(s, t).threads| == |s.threads|
    ensures var (s', th) := (Step(s, t), s.threads[t]);
            if StepsLeft(s.lang, th.pc) == 1 then s'.mutex.None? && s'.threads[t] == th.(pc := Outside, done := th.done + 1)
            else && Released(s', t) && s'.lang == s.lang && s'.threads[t].done == th.done
                 && StepsLeft(s.lang, s'.threads[t].pc) < StepsLeft(s.lang, th.pc)
  {
    assert ThreadOk(s, t);
    if Waiting(s.threads[t].pc) {
      TestIsExact(s, t);
    }
    EventOk(s, Move(t));
  }

  lemma {:induction false} GetsOut(s: State, t: nat) returns (ts: seq<nat>, s': State)
    requires Released(s, t)
    ensures |ts| <= 3 && |ts| <= StepsLeft(s.lang, s.threads[t].pc) && forall i :: 0 <= i < |ts| ==> ts[i] == t
    ensures Run(s, Moves(ts)) == Some(s') && s'.mutex.None?
    ensures t < |s'.threads| && s'.threads[t].pc == Outside && s'.threads[t].done == s.threads[t].done + 1
    decreases StepsLeft(s.lang, s.threads[t].pc)
  {
    ReleasedStep(s, t);
    var rest := [];
    s' := Step(s, t);
    if StepsLeft(s.lang, s.threads[t].pc) != 1 {
      rest, s' := GetsOut(s', t);
    }
    ts := [t] + rest;
    assert Moves(ts)[1..] == Moves(rest);
  }

  /** In any run, a thread whose round is over and that is awake returns within three steps of its own once the mutex is
      free, and leaves it free. */
  lemma ReleasedReturns(lang: Lang, range: nat, n: nat, es: seq<Event>, t: nat) returns (ts: seq<nat>, s': State)
    requires 2 <= range && Run(Init(lang, range, n), es).Some? && t < |Run(Init(lang, range, n), es).value.threads|
    requires var s := Run(Init(lang, range, n), es).value;
             && (s.mutex.None? || s.mutex == Some(t)) && s.threads[t].pc != Asleep
             && s.threads[t].done < s.threads[t].arrivals == s.round
    ensures var s := Run(Init(lang, range, n), es).value;
            && |ts| <= 3 && (forall i :: 0 <= i < |ts| ==> ts[i] == t) && Run(s, Moves(ts)) == Some(s')
            && s'.mutex.None? && t < |s'.threads|
            && s'.threads[t].pc == Outside && s'.threads[t].done == s.threads[t].done + 1
  {
    InitOk(lang, range, n);
    RunOk(Init(lang, range, n), es);
    ts, s' := GetsOut(Run(Init(lang, range, n), es).value, t);
  }
}
