/** The MCS queue lock (locks/MCSLock.hpp). One step is one access to shared memory. The node of a thread is the one in
    its thread-local cell (threadlocal/ThreadLocal.hpp), found by the thread's id modulo the number of cells. */
module MCSLock {
  import opened Elements
  import opened Queues
  import opened Sums
  import FifoLock
  import CountingClient

  const NULL := -1

  /** Named after what the thread does next. `Out` is outside and about to swap itself in. */
  datatype Pc =
    | Out | TestPred | SetLocked | LinkPred | Spin
    | Inside | CasTail | AwaitNext | ReadNext | Grant | Clean | Fault

  datatype Thread = Thread(pc: Pc, pred: int, succ: int)

  /** `node[t]` is the node of thread `t`. `queue` is bookkeeping: the threads in the order of their swap, until they
      have handed the lock on. */
  datatype State = State(tail: int, locked: seq<bool>, next: seq<int>, node: seq<nat>, threads: seq<Thread>, queue: seq<nat>)

  function Init(size: nat, ids: seq<nat>): State
    requires 0 < size
  {
    State(NULL, seq(size, _ => false), seq(size, _ => NULL),
          seq(|ids|, t requires 0 <= t < |ids| => ids[t] % size), seq(|ids|, _ => Thread(Out, NULL, NULL)), [])
  }

  predicate Sized(s: State)
  {
    && |s.next| == |s.locked| && |s.node| == |s.threads|
    && forall t {:trigger s.node[t]} :: 0 <= t < |s.threads| ==> s.node[t] < |s.locked|
  }

  function Goto(s: State, t: nat, pc: Pc): State
    requires t < |s.threads|
  {
    s.(threads := s.threads[t := s.threads[t].(pc := pc)])
  }

  /** Leave the queue, of which `t` is the first. */
  function Leave(s: State): State
  {
    if s.queue == [] then s else s.(queue := s.queue[1..])
  }

  function Step(s: State, t: nat): State
    requires Sized(s) && t < |s.threads|
  {
    var th := s.threads[t];
    match th.pc
    case Out =>
      s.(tail := s.node[t], threads := s.threads[t := Thread(TestPred, s.tail, NULL)], queue := s.queue + [t])
    case TestPred => Goto(s, t, if th.pred == NULL then Inside else SetLocked)
    case SetLocked => Goto(s.(locked := s.locked[s.node[t] := true]), t, LinkPred)
    case LinkPred =>
      if 0 <= th.pred < |s.next| then Goto(s.(next := s.next[th.pred := s.node[t]]), t, Spin) else Goto(s, t, Fault)
    case Spin => if s.locked[s.node[t]] then s else Goto(s, t, Inside)
    case Inside => Goto(s, t, if s.next[s.node[t]] == NULL then CasTail else ReadNext)
    case CasTail => if s.tail == s.node[t] then Leave(Goto(s.(tail := NULL), t, Out)) else Goto(s, t, AwaitNext)
    case AwaitNext => if s.next[s.node[t]] == NULL then s else Goto(s, t, ReadNext)
    case ReadNext => s.(threads := s.threads[t := Thread(Grant, th.pred, s.next[s.node[t]])])
    case Grant =>
      if 0 <= th.succ < |s.locked| then Leave(Goto(s.(locked := s.locked[th.succ := false]), t, Clean))
      else Goto(s, t, Fault)
    case Clean => Goto(s.(next := s.next[s.node[t] := NULL]), t, Out)
    case Fault => s
  }

  /** The doorway is the swap of the tail, entering is the end of `lock`, leaving is the step of `unlock` that lets
      the next thread in. */
  function Visible(s: State, t: nat): seq<FifoLock.Event>
    requires Sized(s) && t < |s.threads|
  {
    var th := s.threads[t];
    match th.pc
    case Out => [FifoLock.Doorway(t)]
    case TestPred => if th.pred == NULL then [FifoLock.Enter(t)] else []
    case Spin => if s.locked[s.node[t]] then [] else [FifoLock.Enter(t)]
    case CasTail => if s.tail == s.node[t] then [FifoLock.Exit(t)] else []
    case Grant => if 0 <= th.succ < |s.locked| then [FifoLock.Exit(t)] else []
    case _ => []
  }

  /** A run is a schedule: which thread steps next. */
  function Run(s: State, ts: seq<nat>): Option<(State, seq<FifoLock.Event>)>
    decreases |ts|
  {
    if ts == [] then Some((s, []))
    else if !Sized(s) || ts[0] >= |s.threads| then None
    else
      match Run(Step(s, ts[0]), ts[1..])
      case None => None
      case Some((b, seen)) => Some((b, Visible(s, ts[0]) + seen))
  }

  // ---- The invariant ----

  predicate Queued(pc: Pc)
  {
    pc !in {Out, Clean}
  }

  predicate HasLock(pc: Pc)
  {
    pc in {Inside, CasTail, AwaitNext, ReadNext, Grant}
  }

  /** The next field of the `i`th in the queue: set as soon as the one behind has linked itself. */
  function LinkOf(s: State, i: nat): int
    requires Sized(s) && i < |s.queue|
  {
    if i + 1 < |s.queue| && s.queue[i + 1] < |s.threads| && s.threads[s.queue[i + 1]].pc == Spin
    then s.node[s.queue[i + 1]] else NULL
  }

  ghost predicate FirstOk(s: State, t: nat)
    requires Sized(s) && t < |s.threads|
  {
    var th := s.threads[t];
    && !s.locked[s.node[t]]
    && (th.pc == TestPred ==> th.pred == NULL)
    && th.pc in {TestPred, Spin, Inside, CasTail, AwaitNext, ReadNext, Grant}
    && (th.pc == AwaitNext ==> |s.queue| > 1)
    && (th.pc == ReadNext ==> s.next[s.node[t]] != NULL)
    && (th.pc == Grant ==> s.next[s.node[t]] != NULL && th.succ == s.next[s.node[t]])
  }

  ghost predicate LaterOk(s: State, t: nat, p: nat)
    requires Sized(s) && t < |s.threads| && p < |s.threads|
  {
    var th := s.threads[t];
    && th.pc in {TestPred, SetLocked, LinkPred, Spin} && th.pred == s.node[p]
    && (s.locked[s.node[t]] <==> th.pc in {LinkPred, Spin})
  }

  ghost predicate SlotOk(s: State, i: int)
    requires Sized(s)
  {
    && 0 <= i < |s.queue| && s.queue[i] < |s.threads|
    && s.next[s.node[s.queue[i]]] == LinkOf(s, i)
    && if i == 0 then FirstOk(s, s.queue[0])
       else s.queue[i - 1] < |s.threads| && LaterOk(s, s.queue[i], s.queue[i - 1])
  }

  /** A thread that is not in the queue has left its node clean, or is about to. */
  ghost predicate IdleOk(s: State, t: nat)
    requires Sized(s) && t < |s.threads|
  {
    && (t in s.queue <==> Queued(s.threads[t].pc))
    && (t !in s.queue ==> !s.locked[s.node[t]] && (s.threads[t].pc == Out ==> s.next[s.node[t]] == NULL))
  }

  ghost predicate Inv(s: State)
  {
    && Sized(s) && NoRepeats(s.queue) && NoRepeats(s.node)
    && (forall i {:trigger SlotOk(s, i)} :: 0 <= i < |s.queue| ==> SlotOk(s, i))
    && (if s.queue == [] then s.tail == NULL
        else s.queue[|s.queue| - 1] < |s.threads| && s.tail == s.node[s.queue[|s.queue| - 1]])
    && (forall t: nat {:trigger IdleOk(s, t)} :: t < |s.threads| ==> IdleOk(s, t))
  }

  predicate SameSetup(s: State, s': State)
  {
    |s'.threads| == |s.threads| && s'.node == s.node
  }

  function Abstract(s: State): FifoLock.State
  {
    FifoLock.State(s.queue, s.queue != [] && s.queue[0] < |s.threads| && HasLock(s.threads[s.queue[0]].pc))
  }

  /** The thread joins the end of the queue; nothing is linked to it yet. */
  lemma JoinOk(s: State, t: nat)
    requires Inv(s) && t < |s.threads| && s.threads[t].pc == Out
    ensures Inv(Step(s, t)) && SameSetup(s, Step(s, t))
  {
    var s' := Step(s, t);
    assert IdleOk(s, t);
    forall i | 0 <= i < |s'.queue|
      ensures SlotOk(s', i)
    {
      if i < |s.queue| {
        assert SlotOk(s, i);
        assert i + 1 < |s.queue| ==> SlotOk(s, i + 1);
      }
    }
    forall u: nat | u < |s.threads|
      ensures IdleOk(s', u)
    {
      assert IdleOk(s, u);
    }
  }

  /** A step that changes nothing but the variables of a thread in the queue. */
  lemma OwnStepOk(s: State, t: nat, k: nat, s': State)
    requires Inv(s) && t < |s.threads| && k < |s.queue| && s.queue[k] == t
    requires |s'.threads| == |s.threads| && s' == s.(threads := s.threads[t := s'.threads[t]])
    requires Queued(s'.threads[t].pc) && SlotOk(s', k)
    requires k == 0 || (s'.threads[t].pc == Spin <==> s.threads[t].pc == Spin)
    ensures Inv(s')
  {
    assert SlotOk(s, k);
    forall i | 0 <= i < |s'.queue|
      ensures SlotOk(s', i)
    {
      assert SlotOk(s, i);
      assert i + 1 < |s.queue| ==> SlotOk(s, i + 1);
    }
    forall u: nat | u < |s.threads|
      ensures IdleOk(s', u)
    {
      assert IdleOk(s, u);
    }
  }

  /** A step of the thread that holds the lock, up to handing it on. */
  lemma HolderOk(s: State, t: nat, k: nat)
    requires Inv(s) && t < |s.threads| && k < |s.queue| && s.queue[k] == t
    requires s.threads[t].pc in {Inside, AwaitNext, ReadNext} || (s.threads[t].pc == CasTail && s.tail != s.node[t])
    ensures Inv(Step(s, t)) && SameSetup(s, Step(s, t)) && Step(s, t).queue == s.queue
  {
    assert SlotOk(s, k);
    OwnStepOk(s, t, k, Step(s, t));
  }

  lemma WaiterOk(s: State, t: nat, k: nat)
    requires Inv(s) && t < |s.threads| && k < |s.queue| && s.queue[k] == t
    requires s.threads[t].pc in {TestPred, Spin}
    ensures Inv(Step(s, t)) && SameSetup(s, Step(s, t)) && Step(s, t).queue == s.queue
  {
    assert SlotOk(s, k);
    OwnStepOk(s, t, k, Step(s, t));
  }

  lemma SetLockedOk(s: State, t: nat, k: nat)
    requires Inv(s) && t < |s.threads| && k < |s.queue| && s.queue[k] == t
    requires s.threads[t].pc == SetLocked
    ensures Inv(Step(s, t)) && SameSetup(s, Step(s, t)) && Step(s, t).queue == s.queue
  {
    var s' := Step(s, t);
    assert SlotOk(s, k);
    forall i | 0 <= i < |s'.queue|
      ensures SlotOk(s', i)
    {
      assert SlotOk(s, i);
      assert i + 1 < |s.queue| ==> SlotOk(s, i + 1);
    }
    forall u: nat | u < |s.threads|
      ensures IdleOk(s', u)
    {
      assert IdleOk(s, u);
    }
  }

  /** The thread becomes visible to the one before it, which may now let it in. */
  lemma LinkOk(s: State, t: nat, k: nat)
    requires Inv(s) && t < |s.threads| && k < |s.queue| && s.queue[k] == t
    requires s.threads[t].pc == LinkPred
    ensures Inv(Step(s, t)) && SameSetup(s, Step(s, t)) && Step(s, t).queue == s.queue
  {
    var s' := Step(s, t);
    assert SlotOk(s, k) && SlotOk(s, k - 1);
    forall i | 0 <= i < |s'.queue|
      ensures SlotOk(s', i)
    {
      assert SlotOk(s, i);
      assert i + 1 < |s.queue| ==> SlotOk(s, i + 1);
    }
    forall u: nat | u < |s.threads|
      ensures IdleOk(s', u)
    {
      assert IdleOk(s, u);
    }
  }

  lemma LeaveFirst(s: State, t: nat)
    requires Inv(s) && t < |s.threads|
    requires s.threads[t].pc == Grant || (s.threads[t].pc == CasTail && s.tail == s.node[t])
    ensures s.queue != [] && s.queue[0] == t && SlotOk(s, 0)
    ensures if s.threads[t].pc == Grant then 1 < |s.queue| && SlotOk(s, 1) && s.threads[t].succ == s.node[s.queue[1]]
            else |s.queue| == 1
  {
    assert IdleOk(s, t);
    var k :| 0 <= k < |s.queue| && s.queue[k] == t;
    assert SlotOk(s, k) && k == 0;
    assert 1 < |s.queue| ==> SlotOk(s, 1) && SlotOk(s, |s.queue| - 1);
  }

  /** The first in the queue leaves; the next one is the first and is let in. */
  lemma LeaveOk(s: State, t: nat)
    requires Inv(s) && t < |s.threads|
    requires s.threads[t].pc == Grant || (s.threads[t].pc == CasTail && s.tail == s.node[t])
    ensures s.queue != [] && s.queue[0] == t
    ensures Inv(Step(s, t)) && SameSetup(s, Step(s, t)) && Step(s, t).queue == s.queue[1..]
  {
    var s' := Step(s, t);
    LeaveFirst(s, t);
    forall i | 0 <= i < |s'.queue|
      ensures SlotOk(s', i)
    {
      assert SlotOk(s, i + 1);
      assert i + 2 < |s.queue| ==> SlotOk(s, i + 2);
    }
    forall u: nat | u < |s.threads|
      ensures IdleOk(s', u)
    {
      assert IdleOk(s, u);
    }
  }

  lemma CleanOk(s: State, t: nat)
    requires Inv(s) && t < |s.threads| && s.threads[t].pc == Clean
    ensures Inv(Step(s, t)) && SameSetup(s, Step(s, t)) && Step(s, t).queue == s.queue
  {
    var s' := Step(s, t);
    assert IdleOk(s, t);
    forall i | 0 <= i < |s'.queue|
      ensures SlotOk(s', i)
    {
      assert SlotOk(s, i);
      assert i + 1 < |s.queue| ==> SlotOk(s, i + 1);
    }
    forall u: nat | u < |s.threads|
      ensures IdleOk(s', u)
    {
      assert IdleOk(s, u);
    }
  }

  lemma StepKeeps(s: State, t: nat)
    requires Inv(s) && t < |s.threads|
    ensures Inv(Step(s, t)) && SameSetup(s, Step(s, t))
  {
    assert IdleOk(s, t);
    var pc := s.threads[t].pc;
    if pc == Out {
      JoinOk(s, t);
    } else if pc == Clean {
      CleanOk(s, t);
    } else {
      var k :| 0 <= k < |s.queue| && s.queue[k] == t;
      assert SlotOk(s, k);
      if pc == Grant || (pc == CasTail && s.tail == s.node[t]) {
        LeaveOk(s, t);
      } else if HasLock(pc) {
        HolderOk(s, t, k);
      } else if pc in {TestPred, Spin} {
        WaiterOk(s, t, k);
      } else if pc == SetLocked {
        SetLockedOk(s, t, k);
      } else {
        LinkOk(s, t, k);
      }
    }
  }

  lemma StepOk(s: State, t: nat)
    requires Inv(s) && t < |s.threads|
    ensures Inv(Step(s, t)) && SameSetup(s, Step(s, t))
    ensures FifoLock.Run(Abstract(s), Visible(s, t)) == Some(Abstract(Step(s, t)))
  {
    StepKeeps(s, t);
    StepSeen(s, t);
  }

  /** Whoever has the lock is the first in the queue, and so is whoever is about to enter. */
  lemma FirstInQueue(s: State, t: nat)
    requires Inv(s) && t < |s.threads|
    requires var pc := s.threads[t].pc; HasLock(pc) || Visible(s, t) == [FifoLock.Enter(t)]
    ensures s.queue != [] && s.queue[0] == t
  {
    assert IdleOk(s, t);
    var k :| 0 <= k < |s.queue| && s.queue[k] == t;
    assert SlotOk(s, k);
  }

  lemma StepSeen(s: State, t: nat)
    requires Inv(s) && t < |s.threads|
    ensures FifoLock.Run(Abstract(s), Visible(s, t)) == Some(Abstract(Step(s, t)))
  {
    assert IdleOk(s, t);
    assert s.queue != [] ==> SlotOk(s, 0);
    assert 1 < |s.queue| ==> SlotOk(s, 1);
    if Visible(s, t) != [] && s.threads[t].pc != Out {
      FirstInQueue(s, t);
    } else if HasLock(s.threads[t].pc) {
      FirstInQueue(s, t);
    }
  }

  // ---- Over whole runs ----

  lemma InitOk(size: nat, ids: seq<nat>)
    requires 0 < size && OwnCells(ids, size)
    ensures Inv(Init(size, ids)) && Abstract(Init(size, ids)) == FifoLock.START
  {
    assert forall t: nat :: t < |ids| ==> IdleOk(Init(size, ids), t);
  }

  lemma {:induction false} RunOk(s: State, ts: seq<nat>)
    requires Inv(s) && Run(s, ts).Some?
    ensures Inv(Run(s, ts).value.0) && |Run(s, ts).value.0.threads| == |s.threads|
    ensures FifoLock.Run(Abstract(s), Run(s, ts).value.1) == Some(Abstract(Run(s, ts).value.0))
    decreases |ts|
  {
    if ts != [] {
      var s1 := Step(s, ts[0]);
      StepOk(s, ts[0]);
      RunOk(s1, ts[1..]);
      FifoLock.RunConcat(Abstract(s), Visible(s, ts[0]), Run(s1, ts[1..]).value.1);
    }
  }

  /** Whatever the schedule, what is seen of the lock is allowed by the specification: one thread at a time, in the
      order of the swaps. */
  lemma RefinesFifo(size: nat, ids: seq<nat>, ts: seq<nat>)
    requires 0 < size && OwnCells(ids, size) && Run(Init(size, ids), ts).Some?
    ensures var (s, seen) := Run(Init(size, ids), ts).value;
            FifoLock.Run(FifoLock.START, seen) == Some(Abstract(s)) && FifoLock.InOrder(seen)
  {
    InitOk(size, ids);
    RunOk(Init(size, ids), ts);
    FifoLock.FirstComeFirstServed(Run(Init(size, ids), ts).value.1);
  }

  /** Two threads are never both between the end of `lock` and the hand-over in `unlock`, and no step follows a
      null pointer. */
  lemma MutualExclusion(size: nat, ids: seq<nat>, ts: seq<nat>, t: nat, u: nat)
    requires 0 < size && OwnCells(ids, size) && Run(Init(size, ids), ts).Some? && t < |ids| && u < |ids|
    ensures var s := Run(Init(size, ids), ts).value.0;
            && |s.threads| == |ids| && s.threads[t].pc != Fault
            && (HasLock(s.threads[t].pc) && HasLock(s.threads[u].pc) ==> t == u)
  {
    InitOk(size, ids);
    RunOk(Init(size, ids), ts);
    var s := Run(Init(size, ids), ts).value.0;
    PlaceInQueue(s, t);
    PlaceInQueue(s, u);
  }

  lemma PlaceInQueue(s: State, t: nat)
    requires Inv(s) && t < |s.threads|
    ensures s.threads[t].pc != Fault
    ensures HasLock(s.threads[t].pc) ==> s.queue != [] && s.queue[0] == t
  {
    assert IdleOk(s, t);
    if t in s.queue {
      var k :| 0 <= k < |s.queue| && s.queue[k] == t;
      assert SlotOk(s, k);
    }
  }

  /** The thread is in one of the two waiting loops, and its test fails. */
  predicate Spins(s: State, t: nat)
    requires Sized(s) && t < |s.threads|
  {
    (s.threads[t].pc == Spin && s.locked[s.node[t]]) || (s.threads[t].pc == AwaitNext && s.next[s.node[t]] == NULL)
  }

  /** The queue may be half linked: the `next` of each node in it is set exactly when the thread behind has stored the
      link; what each thread got from its swap is the node before it, and `tail` is the last. */
  lemma QueueIsHalfLinked(size: nat, ids: seq<nat>, ts: seq<nat>, i: nat)
    requires 0 < size && OwnCells(ids, size) && Run(Init(size, ids), ts).Some?
    ensures var s := Run(Init(size, ids), ts).value.0;
            && Sized(s) && |s.threads| == |ids| && (s.queue == [] <==> s.tail == NULL)
            && (i < |s.queue| ==>
                  && s.queue[i] < |ids|
                  && (i == |s.queue| - 1 ==> s.tail == s.node[s.queue[i]] && s.next[s.node[s.queue[i]]] == NULL)
                  && (i + 1 < |s.queue| ==>
                        && s.queue[i + 1] < |ids|
                        && var (t, u) := (s.queue[i], s.queue[i + 1]);
                           && s.threads[u].pred == s.node[t]
                           && s.threads[u].pc in {TestPred, SetLocked, LinkPred, Spin}
                           && s.next[s.node[t]] == (if s.threads[u].pc == Spin then s.node[u] else NULL)))
  {
    InitOk(size, ids);
    RunOk(Init(size, ids), ts);
    var s := Run(Init(size, ids), ts).value.0;
    if i < |s.queue| {
      assert SlotOk(s, i);
      assert i + 1 < |s.queue| ==> SlotOk(s, i + 1);
    }
  }

  // ---- Every call ends ----

  /** How many steps the rest of a call takes, waiting apart. */
  function ToGo(pc: Pc): nat
  {
    match pc
    case Out | Fault => 0
    case Clean => 1
    case Grant => 2
    case ReadNext => 3
    case AwaitNext => 4
    case CasTail => 5
    case Inside => 6
    case Spin => 7
    case LinkPred => 8
    case SetLocked => 9
    case TestPred => 10
  }

  function AllToGo(s: State): seq<nat>
  {
    seq(|s.threads|, t requires 0 <= t < |s.threads| => ToGo(s.threads[t].pc))
  }

  /** A schedule in which no call starts and no thread spins. */
  predicate Works(s: State, us: seq<nat>)
    decreases |us|
  {
    us == [] ||
    (Sized(s) && us[0] < |s.threads| && s.threads[us[0]].pc != Out && !Spins(s, us[0]) && Works(Step(s, us[0]), us[1..]))
  }

  /** Nobody has a step left in its call but spinning. */
  predicate AtRest(s: State)
    requires Sized(s)
  {
    forall t: nat :: t < |s.threads| ==> s.threads[t].pc == Out || Spins(s, t)
  }

  lemma StepCounts(s: State, t: nat)
    requires Inv(s) && t < |s.threads| && s.threads[t].pc != Out
    ensures if Spins(s, t) then Step(s, t) == s else ToGo(Step(s, t).threads[t].pc) < ToGo(s.threads[t].pc)
    ensures forall u: nat :: u < |s.threads| && u != t ==> Step(s, t).threads[u] == s.threads[u]
  {
    PlaceInQueue(s, t);
    assert IdleOk(s, t);
    if s.threads[t].pc in {LinkPred, Grant} {
      var k :| 0 <= k < |s.queue| && s.queue[k] == t;
      assert SlotOk(s, k);
    }
  }

  lemma SomebodyCan(s: State, t: nat) returns (u: nat)
    requires Inv(s) && t < |s.threads| && s.threads[t].pc != Out
    ensures u < |s.threads| && s.threads[u].pc != Out && !Spins(s, u)
    ensures Queued(s.threads[t].pc) ==> Queued(s.threads[u].pc)
  {
    assert IdleOk(s, t);
    u := t;
    if Spins(s, t) {
      assert SlotOk(s, 0);
      u := s.queue[0];
      if Spins(s, u) {
        assert SlotOk(s, 1);
        u := s.queue[1];
      }
      assert IdleOk(s, u);
    }
  }

  lemma {:induction false} WorkBounded(s: State, us: seq<nat>)
    requires Inv(s) && Works(s, us)
    ensures Run(s, us).Some? && Inv(Run(s, us).value.0) && |Run(s, us).value.0.threads| == |s.threads|
    ensures |us| + Sum(AllToGo(Run(s, us).value.0)) <= Sum(AllToGo(s))
    decreases |us|
  {
    if us != [] {
      var s1 := Step(s, us[0]);
      StepKeeps(s, us[0]);
      StepCounts(s, us[0]);
      SumChange(AllToGo(s), AllToGo(s1), us[0]);
      WorkBounded(s1, us[1..]);
    }
  }

  /** Nobody waits for ever: a schedule that starts no call and lets nobody spin is finite, and when it cannot be
      continued every thread has left its call. */
  lemma CallsEnd(size: nat, ids: seq<nat>, ts: seq<nat>, us: seq<nat>)
    requires 0 < size && OwnCells(ids, size) && Run(Init(size, ids), ts).Some?
    requires Works(Run(Init(size, ids), ts).value.0, us)
    ensures var s := Run(Init(size, ids), ts).value.0;
            && |us| <= |ids| * 10 && Run(s, us).Some?
            && var s' := Run(s, us).value.0;
               && Sized(s') && |s'.threads| == |ids|
               && (AtRest(s') ==> forall t :: 0 <= t < |ids| ==> s'.threads[t].pc == Out)
  {
    InitOk(size, ids);
    RunOk(Init(size, ids), ts);
    var s := Run(Init(size, ids), ts).value.0;
    WorkBounded(s, us);
    SumBound(AllToGo(s), 10);
    var s' := Run(s, us).value.0;
    if t: nat :| t < |ids| && s'.threads[t].pc != Out {
      var u := SomebodyCan(s', t);
    }
  }

  /** No hand-over is lost: while anybody is in the queue, somebody in it has a step that is not spinning, and brings
      its call nearer to its end. */
  lemma SomebodyMoves(size: nat, ids: seq<nat>, ts: seq<nat>, t: nat) returns (u: nat)
    requires 0 < size && OwnCells(ids, size) && Run(Init(size, ids), ts).Some? && t < |ids|
    ensures var s := Run(Init(size, ids), ts).value.0;
            && Sized(s) && |s.threads| == |ids|
            && (Queued(s.threads[t].pc) ==>
                  && u < |ids| && Queued(s.threads[u].pc) && !Spins(s, u)
                  && ToGo(Step(s, u).threads[u].pc) < ToGo(s.threads[u].pc))
  {
    InitOk(size, ids);
    RunOk(Init(size, ids), ts);
    var s := Run(Init(size, ids), ts).value.0;
    u := t;
    if Queued(s.threads[t].pc) {
      u := SomebodyCan(s, t);
      StepCounts(s, u);
    }
  }

  /** In any run, a step within a call is spinning, which changes nothing, or brings the call nearer to its end. */
  lemma EveryStepCounts(size: nat, ids: seq<nat>, ts: seq<nat>, t: nat)
    requires 0 < size && OwnCells(ids, size) && Run(Init(size, ids), ts).Some? && t < |ids|
    ensures var s := Run(Init(size, ids), ts).value.0;
            && Sized(s) && |s.threads| == |ids|
            && (s.threads[t].pc != Out ==>
                  if Spins(s, t) then Step(s, t) == s else ToGo(Step(s, t).threads[t].pc) < ToGo(s.threads[t].pc))
  {
    InitOk(size, ids);
    RunOk(Init(size, ids), ts);
    var s := Run(Init(size, ids), ts).value.0;
    if s.threads[t].pc != Out {
      StepCounts(s, t);
    }
  }

  predicate AllBy(us: seq<nat>, t: nat)
  {
    forall i :: 0 <= i < |us| ==> us[i] == t
  }

  /** `t` has the lock, and either nobody came behind it or the one who came has linked itself. */
  ghost predicate CanHandOver(s: State, t: nat)
  {
    && Inv(s) && t < |s.threads| && HasLock(s.threads[t].pc)
    && (s.tail == s.node[t] || s.next[s.node[t]] != NULL)
  }

  /** `t` has left the queue, and the next one's flag is cleared. */
  ghost predicate HandedOver(s: State, s': State, t: nat)
    requires s.queue != []
  {
    && Sized(s') && t < |s'.threads| == |s.threads| && s'.node == s.node && s'.queue == s.queue[1..]
    && s'.threads == s.threads[t := s'.threads[t]]
    && (s'.queue != [] ==> s'.queue[0] < |s'.threads| && !s'.locked[s'.node[s'.queue[0]]])
  }

  /** `unlock` begins, and the one behind has linked itself: no compare-and-swap is needed. */
  predicate SeesNext(s: State, t: nat)
    requires Sized(s) && t < |s.threads|
  {
    s.threads[t].pc == Inside && s.next[s.node[t]] != NULL
  }

  lemma OneUnlockStep(s: State, t: nat)
    requires CanHandOver(s, t)
    ensures s.queue != [] && s.queue[0] == t
    ensures Inv(Step(s, t)) && ToGo(Step(s, t).threads[t].pc) < if SeesNext(s, t) then 4 else ToGo(s.threads[t].pc)
    ensures var s' := Step(s, t);
            && |s'.threads| == |s.threads| && s'.node == s.node && s'.threads == s.threads[t := s'.threads[t]]
            && (if HasLock(s'.threads[t].pc) then CanHandOver(s', t) && s'.queue == s.queue
                else s'.threads[t].pc in {Clean, Out} && HandedOver(s, s', t))
  {
    FirstInQueue(s, t);
    assert SlotOk(s, 0);
    assert 1 < |s.queue| ==> SlotOk(s, 1);
    StepKeeps(s, t);
    StepCounts(s, t);
    if !HasLock(Step(s, t).threads[t].pc) {
      LeaveOk(s, t);
      assert Step(s, t).queue != [] ==> SlotOk(Step(s, t), 0);
    }
  }

  lemma RunFirst(s: State, t: nat, us: seq<nat>)
    requires Sized(s) && t < |s.threads| && Run(Step(s, t), us).Some?
    ensures Run(s, [t] + us).Some? && Run(s, [t] + us).value.0 == Run(Step(s, t), us).value.0
  {
    assert ([t] + us)[1..] == us;
  }

  lemma CleanUp(s: State, t: nat) returns (s': State)
    requires Inv(s) && t < |s.threads| && s.threads[t].pc == Clean
    ensures Run(s, [t]).Some? && Run(s, [t]).value.0 == s'
    ensures Sized(s') && |s'.threads| == |s.threads| && s'.threads == s.threads[t := s'.threads[t]]
    ensures s'.threads[t].pc == Out && s'.queue == s.queue && s'.node == s.node && s'.locked == s.locked
  {
    CleanOk(s, t);
    s' := Step(s, t);
    assert Run(s', []) == Some((s', [])) && [t][1..] == [];
  }

  lemma {:induction false} Unlocks(s: State, t: nat) returns (us: seq<nat>, s': State)
    requires CanHandOver(s, t)
    ensures AllBy(us, t) && Run(s, us).Some? && Run(s, us).value.0 == s'
    ensures |us| <= if SeesNext(s, t) then 4 else ToGo(s.threads[t].pc)
    ensures s.queue != [] && s.queue[0] == t && HandedOver(s, s', t) && s'.threads[t].pc == Out
    decreases ToGo(s.threads[t].pc)
  {
    OneUnlockStep(s, t);
    var s1, vs := Step(s, t), [];
    if HasLock(s1.threads[t].pc) {
      vs, s' := Unlocks(s1, t);
    } else if s1.threads[t].pc == Clean {
      vs := [t];
      s' := CleanUp(s1, t);
    } else {
      s' := s1;
    }
    us := [t] + vs;
    RunFirst(s, t, vs);
  }

  /** In any run, a thread that has the lock hands it over in at most six steps of its own, or four when it sees the next
      one at once, unless the thread behind it has swapped the tail and not yet linked itself: it is outside and out of
      the queue, and the flag of the next one in the queue is cleared. */
  lemma HandsOver(size: nat, ids: seq<nat>, ts: seq<nat>, t: nat) returns (us: seq<nat>, s': State)
    requires 0 < size && OwnCells(ids, size) && Run(Init(size, ids), ts).Some? && t < |ids|
    requires var s := Run(Init(size, ids), ts).value.0;
             && Sized(s) && |s.threads| == |ids| && HasLock(s.threads[t].pc)
             && (s.tail == s.node[t] || s.next[s.node[t]] != NULL)
    ensures var s := Run(Init(size, ids), ts).value.0;
            && AllBy(us, t) && |us| <= (if SeesNext(s, t) then 4 else 6) && Run(s, us).Some? && Run(s, us).value.0 == s'
            && s.queue != [] && s.queue[0] == t && HandedOver(s, s', t) && s'.threads[t].pc == Out
  {
    InitOk(size, ids);
    RunOk(Init(size, ids), ts);
    us, s' := Unlocks(Run(Init(size, ids), ts).value.0, t);
  }

  /** A thread outside has a clean node: its next call of `lock` finds no trace of the last one. */
  lemma IdleNodeIsClean(size: nat, ids: seq<nat>, ts: seq<nat>, t: nat)
    requires 0 < size && OwnCells(ids, size) && Run(Init(size, ids), ts).Some? && t < |ids|
    ensures var s := Run(Init(size, ids), ts).value.0;
            Sized(s) && |s.threads| == |ids| && (s.threads[t].pc == Out ==> s.next[s.node[t]] == NULL && !s.locked[s.node[t]])
  {
    InitOk(size, ids);
    RunOk(Init(size, ids), ts);
    assert IdleOk(Run(Init(size, ids), ts).value.0, t);
  }

  /** The test program: no increment made under the lock is lost. */
  lemma CountsUp(size: nat, ids: seq<nat>, k: nat, ts: seq<nat>, xs: seq<CountingClient.Action>)
    requires 0 < size && OwnCells(ids, size)
    requires Run(Init(size, ids), ts).Some? && CountingClient.LockPart(xs) == Run(Init(size, ids), ts).value.1
    requires CountingClient.DoAll(CountingClient.Fresh(|ids|), xs).Some?
    requires forall t: nat :: t < |ids| ==> CountingClient.StoresBy(t, xs) == k
    ensures CountingClient.DoAll(CountingClient.Fresh(|ids|), xs).value.counter == |ids| * k
  {
    RefinesFifo(size, ids, ts);
    CountingClient.CountsUp(|ids|, k, xs);
  }

  // ---- Two threads that share a cell ----

  lemma {:induction false} RunLast(s: State, ts: seq<nat>, t: nat)
    requires Run(s, ts).Some?
    requires var b := Run(s, ts).value.0; Sized(b) && t < |b.threads|
    ensures Run(s, ts + [t]) ==
              Some((Step(Run(s, ts).value.0, t), Run(s, ts).value.1 + Visible(Run(s, ts).value.0, t)))
    decreases |ts|
  {
    if ts == [] {
      assert [] + [t] == [t] && [t][1..] == [];
      assert Visible(s, t) + [] == Visible(s, t) && [] + Visible(s, t) == Visible(s, t);
    } else {
      assert (ts + [t])[1..] == ts[1..] + [t];
      RunLast(Step(s, ts[0]), ts[1..], t);
      var b, seen := Run(s, ts).value.0, Run(Step(s, ts[0]), ts[1..]).value.1;
      assert Visible(s, ts[0]) + (seen + Visible(b, t)) == (Visible(s, ts[0]) + seen) + Visible(b, t);
    }
  }

  /** The schedule `ts` leads from the start to `s` with `seen` in view. */
  ghost predicate Leads(size: nat, ids: seq<nat>, ts: seq<nat>, s: State, seen: seq<FifoLock.Event>)
    requires 0 < size
  {
    Run(Init(size, ids), ts) == Some((s, seen))
  }

  /** Thread `t` swaps itself in and looks at what it got. */
  lemma Come(size: nat, ids: seq<nat>, ts: seq<nat>, s: State, seen: seq<FifoLock.Event>, t: nat)
    returns (ts': seq<nat>, s': State)
    requires 0 < size && Leads(size, ids, ts, s, seen) && Sized(s) && t < |s.threads| && s.threads[t].pc == Out
    ensures s' == s.(tail := s.node[t], queue := s.queue + [t],
                     threads := s.threads[t := Thread(if s.tail == NULL then Inside else SetLocked, s.tail, NULL)])
    ensures Leads(size, ids, ts', s', seen + [FifoLock.Doorway(t)] + if s.tail == NULL then [FifoLock.Enter(t)] else [])
  {
    RunLast(Init(size, ids), ts, t);
    RunLast(Init(size, ids), ts + [t], t);
    ts', s' := ts + [t] + [t], Step(Step(s, t), t);
  }

  /** Thread `t` leaves and finds nobody behind it. */
  lemma Go(size: nat, ids: seq<nat>, ts: seq<nat>, s: State, seen: seq<FifoLock.Event>, t: nat)
    returns (ts': seq<nat>, s': State)
    requires 0 < size && Leads(size, ids, ts, s, seen) && Sized(s) && t < |s.threads| && s.threads[t].pc == Inside
    requires s.next[s.node[t]] == NULL && s.tail == s.node[t]
    ensures s' == Leave(s.(tail := NULL, threads := s.threads[t := s.threads[t].(pc := Out)]))
    ensures Leads(size, ids, ts', s', seen + [FifoLock.Exit(t)])
  {
    RunLast(Init(size, ids), ts, t);
    assert seen + [] == seen;
    RunLast(Init(size, ids), ts + [t], t);
    ts', s' := ts + [t] + [t], Step(Step(s, t), t);
  }

  /** `u` has swapped in their common node but has not linked it yet when `t` leaves: `t` takes the tail, which is its
      own node, for a sign that nobody came, and gets in again before `u`. */
  lemma Overtakes(size: nat, ids: seq<nat>, t: nat, u: nat) returns (ts: seq<nat>)
    requires 0 < size && t < |ids| && u < |ids| && t != u && ids[t] % size == ids[u] % size
    ensures Run(Init(size, ids), ts).Some?
    ensures Run(Init(size, ids), ts).value.1 == FifoLock.Overtaking(t, u)
  {
    var s, seen := Init(size, ids), [FifoLock.Doorway(t), FifoLock.Enter(t)];
    assert [] + [FifoLock.Doorway(t)] + [FifoLock.Enter(t)] == seen;
    ts, s := Come(size, ids, [], s, [], t);
    ts, s := Come(size, ids, ts, s, seen, u);
    seen := seen + [FifoLock.Doorway(u)] + [];
    ts, s := Go(size, ids, ts, s, seen, t);
    seen := seen + [FifoLock.Exit(t)];
    ts, s := Come(size, ids, ts, s, seen, t);
    assert seen + [FifoLock.Doorway(t)] + [FifoLock.Enter(t)] == FifoLock.Overtaking(t, u);
  }

  /** Thread `t` sets its flag and links its node. */
  lemma Link(size: nat, ids: seq<nat>, ts: seq<nat>, s: State, seen: seq<FifoLock.Event>, t: nat)
    returns (ts': seq<nat>, s': State)
    requires 0 < size && Leads(size, ids, ts, s, seen) && Sized(s) && t < |s.threads| && s.threads[t].pc == SetLocked
    requires 0 <= s.threads[t].pred < |s.next|
    ensures s' == s.(locked := s.locked[s.node[t] := true], next := s.next[s.threads[t].pred := s.node[t]],
                     threads := s.threads[t := s.threads[t].(pc := Spin)])
    ensures Leads(size, ids, ts', s', seen)
  {
    RunLast(Init(size, ids), ts, t);
    assert seen + [] == seen;
    RunLast(Init(size, ids), ts + [t], t);
    ts', s' := ts + [t] + [t], Step(Step(s, t), t);
  }

  /** Thread `t` finds a successor and clears that one's flag. */
  lemma HandOn(size: nat, ids: seq<nat>, ts: seq<nat>, s: State, seen: seq<FifoLock.Event>, t: nat)
    returns (ts': seq<nat>, s': State)
    requires 0 < size && Leads(size, ids, ts, s, seen) && Sized(s) && t < |s.threads| && s.threads[t].pc == Inside
    requires 0 <= s.next[s.node[t]] < |s.locked|
    ensures var x := s.next[s.node[t]];
            s' == Leave(s.(locked := s.locked[x := false], threads := s.threads[t := Thread(Clean, s.threads[t].pred, x)]))
    ensures Leads(size, ids, ts', s', seen + [FifoLock.Exit(t)])
  {
    RunLast(Init(size, ids), ts, t);
    assert seen + [] == seen;
    RunLast(Init(size, ids), ts + [t], t);
    RunLast(Init(size, ids), ts + [t] + [t], t);
    ts', s' := ts + [t] + [t] + [t], Step(Step(Step(s, t), t), t);
  }

  /** Thread `t` sees its flag cleared. */
  lemma Wake(size: nat, ids: seq<nat>, ts: seq<nat>, s: State, seen: seq<FifoLock.Event>, t: nat)
    returns (ts': seq<nat>, s': State)
    requires 0 < size && Leads(size, ids, ts, s, seen) && Sized(s) && t < |s.threads| && s.threads[t].pc == Spin
    requires !s.locked[s.node[t]]
    ensures s' == s.(threads := s.threads[t := s.threads[t].(pc := Inside)])
    ensures Leads(size, ids, ts', s', seen + [FifoLock.Enter(t)])
  {
    RunLast(Init(size, ids), ts, t);
    ts', s' := ts + [t], Step(s, t);
  }

  /** `u` waits for a hand-over that nobody owes it, while the third thread `v` has the lock. */
  lemma Stranded(size: nat, ids: seq<nat>, t: nat, u: nat, v: nat) returns (ts: seq<nat>, s: State, seen: seq<FifoLock.Event>)
    requires 0 < size && t < |ids| && u < |ids| && v < |ids| && t != u && v != t && v != u && ids[t] % size == ids[u] % size
    ensures Leads(size, ids, ts, s, seen)
    ensures Sized(s) && |s.threads| == |ids| && s.node[t] == s.node[u] && s.tail == s.node[v]
    ensures s.threads[t].pc == Out && s.threads[u].pc == Spin && s.threads[v].pc == Inside
  {
    s := Init(size, ids);
    ts, s := Come(size, ids, [], s, [], t);
    seen := [] + [FifoLock.Doorway(t)] + [FifoLock.Enter(t)];
    ts, s := Come(size, ids, ts, s, seen, u);
    seen := seen + [FifoLock.Doorway(u)] + [];
    ts, s := Go(size, ids, ts, s, seen, t);
    seen := seen + [FifoLock.Exit(t)];
    ts, s := Come(size, ids, ts, s, seen, v);
    seen := seen + [FifoLock.Doorway(v)] + [FifoLock.Enter(v)];
    ts, s := Link(size, ids, ts, s, seen, u);
  }

  predicate OneHolder(s: State)
  {
    forall t, u :: 0 <= t < u < |s.threads| ==> !(HasLock(s.threads[t].pc) && HasLock(s.threads[u].pc))
  }

  /** `t` queues up behind `v`, with the node that `u` watches too: one hand-over lets both in. */
  lemma BothWake(size: nat, ids: seq<nat>, t: nat, u: nat, v: nat) returns (ts: seq<nat>)
    requires 0 < size && t < u < |ids| && v < |ids| && v != t && v != u && ids[t] % size == ids[u] % size
    ensures Run(Init(size, ids), ts).Some? && !OneHolder(Run(Init(size, ids), ts).value.0)
  {
    var s, seen;
    ts, s, seen := Stranded(size, ids, t, u, v);
    ts, s := Come(size, ids, ts, s, seen, t);
    seen := seen + [FifoLock.Doorway(t)] + [];
    ts, s := Link(size, ids, ts, s, seen, t);
    ts, s := HandOn(size, ids, ts, s, seen, v);
    seen := seen + [FifoLock.Exit(v)];
    ts, s := Wake(size, ids, ts, s, seen, t);
    ts, s := Wake(size, ids, ts, s, seen + [FifoLock.Enter(t)], u);
    assert HasLock(s.threads[t].pc) && HasLock(s.threads[u].pc);
  }

  // ---- Two threads in all ----

  /** The thread has the lock, or has swapped itself into an empty queue. */
  predicate Holds(th: Thread)
  {
    HasLock(th.pc) || (th.pc == TestPred && th.pred == NULL)
  }

  predicate Waits(th: Thread)
  {
    th.pc in {LinkPred, Spin}
  }

  /** Whose flag is cleared when it waits: it alone goes next. */
  predicate Released(s: State, t: nat, u: nat)
    requires Sized(s) && t < |s.threads| && u < |s.threads|
  {
    Waits(s.threads[t]) && !s.locked[s.node[t]] ==> s.tail != NULL && !Holds(s.threads[u]) && !Waits(s.threads[u])
  }

  /** What two threads with one node keep, although the order of entry is lost. */
  predicate Duo(s: State)
  {
    && Sized(s) && |s.threads| == 2 && s.node[0] == s.node[1]
    && !(Holds(s.threads[0]) && Holds(s.threads[1]))
    && (s.tail == NULL ==> !Holds(s.threads[0]) && !Holds(s.threads[1]))
    && Released(s, 0, 1) && Released(s, 1, 0)
  }

  /** The steps that write a flag or the tail. */
  lemma DuoWrite(s: State, t: nat)
    requires Duo(s) && t < 2 && s.threads[t].pc in {Out, SetLocked, CasTail, Grant}
    ensures Duo(Step(s, t))
  {
  }

  lemma DuoRead(s: State, t: nat)
    requires Duo(s) && t < 2 && s.threads[t].pc !in {Out, SetLocked, CasTail, Grant}
    ensures Duo(Step(s, t))
  {
  }

  lemma DuoStep(s: State, t: nat)
    requires Duo(s) && t < 2
    ensures Duo(Step(s, t))
  {
    if s.threads[t].pc in {Out, SetLocked, CasTail, Grant} {
      DuoWrite(s, t);
    } else {
      DuoRead(s, t);
    }
  }

  lemma {:induction false} DuoRun(s: State, ts: seq<nat>)
    requires Duo(s) && Run(s, ts).Some?
    ensures Duo(Run(s, ts).value.0)
    decreases |ts|
  {
    if ts != [] {
      DuoStep(s, ts[0]);
      DuoRun(Step(s, ts[0]), ts[1..]);
    }
  }

  lemma ThirdThread(n: nat, t: nat, u: nat) returns (v: nat)
    requires 3 <= n
    ensures v < n && v != t && v != u
  {
    v := if t != 0 && u != 0 then 0 else if t != 1 && u != 1 then 1 else 2;
  }

  /** Mutual exclusion holds in every run exactly when every thread has a cell of its own, or there are no more than
      two threads. */
  lemma MutualExclusionIff(size: nat, ids: seq<nat>)
    requires 0 < size
    ensures OwnCells(ids, size) || |ids| <= 2 <==>
              forall ts :: Run(Init(size, ids), ts).Some? ==> OneHolder(Run(Init(size, ids), ts).value.0)
  {
    if OwnCells(ids, size) || |ids| <= 2 {
      forall ts | Run(Init(size, ids), ts).Some?
        ensures OneHolder(Run(Init(size, ids), ts).value.0)
      {
        Excludes(size, ids, ts);
      }
    } else {
      var t: nat, u: nat :| t < u < |ids| && ids[t] % size == ids[u] % size;
      var v := ThirdThread(|ids|, t, u);
      var ts := BothWake(size, ids, t, u, v);
    }
  }

  lemma Excludes(size: nat, ids: seq<nat>, ts: seq<nat>)
    requires 0 < size && (OwnCells(ids, size) || |ids| <= 2) && Run(Init(size, ids), ts).Some?
    ensures OneHolder(Run(Init(size, ids), ts).value.0)
  {
    if OwnCells(ids, size) {
      InitOk(size, ids);
      RunOk(Init(size, ids), ts);
      var s := Run(Init(size, ids), ts).value.0;
      forall t, u | 0 <= t < u < |s.threads|
        ensures !(HasLock(s.threads[t].pc) && HasLock(s.threads[u].pc))
      {
        MutualExclusion(size, ids, ts, t, u);
      }
    } else {
      assert |ids| == 2 && ids[0] % size == ids[1] % size;
      DuoRun(Init(size, ids), ts);
    }
  }

  ghost predicate Fifo(size: nat, ids: seq<nat>, ts: seq<nat>)
    requires 0 < size
  {
    Run(Init(size, ids), ts).Some? ==>
      var seen := Run(Init(size, ids), ts).value.1;
      FifoLock.Run(FifoLock.START, seen).Some? && FifoLock.InOrder(seen)
  }

  /** In every run the lock behaves like the specification, exactly when every thread has a cell, and so a node, of its
      own. */
  lemma RefinesFifoIff(size: nat, ids: seq<nat>)
    requires 0 < size
    ensures OwnCells(ids, size) <==> forall ts :: Fifo(size, ids, ts)
  {
    if OwnCells(ids, size) {
      forall ts
        ensures Fifo(size, ids, ts)
      {
        if Run(Init(size, ids), ts).Some? {
          RefinesFifo(size, ids, ts);
        }
      }
    } else {
      var t: nat, u: nat :| t < u < |ids| && ids[t] % size == ids[u] % size;
      var ts := Overtakes(size, ids, t, u);
      FifoLock.NotAllowed(t, u);
      assert !Fifo(size, ids, ts);
    }
  }
}
