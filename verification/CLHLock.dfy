/** The CLH queue lock (locks/CLHLock.hpp). A thread waits on its predecessor's node and takes that node over when
    it leaves, so n threads share n + 1 nodes. */
module CLHLock {
  import opened Elements
  import opened FiniteSets
  import opened Queues
  import opened Sums
  import FifoLock
  import CountingClient

  const NULL := -1

  /** Named after what the thread does next. */
  datatype Pc = Out | Swap | SetPred | Spin | Inside | Recycle | Clear

  /** `node` and `pred` are the local variables of `lock`. */
  datatype Thread = Thread(pc: Pc, node: int, pred: int)

  /** `myNode` and `myPred` are the thread-local cells, `cell[t]` the place of thread `t` in them. `queue` and `front` are
      bookkeeping: the threads in the order of their swap, until they release, and the node that the first of them
      watches, or that is the tail when there is none. */
  datatype State = State(tail: int, locked: seq<bool>, cell: seq<nat>, myNode: seq<int>, myPred: seq<int>,
                         threads: seq<Thread>, queue: seq<nat>, front: int)

  /** The first thread with cell `c`. */
  function FirstWith(cell: seq<nat>, c: nat): (t: int)
    ensures t == NULL || (0 <= t < |cell| && cell[t] == c)
    ensures t == NULL ==> forall u :: 0 <= u < |cell| ==> cell[u] != c
  {
    if cell == [] then NULL
    else
      var t := FirstWith(cell[..|cell| - 1], c);
      if t == NULL && cell[|cell| - 1] == c then |cell| - 1 else t
  }

  /** With n threads, node n is the one that the constructor allocates; a cell starts with the node of its first thread.
      A thread finds its cell by its id modulo their number (threadlocal/ThreadLocal.hpp). */
  function Init(size: nat, ids: seq<nat>): State
    requires 0 < size
  {
    var cell := seq(|ids|, t requires 0 <= t < |ids| => ids[t] % size);
    State(|ids|, seq(|ids| + 1, _ => false), cell, seq(size, c requires 0 <= c < size => FirstWith(cell, c)),
          seq(size, _ => NULL), seq(|ids|, _ => Thread(Out, NULL, NULL)), [], |ids|)
  }

  predicate Sized(s: State)
  {
    && |s.cell| == |s.threads| && |s.myPred| == |s.myNode|
    && forall t {:trigger s.cell[t]} :: 0 <= t < |s.threads| ==> s.cell[t] < |s.myNode|
  }

  function MyNode(s: State, t: nat): int
    requires Sized(s) && t < |s.threads|
  {
    s.myNode[s.cell[t]]
  }

  function MyPred(s: State, t: nat): int
    requires Sized(s) && t < |s.threads|
  {
    s.myPred[s.cell[t]]
  }

  /** The pointer that thread `t` follows next, if any, is a node. */
  predicate PointersFine(s: State, t: nat)
  {
    && Sized(s) && t < |s.threads|
    && match s.threads[t].pc
       case Out | Inside => 0 <= MyNode(s, t) < |s.locked|
       case Spin => 0 <= s.threads[t].pred < |s.locked|
       case _ => true
  }

  function Goto(s: State, t: nat, th: Thread, pc: Pc): State
    requires t < |s.threads|
  {
    s.(threads := s.threads[t := th.(pc := pc)])
  }

  function Step(s: State, t: nat): State
    requires PointersFine(s, t)
  {
    var th := s.threads[t];
    match th.pc
    case Out => Goto(s.(locked := s.locked[MyNode(s, t) := true]), t, th.(node := MyNode(s, t)), Swap)
    case Swap => Goto(s.(tail := th.node, queue := s.queue + [t]), t, th.(pred := s.tail), SetPred)
    case SetPred => Goto(s.(myPred := s.myPred[s.cell[t] := th.pred]), t, th, Spin)
    case Spin => if s.locked[th.pred] then s else Goto(s, t, th, Inside)
    case Inside =>
      Goto(s.(locked := s.locked[MyNode(s, t) := false], queue := if s.queue == [] then [] else s.queue[1..],
              front := MyNode(s, t)),
           t, th, Recycle)
    case Recycle => Goto(s.(myNode := s.myNode[s.cell[t] := MyPred(s, t)]), t, th, Clear)
    case Clear => Goto(s.(myPred := s.myPred[s.cell[t] := NULL]), t, th, Out)
  }

  function Visible(s: State, t: nat): seq<FifoLock.Event>
    requires PointersFine(s, t)
  {
    match s.threads[t].pc
    case Swap => [FifoLock.Doorway(t)]
    case Spin => if s.locked[s.threads[t].pred] then [] else [FifoLock.Enter(t)]
    case Inside => [FifoLock.Exit(t)]
    case _ => []
  }

  /** A run is a schedule; it ends in None if a step would follow a null pointer. */
  function Run(s: State, ts: seq<nat>): Option<(State, seq<FifoLock.Event>)>
    decreases |ts|
  {
    if ts == [] then Some((s, []))
    else if !PointersFine(s, ts[0]) then None
    else
      match Run(Step(s, ts[0]), ts[1..])
      case None => None
      case Some((b, seen)) => Some((b, Visible(s, ts[0]) + seen))
  }

  // ---- The invariant ----

  predicate Queued(pc: Pc)
  {
    pc in {SetPred, Spin, Inside}
  }

  /** The node that the `i`th in the queue watches. */
  function Watched(s: State, i: nat): int
    requires Sized(s) && i <= |s.queue|
  {
    if i == 0 then s.front
    else if s.queue[i - 1] < |s.threads| then MyNode(s, s.queue[i - 1])
    else NULL
  }

  /** The node a thread will use for its next call, or uses for this one. */
  function Own(s: State, t: nat): int
    requires Sized(s) && t < |s.threads|
  {
    if s.threads[t].pc == Recycle then MyPred(s, t) else MyNode(s, t)
  }

  ghost predicate SlotOk(s: State, i: int)
    requires Sized(s)
  {
    && 0 <= i < |s.queue| && s.queue[i] < |s.threads|
    && var (t, th) := (s.queue[i], s.threads[s.queue[i]]);
       && th.pred == Watched(s, i)
       && (th.pc != SetPred ==> MyPred(s, t) == th.pred)
       && (th.pc == Inside ==> i == 0)
       && 0 <= MyNode(s, t) < |s.locked| && s.locked[MyNode(s, t)]
  }

  ghost predicate ThreadOk(s: State, t: nat)
    requires Sized(s) && t < |s.threads|
  {
    && (t in s.queue <==> Queued(s.threads[t].pc))
    && 0 <= Own(s, t) < |s.locked| && Own(s, t) != s.front && 0 <= MyNode(s, t) < |s.locked|
    && (s.threads[t].pc in {Out, Swap, SetPred} ==> MyPred(s, t) == NULL)
    && (s.threads[t].pc == Swap ==> s.threads[t].node == MyNode(s, t) && s.locked[MyNode(s, t)])
  }

  /** Nobody shares a node. */
  ghost predicate Apart(s: State)
    requires Sized(s)
  {
    forall t: nat, u: nat {:trigger Own(s, t), Own(s, u)} :: t < |s.threads| && u < |s.threads| && t != u ==> Own(s, t) != Own(s, u)
  }

  ghost predicate Inv(s: State)
  {
    && Sized(s) && NoRepeats(s.cell) && |s.locked| == |s.threads| + 1 && NoRepeats(s.queue) && Apart(s)
    && 0 <= s.front < |s.locked| && !s.locked[s.front]
    && s.tail == Watched(s, |s.queue|)
    && (forall i {:trigger SlotOk(s, i)} :: 0 <= i < |s.queue| ==> SlotOk(s, i))
    && (forall t: nat {:trigger ThreadOk(s, t)} :: t < |s.threads| ==> ThreadOk(s, t))
  }

  function Abstract(s: State): FifoLock.State
  {
    FifoLock.State(s.queue, s.queue != [] && s.queue[0] < |s.threads| && s.threads[s.queue[0]].pc == Inside)
  }

  // ---- Steps ----

  lemma PointersOk(s: State, t: nat)
    requires Inv(s) && t < |s.threads|
    ensures PointersFine(s, t)
  {
    assert ThreadOk(s, t);
    if t in s.queue {
      var k :| 0 <= k < |s.queue| && s.queue[k] == t;
      assert SlotOk(s, k);
      assert k > 0 ==> SlotOk(s, k - 1);
    }
  }

  /** The flag set for a new call is one that nobody watches. */
  lemma BeginOk(s: State, t: nat)
    requires Inv(s) && t < |s.threads| && PointersFine(s, t) && s.threads[t].pc == Out
    ensures Inv(Step(s, t)) && |Step(s, t).threads| == |s.threads| && Step(s, t).queue == s.queue
  {
    var s' := Step(s, t);
    assert ThreadOk(s, t);
    assert forall u: nat :: u < |s.threads| ==> Own(s', u) == Own(s, u);
    forall i | 0 <= i < |s'.queue|
      ensures SlotOk(s', i)
    {
      assert SlotOk(s, i) && ThreadOk(s, s.queue[i]);
      assert i > 0 ==> SlotOk(s, i - 1);
    }
    forall u: nat | u < |s.threads|
      ensures ThreadOk(s', u)
    {
      assert ThreadOk(s, u);
    }
  }

  /** Waiting changes nothing that others see. */
  lemma WaitOk(s: State, t: nat)
    requires Inv(s) && t < |s.threads| && PointersFine(s, t) && s.threads[t].pc in {SetPred, Spin}
    ensures Inv(Step(s, t)) && |Step(s, t).threads| == |s.threads| && Step(s, t).queue == s.queue
  {
    var s' := Step(s, t);
    assert ThreadOk(s, t);
    assert forall u: nat :: u < |s.threads| && u != t ==> s.cell[u] != s.cell[t];
    assert forall u: nat :: u < |s.threads| ==> Own(s', u) == Own(s, u);
    forall i | 0 <= i < |s'.queue|
      ensures SlotOk(s', i)
    {
      assert SlotOk(s, i);
      assert i > 0 ==> SlotOk(s, i - 1);
    }
    forall u: nat | u < |s.threads|
      ensures ThreadOk(s', u)
    {
      assert ThreadOk(s, u);
    }
  }

  /** The thread takes over the node it had watched, which is its own already. */
  lemma TakeOverOk(s: State, t: nat)
    requires Inv(s) && t < |s.threads| && PointersFine(s, t) && s.threads[t].pc in {Recycle, Clear}
    ensures Inv(Step(s, t)) && |Step(s, t).threads| == |s.threads| && Step(s, t).queue == s.queue
  {
    var s' := Step(s, t);
    assert ThreadOk(s, t);
    assert forall u: nat :: u < |s.threads| && u != t ==> s.cell[u] != s.cell[t];
    assert forall u: nat :: u < |s.threads| ==> Own(s', u) == Own(s, u);
    forall i | 0 <= i < |s'.queue|
      ensures SlotOk(s', i)
    {
      assert SlotOk(s, i);
      assert i > 0 ==> SlotOk(s, i - 1);
    }
    forall u: nat | u < |s.threads|
      ensures ThreadOk(s', u)
    {
      assert ThreadOk(s, u);
    }
  }

  lemma JoinOk(s: State, t: nat)
    requires Inv(s) && t < |s.threads| && PointersFine(s, t) && s.threads[t].pc == Swap
    ensures Inv(Step(s, t)) && |Step(s, t).threads| == |s.threads| && Step(s, t).queue == s.queue + [t]
  {
    var s' := Step(s, t);
    assert ThreadOk(s, t);
    assert forall u: nat :: u < |s.threads| ==> Own(s', u) == Own(s, u);
    forall i | 0 <= i < |s'.queue|
      ensures SlotOk(s', i)
    {
      if i < |s.queue| {
        assert SlotOk(s, i);
      }
      if 0 < i {
        assert SlotOk(s, i - 1);
      }
    }
    forall u: nat | u < |s.threads|
      ensures ThreadOk(s', u)
    {
      assert ThreadOk(s, u);
    }
  }

  lemma ReleaseApart(s: State, t: nat)
    requires Inv(s) && t < |s.threads| && PointersFine(s, t) && s.threads[t].pc == Inside && MyPred(s, t) == s.front
    ensures Apart(Step(s, t))
    ensures forall u: nat :: u < |s.threads| && u != t ==> Own(Step(s, t), u) == Own(s, u) && Own(s, u) != Own(s, t)
  {
    var s' := Step(s, t);
    assert Own(s', t) == s.front;
    forall u: nat | u < |s.threads| && u != t
      ensures Own(s', u) == Own(s, u) && Own(s, u) != s.front && Own(s, u) != Own(s, t)
    {
      assert ThreadOk(s, u);
    }
  }

  /** Releasing: the node becomes the one the next thread sees unlocked, and the thread takes over the node it had
      watched itself. */
  lemma ReleaseOk(s: State, t: nat)
    requires Inv(s) && t < |s.threads| && PointersFine(s, t) && s.threads[t].pc == Inside
    ensures s.queue != [] && s.queue[0] == t
    ensures Inv(Step(s, t)) && |Step(s, t).threads| == |s.threads| && Step(s, t).queue == s.queue[1..]
  {
    var s' := Step(s, t);
    assert ThreadOk(s, t);
    var k :| 0 <= k < |s.queue| && s.queue[k] == t;
    assert SlotOk(s, k);
    assert Own(s', t) == s.front;
    ReleaseApart(s, t);
    forall i | 0 <= i < |s'.queue|
      ensures SlotOk(s', i)
    {
      assert SlotOk(s, i + 1);
      var u := s.queue[i + 1];
      assert ThreadOk(s, u) && Own(s, u) != Own(s, t);
    }
    forall u: nat | u < |s.threads|
      ensures ThreadOk(s', u)
    {
      assert ThreadOk(s, u);
      assert u != t ==> Own(s, u) != Own(s, t);
    }
  }

  lemma StepOk(s: State, t: nat)
    requires Inv(s) && t < |s.threads|
    ensures PointersFine(s, t) && Inv(Step(s, t)) && |Step(s, t).threads| == |s.threads|
    ensures FifoLock.Run(Abstract(s), Visible(s, t)) == Some(Abstract(Step(s, t)))
  {
    PointersOk(s, t);
    assert ThreadOk(s, t);
    var pc := s.threads[t].pc;
    if pc == Swap {
      JoinOk(s, t);
    } else if pc == Inside {
      ReleaseOk(s, t);
      assert 1 < |s.queue| ==> SlotOk(s, 1);
    } else if pc == Out {
      BeginOk(s, t);
    } else if pc in {SetPred, Spin} {
      WaitOk(s, t);
    } else {
      TakeOverOk(s, t);
    }
    if pc == Spin {
      OnlyFirstEnters(s, t);
    }
  }

  /** Only the first in the queue watches an unlocked node. */
  lemma OnlyFirstEnters(s: State, t: nat)
    requires Inv(s) && t < |s.threads| && s.threads[t].pc == Spin
    ensures PointersFine(s, t) && s.queue != [] && (!s.locked[s.threads[t].pred] <==> s.queue[0] == t)
  {
    PointersOk(s, t);
    assert ThreadOk(s, t);
    var k :| 0 <= k < |s.queue| && s.queue[k] == t;
    assert SlotOk(s, k);
    assert k > 0 ==> SlotOk(s, k - 1);
  }

  // ---- Over whole runs ----

  lemma InitOk(size: nat, ids: seq<nat>)
    requires 0 < size && OwnCells(ids, size)
    ensures Inv(Init(size, ids)) && Abstract(Init(size, ids)) == FifoLock.START
  {
    var s := Init(size, ids);
    forall t: nat | t < |ids|
      ensures MyNode(s, t) == t
    {
      var u := FirstWith(s.cell, s.cell[t]);
      assert s.cell[u] == s.cell[t];
    }
    assert forall t: nat :: t < |ids| ==> Own(s, t) == t && ThreadOk(s, t);
  }

  lemma {:induction false} RunOk(s: State, ts: seq<nat>)
    requires Inv(s) && forall i :: 0 <= i < |ts| ==> ts[i] < |s.threads|
    ensures Run(s, ts).Some?
    ensures Inv(Run(s, ts).value.0) && |Run(s, ts).value.0.threads| == |s.threads|
    ensures FifoLock.Run(Abstract(s), Run(s, ts).value.1) == Some(Abstract(Run(s, ts).value.0))
    decreases |ts|
  {
    if ts != [] {
      StepOk(s, ts[0]);
      var s1 := Step(s, ts[0]);
      assert forall i :: 0 <= i < |ts[1..]| ==> ts[1..][i] == ts[i + 1];
      RunOk(s1, ts[1..]);
      FifoLock.RunConcat(Abstract(s), Visible(s, ts[0]), Run(s1, ts[1..]).value.1);
    }
  }

  /** Every schedule runs: no step ever follows a null pointer. */
  lemma EveryScheduleRuns(size: nat, ids: seq<nat>, ts: seq<nat>)
    requires 0 < size && OwnCells(ids, size) && forall i :: 0 <= i < |ts| ==> ts[i] < |ids|
    ensures Run(Init(size, ids), ts).Some?
  {
    InitOk(size, ids);
    RunOk(Init(size, ids), ts);
  }

  lemma {:induction false} ScheduleFits(s: State, ts: seq<nat>)
    requires Run(s, ts).Some?
    ensures forall i :: 0 <= i < |ts| ==> ts[i] < |s.threads|
    decreases |ts|
  {
    if ts != [] {
      ScheduleFits(Step(s, ts[0]), ts[1..]);
      assert forall i :: 0 < i < |ts| ==> ts[i] == ts[1..][i - 1];
    }
  }

  /** What is seen of the lock is allowed by the specification: one thread at a time, in the order of the swaps. */
  lemma RefinesFifo(size: nat, ids: seq<nat>, ts: seq<nat>)
    requires 0 < size && OwnCells(ids, size) && Run(Init(size, ids), ts).Some?
    ensures var (s, seen) := Run(Init(size, ids), ts).value;
            FifoLock.Run(FifoLock.START, seen) == Some(Abstract(s)) && FifoLock.InOrder(seen)
  {
    InitOk(size, ids);
    ScheduleFits(Init(size, ids), ts);
    RunOk(Init(size, ids), ts);
    FifoLock.FirstComeFirstServed(Run(Init(size, ids), ts).value.1);
  }

  lemma MutualExclusion(size: nat, ids: seq<nat>, ts: seq<nat>, t: nat, u: nat)
    requires 0 < size && OwnCells(ids, size) && t < |ids| && u < |ids| && forall i :: 0 <= i < |ts| ==> ts[i] < |ids|
    ensures Run(Init(size, ids), ts).Some?
    ensures var s := Run(Init(size, ids), ts).value.0;
            |s.threads| == |ids| && (s.threads[t].pc == Inside && s.threads[u].pc == Inside ==> t == u)
  {
    InitOk(size, ids);
    RunOk(Init(size, ids), ts);
    var s := Run(Init(size, ids), ts).value.0;
    assert ThreadOk(s, t) && ThreadOk(s, u);
    if s.threads[t].pc == Inside && s.threads[u].pc == Inside {
      var i :| 0 <= i < |s.queue| && s.queue[i] == t;
      var j :| 0 <= j < |s.queue| && s.queue[j] == u;
      assert SlotOk(s, i) && SlotOk(s, j);
    }
  }

  // ---- Recycling ----

  function Owned(s: State, k: nat): set<int>
    requires Sized(s) && k <= |s.threads|
  {
    set t: nat | t < k :: Own(s, t)
  }

  lemma {:induction false} OwnedCount(s: State, k: nat)
    requires Inv(s) && k <= |s.threads|
    ensures |Owned(s, k)| == k && s.front !in Owned(s, k)
    ensures forall m :: m in Owned(s, k) ==> 0 <= m < |s.locked|
  {
    if k == 0 {
      assert Owned(s, 0) == {};
    } else {
      OwnedCount(s, k - 1);
      assert ThreadOk(s, k - 1);
      assert Own(s, k - 1) !in Owned(s, k - 1) by {
        forall t: nat | t < k - 1
          ensures Own(s, t) != Own(s, k - 1)
        {
        }
      }
      assert Owned(s, k) == Owned(s, k - 1) + {Own(s, k - 1)};
    }
  }

  /** With n threads, every one of the n + 1 nodes is at all times the own node of exactly one thread, or the one
      released node in front. */
  lemma NodesArePartitioned(size: nat, ids: seq<nat>, ts: seq<nat>, m: nat)
    requires 0 < size && OwnCells(ids, size) && m <= |ids| && forall i :: 0 <= i < |ts| ==> ts[i] < |ids|
    ensures Run(Init(size, ids), ts).Some?
    ensures var s := Run(Init(size, ids), ts).value.0;
            && Sized(s) && |s.threads| == |ids|
            && (m == s.front <==> !exists t: nat :: t < |ids| && Own(s, t) == m)
            && forall t: nat, u: nat :: t < |ids| && u < |ids| && Own(s, t) == m && Own(s, u) == m ==> t == u
  {
    InitOk(size, ids);
    RunOk(Init(size, ids), ts);
    Partition(Run(Init(size, ids), ts).value.0, m);
  }

  lemma Partition(s: State, m: nat)
    requires Inv(s) && m < |s.locked|
    ensures m == s.front <==> m !in Owned(s, |s.threads|)
  {
    var n := |s.threads|;
    OwnedCount(s, n);
    var all := Owned(s, n) + {s.front};
    assert |all| == n + 1;
    SubsetCount(all, Below(n + 1));
    assert m in all;
  }

  /** A thread about to set its node's flag for a new call sets a flag that nobody is waiting on. */
  lemma RecycledNodeIsUnwatched(size: nat, ids: seq<nat>, ts: seq<nat>, t: nat, u: nat)
    requires 0 < size && OwnCells(ids, size) && t < |ids| && u < |ids| && forall i :: 0 <= i < |ts| ==> ts[i] < |ids|
    ensures Run(Init(size, ids), ts).Some?
    ensures var s := Run(Init(size, ids), ts).value.0;
            && Sized(s) && |s.threads| == |ids|
            && (s.threads[t].pc == Out && Queued(s.threads[u].pc) ==> s.threads[u].pred != MyNode(s, t))
  {
    InitOk(size, ids);
    RunOk(Init(size, ids), ts);
    var s := Run(Init(size, ids), ts).value.0;
    assert ThreadOk(s, t) && ThreadOk(s, u);
    if s.threads[t].pc == Out && Queued(s.threads[u].pc) {
      var k :| 0 <= k < |s.queue| && s.queue[k] == u;
      assert SlotOk(s, k);
      if k > 0 {
        assert SlotOk(s, k - 1) && ThreadOk(s, s.queue[k - 1]);
        assert Own(s, t) != Own(s, s.queue[k - 1]);
      }
    }
  }

  // ---- Every call ends ----

  /** How many steps the rest of a call takes, waiting apart. */
  function ToGo(pc: Pc): nat
  {
    match pc
    case Out => 0
    case Clear => 1
    case Recycle => 2
    case Inside => 3
    case Spin => 4
    case SetPred => 5
    case Swap => 6
  }

  function AllToGo(s: State): seq<nat>
  {
    seq(|s.threads|, t requires 0 <= t < |s.threads| => ToGo(s.threads[t].pc))
  }

  /** The thread waits, and the node it watches is still locked. */
  predicate Spins(s: State, t: nat)
    requires PointersFine(s, t)
  {
    s.threads[t].pc == Spin && s.locked[s.threads[t].pred]
  }

  /** A schedule in which no call starts and no thread spins. */
  predicate Works(s: State, us: seq<nat>)
    decreases |us|
  {
    us == [] ||
    (PointersFine(s, us[0]) && s.threads[us[0]].pc != Out && !Spins(s, us[0]) && Works(Step(s, us[0]), us[1..]))
  }

  /** Nobody has a step left in its call but spinning. */
  predicate AtRest(s: State)
  {
    forall t: nat :: t < |s.threads| ==> s.threads[t].pc == Out || (PointersFine(s, t) && Spins(s, t))
  }

  lemma StepCounts(s: State, t: nat)
    requires PointersFine(s, t) && s.threads[t].pc != Out
    ensures if Spins(s, t) then Step(s, t) == s else ToGo(Step(s, t).threads[t].pc) < ToGo(s.threads[t].pc)
    ensures |Step(s, t).threads| == |s.threads|
    ensures forall u: nat :: u < |s.threads| && u != t ==> Step(s, t).threads[u] == s.threads[u]
  {
  }

  /** Spinning is waiting for the first in the queue, which is not spinning. */
  lemma SomebodyCan(s: State, t: nat) returns (u: nat)
    requires Inv(s) && t < |s.threads| && s.threads[t].pc != Out
    ensures u < |s.threads| && s.threads[u].pc != Out && PointersFine(s, u) && !Spins(s, u)
    ensures Queued(s.threads[t].pc) ==> s.queue != [] && u == s.queue[0]
  {
    PointersOk(s, t);
    assert ThreadOk(s, t);
    u := t;
    if Queued(s.threads[t].pc) {
      u := s.queue[0];
      assert SlotOk(s, 0) && ThreadOk(s, u);
      PointersOk(s, u);
    }
  }

  lemma {:induction false} WorkBounded(s: State, us: seq<nat>)
    requires Inv(s) && Works(s, us)
    ensures Run(s, us).Some? && Inv(Run(s, us).value.0) && |Run(s, us).value.0.threads| == |s.threads|
    ensures |us| + Sum(AllToGo(Run(s, us).value.0)) <= Sum(AllToGo(s))
    decreases |us|
  {
    if us != [] {
      var s1 := Step(s, us[0]);
      StepOk(s, us[0]);
      StepCounts(s, us[0]);
      SumChange(AllToGo(s), AllToGo(s1), us[0]);
      WorkBounded(s1, us[1..]);
    }
  }

  /** Nobody waits for ever: a schedule that starts no call and lets nobody spin is finite, and when it cannot be
      continued every thread has left its call. */
  lemma CallsEnd(size: nat, ids: seq<nat>, ts: seq<nat>, us: seq<nat>)
    requires 0 < size && OwnCells(ids, size) && forall i :: 0 <= i < |ts| ==> ts[i] < |ids|
    requires Run(Init(size, ids), ts).Some? ==> Works(Run(Init(size, ids), ts).value.0, us)
    ensures Run(Init(size, ids), ts).Some?
    ensures var s := Run(Init(size, ids), ts).value.0;
            && |us| <= |ids| * 6 && Run(s, us).Some?
            && var s' := Run(s, us).value.0;
               && |s'.threads| == |ids|
               && (AtRest(s') ==> forall t :: 0 <= t < |ids| ==> s'.threads[t].pc == Out)
  {
    InitOk(size, ids);
    RunOk(Init(size, ids), ts);
    var s := Run(Init(size, ids), ts).value.0;
    WorkBounded(s, us);
    SumBound(AllToGo(s), 6);
    var s' := Run(s, us).value.0;
    if t: nat :| t < |ids| && s'.threads[t].pc != Out {
      var u := SomebodyCan(s', t);
    }
  }

  /** In any run, a step within a call is spinning, which changes nothing, or brings the call nearer to its end. */
  lemma EveryStepCounts(size: nat, ids: seq<nat>, ts: seq<nat>, t: nat)
    requires 0 < size && OwnCells(ids, size) && t < |ids| && forall i :: 0 <= i < |ts| ==> ts[i] < |ids|
    ensures Run(Init(size, ids), ts).Some?
    ensures var s := Run(Init(size, ids), ts).value.0;
            && |s.threads| == |ids| && PointersFine(s, t)
            && (s.threads[t].pc != Out ==>
                  if Spins(s, t) then Step(s, t) == s else ToGo(Step(s, t).threads[t].pc) < ToGo(s.threads[t].pc))
  {
    InitOk(size, ids);
    RunOk(Init(size, ids), ts);
    var s := Run(Init(size, ids), ts).value.0;
    PointersOk(s, t);
    if s.threads[t].pc != Out {
      StepCounts(s, t);
    }
  }

  /** A thread that has not yet swapped itself in finds its predecessor cell cleared, as the last `unlock` left it, and
      its node is not the tail. */
  lemma IdleCellIsClear(size: nat, ids: seq<nat>, ts: seq<nat>, t: nat)
    requires 0 < size && OwnCells(ids, size) && t < |ids| && forall i :: 0 <= i < |ts| ==> ts[i] < |ids|
    ensures Run(Init(size, ids), ts).Some?
    ensures var s := Run(Init(size, ids), ts).value.0;
            && Sized(s) && |s.threads| == |ids|
            && (s.threads[t].pc in {Out, Swap} ==> MyPred(s, t) == NULL && MyNode(s, t) != s.tail)
  {
    InitOk(size, ids);
    RunOk(Init(size, ids), ts);
    var s := Run(Init(size, ids), ts).value.0;
    assert ThreadOk(s, t);
    if s.queue != [] {
      var u := s.queue[|s.queue| - 1];
      assert SlotOk(s, |s.queue| - 1) && ThreadOk(s, u);
    }
  }

  /** While anybody is in the queue, its first thread has a step that is not spinning. */
  lemma SomebodyMoves(size: nat, ids: seq<nat>, ts: seq<nat>, t: nat)
    requires 0 < size && OwnCells(ids, size) && t < |ids| && forall i :: 0 <= i < |ts| ==> ts[i] < |ids|
    ensures Run(Init(size, ids), ts).Some?
    ensures var s := Run(Init(size, ids), ts).value.0;
            && Sized(s) && |s.threads| == |ids|
            && (Queued(s.threads[t].pc) ==>
                  && s.queue != [] && s.queue[0] < |ids| && PointersFine(s, s.queue[0])
                  && Step(s, s.queue[0]).threads[s.queue[0]].pc != s.threads[s.queue[0]].pc)
  {
    InitOk(size, ids);
    RunOk(Init(size, ids), ts);
    var s := Run(Init(size, ids), ts).value.0;
    assert ThreadOk(s, t);
    if Queued(s.threads[t].pc) {
      var u := SomebodyCan(s, t);
      StepCounts(s, u);
    }
  }

  /** The test program: no increment made under the lock is lost. */
  lemma CountsUp(size: nat, ids: seq<nat>, k: nat, ts: seq<nat>, xs: seq<CountingClient.Action>)
    requires 0 < size && OwnCells(ids, size)
    requires Run(Init(size, ids), ts).Some? && CountingClient.LockPart(xs) == Run(Init(size, ids), ts).value.1
    requires CountingClient.DoAll(CountingClient.Fresh(|ids|), xs).Some?
    requires forall t: nat :: t < |ids| ==> CountingClient.StoresBy(t, xs) == k
    ensures CountingClient.DoAll(CountingClient.Fresh(|ids|), xs).value.counter == |ids| * k
  {
    RefinesFifo(size, ids, ts);
    CountingClient.CountsUp(|ids|, k, xs);
  }

  // ---- Two threads that share a cell ----

  lemma {:induction false} RunLast(s: State, ts: seq<nat>, t: nat)
    requires Run(s, ts).Some? && PointersFine(Run(s, ts).value.0, t)
    ensures Run(s, ts + [t]) ==
              Some((Step(Run(s, ts).value.0, t), Run(s, ts).value.1 + Visible(Run(s, ts).value.0, t)))
    decreases |ts|
  {
    if ts == [] {
      assert [] + [t] == [t] && [t][1..] == [];
      assert Visible(s, t) + [] == Visible(s, t) && [] + Visible(s, t) == Visible(s, t);
    } else {
      assert (ts + [t])[1..] == ts[1..] + [t];
      RunLast(Step(s, ts[0]), ts[1..], t);
      var b, seen := Run(s, ts).value.0, Run(Step(s, ts[0]), ts[1..]).value.1;
      assert Visible(s, ts[0]) + (seen + Visible(b, t)) == (Visible(s, ts[0]) + seen) + Visible(b, t);
    }
  }

  /** The schedule `ts` leads from the start to `s` with `seen` in view. */
  ghost predicate Leads(size: nat, ids: seq<nat>, ts: seq<nat>, s: State, seen: seq<FifoLock.Event>)
    requires 0 < size
  {
    Run(Init(size, ids), ts) == Some((s, seen))
  }

  /** Thread `t` sets its flag and swaps itself in. */
  lemma Queue(size: nat, ids: seq<nat>, ts: seq<nat>, s: State, seen: seq<FifoLock.Event>, t: nat)
    returns (ts': seq<nat>, s': State)
    requires 0 < size && Leads(size, ids, ts, s, seen) && PointersFine(s, t) && s.threads[t].pc == Out
    ensures s' == s.(locked := s.locked[MyNode(s, t) := true], tail := MyNode(s, t), queue := s.queue + [t],
                     threads := s.threads[t := Thread(SetPred, MyNode(s, t), s.tail)])
    ensures Leads(size, ids, ts', s', seen + [FifoLock.Doorway(t)])
  {
    RunLast(Init(size, ids), ts, t);
    assert seen + [] == seen;
    RunLast(Init(size, ids), ts + [t], t);
    ts', s' := ts + [t] + [t], Step(Step(s, t), t);
  }

  /** Thread `t` finds its predecessor's flag cleared. */
  lemma GoIn(size: nat, ids: seq<nat>, ts: seq<nat>, s: State, seen: seq<FifoLock.Event>, t: nat)
    returns (ts': seq<nat>, s': State)
    requires 0 < size && Leads(size, ids, ts, s, seen) && PointersFine(s, t) && s.threads[t].pc == SetPred
    requires 0 <= s.threads[t].pred < |s.locked| && !s.locked[s.threads[t].pred]
    ensures s' == s.(myPred := s.myPred[s.cell[t] := s.threads[t].pred], threads := s.threads[t := s.threads[t].(pc := Inside)])
    ensures Leads(size, ids, ts', s', seen + [FifoLock.Enter(t)])
  {
    RunLast(Init(size, ids), ts, t);
    assert seen + [] == seen;
    RunLast(Init(size, ids), ts + [t], t);
    ts', s' := ts + [t] + [t], Step(Step(s, t), t);
  }

  /** Thread `t` releases its node and takes over the one in its predecessor cell. */
  lemma GoOut(size: nat, ids: seq<nat>, ts: seq<nat>, s: State, seen: seq<FifoLock.Event>, t: nat)
    returns (ts': seq<nat>, s': State)
    requires 0 < size && Leads(size, ids, ts, s, seen) && PointersFine(s, t) && s.threads[t].pc == Inside && s.queue != []
    ensures s' == s.(locked := s.locked[MyNode(s, t) := false], queue := s.queue[1..], front := MyNode(s, t),
                     myNode := s.myNode[s.cell[t] := MyPred(s, t)], myPred := s.myPred[s.cell[t] := NULL],
                     threads := s.threads[t := s.threads[t].(pc := Out)])
    ensures Leads(size, ids, ts', s', seen + [FifoLock.Exit(t)])
  {
    RunLast(Init(size, ids), ts, t);
    RunLast(Init(size, ids), ts + [t], t);
    var s2 := Step(Step(s, t), t);
    RunLast(Init(size, ids), ts + [t] + [t], t);
    assert seen + [FifoLock.Exit(t)] + [] + [] == seen + [FifoLock.Exit(t)];
    ts', s' := ts + [t] + [t] + [t], Step(s2, t);
  }

  /** `u` queues up behind their common node while `t` is inside. */
  lemma NodeUsedTwice(size: nat, ids: seq<nat>, t: nat, u: nat) returns (ts: seq<nat>, s: State)
    requires 0 < size && t < |ids| && u < |ids| && t != u && ids[t] % size == ids[u] % size
    ensures Leads(size, ids, ts, s, [FifoLock.Doorway(t), FifoLock.Enter(t), FifoLock.Doorway(u)])
    ensures Sized(s) && |s.threads| == |ids| && |s.locked| == |ids| + 1 && s.threads[t].pc == Inside && s.queue != []
    ensures 0 <= MyNode(s, t) == s.tail < |ids| == MyPred(s, t)
    ensures s.threads[u] == Thread(SetPred, s.tail, s.tail)
  {
    s := Init(size, ids);
    var seen := [FifoLock.Doorway(t)];
    assert [] + seen == seen && 0 <= MyNode(s, t) < |ids|;
    ts, s := Queue(size, ids, [], s, [], t);
    ts, s := GoIn(size, ids, ts, s, seen, t);
    seen := seen + [FifoLock.Enter(t)];
    ts, s := Queue(size, ids, ts, s, seen, u);
    assert seen + [FifoLock.Doorway(u)] == [FifoLock.Doorway(t), FifoLock.Enter(t), FifoLock.Doorway(u)];
  }

  /** `t` releases that node, takes over another one from their common predecessor cell, queues up behind `u`, and finds
      the same flag cleared as `u` would. */
  lemma Overtakes(size: nat, ids: seq<nat>, t: nat, u: nat) returns (ts: seq<nat>, s: State)
    requires 0 < size && t < |ids| && u < |ids| && t != u && ids[t] % size == ids[u] % size
    ensures Leads(size, ids, ts, s, FifoLock.Overtaking(t, u))
    ensures PointersFine(s, u) && t < |s.threads| && s.threads[t].pc == Inside && s.threads[u].pc == SetPred
    ensures 0 <= s.threads[u].pred < |s.locked| && !s.locked[s.threads[u].pred]
  {
    ts, s := NodeUsedTwice(size, ids, t, u);
    var seen := [FifoLock.Doorway(t), FifoLock.Enter(t), FifoLock.Doorway(u)];
    ts, s := GoOut(size, ids, ts, s, seen, t);
    seen := seen + [FifoLock.Exit(t)];
    ts, s := Queue(size, ids, ts, s, seen, t);
    seen := seen + [FifoLock.Doorway(t)];
    ts, s := GoIn(size, ids, ts, s, seen, t);
    assert seen + [FifoLock.Enter(t)] == FifoLock.Overtaking(t, u);
  }

  predicate OneInside(s: State)
  {
    forall t, u :: 0 <= t < u < |s.threads| ==> !(s.threads[t].pc == Inside && s.threads[u].pc == Inside)
  }

  /** `u` then gets in as well. */
  lemma BothInside(size: nat, ids: seq<nat>, t: nat, u: nat) returns (ts: seq<nat>)
    requires 0 < size && t < |ids| && u < |ids| && t < u && ids[t] % size == ids[u] % size
    ensures Run(Init(size, ids), ts).Some? && !OneInside(Run(Init(size, ids), ts).value.0)
  {
    var s;
    ts, s := Overtakes(size, ids, t, u);
    ts, s := GoIn(size, ids, ts, s, FifoLock.Overtaking(t, u), u);
    assert s.threads[t].pc == Inside && s.threads[u].pc == Inside;
  }

  /** Mutual exclusion holds in every run exactly when every thread has cells of its own. */
  lemma MutualExclusionIff(size: nat, ids: seq<nat>)
    requires 0 < size
    ensures OwnCells(ids, size) <==>
              forall ts :: Run(Init(size, ids), ts).Some? ==> OneInside(Run(Init(size, ids), ts).value.0)
  {
    if OwnCells(ids, size) {
      forall ts | Run(Init(size, ids), ts).Some?
        ensures OneInside(Run(Init(size, ids), ts).value.0)
      {
        ScheduleFits(Init(size, ids), ts);
        var s := Run(Init(size, ids), ts).value.0;
        InitOk(size, ids);
        RunOk(Init(size, ids), ts);
        forall t, u | 0 <= t < u < |s.threads|
          ensures !(s.threads[t].pc == Inside && s.threads[u].pc == Inside)
        {
          MutualExclusion(size, ids, ts, t, u);
        }
      }
    } else {
      var t: nat, u: nat :| t < u < |ids| && ids[t] % size == ids[u] % size;
      var ts := BothInside(size, ids, t, u);
    }
  }

  ghost predicate Fifo(size: nat, ids: seq<nat>, ts: seq<nat>)
    requires 0 < size
  {
    (forall i :: 0 <= i < |ts| ==> ts[i] < |ids|) ==>
      && Run(Init(size, ids), ts).Some?
      && var seen := Run(Init(size, ids), ts).value.1;
         FifoLock.Run(FifoLock.START, seen).Some? && FifoLock.InOrder(seen)
  }

  /** Every schedule runs without following a null pointer and behaves like the specification, exactly when every thread
      has cells of its own. */
  lemma RefinesFifoIff(size: nat, ids: seq<nat>)
    requires 0 < size
    ensures OwnCells(ids, size) <==> forall ts :: Fifo(size, ids, ts)
  {
    if OwnCells(ids, size) {
      forall ts
        ensures Fifo(size, ids, ts)
      {
        if forall i :: 0 <= i < |ts| ==> ts[i] < |ids| {
          EveryScheduleRuns(size, ids, ts);
          RefinesFifo(size, ids, ts);
        }
      }
    } else {
      var t: nat, u: nat :| t < u < |ids| && ids[t] % size == ids[u] % size;
      var ts, s := Overtakes(size, ids, t, u);
      ScheduleFits(Init(size, ids), ts);
      FifoLock.NotAllowed(t, u);
      assert !Fifo(size, ids, ts);
    }
  }
}
