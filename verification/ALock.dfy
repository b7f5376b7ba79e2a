/** The array lock (locks/ALock.hpp) with the thread-local slot index it keeps in a ThreadLocal of as many cells as
    there are flags (threadlocal/ThreadLocal.hpp), indexed by the thread's id modulo that number. */
module ALock {
  import opened Elements
  import opened FiniteSets
  import opened Remainders
  import opened Queues
  import opened Sums
  import FifoLock
  import CountingClient

  /** Named after what the thread does next. */
  datatype Pc = Out | SetCell | Spin | ClearFlag | Inside | PassOn

  /** `slot` is the local variable of `lock` and `unlock`. */
  datatype Thread = Thread(pc: Pc, slot: nat)

  /** `tail` wraps around after `range` values (2^64 for usize), `cells` is the array behind `mySlotIndex`, `ids` the ids
      of the threads. The rest is bookkeeping: `queue`, the threads in the order of their tickets, until they have
      passed the lock on, and `taken`, how many tickets were given out. */
  datatype State = State(range: nat, tail: nat, flags: seq<bool>, cells: seq<nat>, ids: seq<nat>, threads: seq<Thread>,
                         queue: seq<nat>, taken: nat)

  function Init(range: nat, size: nat, ids: seq<nat>): State
    requires 0 < size
  {
    State(range, 0, seq(size, i => i == 0), seq(size, _ => 0), ids, seq(|ids|, _ => Thread(Out, 0)), [], 0)
  }

  predicate Sized(s: State)
  {
    0 < s.range && 0 < |s.flags| == |s.cells| && |s.ids| == |s.threads|
  }

  /** The thread-local cell of thread `t`. */
  function Cell(s: State, t: nat): nat
    requires Sized(s) && t < |s.threads|
  {
    s.ids[t] % |s.flags|
  }

  function Goto(s: State, t: nat, th: Thread, pc: Pc): State
    requires t < |s.threads|
  {
    s.(threads := s.threads[t := th.(pc := pc)])
  }

  function Step(s: State, t: nat): State
    requires Sized(s) && t < |s.threads|
  {
    var th := s.threads[t];
    match th.pc
    case Out =>
      Goto(s.(tail := Add1(s.tail, s.range), queue := s.queue + [t], taken := s.taken + 1),
           t, th.(slot := s.tail % |s.flags|), SetCell)
    case SetCell => Goto(s.(cells := s.cells[Cell(s, t) := th.slot]), t, th, Spin)
    case Spin => if th.slot < |s.flags| && s.flags[th.slot] then Goto(s, t, th, ClearFlag) else s
    case ClearFlag =>
      if th.slot < |s.flags| then Goto(s.(flags := s.flags[th.slot := false]), t, th, Inside) else s
    case Inside => Goto(s, t, th.(slot := s.cells[Cell(s, t)]), PassOn)
    case PassOn =>
      Goto(s.(flags := s.flags[(th.slot + 1) % |s.flags| := true], queue := Without(s.queue, t)), t, th, Out)
  }

  /** The doorway is the ticket, entering is clearing the flag, leaving is setting the next one. */
  function Visible(s: State, t: nat): seq<FifoLock.Event>
    requires Sized(s) && t < |s.threads|
  {
    match s.threads[t].pc
    case Out => [FifoLock.Doorway(t)]
    case ClearFlag => [FifoLock.Enter(t)]
    case PassOn => [FifoLock.Exit(t)]
    case _ => []
  }

  function Run(s: State, ts: seq<nat>): Option<(State, seq<FifoLock.Event>)>
    decreases |ts|
  {
    if ts == [] then Some((s, []))
    else if !Sized(s) || ts[0] >= |s.threads| then None
    else
      match Run(Step(s, ts[0]), ts[1..])
      case None => None
      case Some((b, seen)) => Some((b, Visible(s, ts[0]) + seen))
  }

  // ---- The invariant, when the threads have cells of their own ----

  /** The ticket of the `i`th in the queue. */
  function Ticket(s: State, i: nat): int
  {
    s.taken - |s.queue| + i
  }

  predicate HasLock(pc: Pc)
  {
    pc in {Inside, PassOn}
  }

  ghost predicate SlotOk(s: State, i: int)
    requires Sized(s)
  {
    && 0 <= i < |s.queue| && s.queue[i] < |s.threads| && 0 <= Ticket(s, i)
    && var th := s.threads[s.queue[i]];
       && th.slot == Ticket(s, i) % |s.flags|
       && th.pc != Out && (0 < i ==> th.pc in {SetCell, Spin})
       && (th.pc != SetCell ==> s.cells[Cell(s, s.queue[i])] == th.slot)
  }

  /** The one token: the flag of the first ticket, unless its owner has cleared it and is inside. */
  ghost predicate TokenOk(s: State)
    requires Sized(s)
  {
    && 0 <= Ticket(s, 0)
    && forall k :: 0 <= k < |s.flags| ==>
         (s.flags[k] <==> k == Ticket(s, 0) % |s.flags| && !Abstract(s).entered)
  }

  ghost predicate Inv(s: State)
  {
    && Sized(s) && OwnCells(s.ids, |s.flags|) && NoRepeats(s.queue) && |s.queue| <= |s.flags|
    && s.range % |s.flags| == 0 && s.tail == s.taken % s.range
    && (forall i {:trigger SlotOk(s, i)} :: 0 <= i < |s.queue| ==> SlotOk(s, i))
    && (forall t: nat {:trigger t in s.queue} :: t < |s.threads| ==> (t in s.queue <==> s.threads[t].pc != Out))
    && TokenOk(s)
  }

  predicate SameSetup(s: State, s': State)
  {
    |s'.threads| == |s.threads| && s'.ids == s.ids && |s'.flags| == |s.flags| && s'.range == s.range
  }

  function Abstract(s: State): FifoLock.State
  {
    FifoLock.State(s.queue, s.queue != [] && s.queue[0] < |s.threads| && HasLock(s.threads[s.queue[0]].pc))
  }

  function CellsOf(s: State, q: seq<nat>): set<int>
    requires Sized(s) && forall i :: 0 <= i < |q| ==> q[i] < |s.threads|
  {
    set i | 0 <= i < |q| :: Cell(s, q[i])
  }

  lemma {:induction false} CellCount(s: State, q: seq<nat>)
    requires Sized(s) && OwnCells(s.ids, |s.flags|) && NoRepeats(q)
    requires forall i :: 0 <= i < |q| ==> q[i] < |s.threads|
    ensures |CellsOf(s, q)| == |q|
    decreases |q|
  {
    if q == [] {
      assert CellsOf(s, q) == {};
    } else {
      var k := |q| - 1;
      var front := q[..k];
      assert forall i :: 0 <= i < k ==> front[i] == q[i];
      CellCount(s, front);
      assert Cell(s, q[k]) !in CellsOf(s, front);
      assert CellsOf(s, q) == CellsOf(s, front) + {Cell(s, q[k])};
    }
  }

  /** Threads with cells of their own are no more than there are flags. */
  lemma QueueFits(s: State, q: seq<nat>)
    requires Sized(s) && OwnCells(s.ids, |s.flags|) && NoRepeats(q)
    requires forall i :: 0 <= i < |q| ==> q[i] < |s.threads|
    ensures |q| <= |s.flags|
  {
    CellCount(s, q);
    SubsetCount(CellsOf(s, q), Below(|s.flags|));
  }

  lemma JoinOk(s: State, t: nat)
    requires Inv(s) && t < |s.threads| && s.threads[t].pc == Out
    ensures Inv(Step(s, t)) && SameSetup(s, Step(s, t))
  {
    var s' := Step(s, t);
    assert t !in s.queue;
    ModMod(s.taken, s.range, |s.flags|);
    ModAdd1(s.taken, s.range);
    forall i | 0 <= i < |s'.queue|
      ensures SlotOk(s', i)
    {
      if i < |s.queue| {
        assert SlotOk(s, i);
      } else if 0 < |s.queue| {
        assert SlotOk(s, 0);
      }
    }
    assert NoRepeats(s'.queue);
    forall i | 0 <= i < |s'.queue|
      ensures s'.queue[i] < |s.threads|
    {
      assert SlotOk(s', i);
    }
    QueueFits(s', s'.queue);
    assert s'.queue[|s.queue|] == t;
    assert forall u: nat :: u < |s.threads| ==> (u in s'.queue <==> u in s.queue || u == t);
  }

  lemma Find(s: State, t: nat) returns (k: nat)
    requires Inv(s) && t < |s.threads| && s.threads[t].pc != Out
    ensures k < |s.queue| && s.queue[k] == t && SlotOk(s, k)
    ensures k != 0 ==> !s.flags[s.threads[t].slot]
  {
    assert t in s.queue;
    k :| 0 <= k < |s.queue| && s.queue[k] == t;
    assert SlotOk(s, k);
    if k != 0 {
      ModApart(Ticket(s, 0), Ticket(s, k), |s.flags|);
    }
  }

  lemma WithinOk(s: State, t: nat)
    requires Inv(s) && t < |s.threads| && s.threads[t].pc in {SetCell, Spin, ClearFlag, Inside}
    ensures Inv(Step(s, t)) && SameSetup(s, Step(s, t))
    ensures Step(s, t).queue == s.queue
  {
    var s' := Step(s, t);
    var k := Find(s, t);
    forall i | 0 <= i < |s'.queue|
      ensures SlotOk(s', i)
    {
      assert SlotOk(s, i);
      var u := s.queue[i];
      assert u != t ==> Cell(s, u) != Cell(s, t);
    }
  }

  lemma PassOk(s: State, t: nat)
    requires Inv(s) && t < |s.threads| && s.threads[t].pc == PassOn
    ensures s.queue != [] && s.queue[0] == t
    ensures Inv(Step(s, t)) && SameSetup(s, Step(s, t))
    ensures Step(s, t).queue == s.queue[1..]
  {
    var s' := Step(s, t);
    var k := Find(s, t);
    assert s'.queue == s.queue[1..];
    forall i | 0 <= i < |s'.queue|
      ensures SlotOk(s', i)
    {
      assert SlotOk(s, i + 1);
    }
    forall u: nat | u < |s.threads|
      ensures u in s'.queue <==> s'.threads[u].pc != Out
    {
      assert u in s.queue <==> s.threads[u].pc != Out;
      assert u in s.queue <==> u == t || u in s'.queue;
    }
    PassToken(s, t);
  }

  /** The flag set is that of the next ticket, and no other flag is set. */
  lemma PassToken(s: State, t: nat)
    requires Sized(s) && TokenOk(s) && SlotOk(s, 0) && s.queue[0] == t && s.threads[t].pc == PassOn
    requires 1 < |s.queue| ==> SlotOk(s, 1) && s.queue[1] != t
    ensures TokenOk(Step(s, t))
  {
    var s' := Step(s, t);
    var size := |s.flags|;
    ModSucc(Ticket(s, 0), size);
    assert s'.queue == s.queue[1..] && Ticket(s', 0) == Ticket(s, 0) + 1;
    assert s'.flags == s.flags[Ticket(s', 0) % size := true];
    assert !Abstract(s').entered && Abstract(s).entered;
  }

  lemma StepOk(s: State, t: nat)
    requires Inv(s) && t < |s.threads|
    ensures Inv(Step(s, t)) && SameSetup(s, Step(s, t))
    ensures FifoLock.Run(Abstract(s), Visible(s, t)) == Some(Abstract(Step(s, t)))
  {
    if s.threads[t].pc == Out {
      JoinOk(s, t);
      assert t !in s.queue;
    } else {
      var k := Find(s, t);
      if s.threads[t].pc == PassOn {
        PassOk(s, t);
        assert 1 < |s.queue| ==> SlotOk(s, 1);
      } else {
        WithinOk(s, t);
      }
    }
  }

  lemma InitOk(range: nat, size: nat, ids: seq<nat>)
    requires 0 < range && 0 < size && OwnCells(ids, size) && range % size == 0
    ensures Inv(Init(range, size, ids)) && Abstract(Init(range, size, ids)) == FifoLock.START
  {
    ModIs(0, size, 0, 0);
    ModIs(0, range, 0, 0);
  }

  lemma {:induction false} RunOk(s: State, ts: seq<nat>)
    requires Inv(s) && Run(s, ts).Some?
    ensures Inv(Run(s, ts).value.0) && |Run(s, ts).value.0.threads| == |s.threads|
    ensures FifoLock.Run(Abstract(s), Run(s, ts).value.1) == Some(Abstract(Run(s, ts).value.0))
    decreases |ts|
  {
    if ts != [] {
      var s1 := Step(s, ts[0]);
      StepOk(s, ts[0]);
      RunOk(s1, ts[1..]);
      FifoLock.RunConcat(Abstract(s), Visible(s, ts[0]), Run(s1, ts[1..]).value.1);
    }
  }

  // ---- Two threads that share a cell ----

  lemma {:induction false} RunLast(s: State, ts: seq<nat>, t: nat)
    requires Run(s, ts).Some?
    requires var b := Run(s, ts).value.0; Sized(b) && t < |b.threads|
    ensures Run(s, ts + [t]) ==
              Some((Step(Run(s, ts).value.0, t), Run(s, ts).value.1 + Visible(Run(s, ts).value.0, t)))
    decreases |ts|
  {
    if ts == [] {
      assert [] + [t] == [t] && [t][1..] == [];
      assert Visible(s, t) + [] == Visible(s, t) && [] + Visible(s, t) == Visible(s, t);
    } else {
      assert (ts + [t])[1..] == ts[1..] + [t];
      RunLast(Step(s, ts[0]), ts[1..], t);
      var b, seen := Run(s, ts).value.0, Run(Step(s, ts[0]), ts[1..]).value.1;
      assert Visible(s, ts[0]) + (seen + Visible(b, t)) == (Visible(s, ts[0]) + seen) + Visible(b, t);
    }
  }

  /** The schedule `ts` leads from the start to `s` with `seen` in view. */
  ghost predicate Leads(range: nat, size: nat, ids: seq<nat>, ts: seq<nat>, s: State, seen: seq<FifoLock.Event>)
    requires 0 < size
  {
    Run(Init(range, size, ids), ts) == Some((s, seen))
  }

  /** Thread `t` takes a ticket and writes its slot into its cell. */
  lemma TakeTicket(range: nat, size: nat, ids: seq<nat>, ts: seq<nat>, s: State, seen: seq<FifoLock.Event>, t: nat)
    returns (ts': seq<nat>, s': State)
    requires 0 < size && Leads(range, size, ids, ts, s, seen) && Sized(s) && t < |s.threads| && s.threads[t].pc == Out
    ensures Leads(range, size, ids, ts', s', seen + [FifoLock.Doorway(t)])
    ensures s' == State(s.range, Add1(s.tail, s.range), s.flags, s.cells[Cell(s, t) := s.tail % |s.flags|], s.ids,
                        s.threads[t := Thread(Spin, s.tail % |s.flags|)], s.queue + [t], s.taken + 1)
  {
    RunLast(Init(range, size, ids), ts, t);
    var s1 := Step(s, t);
    RunLast(Init(range, size, ids), ts + [t], t);
    ts', s' := ts + [t] + [t], Step(s1, t);
    assert seen + [FifoLock.Doorway(t)] + [] == seen + [FifoLock.Doorway(t)];
  }

  /** Thread `t` finds its flag set and enters. */
  lemma GoIn(range: nat, size: nat, ids: seq<nat>, ts: seq<nat>, s: State, seen: seq<FifoLock.Event>, t: nat)
    returns (ts': seq<nat>, s': State)
    requires 0 < size && Leads(range, size, ids, ts, s, seen) && Sized(s) && t < |s.threads| && s.threads[t].pc == Spin
    requires s.threads[t].slot < |s.flags| && s.flags[s.threads[t].slot]
    ensures Leads(range, size, ids, ts', s', seen + [FifoLock.Enter(t)])
    ensures s' == s.(flags := s.flags[s.threads[t].slot := false], threads := s.threads[t := s.threads[t].(pc := Inside)])
  {
    RunLast(Init(range, size, ids), ts, t);
    var s1 := Step(s, t);
    assert seen + [] == seen;
    RunLast(Init(range, size, ids), ts + [t], t);
    ts', s' := ts + [t] + [t], Step(s1, t);
  }

  /** Thread `t` reads its cell and passes the lock on. */
  lemma GoOut(range: nat, size: nat, ids: seq<nat>, ts: seq<nat>, s: State, seen: seq<FifoLock.Event>, t: nat)
    returns (ts': seq<nat>, s': State)
    requires 0 < size && Leads(range, size, ids, ts, s, seen) && Sized(s) && t < |s.threads| && s.threads[t].pc == Inside
    ensures Leads(range, size, ids, ts', s', seen + [FifoLock.Exit(t)])
    ensures s' == s.(flags := s.flags[(s.cells[Cell(s, t)] + 1) % |s.flags| := true],
                     threads := s.threads[t := Thread(Out, s.cells[Cell(s, t)])], queue := Without(s.queue, t))
  {
    RunLast(Init(range, size, ids), ts, t);
    var s1 := Step(s, t);
    assert seen + [] == seen;
    RunLast(Init(range, size, ids), ts + [t], t);
    ts', s' := ts + [t] + [t], Step(s1, t);
  }

  /** `tail` after `k` tickets, and the slot it yields. */
  lemma TailAt(range: nat, size: nat, k: nat)
    requires 0 < range && 0 < size && range % size == 0
    ensures Add1(k % range, range) == (k + 1) % range && (k % range) % size == k % size
  {
    ModAdd1(k, range);
    ModMod(k, range, size);
  }

  /** `u` takes its ticket while `t` is inside and overwrites their common cell. */
  lemma CellOverwritten(range: nat, size: nat, ids: seq<nat>, t: nat, u: nat) returns (ts: seq<nat>, s: State)
    requires 0 < range && 0 < size && range % size == 0
    requires t < |ids| && u < |ids| && t != u && ids[t] % size == ids[u] % size
    ensures Leads(range, size, ids, ts, s, [FifoLock.Doorway(t), FifoLock.Enter(t), FifoLock.Doorway(u)])
    ensures Sized(s) && |s.threads| == |ids| && |s.flags| == size && s.range == range && s.tail == 2 % range
    ensures s.threads[t].pc == Inside && s.cells[Cell(s, t)] == 1 % size && s.threads[u] == Thread(Spin, 1 % size)
  {
    s := Init(range, size, ids);
    ModIs(0, size, 0, 0);
    ModIs(0, range, 0, 0);
    TailAt(range, size, 0);
    TailAt(range, size, 1);
    var seen := [FifoLock.Doorway(t)];
    assert [] + seen == seen;
    ts, s := TakeTicket(range, size, ids, [], s, [], t);
    ts, s := GoIn(range, size, ids, ts, s, seen, t);
    seen := seen + [FifoLock.Enter(t)];
    ts, s := TakeTicket(range, size, ids, ts, s, seen, u);
    assert seen + [FifoLock.Doorway(u)] == [FifoLock.Doorway(t), FifoLock.Enter(t), FifoLock.Doorway(u)];
  }

  /** `t` then sets the flag behind the one `u` waits for, comes back and overtakes it. */
  lemma Overtakes(range: nat, size: nat, ids: seq<nat>, t: nat, u: nat) returns (ts: seq<nat>)
    requires 0 < range && 0 < size && range % size == 0
    requires t < |ids| && u < |ids| && t != u && ids[t] % size == ids[u] % size
    ensures Run(Init(range, size, ids), ts).Some?
    ensures Run(Init(range, size, ids), ts).value.1 == FifoLock.Overtaking(t, u)
  {
    var s;
    ts, s := CellOverwritten(range, size, ids, t, u);
    var seen := [FifoLock.Doorway(t), FifoLock.Enter(t), FifoLock.Doorway(u)];
    TailAt(range, size, 2);
    ModSucc(1, size);
    ts, s := GoOut(range, size, ids, ts, s, seen, t);
    seen := seen + [FifoLock.Exit(t)];
    ts, s := TakeTicket(range, size, ids, ts, s, seen, t);
    seen := seen + [FifoLock.Doorway(t)];
    ts, s := GoIn(range, size, ids, ts, s, seen, t);
    assert seen + [FifoLock.Enter(t)] == FifoLock.Overtaking(t, u);
  }

  /** `t` is outside, its next ticket is the `k`th and its flag is set; `u` still waits for slot 1. */
  ghost predicate Round(range: nat, size: nat, ids: seq<nat>, t: nat, u: nat, k: nat, s: State)
    requires 0 < range && 0 < size
  {
    && Sized(s) && s.range == range && |s.flags| == size && |s.threads| == |ids| && t < |ids| && u < |ids| && t != u
    && s.threads[t].pc == Out && s.threads[u] == Thread(Spin, 1 % size)
    && s.tail == k % range && s.flags[k % size]
  }

  /** `t` comes and goes, time and again, past the waiting `u`. */
  lemma {:induction false} GoesRound(range: nat, size: nat, ids: seq<nat>, t: nat, u: nat, k: nat)
    returns (ts: seq<nat>, s: State, seen: seq<FifoLock.Event>)
    requires 0 < range && 0 < size && range % size == 0 && 2 <= k
    requires t < |ids| && u < |ids| && t != u && ids[t] % size == ids[u] % size
    ensures Leads(range, size, ids, ts, s, seen) && Round(range, size, ids, t, u, k, s)
    decreases k
  {
    ModSucc(k - 1, size);
    if k == 2 {
      ts, s := CellOverwritten(range, size, ids, t, u);
      seen := [FifoLock.Doorway(t), FifoLock.Enter(t), FifoLock.Doorway(u)];
    } else {
      ts, s, seen := GoesRound(range, size, ids, t, u, k - 1);
      TailAt(range, size, k - 1);
      ts, s := TakeTicket(range, size, ids, ts, s, seen, t);
      seen := seen + [FifoLock.Doorway(t)];
      ts, s := GoIn(range, size, ids, ts, s, seen, t);
      seen := seen + [FifoLock.Enter(t)];
    }
    ts, s := GoOut(range, size, ids, ts, s, seen, t);
    seen := seen + [FifoLock.Exit(t)];
  }

  /** Both wait for the same flag and see it set before either clears it. */
  lemma BothEnter(range: nat, size: nat, ids: seq<nat>, ts: seq<nat>, s: State, seen: seq<FifoLock.Event>, t: nat, u: nat)
    returns (ts': seq<nat>, s': State)
    requires 0 < size && Leads(range, size, ids, ts, s, seen) && Sized(s) && t < |s.threads| && u < |s.threads| && t != u
    requires s.threads[t].pc == Spin && s.threads[u].pc == Spin && s.threads[t].slot == s.threads[u].slot < |s.flags|
    requires s.flags[s.threads[t].slot]
    ensures Run(Init(range, size, ids), ts').Some? && Run(Init(range, size, ids), ts').value.0 == s'
    ensures |s'.threads| == |s.threads| && s'.threads[t].pc == Inside && s'.threads[u].pc == Inside
  {
    RunLast(Init(range, size, ids), ts, t);
    var s1 := Step(s, t);
    RunLast(Init(range, size, ids), ts + [t], u);
    var s2 := Step(s1, u);
    RunLast(Init(range, size, ids), ts + [t] + [u], t);
    var s3 := Step(s2, t);
    RunLast(Init(range, size, ids), ts + [t] + [u] + [t], u);
    ts', s' := ts + [t] + [u] + [t] + [u], Step(s3, u);
  }

  predicate OneInside(s: State)
  {
    forall t, u :: 0 <= t < u < |s.threads| ==> !(s.threads[t].pc == Inside && s.threads[u].pc == Inside)
  }

  /** When `t` has come round to the slot that `u` waits for, both get in. */
  lemma BothInside(range: nat, size: nat, ids: seq<nat>, t: nat, u: nat) returns (ts: seq<nat>)
    requires 0 < range && 0 < size && range % size == 0
    requires t < u < |ids| && ids[t] % size == ids[u] % size
    ensures Run(Init(range, size, ids), ts).Some? && !OneInside(Run(Init(range, size, ids), ts).value.0)
  {
    var s, seen;
    ts, s, seen := GoesRound(range, size, ids, t, u, size + 1);
    TailAt(range, size, size + 1);
    var q, r := 1 / size, 1 % size;
    assert (q + 1) * size == q * size + size;
    ModIs(size + 1, size, q + 1, r);
    ts, s := TakeTicket(range, size, ids, ts, s, seen, t);
    ts, s := BothEnter(range, size, ids, ts, s, seen + [FifoLock.Doorway(t)], t, u);
    assert s.threads[t].pc == Inside && s.threads[u].pc == Inside;
  }

  // ---- A counter that wraps around in the middle of the array ----

  /** One thread, alone, `k` times in and out: the token is at slot `k`. */
  lemma {:induction false} AloneRounds(range: nat, size: nat, ids: seq<nat>, k: nat)
    returns (ts: seq<nat>, s: State, seen: seq<FifoLock.Event>)
    requires 0 < range && 0 < size && ids != [] && k <= range
    ensures Leads(range, size, ids, ts, s, seen)
    ensures Sized(s) && s.range == range && |s.flags| == size && |s.threads| == |ids| && s.queue == [] && s.threads[0].pc == Out
    ensures s.tail == (if k < range then k else 0) && forall j :: 0 <= j < size ==> (s.flags[j] <==> j == k % size)
    decreases k
  {
    if k == 0 {
      ModIs(0, size, 0, 0);
      ts, s, seen := [], Init(range, size, ids), [];
    } else {
      ts, s, seen := AloneRounds(range, size, ids, k - 1);
      ModSucc(k - 1, size);
      ts, s := TakeTicket(range, size, ids, ts, s, seen, 0);
      seen := seen + [FifoLock.Doorway(0)];
      ts, s := GoIn(range, size, ids, ts, s, seen, 0);
      seen := seen + [FifoLock.Enter(0)];
      ts, s := GoOut(range, size, ids, ts, s, seen, 0);
      seen := seen + [FifoLock.Exit(0)];
    }
  }

  /** After `range` rounds the token is not at slot 0, but the next ticket is for slot 0: the only thread is stuck. */
  lemma StuckAfterWrap(range: nat, size: nat, ids: seq<nat>) returns (ts: seq<nat>)
    requires 0 < range && 0 < size && ids != [] && range % size != 0
    ensures Run(Init(range, size, ids), ts).Some? && !FirstMoves(Run(Init(range, size, ids), ts).value.0)
  {
    var s, seen;
    ts, s, seen := AloneRounds(range, size, ids, range);
    ModIs(0, size, 0, 0);
    ts, s := TakeTicket(range, size, ids, ts, s, seen, 0);
    assert s.queue == [0] && Step(s, 0) == s;
  }

  // ---- The theorems ----

  /** The first in the queue has a step that is not spinning. */
  predicate FirstMoves(s: State)
  {
    s.queue != [] ==>
      && Sized(s) && s.queue[0] < |s.threads|
      && Step(s, s.queue[0]).threads[s.queue[0]].pc != s.threads[s.queue[0]].pc
  }

  ghost predicate Fifo(range: nat, size: nat, ids: seq<nat>, ts: seq<nat>)
    requires 0 < size
  {
    Run(Init(range, size, ids), ts).Some? ==>
      var seen := Run(Init(range, size, ids), ts).value.1;
      FifoLock.Run(FifoLock.START, seen).Some? && FifoLock.InOrder(seen)
  }

  ghost predicate Live(range: nat, size: nat, ids: seq<nat>, ts: seq<nat>)
    requires 0 < size
  {
    Run(Init(range, size, ids), ts).Some? ==> FirstMoves(Run(Init(range, size, ids), ts).value.0)
  }

  /** First come, first served, and never stuck, with cells of their own and a size that divides the counter's range. */
  lemma Serves(range: nat, size: nat, ids: seq<nat>, ts: seq<nat>)
    requires 0 < range && 0 < size && OwnCells(ids, size) && range % size == 0
    ensures Fifo(range, size, ids, ts) && Live(range, size, ids, ts)
  {
    if Run(Init(range, size, ids), ts).Some? {
      InitOk(range, size, ids);
      RunOk(Init(range, size, ids), ts);
      FifoLock.FirstComeFirstServed(Run(Init(range, size, ids), ts).value.1);
      var s := Run(Init(range, size, ids), ts).value.0;
      if s.queue != [] {
        assert SlotOk(s, 0);
      }
    }
  }

  /** With a size that divides the range of the counter, the array lock behaves like the specification, in every run,
      exactly when the ids of the threads differ modulo its size. In particular there are then no more of them than
      flags. */
  lemma RefinesFifoIff(range: nat, size: nat, ids: seq<nat>)
    requires 0 < range && 0 < size && range % size == 0
    ensures OwnCells(ids, size) <==> forall ts :: Fifo(range, size, ids, ts)
  {
    if OwnCells(ids, size) {
      forall ts
        ensures Fifo(range, size, ids, ts)
      {
        Serves(range, size, ids, ts);
      }
    } else {
      var t: nat, u: nat :| t < u < |ids| && ids[t] % size == ids[u] % size;
      var ts := Overtakes(range, size, ids, t, u);
      FifoLock.NotAllowed(t, u);
      assert !Fifo(range, size, ids, ts);
    }
  }

  /** With a size that divides the range, mutual exclusion holds in every run exactly when the ids differ modulo it. */
  lemma MutualExclusionIff(range: nat, size: nat, ids: seq<nat>)
    requires 0 < range && 0 < size && range % size == 0
    ensures OwnCells(ids, size) <==>
              forall ts :: Run(Init(range, size, ids), ts).Some? ==> OneInside(Run(Init(range, size, ids), ts).value.0)
  {
    if OwnCells(ids, size) {
      forall ts | Run(Init(range, size, ids), ts).Some?
        ensures OneInside(Run(Init(range, size, ids), ts).value.0)
      {
        InitOk(range, size, ids);
        RunOk(Init(range, size, ids), ts);
        var s := Run(Init(range, size, ids), ts).value.0;
        forall t, u | 0 <= t < u < |s.threads|
          ensures !(s.threads[t].pc == Inside && s.threads[u].pc == Inside)
        {
          OneToken(range, size, ids, ts, t, u);
        }
      }
    } else {
      var t: nat, u: nat :| t < u < |ids| && ids[t] % size == ids[u] % size;
      var ts := BothInside(range, size, ids, t, u);
    }
  }

  /** For any size and any range: the lock serves all its threads in order, and the first in the queue can always go
      on, in every run, exactly when the ids differ modulo the size and the size divides the range. */
  lemma ServesIff(range: nat, size: nat, ids: seq<nat>)
    requires 0 < range && 0 < size && ids != []
    ensures OwnCells(ids, size) && range % size == 0
            <==> forall ts :: Fifo(range, size, ids, ts) && Live(range, size, ids, ts)
  {
    if range % size != 0 {
      var ts := StuckAfterWrap(range, size, ids);
      assert !Live(range, size, ids, ts);
    } else {
      RefinesFifoIff(range, size, ids);
      if OwnCells(ids, size) {
        forall ts
          ensures Fifo(range, size, ids, ts) && Live(range, size, ids, ts)
        {
          Serves(range, size, ids, ts);
        }
      }
    }
  }

  // ---- Every call ends ----

  /** How many steps the rest of a call takes, waiting apart. */
  function ToGo(pc: Pc): nat
  {
    match pc
    case Out => 0
    case PassOn => 1
    case Inside => 2
    case ClearFlag => 3
    case Spin => 4
    case SetCell => 5
  }

  function AllToGo(s: State): seq<nat>
  {
    seq(|s.threads|, t requires 0 <= t < |s.threads| => ToGo(s.threads[t].pc))
  }

  /** The thread waits, and the flag of its slot is not set. */
  predicate Spins(s: State, t: nat)
    requires Sized(s) && t < |s.threads|
  {
    s.threads[t].pc == Spin && !(s.threads[t].slot < |s.flags| && s.flags[s.threads[t].slot])
  }

  /** A schedule in which no call starts and no thread spins. */
  predicate Works(s: State, us: seq<nat>)
    decreases |us|
  {
    us == [] ||
    (Sized(s) && us[0] < |s.threads| && s.threads[us[0]].pc != Out && !Spins(s, us[0]) && Works(Step(s, us[0]), us[1..]))
  }

  /** Nobody has a step left in its call but spinning. */
  predicate AtRest(s: State)
    requires Sized(s)
  {
    forall t: nat :: t < |s.threads| ==> s.threads[t].pc == Out || Spins(s, t)
  }

  lemma StepCounts(s: State, t: nat)
    requires Inv(s) && t < |s.threads| && s.threads[t].pc != Out
    ensures if Spins(s, t) then Step(s, t) == s else ToGo(Step(s, t).threads[t].pc) < ToGo(s.threads[t].pc)
    ensures |Step(s, t).threads| == |s.threads|
    ensures forall u: nat :: u < |s.threads| && u != t ==> Step(s, t).threads[u] == s.threads[u]
  {
    var k := Find(s, t);
  }

  lemma SomebodyCan(s: State, t: nat) returns (u: nat)
    requires Inv(s) && t < |s.threads| && s.threads[t].pc != Out
    ensures u < |s.threads| && s.queue != [] && u == s.queue[0] && s.threads[u].pc != Out && !Spins(s, u)
  {
    var k := Find(s, t);
    assert SlotOk(s, 0);
    u := s.queue[0];
  }

  lemma {:induction false} WorkBounded(s: State, us: seq<nat>)
    requires Inv(s) && Works(s, us)
    ensures Run(s, us).Some? && Inv(Run(s, us).value.0) && |Run(s, us).value.0.threads| == |s.threads|
    ensures |us| + Sum(AllToGo(Run(s, us).value.0)) <= Sum(AllToGo(s))
    decreases |us|
  {
    if us != [] {
      var s1 := Step(s, us[0]);
      StepOk(s, us[0]);
      StepCounts(s, us[0]);
      SumChange(AllToGo(s), AllToGo(s1), us[0]);
      WorkBounded(s1, us[1..]);
    }
  }

  /** Nobody waits for ever: a schedule that starts no call and lets nobody spin is finite, and when it cannot be
      continued every thread has left its call. */
  lemma CallsEnd(range: nat, size: nat, ids: seq<nat>, ts: seq<nat>, us: seq<nat>)
    requires 0 < range && 0 < size && OwnCells(ids, size) && range % size == 0
    requires Run(Init(range, size, ids), ts).Some?
    requires Works(Run(Init(range, size, ids), ts).value.0, us)
    ensures var s := Run(Init(range, size, ids), ts).value.0;
            && |us| <= |ids| * 5 && Run(s, us).Some?
            && var s' := Run(s, us).value.0;
               && |s'.threads| == |ids| && Sized(s')
               && (AtRest(s') ==> forall t :: 0 <= t < |ids| ==> s'.threads[t].pc == Out)
  {
    InitOk(range, size, ids);
    RunOk(Init(range, size, ids), ts);
    var s := Run(Init(range, size, ids), ts).value.0;
    WorkBounded(s, us);
    SumBound(AllToGo(s), 5);
    var s' := Run(s, us).value.0;
    if t: nat :| t < |ids| && s'.threads[t].pc != Out {
      var u := SomebodyCan(s', t);
    }
  }

  /** In any run, a step within a call is spinning, which changes nothing, or brings the call nearer to its end. */
  lemma EveryStepCounts(range: nat, size: nat, ids: seq<nat>, ts: seq<nat>, t: nat)
    requires 0 < range && 0 < size && OwnCells(ids, size) && range % size == 0
    requires Run(Init(range, size, ids), ts).Some?
    requires t < |ids|
    ensures var s := Run(Init(range, size, ids), ts).value.0;
            && Sized(s) && |s.threads| == |ids|
            && (s.threads[t].pc != Out ==>
                  if Spins(s, t) then Step(s, t) == s else ToGo(Step(s, t).threads[t].pc) < ToGo(s.threads[t].pc))
  {
    InitOk(range, size, ids);
    RunOk(Init(range, size, ids), ts);
    var s := Run(Init(range, size, ids), ts).value.0;
    if s.threads[t].pc != Out {
      StepCounts(s, t);
    }
  }

  /** While anybody is in the queue, its first thread has a step that is not spinning. */
  lemma SomebodyMoves(range: nat, size: nat, ids: seq<nat>, ts: seq<nat>, t: nat)
    requires 0 < range && 0 < size && OwnCells(ids, size) && range % size == 0
    requires Run(Init(range, size, ids), ts).Some? && t < |ids|
    ensures var s := Run(Init(range, size, ids), ts).value.0;
            |s.threads| == |ids| && FirstMoves(s) && (s.threads[t].pc != Out ==> s.queue != [])
  {
    InitOk(range, size, ids);
    RunOk(Init(range, size, ids), ts);
    Serves(range, size, ids, ts);
    var s := Run(Init(range, size, ids), ts).value.0;
    if s.threads[t].pc != Out {
      var k := Find(s, t);
    }
  }

  /** One thread at a time, the token is never lost or doubled, and the slots of the threads in the queue are pairwise
      different. */
  lemma OneToken(range: nat, size: nat, ids: seq<nat>, ts: seq<nat>, t: nat, u: nat)
    requires 0 < range && 0 < size && OwnCells(ids, size) && range % size == 0
    requires Run(Init(range, size, ids), ts).Some? && t < |ids| && u < |ids|
    ensures var s := Run(Init(range, size, ids), ts).value.0;
            && |s.threads| == |ids| && 0 < |s.flags|
            && (t != u ==> !(HasLock(s.threads[t].pc) && HasLock(s.threads[u].pc)))
            && (HasLock(s.threads[t].pc) ==> forall k :: 0 <= k < |s.flags| ==> !s.flags[k])
            && ((forall v :: 0 <= v < |s.threads| ==> !HasLock(s.threads[v].pc)) ==>
                  exists k :: 0 <= k < |s.flags| && s.flags[k] && forall j :: 0 <= j < |s.flags| && s.flags[j] ==> j == k)
            && (t != u && s.threads[t].pc !in {Out, PassOn} && s.threads[u].pc !in {Out, PassOn} ==>
                  s.threads[t].slot != s.threads[u].slot)
  {
    InitOk(range, size, ids);
    RunOk(Init(range, size, ids), ts);
    var s := Run(Init(range, size, ids), ts).value.0;
    if s.threads[t].pc != Out {
      var i := Find(s, t);
      if t != u && s.threads[u].pc != Out {
        var j := Find(s, u);
        if i < j {
          ModApart(Ticket(s, i), Ticket(s, j), |s.flags|);
        } else {
          ModApart(Ticket(s, j), Ticket(s, i), |s.flags|);
        }
      }
    }
    var k := Ticket(s, 0) % |s.flags|;
    if forall v :: 0 <= v < |s.threads| ==> !HasLock(s.threads[v].pc) {
      assert !Abstract(s).entered;
      assert s.flags[k];
    }
  }

  /** The test program: no increment made under the lock is lost. */
  lemma CountsUp(range: nat, size: nat, ids: seq<nat>, k: nat, ts: seq<nat>, xs: seq<CountingClient.Action>)
    requires 0 < range && 0 < size && OwnCells(ids, size) && range % size == 0
    requires Run(Init(range, size, ids), ts).Some? && CountingClient.LockPart(xs) == Run(Init(range, size, ids), ts).value.1
    requires CountingClient.DoAll(CountingClient.Fresh(|ids|), xs).Some?
    requires forall t: nat :: t < |ids| ==> CountingClient.StoresBy(t, xs) == k
    ensures CountingClient.DoAll(CountingClient.Fresh(|ids|), xs).value.counter == |ids| * k
  {
    Serves(range, size, ids, ts);
    CountingClient.CountsUp(|ids|, k, xs);
  }
}
