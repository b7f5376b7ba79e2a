/** maps/LockHashMap.hpp under any interleaving of any number of threads. One step is one lock or unlock, one read
    of a link, one comparison of keys, or one write; a position in a chain stands for a pointer to its node. */
module LockHashMapRuns {
  import opened Elements
  import opened HashChain
  import opened Buckets
  import opened ChainTable
  import AtomicMap

  datatype Pc = Idle | Lock | ReadHead | Compare | Hit | Advance | Append | Unlock | Finish

  datatype Thread = Thread(pc: Pc, op: Op, at: nat, res: Option<Result>)

  datatype State = State(table: Table, owner: seq<Option<nat>>, threads: seq<Thread>)

  function Init(size: nat, n: nat): State
  {
    State(seq(size, _ => []), seq(size, _ => None), seq(n, _ => Thread(Idle, Remove(Id(0, 0)), 0, None)))
  }

  // ---- The steps ----

  function BucketOf(s: State, th: Thread): nat
    requires 2 <= |s.table|
  {
    Index(th.op.Key(), |s.table|)
  }

  function Goto(s: State, t: nat, th: Thread, pc: Pc): State
    requires t < |s.threads|
  {
    s.(threads := s.threads[t := th.(pc := pc)])
  }

  function Answer(s: State, t: nat, th: Thread, res: Result): State
    requires t < |s.threads|
  {
    Goto(s, t, th.(res := Some(res)), Unlock)
  }

  predicate CanStep(s: State, t: nat)
    requires 2 <= |s.table| == |s.owner| && t < |s.threads|
  {
    var th := s.threads[t];
    match th.pc
    case Idle => false
    case Lock => s.owner[BucketOf(s, th)] == None
    case Compare | Hit | Advance => th.at < |s.table[BucketOf(s, th)]|
    case _ => true
  }

  function Step(s: State, t: nat): State
    requires 2 <= |s.table| == |s.owner| && t < |s.threads| && CanStep(s, t)
  {
    var th := s.threads[t];
    var b := BucketOf(s, th);
    var c := s.table[b];
    match th.pc
    case Lock => Goto(s.(owner := s.owner[b := Some(t)]), t, th, ReadHead)
    case ReadHead => Reached(s, t, th.(at := 0))
    case Compare => Goto(s, t, th, if c[th.at].id == th.op.Key() then Hit else Advance)
    case Advance => Reached(s, t, th.(at := th.at + 1))
    case Hit => OnHit(s, t)
    case Append =>
      if th.op.Put? then Answer(s.(table := s.table[b := c + [th.op.e]]), t, th, Result(true, None)) else s
    case Unlock => Goto(s.(owner := s.owner[b := None]), t, th, Finish)
    case Finish => Goto(s, t, th.(res := None), Idle)
  }

  /** A link was read: is there a node behind it? */
  function Reached(s: State, t: nat, th: Thread): State
    requires 2 <= |s.table| && t < |s.threads|
  {
    if th.at < |s.table[BucketOf(s, th)]| then Goto(s, t, th, Compare)
    else if th.op.Put? then Goto(s, t, th, Append)
    else Answer(s, t, th, Result(false, None))
  }

  function OnHit(s: State, t: nat): State
    requires 2 <= |s.table| && t < |s.threads| && s.threads[t].at < |s.table[BucketOf(s, s.threads[t])]|
  {
    var th := s.threads[t];
    var b := BucketOf(s, th);
    var c := s.table[b];
    match th.op
    case Put(e) =>
      Answer(s.(table := s.table[b := c[th.at := Elem(c[th.at].id, e.payload)]]), t, th, Result(true, None))
    case GetEqual(_) => Answer(s, t, th, Result(true, Some(c[th.at])))
    case _ => Answer(s.(table := s.table[b := c[..th.at] + c[th.at + 1..]]), t, th, Result(true, None))
  }

  datatype Event = Invoke(t: nat, op: Op) | Move(t: nat)

  predicate Enabled(s: State, e: Event)
  {
    && 2 <= |s.table| == |s.owner| && e.t < |s.threads|
    && match e
       case Invoke(t, op) => s.threads[t].pc == Idle && (op.Put? || op.GetEqual? || op.Remove?)
       case Move(t) => CanStep(s, t)
  }

  function Next(s: State, e: Event): State
    requires Enabled(s, e)
  {
    match e
    case Invoke(t, op) => Goto(s, t, Thread(Lock, op, 0, None), Lock)
    case Move(t) => Step(s, t)
  }

  function Visible(s: State, e: Event): seq<Action>
    requires Enabled(s, e)
  {
    match e
    case Invoke(t, op) => [Call(t, op)]
    case Move(t) =>
      if s.threads[t].pc == Finish && s.threads[t].res.Some? then [Reply(t, s.threads[t].res.value)] else []
  }

  function Run(s: State, es: seq<Event>): Option<(State, seq<Action>)>
    decreases |es|
  {
    if es == [] then Some((s, []))
    else if !Enabled(s, es[0]) then None
    else
      match Run(Next(s, es[0]), es[1..])
      case None => None
      case Some((b, seen)) => Some((b, Visible(s, es[0]) + seen))
  }

  // ---- What holds in every state ----

  predicate Inside(th: Thread)
  {
    th.pc !in {Idle, Lock, Finish}
  }

  /** The keys before position `at` were compared and are others. */
  predicate Passed(c: Chain, th: Thread, at: nat)
  {
    at <= |c| && forall i :: 0 <= i < at ==> c[i].id != th.op.Key()
  }

  predicate ThreadOk(c: Chain, th: Thread)
  {
    && (th.op.Put? || th.op.GetEqual? || th.op.Remove?)
    && match th.pc
       case Idle | Lock | ReadHead => th.res.None?
       case Compare => th.res.None? && Passed(c, th, th.at) && th.at < |c|
       case Hit => th.res.None? && Passed(c, th, th.at) && th.at < |c| && c[th.at].id == th.op.Key()
       case Advance => th.res.None? && th.at < |c| && Passed(c, th, th.at + 1)
       case Append => th.res.None? && th.op.Put? && Passed(c, th, |c|)
       case Unlock | Finish => th.res.Some?
  }

  /** The threads behind the lock hold it. */
  ghost predicate ThreadsOk(s: State)
    requires 2 <= |s.table| == |s.owner|
  {
    forall t {:trigger s.threads[t]} :: 0 <= t < |s.threads| ==>
      && ThreadOk(s.table[BucketOf(s, s.threads[t])], s.threads[t])
      && (Inside(s.threads[t]) ==> s.owner[BucketOf(s, s.threads[t])] == Some(t))
  }

  predicate Holds(s: State, t: nat, b: nat)
    requires 2 <= |s.table|
  {
    t < |s.threads| && Inside(s.threads[t]) && BucketOf(s, s.threads[t]) == b
  }

  /** A lock is held by a thread behind it. */
  ghost predicate OwnersOk(s: State)
    requires 2 <= |s.table| == |s.owner|
  {
    forall b {:trigger s.owner[b]} :: 0 <= b < |s.owner| && s.owner[b].Some? ==> Holds(s, s.owner[b].value, b)
  }

  ghost predicate Inv(s: State)
  {
    Sound(s.table) && |s.owner| == |s.table| && ThreadsOk(s) && OwnersOk(s)
  }

  // ---- Every step is a step of the map, or none ----

  ghost function AbstractThread(th: Thread): AtomicMap.Status
  {
    if th.pc == Idle then AtomicMap.Out
    else if th.res.Some? then AtomicMap.Done(th.res.value)
    else AtomicMap.Pending(th.op)
  }

  ghost function Abstract(s: State): AtomicMap.State
  {
    AtomicMap.State(Whole(s.table), seq(|s.threads|, i requires 0 <= i < |s.threads| => AbstractThread(s.threads[i])))
  }

  /** A call takes effect at the write or the read that settles its answer. */
  function AbstractEvent(s: State, e: Event): seq<AtomicMap.Event>
    requires Enabled(s, e)
  {
    match e
    case Invoke(t, op) => [AtomicMap.Invoke(t, op)]
    case Move(t) =>
      if s.threads[t].pc == Finish then [AtomicMap.Return(t)]
      else if s.threads[t].res.None? && Next(s, e).threads[t].res.Some? then [AtomicMap.Commit(t)]
      else []
  }

  ghost function AbstractRun(s: State, es: seq<Event>): seq<AtomicMap.Event>
    requires Run(s, es).Some?
    decreases |es|
  {
    if es == [] then [] else AbstractEvent(s, es[0]) + AbstractRun(Next(s, es[0]), es[1..])
  }

  /** The chains after a step by thread `t`, seen as one map operation when the answer came with it. */
  ghost predicate Effect(s: State, s': State, t: nat)
    requires t < |s.threads| == |s'.threads|
  {
    var th, th' := s.threads[t], s'.threads[t];
    if th.res.None? && th'.res.Some? then
      Apply(Whole(s.table), th.op) == (Whole(s'.table), th'.res.value)
    else s'.table == s.table
  }

  lemma HitEffect(s: State, t: nat)
    requires Inv(s) && t < |s.threads| && s.threads[t].pc == Hit
    ensures Sound(OnHit(s, t).table) && Effect(s, OnHit(s, t), t)
  {
    var th := s.threads[t];
    var b := BucketOf(s, th);
    assert ThreadOk(s.table[b], th);
    FindIs(s.table[b], th.op.Key(), th.at);
    match th.op
    case Put(e) => PutWhole(s.table, e);
    case GetEqual(id) => GetWhole(s.table, id);
    case Remove(id) => DelWhole(s.table, id);
  }

  lemma AppendEffect(s: State, t: nat)
    requires Inv(s) && t < |s.threads| && s.threads[t].pc == Append && CanStep(s, t)
    ensures Sound(Step(s, t).table) && Effect(s, Step(s, t), t)
  {
    var th := s.threads[t];
    var c := s.table[BucketOf(s, th)];
    assert ThreadOk(c, th);
    FindIs(c, th.op.Key(), |c|);
    PutWhole(s.table, th.op.e);
  }

  /** The end of the chain was reached. */
  lemma MissEffect(s: State, t: nat, th: Thread)
    requires Inv(s) && t < |s.threads| && s.threads[t].(at := th.at) == th && th.res.None?
    requires ThreadOk(s.table[BucketOf(s, th)], s.threads[t]) && Passed(s.table[BucketOf(s, th)], th, th.at)
    ensures Effect(s, Reached(s, t, th), t)
  {
    var c := s.table[BucketOf(s, th)];
    if th.at == |c| && !th.op.Put? {
      FindIs(c, th.op.Key(), |c|);
      if th.op.Remove? {
        DelWhole(s.table, th.op.Key());
        assert AfterDel(s.table, th.op.Key()) == s.table;
      } else {
        GetWhole(s.table, th.op.Key());
      }
    }
  }

  lemma StepEffect(s: State, t: nat)
    requires Inv(s) && t < |s.threads| && CanStep(s, t)
    ensures Sound(Step(s, t).table) && Effect(s, Step(s, t), t)
  {
    var th := s.threads[t];
    assert ThreadOk(s.table[BucketOf(s, th)], th);
    match th.pc
    case Hit => HitEffect(s, t);
    case Append => AppendEffect(s, t);
    case ReadHead => MissEffect(s, t, th.(at := 0));
    case Advance => MissEffect(s, t, th.(at := th.at + 1));
    case _ =>
  }

  /** A step changes the chain of its own bucket only, and only while it holds the lock. */
  lemma StepFrame(s: State, t: nat)
    requires Inv(s) && t < |s.threads| && CanStep(s, t)
    ensures var (s', b) := (Step(s, t), BucketOf(s, s.threads[t]));
            && |s'.table| == |s.table| && |s'.owner| == |s.owner| && |s'.threads| == |s.threads|
            && s'.threads == s.threads[t := s'.threads[t]] && s'.threads[t].op == s.threads[t].op
            && s'.table == s.table[b := s'.table[b]] && s'.owner == s.owner[b := s'.owner[b]]
            && (s'.table[b] != s.table[b] ==> Inside(s.threads[t]))
            && (s'.owner[b] != s.owner[b] ==> s.owner[b] == None || Inside(s.threads[t]))
            && (Inside(s'.threads[t]) ==> s'.owner[b] == Some(t))
            && (!Inside(s'.threads[t]) ==> s'.owner[b] == if Inside(s.threads[t]) then None else s.owner[b])
            && ThreadOk(s'.table[b], s'.threads[t])
  {
    var th := s.threads[t];
    assert ThreadOk(s.table[BucketOf(s, th)], th);
  }

  lemma StepOwners(s: State, t: nat)
    requires Inv(s) && t < |s.threads| && CanStep(s, t)
    ensures |Step(s, t).owner| == |Step(s, t).table| == |s.table| && OwnersOk(Step(s, t))
  {
    var s', b := Step(s, t), BucketOf(s, s.threads[t]);
    StepFrame(s, t);
    assert Inside(s.threads[t]) ==> s.owner[b] == Some(t);
    forall c | 0 <= c < |s'.owner| && s'.owner[c].Some?
      ensures Holds(s', s'.owner[c].value, c)
    {
      if c != b {
        assert s'.owner[c] == s.owner[c] && Holds(s, s.owner[c].value, c);
      }
    }
  }

  lemma StepThreads(s: State, t: nat)
    requires Inv(s) && t < |s.threads| && CanStep(s, t)
    ensures |Step(s, t).owner| == |Step(s, t).table| == |s.table| && ThreadsOk(Step(s, t))
  {
    var s', b := Step(s, t), BucketOf(s, s.threads[t]);
    StepFrame(s, t);
    forall u | 0 <= u < |s'.threads|
      ensures ThreadOk(s'.table[BucketOf(s', s'.threads[u])], s'.threads[u])
      ensures Inside(s'.threads[u]) ==> s'.owner[BucketOf(s', s'.threads[u])] == Some(u)
    {
      if u != t {
        assert s'.threads[u] == s.threads[u];
        var c := BucketOf(s, s.threads[u]);
        if c == b && Inside(s.threads[u]) {
          assert s.owner[b] == Some(u) && !Inside(s.threads[t]);
        }
      }
    }
  }

  lemma EventOk(s: State, e: Event)
    requires Inv(s) && Enabled(s, e)
    ensures Inv(Next(s, e)) && |Next(s, e).threads| == |s.threads| && |Next(s, e).table| == |s.table|
  {
    match e
    case Invoke(t, op) =>
    case Move(t) =>
      StepEffect(s, t);
      StepFrame(s, t);
      StepThreads(s, t);
      StepOwners(s, t);
  }

  lemma MoveRefines(s: State, t: nat)
    requires Inv(s) && t < |s.threads| && CanStep(s, t)
    ensures var (a, a', th, th') := (Abstract(s), Abstract(Step(s, t)), s.threads[t], Step(s, t).threads[t]);
            if th.pc == Finish then
              AtomicMap.Enabled(a, AtomicMap.Return(t)) && AtomicMap.Next(a, AtomicMap.Return(t)) == a'
            else if th.res.None? && th'.res.Some? then
              AtomicMap.Enabled(a, AtomicMap.Commit(t)) && AtomicMap.Next(a, AtomicMap.Commit(t)) == a'
            else a' == a
  {
    var a, s' := Abstract(s), Step(s, t);
    assert ThreadOk(s.table[BucketOf(s, s.threads[t])], s.threads[t]);
    StepEffect(s, t);
    StepFrame(s, t);
    assert Abstract(s').threads == a.threads[t := AbstractThread(s'.threads[t])];
    assert a.threads[t] == AbstractThread(s.threads[t]);
  }

  lemma EventRefines(s: State, e: Event)
    requires Inv(s) && Enabled(s, e)
    ensures AtomicMap.Run(Abstract(s), AbstractEvent(s, e)) == Some((Abstract(Next(s, e)), Visible(s, e)))
  {
    var a, a' := Abstract(s), Abstract(Next(s, e));
    match e {
      case Invoke(t, op) =>
        assert a'.threads == a.threads[t := AtomicMap.Pending(op)];
      case Move(t) =>
        assert ThreadOk(s.table[BucketOf(s, s.threads[t])], s.threads[t]);
        MoveRefines(s, t);
    }
    if AbstractEvent(s, e) != [] {
      AtomicMap.RunSingle(a, AbstractEvent(s, e)[0]);
    }
  }

  lemma {:induction false} RunRefines(s: State, es: seq<Event>)
    requires Inv(s) && Run(s, es).Some?
    ensures var (s', seen) := Run(s, es).value;
            && Inv(s') && |s'.table| == |s.table| && |s'.threads| == |s.threads|
            && AtomicMap.Run(Abstract(s), AbstractRun(s, es)) == Some((Abstract(s'), seen))
    decreases |es|
  {
    if es != [] {
      var s1 := Next(s, es[0]);
      EventOk(s, es[0]);
      EventRefines(s, es[0]);
      RunRefines(s1, es[1..]);
      AtomicMap.RunConcat(Abstract(s), AbstractEvent(s, es[0]), AbstractRun(s1, es[1..]));
    }
  }

  // ---- The theorems ----

  /** Every interleaving of put, get and del is linearizable: a plain map whose operations are indivisible
      has a run with the same calls and answers in the same order, ending with the same bindings. */
  lemma Linearizable(size: nat, n: nat, es: seq<Event>)
    requires 2 <= size && Run(Init(size, n), es).Some?
    ensures var (s, seen) := Run(Init(size, n), es).value;
            AtomicMap.Run(AtomicMap.Init(n), AbstractRun(Init(size, n), es)) == Some((Abstract(s), seen))
  {
    var s0 := Init(size, n);
    EmptyWhole(s0.table);
    RunRefines(s0, es);
    assert Abstract(s0) == AtomicMap.Init(n);
  }

  ghost predicate Reachable(s: State, size: nat, n: nat)
  {
    2 <= size && exists es :: Run(Init(size, n), es).Some? && Run(Init(size, n), es).value.0 == s
  }

  lemma ReachableInv(s: State, size: nat, n: nat)
    requires Reachable(s, size, n)
    ensures Inv(s) && |s.table| == size && |s.threads| == n
  {
    var es :| Run(Init(size, n), es).Some? && Run(Init(size, n), es).value.0 == s;
    EmptyWhole(Init(size, n).table);
    RunRefines(Init(size, n), es);
  }

  /** A key is in one node at most, in the bucket of its hash modulo `size - 1`. */
  lemma KeysStayPut(s: State, size: nat, n: nat, b: nat, i: nat, c: nat, j: nat)
    requires Reachable(s, size, n)
    requires b < |s.table| && i < |s.table[b]| && c < |s.table| && j < |s.table[c]|
    ensures b == s.table[b][i].id.hash % (size - 1)
    ensures s.table[b][i].id == s.table[c][j].id ==> b == c && i == j
  {
    ReachableInv(s, size, n);
    if s.table[b][i].id == s.table[c][j].id {
      KeyOnce(s.table, b, i, c, j);
    }
  }

  /** The chains as the sequential put or del leaves them. */
  function Expected(cs: Table, op: Op): Table
    requires 2 <= |cs|
  {
    if op.Put? then AfterPut(cs, op.e) else if op.Remove? then AfterDel(cs, op.id) else cs
  }

  lemma StepTable(s: State, t: nat)
    requires Inv(s) && t < |s.threads| && CanStep(s, t)
    ensures var (s', op) := (Step(s, t), s.threads[t].op);
            s'.table == if s.threads[t].res.None? && s'.threads[t].res.Some? then Expected(s.table, op) else s.table
  {
    var th := s.threads[t];
    var c := s.table[BucketOf(s, th)];
    assert ThreadOk(c, th);
    if th.pc == Hit {
      FindIs(c, th.op.Key(), th.at);
    } else if th.pc in {ReadHead, Advance, Append} {
      var at := if th.pc == ReadHead then 0 else if th.pc == Advance then th.at + 1 else |c|;
      if at == |c| {
        FindIs(c, th.op.Key(), |c|);
      }
    }
  }

  /** Node by node: in every interleaving the step that settles a put or a del leaves all chains, entry for entry and in
      the same order, as the sequential loop would; and no other step changes a chain. */
  lemma ChainsAsSequential(s: State, size: nat, n: nat, t: nat)
    requires Reachable(s, size, n) && Enabled(s, Move(t))
    ensures var (s', op) := (Next(s, Move(t)), s.threads[t].op);
            s'.table == if s.threads[t].res.None? && s'.threads[t].res.Some? then Expected(s.table, op) else s.table
  {
    ReachableInv(s, size, n);
    StepTable(s, t);
  }

  /** What the settled answers mean, in terms of the entries: `get` and `del` answer whether the key is there, `put` is
      always done, and `get` finds the entry that is stored. */
  lemma AnswersAreRight(s: State, size: nat, n: nat, t: nat)
    requires Reachable(s, size, n) && Enabled(s, Move(t))
    requires s.threads[t].res.None? && Next(s, Move(t)).threads[t].res.Some?
    ensures var (op, res) := (s.threads[t].op, Next(s, Move(t)).threads[t].res.value);
            && (res.ok <==> op.Put? || HasKey(s.table, op.Key()))
            && (res.found.Some? <==> op.GetEqual? && res.ok)
            && (res.found.Some? ==> res.found.value.id == op.Key() && Stored(s.table, res.found.value))
  {
    ReachableInv(s, size, n);
    var th := s.threads[t];
    var c := s.table[BucketOf(s, th)];
    assert ThreadOk(c, th);
    KeyInItsBucket(s.table, th.op.Key());
    if th.pc == Hit {
      FindIs(c, th.op.Key(), th.at);
      assert c[th.at] in c;
    } else {
      FindIs(c, th.op.Key(), |c|);
    }
  }

  /** What the steps do to the entries: only the step that settles a put or a del changes any. A put stores its entry in
      the place of any other with its key, a del takes the key's entry away, and all others stay. */
  lemma EffectsAreRight(s: State, size: nat, n: nat, t: nat, x: Elem)
    requires Reachable(s, size, n) && Enabled(s, Move(t))
    ensures var (s', th) := (Next(s, Move(t)), s.threads[t]);
            Stored(s'.table, x) <==>
              if th.res.Some? || s'.threads[t].res.None? then Stored(s.table, x)
              else if th.op.Put? then x == th.op.e || (Stored(s.table, x) && x.id != th.op.e.id)
              else Stored(s.table, x) && !(th.op.Remove? && x.id == th.op.id)
  {
    ReachableInv(s, size, n);
    StepTable(s, t);
    var op := s.threads[t].op;
    if op.Put? {
      PutStores(s.table, op.e, x);
    } else if op.Remove? {
      DelStores(s.table, op.id, x);
    }
  }

  /** One thread at a time works on a chain, and no thread waits while nobody can go on. */
  lemma OneInside(s: State, size: nat, n: nat, t: nat)
    requires Reachable(s, size, n)
    requires t < |s.threads| && s.threads[t].pc != Idle && 2 <= |s.table| == |s.owner|
    ensures Inside(s.threads[t]) ==>
              CanStep(s, t) && forall u :: 0 <= u < |s.threads| && u != t && Inside(s.threads[u]) ==>
                BucketOf(s, s.threads[u]) != BucketOf(s, s.threads[t])
    ensures !CanStep(s, t) ==> s.owner[BucketOf(s, s.threads[t])].Some?
    ensures !CanStep(s, t) ==> var u := s.owner[BucketOf(s, s.threads[t])].value; u < |s.threads| && CanStep(s, u)
  {
    ReachableInv(s, size, n);
    assert ThreadOk(s.table[BucketOf(s, s.threads[t])], s.threads[t]);
  }
}
