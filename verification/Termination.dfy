/** The list sets cannot run for ever: when no more calls are started, every schedule comes to an end, and then every
    call has returned. No thread makes another one search again without having changed the list itself. */
module Termination {
  import opened Elements
  import opened FiniteSets
  import opened Sums
  import opened ListHeap
  import opened ListSets
  import opened ListSetInvariant
  import opened ListSetSteps
  import opened ListSetTheorems
  import opened ListSetSafety
  import opened Undisturbed
  import opened Progress
  import ReWalkNull

  // ---- How far a call is from its end ----

  /** How often the call may still change the list. */
  function ChangesLeft(th: Thread): nat
  {
    match th.pc
    case Idle | Crashed | Finish => 0
    case UnlinkRead | UnlinkWrite => 1
    case _ => if th.res.Some? then 0 else if th.op.Remove? then 2 else if th.op.Add? then 1 else 0
  }

  /** How many steps the call may still take while the list, of no more than `size` nodes, does not change. */
  ghost function Way(s: State, t: nat, size: nat): nat
    requires t < |s.threads|
  {
    var th := s.threads[t];
    if th.pc in {Idle, Crashed} then 0
    else 1 + Weight((if s in UpToDate(t) then 0 else 41) + Rank(th.pc), |Ahead2(s, th)|, Within(th.pc), size)
  }

  function Weight(a: nat, b: nat, c: nat, size: nat): nat
  {
    (a * (size + 1) + b) * 6 + c
  }

  const STEPS: nat := 492

  lemma WeightFalls(a: nat, b: nat, c: nat, a': nat, b': nat, c': nat, size: nat)
    requires b <= size && b' <= size && c <= 5 && c' <= 5
    requires a' < a || (a' == a && (b' < b || (b' == b && c' < c)))
    ensures Weight(a', b', c', size) < Weight(a, b, c, size)
  {
    if a' < a {
      assert (a' + 1) * (size + 1) <= a * (size + 1);
    }
  }

  lemma WeightBound(a: nat, b: nat, c: nat, size: nat)
    requires a <= 81 && b <= size && c <= 5
    ensures 1 + Weight(a, b, c, size) <= STEPS * (size + 1)
  {
    assert a * (size + 1) <= 81 * (size + 1);
  }

  lemma AheadBound(s: State, th: Thread, size: nat)
    requires |s.heap| <= size
    ensures |Ahead2(s, th)| <= size
  {
    assert Ahead2(s, th) <= Below(|s.heap|);
    SubsetCount(Ahead2(s, th), Below(|s.heap|));
  }

  lemma WayBound(s: State, t: nat, size: nat)
    requires t < |s.threads| && |s.heap| <= size
    ensures Way(s, t, size) <= STEPS * (size + 1)
  {
    var th := s.threads[t];
    if th.pc !in {Idle, Crashed} {
      AheadBound(s, th, size);
      WeightBound((if s in UpToDate(t) then 0 else 41) + Rank(th.pc), |Ahead2(s, th)|, Within(th.pc), size);
    }
  }

  lemma CloserWay(s: State, s': State, t: nat, size: nat)
    requires t < |s.threads| && t < |s'.threads| && |s.heap| <= size && |s'.heap| <= size
    requires s.threads[t].pc !in {Idle, Crashed} && Nearer(s, s', t)
    ensures Way(s', t, size) < Way(s, t, size)
  {
    var th, th' := s.threads[t], s'.threads[t];
    AheadBound(s, th, size);
    AheadBound(s', th', size);
    if Ahead2(s', th') < Ahead2(s, th) {
      SubsetCount(Ahead2(s', th'), Ahead2(s, th));
    }
    if th'.pc !in {Idle, Crashed} {
      WeightFalls((if s in UpToDate(t) then 0 else 41) + Rank(th.pc), |Ahead2(s, th)|, Within(th.pc),
                  (if s' in UpToDate(t) then 0 else 41) + Rank(th'.pc), |Ahead2(s', th')|, Within(th'.pc), size);
    }
  }

  /** A step of the call that is not a crash. */
  ghost predicate Goes(s: State, t: nat)
  {
    Inv(s) && t < |s.threads| && CanStep(s, t) && PointersFine(s, s.threads[t])
  }

  lemma WayFalls(s: State, t: nat, size: nat)
    requires Goes(s, t) && |Step(s, t).heap| <= size && |s.heap| <= size
    ensures |Step(s, t).threads| == |s.threads| && Way(Step(s, t), t, size) < Way(s, t, size)
  {
    if s.threads[t].pc == Finish {
      MoveOk(s, t);
      FinishEnds(s, t);
    } else {
      NearerStep(s, t);
      CloserWay(s, Step(s, t), t, size);
    }
  }

  // ---- All calls together ----

  function AllChanges(s: State): seq<nat>
  {
    seq(|s.threads|, t requires 0 <= t < |s.threads| => ChangesLeft(s.threads[t]))
  }

  ghost function AllWays(s: State, size: nat): seq<nat>
  {
    seq(|s.threads|, t requires 0 <= t < |s.threads| => Way(s, t, size))
  }

  /** More than all ways together. */
  function Share(n: nat, size: nat): nat
  {
    n * (STEPS * (size + 1)) + 1
  }

  /** A change of the list may send every other call back to its start. */
  ghost function Total(s: State, size: nat): nat
  {
    Sum(AllChanges(s)) * Share(|s.threads|, size) + Sum(AllWays(s, size))
  }

  lemma SameWay(s: State, s': State, t: nat, u: nat, size: nat)
    requires OnlyMoves(s, s', t) && u < |s.threads| && u != t && s'.heap == s.heap
    ensures Way(s', u, size) == Way(s, u, size)
  {
    assert s'.threads[u] == s.threads[u];
  }

  /** A step uses up one change if it changes the list, and adds one node at most. */
  ghost predicate Spends(s: State, s': State, t: nat)
    requires t < |s.threads|
  {
    && t < |s'.threads|
    && var (a, b) := (ChangesLeft(s.threads[t]), ChangesLeft(s'.threads[t]));
       b <= a && (s'.heap != s.heap ==> b < a && |s'.heap| + b <= |s.heap| + a)
  }

  lemma FindSpends(s: State, t: nat)
    requires Goes(s, t)
    requires s.threads[t].pc in {Start, FirstRead, LockNext, ReadAgain, DropOld, Test, DropPred, Advance, LockPair, LockSecond}
    ensures Spends(s, FindStep(s, t), t)
  {
    assert ThreadOk(s.kind, s.lang, s.heap, s.threads[t]);
  }

  lemma ValidateSpends(s: State, t: nat)
    requires 2 <= |s.heap| && t < |s.threads| && PointersFine(s, s.threads[t])
    requires s.threads[t].pc in {CheckPred, CheckCur, CheckNext, WalkStart, WalkTest, WalkMove, WalkEnd}
    ensures Spends(s, ValidateStep(s, t), t)
  {
  }

  lemma LookSpends(s: State, t: nat)
    requires 2 <= |s.heap| && t < |s.threads| && PointersFine(s, s.threads[t])
    requires ThreadOk(s.kind, s.lang, s.heap, s.threads[t]) && s.threads[t].pc in {Act, AddRead, UnlinkRead}
    ensures Spends(s, CallbackStep(s, t), t)
  {
  }

  lemma ChangeSpends(s: State, t: nat)
    requires 2 <= |s.heap| && t < |s.threads| && PointersFine(s, s.threads[t])
    requires ThreadOk(s.kind, s.lang, s.heap, s.threads[t]) && s.threads[t].pc in {AddLink, MarkCur, UnlinkWrite}
    ensures Spends(s, CallbackStep(s, t), t)
  {
  }

  lemma LeaveSpends(s: State, t: nat)
    requires Goes(s, t) && s.threads[t].pc in {UnlockCur, UnlockPred, Finish}
    ensures Spends(s, LeaveStep(s, t), t)
  {
  }

  lemma StepSpends(s: State, t: nat)
    requires Goes(s, t)
    ensures Spends(s, Step(s, t), t)
  {
    var pc := s.threads[t].pc;
    assert ThreadOk(s.kind, s.lang, s.heap, s.threads[t]);
    if pc in {Act, AddRead, UnlinkRead} {
      LookSpends(s, t);
    } else if pc in {AddLink, MarkCur, UnlinkWrite} {
      ChangeSpends(s, t);
    } else if pc in {CheckPred, CheckCur, CheckNext, WalkStart, WalkTest, WalkMove, WalkEnd} {
      ValidateSpends(s, t);
    } else if pc in {UnlockCur, UnlockPred, Finish} {
      LeaveSpends(s, t);
    } else {
      FindSpends(s, t);
    }
  }

  lemma ChangesFall(s: State, s': State, t: nat)
    requires OnlyMoves(s, s', t) && Spends(s, s', t)
    ensures var (a, b) := (Sum(AllChanges(s)), Sum(AllChanges(s')));
            b <= a && (s'.heap != s.heap ==> b < a) && |s'.heap| + b <= |s.heap| + a
  {
    SumChange(AllChanges(s), AllChanges(s'), t);
  }

  lemma WaysFall(s: State, s': State, t: nat, size: nat)
    requires OnlyMoves(s, s', t) && s'.heap == s.heap && Way(s', t, size) < Way(s, t, size)
    ensures Sum(AllWays(s', size)) < Sum(AllWays(s, size))
  {
    forall u | 0 <= u < |s.threads| && u != t
      ensures AllWays(s', size)[u] == AllWays(s, size)[u]
    {
      SameWay(s, s', t, u, size);
    }
    SumChange(AllWays(s, size), AllWays(s', size), t);
  }

  lemma WaysBound(s: State, size: nat)
    requires |s.heap| <= size
    ensures Sum(AllWays(s, size)) < Share(|s.threads|, size)
  {
    forall t | 0 <= t < |s.threads|
      ensures AllWays(s, size)[t] <= STEPS * (size + 1)
    {
      WayBound(s, t, size);
    }
    SumBound(AllWays(s, size), STEPS * (size + 1));
  }

  /** Fewer changes are left, or as many and shorter ways. */
  lemma LessTotal(s: State, s': State, size: nat)
    requires |s'.threads| == |s.threads| && |s'.heap| <= size && Sum(AllChanges(s')) <= Sum(AllChanges(s))
    requires Sum(AllChanges(s')) < Sum(AllChanges(s)) || Sum(AllWays(s', size)) < Sum(AllWays(s, size))
    ensures Total(s', size) < Total(s, size)
  {
    var a, b, share := Sum(AllChanges(s)), Sum(AllChanges(s')), Share(|s.threads|, size);
    if b < a {
      WaysBound(s', size);
      LessPairs(a, b, share, Sum(AllWays(s, size)), Sum(AllWays(s', size)));
    } else {
      assert b == a;
    }
  }

  /** Every step brings all calls together nearer to their end. */
  lemma StepCounts(s: State, t: nat, size: nat)
    requires Goes(s, t) && |s.heap| + Sum(AllChanges(s)) <= size
    ensures var s' := Step(s, t);
            && |s'.heap| + Sum(AllChanges(s')) <= size && |s'.threads| == |s.threads|
            && Total(s', size) < Total(s, size)
  {
    var s' := Step(s, t);
    MoveOk(s, t);
    StepSpends(s, t);
    ChangesFall(s, s', t);
    if s'.heap == s.heap {
      WayFalls(s, t, size);
      WaysFall(s, s', t, size);
    }
    LessTotal(s, s', size);
  }

  // ---- Schedules ----

  /** A schedule of steps of calls under way. */
  predicate Works(s: State, us: seq<nat>)
    decreases |us|
  {
    us == [] || (Enabled(s, Move(us[0])) && Works(Next(s, Move(us[0])), us[1..]))
  }

  function Moves(us: seq<nat>): (es: seq<Event>)
    ensures |es| == |us| && forall i :: 0 <= i < |us| ==> es[i] == Move(us[i])
  {
    seq(|us|, i requires 0 <= i < |us| => Move(us[i]))
  }

  /** No call can go on. */
  predicate AtRest(s: State)
  {
    forall t: nat :: t < |s.threads| ==> !Enabled(s, Move(t))
  }

  ghost predicate NoNulls(s: State, ids: set<Id>)
  {
    Inv(s) && ReWalkNull.NobodyCrashed(s) && NullSafe(s, ids)
  }

  lemma NoNullsKept(s: State, t: nat, ids: set<Id>)
    requires NoNulls(s, ids) && Enabled(s, Move(t))
    ensures Goes(s, t) && NoNulls(Step(s, t), ids)
  {
    PointersFineNow(s, t, ids);
    MoveOk(s, t);
    ReWalkNull.FineStepsOn(s, t);
    if s.kind == Optimistic {
      ReWalkNull.IdsKept(s, Move(t), ids);
    }
  }

  ghost function Safe(ids: set<Id>): iset<State>
  {
    iset s | NoNulls(s, ids)
  }

  lemma OneCounts(s: State, t: nat, ids: set<Id>, size: nat)
    requires s in Safe(ids) && Enabled(s, Move(t)) && |s.heap| + Sum(AllChanges(s)) <= size
    ensures var s' := Next(s, Move(t));
            && s' in Safe(ids) && |s'.threads| == |s.threads|
            && |s'.heap| + Sum(AllChanges(s')) <= size && Total(s', size) < Total(s, size)
  {
    NoNullsKept(s, t, ids);
    StepCounts(s, t, size);
  }

  lemma {:induction false} WorkBounded(s: State, us: seq<nat>, ids: set<Id>, size: nat)
    requires s in Safe(ids) && Works(s, us) && |s.heap| + Sum(AllChanges(s)) <= size
    ensures Run(s, Moves(us)).Some?
    ensures var s' := Run(s, Moves(us)).value.0;
            s' in Safe(ids) && |s'.threads| == |s.threads| && |us| + Total(s', size) <= Total(s, size)
    decreases |us|
  {
    if us != [] {
      OneCounts(s, us[0], ids, size);
      WorkBounded(Next(s, Move(us[0])), us[1..], ids, size);
      assert Moves(us)[1..] == Moves(us[1..]);
    }
  }

  lemma TotalBound(s: State, size: nat)
    requires |s.heap| <= size
    ensures Total(s, size) < (2 * |s.threads| + 1) * Share(|s.threads|, size)
  {
    WaysBound(s, size);
    FewChanges(s);
    LessPairs(2 * |s.threads| + 1, Sum(AllChanges(s)), Share(|s.threads|, size), 0, Sum(AllWays(s, size)));
  }

  lemma FewChanges(s: State)
    ensures Sum(AllChanges(s)) <= 2 * |s.threads|
  {
    SumBound(AllChanges(s), 2);
  }

  /** Who cannot go on waits for one who can. */
  lemma RestIsIdle(s: State, t: nat)
    requires Inv(s) && ReWalkNull.NobodyCrashed(s) && AtRest(s) && t < |s.threads|
    ensures s.threads[t].pc == Idle
  {
    if s.threads[t].pc != Idle {
      var chain := [t];
      if !CanStep(s, t) {
        var x := BlockedWants(s, t);
        chain := FollowOwners(s, t, x);
      }
      assert Enabled(s, Move(chain[|chain| - 1]));
    }
  }

  predicate AllIdle(s: State)
  {
    forall t :: 0 <= t < |s.threads| ==> s.threads[t].pc == Idle
  }

  lemma AllRest(s: State, ids: set<Id>)
    requires s in Safe(ids)
    ensures AtRest(s) ==> AllIdle(s)
  {
    forall t | 0 <= t < |s.threads| && AtRest(s)
      ensures s.threads[t].pc == Idle
    {
      RestIsIdle(s, t);
    }
  }

  /** The schedules that run in no more than `bound` steps and, if they cannot be continued then, let every call return. */
  ghost function EndWithin(s: State, bound: nat): iset<seq<nat>>
  {
    iset us: seq<nat> | |us| <= bound && Run(s, Moves(us)).Some? && Done(s, Run(s, Moves(us)).value.0)
  }

  predicate Done(s: State, s': State)
  {
    |s'.threads| == |s.threads| && (AtRest(s') ==> AllIdle(s'))
  }

  /** The states from which no null pointer is met and no list gets longer than `size`. */
  ghost function Roomy(ids: set<Id>, size: nat): iset<State>
  {
    iset s | NoNulls(s, ids) && |s.heap| + Sum(AllChanges(s)) <= size
  }

  lemma WorkEnds(s: State, us: seq<nat>, ids: set<Id>, size: nat)
    requires s in Roomy(ids, size) && Works(s, us)
    ensures us in EndWithin(s, Total(s, size))
  {
    WorkBounded(s, us, ids, size);
    AllRest(Run(s, Moves(us)).value.0, ids);
  }

  lemma Starts(kind: Kind, lang: Lang, n: nat, es: seq<Event>, ids: set<Id>)
    requires Run(Init(kind, lang, n), es).Some?
    requires kind == Optimistic ==> ReWalkNull.UsesOnly(es, ids) && ReWalkNull.OneLargest(ids)
    ensures Run(Init(kind, lang, n), es).value.0 in Safe(ids) && |Run(Init(kind, lang, n), es).value.0.threads| == n
  {
    var s0 := Init(kind, lang, n);
    InitInv(kind, lang, n);
    RunOk(s0, es);
    if kind == Optimistic {
      ReWalkNull.NoCrash(s0, es, ids);
    } else {
      ReWalkNull.OthersNullSafe(kind, lang, n, es);
    }
  }

  lemma RoomFor(s: State, n: nat, ids: set<Id>, size: nat)
    requires s in Safe(ids) && |s.threads| == n && |s.heap| + 2 * n == size
    ensures s in Roomy(ids, size)
  {
    FewChanges(s);
  }

  lemma RunLeavesRoom(kind: Kind, lang: Lang, n: nat, es: seq<Event>, ids: set<Id>)
    requires Run(Init(kind, lang, n), es).Some?
    requires kind == Optimistic ==> ReWalkNull.UsesOnly(es, ids) && ReWalkNull.OneLargest(ids)
    ensures var s := Run(Init(kind, lang, n), es).value.0; s in Roomy(ids, |s.heap| + 2 * n)
  {
    Starts(kind, lang, n, es, ids);
    var s := Run(Init(kind, lang, n), es).value.0;
    RoomFor(s, n, ids, |s.heap| + 2 * n);
  }

  /** In any run: once no more calls are started, every schedule ends after a number of steps that is bounded by the
      numbers of threads and nodes (`TotalBound`), however the threads get in each other's way, and when it cannot be
      continued every call has returned. For OptimisticSet no two elements in use may have the largest hash. */
  lemma CallsEnd(kind: Kind, lang: Lang, n: nat, es: seq<Event>, us: seq<nat>, ids: set<Id>)
    requires Run(Init(kind, lang, n), es).Some? && Works(Run(Init(kind, lang, n), es).value.0, us)
    requires kind == Optimistic ==> ReWalkNull.UsesOnly(es, ids) && ReWalkNull.OneLargest(ids)
    ensures var s := Run(Init(kind, lang, n), es).value.0; us in EndWithin(s, Total(s, |s.heap| + 2 * n))
  {
    RunLeavesRoom(kind, lang, n, es, ids);
    var s := Run(Init(kind, lang, n), es).value.0;
    WorkEnds(s, us, ids, |s.heap| + 2 * n);
  }
}
