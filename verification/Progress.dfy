/** A call that is left alone returns, however far it has got and however outdated the nodes it has found are: when
    its validation fails it unlocks both nodes and searches again, and what it finds then is up to date. */
module Progress {
  import opened Elements
  import opened ListHeap
  import opened ListSets
  import opened ListSetInvariant
  import opened ListSetSteps
  import opened ListSetTheorems
  import opened ListSetSafety
  import opened Undisturbed
  import ReWalkNull

  /** OptimisticSet needs that no two elements in use have the largest hash. */
  ghost predicate NullSafe(s: State, ids: set<Id>)
  {
    s.kind == Optimistic ==> ReWalkNull.IdsIn(s, ids) && ReWalkNull.OneLargest(ids)
  }

  /** Thread `t` is in the middle of a call and nobody else holds a lock. */
  ghost predicate Unfinished(s: State, t: nat, ids: set<Id>)
  {
    Inv(s) && Quiet(s, t) && t < |s.threads| && s.threads[t].pc !in {Idle, Crashed} && NullSafe(s, ids)
  }

  /** The same, on nodes that are not neighbours in the list. */
  ghost predicate Outdated(s: State, t: nat)
  {
    && Inv(s) && t < |s.threads| && s.threads[t].pc !in {Idle, Crashed}
    && CanStep(s, t) && PointersFine(s, s.threads[t]) && !OnTrack(s, t)
  }

  lemma PointersFineNow(s: State, t: nat, ids: set<Id>)
    requires Inv(s) && NullSafe(s, ids) && t < |s.threads| && CanStep(s, t)
    ensures PointersFine(s, s.threads[t])
  {
    if !PointersFine(s, s.threads[t]) {
      OnlyReWalkCrashes(s, t);
      var a, b := ReWalkNull.CrashNeedsTwo(s, t, ids);
    }
  }

  // ---- Every step of an outdated search leads on, or back to the start ----

  /** FineGrainedSet's walk stands on neighbours, except for the moment between two reads. */
  lemma FineGrainedOn(s: State, t: nat)
    requires Outdated(s, t) && s.kind == FineGrained
    requires s.threads[t].pc in {LockNext, ReadAgain, DropOld, Test, DropPred, Advance}
    ensures s.threads[t].pc == Advance && OnTrack(FindStep(s, t), t)
  {
    var h, th := s.heap, s.threads[t];
    assert ThreadOk(s.kind, s.lang, h, th);
    assert IsNode(h, th.pred) && IsNode(h, th.cur);
    assert IsNode(h, h[th.cur].next);
  }

  lemma OutdatedSearch(s: State, t: nat)
    requires Outdated(s, t) && s.kind != FineGrained
    requires s.threads[t].pc in {Test, Advance, LockPair, LockSecond}
    ensures OnTrack(FindStep(s, t), t) || Closer(s, FindStep(s, t), t)
  {
    var h, th := s.heap, s.threads[t];
    assert ThreadOk(s.kind, s.lang, h, th);
    if th.pc == Advance {
      var w := h[th.cur].next;
      assert IsNode(h, w) && Before(h, th.cur, w);
      AfterShrinks(h, th.cur, w);
    }
  }

  lemma OutdatedChecks(s: State, t: nat)
    requires Outdated(s, t) && s.threads[t].pc in {CheckPred, CheckCur, CheckNext}
    ensures OnTrack(ValidateStep(s, t), t) || Closer(s, ValidateStep(s, t), t)
  {
    assert ThreadOk(s.kind, s.lang, s.heap, s.threads[t]);
  }

  lemma OutdatedReWalk(s: State, t: nat)
    requires Outdated(s, t) && s.threads[t].pc in {WalkStart, WalkTest, WalkEnd}
    ensures OnTrack(ValidateStep(s, t), t) || Closer(s, ValidateStep(s, t), t)
  {
    assert ThreadOk(s.kind, s.lang, s.heap, s.threads[t]);
  }

  lemma OutdatedMove(s: State, t: nat)
    requires Outdated(s, t) && s.threads[t].pc == WalkMove
    ensures Closer(s, ValidateStep(s, t), t)
  {
    var h, th := s.heap, s.threads[t];
    assert ThreadOk(s.kind, s.lang, h, th);
    var w := WalkNext(s, th);
    assert IsNode(h, w) && Before(h, th.check, w);
    AfterShrinks(h, th.check, w);
  }

  /** A callback runs on neighbours only. */
  lemma CallbackOn(s: State, t: nat)
    requires Inv(s) && t < |s.threads|
    requires s.threads[t].pc in {Act, AddRead, AddLink, MarkCur, UnlinkRead, UnlinkWrite}
    ensures OnTrack(s, t)
  {
    assert ThreadOk(s.kind, s.lang, s.heap, s.threads[t]);
  }

  /** After a rejection: the two nodes are unlocked and the search begins anew. */
  lemma Rejected(s: State, t: nat)
    requires Outdated(s, t) && s.threads[t].pc in {UnlockCur, UnlockPred}
    ensures s.threads[t].pc == UnlockCur ==> LeaveStep(s, t).threads[t].pc == UnlockPred
    ensures s.threads[t].pc == UnlockPred ==> LeaveStep(s, t).threads[t].pc == Start
  {
  }

  lemma OffTrack(s: State, t: nat)
    requires Outdated(s, t)
    ensures OnTrack(Step(s, t), t) || Closer(s, Step(s, t), t)
  {
    var pc := s.threads[t].pc;
    if pc in {Act, AddRead, AddLink, MarkCur, UnlinkRead, UnlinkWrite} {
      CallbackOn(s, t);
    } else if pc in {UnlockCur, UnlockPred} {
      Rejected(s, t);
    } else if pc == WalkMove {
      OutdatedMove(s, t);
    } else if pc in {CheckPred, CheckCur, CheckNext} {
      OutdatedChecks(s, t);
    } else if pc in {WalkStart, WalkTest, WalkEnd} {
      OutdatedReWalk(s, t);
    } else if s.kind == FineGrained {
      NotWalking(s, t);
      FineGrainedOn(s, t);
    } else {
      assert ThreadOk(s.kind, s.lang, s.heap, s.threads[t]);
      OutdatedSearch(s, t);
    }
  }

  // ---- The whole call ----

  /** One failed validation at most: from nodes that may be outdated to up-to-date ones, then closer to the end. */
  ghost predicate Nearer(s: State, s': State, t: nat)
    requires t < |s.threads| && t < |s'.threads|
  {
    (OnTrack(s', t) && !OnTrack(s, t)) || ((OnTrack(s', t) <==> OnTrack(s, t)) && Closer(s, s', t))
  }

  /** Whatever the others hold, a step that is not the last one is one nearer to the end. */
  lemma NearerStep(s: State, t: nat)
    requires Inv(s) && t < |s.threads| && s.threads[t].pc !in {Idle, Crashed, Finish}
    requires CanStep(s, t) && PointersFine(s, s.threads[t])
    ensures StepOk(s, Step(s, t), t) && Inv(Step(s, t)) && Nearer(s, Step(s, t), t)
  {
    MoveOk(s, t);
    if OnTrack(s, t) {
      TrackAlone(s, t);
    } else {
      OffTrack(s, t);
    }
  }

  /** The call returns `r`: as it was already settled, or as the operation answers now. */
  ghost predicate Outcome(s: State, s': State, t: nat, r: Result)
    requires t < |s.threads|
  {
    var th := s.threads[t];
    if th.res.Some? then ContentsOf(s'.heap) == ContentsOf(s.heap) && r == th.res.value
    else (ContentsOf(s'.heap), r) == Apply(ContentsOf(s.heap), th.op)
  }

  lemma OutcomeBefore(s: State, s1: State, s': State, t: nat, r: Result)
    requires t < |s.threads| && StepOk(s, s1, t) && s.threads[t].pc != Finish && Outcome(s1, s', t, r)
    ensures Outcome(s, s', t, r)
  {
  }

  lemma StillUnfinished(s: State, t: nat, ids: set<Id>)
    requires Unfinished(s, t, ids) && s.threads[t].pc != Finish && CanStep(s, t) && PointersFine(s, s.threads[t])
    requires StepOk(s, Step(s, t), t) && Inv(Step(s, t))
    ensures Unfinished(Step(s, t), t, ids)
  {
    var s1 := Step(s, t);
    assert forall u: nat :: u < |s.threads| && u != t ==> HeldBy(s1, u) == HeldBy(s, u);
    FinishEnds(s, t);
    ReWalkNull.FineStepsOn(s, t);
    if s.kind == Optimistic {
      ReWalkNull.IdsKept(s, Move(t), ids);
    }
  }

  lemma Onward(s: State, t: nat, ids: set<Id>) returns (s1: State)
    requires Unfinished(s, t, ids) && s.threads[t].pc != Finish
    ensures Enabled(s, Move(t)) && s1 == Next(s, Move(t)) && Visible(s, Move(t)) == []
    ensures Unfinished(s1, t, ids) && StepOk(s, s1, t) && Nearer(s, s1, t)
  {
    QuietCanStep(s, t);
    PointersFineNow(s, t, ids);
    NearerStep(s, t);
    StillUnfinished(s, t, ids);
    s1 := Step(s, t);
  }

  lemma RunFirst(s: State, e: Event, es: seq<Event>)
    requires Enabled(s, e) && Run(Next(s, e), es).Some?
    ensures var (s', seen) := Run(Next(s, e), es).value; Run(s, [e] + es) == Some((s', Visible(s, e) + seen))
  {
    assert ([e] + es)[1..] == es;
  }

  lemma NothingHeld(s: State)
    requires LocksOk(s) && forall u: nat :: u < |s.threads| ==> HeldBy(s, u) == {}
    ensures s.owner == map[]
  {
    assert forall x :: x !in s.owner;
  }

  lemma Returns(s: State, t: nat, ids: set<Id>) returns (s': State, r: Result)
    requires Unfinished(s, t, ids) && s.threads[t].pc == Finish
    ensures Run(s, [Move(t)]) == Some((s', [Reply(t, r)])) && Returned(s, s', t, r)
  {
    assert ThreadOk(s.kind, s.lang, s.heap, s.threads[t]);
    MoveOk(s, t);
    s', r := Step(s, t), s.threads[t].res.value;
    assert Enabled(s, Move(t)) && Next(s, Move(t)) == s' && Visible(s, Move(t)) == [Reply(t, r)];
    RunFirst(s, Move(t), []);
    assert [Move(t)] + [] == [Move(t)] && [Reply(t, r)] + [] == [Reply(t, r)];
    forall u: nat | u < |s'.threads|
      ensures HeldBy(s', u) == {}
    {
      assert u != t ==> HeldBy(s', u) == HeldBy(s, u);
    }
    NothingHeld(s');
  }

  ghost predicate Returned(s: State, s': State, t: nat, r: Result)
    requires t < |s.threads|
  {
    t < |s'.threads| && s'.threads[t].pc == Idle && s'.owner == map[] && Outcome(s, s', t, r)
  }

  predicate AllBy(es: seq<Event>, t: nat)
  {
    forall i :: 0 <= i < |es| ==> es[i] == Move(t)
  }

  ghost function Calls(t: nat, ids: set<Id>): iset<State>
  {
    iset s: State | Unfinished(s, t, ids)
  }

  ghost function UpToDate(t: nat): iset<State>
  {
    iset s: State | t < |s.threads| && OnTrack(s, t)
  }

  ghost function Returning(s: State, t: nat, r: Result): iset<State>
  {
    iset s': State | t < |s.threads| && Returned(s, s', t, r)
  }

  /** One step, and what it does to the way that is left. */
  lemma OneMore(s: State, t: nat, ids: set<Id>) returns (s1: State)
    requires s in Calls(t, ids) && t < |s.threads| && s.threads[t].pc != Finish
    ensures s1 in Calls(t, ids) && t < |s1.threads|
    ensures Enabled(s, Move(t)) && s1 == Next(s, Move(t)) && Visible(s, Move(t)) == []
    ensures forall s', r :: s' in Returning(s1, t, r) ==> s' in Returning(s, t, r)
    ensures || (s1 in UpToDate(t) && s !in UpToDate(t))
            || ((s1 in UpToDate(t) <==> s in UpToDate(t)) && Closer(s, s1, t))
  {
    s1 := Onward(s, t, ids);
    forall s', r | s' in Returning(s1, t, r)
      ensures s' in Returning(s, t, r)
    {
      OutcomeBefore(s, s1, s', t, r);
    }
  }

  lemma {:induction false} Ends(s: State, t: nat, ids: set<Id>) returns (fs: seq<Event>, s': State, r: Result)
    requires s in Calls(t, ids) && t < |s.threads|
    ensures AllBy(fs, t) && Run(s, fs) == Some((s', [Reply(t, r)])) && s' in Returning(s, t, r)
    decreases if s in UpToDate(t) then 0 else 1, Rank(s.threads[t].pc), Ahead2(s, s.threads[t]), Within(s.threads[t].pc)
  {
    if s.threads[t].pc == Finish {
      fs := [Move(t)];
      s', r := Returns(s, t, ids);
    } else {
      var s1 := OneMore(s, t, ids);
      var gs;
      gs, s', r := Ends(s1, t, ids);
      fs := [Move(t)] + gs;
      RunFirst(s, Move(t), gs);
      assert Visible(s, Move(t)) + [Reply(t, r)] == [Reply(t, r)];
    }
  }

  /** In any run, a call that has started, wherever it stands, returns after finitely many steps of its own when nobody
      else holds a lock or moves: with the answer it had settled, or else with the answer and the effect that the
      operation has on the set as it is now. It leaves no node locked. For OptimisticSet no two elements in use may
      have the largest hash; the other two need nothing. */
  lemma Completes(kind: Kind, lang: Lang, n: nat, es: seq<Event>, t: nat, ids: set<Id>)
    returns (fs: seq<Event>, s': State, r: Result)
    requires Run(Init(kind, lang, n), es).Some? && t < |Run(Init(kind, lang, n), es).value.0.threads|
    requires kind == Optimistic ==> ReWalkNull.UsesOnly(es, ids) && ReWalkNull.OneLargest(ids)
    requires var s := Run(Init(kind, lang, n), es).value.0;
             && s.threads[t].pc != Idle
             && forall x :: x in s.owner ==> s.owner[x] == t
    ensures var s := Run(Init(kind, lang, n), es).value.0; var th := s.threads[t];
            && AllBy(fs, t) && Run(s, fs) == Some((s', [Reply(t, r)]))
            && t < |s'.threads| && s'.threads[t].pc == Idle && s'.owner == map[]
            && (th.res.Some? ==> Abstract(s').contents == Abstract(s).contents && r == th.res.value)
            && (th.res.None? ==> (Abstract(s').contents, r) == Apply(Abstract(s).contents, th.op))
  {
    var s := Run(Init(kind, lang, n), es).value.0;
    MidCall(kind, lang, n, es, t, ids);
    fs, s', r := Ends(s, t, ids);
  }

  lemma AloneIsQuiet(s: State, t: nat)
    requires LocksOk(s) && forall x :: x in s.owner ==> s.owner[x] == t
    ensures Quiet(s, t)
  {
    assert forall u: nat, x :: u < |s.threads| && x in HeldBy(s, u) ==> s.owner[x] == u;
  }

  lemma MidCall(kind: Kind, lang: Lang, n: nat, es: seq<Event>, t: nat, ids: set<Id>)
    requires Run(Init(kind, lang, n), es).Some? && t < |Run(Init(kind, lang, n), es).value.0.threads|
    requires kind == Optimistic ==> ReWalkNull.UsesOnly(es, ids) && ReWalkNull.OneLargest(ids)
    requires var s := Run(Init(kind, lang, n), es).value.0;
             && s.threads[t].pc != Idle
             && forall x :: x in s.owner ==> s.owner[x] == t
    ensures Unfinished(Run(Init(kind, lang, n), es).value.0, t, ids)
  {
    var s0 := Init(kind, lang, n);
    InitInv(kind, lang, n);
    RunOk(s0, es);
    if kind == Optimistic {
      ReWalkNull.NoCrash(s0, es, ids);
    }
    var s := Run(s0, es).value.0;
    assert ThreadOk(s.kind, s.lang, s.heap, s.threads[t]);
    AloneIsQuiet(s, t);
  }
}
