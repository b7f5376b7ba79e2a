/** Every step keeps the invariant of the list sets. */
module ListSetSteps {
  import opened Elements
  import opened ListHeap
  import opened ListSets
  import opened ListSetInvariant

  /** Only thread `t` moved. */
  predicate OnlyMoves(s: State, s': State, t: nat)
  {
    && t < |s.threads| == |s'.threads| && s'.kind == s.kind && s'.lang == s.lang
    && s'.threads == s.threads[t := s'.threads[t]]
  }

  /** The locks are consistent again and nobody but `t` gained or lost one. */
  ghost predicate LocksKept(s: State, s': State, t: nat)
  {
    && LocksOk(s')
    && forall x {:trigger s'.owner[x]} {:trigger s.owner[x]} ::
         x in s.owner && s.owner[x] != t ==> x in s'.owner && s'.owner[x] == s.owner[x]
  }

  lemma LocksSame(s: State, s': State, t: nat)
    requires LocksOk(s) && OnlyMoves(s, s', t)
    requires s'.owner == s.owner && HeldBy(s', t) == HeldBy(s, t)
    ensures LocksKept(s, s', t)
  {
    assert forall u: nat :: u < |s.threads| ==> HeldBy(s', u) == HeldBy(s, u);
  }

  lemma LocksAcquired(s: State, s': State, t: nat, xs: set<int>)
    requires LocksOk(s) && OnlyMoves(s, s', t)
    requires forall x :: x in xs ==> Free(s, x)
    requires s'.owner == s.owner + map x | x in xs :: t
    requires HeldBy(s', t) == HeldBy(s, t) + xs
    ensures LocksKept(s, s', t)
  {
    assert forall u: nat :: u < |s.threads| && u != t ==> HeldBy(s', u) == HeldBy(s, u);
  }

  lemma LocksReleased(s: State, s': State, t: nat, x: int)
    requires LocksOk(s) && OnlyMoves(s, s', t)
    requires x in HeldBy(s, t) && s'.owner == s.owner - {x}
    requires HeldBy(s', t) == HeldBy(s, t) - {x}
    ensures LocksKept(s, s', t)
  {
    assert forall u: nat :: u < |s.threads| && u != t ==> HeldBy(s', u) == HeldBy(s, u);
  }

  /** The one null pointer an algorithm can meet: OptimisticSet's re-walk at the tail, for a largest key. */
  lemma OnlyReWalkCrashes(s: State, t: nat)
    requires Inv(s) && t < |s.threads| && !PointersFine(s, s.threads[t])
    ensures var th := s.threads[t];
            && s.kind == Optimistic && th.pc == WalkTest && th.check == TAIL && Stopped(s.heap, th)
            && s.heap[th.pred].key == SIZE_MAX
  {
    var th := s.threads[t];
    assert ThreadOk(s.kind, s.lang, s.heap, th);
    if th.pc == WalkTest && th.check != TAIL {
      assert IsNode(s.heap, s.heap[th.check].next);
    }
  }

  lemma WalkPlace(s: State, t: nat)
    requires Inv(s) && t < |s.threads| && CanStep(s, t) && PointersFine(s, s.threads[t])
    requires s.threads[t].pc in {Start, FirstRead, Test, Advance}
    ensures ThreadOk(s.kind, s.lang, s.heap, FindStep(s, t).threads[t])
  {
    var h, th := s.heap, s.threads[t];
    assert ThreadOk(s.kind, s.lang, h, th);
    match th.pc
    case Start | FirstRead => StartRight(h, th.op.Key());
    case Test => TestAgrees(h, th.op.Key(), th.cur);
    case Advance => StepRight(h, th.op.Key(), th.pred, th.cur);
  }

  lemma LockPlace(s: State, t: nat)
    requires Inv(s) && t < |s.threads| && CanStep(s, t) && PointersFine(s, s.threads[t])
    requires s.threads[t].pc in {LockNext, ReadAgain, DropOld, DropPred, LockPair, LockSecond}
    ensures ThreadOk(s.kind, s.lang, s.heap, FindStep(s, t).threads[t])
  {
    assert ThreadOk(s.kind, s.lang, s.heap, s.threads[t]);
  }

  lemma WalkLocks(s: State, t: nat)
    requires LocksOk(s) && 2 <= |s.heap| && t < |s.threads| && CanStep(s, t) && PointersFine(s, s.threads[t])
    requires PlaceOk(s.kind, s.lang, s.heap, s.threads[t])
    requires s.threads[t].pc in {FirstRead, ReadAgain, DropOld, Test, DropPred, Advance}
    ensures LocksKept(s, FindStep(s, t), t)
  {
    var th, s' := s.threads[t], FindStep(s, t);
    match th.pc
    case DropOld => LocksReleased(s, s', t, th.back);
    case DropPred => LocksReleased(s, s', t, th.pred);
    case FirstRead =>
      assert HeldBy(s', t) == {th.pred};
      LocksSame(s, s', t);
    case ReadAgain =>
      assert HeldBy(s', t) == {th.pred, th.cur};
      LocksSame(s, s', t);
    case Test =>
      assert HeldBy(s', t) == HeldBy(s, t);
      LocksSame(s, s', t);
    case Advance =>
      assert HeldBy(s', t) == HeldBy(s, t);
      LocksSame(s, s', t);
  }

  lemma StartLocks(s: State, t: nat)
    requires LocksOk(s) && 2 <= |s.heap| && t < |s.threads| && CanStep(s, t) && s.threads[t].pc == Start
    ensures LocksKept(s, FindStep(s, t), t)
  {
    if s.kind == FineGrained {
      LocksAcquired(s, FindStep(s, t), t, {HEAD});
    } else {
      LocksSame(s, FindStep(s, t), t);
    }
  }

  lemma TakeCurLocks(s: State, t: nat)
    requires LocksOk(s) && 2 <= |s.heap| && t < |s.threads| && CanStep(s, t) && PointersFine(s, s.threads[t])
    requires PlaceOk(s.kind, s.lang, s.heap, s.threads[t])
    requires s.threads[t].pc in {LockNext, LockSecond}
    ensures LocksKept(s, FindStep(s, t), t)
  {
    var th, s' := s.threads[t], FindStep(s, t);
    assert HeldBy(s', t) == HeldBy(s, t) + {th.cur};
    LocksAcquired(s, s', t, {th.cur});
  }

  lemma PairLocks(s: State, t: nat)
    requires LocksOk(s) && 2 <= |s.heap| && t < |s.threads| && CanStep(s, t) && PointersFine(s, s.threads[t])
    requires s.threads[t].pc == LockPair
    ensures LocksKept(s, FindStep(s, t), t)
  {
    var th, s' := s.threads[t], FindStep(s, t);
    var xs := if s.lang == Java then {th.pred} else {th.pred, th.cur};
    assert s'.owner == s.owner + map x | x in xs :: t;
    assert HeldBy(s', t) == xs;
    LocksAcquired(s, s', t, xs);
  }

  lemma CheckPlace(s: State, t: nat)
    requires Inv(s) && t < |s.threads| && PointersFine(s, s.threads[t])
    requires s.threads[t].pc in {CheckPred, CheckCur, CheckNext}
    ensures ThreadOk(s.kind, s.lang, s.heap, ValidateStep(s, t).threads[t])
  {
    var h, th := s.heap, s.threads[t];
    assert ThreadOk(s.kind, s.lang, h, th);
    if th.pc == CheckNext && h[th.pred].next == th.cur {
      assert h[th.pred].linked;
    }
  }

  lemma ReWalkPlace(s: State, t: nat)
    requires Inv(s) && t < |s.threads| && PointersFine(s, s.threads[t])
    requires s.threads[t].pc in {WalkStart, WalkTest, WalkMove}
    ensures ThreadOk(s.kind, s.lang, s.heap, ValidateStep(s, t).threads[t])
  {
    var h, th := s.heap, s.threads[t];
    assert ThreadOk(s.kind, s.lang, h, th);
    if th.pc == WalkMove && s.lang == Cpp && th.nxt == TAIL {
      assert h[th.nxt].next == NULL;
    }
  }

  /** The re-walk met `pred`, so `pred` is in the list: had it been taken out, everything the re-walk can meet
      would have been taken out later, or not at all. */
  lemma ReWalkSound(s: State, t: nat)
    requires Inv(s) && t < |s.threads| && PointersFine(s, s.threads[t]) && s.threads[t].pc == WalkEnd
    ensures ThreadOk(s.kind, s.lang, s.heap, ValidateStep(s, t).threads[t])
  {
    var h, th := s.heap, s.threads[t];
    assert ThreadOk(s.kind, s.lang, h, th);
    if th.check == th.pred && h[th.pred].next == th.cur {
      assert h[th.pred].linked && !h[th.pred].deleted && !h[th.cur].deleted;
    }
  }

  lemma ValidateLocks(s: State, t: nat)
    requires LocksOk(s) && 2 <= |s.heap| && t < |s.threads| && PointersFine(s, s.threads[t])
    requires s.threads[t].pc in {CheckPred, CheckCur, CheckNext, WalkStart, WalkTest, WalkMove, WalkEnd}
    ensures LocksKept(s, ValidateStep(s, t), t)
  {
    var th, s' := s.threads[t], ValidateStep(s, t);
    assert s'.threads[t].pc in {CheckCur, CheckNext, WalkTest, WalkMove, WalkEnd, Act, UnlockCur};
    assert HeldBy(s, t) == {th.pred, th.cur};
    assert HeldBy(s', t) == {th.pred, th.cur};
    LocksSame(s, s', t);
  }

  lemma LeaveKeeps(s: State, t: nat)
    requires Inv(s) && t < |s.threads| && s.threads[t].pc in {UnlockCur, UnlockPred, Finish}
    ensures ThreadOk(s.kind, s.lang, s.heap, LeaveStep(s, t).threads[t])
    ensures LocksKept(s, LeaveStep(s, t), t)
  {
    var th, s' := s.threads[t], LeaveStep(s, t);
    assert ThreadOk(s.kind, s.lang, s.heap, th);
    match th.pc
    case UnlockCur => LocksReleased(s, s', t, th.cur);
    case UnlockPred => LocksReleased(s, s', t, th.pred);
    case Finish => LocksSame(s, s', t);
  }

  // ---- The callback, where the list changes ----

  /** A located search that did not find its element has found the gap for it. */
  lemma LocatedGap(h: Heap, th: Thread)
    requires HeapOk(h) && Located(h, th) && !Match(h, th.cur, th.op.Key())
    ensures Gap(h, th.op.Key(), th.pred, th.cur)
  {
    StopDecides(h, th.op.Key(), th.pred, th.cur);
  }

  lemma LinkStep(s: State, t: nat)
    requires Inv(s) && t < |s.threads| && s.threads[t].pc == AddLink
    ensures PointersFine(s, s.threads[t])
    ensures var s' := CallbackStep(s, t);
            && HeapOk(s'.heap) && DiedBefore(s'.heap, s'.clock)
            && ThreadOk(s.kind, s.lang, s'.heap, s'.threads[t])
            && Evolves(s.heap, s'.heap, s.clock, HeldBy(s, t))
            && ContentsOf(s'.heap) == Apply(ContentsOf(s.heap), s.threads[t].op).0
            && s'.threads[t].res == Some(Apply(ContentsOf(s.heap), s.threads[t].op).1)
  {
    var h, th := s.heap, s.threads[t];
    assert ThreadOk(s.kind, s.lang, h, th);
    LocatedGap(h, th);
    LinkKeeps(h, th.pred, th.op.e, th.cur, s.clock);
    LinkEvolves(h, th.pred, th.op.e, th.cur, s.clock);
    StopDecides(h, th.op.Key(), th.pred, th.cur);
  }

  lemma MarkStep(s: State, t: nat)
    requires Inv(s) && t < |s.threads| && s.threads[t].pc == MarkCur
    ensures PointersFine(s, s.threads[t])
    ensures var s' := CallbackStep(s, t);
            && HeapOk(s'.heap) && DiedBefore(s'.heap, s'.clock)
            && ThreadOk(s.kind, s.lang, s'.heap, s'.threads[t])
            && Evolves(s.heap, s'.heap, s.clock, HeldBy(s, t))
            && ContentsOf(s'.heap) == Apply(ContentsOf(s.heap), s.threads[t].op).0
            && s'.threads[t].res == Some(Apply(ContentsOf(s.heap), s.threads[t].op).1)
  {
    var h, th := s.heap, s.threads[t];
    assert ThreadOk(s.kind, s.lang, h, th);
    assert Live(h, th.cur, th.op.Key());
    MarkKeeps(h, th.cur, th.op.Key(), s.clock);
    MarkEvolves(h, th.cur, s.clock);
    StopDecides(h, th.op.Key(), th.pred, th.cur);
    StoppedStable(h, Mark(h, th.cur), s.clock, {th.cur}, th);
  }

  lemma UnlinkHeap(s: State, t: nat)
    requires Inv(s) && t < |s.threads| && s.threads[t].pc == UnlinkWrite
    ensures PointersFine(s, s.threads[t])
    ensures var s' := CallbackStep(s, t);
            && HeapOk(s'.heap) && DiedBefore(s'.heap, s'.clock)
            && ThreadOk(s.kind, s.lang, s'.heap, s'.threads[t])
            && Evolves(s.heap, s'.heap, s.clock, HeldBy(s, t))
            && var h, th := s.heap, s.threads[t];
               && h[th.cur].value.Some?
               && ContentsOf(s'.heap) ==
                  if h[th.cur].deleted then ContentsOf(h) else ContentsOf(h) - {h[th.cur].value.value.id}
  {
    var h, th := s.heap, s.threads[t];
    assert ThreadOk(s.kind, s.lang, h, th);
    assert h[th.cur].value.Some?;
    UnlinkKeeps(h, th.pred, th.cur, s.clock);
    UnlinkEvolves(h, th.pred, th.cur, th.nxt, s.clock);
  }

  lemma UnlinkStep(s: State, t: nat)
    requires Inv(s) && t < |s.threads| && s.threads[t].pc == UnlinkWrite
    ensures PointersFine(s, s.threads[t])
    ensures var s' := CallbackStep(s, t);
            && HeapOk(s'.heap) && DiedBefore(s'.heap, s'.clock)
            && ThreadOk(s.kind, s.lang, s'.heap, s'.threads[t])
            && Evolves(s.heap, s'.heap, s.clock, HeldBy(s, t))
            && (if s.kind == Lazy then ContentsOf(s'.heap) == ContentsOf(s.heap) && s.threads[t].res.Some?
                else && ContentsOf(s'.heap) == Apply(ContentsOf(s.heap), s.threads[t].op).0
                     && s'.threads[t].res == Some(Apply(ContentsOf(s.heap), s.threads[t].op).1))
  {
    var h, th := s.heap, s.threads[t];
    UnlinkHeap(s, t);
    UnlinkPlace(s.kind, s.lang, h, th);
    if s.kind != Lazy {
      StopDecides(h, th.op.Key(), th.pred, th.cur);
    }
  }

  /** Where the thread stands when it takes the node out. */
  lemma UnlinkPlace(kind: Kind, lang: Lang, h: Heap, th: Thread)
    requires ThreadOk(kind, lang, h, th) && th.pc == UnlinkWrite
    ensures th.op.Remove? && Stopped(h, th) && Match(h, th.cur, th.op.Key())
    ensures if kind == Lazy then h[th.cur].deleted && th.res.Some? else Located(h, th) && !h[th.cur].deleted && th.res.None?
  {
  }

  lemma ReadStep(s: State, t: nat)
    requires Inv(s) && t < |s.threads| && s.threads[t].pc in {AddRead, UnlinkRead}
    ensures PointersFine(s, s.threads[t])
    ensures var s' := CallbackStep(s, t);
            && s'.heap == s.heap && s'.clock == s.clock && s'.threads[t].res == s.threads[t].res
            && ThreadOk(s.kind, s.lang, s'.heap, s'.threads[t])
  {
    assert ThreadOk(s.kind, s.lang, s.heap, s.threads[t]);
  }

  lemma ActPlace(s: State, t: nat)
    requires Inv(s) && t < |s.threads| && s.threads[t].pc == Act
    ensures PointersFine(s, s.threads[t])
    ensures var s' := CallbackStep(s, t);
            s'.heap == s.heap && s'.clock == s.clock && ThreadOk(s.kind, s.lang, s'.heap, s'.threads[t])
  {
    var th := s.threads[t];
    assert ThreadOk(s.kind, s.lang, s.heap, th);
    match th.op
    case Add(_) =>
    case Remove(_) =>
    case GetEqual(_) =>
    case _ =>
  }

  /** An operation that changes nothing takes effect when it compares the element it found. */
  lemma ActAnswer(s: State, t: nat)
    requires HeapOk(s.heap) && t < |s.threads| && s.threads[t].pc == Act && PointersFine(s, s.threads[t])
    requires Located(s.heap, s.threads[t]) && !s.threads[t].op.Put?
    ensures var res := CallbackStep(s, t).threads[t].res;
            || res == s.threads[t].res
            || (res.Some? && Apply(ContentsOf(s.heap), s.threads[t].op) == (ContentsOf(s.heap), res.value))
  {
    var h, th := s.heap, s.threads[t];
    var id := th.op.Key();
    StopDecides(h, id, th.pred, th.cur);
    assert Match(h, th.cur, id) ==> h[th.cur].value == Some(Elem(id, ContentsOf(h)[id]));
  }

  lemma CallbackLocks(s: State, t: nat)
    requires LocksOk(s) && 2 <= |s.heap| && t < |s.threads| && PointersFine(s, s.threads[t])
    requires s.threads[t].pc in {Act, AddRead, AddLink, MarkCur, UnlinkRead, UnlinkWrite}
    ensures LocksKept(s, CallbackStep(s, t), t)
    ensures CallbackStep(s, t).owner == s.owner && OnlyMoves(s, CallbackStep(s, t), t)
    ensures CallbackStep(s, t).threads[t].cur == s.threads[t].cur
  {
    var th, s' := s.threads[t], CallbackStep(s, t);
    assert s'.threads[t].pc in {AddRead, AddLink, MarkCur, UnlinkRead, UnlinkWrite, UnlockCur, Crashed};
    assert s'.threads[t].pred == th.pred && s'.threads[t].cur == th.cur;
    assert s'.owner == s.owner && OnlyMoves(s, s', t);
    LocksSame(s, s', t);
  }

  // ---- Marks ----

  lemma MarksKept(s: State, s': State, t: nat)
    requires LocksOk(s) && MarksOk(s) && OnlyMoves(s, s', t) && LocksKept(s, s', t) && s'.heap == s.heap
    requires s.threads[t].pc in {UnlinkRead, UnlinkWrite} ==>
               s'.threads[t].pc in {UnlinkRead, UnlinkWrite} && s'.threads[t].cur == s.threads[t].cur && s'.owner == s.owner
    ensures MarksOk(s')
  {
  }

  lemma CallbackMarks(s: State, s': State, t: nat)
    requires Inv(s) && OnlyMoves(s, s', t) && s'.owner == s.owner
    requires s.threads[t].pc in {AddLink, MarkCur, UnlinkWrite}
    requires s' == CallbackStep(s, t) && PointersFine(s, s.threads[t])
    ensures MarksOk(s')
  {
    var h, h', th := s.heap, s'.heap, s.threads[t];
    assert ThreadOk(s.kind, s.lang, h, th);
    assert th.cur in HeldBy(s, t);
    assert th.pc == MarkCur ==> s'.threads[t].pc == UnlinkRead && s'.threads[t].cur == th.cur;
    forall i | 0 <= i < |h'| && s.kind == Lazy
      ensures !h'[i].linked ==> h'[i].deleted
      ensures h'[i].deleted && h'[i].linked ==> i in s'.owner && RemovedBy(s', i, s'.owner[i])
    {
      if i < |h| && i != th.cur {
        assert h'[i].deleted == h[i].deleted && h'[i].linked == h[i].linked;
      }
    }
  }

  // ---- All steps together ----

  /** What a step does to the list, next to keeping the invariant. */
  ghost predicate Effect(s: State, s': State, t: nat)
    requires t < |s.threads| && |s'.threads| == |s.threads|
  {
    var th, th' := s.threads[t], s'.threads[t];
    if th.res.None? && th'.res.Some? then
      Apply(ContentsOf(s.heap), th.op) == (ContentsOf(s'.heap), th'.res.value)
    else ContentsOf(s'.heap) == ContentsOf(s.heap) && (th.pc != Finish ==> th'.res == th.res)
  }

  /** The step of `t` in detail: it changes its own locals, its own locks, and nodes it holds locked. */
  ghost predicate StepOk(s: State, s': State, t: nat)
  {
    && OnlyMoves(s, s', t)
    && HeapOk(s'.heap) && DiedBefore(s'.heap, s'.clock) && Evolves(s.heap, s'.heap, s.clock, HeldBy(s, t))
    && ThreadOk(s'.kind, s'.lang, s'.heap, s'.threads[t])
    && LocksOk(s') && MarksOk(s')
    && s'.threads[t].op == s.threads[t].op
    && Effect(s, s', t)
  }

  lemma FindOk(s: State, t: nat)
    requires Inv(s) && t < |s.threads| && CanStep(s, t) && PointersFine(s, s.threads[t])
    requires s.threads[t].pc in {Start, FirstRead, LockNext, ReadAgain, DropOld, Test, DropPred, Advance, LockPair, LockSecond}
    ensures StepOk(s, FindStep(s, t), t)
  {
    var th, s' := s.threads[t], FindStep(s, t);
    assert ThreadOk(s.kind, s.lang, s.heap, th);
    if th.pc in {Start, FirstRead, Test, Advance} {
      WalkPlace(s, t);
    } else {
      LockPlace(s, t);
    }
    if th.pc == LockPair {
      PairLocks(s, t);
    } else if th.pc == Start {
      StartLocks(s, t);
    } else if th.pc in {LockNext, LockSecond} {
      TakeCurLocks(s, t);
    } else {
      WalkLocks(s, t);
    }
    assert s'.heap == s.heap && s'.clock == s.clock && OnlyMoves(s, s', t) && s'.threads[t].op == th.op && s'.threads[t].res == th.res;
    MarksKept(s, s', t);
  }

  lemma ValidateOk(s: State, t: nat)
    requires Inv(s) && t < |s.threads| && PointersFine(s, s.threads[t])
    requires s.threads[t].pc in {CheckPred, CheckCur, CheckNext, WalkStart, WalkTest, WalkMove, WalkEnd}
    ensures StepOk(s, ValidateStep(s, t), t)
  {
    var th, s' := s.threads[t], ValidateStep(s, t);
    if th.pc in {CheckPred, CheckCur, CheckNext} {
      CheckPlace(s, t);
    } else if th.pc == WalkEnd {
      ReWalkSound(s, t);
    } else {
      ReWalkPlace(s, t);
    }
    ValidateLocks(s, t);
    assert s'.heap == s.heap && s'.clock == s.clock && OnlyMoves(s, s', t) && s'.threads[t].op == th.op && s'.threads[t].res == th.res;
    MarksKept(s, s', t);
  }

  lemma LeaveOk(s: State, t: nat)
    requires Inv(s) && t < |s.threads| && s.threads[t].pc in {UnlockCur, UnlockPred, Finish}
    ensures StepOk(s, LeaveStep(s, t), t)
  {
    LeaveKeeps(s, t);
    MarksKept(s, LeaveStep(s, t), t);
  }

  lemma ChangeOk(s: State, t: nat)
    requires Inv(s) && t < |s.threads| && PointersFine(s, s.threads[t])
    requires s.threads[t].pc in {AddLink, MarkCur, UnlinkWrite}
    ensures StepOk(s, CallbackStep(s, t), t)
  {
    var th, s' := s.threads[t], CallbackStep(s, t);
    assert ThreadOk(s.kind, s.lang, s.heap, th);
    assert OnlyMoves(s, s', t) && s'.threads[t].op == th.op;
    match th.pc {
      case AddLink => LinkStep(s, t);
      case MarkCur => MarkStep(s, t);
      case _ => UnlinkStep(s, t);
    }
    CallbackLocks(s, t);
    CallbackMarks(s, s', t);
  }

  lemma LookOk(s: State, t: nat)
    requires Inv(s) && t < |s.threads| && PointersFine(s, s.threads[t])
    requires s.threads[t].pc in {Act, AddRead, UnlinkRead}
    ensures StepOk(s, CallbackStep(s, t), t)
  {
    var th, s' := s.threads[t], CallbackStep(s, t);
    assert ThreadOk(s.kind, s.lang, s.heap, th);
    assert OnlyMoves(s, s', t) && s'.threads[t].op == th.op;
    if th.pc == Act {
      ActPlace(s, t);
      ActAnswer(s, t);
    } else {
      ReadStep(s, t);
    }
    CallbackLocks(s, t);
    MarksKept(s, s', t);
  }

  lemma CallbackOk(s: State, t: nat)
    requires Inv(s) && t < |s.threads| && PointersFine(s, s.threads[t])
    requires s.threads[t].pc in {Act, AddRead, AddLink, MarkCur, UnlinkRead, UnlinkWrite}
    ensures StepOk(s, CallbackStep(s, t), t)
  {
    if s.threads[t].pc in {AddLink, MarkCur, UnlinkWrite} {
      ChangeOk(s, t);
    } else {
      LookOk(s, t);
    }
  }

  lemma StepKeepsInv(s: State, s': State, t: nat)
    requires Inv(s) && StepOk(s, s', t)
    ensures Inv(s')
  {
    forall u: nat | u < |s'.threads|
      ensures ThreadOk(s'.kind, s'.lang, s'.heap, s'.threads[u])
    {
      if u != t {
        assert ThreadOk(s.kind, s.lang, s.heap, s.threads[u]);
        forall x | x in HeldBy(s, u)
          ensures x !in HeldBy(s, t)
        {
        }
        ThreadStable(s.kind, s.lang, s.heap, s'.heap, s.clock, HeldBy(s, t), s.threads[u]);
      }
    }
  }

  /** The one step that is neither of these: following a null pointer. */
  lemma CrashOk(s: State, t: nat)
    requires Inv(s) && t < |s.threads| && !PointersFine(s, s.threads[t])
    ensures StepOk(s, Goto(s, t, s.threads[t], Crashed), t)
  {
    var s' := Goto(s, t, s.threads[t], Crashed);
    OnlyReWalkCrashes(s, t);
    assert ThreadOk(s.kind, s.lang, s.heap, s.threads[t]);
    LocksSame(s, s', t);
    MarksKept(s, s', t);
  }

  lemma MoveOk(s: State, t: nat)
    requires Inv(s) && t < |s.threads| && CanStep(s, t)
    ensures StepOk(s, Step(s, t), t) && Inv(Step(s, t))
  {
    var th := s.threads[t];
    if !PointersFine(s, th) {
      CrashOk(s, t);
    } else if th.pc in {Act, AddRead, AddLink, MarkCur, UnlinkRead, UnlinkWrite} {
      CallbackOk(s, t);
    } else if th.pc in {CheckPred, CheckCur, CheckNext, WalkStart, WalkTest, WalkMove, WalkEnd} {
      ValidateOk(s, t);
    } else if th.pc in {UnlockCur, UnlockPred, Finish} {
      LeaveOk(s, t);
    } else {
      FindOk(s, t);
    }
    StepKeepsInv(s, Step(s, t), t);
  }
}
