/** A call that runs while nobody else holds a lock or moves succeeds at its first attempt. */
module Undisturbed {
  import opened Elements
  import opened ListHeap
  import opened ListSets
  import opened ListSetInvariant
  import opened ListSetSteps
  import opened ListSetTheorems
  import opened ListSetSafety

  /** Nobody but `t` holds a lock. */
  ghost predicate Quiet(s: State, t: nat)
  {
    forall u: nat {:trigger HeldBy(s, u)} :: u < |s.threads| && u != t ==> HeldBy(s, u) == {}
  }

  /** The state after `k` steps of `t` alone, none of them a failed validation. */
  ghost function AfterAlone(s: State, t: nat, k: nat): Option<State>
    decreases k
  {
    if k == 0 then Some(s)
    else if CanGoOn(s, t) then AfterAlone(Step(s, t), t, k - 1)
    else None
  }

  predicate CanGoOn(s: State, t: nat)
  {
    2 <= |s.heap| && t < |s.threads| && CanStep(s, t) && !(s.threads[t].pc == UnlockCur && s.threads[t].res.None?)
  }

  /** Where the call stands: its two nodes are neighbours in the list, and its re-walk is on the way to the first. */
  ghost predicate OnTrack(s: State, t: nat)
    requires t < |s.threads|
  {
    var h, th := s.heap, s.threads[t];
    match th.pc
    case Idle | Crashed => false
    case Start | FirstRead | UnlinkRead | UnlinkWrite | Finish => true
    case UnlockCur | UnlockPred => th.res.Some?
    case WalkTest => Neighbours(h, th.pred, th.cur) && Towards(s, th)
    case WalkMove => Neighbours(h, th.pred, th.cur) && Towards(s, th) && th.check != th.pred
    case WalkEnd => Neighbours(h, th.pred, th.cur) && th.check == th.pred
    case _ => Neighbours(h, th.pred, th.cur)
  }

  /** Both nodes are in the list, one behind the other; somebody may be about to take one out. */
  predicate Neighbours(h: Heap, p: int, c: int)
  {
    IsNode(h, p) && IsNode(h, c) && p != TAIL && h[p].linked && h[c].linked && h[p].next == c
  }

  predicate Towards(s: State, th: Thread)
  {
    && IsNode(s.heap, th.pred) && IsNode(s.heap, th.check) && s.heap[th.check].linked
    && (th.check == th.pred || Before(s.heap, th.check, th.pred))
    && th.check != TAIL && (s.lang == Cpp ==> th.nxt == s.heap[th.check].next)
  }

  function Rank(pc: Pc): nat
  {
    match pc
    case Start => 40
    case FirstRead => 39
    case LockNext | ReadAgain | DropOld | Test | DropPred | Advance => 30
    case LockPair => 29
    case LockSecond => 28
    case CheckPred => 27
    case CheckCur => 26
    case CheckNext => 25
    case WalkStart => 24
    case WalkTest | WalkMove => 20
    case WalkEnd => 19
    case Act => 18
    case AddRead => 17
    case AddLink => 16
    case MarkCur => 15
    case UnlinkRead => 14
    case UnlinkWrite => 13
    case UnlockCur => 12
    case UnlockPred => 11
    case Finish => 10
    case Idle | Crashed => 0
  }

  /** Within a walk: the nodes still to the right, then the steps until the next one is read. */
  function Ahead2(s: State, th: Thread): set<int>
  {
    if Rank(th.pc) == 30 && IsNode(s.heap, th.cur) then After(s.heap, th.cur)
    else if Rank(th.pc) == 20 && IsNode(s.heap, th.check) then After(s.heap, th.check)
    else {}
  }

  function Within(pc: Pc): nat
  {
    match pc
    case LockNext => 5
    case ReadAgain | DropOld => 4
    case Test => 3
    case DropPred => 2
    case Advance => 1
    case WalkTest => 2
    case WalkMove => 1
    case _ => 0
  }

  lemma QuietCanStep(s: State, t: nat)
    requires Inv(s) && Quiet(s, t) && t < |s.threads| && s.threads[t].pc !in {Idle, Crashed}
    ensures CanStep(s, t)
  {
    if !CanStep(s, t) {
      var x := BlockedWants(s, t);
      assert x in HeldBy(s, s.owner[x]);
      HoldsBelow(s, t, x, x);
    }
  }

  /** Whoever holds a linked node locked and is not in the middle of removing it finds it unmarked. */
  lemma HeldUnmarked(s: State, t: nat, x: int)
    requires Inv(s) && t < |s.threads| && x in HeldBy(s, t) && s.threads[t].pc !in {UnlinkRead, UnlinkWrite}
    requires IsNode(s.heap, x) && s.heap[x].linked
    ensures !s.heap[x].deleted
  {
    assert s.owner[x] == t;
  }

  /** A test of the re-walk, undisturbed: it goes on before `pred` and stops at `pred`, equal keys or not. */
  lemma ReWalkExact(s: State, t: nat)
    requires Inv(s) && t < |s.threads| && s.threads[t].pc == WalkTest && OnTrack(s, t)
    ensures PointersFine(s, s.threads[t])
    ensures Step(s, t).threads[t].pc == if s.threads[t].check == s.threads[t].pred then WalkEnd else WalkMove
  {
    var h, th := s.heap, s.threads[t];
    assert ThreadOk(s.kind, s.lang, h, th);
    var w := h[th.check].next;
    assert IsNode(h, w) && h[w].linked && Before(h, th.check, w);
    if th.check != th.pred && SameValue(h[w].value, h[th.cur].value) {
      if h[w].value.Some? {
        assert Holds(h, w, h[w].value.value.id) && Holds(h, th.cur, h[w].value.value.id);
      }
      OnlyPredecessor(h, th.pred, th.cur, th.check);
    }
  }

  /** The call has come closer to its end. */
  ghost predicate Closer(s: State, s': State, t: nat)
    requires t < |s.threads| && t < |s'.threads|
  {
    var th, th' := s.threads[t], s'.threads[t];
    || Rank(th'.pc) < Rank(th.pc)
    || (Rank(th'.pc) == Rank(th.pc) &&
        (Ahead2(s', th') < Ahead2(s, th) || (Ahead2(s', th') == Ahead2(s, th) && Within(th'.pc) < Within(th.pc))))
  }

  lemma FirstAlone(s: State, t: nat)
    requires Inv(s) && t < |s.threads| && CanStep(s, t) && OnTrack(s, t) && PointersFine(s, s.threads[t])
    requires s.threads[t].pc in {Start, FirstRead}
    ensures OnTrack(FindStep(s, t), t) && Closer(s, FindStep(s, t), t)
  {
    assert ThreadOk(s.kind, s.lang, s.heap, s.threads[t]);
  }

  lemma AdvanceAlone(s: State, t: nat)
    requires Inv(s) && t < |s.threads| && CanStep(s, t) && OnTrack(s, t) && PointersFine(s, s.threads[t])
    requires s.threads[t].pc == Advance
    ensures OnTrack(FindStep(s, t), t) && Closer(s, FindStep(s, t), t)
  {
    var h, th := s.heap, s.threads[t];
    assert ThreadOk(s.kind, s.lang, h, th);
    var w := h[th.cur].next;
    assert IsNode(h, w) && Before(h, th.cur, w);
    AfterShrinks(h, th.cur, w);
  }

  lemma FindAlone(s: State, t: nat)
    requires Inv(s) && t < |s.threads| && CanStep(s, t) && OnTrack(s, t) && PointersFine(s, s.threads[t])
    requires s.threads[t].pc in {LockNext, ReadAgain, DropOld, Test, DropPred, LockPair, LockSecond}
    ensures OnTrack(FindStep(s, t), t) && Closer(s, FindStep(s, t), t)
  {
    var h, th := s.heap, s.threads[t];
    assert ThreadOk(s.kind, s.lang, h, th);
    if th.pc == Test {
      TestAgrees(h, th.op.Key(), th.cur);
    }
  }

  lemma CheckAlone(s: State, t: nat)
    requires Inv(s) && t < |s.threads| && OnTrack(s, t) && PointersFine(s, s.threads[t])
    requires s.threads[t].pc in {CheckPred, CheckCur, CheckNext}
    ensures OnTrack(ValidateStep(s, t), t) && Closer(s, ValidateStep(s, t), t)
  {
    var th := s.threads[t];
    assert ThreadOk(s.kind, s.lang, s.heap, th);
    HeldUnmarked(s, t, th.pred);
    HeldUnmarked(s, t, th.cur);
  }

  lemma ReWalkAlone(s: State, t: nat)
    requires Inv(s) && t < |s.threads| && OnTrack(s, t) && PointersFine(s, s.threads[t])
    requires s.threads[t].pc in {WalkStart, WalkEnd}
    ensures OnTrack(ValidateStep(s, t), t) && Closer(s, ValidateStep(s, t), t)
  {
    assert ThreadOk(s.kind, s.lang, s.heap, s.threads[t]);
  }

  lemma TestAlone(s: State, t: nat)
    requires Inv(s) && t < |s.threads| && OnTrack(s, t) && PointersFine(s, s.threads[t])
    requires s.threads[t].pc == WalkTest
    ensures OnTrack(ValidateStep(s, t), t) && Closer(s, ValidateStep(s, t), t)
  {
    ReWalkExact(s, t);
  }

  lemma ReWalkOn(s: State, t: nat)
    requires Inv(s) && t < |s.threads| && OnTrack(s, t) && PointersFine(s, s.threads[t])
    requires s.threads[t].pc == WalkMove
    ensures OnTrack(ValidateStep(s, t), t) && Closer(s, ValidateStep(s, t), t)
  {
    var h, th := s.heap, s.threads[t];
    var w := h[th.check].next;
    assert IsNode(h, w) && h[w].linked && Before(h, th.check, w) && !Skips(h, th.check, th.pred);
    AfterShrinks(h, th.check, w);
  }

  /** The steps of a callback before its last, and the last one. */
  lemma LookAlone(s: State, t: nat)
    requires 2 <= |s.heap| && t < |s.threads| && PointersFine(s, s.threads[t])
    requires s.threads[t].pc in {Act, AddRead, MarkCur, UnlinkRead} && ThreadOk(s.kind, s.lang, s.heap, s.threads[t])
    requires var s' := CallbackStep(s, t); ThreadOk(s'.kind, s'.lang, s'.heap, s'.threads[t])
    ensures OnTrack(CallbackStep(s, t), t) && Closer(s, CallbackStep(s, t), t)
  {
    var th, th' := s.threads[t], CallbackStep(s, t).threads[t];
    assert th.pc == Act ==> th'.pc in {AddRead, MarkCur, UnlinkRead, UnlockCur};
  }

  lemma ChangeAlone(s: State, t: nat)
    requires 2 <= |s.heap| && t < |s.threads| && PointersFine(s, s.threads[t])
    requires s.threads[t].pc in {AddLink, UnlinkWrite} && ThreadOk(s.kind, s.lang, s.heap, s.threads[t])
    ensures OnTrack(CallbackStep(s, t), t) && Closer(s, CallbackStep(s, t), t)
  {
  }

  lemma CallbackAlone(s: State, t: nat)
    requires Inv(s) && t < |s.threads| && PointersFine(s, s.threads[t])
    requires s.threads[t].pc in {Act, AddRead, AddLink, MarkCur, UnlinkRead, UnlinkWrite}
    requires StepOk(s, CallbackStep(s, t), t)
    ensures OnTrack(CallbackStep(s, t), t) && Closer(s, CallbackStep(s, t), t)
  {
    assert ThreadOk(s.kind, s.lang, s.heap, s.threads[t]);
    if s.threads[t].pc in {AddLink, UnlinkWrite} {
      ChangeAlone(s, t);
    } else {
      LookAlone(s, t);
    }
  }

  lemma LeaveAlone(s: State, t: nat)
    requires Inv(s) && t < |s.threads| && s.threads[t].pc in {UnlockCur, UnlockPred} && OnTrack(s, t)
    ensures OnTrack(LeaveStep(s, t), t) && Closer(s, LeaveStep(s, t), t)
  {
  }

  /** What is left to do: either the operation still has to happen to `m`, or it has happened and its answer is known. */
  ghost predicate Promise(s: State, t: nat, m: Contents)
    requires t < |s.threads|
  {
    var th := s.threads[t];
    if th.res.None? then ContentsOf(s.heap) == m else (ContentsOf(s.heap), th.res.value) == Apply(m, th.op)
  }

  lemma PromiseKept(s: State, s': State, t: nat, m: Contents)
    requires Quiet(s, t) && StepOk(s, s', t) && Promise(s, t, m) && s.threads[t].pc != Finish
    ensures Quiet(s', t) && Promise(s', t, m)
  {
    assert forall u: nat :: u < |s.threads| && u != t ==> HeldBy(s', u) == HeldBy(s, u);
  }

  lemma PointersAlone(s: State, t: nat)
    requires Inv(s) && t < |s.threads| && OnTrack(s, t)
    ensures PointersFine(s, s.threads[t])
  {
    if s.threads[t].pc == WalkTest {
      ReWalkExact(s, t);
    } else if !PointersFine(s, s.threads[t]) {
      OnlyReWalkCrashes(s, t);
    }
  }

  /** The steps of the search, up to the locks. */
  lemma SearchAlone(s: State, t: nat)
    requires Inv(s) && t < |s.threads| && OnTrack(s, t) && CanStep(s, t) && PointersFine(s, s.threads[t])
    requires s.threads[t].pc in {Start, FirstRead, LockNext, ReadAgain, DropOld, Test, DropPred, Advance, LockPair, LockSecond}
    ensures OnTrack(FindStep(s, t), t) && Closer(s, FindStep(s, t), t)
  {
    if s.threads[t].pc in {Start, FirstRead} {
      FirstAlone(s, t);
    } else if s.threads[t].pc == Advance {
      AdvanceAlone(s, t);
    } else {
      FindAlone(s, t);
    }
  }

  lemma ValidateAlone(s: State, t: nat)
    requires Inv(s) && t < |s.threads| && OnTrack(s, t) && PointersFine(s, s.threads[t])
    requires s.threads[t].pc in {CheckPred, CheckCur, CheckNext, WalkStart, WalkTest, WalkMove, WalkEnd}
    ensures OnTrack(ValidateStep(s, t), t) && Closer(s, ValidateStep(s, t), t)
  {
    if s.threads[t].pc in {CheckPred, CheckCur, CheckNext} {
      CheckAlone(s, t);
    } else if s.threads[t].pc == WalkMove {
      ReWalkOn(s, t);
    } else if s.threads[t].pc == WalkTest {
      TestAlone(s, t);
    } else {
      ReWalkAlone(s, t);
    }
  }

  lemma TrackAlone(s: State, t: nat)
    requires Inv(s) && t < |s.threads| && OnTrack(s, t) && s.threads[t].pc != Finish
    requires CanStep(s, t) && StepOk(s, Step(s, t), t)
    ensures OnTrack(Step(s, t), t) && Closer(s, Step(s, t), t)
  {
    var th := s.threads[t];
    PointersAlone(s, t);
    if th.pc in {CheckPred, CheckCur, CheckNext, WalkStart, WalkTest, WalkMove, WalkEnd} {
      ValidateAlone(s, t);
    } else if th.pc in {Act, AddRead, AddLink, MarkCur, UnlinkRead, UnlinkWrite} {
      CallbackAlone(s, t);
    } else if th.pc in {UnlockCur, UnlockPred} {
      LeaveAlone(s, t);
    } else {
      SearchAlone(s, t);
    }
  }

  /** One step closer, with everything kept that the way to the end needs. */
  lemma OneStep(s: State, t: nat, m: Contents) returns (s1: State)
    requires InCall(s, t, m) && s.threads[t].pc != Finish
    ensures InCall(s1, t, m) && OnlyMoves(s, s1, t) && s1.threads[t].op == s.threads[t].op && Closer(s, s1, t)
    ensures CanGoOn(s, t) && s1 == Step(s, t)
    ensures s.kind != FineGrained && Rank(s.threads[t].pc) > Rank(LockPair) ==> Rank(s1.threads[t].pc) >= Rank(LockPair)
  {
    QuietCanStep(s, t);
    s1 := Step(s, t);
    MoveOk(s, t);
    TrackAlone(s, t);
    PromiseKept(s, s1, t, m);
    if s.kind != FineGrained && Rank(s.threads[t].pc) > Rank(LockPair) {
      WalkEndsThere(s, t);
    }
  }

  /** A call in progress, undisturbed. */
  ghost predicate InCall(s: State, t: nat, m: Contents)
  {
    Inv(s) && Quiet(s, t) && t < |s.threads| && OnTrack(s, t) && Promise(s, t, m)
  }

  ghost function Calls(t: nat, m: Contents): iset<State>
  {
    iset s: State | InCall(s, t, m)
  }

  /** Alone, the call gets to `stop`: the end of its walk, or its end. */
  lemma {:induction false} GetsTo(s: State, t: nat, m: Contents, stop: Pc) returns (k: nat, s': State)
    requires InCall(s, t, m)
    requires stop == Finish || (stop == LockPair && s.kind != FineGrained && Rank(stop) <= Rank(s.threads[t].pc))
    ensures AfterAlone(s, t, k) == Some(s') && InCall(s', t, m) && s'.threads[t].pc == stop
    ensures OnlyMoves(s, s', t) && s'.threads[t].op == s.threads[t].op
    decreases Rank(s.threads[t].pc), Ahead2(s, s.threads[t]), Within(s.threads[t].pc)
  {
    if s.threads[t].pc == stop {
      k, s' := 0, s;
    } else {
      var s1 := OneStep(s, t, m);
      k, s' := GetsTo(s1, t, m, stop);
      k := k + 1;
    }
  }

  /** The walk of LazySet and OptimisticSet leads nowhere but to locking. */
  lemma WalkEndsThere(s: State, t: nat)
    requires Inv(s) && t < |s.threads| && CanStep(s, t) && s.kind != FineGrained
    requires Rank(s.threads[t].pc) > Rank(LockPair)
    ensures Rank(Step(s, t).threads[t].pc) >= Rank(LockPair)
  {
    assert ThreadOk(s.kind, s.lang, s.heap, s.threads[t]);
  }

  /** In any run, a call that starts while nobody holds a lock, and then runs alone, returns at its first attempt
      with the answer and the effect of the operation. */
  lemma FirstAttempt(kind: Kind, lang: Lang, n: nat, es: seq<Event>, t: nat) returns (k: nat, s': State)
    requires Run(Init(kind, lang, n), es).Some? && t < |Run(Init(kind, lang, n), es).value.0.threads|
    requires var s := Run(Init(kind, lang, n), es).value.0;
             s.threads[t].pc == Start && s.owner == map[]
    ensures var s := Run(Init(kind, lang, n), es).value.0;
            && AfterAlone(s, t, k) == Some(s') && |s'.threads| == |s.threads|
            && s'.threads[t].pc == Finish && s'.threads[t].res.Some?
            && (Abstract(s').contents, s'.threads[t].res.value) == Apply(Abstract(s).contents, s.threads[t].op)
  {
    InitInv(kind, lang, n);
    RunOk(Init(kind, lang, n), es);
    var s := Run(Init(kind, lang, n), es).value.0;
    assert Quiet(s, t) by {
      forall u: nat | u < |s.threads|
        ensures HeldBy(s, u) == {}
      {
        assert forall x :: x in HeldBy(s, u) ==> x in s.owner;
      }
    }
    assert ThreadOk(s.kind, s.lang, s.heap, s.threads[t]);
    k, s' := GetsTo(s, t, ContentsOf(s.heap), Finish);
    assert ThreadOk(s'.kind, s'.lang, s'.heap, s'.threads[t]);
  }
}
