/** What the re-walk of OptimisticSet decides when nobody interferes, also on a pair that is outdated by now. */
module ReWalk {
  import opened Elements
  import opened ListHeap
  import opened ListSets
  import opened ListSetInvariant
  import opened ListSetSteps
  import opened ListSetTheorems
  import opened ListSetSafety
  import opened Undisturbed

  /** The loop's condition at node `x`, on the list as it is. */
  predicate GoesFurther(h: Heap, p: int, c: int, x: int)
    requires IsNode(h, p) && IsNode(h, c) && IsNode(h, x)
  {
    || h[x].key < h[p].key
    || (h[x].key == h[p].key && IsNode(h, h[x].next) && !SameValue(h[h[x].next].value, h[c].value))
  }

  /** `p` and `c` are in the list, one behind the other. */
  predicate StillThere(h: Heap, p: int, c: int)
    requires IsNode(h, p)
  {
    h[p].linked && h[p].next == c
  }

  /** The loop finds no node to stop at. */
  ghost predicate NowhereToStop(h: Heap, p: int, c: int)
    requires IsNode(h, p) && IsNode(h, c)
  {
    h[p].key == SIZE_MAX && forall y :: IsNode(h, y) && y != TAIL && h[y].linked ==> GoesFurther(h, p, c, y)
  }

  /** The loop has gone on at every node before `check`, which is in the list. */
  ghost predicate SoFar(s: State, t: nat)
    requires t < |s.threads|
  {
    var h, th := s.heap, s.threads[t];
    && th.pc in {WalkTest, WalkMove, WalkEnd}
    && IsNode(h, th.pred) && IsNode(h, th.cur) && IsNode(h, th.check) && h[th.check].linked
    && (s.lang == Cpp ==> th.nxt == h[th.check].next)
    && (forall y :: IsNode(h, y) && h[y].linked && Before(h, y, th.check) ==> GoesFurther(h, th.pred, th.cur, y))
    && (th.pc == WalkMove ==> th.check != TAIL && GoesFurther(h, th.pred, th.cur, th.check))
    && (th.pc == WalkEnd ==>
          && !GoesFurther(h, th.pred, th.cur, th.check)
          && (th.check == TAIL ==> h[th.pred].key < SIZE_MAX))
  }

  /** The same nodes, the same pair. */
  predicate SamePair(s: State, s': State, t: nat)
    requires t < |s.threads|
  {
    && s'.heap == s.heap && OnlyMoves(s, s', t)
    && s'.threads[t].pred == s.threads[t].pred && s'.threads[t].cur == s.threads[t].cur
  }

  lemma StartOn(s: State, t: nat)
    requires Inv(s) && t < |s.threads| && s.threads[t].pc == WalkStart
    ensures SamePair(s, Step(s, t), t) && SoFar(Step(s, t), t) && CanGoOn(s, t)
  {
    assert ThreadOk(s.kind, s.lang, s.heap, s.threads[t]);
  }

  lemma TestOn(s: State, t: nat)
    requires HeapOk(s.heap) && t < |s.threads| && s.threads[t].pc == WalkTest && SoFar(s, t) && PointersFine(s, s.threads[t])
    ensures SamePair(s, ValidateStep(s, t), t) && SoFar(ValidateStep(s, t), t)
    ensures ValidateStep(s, t).threads[t].pc != WalkTest && ValidateStep(s, t).threads[t].check == s.threads[t].check
  {
    var h, x := s.heap, s.threads[t].check;
    assert x != TAIL ==> IsNode(h, h[x].next);
  }

  lemma MoveOn(s: State, t: nat)
    requires HeapOk(s.heap) && t < |s.threads| && s.threads[t].pc == WalkMove && SoFar(s, t) && PointersFine(s, s.threads[t])
    ensures SamePair(s, ValidateStep(s, t), t) && SoFar(ValidateStep(s, t), t)
    ensures After(s.heap, ValidateStep(s, t).threads[t].check) < After(s.heap, s.threads[t].check)
  {
    var h, th := s.heap, s.threads[t];
    var x, w := th.check, h[th.check].next;
    assert IsNode(h, w) && h[w].linked && Before(h, x, w);
    AfterShrinks(h, x, w);
    forall y | IsNode(h, y) && h[y].linked && Before(h, y, w)
      ensures GoesFurther(h, th.pred, th.cur, y)
    {
      assert !Skips(h, x, y);
    }
  }

  /** The loop has stopped: it accepts exactly a pair that is still there. */
  lemma EndOn(s: State, t: nat)
    requires Inv(s) && t < |s.threads| && s.threads[t].pc == WalkEnd && SoFar(s, t)
    ensures PointersFine(s, s.threads[t]) && SamePair(s, ValidateStep(s, t), t)
    ensures var (h, th) := (s.heap, s.threads[t]);
            && ValidateStep(s, t).threads[t].pc == (if StillThere(h, th.pred, th.cur) then Act else UnlockCur)
            && !NowhereToStop(h, th.pred, th.cur)
  {
    var h, th := s.heap, s.threads[t];
    assert ThreadOk(s.kind, s.lang, h, th);
    if StillThere(h, th.pred, th.cur) && th.check != th.pred {
      StopsAtPred(h, th.pred, th.cur, th.check);
    }
  }

  /** Before a `pred` that is still there the loop does not stop, and behind it it does not get. */
  lemma StopsAtPred(h: Heap, p: int, c: int, x: int)
    requires HeapOk(h) && IsNode(h, p) && p != TAIL && IsNode(h, c) && IsNode(h, x) && h[x].linked && x != p
    requires StillThere(h, p, c) && !GoesFurther(h, p, c, x)
    ensures Before(h, p, x) && !GoesFurther(h, p, c, p)
  {
    if Before(h, x, p) {
      var w := h[x].next;
      assert IsNode(h, w) && h[w].linked && Before(h, x, w);
      if h[w].value.Some? {
        assert Holds(h, w, h[w].value.value.id) && Holds(h, c, h[w].value.value.id);
      }
      OnlyPredecessor(h, p, c, x);
    }
  }

  /** At the tail, with the largest key, there was nowhere to stop. */
  lemma CrashOn(s: State, t: nat)
    requires Inv(s) && t < |s.threads| && SoFar(s, t) && !PointersFine(s, s.threads[t])
    ensures SamePair(s, Step(s, t), t) && Step(s, t).threads[t].pc == Crashed
    ensures NowhereToStop(s.heap, s.threads[t].pred, s.threads[t].cur)
    ensures !StillThere(s.heap, s.threads[t].pred, s.threads[t].cur)
  {
    var h, th := s.heap, s.threads[t];
    OnlyReWalkCrashes(s, t);
    assert forall y :: IsNode(h, y) && y != TAIL ==> Before(h, y, TAIL);
    assert h[th.pred].linked ==> GoesFurther(h, th.pred, th.cur, th.pred);
  }

  /** What the re-walk comes to. */
  ghost predicate Verdict(s: State, s': State, t: nat)
    requires t < |s.threads|
  {
    var h, th := s.heap, s.threads[t];
    && SamePair(s, s', t) && IsNode(h, th.pred) && IsNode(h, th.cur)
    && s'.threads[t].pc in {Act, UnlockCur, Crashed}
    && (s'.threads[t].pc == Act <==> StillThere(h, th.pred, th.cur))
    && (s'.threads[t].pc == Crashed <==> NowhereToStop(h, th.pred, th.cur))
  }

  /** The last step of the re-walk. */
  lemma LastOn(s: State, t: nat)
    requires Inv(s) && t < |s.threads| && SoFar(s, t)
    requires s.threads[t].pc == WalkEnd || !PointersFine(s, s.threads[t])
    ensures CanGoOn(s, t) && Verdict(s, Step(s, t), t)
  {
    if PointersFine(s, s.threads[t]) {
      EndOn(s, t);
    } else {
      CrashOn(s, t);
    }
  }

  /** Any other step. */
  lemma OneOn(s: State, t: nat)
    requires Inv(s) && t < |s.threads| && SoFar(s, t)
    requires s.threads[t].pc != WalkEnd && PointersFine(s, s.threads[t])
    ensures CanGoOn(s, t) && SamePair(s, Step(s, t), t) && SoFar(Step(s, t), t)
    ensures var (x, th') := (s.threads[t].check, Step(s, t).threads[t]);
            || After(s.heap, th'.check) < After(s.heap, x)
            || (th'.check == x && s.threads[t].pc == WalkTest && th'.pc != WalkTest)
  {
    if s.threads[t].pc == WalkTest {
      TestOn(s, t);
    } else {
      MoveOn(s, t);
    }
  }

  lemma VerdictBefore(s: State, s1: State, s': State, t: nat)
    requires t < |s.threads| && SamePair(s, s1, t) && Verdict(s1, s', t)
    ensures Verdict(s, s', t)
  {
  }

  ghost function Underway(t: nat): iset<State>
  {
    iset s: State | t < |s.threads| && Inv(s) && SoFar(s, t)
  }

  /** A step after which the re-walk is still under way, and closer to its end. */
  lemma StepOn(s: State, t: nat) returns (s1: State)
    requires s in Underway(t) && t < |s.threads| && IsNode(s.heap, s.threads[t].check)
    requires s.threads[t].pc != WalkEnd && PointersFine(s, s.threads[t])
    ensures s1 in Underway(t) && CanGoOn(s, t) && s1 == Step(s, t) && SamePair(s, s1, t)
    ensures IsNode(s.heap, s1.threads[t].check)
    ensures var (x, th') := (s.threads[t].check, s1.threads[t]);
            || After(s.heap, th'.check) < After(s.heap, x)
            || (th'.check == x && s.threads[t].pc == WalkTest && th'.pc != WalkTest)
  {
    OneOn(s, t);
    MoveOk(s, t);
    s1 := Step(s, t);
  }

  lemma AfterOne(s: State, t: nat)
    requires CanGoOn(s, t)
    ensures AfterAlone(s, t, 1) == Some(Step(s, t))
  {
    assert AfterAlone(Step(s, t), t, 0) == Some(Step(s, t));
  }

  lemma {:induction false} Halts(s: State, t: nat) returns (k: nat, s': State)
    requires s in Underway(t) && t < |s.threads| && IsNode(s.heap, s.threads[t].check)
    ensures AfterAlone(s, t, k) == Some(s') && Verdict(s, s', t)
    decreases After(s.heap, s.threads[t].check), s.threads[t].pc == WalkTest
  {
    if s.threads[t].pc == WalkEnd || !PointersFine(s, s.threads[t]) {
      LastOn(s, t);
      AfterOne(s, t);
      k, s' := 1, Step(s, t);
    } else {
      var s1 := StepOn(s, t);
      k, s' := Halts(s1, t);
      VerdictBefore(s, s1, s', t);
      k := k + 1;
    }
  }

  lemma Begins(s: State, t: nat) returns (s1: State)
    requires Inv(s) && t < |s.threads| && s.threads[t].pc == WalkStart
    ensures s1 in Underway(t) && CanGoOn(s, t) && s1 == Step(s, t) && SamePair(s, s1, t)
    ensures IsNode(s.heap, s1.threads[t].check)
  {
    StartOn(s, t);
    MoveOk(s, t);
    s1 := Step(s, t);
  }

  /** In any run, a re-walk that is left alone halts without touching the list. It accepts exactly when `pred` is
      reachable and its pointer leads to `cur`, even if the pair is long outdated; and it follows the null pointer
      exactly when `pred` has the largest key and no node of the list offers a place to stop. */
  lemma Decides(lang: Lang, n: nat, es: seq<Event>, t: nat) returns (k: nat, s': State)
    requires Run(Init(Optimistic, lang, n), es).Some? && t < |Run(Init(Optimistic, lang, n), es).value.0.threads|
    requires Run(Init(Optimistic, lang, n), es).value.0.threads[t].pc == WalkStart
    ensures var s := Run(Init(Optimistic, lang, n), es).value.0; var (h, th) := (s.heap, s.threads[t]);
            && AfterAlone(s, t, k) == Some(s') && s'.heap == h && |s'.threads| == |s.threads|
            && IsNode(h, th.pred) && IsNode(h, th.cur)
            && s'.threads[t].pc in {Act, UnlockCur, Crashed}
            && (s'.threads[t].pc == Act <==> Reachable(h, th.pred) && h[th.pred].next == th.cur)
            && (s'.threads[t].pc == Crashed <==> NowhereToStop(h, th.pred, th.cur))
  {
    InitInv(Optimistic, lang, n);
    RunOk(Init(Optimistic, lang, n), es);
    var s := Run(Init(Optimistic, lang, n), es).value.0;
    var s1 := Begins(s, t);
    k, s' := Halts(s1, t);
    VerdictBefore(s, s1, s', t);
    k := k + 1;
    LinkedIffReachable(s.heap, s.threads[t].pred);
  }
}
