/** What is true in every state of every run of the list sets. */
module ListSetInvariant {
  import opened Elements
  import opened ListHeap
  import opened ListSets

  // ---- Locks ----

  /** The nodes a thread holds locked, by where it is. */
  function Held(kind: Kind, lang: Lang, th: Thread): set<int>
  {
    match th.pc
    case Idle | Start | LockPair | Finish => {}
    case FirstRead | LockSecond | UnlockPred => {th.pred}
    case LockNext => if th.back == NULL then {th.pred} else {th.back, th.pred}
    case DropOld => {th.back, th.pred, th.cur}
    case Test => if kind == FineGrained then {th.pred, th.cur} else {}
    case Advance =>
      if kind != FineGrained then {} else if lang == Java then {th.cur} else {th.pred, th.cur}
    case _ => {th.pred, th.cur}
  }

  function HeldBy(s: State, t: nat): set<int>
    requires t < |s.threads|
  {
    Held(s.kind, s.lang, s.threads[t])
  }

  ghost predicate LocksOk(s: State)
  {
    && (forall t: nat, x {:trigger x in HeldBy(s, t)} :: t < |s.threads| && x in HeldBy(s, t) ==> x in s.owner && s.owner[x] == t)
    && (forall x {:trigger s.owner[x]} :: x in s.owner ==> s.owner[x] < |s.threads| && x in HeldBy(s, s.owner[x]))
  }

  // ---- Threads ----

  ghost predicate Searching(h: Heap, th: Thread)
  {
    Passed(h, th.op.Key(), th.pred) && Ahead(h, th.op.Key(), th.pred, th.cur)
  }

  /** The walk has stopped here; what it saw may be outdated by now. */
  ghost predicate Stopped(h: Heap, th: Thread)
  {
    Passed(h, th.op.Key(), th.pred) && IsNode(h, th.cur) && Before(h, th.pred, th.cur) && !CanPass(h, th.op.Key(), th.cur)
  }

  /** The walk has stopped at neighbours in the list. */
  ghost predicate Located(h: Heap, th: Thread)
  {
    Stopped(h, th) && Adjacent(h, th.pred, th.cur)
  }

  /** If `p` was taken out, `x` was still in the list at that moment. */
  predicate Outlives(h: Heap, p: int, x: int)
    requires IsNode(h, p)
  {
    IsNode(h, x) && (!h[p].linked ==> h[x].linked || h[p].died < h[x].died)
  }

  ghost predicate ReWalking(h: Heap, lang: Lang, th: Thread)
  {
    && Stopped(h, th) && Outlives(h, th.pred, th.check)
    && (lang == Cpp ==> if th.check == TAIL then th.nxt == NULL
                       else Outlives(h, th.pred, th.nxt) && Before(h, th.check, th.nxt))
  }

  ghost predicate Linked(h: Heap, th: Thread)
    requires IsNode(h, th.pred)
  {
    h[th.pred].linked && h[th.pred].next == th.cur
  }

  ghost predicate ThreadOk(kind: Kind, lang: Lang, h: Heap, th: Thread)
  {
    && PlaceOk(kind, lang, h, th)
    && !th.op.Put?
    && match th.pc
       case UnlinkRead | UnlinkWrite => th.res == if kind == Lazy then Some(Result(true, None)) else None
       case Finish => th.res.Some?
       case UnlockCur | UnlockPred => true
       case _ => th.res.None?
  }

  ghost predicate PlaceOk(kind: Kind, lang: Lang, h: Heap, th: Thread)
  {
    var id := th.op.Key();
    match th.pc
    case Idle | Start | Finish => true
    case Crashed => kind == Optimistic
    case FirstRead => kind == FineGrained && th.pred == HEAD
    case LockNext =>
      && kind == FineGrained && Searching(h, th) && Linked(h, th)
      && (th.back != NULL ==> lang == Cpp && IsNode(h, th.back) && h[th.back].linked && Before(h, th.back, th.pred))
    case ReadAgain => kind == FineGrained && Searching(h, th) && Linked(h, th)
    case DropOld =>
      && kind == FineGrained && Searching(h, th) && Linked(h, th)
      && IsNode(h, th.back) && h[th.back].linked && Before(h, th.back, th.pred)
    case Test => Searching(h, th) && (kind == FineGrained ==> Linked(h, th))
    case DropPred =>
      kind == FineGrained && lang == Java && Searching(h, th) && Linked(h, th) && CanPass(h, id, th.cur)
    case Advance =>
      && Searching(h, th) && CanPass(h, id, th.cur)
      && (kind == FineGrained ==> h[th.cur].linked && (lang == Cpp ==> h[th.pred].linked))
    case LockPair | LockSecond => kind != FineGrained && Stopped(h, th)
    case CheckPred => kind == Lazy && Stopped(h, th)
    case CheckCur => kind == Lazy && Stopped(h, th) && !h[th.pred].deleted
    case CheckNext => kind == Lazy && Stopped(h, th) && !h[th.pred].deleted && !h[th.cur].deleted
    case WalkStart => kind == Optimistic && Stopped(h, th)
    case WalkTest | WalkEnd => kind == Optimistic && ReWalking(h, lang, th)
    case WalkMove => kind == Optimistic && ReWalking(h, lang, th) && th.check != TAIL
    case Act => Located(h, th)
    case AddRead => Located(h, th) && th.op.Add? && !Match(h, th.cur, id)
    case AddLink => Located(h, th) && th.op.Add? && !Match(h, th.cur, id) && th.nxt == th.cur
    case MarkCur => kind == Lazy && Located(h, th) && th.op.Remove? && Match(h, th.cur, id)
    case UnlinkRead => Removing(kind, h, th)
    case UnlinkWrite => Removing(kind, h, th) && th.nxt == h[th.cur].next
    case UnlockCur =>
      && IsNode(h, th.pred) && IsNode(h, th.cur) && th.pred != th.cur
      && (kind == FineGrained ==> h[th.pred].linked && (h[th.cur].linked || HasRemoved(th)))
    case UnlockPred =>
      IsNode(h, th.pred) && IsNode(h, th.cur) && th.pred != th.cur && (kind == FineGrained ==> h[th.pred].linked)
  }

  predicate HasRemoved(th: Thread)
  {
    th.op.Remove? && th.res == Some(Result(true, None))
  }

  /** `cur` is about to be taken out; only LazySet has marked it first. */
  ghost predicate Removing(kind: Kind, h: Heap, th: Thread)
  {
    && Stopped(h, th) && th.op.Remove? && Match(h, th.cur, th.op.Key())
    && h[th.pred].linked && h[th.pred].next == th.cur && h[th.cur].linked && !h[th.pred].deleted
    && (h[th.cur].deleted <==> kind == Lazy)
  }

  // ---- Marks ----

  /** Only LazySet marks; there, a node is marked from shortly before it is taken out, by a thread that holds
      it locked, and for ever after. */
  ghost predicate MarksOk(s: State)
  {
    if s.kind == Lazy then
      forall i {:trigger s.heap[i]} :: 0 <= i < |s.heap| ==>
        && (!s.heap[i].linked ==> s.heap[i].deleted)
        && (s.heap[i].deleted && s.heap[i].linked ==> i in s.owner && RemovedBy(s, i, s.owner[i]))
    else
      forall i {:trigger s.heap[i]} :: 0 <= i < |s.heap| ==> !s.heap[i].deleted
  }

  predicate RemovedBy(s: State, i: int, t: nat)
  {
    t < |s.threads| && s.threads[t].pc in {UnlinkRead, UnlinkWrite} && s.threads[t].cur == i
  }

  ghost predicate Inv(s: State)
  {
    && HeapOk(s.heap) && DiedBefore(s.heap, s.clock)
    && LocksOk(s) && MarksOk(s)
    && forall t :: 0 <= t < |s.threads| ==> ThreadOk(s.kind, s.lang, s.heap, s.threads[t])
  }

  lemma InitInv(kind: Kind, lang: Lang, n: nat)
    ensures Inv(Init(kind, lang, n))
  {
    var s := Init(kind, lang, n);
    assert forall t: nat :: t < n ==> HeldBy(s, t) == {};
  }

  // ---- Threads are not disturbed by others ----

  lemma OutlivesStable(h: Heap, h': Heap, clock: nat, touched: set<int>, p: int, x: int)
    requires DiedBefore(h, clock) && Evolves(h, h', clock, touched) && IsNode(h, p) && p !in touched && Outlives(h, p, x)
    ensures Outlives(h', p, x)
  {
    assert h'[p] == h[p] && h'[x].key == h[x].key;
  }

  lemma StoppedStable(h: Heap, h': Heap, clock: nat, touched: set<int>, th: Thread)
    requires HeapOk(h) && HeapOk(h') && Evolves(h, h', clock, touched) && Stopped(h, th)
    ensures Stopped(h', th)
  {
    PassedStable(h, h', clock, touched, th.op.Key(), th.pred);
    assert h'[th.cur].key == h[th.cur].key && h'[th.pred].key == h[th.pred].key;
  }

  lemma SearchingStable(h: Heap, h': Heap, clock: nat, touched: set<int>, th: Thread)
    requires HeapOk(h) && HeapOk(h') && Evolves(h, h', clock, touched) && Searching(h, th)
    ensures Searching(h', th)
    ensures CanPass(h', th.op.Key(), th.cur) <==> CanPass(h, th.op.Key(), th.cur)
  {
    PassedStable(h, h', clock, touched, th.op.Key(), th.pred);
    AheadStable(h, h', clock, touched, th.op.Key(), th.pred, th.cur);
    assert h'[th.cur].key == h[th.cur].key && h'[th.pred].key == h[th.pred].key;
  }

  lemma WalkerStable(kind: Kind, lang: Lang, h: Heap, h': Heap, clock: nat, touched: set<int>, th: Thread)
    requires th.pc in {LockNext, ReadAgain, DropOld, Test, DropPred, Advance}
    requires HeapOk(h) && HeapOk(h') && DiedBefore(h, clock) && Evolves(h, h', clock, touched)
    requires ThreadOk(kind, lang, h, th) && Held(kind, lang, th) !! touched
    ensures ThreadOk(kind, lang, h', th)
  {
    SearchingStable(h, h', clock, touched, th);
    if kind == FineGrained {
      if th.pc == LockNext || th.pc == DropOld {
        assert IsNode(h, th.back) ==> h'[th.back].key == h[th.back].key && h'[th.back] == h[th.back];
        assert h'[th.pred] == h[th.pred];
      } else if th.pc == Advance {
        assert h'[th.cur] == h[th.cur] && (lang == Cpp ==> h'[th.pred] == h[th.pred]);
      } else {
        assert h'[th.pred] == h[th.pred];
      }
    }
  }

  lemma ReWalkerStable(kind: Kind, lang: Lang, h: Heap, h': Heap, clock: nat, touched: set<int>, th: Thread)
    requires th.pc in {WalkTest, WalkMove, WalkEnd}
    requires HeapOk(h) && HeapOk(h') && DiedBefore(h, clock) && Evolves(h, h', clock, touched)
    requires ThreadOk(kind, lang, h, th) && Held(kind, lang, th) !! touched
    ensures ThreadOk(kind, lang, h', th)
  {
    StoppedStable(h, h', clock, touched, th);
    OutlivesStable(h, h', clock, touched, th.pred, th.check);
    if lang == Cpp && th.check != TAIL {
      OutlivesStable(h, h', clock, touched, th.pred, th.nxt);
      assert h'[th.check].key == h[th.check].key && h'[th.nxt].key == h[th.nxt].key;
    }
  }

  lemma CheckerStable(kind: Kind, lang: Lang, h: Heap, h': Heap, clock: nat, touched: set<int>, th: Thread)
    requires th.pc in {LockPair, LockSecond, CheckPred, CheckCur, CheckNext, WalkStart}
    requires HeapOk(h) && HeapOk(h') && DiedBefore(h, clock) && Evolves(h, h', clock, touched)
    requires ThreadOk(kind, lang, h, th) && Held(kind, lang, th) !! touched
    ensures ThreadOk(kind, lang, h', th)
  {
    StoppedStable(h, h', clock, touched, th);
    if th.pc != LockPair && th.pc != LockSecond {
      assert h'[th.pred] == h[th.pred] && h'[th.cur] == h[th.cur];
    }
  }

  lemma HolderStable(kind: Kind, lang: Lang, h: Heap, h': Heap, clock: nat, touched: set<int>, th: Thread)
    requires th.pc in {Act, AddRead, AddLink, MarkCur, UnlinkRead, UnlinkWrite}
    requires HeapOk(h) && HeapOk(h') && DiedBefore(h, clock) && Evolves(h, h', clock, touched)
    requires ThreadOk(kind, lang, h, th) && Held(kind, lang, th) !! touched
    ensures ThreadOk(kind, lang, h', th)
  {
    StoppedStable(h, h', clock, touched, th);
    assert h'[th.pred] == h[th.pred] && h'[th.cur] == h[th.cur];
  }

  lemma ThreadStable(kind: Kind, lang: Lang, h: Heap, h': Heap, clock: nat, touched: set<int>, th: Thread)
    requires HeapOk(h) && HeapOk(h') && DiedBefore(h, clock) && Evolves(h, h', clock, touched)
    requires ThreadOk(kind, lang, h, th) && Held(kind, lang, th) !! touched
    ensures ThreadOk(kind, lang, h', th)
  {
    if th.pc in {LockNext, ReadAgain, DropOld, Test, DropPred, Advance} {
      WalkerStable(kind, lang, h, h', clock, touched, th);
    } else if th.pc in {WalkTest, WalkMove, WalkEnd} {
      ReWalkerStable(kind, lang, h, h', clock, touched, th);
    } else if th.pc in {LockPair, LockSecond, CheckPred, CheckCur, CheckNext, WalkStart} {
      CheckerStable(kind, lang, h, h', clock, touched, th);
    } else if th.pc !in {Idle, Start, Finish, Crashed, FirstRead, UnlockCur, UnlockPred} {
      HolderStable(kind, lang, h, h', clock, touched, th);
    }
  }
}
