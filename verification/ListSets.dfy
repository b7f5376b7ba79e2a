/** The three list sets (sets/LazySet, sets/OptimisticSet, sets/FineGrainedSet) as one step system.
    Any number of threads call operations; one step is one access to shared memory (a pointer, a mark or a
    lock), and every interleaving of steps is a run. `Kind` picks the algorithm, `Lang` the C++ or the Java
    text where the two order their accesses differently. */
module ListSets {
  import opened Elements
  import opened ListHeap

  datatype Kind = Lazy | Optimistic | FineGrained

  datatype Lang = Cpp | Java

  datatype Pc =
    | Idle | Start | Finish | Crashed
      // the walk to `current`
    | FirstRead | LockNext | ReadAgain | DropOld | Test | DropPred | Advance
      // locking and validating what the walk found
    | LockPair | LockSecond
    | CheckPred | CheckCur | CheckNext
    | WalkStart | WalkTest | WalkMove | WalkEnd
      // the callback
    | Act | AddRead | AddLink | MarkCur | UnlinkRead | UnlinkWrite
    | UnlockCur | UnlockPred

  /** The local variables of one call. `nxt` is whatever pointer was read last for later use: the re-walk's
      `next`, or the pointer about to be stored. */
  datatype Thread = Thread(pc: Pc, op: Op, pred: int, cur: int, back: int, check: int, nxt: int, res: Option<Result>)

  datatype State = State(kind: Kind, lang: Lang, heap: Heap, clock: nat, owner: map<int, nat>, threads: seq<Thread>)

  function Init(kind: Kind, lang: Lang, n: nat): State
  {
    var idle := Thread(Idle, Contains(Id(0, 0)), HEAD, TAIL, NULL, HEAD, NULL, None);
    State(kind, lang, EmptyList(), 0, map[], seq(n, _ => idle))
  }

  // ---- The steps ----

  predicate IsNode(h: Heap, x: int)
  {
    0 <= x < |h|
  }

  /** `check->next` as the re-walk's loop condition sees it: C++ read it earlier, Java reads it now. */
  function WalkNext(s: State, th: Thread): int
    requires IsNode(s.heap, th.check)
  {
    if s.lang == Cpp then th.nxt else s.heap[th.check].next
  }

  /** No pointer that this step follows is null. */
  predicate PointersFine(s: State, th: Thread)
  {
    var h := s.heap;
    match th.pc
    case Idle | Start | Finish | Crashed | WalkStart => true
    case FirstRead => IsNode(h, th.pred)
    case WalkTest =>
      && IsNode(h, th.pred) && IsNode(h, th.cur) && IsNode(h, th.check)
      && (h[th.check].key == h[th.pred].key ==> IsNode(h, WalkNext(s, th)))
    case WalkMove => IsNode(h, th.check) && (s.lang == Cpp ==> IsNode(h, th.nxt))
    case _ => IsNode(h, th.pred) && IsNode(h, th.cur)
  }

  predicate Free(s: State, x: int)
  {
    x !in s.owner
  }

  /** A step that needs a lock waits until the lock is free. C++ takes the pair with std::lock, all or nothing. */
  predicate CanStep(s: State, t: nat)
    requires t < |s.threads|
  {
    var th := s.threads[t];
    match th.pc
    case Idle | Crashed => false
    case Start => s.kind == FineGrained ==> Free(s, HEAD)
    case LockNext | LockSecond => Free(s, th.cur)
    case LockPair => Free(s, th.pred) && (s.lang == Cpp ==> Free(s, th.cur) && th.pred != th.cur)
    case _ => true
  }

  function Acquire(s: State, t: nat, x: int): State
  {
    s.(owner := s.owner[x := t])
  }

  function Release(s: State, x: int): State
  {
    s.(owner := s.owner - {x})
  }

  function Goto(s: State, t: nat, th: Thread, pc: Pc): State
    requires t < |s.threads|
  {
    s.(threads := s.threads[t := th.(pc := pc)])
  }

  function Step(s: State, t: nat): State
    requires 2 <= |s.heap| && t < |s.threads| && CanStep(s, t)
  {
    var th := s.threads[t];
    if !PointersFine(s, th) then Goto(s, t, th, Crashed)
    else if th.pc in {Act, AddRead, AddLink, MarkCur, UnlinkRead, UnlinkWrite} then CallbackStep(s, t)
    else if th.pc in {CheckPred, CheckCur, CheckNext, WalkStart, WalkTest, WalkMove, WalkEnd} then ValidateStep(s, t)
    else if th.pc in {UnlockCur, UnlockPred, Finish} then LeaveStep(s, t)
    else FindStep(s, t)
  }

  function FindStep(s: State, t: nat): State
    requires 2 <= |s.heap| && t < |s.threads| && CanStep(s, t) && PointersFine(s, s.threads[t])
    requires s.threads[t].pc in {Start, FirstRead, LockNext, ReadAgain, DropOld, Test, DropPred, Advance, LockPair, LockSecond}
  {
    var h, th := s.heap, s.threads[t];
    match th.pc
    case Start =>
      if s.kind == FineGrained then Goto(Acquire(s, t, HEAD), t, th.(pred := HEAD), FirstRead)
      else Goto(s, t, th.(pred := HEAD, cur := h[HEAD].next), Test)
    case FirstRead => Goto(s, t, th.(cur := h[th.pred].next, back := NULL), LockNext)
    case LockNext =>
      Goto(Acquire(s, t, th.cur), t, th, if s.lang == Java then Test else if th.back == NULL then ReadAgain else DropOld)
    case ReadAgain => Goto(s, t, th.(cur := h[th.pred].next), Test)
    case DropOld => Goto(Release(s, th.back), t, th.(back := NULL), Test)
    case Test =>
      if GoesOn(h, th.op.Key(), th.cur) then
        Goto(s, t, th, if s.kind == FineGrained && s.lang == Java then DropPred else Advance)
      else Goto(s, t, th, if s.kind == FineGrained then Act else LockPair)
    case DropPred => Goto(Release(s, th.pred), t, th, Advance)
    case Advance =>
      var moved := th.(pred := th.cur, cur := h[th.cur].next);
      if s.kind == FineGrained then Goto(s, t, moved.(back := if s.lang == Cpp then th.pred else NULL), LockNext)
      else Goto(s, t, moved, Test)
    case LockPair =>
      if s.lang == Java then Goto(Acquire(s, t, th.pred), t, th, LockSecond)
      else Goto(Acquire(Acquire(s, t, th.pred), t, th.cur), t, th, FirstCheck(s.kind))
    case LockSecond => Goto(Acquire(s, t, th.cur), t, th, FirstCheck(s.kind))
  }

  function FirstCheck(kind: Kind): Pc
  {
    if kind == Lazy then CheckPred else WalkStart
  }

  function ValidateStep(s: State, t: nat): State
    requires 2 <= |s.heap| && t < |s.threads| && PointersFine(s, s.threads[t])
    requires s.threads[t].pc in {CheckPred, CheckCur, CheckNext, WalkStart, WalkTest, WalkMove, WalkEnd}
  {
    var h, th := s.heap, s.threads[t];
    match th.pc
    case CheckPred => Goto(s, t, th, if h[th.pred].deleted then UnlockCur else CheckCur)
    case CheckCur => Goto(s, t, th, if h[th.cur].deleted then UnlockCur else CheckNext)
    case CheckNext => Goto(s, t, th, if h[th.pred].next != th.cur then UnlockCur else Act)
    case WalkStart => Goto(s, t, th.(check := HEAD, nxt := h[HEAD].next), WalkTest)
    case WalkTest =>
      var more := || h[th.check].key < h[th.pred].key
                  || (h[th.check].key == h[th.pred].key && !SameValue(h[WalkNext(s, th)].value, h[th.cur].value));
      Goto(s, t, th, if more then WalkMove else WalkEnd)
    case WalkMove =>
      if s.lang == Cpp then Goto(s, t, th.(check := th.nxt, nxt := h[th.nxt].next), WalkTest)
      else Goto(s, t, th.(check := h[th.check].next), WalkTest)
    case WalkEnd =>
      Goto(s, t, th, if th.check != th.pred || h[th.pred].next != th.cur then UnlockCur else Act)
  }

  function CallbackStep(s: State, t: nat): State
    requires 2 <= |s.heap| && t < |s.threads| && PointersFine(s, s.threads[t])
    requires s.threads[t].pc in {Act, AddRead, AddLink, MarkCur, UnlinkRead, UnlinkWrite}
  {
    var h, th := s.heap, s.threads[t];
    match th.pc
    case Act =>
      var equal := Match(h, th.cur, th.op.Key());
      match th.op {
        case Add(e) =>
          if equal then Goto(s, t, th.(res := Some(Result(false, None))), UnlockCur)
          else Goto(s, t, th, AddRead)
        case Remove(_) =>
          if !equal then Goto(s, t, th.(res := Some(Result(false, None))), UnlockCur)
          else Goto(s, t, th, if s.kind == Lazy then MarkCur else UnlinkRead)
        case GetEqual(_) =>
          Goto(s, t, th.(res := Some(Result(equal, if equal then h[th.cur].value else None))), UnlockCur)
        case _ => Goto(s, t, th.(res := Some(Result(equal, None))), UnlockCur)
      }
    case AddRead => Goto(s, t, th.(nxt := if s.lang == Cpp then h[th.pred].next else th.cur), AddLink)
    case AddLink =>
      if th.op.Add? then
        Goto(s.(heap := Link(h, th.pred, th.op.e, th.nxt)), t, th.(res := Some(Result(true, None))), UnlockCur)
      else Goto(s, t, th, Crashed)
    case MarkCur => Goto(s.(heap := Mark(h, th.cur)), t, th.(res := Some(Result(true, None))), UnlinkRead)
    case UnlinkRead => Goto(s, t, th.(nxt := h[th.cur].next), UnlinkWrite)
    case UnlinkWrite =>
      Goto(s.(heap := Unlink(h, th.pred, th.cur, th.nxt, s.clock), clock := s.clock + 1),
           t, th.(res := Some(Result(true, None))), UnlockCur)
  }

  /** Unlock both nodes; without an answer the search starts over. */
  function LeaveStep(s: State, t: nat): State
    requires t < |s.threads| && s.threads[t].pc in {UnlockCur, UnlockPred, Finish}
  {
    var th := s.threads[t];
    match th.pc
    case UnlockCur => Goto(Release(s, th.cur), t, th, UnlockPred)
    case UnlockPred => Goto(Release(s, th.pred), t, th, if th.res.Some? then Finish else Start)
    case Finish => Goto(s, t, th.(res := None), Idle)
  }

  // ---- Runs ----

  datatype Event = Invoke(t: nat, op: Op) | Move(t: nat)

  predicate Enabled(s: State, e: Event)
  {
    && 2 <= |s.heap| && e.t < |s.threads|
    && match e
       case Invoke(t, op) => s.threads[t].pc == Idle && !op.Put?
       case Move(t) => CanStep(s, t)
  }

  function Next(s: State, e: Event): State
    requires Enabled(s, e)
  {
    match e
    case Invoke(t, op) => Goto(s, t, s.threads[t].(op := op, res := None), Start)
    case Move(t) => Step(s, t)
  }

  /** What callers see of an event. */
  function Visible(s: State, e: Event): seq<Action>
    requires Enabled(s, e)
  {
    match e
    case Invoke(t, op) => [Call(t, op)]
    case Move(t) =>
      if s.threads[t].pc == Finish && s.threads[t].res.Some? then [Reply(t, s.threads[t].res.value)] else []
  }

  function Run(s: State, es: seq<Event>): Option<(State, seq<Action>)>
    decreases |es|
  {
    if es == [] then Some((s, []))
    else if !Enabled(s, es[0]) then None
    else
      match Run(Next(s, es[0]), es[1..])
      case None => None
      case Some((b, seen)) => Some((b, Visible(s, es[0]) + seen))
  }
}
