/** Reachability, marks, null pointers and deadlock in the list sets, over every run. */
module ListSetSafety {
  import opened Elements
  import opened ListHeap
  import opened ListSets
  import opened ListSetInvariant
  import opened ListSetSteps
  import opened ListSetTheorems

  // ---- `linked` means reachable from head ----

  /** The node that `k` times `next` leads to from head, NULL past the tail. */
  function Follow(h: Heap, k: nat): int
  {
    if k == 0 then HEAD
    else
      var x := Follow(h, k - 1);
      if 0 <= x < |h| then h[x].next else NULL
  }

  ghost predicate Reachable(h: Heap, x: int)
  {
    exists k: nat :: Follow(h, k) == x
  }

  lemma {:induction false} FollowIsLinked(h: Heap, k: nat)
    requires HeapOk(h) && 0 <= Follow(h, k) < |h|
    ensures h[Follow(h, k)].linked
  {
    if k > 0 {
      var x := Follow(h, k - 1);
      if x != TAIL {
        FollowIsLinked(h, k - 1);
      }
    }
  }

  function After(h: Heap, x: int): set<int>
    requires 0 <= x < |h|
  {
    set z | 0 <= z < |h| && Before(h, x, z)
  }

  lemma AfterShrinks(h: Heap, x: int, y: int)
    requires Shape(h) && 0 <= x < |h| && 0 <= y < |h| && Before(h, x, y)
    ensures After(h, y) < After(h, x)
  {
    assert y in After(h, x) && y !in After(h, y);
  }

  lemma {:induction false} LinkedIsFollowed(h: Heap, k: nat, x: int)
    requires HeapOk(h) && 0 <= x < |h| && h[x].linked && 0 <= Follow(h, k) < |h|
    requires Follow(h, k) == x || Before(h, Follow(h, k), x)
    ensures Reachable(h, x)
    decreases After(h, Follow(h, k))
  {
    var y := Follow(h, k);
    if y != x {
      FollowIsLinked(h, k);
      var w := h[y].next;
      assert Follow(h, k + 1) == w && Before(h, y, w) && !Skips(h, y, x);
      AfterShrinks(h, y, w);
      LinkedIsFollowed(h, k + 1, x);
    }
  }

  lemma LinkedIffReachable(h: Heap, x: int)
    requires HeapOk(h) && 0 <= x < |h|
    ensures h[x].linked <==> Reachable(h, x)
  {
    if h[x].linked {
      LinkedIsFollowed(h, 0, x);
    } else if Reachable(h, x) {
      var k: nat :| Follow(h, k) == x;
      FollowIsLinked(h, k);
    }
  }

  /** A walk from head meets an unmarked node with this element. */
  ghost predicate There(h: Heap, id: Id)
  {
    exists x :: 0 <= x < |h| && Reachable(h, x) && !h[x].deleted && Match(h, x, id)
  }

  lemma ThereIffContained(h: Heap, id: Id)
    requires HeapOk(h)
    ensures There(h, id) <==> id in ContentsOf(h)
  {
    forall x | 0 <= x < |h|
      ensures h[x].linked <==> Reachable(h, x)
    {
      LinkedIffReachable(h, x);
    }
    if id in ContentsOf(h) {
      var x :| Live(h, x, id);
      assert Reachable(h, x) && Match(h, x, id);
    }
    if x :| 0 <= x < |h| && Reachable(h, x) && !h[x].deleted && Match(h, x, id) {
      assert Live(h, x, id);
    }
  }

  /** In every run, the elements of the set are those a walk from head along `next` meets unmarked. */
  lemma ContentsAreReachable(kind: Kind, lang: Lang, n: nat, es: seq<Event>, id: Id)
    requires Run(Init(kind, lang, n), es).Some?
    ensures var s := Run(Init(kind, lang, n), es).value.0; id in Abstract(s).contents <==> There(s.heap, id)
  {
    InitInv(kind, lang, n);
    RunOk(Init(kind, lang, n), es);
    ThereIffContained(Run(Init(kind, lang, n), es).value.0.heap, id);
  }

  /** The step by thread `t` settles the answer of its call. */
  predicate Settles(s: State, t: nat)
    requires Enabled(s, Move(t))
  {
    s.threads[t].res.None? && Next(s, Move(t)).threads[t].res.Some?
  }

  /** A walk from head meets this element, unmarked. */
  ghost predicate Stored(h: Heap, e: Elem)
  {
    exists x :: 0 <= x < |h| && Reachable(h, x) && !h[x].deleted && h[x].value == Some(e)
  }

  predicate Binds(m: Contents, e: Elem)
  {
    e.id in m && m[e.id] == e.payload
  }

  lemma StoredIffBound(h: Heap, e: Elem)
    requires HeapOk(h)
    ensures Stored(h, e) <==> Binds(ContentsOf(h), e)
  {
    if e.id in ContentsOf(h) {
      var x := ContainedAt(h, e.id);
    }
    if x :| 0 <= x < |h| && Reachable(h, x) && !h[x].deleted && h[x].value == Some(e) {
      LinkedIffReachable(h, x);
      assert Live(h, x, e.id) && Holds(h, x, e.id);
    }
  }

  lemma ContainedAt(h: Heap, id: Id) returns (x: int)
    requires HeapOk(h) && id in ContentsOf(h)
    ensures 0 <= x < |h| && Reachable(h, x) && !h[x].deleted && Match(h, x, id)
    ensures h[x].value == Some(Elem(id, ContentsOf(h)[id]))
  {
    x :| Live(h, x, id);
    LinkedIffReachable(h, x);
    assert Holds(h, x, id);
  }

  lemma AnswerHere(h: Heap, m: Contents, op: Op, res: Result)
    requires HeapOk(h) && !op.Put? && Apply(ContentsOf(h), op) == (m, res)
    ensures res.ok <==> if op.Add? then !There(h, op.Key()) else There(h, op.Key())
    ensures res.found.Some? <==> op.GetEqual? && res.ok
    ensures res.found.Some? ==> res.found.value.id == op.Key() && Stored(h, res.found.value)
  {
    ThereIffContained(h, op.Key());
    if res.found.Some? {
      StoredIffBound(h, res.found.value);
    }
  }

  /** What the answers mean, in terms of the nodes: `contains`, `getEqual` and `remove` answer whether the element is
      there, `add` whether it is not, and `getEqual` finds the element that is stored. */
  lemma AnswersAreRight(kind: Kind, lang: Lang, n: nat, es: seq<Event>, t: nat)
    requires Run(Init(kind, lang, n), es).Some? && Enabled(Run(Init(kind, lang, n), es).value.0, Move(t))
    requires Settles(Run(Init(kind, lang, n), es).value.0, t)
    ensures var s := Run(Init(kind, lang, n), es).value.0; var (h, op) := (s.heap, s.threads[t].op);
            var res := Next(s, Move(t)).threads[t].res.value;
            && (res.ok <==> if op.Add? then !There(h, op.Key()) else There(h, op.Key()))
            && (res.found.Some? <==> op.GetEqual? && res.ok)
            && (res.found.Some? ==> res.found.value.id == op.Key() && Stored(h, res.found.value))
  {
    InitInv(kind, lang, n);
    RunOk(Init(kind, lang, n), es);
    var s := Run(Init(kind, lang, n), es).value.0;
    MoveOk(s, t);
    assert ThreadOk(s.kind, s.lang, s.heap, s.threads[t]);
    var s' := Step(s, t);
    AnswerHere(s.heap, ContentsOf(s'.heap), s.threads[t].op, s'.threads[t].res.value);
  }

  /** Once the operation has happened: the element was added, or was there and has not been removed. */
  ghost predicate StoredAfter(h: Heap, op: Op, e: Elem)
  {
    if op.Add? then Stored(h, e) || (e == op.e && !There(h, e.id)) else Stored(h, e) && !(op.Remove? && e.id == op.id)
  }

  lemma BoundAfter(m: Contents, op: Op, e: Elem)
    requires !op.Put?
    ensures Binds(Apply(m, op).0, e) <==>
              if op.Add? then Binds(m, e) || (e == op.e && e.id !in m) else Binds(m, e) && !(op.Remove? && e.id == op.id)
  {
  }

  lemma EffectHere(s: State, s': State, t: nat, e: Elem)
    requires HeapOk(s.heap) && HeapOk(s'.heap) && t < |s.threads| == |s'.threads| && Effect(s, s', t)
    requires !s.threads[t].op.Put?
    ensures Stored(s'.heap, e) <==>
              if s.threads[t].res.Some? || s'.threads[t].res.None? then Stored(s.heap, e)
              else StoredAfter(s.heap, s.threads[t].op, e)
  {
    ThereIffContained(s.heap, e.id);
    StoredIffBound(s.heap, e);
    StoredIffBound(s'.heap, e);
    BoundAfter(ContentsOf(s.heap), s.threads[t].op, e);
  }

  /** What the steps do to the nodes: only the step that settles an `add` or a `remove` adds or takes away an element,
      and only its own. */
  lemma EffectsAreRight(kind: Kind, lang: Lang, n: nat, es: seq<Event>, t: nat, e: Elem)
    requires Run(Init(kind, lang, n), es).Some? && Enabled(Run(Init(kind, lang, n), es).value.0, Move(t))
    ensures var s := Run(Init(kind, lang, n), es).value.0;
            Stored(Next(s, Move(t)).heap, e) <==>
              if Settles(s, t) then StoredAfter(s.heap, s.threads[t].op, e) else Stored(s.heap, e)
  {
    InitInv(kind, lang, n);
    RunOk(Init(kind, lang, n), es);
    var s := Run(Init(kind, lang, n), es).value.0;
    MoveOk(s, t);
    assert ThreadOk(s.kind, s.lang, s.heap, s.threads[t]);
    EffectHere(s, Step(s, t), t, e);
  }

  /** Every pointer ever stored, also in nodes long taken out, goes strictly forward in (key, insertion) order
      and jumps over no linked node with its target's key. */
  lemma PointersAscend(kind: Kind, lang: Lang, n: nat, es: seq<Event>, x: int)
    requires Run(Init(kind, lang, n), es).Some?
    requires 0 <= x < |Run(Init(kind, lang, n), es).value.0.heap| && x != TAIL
    ensures var h := Run(Init(kind, lang, n), es).value.0.heap; var w := h[x].next;
            && 0 <= w < |h| && Before(h, x, w)
            && forall j :: 0 <= j < |h| && h[j].linked && Before(h, x, j) && Before(h, j, w) ==>
                 w == TAIL || h[j].key != h[w].key
  {
    InitInv(kind, lang, n);
    RunOk(Init(kind, lang, n), es);
    var h := Run(Init(kind, lang, n), es).value.0.heap;
    assert 0 <= h[x].next;
    assert forall j :: Skips(h, x, j) && h[j].linked ==> h[x].next == TAIL || h[j].key != h[h[x].next].key;
    assert forall j :: 0 <= j < |h| && Before(h, x, j) && Before(h, j, h[x].next) ==> Skips(h, x, j);
  }

  lemma StandsBehind(kind: Kind, lang: Lang, h: Heap, th: Thread)
    requires ThreadOk(kind, lang, h, th) && th.pc !in {Idle, Start, FirstRead, UnlockCur, UnlockPred, Finish, Crashed}
    ensures IsNode(h, th.pred) && Passed(h, th.op.Key(), th.pred)
  {
  }

  /** From its first step until it has its answer, a thread has every node with its element to the right of where it
      stands. */
  lemma WalkMissesNothing(kind: Kind, lang: Lang, n: nat, es: seq<Event>, t: nat, j: int)
    requires Run(Init(kind, lang, n), es).Some? && t < |Run(Init(kind, lang, n), es).value.0.threads|
    requires Run(Init(kind, lang, n), es).value.0.threads[t].pc !in
               {Idle, Start, FirstRead, UnlockCur, UnlockPred, Finish, Crashed}
    ensures var s := Run(Init(kind, lang, n), es).value.0; var th := s.threads[t];
            && IsNode(s.heap, th.pred)
            && (IsNode(s.heap, j) && s.heap[j].linked && Match(s.heap, j, th.op.Key()) ==> Before(s.heap, th.pred, j))
  {
    InitInv(kind, lang, n);
    RunOk(Init(kind, lang, n), es);
    var s := Run(Init(kind, lang, n), es).value.0;
    StandsBehind(s.kind, s.lang, s.heap, s.threads[t]);
    assert Holds(s.heap, j, s.threads[t].op.Key()) ==> Before(s.heap, s.threads[t].pred, j);
  }

  /** Validation is sound under concurrent change: a thread that has got as far as its callback stands at two
      neighbours that a walk from head meets, both unmarked, and it holds both locked. */
  lemma ValidatedAreNeighbours(kind: Kind, lang: Lang, n: nat, es: seq<Event>, t: nat)
    requires Run(Init(kind, lang, n), es).Some? && t < |Run(Init(kind, lang, n), es).value.0.threads|
    requires Run(Init(kind, lang, n), es).value.0.threads[t].pc in {Act, AddRead, AddLink, MarkCur}
    ensures var s := Run(Init(kind, lang, n), es).value.0; var th := s.threads[t];
            && IsNode(s.heap, th.pred) && IsNode(s.heap, th.cur) && s.heap[th.pred].next == th.cur
            && Reachable(s.heap, th.pred) && Reachable(s.heap, th.cur)
            && !s.heap[th.pred].deleted && !s.heap[th.cur].deleted
            && th.pred in s.owner && s.owner[th.pred] == t && th.cur in s.owner && s.owner[th.cur] == t
  {
    InitInv(kind, lang, n);
    RunOk(Init(kind, lang, n), es);
    var s := Run(Init(kind, lang, n), es).value.0;
    var th := s.threads[t];
    assert ThreadOk(s.kind, s.lang, s.heap, th);
    assert th.pred in HeldBy(s, t) && th.cur in HeldBy(s, t);
    LinkedIffReachable(s.heap, th.pred);
    LinkedIffReachable(s.heap, th.cur);
  }

  // ---- LazySet's marks ----

  /** A marked node is reachable only while its remover holds it and its predecessor locked; two neighbours
      are never both marked; unmarked nodes are reachable. */
  lemma LazyMarks(lang: Lang, n: nat, es: seq<Event>, x: int)
    requires Run(Init(Lazy, lang, n), es).Some?
    requires 0 <= x < |Run(Init(Lazy, lang, n), es).value.0.heap|
    ensures var s := Run(Init(Lazy, lang, n), es).value.0;
            && (!s.heap[x].deleted ==> Reachable(s.heap, x))
            && (s.heap[x].deleted && Reachable(s.heap, x) ==>
                  && x in s.owner && RemovedBy(s, x, s.owner[x])
                  && var p := s.threads[s.owner[x]].pred;
                     && p in s.owner && s.owner[p] == s.owner[x]
                     && IsNode(s.heap, p) && Reachable(s.heap, p) && s.heap[p].next == x)
            && (s.heap[x].deleted && Reachable(s.heap, x) ==> IsNode(s.heap, s.heap[x].next) && !s.heap[s.heap[x].next].deleted)
  {
    InitInv(Lazy, lang, n);
    RunOk(Init(Lazy, lang, n), es);
    var s := Run(Init(Lazy, lang, n), es).value.0;
    LinkedIffReachable(s.heap, x);
    if s.heap[x].deleted && s.heap[x].linked {
      MarkedIsHeld(s, x);
      LinkedIffReachable(s.heap, s.threads[s.owner[x]].pred);
      MarkedApart(s, x);
    }
  }

  lemma MarkedIsHeld(s: State, x: int)
    requires Inv(s) && s.kind == Lazy && 0 <= x < |s.heap| && s.heap[x].deleted && s.heap[x].linked
    ensures x in s.owner && RemovedBy(s, x, s.owner[x])
    ensures var p := s.threads[s.owner[x]].pred;
            && p in s.owner && s.owner[p] == s.owner[x]
            && IsNode(s.heap, p) && p != TAIL && s.heap[p].linked && s.heap[p].next == x && !s.heap[p].deleted
  {
    var t := s.owner[x];
    assert ThreadOk(s.kind, s.lang, s.heap, s.threads[t]);
    assert s.threads[t].pred in HeldBy(s, t);
  }

  lemma MarkedApart(s: State, x: int)
    requires Inv(s) && s.kind == Lazy && 0 <= x < |s.heap| && s.heap[x].deleted && s.heap[x].linked
    ensures IsNode(s.heap, s.heap[x].next) && !s.heap[s.heap[x].next].deleted
  {
    var w := s.heap[x].next;
    assert IsNode(s.heap, w) && s.heap[w].linked;
    if s.heap[w].deleted {
      MarkedIsHeld(s, w);
      OnlyPredecessor(s.heap, x, w, s.threads[s.owner[w]].pred);
    }
  }

  /** No event changes a marked node, or one that was taken out. */
  lemma MarkedStep(s: State, e: Event, x: int)
    requires Inv(s) && Enabled(s, e) && 0 <= x < |s.heap| && (s.heap[x].deleted || !s.heap[x].linked)
    ensures Settled(s.heap, Next(s, e).heap, x)
  {
    if e.Move? {
      MoveOk(s, e.t);
      if s.heap[x].linked && x in HeldBy(s, e.t) {
        assert RemovedBy(s, x, e.t) && ThreadOk(s.kind, s.lang, s.heap, s.threads[e.t]);
        RemoverKeeps(s, e.t, x);
      }
    }
  }

  /** The node has the same pointer and the same mark, and has not come back into the list. */
  predicate Settled(h: Heap, h': Heap, x: int)
    requires 0 <= x < |h|
  {
    x < |h'| && h'[x].next == h[x].next && h'[x].deleted == h[x].deleted && (h'[x].linked ==> h[x].linked)
  }

  lemma {:induction false} SettledRun(s: State, fs: seq<Event>, x: int)
    requires Inv(s) && Run(s, fs).Some? && 0 <= x < |s.heap| && (s.heap[x].deleted || !s.heap[x].linked)
    ensures Settled(s.heap, Run(s, fs).value.0.heap, x)
    decreases |fs|
  {
    if fs != [] {
      EventOk(s, fs[0]);
      MarkedStep(s, fs[0], x);
      SettledRun(Next(s, fs[0]), fs[1..], x);
    }
  }

  /** For ever: once a node is marked, or taken out, no continuation `fs` of the run changes its pointer or its mark,
      or makes it reachable again. */
  lemma MarkedStays(kind: Kind, lang: Lang, n: nat, es: seq<Event>, fs: seq<Event>, x: int)
    requires Run(Init(kind, lang, n), es).Some? && Run(Run(Init(kind, lang, n), es).value.0, fs).Some?
    requires var h := Run(Init(kind, lang, n), es).value.0.heap;
             0 <= x < |h| && (h[x].deleted || !Reachable(h, x))
    ensures var s := Run(Init(kind, lang, n), es).value.0; var h' := Run(s, fs).value.0.heap;
            && x < |h'| && h'[x].next == s.heap[x].next && h'[x].deleted == s.heap[x].deleted
            && (Reachable(h', x) ==> Reachable(s.heap, x))
  {
    InitInv(kind, lang, n);
    RunOk(Init(kind, lang, n), es);
    var s := Run(Init(kind, lang, n), es).value.0;
    LinkedIffReachable(s.heap, x);
    SettledRun(s, fs, x);
    RunOk(s, fs);
    LinkedIffReachable(Run(s, fs).value.0.heap, x);
  }

  lemma RemoverKeeps(s: State, t: nat, x: int)
    requires 2 <= |s.heap| && t < |s.threads| && CanStep(s, t) && IsNode(s.heap, x) && x != s.threads[t].pred && s.heap[x].linked
    requires RemovedBy(s, x, t)
    ensures var h' := Step(s, t).heap;
            x < |h'| && h'[x].next == s.heap[x].next && h'[x].deleted == s.heap[x].deleted && (h'[x].linked ==> s.heap[x].linked)
  {
  }

  // ---- FineGrainedSet holds and awaits linked nodes only ----

  function Wanted(s: State, t: nat): set<int>
    requires t < |s.threads|
  {
    var th := s.threads[t];
    match th.pc
    case Start => if s.kind == FineGrained then {HEAD} else {}
    case LockNext | LockSecond => {th.cur}
    case LockPair => if s.lang == Java then {th.pred} else {th.pred, th.cur}
    case _ => {}
  }

  /** Hand over hand: whatever a thread holds or waits for is in the list, except the node it has itself just
      taken out; and from the end of its walk to its update its two nodes are neighbours. */
  lemma HandOverHand(lang: Lang, n: nat, es: seq<Event>, t: nat, x: int)
    requires Run(Init(FineGrained, lang, n), es).Some? && t < n
    ensures var s := Run(Init(FineGrained, lang, n), es).value.0;
            && |s.threads| == n
            && (x in Wanted(s, t) ==> IsNode(s.heap, x) && Reachable(s.heap, x))
            && var th := s.threads[t];
               && (x in HeldBy(s, t) ==>
                     && IsNode(s.heap, x)
                     && (Reachable(s.heap, x) || (th.pc == UnlockCur && x == th.cur && HasRemoved(th))))
               && (th.pc in {LockNext, ReadAgain, DropOld, Test, DropPred,
                             Act, AddRead, AddLink, UnlinkRead, UnlinkWrite} ==>
                     IsNode(s.heap, th.pred) && s.heap[th.pred].next == th.cur)
  {
    InitInv(FineGrained, lang, n);
    RunOk(Init(FineGrained, lang, n), es);
    var s := Run(Init(FineGrained, lang, n), es).value.0;
    assert ThreadOk(s.kind, s.lang, s.heap, s.threads[t]);
    if x in HeldBy(s, t) + Wanted(s, t) {
      NotWalking(s, t);
      LinkedIffReachable(s.heap, x);
    }
  }

  /** FineGrainedSet validates nothing and cannot crash. */
  lemma NotWalking(s: State, t: nat)
    requires Inv(s) && t < |s.threads| && s.kind == FineGrained
    ensures s.threads[t].pc !in {LockPair, LockSecond, CheckPred, CheckCur, CheckNext,
                                 WalkStart, WalkTest, WalkMove, WalkEnd, MarkCur, Crashed}
  {
    assert ThreadOk(s.kind, s.lang, s.heap, s.threads[t]);
  }

  // ---- Deadlock ----

  lemma HoldsBelow(s: State, t: nat, x: int, y: int)
    requires Inv(s) && t < |s.threads| && x in HeldBy(s, t) && y in Wanted(s, t)
    ensures IsNode(s.heap, x) && IsNode(s.heap, y) && Before(s.heap, x, y)
  {
    assert ThreadOk(s.kind, s.lang, s.heap, s.threads[t]);
  }

  lemma BlockedWants(s: State, t: nat) returns (x: int)
    requires Inv(s) && t < |s.threads| && s.threads[t].pc !in {Idle, Crashed} && !CanStep(s, t)
    ensures x in Wanted(s, t) && x in s.owner && IsNode(s.heap, x)
  {
    var th := s.threads[t];
    assert ThreadOk(s.kind, s.lang, s.heap, th);
    x := if th.pc == Start then HEAD
         else if th.pc == LockPair then (if Free(s, th.pred) then th.cur else th.pred)
         else th.cur;
  }

  /** Locks are taken in ascending (key, insertion) order: whatever a thread waits for is behind all it holds. */
  lemma LocksAscend(kind: Kind, lang: Lang, n: nat, es: seq<Event>, t: nat, x: int, y: int)
    requires Run(Init(kind, lang, n), es).Some? && t < |Run(Init(kind, lang, n), es).value.0.threads|
    requires var s := Run(Init(kind, lang, n), es).value.0; x in s.owner && s.owner[x] == t && y in Wanted(s, t)
    ensures var h := Run(Init(kind, lang, n), es).value.0.heap; IsNode(h, x) && IsNode(h, y) && Before(h, x, y)
  {
    InitInv(kind, lang, n);
    RunOk(Init(kind, lang, n), es);
    var s := Run(Init(kind, lang, n), es).value.0;
    assert x in HeldBy(s, s.owner[x]);
    HoldsBelow(s, t, x, y);
  }

  /** Thread `t` needs a lock that `u` holds. */
  ghost predicate WaitsFor(s: State, t: nat, u: nat)
  {
    t < |s.threads| && exists x :: x in Wanted(s, t) && x in s.owner && s.owner[x] == u
  }

  /** Each thread waits for the next one, and the last one can step. */
  ghost predicate EndsWell(s: State, chain: seq<nat>)
  {
    && chain != [] && (forall i :: 0 <= i < |chain| - 1 ==> WaitsFor(s, chain[i], chain[i + 1]))
    && chain[|chain| - 1] < |s.threads| && CanStep(s, chain[|chain| - 1])
  }

  /** The holder of a lock that somebody waits for can step, or waits itself, for a lock further on. */
  lemma NextOwner(s: State, t: nat, x: int) returns (y: int)
    requires Inv(s) && forall v :: 0 <= v < |s.threads| ==> s.threads[v].pc != Crashed
    requires t < |s.threads| && x in Wanted(s, t) && x in s.owner && IsNode(s.heap, x)
    ensures s.owner[x] < |s.threads| && WaitsFor(s, t, s.owner[x])
    ensures !CanStep(s, s.owner[x]) ==>
              y in Wanted(s, s.owner[x]) && y in s.owner && IsNode(s.heap, y) && After(s.heap, y) < After(s.heap, x)
  {
    var u := s.owner[x];
    assert x in HeldBy(s, u);
    y := x;
    if !CanStep(s, u) {
      y := BlockedWants(s, u);
      HoldsBelow(s, u, x, y);
      AfterShrinks(s.heap, x, y);
    }
  }

  lemma {:induction false} FollowOwners(s: State, t: nat, x: int) returns (chain: seq<nat>)
    requires Inv(s) && forall v :: 0 <= v < |s.threads| ==> s.threads[v].pc != Crashed
    requires t < |s.threads| && x in Wanted(s, t) && x in s.owner && IsNode(s.heap, x)
    ensures EndsWell(s, chain) && chain[0] == t
    decreases After(s.heap, x)
  {
    var y := NextOwner(s, t, x);
    var u := s.owner[x];
    var rest := [u];
    if !CanStep(s, u) {
      rest := FollowOwners(s, u, y);
    }
    chain := [t] + rest;
  }

  /** In every state of every run, an unfinished call can step, or waits for one that can, directly or through others:
      there is no circle, neither around it nor among those it waits for. Java takes the locks one by one, in
      ascending order even when the pair is outdated. */
  lemma NoDeadlock(kind: Kind, lang: Lang, n: nat, es: seq<Event>, t: nat) returns (chain: seq<nat>)
    requires Run(Init(kind, lang, n), es).Some? && t < |Run(Init(kind, lang, n), es).value.0.threads|
    requires var s := Run(Init(kind, lang, n), es).value.0;
             s.threads[t].pc != Idle && forall v :: 0 <= v < |s.threads| ==> s.threads[v].pc != Crashed
    ensures EndsWell(Run(Init(kind, lang, n), es).value.0, chain) && chain[0] == t
  {
    InitInv(kind, lang, n);
    RunOk(Init(kind, lang, n), es);
    var s := Run(Init(kind, lang, n), es).value.0;
    if CanStep(s, t) {
      chain := [t];
    } else {
      var x := BlockedWants(s, t);
      chain := FollowOwners(s, t, x);
    }
  }
}
