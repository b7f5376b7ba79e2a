/** The nodes of a sorted list set (sets/SetNode.hpp), and what every algorithm in sets/ keeps true of them.
    Keys are hashes, so distinct elements may share a key and keys are sorted non-strictly. Nodes are
    numbered in the order they are linked in; a key together with that number is strictly sorted. */
module ListHeap {
  import opened Elements

  const NULL := -1
  const HEAD := 0
  const TAIL := 1

  /** `linked` and `died` are bookkeeping that no algorithm reads: whether the node is in the list now, and
      when it was taken out. */
  datatype Node = Node(key: Usize, value: Option<Elem>, next: int, deleted: bool, linked: bool, died: nat)

  type Heap = seq<Node>

  function EmptyList(): Heap
  {
    [Node(0, None, TAIL, false, true, 0), Node(SIZE_MAX, None, NULL, false, true, 0)]
  }

  /** The node holds an element equal to the one called `id`. */
  predicate Match(h: Heap, x: int, id: Id)
    requires 0 <= x < |h|
  {
    h[x].value.Some? && h[x].value.value.id == id
  }

  /** The order of the list: head first, tail last, in between by key and then by insertion. */
  predicate Before(h: Heap, x: int, y: int)
    requires 0 <= x < |h| && 0 <= y < |h|
  {
    && x != y
    && (|| x == HEAD
        || y == TAIL
        || (y != HEAD && x != TAIL && (h[x].key < h[y].key || (h[x].key == h[y].key && x < y))))
  }

  // ---- The invariant of the nodes ----

  ghost predicate Shape(h: Heap)
  {
    && 2 <= |h|
    && h[HEAD].key == 0 && h[HEAD].value.None? && h[HEAD].linked && !h[HEAD].deleted
    && h[TAIL].key == SIZE_MAX && h[TAIL].value.None? && h[TAIL].linked && !h[TAIL].deleted
    && h[TAIL].next == NULL
    && forall i :: 2 <= i < |h| ==> h[i].value.Some? && h[i].key == h[i].value.value.id.hash
  }

  /** Every pointer, also that of a node taken out long ago, goes strictly forward. */
  ghost predicate Ascending(h: Heap)
  {
    forall i {:trigger h[i].next} ::
      0 <= i < |h| && i != TAIL ==> 0 <= h[i].next < |h| && Before(h, i, h[i].next)
  }

  /** The pointer of `i` jumps over `j`. */
  predicate Skips(h: Heap, i: int, j: int)
  {
    && 0 <= i < |h| && i != TAIL && 0 <= h[i].next < |h| && 0 <= j < |h|
    && Before(h, i, j) && Before(h, j, h[i].next)
  }

  /** The pointer of a linked node leads to the next linked node. */
  ghost predicate Consecutive(h: Heap)
    requires Ascending(h)
  {
    && (forall i {:trigger h[i].next} :: 0 <= i < |h| && i != TAIL && h[i].linked ==> h[h[i].next].linked)
    && (forall i, j {:trigger Skips(h, i, j)} :: Skips(h, i, j) && h[i].linked ==> !h[j].linked)
  }

  /** No pointer jumps over a linked node that has its target's key. */
  ghost predicate NoJump(h: Heap)
    requires Ascending(h)
  {
    forall i, j {:trigger Skips(h, i, j)} ::
      Skips(h, i, j) && h[i].next != TAIL && h[j].key == h[h[i].next].key ==> !h[j].linked
  }

  /** A pointer to a node that was taken out comes from a node that was taken out before it. */
  ghost predicate DeathOrder(h: Heap)
    requires Ascending(h)
  {
    forall i {:trigger h[i].next} :: 0 <= i < |h| && i != TAIL && !h[h[i].next].linked ==>
      !h[i].linked && h[i].died < h[h[i].next].died
  }

  /** A linked node that holds an element equal to the one called `id`. */
  predicate Holds(h: Heap, i: int, id: Id)
  {
    0 <= i < |h| && h[i].linked && Match(h, i, id)
  }

  ghost predicate Distinct(h: Heap)
  {
    forall i, j, id {:trigger Holds(h, i, id), Holds(h, j, id)} :: Holds(h, i, id) && Holds(h, j, id) ==> i == j
  }

  ghost predicate DiedBefore(h: Heap, clock: nat)
  {
    forall i :: 0 <= i < |h| && !h[i].linked ==> h[i].died < clock
  }

  ghost predicate HeapOk(h: Heap)
  {
    Shape(h) && Ascending(h) && Consecutive(h) && NoJump(h) && DeathOrder(h) && Distinct(h)
  }

  // ---- What the list contains ----

  /** The element is linked and not marked, at node `i`. */
  predicate Live(h: Heap, i: int, id: Id)
  {
    Holds(h, i, id) && !h[i].deleted
  }

  ghost predicate Present(h: Heap, id: Id)
  {
    exists i :: Live(h, i, id)
  }

  ghost function PayloadOf(h: Heap, id: Id): (v: int)
    requires Present(h, id)
    ensures exists i :: Live(h, i, id) && v == h[i].value.value.payload
  {
    var i :| Live(h, i, id);
    h[i].value.value.payload
  }

  function IdsOf(h: Heap): set<Id>
  {
    set i | 0 <= i < |h| && h[i].value.Some? && Live(h, i, h[i].value.value.id) :: h[i].value.value.id
  }

  /** The elements that are linked and not marked, as a map. */
  ghost function ContentsOf(h: Heap): (m: Contents)
    ensures forall id :: id in m <==> Present(h, id)
    ensures forall id :: id in m ==> m[id] == PayloadOf(h, id)
  {
    map id | id in IdsOf(h) :: PayloadOf(h, id)
  }

  // ---- The three ways the list changes ----

  /** `predecessor->next = newNode`, with `newNode->next` already set to `w`. */
  function Link(h: Heap, p: int, e: Elem, w: int): Heap
    requires 0 <= p < |h|
  {
    h[p := h[p].(next := |h|)] + [Node(e.id.hash, Some(e), w, false, true, 0)]
  }

  /** `current->deleted = true`. */
  function Mark(h: Heap, c: int): Heap
    requires 0 <= c < |h|
  {
    h[c := h[c].(deleted := true)]
  }

  /** `predecessor->next = current->next`. */
  function Unlink(h: Heap, p: int, c: int, w: int, clock: nat): Heap
    requires 0 <= p < |h| && 0 <= c < |h|
  {
    h[p := h[p].(next := w)][c := h[c].(linked := false, died := clock)]
  }

  // ---- Where a search stands ----

  /** The search for `id` may stand on `p`: every linked node holding the element is behind `p`, to its right. */
  ghost predicate Passed(h: Heap, id: Id, p: int)
  {
    && 0 <= p < |h| && p != TAIL
    && (p == HEAD || h[p].key <= id.hash)
    && !Match(h, p, id)
    && forall j {:trigger Holds(h, j, id)} :: Holds(h, j, id) ==> Before(h, p, j)
  }

  /** `c` was read as the successor of `p`: unless `c` is past the whole group, nothing equal lies before it. */
  ghost predicate Ahead(h: Heap, id: Id, p: int, c: int)
    requires 0 <= p < |h|
  {
    && 0 <= c < |h| && Before(h, p, c)
    && (c != TAIL && h[c].key <= id.hash ==>
          forall j {:trigger Holds(h, j, id)} :: Holds(h, j, id) ==> !Before(h, j, c))
  }

  /** The loop condition of every `find`: the walk goes on past `c`. */
  predicate GoesOn(h: Heap, id: Id, c: int)
    requires 0 <= c < |h|
  {
    h[c].next != NULL && h[c].key <= id.hash && (id.hash != h[c].key || !Match(h, c, id))
  }

  /** The same without reading `next`, for use after the test. */
  predicate CanPass(h: Heap, id: Id, c: int)
    requires 0 <= c < |h|
  {
    c != TAIL && h[c].key <= id.hash && !Match(h, c, id)
  }

  /** Both nodes are in the list, neighbours, and unmarked. */
  predicate Adjacent(h: Heap, p: int, c: int)
  {
    && 0 <= p < |h| && 0 <= c < |h| && p != TAIL
    && h[p].linked && h[c].linked && h[p].next == c && !h[p].deleted && !h[c].deleted
  }

  lemma TestAgrees(h: Heap, id: Id, c: int)
    requires HeapOk(h) && 0 <= c < |h| && c != HEAD
    ensures GoesOn(h, id, c) <==> CanPass(h, id, c)
  {
    if c != TAIL {
      assert 0 <= h[c].next;
    }
  }

  /** Walking one node to the right, whatever became of `p` and `c` in the meantime. */
  lemma StepRight(h: Heap, id: Id, p: int, c: int)
    requires HeapOk(h) && Passed(h, id, p) && Ahead(h, id, p, c) && CanPass(h, id, c)
    ensures Passed(h, id, c) && Ahead(h, id, c, h[c].next)
  {
    var w := h[c].next;
    forall j | Holds(h, j, id)
      ensures Before(h, c, j)
      ensures w != TAIL && h[w].key <= id.hash ==> !Before(h, j, w)
    {
      assert Skips(h, c, j) ==> w == TAIL || h[j].key != h[w].key;
    }
  }

  lemma StartRight(h: Heap, id: Id)
    requires HeapOk(h)
    ensures Passed(h, id, HEAD) && Ahead(h, id, HEAD, h[HEAD].next)
  {
    var w := h[HEAD].next;
    forall j | Holds(h, j, id)
      ensures w != TAIL && h[w].key <= id.hash ==> !Before(h, j, w)
    {
      assert !Skips(h, HEAD, j);
    }
  }

  /** A walk that stopped at neighbours knows whether the element is there. */
  lemma StopDecides(h: Heap, id: Id, p: int, c: int)
    requires HeapOk(h) && Passed(h, id, p) && Adjacent(h, p, c) && !CanPass(h, id, c)
    ensures id in ContentsOf(h) <==> Match(h, c, id)
    ensures Match(h, c, id) ==> ContentsOf(h)[id] == h[c].value.value.payload
    ensures !Match(h, c, id) ==> forall j :: !Holds(h, j, id)
  {
    if Match(h, c, id) {
      assert Live(h, c, id);
    } else {
      forall j ensures !Holds(h, j, id) {
        assert Holds(h, j, id) ==> !Skips(h, p, j);
      }
    }
  }

  // ---- The changes keep the invariant ----

  /** A new element belongs between `p` and `c`. */
  ghost predicate Gap(h: Heap, id: Id, p: int, c: int)
  {
    && Adjacent(h, p, c)
    && (p == HEAD || h[p].key <= id.hash)
    && (c == TAIL || id.hash < h[c].key)
    && forall j :: !Holds(h, j, id)
  }

  /** Every node of `h` is in `h'` with the same key and value, hence in the same order. */
  ghost predicate SameKeys(h: Heap, h': Heap)
  {
    |h| <= |h'| && forall i {:trigger h'[i]} :: 0 <= i < |h| ==> h'[i].key == h[i].key && h'[i].value == h[i].value
  }

  lemma SameKeysChain(h: Heap, h1: Heap, h2: Heap)
    requires SameKeys(h, h1) && SameKeys(h1, h2)
    ensures SameKeys(h, h2)
  {
    assert forall i {:trigger h2[i]} :: 0 <= i < |h| ==> h1[i].key == h[i].key;
  }

  lemma LinkOrder(h: Heap, p: int, e: Elem, c: int, i: int)
    requires Shape(h) && Ascending(h) && Consecutive(h) && Gap(h, e.id, p, c)
    requires 0 <= i < |h| && h[i].linked
    ensures Before(Link(h, p, e, c), i, |h|) <==> i == p || Before(h, i, p)
    ensures Before(Link(h, p, e, c), |h|, i) <==> i == c || Before(h, c, i)
  {
    var h' := Link(h, p, e, c);
    assert h'[i].key == h[i].key;
    assert !Skips(h, p, i);
  }

  lemma LinkShape(h: Heap, p: int, e: Elem, c: int)
    requires Shape(h) && Ascending(h) && Consecutive(h) && Gap(h, e.id, p, c)
    ensures Shape(Link(h, p, e, c)) && Ascending(Link(h, p, e, c)) && SameKeys(h, Link(h, p, e, c))
  {
    var h' := Link(h, p, e, c);
    LinkOrder(h, p, e, c, p);
    LinkOrder(h, p, e, c, c);
    forall i | 0 <= i < |h'| && i != TAIL
      ensures 0 <= h'[i].next < |h'| && Before(h', i, h'[i].next)
    {
      if i < |h| && i != p {
        assert h'[i].next == h[i].next && Before(h, i, h[i].next);
      }
    }
  }

  lemma LinkConsecutive(h: Heap, p: int, e: Elem, c: int)
    requires Shape(h) && Ascending(h) && Consecutive(h) && Gap(h, e.id, p, c)
    requires Ascending(Link(h, p, e, c)) && SameKeys(h, Link(h, p, e, c))
    ensures Consecutive(Link(h, p, e, c))
  {
    var h' := Link(h, p, e, c);
    forall i, j | Skips(h', i, j) && h'[i].linked
      ensures !h'[j].linked
    {
      if i < |h| && i != p {
        var w := h[i].next;
        if j < |h| {
          assert Skips(h, i, j);
        } else {
          assert !Skips(h, i, p) && !Skips(h, i, c);
          LinkOrder(h, p, e, c, i);
          LinkOrder(h, p, e, c, w);
        }
      } else if j < |h| && h[j].linked {
        LinkOrder(h, p, e, c, j);
      }
    }
  }

  lemma LinkNoJump(h: Heap, p: int, e: Elem, c: int)
    requires Shape(h) && Ascending(h) && Consecutive(h) && NoJump(h) && Gap(h, e.id, p, c)
    requires Ascending(Link(h, p, e, c)) && SameKeys(h, Link(h, p, e, c))
    ensures NoJump(Link(h, p, e, c))
  {
    var h' := Link(h, p, e, c);
    forall i, j | Skips(h', i, j) && h'[i].next != TAIL && h'[j].key == h'[h'[i].next].key
      ensures !h'[j].linked
    {
      if i < |h| && i != p {
        if j < |h| {
          assert Skips(h, i, j);
        }
      } else if j < |h| && h[j].linked {
        LinkOrder(h, p, e, c, j);
      }
    }
  }

  lemma LinkKeeps(h: Heap, p: int, e: Elem, c: int, clock: nat)
    requires HeapOk(h) && Gap(h, e.id, p, c) && DiedBefore(h, clock)
    ensures HeapOk(Link(h, p, e, c)) && DiedBefore(Link(h, p, e, c), clock)
    ensures ContentsOf(Link(h, p, e, c)) == ContentsOf(h)[e.id := e.payload]
  {
    var h' := Link(h, p, e, c);
    LinkShape(h, p, e, c);
    LinkConsecutive(h, p, e, c);
    LinkNoJump(h, p, e, c);
    forall i | 0 <= i < |h'| && i != TAIL && !h'[h'[i].next].linked
      ensures !h'[i].linked && h'[i].died < h'[h'[i].next].died
    {
      assert i < |h| && i != p && h'[i].next == h[i].next;
    }
    LinkContents(h, p, e, c);
  }

  lemma LinkContents(h: Heap, p: int, e: Elem, c: int)
    requires Distinct(h) && Gap(h, e.id, p, c) && SameKeys(h, Link(h, p, e, c))
    ensures Distinct(Link(h, p, e, c))
    ensures ContentsOf(Link(h, p, e, c)) == ContentsOf(h)[e.id := e.payload]
  {
    var h' := Link(h, p, e, c);
    assert forall i, id :: Holds(h', i, id) <==> Holds(h, i, id) || (i == |h| && id == e.id);
    assert forall i, id :: Live(h', i, id) <==> Live(h, i, id) || (i == |h| && id == e.id);
    assert Live(h', |h|, e.id);
    forall id
      ensures id in ContentsOf(h') <==> id in ContentsOf(h) || id == e.id
      ensures id in ContentsOf(h) && id != e.id ==> ContentsOf(h')[id] == ContentsOf(h)[id]
    {
      ContentsCarryOver(h, h', id);
      if Present(h', id) && id != e.id {
        var i :| Live(h', i, id);
        assert Live(h, i, id);
      }
    }
  }

  /** What is said of one element does not depend on the others. */
  lemma ContentsCarryOver(h: Heap, h': Heap, id: Id)
    requires SameKeys(h, h') && Distinct(h')
    ensures (forall i :: Live(h, i, id) ==> Live(h', i, id)) && Present(h, id) ==>
              Present(h', id) && PayloadOf(h', id) == PayloadOf(h, id)
  {
    if (forall i :: Live(h, i, id) ==> Live(h', i, id)) && Present(h, id) {
      var i :| Live(h, i, id) && PayloadOf(h, id) == h[i].value.value.payload;
      assert Live(h', i, id);
      var k :| Live(h', k, id) && PayloadOf(h', id) == h'[k].value.value.payload;
      assert Live(h', k, id);
      assert Holds(h', i, id) && Holds(h', k, id);
    }
  }

  /** `c` stops being live and nothing else does. */
  lemma DropContents(h: Heap, h': Heap, c: int, id: Id)
    requires SameKeys(h, h') && |h'| == |h| && Distinct(h) && Distinct(h')
    requires Live(h, c, id) && !Live(h', c, id)
    requires forall i, k :: i != c ==> (Live(h', i, k) <==> Live(h, i, k))
    ensures ContentsOf(h') == ContentsOf(h) - {id}
  {
    forall k
      ensures k in ContentsOf(h') <==> k in ContentsOf(h) && k != id
      ensures k in ContentsOf(h) && k != id ==> ContentsOf(h')[k] == ContentsOf(h)[k]
    {
      assert Holds(h, c, id);
      ContentsCarryOver(h, h', k);
      if Present(h', k) {
        var i :| Live(h', i, k);
        assert i != c && Live(h, i, k) && Holds(h, i, k);
      }
    }
  }

  lemma SameContents(h: Heap, h': Heap)
    requires SameKeys(h, h') && |h'| == |h| && Distinct(h) && Distinct(h')
    requires forall i, k :: Live(h', i, k) <==> Live(h, i, k)
    ensures ContentsOf(h') == ContentsOf(h)
  {
    forall k
      ensures k in ContentsOf(h') <==> k in ContentsOf(h)
      ensures k in ContentsOf(h) ==> ContentsOf(h')[k] == ContentsOf(h)[k]
    {
      ContentsCarryOver(h, h', k);
      if Present(h', k) {
        var i :| Live(h', i, k);
        assert Live(h, i, k);
      }
    }
  }

  lemma MarkKeeps(h: Heap, c: int, id: Id, clock: nat)
    requires HeapOk(h) && Live(h, c, id) && DiedBefore(h, clock)
    ensures HeapOk(Mark(h, c)) && DiedBefore(Mark(h, c), clock)
    ensures ContentsOf(Mark(h, c)) == ContentsOf(h) - {id}
  {
    var h' := Mark(h, c);
    MarkPointers(h, c);
    assert forall i, k :: Holds(h', i, k) <==> Holds(h, i, k);
    DropContents(h, h', c, id);
  }

  lemma MarkPointers(h: Heap, c: int)
    requires HeapOk(h) && 2 <= c < |h|
    ensures var h' := Mark(h, c); Shape(h') && SameKeys(h, h') && Ascending(h') && Consecutive(h') && NoJump(h') && DeathOrder(h')
  {
    var h' := Mark(h, c);
    assert forall i {:trigger h'[i]} :: 0 <= i < |h| ==> h'[i] == h[i].(deleted := h'[i].deleted);
    assert forall i, j :: Skips(h', i, j) ==> Skips(h, i, j);
  }

  lemma UnlinkKeeps(h: Heap, p: int, c: int, clock: nat)
    requires HeapOk(h) && DiedBefore(h, clock)
    requires 0 <= p < |h| && p != TAIL && h[p].linked && h[p].next == c && c != TAIL
    ensures p != c && h[c].value.Some?
    ensures var h' := Unlink(h, p, c, h[c].next, clock);
            HeapOk(h') && DiedBefore(h', clock + 1)
    ensures var h' := Unlink(h, p, c, h[c].next, clock);
            ContentsOf(h') == if h[c].deleted then ContentsOf(h) else ContentsOf(h) - {h[c].value.value.id}
  {
    var h' := Unlink(h, p, c, h[c].next, clock);
    assert Before(h, p, c) && 2 <= c < |h|;
    assert SameKeys(h, h');
    UnlinkShape(h, p, c, clock);
    assert forall i, k :: i != c ==> (Holds(h', i, k) <==> Holds(h, i, k)) && (Live(h', i, k) <==> Live(h, i, k));
    assert forall k :: !Holds(h', c, k);
    if h[c].deleted {
      SameContents(h, h');
    } else {
      assert Live(h, c, h[c].value.value.id);
      DropContents(h, h', c, h[c].value.value.id);
    }
  }

  lemma UnlinkShape(h: Heap, p: int, c: int, clock: nat)
    requires HeapOk(h) && DiedBefore(h, clock)
    requires 0 <= p < |h| && p != TAIL && h[p].linked && h[p].next == c && c != TAIL && 2 <= c < |h| && p != c
    ensures var h' := Unlink(h, p, c, h[c].next, clock);
            Shape(h') && Ascending(h') && Consecutive(h') && NoJump(h') && DeathOrder(h')
  {
    var h' := Unlink(h, p, c, h[c].next, clock);
    UnlinkAscending(h, p, c, clock);
    UnlinkSkips(h, p, c, clock);
    assert h[c].linked && h[h[c].next].linked && Before(h, c, h[c].next);
    forall i | 0 <= i < |h'| && i != TAIL && !h'[h'[i].next].linked
      ensures !h'[i].linked && h'[i].died < h'[h'[i].next].died
    {
      if i != p && h[i].next == c {
        if h[i].linked {
          OnlyPredecessor(h, p, c, i);
        }
      }
    }
  }

  lemma UnlinkAscending(h: Heap, p: int, c: int, clock: nat)
    requires HeapOk(h) && DiedBefore(h, clock)
    requires 0 <= p < |h| && p != TAIL && h[p].linked && h[p].next == c && c != TAIL && 2 <= c < |h| && p != c
    ensures var h' := Unlink(h, p, c, h[c].next, clock); Shape(h') && Ascending(h')
  {
    var h' := Unlink(h, p, c, h[c].next, clock);
    assert SameKeys(h, h') && Before(h, p, c) && Before(h, c, h[c].next);
    forall i | 0 <= i < |h'| && i != TAIL
      ensures 0 <= h'[i].next < |h'| && Before(h', i, h'[i].next)
    {
      assert Before(h, i, h[i].next);
    }
  }

  lemma UnlinkSkips(h: Heap, p: int, c: int, clock: nat)
    requires HeapOk(h) && DiedBefore(h, clock)
    requires 0 <= p < |h| && p != TAIL && h[p].linked && h[p].next == c && c != TAIL && 2 <= c < |h| && p != c
    requires Ascending(Unlink(h, p, c, h[c].next, clock))
    ensures var h' := Unlink(h, p, c, h[c].next, clock); Consecutive(h') && NoJump(h')
  {
    var h' := Unlink(h, p, c, h[c].next, clock);
    assert h[c].linked && h[h[c].next].linked && Before(h, c, h[c].next) && Before(h, p, c) && SameKeys(h, h');
    forall i | 0 <= i < |h'| && i != TAIL && h'[i].linked
      ensures h'[h'[i].next].linked
    {
      if i != p && h[i].next == c {
        OnlyPredecessor(h, p, c, i);
      }
    }
    forall i, j | Skips(h', i, j)
      ensures h'[i].linked ==> !h'[j].linked
      ensures h'[i].next != TAIL && h'[j].key == h'[h'[i].next].key ==> !h'[j].linked
    {
      if i != p {
        assert Skips(h, i, j);
      } else {
        InsideTwo(h, p, c, h[c].next, j);
        assert j == c || Skips(h, p, j) || Skips(h, c, j);
      }
    }
  }

  lemma InsideTwo(h: Heap, x: int, y: int, z: int, j: int)
    requires Shape(h) && 0 <= x < |h| && 0 <= y < |h| && 0 <= z < |h| && 0 <= j < |h|
    requires Before(h, x, j) && Before(h, j, z)
    ensures j == y || Before(h, j, y) || Before(h, y, j)
  {
  }

  /** A linked node has one linked predecessor. */
  lemma OnlyPredecessor(h: Heap, p: int, c: int, i: int)
    requires Shape(h) && Ascending(h) && Consecutive(h)
    requires 0 <= p < |h| && p != TAIL && h[p].linked && h[p].next == c
    requires 0 <= i < |h| && i != TAIL && h[i].linked && h[i].next == c
    ensures i == p
  {
    assert Before(h, p, c) && Before(h, i, c);
    assert !Skips(h, i, p) && !Skips(h, p, i);
  }

  // ---- What a thread may rely on while others change the list ----

  /** The nodes changed only in `touched`; nodes taken out stay as they are, and those taken out now die last. */
  ghost predicate Evolves(h: Heap, h': Heap, clock: nat, touched: set<int>)
  {
    && SameKeys(h, h')
    && forall i {:trigger h'[i]} :: 0 <= i < |h| ==>
         && (i in touched || h'[i] == h[i])
         && (!h[i].linked ==> h'[i] == h[i])
         && (h[i].linked && !h'[i].linked ==> clock <= h'[i].died)
  }

  lemma PassedStable(h: Heap, h': Heap, clock: nat, touched: set<int>, id: Id, p: int)
    requires HeapOk(h) && HeapOk(h') && Evolves(h, h', clock, touched) && Passed(h, id, p)
    ensures Passed(h', id, p)
  {
    assert h'[p].key == h[p].key && h'[p].value == h[p].value;
    forall j | Holds(h', j, id)
      ensures Before(h', p, j)
    {
      if j < |h| {
        assert Holds(h, j, id);
      }
    }
  }

  lemma AheadStable(h: Heap, h': Heap, clock: nat, touched: set<int>, id: Id, p: int, c: int)
    requires HeapOk(h) && HeapOk(h') && Evolves(h, h', clock, touched) && 0 <= p < |h| && Ahead(h, id, p, c)
    ensures Ahead(h', id, p, c)
  {
    assert h'[p].key == h[p].key && h'[c].key == h[c].key;
    forall j | Holds(h', j, id) && c != TAIL && h'[c].key <= id.hash
      ensures !Before(h', j, c)
    {
      if j < |h| {
        assert Holds(h, j, id);
      }
    }
  }

  lemma LinkEvolves(h: Heap, p: int, e: Elem, c: int, clock: nat)
    requires 0 <= p < |h| && h[p].linked
    ensures Evolves(h, Link(h, p, e, c), clock, {p})
  {
  }

  lemma MarkEvolves(h: Heap, c: int, clock: nat)
    requires 0 <= c < |h| && h[c].linked
    ensures Evolves(h, Mark(h, c), clock, {c})
  {
  }

  lemma UnlinkEvolves(h: Heap, p: int, c: int, w: int, clock: nat)
    requires 0 <= p < |h| && 0 <= c < |h| && h[p].linked && h[c].linked && p != c
    ensures Evolves(h, Unlink(h, p, c, w, clock), clock, {p, c})
  {
  }
}
