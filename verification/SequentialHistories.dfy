/** Histories in which every call returns before the next one is made. */
module SequentialHistories {
  import opened Elements
  import opened AtomicMap

  predicate Sequential(seen: seq<Action>)
  {
    seen != [] ==>
      && 2 <= |seen| && seen[0].Call? && seen[1].Reply? && seen[1].t == seen[0].t
      && Sequential(seen[2..])
  }

  /** The operations that were called, in order. */
  function Ops(seen: seq<Action>): seq<Op>
  {
    if seen == [] then [] else (if seen[0].Call? then [seen[0].op] else []) + Ops(seen[1..])
  }

  function Answers(seen: seq<Action>): seq<Result>
  {
    if seen == [] then [] else (if seen[0].Reply? then [seen[0].res] else []) + Answers(seen[1..])
  }

  /** The operations applied one after the other: the answers, and what is left. */
  function Results(m: Contents, ops: seq<Op>): seq<Result>
    decreases |ops|
  {
    if ops == [] then [] else [Apply(m, ops[0]).1] + Results(Apply(m, ops[0]).0, ops[1..])
  }

  function Final(m: Contents, ops: seq<Op>): Contents
    decreases |ops|
  {
    if ops == [] then m else Final(Apply(m, ops[0]).0, ops[1..])
  }

  ghost predicate AllOutBut(a: State, t: nat)
  {
    forall u :: 0 <= u < |a.threads| && u != t ==> a.threads[u].Out?
  }

  lemma {:induction false} FromQuiet(a: State, es: seq<Event>)
    requires (forall u :: 0 <= u < |a.threads| ==> a.threads[u].Out?) && Run(a, es).Some? && Sequential(Run(a, es).value.1)
    ensures var (b, seen) := Run(a, es).value;
            Answers(seen) == Results(a.contents, Ops(seen)) && b.contents == Final(a.contents, Ops(seen))
    decreases |es|
  {
    if es != [] {
      assert es[0].Invoke?;
      var t, a1 := es[0].t, Next(a, es[0]);
      var (b, seen1) := Run(a1, es[1..]).value;
      FromPending(a1, t, es[1..]);
      assert ([Call(t, es[0].op)] + seen1)[1..] == seen1;
    }
  }

  lemma {:induction false} FromPending(a: State, t: nat, es: seq<Event>)
    requires t < |a.threads| && a.threads[t].Pending? && AllOutBut(a, t) && Run(a, es).Some?
    requires Sequential([Call(t, a.threads[t].op)] + Run(a, es).value.1)
    ensures var (b, seen) := Run(a, es).value; var ops := [a.threads[t].op] + Ops(seen);
            Answers(seen) == Results(a.contents, ops) && b.contents == Final(a.contents, ops)
    decreases |es|
  {
    var op := a.threads[t].op;
    var seen := Run(a, es).value.1;
    assert |[Call(t, op)] + seen| >= 2 && ([Call(t, op)] + seen)[1] == seen[0];
    assert es != [] && es[0] == Commit(t);
    var a1 := Next(a, es[0]);
    assert Run(a1, es[1..]).value.1 == seen by {
      assert [] + Run(a1, es[1..]).value.1 == Run(a1, es[1..]).value.1;
    }
    FromDone(a1, a.contents, t, op, es[1..]);
  }

  lemma {:induction false} FromDone(a: State, m: Contents, t: nat, op: Op, es: seq<Event>)
    requires t < |a.threads| && AllOutBut(a, t) && Run(a, es).Some?
    requires a.threads[t] == Done(Apply(m, op).1) && a.contents == Apply(m, op).0
    requires Sequential([Call(t, op)] + Run(a, es).value.1)
    ensures var (b, seen) := Run(a, es).value; var ops := [op] + Ops(seen);
            Answers(seen) == Results(m, ops) && b.contents == Final(m, ops)
    decreases |es|
  {
    var seen := Run(a, es).value.1;
    assert |[Call(t, op)] + seen| >= 2 && ([Call(t, op)] + seen)[1] == seen[0];
    assert es != [] && es[0] == Return(t);
    var a1 := Next(a, es[0]);
    var rest := Run(a1, es[1..]).value.1;
    assert seen[1..] == rest && ([Call(t, op)] + seen)[2..] == rest;
    FromQuiet(a1, es[1..]);
    assert ([op] + Ops(seen))[1..] == Ops(seen) && [] + Ops(rest) == Ops(rest);
  }

  /** The specification object is deterministic: when calls do not overlap, the answers and the contents in the end are
      those of the operations applied one after the other. */
  lemma Deterministic(n: nat, es: seq<Event>)
    requires Run(Init(n), es).Some? && Sequential(Run(Init(n), es).value.1)
    ensures var (b, seen) := Run(Init(n), es).value;
            Answers(seen) == Results(map[], Ops(seen)) && b.contents == Final(map[], Ops(seen))
  {
    FromQuiet(Init(n), es);
  }

  /** A history with one more call at its end. */
  lemma {:induction false} OneMore(seen: seq<Action>, t: nat, op: Op, res: Result)
    requires Sequential(seen)
    ensures Sequential(seen + [Call(t, op), Reply(t, res)]) && Ops(seen + [Call(t, op), Reply(t, res)]) == Ops(seen) + [op]
    decreases |seen|
  {
    var more := [Call(t, op), Reply(t, res)];
    if seen == [] {
      assert seen + more == more && more[2..] == [] && more[1..][1..] == [] && Ops(more[1..]) == [];
      assert [] + [op] == [op] && [op] + [] == [op];
    } else {
      OneMore(seen[2..], t, op, res);
      assert (seen + more)[2..] == seen[2..] + more;
      TwoInFront(seen);
      TwoInFront(seen + more);
      assert [seen[0].op] + (Ops(seen[2..]) + [op]) == ([seen[0].op] + Ops(seen[2..])) + [op];
    }
  }

  lemma TwoInFront(seen: seq<Action>)
    requires Sequential(seen) && seen != []
    ensures Ops(seen) == [seen[0].op] + Ops(seen[2..])
  {
    assert seen[1..][1..] == seen[2..] && [] + Ops(seen[2..]) == Ops(seen[2..]);
  }
}
