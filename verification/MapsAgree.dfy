/** SetBasedMap and LockHashMap side by side. */
module MapsAgree {
  import opened Elements
  import opened SequentialHistories
  import opened MapsCompared
  import AtomicMap
  import ListSets
  import ChainTable
  import Buckets
  import S = SetBasedMap
  import L = LockHashMapRuns
  import SetBasedMapCalls
  import LockHashMapCalls

  /** A run of SetBasedMap in which no two calls overlap. */
  ghost predicate SetBasedRun(kind: ListSets.Kind, lang: ListSets.Lang, size: nat, n: nat, es: seq<S.Event>)
  {
    2 <= size && S.Run(S.Init(kind, lang, size, n), es).Some? && Sequential(S.Run(S.Init(kind, lang, size, n), es).value.1)
  }

  ghost predicate LockHashRun(size: nat, n: nat, gs: seq<L.Event>)
  {
    2 <= size && L.Run(L.Init(size, n), gs).Some? && Sequential(L.Run(L.Init(size, n), gs).value.1)
  }

  lemma SetBasedAnswers(kind: ListSets.Kind, lang: ListSets.Lang, size: nat, n: nat, es: seq<S.Event>)
    requires SetBasedRun(kind, lang, size, n, es)
    ensures var (s, seen) := S.Run(S.Init(kind, lang, size, n), es).value;
            Answers(seen) == Results(map[], Ops(seen)) && Buckets.Union(S.Maps(s)) == Final(map[], Ops(seen))
  {
    S.Linearizable(kind, lang, size, n, es);
    Deterministic(n, S.AbstractRun(S.Init(kind, lang, size, n), es));
  }

  lemma LockHashAnswers(size: nat, n: nat, gs: seq<L.Event>)
    requires LockHashRun(size, n, gs)
    ensures var (s, seen) := L.Run(L.Init(size, n), gs).value;
            Answers(seen) == Results(map[], Ops(seen)) && ChainTable.Whole(s.table) == Final(map[], Ops(seen))
  {
    L.Linearizable(size, n, gs);
    Deterministic(n, L.AbstractRun(L.Init(size, n), gs));
  }

  /** On the same operations, one after the other, by whichever threads, the two maps give the same answers exactly
      when every `put` is of an absent key; and then they end with the same bindings. The kind of list set and the
      numbers of buckets and threads make no difference. */
  lemma SameAnswersIff(kind: ListSets.Kind, lang: ListSets.Lang, size: nat, n: nat, es: seq<S.Event>,
                       size': nat, n': nat, gs: seq<L.Event>)
    requires SetBasedRun(kind, lang, size, n, es) && LockHashRun(size', n', gs)
    requires Ops(L.Run(L.Init(size', n'), gs).value.1) == AsPutOps(Ops(S.Run(S.Init(kind, lang, size, n), es).value.1))
    ensures var (s, seen) := S.Run(S.Init(kind, lang, size, n), es).value;
            var (s', seen') := L.Run(L.Init(size', n'), gs).value;
            && (Answers(seen') == Answers(seen) <==> OnlyAbsent(map[], Ops(seen)))
            && (OnlyAbsent(map[], Ops(seen)) ==> ChainTable.Whole(s'.table) == Buckets.Union(S.Maps(s)))
  {
    SetBasedAnswers(kind, lang, size, n, es);
    LockHashAnswers(size', n', gs);
    SameResultsIff(map[], Ops(S.Run(S.Init(kind, lang, size, n), es).value.1));
  }

  lemma SetBasedCanRun(kind: ListSets.Kind, lang: ListSets.Lang, size: nat, ops: seq<Op>) returns (es: seq<S.Event>)
    requires 2 <= size && forall i :: 0 <= i < |ops| ==> ops[i].Add? || ops[i].GetEqual? || ops[i].Remove?
    ensures SetBasedRun(kind, lang, size, 1, es) && Ops(S.Run(S.Init(kind, lang, size, 1), es).value.1) == ops
  {
    S.InitOk(kind, lang, size, 1);
    es := SetBasedMapCalls.Calls(S.Init(kind, lang, size, 1), ops);
  }

  lemma LockHashCanRun(size: nat, ops: seq<Op>) returns (gs: seq<L.Event>)
    requires 2 <= size && forall i :: 0 <= i < |ops| ==> ops[i].Put? || ops[i].GetEqual? || ops[i].Remove?
    ensures LockHashRun(size, 1, gs) && Ops(L.Run(L.Init(size, 1), gs).value.1) == ops
  {
    ChainTable.EmptyWhole(L.Init(size, 1).table);
    gs := LockHashMapCalls.Calls(L.Init(size, 1), ops);
  }

  /** Such runs exist for all operations. */
  lemma BothCanRun(kind: ListSets.Kind, lang: ListSets.Lang, size: nat, ops: seq<Op>)
    returns (es: seq<S.Event>, gs: seq<L.Event>)
    requires 2 <= size && forall i :: 0 <= i < |ops| ==> ops[i].Add? || ops[i].GetEqual? || ops[i].Remove?
    ensures SetBasedRun(kind, lang, size, 1, es) && Ops(S.Run(S.Init(kind, lang, size, 1), es).value.1) == ops
    ensures LockHashRun(size, 1, gs) && Ops(L.Run(L.Init(size, 1), gs).value.1) == AsPutOps(ops)
  {
    es := SetBasedCanRun(kind, lang, size, ops);
    gs := LockHashCanRun(size, AsPutOps(ops));
  }

  /** With overlapping calls: what a run of SetBasedMap showed is also a possible history of a map whose `put`
      overwrites, step for step, exactly when no `put` took effect on a present key. */
  lemma OverlappingIff(kind: ListSets.Kind, lang: ListSets.Lang, size: nat, n: nat, es: seq<S.Event>)
    requires 2 <= size && S.Run(S.Init(kind, lang, size, n), es).Some?
    ensures var s0 := S.Init(kind, lang, size, n); var (s, seen) := S.Run(s0, es).value; var fs := S.AbstractRun(s0, es);
            && AtomicMap.Run(AtomicMap.Init(n), fs).Some?
            && (OnlyAbsentPuts(AtomicMap.Init(n), fs) <==>
                  AtomicMap.Run(AtomicMap.Init(n), AsPuts(fs)) == Some((AsPutState(S.Abstract(s)), AsPutActions(seen))))
  {
    S.Linearizable(kind, lang, size, n, es);
    SameRunsIff(AtomicMap.Init(n), S.AbstractRun(S.Init(kind, lang, size, n), es));
    assert AsPutState(AtomicMap.Init(n)) == AtomicMap.Init(n);
  }
}
