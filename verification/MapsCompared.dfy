/** When can put-if-absent be told apart from a put that overwrites? First for operations one after the other, then for
    runs of the specification object with overlapping calls. MapsAgree has the maps themselves. */
module MapsCompared {
  import opened Elements
  import opened AtomicMap
  import opened SequentialHistories

  function AsPutOp(op: Op): Op
  {
    if op.Add? then Op.Put(op.e) else op
  }

  // ---- One operation after the other ----

  function AsPutOps(ops: seq<Op>): (r: seq<Op>)
    ensures |r| == |ops| && forall i :: 0 <= i < |ops| ==> r[i] == AsPutOp(ops[i])
  {
    seq(|ops|, i requires 0 <= i < |ops| => AsPutOp(ops[i]))
  }

  /** Every key is absent when it is put. */
  predicate OnlyAbsent(m: Contents, ops: seq<Op>)
    decreases |ops|
  {
    ops != [] ==> !(ops[0].Add? && ops[0].e.id in m) && OnlyAbsent(Apply(m, ops[0]).0, ops[1..])
  }

  /** The answers agree exactly when every key is absent when it is put, and then so do the contents. */
  lemma {:induction false} SameResultsIff(m: Contents, ops: seq<Op>)
    ensures Results(m, AsPutOps(ops)) == Results(m, ops) <==> OnlyAbsent(m, ops)
    ensures OnlyAbsent(m, ops) ==> Final(m, AsPutOps(ops)) == Final(m, ops)
    decreases |ops|
  {
    if ops != [] {
      var m1 := Apply(m, ops[0]).0;
      assert AsPutOps(ops)[1..] == AsPutOps(ops[1..]);
      assert Results(m, ops)[1..] == Results(m1, ops[1..]);
      assert Results(m, AsPutOps(ops))[0] == Apply(m, AsPutOp(ops[0])).1 && Results(m, ops)[0] == Apply(m, ops[0]).1;
      if !(ops[0].Add? && ops[0].e.id in m) {
        assert Apply(m, AsPutOp(ops[0])) == Apply(m, ops[0]);
        assert Results(m, AsPutOps(ops))[1..] == Results(m1, AsPutOps(ops[1..]));
        SameResultsIff(m1, ops[1..]);
      }
    }
  }

  // ---- Runs of the specification object ----

  /** The same event with `put` meaning what LockHashMap makes of it. */
  function AsPut(e: Event): Event
  {
    if e.Invoke? then Invoke(e.t, AsPutOp(e.op)) else e
  }

  function AsPuts(es: seq<Event>): (fs: seq<Event>)
    ensures |fs| == |es| && forall i :: 0 <= i < |es| ==> fs[i] == AsPut(es[i])
  {
    seq(|es|, i requires 0 <= i < |es| => AsPut(es[i]))
  }

  function AsPutStatus(x: Status): Status
  {
    if x.Pending? then Pending(AsPutOp(x.op)) else x
  }

  function AsPutState(a: State): State
  {
    State(a.contents, seq(|a.threads|, i requires 0 <= i < |a.threads| => AsPutStatus(a.threads[i])))
  }

  function AsPutAction(x: Action): Action
  {
    if x.Call? then Call(x.t, AsPutOp(x.op)) else x
  }

  function AsPutActions(xs: seq<Action>): (ys: seq<Action>)
    ensures |ys| == |xs| && forall i :: 0 <= i < |xs| ==> ys[i] == AsPutAction(xs[i])
  {
    seq(|xs|, i requires 0 <= i < |xs| => AsPutAction(xs[i]))
  }

  /** A `put` takes effect now, and its key is already there. */
  predicate PutsPresent(a: State, e: Event)
    requires Enabled(a, e)
  {
    e.Commit? && a.threads[e.t].op.Add? && a.threads[e.t].op.e.id in a.contents
  }

  /** In this run `put` is only ever used for keys that are absent when it takes effect. */
  predicate OnlyAbsentPuts(a: State, es: seq<Event>)
    requires Run(a, es).Some?
    decreases |es|
  {
    es != [] ==> !PutsPresent(a, es[0]) && OnlyAbsentPuts(Next(a, es[0]), es[1..])
  }

  /** The two runs cannot be told apart, neither by the answers so far nor by those still to be given. */
  predicate SameAnswers(a: State, es: seq<Event>)
    requires Run(a, es).Some?
  {
    Run(AsPutState(a), AsPuts(es)) == Some((AsPutState(Run(a, es).value.0), AsPutActions(Run(a, es).value.1)))
  }

  lemma StepSame(a: State, e: Event)
    requires Enabled(a, e) && !PutsPresent(a, e)
    ensures Enabled(AsPutState(a), AsPut(e))
    ensures Next(AsPutState(a), AsPut(e)) == AsPutState(Next(a, e))
    ensures Visible(AsPutState(a), AsPut(e)) == AsPutActions(Visible(a, e))
  {
    var (c, d) := (Next(AsPutState(a), AsPut(e)), AsPutState(Next(a, e)));
    assert forall i :: 0 <= i < |a.threads| ==> c.threads[i] == d.threads[i];
    assert c.threads == d.threads;
  }

  /** The states agree on who is doing what. */
  predicate Alike(a: State, c: State)
  {
    && |a.threads| == |c.threads|
    && forall i :: 0 <= i < |a.threads| ==>
         && (a.threads[i].Out? <==> c.threads[i].Out?)
         && (a.threads[i].Pending? <==> c.threads[i].Pending?)
  }

  lemma {:induction false} SameLength(a: State, c: State, es: seq<Event>)
    requires Alike(a, c) && Run(a, es).Some?
    ensures Run(c, AsPuts(es)).Some? && |Run(c, AsPuts(es)).value.1| == |Run(a, es).value.1|
    decreases |es|
  {
    if es != [] {
      assert AsPuts(es)[0] == AsPut(es[0]) && AsPuts(es)[1..] == AsPuts(es[1..]);
      SameLength(Next(a, es[0]), Next(c, AsPut(es[0])), es[1..]);
    }
  }

  /** Thread `t` is about to give different answers. */
  predicate Differ(a: State, c: State, t: nat)
  {
    Alike(a, c) && t < |a.threads| && a.threads[t].Done? && a.threads[t] != c.threads[t]
  }

  /** Two answer sequences differ when a part differs. */
  lemma PartsAgree(x: seq<Action>, y: seq<Action>, seen: seq<Action>, seen': seq<Action>)
    requires |x| == |y| && |seen| == |seen'|
    ensures y + seen' == AsPutActions(x + seen) <==> y == AsPutActions(x) && seen' == AsPutActions(seen)
  {
    var whole, image := y + seen', AsPutActions(x + seen);
    assert image == AsPutActions(x) + AsPutActions(seen);
    if whole == image {
      assert y == whole[..|x|] && seen' == whole[|x|..];
      assert AsPutActions(x) == image[..|x|] && AsPutActions(seen) == image[|x|..];
    }
  }

  lemma {:induction false} DifferStays(a: State, c: State, t: nat, es: seq<Event>)
    requires Differ(a, c, t) && Run(a, es).Some?
    ensures Run(c, AsPuts(es)).Some?
    ensures var (b, seen) := Run(a, es).value; var (d, seen') := Run(c, AsPuts(es)).value;
            |seen| == |seen'| && (seen' != AsPutActions(seen) || d != AsPutState(b))
    decreases |es|
  {
    if es == [] {
      assert AsPutState(a).threads[t] == a.threads[t];
    } else {
      var e := es[0];
      var a1, c1 := Next(a, e), Next(c, AsPut(e));
      assert AsPuts(es)[0] == AsPut(e) && AsPuts(es)[1..] == AsPuts(es[1..]);
      var x, y := Visible(a, e), Visible(c, AsPut(e));
      SameLength(a1, c1, es[1..]);
      PartsAgree(x, y, Run(a1, es[1..]).value.1, Run(c1, AsPuts(es[1..])).value.1);
      if e == Return(t) {
        assert y[0] != AsPutAction(x[0]);
      } else {
        DifferStays(a1, c1, t, es[1..]);
      }
    }
  }

  lemma PresentDiffers(a: State, es: seq<Event>)
    requires Run(a, es).Some? && es != [] && PutsPresent(a, es[0])
    ensures !SameAnswers(a, es)
  {
    var a1, c1 := Next(a, es[0]), Next(AsPutState(a), AsPut(es[0]));
    assert AsPuts(es)[0] == AsPut(es[0]) && AsPuts(es)[1..] == AsPuts(es[1..]);
    assert Differ(a1, c1, es[0].t);
    DifferStays(a1, c1, es[0].t, es[1..]);
    PartsAgree([], [], Run(a1, es[1..]).value.1, Run(c1, AsPuts(es[1..])).value.1);
  }

  lemma AbsentContinues(a: State, es: seq<Event>)
    requires Run(a, es).Some? && es != [] && !PutsPresent(a, es[0])
    ensures SameAnswers(a, es) <==> SameAnswers(Next(a, es[0]), es[1..])
  {
    var e := es[0];
    var a1 := Next(a, e);
    assert AsPuts(es)[0] == AsPut(e) && AsPuts(es)[1..] == AsPuts(es[1..]);
    StepSame(a, e);
    SameLength(a1, AsPutState(a1), es[1..]);
    PartsAgree(Visible(a, e), Visible(AsPutState(a), AsPut(e)),
               Run(a1, es[1..]).value.1, Run(AsPutState(a1), AsPuts(es[1..])).value.1);
  }

  /** SetBasedMap's and LockHashMap's specifications give the same answers on the same run of calls exactly when
      every `put` is of a key that is absent at that moment. */
  lemma {:induction false} SameRunsIff(a: State, es: seq<Event>)
    requires Run(a, es).Some?
    ensures SameAnswers(a, es) <==> OnlyAbsentPuts(a, es)
    decreases |es|
  {
    if es == [] {
      assert AsPuts(es) == [] && AsPutActions([]) == [];
    } else if PutsPresent(a, es[0]) {
      PresentDiffers(a, es);
    } else {
      AbsentContinues(a, es);
      SameRunsIff(Next(a, es[0]), es[1..]);
    }
  }
}
