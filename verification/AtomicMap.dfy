/** The specification object: a map whose operations take effect in one indivisible step.
    An implementation is linearizable when everything callers can see of it, calls and replies in order,
    can also be seen of this object. */
module AtomicMap {
  import opened Elements

  datatype Status = Out | Pending(op: Op) | Done(res: Result)

  datatype State = State(contents: Contents, threads: seq<Status>)

  datatype Event = Invoke(t: nat, op: Op) | Commit(t: nat) | Return(t: nat)

  function Init(n: nat): State
  {
    State(map[], seq(n, _ => Out))
  }

  predicate Enabled(a: State, e: Event)
  {
    && e.t < |a.threads|
    && match e
       case Invoke(t, _) => a.threads[t].Out?
       case Commit(t) => a.threads[t].Pending?
       case Return(t) => a.threads[t].Done?
  }

  function Next(a: State, e: Event): State
    requires Enabled(a, e)
  {
    match e
    case Invoke(t, op) => a.(threads := a.threads[t := Pending(op)])
    case Commit(t) =>
      var r := Apply(a.contents, a.threads[t].op);
      State(r.0, a.threads[t := Done(r.1)])
    case Return(t) => a.(threads := a.threads[t := Out])
  }

  function Visible(a: State, e: Event): seq<Action>
    requires Enabled(a, e)
  {
    match e
    case Invoke(t, op) => [Call(t, op)]
    case Commit(_) => []
    case Return(t) => [Reply(t, a.threads[t].res)]
  }

  /** `Run(a, es)` is the state after `es` and what was seen, or None when some event could not happen. */
  function Run(a: State, es: seq<Event>): Option<(State, seq<Action>)>
    decreases |es|
  {
    if es == [] then Some((a, []))
    else if !Enabled(a, es[0]) then None
    else
      match Run(Next(a, es[0]), es[1..])
      case None => None
      case Some((b, seen)) => Some((b, Visible(a, es[0]) + seen))
  }

  lemma RunSingle(a: State, e: Event)
    requires Enabled(a, e)
    ensures Run(a, [e]) == Some((Next(a, e), Visible(a, e)))
  {
    assert [e][1..] == [] && Visible(a, e) + [] == Visible(a, e);
  }

  lemma {:induction false} RunConcat(a: State, es: seq<Event>, fs: seq<Event>)
    requires Run(a, es).Some?
    ensures Run(a, es + fs) ==
            match Run(Run(a, es).value.0, fs)
            case None => None
            case Some((c, seen)) => Some((c, Run(a, es).value.1 + seen))
    decreases |es|
  {
    if es == [] {
      assert es + fs == fs;
      if Run(a, fs).Some? {
        var (c, seen) := Run(a, fs).value;
        assert [] + seen == seen;
      }
    } else {
      assert (es + fs)[1..] == es[1..] + fs;
      RunConcat(Next(a, es[0]), es[1..], fs);
      var b := Next(a, es[0]);
      var (d, s1) := Run(b, es[1..]).value;
      if Run(d, fs).Some? {
        var (c, s2) := Run(d, fs).value;
        assert Visible(a, es[0]) + (s1 + s2) == (Visible(a, es[0]) + s1) + s2;
      }
    }
  }
}
