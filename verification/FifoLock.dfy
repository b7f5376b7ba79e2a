/** The specification of the queue locks: threads queue up in the order of their doorway step, and only the
    first in the queue may be inside. */
module FifoLock {
  import opened Elements

  datatype Event = Doorway(t: nat) | Enter(t: nat) | Exit(t: nat)

  datatype State = State(queue: seq<nat>, entered: bool)

  const START := State([], false)

  predicate Enabled(s: State, e: Event)
  {
    match e
    case Doorway(t) => t !in s.queue
    case Enter(t) => s.queue != [] && s.queue[0] == t && !s.entered
    case Exit(t) => s.queue != [] && s.queue[0] == t && s.entered
  }

  function Next(s: State, e: Event): State
    requires Enabled(s, e)
  {
    match e
    case Doorway(t) => s.(queue := s.queue + [t])
    case Enter(_) => s.(entered := true)
    case Exit(_) => State(s.queue[1..], false)
  }

  /** The state after the events, or None when one of them was not allowed. */
  function Run(s: State, es: seq<Event>): Option<State>
    decreases |es|
  {
    if es == [] then Some(s)
    else if !Enabled(s, es[0]) then None
    else Run(Next(s, es[0]), es[1..])
  }

  lemma {:induction false} RunConcat(s: State, es: seq<Event>, fs: seq<Event>)
    requires Run(s, es).Some?
    ensures Run(s, es + fs) == Run(Run(s, es).value, fs)
    decreases |es|
  {
    if es == [] {
      assert es + fs == fs;
    } else {
      assert (es + fs)[1..] == es[1..] + fs;
      RunConcat(Next(s, es[0]), es[1..], fs);
    }
  }

  function Doorways(es: seq<Event>): seq<nat>
  {
    if es == [] then [] else (if es[0].Doorway? then [es[0].t] else []) + Doorways(es[1..])
  }

  function Enters(es: seq<Event>): seq<nat>
  {
    if es == [] then [] else (if es[0].Enter? then [es[0].t] else []) + Enters(es[1..])
  }

  function Exits(es: seq<Event>): seq<nat>
  {
    if es == [] then [] else (if es[0].Exit? then [es[0].t] else []) + Exits(es[1..])
  }

  function WaitingIn(s: State): seq<nat>
  {
    if s.entered && s.queue != [] then s.queue[1..] else s.queue
  }

  function InsideIn(s: State): seq<nat>
  {
    if s.entered && s.queue != [] then [s.queue[0]] else []
  }

  lemma Prepend(x: nat, a: seq<nat>, b: seq<nat>, c: seq<nat>, d: seq<nat>)
    requires a + b == c + d
    ensures ([x] + a) + b == ([x] + c) + d
  {
    assert ([x] + a) + b == [x] + (a + b) && ([x] + c) + d == [x] + (c + d);
  }

  lemma {:induction false} EntersFollowDoorways(s: State, es: seq<Event>)
    requires Run(s, es).Some? && (s.entered ==> s.queue != [])
    ensures WaitingIn(s) + Doorways(es) == Enters(es) + WaitingIn(Run(s, es).value)
    decreases |es|
  {
    if es != [] {
      var s1, last := Next(s, es[0]), WaitingIn(Run(s, es).value);
      var d, e, w, w1 := Doorways(es[1..]), Enters(es[1..]), WaitingIn(s), WaitingIn(s1);
      EntersFollowDoorways(s1, es[1..]);
      if es[0].Doorway? {
        assert w1 == w + [es[0].t] && Doorways(es) == [es[0].t] + d && Enters(es) == e;
        assert w + ([es[0].t] + d) == (w + [es[0].t]) + d;
      } else if es[0].Enter? {
        assert w == [es[0].t] + w1 && Doorways(es) == d && Enters(es) == [es[0].t] + e;
        Prepend(es[0].t, w1, d, e, last);
      } else {
        assert w == w1 && Doorways(es) == d && Enters(es) == e;
      }
    }
  }

  lemma {:induction false} ExitsFollowEnters(s: State, es: seq<Event>)
    requires Run(s, es).Some? && (s.entered ==> s.queue != [])
    ensures InsideIn(s) + Enters(es) == Exits(es) + InsideIn(Run(s, es).value)
    decreases |es|
  {
    if es != [] {
      var s1, last := Next(s, es[0]), InsideIn(Run(s, es).value);
      var e, x, w, w1 := Enters(es[1..]), Exits(es[1..]), InsideIn(s), InsideIn(s1);
      ExitsFollowEnters(s1, es[1..]);
      if es[0].Doorway? {
        assert w == w1 && Enters(es) == e && Exits(es) == x;
      } else if es[0].Enter? {
        assert w1 == [es[0].t] && w == [] && Enters(es) == [es[0].t] + e && Exits(es) == x;
      } else {
        assert w1 == [] && w == [es[0].t] + w1 && Enters(es) == e && Exits(es) == [es[0].t] + x;
        Prepend(es[0].t, w1, e, x, last);
      }
    }
  }

  /** First come, first served, one at a time: the threads that entered are the first ones of those that came, in
      the same order, and every one of them but possibly the last has left again. */
  predicate InOrder(es: seq<Event>)
  {
    Enters(es) <= Doorways(es) && Exits(es) <= Enters(es) && |Enters(es)| <= |Exits(es)| + 1
  }

  lemma FirstComeFirstServed(es: seq<Event>)
    requires Run(START, es).Some?
    ensures InOrder(es)
  {
    EntersFollowDoorways(START, es);
    ExitsFollowEnters(START, es);
    assert [] + Doorways(es) == Doorways(es) && [] + Enters(es) == Enters(es);
  }

  /** `t` comes back and gets in before `u`, which came earlier. */
  function Overtaking(t: nat, u: nat): seq<Event>
  {
    [Doorway(t), Enter(t), Doorway(u), Exit(t), Doorway(t), Enter(t)]
  }

  lemma NotAllowed(t: nat, u: nat)
    requires t != u
    ensures Run(START, Overtaking(t, u)).None?
  {
    var e3 := [Exit(t), Doorway(t), Enter(t)];
    var e2 := [Doorway(u)] + e3;
    var e1 := [Enter(t)] + e2;
    assert e3[1..][1..] == [Enter(t)] && e2[1..] == e3 && e1[1..] == e2;
    assert Run(State([u, t], false), e3[1..][1..]).None?;
    assert [t, u][1..] == [u] && [u] + [t] == [u, t] && [t] + [u] == [t, u] && [] + [t] == [t];
    assert Run(State([u], false), e3[1..]).None?;
    assert Run(State([t, u], true), e3).None?;
    assert Run(State([t], true), e2).None?;
    assert Run(State([t], false), e1).None?;
    var e0 := [Doorway(t)] + e1;
    assert e0[1..] == e1;
    assert e0 == Overtaking(t, u);
  }
}
