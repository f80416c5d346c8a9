/** Reverse forwards within one SSH session: concurrent add, retarget, stop and accepted connections. */
module ReverseForward {
  import opened Bytes

  datatype Target = Target(host: string, port: int)

  /** One remote listener, identified by the address it is bound to. */
  class RevFwd {
    const key: string
    var host: string
    var port: int
    var stopped: bool

    constructor (key: string, t: Target)
      ensures this.key == key && View() == Forward(key, t, false)
    {
      this.key := key;
      host, port, stopped := t.host, t.port, false;
    }

    function View(): Forward
      reads this
    {
      Forward(key, Target(host, port), stopped)
    }

    /** Each method is one critical section. */
    method Retarget(t: Target)
      modifies this
      ensures View() == Forward(key, t, false)
    {
      host, port, stopped := t.host, t.port, false;
    }

    method Gate()
      modifies this
      ensures View() == old(View()).(stopped := true)
    {
      stopped := true;
    }

    /** Where an accepted connection goes, if anywhere. */
    method Admit() returns (t: Option<Target>)
      ensures t == Admitted(View())
    {
      return if stopped then None else Some(Target(host, port));
    }
  }

  datatype Forward = Forward(key: string, target: Target, stopped: bool)

  function Admitted(f: Forward): Option<Target> {
    if f.stopped then None else Some(f.target)
  }

  datatype Phase =
    | Listening
    | Listened(id: nat)
    | Reusing(id: nat)
    | Stopping(id: nat)
    | Done(ok: bool)

  /** A call to add a forward, or to stop one (which has no target of its own). */
  datatype Call = Call(key: string, target: Option<Target>, phase: Phase)

  datatype Conn = Conn(key: string, target: Target)

  /** `forwards` are all listeners opened so far, `table` the registered ones, `calls` all calls ever made,
      and `conns` the connections passed on. */
  datatype State = State(forwards: seq<Forward>, table: map<string, nat>, calls: seq<Call>, conns: seq<Conn>)

  datatype Action =
    | Add(key: string, target: Target)
    | Listen(c: nat, granted: bool)
    | Register(c: nat)
    | Retarget(c: nat)
    | Stop(key: string)
    | Gate(c: nat)
    | Accept(id: nat)

  predicate Bound(s: State, key: string) {
    exists i | 0 <= i < |s.forwards| :: s.forwards[i].key == key
  }

  function At(s: State, c: nat, phase: Phase): State
    requires c < |s.calls|
  {
    s.(calls := s.calls[c := s.calls[c].(phase := phase)])
  }

  /** The remote server refuses to bind an address twice; otherwise it may grant or refuse. */
  function Step(s: State, a: Action): Option<State> {
    match a
    case Add(key, target) =>
      Some(s.(calls := s.calls + [Call(key, Some(target), if key in s.table then Reusing(s.table[key]) else Listening)]))
    case Listen(c, granted) =>
      if c < |s.calls| && s.calls[c].phase.Listening? && s.calls[c].target.Some? then
        if granted && !Bound(s, s.calls[c].key) then
          Some(At(s, c, Listened(|s.forwards|)).(
            forwards := s.forwards + [Forward(s.calls[c].key, s.calls[c].target.value, false)]))
        else Some(At(s, c, Done(false)))
      else None
    case Register(c) =>
      if c < |s.calls| && s.calls[c].phase.Listened?
      then Some(At(s, c, Done(true)).(table := s.table[s.calls[c].key := s.calls[c].phase.id])) else None
    case Retarget(c) =>
      if c < |s.calls| && s.calls[c].phase.Reusing? && s.calls[c].phase.id < |s.forwards| && s.calls[c].target.Some? then
        var id := s.calls[c].phase.id;
        Some(At(s, c, Done(true)).(
          forwards := s.forwards[id := s.forwards[id].(target := s.calls[c].target.value, stopped := false)]))
      else None
    case Stop(key) =>
      Some(s.(calls := s.calls + [Call(key, None, if key in s.table then Stopping(s.table[key]) else Done(true))]))
    case Gate(c) =>
      if c < |s.calls| && s.calls[c].phase.Stopping? && s.calls[c].phase.id < |s.forwards| then
        var id := s.calls[c].phase.id;
        Some(At(s, c, Done(true)).(forwards := s.forwards[id := s.forwards[id].(stopped := true)]))
      else None
    case Accept(id) =>
      if id < |s.forwards| && id in s.table.Values then
        var f := s.forwards[id];
        Some(if Admitted(f).None? then s else s.(conns := s.conns + [Conn(f.key, Admitted(f).value)]))
      else None
  }

  function Start(): State {
    State([], map[], [], [])
  }

  function Run(s: State, actions: seq<Action>): Option<State>
    decreases |actions|
  {
    if actions == [] then Some(s)
    else
      var next := Step(s, actions[0]);
      if next.None? then None else Run(next.value, actions[1..])
  }

  // ----- invariants -----

  /** Somebody asked for this target at this address. */
  ghost predicate Asked(s: State, key: string, target: Target) {
    exists c | 0 <= c < |s.calls| :: s.calls[c].key == key && s.calls[c].target == Some(target)
  }

  /** The listener a call is about, if it has found one. */
  function About(p: Phase): Option<nat> {
    match p
    case Listened(id) => Some(id)
    case Reusing(id) => Some(id)
    case Stopping(id) => Some(id)
    case _ => None
  }

  ghost predicate Owns(s: State, key: string, id: nat) {
    id < |s.forwards| && s.forwards[id].key == key
  }

  ghost predicate CallOk(s: State, c: nat)
    requires c < |s.calls|
  {
    && (About(s.calls[c].phase).Some? ==> Owns(s, s.calls[c].key, About(s.calls[c].phase).value))
    && (s.calls[c].phase == Done(true) && s.calls[c].target.Some? ==> s.calls[c].key in s.table)
    && (s.calls[c].phase.Reusing? || s.calls[c].phase.Stopping? ==> s.calls[c].key in s.table)
  }

  ghost predicate Inv(s: State) {
    && (forall i, j | 0 <= i < j < |s.forwards| :: s.forwards[i].key != s.forwards[j].key)
    && (forall i | 0 <= i < |s.forwards| :: Asked(s, s.forwards[i].key, s.forwards[i].target))
    && (forall key | key in s.table :: Owns(s, key, s.table[key]))
    && (forall c | 0 <= c < |s.calls| :: CallOk(s, c))
    && (forall i | 0 <= i < |s.conns| :: Asked(s, s.conns[i].key, s.conns[i].target))
  }

  /** Calls are never forgotten, and keep what they asked for. */
  ghost predicate Extends(s: State, s': State) {
    && |s.calls| <= |s'.calls|
    && forall c | 0 <= c < |s.calls| :: s'.calls[c].key == s.calls[c].key && s'.calls[c].target == s.calls[c].target
  }

  lemma AskedExtends(s: State, s': State, key: string, target: Target)
    requires Extends(s, s') && Asked(s, key, target)
    ensures Asked(s', key, target)
  {
    var c :| 0 <= c < |s.calls| && s.calls[c].key == key && s.calls[c].target == Some(target);
    assert s'.calls[c].key == key;
  }

  lemma StepExtends(s: State, a: Action, s': State)
    requires Step(s, a) == Some(s')
    ensures Extends(s, s')
  {
  }

  /** Listeners keep their address and take over targets that were asked for. */
  lemma StepKeepsForwards(s: State, a: Action, s': State)
    requires Inv(s) && Step(s, a) == Some(s')
    ensures |s.forwards| <= |s'.forwards|
    ensures forall i | 0 <= i < |s.forwards| :: s'.forwards[i].key == s.forwards[i].key
    ensures forall i, j | 0 <= i < j < |s'.forwards| :: s'.forwards[i].key != s'.forwards[j].key
    ensures forall i | 0 <= i < |s'.forwards| :: Asked(s', s'.forwards[i].key, s'.forwards[i].target)
  {
    hide Asked, Extends;
    StepExtends(s, a, s');
    if a.Retarget? {
      assert CallOk(s, a.c);
    }
    forall i | 0 <= i < |s'.forwards| ensures Asked(s', s'.forwards[i].key, s'.forwards[i].target) {
      if i < |s.forwards| && s'.forwards[i].target == s.forwards[i].target {
        AskedExtends(s, s', s.forwards[i].key, s.forwards[i].target);
      } else {
        AskedBy(s, a.c);
        AskedExtends(s, s', s.calls[a.c].key, s.calls[a.c].target.value);
      }
    }
  }

  lemma AskedBy(s: State, c: nat)
    requires c < |s.calls| && s.calls[c].target.Some?
    ensures Asked(s, s.calls[c].key, s.calls[c].target.value)
  {
  }

  lemma StepKeepsCalls(s: State, a: Action, s': State)
    requires Inv(s) && Step(s, a) == Some(s')
    ensures forall key | key in s'.table :: Owns(s', key, s'.table[key])
    ensures forall c | 0 <= c < |s'.calls| :: CallOk(s', c)
  {
    hide Asked;
    StepKeepsForwards(s, a, s');
    if a.Register? || a.Retarget? || a.Gate? {
      assert CallOk(s, a.c);
    }
    if (a.Add? || a.Stop?) && a.key in s.table {
      assert Owns(s, a.key, s.table[a.key]);
    }
    forall c | 0 <= c < |s'.calls| ensures CallOk(s', c) {
      if c < |s.calls| {
        assert CallOk(s, c);
        assert About(s'.calls[c].phase).Some? ==>
            s'.calls[c].phase == s.calls[c].phase || s'.calls[c].phase == Listened(|s.forwards|);
      } else {
        assert About(s'.calls[c].phase).Some? ==> a.key in s.table;
      }
    }
  }

  lemma StepKeepsConns(s: State, a: Action, s': State)
    requires Inv(s) && Step(s, a) == Some(s')
    ensures forall i | 0 <= i < |s'.conns| :: Asked(s', s'.conns[i].key, s'.conns[i].target)
  {
    hide Asked, Extends;
    StepExtends(s, a, s');
    forall i | 0 <= i < |s'.conns| ensures Asked(s', s'.conns[i].key, s'.conns[i].target) {
      AskedExtends(s, s', s'.conns[i].key, s'.conns[i].target);
    }
  }

  lemma StepKeepsInv(s: State, a: Action, s': State)
    requires Inv(s) && Step(s, a) == Some(s')
    ensures Inv(s')
  {
    hide Step, Asked, CallOk, Owns;
    StepKeepsForwards(s, a, s');
    StepKeepsCalls(s, a, s');
    StepKeepsConns(s, a, s');
  }

  lemma {:induction false} RunKeepsInv(s: State, actions: seq<Action>)
    requires Inv(s) && Run(s, actions).Some?
    ensures Inv(Run(s, actions).value)
    decreases |actions|
  {
    hide Inv, Step;
    if actions != [] {
      StepKeepsInv(s, actions[0], Step(s, actions[0]).value);
      RunKeepsInv(Step(s, actions[0]).value, actions[1..]);
    }
  }

  /** In every interleaving: a forwarded connection goes to a host and port that one call asked for
      together, at the address it came in on; an address has one listener; and a call that reported
      success left its address registered. */
  lemma UntornTargets(actions: seq<Action>)
    requires Run(Start(), actions).Some?
    ensures var s := Run(Start(), actions).value;
            && (forall i | 0 <= i < |s.conns| :: Asked(s, s.conns[i].key, s.conns[i].target))
            && (forall i, j | 0 <= i < j < |s.forwards| :: s.forwards[i].key != s.forwards[j].key)
            && (forall c | 0 <= c < |s.calls| ::
                  s.calls[c].phase == Done(true) && s.calls[c].target.Some? ==> s.calls[c].key in s.table)
  {
    hide Run;
    RunKeepsInv(Start(), actions);
    var s := Run(Start(), actions).value;
    forall c | 0 <= c < |s.calls|
      ensures s.calls[c].phase == Done(true) && s.calls[c].target.Some? ==> s.calls[c].key in s.table
    {
      assert CallOk(s, c);
    }
  }

  // ----- the gate -----

  ghost predicate Gated(s: State, key: string) {
    key in s.table && s.table[key] < |s.forwards| && s.forwards[s.table[key]].stopped
  }

  /** No call takes effect that re-enables this address. */
  ghost predicate LeavesGated(s: State, key: string, actions: seq<Action>)
    decreases |actions|
  {
    actions != [] ==>
      && (actions[0].Retarget? && actions[0].c < |s.calls| ==> s.calls[actions[0].c].key != key)
      && (Step(s, actions[0]).Some? ==> LeavesGated(Step(s, actions[0]).value, key, actions[1..]))
  }

  function Through(conns: seq<Conn>, key: string): seq<Conn> {
    if conns == [] then []
    else Through(conns[..|conns| - 1], key) + (if conns[|conns| - 1].key == key then [conns[|conns| - 1]] else [])
  }

  lemma ThroughOther(conns: seq<Conn>, x: Conn, key: string)
    requires x.key != key
    ensures Through(conns + [x], key) == Through(conns, key)
  {
    assert (conns + [x])[..|conns|] == conns;
  }

  lemma StepKeepsGated(s: State, key: string, a: Action, s': State)
    requires Inv(s) && Gated(s, key) && Step(s, a) == Some(s')
    requires a.Retarget? && a.c < |s.calls| ==> s.calls[a.c].key != key
    ensures Gated(s', key) && Through(s'.conns, key) == Through(s.conns, key)
  {
    hide Asked, Through;
    assert Owns(s, key, s.table[key]);
    if a.Register? || a.Retarget? || a.Gate? {
      assert CallOk(s, a.c);
    }
    if a.Accept? && s' != s {
      ThroughOther(s.conns, s'.conns[|s.conns|], key);
    }
  }

  /** After a stop took effect, and until a call re-enables the address, nothing that arrives there is
      forwarded, whatever other calls and addresses do meanwhile. */
  lemma {:induction false} GateHolds(s: State, key: string, actions: seq<Action>)
    requires Inv(s) && Gated(s, key) && LeavesGated(s, key, actions) && Run(s, actions).Some?
    ensures Gated(Run(s, actions).value, key)
    ensures Through(Run(s, actions).value.conns, key) == Through(s.conns, key)
    decreases |actions|
  {
    hide Inv, Gated, Step, Through;
    if actions != [] {
      var s' := Step(s, actions[0]).value;
      StepKeepsGated(s, key, actions[0], s');
      StepKeepsInv(s, actions[0], s');
      GateHolds(s', key, actions[1..]);
    }
  }

  /** The same for every reachable state in which a stop has just taken effect. */
  lemma StopGates(before: seq<Action>, c: nat, after: seq<Action>)
    requires Run(Start(), before).Some? && Step(Run(Start(), before).value, Gate(c)).Some?
    requires var s := Run(Start(), before).value;
             && Run(Step(s, Gate(c)).value, after).Some?
             && LeavesGated(Step(s, Gate(c)).value, s.calls[c].key, after)
    ensures var s := Run(Start(), before).value;
            Through(Run(Step(s, Gate(c)).value, after).value.conns, s.calls[c].key) == Through(s.conns, s.calls[c].key)
  {
    hide Run, Through;
    RunKeepsInv(Start(), before);
    var s := Run(Start(), before).value;
    assert CallOk(s, c) && Owns(s, s.calls[c].key, s.table[s.calls[c].key]);
    StepKeepsInv(s, Gate(c), Step(s, Gate(c)).value);
    GateHolds(Step(s, Gate(c)).value, s.calls[c].key, after);
  }

  // ----- an open forward -----

  /** Connections to this address go to this target. */
  ghost predicate Open(s: State, key: string, target: Target) {
    key in s.table && s.table[key] < |s.forwards| && s.forwards[s.table[key]] == Forward(key, target, false)
  }

  /** No call takes effect that retargets or stops this address. */
  ghost predicate LeavesOpen(s: State, key: string, actions: seq<Action>)
    decreases |actions|
  {
    actions != [] ==>
      && ((actions[0].Retarget? || actions[0].Gate?) && actions[0].c < |s.calls| ==> s.calls[actions[0].c].key != key)
      && (Step(s, actions[0]).Some? ==> LeavesOpen(Step(s, actions[0]).value, key, actions[1..]))
  }

  function Arrivals(actions: seq<Action>, id: nat): nat {
    if actions == [] then 0 else (if actions[0] == Accept(id) then 1 else 0) + Arrivals(actions[1..], id)
  }

  function Repeat(x: Conn, n: nat): (r: seq<Conn>)
    ensures |r| == n
  {
    seq(n, _ => x)
  }

  lemma ThroughSame(conns: seq<Conn>, x: Conn)
    ensures Through(conns + [x], x.key) == Through(conns, x.key) + [x]
  {
    assert (conns + [x])[..|conns|] == conns;
  }

  lemma StepKeepsOpen(s: State, key: string, target: Target, a: Action, s': State)
    requires Inv(s) && Open(s, key, target) && Step(s, a) == Some(s')
    requires (a.Retarget? || a.Gate?) && a.c < |s.calls| ==> s.calls[a.c].key != key
    ensures Open(s', key, target) && s'.table[key] == s.table[key]
    ensures Through(s'.conns, key) == Through(s.conns, key) + Repeat(Conn(key, target), if a == Accept(s.table[key]) then 1 else 0)
  {
    hide Asked, Through;
    assert Owns(s, key, s.table[key]);
    if a.Register? || a.Retarget? || a.Gate? {
      assert CallOk(s, a.c);
    }
    if a == Accept(s.table[key]) {
      ThroughSame(s.conns, Conn(key, target));
      assert Repeat(Conn(key, target), 1) == [Conn(key, target)];
    } else {
      if a.Accept? && s' != s {
        ThroughOther(s.conns, s'.conns[|s.conns|], key);
      }
      assert Through(s.conns, key) + [] == Through(s.conns, key);
    }
  }

  /** While an address is open and no call changes that, every connection that arrives there is passed on to
      its target, and none to anywhere else. */
  lemma {:induction false} OpenHolds(s: State, key: string, target: Target, actions: seq<Action>)
    requires Inv(s) && Open(s, key, target) && LeavesOpen(s, key, actions) && Run(s, actions).Some?
    ensures Open(Run(s, actions).value, key, target)
    ensures Through(Run(s, actions).value.conns, key) ==
            Through(s.conns, key) + Repeat(Conn(key, target), Arrivals(actions, s.table[key]))
    decreases |actions|
  {
    hide Inv, Step, Through;
    if actions == [] {
      assert Through(s.conns, key) + [] == Through(s.conns, key);
    } else {
      var s' := Step(s, actions[0]).value;
      StepKeepsOpen(s, key, target, actions[0], s');
      StepKeepsInv(s, actions[0], s');
      OpenHolds(s', key, target, actions[1..]);
      var x, n, m := Conn(key, target), if actions[0] == Accept(s.table[key]) then 1 else 0, Arrivals(actions[1..], s.table[key]);
      assert Repeat(x, n) + Repeat(x, m) == Repeat(x, n + m);
      assert Through(s.conns, key) + Repeat(x, n) + Repeat(x, m) == Through(s.conns, key) + (Repeat(x, n) + Repeat(x, m));
    }
  }

  /** A listener nobody has registered yet is as the call that opened it wants it, and only that call's. */
  ghost predicate Unregistered(s: State, c: nat)
    requires c < |s.calls|
  {
    s.calls[c].phase.Listened? ==>
      && s.calls[c].phase.id < |s.forwards| && s.calls[c].target.Some? && s.calls[c].key !in s.table
      && s.forwards[s.calls[c].phase.id] == Forward(s.calls[c].key, s.calls[c].target.value, false)
  }

  ghost predicate FreshInv(s: State) {
    && (forall c | 0 <= c < |s.calls| :: Unregistered(s, c))
    && (forall c, d | 0 <= c < d < |s.calls| ::
          s.calls[c].phase.Listened? && s.calls[d].phase.Listened? ==> s.calls[c].phase.id != s.calls[d].phase.id)
  }

  lemma StepKeepsFresh(s: State, a: Action, s': State)
    requires Inv(s) && FreshInv(s) && Step(s, a) == Some(s')
    ensures FreshInv(s')
  {
    hide Asked;
    if a.Register? || a.Retarget? || a.Gate? || a.Listen? {
      assert Unregistered(s, a.c) && CallOk(s, a.c);
      if s.calls[a.c].key in s.table {
        assert Owns(s, s.calls[a.c].key, s.table[s.calls[a.c].key]);
      }
    }
    forall c | 0 <= c < |s'.calls| ensures Unregistered(s', c) {
      if c < |s.calls| {
        assert Unregistered(s, c) && CallOk(s, c);
      }
    }
    forall c, d | 0 <= c < d < |s'.calls| && s'.calls[c].phase.Listened? && s'.calls[d].phase.Listened?
      ensures s'.calls[c].phase.id != s'.calls[d].phase.id
    {
      assert c < |s.calls| && d < |s.calls|;
      assert Unregistered(s, c) && Unregistered(s, d);
    }
  }

  lemma {:induction false} RunKeepsFresh(s: State, actions: seq<Action>)
    requires Inv(s) && FreshInv(s) && Run(s, actions).Some?
    ensures FreshInv(Run(s, actions).value)
    decreases |actions|
  {
    hide Inv, FreshInv, Step;
    if actions != [] {
      StepKeepsInv(s, actions[0], Step(s, actions[0]).value);
      StepKeepsFresh(s, actions[0], Step(s, actions[0]).value);
      RunKeepsFresh(Step(s, actions[0]).value, actions[1..]);
    }
  }

  /** In every reachable state, an add that takes effect, by registering its listener or by retargeting one,
      opens its address to its target. */
  lemma AddOpens(before: seq<Action>, a: Action)
    requires (a.Register? || a.Retarget?) && Run(Start(), before).Some? && Step(Run(Start(), before).value, a).Some?
    ensures var s := Run(Start(), before).value;
            && a.c < |s.calls| && s.calls[a.c].target.Some?
            && Open(Step(s, a).value, s.calls[a.c].key, s.calls[a.c].target.value)
  {
    hide Run, Asked;
    RunKeepsInv(Start(), before);
    RunKeepsFresh(Start(), before);
    var s := Run(Start(), before).value;
    assert CallOk(s, a.c) && Unregistered(s, a.c);
    if a.Retarget? {
      assert Owns(s, s.calls[a.c].key, s.table[s.calls[a.c].key]);
    }
  }
}
