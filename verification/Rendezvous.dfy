/** The key exchange on an unbuffered transport, where bytes move only while one end
    is writing and the other is reading. */
module Rendezvous {
  import opened Bytes
  import opened Cipher

  /** The source writes its key beside reading the peer's; the simpler order writes first. */
  datatype Order = WriteBesideRead | WriteThenRead

  /** `sent` bytes of the own public key are handed over, `got` is what came of the peer's;
      `acked` is the writing goroutine's report, `outcome` the end of the handshake. */
  datatype Side = Side(key: seq<byte>, sent: nat, got: seq<byte>, acked: bool, outcome: Option<Option<Streams>>)

  datatype State = State(client: Side, server: Side)

  datatype Move = Transfer(n: nat) | Ack | Finish

  predicate Reading(order: Order, s: Side) {
    |s.got| < KEY_LEN && (order == WriteThenRead ==> s.sent == KEY_LEN)
  }

  /** One move of `from` (its role is `role`), whose peer is `to`; `None` where it cannot happen. */
  function SideStep(p: Suite, order: Order, role: Role, from: Side, to: Side, m: Move): Option<(Side, Side)> {
    match m
    case Transfer(n) =>
      if 0 < n && from.sent + n <= KEY_LEN && Reading(order, to) && |to.got| + n <= KEY_LEN
      then Some((from.(sent := from.sent + n), to.(got := to.got + p.pub(from.key)[from.sent..from.sent + n])))
      else None
    case Ack => if from.sent == KEY_LEN && !from.acked then Some((from.(acked := true), to)) else None
    case Finish =>
      if |from.got| == KEY_LEN && from.acked && from.outcome.None? then
        var secret := SharedSecret(p, Negotiated, role, Some(from.key), from.got);
        Some((from.(outcome := Some(if secret.Some? then Some(StreamsFor(p, role, secret.value)) else None)), to))
      else None
  }

  function Step(p: Suite, order: Order, s: State, role: Role, m: Move): Option<State> {
    match role
    case Client =>
      (match SideStep(p, order, Client, s.client, s.server, m)
       case None => None
       case Some(r) => Some(State(r.0, r.1)))
    case Server =>
      (match SideStep(p, order, Server, s.server, s.client, m)
       case None => None
       case Some(r) => Some(State(r.1, r.0)))
  }

  function Run(p: Suite, order: Order, s: State, moves: seq<(Role, Move)>): Option<State>
    decreases |moves|
  {
    if moves == [] then Some(s)
    else
      var next := Step(p, order, s, moves[0].0, moves[0].1);
      if next.None? then None else Run(p, order, next.value, moves[1..])
  }

  /** Both ends have just entered the exchange with their private keys. */
  function Begin(clientKey: seq<byte>, serverKey: seq<byte>): State {
    State(Side(clientKey, 0, [], false, None), Side(serverKey, 0, [], false, None))
  }

  predicate Finished(s: State) {
    s.client.outcome.Some? && s.server.outcome.Some?
  }

  ghost predicate Stuck(p: Suite, order: Order, s: State) {
    forall role: Role, m: Move :: Step(p, order, s, role, m).None?
  }

  /** Work left at one end: bytes to hand over, the report, the derivation. */
  function Left(s: Side): int {
    KEY_LEN - s.sent + (if s.acked then 0 else 1) + (if s.outcome.Some? then 0 else 1)
  }

  function Measure(s: State): int {
    Left(s.client) + Left(s.server)
  }

  ghost predicate HalfInv(p: Suite, role: Role, a: Side, b: Side) {
    && a.sent <= KEY_LEN
    && b.got == p.pub(a.key)[..a.sent]
    && (a.acked ==> a.sent == KEY_LEN)
    && (a.outcome.Some? ==>
          && a.acked && |a.got| == KEY_LEN
          && a.outcome.value ==
               var secret := p.dh(a.key, a.got);
               if secret.Some? then Some(StreamsFor(p, role, secret.value)) else None)
  }

  ghost predicate Inv(p: Suite, s: State) {
    HalfInv(p, Client, s.client, s.server) && HalfInv(p, Server, s.server, s.client)
  }

  lemma StepKeepsInv(p: Suite, order: Order, s: State, role: Role, m: Move)
    requires Inv(p, s) && Step(p, order, s, role, m).Some?
    ensures Inv(p, Step(p, order, s, role, m).value)
    ensures Measure(Step(p, order, s, role, m).value) < Measure(s)
  {
    var from := if role == Client then s.client else s.server;
    match m
    case Transfer(n) =>
      assert p.pub(from.key)[..from.sent] + p.pub(from.key)[from.sent..from.sent + n] == p.pub(from.key)[..from.sent + n];
    case _ =>
  }

  lemma {:induction false} RunKeepsInv(p: Suite, order: Order, s: State, moves: seq<(Role, Move)>)
    requires Inv(p, s) && Run(p, order, s, moves).Some?
    ensures Inv(p, Run(p, order, s, moves).value)
    ensures Measure(Run(p, order, s, moves).value) + |moves| <= Measure(s)
    decreases |moves|
  {
    if moves != [] {
      StepKeepsInv(p, order, s, moves[0].0, moves[0].1);
      RunKeepsInv(p, order, Step(p, order, s, moves[0].0, moves[0].1).value, moves[1..]);
    }
  }

  /** With the write beside the read, some move is possible until both ends are through. */
  lemma SomeMove(p: Suite, s: State) returns (role: Role, m: Move)
    requires Inv(p, s) && !Finished(s)
    ensures Step(p, WriteBesideRead, s, role, m).Some?
  {
    if s.client.sent < KEY_LEN {
      return Client, Transfer(1);
    } else if s.server.sent < KEY_LEN {
      return Server, Transfer(1);
    } else if !s.client.acked {
      return Client, Ack;
    } else if !s.server.acked {
      return Server, Ack;
    } else if s.client.outcome.None? {
      return Client, Finish;
    } else {
      return Server, Finish;
    }
  }

  /** Handshake progress: however the exchange is scheduled it takes at most 68 moves, it can
      always go on until both ends are through, and then they hold mirrored streams, or key
      agreement failed at both. */
  lemma Progress(p: Suite, clientKey: seq<byte>, serverKey: seq<byte>, moves: seq<(Role, Move)>)
    requires Run(p, WriteBesideRead, Begin(clientKey, serverKey), moves).Some?
    ensures |moves| <= 68
    ensures var s := Run(p, WriteBesideRead, Begin(clientKey, serverKey), moves).value;
            && (Stuck(p, WriteBesideRead, s) <==> Finished(s))
            && (Finished(s) ==>
                  match (s.client.outcome.value, s.server.outcome.value)
                  case (Some(c), Some(v)) => c.r == v.w && c.w == v.r
                  case (None, None) => true
                  case _ => false)
  {
    var start := Begin(clientKey, serverKey);
    RunKeepsInv(p, WriteBesideRead, start, moves);
    var s := Run(p, WriteBesideRead, start, moves).value;
    RunKeepsKeys(p, WriteBesideRead, start, moves);
    MeasureNonNegative(p, s);
    if !Finished(s) {
      var role, m := SomeMove(p, s);
    } else {
      assert s.client.got == p.pub(serverKey) && s.server.got == p.pub(clientKey);
    }
  }

  lemma MeasureNonNegative(p: Suite, s: State)
    requires Inv(p, s)
    ensures Measure(s) >= 0
  {
  }

  lemma {:induction false} RunKeepsKeys(p: Suite, order: Order, s: State, moves: seq<(Role, Move)>)
    requires Run(p, order, s, moves).Some?
    ensures Run(p, order, s, moves).value.client.key == s.client.key
    ensures Run(p, order, s, moves).value.server.key == s.server.key
    decreases |moves|
  {
    if moves != [] {
      RunKeepsKeys(p, order, Step(p, order, s, moves[0].0, moves[0].1).value, moves[1..]);
    }
  }

  /** Writing before reading deadlocks at once: no move is possible and nobody is through. */
  lemma WriteFirstDeadlocks(p: Suite, clientKey: seq<byte>, serverKey: seq<byte>)
    ensures Stuck(p, WriteThenRead, Begin(clientKey, serverKey))
    ensures !Finished(Begin(clientKey, serverKey))
  {
  }
}
