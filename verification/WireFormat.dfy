/** What is on the wires, byte for byte, in every run of the tunnel; and that data does get through. */
module WireFormat {
  import opened Bytes
  import opened Cipher
  import opened Tunnel

  /** The secret, from what the two ends sent first: the hashed passphrase and the client's seed, or the
      agreement between the peer's key and the private key whose public key this end sent. */
  ghost predicate IsSecret(p: Suite, mode: Mode, up: seq<byte>, down: seq<byte>, role: Role, secret: seq<byte>) {
    match mode
    case Psk(psk) => |up| >= 16 && secret == p.hash(psk) + up[..16]
    case Negotiated =>
      && |up| >= 32 && |down| >= 32
      && var (mine, theirs) := if role == Client then (up[..32], down[..32]) else (down[..32], up[..32]);
      exists priv: seq<byte> :: p.pub(priv) == mine && p.dh(priv, theirs) == Some(secret)
  }

  /** Byte `j` of a direction's keystream: of the cipher block of the counter that stands `j / 16` after the
      direction's initial one, under the key both directions share. */
  ghost predicate IsKeyByte(p: Suite, secret: seq<byte>, direction: string, j: nat, b: byte) {
    var keymat := p.hash(secret);
    exists c: seq<byte> ::
      CounterAt(c, p.hash(keymat + Ascii(direction))[..16], j / 16) && b == p.block(p.hash(keymat + Ascii("key")), c)[j % 16]
  }

  /** After the preamble, byte for byte, the plaintext under the keystream of the direction. */
  ghost predicate Formatted(p: Suite, secret: seq<byte>, direction: string, skip: nat, plain: seq<byte>, log: seq<byte>) {
    forall j | 0 <= j < |log| - skip :: j < |plain| && MaskedByte(p, secret, direction, j, plain[j], log[skip + j])
  }

  ghost predicate MaskedByte(p: Suite, secret: seq<byte>, direction: string, j: nat, plain: byte, masked: byte) {
    exists b: byte :: IsKeyByte(p, secret, direction, j, b) && masked == Xor(plain, b)
  }

  lemma Labels()
    ensures Ascii("key") == KEY_LABEL && Ascii("up") == UP_LABEL && Ascii("down") == DOWN_LABEL
  {
  }

  function Direction(role: Role): string {
    if role == Client then "up" else "down"
  }

  /** A byte of an end's writing stream is a key byte of its direction. */
  lemma StreamByte(p: Suite, role: Role, secret: seq<byte>, j: nat)
    ensures IsKeyByte(p, secret, Direction(role), j, KeyByte(p, StreamsFor(p, role, secret).w, j))
  {
    hide CounterBlock;
    Labels();
    var w := StreamsFor(p, role, secret).w;
    CounterBlockAt(w.iv, j / 16);
  }

  lemma PayloadFormatted(p: Suite, mode: Mode, e: End, out: Wire, secret: seq<byte>)
    requires OutInv(p, mode, e, out) && e.once.Ready? && e.once.streams == StreamsFor(p, e.role, secret)
    ensures Formatted(p, secret, Direction(e.role), PreambleLen(mode, e.role), e.plainOut, out.log)
  {
    hide Mask, Xor, KeyByte, StreamsFor, IsKeyByte, OutInv;
    OutIsProper(p, mode, e, out);
    var skip, w := PreambleLen(mode, e.role), e.once.streams.w;
    var preamble := Announce(p, mode, e.role, e.own);
    var masked := Mask(p, w, 0, e.plainOut);
    forall j | 0 <= j < |out.log| - skip
      ensures j < |e.plainOut| && MaskedByte(p, secret, Direction(e.role), j, e.plainOut[j], out.log[skip + j])
    {
      assert |preamble| == skip && out.log <= preamble + masked;
      assert out.log[skip + j] == (preamble + masked)[skip + j] == masked[j];
      MaskAt(p, w, 0, e.plainOut, j);
      StreamByte(p, e.role, secret, j);
    }
  }

  /** The secret an end came by is the one the wires show. */
  lemma SecretShown(p: Suite, mode: Mode, e: End, inn: Wire, out: Wire, up: seq<byte>, down: seq<byte>)
    requires OutInv(p, mode, e, out) && InInv(p, mode, e, inn) && e.once.Ready?
    requires (up, down) == if e.role == Client then (out.log, inn.log) else (inn.log, out.log)
    ensures IsSecret(p, mode, up, down, e.role, Secret(p, mode, e).value)
  {
    hide Mask, OutInv;
    OutIsProper(p, mode, e, out);
    var preamble := Announce(p, mode, e.role, e.own);
    assert preamble == out.log[..|preamble|];
    assert e.own.Some? || (mode.Psk? && e.role == Server) by { OwnDrawn(p, mode, e, out); }
  }

  lemma OwnDrawn(p: Suite, mode: Mode, e: End, out: Wire)
    requires OutInv(p, mode, e, out) && e.once.Ready?
    ensures e.own.Some? || (mode.Psk? && e.role == Server)
  {
  }

  ghost predicate EndFormatted(p: Suite, mode: Mode, e: End, up: seq<byte>, down: seq<byte>) {
    exists secret: seq<byte> ::
      && IsSecret(p, mode, up, down, e.role, secret)
      && Formatted(p, secret, Direction(e.role), PreambleLen(mode, e.role), e.plainOut, if e.role == Client then up else down)
  }

  /** Wire format: in every schedule, an end that finished the handshake has sent its preamble and then its
      plaintext, byte j under byte j of its direction's keystream, from the secret the preambles show. */
  lemma EverythingFormatted(p: Suite, mode: Mode, schedule: seq<(Role, Action)>)
    requires Run(p, mode, Start(), schedule).Some?
    ensures var s := Run(p, mode, Start(), schedule).value;
            && (s.client.once.Ready? ==> EndFormatted(p, mode, s.client, s.up.log, s.down.log))
            && (s.server.once.Ready? ==> EndFormatted(p, mode, s.server, s.up.log, s.down.log))
  {
    hide Run, OutInv, InInv, Formatted, IsSecret;
    StartInv(p, mode);
    RunKeepsInv(p, mode, Start(), schedule);
    var s := Run(p, mode, Start(), schedule).value;
    if s.client.once.Ready? {
      FormattedEnd(p, mode, s.client, s.down, s.up, s.up.log, s.down.log);
    }
    if s.server.once.Ready? {
      FormattedEnd(p, mode, s.server, s.up, s.down, s.up.log, s.down.log);
    }
  }

  lemma StartInv(p: Suite, mode: Mode)
    ensures Inv(p, mode, Start())
  {
  }

  lemma FormattedEnd(p: Suite, mode: Mode, e: End, inn: Wire, out: Wire, up: seq<byte>, down: seq<byte>)
    requires OutInv(p, mode, e, out) && InInv(p, mode, e, inn) && e.once.Ready?
    requires (up, down) == if e.role == Client then (out.log, inn.log) else (inn.log, out.log)
    ensures EndFormatted(p, mode, e, up, down)
  {
    hide OutInv, Formatted, IsSecret, Mask, StreamsFor, Secret;
    var secret := Secret(p, mode, e).value;
    SecretShown(p, mode, e, inn, out, up, down);
    PayloadFormatted(p, mode, e, out, secret);
  }

  /** The two directions do not share counters unless the hash of two different texts starts alike. */
  lemma DirectionsDiffer(p: Suite, role: Role, secret: seq<byte>)
    ensures var streams, keymat := StreamsFor(p, role, secret), p.hash(secret);
            && streams.r.key == streams.w.key
            && (streams.r.iv == streams.w.iv ==>
                  keymat + Ascii("up") != keymat + Ascii("down") &&
                  p.hash(keymat + Ascii("up"))[..16] == p.hash(keymat + Ascii("down"))[..16])
  {
    Labels();
    assert |Ascii("up")| != |Ascii("down")|;
  }

  // ----- data gets through -----

  function LinkOf(s: State, role: Role): Link {
    if role == Client then Link(s.client, s.down, s.up) else Link(s.server, s.up, s.down)
  }

  function WithLink(s: State, role: Role, k: Link): State {
    if role == Client then State(k.e, s.server, k.out, k.inn) else State(s.client, k.e, k.inn, k.out)
  }

  function Peer(role: Role): Role {
    if role == Client then Server else Client
  }

  /** One action in front of a schedule. */
  lemma RunOne(p: Suite, mode: Mode, s: State, role: Role, a: Action, k: Link, rest: seq<(Role, Action)>)
    requires EndStep(p, mode, LinkOf(s, role), a) == Some(k)
    ensures Run(p, mode, s, [(role, a)] + rest) == Run(p, mode, WithLink(s, role, k), rest)
  {
    hide EndStep;
    assert ([(role, a)] + rest)[1..] == rest;
  }

  /** One write of an end, and one read of its peer that takes all of it. */
  function Exchange(role: Role, n: nat, data: seq<byte>): seq<(Role, Action)> {
    [(role, CallWrite(data))] + ([(role, StartWrite)] + ([(role, Push(n))] + ([(role, EndWrite)] + [(Peer(role), TakeData(n))])))
  }

  /** The writer's four actions on an idle, unbroken link. */
  function Written(p: Suite, k: Link, data: seq<byte>): Link
    requires k.e.once.Ready?
  {
    k.(e := k.e.(wpos := k.e.wpos + |data|, plainOut := k.e.plainOut + data, pending := [],
                 results := k.e.results + [Wrote(false)]),
       out := k.out.(log := k.out.log + Mask(p, k.e.once.streams.w, k.e.wpos, data)))
  }

  ghost predicate CanSend(k: Link) {
    k.e.once.Ready? && k.e.writer.WriterIdle? && k.e.pending == [] && !k.out.broken
  }

  lemma WriteGoesOut(p: Suite, mode: Mode, s: State, role: Role, data: seq<byte>, rest: seq<(Role, Action)>)
    requires CanSend(LinkOf(s, role))
    ensures Run(p, mode, s, [(role, CallWrite(data))] + ([(role, StartWrite)] + ([(role, Push(|data|))] + ([(role, EndWrite)] + rest))))
            == Run(p, mode, WithLink(s, role, Written(p, LinkOf(s, role), data)), rest)
  {
    hide Run, Mask;
    var k := LinkOf(s, role);
    var masked := Mask(p, k.e.once.streams.w, k.e.wpos, data);
    var k1 := k.(e := k.e.(writer := WriterWaiting(data)));
    var k2 := k.(e := k.e.(writer := WriterSending, wpos := k.e.wpos + |data|, plainOut := k.e.plainOut + data, pending := masked));
    var k3 := k2.(e := k2.e.(pending := []), out := k.out.(log := k.out.log + masked));
    var k4 := Written(p, k, data);
    assert masked[|data|..] == [] && masked[..|data|] == masked;
    var s1, s2, s3 := WithLink(s, role, k1), WithLink(s, role, k2), WithLink(s, role, k3);
    var r3 := [(role, EndWrite)] + rest;
    var r2 := [(role, Push(|data|))] + r3;
    var r1 := [(role, StartWrite)] + r2;
    RunOne(p, mode, s, role, CallWrite(data), k1, r1);
    RunOne(p, mode, s1, role, StartWrite, k2, r2);
    RunOne(p, mode, s2, role, Push(|data|), k3, r3);
    RunOne(p, mode, s3, role, EndWrite, k4, rest);
  }

  /** From every state in which both ends are through the handshake: what an idle end writes on a drained,
      unbroken wire reaches a peer that reads. */
  lemma Delivery(p: Suite, mode: Mode, s: State, role: Role, data: seq<byte>, rest: seq<(Role, Action)>)
    requires Inv(p, mode, s) && data != [] && CanSend(LinkOf(s, role))
    requires var k := LinkOf(s, Peer(role));
             k.e.once.Ready? && k.e.reader.ReaderWaiting? && k.inn.taken == |k.inn.log|
    ensures var peer, k := LinkOf(s, Peer(role)).e, LinkOf(Delivered(p, s, role, data), Peer(role));
            && Run(p, mode, s, Exchange(role, |data|, data) + rest) == Run(p, mode, Delivered(p, s, role, data), rest)
            && k.e.plainIn == peer.plainIn + data
  {
    hide Run, Mask, OutInv, InInv;
    var k := LinkOf(s, role);
    var s1 := WithLink(s, role, Written(p, k, data));
    var k' := LinkOf(s1, Peer(role));
    var tail := [(Peer(role), TakeData(|data|))] + rest;
    assert Exchange(role, |data|, data) + rest ==
      [(role, CallWrite(data))] + ([(role, StartWrite)] + ([(role, Push(|data|))] + ([(role, EndWrite)] + tail)));
    WriteGoesOut(p, mode, s, role, data, tail);
    RunOne(p, mode, s1, Peer(role), TakeData(|data|), Unmasked(p, k', |data|), rest);
    InStep(p, mode, s, role);
    var masked := Mask(p, k.e.once.streams.w, k.e.wpos, data);
    assert k'.inn.log[k'.inn.taken..k'.inn.taken + |data|] == masked;
    MaskTwice(p, k.e.once.streams.w, k.e.wpos, data);
  }

  function Delivered(p: Suite, s: State, role: Role, data: seq<byte>): State
    requires LinkOf(s, role).e.once.Ready? && data != []
    requires var k := LinkOf(s, Peer(role)); k.e.once.Ready? && k.e.reader.ReaderWaiting? && k.inn.taken == |k.inn.log|
  {
    var s1 := WithLink(s, role, Written(p, LinkOf(s, role), data));
    WithLink(s1, Peer(role), Unmasked(p, LinkOf(s1, Peer(role)), |data|))
  }

  /** On a drained, unbroken wire reader and writer are at the same place of the same stream. */
  lemma InStep(p: Suite, mode: Mode, s: State, role: Role)
    requires Inv(p, mode, s) && CanSend(LinkOf(s, role))
    requires var k := LinkOf(s, Peer(role)); k.e.once.Ready? && k.inn.taken == |k.inn.log|
    ensures var e, peer := LinkOf(s, role).e, LinkOf(s, Peer(role)).e;
            e.once.streams.w == peer.once.streams.r && e.wpos == peer.rpos
  {
    StreamsMirror(p, mode, s);
    var k, k' := LinkOf(s, role), LinkOf(s, Peer(role));
    DirectionTransparent(p, mode, k'.e, k.e, k.out);
  }

  // ----- the handshake can succeed -----

  /** What an end draws: the server draws nothing when there is a passphrase. */
  function Draws(mode: Mode, role: Role, random: seq<byte>): Option<seq<byte>> {
    if mode.Psk? && role == Server then None else Some(random)
  }

  function Sends(p: Suite, mode: Mode, role: Role, random: seq<byte>): seq<byte> {
    Announce(p, mode, role, Draws(mode, role, random))
  }

  lemma SendsLength(p: Suite, mode: Mode, role: Role, random: seq<byte>)
    requires Drawn(mode, role, random)
    ensures |Sends(p, mode, role, random)| == Need(mode, Peer(role))
  {
  }

  function Opening(role: Role, random: seq<byte>, n: nat, err: Error): seq<(Role, Action)> {
    [(role, CallRead)] + ([(role, Enter(Reader, Some(random), err))] + [(role, Push(n))])
  }

  function Closing(role: Role, n: nat, err: Error): seq<(Role, Action)> {
    [(role, TakePreamble(n))] + [(role, Finish(err))]
  }

  /** An end that has announced itself. */
  function Opened(p: Suite, mode: Mode, role: Role, random: seq<byte>, inn: Wire): Link {
    Link(Init(role).(once := Running(Reader), own := Draws(mode, role, random), reader := ReaderWaiting), inn,
         Wire(Sends(p, mode, role, random), 0, false))
  }

  lemma Opens(p: Suite, mode: Mode, s: State, role: Role, random: seq<byte>, err: Error, rest: seq<(Role, Action)>)
    requires LinkOf(s, role).e == Init(role) && LinkOf(s, role).out == Wire([], 0, false) && Drawn(mode, role, random)
    ensures Run(p, mode, s, Opening(role, random, |Sends(p, mode, role, random)|, err) + rest)
            == Run(p, mode, WithLink(s, role, Opened(p, mode, role, random, LinkOf(s, role).inn)), rest)
  {
    hide Run;
    var k, a := LinkOf(s, role), Sends(p, mode, role, random);
    var k1 := k.(e := k.e.(reader := ReaderWaiting));
    var k2 := k.(e := k1.e.(once := Running(Reader), own := Draws(mode, role, random), pending := a));
    var k3 := Opened(p, mode, role, random, k.inn);
    assert a[|a|..] == [] && a[..|a|] == a && [] + a == a;
    var r2 := [(role, Push(|a|))] + rest;
    var r1 := [(role, Enter(Reader, Some(random), err))] + r2;
    RunOne(p, mode, s, role, CallRead, k1, r1);
    RunOne(p, mode, WithLink(s, role, k1), role, Enter(Reader, Some(random), err), k2, r2);
    RunOne(p, mode, WithLink(s, role, k2), role, Push(|a|), k3, rest);
    assert Opening(role, random, |a|, err) + rest == [(role, CallRead)] + r1;
  }

  /** The same end after the peer's announcement `a` and with the streams of the secret. */
  function Closed(p: Suite, k: Link, a: seq<byte>, secret: seq<byte>): Link {
    k.(e := k.e.(once := Ready(StreamsFor(p, k.e.role, secret)), peer := a), inn := k.inn.(taken := |a|))
  }

  lemma Closes(p: Suite, mode: Mode, s: State, role: Role, a: seq<byte>, secret: seq<byte>, err: Error, rest: seq<(Role, Action)>)
    requires var k := LinkOf(s, role);
             && k.e.role == role && k.e.once.Running? && k.e.peer == [] && k.e.pending == []
             && k.inn.log == a && k.inn.taken == 0 && |a| == Need(mode, role)
             && SharedSecret(p, mode, role, k.e.own, a) == Some(secret)
    ensures Run(p, mode, s, Closing(role, |a|, err) + rest)
            == Run(p, mode, WithLink(s, role, Closed(p, LinkOf(s, role), a, secret)), rest)
  {
    hide Run, StreamsFor, SharedSecret;
    var k := LinkOf(s, role);
    var k1 := k.(e := k.e.(peer := a), inn := k.inn.(taken := |a|));
    assert a[0..|a|] == a && [] + a == a;
    var r1 := [(role, Finish(err))] + rest;
    RunOne(p, mode, s, role, TakePreamble(|a|), k1, r1);
    RunOne(p, mode, WithLink(s, role, k1), role, Finish(err), Closed(p, k, a, secret), rest);
    assert Closing(role, |a|, err) + rest == [(role, TakePreamble(|a|))] + r1;
  }

  /** Handshake, a write of the client, a write of the server. */
  function Conversation(p: Suite, mode: Mode, cs: seq<byte>, ss: seq<byte>, err: Error, d1: seq<byte>, d2: seq<byte>): seq<(Role, Action)> {
    var a, b := |Sends(p, mode, Client, cs)|, |Sends(p, mode, Server, ss)|;
    Opening(Client, cs, a, err) + (Opening(Server, ss, b, err) + (Closing(Client, b, err) + (Closing(Server, a, err) +
      (Exchange(Client, |d1|, d1) + (Exchange(Server, |d2|, d2) + [])))))
  }

  /** Both ends through the handshake, their readers waiting. */
  function Connected(p: Suite, mode: Mode, cs: seq<byte>, ss: seq<byte>, secret: seq<byte>): State {
    var a, b := Sends(p, mode, Client, cs), Sends(p, mode, Server, ss);
    var c := Closed(p, Opened(p, mode, Client, cs, Wire(b, 0, false)), b, secret);
    var v := Closed(p, Opened(p, mode, Server, ss, Wire(a, 0, false)), a, secret);
    State(c.e, v.e, Wire(a, |a|, false), Wire(b, |b|, false))
  }

  lemma Connects(p: Suite, mode: Mode, cs: seq<byte>, ss: seq<byte>, err: Error, secret: seq<byte>, rest: seq<(Role, Action)>)
    requires Drawn(mode, Client, cs)
    requires SharedSecret(p, mode, Client, Draws(mode, Client, cs), Sends(p, mode, Server, ss)) == Some(secret)
    ensures var a, b := |Sends(p, mode, Client, cs)|, |Sends(p, mode, Server, ss)|;
            Run(p, mode, Start(), Opening(Client, cs, a, err) + (Opening(Server, ss, b, err) + (Closing(Client, b, err) + (Closing(Server, a, err) + rest))))
            == Run(p, mode, Connected(p, mode, cs, ss, secret), rest)
  {
    hide Run, Opening, Closing, StreamsFor, Announce, SharedSecret;
    var a, b := Sends(p, mode, Client, cs), Sends(p, mode, Server, ss);
    SendsLength(p, mode, Client, cs);
    SendsLength(p, mode, Server, ss);
    var r3 := Closing(Server, |a|, err) + rest;
    var r2 := Closing(Client, |b|, err) + r3;
    var r1 := Opening(Server, ss, |b|, err) + r2;
    var s1 := WithLink(Start(), Client, Opened(p, mode, Client, cs, Wire([], 0, false)));
    Opens(p, mode, Start(), Client, cs, err, r1);
    var s2 := WithLink(s1, Server, Opened(p, mode, Server, ss, Wire(a, 0, false)));
    Opens(p, mode, s1, Server, ss, err, r2);
    var s3 := WithLink(s2, Client, Closed(p, LinkOf(s2, Client), b, secret));
    Closes(p, mode, s2, Client, b, secret, err, r3);
    assert SharedSecret(p, mode, Server, Draws(mode, Server, ss), a) == Some(secret) by { SecretsAgree(p, mode, cs, ss); }
    Closes(p, mode, s3, Server, a, secret, err, rest);
  }

  lemma SecretsAgree(p: Suite, mode: Mode, cs: seq<byte>, ss: seq<byte>)
    requires Drawn(mode, Client, cs)
    ensures SharedSecret(p, mode, Client, Draws(mode, Client, cs), Sends(p, mode, Server, ss))
            == SharedSecret(p, mode, Server, Draws(mode, Server, ss), Sends(p, mode, Client, cs))
  {
  }

  /** A conversation that works: for every mode, draws whose keys agree and data, some schedule from the very
      start shakes hands and carries the client's data to the server and the server's to the client. */
  lemma ConversationWorks(p: Suite, mode: Mode, cs: seq<byte>, ss: seq<byte>, err: Error, d1: seq<byte>, d2: seq<byte>)
    requires Drawn(mode, Client, cs) && d1 != [] && d2 != []
    requires mode.Negotiated? ==> p.dh(cs, p.pub(ss)).Some?
    ensures Run(p, mode, Start(), Conversation(p, mode, cs, ss, err, d1, d2)).Some?
    ensures var s := Run(p, mode, Start(), Conversation(p, mode, cs, ss, err, d1, d2)).value;
            s.client.plainOut == s.server.plainIn == d1 && s.server.plainOut == s.client.plainIn == d2
  {
    hide Run, Opening, Closing, Exchange, StreamsFor, Mask, Inv;
    var secret := SharedSecret(p, mode, Client, Draws(mode, Client, cs), Sends(p, mode, Server, ss)).value;
    var s0 := Connected(p, mode, cs, ss, secret);
    var tail := Exchange(Client, |d1|, d1) + (Exchange(Server, |d2|, d2) + []);
    Connects(p, mode, cs, ss, err, secret, tail);
    ConnectedInv(p, mode, cs, ss, err, secret);
    Delivery(p, mode, s0, Client, d1, Exchange(Server, |d2|, d2) + []);
    var s1 := Delivered(p, s0, Client, d1);
    DeliveredInv(p, mode, s0, Client, d1);
    Delivery(p, mode, s1, Server, d2, []);
    RunNone(p, mode, Delivered(p, s1, Server, d2));
  }

  lemma RunNone(p: Suite, mode: Mode, s: State)
    ensures Run(p, mode, s, []) == Some(s)
  {
  }

  lemma ConnectedInv(p: Suite, mode: Mode, cs: seq<byte>, ss: seq<byte>, err: Error, secret: seq<byte>)
    requires Drawn(mode, Client, cs)
    requires SharedSecret(p, mode, Client, Draws(mode, Client, cs), Sends(p, mode, Server, ss)) == Some(secret)
    ensures Inv(p, mode, Connected(p, mode, cs, ss, secret))
  {
    hide Run, Opening, Closing, StreamsFor, Inv;
    var a, b := |Sends(p, mode, Client, cs)|, |Sends(p, mode, Server, ss)|;
    var all := Opening(Client, cs, a, err) + (Opening(Server, ss, b, err) + (Closing(Client, b, err) + (Closing(Server, a, err) + [])));
    Connects(p, mode, cs, ss, err, secret, []);
    RunNone(p, mode, Connected(p, mode, cs, ss, secret));
    StartInv(p, mode);
    RunKeepsInv(p, mode, Start(), all);
  }

  lemma DeliveredInv(p: Suite, mode: Mode, s: State, role: Role, data: seq<byte>)
    requires Inv(p, mode, s) && data != [] && CanSend(LinkOf(s, role))
    requires var k := LinkOf(s, Peer(role));
             k.e.once.Ready? && k.e.reader.ReaderWaiting? && k.inn.taken == |k.inn.log|
    ensures Inv(p, mode, Delivered(p, s, role, data))
  {
    hide Run, Exchange, Inv;
    Delivery(p, mode, s, role, data, []);
    RunNone(p, mode, Delivered(p, s, role, data));
    RunKeepsInv(p, mode, s, Exchange(role, |data|, data) + []);
  }
}
