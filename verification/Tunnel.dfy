/** Both ends of the obfuscated connection as a step machine over two FIFO byte wires.

    Each end has a reader and a writer thread that race into the one-shot handshake.
    A write reaches the wire in arbitrary pieces, a read takes an arbitrary piece, a
    wire may break at any moment, and random choices are arguments of the actions. */
module Tunnel {
  import opened Bytes
  import opened Cipher

  /** `Running` names the thread inside `once.Do`; every other caller waits for it. */
  datatype Once = NotRun | Running(runner: Thread) | Failed(err: Error) | Ready(streams: Streams)

  datatype Thread = Reader | Writer

  datatype ReaderCall = ReaderIdle | ReaderWaiting
  datatype WriterCall = WriterIdle | WriterWaiting(data: seq<byte>) | WriterSending

  datatype Return = HandshakeError(err: Error) | Wrote(failed: bool) | ReadData(data: seq<byte>) | ReadError

  /** One end. `own` is its seed or private key, `peer` the preamble bytes read so far,
      `pending` what remains of the transport write in progress; `plainOut` and `plainIn`
      are everything handed to completed masking and everything returned by reads. */
  datatype End = End(
    role: Role, once: Once, own: Option<seq<byte>>, peer: seq<byte>, pending: seq<byte>,
    rpos: nat, wpos: nat, reader: ReaderCall, writer: WriterCall,
    plainOut: seq<byte>, plainIn: seq<byte>, results: seq<Return>)

  /** A FIFO: every byte it accepted, and how many of them the receiver has taken. */
  datatype Wire = Wire(log: seq<byte>, taken: nat, broken: bool)

  datatype Link = Link(e: End, inn: Wire, out: Wire)

  datatype Action =
    | CallRead
    | CallWrite(data: seq<byte>)
    | Enter(caller: Thread, random: Option<seq<byte>>, err: Error)
    | Push(n: nat)
    | BreakOut
    | TakePreamble(n: nat)
    | Fail(err: Error)
    | Finish(err: Error)
    | ReturnError(t: Thread)
    | StartWrite
    | EndWrite
    | TakeData(n: nat)
    | FailData

  /** The shared secret an end computes from its own choice and the preamble it read. */
  function Secret(p: Suite, mode: Mode, e: End): Option<seq<byte>> {
    SharedSecret(p, mode, e.role, e.own, e.peer)
  }

  function Init(role: Role): End {
    End(role, NotRun, None, [], [], 0, 0, ReaderIdle, WriterIdle, [], [], [])
  }

  predicate Waiting(e: End, t: Thread) {
    match t
    case Reader => e.reader.ReaderWaiting?
    case Writer => e.writer.WriterWaiting?
  }

  function Leave(e: End, t: Thread, r: Return): End {
    match t
    case Reader => e.(reader := ReaderIdle, results := e.results + [r])
    case Writer => e.(writer := WriterIdle, results := e.results + [r])
  }

  /** The first caller starts the handshake: the end draws its random choice, or fails to,
      and begins to send its preamble. */
  function Entered(p: Suite, mode: Mode, k: Link, t: Thread, random: Option<seq<byte>>, err: Error): Option<Link> {
    var e := k.e;
    if !Waiting(e, t) || !e.once.NotRun? then None
    else if mode.Psk? && e.role == Server then Some(k.(e := e.(once := Running(t))))
    else if random.None? then Some(k.(e := e.(once := Failed(err))))
    else if !Drawn(mode, e.role, random.value) then None
    else Some(k.(e := e.(once := Running(t), own := random, pending := Announce(p, mode, e.role, random))))
  }

  /** `n` more bytes of the transport write in progress reach the wire. */
  function Pushed(k: Link, n: nat): Link
    requires n <= |k.e.pending|
  {
    k.(e := k.e.(pending := k.e.pending[n..]), out := k.out.(log := k.out.log + k.e.pending[..n]))
  }

  predicate CanFinish(mode: Mode, e: End) {
    e.once.Running? && |e.peer| == Need(mode, e.role) && e.pending == []
  }

  /** The preambles are exchanged: the end derives its streams, or key agreement fails. */
  function Finished(p: Suite, mode: Mode, k: Link, err: Error): Link {
    var secret := Secret(p, mode, k.e);
    if secret.Some? then k.(e := k.e.(once := Ready(StreamsFor(p, k.e.role, secret.value))))
    else k.(e := k.e.(once := Failed(err)))
  }

  predicate CanWrite(e: End) {
    e.writer.WriterWaiting? && e.once.Ready?
  }

  /** A write past the handshake masks all its data, then hands it to the transport;
      a broken transport accepts none of it. */
  function Masked(p: Suite, k: Link): Link
    requires CanWrite(k.e)
  {
    var e, data := k.e, k.e.writer.data;
    k.(e := e.(writer := WriterSending, wpos := e.wpos + |data|, plainOut := e.plainOut + data,
               pending := if k.out.broken then e.pending else Mask(p, e.once.streams.w, e.wpos, data)))
  }

  predicate CanTake(k: Link, n: nat) {
    k.e.reader.ReaderWaiting? && k.e.once.Ready? && 0 < n && k.inn.taken + n <= |k.inn.log|
  }

  /** A read past the handshake takes `n` bytes off the wire and unmasks them. */
  function Unmasked(p: Suite, k: Link, n: nat): Link
    requires CanTake(k, n)
  {
    var e, inn := k.e, k.inn;
    var data := Mask(p, e.once.streams.r, e.rpos, inn.log[inn.taken..inn.taken + n]);
    k.(e := Leave(e.(rpos := e.rpos + n, plainIn := e.plainIn + data), Reader, ReadData(data)),
       inn := inn.(taken := inn.taken + n))
  }

  /** One action of one end; `None` where the action is not enabled. */
  function EndStep(p: Suite, mode: Mode, k: Link, a: Action): Option<Link> {
    var Link(e, inn, out) := k;
    match a
    case CallRead =>
      if e.reader.ReaderIdle? then Some(k.(e := e.(reader := ReaderWaiting))) else None
    case CallWrite(data) =>
      if e.writer.WriterIdle? then Some(k.(e := e.(writer := WriterWaiting(data)))) else None
    case Enter(t, random, err) => Entered(p, mode, k, t, random, err)
    case Push(n) => if n <= |e.pending| && !out.broken then Some(Pushed(k, n)) else None
    case BreakOut => Some(k.(out := out.(broken := true)))
    case TakePreamble(n) =>
      if e.once.Running? && |e.peer| + n <= Need(mode, e.role) && inn.taken + n <= |inn.log|
      then Some(k.(e := e.(peer := e.peer + inn.log[inn.taken..inn.taken + n]), inn := inn.(taken := inn.taken + n)))
      else None
    case Fail(err) =>
      if e.once.Running? && (|e.peer| < Need(mode, e.role) || (e.pending != [] && out.broken))
      then Some(k.(e := e.(once := Failed(err)))) else None
    case Finish(err) => if CanFinish(mode, e) then Some(Finished(p, mode, k, err)) else None
    case ReturnError(t) =>
      if Waiting(e, t) && e.once.Failed? then Some(k.(e := Leave(e, t, HandshakeError(e.once.err)))) else None
    case StartWrite => if CanWrite(e) && (e.pending == [] || out.broken) then Some(Masked(p, k)) else None
    case EndWrite =>
      if e.writer.WriterSending? && (e.pending == [] || out.broken)
      then Some(k.(e := Leave(e, Writer, Wrote(e.pending != [])))) else None
    case TakeData(n) => if CanTake(k, n) then Some(Unmasked(p, k, n)) else None
    case FailData =>
      if e.reader.ReaderWaiting? && e.once.Ready? then Some(k.(e := Leave(e, Reader, ReadError))) else None
  }

  datatype State = State(client: End, server: End, up: Wire, down: Wire)

  function Start(): State {
    State(Init(Client), Init(Server), Wire([], 0, false), Wire([], 0, false))
  }

  function Step(p: Suite, mode: Mode, s: State, role: Role, a: Action): Option<State> {
    match role
    case Client =>
      (match EndStep(p, mode, Link(s.client, s.down, s.up), a)
       case None => None
       case Some(k) => Some(State(k.e, s.server, k.out, k.inn)))
    case Server =>
      (match EndStep(p, mode, Link(s.server, s.up, s.down), a)
       case None => None
       case Some(k) => Some(State(s.client, k.e, k.inn, k.out)))
  }

  /** The state after a whole schedule; `None` if some action of it was not enabled. */
  function Run(p: Suite, mode: Mode, s: State, schedule: seq<(Role, Action)>): Option<State>
    decreases |schedule|
  {
    if schedule == [] then Some(s)
    else
      var next := Step(p, mode, s, schedule[0].0, schedule[0].1);
      if next.None? then None else Run(p, mode, next.value, schedule[1..])
  }

  // ----- what every step keeps -----

  /** Everything an end has ever meant to send: its preamble, then its masked payload. */
  function Emitted(p: Suite, mode: Mode, e: End): seq<byte> {
    Announce(p, mode, e.role, e.own) + (if e.once.Ready? then Mask(p, e.once.streams.w, 0, e.plainOut) else [])
  }

  ghost predicate OutInv(p: Suite, mode: Mode, e: End, out: Wire) {
    && e.wpos == |e.plainOut|
    && (!e.once.Ready? ==> e.plainOut == [] && !e.writer.WriterSending?)
    && (e.once.NotRun? ==> e.own.None? && e.pending == [])
    && (e.once.Ready? || e.once.Running? ==> e.own.Some? || (mode.Psk? && e.role == Server))
    && (e.own.Some? ==> Drawn(mode, e.role, e.own.value))
    && out.log + e.pending <= Emitted(p, mode, e)
    && (!out.broken || !e.once.Ready? ==> out.log + e.pending == Emitted(p, mode, e))
    && (e.once.Ready? ==> |Announce(p, mode, e.role, e.own)| <= |out.log|)
    && (e.once.Ready? && e.pending != [] && !out.broken ==> e.writer.WriterSending?)
  }

  ghost predicate InInv(p: Suite, mode: Mode, e: End, inn: Wire) {
    && e.rpos == |e.plainIn|
    && inn.taken == |e.peer| + |e.plainIn| <= |inn.log|
    && |e.peer| <= Need(mode, e.role)
    && e.peer == inn.log[..|e.peer|]
    && (e.once.NotRun? ==> e.peer == [])
    && (!e.once.Ready? ==> e.plainIn == [])
    && (e.once.Ready? ==>
          && |e.peer| == Need(mode, e.role)
          && Secret(p, mode, e).Some?
          && e.once.streams == StreamsFor(p, e.role, Secret(p, mode, e).value)
          && e.plainIn == Mask(p, e.once.streams.r, 0, inn.log[|e.peer|..inn.taken]))
  }

  ghost predicate ReturnInv(e: End) {
    forall r <- e.results :: if r.HandshakeError? then e.once == Failed(r.err) else e.once.Ready?
  }

  ghost predicate LinkInv(p: Suite, mode: Mode, k: Link) {
    OutInv(p, mode, k.e, k.out) && InInv(p, mode, k.e, k.inn) && ReturnInv(k.e)
  }

  ghost predicate Inv(p: Suite, mode: Mode, s: State) {
    && s.client.role == Client && s.server.role == Server
    && LinkInv(p, mode, Link(s.client, s.down, s.up))
    && LinkInv(p, mode, Link(s.server, s.up, s.down))
  }

  lemma MoreEmitted(p: Suite, mode: Mode, e: End, e': End, data: seq<byte>)
    requires e.once.Ready? && e'.once == e.once && e'.role == e.role && e'.own == e.own
    requires e'.plainOut == e.plainOut + data
    ensures Emitted(p, mode, e') == Emitted(p, mode, e) + Mask(p, e.once.streams.w, |e.plainOut|, data)
  {
    MaskConcat(p, e.once.streams.w, 0, e.plainOut, data);
    Assoc(Announce(p, mode, e.role, e.own), Mask(p, e.once.streams.w, 0, e.plainOut),
          Mask(p, e.once.streams.w, |e.plainOut|, data));
  }

  lemma StartWriteKeepsOut(p: Suite, mode: Mode, k: Link)
    requires OutInv(p, mode, k.e, k.out) && CanWrite(k.e)
    requires k.e.pending == [] || k.out.broken
    ensures OutInv(p, mode, Masked(p, k).e, k.out)
  {
    MoreEmitted(p, mode, k.e, Masked(p, k).e, k.e.writer.data);
    assert k.out.log + [] == k.out.log;
  }

  lemma MoreReceived(p: Suite, ks: Keystream, log: seq<byte>, a: nat, b: nat, c: nat)
    requires a <= b <= c <= |log|
    ensures Mask(p, ks, 0, log[a..b]) + Mask(p, ks, b - a, log[b..c]) == Mask(p, ks, 0, log[a..c])
  {
    MaskConcat(p, ks, 0, log[a..b], log[b..c]);
    assert log[a..b] + log[b..c] == log[a..c];
  }

  lemma TakeDataKeepsIn(p: Suite, mode: Mode, k: Link, n: nat)
    requires InInv(p, mode, k.e, k.inn) && CanTake(k, n)
    ensures InInv(p, mode, Unmasked(p, k, n).e, Unmasked(p, k, n).inn)
  {
    hide Mask, StreamsFor;
    MoreReceived(p, k.e.once.streams.r, k.inn.log, |k.e.peer|, k.inn.taken, k.inn.taken + n);
    assert Secret(p, mode, Unmasked(p, k, n).e) == Secret(p, mode, k.e);
  }

  lemma PushKeepsOut(p: Suite, mode: Mode, k: Link, n: nat)
    requires OutInv(p, mode, k.e, k.out) && n <= |k.e.pending| && !k.out.broken
    ensures OutInv(p, mode, Pushed(k, n).e, Pushed(k, n).out)
  {
    assert k.e.pending == k.e.pending[..n] + k.e.pending[n..];
    Assoc(k.out.log, k.e.pending[..n], k.e.pending[n..]);
  }

  lemma EnterKeepsOut(p: Suite, mode: Mode, k: Link, t: Thread, random: Option<seq<byte>>, err: Error)
    requires OutInv(p, mode, k.e, k.out) && Entered(p, mode, k, t, random, err).Some?
    ensures OutInv(p, mode, Entered(p, mode, k, t, random, err).value.e, k.out)
  {
    assert k.out.log == [];
  }

  lemma FinishKeepsOut(p: Suite, mode: Mode, k: Link, err: Error)
    requires OutInv(p, mode, k.e, k.out) && CanFinish(mode, k.e)
    ensures OutInv(p, mode, Finished(p, mode, k, err).e, k.out)
  {
    assert Emitted(p, mode, k.e) == Announce(p, mode, k.e.role, k.e.own);
    assert k.out.log + [] == k.out.log;
  }

  /** Bookkeeping of calls, a failing handshake and a breaking wire leave the outgoing side alone. */
  lemma OutFrame(p: Suite, mode: Mode, e: End, out: Wire, e': End, out': Wire)
    requires OutInv(p, mode, e, out)
    requires e'.role == e.role && e'.own == e.own && e'.pending == e.pending
    requires e'.wpos == e.wpos && e'.plainOut == e.plainOut
    requires e'.once == e.once || (e.once.Running? && e'.once.Failed?)
    requires out'.log == out.log && (out.broken ==> out'.broken)
    requires e'.writer == e.writer || (!e'.writer.WriterSending? &&
               (!e.writer.WriterSending? || e.pending == [] || out.broken))
    ensures OutInv(p, mode, e', out')
  {
    assert Emitted(p, mode, e') == Emitted(p, mode, e);
  }

  /** Nothing but taking bytes, starting and finishing concerns the incoming side. */
  lemma InFrame(p: Suite, mode: Mode, e: End, inn: Wire, e': End)
    requires InInv(p, mode, e, inn)
    requires e'.role == e.role && e'.peer == e.peer && e'.rpos == e.rpos && e'.plainIn == e.plainIn
    requires (e'.once == e.once && e'.own == e.own) || (!e.once.Ready? && (e'.once.Failed? || e'.once.Running?))
    ensures InInv(p, mode, e', inn)
  {
    assert e.once.Ready? ==> Secret(p, mode, e') == Secret(p, mode, e);
  }

  lemma FinishKeepsIn(p: Suite, mode: Mode, k: Link, err: Error)
    requires InInv(p, mode, k.e, k.inn) && CanFinish(mode, k.e)
    ensures InInv(p, mode, Finished(p, mode, k, err).e, k.inn)
  {
    assert Secret(p, mode, Finished(p, mode, k, err).e) == Secret(p, mode, k.e);
  }

  lemma TakePreambleKeepsIn(p: Suite, mode: Mode, e: End, inn: Wire, n: nat)
    requires InInv(p, mode, e, inn) && e.once.Running?
    requires |e.peer| + n <= Need(mode, e.role) && inn.taken + n <= |inn.log|
    ensures InInv(p, mode, e.(peer := e.peer + inn.log[inn.taken..inn.taken + n]), inn.(taken := inn.taken + n))
  {
    assert e.peer + inn.log[|e.peer|..inn.taken + n] == inn.log[..inn.taken + n];
  }

  lemma QuietOut(p: Suite, mode: Mode, k: Link, a: Action, k': Link)
    requires EndStep(p, mode, k, a) == Some(k')
    requires !a.StartWrite? && !a.Push? && !a.Enter? && !a.Finish?
    ensures k'.e.role == k.e.role && k'.e.own == k.e.own && k'.e.pending == k.e.pending
    ensures k'.e.wpos == k.e.wpos && k'.e.plainOut == k.e.plainOut
    ensures k'.e.once == k.e.once || (k.e.once.Running? && k'.e.once.Failed?)
    ensures k'.out.log == k.out.log && (k.out.broken ==> k'.out.broken)
    ensures k'.e.writer == k.e.writer || (!k'.e.writer.WriterSending? &&
              (!k.e.writer.WriterSending? || k.e.pending == [] || k.out.broken))
  {
  }

  lemma QuietIn(p: Suite, mode: Mode, k: Link, a: Action, k': Link)
    requires EndStep(p, mode, k, a) == Some(k')
    requires !a.TakeData? && !a.TakePreamble? && !a.Finish?
    ensures k'.e.role == k.e.role && k'.e.peer == k.e.peer && k'.e.rpos == k.e.rpos && k'.e.plainIn == k.e.plainIn
    ensures (k'.e.once == k.e.once && k'.e.own == k.e.own) ||
            (!k.e.once.Ready? && (k'.e.once.Failed? || k'.e.once.Running?))
    ensures k'.inn == k.inn
  {
  }

  lemma QuietKeepsOut(p: Suite, mode: Mode, k: Link, a: Action, k': Link)
    requires OutInv(p, mode, k.e, k.out) && EndStep(p, mode, k, a) == Some(k')
    requires !a.StartWrite? && !a.Push? && !a.Enter? && !a.Finish?
    ensures OutInv(p, mode, k'.e, k'.out)
  {
    QuietOut(p, mode, k, a, k');
    OutFrame(p, mode, k.e, k.out, k'.e, k'.out);
  }

  lemma EndStepKeepsOut(p: Suite, mode: Mode, k: Link, a: Action, k': Link)
    requires OutInv(p, mode, k.e, k.out) && EndStep(p, mode, k, a) == Some(k')
    ensures OutInv(p, mode, k'.e, k'.out)
  {
    match a
    case StartWrite =>
      assert k' == Masked(p, k);
      StartWriteKeepsOut(p, mode, k);
    case Push(n) =>
      assert k' == Pushed(k, n);
      PushKeepsOut(p, mode, k, n);
    case Enter(t, random, err) =>
      EnterKeepsOut(p, mode, k, t, random, err);
    case Finish(err) =>
      assert k' == Finished(p, mode, k, err);
      FinishKeepsOut(p, mode, k, err);
    case _ =>
      QuietKeepsOut(p, mode, k, a, k');
  }

  lemma EndStepKeepsIn(p: Suite, mode: Mode, k: Link, a: Action, k': Link)
    requires InInv(p, mode, k.e, k.inn) && EndStep(p, mode, k, a) == Some(k')
    ensures InInv(p, mode, k'.e, k'.inn)
  {
    hide InInv, Mask, Secret;
    match a
    case TakeData(n) => TakeDataKeepsIn(p, mode, k, n);
    case TakePreamble(n) => TakePreambleKeepsIn(p, mode, k.e, k.inn, n);
    case Finish(err) => FinishKeepsIn(p, mode, k, err);
    case _ =>
      QuietIn(p, mode, k, a, k');
      InFrame(p, mode, k.e, k.inn, k'.e);
  }

  lemma EndStepKeepsReturns(p: Suite, mode: Mode, k: Link, a: Action, k': Link)
    requires ReturnInv(k.e) && EndStep(p, mode, k, a) == Some(k')
    requires !k.e.once.Ready? ==> !k.e.writer.WriterSending?
    ensures ReturnInv(k'.e)
  {
  }

  lemma EndStepKeepsInv(p: Suite, mode: Mode, k: Link, a: Action, k': Link)
    requires LinkInv(p, mode, k) && EndStep(p, mode, k, a) == Some(k')
    ensures LinkInv(p, mode, k')
  {
    EndStepKeepsOut(p, mode, k, a, k');
    EndStepKeepsIn(p, mode, k, a, k');
    EndStepKeepsReturns(p, mode, k, a, k');
  }

  /** What the peer's actions may do to this end's wires: more bytes to read, fewer left to deliver. */
  lemma OtherWires(p: Suite, mode: Mode, e: End, inn: Wire, inn': Wire, out: Wire, out': Wire)
    requires LinkInv(p, mode, Link(e, inn, out))
    requires inn.log <= inn'.log && inn'.taken == inn.taken
    requires out'.log == out.log && out'.broken == out.broken
    ensures LinkInv(p, mode, Link(e, inn', out'))
  {
    assert inn'.log[..|e.peer|] == inn.log[..|e.peer|];
    assert inn'.log[|e.peer|..inn.taken] == inn.log[|e.peer|..inn.taken];
  }

  /** What one end's step does to the wires as the other end sees them. */
  lemma EndStepWires(p: Suite, mode: Mode, k: Link, a: Action, k': Link)
    requires EndStep(p, mode, k, a) == Some(k')
    ensures k'.e.role == k.e.role
    ensures k.out.log <= k'.out.log && k'.out.taken == k.out.taken
    ensures k'.inn.log == k.inn.log && k'.inn.broken == k.inn.broken
  {
  }

  lemma StepKeepsInv(p: Suite, mode: Mode, s: State, role: Role, a: Action)
    requires Inv(p, mode, s) && Step(p, mode, s, role, a).Some?
    ensures Inv(p, mode, Step(p, mode, s, role, a).value)
  {
    var s' := Step(p, mode, s, role, a).value;
    match role
    case Client =>
      EndStepKeepsInv(p, mode, Link(s.client, s.down, s.up), a, Link(s'.client, s'.down, s'.up));
      EndStepWires(p, mode, Link(s.client, s.down, s.up), a, Link(s'.client, s'.down, s'.up));
      OtherWires(p, mode, s.server, s.up, s'.up, s.down, s'.down);
    case Server =>
      EndStepKeepsInv(p, mode, Link(s.server, s.up, s.down), a, Link(s'.server, s'.up, s'.down));
      EndStepWires(p, mode, Link(s.server, s.up, s.down), a, Link(s'.server, s'.up, s'.down));
      OtherWires(p, mode, s.client, s.down, s'.down, s.up, s'.up);
  }

  lemma {:induction false} RunKeepsInv(p: Suite, mode: Mode, s: State, schedule: seq<(Role, Action)>)
    requires Inv(p, mode, s) && Run(p, mode, s, schedule).Some?
    ensures Inv(p, mode, Run(p, mode, s, schedule).value)
    decreases |schedule|
  {
    if schedule != [] {
      StepKeepsInv(p, mode, s, schedule[0].0, schedule[0].1);
      RunKeepsInv(p, mode, Step(p, mode, s, schedule[0].0, schedule[0].1).value, schedule[1..]);
    }
  }

  // ----- transparency -----

  /** An end that finished reading the preamble read exactly what its peer announced. */
  lemma PreambleRead(p: Suite, mode: Mode, e: End, peer: End, wire: Wire)
    requires e.role != peer.role
    requires InInv(p, mode, e, wire) && OutInv(p, mode, peer, wire)
    requires e.once.Ready? && (peer.once.Ready? || |wire.log| > |e.peer|)
    ensures e.peer == Announce(p, mode, peer.role, peer.own)
  {
    assert wire.log <= Emitted(p, mode, peer);
    assert |Announce(p, mode, peer.role, peer.own)| == Need(mode, e.role);
  }

  /** Once both ends finished, each reads with the keystream the other writes with. */
  lemma StreamsMirror(p: Suite, mode: Mode, s: State)
    requires Inv(p, mode, s) && s.client.once.Ready? && s.server.once.Ready?
    ensures s.client.once.streams.r == s.server.once.streams.w
    ensures s.client.once.streams.w == s.server.once.streams.r
  {
    PreambleRead(p, mode, s.server, s.client, s.up);
    PreambleRead(p, mode, s.client, s.server, s.down);
    assert Secret(p, mode, s.client) == Secret(p, mode, s.server);
  }

  /** One direction: what `e` returned is a prefix of what `peer` masked, and all of it once drained. */
  lemma DirectionTransparent(p: Suite, mode: Mode, e: End, peer: End, wire: Wire)
    requires e.role != peer.role
    requires InInv(p, mode, e, wire) && OutInv(p, mode, peer, wire)
    requires e.once.Ready? && peer.once.Ready? ==> e.once.streams.r == peer.once.streams.w
    ensures e.plainIn <= peer.plainOut
    ensures !wire.broken && peer.pending == [] && wire.taken == |wire.log| ==> e.plainIn == peer.plainOut
  {
    if e.plainIn != [] {
      PreambleRead(p, mode, e, peer, wire);
      PayloadOnWire(p, mode, e, peer, wire);
      UnmaskPrefix(p, peer.once.streams.w, peer.plainOut, wire.log[|e.peer|..wire.taken]);
    }
  }

  /** Past the preamble, the wire holds a prefix of the masked payload. */
  lemma PayloadOnWire(p: Suite, mode: Mode, e: End, peer: End, wire: Wire)
    requires OutInv(p, mode, peer, wire) && e.peer == Announce(p, mode, peer.role, peer.own)
    requires |e.peer| < wire.taken <= |wire.log|
    ensures peer.once.Ready?
    ensures wire.log[|e.peer|..wire.taken] <= Mask(p, peer.once.streams.w, 0, peer.plainOut)
  {
    var sent := Emitted(p, mode, peer);
    assert wire.log <= sent;
    assert peer.once.Ready? ==> sent[|e.peer|..] == Mask(p, peer.once.streams.w, 0, peer.plainOut);
    assert wire.log[|e.peer|..wire.taken] <= sent[|e.peer|..];
  }

  /** Tunnel transparency: in every schedule, fragmentation and handshake mode, in both
      directions, what was read is a prefix of what was written, and equals it once the
      unbroken wire is drained. */
  lemma Transparency(p: Suite, mode: Mode, schedule: seq<(Role, Action)>)
    requires Run(p, mode, Start(), schedule).Some?
    ensures var s := Run(p, mode, Start(), schedule).value;
            && s.server.plainIn <= s.client.plainOut
            && s.client.plainIn <= s.server.plainOut
            && (!s.up.broken && s.client.pending == [] && s.up.taken == |s.up.log| ==>
                  s.server.plainIn == s.client.plainOut)
            && (!s.down.broken && s.server.pending == [] && s.down.taken == |s.down.log| ==>
                  s.client.plainIn == s.server.plainOut)
  {
    RunKeepsInv(p, mode, Start(), schedule);
    var s := Run(p, mode, Start(), schedule).value;
    if s.client.once.Ready? && s.server.once.Ready? {
      StreamsMirror(p, mode, s);
    }
    DirectionTransparent(p, mode, s.server, s.client, s.up);
    DirectionTransparent(p, mode, s.client, s.server, s.down);
  }

  // ----- the handshake happens once -----

  /** A 32-byte key from each end when negotiating; with a pre-shared key, a 16-byte seed from the client only. */
  function PreambleLen(mode: Mode, role: Role): nat {
    if mode.Negotiated? then KEY_LEN else if role == Client then SEED_LEN else 0
  }

  /** What one end may ever have put on its wire: its own announcement, at most as long as the mode says,
      then only masked payload, and none of that unless the handshake succeeded. */
  ghost predicate SentProperly(p: Suite, mode: Mode, e: End, out: Wire) {
    var preamble := Announce(p, mode, e.role, e.own);
    && |preamble| <= PreambleLen(mode, e.role)
    && (!e.once.Ready? ==> out.log <= preamble)
    && (e.once.Ready? ==>
          && |preamble| == PreambleLen(mode, e.role)
          && preamble <= out.log <= preamble + Mask(p, e.once.streams.w, 0, e.plainOut))
  }

  /** However reads and writes race, in every schedule: an end sends at most its one announcement (the
      client's seed, or the public key of the private key it drew) before anything else, no payload byte
      goes first or leaves unmasked, and a call reports a handshake error exactly if the handshake failed,
      with its one error. */
  lemma HandshakeOnce(p: Suite, mode: Mode, schedule: seq<(Role, Action)>)
    requires Run(p, mode, Start(), schedule).Some?
    ensures var s := Run(p, mode, Start(), schedule).value;
            && SentProperly(p, mode, s.client, s.up) && SentProperly(p, mode, s.server, s.down)
            && (forall r <- s.client.results :: if r.HandshakeError? then s.client.once == Failed(r.err) else s.client.once.Ready?)
            && (forall r <- s.server.results :: if r.HandshakeError? then s.server.once == Failed(r.err) else s.server.once.Ready?)
  {
    RunKeepsInv(p, mode, Start(), schedule);
    var s := Run(p, mode, Start(), schedule).value;
    OutIsProper(p, mode, s.client, s.up);
    OutIsProper(p, mode, s.server, s.down);
  }

  lemma OutIsProper(p: Suite, mode: Mode, e: End, out: Wire)
    requires OutInv(p, mode, e, out)
    ensures SentProperly(p, mode, e, out)
  {
    hide Mask;
    var preamble := Announce(p, mode, e.role, e.own);
    assert out.log <= Emitted(p, mode, e);
    if e.once.Ready? {
      assert preamble == Emitted(p, mode, e)[..|preamble|] == out.log[..|preamble|];
    } else {
      assert Emitted(p, mode, e) == preamble;
    }
  }

  lemma EndStepOutcome(p: Suite, mode: Mode, k: Link, a: Action, k': Link)
    requires EndStep(p, mode, k, a) == Some(k')
    ensures k.e.once.Failed? || k.e.once.Ready? ==> k'.e.once == k.e.once
  {
  }

  /** The outcome of the handshake never changes, so a failed end stays failed with the same
      error, and its wire never carries more than the preamble. */
  lemma {:induction false} OutcomeIsFinal(p: Suite, mode: Mode, s: State, schedule: seq<(Role, Action)>)
    requires Run(p, mode, s, schedule).Some?
    ensures var s' := Run(p, mode, s, schedule).value;
            && (s.client.once.Failed? || s.client.once.Ready? ==> s'.client.once == s.client.once)
            && (s.server.once.Failed? || s.server.once.Ready? ==> s'.server.once == s.server.once)
    decreases |schedule|
  {
    if schedule != [] {
      var (role, a) := schedule[0];
      var s' := Step(p, mode, s, role, a).value;
      match role {
        case Client => EndStepOutcome(p, mode, Link(s.client, s.down, s.up), a, Link(s'.client, s'.down, s'.up));
        case Server => EndStepOutcome(p, mode, Link(s.server, s.up, s.down), a, Link(s'.server, s'.up, s'.down));
      }
      OutcomeIsFinal(p, mode, s', schedule[1..]);
    }
  }
}
