/** One multiplexed stream from the client's dial to the relay: header, status byte, raw bytes.
    The stream under it is an ideal FIFO that delivers in pieces of any size. */
module MuxRelay {
  import opened Bytes
  import opened MuxHeader
  import Utf8
  import Decimal

  datatype ClientPhase = Sending(pending: seq<byte>) | AwaitingStatus | Open | Refused

  datatype ProxyPhase = ReadingHeader | Dialing(h: Header) | Relaying | Closed

  /** `up` and `down` are all bytes ever put on the stream in each direction, with how many were
      taken; `upBuf` and `downBuf` are the chunks the two copying loops hold. `written`, `read`
      are the client's payload; `received`, `produced` the target's side. */
  datatype State = State(
    client: ClientPhase, proxy: ProxyPhase, dialed: Option<Header>, status: Option<byte>,
    up: seq<byte>, upTaken: nat, down: seq<byte>, downTaken: nat,
    written: seq<byte>, read: seq<byte>,
    upBuf: seq<byte>, received: seq<byte>, downBuf: seq<byte>, produced: seq<byte>, producedTaken: nat)

  datatype Action =
    | SendHeader(n: nat)
    | ReadHeader
    | DialTarget(ok: bool)
    | ReadStatus
    | ClientWrite(data: seq<byte>)
    | ClientRead(n: nat)
    | UpRead(n: nat)
    | UpWrite(n: nat)
    | TargetSends(data: seq<byte>)
    | DownRead(n: nat)
    | DownWrite(n: nat)
    | Teardown

  function Start(host: seq<byte>, port: int): State {
    State(Sending(Frame(host, port)), ReadingHeader, None, None, [], 0, [], 0, [], [], [], [], [], [], 0)
  }

  /** The proxy can tell what the header is: its length is implausible, or it has all arrived. */
  predicate HeaderDecided(up: seq<byte>) {
    |up| >= 2 &&
    var n := FromBigEndian(up[..2]);
    n == 0 || n > MAX_HEADER || |up| >= 2 + n
  }

  function Step(s: State, a: Action): Option<State> {
    match a
    case SendHeader(n) =>
      if s.client.Sending? && n <= |s.client.pending| then
        var rest := s.client.pending[n..];
        Some(s.(client := if rest == [] then AwaitingStatus else Sending(rest), up := s.up + s.client.pending[..n]))
      else None
    case ReadHeader =>
      if s.proxy.ReadingHeader? && HeaderDecided(s.up) then
        match HeaderOf(s.up)
        case None => Some(s.(proxy := Closed))
        case Some((h, rest)) => Some(s.(proxy := Dialing(h), upTaken := |s.up| - |rest|))
      else None
    case DialTarget(ok) =>
      if s.proxy.Dialing? then
        if ok then Some(s.(proxy := Relaying, dialed := Some(s.proxy.h), status := Some(1), down := s.down + [1]))
        else Some(s.(proxy := Closed, status := Some(0), down := s.down + [0]))
      else None
    case ReadStatus =>
      if s.client.AwaitingStatus? && s.downTaken < |s.down|
      then Some(s.(client := if s.down[s.downTaken] == 1 then Open else Refused, downTaken := s.downTaken + 1))
      else None
    case ClientWrite(data) =>
      if s.client.Open? then Some(s.(written := s.written + data, up := s.up + data)) else None
    case ClientRead(n) =>
      if s.client.Open? && s.downTaken + n <= |s.down|
      then Some(s.(read := s.read + s.down[s.downTaken..s.downTaken + n], downTaken := s.downTaken + n)) else None
    case UpRead(n) =>
      if s.proxy.Relaying? && s.upBuf == [] && s.upTaken + n <= |s.up|
      then Some(s.(upBuf := s.up[s.upTaken..s.upTaken + n], upTaken := s.upTaken + n)) else None
    case UpWrite(n) =>
      if s.proxy.Relaying? && n <= |s.upBuf|
      then Some(s.(received := s.received + s.upBuf[..n], upBuf := s.upBuf[n..])) else None
    case TargetSends(data) =>
      if s.dialed.Some? then Some(s.(produced := s.produced + data)) else None
    case DownRead(n) =>
      if s.proxy.Relaying? && s.downBuf == [] && s.producedTaken + n <= |s.produced|
      then Some(s.(downBuf := s.produced[s.producedTaken..s.producedTaken + n], producedTaken := s.producedTaken + n))
      else None
    case DownWrite(n) =>
      if s.proxy.Relaying? && n <= |s.downBuf|
      then Some(s.(down := s.down + s.downBuf[..n], downBuf := s.downBuf[n..])) else None
    case Teardown => Some(s.(proxy := Closed))
  }

  function Run(s: State, actions: seq<Action>): Option<State>
    decreases |actions|
  {
    if actions == [] then Some(s)
    else
      var next := Step(s, actions[0]);
      if next.None? then None else Run(next.value, actions[1..])
  }

  /** The header the proxy must end up with. */
  ghost predicate RightHeader(host: seq<byte>, port: int, h: Header) {
    h == Header(Utf8.Sanitize(host), port) && |Marshal(host, port)| <= MAX_HEADER
  }

  ghost predicate UpInv(frame: seq<byte>, s: State) {
    && s.up + (if s.client.Sending? then s.client.pending else []) == frame + s.written
    && (s.written != [] ==> s.client.Open?)
    && (s.proxy.ReadingHeader? ==> s.dialed.None? && s.status.None?)
    && (s.proxy.Dialing? ==> s.upTaken == |frame| <= |s.up| && s.dialed.None? && s.status.None?)
    && (s.proxy.Relaying? ==> s.dialed.Some?)
    && (s.dialed.None? ==> s.received == [] && s.upBuf == [])
    && (s.dialed.Some? ==> |frame| <= s.upTaken <= |s.up| && s.received + s.upBuf == s.up[|frame|..s.upTaken])
  }

  ghost predicate DownInv(s: State) {
    && (s.status.Some? <==> s.down != [])
    && (s.status == Some(1) <==> s.dialed.Some?)
    && (s.status.Some? ==> s.down[0] == s.status.value)
    && (s.dialed.None? ==> |s.down| <= 1 && s.downBuf == [] && s.produced == [] && s.producedTaken == 0)
    && s.producedTaken <= |s.produced|
    && (s.dialed.Some? ==> s.down[1..] + s.downBuf == s.produced[..s.producedTaken])
    && (s.client.Open? ==> s.status == Some(1) && 1 <= s.downTaken <= |s.down| && s.read == s.down[1..s.downTaken])
    && (!s.client.Open? ==> s.read == [])
    && (s.client.Sending? || s.client.AwaitingStatus? ==> s.downTaken == 0)
  }

  ghost predicate HeaderInv(host: seq<byte>, port: int, s: State) {
    && (s.proxy.Dialing? ==> RightHeader(host, port, s.proxy.h))
    && (s.dialed.Some? ==> RightHeader(host, port, s.dialed.value))
  }

  /** A header read from the front of the stream is read the same when more has arrived. */
  lemma HeaderOfExtends(q: seq<byte>, t: seq<byte>)
    requires HeaderOf(q).Some?
    ensures HeaderOf(q + t) == Some((HeaderOf(q).value.0, HeaderOf(q).value.1 + t))
  {
    hide Unmarshal, FromBigEndian;
    var n := FromBigEndian(q[..2]);
    assert (q + t)[..2] == q[..2];
    assert (q + t)[2..2 + n] == q[2..2 + n];
    assert (q + t)[2 + n..] == q[2 + n..] + t;
  }

  lemma HeaderRead(host: seq<byte>, port: int, up: seq<byte>)
    requires Decimal.IsInt64(port) && up <= Frame(host, port) && HeaderOf(up).Some?
    ensures up == Frame(host, port) && HeaderOf(up).value.1 == []
    ensures RightHeader(host, port, HeaderOf(up).value.0)
  {
    hide HeaderOf, Frame, Marshal;
    var t := Frame(host, port)[|up|..];
    HeaderOfExtends(up, t);
    assert up + t == Frame(host, port) + [];
    FramedHeader(host, port, []);
  }

  lemma ReadHeaderKeeps(host: seq<byte>, port: int, s: State)
    requires Decimal.IsInt64(port) && UpInv(Frame(host, port), s) && DownInv(s) && HeaderInv(host, port, s)
    requires Step(s, ReadHeader).Some?
    ensures var s' := Step(s, ReadHeader).value;
            UpInv(Frame(host, port), s') && DownInv(s') && HeaderInv(host, port, s')
  {
    hide HeaderOf, Frame, RightHeader, HeaderDecided;
    if HeaderOf(s.up).Some? {
      assert s.written == [];
      assert Frame(host, port) + [] == Frame(host, port);
      assert s.up <= Frame(host, port);
      HeaderRead(host, port, s.up);
    }
  }

  lemma SendHeaderKept(frame: seq<byte>, s: State, n: nat)
    requires UpInv(frame, s) && Step(s, SendHeader(n)).Some?
    ensures UpInv(frame, Step(s, SendHeader(n)).value)
  {
    hide HeaderOf, HeaderDecided;
    var s' := Step(s, SendHeader(n)).value;
    assert s.client.pending == s.client.pending[..n] + s.client.pending[n..];
    Assoc(s.up, s.client.pending[..n], s.client.pending[n..]);
    assert s.dialed.Some? ==> s'.up[|frame|..s.upTaken] == s.up[|frame|..s.upTaken];
    assert s'.up + [] == s'.up;
  }

  lemma ClientWriteKept(frame: seq<byte>, s: State, data: seq<byte>)
    requires UpInv(frame, s) && Step(s, ClientWrite(data)).Some?
    ensures UpInv(frame, Step(s, ClientWrite(data)).value)
  {
    hide HeaderOf, HeaderDecided;
    var s' := Step(s, ClientWrite(data)).value;
    Assoc(frame, s.written, data);
    assert s.up + [] == s.up && s'.up + [] == s'.up;
    assert s.dialed.Some? ==> s'.up[|frame|..s.upTaken] == s.up[|frame|..s.upTaken];
  }

  lemma UpReadKept(frame: seq<byte>, s: State, n: nat)
    requires UpInv(frame, s) && Step(s, UpRead(n)).Some?
    ensures UpInv(frame, Step(s, UpRead(n)).value)
  {
    hide HeaderOf, HeaderDecided;
    assert s.up[|frame|..s.upTaken + n] == s.up[|frame|..s.upTaken] + s.up[s.upTaken..s.upTaken + n];
    assert s.received + [] == s.received;
  }

  lemma UpWriteKept(frame: seq<byte>, s: State, n: nat)
    requires UpInv(frame, s) && Step(s, UpWrite(n)).Some?
    ensures UpInv(frame, Step(s, UpWrite(n)).value)
  {
    hide HeaderOf, HeaderDecided;
    assert s.upBuf == s.upBuf[..n] + s.upBuf[n..];
    Assoc(s.received, s.upBuf[..n], s.upBuf[n..]);
  }

  lemma UpKept(frame: seq<byte>, s: State, a: Action, s': State)
    requires UpInv(frame, s) && Step(s, a) == Some(s') && !a.ReadHeader? && |frame| > 0
    ensures UpInv(frame, s')
  {
    hide HeaderOf, HeaderDecided;
    match a
    case SendHeader(n) => SendHeaderKept(frame, s, n);
    case ClientWrite(data) => ClientWriteKept(frame, s, data);
    case UpRead(n) => UpReadKept(frame, s, n);
    case UpWrite(n) => UpWriteKept(frame, s, n);
    case _ =>
  }

  lemma DownReadKept(s: State, n: nat)
    requires DownInv(s) && s.dialed.Some? && Step(s, DownRead(n)).Some?
    ensures DownInv(Step(s, DownRead(n)).value)
  {
    var s' := Step(s, DownRead(n)).value;
    assert s.produced[..s.producedTaken + n] == s.produced[..s.producedTaken] + s'.downBuf;
    assert s.down[1..] + [] == s.down[1..];
  }

  lemma DownWriteKept(s: State, n: nat)
    requires DownInv(s) && s.dialed.Some? && Step(s, DownWrite(n)).Some?
    ensures DownInv(Step(s, DownWrite(n)).value)
  {
    var s' := Step(s, DownWrite(n)).value;
    assert s'.down[1..] == s.down[1..] + s.downBuf[..n];
    assert s.downBuf == s.downBuf[..n] + s.downBuf[n..];
    Assoc(s.down[1..], s.downBuf[..n], s.downBuf[n..]);
    assert s.client.Open? ==> s'.down[1..s.downTaken] == s.down[1..s.downTaken];
  }

  lemma ClientReadKept(s: State, n: nat)
    requires DownInv(s) && Step(s, ClientRead(n)).Some?
    ensures DownInv(Step(s, ClientRead(n)).value)
  {
    assert s.down[1..s.downTaken + n] == s.down[1..s.downTaken] + s.down[s.downTaken..s.downTaken + n];
  }

  lemma DownKept(frame: seq<byte>, s: State, a: Action, s': State)
    requires UpInv(frame, s) && DownInv(s) && Step(s, a) == Some(s') && !a.ReadHeader?
    ensures DownInv(s')
  {
    hide HeaderOf, HeaderDecided;
    match a
    case DownRead(n) => DownReadKept(s, n);
    case DownWrite(n) => DownWriteKept(s, n);
    case ClientRead(n) => ClientReadKept(s, n);
    case TargetSends(data) =>
      assert s'.produced[..s.producedTaken] == s.produced[..s.producedTaken];
    case _ =>
  }

  lemma StepKeepsInv(host: seq<byte>, port: int, s: State, a: Action)
    requires Decimal.IsInt64(port) && UpInv(Frame(host, port), s) && DownInv(s) && HeaderInv(host, port, s)
    requires Step(s, a).Some?
    ensures var s' := Step(s, a).value;
            UpInv(Frame(host, port), s') && DownInv(s') && HeaderInv(host, port, s')
  {
    hide HeaderOf, Frame, RightHeader, HeaderDecided;
    var s' := Step(s, a).value;
    if a.ReadHeader? {
      ReadHeaderKeeps(host, port, s);
    } else {
      FrameNotEmpty(host, port);
      UpKept(Frame(host, port), s, a, s');
      DownKept(Frame(host, port), s, a, s');
    }
  }

  lemma FrameNotEmpty(host: seq<byte>, port: int)
    ensures |Frame(host, port)| > 0
  {
  }

  lemma {:induction false} RunKeepsInv(host: seq<byte>, port: int, s: State, actions: seq<Action>)
    requires Decimal.IsInt64(port) && UpInv(Frame(host, port), s) && DownInv(s) && HeaderInv(host, port, s)
    requires Run(s, actions).Some?
    ensures var s' := Run(s, actions).value;
            UpInv(Frame(host, port), s') && DownInv(s') && HeaderInv(host, port, s')
    decreases |actions|
  {
    hide UpInv, DownInv, HeaderInv, Frame, Step;
    if actions != [] {
      StepKeepsInv(host, port, s, actions[0]);
      RunKeepsInv(host, port, Step(s, actions[0]).value, actions[1..]);
    }
  }

  /** Layered framing, over every schedule and fragmentation: only the requested target is ever
      dialed and only for a header within the limit, the target receives a prefix of what the client
      wrote after dialing, the client reads a prefix of what the target sent, each is the whole
      once nothing is in flight, and neither end sees a byte of the header or the status. */
  lemma RelayIsTransparent(host: seq<byte>, port: int, actions: seq<Action>)
    requires Decimal.IsInt64(port) && Run(Start(host, port), actions).Some?
    ensures var s := Run(Start(host, port), actions).value;
            && s.received <= s.written
            && s.read <= s.produced
            && (s.dialed.Some? && s.upBuf == [] && s.upTaken == |s.up| ==> s.received == s.written)
            && (s.client.Open? && s.downBuf == [] && s.producedTaken == |s.produced| && s.downTaken == |s.down| ==>
                  s.read == s.produced)
            && (s.client.Open? ==> s.dialed.Some?)
            && (s.dialed.Some? ==> s.dialed.value == Header(Utf8.Sanitize(host), port))
            && (s.dialed.Some? ==> |Marshal(host, port)| <= MAX_HEADER)
  {
    hide Frame, Marshal;
    RunKeepsInv(host, port, Start(host, port), actions);
    var s := Run(Start(host, port), actions).value;
    var frame := Frame(host, port);
    if s.dialed.Some? {
      assert s.up <= frame + s.written;
      assert s.up[|frame|..] == s.written;
      assert s.up[|frame|..s.upTaken] <= s.written;
      assert s.received + [] == s.received && s.down[1..] + [] == s.down[1..];
      assert s.received <= s.received + s.upBuf;
      assert s.down[1..] <= s.produced;
    }
  }

  // ----- a stream that works -----

  lemma RunOne(s: State, a: Action, s': State, rest: seq<Action>)
    requires Step(s, a) == Some(s')
    ensures Run(s, [a] + rest) == Run(s', rest)
  {
    hide Step;
    assert ([a] + rest)[1..] == rest;
  }

  function Dial(n: nat): seq<Action> {
    [SendHeader(n)] + ([ReadHeader] + ([DialTarget(true)] + [ReadStatus]))
  }

  function TalkUp(d: seq<byte>): seq<Action> {
    [ClientWrite(d)] + ([UpRead(|d|)] + [UpWrite(|d|)])
  }

  function TalkDown(d: seq<byte>): seq<Action> {
    [TargetSends(d)] + ([DownRead(|d|)] + ([DownWrite(|d|)] + [ClientRead(|d|)]))
  }

  /** Dialled and open, nothing said yet. */
  function Ready(host: seq<byte>, port: int): State {
    var f := Frame(host, port);
    State(Open, Relaying, Some(Header(Utf8.Sanitize(host), port)), Some(1), f, |f|, [1], 1, [], [], [], [], [], [], 0)
  }

  lemma DialWorks(host: seq<byte>, port: int, rest: seq<Action>)
    requires Decimal.IsInt64(port) && |Marshal(host, port)| <= MAX_HEADER
    ensures Run(Start(host, port), Dial(|Frame(host, port)|) + rest) == Run(Ready(host, port), rest)
  {
    hide Run, HeaderOf, Frame, Marshal;
    var f, h := Frame(host, port), Header(Utf8.Sanitize(host), port);
    var s0 := Start(host, port);
    var s1 := s0.(client := AwaitingStatus, up := f);
    var s2 := s1.(proxy := Dialing(h), upTaken := |f|);
    var s3 := s2.(proxy := Relaying, dialed := Some(h), status := Some(1), down := [1]);
    assert f[|f|..] == [] && f[..|f|] == f && [] + f == f && [] + [1] == [1];
    HeaderArrived(host, port);
    var r3 := [ReadStatus] + rest;
    var r2 := [DialTarget(true)] + r3;
    var r1 := [ReadHeader] + r2;
    RunOne(s0, SendHeader(|f|), s1, r1);
    RunOne(s1, ReadHeader, s2, r2);
    RunOne(s2, DialTarget(true), s3, r3);
    RunOne(s3, ReadStatus, Ready(host, port), rest);
    RegroupFour(SendHeader(|f|), ReadHeader, DialTarget(true), ReadStatus, rest);
  }

  lemma HeaderArrived(host: seq<byte>, port: int)
    requires Decimal.IsInt64(port) && |Marshal(host, port)| <= MAX_HEADER
    ensures HeaderOf(Frame(host, port)) == Some((Header(Utf8.Sanitize(host), port), []))
    ensures HeaderDecided(Frame(host, port))
  {
    hide Frame, Marshal, Unmarshal;
    FramedHeader(host, port, []);
    assert Frame(host, port) + [] == Frame(host, port);
  }

  ghost predicate Idle(s: State) {
    && s.client.Open? && s.proxy.Relaying? && s.dialed.Some? && s.upBuf == [] && s.downBuf == []
    && s.upTaken == |s.up| && s.downTaken == |s.down| && s.producedTaken == |s.produced|
  }

  lemma UpWorks(s: State, d: seq<byte>, rest: seq<Action>)
    requires Idle(s)
    ensures Run(s, TalkUp(d) + rest) ==
            Run(s.(written := s.written + d, received := s.received + d, up := s.up + d, upTaken := |s.up| + |d|), rest)
  {
    hide Run;
    var s1 := s.(written := s.written + d, up := s.up + d);
    var s2 := s1.(upBuf := d, upTaken := |s.up| + |d|);
    var s3 := s2.(received := s.received + d, upBuf := []);
    assert (s.up + d)[|s.up|..|s.up| + |d|] == d && d[..|d|] == d && d[|d|..] == [];
    var r2 := [UpWrite(|d|)] + rest;
    var r1 := [UpRead(|d|)] + r2;
    RunOne(s, ClientWrite(d), s1, r1);
    RunOne(s1, UpRead(|d|), s2, r2);
    RunOne(s2, UpWrite(|d|), s3, rest);
    RegroupThree(ClientWrite(d), UpRead(|d|), UpWrite(|d|), rest);
  }

  lemma RegroupThree(a: Action, b: Action, c: Action, rest: seq<Action>)
    ensures [a] + ([b] + [c]) + rest == [a] + ([b] + ([c] + rest))
  {
  }

  lemma RegroupFour(a: Action, b: Action, c: Action, d: Action, rest: seq<Action>)
    ensures [a] + ([b] + ([c] + [d])) + rest == [a] + ([b] + ([c] + ([d] + rest)))
  {
  }

  lemma DownStepOne(s: State, d: seq<byte>, s1: State, s2: State)
    requires Idle(s) && s1 == s.(produced := s.produced + d)
    requires s2 == s1.(downBuf := d, producedTaken := |s.produced| + |d|)
    ensures Step(s, TargetSends(d)) == Some(s1) && Step(s1, DownRead(|d|)) == Some(s2)
  {
    assert (s.produced + d)[|s.produced|..|s.produced| + |d|] == d;
  }

  lemma DownStepTwo(s: State, down: seq<byte>, d: seq<byte>, s3: State, s4: State)
    requires s.client.Open? && s.proxy.Relaying? && s.downBuf == d && s.down == down && s.downTaken == |down|
    requires s3 == s.(down := down + d, downBuf := [])
    requires s4 == s3.(read := s.read + d, downTaken := |down| + |d|)
    ensures Step(s, DownWrite(|d|)) == Some(s3) && Step(s3, ClientRead(|d|)) == Some(s4)
  {
    assert d[..|d|] == d && d[|d|..] == [] && (down + d)[|down|..|down| + |d|] == d;
  }

  lemma DownWorks(s: State, d: seq<byte>, rest: seq<Action>)
    requires Idle(s)
    ensures Run(s, TalkDown(d) + rest) ==
            Run(s.(produced := s.produced + d, producedTaken := |s.produced| + |d|, read := s.read + d, down := s.down + d, downTaken := |s.down| + |d|), rest)
  {
    hide Run, Step;
    var s1 := s.(produced := s.produced + d);
    var s2 := s1.(downBuf := d, producedTaken := |s.produced| + |d|);
    var s3 := s2.(down := s.down + d, downBuf := []);
    var s4 := s3.(read := s.read + d, downTaken := |s.down| + |d|);
    DownStepOne(s, d, s1, s2);
    DownStepTwo(s2, s.down, d, s3, s4);
    var r3 := [ClientRead(|d|)] + rest;
    var r2 := [DownWrite(|d|)] + r3;
    var r1 := [DownRead(|d|)] + r2;
    RunOne(s, TargetSends(d), s1, r1);
    RunOne(s1, DownRead(|d|), s2, r2);
    RunOne(s2, DownWrite(|d|), s3, r3);
    RunOne(s3, ClientRead(|d|), s4, rest);
    RegroupFour(TargetSends(d), DownRead(|d|), DownWrite(|d|), ClientRead(|d|), rest);
  }

  lemma RunNone(s: State)
    ensures Run(s, []) == Some(s)
  {
  }

  /** For every host and port whose header fits and all data, some schedule dials the target, carries the
      client's data to it and its data back. */
  lemma StreamWorks(host: seq<byte>, port: int, d1: seq<byte>, d2: seq<byte>)
    requires Decimal.IsInt64(port) && |Marshal(host, port)| <= MAX_HEADER
    ensures var actions := Dial(|Frame(host, port)|) + (TalkUp(d1) + (TalkDown(d2) + []));
            && Run(Start(host, port), actions).Some?
            && var s := Run(Start(host, port), actions).value;
            && s.dialed == Some(Header(Utf8.Sanitize(host), port)) && s.client.Open?
            && s.written == s.received == d1 && s.produced == s.read == d2
  {
    hide Run, Dial, TalkUp, TalkDown, Frame, Marshal;
    var s0 := Ready(host, port);
    DialWorks(host, port, TalkUp(d1) + (TalkDown(d2) + []));
    UpWorks(s0, d1, TalkDown(d2) + []);
    var s1 := s0.(written := s0.written + d1, received := s0.received + d1, up := s0.up + d1, upTaken := |s0.up| + |d1|);
    DownWorks(s1, d2, []);
    RunNone(s1.(produced := s1.produced + d2, producedTaken := |s1.produced| + |d2|, read := s1.read + d2, down := s1.down + d2, downTaken := |s1.down| + |d2|));
    assert [] + d1 == d1 && [] + d2 == d2;
  }
}
