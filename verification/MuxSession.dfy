/** The shared multiplexed session: concurrent dials, one retry each, and sessions that die at any time. */
module MuxSession {
  import opened Bytes

  /** Where a dial is. `Failed` is between an attempt that failed and what is done about it. */
  datatype Phase =
    | WantSession
    | HasSession(sess: nat)
    | Opened(st: nat)
    | HeaderSent(st: nat)
    | Failed
    | Returned(st: nat)
    | GaveUp

  datatype Dial = Dial(phase: Phase, attempts: nat)

  /** A stream, the session it runs on, the dial that opened it, and the status byte read off it. */
  datatype Stream = Stream(sess: nat, dial: nat, closed: bool, status: Option<byte>)

  /** `closed[i]` is whether the i-th session ever created is closed; `current` is the shared one. */
  datatype Pool = Pool(closed: seq<bool>, current: Option<nat>)

  datatype State = State(pool: Pool, streams: seq<Stream>, dials: seq<Dial>)

  datatype Action =
    | Begin
    | GetSession(d: nat, connects: bool)
    | OpenStream(d: nat, ok: bool)
    | WriteHeader(d: nat, ok: bool)
    | ReadStatus(d: nat, status: Option<byte>)
    | Retry(d: nat)
    | GiveUp(d: nat)
    | SessionDies(i: nat)

  function Start(): State {
    State(Pool([], None), [], [])
  }

  function At(s: State, d: nat, phase: Phase): State
    requires d < |s.dials|
  {
    s.(dials := s.dials[d := s.dials[d].(phase := phase)])
  }

  /** Closing the stream of a failed attempt. */
  function Abandon(s: State, d: nat, st: nat): State
    requires d < |s.dials| && st < |s.streams|
  {
    At(s, d, Failed).(streams := s.streams[st := s.streams[st].(closed := true)])
  }

  ghost predicate HasLive(p: Pool) {
    p.current.Some? && p.current.value < |p.closed| && !p.closed[p.current.value]
  }

  /** Under the lock: the live current session, or a new one if the proxy can be reached. */
  ghost function Acquire(p: Pool, connects: bool): (Pool, Option<nat>) {
    if HasLive(p) then (p, p.current)
    else if !connects then (p, None)
    else (Pool(p.closed + [false], Some(|p.closed|)), Some(|p.closed|))
  }

  /** Under the lock: close and forget the current session, whoever made it. */
  ghost function Reset(p: Pool): Pool {
    if p.current.Some? && p.current.value < |p.closed|
    then Pool(p.closed[p.current.value := true], None)
    else Pool(p.closed, None)
  }

  ghost function Step(s: State, a: Action): Option<State> {
    match a
    case Begin => Some(s.(dials := s.dials + [Dial(WantSession, 1)]))
    case GetSession(d, connects) =>
      if d < |s.dials| && s.dials[d].phase.WantSession? then
        var (p, i) := Acquire(s.pool, connects);
        Some(At(s, d, if i.Some? then HasSession(i.value) else Failed).(pool := p))
      else None
    case OpenStream(d, ok) =>
      if d < |s.dials| && s.dials[d].phase.HasSession? then
        var i := s.dials[d].phase.sess;
        if ok && i < |s.pool.closed| && !s.pool.closed[i]
        then Some(At(s, d, Opened(|s.streams|)).(streams := s.streams + [Stream(i, d, false, None)]))
        else Some(At(s, d, Failed))
      else None
    case WriteHeader(d, ok) =>
      if d < |s.dials| && s.dials[d].phase.Opened? && s.dials[d].phase.st < |s.streams| then
        var st := s.dials[d].phase.st;
        if ok then Some(At(s, d, HeaderSent(st))) else Some(Abandon(s, d, st))
      else None
    case ReadStatus(d, status) =>
      if d < |s.dials| && s.dials[d].phase.HeaderSent? && s.dials[d].phase.st < |s.streams| then
        var st := s.dials[d].phase.st;
        if status == Some(1)
        then Some(At(s, d, Returned(st)).(streams := s.streams[st := s.streams[st].(status := status)]))
        else Some(Abandon(s, d, st))
      else None
    case Retry(d) =>
      if d < |s.dials| && s.dials[d].phase.Failed? && s.dials[d].attempts == 1
      then Some(s.(pool := Reset(s.pool), dials := s.dials[d := Dial(WantSession, 2)])) else None
    case GiveUp(d) =>
      if d < |s.dials| && s.dials[d].phase.Failed? && s.dials[d].attempts != 1 then Some(At(s, d, GaveUp)) else None
    case SessionDies(i) =>
      if i < |s.pool.closed| then Some(s.(pool := s.pool.(closed := s.pool.closed[i := true]))) else None
  }

  ghost function Run(s: State, actions: seq<Action>): Option<State>
    decreases |actions|
  {
    if actions == [] then Some(s)
    else
      var next := Step(s, actions[0]);
      if next.None? then None else Run(next.value, actions[1..])
  }

  // ----- what every step keeps -----

  /** Every session is closed or the current one. */
  ghost predicate OneLive(s: State) {
    && (s.pool.current.Some? ==> s.pool.current.value < |s.pool.closed|)
    && forall i | 0 <= i < |s.pool.closed| :: s.pool.closed[i] || s.pool.current == Some(i)
  }

  /** The stream a dial holds on to, if any. */
  function Held(d: Dial): Option<nat> {
    match d.phase
    case Opened(st) => Some(st)
    case HeaderSent(st) => Some(st)
    case Returned(st) => Some(st)
    case _ => None
  }

  /** Every stream is closed or held by the dial that opened it. */
  ghost predicate StreamOk(s: State, k: nat)
    requires k < |s.streams|
  {
    && s.streams[k].dial < |s.dials|
    && (s.streams[k].closed || Held(s.dials[s.streams[k].dial]) == Some(k))
  }

  /** A dial holds only its own stream, still open, and a returned one has its status read. */
  ghost predicate DialOk(s: State, d: nat)
    requires d < |s.dials|
  {
    var x := s.dials[d];
    && 1 <= x.attempts <= 2
    && (x.phase.GaveUp? ==> x.attempts == 2)
    && (Held(x).Some? ==>
          Held(x).value < |s.streams| && s.streams[Held(x).value].dial == d && !s.streams[Held(x).value].closed)
    && (x.phase.Returned? ==> s.streams[x.phase.st].status == Some(1))
  }

  ghost predicate NoLeak(s: State) {
    && (forall k | 0 <= k < |s.streams| :: StreamOk(s, k))
    && (forall d | 0 <= d < |s.dials| :: DialOk(s, d))
  }

  /** A dial moves on without taking or leaving a stream. */
  lemma MoveKeepsNoLeak(s: State, d: nat, x: Dial, s': State)
    requires NoLeak(s) && d < |s.dials| && s'.streams == s.streams && s'.dials == s.dials[d := x]
    requires Held(x) == Held(s.dials[d]) && 1 <= x.attempts <= 2 && !x.phase.Returned?
    requires x.phase.GaveUp? ==> x.attempts == 2
    ensures NoLeak(s')
  {
    assert DialOk(s, d);
    forall k | 0 <= k < |s'.streams| ensures StreamOk(s', k) {
      assert StreamOk(s, k);
    }
    forall e | 0 <= e < |s'.dials| ensures DialOk(s', e) {
      assert DialOk(s, e);
    }
  }

  /** A dial without a stream opens one. */
  lemma OpenKeepsNoLeak(s: State, d: nat, i: nat, s': State)
    requires NoLeak(s) && d < |s.dials| && Held(s.dials[d]).None?
    requires s'.streams == s.streams + [Stream(i, d, false, None)]
    requires s'.dials == s.dials[d := s.dials[d].(phase := Opened(|s.streams|))]
    ensures NoLeak(s')
  {
    assert DialOk(s, d);
    forall k | 0 <= k < |s'.streams| ensures StreamOk(s', k) {
      if k < |s.streams| {
        assert StreamOk(s, k) && s'.streams[k] == s.streams[k];
      }
    }
    forall e | 0 <= e < |s'.dials| ensures DialOk(s', e) {
      assert DialOk(s, e);
    }
  }

  /** A dial changes the stream it holds: it closes it and fails, or returns it. */
  lemma SettleKeepsNoLeak(s: State, d: nat, st: nat, y: Stream, p: Phase, s': State)
    requires NoLeak(s) && d < |s.dials| && Held(s.dials[d]) == Some(st) && st < |s.streams|
    requires y.dial == d && s'.streams == s.streams[st := y] && s'.dials == s.dials[d := s.dials[d].(phase := p)]
    requires (p.Failed? && y.closed) || (p == Returned(st) && !y.closed && y.status == Some(1))
    ensures NoLeak(s')
  {
    assert DialOk(s, d);
    forall k | 0 <= k < |s'.streams| ensures StreamOk(s', k) {
      assert StreamOk(s, k);
    }
    forall e | 0 <= e < |s'.dials| ensures DialOk(s', e) {
      assert DialOk(s, e);
    }
  }

  lemma BeginKeepsNoLeak(s: State, s': State)
    requires NoLeak(s) && s'.streams == s.streams && s'.dials == s.dials + [Dial(WantSession, 1)]
    ensures NoLeak(s')
  {
    forall k | 0 <= k < |s'.streams| ensures StreamOk(s', k) {
      assert StreamOk(s, k);
    }
    forall e | 0 <= e < |s'.dials| ensures DialOk(s', e) {
      if e < |s.dials| {
        assert DialOk(s, e) && s'.dials[e] == s.dials[e];
      }
    }
  }

  /** Only streams and dials matter. */
  lemma SessionsIrrelevant(s: State, s': State)
    requires NoLeak(s) && s'.streams == s.streams && s'.dials == s.dials
    ensures NoLeak(s')
  {
    forall k | 0 <= k < |s'.streams| ensures StreamOk(s', k) {
      assert StreamOk(s, k);
    }
    forall e | 0 <= e < |s'.dials| ensures DialOk(s', e) {
      assert DialOk(s, e);
    }
  }

  lemma StepKeepsOneLive(s: State, a: Action, s': State)
    requires OneLive(s) && Step(s, a) == Some(s')
    ensures OneLive(s')
  {
  }

  /** While it reads, a dial's stream is its own and still open. */
  lemma HeldOpen(s: State, d: nat)
    requires NoLeak(s) && d < |s.dials| && Held(s.dials[d]).Some?
    ensures var st := Held(s.dials[d]).value; st < |s.streams| && s.streams[st].dial == d && !s.streams[st].closed
  {
    assert DialOk(s, d);
  }

  lemma StepKeepsNoLeak(s: State, a: Action, s': State)
    requires NoLeak(s) && Step(s, a) == Some(s')
    ensures NoLeak(s')
  {
    hide NoLeak;
    match a
    case Begin => BeginKeepsNoLeak(s, s');
    case GetSession(d, _) =>
      AttemptsOf(s, d);
      MoveKeepsNoLeak(s, d, s'.dials[d], s');
    case OpenStream(d, _) =>
      AttemptsOf(s, d);
      if |s'.streams| > |s.streams| {
        OpenKeepsNoLeak(s, d, s.dials[d].phase.sess, s');
      } else {
        MoveKeepsNoLeak(s, d, s'.dials[d], s');
      }
    case WriteHeader(d, ok) =>
      AttemptsOf(s, d);
      HeldOpen(s, d);
      if ok {
        MoveKeepsNoLeak(s, d, s'.dials[d], s');
      } else {
        SettleKeepsNoLeak(s, d, s.dials[d].phase.st, s'.streams[s.dials[d].phase.st], Failed, s');
      }
    case ReadStatus(d, status) =>
      HeldOpen(s, d);
      var st := s.dials[d].phase.st;
      SettleKeepsNoLeak(s, d, st, s'.streams[st], s'.dials[d].phase, s');
    case Retry(d) => MoveKeepsNoLeak(s, d, s'.dials[d], s');
    case GiveUp(d) =>
      AttemptsOf(s, d);
      MoveKeepsNoLeak(s, d, s'.dials[d], s');
    case SessionDies(_) => SessionsIrrelevant(s, s');
  }

  lemma AttemptsOf(s: State, d: nat)
    requires NoLeak(s) && d < |s.dials|
    ensures 1 <= s.dials[d].attempts <= 2
  {
    assert DialOk(s, d);
  }

  lemma {:induction false} RunKeeps(s: State, actions: seq<Action>)
    requires OneLive(s) && NoLeak(s) && Run(s, actions).Some?
    ensures OneLive(Run(s, actions).value) && NoLeak(Run(s, actions).value)
    decreases |actions|
  {
    hide OneLive, NoLeak, Step;
    if actions != [] {
      var s' := Step(s, actions[0]).value;
      StepKeepsOneLive(s, actions[0], s');
      StepKeepsNoLeak(s, actions[0], s');
      RunKeeps(s', actions[1..]);
    }
  }

  /** How many streams a dial has opened. */
  function OpenedBy(s: State, d: nat): set<nat> {
    set k | 0 <= k < |s.streams| && s.streams[k].dial == d
  }

  /** One live session, in every interleaving of dials, retries and session deaths: every session ever
      created is closed or is the current one; a dial makes at most two attempts; and every stream a
      finished dial opened is closed, but for the one it returned with its status byte read. */
  lemma SessionsAndStreams(actions: seq<Action>)
    requires Run(Start(), actions).Some?
    ensures var s := Run(Start(), actions).value;
            && (forall i | 0 <= i < |s.pool.closed| :: s.pool.closed[i] || s.pool.current == Some(i))
            && (forall d | 0 <= d < |s.dials| :: 1 <= s.dials[d].attempts <= 2)
            && (forall d, k | 0 <= d < |s.dials| && k in OpenedBy(s, d) ::
                  && (s.dials[d].phase.GaveUp? ==> s.streams[k].closed)
                  && (s.dials[d].phase.Returned? ==>
                        if k == s.dials[d].phase.st then s.streams[k].status == Some(1) && !s.streams[k].closed
                        else s.streams[k].closed))
  {
    RunKeeps(Start(), actions);
    var s := Run(Start(), actions).value;
    forall d, k | 0 <= d < |s.dials| && k in OpenedBy(s, d)
      ensures (s.dials[d].phase.GaveUp? ==> s.streams[k].closed) && StreamOk(s, k) && DialOk(s, d)
    {
      assert StreamOk(s, k) && DialOk(s, d);
    }
    forall d | 0 <= d < |s.dials| ensures 1 <= s.dials[d].attempts <= 2 {
      assert DialOk(s, d);
    }
  }

  /** Two attempts open at most two streams. */
  ghost predicate FewStreams(s: State) {
    forall d | 0 <= d < |s.dials| ::
      |OpenedBy(s, d)| <= s.dials[d].attempts - (if s.dials[d].phase.WantSession? || s.dials[d].phase.HasSession? then 1 else 0)
  }

  lemma OpenedByUnchanged(s: State, s': State, d: nat)
    requires |s'.streams| == |s.streams| && forall k | 0 <= k < |s.streams| :: s'.streams[k].dial == s.streams[k].dial
    ensures OpenedBy(s', d) == OpenedBy(s, d)
  {
  }

  lemma OpenedByMore(s: State, s': State, d: nat, x: Stream)
    requires s'.streams == s.streams + [x]
    ensures |OpenedBy(s', d)| == |OpenedBy(s, d)| + (if x.dial == d then 1 else 0)
  {
    if x.dial == d {
      assert OpenedBy(s', d) == OpenedBy(s, d) + {|s.streams|};
    } else {
      assert OpenedBy(s', d) == OpenedBy(s, d);
    }
  }

  lemma StepKeepsFewStreams(s: State, a: Action, s': State)
    requires NoLeak(s) && FewStreams(s) && Step(s, a) == Some(s')
    ensures FewStreams(s')
  {
    forall d | 0 <= d < |s'.dials|
      ensures |OpenedBy(s', d)| <= s'.dials[d].attempts -
        (if s'.dials[d].phase.WantSession? || s'.dials[d].phase.HasSession? then 1 else 0)
    {
      if a.OpenStream? && |s'.streams| > |s.streams| {
        OpenedByMore(s, s', d, Stream(s.dials[a.d].phase.sess, a.d, false, None));
      } else {
        OpenedByUnchanged(s, s', d);
        if d == |s.dials| {
          forall k | 0 <= k < |s.streams| ensures s.streams[k].dial != d {
            assert StreamOk(s, k);
          }
          assert OpenedBy(s, d) == {};
        }
      }
    }
  }

  lemma {:induction false} RunKeepsFew(s: State, actions: seq<Action>)
    requires NoLeak(s) && FewStreams(s) && Run(s, actions).Some?
    ensures FewStreams(Run(s, actions).value)
    decreases |actions|
  {
    hide NoLeak, FewStreams, Step;
    if actions != [] {
      var s' := Step(s, actions[0]).value;
      StepKeepsNoLeak(s, actions[0], s');
      StepKeepsFewStreams(s, actions[0], s');
      RunKeepsFew(s', actions[1..]);
    }
  }

  lemma AtMostTwoStreams(actions: seq<Action>, d: nat)
    requires Run(Start(), actions).Some? && d < |Run(Start(), actions).value.dials|
    ensures |OpenedBy(Run(Start(), actions).value, d)| <= Run(Start(), actions).value.dials[d].attempts <= 2
  {
    RunKeepsFew(Start(), actions);
    RunKeeps(Start(), actions);
    assert DialOk(Run(Start(), actions).value, d);
  }

  /** The price of the retry: after any dial's first failure, be it only a refused target, no session is
      live, so every stream other dials hold has lost its session. */
  lemma RetryClosesEverySession(actions: seq<Action>, d: nat)
    requires Run(Start(), actions).Some? && Step(Run(Start(), actions).value, Retry(d)).Some?
    ensures var s := Step(Run(Start(), actions).value, Retry(d)).value;
            && s.pool.current.None?
            && (forall i | 0 <= i < |s.pool.closed| :: s.pool.closed[i])
            && (forall k | 0 <= k < |s.streams| && s.streams[k].sess < |s.pool.closed| :: s.pool.closed[s.streams[k].sess])
  {
    RunKeeps(Start(), actions);
  }

  /** What ends session i: it dies, or it is the current one when some dial retries. */
  ghost predicate Closes(s: State, a: Action, i: nat) {
    i < |s.pool.closed| && (a == SessionDies(i) || (a.Retry? && s.pool.current == Some(i)))
  }

  ghost predicate ClosedAlong(s: State, actions: seq<Action>, i: nat)
    decreases |actions|
  {
    actions != [] &&
    (Closes(s, actions[0], i) ||
     (Step(s, actions[0]).Some? && ClosedAlong(Step(s, actions[0]).value, actions[1..], i)))
  }

  lemma StepCloses(s: State, a: Action, s': State, i: nat)
    requires OneLive(s) && Step(s, a) == Some(s') && i < |s'.pool.closed|
    ensures s'.pool.closed[i] <==> (i < |s.pool.closed| && s.pool.closed[i]) || Closes(s, a, i)
  {
  }

  lemma StepKeepsCount(s: State, a: Action, s': State)
    requires Step(s, a) == Some(s')
    ensures |s.pool.closed| <= |s'.pool.closed|
  {
  }

  /** A session is closed exactly if something along the run closed it. */
  lemma {:induction false} ClosedIffEnded(s: State, actions: seq<Action>, i: nat)
    requires OneLive(s) && Run(s, actions).Some? && i < |Run(s, actions).value.pool.closed|
    ensures Run(s, actions).value.pool.closed[i] <==>
              (i < |s.pool.closed| && s.pool.closed[i]) || ClosedAlong(s, actions, i)
    decreases |actions|
  {
    hide OneLive, Step;
    if actions != [] {
      var s' := Step(s, actions[0]).value;
      StepKeepsOneLive(s, actions[0], s');
      ClosedIffEnded(s', actions[1..], i);
      if i < |s'.pool.closed| {
        StepCloses(s, actions[0], s', i);
      } else {
        StepKeepsCount(s, actions[0], s');
      }
    }
  }

  /** Exactly when a session has closed, in every reachable state: it died, or it was the current one when
      some dial, perhaps only for a refused target, retried. */
  lemma SessionEndsOnlySo(actions: seq<Action>, i: nat)
    requires Run(Start(), actions).Some? && i < |Run(Start(), actions).value.pool.closed|
    ensures Run(Start(), actions).value.pool.closed[i] <==> ClosedAlong(Start(), actions, i)
  {
    ClosedIffEnded(Start(), actions, i);
  }

  lemma RunOne(s: State, a: Action, s': State, rest: seq<Action>)
    requires Step(s, a) == Some(s')
    ensures Run(s, [a] + rest) == Run(s', rest)
  {
    assert ([a] + rest)[1..] == rest;
  }

  /** Dial d, which has just begun, gets the live session 0, opens stream st and sends its header. */
  lemma Reaches(s: State, d: nat, s': State, status: byte, rest: seq<Action>)
    requires d < |s.dials| && s.dials[d] == Dial(WantSession, 1)
    requires s.pool == Pool([], None) || s.pool == Pool([false], Some(0))
    requires var st := |s.streams|;
             if status == 1
             then s' == State(Pool([false], Some(0)), s.streams + [Stream(0, d, false, Some(1))], s.dials[d := Dial(Returned(st), 1)])
             else s' == State(Pool([false], Some(0)), s.streams + [Stream(0, d, true, None)], s.dials[d := Dial(Failed, 1)])
    ensures Run(s, Exchange(d, status) + rest) == Run(s', rest)
  {
    hide Run;
    var st := |s.streams|;
    var p := Pool([false], Some(0));
    var s1 := State(p, s.streams, s.dials[d := Dial(HasSession(0), 1)]);
    var s2 := State(p, s.streams + [Stream(0, d, false, None)], s.dials[d := Dial(Opened(st), 1)]);
    var s3 := s2.(dials := s.dials[d := Dial(HeaderSent(st), 1)]);
    assert [] + [false] == [false];
    Overwritten(s.dials, d, Dial(HasSession(0), 1), Dial(Opened(st), 1));
    Overwritten(s.dials, d, Dial(Opened(st), 1), Dial(HeaderSent(st), 1));
    Overwritten(s.dials, d, Dial(HeaderSent(st), 1), s'.dials[d]);
    assert (s.streams + [Stream(0, d, false, None)])[st := s'.streams[st]] == s.streams + [s'.streams[st]];
    assert Step(s, GetSession(d, true)) == Some(s1);
    assert Step(s1, OpenStream(d, true)) == Some(s2);
    assert Step(s2, WriteHeader(d, true)) == Some(s3);
    assert Step(s3, ReadStatus(d, Some(status))) == Some(s');
    var r3 := [ReadStatus(d, Some(status))] + rest;
    var r2 := [WriteHeader(d, true)] + r3;
    var r1 := [OpenStream(d, true)] + r2;
    RunOne(s, GetSession(d, true), s1, r1);
    RunOne(s1, OpenStream(d, true), s2, r2);
    RunOne(s2, WriteHeader(d, true), s3, r3);
    RunOne(s3, ReadStatus(d, Some(status)), s', rest);
    assert Exchange(d, status) + rest == [GetSession(d, true)] + r1;
  }

  lemma Overwritten<T>(xs: seq<T>, i: nat, x: T, y: T)
    requires i < |xs|
    ensures xs[i := x][i := y] == xs[i := y]
  {
  }

  function Exchange(d: nat, status: byte): seq<Action> {
    [GetSession(d, true), OpenStream(d, true), WriteHeader(d, true), ReadStatus(d, Some(status))]
  }

  /** One dial succeeds; a second one's target refuses, and it retries. */
  function RefusedNeighbour(): seq<Action> {
    [Begin] + (Exchange(0, 1) + ([Begin] + (Exchange(1, 0) + [Retry(1)])))
  }

  /** The first dial's stream is returned and open, yet its session is closed, though it never died. */
  lemma RefusalKillsNeighbour()
    ensures Run(Start(), RefusedNeighbour()).Some?
    ensures forall a <- RefusedNeighbour() :: !a.SessionDies?
    ensures var s := Run(Start(), RefusedNeighbour()).value;
            && |s.dials| == 2 && s.dials[0].phase == Returned(0) && |s.streams| == 2
            && !s.streams[0].closed && s.streams[0].sess == 0
            && s.pool == Pool([true], None)
  {
    hide Run;
    var p := Pool([false], Some(0));
    var good, bad := Stream(0, 0, false, Some(1)), Stream(0, 1, true, None);
    var a0 := State(Pool([], None), [], [Dial(WantSession, 1)]);
    var a1 := State(p, [good], [Dial(Returned(0), 1)]);
    var b0 := State(p, [good], [Dial(Returned(0), 1), Dial(WantSession, 1)]);
    var b1 := State(p, [good, bad], [Dial(Returned(0), 1), Dial(Failed, 1)]);
    var c := State(Pool([true], None), [good, bad], [Dial(Returned(0), 1), Dial(WantSession, 2)]);
    assert [] + [Dial(WantSession, 1)] == a0.dials && [] + [good] == a1.streams && a0.dials[0 := Dial(Returned(0), 1)] == a1.dials;
    assert a1.dials + [Dial(WantSession, 1)] == b0.dials && b0.streams + [bad] == b1.streams;
    assert b0.dials[1 := Dial(Failed, 1)] == b1.dials && b1.dials[1 := Dial(WantSession, 2)] == c.dials;
    assert [false][0 := true] == [true];
    var r3 := [Retry(1)] + [];
    var r2 := [Begin] + (Exchange(1, 0) + r3);
    RunOne(Start(), Begin, a0, Exchange(0, 1) + r2);
    Reaches(a0, 0, a1, 1, r2);
    RunOne(a1, Begin, b0, Exchange(1, 0) + r3);
    Reaches(b0, 1, b1, 0, r3);
    RunOne(b1, Retry(1), c, []);
    assert r3 == [Retry(1)];
    RunNone(c);
  }

  lemma RunNone(s: State)
    ensures Run(s, []) == Some(s)
  {
  }

  /** What a dial gets is live: the current session if that lives, and only otherwise a new one; nothing, only
      if none lives and the proxy cannot be reached. */
  lemma AcquiredIsLive(p: Pool, connects: bool)
    ensures var (p', i) := Acquire(p, connects);
            && (i.Some? ==> i == p'.current && i.value < |p'.closed| && !p'.closed[i.value])
            && (HasLive(p) ==> i == p.current && p' == p)
            && (!HasLive(p) && i.Some? ==> i.value == |p.closed| && p'.closed == p.closed + [false])
            && (i.None? <==> !HasLive(p) && !connects)
            && (i.None? ==> p' == p)
  {
  }

  /** From every state: a dial that wants a session, with a proxy that can be reached and a target that
      accepts, returns a new open stream on a live session. */
  lemma GoodDialReturns(s: State, d: nat)
    requires d < |s.dials| && s.dials[d].phase.WantSession?
    ensures Run(s, Exchange(d, 1)).Some?
    ensures var s', st := Run(s, Exchange(d, 1)).value, |s.streams|;
            && |s'.dials| == |s.dials| && s'.dials[d].phase == Returned(st)
            && |s'.streams| == st + 1 && !s'.streams[st].closed && s'.streams[st].status == Some(1)
            && s'.pool.current == Some(s'.streams[st].sess) && HasLive(s'.pool)
  {
    hide Run, Acquire, HasLive;
    AcquiredIsLive(s.pool, true);
    var st, i := |s.streams|, Acquire(s.pool, true).1.value;
    var s1 := At(s, d, HasSession(i)).(pool := Acquire(s.pool, true).0);
    var s2 := At(s1, d, Opened(st)).(streams := s.streams + [Stream(i, d, false, None)]);
    var s3 := At(s2, d, HeaderSent(st));
    var s4 := At(s3, d, Returned(st)).(streams := s3.streams[st := s3.streams[st].(status := Some(1))]);
    var r3 := [ReadStatus(d, Some(1))] + [];
    var r2 := [WriteHeader(d, true)] + r3;
    var r1 := [OpenStream(d, true)] + r2;
    RunOne(s, GetSession(d, true), s1, r1);
    RunOne(s1, OpenStream(d, true), s2, r2);
    RunOne(s2, WriteHeader(d, true), s3, r3);
    RunOne(s3, ReadStatus(d, Some(1)), s4, []);
    RunNone(s4);
    assert Exchange(d, 1) == [GetSession(d, true)] + r1;
    LiveIs(s4.pool, i);
  }

  lemma LiveIs(p: Pool, i: nat)
    requires p.current == Some(i) && i < |p.closed| && !p.closed[i]
    ensures HasLive(p)
  {
  }

  // ----- the session variable and its lock -----

  class Session {
    var closed: bool

    constructor ()
      ensures !closed
    {
      closed := false;
    }

    method Close()
      modifies this
      ensures closed
    {
      closed := true;
    }
  }

  /** The global session variable; each method is one critical section, and so one move of the pool. */
  class MuxClient {
    var muxSess: Session?
    ghost var created: seq<Session>
    ghost var at: Option<nat>

    constructor ()
      ensures Valid() && View() == Start().pool
    {
      muxSess, created, at := null, [], None;
    }

    ghost predicate Valid()
      reads this
    {
      && (forall i, j | 0 <= i < j < |created| :: created[i] != created[j])
      && (muxSess == null <==> at.None?)
      && (at.Some? ==> at.value < |created| && created[at.value] == muxSess)
    }

    ghost function View(): Pool
      reads this, created
    {
      Pool(seq(|created|, i requires 0 <= i < |created| reads this, created => created[i].closed), at)
    }

    method GetSession(connects: bool) returns (sess: Session?)
      requires Valid()
      modifies this
      ensures Valid() && (fresh(sess) || created == old(created))
      ensures View() == Acquire(old(View()), connects).0
      ensures var i := Acquire(old(View()), connects).1;
              if i.None? then sess == null else i.value < |created| && sess == created[i.value]
    {
      if muxSess != null && !muxSess.closed {
        return muxSess;
      }
      if !connects {
        return null;
      }
      sess := new Session();
      ghost var was := View();
      muxSess, at := sess, Some(|created|);
      created := created + [sess];
      assert View().closed == was.closed + [false];
    }

    /** Before a retry. */
    method ResetSession()
      requires Valid()
      modifies this, muxSess
      ensures Valid() && created == old(created) && muxSess == null
      ensures View() == Reset(old(View()))
    {
      if muxSess != null {
        muxSess.Close();
        muxSess, at := null, None;
      }
    }
  }
}
