/** The per-address lockout in front of the login form. */
module LoginGate {
  import opened Bytes

  const MAX_LOGIN_FAILS: nat := 10
  /** Twenty-four hours in nanoseconds. */
  const LOCKOUT: int := 24 * 60 * 60 * 1_000_000_000

  /** The zero time, before every clock reading. */
  const ZERO_TIME: int := 0

  datatype Attempts = Attempts(fails: nat, lockedUntil: int, last: int)

  type Table = map<string, Attempts>

  predicate Expired(a: Attempts, now: int) {
    now - a.last > LOCKOUT && now > a.lockedUntil
  }

  function Swept(t: Table, now: int): Table {
    map ip | ip in t && !Expired(t[ip], now) :: t[ip]
  }

  predicate Locked(t: Table, ip: string, now: int) {
    ip in t && now < t[ip].lockedUntil
  }

  /** A success clears the address; a failure counts, and from the tenth on locks.
      The clock is read once for the entry and once more for the lock. */
  function Recorded(t: Table, ip: string, ok: bool, at: int, lockAt: int): Table {
    if ok then t - {ip}
    else
      var a := if ip in t then t[ip] else Attempts(0, ZERO_TIME, ZERO_TIME);
      t[ip := Attempts(a.fails + 1, if a.fails + 1 >= MAX_LOGIN_FAILS then lockAt + LOCKOUT else a.lockedUntil, at)]
  }

  class Gate {
    var loginByIP: Table

    constructor ()
      ensures loginByIP == map[]
    {
      loginByIP := map[];
    }

    /** Sweeps expired entries, then looks the address up; one critical section. */
    method LoginLocked(ip: string, now: int) returns (locked: bool)
      modifies this
      ensures loginByIP == Swept(old(loginByIP), now)
      ensures locked == Locked(loginByIP, ip, now)
    {
      var todo := loginByIP.Keys;
      while todo != {}
        invariant todo <= old(loginByIP).Keys
        invariant loginByIP == map k | k in old(loginByIP) && (k in todo || !Expired(old(loginByIP)[k], now)) :: old(loginByIP)[k]
        decreases todo
      {
        var k :| k in todo;
        var a := loginByIP[k];
        if Expired(a, now) {
          loginByIP := loginByIP - {k};
        }
        todo := todo - {k};
      }
      locked := ip in loginByIP && now < loginByIP[ip].lockedUntil;
    }

    method RecordLogin(ip: string, ok: bool, at: int, lockAt: int)
      modifies this
      ensures loginByIP == Recorded(old(loginByIP), ip, ok, at, lockAt)
    {
      if ok {
        loginByIP := loginByIP - {ip};
        return;
      }
      if ip !in loginByIP {
        loginByIP := loginByIP[ip := Attempts(0, ZERO_TIME, ZERO_TIME)];
      }
      var a := loginByIP[ip];
      a := a.(fails := a.fails + 1);
      a := a.(last := at);
      if a.fails >= MAX_LOGIN_FAILS {
        a := a.(lockedUntil := lockAt + LOCKOUT);
      }
      loginByIP := loginByIP[ip := a];
    }
  }

  // ----- all interleavings of login requests -----

  /** A request first checks the lock; if admitted it is in flight until it records its outcome. */
  datatype Event =
    | Check(req: nat, ip: string, now: int)
    | Record(req: nat, ip: string, ok: bool, at: int, lockAt: int)

  /** Every admitted request sleeps a second before its code is verified and the outcome recorded. */
  const SLEEP: int := 1_000_000_000

  datatype Admitted = Admitted(ip: string, since: int)

  datatype State = State(table: Table, clock: int, inFlight: map<nat, Admitted>)

  function Start(): State {
    State(map[], ZERO_TIME, map[])
  }

  /** `None` where the clock would run backwards, the request is not where the event says, or it still sleeps. */
  function Step(s: State, e: Event): Option<State> {
    match e
    case Check(req, ip, now) =>
      if now < s.clock || req in s.inFlight then None
      else
        var t := Swept(s.table, now);
        Some(State(t, now, if Locked(t, ip, now) then s.inFlight else s.inFlight[req := Admitted(ip, now)]))
    case Record(req, ip, ok, at, lockAt) =>
      if at < s.clock || lockAt < at || req !in s.inFlight || s.inFlight[req].ip != ip
         || at < s.inFlight[req].since + SLEEP
      then None
      else Some(State(Recorded(s.table, ip, ok, at, lockAt), lockAt, s.inFlight - {req}))
  }

  function Run(s: State, events: seq<Event>): Option<State>
    decreases |events|
  {
    if events == [] then Some(s)
    else
      var next := Step(s, events[0]);
      if next.None? then None else Run(next.value, events[1..])
  }

  function Flying(s: State, ip: string): set<nat> {
    set r | r in s.inFlight && s.inFlight[r].ip == ip
  }

  /** Never more than `k` requests of the address are in flight along the run. */
  predicate AtMostInFlight(s: State, events: seq<Event>, ip: string, k: nat)
    decreases |events|
  {
    && |Flying(s, ip)| <= k
    && (events != [] && Step(s, events[0]).Some? ==> AtMostInFlight(Step(s, events[0]).value, events[1..], ip, k))
  }

  predicate InWindow(at: int, from: int) {
    from <= at < from + LOCKOUT
  }

  predicate FailsIn(e: Event, ip: string, from: int) {
    e.Record? && e.ip == ip && !e.ok && InWindow(e.at, from)
  }

  predicate SucceedsIn(e: Event, ip: string, from: int) {
    e.Record? && e.ip == ip && e.ok && InWindow(e.at, from)
  }

  function Failures(events: seq<Event>, ip: string, from: int): nat {
    if events == [] then 0
    else (if FailsIn(events[0], ip, from) then 1 else 0) + Failures(events[1..], ip, from)
  }

  predicate NoSuccess(events: seq<Event>, ip: string, from: int) {
    forall e <- events :: !SucceedsIn(e, ip, from)
  }

  /** While the window is open: `n` failures so far are all still counted in the entry, ten of
      them have locked it past the window's end, and only requests already in flight remain. */
  ghost predicate Bounded(s: State, ip: string, from: int, k: nat, n: nat) {
    && n <= 9 + k
    && (n >= 1 ==> s.clock >= from)
    && (s.clock < from + LOCKOUT ==>
          && (n >= 1 ==> ip in s.table && s.table[ip].fails >= n && s.table[ip].last >= from)
          && (n >= MAX_LOGIN_FAILS ==> s.table[ip].lockedUntil >= from + LOCKOUT && n + |Flying(s, ip)| <= 9 + k))
  }

  lemma CheckBounded(s: State, e: Event, ip: string, from: int, k: nat, n: nat)
    requires e.Check? && Step(s, e).Some? && Bounded(s, ip, from, k, n)
    ensures Bounded(Step(s, e).value, ip, from, k, n)
  {
    var s' := Step(s, e).value;
    if s'.clock < from + LOCKOUT && n >= MAX_LOGIN_FAILS {
      assert Flying(s', ip) == Flying(s, ip);
    }
  }

  lemma FlyingAfterRecord(s: State, e: Event, ip: string)
    requires e.Record? && Step(s, e).Some?
    ensures |Flying(Step(s, e).value, ip)| == |Flying(s, ip)| - (if e.ip == ip then 1 else 0)
  {
    var s' := Step(s, e).value;
    if e.ip == ip {
      assert Flying(s, ip) == Flying(s', ip) + {e.req};
    } else {
      assert Flying(s, ip) == Flying(s', ip);
    }
  }

  lemma RecordBounded(s: State, e: Event, ip: string, from: int, k: nat, n: nat)
    requires e.Record? && Step(s, e).Some? && Bounded(s, ip, from, k, n)
    requires |Flying(s, ip)| <= k && !SucceedsIn(e, ip, from)
    ensures Bounded(Step(s, e).value, ip, from, k, n + (if FailsIn(e, ip, from) then 1 else 0))
  {
    FlyingAfterRecord(s, e, ip);
    if FailsIn(e, ip, from) {
      assert e.req in Flying(s, ip);
    }
  }

  lemma {:induction false} RunBounded(s: State, events: seq<Event>, ip: string, from: int, k: nat, n: nat)
    requires Run(s, events).Some? && AtMostInFlight(s, events, ip, k) && NoSuccess(events, ip, from)
    requires Bounded(s, ip, from, k, n)
    ensures n + Failures(events, ip, from) <= 9 + k
    decreases |events|
  {
    if events != [] {
      var e := events[0];
      if e.Check? {
        CheckBounded(s, e, ip, from, k, n);
      } else {
        RecordBounded(s, e, ip, from, k, n);
      }
      RunBounded(Step(s, e).value, events[1..], ip, from, k, n + (if FailsIn(e, ip, from) then 1 else 0));
    }
  }

  /** Lockout bound: whatever other addresses do and whenever sweeps happen, a half-open 24-hour
      window without a recorded success holds at most nine plus `k` recorded failures of an
      address that never has more than `k` logins in flight. */
  lemma LockoutBound(events: seq<Event>, ip: string, from: int, k: nat)
    requires Run(Start(), events).Some? && AtMostInFlight(Start(), events, ip, k) && NoSuccess(events, ip, from)
    ensures Failures(events, ip, from) <= 9 + k
  {
    RunBounded(Start(), events, ip, from, k, 0);
  }

  // ----- the bound is attained -----

  /** Requests `first` to `first + n - 1` of one address check at time `t`. */
  function Checks(ip: string, first: nat, n: nat, t: int): (events: seq<Event>)
    ensures forall e <- events :: e.Record? ==> !e.ok
    decreases n
  {
    if n == 0 then [] else [Check(first, ip, t)] + Checks(ip, first + 1, n - 1, t)
  }

  /** The same requests all fail at time `t`. */
  function Fails(ip: string, first: nat, n: nat, t: int): (events: seq<Event>)
    ensures forall e <- events :: e.Record? ==> !e.ok
    decreases n
  {
    if n == 0 then [] else [Record(first, ip, false, t, t)] + Fails(ip, first + 1, n - 1, t)
  }

  /** `n` requests one after the other, each failing a second after its check. */
  function OneByOne(ip: string, first: nat, n: nat): (events: seq<Event>)
    ensures forall e <- events :: e.Record? ==> !e.ok
    decreases n
  {
    if n == 0 then []
    else
      var t := (first + 1) * SLEEP;
      [Check(first, ip, t - SLEEP)] + ([Record(first, ip, false, t, t)] + OneByOne(ip, first + 1, n - 1))
  }

  /** Nine failures in turn, then `k` requests checking before any of them records. */
  function WorstRun(ip: string, k: nat): seq<Event> {
    OneByOne(ip, 0, 9) + (Checks(ip, 9, k, 9 * SLEEP) + Fails(ip, 9, k, 10 * SLEEP))
  }

  function Requests(lo: nat, hi: nat): (rs: set<nat>)
    ensures forall r :: r in rs <==> lo <= r < hi
    decreases hi - lo
  {
    if lo >= hi then {} else {lo} + Requests(lo + 1, hi)
  }

  /** The state after `fails` failures, the last at time `t`, with requests `lo` to `hi - 1` in flight
      since `since`. */
  function Burst(ip: string, fails: nat, lo: nat, hi: nat, t: int, since: int): State {
    State(if fails == 0 then map[] else
          map[ip := Attempts(fails, if fails >= MAX_LOGIN_FAILS then t + LOCKOUT else ZERO_TIME, t)],
          t, map r | r in Requests(lo, hi) :: Admitted(ip, since))
  }

  lemma BurstSize(ip: string, fails: nat, lo: nat, hi: nat, t: int, since: int)
    requires lo <= hi
    ensures |Flying(Burst(ip, fails, lo, hi, t, since), ip)| == hi - lo
    decreases hi - lo
  {
    if lo < hi {
      BurstSize(ip, fails, lo + 1, hi, t, since);
      assert Flying(Burst(ip, fails, lo, hi, t, since), ip) == Flying(Burst(ip, fails, lo + 1, hi, t, since), ip) + {lo};
    } else {
      assert Flying(Burst(ip, fails, lo, hi, t, since), ip) == {};
    }
  }

  lemma CheckInBurst(ip: string, fails: nat, lo: nat, hi: nat, t: int)
    requires lo <= hi && fails < MAX_LOGIN_FAILS && t >= 0
    ensures Step(Burst(ip, fails, lo, hi, t, t), Check(hi, ip, t)) == Some(Burst(ip, fails, lo, hi + 1, t, t))
  {
    var s := Burst(ip, fails, lo, hi, t, t);
    assert Swept(s.table, t) == s.table;
    assert s.inFlight[hi := Admitted(ip, t)] == Burst(ip, fails, lo, hi + 1, t, t).inFlight;
  }

  lemma FailInBurst(ip: string, fails: nat, lo: nat, hi: nat, t: int, since: int, at: int)
    requires lo < hi && t <= at && since + SLEEP <= at
    ensures Step(Burst(ip, fails, lo, hi, t, since), Record(lo, ip, false, at, at))
            == Some(Burst(ip, fails + 1, lo + 1, hi, at, since))
  {
    var s := Burst(ip, fails, lo, hi, t, since);
    assert s.inFlight - {lo} == Burst(ip, fails + 1, lo + 1, hi, at, since).inFlight;
    assert Recorded(s.table, ip, false, at, at) == Burst(ip, fails + 1, lo + 1, hi, at, since).table;
  }

  /** Nobody in flight has been so since any time. */
  lemma NobodyInFlight(ip: string, fails: nat, lo: nat, t: int, a: int, b: int)
    ensures Burst(ip, fails, lo, lo, t, a) == Burst(ip, fails, lo, lo, t, b)
  {
    assert Requests(lo, lo) == {};
  }

  /** One more event in front of a good run. */
  lemma Prepend(s: State, e: Event, s': State, rest: seq<Event>, ip: string, k: nat)
    requires Step(s, e) == Some(s') && |Flying(s, ip)| <= k
    requires Run(s', rest).Some? && AtMostInFlight(s', rest, ip, k)
    ensures Run(s, [e] + rest).Some? && AtMostInFlight(s, [e] + rest, ip, k)
    ensures Failures([e] + rest, ip, 0) == (if FailsIn(e, ip, 0) then 1 else 0) + Failures(rest, ip, 0)
  {
    assert ([e] + rest)[1..] == rest;
  }

  lemma {:induction false} FailsRun(ip: string, fails: nat, lo: nat, hi: nat, t: int, since: int, at: int, k: nat)
    requires lo <= hi <= lo + k && t <= at && since + SLEEP <= at && 0 <= at < LOCKOUT
    ensures Run(Burst(ip, fails, lo, hi, t, since), Fails(ip, lo, hi - lo, at)).Some?
    ensures AtMostInFlight(Burst(ip, fails, lo, hi, t, since), Fails(ip, lo, hi - lo, at), ip, k)
    ensures Failures(Fails(ip, lo, hi - lo, at), ip, 0) == hi - lo
    decreases hi - lo
  {
    hide Burst, Step, Flying;
    BurstSize(ip, fails, lo, hi, t, since);
    if lo < hi {
      FailInBurst(ip, fails, lo, hi, t, since, at);
      FailsRun(ip, fails + 1, lo + 1, hi, at, since, at, k);
      Prepend(Burst(ip, fails, lo, hi, t, since), Record(lo, ip, false, at, at),
              Burst(ip, fails + 1, lo + 1, hi, at, since), Fails(ip, lo + 1, hi - lo - 1, at), ip, k);
    }
  }

  lemma {:induction false} ChecksRun(ip: string, lo: nat, hi: nat, n: nat, t: int, k: nat)
    requires lo <= hi && hi + n == lo + k && 0 <= t < LOCKOUT - SLEEP
    ensures var events := Checks(ip, hi, n, t) + Fails(ip, lo, k, t + SLEEP);
            && Run(Burst(ip, 9, lo, hi, t, t), events).Some?
            && AtMostInFlight(Burst(ip, 9, lo, hi, t, t), events, ip, k)
            && Failures(events, ip, 0) == k
    decreases n
  {
    hide Burst, Step, Flying, Run, AtMostInFlight, Failures;
    BurstSize(ip, 9, lo, hi, t, t);
    var events := Checks(ip, hi, n, t) + Fails(ip, lo, k, t + SLEEP);
    if n == 0 {
      FailsRun(ip, 9, lo, hi, t, t, t + SLEEP, k);
      assert events == Fails(ip, lo, k, t + SLEEP);
    } else {
      CheckInBurst(ip, 9, lo, hi, t);
      ChecksRun(ip, lo, hi + 1, n - 1, t, k);
      var rest := Checks(ip, hi + 1, n - 1, t) + Fails(ip, lo, k, t + SLEEP);
      assert events == [Check(hi, ip, t)] + rest;
      Prepend(Burst(ip, 9, lo, hi, t, t), Check(hi, ip, t), Burst(ip, 9, lo, hi + 1, t, t), rest, ip, k);
    }
  }

  /** Nobody in flight at the time the last of `done` failures was recorded. */
  function Quiet(ip: string, done: nat): State {
    Burst(ip, done, done, done, done * SLEEP, done * SLEEP)
  }

  /** A request that checks and, a second later, fails, in front of a good run. */
  lemma OneFailure(ip: string, done: nat, rest: seq<Event>, k: nat)
    requires done < 9 && k >= 1
    requires Run(Quiet(ip, done + 1), rest).Some? && AtMostInFlight(Quiet(ip, done + 1), rest, ip, k)
    ensures var t := (done + 1) * SLEEP;
            var events := [Check(done, ip, t - SLEEP)] + ([Record(done, ip, false, t, t)] + rest);
            && Run(Quiet(ip, done), events).Some?
            && AtMostInFlight(Quiet(ip, done), events, ip, k)
            && Failures(events, ip, 0) == 1 + Failures(rest, ip, 0)
  {
    hide Burst, Step, Flying, Run, AtMostInFlight, Failures;
    var t, t' := done * SLEEP, (done + 1) * SLEEP;
    BurstSize(ip, done, done, done, t, t);
    BurstSize(ip, done, done, done + 1, t, t);
    CheckInBurst(ip, done, done, done, t);
    FailInBurst(ip, done, done, done + 1, t, t, t');
    NobodyInFlight(ip, done + 1, done + 1, t', t, t');
    Prepend(Burst(ip, done, done, done + 1, t, t), Record(done, ip, false, t', t'), Quiet(ip, done + 1), rest, ip, k);
    Prepend(Quiet(ip, done), Check(done, ip, t), Burst(ip, done, done, done + 1, t, t),
            [Record(done, ip, false, t', t')] + rest, ip, k);
  }

  lemma Regroup(a: Event, b: Event, xs: seq<Event>, ys: seq<Event>)
    ensures [a] + ([b] + xs) + ys == [a] + ([b] + (xs + ys))
  {
  }

  lemma {:induction false} OneByOneRun(ip: string, done: nat, n: nat, tail: seq<Event>, k: nat)
    requires done + n == 9 && k >= 1
    requires Run(Quiet(ip, 9), tail).Some? && AtMostInFlight(Quiet(ip, 9), tail, ip, k)
    ensures var events := OneByOne(ip, done, n) + tail;
            && Run(Quiet(ip, done), events).Some?
            && AtMostInFlight(Quiet(ip, done), events, ip, k)
            && Failures(events, ip, 0) == n + Failures(tail, ip, 0)
    decreases n
  {
    hide Quiet, Run, AtMostInFlight, Failures;
    var events := OneByOne(ip, done, n) + tail;
    if n == 0 {
      assert events == tail;
    } else {
      OneByOneRun(ip, done + 1, n - 1, tail, k);
      var rest := OneByOne(ip, done + 1, n - 1) + tail;
      OneFailure(ip, done, rest, k);
      var t := (done + 1) * SLEEP;
      Regroup(Check(done, ip, t - SLEEP), Record(done, ip, false, t, t), OneByOne(ip, done + 1, n - 1), tail);
    }
  }

  /** No smaller bound holds: some run with at most `k` in flight, each a second between check and
      record, records exactly nine plus `k` failures. */
  lemma LockoutBoundAttained(ip: string, k: nat)
    requires k >= 1
    ensures Run(Start(), WorstRun(ip, k)).Some?
    ensures AtMostInFlight(Start(), WorstRun(ip, k), ip, k) && NoSuccess(WorstRun(ip, k), ip, 0)
    ensures Failures(WorstRun(ip, k), ip, 0) == 9 + k
  {
    hide Run, AtMostInFlight, Failures;
    ChecksRun(ip, 9, 9, k, 9 * SLEEP, k);
    OneByOneRun(ip, 0, 9, Checks(ip, 9, k, 9 * SLEEP) + Fails(ip, 9, k, 10 * SLEEP), k);
    assert Quiet(ip, 0) == Start();
  }
}
