/** The lockout table told from the history of events alone. */
module LoginHistory {
  import opened Bytes
  import opened LoginGate

  /** Twenty-four hours in nanoseconds. */
  const DAY: int := 86_400_000_000_000

  /** A recorded failure: when, and when its lock, if any, was started. */
  datatype Failure = Failure(at: int, lockAt: int)

  /** When the lock of a streak of failures ends: a day after the last, if they are ten or more. */
  function LockEnd(streak: seq<Failure>): int {
    if |streak| >= 10 then streak[|streak| - 1].lockAt + DAY else 0
  }

  /** A streak is forgotten at a check more than a day after its last failure and past its lock. */
  predicate Forgotten(streak: seq<Failure>, now: int) {
    streak != [] && now - streak[|streak| - 1].at > DAY && now > LockEnd(streak)
  }

  /** What one event does to the streak of an address. */
  function Continued(streak: seq<Failure>, e: Event, ip: string): seq<Failure> {
    match e
    case Check(_, _, now) => if Forgotten(streak, now) then [] else streak
    case Record(_, who, ok, at, lockAt) =>
      if who != ip then streak else if ok then [] else streak + [Failure(at, lockAt)]
  }

  /** The failures of an address since its last success, or since the last check, of any address, at which
      they were forgotten. */
  function Streak(events: seq<Event>, ip: string): seq<Failure> {
    if events == [] then []
    else Continued(Streak(events[..|events| - 1], ip), events[|events| - 1], ip)
  }

  /** What the table holds for an address. */
  ghost predicate Tells(t: Table, ip: string, streak: seq<Failure>) {
    if streak == [] then ip !in t
    else ip in t && t[ip] == Attempts(|streak|, LockEnd(streak), streak[|streak| - 1].at)
  }

  lemma {:induction false} RunAppend(s: State, events: seq<Event>, more: seq<Event>)
    requires Run(s, events + more).Some?
    ensures Run(s, events).Some? && Run(s, events + more) == Run(Run(s, events).value, more)
    decreases |events|
  {
    hide Step;
    if events == [] {
      assert events + more == more;
    } else {
      assert (events + more)[1..] == events[1..] + more;
      RunAppend(Step(s, events[0]).value, events[1..], more);
    }
  }

  lemma StreakAppend(events: seq<Event>, e: Event, ip: string)
    ensures Streak(events + [e], ip) == Continued(Streak(events, ip), e, ip)
  {
    assert (events + [e])[..|events|] == events;
  }

  /** One event changes what the table tells as it changes the streak. */
  lemma StepTells(s: State, e: Event, ip: string, events: seq<Event>)
    requires Step(s, e).Some? && Tells(s.table, ip, Streak(events, ip))
    ensures Tells(Step(s, e).value.table, ip, Streak(events + [e], ip))
  {
    hide Streak;
    StreakAppend(events, e, ip);
  }

  /** In every run the stored count of an address is the number of its failures since its last success or
      since they were forgotten; its lock and its last time are those of the last of them. */
  lemma {:induction false} TableTellsHistory(events: seq<Event>, ip: string)
    requires Run(Start(), events).Some?
    ensures Tells(Run(Start(), events).value.table, ip, Streak(events, ip))
    decreases |events|
  {
    hide Run, Step;
    if events == [] {
      RunNothing();
    } else {
      var init, e := events[..|events| - 1], events[|events| - 1];
      assert events == init + [e];
      RunAppend(Start(), init, [e]);
      TableTellsHistory(init, ip);
      RunSingle(Run(Start(), init).value, e);
      StepTells(Run(Start(), init).value, e, ip, init);
    }
  }

  lemma RunNothing()
    ensures Run(Start(), []) == Some(Start())
  {
  }

  lemma RunSingle(s: State, e: Event)
    requires Run(s, [e]).Some?
    ensures Step(s, e) == Run(s, [e])
  {
    assert [e][1..] == [];
  }

  /** Whether the check that ends a run lets its request through. */
  ghost predicate Admits(events: seq<Event>, req: nat, ip: string, now: int) {
    var all := events + [Check(req, ip, now)];
    Run(Start(), all).Some? && req in Run(Start(), all).value.inFlight
  }

  /** A check is refused exactly while ten or more failures count and a day has not passed since the last. */
  lemma LockedIff(events: seq<Event>, req: nat, ip: string, now: int)
    requires Run(Start(), events + [Check(req, ip, now)]).Some?
    ensures var streak := Streak(events, ip);
            Admits(events, req, ip, now) <==> !(|streak| >= 10 && now < streak[|streak| - 1].lockAt + DAY)
  {
    hide Run, Streak;
    var e := Check(req, ip, now);
    RunAppend(Start(), events, [e]);
    TableTellsHistory(events, ip);
    var s := Run(Start(), events).value;
    RunSingle(s, e);
    ClockNotNegative(events);
  }

  lemma {:induction false} ClockKept(s: State, events: seq<Event>)
    requires s.clock >= 0 && Run(s, events).Some?
    ensures Run(s, events).value.clock >= s.clock
    decreases |events|
  {
    if events != [] {
      ClockKept(Step(s, events[0]).value, events[1..]);
    }
  }

  lemma ClockNotNegative(events: seq<Event>)
    requires Run(Start(), events).Some?
    ensures Run(Start(), events).value.clock >= 0
  {
    ClockKept(Start(), events);
  }

  // ----- after a success -----

  predicate FailureOf(e: Event, ip: string) {
    e.Record? && e.ip == ip && !e.ok
  }

  predicate SuccessOf(e: Event, ip: string) {
    e.Record? && e.ip == ip && e.ok
  }

  function FailuresOf(events: seq<Event>, ip: string): nat {
    if events == [] then 0
    else FailuresOf(events[..|events| - 1], ip) + (if FailureOf(events[|events| - 1], ip) then 1 else 0)
  }

  lemma {:induction false} StreakBound(before: seq<Event>, after: seq<Event>, ip: string)
    requires before != [] && SuccessOf(before[|before| - 1], ip)
    ensures |Streak(before + after, ip)| <= FailuresOf(after, ip)
    decreases |after|
  {
    if after == [] {
      assert before + after == before;
    } else {
      var init, e := after[..|after| - 1], after[|after| - 1];
      assert before + after == (before + init) + [e];
      StreakBound(before, init, ip);
      StreakAppend(before + init, e, ip);
    }
  }

  /** A success clears the address: with fewer than ten failures after it, the next check is admitted,
      however many failures came before. */
  lemma SuccessClears(before: seq<Event>, after: seq<Event>, req: nat, ip: string, now: int)
    requires before != [] && SuccessOf(before[|before| - 1], ip) && FailuresOf(after, ip) < 10
    requires Run(Start(), before + after + [Check(req, ip, now)]).Some?
    ensures Admits(before + after, req, ip, now)
  {
    hide Run, Streak, FailuresOf, Admits;
    StreakBound(before, after, ip);
    LockedIff(before + after, req, ip, now);
  }

  /** Less than a day after a success nothing is forgotten: exactly the failures since then count. */
  lemma {:induction false} StreakExact(before: seq<Event>, after: seq<Event>, ip: string, t0: int)
    requires before != [] && SuccessOf(before[|before| - 1], ip) && Run(Start(), before + after).Some?
    requires Run(Start(), before).Some? && t0 == Run(Start(), before).value.clock
    requires Run(Start(), before + after).value.clock < t0 + DAY
    requires forall i | 0 <= i < |after| :: !SuccessOf(after[i], ip)
    ensures |Streak(before + after, ip)| == FailuresOf(after, ip)
    ensures Streak(before + after, ip) != [] ==>
              var streak := Streak(before + after, ip);
              t0 <= streak[|streak| - 1].at <= streak[|streak| - 1].lockAt
    decreases |after|
  {
    hide Run, Step, Streak;
    assert before + [] == before;
    if after == [] {
      assert before == before[..|before| - 1] + [before[|before| - 1]];
      StreakAppend(before[..|before| - 1], before[|before| - 1], ip);
    } else {
      var init, e := after[..|after| - 1], after[|after| - 1];
      assert before + after == (before + init) + [e];
      RunAppend(Start(), before + init, [e]);
      RunAppend(Start(), before, init);
      var s, s' := Run(Start(), before + init).value, Run(Start(), before + after).value;
      RunSingle(s, e);
      ClockNotNegative(before);
      ClockKept(Run(Start(), before).value, init);
      StepTimes(s, e, s');
      StreakExact(before, init, ip, t0);
      StreakAppend(before + init, e, ip);
    }
  }

  lemma StepTimes(s: State, e: Event, s': State)
    requires Step(s, e) == Some(s')
    ensures e.Check? ==> s.clock <= e.now == s'.clock
    ensures e.Record? ==> s.clock <= e.at <= e.lockAt == s'.clock
  {
  }

  /** Within a day of a success, and with none after it, an address is refused exactly from its tenth
      failure on. */
  lemma LockedAtTen(before: seq<Event>, after: seq<Event>, req: nat, ip: string, now: int)
    requires before != [] && SuccessOf(before[|before| - 1], ip) && Run(Start(), before + after + [Check(req, ip, now)]).Some?
    requires Run(Start(), before).Some? && now < Run(Start(), before).value.clock + DAY
    requires forall i | 0 <= i < |after| :: !SuccessOf(after[i], ip)
    ensures Admits(before + after, req, ip, now) <==> FailuresOf(after, ip) < 10
  {
    hide Run, Step, Streak, FailuresOf, Admits;
    var e := Check(req, ip, now);
    RunAppend(Start(), before + after, [e]);
    RunSingle(Run(Start(), before + after).value, e);
    StepTimes(Run(Start(), before + after).value, e, Run(Start(), before + after + [e]).value);
    assert before + [] == before;
    StreakExact(before, after, ip, Run(Start(), before).value.clock);
    LockedIff(before + after, req, ip, now);
  }
}
