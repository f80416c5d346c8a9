/** The two throttled writers of a relayed connection, sharing one token bucket. */
module Throttle {
  import opened Bytes
  import opened Cipher
  import opened Transport

  /** Bytes each writer passes for free, tokens per second, and the bucket's size. */
  datatype Settings = Settings(freeLimit: nat, rate: real, burst: nat)

  /** A gigabyte for free, then 100 KiB a second with bursts of 64 KiB. */
  const DEFAULTS: Settings := Settings(1024 * 1024 * 1024, 102400.0, 64 * 1024)

  /** What `io.Copy` passes in one call. */
  const COPY_CHUNK: nat := 32 * 1024

  /** Tokens as of the moment `last`; negative when bytes have been promised ahead of time. */
  datatype Bucket = Bucket(tokens: real, last: real)

  function Full(c: Settings): Bucket {
    Bucket(c.burst as real, 0.0)
  }

  function Level(c: Settings, b: Bucket, now: real): real {
    var refilled := b.tokens + c.rate * (now - b.last);
    if refilled > c.burst as real then c.burst as real else refilled
  }

  /** The bucket after taking `n` tokens. */
  function Taken(c: Settings, b: Bucket, n: nat, now: real): Bucket {
    Bucket(Level(c, b, now) - n as real, now)
  }

  /** When the bucket will be out of debt. */
  function PaidOff(c: Settings, b: Bucket): real
    requires c.rate > 0.0
  {
    if b.tokens < 0.0 then b.last + (0.0 - b.tokens) / c.rate else b.last
  }

  // ----- the writers -----

  class Limiter {
    const c: Settings
    var bucket: Bucket

    constructor (c: Settings)
      ensures this.c == c && bucket == Full(c)
    {
      this.c := c;
      bucket := Full(c);
    }

    /** Takes the tokens and says until when to wait; more than the bucket can ever hold is an error. */
    method WaitN(n: nat, now: real) returns (until: Option<real>)
      requires c.rate > 0.0
      modifies this
      ensures n > c.burst ==> until.None? && bucket == old(bucket)
      ensures n <= c.burst ==> bucket == Taken(c, old(bucket), n, now) && until == Some(PaidOff(c, bucket))
      ensures until.Some? ==> forall at | at >= now :: Refilled(c, bucket, at) >= 0.0 <==> at >= until.value
    {
      if n > c.burst {
        return None;
      }
      bucket := Taken(c, bucket, n, now);
      forall at | at >= now ensures Refilled(c, bucket, at) >= 0.0 <==> at >= PaidOff(c, bucket) {
        DueExactly(c, bucket, at);
      }
      return Some(PaidOff(c, bucket));
    }
  }

  class LimitedWriter {
    const w: Conn
    const limiter: Limiter
    var written: nat

    constructor (w: Conn, limiter: Limiter)
      ensures this.w == w && this.limiter == limiter && written == 0
    {
      this.w, this.limiter, written := w, limiter, 0;
    }

    /** Waits, if the free part is used up, until `at`. A failed wait is only logged. The count goes up by
        the whole chunk, even if less of it gets through. */
    method Write(b: seq<byte>, now: real) returns (n: nat, err: Option<Error>, at: real)
      requires limiter.c.rate > 0.0
      modifies this, limiter, w
      ensures n <= |b| && w.sent == old(w.sent) + b[..n] && (err.None? ==> n == |b|)
      ensures written == old(written) + |b|
      ensures if Throttled(limiter.c, old(written), |b|)
              then limiter.bucket == Taken(limiter.c, old(limiter.bucket), |b|, now) && at == PaidOff(limiter.c, limiter.bucket)
              else limiter.bucket == old(limiter.bucket) && at == now
    {
      at := now;
      if written > limiter.c.freeLimit {
        var until := limiter.WaitN(|b|, now);
        if until.Some? {
          at := until.value;
        }
      }
      written := written + |b|;
      n, err := w.Write(b);
    }
  }

  /** Counts the bytes accepted downstream. */
  class MeteredWriter {
    const w: LimitedWriter
    var counter: nat

    constructor (w: LimitedWriter)
      ensures this.w == w && counter == 0
    {
      this.w, counter := w, 0;
    }

    /** Whatever chunks were written and however they fared, the counter has followed the wire. */
    method Write(b: seq<byte>, now: real) returns (n: nat, err: Option<Error>, at: real)
      requires w.limiter.c.rate > 0.0
      modifies this, w, w.limiter, w.w
      ensures counter - old(counter) == |w.w.sent| - old(|w.w.sent|) == n
      ensures n <= |b| && w.w.sent == old(w.w.sent) + b[..n] && (err.None? ==> n == |b|)
    {
      n, err, at := w.Write(b, now);
      counter := counter + n;
    }
  }

  // ----- both writers at work -----

  /** Only chunks past the free part that fit the bucket are slowed down. */
  predicate Throttled(c: Settings, written: nat, n: nat) {
    written > c.freeLimit && n <= c.burst
  }

  datatype Side = Up | Down

  /** A chunk that has its tokens and waits for its moment. */
  datatype Waiting = Waiting(n: nat, until: real)

  /** `paid` is the part of `written` that went through the bucket. */
  datatype Writer = Writer(written: nat, paid: nat, pending: Option<Waiting>)

  /** `latest` is the side that took tokens last. */
  datatype State = State(now: real, bucket: Bucket, up: Writer, down: Writer, latest: Side)

  datatype Action =
    | Tick(dt: real)
    | Write(side: Side, n: nat)
    | Resume(side: Side)

  function Start(c: Settings): State {
    var idle := Writer(0, 0, None);
    State(0.0, Full(c), idle, idle, Up)
  }

  function Other(side: Side): Side {
    if side.Up? then Down else Up
  }

  function At(s: State, side: Side): Writer {
    if side.Up? then s.up else s.down
  }

  function With(s: State, side: Side, w: Writer): State {
    if side.Up? then s.(up := w) else s.(down := w)
  }

  function Step(c: Settings, s: State, a: Action): Option<State>
    requires c.rate > 0.0
  {
    match a
    case Tick(dt) => if dt >= 0.0 then Some(s.(now := s.now + dt)) else None
    case Write(side, n) =>
      var w := At(s, side);
      if w.pending.Some? then None
      else if Throttled(c, w.written, n) then
        var bucket := Taken(c, s.bucket, n, s.now);
        Some(With(s, side, w.(pending := Some(Waiting(n, PaidOff(c, bucket))))).(bucket := bucket, latest := side))
      else Some(With(s, side, w.(written := w.written + n)))
    case Resume(side) =>
      var w := At(s, side);
      if w.pending.Some? && s.now >= w.pending.value.until then
        var n := w.pending.value.n;
        Some(With(s, side, Writer(w.written + n, w.paid + n, None)))
      else None
  }

  function Run(c: Settings, s: State, actions: seq<Action>): Option<State>
    requires c.rate > 0.0
    decreases |actions|
  {
    if actions == [] then Some(s)
    else
      var next := Step(c, s, actions[0]);
      if next.None? then None else Run(c, next.value, actions[1..])
  }

  ghost predicate ChunksWithin(actions: seq<Action>, m: nat) {
    forall i | 0 <= i < |actions| :: actions[i].Write? ==> actions[i].n <= m
  }

  /** What both writers have handed on. */
  function Passed(s: State): nat {
    s.up.written + s.down.written
  }

  // ----- invariants -----

  function Owed(w: Writer): nat {
    if w.pending.Some? then w.pending.value.n else 0
  }

  /** Tokens at a moment not before `last`, if the bucket had no bottom and no rim. */
  function Refilled(c: Settings, b: Bucket, at: real): real {
    b.tokens + c.rate * (at - b.last)
  }

  function Later(a: real, b: real): real {
    if a < b then b else a
  }

  /** Every writer's free part is at most its limit and one chunk more. */
  ghost predicate FreePart(c: Settings, w: Writer, m: nat) {
    w.written <= c.freeLimit + m + w.paid
  }

  /** Tokens are not created but by time. */
  ghost predicate Balance(c: Settings, s: State) {
    && 0.0 <= s.bucket.last <= s.now
    && s.bucket.tokens + (s.up.paid + s.down.paid + Owed(s.up) + Owed(s.down)) as real
         <= c.burst as real + c.rate * s.bucket.last
  }

  /** The debt is covered by chunks still waiting. */
  ghost predicate Covered(c: Settings, s: State) {
    Refilled(c, s.bucket, s.now) + (Owed(s.up) + Owed(s.down)) as real >= 0.0
  }

  /** When a waiting chunk may go, the debt is covered by the other chunk, if that one came after. */
  ghost predicate Queued(c: Settings, s: State, side: Side) {
    At(s, side).pending.Some? ==>
      Refilled(c, s.bucket, Later(s.now, At(s, side).pending.value.until))
        + (if s.latest == Other(side) then Owed(At(s, Other(side))) else 0) as real >= 0.0
  }

  ghost predicate Inv(c: Settings, s: State, m: nat) {
    && FreePart(c, s.up, m) && FreePart(c, s.down, m)
    && Balance(c, s) && Covered(c, s) && Queued(c, s, Up) && Queued(c, s, Down)
  }

  lemma Monotone(c: Settings, b: Bucket, x: real, y: real)
    requires c.rate > 0.0 && x <= y
    ensures Refilled(c, b, x) <= Refilled(c, b, y)
  {
    assert Refilled(c, b, y) - Refilled(c, b, x) == c.rate * (y - x);
  }

  lemma TickKeeps(c: Settings, s: State, m: nat, dt: real)
    requires c.rate > 0.0 && Inv(c, s, m) && dt >= 0.0
    ensures Inv(c, s.(now := s.now + dt), m)
  {
    var s' := s.(now := s.now + dt);
    Monotone(c, s.bucket, s.now, s'.now);
    if s.up.pending.Some? {
      Monotone(c, s.bucket, Later(s.now, s.up.pending.value.until), Later(s'.now, s.up.pending.value.until));
    }
    if s.down.pending.Some? {
      Monotone(c, s.bucket, Later(s.now, s.down.pending.value.until), Later(s'.now, s.down.pending.value.until));
    }
  }

  /** At the moment it is due, the debt is paid. */
  lemma DueMeansPaid(c: Settings, b: Bucket)
    requires c.rate > 0.0
    ensures PaidOff(c, b) >= b.last && Refilled(c, b, PaidOff(c, b)) >= 0.0
  {
    if b.tokens < 0.0 {
      var wait := (0.0 - b.tokens) / c.rate;
      assert c.rate * wait == 0.0 - b.tokens;
      assert wait >= 0.0;
      assert PaidOff(c, b) - b.last == wait;
    } else {
      assert c.rate * (b.last - b.last) == 0.0;
    }
  }

  /** From the moment a writer waits for, and not before, the bucket is out of debt. */
  lemma DueExactly(c: Settings, b: Bucket, at: real)
    requires c.rate > 0.0 && at >= b.last
    ensures Refilled(c, b, at) >= 0.0 <==> at >= PaidOff(c, b)
  {
    var due := PaidOff(c, b);
    DueMeansPaid(c, b);
    if at >= due {
      Monotone(c, b, due, at);
    } else {
      Before(c, b, at, due);
    }
  }

  lemma Earned(rate: real, wait: real, done: real)
    requires rate > 0.0 && done < wait
    ensures rate * done < rate * wait
  {
    assert rate * wait - rate * done == rate * (wait - done);
  }

  lemma RefilledBy(c: Settings, b: Bucket, at: real, done: real)
    requires done == at - b.last
    ensures Refilled(c, b, at) == b.tokens + c.rate * done
  {
  }

  lemma Before(c: Settings, b: Bucket, at: real, due: real)
    requires c.rate > 0.0 && b.last <= at < due == PaidOff(c, b)
    ensures Refilled(c, b, at) < 0.0
  {
    hide Refilled;
    var wait, done := (0.0 - b.tokens) / c.rate, at - b.last;
    Earned(c.rate, wait, done);
    assert c.rate * wait == 0.0 - b.tokens;
    assert Refilled(c, b, at) == b.tokens + c.rate * done by { RefilledBy(c, b, at, done); }
  }

  /** Taking tokens moves the reference point and takes that many, at every later moment. */
  lemma TakenRefills(c: Settings, b: Bucket, n: nat, now: real, at: real)
    requires c.rate > 0.0 && b.last <= now <= at
    ensures Refilled(c, Taken(c, b, n, now), at) + n as real >= 0.0 || Refilled(c, Taken(c, b, n, now), at) + n as real == Refilled(c, b, at)
    ensures Taken(c, b, n, now).tokens + n as real <= Refilled(c, b, now)
    ensures Taken(c, b, n, now).tokens + n as real <= c.burst as real
  {
    var t := Taken(c, b, n, now);
    assert c.rate * (at - now) >= 0.0;
    assert c.rate * (at - b.last) == c.rate * (at - now) + c.rate * (now - b.last);
  }

  lemma BalanceTaken(c: Settings, s: State, side: Side, n: nat, s': State)
    requires c.rate > 0.0 && Balance(c, s) && At(s, side).pending.None?
    requires Throttled(c, At(s, side).written, n) && Step(c, s, Write(side, n)) == Some(s')
    ensures Balance(c, s')
  {
    TakenRefills(c, s.bucket, n, s.now, s.now);
    assert c.rate * (s.now - s.bucket.last) == c.rate * s.now - c.rate * s.bucket.last;
  }

  lemma QueuedTaken(c: Settings, s: State, side: Side, n: nat, s': State)
    requires c.rate > 0.0 && Covered(c, s) && Queued(c, s, Other(side)) && s.bucket.last <= s.now
    requires At(s, side).pending.None?
    requires Throttled(c, At(s, side).written, n) && Step(c, s, Write(side, n)) == Some(s')
    ensures Covered(c, s') && Queued(c, s', side) && Queued(c, s', Other(side))
  {
    hide Taken, PaidOff, Refilled;
    TakenRefills(c, s.bucket, n, s.now, s.now);
    LastIsNow(c, s.bucket, n, s.now);
    DueMeansPaid(c, s'.bucket);
    if At(s, Other(side)).pending.Some? {
      TakenRefills(c, s.bucket, n, s.now, Later(s.now, At(s, Other(side)).pending.value.until));
    }
  }

  lemma LastIsNow(c: Settings, b: Bucket, n: nat, now: real)
    ensures Taken(c, b, n, now).last == now
  {
  }

  lemma ResumeKeeps(c: Settings, s: State, m: nat, side: Side, s': State)
    requires c.rate > 0.0 && Inv(c, s, m) && Step(c, s, Resume(side)) == Some(s')
    ensures Inv(c, s', m)
  {
    hide Refilled;
    var other := At(s, Other(side));
    assert Queued(c, s, side) && Queued(c, s, Other(side));
    if other.pending.Some? {
      RefilledLater(c, s.bucket, s.now, other.pending.value.until);
    }
    assert Covered(c, s');
    assert Queued(c, s', Other(side));
  }

  lemma RefilledLater(c: Settings, b: Bucket, now: real, until: real)
    requires c.rate > 0.0
    ensures Refilled(c, b, now) <= Refilled(c, b, Later(now, until))
  {
    Monotone(c, b, now, Later(now, until));
  }

  lemma WriteKeeps(c: Settings, s: State, m: nat, side: Side, n: nat, s': State)
    requires c.rate > 0.0 && Inv(c, s, m) && n <= m <= c.burst && Step(c, s, Write(side, n)) == Some(s')
    ensures Inv(c, s', m)
  {
    if Throttled(c, At(s, side).written, n) {
      hide Refilled, Taken, PaidOff, Covered, Queued, Balance;
      assert s.bucket.last <= s.now by { assert Balance(c, s); LastNotAfterNow(c, s); }
      BalanceTaken(c, s, side, n, s');
      assert Queued(c, s, Other(side));
      QueuedTaken(c, s, side, n, s');
    }
  }

  lemma LastNotAfterNow(c: Settings, s: State)
    requires Balance(c, s)
    ensures s.bucket.last <= s.now
  {
  }

  lemma StepKeepsInv(c: Settings, s: State, m: nat, a: Action, s': State)
    requires c.rate > 0.0 && Inv(c, s, m) && Step(c, s, a) == Some(s')
    requires m <= c.burst && (a.Write? ==> a.n <= m)
    ensures Inv(c, s', m)
  {
    hide Inv;
    match a
    case Tick(dt) => TickKeeps(c, s, m, dt);
    case Write(side, n) => WriteKeeps(c, s, m, side, n, s');
    case Resume(side) => ResumeKeeps(c, s, m, side, s');
  }

  lemma {:induction false} RunKeepsInv(c: Settings, s: State, m: nat, actions: seq<Action>)
    requires c.rate > 0.0 && Inv(c, s, m) && m <= c.burst && ChunksWithin(actions, m) && Run(c, s, actions).Some?
    ensures Inv(c, Run(c, s, actions).value, m)
    decreases |actions|
  {
    hide Inv, Step;
    if actions != [] {
      var s' := Step(c, s, actions[0]).value;
      StepKeepsInv(c, s, m, actions[0], s');
      RunKeepsInv(c, s', m, actions[1..]);
    }
  }

  /** Covered debt and balanced tokens bound what went through the bucket. */
  lemma PaidBound(c: Settings, s: State)
    requires c.rate > 0.0 && Balance(c, s) && Covered(c, s)
    ensures (s.up.paid + s.down.paid) as real <= c.burst as real + c.rate * s.now
  {
    assert c.rate * (s.now - s.bucket.last) == c.rate * s.now - c.rate * s.bucket.last;
  }

  ghost function Allowance(c: Settings, m: nat, t: real): real {
    (2 * (c.freeLimit + m) + c.burst) as real + c.rate * t
  }

  /** With chunks no larger than the bucket, both writers together have passed, at any time t of any run,
      at most the two free parts, one chunk over each, the burst and the rate times t. */
  lemma ThrottleBound(c: Settings, m: nat, actions: seq<Action>)
    requires c.rate > 0.0 && m <= c.burst && ChunksWithin(actions, m) && Run(c, Start(c), actions).Some?
    ensures var s := Run(c, Start(c), actions).value;
            Passed(s) as real <= Allowance(c, m, s.now)
  {
    hide Inv, Run, Allowance;
    StartInv(c, m);
    RunKeepsInv(c, Start(c), m, actions);
    BoundFromInv(c, Run(c, Start(c), actions).value, m);
  }

  lemma StartInv(c: Settings, m: nat)
    ensures Inv(c, Start(c), m)
  {
    assert c.rate * 0.0 == 0.0;
  }

  lemma BoundFromInv(c: Settings, s: State, m: nat)
    requires c.rate > 0.0 && Inv(c, s, m)
    ensures Passed(s) as real <= Allowance(c, m, s.now)
  {
    hide Balance, Covered, Queued;
    PaidBound(c, s);
    var flow := c.rate * s.now;
    assert Allowance(c, m, s.now) == (2 * (c.freeLimit + m) + c.burst) as real + flow;
  }

  // ----- any stretch of time -----

  /** Tokens in the bucket, what went through it and what it owes, against a starting point `k`. */
  ghost predicate BalanceFrom(c: Settings, s: State, k: real) {
    && s.bucket.last <= s.now
    && Level(c, s.bucket, s.now) + Handled(s) as real <= k + c.rate * s.now
  }

  /** Bytes that have taken tokens. */
  function Handled(s: State): nat {
    s.up.paid + s.down.paid + Owed(s.up) + Owed(s.down)
  }

  lemma LevelLater(c: Settings, b: Bucket, x: real, y: real)
    requires c.rate > 0.0 && x <= y
    ensures Level(c, b, y) <= Level(c, b, x) + c.rate * (y - x)
  {
    assert c.rate * (y - b.last) == c.rate * (y - x) + c.rate * (x - b.last);
    assert c.rate * (y - x) >= 0.0;
  }

  lemma LevelTaken(c: Settings, b: Bucket, n: nat, now: real)
    ensures Level(c, Taken(c, b, n, now), now) <= Level(c, b, now) - n as real
    ensures Level(c, b, now) <= c.burst as real
  {
    LevelAtLast(c, Taken(c, b, n, now));
  }

  /** At its own reference point a bucket holds its tokens, or less if they do not fit. */
  lemma LevelAtLast(c: Settings, b: Bucket)
    ensures Level(c, b, b.last) <= b.tokens
  {
    var gap := b.last - b.last;
    assert gap == 0.0;
    assert c.rate * gap == 0.0;
    assert Level(c, b, b.last) == if b.tokens + c.rate * gap > c.burst as real then c.burst as real else b.tokens + c.rate * gap;
  }

  lemma StepKeepsBalance(c: Settings, s: State, a: Action, s': State, k: real)
    requires c.rate > 0.0 && BalanceFrom(c, s, k) && Step(c, s, a) == Some(s')
    ensures BalanceFrom(c, s', k)
  {
    hide Level, PaidOff;
    match a
    case Tick(dt) =>
      LevelLater(c, s.bucket, s.now, s'.now);
      assert c.rate * s'.now == c.rate * s.now + c.rate * (s'.now - s.now);
    case Write(side, n) => LevelTaken(c, s.bucket, n, s.now);
    case Resume(side) =>
  }

  lemma {:induction false} RunKeepsBalance(c: Settings, s: State, actions: seq<Action>, k: real)
    requires c.rate > 0.0 && BalanceFrom(c, s, k) && Run(c, s, actions).Some?
    ensures BalanceFrom(c, Run(c, s, actions).value, k)
    decreases |actions|
  {
    hide BalanceFrom, Step;
    if actions != [] {
      var s' := Step(c, s, actions[0]).value;
      StepKeepsBalance(c, s, actions[0], s', k);
      RunKeepsBalance(c, s', actions[1..], k);
    }
  }

  /** Past the free part, with chunks that fit, all that is passed has been paid for. */
  ghost predicate AllPaid(c: Settings, w: Writer, w': Writer) {
    w'.written > c.freeLimit && w'.written - w.written == w'.paid - w.paid
  }

  lemma {:induction false} RunPays(c: Settings, s0: State, s: State, m: nat, actions: seq<Action>)
    requires c.rate > 0.0 && m <= c.burst && ChunksWithin(actions, m) && Run(c, s, actions).Some?
    requires AllPaid(c, s0.up, s.up) && AllPaid(c, s0.down, s.down)
    ensures AllPaid(c, s0.up, Run(c, s, actions).value.up) && AllPaid(c, s0.down, Run(c, s, actions).value.down)
    decreases |actions|
  {
    hide Taken, PaidOff;
    if actions != [] {
      RunPays(c, s0, Step(c, s, actions[0]).value, m, actions[1..]);
    }
  }

  lemma {:induction false} RunTogether(c: Settings, s: State, a: seq<Action>, b: seq<Action>)
    requires c.rate > 0.0 && Run(c, s, a).Some?
    ensures Run(c, s, a + b) == Run(c, Run(c, s, a).value, b)
    decreases |a|
  {
    hide Step;
    if a == [] {
      assert a + b == b;
    } else {
      assert (a + b)[1..] == a[1..] + b;
      RunTogether(c, Step(c, s, a[0]).value, a[1..], b);
    }
  }

  /** Once both writers are past their free part, any stretch of any run passes at most the burst, the chunks
      that were waiting when it began, and the rate times its length. */
  lemma WindowBound(c: Settings, m: nat, before: seq<Action>, window: seq<Action>)
    requires c.rate > 0.0 && m <= c.burst && ChunksWithin(before, m) && ChunksWithin(window, m)
    requires Run(c, Start(c), before).Some? && Run(c, Run(c, Start(c), before).value, window).Some?
    requires var s := Run(c, Start(c), before).value; s.up.written > c.freeLimit && s.down.written > c.freeLimit
    ensures var s := Run(c, Start(c), before).value;
            var s' := Run(c, s, window).value;
            (Passed(s') - Passed(s)) as real <= (c.burst + Owed(s.up) + Owed(s.down)) as real + c.rate * (s'.now - s.now)
  {
    hide Run, Inv, BalanceFrom, Level;
    var s := Run(c, Start(c), before).value;
    var s' := Run(c, s, window).value;
    StartInv(c, m);
    RunKeepsInv(c, Start(c), m, before);
    RunTogether(c, Start(c), before, window);
    assert ChunksWithin(before + window, m) by { ChunksTogether(before, window, m); }
    RunKeepsInv(c, Start(c), m, before + window);
    var k := Level(c, s.bucket, s.now) + Handled(s) as real - c.rate * s.now;
    assert BalanceFrom(c, s, k) by { LastOfInv(c, s, m); BalanceHere(c, s, k); }
    RunKeepsBalance(c, s, window, k);
    RunPays(c, s, s, m, window);
    LevelTaken(c, s.bucket, 0, s.now);
    WindowArithmetic(c, s, s', m, k);
  }

  lemma ChunksTogether(a: seq<Action>, b: seq<Action>, m: nat)
    requires ChunksWithin(a, m) && ChunksWithin(b, m)
    ensures ChunksWithin(a + b, m)
  {
  }

  lemma LastOfInv(c: Settings, s: State, m: nat)
    requires Inv(c, s, m)
    ensures s.bucket.last <= s.now
  {
  }

  lemma BalanceHere(c: Settings, s: State, k: real)
    requires s.bucket.last <= s.now && k == Level(c, s.bucket, s.now) + Handled(s) as real - c.rate * s.now
    ensures BalanceFrom(c, s, k)
  {
  }

  /** The debt at the end is covered by the chunks that wait then. */
  lemma EndCovered(c: Settings, s: State, m: nat)
    requires Inv(c, s, m)
    ensures Level(c, s.bucket, s.now) + (Owed(s.up) + Owed(s.down)) as real >= 0.0
  {
    assert Covered(c, s);
  }

  lemma WindowArithmetic(c: Settings, s: State, s': State, m: nat, k: real)
    requires c.rate > 0.0 && Inv(c, s', m) && BalanceFrom(c, s', k)
    requires k == Level(c, s.bucket, s.now) + Handled(s) as real - c.rate * s.now
    requires Level(c, s.bucket, s.now) <= c.burst as real
    requires AllPaid(c, s.up, s'.up) && AllPaid(c, s.down, s'.down)
    ensures (Passed(s') - Passed(s)) as real <= (c.burst + Owed(s.up) + Owed(s.down)) as real + c.rate * (s'.now - s.now)
  {
    hide Inv, Level;
    EndCovered(c, s', m);
    var x, y := c.rate * s.now, c.rate * s'.now;
    assert c.rate * (s'.now - s.now) == y - x;
  }

  // ----- the free part -----

  /** Chunks go out at once, at no cost, while the writer's free part is not used up. */
  lemma {:induction false} FreePartAtOnce(c: Settings, s: State, side: Side, n: nat, k: nat)
    requires c.rate > 0.0 && At(s, side).pending.None? && (k > 0 ==> At(s, side).written + (k - 1) * n <= c.freeLimit)
    ensures Run(c, s, Chunks(side, n, k)) == Some(With(s, side, At(s, side).(written := At(s, side).written + k * n)))
    decreases k
  {
    if k == 0 {
      assert Chunks(side, n, 0) == [];
    } else {
      assert (k - 1) * n >= 0;
      var s' := With(s, side, At(s, side).(written := At(s, side).written + n));
      assert Chunks(side, n, k)[1..] == Chunks(side, n, k - 1);
      assert n + (k - 1) * n == k * n;
      assert k > 1 ==> n + (k - 2) * n == (k - 1) * n;
      FreePartAtOnce(c, s', side, n, k - 1);
    }
  }

  function Chunks(side: Side, n: nat, k: nat): (actions: seq<Action>)
    ensures |actions| == k
  {
    seq(k, i => Write(side, n))
  }

  // ----- chunks the bucket cannot hold -----

  function Burst(n: nat, k: nat): (actions: seq<Action>)
    ensures |actions| == k && forall i | 0 <= i < k :: actions[i] == Write(Up, n)
  {
    seq(k, i => Write(Up, n))
  }

  /** The limiter refuses such a chunk, the refusal is logged, and the chunk goes out at once. */
  lemma {:induction false} OversizedUnthrottled(c: Settings, s: State, n: nat, k: nat)
    requires c.rate > 0.0 && n > c.burst && s.up.pending.None?
    ensures Run(c, s, Burst(n, k)) == Some(s.(up := s.up.(written := s.up.written + k * n)))
    decreases k
  {
    if k > 0 {
      var s' := s.(up := s.up.(written := s.up.written + n));
      assert Burst(n, k)[1..] == Burst(n, k - 1);
      OversizedUnthrottled(c, s', n, k - 1);
      assert n + (k - 1) * n == k * n;
    } else {
      assert Burst(n, k) == [];
    }
  }

  /** So the bound holds in every run with chunks up to m exactly when such chunks fit the bucket. */
  lemma BoundIffChunksFit(c: Settings, m: nat)
    requires c.rate > 0.0
    ensures m <= c.burst <==>
              forall actions | ChunksWithin(actions, m) && Run(c, Start(c), actions).Some? ::
                Passed(Run(c, Start(c), actions).value) as real
                  <= Allowance(c, m, Run(c, Start(c), actions).value.now)
  {
    hide Run, Allowance;
    if m <= c.burst {
      forall actions | ChunksWithin(actions, m) && Run(c, Start(c), actions).Some?
        ensures Passed(Run(c, Start(c), actions).value) as real
                  <= Allowance(c, m, Run(c, Start(c), actions).value.now)
      {
        ThrottleBound(c, m, actions);
      }
    } else {
      TooMuchAtOnce(c, m);
    }
  }

  lemma TooMuchAtOnce(c: Settings, m: nat)
    requires c.rate > 0.0 && m > c.burst
    ensures exists actions ::
              && ChunksWithin(actions, m) && Run(c, Start(c), actions).Some?
              && Passed(Run(c, Start(c), actions).value) as real
                   > Allowance(c, m, Run(c, Start(c), actions).value.now)
  {
    hide Run, Allowance, Burst;
    var k := 2 * (c.freeLimit + m) + c.burst + 1;
    OversizedUnthrottled(c, Start(c), m, k);
    AtLeast(k, m);
    AllowanceAtOnce(c, m);
    assert ChunksWithin(Burst(m, k), m);
    assert Passed(Run(c, Start(c), Burst(m, k)).value) == k * m;
  }

  lemma AtLeast(k: nat, m: nat)
    requires m > 0
    ensures k * m >= k
  {
  }

  lemma AllowanceAtOnce(c: Settings, m: nat)
    ensures Allowance(c, m, 0.0) == (2 * (c.freeLimit + m) + c.burst) as real
  {
    assert c.rate * 0.0 == 0.0;
  }

  /** The settings in force, with the chunks the relay copies. */
  lemma DefaultsAreSafe(actions: seq<Action>)
    requires ChunksWithin(actions, COPY_CHUNK) && Run(DEFAULTS, Start(DEFAULTS), actions).Some?
    ensures var s := Run(DEFAULTS, Start(DEFAULTS), actions).value;
            Passed(s) as real <= (2 * (1024 * 1024 * 1024 + 32 * 1024) + 64 * 1024) as real + 102400.0 * s.now
  {
    ThrottleBound(DEFAULTS, COPY_CHUNK, actions);
  }
}
