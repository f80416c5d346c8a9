/** Whole runs of the predictive echo: any keys, screens, prompts and resizes; then a server that echoes. */
module EchoRuns {
  import opened Bytes
  import opened PredictiveEcho

  datatype State = State(o: Overlay, cols: nat)

  datatype Event =
    | Keys(s: Screen, live: bool, data: string, now: real)
    | Callback(s: Screen, now: real)
    | Prompt
    | Resize(cols: nat)
    | Scroll

  function Next(st: State, e: Event): State {
    match e
    case Keys(s, live, data, now) => st.(o := OnData(st.o, s, st.cols, live, data, now))
    case Callback(s, now) => st.(o := Reconcile(st.o, s, st.cols, now))
    case Prompt => st.(o := st.o.(mask := true))
    case Resize(cols) => State(Cleared(st.o), cols)
    case Scroll => st.(o := Cleared(st.o))
  }

  function Run(st: State, events: seq<Event>): State
    decreases |events|
  {
    if events == [] then st else Run(Next(st, events[0]), events[1..])
  }

  ghost predicate Fresh(o: Overlay) {
    o.preds == [] && o.drawn == [] && o.delays == [] && o.srtt == 0.0
  }

  // ----- guesses stay in typed order, side by side -----

  ghost predicate InLine(o: Overlay, cols: nat) {
    && (forall i | 0 <= i < |o.preds| :: OneGuess(o, cols, i))
    && (forall i, j | 0 <= i < j < |o.preds| :: o.preds[i].pos < o.preds[j].pos)
  }

  /** A guess is in the row of the predicted cursor, as far left of it as there are guesses from it on,
      before the last column, and shows the character drawn or a star. */
  ghost predicate OneGuess(o: Overlay, cols: nat, i: nat)
    requires i < |o.preds|
  {
    var p := o.preds[i];
    && p.row == o.row && p.col + (|o.preds| - i) == o.col && p.col + 1 < cols
    && p.pos < |o.drawn| && o.drawn[p.pos] == p.ch && p.shown in {p.ch, '*'}
  }

  lemma PlaceKeepsInLine(o: Overlay, cols: nat, ch: char, now: real)
    requires InLine(o, cols)
    ensures InLine(Place(o, cols, ch, now).0, cols)
  {
    var o' := Place(o, cols, ch, now).0;
    forall i | 0 <= i < |o'.preds| ensures OneGuess(o', cols, i) {
      assert i < |o.preds| ==> OneGuess(o, cols, i) && o'.preds[i] == o.preds[i];
    }
    forall i, j | 0 <= i < j < |o'.preds| ensures o'.preds[i].pos < o'.preds[j].pos {
      assert OneGuess(o, cols, i) && o'.preds[i] == o.preds[i];
    }
  }

  function Erased(o: Overlay): Overlay
    requires o.preds != []
  {
    var p := o.preds[|o.preds| - 1];
    o.(preds := o.preds[..|o.preds| - 1], col := p.col, row := p.row)
  }

  lemma EraseKeepsInLine(o: Overlay, cols: nat)
    requires InLine(o, cols) && o.preds != []
    ensures InLine(Erased(o), cols)
  {
    assert OneGuess(o, cols, |o.preds| - 1);
    forall i | 0 <= i < |o.preds| - 1 ensures OneGuess(Erased(o), cols, i) {
      assert OneGuess(o, cols, i);
    }
  }

  lemma {:induction false} TypedKeepsInLine(o: Overlay, cols: nat, data: string, now: real)
    requires InLine(o, cols)
    ensures InLine(Typed(o, cols, data, now), cols)
    decreases |data|
  {
    hide InLine, Place;
    if data != "" {
      if Printable(data[0]) {
        PlaceKeepsInLine(o, cols, data[0], now);
        TypedKeepsInLine(Place(o, cols, data[0], now).0, cols, data[1..], now);
      } else if Erases(data[0]) && o.preds != [] {
        EraseKeepsInLine(o, cols);
        TypedKeepsInLine(Erased(o), cols, data[1..], now);
      } else {
        ClearedInLine(o, cols);
      }
    }
  }

  lemma ClearedInLine(o: Overlay, cols: nat)
    ensures InLine(Cleared(o), cols)
  {
  }

  lemma ConfirmKeepsInLine(o: Overlay, cols: nat, now: real)
    requires InLine(o, cols) && o.preds != []
    ensures InLine(Confirm(o, now), cols)
  {
    var o' := Confirm(o, now);
    forall i | 0 <= i < |o'.preds| ensures OneGuess(o', cols, i) {
      assert OneGuess(o, cols, i + 1);
    }
  }

  // ----- the latency estimate -----

  /** The estimate lies between two confirmed delays. */
  ghost predicate Between(x: real, ds: seq<real>) {
    if ds == [] then x == 0.0
    else (exists i | 0 <= i < |ds| :: ds[i] <= x) && (exists i | 0 <= i < |ds| :: x <= ds[i])
  }

  lemma SmoothedBetween(x: real, ds: seq<real>, d: real)
    requires Between(x, ds)
    ensures Between(Smoothed(x, d), ds + [d])
  {
    var all, y := ds + [d], Smoothed(x, d);
    assert all[|ds|] == d;
    if ds != [] {
      var i :| 0 <= i < |ds| && ds[i] <= x;
      var j :| 0 <= j < |ds| && x <= ds[j];
      assert all[i] == ds[i] && all[j] == ds[j];
      assert all[i] <= y || all[|ds|] <= y;
      assert y <= all[j] || y <= all[|ds|];
    }
  }

  // ----- every run -----

  ghost predicate Inv(o: Overlay, cols: nat) {
    InLine(o, cols) && Between(o.srtt, o.delays)
  }

  lemma {:induction false} SettledKeepsInv(o: Overlay, s: Screen, cols: nat, now: real)
    requires Inv(o, cols)
    ensures Inv(Settled(o, s, cols, now), cols)
    decreases |o.preds|
  {
    hide InLine, Between, CellText, RetractMs, Smoothed;
    ClearedInLine(o, cols);
    ClearedInLine(o.(mask := true), cols);
    if o.preds != [] && CellText(s, cols, o.preds[0].row, o.preds[0].col) == Some([o.preds[0].ch]) {
      ConfirmKeepsInLine(o, cols, now);
      SmoothedBetween(o.srtt, o.delays, now - o.preds[0].ts);
      SettledKeepsInv(Confirm(o, now), s, cols, now);
    }
  }

  lemma {:induction false} TypedKeepsEstimate(o: Overlay, cols: nat, data: string, now: real)
    ensures Typed(o, cols, data, now).srtt == o.srtt && Typed(o, cols, data, now).delays == o.delays
    decreases |data|
  {
    if data != "" {
      if Printable(data[0]) {
        TypedKeepsEstimate(Place(o, cols, data[0], now).0, cols, data[1..], now);
      } else if Erases(data[0]) && o.preds != [] {
        TypedKeepsEstimate(Erased(o), cols, data[1..], now);
      }
    }
  }

  lemma MaskIrrelevant(o: Overlay, cols: nat, mask: bool)
    requires InLine(o, cols)
    ensures InLine(o.(mask := mask), cols)
  {
    forall i | 0 <= i < |o.preds| ensures OneGuess(o.(mask := mask), cols, i) {
      assert OneGuess(o, cols, i);
    }
  }

  lemma CursorIrrelevant(o: Overlay, cols: nat, row: nat, col: nat)
    requires o.preds == []
    ensures InLine(o.(row := row, col := col), cols)
  {
  }

  lemma NextKeepsInv(st: State, e: Event)
    requires Inv(st.o, st.cols)
    ensures Inv(Next(st, e).o, Next(st, e).cols)
  {
    hide InLine, Between, Settled, Typed;
    ClearedInLine(st.o, Next(st, e).cols);
    match e
    case Keys(s, live, data, now) =>
      var o := if st.o.preds == [] then st.o.(row := s.cursorRow, col := s.cursorCol) else st.o;
      if st.o.preds == [] {
        CursorIrrelevant(st.o, st.cols, s.cursorRow, s.cursorCol);
      }
      TypedKeepsInLine(o, st.cols, data, now);
      TypedKeepsEstimate(o, st.cols, data, now);
    case Callback(s, now) => SettledKeepsInv(st.o, s, st.cols, now);
    case Prompt => MaskIrrelevant(st.o, st.cols, true);
    case Resize(_) =>
    case Scroll =>
  }

  lemma {:induction false} RunKeepsInv(st: State, events: seq<Event>)
    requires Inv(st.o, st.cols)
    ensures Inv(Run(st, events).o, Run(st, events).cols)
    decreases |events|
  {
    hide Inv, Next;
    if events != [] {
      NextKeepsInv(st, events[0]);
      RunKeepsInv(Next(st, events[0]), events[1..]);
    }
  }

  /** In every run the guesses are in the order they were typed, on consecutive cells of one row before
      the last column, and the latency estimate lies between the least and the greatest confirmed delay. */
  lemma GuessesStayInLine(st: State, events: seq<Event>)
    requires Fresh(st.o)
    ensures var r := Run(st, events);
            && (forall i | 0 <= i < |r.o.preds| ::
                  && r.o.preds[i].row == r.o.preds[0].row
                  && r.o.preds[i].col == r.o.preds[0].col + i < r.cols - 1
                  && r.o.preds[i].pos < |r.o.drawn| && r.o.drawn[r.o.preds[i].pos] == r.o.preds[i].ch)
            && (forall i, j | 0 <= i < j < |r.o.preds| :: r.o.preds[i].pos < r.o.preds[j].pos)
            && Between(r.o.srtt, r.o.delays)
  {
    hide Run, Between;
    assert Between(st.o.srtt, st.o.delays) by { NoDelays(st.o); }
    RunKeepsInv(st, events);
    var r := Run(st, events);
    forall i | 0 <= i < |r.o.preds|
      ensures r.o.preds[i].row == r.o.preds[0].row
      ensures r.o.preds[i].col == r.o.preds[0].col + i < r.cols - 1
      ensures r.o.preds[i].pos < |r.o.drawn| && r.o.drawn[r.o.preds[i].pos] == r.o.preds[i].ch
    {
      assert OneGuess(r.o, r.cols, i) && OneGuess(r.o, r.cols, 0);
    }
  }

  lemma NoDelays(o: Overlay)
    requires Fresh(o)
    ensures Between(o.srtt, o.delays)
  {
  }

  // ----- secrets -----

  ghost predicate Masked(o: Overlay) {
    o.mask && forall i | 0 <= i < |o.preds| :: o.preds[i].shown == '*'
  }

  /** No guess is ever found on the screen: the server does not echo. */
  ghost predicate Unechoed(st: State, events: seq<Event>)
    decreases |events|
  {
    events != [] ==>
      && (events[0].Callback? ==> Matching(st.o.preds, events[0].s, st.cols) == 0)
      && Unechoed(Next(st, events[0]), events[1..])
  }

  lemma {:induction false} TypedKeepsMasked(o: Overlay, cols: nat, data: string, now: real)
    requires Masked(o)
    ensures Masked(Typed(o, cols, data, now))
    decreases |data|
  {
    if data != "" {
      if Printable(data[0]) {
        TypedKeepsMasked(Place(o, cols, data[0], now).0, cols, data[1..], now);
      } else if Erases(data[0]) && o.preds != [] {
        TypedKeepsMasked(Erased(o), cols, data[1..], now);
      }
    }
  }

  lemma NextKeepsMasked(st: State, e: Event)
    requires Masked(st.o) && (e.Callback? ==> Matching(st.o.preds, e.s, st.cols) == 0)
    ensures Masked(Next(st, e).o)
  {
    hide Typed;
    if e.Keys? {
      TypedKeepsMasked(st.o.(row := e.s.cursorRow, col := e.s.cursorCol), st.cols, e.data, e.now);
      TypedKeepsMasked(st.o, st.cols, e.data, e.now);
    }
  }

  /** Once masking is armed with nothing drawn, no typed character is painted until the server echoes one. */
  lemma {:induction false} SecretsStayMasked(st: State, events: seq<Event>)
    requires Masked(st.o) && Unechoed(st, events)
    ensures Masked(Run(st, events).o)
    decreases |events|
  {
    hide Masked, Next, Matching;
    if events != [] {
      NextKeepsMasked(st, events[0]);
      SecretsStayMasked(Next(st, events[0]), events[1..]);
    }
  }

  /** A guess the server leaves blank for more than a second is withdrawn by the next output, and masking
      is armed. */
  lemma RetractedAfterASecond(o: Overlay, s: Screen, cols: nat, now: real)
    requires s.normal && o.preds != [] && !o.mask && now - o.preds[0].ts > 1000.0
    requires CellText(s, cols, o.preds[0].row, o.preds[0].col) == Some("")
    ensures Reconcile(o, s, cols, now).preds == [] && Masked(Reconcile(o, s, cols, now))
  {
    hide CellText, RetractMs;
    ReconcileMeaning(o, s, cols, now);
  }

  // ----- what keys do -----

  /** One guess for each character, side by side from the predicted cursor on, drawn as itself or as a star. */
  function Guesses(o: Overlay, data: string, now: real): (r: seq<Pred>)
    ensures |r| == |data|
  {
    seq(|data|, i requires 0 <= i < |data| =>
      Pred(data[i], o.row, o.col + i, now, if o.mask then '*' else data[i], |o.drawn| + i))
  }

  /** What printable keys short of the margin do, in a live session on the normal screen. */
  lemma {:induction false} TypedPlain(o: Overlay, cols: nat, data: string, now: real)
    requires AllPrintable(data) && o.col + |data| < cols
    ensures Typed(o, cols, data, now) ==
            o.(preds := o.preds + Guesses(o, data, now), col := o.col + |data|, drawn := o.drawn + data)
    decreases |data|
  {
    if data == "" {
      assert o.drawn + data == o.drawn && o.preds + Guesses(o, data, now) == o.preds;
    } else {
      var o1 := Place(o, cols, data[0], now).0;
      TypedPlain(o1, cols, data[1..], now);
      assert o1.drawn + data[1..] == o.drawn + data;
      assert Guesses(o, data, now) == [o1.preds[|o.preds|]] + Guesses(o1, data[1..], now);
      assert o1.preds + Guesses(o1, data[1..], now) == o.preds + Guesses(o, data, now);
    }
  }

  /** Backspace takes the last guess back. */
  lemma BackspaceUndoes(o: Overlay, cols: nat, ch: char, erase: char, now: real)
    requires Printable(ch) && Erases(erase) && o.col + 1 < cols
    ensures var r := Typed(o, cols, [ch] + [erase], now);
            r.preds == o.preds && r.row == o.row && r.col == o.col && r.mask == o.mask
  {
    var o1 := Place(o, cols, ch, now).0;
    assert ([ch] + [erase])[1..] == [erase] && [erase][1..] == "";
    assert o1.preds[..|o.preds|] == o.preds;
    assert Typed(o, cols, [ch] + [erase], now) == Typed(o1, cols, [erase], now);
    assert Typed(o1, cols, [erase], now) == Typed(Erased(o1), cols, "", now);
  }

  /** Any other key hands over to the server: whatever else was typed with it, no guess is left. */
  lemma {:induction false} ControlKeyClears(o: Overlay, cols: nat, data: string, now: real, i: nat)
    requires i < |data| && !Printable(data[i]) && !Erases(data[i])
    ensures Typed(o, cols, data, now).preds == []
    decreases |data|
  {
    hide Place;
    if Printable(data[0]) {
      PlaceOrClear(o, cols, data[0], now);
      ControlKeyClears(Place(o, cols, data[0], now).0, cols, data[1..], now, i - 1);
    } else if Erases(data[0]) && o.preds != [] {
      ControlKeyClears(Erased(o), cols, data[1..], now, i - 1);
    }
  }

  lemma PlaceOrClear(o: Overlay, cols: nat, ch: char, now: real)
    ensures var (r, ok) := Place(o, cols, ch, now); !ok ==> r.preds == [] && o.col + 1 >= cols
  {
  }

  /** Outside a live session, or in a full-screen application, there are no guesses. */
  lemma OnlyWhereEchoed(o: Overlay, s: Screen, cols: nat, live: bool, data: string, now: real)
    ensures !live || !s.normal ==> OnData(o, s, cols, live, data, now).preds == []
    ensures !s.normal ==> Reconcile(o, s, cols, now).preds == []
  {
  }

  /** A new delay counts one eighth; the first one, or the first after none, counts in full. A guess may wait
      three times the estimate, 400 milliseconds without one, and never under 150 or over 1000. */
  lemma Timing(srtt: real, dt: real)
    ensures srtt != 0.0 ==> 8.0 * Smoothed(srtt, dt) == 7.0 * srtt + dt
    ensures Smoothed(0.0, dt) == dt && RetractMs(0.0) == 400.0
    ensures srtt != 0.0 && 150.0 <= 3.0 * srtt <= 1000.0 ==> RetractMs(srtt) == 3.0 * srtt
    ensures srtt != 0.0 && 3.0 * srtt < 150.0 ==> RetractMs(srtt) == 150.0
    ensures 3.0 * srtt > 1000.0 ==> RetractMs(srtt) == 1000.0
  {
  }

  // ----- a server that echoes what is typed, in order and in time -----

  /** The line being typed starts at column `start` of row `row`; `text[i]` was typed at `times[i]`; the
      first `echoed` characters are on the screen. */
  datatype Line = Line(row: nat, start: nat, text: string, times: seq<real>, echoed: nat)

  datatype Session = Session(o: Overlay, line: Line, now: real)

  datatype Move =
    | Pass(dt: real)
    | Type(s: Screen, data: string)
    | Echo(n: nat)
    | Settle(s: Screen)
    | Arm

  /** The screen shows the echoed part of the line, with the cursor after it and blanks from there on. */
  ghost predicate Shows(s: Screen, cols: nat, l: Line) {
    && s.normal && s.cursorRow == l.row && s.cursorCol == l.start + l.echoed && l.echoed <= |l.text|
    && (forall i | 0 <= i < l.echoed :: CellText(s, cols, l.row, l.start + i) == Some([l.text[i]]))
    && (forall c | l.start + l.echoed <= c < cols :: CellText(s, cols, l.row, c) == Some(""))
  }

  ghost predicate AllPrintable(data: string) {
    forall i | 0 <= i < |data| :: Printable(data[i])
  }

  /** What has not been echoed was typed in the last 150 milliseconds. */
  ghost predicate InTime(l: Line, now: real) {
    |l.times| == |l.text| && forall i | l.echoed <= i < |l.text| :: now - l.times[i] <= 150.0
  }

  /** Printable keys short of the margin; echoes in order; every output of the server comes in time. */
  ghost function Advance(x: Session, cols: nat, m: Move): Option<Session> {
    match m
    case Pass(dt) => if dt >= 0.0 then Some(x.(now := x.now + dt)) else None
    case Type(s, data) =>
      if Shows(s, cols, x.line) && AllPrintable(data) && x.line.start + |x.line.text| + |data| < cols then
        Some(x.(
          o := OnData(x.o, s, cols, true, data, x.now),
          line := x.line.(text := x.line.text + data, times := x.line.times + seq(|data|, _ => x.now))))
      else None
    case Echo(n) =>
      if x.line.echoed + n <= |x.line.text| then Some(x.(line := x.line.(echoed := x.line.echoed + n))) else None
    case Settle(s) =>
      if Shows(s, cols, x.line) && InTime(x.line, x.now)
      then Some(x.(o := Reconcile(x.o, s, cols, x.now))) else None
    case Arm => Some(x.(o := x.o.(mask := true)))
  }

  ghost function Play(x: Session, cols: nat, moves: seq<Move>): Option<Session>
    decreases |moves|
  {
    if moves == [] then Some(x)
    else
      var y := Advance(x, cols, moves[0]);
      if y.None? then None else Play(y.value, cols, moves[1..])
  }

  function Chars(preds: seq<Pred>): (s: string)
    ensures |s| == |preds| && forall i | 0 <= i < |s| :: s[i] == preds[i].ch
  {
    seq(|preds|, i requires 0 <= i < |preds| => preds[i].ch)
  }

  /** The j-th guess is the character typed j after the k-th. */
  ghost predicate GuessOf(o: Overlay, l: Line, k: nat, j: nat)
    requires j < |o.preds| && k + j < |l.text| == |l.times|
  {
    var p := o.preds[j];
    p.ch == l.text[k + j] && p.row == l.row && p.col == l.start + k + j && p.ts == l.times[k + j]
  }

  /** The guesses are the typed characters from the k-th on, where k have been confirmed, all of them echoed. */
  ghost predicate Tracks(o: Overlay, l: Line, k: nat) {
    && |l.times| == |l.text| && k <= l.echoed <= |l.text|
    && |o.delays| == k && |o.preds| == |l.text| - k
    && (o.preds != [] ==> o.row == l.row && o.col == l.start + |l.text|)
    && forall j | 0 <= j < |o.preds| :: GuessOf(o, l, k, j)
  }

  /** One more key. */
  lemma PlaceTracks(o: Overlay, l: Line, k: nat, cols: nat, ch: char, now: real)
    requires Tracks(o, l, k) && o.row == l.row && o.col == l.start + |l.text| && o.col + 1 < cols
    ensures var (o', ok) := Place(o, cols, ch, now);
            ok && o'.row == o.row && o'.col == o.col + 1
            && Tracks(o', l.(text := l.text + [ch], times := l.times + [now]), k)
  {
    var o' := Place(o, cols, ch, now).0;
    var l' := l.(text := l.text + [ch], times := l.times + [now]);
    forall j | 0 <= j < |o'.preds| ensures GuessOf(o', l', k, j) {
      assert j < |o.preds| ==> GuessOf(o, l, k, j);
    }
  }

  function Longer(l: Line, data: string, now: real): Line {
    l.(text := l.text + data, times := l.times + seq(|data|, _ => now))
  }

  lemma LongerByOne(l: Line, data: string, now: real)
    requires data != ""
    ensures Longer(l.(text := l.text + [data[0]], times := l.times + [now]), data[1..], now) == Longer(l, data, now)
  {
    assert [data[0]] + data[1..] == data;
    assert l.text + data == l.text + [data[0]] + data[1..];
    var t: seq<real> := seq(|data|, _ => now);
    var t': seq<real> := seq(|data| - 1, _ => now);
    assert t == [now] + t';
    assert l.times + t == l.times + [now] + t';
  }

  lemma {:induction false} TypedTracks(o: Overlay, l: Line, k: nat, cols: nat, data: string, now: real)
    requires Tracks(o, l, k) && o.row == l.row && o.col == l.start + |l.text|
    requires AllPrintable(data) && o.col + |data| < cols
    ensures Tracks(Typed(o, cols, data, now), Longer(l, data, now), k)
    decreases |data|
  {
    hide Tracks, Place, Longer;
    if data == "" {
      LongerByNone(l, now);
    } else {
      PlaceTracks(o, l, k, cols, data[0], now);
      LongerByOne(l, data, now);
      TypedTracks(Place(o, cols, data[0], now).0, l.(text := l.text + [data[0]], times := l.times + [now]), k, cols, data[1..], now);
    }
  }

  lemma LongerByNone(l: Line, now: real)
    ensures Longer(l, "", now) == l
  {
    var none: seq<real> := seq(0, _ => now);
    assert none == [] && l.text + "" == l.text && l.times + none == l.times;
  }

  lemma TypeTracks(x: Session, k: nat, cols: nat, s: Screen, data: string)
    requires Tracks(x.o, x.line, k) && Shows(s, cols, x.line) && AllPrintable(data)
    requires x.line.start + |x.line.text| + |data| < cols
    ensures Tracks(OnData(x.o, s, cols, true, data, x.now), Longer(x.line, data, x.now), k)
  {
    hide Typed, Longer;
    var o := if x.o.preds == [] then x.o.(row := s.cursorRow, col := s.cursorCol) else x.o;
    TypedTracks(o, x.line, k, cols, data, x.now);
  }

  /** The screen confirms the guesses that have been echoed, and the next one is in time. */
  lemma {:induction false} SettleTracks(o: Overlay, l: Line, k: nat, cols: nat, s: Screen, now: real)
    requires Tracks(o, l, k) && Shows(s, cols, l) && InTime(l, now) && l.start + |l.text| < cols
    ensures Tracks(Settled(o, s, cols, now), l, l.echoed)
    decreases |o.preds|
  {
    hide CellText, RetractMs, Smoothed;
    if o.preds != [] {
      assert GuessOf(o, l, k, 0);
      if k < l.echoed {
        ConfirmTracks(o, l, k, now);
        SettleTracks(Confirm(o, now), l, k + 1, cols, s, now);
      } else {
        assert CellText(s, cols, l.row, l.start + k) == Some("");
        AtLeast150(o.srtt);
      }
    }
  }

  lemma AtLeast150(srtt: real)
    ensures RetractMs(srtt) >= 150.0
  {
  }

  lemma ConfirmTracks(o: Overlay, l: Line, k: nat, now: real)
    requires Tracks(o, l, k) && o.preds != [] && k < l.echoed
    ensures Tracks(Confirm(o, now), l, k + 1)
  {
    var o', k' := Confirm(o, now), k + 1;
    forall j | 0 <= j < |o'.preds| ensures GuessOf(o', l, k', j) {
      assert GuessOf(o, l, k, j + 1);
    }
  }

  lemma AdvanceTracks(x: Session, cols: nat, m: Move, y: Session)
    requires Tracks(x.o, x.line, |x.o.delays|) && x.line.start + |x.line.text| < cols && Advance(x, cols, m) == Some(y)
    ensures Tracks(y.o, y.line, |y.o.delays|) && y.line.start + |y.line.text| < cols
    ensures m.Settle? ==> |y.o.delays| == y.line.echoed
  {
    hide Typed, Settled, Shows, InTime, AllPrintable;
    match m
    case Type(s, data) =>
      assert y.line == Longer(x.line, data, x.now);
      TypeTracks(x, |x.o.delays|, cols, s, data);
    case Settle(s) =>
      assert s.normal by { NormalScreen(s, cols, x.line); }
      SettleTracks(x.o, x.line, |x.o.delays|, cols, s, x.now);
    case _ => SameGuesses(x.o, x.line, |x.o.delays|, y.o, y.line);
  }

  lemma SameGuesses(o: Overlay, l: Line, k: nat, o': Overlay, l': Line)
    requires Tracks(o, l, k) && o' == o.(mask := o'.mask) && l' == l.(echoed := l'.echoed)
    requires l.echoed <= l'.echoed <= |l.text|
    ensures Tracks(o', l', k)
  {
    forall j | 0 <= j < |o'.preds| ensures GuessOf(o', l', k, j) {
      assert GuessOf(o, l, k, j);
    }
  }

  lemma NormalScreen(s: Screen, cols: nat, l: Line)
    requires Shows(s, cols, l)
    ensures s.normal
  {
  }

  lemma {:induction false} PlayTracks(x: Session, cols: nat, moves: seq<Move>)
    requires Tracks(x.o, x.line, |x.o.delays|) && x.line.start + |x.line.text| < cols && Play(x, cols, moves).Some?
    ensures var y := Play(x, cols, moves).value;
            Tracks(y.o, y.line, |y.o.delays|) && y.line.start + |y.line.text| < cols
    decreases |moves|
  {
    hide Tracks, Advance;
    if moves != [] {
      var y := Advance(x, cols, moves[0]).value;
      AdvanceTracks(x, cols, moves[0], y);
      PlayTracks(y, cols, moves[1..]);
    }
  }

  /** With a server that echoes every key in order within 150 milliseconds, no guess is ever withdrawn:
      each typed character has been confirmed or is still drawn, and what is on the screen followed by
      the guesses not yet on it is everything typed. Right after output, the guesses are exactly the rest. */
  lemma EchoedRun(x: Session, cols: nat, moves: seq<Move>)
    requires x.o.preds == [] && x.o.delays == [] && x.line.text == "" && x.line.times == [] && x.line.echoed == 0
    requires x.line.start < cols && Play(x, cols, moves).Some?
    ensures var y := Play(x, cols, moves).value;
            var k := |y.o.delays|;
            && k + |y.o.preds| == |y.line.text|
            && k <= y.line.echoed <= |y.line.text|
            && y.line.text[..y.line.echoed] + Chars(y.o.preds[y.line.echoed - k..]) == y.line.text
            && (moves != [] && moves[|moves| - 1].Settle? ==> k == y.line.echoed)
  {
    hide Play, Tracks, Chars;
    StartTracks(x);
    PlayTracks(x, cols, moves);
    var y := Play(x, cols, moves).value;
    RestIsDrawn(y.o, y.line, |y.o.delays|);
    if moves != [] && moves[|moves| - 1].Settle? {
      LastMove(x, cols, moves);
    }
  }

  lemma StartTracks(x: Session)
    requires x.o.preds == [] && x.o.delays == [] && x.line.text == "" && x.line.times == [] && x.line.echoed == 0
    ensures Tracks(x.o, x.line, |x.o.delays|)
  {
  }

  lemma RestIsDrawn(o: Overlay, l: Line, k: nat)
    requires Tracks(o, l, k)
    ensures k + |o.preds| == |l.text| && k <= l.echoed <= |l.text|
    ensures l.text[..l.echoed] + Chars(o.preds[l.echoed - k..]) == l.text
  {
    forall i | l.echoed <= i < |l.text| ensures Chars(o.preds[l.echoed - k..])[i - l.echoed] == l.text[i] {
      assert GuessOf(o, l, k, i - k);
    }
  }

  lemma {:induction false} LastMove(x: Session, cols: nat, moves: seq<Move>)
    requires Tracks(x.o, x.line, |x.o.delays|) && x.line.start + |x.line.text| < cols && Play(x, cols, moves).Some?
    requires moves != [] && moves[|moves| - 1].Settle?
    ensures var y := Play(x, cols, moves).value; |y.o.delays| == y.line.echoed
    decreases |moves|
  {
    hide Tracks, Advance;
    var y := Advance(x, cols, moves[0]).value;
    AdvanceTracks(x, cols, moves[0], y);
    if |moves| == 1 {
      assert Play(y, cols, moves[1..]) == Some(y);
    } else {
      LastMove(y, cols, moves[1..]);
    }
  }
}
