/** Predictive local echo: guessed characters drawn over the terminal until the server's echo confirms them. */
module PredictiveEcho {
  import opened Bytes

  /** The active terminal buffer: `lines` rows in the viewport, and the text of the written cells. */
  datatype Screen = Screen(normal: bool, cursorRow: nat, cursorCol: nat, lines: nat, cells: map<(nat, nat), string>)

  /** The text of a cell; a row that is not there reads as empty, a column that is not there throws. */
  function CellText(s: Screen, cols: nat, row: nat, col: nat): Option<string> {
    if row >= s.lines then Some("")
    else if col >= cols then None
    else if (row, col) in s.cells then Some(s.cells[(row, col)]) else Some("")
  }

  /** A drawn guess; `pos` is its place among all characters ever drawn. */
  datatype Pred = Pred(ch: char, row: nat, col: nat, ts: real, shown: char, pos: nat)

  /** Besides the overlay's variables: all characters drawn so far, and all confirmed delays. */
  datatype Overlay = Overlay(
    preds: seq<Pred>, row: nat, col: nat, srtt: real, mask: bool,
    drawn: seq<char>, delays: seq<real>)

  function Max(a: real, b: real): real {
    if a < b then b else a
  }

  function Min(a: real, b: real): real {
    if a < b then a else b
  }

  function RetractMs(srtt: real): (ms: real)
    ensures 150.0 <= ms <= 1000.0
  {
    Max(150.0, Min(1000.0, if srtt != 0.0 then srtt * 3.0 else 400.0))
  }

  function Smoothed(srtt: real, dt: real): real {
    if srtt != 0.0 then srtt * 0.875 + dt * 0.125 else dt
  }

  function Cleared(o: Overlay): Overlay {
    o.(preds := [])
  }

  predicate Printable(ch: char) {
    0x20 <= ch as int <= 0x7e
  }

  predicate Erases(ch: char) {
    ch as int == 0x7f || ch as int == 0x08
  }

  /** A guess at the predicted cursor, unless that is in the last column. */
  function Place(o: Overlay, cols: nat, ch: char, now: real): (Overlay, bool) {
    if o.col + 1 >= cols then (Cleared(o), false)
    else
      var p := Pred(ch, o.row, o.col, now, if o.mask then '*' else ch, |o.drawn|);
      (o.(preds := o.preds + [p], col := o.col + 1, drawn := o.drawn + [ch]), true)
  }

  /** The guesses after the rest of a keystroke's data. */
  function Typed(o: Overlay, cols: nat, data: string, now: real): Overlay
    decreases |data|
  {
    if data == "" then o
    else if Printable(data[0]) then
      var (o', ok) := Place(o, cols, data[0], now);
      if ok then Typed(o', cols, data[1..], now) else o'
    else if Erases(data[0]) && o.preds != [] then
      var p := o.preds[|o.preds| - 1];
      Typed(o.(preds := o.preds[..|o.preds| - 1], col := p.col, row := p.row), cols, data[1..], now)
    else Cleared(o)
  }

  function OnData(o: Overlay, s: Screen, cols: nat, live: bool, data: string, now: real): Overlay {
    if !live || !s.normal then Cleared(o)
    else Typed(if o.preds == [] then o.(row := s.cursorRow, col := s.cursorCol) else o, cols, data, now)
  }

  /** The oldest guess is confirmed. */
  function Confirm(o: Overlay, now: real): Overlay
    requires o.preds != []
  {
    var dt := now - o.preds[0].ts;
    o.(preds := o.preds[1..], srtt := Smoothed(o.srtt, dt), mask := false, delays := o.delays + [dt])
  }

  /** Guesses are confirmed from the oldest on, until one is wrong, late or still pending. */
  function Settled(o: Overlay, s: Screen, cols: nat, now: real): Overlay
    decreases |o.preds|
  {
    if o.preds == [] then o
    else
      var p := o.preds[0];
      var text := CellText(s, cols, p.row, p.col);
      if text == Some([p.ch]) then Settled(Confirm(o, now), s, cols, now)
      else if text != Some("") then Cleared(o)
      else if !o.mask && now - p.ts > RetractMs(o.srtt) then Cleared(o).(mask := true)
      else o
  }

  function Reconcile(o: Overlay, s: Screen, cols: nat, now: real): Overlay {
    if !s.normal then Cleared(o) else Settled(o, s, cols, now)
  }

  // ----- the overlay's variables -----

  class EchoOverlay {
    var preds: seq<Pred>
    var curRow: nat
    var curCol: nat
    var srtt: real
    var maskMode: bool
    ghost var drawn: seq<char>
    ghost var delays: seq<real>
    var count: nat

    constructor ()
      ensures Valid() && View() == Overlay([], 0, 0, 0.0, false, [], [])
    {
      preds, curRow, curCol, srtt, maskMode := [], 0, 0, 0.0, false;
      drawn, delays, count := [], [], 0;
    }

    ghost predicate Valid()
      reads this
    {
      count == |drawn|
    }

    ghost function View(): Overlay
      reads this
    {
      Overlay(preds, curRow, curCol, srtt, maskMode, drawn, delays)
    }

    method ClearPreds()
      modifies this`preds
      ensures View() == Cleared(old(View()))
    {
      preds := [];
    }

    method PlaceChar(cols: nat, ch: char, now: real) returns (ok: bool)
      requires Valid()
      modifies this
      ensures Valid() && (View(), ok) == Place(old(View()), cols, ch, now)
    {
      if curCol + 1 >= cols {
        ClearPreds();
        return false;
      }
      preds := preds + [Pred(ch, curRow, curCol, now, if maskMode then '*' else ch, count)];
      curCol, count, drawn := curCol + 1, count + 1, drawn + [ch];
      return true;
    }

    method HandleData(s: Screen, cols: nat, live: bool, data: string, now: real)
      requires Valid()
      modifies this
      ensures Valid() && View() == OnData(old(View()), s, cols, live, data, now)
    {
      if !live || !s.normal {
        ClearPreds();
        return;
      }
      if |preds| == 0 {
        curRow, curCol := s.cursorRow, s.cursorCol;
      }
      ghost var start := View();
      for i := 0 to |data|
        invariant Valid()
        invariant Typed(start, cols, data, now) == Typed(View(), cols, data[i..], now)
      {
        var ch := data[i];
        assert data[i..][0] == ch && data[i..][1..] == data[i + 1..];
        if Printable(ch) {
          var ok := PlaceChar(cols, ch, now);
          if !ok {
            return;
          }
        } else if Erases(ch) {
          if |preds| == 0 {
            ClearPreds();
            return;
          }
          var p := preds[|preds| - 1];
          preds := preds[..|preds| - 1];
          curCol, curRow := p.col, p.row;
        } else {
          ClearPreds();
          return;
        }
      }
    }

    method ReconcileAll(s: Screen, cols: nat, now: real)
      requires Valid()
      modifies this
      ensures Valid() && View() == Reconcile(old(View()), s, cols, now)
    {
      if !s.normal {
        ClearPreds();
        return;
      }
      ghost var start := View();
      while |preds| > 0
        invariant Valid()
        invariant Settled(start, s, cols, now) == Settled(View(), s, cols, now)
        decreases |preds|
      {
        var p := preds[0];
        var text := CellText(s, cols, p.row, p.col);
        if text == Some([p.ch]) {
          var dt := now - p.ts;
          srtt := if srtt != 0.0 then srtt * 0.875 + dt * 0.125 else dt;
          maskMode, preds, delays := false, preds[1..], delays + [dt];
        } else if text != Some("") {
          ClearPreds();
          return;
        } else {
          if !maskMode && now - p.ts > RetractMs(srtt) {
            maskMode := true;
            ClearPreds();
          }
          return;
        }
      }
    }
  }

  // ----- what reconciling means -----

  predicate Matches(p: Pred, s: Screen, cols: nat) {
    CellText(s, cols, p.row, p.col) == Some([p.ch])
  }

  /** How many guesses, from the oldest on, the screen shows. */
  function Matching(preds: seq<Pred>, s: Screen, cols: nat): (n: nat)
    ensures n <= |preds|
    ensures forall i | 0 <= i < n :: Matches(preds[i], s, cols)
    ensures n < |preds| ==> !Matches(preds[n], s, cols)
  {
    if preds == [] || !Matches(preds[0], s, cols) then 0 else 1 + Matching(preds[1..], s, cols)
  }

  function Delays(preds: seq<Pred>, now: real): (ds: seq<real>)
    ensures |ds| == |preds| && forall i | 0 <= i < |ds| :: ds[i] == now - preds[i].ts
  {
    seq(|preds|, i requires 0 <= i < |preds| => now - preds[i].ts)
  }

  /** The overlay after its n oldest guesses have been confirmed. */
  function Confirmed(o: Overlay, n: nat, now: real): Overlay
    requires n <= |o.preds|
    decreases n
  {
    if n == 0 then o else Confirmed(Confirm(o, now), n - 1, now)
  }

  lemma {:induction false} ConfirmedParts(o: Overlay, n: nat, now: real)
    requires n <= |o.preds|
    ensures var c := Confirmed(o, n, now);
            && c.preds == o.preds[n..]
            && c.delays == o.delays + Delays(o.preds[..n], now)
            && (c.row, c.col, c.drawn) == (o.row, o.col, o.drawn)
            && c.mask == (o.mask && n == 0)
    decreases n
  {
    hide Delays, Smoothed;
    if n == 0 {
      assert o.preds[..0] == [] && o.preds[0..] == o.preds && o.delays + [] == o.delays;
    } else {
      var o' := Confirm(o, now);
      ConfirmedParts(o', n - 1, now);
      FirstDelay(o.delays, o.preds, n, now);
      assert o'.preds[n - 1..] == o.preds[n..];
    }
  }

  lemma FirstDelay(delays: seq<real>, preds: seq<Pred>, n: nat, now: real)
    requires 0 < n <= |preds|
    ensures (delays + [now - preds[0].ts]) + Delays(preds[1..][..n - 1], now) == delays + Delays(preds[..n], now)
  {
    assert Delays(preds[..n], now) == [now - preds[0].ts] + Delays(preds[1..][..n - 1], now);
  }

  /** What becomes of the oldest guess when the screen does not show it. */
  function Unconfirmed(o: Overlay, s: Screen, cols: nat, now: real): Overlay {
    if o.preds == [] then o
    else if CellText(s, cols, o.preds[0].row, o.preds[0].col) != Some("") then Cleared(o)
    else if !o.mask && now - o.preds[0].ts > RetractMs(o.srtt) then Cleared(o).(mask := true)
    else o
  }

  lemma {:induction false} SettledInTwo(o: Overlay, s: Screen, cols: nat, now: real)
    ensures Settled(o, s, cols, now) == Unconfirmed(Confirmed(o, Matching(o.preds, s, cols), now), s, cols, now)
    decreases |o.preds|
  {
    hide RetractMs, Smoothed, CellText;
    if o.preds != [] && Matches(o.preds[0], s, cols) {
      SettledInTwo(Confirm(o, now), s, cols, now);
    }
  }

  /** Reconciling confirms exactly the guesses the screen already shows, up to the first it does not; that
      one, unless its cell is still blank and it may wait, takes all the later ones with it. */
  lemma ReconcileMeaning(o: Overlay, s: Screen, cols: nat, now: real)
    ensures var n, r := Matching(o.preds, s, cols), Settled(o, s, cols, now);
            && r.delays == o.delays + Delays(o.preds[..n], now)
            && r.drawn == o.drawn
            && (r.preds == o.preds[n..] || r.preds == [])
            && (n < |o.preds| ==>
                  var p := o.preds[n];
                  var late := now - p.ts > RetractMs(r.srtt) && !(o.mask && n == 0);
                  && (r.preds != [] <==> CellText(s, cols, p.row, p.col) == Some("") && !late)
                  && (r.mask <==> (o.mask && n == 0) || (CellText(s, cols, p.row, p.col) == Some("") && late)))
  {
    hide RetractMs, Smoothed, CellText, Delays, Settled, Confirmed, Matching;
    var n := Matching(o.preds, s, cols);
    SettledInTwo(o, s, cols, now);
    ConfirmedParts(o, n, now);
  }
}
