/** The multi-tap extension: collapses a burst of Down edges of one button,
    each inside the multi-press window of the previous one, into a single
    event carrying the number of taps. The event is raised at once when the
    burst reaches `maxTaps`, otherwise by the window-expiry timer.

    The stopwatch reading is the explicit argument `now`, the timer callback is
    the method `ProcessQueuedButtons(now)`, and every raised event is appended
    to the field `events`. */
module MultiTap {
  import opened Common
  import opened SetOrder

  /** A raised event (the parent pointer is not modelled). */
  datatype MultiTapEvent = MultiTapEvent(button: nat, tapCount: U16)

  /** What the extension remembers of one button. */
  datatype ButtonData = ButtonData(
    timestampLastButtonDown: U64,
    tapCounter: U16,
    buttonState: ButtonState)

  /** The value `GetButtonData` inserts for a button it has not seen. */
  const NewButtonData := ButtonData(0, 0, Up)

  /** Construction parameters. */
  datatype Config = Config(id: U16, multiPressThreshold: U16, maxTaps: U16)

  /** The whole mutable state of one extension: the per-button data, the
      buttons with a burst in progress, the one-shot timer (whether it is
      enabled and its due time in milliseconds) and the raised events. */
  datatype TapState = TapState(
    buttons: map<nat, ButtonData>,
    pending: set<nat>,
    timerEnabled: bool,
    dueTime: int,
    events: seq<MultiTapEvent>)

  function InitialState(cfg: Config): TapState {
    TapState(map[], {}, false, cfg.multiPressThreshold, [])
  }

  /** The smallest `int64_t`, the sentinel for "no button left waiting". */
  const INT64_MIN: int := -TWO_TO_63

  function DataOf(buttons: map<nat, ButtonData>, b: nat): ButtonData {
    if b in buttons then buttons[b] else NewButtonData
  }

  /** The map after `GetButtonData(b)`: an entry for `b` is created lazily. */
  function WithData(buttons: map<nat, ButtonData>, b: nat): (r: map<nat, ButtonData>)
    ensures r.Keys == buttons.Keys + {b}
    ensures forall x :: DataOf(r, x) == DataOf(buttons, x)
  {
    if b in buttons then buttons else buttons[b := NewButtonData]
  }

  /** Effect of `SetButtonState(button, newState)` at time `now`. */
  ghost function Apply(cfg: Config, s: TapState, button: nat, newState: ButtonState, now: U64): TapState {
    var buttons := WithData(s.buttons, button);
    var d := buttons[button];
    if d.buttonState == newState then s.(buttons := buttons)
    else if newState == Down && d.buttonState == Up then Tap(cfg, s.(buttons := buttons), button, d, now)
    else s.(buttons := buttons[button := d.(buttonState := newState)])
  }

  /** An Up to Down change of `button`, whose data was `d`. */
  ghost function Tap(cfg: Config, s: TapState, button: nat, d: ButtonData, now: U64): TapState {
    var taps := Inc16(d.tapCounter);
    var d' := d.(tapCounter := taps, timestampLastButtonDown := now, buttonState := Down);
    if taps < cfg.maxTaps then
      s.(buttons := s.buttons[button := d'], pending := s.pending + {button},
         timerEnabled := true, dueTime := cfg.multiPressThreshold)
    else if taps == cfg.maxTaps then
      var pending := s.pending - {button};
      TapState(s.buttons[button := d'.(tapCounter := 0)], pending,
               if pending == {} then false else s.timerEnabled, s.dueTime,
               s.events + [MultiTapEvent(button, taps)])
    else s.(buttons := s.buttons[button := d'])
  }

  /** Milliseconds until the window of `d`'s last Down closes, negated:
      non-negative once it has closed. Computed on `int64_t`. */
  function TimeToEvent(cfg: Config, d: ButtonData, now: U64): (r: int)
    ensures d.timestampLastButtonDown <= now < TWO_TO_63 ==>
      r == (now - d.timestampLastButtonDown) - cfg.multiPressThreshold
  {
    AsInt64(now) - AsInt64(d.timestampLastButtonDown) - cfg.multiPressThreshold
  }

  function Max(a: int, b: int): int {
    if a < b then b else a
  }

  /** The running values of the expiry loop. */
  datatype TickAcc = TickAcc(
    buttons: map<nat, ButtonData>,
    events: seq<MultiTapEvent>,
    removed: set<nat>,
    minTimeToEvent: int)

  /** One iteration of the expiry loop, for button `b`. */
  ghost function TickStep(cfg: Config, acc: TickAcc, b: nat, now: U64): TickAcc {
    var m := WithData(acc.buttons, b);
    var d := m[b];
    var t := TimeToEvent(cfg, d, now);
    if t >= 0 then
      acc.(buttons := m[b := d.(tapCounter := 0)], events := acc.events + [MultiTapEvent(b, d.tapCounter)],
           removed := acc.removed + {b})
    else acc.(buttons := m, minTimeToEvent := Max(acc.minTimeToEvent, t))
  }

  /** The expiry loop over the buttons of `order`, first to last. */
  ghost function TickFold(cfg: Config, acc: TickAcc, order: seq<nat>, now: U64): TickAcc
    decreases |order|
  {
    if order == [] then acc
    else TickStep(cfg, TickFold(cfg, acc, order[..|order| - 1], now), order[|order| - 1], now)
  }

  function StartAcc(buttons: map<nat, ButtonData>): TickAcc {
    TickAcc(buttons, [], {}, INT64_MIN)
  }

  /** Effect of `ProcessQueuedButtons()` at time `now`: the pending set is
      visited in ascending order; the timer is re-armed for the nearest
      deadline when some button is still waiting; expired buttons leave the
      pending set. */
  ghost function Tick(cfg: Config, s: TapState, now: U64): TapState {
    var acc := TickFold(cfg, StartAcc(s.buttons), Ascending(s.pending), now);
    var rearm := acc.minTimeToEvent != INT64_MIN;
    TapState(acc.buttons, s.pending - acc.removed,
             if rearm then true else s.timerEnabled,
             if rearm then (-acc.minTimeToEvent) % TWO_TO_32 else s.dueTime,
             s.events + acc.events)
  }

  lemma TickFoldSnoc(cfg: Config, acc: TickAcc, order: seq<nat>, b: nat, now: U64)
    ensures TickFold(cfg, acc, order + [b], now) == TickStep(cfg, TickFold(cfg, acc, order, now), b, now)
  {
    assert (order + [b])[..|order|] == order;
  }

  // ---------------------------------------------------------------------
  // Properties of one transition

  /** Reporting the same state twice has the effect of reporting it once. */
  lemma ApplyIdempotent(cfg: Config, s: TapState, button: nat, newState: ButtonState, now: U64)
    ensures Apply(cfg, Apply(cfg, s, button, newState, now), button, newState, now)
         == Apply(cfg, s, button, newState, now)
  {
    var s1 := Apply(cfg, s, button, newState, now);
    assert button in s1.buttons && s1.buttons[button].buttonState == newState;
    assert WithData(s1.buttons, button) == s1.buttons;
  }

  /** A transition of `button` leaves every other button's data and
      membership of the pending set alone, and raises at most one event, about
      `button`. */
  lemma ApplyFrame(cfg: Config, s: TapState, button: nat, newState: ButtonState, now: U64)
    ensures var s' := Apply(cfg, s, button, newState, now);
      && (forall x :: x != button ==> DataOf(s'.buttons, x) == DataOf(s.buttons, x))
      && s'.pending - {button} == s.pending - {button}
      && s'.buttons.Keys == s.buttons.Keys + {button}
      && (|s'.events| == |s.events| || (|s'.events| == |s.events| + 1 && s'.events[|s.events|].button == button))
      && s'.events[..|s.events|] == s.events
  {
  }

  /** Up to Down counts one more tap (on `uint16_t`) and records `now`. Below
      `maxTaps` the button joins the pending set and the timer is armed for a
      full window; reaching `maxTaps` raises the event at once, clears the
      counter, takes the button out of the pending set and stops the timer
      when nothing else is pending; above `maxTaps` nothing else happens. */
  lemma TapEffect(cfg: Config, s: TapState, button: nat, now: U64)
    requires DataOf(s.buttons, button).buttonState == Up
    ensures var d := DataOf(s.buttons, button);
      var taps := Inc16(d.tapCounter);
      var s' := Apply(cfg, s, button, Down, now);
      var d' := s'.buttons[button];
      && d'.timestampLastButtonDown == now && d'.buttonState == Down
      && (taps < cfg.maxTaps ==>
            && d'.tapCounter == taps && s'.pending == s.pending + {button} && s'.events == s.events
            && s'.timerEnabled && s'.dueTime == cfg.multiPressThreshold)
      && (taps == cfg.maxTaps ==>
            && d'.tapCounter == 0 && s'.pending == s.pending - {button}
            && s'.events == s.events + [MultiTapEvent(button, cfg.maxTaps)]
            && (s'.timerEnabled <==> s'.pending != {} && s.timerEnabled) && s'.dueTime == s.dueTime)
      && (taps > cfg.maxTaps ==>
            && d'.tapCounter == taps && s'.pending == s.pending && s'.events == s.events
            && s'.timerEnabled == s.timerEnabled && s'.dueTime == s.dueTime)
  {
  }

  /** Every change other than Up to Down only records the new state: the
      burst in progress, the timer and the events are untouched. */
  lemma OtherChangesOnlyRecordState(cfg: Config, s: TapState, button: nat, newState: ButtonState, now: U64)
    requires !(newState == Down && DataOf(s.buttons, button).buttonState == Up)
    ensures var s' := Apply(cfg, s, button, newState, now);
      && s'.buttons[button] == DataOf(s.buttons, button).(buttonState := newState)
      && s'.pending == s.pending && s'.events == s.events
      && s'.timerEnabled == s.timerEnabled && s'.dueTime == s.dueTime
  {
  }

  // ---------------------------------------------------------------------
  // The invariant kept between calls

  /** What holds between calls when `maxTaps` is at least one: a button is
      pending exactly when it has taps counted, no counter has reached
      `maxTaps`, the timer is enabled whenever something is pending, and
      every raised event reports between one and `maxTaps` taps. */
  ghost predicate Consistent(cfg: Config, s: TapState) {
    && 1 <= cfg.maxTaps
    && s.pending <= s.buttons.Keys
    && (forall b :: b in s.buttons ==> s.buttons[b].tapCounter < cfg.maxTaps)
    && (forall b :: b in s.buttons ==> (b in s.pending <==> s.buttons[b].tapCounter > 0))
    && (s.pending != {} ==> s.timerEnabled)
    && (forall i :: 0 <= i < |s.events| ==> 1 <= s.events[i].tapCount <= cfg.maxTaps)
  }

  lemma InitialConsistent(cfg: Config)
    requires 1 <= cfg.maxTaps
    ensures Consistent(cfg, InitialState(cfg))
  {
  }

  lemma ApplyPreservesConsistent(cfg: Config, s: TapState, button: nat, newState: ButtonState, now: U64)
    requires Consistent(cfg, s)
    ensures Consistent(cfg, Apply(cfg, s, button, newState, now))
  {
    var buttons := WithData(s.buttons, button);
    var d := buttons[button];
    assert d.tapCounter < cfg.maxTaps && (button in s.pending <==> d.tapCounter > 0);
    if d.buttonState == newState {
      assert Consistent(cfg, s.(buttons := buttons));
    } else if newState == Down && d.buttonState == Up {
      TapPreservesConsistent(cfg, s.(buttons := buttons), button, d, now);
    } else {
      var s' := s.(buttons := buttons[button := d.(buttonState := newState)]);
      assert Consistent(cfg, s');
    }
  }

  lemma TapPreservesConsistent(cfg: Config, s: TapState, button: nat, d: ButtonData, now: U64)
    requires Consistent(cfg, s)
    requires button in s.buttons && s.buttons[button] == d
    ensures Consistent(cfg, Tap(cfg, s, button, d, now))
  {
    var s' := Tap(cfg, s, button, d, now);
    var taps := Inc16(d.tapCounter);
    assert taps == d.tapCounter + 1 <= cfg.maxTaps;
    forall b | b in s'.buttons
      ensures s'.buttons[b].tapCounter < cfg.maxTaps
      ensures b in s'.pending <==> s'.buttons[b].tapCounter > 0
    {
      if b != button {
        assert s'.buttons[b] == s.buttons[b];
      }
    }
    assert forall i :: 0 <= i < |s'.events| ==> 1 <= s'.events[i].tapCount <= cfg.maxTaps;
  }

  // ---------------------------------------------------------------------
  // The expiry tick

  predicate Distinct(order: seq<nat>) {
    forall i, j :: 0 <= i < j < |order| ==> order[i] != order[j]
  }

  /** Whether the window of `x`'s last Down has closed at `now`. */
  ghost predicate Expired(cfg: Config, m: map<nat, ButtonData>, x: nat, now: U64) {
    TimeToEvent(cfg, DataOf(m, x), now) >= 0
  }

  /** One visit of `b`: only `b`'s data can change, and only by clearing
      its counter when it has expired. */
  lemma TickStepEffect(cfg: Config, acc: TickAcc, b: nat, now: U64)
    ensures TickStep(cfg, acc, b, now).buttons.Keys == acc.buttons.Keys + {b}
    ensures forall x :: DataOf(TickStep(cfg, acc, b, now).buttons, x)
                     == if x == b && Expired(cfg, acc.buttons, b, now) then DataOf(acc.buttons, b).(tapCounter := 0)
                        else DataOf(acc.buttons, x)
    ensures TickStep(cfg, acc, b, now).removed
         == if Expired(cfg, acc.buttons, b, now) then acc.removed + {b} else acc.removed
  {
  }

  /** Visiting buttons adds each of them to the map. */
  lemma {:induction false} TickFoldKeys(cfg: Config, m: map<nat, ButtonData>, order: seq<nat>, now: U64)
    ensures TickFold(cfg, StartAcc(m), order, now).buttons.Keys == m.Keys + (set x | x in order)
    decreases |order|
  {
    if order != [] {
      var pre, last := order[..|order| - 1], order[|order| - 1];
      assert order == pre + [last];
      TickFoldKeys(cfg, m, pre, now);
      TickStepEffect(cfg, TickFold(cfg, StartAcc(m), pre, now), last, now);
      var keys := TickFold(cfg, StartAcc(m), order, now).buttons.Keys;
      assert keys == TickFold(cfg, StartAcc(m), pre, now).buttons.Keys + {last};
      forall x
        ensures x in keys <==> x in m.Keys + (set y | y in order)
      {
        assert x in order <==> x in pre || x == last;
      }
    }
  }

  /** Visiting distinct buttons clears the counter of each expired one and
      changes no other data. */
  lemma {:induction false} TickFoldData(cfg: Config, m: map<nat, ButtonData>, order: seq<nat>, now: U64)
    requires Distinct(order)
    ensures forall x :: DataOf(TickFold(cfg, StartAcc(m), order, now).buttons, x)
                     == if x in order && Expired(cfg, m, x, now) then DataOf(m, x).(tapCounter := 0) else DataOf(m, x)
    decreases |order|
  {
    if order != [] {
      var pre, last := order[..|order| - 1], order[|order| - 1];
      assert order == pre + [last];
      TickFoldData(cfg, m, pre, now);
      assert last !in pre;
      var acc1 := TickFold(cfg, StartAcc(m), pre, now);
      TickStepEffect(cfg, acc1, last, now);
      assert DataOf(acc1.buttons, last) == DataOf(m, last);
    }
  }

  /** Visiting distinct buttons records exactly the expired ones as removed. */
  lemma {:induction false} TickFoldRemoved(cfg: Config, m: map<nat, ButtonData>, order: seq<nat>, now: U64)
    requires Distinct(order)
    ensures TickFold(cfg, StartAcc(m), order, now).removed == set x | x in order && Expired(cfg, m, x, now)
    decreases |order|
  {
    if order != [] {
      var pre, last := order[..|order| - 1], order[|order| - 1];
      assert order == pre + [last];
      TickFoldRemoved(cfg, m, pre, now);
      TickFoldData(cfg, m, pre, now);
      assert last !in pre;
      var acc1 := TickFold(cfg, StartAcc(m), pre, now);
      TickStepEffect(cfg, acc1, last, now);
      assert Expired(cfg, acc1.buttons, last, now) == Expired(cfg, m, last, now);
      var expired := if Expired(cfg, m, last, now) then {last} else {};
      assert (set x | x in order && Expired(cfg, m, x, now))
          == (set x | x in pre && Expired(cfg, m, x, now)) + expired;
    }
  }

  /** Visiting distinct buttons: each expired one gets its counter cleared and
      is recorded as removed; no other data changes. */
  lemma TickFoldAt(cfg: Config, m: map<nat, ButtonData>, order: seq<nat>, now: U64)
    requires Distinct(order)
    ensures TickFold(cfg, StartAcc(m), order, now).buttons.Keys == m.Keys + (set x | x in order)
    ensures forall x :: DataOf(TickFold(cfg, StartAcc(m), order, now).buttons, x)
                     == if x in order && Expired(cfg, m, x, now) then DataOf(m, x).(tapCounter := 0) else DataOf(m, x)
    ensures TickFold(cfg, StartAcc(m), order, now).removed == set x | x in order && Expired(cfg, m, x, now)
  {
    TickFoldKeys(cfg, m, order, now);
    TickFoldData(cfg, m, order, now);
    TickFoldRemoved(cfg, m, order, now);
  }

  /** The running maximum of the loop is the largest time to event of the
      visited buttons still waiting, or the sentinel when there is none (or
      when every such value is at or below the sentinel). */
  lemma {:induction false} TickFoldMin(cfg: Config, m: map<nat, ButtonData>, order: seq<nat>, now: U64)
    requires Distinct(order)
    ensures INT64_MIN <= TickFold(cfg, StartAcc(m), order, now).minTimeToEvent
    ensures forall x :: x in order && !Expired(cfg, m, x, now) ==>
      TimeToEvent(cfg, DataOf(m, x), now) <= TickFold(cfg, StartAcc(m), order, now).minTimeToEvent
    ensures TickFold(cfg, StartAcc(m), order, now).minTimeToEvent == INT64_MIN
         || exists x :: x in order && !Expired(cfg, m, x, now)
                        && TickFold(cfg, StartAcc(m), order, now).minTimeToEvent == TimeToEvent(cfg, DataOf(m, x), now)
    decreases |order|
  {
    if order != [] {
      var pre, last := order[..|order| - 1], order[|order| - 1];
      assert order == pre + [last];
      TickFoldMin(cfg, m, pre, now);
      TickFoldAt(cfg, m, pre, now);
      assert last !in pre;
      var acc1 := TickFold(cfg, StartAcc(m), pre, now);
      assert DataOf(acc1.buttons, last) == DataOf(m, last);
      var acc := TickFold(cfg, StartAcc(m), order, now);
      assert acc == TickStep(cfg, acc1, last, now);
      if acc.minTimeToEvent != INT64_MIN {
        if acc.minTimeToEvent != acc1.minTimeToEvent {
          assert acc.minTimeToEvent == TimeToEvent(cfg, DataOf(m, last), now) && !Expired(cfg, m, last, now);
        } else {
          var x :| x in pre && !Expired(cfg, m, x, now) && acc1.minTimeToEvent == TimeToEvent(cfg, DataOf(m, x), now);
          assert x in order;
        }
      }
    }
  }

  /** The events raised by a tick over `order`. */
  ghost function TickEvents(cfg: Config, m: map<nat, ButtonData>, order: seq<nat>, now: U64): seq<MultiTapEvent> {
    TickFold(cfg, StartAcc(m), order, now).events
  }

  /** Each event of a tick over distinct buttons is about a visited expired
      button and reports the taps it had counted before the tick. */
  lemma {:induction false} TickFoldEventsSound(cfg: Config, m: map<nat, ButtonData>, order: seq<nat>, now: U64)
    requires Distinct(order)
    ensures forall i :: 0 <= i < |TickEvents(cfg, m, order, now)| ==>
      && TickEvents(cfg, m, order, now)[i].button in order
      && Expired(cfg, m, TickEvents(cfg, m, order, now)[i].button, now)
      && TickEvents(cfg, m, order, now)[i].tapCount == DataOf(m, TickEvents(cfg, m, order, now)[i].button).tapCounter
    decreases |order|
  {
    if order != [] {
      var pre, last := order[..|order| - 1], order[|order| - 1];
      assert order == pre + [last];
      TickFoldEventsSound(cfg, m, pre, now);
      TickFoldAt(cfg, m, pre, now);
      assert last !in pre;
      var acc1 := TickFold(cfg, StartAcc(m), pre, now);
      assert DataOf(acc1.buttons, last) == DataOf(m, last);
      assert TickEvents(cfg, m, order, now) == TickStep(cfg, acc1, last, now).events;
      assert TickEvents(cfg, m, pre, now) == acc1.events;
    }
  }

  /** Every visited expired button raises an event in the tick. */
  lemma {:induction false} TickFoldEventsComplete(cfg: Config, m: map<nat, ButtonData>, order: seq<nat>, now: U64)
    requires Distinct(order)
    ensures forall x :: x in order && Expired(cfg, m, x, now) ==>
      exists i :: 0 <= i < |TickEvents(cfg, m, order, now)| && TickEvents(cfg, m, order, now)[i].button == x
    decreases |order|
  {
    if order != [] {
      var pre, last := order[..|order| - 1], order[|order| - 1];
      assert order == pre + [last];
      TickFoldEventsComplete(cfg, m, pre, now);
      TickFoldAt(cfg, m, pre, now);
      assert last !in pre;
      var acc1 := TickFold(cfg, StartAcc(m), pre, now);
      assert DataOf(acc1.buttons, last) == DataOf(m, last);
      var e1 := TickEvents(cfg, m, pre, now);
      var e := TickEvents(cfg, m, order, now);
      assert e == TickStep(cfg, acc1, last, now).events;
      assert e[..|e1|] == e1;
      forall x | x in order && Expired(cfg, m, x, now)
        ensures exists i :: 0 <= i < |e| && e[i].button == x
      {
        if x == last {
          assert e[|e| - 1].button == x;
        } else {
          assert x in pre;
          var i :| 0 <= i < |e1| && e1[i].button == x;
          assert e[i] == e1[i];
        }
      }
    }
  }

  /** A tick over strictly increasing buttons raises its events in strictly
      increasing button order. */
  lemma {:induction false} TickFoldEventsOrdered(cfg: Config, m: map<nat, ButtonData>, order: seq<nat>, now: U64)
    requires StrictlyIncreasing(order)
    ensures forall i :: 0 <= i < |TickEvents(cfg, m, order, now)| ==> TickEvents(cfg, m, order, now)[i].button in order
    ensures forall i, j :: 0 <= i < j < |TickEvents(cfg, m, order, now)| ==>
      TickEvents(cfg, m, order, now)[i].button < TickEvents(cfg, m, order, now)[j].button
    decreases |order|
  {
    if order != [] {
      var pre, last := order[..|order| - 1], order[|order| - 1];
      assert order == pre + [last];
      assert StrictlyIncreasing(pre);
      TickFoldEventsOrdered(cfg, m, pre, now);
      var acc1 := TickFold(cfg, StartAcc(m), pre, now);
      var e1 := TickEvents(cfg, m, pre, now);
      var e := TickEvents(cfg, m, order, now);
      assert e == TickStep(cfg, acc1, last, now).events;
      assert e1 == acc1.events;
      forall i | 0 <= i < |e1|
        ensures e1[i].button < last
      {
        var k :| 0 <= k < |pre| && pre[k] == e1[i].button;
        assert order[k] == pre[k];
      }
    }
  }

  /** The buttons still pending after a tick are the pending ones whose
      window is open. */
  lemma TickPending(cfg: Config, s: TapState, now: U64)
    ensures forall x :: x in Tick(cfg, s, now).pending <==> x in s.pending && !Expired(cfg, s.buttons, x, now)
  {
    var order := Ascending(s.pending);
    AscendingSpec(s.pending);
    TickFoldRemoved(cfg, s.buttons, order, now);
  }

  /** A tick changes no data but the cleared counters of expired pending
      buttons, and adds no key when the pending buttons already have data. */
  lemma TickData(cfg: Config, s: TapState, now: U64)
    requires s.pending <= s.buttons.Keys
    ensures Tick(cfg, s, now).buttons.Keys == s.buttons.Keys
    ensures forall x :: x in s.buttons ==>
      Tick(cfg, s, now).buttons[x] ==
      (if x in s.pending && Expired(cfg, s.buttons, x, now) then s.buttons[x].(tapCounter := 0) else s.buttons[x])
  {
    var order := Ascending(s.pending);
    AscendingSpec(s.pending);
    TickFoldKeys(cfg, s.buttons, order, now);
    TickFoldData(cfg, s.buttons, order, now);
    var m' := Tick(cfg, s, now).buttons;
    forall x | x in s.buttons
      ensures m'[x] == if x in s.pending && Expired(cfg, s.buttons, x, now) then s.buttons[x].(tapCounter := 0)
                       else s.buttons[x]
    {
      assert DataOf(m', x) == m'[x];
    }
  }

  /** The running maximum of a tick, in terms of the pending set. */
  lemma TickMin(cfg: Config, s: TapState, now: U64)
    ensures var t := TickFold(cfg, StartAcc(s.buttons), Ascending(s.pending), now).minTimeToEvent;
      && (forall x :: x in s.pending && !Expired(cfg, s.buttons, x, now) ==> TimeToEvent(cfg, DataOf(s.buttons, x), now) <= t)
      && (t == INT64_MIN || exists x :: x in s.pending && !Expired(cfg, s.buttons, x, now)
                                       && t == TimeToEvent(cfg, DataOf(s.buttons, x), now))
  {
    AscendingSpec(s.pending);
    TickFoldMin(cfg, s.buttons, Ascending(s.pending), now);
  }

  /** The expiry tick: every pending button whose window has closed (at least
      `multiPressThreshold` since its last Down, on `int64_t`) raises one
      event with its tap count, gets its counter cleared and leaves the
      pending set; every other button's data stays as it was; events come in
      ascending button order. */
  lemma TickEffect(cfg: Config, s: TapState, now: U64)
    ensures Tick(cfg, s, now).pending == set x | x in s.pending && !Expired(cfg, s.buttons, x, now)
    ensures Tick(cfg, s, now).events == s.events + TickEvents(cfg, s.buttons, Ascending(s.pending), now)
    ensures forall x ::
      DataOf(Tick(cfg, s, now).buttons, x) ==
      (if x in s.pending && Expired(cfg, s.buttons, x, now) then DataOf(s.buttons, x).(tapCounter := 0)
       else DataOf(s.buttons, x))
    ensures var e := TickEvents(cfg, s.buttons, Ascending(s.pending), now);
      && (forall i :: 0 <= i < |e| ==> e[i].button in s.pending && Expired(cfg, s.buttons, e[i].button, now)
                                       && e[i].tapCount == DataOf(s.buttons, e[i].button).tapCounter)
      && (forall x :: x in s.pending && Expired(cfg, s.buttons, x, now) ==>
            exists i :: 0 <= i < |e| && e[i].button == x)
      && (forall i, j :: 0 <= i < j < |e| ==> e[i].button < e[j].button)
  {
    var order := Ascending(s.pending);
    AscendingSpec(s.pending);
    TickPending(cfg, s, now);
    TickFoldData(cfg, s.buttons, order, now);
    TickFoldEventsSound(cfg, s.buttons, order, now);
    TickFoldEventsComplete(cfg, s.buttons, order, now);
    TickFoldEventsOrdered(cfg, s.buttons, order, now);
  }

  lemma SmallMod(a: int, n: int)
    requires 0 <= a < n
    ensures a % n == a
  {
  }

  /** With monotonic time (every pending button's last Down at or before
      `now`, and `now` below 2^63 so the `int64_t` casts are exact): the tick
      re-arms the timer exactly when some pending button is still inside its
      window, and then for the nearest deadline, which lies between 1 and
      `multiPressThreshold` milliseconds away; otherwise the timer is left
      as it was. */
  lemma TickDueTime(cfg: Config, s: TapState, now: U64)
    requires now < TWO_TO_63
    requires forall x :: x in s.pending ==> DataOf(s.buttons, x).timestampLastButtonDown <= now
    ensures var s' := Tick(cfg, s, now);
      && (s'.pending == {} ==> s'.timerEnabled == s.timerEnabled && s'.dueTime == s.dueTime)
      && (s'.pending != {} ==>
            && s'.timerEnabled
            && 1 <= s'.dueTime <= cfg.multiPressThreshold
            && (forall x :: x in s'.pending ==>
                  s'.dueTime <= cfg.multiPressThreshold - (now - DataOf(s.buttons, x).timestampLastButtonDown))
            && exists x :: x in s'.pending &&
                  s'.dueTime == cfg.multiPressThreshold - (now - DataOf(s.buttons, x).timestampLastButtonDown))
  {
    TickPending(cfg, s, now);
    TickMin(cfg, s, now);
    var t := TickFold(cfg, StartAcc(s.buttons), Ascending(s.pending), now).minTimeToEvent;
    var s' := Tick(cfg, s, now);
    if s'.pending != {} {
      var y :| y in s'.pending;
      assert TimeToEvent(cfg, DataOf(s.buttons, y), now) <= t;
      var x :| x in s.pending && !Expired(cfg, s.buttons, x, now) && t == TimeToEvent(cfg, DataOf(s.buttons, x), now);
      assert x in s'.pending;
      var due := -t;
      assert due == cfg.multiPressThreshold - (now - DataOf(s.buttons, x).timestampLastButtonDown);
      SmallMod(due, TWO_TO_32);
      assert s'.dueTime == due;
      forall z | z in s'.pending
        ensures due <= cfg.multiPressThreshold - (now - DataOf(s.buttons, z).timestampLastButtonDown)
      {
        assert TimeToEvent(cfg, DataOf(s.buttons, z), now) <= t;
      }
    } else if t != INT64_MIN {
      assert false;
    }
  }

  lemma TickPreservesConsistent(cfg: Config, s: TapState, now: U64)
    requires Consistent(cfg, s)
    ensures Consistent(cfg, Tick(cfg, s, now))
  {
    var order := Ascending(s.pending);
    AscendingSpec(s.pending);
    TickPending(cfg, s, now);
    TickData(cfg, s, now);
    TickFoldEventsSound(cfg, s.buttons, order, now);
    var s' := Tick(cfg, s, now);
    var e := TickEvents(cfg, s.buttons, order, now);
    assert s'.events == s.events + e;
    forall i | 0 <= i < |e|
      ensures 1 <= e[i].tapCount <= cfg.maxTaps
    {
      assert e[i].button in s.buttons;
    }
  }

  // ---------------------------------------------------------------------
  // Bursts

  /** Three taps with no expiry in between, under `maxTaps` three, raise
      exactly one event, with three taps, the moment the third Down arrives;
      nothing is left pending and the timer is stopped. */
  lemma ThreeTapsRaiseOneEvent(cfg: Config, b: nat, t0: U64, t1: U64, t2: U64, t3: U64, t4: U64)
    requires cfg.maxTaps == 3
    ensures var s1 := Apply(cfg, Apply(cfg, InitialState(cfg), b, Down, t0), b, Up, t1);
      var s2 := Apply(cfg, Apply(cfg, s1, b, Down, t2), b, Up, t3);
      var s3 := Apply(cfg, s2, b, Down, t4);
      && s2.events == [] && s2.pending == {b}
      && s3.events == [MultiTapEvent(b, 3)] && s3.pending == {} && !s3.timerEnabled
  {
  }

  /** Two taps under `maxTaps` three raise nothing by themselves; an expiry
      tick inside the window of the second Down raises nothing and re-arms
      the timer for the rest of that window, and one at or after its end
      raises exactly one event, with two taps. */
  lemma TwoTapsThenExpiry(cfg: Config, b: nat, t0: U64, t1: U64, t2: U64, t3: U64, now: U64)
    requires cfg.maxTaps == 3
    requires t2 <= now < TWO_TO_63
    ensures var s1 := Apply(cfg, Apply(cfg, InitialState(cfg), b, Down, t0), b, Up, t1);
      var s2 := Apply(cfg, Apply(cfg, s1, b, Down, t2), b, Up, t3);
      var s' := Tick(cfg, s2, now);
      && s2.events == [] && s2.pending == {b}
      && (now - t2 >= cfg.multiPressThreshold ==> s'.events == [MultiTapEvent(b, 2)] && s'.pending == {})
      && (now - t2 < cfg.multiPressThreshold ==>
            && s'.events == [] && s'.pending == {b}
            && s'.timerEnabled && s'.dueTime == cfg.multiPressThreshold - (now - t2))
  {
    var s1 := Apply(cfg, Apply(cfg, InitialState(cfg), b, Down, t0), b, Up, t1);
    assert s1.buttons[b] == ButtonData(t0, 1, Up) && s1.pending == {b} && s1.events == [];
    var s2 := Apply(cfg, Apply(cfg, s1, b, Down, t2), b, Up, t3);
    assert s2.buttons[b] == ButtonData(t2, 2, Up) && s2.pending == {b} && s2.events == [];
    AscendingUnfold({b}, b);
    assert {b} - {b} == {};
    assert Ascending(s2.pending) == [b];
    assert [b][..0] == [];
    var acc := TickFold(cfg, StartAcc(s2.buttons), [b], now);
    TickFoldSnoc(cfg, StartAcc(s2.buttons), [], b, now);
    assert [] + [b] == [b];
    assert TimeToEvent(cfg, s2.buttons[b], now) == (now - t2) - cfg.multiPressThreshold;
  }

  class MultitapExtension {
    const id: U16
    const multiPressThreshold: U16
    const maxTaps: U16

    var buttons: map<nat, ButtonData>
    var pending: set<nat>
    var timerEnabled: bool
    var dueTime: int
    var events: seq<MultiTapEvent>

    function Cfg(): Config {
      Config(id, multiPressThreshold, maxTaps)
    }

    function State(): TapState
      reads this
    {
      TapState(buttons, pending, timerEnabled, dueTime, events)
    }

    constructor (id: U16, multipressRate: U16, maxTaps: U16)
      ensures Cfg() == Config(id, multipressRate, maxTaps)
      ensures State() == InitialState(Cfg())
    {
      this.id := id;
      this.multiPressThreshold := multipressRate;
      this.maxTaps := maxTaps;
      buttons := map[];
      pending := {};
      timerEnabled := false;
      dueTime := multipressRate;
      events := [];
    }

    /** The data of `b`, created with zero fields and state Up on first use. */
    method GetButtonData(b: nat) returns (d: ButtonData)
      modifies this`buttons
      ensures buttons == WithData(old(buttons), b)
      ensures d == DataOf(old(buttons), b)
    {
      if b !in buttons {
        buttons := buttons[b := NewButtonData];
      }
      d := buttons[b];
    }

    method SetButtonState(button: nat, newState: ButtonState, now: U64)
      modifies this
      ensures State() == Apply(Cfg(), old(State()), button, newState, now)
      ensures |events| <= |old(events)| + 1
    {
      var data := GetButtonData(button);
      if data.buttonState != newState {
        if newState == Down {
          if data.buttonState == Up {
            data := data.(tapCounter := Inc16(data.tapCounter), timestampLastButtonDown := now);
            if data.tapCounter < maxTaps {
              pending := pending + {button};
              dueTime := multiPressThreshold;
              timerEnabled := true;
            } else if data.tapCounter == maxTaps {
              pending := pending - {button};
              events := events + [MultiTapEvent(button, data.tapCounter)];
              data := data.(tapCounter := 0);
              if pending == {} {
                timerEnabled := false;
              }
            }
          }
        }
        data := data.(buttonState := newState);
        buttons := buttons[button := data];
      }
    }

    /** One iteration of the expiry loop, for button `b`. */
    method ExpireButton(b: nat, now: U64, acc: TickAcc) returns (acc': TickAcc)
      requires acc.buttons == buttons && acc.events == []
      modifies this`buttons, this`events
      ensures acc' == TickStep(Cfg(), acc, b, now).(events := [])
      ensures buttons == acc'.buttons
      ensures events == old(events) + TickStep(Cfg(), acc, b, now).events
    {
      var data := GetButtonData(b);
      var timeSinceActuation := AsInt64(now) - AsInt64(data.timestampLastButtonDown);
      var timeToEvent := timeSinceActuation - multiPressThreshold;
      acc' := acc.(buttons := buttons);
      if timeToEvent >= 0 {
        events := events + [MultiTapEvent(b, data.tapCounter)];
        data := data.(tapCounter := 0);
        buttons := buttons[b := data];
        acc' := acc'.(buttons := buttons, removed := acc.removed + {b});
      } else {
        acc' := acc'.(minTimeToEvent := Max(acc.minTimeToEvent, timeToEvent));
      }
    }

    ghost function Fold(m: map<nat, ButtonData>, order: seq<nat>, now: U64): TickAcc {
      TickFold(Cfg(), StartAcc(m), order, now)
    }

    /** The window-expiry timer's callback. */
    method ProcessQueuedButtons(now: U64)
      modifies this
      ensures State() == Tick(Cfg(), old(State()), now)
    {
      var acc := ExpirePending(now);
      if acc.minTimeToEvent != INT64_MIN {
        dueTime := (-acc.minTimeToEvent) % TWO_TO_32;
        timerEnabled := true;
      }
      pending := pending - acc.removed;
    }

    /** The loop of the callback: every pending button, in ascending order,
        is checked for an elapsed window. */
    method ExpirePending(now: U64) returns (acc: TickAcc)
      modifies this`buttons, this`events
      ensures acc == Fold(old(buttons), Ascending(pending), now).(events := [])
      ensures buttons == acc.buttons
      ensures events == old(events) + Fold(old(buttons), Ascending(pending), now).events
    {
      var remaining := pending;
      acc := StartAcc(buttons);
      ghost var visited: seq<nat> := [];
      while remaining != {}
        invariant visited + Ascending(remaining) == Ascending(pending)
        invariant acc.events == []
        invariant acc == Fold(old(buttons), visited, now).(events := [])
        invariant buttons == acc.buttons
        invariant events == old(events) + Fold(old(buttons), visited, now).events
        decreases remaining
      {
        MinExists(remaining);
        var b :| b in remaining && forall x :: x in remaining ==> b <= x;
        AscendingStep(visited, remaining, b, Ascending(pending));
        acc := ExpireButton(b, now, acc);
        TickFoldSnoc(Cfg(), StartAcc(old(buttons)), visited, b, now);
        visited := visited + [b];
        remaining := remaining - {b};
      }
      assert Ascending(remaining) == [];
      assert visited + [] == visited;
    }
  }
}
