/** The earlier, repeat-free standard extension: Pressed and Released events
    with a press counter that grows while presses come less than 250 ms
    after the button's previous change. Unlike the current extension its
    window test has no guard for a button that never changed (time stamp
    zero), its per-button map is keyed by `uint16_t`, and the caller's
    `oldstate` argument is ignored. */
module LegacyStdExtension {
  import opened Common

  datatype EventType = Pressed | Released

  /** A raised event (its time stamp field is always zero and is omitted). */
  datatype ButtonEvent = ButtonEvent(button: nat, eventType: EventType, counter: U16)

  datatype ButtonData = ButtonData(timeStamp: U64, buttonState: ButtonState, pressCounter: U16)

  /** The value `GetButtonData` inserts for a key it has not seen. */
  const NewButtonData := ButtonData(0, Up, 0)

  /** The fixed multi-press window, in milliseconds. */
  const DOUBLE_PRESS_THRESHOLD: U16 := 250

  datatype LegacyState = LegacyState(buttons: map<U16, ButtonData>, events: seq<ButtonEvent>)

  const InitialState := LegacyState(map[], [])

  /** The map key of a button: the code converted to `uint16_t`. */
  function Key(button: nat): (k: U16)
    ensures button < TWO_TO_16 ==> k == button
  {
    Trunc16(button)
  }

  /** Codes that agree in their low 16 bits share one entry. */
  lemma KeyAliases(button: nat)
    ensures Key(button + TWO_TO_16) == Key(button)
  {
  }

  function DataOf(buttons: map<U16, ButtonData>, k: U16): ButtonData {
    if k in buttons then buttons[k] else NewButtonData
  }

  /** The map after `GetButtonData(k)`: an entry for `k` is created lazily. */
  function WithData(buttons: map<U16, ButtonData>, k: U16): (r: map<U16, ButtonData>)
    ensures r.Keys == buttons.Keys + {k}
    ensures forall x :: DataOf(r, x) == DataOf(buttons, x)
  {
    if k in buttons then buttons else buttons[k := NewButtonData]
  }

  /** The window test, on `uint64_t`: the previous change lies less than
      250 ms before `now`. With a time stamp of zero it holds for the first
      250 ms of the stopwatch. */
  function InWindow(d: ButtonData, now: U64): (r: bool)
    ensures d.timeStamp <= now ==> (r <==> now - d.timeStamp < DOUBLE_PRESS_THRESHOLD)
    ensures now < d.timeStamp ==> (r <==> now + TWO_TO_64 - d.timeStamp < DOUBLE_PRESS_THRESHOLD)
  {
    Sub64(now, d.timeStamp) < DOUBLE_PRESS_THRESHOLD
  }

  /** Effect of `SetButtonState(button, oldstate, newState)` at time `now`;
      `oldstate` plays no part. */
  ghost function Apply(s: LegacyState, button: nat, newState: ButtonState, now: U64): LegacyState {
    var k := Key(button);
    var buttons := WithData(s.buttons, k);
    var d := buttons[k];
    var inWindow := InWindow(d, now);
    if d.buttonState == newState then s.(buttons := buttons)
    else if newState == Down && d.buttonState == Up then
      var counter := if inWindow then Inc16(d.pressCounter) else 0;
      LegacyState(buttons[k := ButtonData(now, Down, counter)], s.events + [ButtonEvent(button, Pressed, counter)])
    else if newState == Up then
      var counter := if inWindow then d.pressCounter else 0;
      LegacyState(buttons[k := ButtonData(now, Up, counter)], s.events + [ButtonEvent(button, Released, d.pressCounter)])
    else s.(buttons := buttons[k := d.(timeStamp := now, buttonState := newState)])
  }

  // ---------------------------------------------------------------------
  // Properties of one transition

  /** A report of the state already held raises nothing and changes no data. */
  lemma SameStateChangesNothing(s: LegacyState, button: nat, newState: ButtonState, now: U64)
    requires DataOf(s.buttons, Key(button)).buttonState == newState
    ensures var s' := Apply(s, button, newState, now);
      s'.events == s.events && forall k :: DataOf(s'.buttons, k) == DataOf(s.buttons, k)
  {
  }

  /** A transition touches only the entry of its own key, and raises at most
      one event, about the button reported. Buttons whose codes agree in
      the low 16 bits share one entry. */
  lemma ApplyFrame(s: LegacyState, button: nat, newState: ButtonState, now: U64)
    ensures var s' := Apply(s, button, newState, now);
      && (forall k :: k != Key(button) ==> DataOf(s'.buttons, k) == DataOf(s.buttons, k))
      && s'.buttons.Keys == s.buttons.Keys + {Key(button)}
      && (|s'.events| == |s.events| || (|s'.events| == |s.events| + 1 && s'.events[|s.events|].button == button))
      && s'.events[..|s.events|] == s.events
  {
  }

  /** Every real change stamps the entry with `now` and stores the new state. */
  lemma ApplyStamps(s: LegacyState, button: nat, newState: ButtonState, now: U64)
    requires DataOf(s.buttons, Key(button)).buttonState != newState
    ensures var d' := Apply(s, button, newState, now).buttons[Key(button)];
      d'.timeStamp == now && d'.buttonState == newState
  {
  }

  /** Up to Down: the counter goes up by one (on `uint16_t`) inside the
      window and restarts at zero outside it; one Pressed event carries the
      new counter. */
  lemma PressEffect(s: LegacyState, button: nat, now: U64)
    requires DataOf(s.buttons, Key(button)).buttonState == Up
    ensures var d := DataOf(s.buttons, Key(button));
      var s' := Apply(s, button, Down, now);
      var counter := if InWindow(d, now) then Inc16(d.pressCounter) else 0;
      && s'.buttons[Key(button)].pressCounter == counter
      && s'.events == s.events + [ButtonEvent(button, Pressed, counter)]
  {
  }

  /** Any change to Up (from Down or from NotSet): one Released event
      carrying the counter as it was, which is then kept inside the window
      and cleared outside it. */
  lemma ReleaseEffect(s: LegacyState, button: nat, now: U64)
    requires DataOf(s.buttons, Key(button)).buttonState != Up
    ensures var d := DataOf(s.buttons, Key(button));
      var s' := Apply(s, button, Up, now);
      && s'.buttons[Key(button)].pressCounter == (if InWindow(d, now) then d.pressCounter else 0)
      && s'.events == s.events + [ButtonEvent(button, Released, d.pressCounter)]
  {
  }

  /** Down from NotSet, or any change to NotSet, only stamps the entry. */
  lemma OtherChangesOnlyStamp(s: LegacyState, button: nat, newState: ButtonState, now: U64)
    requires DataOf(s.buttons, Key(button)).buttonState != newState
    requires newState == NotSet || DataOf(s.buttons, Key(button)).buttonState == NotSet
    requires newState != Up
    ensures var s' := Apply(s, button, newState, now);
      && s'.events == s.events
      && s'.buttons[Key(button)] == DataOf(s.buttons, Key(button)).(timeStamp := now, buttonState := newState)
  {
  }

  /** The missing zero guard: the very first press of a button, within
      250 ms of the stopwatch's start, already counts as a multi-press and
      reports a counter of one. */
  lemma FirstPressNearStartCounts(s: LegacyState, button: nat, now: U64)
    requires Key(button) !in s.buttons
    requires now < DOUBLE_PRESS_THRESHOLD
    ensures Apply(s, button, Down, now).events == s.events + [ButtonEvent(button, Pressed, 1)]
  {
    PressEffect(s, button, now);
  }

  // ---------------------------------------------------------------------
  // Press counting over several presses

  /** Press and release `b` at the time pairs of `times`, in order. */
  ghost function Cycles(s: LegacyState, b: nat, times: seq<(U64, U64)>): LegacyState
    decreases |times|
  {
    if times == [] then s
    else Cycles(Apply(Apply(s, b, Down, times[0].0), b, Up, times[0].1), b, times[1..])
  }

  /** Each change follows the previous one (starting from `last`) by less
      than 250 ms. */
  ghost predicate ChainedWithin(last: U64, times: seq<(U64, U64)>)
    decreases |times|
  {
    times == [] ||
    (&& last <= times[0].0 && times[0].0 - last < DOUBLE_PRESS_THRESHOLD
     && times[0].0 <= times[0].1 && times[0].1 - times[0].0 < DOUBLE_PRESS_THRESHOLD
     && ChainedWithin(times[0].1, times[1..]))
  }

  /** The events of `n` press/release cycles of `b` counted from `c`. */
  ghost function CycleEvents(b: nat, c: nat, n: nat): seq<ButtonEvent>
    requires c + n < TWO_TO_16
    decreases n
  {
    if n == 0 then []
    else [ButtonEvent(b, Pressed, c + 1), ButtonEvent(b, Released, c + 1)] + CycleEvents(b, c + 1, n - 1)
  }

  /** Presses that each follow the previous change by less than 250 ms
      count up by one per press, and every event reports the running count. */
  lemma {:induction false} PressCountingInsideWindow(s: LegacyState, b: nat, times: seq<(U64, U64)>)
    requires DataOf(s.buttons, Key(b)).buttonState == Up
    requires ChainedWithin(DataOf(s.buttons, Key(b)).timeStamp, times)
    requires DataOf(s.buttons, Key(b)).pressCounter + |times| < TWO_TO_16
    ensures var s' := Cycles(s, b, times);
      && DataOf(s'.buttons, Key(b)).pressCounter == DataOf(s.buttons, Key(b)).pressCounter + |times|
      && s'.events == s.events + CycleEvents(b, DataOf(s.buttons, Key(b)).pressCounter, |times|)
    decreases |times|
  {
    if times != [] {
      var d := DataOf(s.buttons, Key(b));
      var s1 := Apply(s, b, Down, times[0].0);
      PressEffect(s, b, times[0].0);
      assert s1.buttons[Key(b)] == ButtonData(times[0].0, Down, d.pressCounter + 1);
      var s2 := Apply(s1, b, Up, times[0].1);
      assert Cycles(s, b, times) == Cycles(s2, b, times[1..]);
      ReleaseEffect(s1, b, times[0].1);
      assert DataOf(s2.buttons, Key(b)) == ButtonData(times[0].1, Up, d.pressCounter + 1);
      PressCountingInsideWindow(s2, b, times[1..]);
      assert s2.events == s.events + [ButtonEvent(b, Pressed, d.pressCounter + 1), ButtonEvent(b, Released, d.pressCounter + 1)];
    }
  }

  /** A press 250 ms or more after the previous change of its entry starts
      counting afresh. */
  lemma PressOutsideWindowResets(s: LegacyState, b: nat, now: U64)
    requires DataOf(s.buttons, Key(b)).buttonState == Up
    requires DataOf(s.buttons, Key(b)).timeStamp <= now
    requires now - DataOf(s.buttons, Key(b)).timeStamp >= DOUBLE_PRESS_THRESHOLD
    ensures var s' := Apply(s, b, Down, now);
      s'.buttons[Key(b)].pressCounter == 0 && s'.events[|s'.events| - 1].counter == 0
  {
  }

  class LegacyButtonStdExtension {
    var buttons: map<U16, ButtonData>
    var events: seq<ButtonEvent>

    function State(): LegacyState
      reads this
    {
      LegacyState(buttons, events)
    }

    constructor ()
      ensures State() == InitialState
    {
      buttons := map[];
      events := [];
    }

    /** The data of `button`'s key, created as `{0, Up, 0}` on first use. */
    method GetButtonData(button: nat) returns (d: ButtonData)
      modifies this`buttons
      ensures buttons == WithData(old(buttons), Key(button))
      ensures d == DataOf(old(buttons), Key(button))
    {
      var k := Key(button);
      if k !in buttons {
        buttons := buttons[k := NewButtonData];
      }
      d := buttons[k];
    }

    method SetButtonState(button: nat, oldstate: ButtonState, newState: ButtonState, now: U64)
      modifies this
      ensures State() == Apply(old(State()), button, newState, now)
    {
      var data := GetButtonData(button);
      var multiPressThreshold := Sub64(now, data.timeStamp) < DOUBLE_PRESS_THRESHOLD;
      if data.buttonState != newState {
        if newState == Down {
          if data.buttonState == Up {
            if multiPressThreshold {
              data := data.(pressCounter := Inc16(data.pressCounter));
            } else {
              data := data.(pressCounter := 0);
            }
            events := events + [ButtonEvent(button, Pressed, data.pressCounter)];
          }
        }
        if newState == Up {
          events := events + [ButtonEvent(button, Released, data.pressCounter)];
          if !multiPressThreshold {
            data := data.(pressCounter := 0);
          }
        }
        data := data.(timeStamp := now, buttonState := newState);
        buttons := buttons[Key(button) := data];
      }
    }
  }
}
