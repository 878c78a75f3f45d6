/** The standard button extension: turns raw down/up transitions of one
    device's buttons into Pressed/Released events, counts presses that follow
    each other inside the multi-press window, and, while a button is held,
    raises synthetic Pressed events from a repeat timer.

    The stopwatch reading is the explicit argument `now`, the timer callback is
    the method `ProcessQueuedButtons(now)`, and every raised event is appended
    to the field `events`. */
module StdExtension {
  import opened Common
  import opened SetOrder

  datatype EventType = Pressed | Released

  /** A raised event (the parent pointer and the always-zero time stamp of
      the C++ struct are not modelled). */
  datatype ButtonEvent = ButtonEvent(
    button: nat,
    eventType: EventType,
    counter: U16,        // press count inside the multi-press window
    repeatCount: U16,    // synthetic presses raised while held
    actuationTime: U16)  // milliseconds held, for synthetic presses

  /** What the extension remembers of one button. */
  datatype ButtonData = ButtonData(
    timeStamp: U64,            // time of the last observed change
    buttonState: ButtonState,
    pressCounter: U16,
    actuationTimeStamp: U64,   // time of the press, while repeat is tracked
    repeatTimeStamp: U64,      // time of the last synthetic press
    repeatCount: U16)

  /** The value `GetButtonData` inserts for a button it has not seen. */
  const NewButtonData := ButtonData(0, Up, 0, 0, 0, 0)

  /** Construction parameters; `repeatRate == 0` disables repeat. */
  datatype Config = Config(id: U8, multiPressRate: U16, repeatRate: U16)

  /** The whole mutable state of one extension. */
  datatype ExtState = ExtState(
    buttons: map<nat, ButtonData>,
    pressed: set<nat>,      // buttons the repeat timer serves
    timerEnabled: bool,     // whether the repeat timer is armed
    events: seq<ButtonEvent>)

  const InitialState := ExtState(map[], {}, false, [])

  /** The data of `b` as `GetButtonData` would return it. */
  function DataOf(buttons: map<nat, ButtonData>, b: nat): ButtonData {
    if b in buttons then buttons[b] else NewButtonData
  }

  /** The map after `GetButtonData(b)`: an entry for `b` is created lazily. */
  function WithData(buttons: map<nat, ButtonData>, b: nat): (r: map<nat, ButtonData>)
    ensures r.Keys == buttons.Keys + {b}
    ensures forall x :: DataOf(r, x) == DataOf(buttons, x)
  {
    if b in buttons then buttons else buttons[b := NewButtonData]
  }

  /** Whether a change at `now` follows the last one inside the multi-press
      window; a time stamp of zero means "never changed". */
  function InMultiPressWindow(d: ButtonData, now: U64, rate: U16): (r: bool)
    ensures d.timeStamp <= now ==> (r <==> d.timeStamp != 0 && now - d.timeStamp < rate)
  {
    d.timeStamp != 0 && Sub64(now, d.timeStamp) < rate
  }

  /** Effect of `SetButtonState(button, newState)` at time `now`. */
  ghost function Apply(cfg: Config, s: ExtState, button: nat, newState: ButtonState, now: U64): ExtState {
    var buttons := WithData(s.buttons, button);
    var d := buttons[button];
    if d.buttonState == newState then s.(buttons := buttons)
    else match newState
      case Down =>
        if d.buttonState == Up then Press(cfg, s.(buttons := buttons), button, d, now)
        else s.(buttons := buttons[button := d.(timeStamp := now, buttonState := Down)])
      case Up => Release(cfg, s.(buttons := buttons), button, d, now)
      case NotSet => s.(buttons := buttons[button := d.(timeStamp := now, buttonState := NotSet)])
  }

  /** An Up to Down change of `button`, whose data was `d`. */
  ghost function Press(cfg: Config, s: ExtState, button: nat, d: ButtonData, now: U64): ExtState {
    var counter := if InMultiPressWindow(d, now, cfg.multiPressRate) then Inc16(d.pressCounter) else 0;
    var repeat := cfg.repeatRate > 0;
    var d' := d.(timeStamp := now, buttonState := Down, pressCounter := counter,
                 actuationTimeStamp := if repeat then now else d.actuationTimeStamp,
                 repeatTimeStamp := if repeat then now else d.repeatTimeStamp);
    ExtState(s.buttons[button := d'],
             if repeat then s.pressed + {button} else s.pressed,
             s.timerEnabled || repeat,
             s.events + [ButtonEvent(button, Pressed, counter, d.repeatCount, 0)])
  }

  /** A change of `button` to Up, whose data was `d`. */
  ghost function Release(cfg: Config, s: ExtState, button: nat, d: ButtonData, now: U64): ExtState {
    var repeat := cfg.repeatRate > 0;
    var pressed := if repeat then s.pressed - {button} else s.pressed;
    var repeatCount := if repeat then 0 else d.repeatCount;
    var d' := d.(timeStamp := now, buttonState := Up,
                 pressCounter := if InMultiPressWindow(d, now, cfg.multiPressRate) then d.pressCounter else 0,
                 actuationTimeStamp := if repeat then 0 else d.actuationTimeStamp,
                 repeatTimeStamp := if repeat then 0 else d.repeatTimeStamp,
                 repeatCount := repeatCount);
    ExtState(s.buttons[button := d'],
             pressed,
             if repeat && pressed == {} then false else s.timerEnabled,
             s.events + [ButtonEvent(button, Released, d.pressCounter, repeatCount, 0)])
  }

  /** Whether the repeat timer owes `d`'s button a synthetic press at `now`. */
  function RepeatDue(cfg: Config, d: ButtonData, now: U64): (r: bool)
    ensures d.repeatTimeStamp <= now ==> (r <==> now - d.repeatTimeStamp > cfg.repeatRate)
  {
    Sub64(now, d.repeatTimeStamp) > cfg.repeatRate
  }

  function Repeated(d: ButtonData, now: U64): ButtonData {
    d.(repeatCount := Inc16(d.repeatCount), repeatTimeStamp := now)
  }

  function RepeatEvent(b: nat, d: ButtonData, now: U64): ButtonEvent {
    ButtonEvent(b, Pressed, d.pressCounter, Inc16(d.repeatCount), Trunc16(Sub64(now, d.actuationTimeStamp)))
  }

  /** One iteration of the repeat tick, for button `b`. */
  ghost function TickOne(cfg: Config, buttons: map<nat, ButtonData>, b: nat, now: U64)
    : (map<nat, ButtonData>, seq<ButtonEvent>)
  {
    var m := WithData(buttons, b);
    if RepeatDue(cfg, m[b], now) then (m[b := Repeated(m[b], now)], [RepeatEvent(b, m[b], now)])
    else (m, [])
  }

  /** The repeat tick over the buttons of `order`, first to last. */
  ghost function TickFold(cfg: Config, buttons: map<nat, ButtonData>, order: seq<nat>, now: U64)
    : (map<nat, ButtonData>, seq<ButtonEvent>)
    decreases |order|
  {
    if order == [] then (buttons, [])
    else
      var (m, e) := TickFold(cfg, buttons, order[..|order| - 1], now);
      var (m', e') := TickOne(cfg, m, order[|order| - 1], now);
      (m', e + e')
  }

  lemma TickFoldSnoc(cfg: Config, buttons: map<nat, ButtonData>, order: seq<nat>, b: nat, now: U64)
    ensures TickFold(cfg, buttons, order + [b], now)
         == (TickOne(cfg, TickFold(cfg, buttons, order, now).0, b, now).0,
             TickFold(cfg, buttons, order, now).1 + TickOne(cfg, TickFold(cfg, buttons, order, now).0, b, now).1)
  {
    assert (order + [b])[..|order|] == order;
  }

  /** Effect of `ProcessQueuedButtons()` at time `now`: the pressed set is
      visited in ascending order. */
  ghost function Tick(cfg: Config, s: ExtState, now: U64): ExtState {
    var (m, e) := TickFold(cfg, s.buttons, Ascending(s.pressed), now);
    s.(buttons := m, events := s.events + e)
  }

  // ---------------------------------------------------------------------
  // Properties of one transition

  /** Reporting the same state twice has the effect of reporting it once. */
  lemma ApplyIdempotent(cfg: Config, s: ExtState, button: nat, newState: ButtonState, now: U64)
    ensures Apply(cfg, Apply(cfg, s, button, newState, now), button, newState, now)
         == Apply(cfg, s, button, newState, now)
  {
    var s1 := Apply(cfg, s, button, newState, now);
    assert button in s1.buttons && s1.buttons[button].buttonState == newState;
    assert WithData(s1.buttons, button) == s1.buttons;
  }

  /** A report of the state the extension already holds raises nothing and
      changes no button's data, the pressed set or the timer. */
  lemma SameStateChangesNothing(cfg: Config, s: ExtState, button: nat, newState: ButtonState, now: U64)
    requires DataOf(s.buttons, button).buttonState == newState
    ensures var s' := Apply(cfg, s, button, newState, now);
      && s'.events == s.events && s'.pressed == s.pressed && s'.timerEnabled == s.timerEnabled
      && forall x :: DataOf(s'.buttons, x) == DataOf(s.buttons, x)
  {
  }

  /** A transition of `button` leaves every other button's data and
      membership of the pressed set alone, and raises at most one event, about
      `button`. */
  lemma ApplyFrame(cfg: Config, s: ExtState, button: nat, newState: ButtonState, now: U64)
    ensures var s' := Apply(cfg, s, button, newState, now);
      && (forall x :: x != button ==> DataOf(s'.buttons, x) == DataOf(s.buttons, x))
      && s'.pressed - {button} == s.pressed - {button}
      && s'.buttons.Keys == s.buttons.Keys + {button}
      && (|s'.events| == |s.events| || (|s'.events| == |s.events| + 1 && s'.events[|s.events|].button == button))
      && s'.events[..|s.events|] == s.events
  {
  }

  /** Every real change stamps the button with `now` and stores the new state. */
  lemma ApplyStamps(cfg: Config, s: ExtState, button: nat, newState: ButtonState, now: U64)
    requires DataOf(s.buttons, button).buttonState != newState
    ensures var d' := Apply(cfg, s, button, newState, now).buttons[button];
      d'.timeStamp == now && d'.buttonState == newState
  {
  }

  /** Up to Down: one Pressed event, whose counter is the previous counter
      plus one inside the multi-press window and zero outside it; with repeat
      enabled the button joins the pressed set and its actuation and repeat
      time stamps become `now`, otherwise both stay as they were. */
  lemma PressEffect(cfg: Config, s: ExtState, button: nat, now: U64)
    requires DataOf(s.buttons, button).buttonState == Up
    ensures var d := DataOf(s.buttons, button);
      var s' := Apply(cfg, s, button, Down, now);
      var d' := s'.buttons[button];
      var counter := if InMultiPressWindow(d, now, cfg.multiPressRate) then Inc16(d.pressCounter) else 0;
      && s'.events == s.events + [ButtonEvent(button, Pressed, counter, d.repeatCount, 0)]
      && d'.pressCounter == counter
      && (cfg.repeatRate > 0 ==>
            button in s'.pressed && s'.timerEnabled && d'.actuationTimeStamp == now && d'.repeatTimeStamp == now)
      && (cfg.repeatRate == 0 ==>
            && s'.pressed == s.pressed && s'.timerEnabled == s.timerEnabled
            && d'.actuationTimeStamp == d.actuationTimeStamp && d'.repeatTimeStamp == d.repeatTimeStamp)
  {
  }

  /** Down to Up: one Released event carrying the counter as it was; with
      repeat enabled the button leaves the pressed set and its repeat state is
      cleared first, so the event reports a repeat count of zero; the counter
      is then kept inside the multi-press window and cleared outside it. */
  lemma ReleaseEffect(cfg: Config, s: ExtState, button: nat, now: U64)
    requires DataOf(s.buttons, button).buttonState == Down
    ensures var d := DataOf(s.buttons, button);
      var s' := Apply(cfg, s, button, Up, now);
      var d' := s'.buttons[button];
      var repeatCount := if cfg.repeatRate > 0 then 0 else d.repeatCount;
      && s'.events == s.events + [ButtonEvent(button, Released, d.pressCounter, repeatCount, 0)]
      && d'.pressCounter == (if InMultiPressWindow(d, now, cfg.multiPressRate) then d.pressCounter else 0)
      && (cfg.repeatRate > 0 ==>
            && button !in s'.pressed && d'.actuationTimeStamp == 0 && d'.repeatTimeStamp == 0 && d'.repeatCount == 0
            && (s'.timerEnabled ==> s'.pressed != {}))
      && (cfg.repeatRate == 0 ==>
            && s'.pressed == s.pressed && s'.timerEnabled == s.timerEnabled
            && d' == d.(timeStamp := now, buttonState := Up, pressCounter := d'.pressCounter))
  {
  }

  // ---------------------------------------------------------------------
  // The invariant kept between calls

  /** What holds between calls when the extension only ever sees Up and Down
      (which is all a button table forwards): the pressed set is exactly the
      held buttons when repeat is enabled and empty otherwise, the timer runs
      exactly while the set is non-empty, and a released button has no
      repeat count. */
  ghost predicate Consistent(cfg: Config, s: ExtState) {
    && s.pressed <= s.buttons.Keys
    && (forall b :: b in s.buttons ==> s.buttons[b].buttonState != NotSet)
    && (forall b :: b in s.buttons ==> (b in s.pressed <==> cfg.repeatRate > 0 && s.buttons[b].buttonState == Down))
    && (forall b :: b in s.buttons && (s.buttons[b].buttonState == Up || cfg.repeatRate == 0) ==> s.buttons[b].repeatCount == 0)
    && (s.timerEnabled <==> s.pressed != {})
  }

  lemma InitialConsistent(cfg: Config)
    ensures Consistent(cfg, InitialState)
  {
  }

  lemma ApplyPreservesConsistent(cfg: Config, s: ExtState, button: nat, newState: ButtonState, now: U64)
    requires Consistent(cfg, s)
    requires newState != NotSet
    ensures Consistent(cfg, Apply(cfg, s, button, newState, now))
  {
    var s' := Apply(cfg, s, button, newState, now);
    forall b | b in s'.buttons
      ensures b in s'.pressed <==> cfg.repeatRate > 0 && s'.buttons[b].buttonState == Down
    {
      if b != button {
        assert b in s.buttons && s'.buttons[b] == s.buttons[b];
      }
    }
  }

  /** Under the invariant every event a transition raises reports a repeat
      count of zero: a release clears it first, and a press follows a release. */
  lemma TransitionEventsRepeatFree(cfg: Config, s: ExtState, button: nat, newState: ButtonState, now: U64)
    requires Consistent(cfg, s)
    requires newState != NotSet
    ensures var s' := Apply(cfg, s, button, newState, now);
      forall i :: |s.events| <= i < |s'.events| ==> s'.events[i].repeatCount == 0
  {
  }

  // ---------------------------------------------------------------------
  // The repeat tick

  predicate Distinct(order: seq<nat>) {
    forall i, j :: 0 <= i < j < |order| ==> order[i] != order[j]
  }

  /** Visiting distinct buttons: each visited button whose repeat is due
      gets one more repeat and a new repeat time stamp; no other data changes. */
  lemma {:induction false} TickFoldAt(cfg: Config, m: map<nat, ButtonData>, order: seq<nat>, now: U64)
    requires Distinct(order)
    ensures TickFold(cfg, m, order, now).0.Keys == m.Keys + set x | x in order
    ensures forall x :: DataOf(TickFold(cfg, m, order, now).0, x)
                     == if x in order && RepeatDue(cfg, DataOf(m, x), now) then Repeated(DataOf(m, x), now)
                        else DataOf(m, x)
    decreases |order|
  {
    if order != [] {
      var pre, last := order[..|order| - 1], order[|order| - 1];
      assert order == pre + [last];
      TickFoldAt(cfg, m, pre, now);
      assert last !in pre;
    }
  }

  /** The events raised by a tick over `order`. */
  ghost function TickEvents(cfg: Config, m: map<nat, ButtonData>, order: seq<nat>, now: U64): seq<ButtonEvent> {
    TickFold(cfg, m, order, now).1
  }

  /** Each event of a tick over distinct buttons is the synthetic press of a
      visited button whose repeat was due, computed from its data before the
      tick. */
  lemma {:induction false} TickFoldEventsSound(cfg: Config, m: map<nat, ButtonData>, order: seq<nat>, now: U64)
    requires Distinct(order)
    ensures forall i :: 0 <= i < |TickEvents(cfg, m, order, now)| ==>
      && TickEvents(cfg, m, order, now)[i].button in order
      && RepeatDue(cfg, DataOf(m, TickEvents(cfg, m, order, now)[i].button), now)
      && TickEvents(cfg, m, order, now)[i]
         == RepeatEvent(TickEvents(cfg, m, order, now)[i].button, DataOf(m, TickEvents(cfg, m, order, now)[i].button), now)
    decreases |order|
  {
    if order != [] {
      var pre, last := order[..|order| - 1], order[|order| - 1];
      assert order == pre + [last];
      TickFoldEventsSound(cfg, m, pre, now);
      TickFoldAt(cfg, m, pre, now);
      assert last !in pre;
      var m1 := TickFold(cfg, m, pre, now).0;
      assert DataOf(m1, last) == DataOf(m, last);
      var t := TickOne(cfg, m1, last, now).1;
      assert TickEvents(cfg, m, order, now) == TickEvents(cfg, m, pre, now) + t;
      assert t == if RepeatDue(cfg, DataOf(m, last), now) then [RepeatEvent(last, DataOf(m, last), now)] else [];
    }
  }

  /** Every visited button whose repeat is due raises an event in the tick. */
  lemma {:induction false} TickFoldEventsComplete(cfg: Config, m: map<nat, ButtonData>, order: seq<nat>, now: U64)
    requires Distinct(order)
    ensures forall x :: x in order && RepeatDue(cfg, DataOf(m, x), now) ==>
      exists i :: 0 <= i < |TickEvents(cfg, m, order, now)| && TickEvents(cfg, m, order, now)[i].button == x
    decreases |order|
  {
    if order != [] {
      var pre, last := order[..|order| - 1], order[|order| - 1];
      assert order == pre + [last];
      TickFoldEventsComplete(cfg, m, pre, now);
      TickFoldAt(cfg, m, pre, now);
      assert last !in pre;
      var e1 := TickEvents(cfg, m, pre, now);
      var e := TickEvents(cfg, m, order, now);
      var t := TickOne(cfg, TickFold(cfg, m, pre, now).0, last, now).1;
      assert e == e1 + t;
      assert DataOf(TickFold(cfg, m, pre, now).0, last) == DataOf(m, last);
      forall x | x in order && RepeatDue(cfg, DataOf(m, x), now)
        ensures exists i :: 0 <= i < |e| && e[i].button == x
      {
        if x == last {
          assert |t| == 1 && t[0].button == x;
          assert e[|e| - 1].button == x;
        } else {
          assert x in pre;
          var i :| 0 <= i < |e1| && e1[i].button == x;
          assert e[i] == e1[i];
        }
      }
    }
  }

  /** A tick over strictly increasing buttons raises its events in strictly
      increasing button order. */
  lemma {:induction false} TickFoldEventsOrdered(cfg: Config, m: map<nat, ButtonData>, order: seq<nat>, now: U64)
    requires StrictlyIncreasing(order)
    ensures forall i :: 0 <= i < |TickEvents(cfg, m, order, now)| ==> TickEvents(cfg, m, order, now)[i].button in order
    ensures forall i, j :: 0 <= i < j < |TickEvents(cfg, m, order, now)| ==>
      TickEvents(cfg, m, order, now)[i].button < TickEvents(cfg, m, order, now)[j].button
    decreases |order|
  {
    if order != [] {
      var pre, last := order[..|order| - 1], order[|order| - 1];
      assert order == pre + [last];
      assert StrictlyIncreasing(pre);
      TickFoldEventsOrdered(cfg, m, pre, now);
      var e1 := TickEvents(cfg, m, pre, now);
      var t := TickOne(cfg, TickFold(cfg, m, pre, now).0, last, now).1;
      var e := TickEvents(cfg, m, order, now);
      assert e == e1 + t;
      assert forall i :: 0 <= i < |t| ==> t[i].button == last;
      forall i | 0 <= i < |e1|
        ensures e1[i].button < last
      {
        var k :| 0 <= k < |pre| && pre[k] == e1[i].button;
        assert order[k] == pre[k];
      }
    }
  }

  /** The repeat tick: every pressed button whose last repeat lies more than
      `repeatRate` before `now` (strictly) gets one more repeat and is stamped
      with `now`, and raises one synthetic Pressed event carrying the new
      repeat count and the time held truncated to 16 bits; all other data, the
      pressed set and the timer stay as they were; events come in ascending
      button order. */
  lemma TickEffect(cfg: Config, s: ExtState, now: U64)
    ensures Tick(cfg, s, now).pressed == s.pressed && Tick(cfg, s, now).timerEnabled == s.timerEnabled
    ensures Tick(cfg, s, now).events == s.events + TickEvents(cfg, s.buttons, Ascending(s.pressed), now)
    ensures forall x ::
      DataOf(Tick(cfg, s, now).buttons, x) ==
      (if x in s.pressed && RepeatDue(cfg, DataOf(s.buttons, x), now) then Repeated(DataOf(s.buttons, x), now)
       else DataOf(s.buttons, x))
    ensures var e := TickEvents(cfg, s.buttons, Ascending(s.pressed), now);
      && (forall i :: 0 <= i < |e| ==> e[i].button in s.pressed && RepeatDue(cfg, DataOf(s.buttons, e[i].button), now)
                                       && e[i] == RepeatEvent(e[i].button, DataOf(s.buttons, e[i].button), now))
      && (forall x :: x in s.pressed && RepeatDue(cfg, DataOf(s.buttons, x), now) ==>
            exists i :: 0 <= i < |e| && e[i].button == x)
      && (forall i, j :: 0 <= i < j < |e| ==> e[i].button < e[j].button)
  {
    var order := Ascending(s.pressed);
    AscendingSpec(s.pressed);
    TickFoldAt(cfg, s.buttons, order, now);
    TickFoldEventsSound(cfg, s.buttons, order, now);
    TickFoldEventsComplete(cfg, s.buttons, order, now);
    TickFoldEventsOrdered(cfg, s.buttons, order, now);
  }

  lemma TickPreservesConsistent(cfg: Config, s: ExtState, now: U64)
    requires Consistent(cfg, s)
    ensures Consistent(cfg, Tick(cfg, s, now))
  {
    var order := Ascending(s.pressed);
    AscendingSpec(s.pressed);
    TickFoldAt(cfg, s.buttons, order, now);
    var s' := Tick(cfg, s, now);
    assert s'.buttons.Keys == s.buttons.Keys;
    forall b | b in s'.buttons
      ensures s'.buttons[b] == if b in s.pressed && RepeatDue(cfg, s.buttons[b], now) then Repeated(s.buttons[b], now)
                               else s.buttons[b]
    {
      assert DataOf(s'.buttons, b) == s'.buttons[b];
    }
  }

  // ---------------------------------------------------------------------
  // Press counting over several presses

  /** Press and release `b` at the time pairs of `times`, in order. */
  ghost function Cycles(cfg: Config, s: ExtState, b: nat, times: seq<(U64, U64)>): ExtState
    decreases |times|
  {
    if times == [] then s
    else Cycles(cfg, Apply(cfg, Apply(cfg, s, b, Down, times[0].0), b, Up, times[0].1), b, times[1..])
  }

  /** Each change follows the previous one (starting from `last`) by less
      than `rate` milliseconds, and none happens at time zero. */
  ghost predicate ChainedWithin(last: U64, times: seq<(U64, U64)>, rate: U16)
    decreases |times|
  {
    times == [] ||
    (&& last != 0 && last <= times[0].0 && times[0].0 - last < rate
     && times[0].0 != 0 && times[0].0 <= times[0].1 && times[0].1 - times[0].0 < rate
     && ChainedWithin(times[0].1, times[1..], rate))
  }

  /** The events of `n` press/release cycles counted from `c`. */
  ghost function CycleEvents(b: nat, c: nat, n: nat): seq<ButtonEvent>
    requires c + n < TWO_TO_16
    decreases n
  {
    if n == 0 then []
    else [ButtonEvent(b, Pressed, c + 1, 0, 0), ButtonEvent(b, Released, c + 1, 0, 0)] + CycleEvents(b, c + 1, n - 1)
  }

  /** One press and release of `b`, each inside the multi-press window:
      the count goes up by one and both events report it. */
  lemma OneCycle(cfg: Config, s: ExtState, b: nat, t0: U64, t1: U64)
    requires DataOf(s.buttons, b).buttonState == Up && DataOf(s.buttons, b).repeatCount == 0
    requires ChainedWithin(DataOf(s.buttons, b).timeStamp, [(t0, t1)], cfg.multiPressRate)
    requires DataOf(s.buttons, b).pressCounter + 1 < TWO_TO_16
    ensures var c := DataOf(s.buttons, b).pressCounter;
      var s' := Apply(cfg, Apply(cfg, s, b, Down, t0), b, Up, t1);
      && DataOf(s'.buttons, b).buttonState == Up && DataOf(s'.buttons, b).repeatCount == 0
      && DataOf(s'.buttons, b).timeStamp == t1 && DataOf(s'.buttons, b).pressCounter == c + 1
      && s'.events == s.events + [ButtonEvent(b, Pressed, c + 1, 0, 0), ButtonEvent(b, Released, c + 1, 0, 0)]
  {
    var d := DataOf(s.buttons, b);
    var s1 := Apply(cfg, s, b, Down, t0);
    PressEffect(cfg, s, b, t0);
    assert s1.buttons[b].pressCounter == d.pressCounter + 1;
    ReleaseEffect(cfg, s1, b, t1);
  }

  /** Presses that each follow the previous change inside the multi-press
      window count up by one per press, and every Pressed and Released event
      reports the running count. */
  lemma {:induction false} PressCountingInsideWindow(cfg: Config, s: ExtState, b: nat, times: seq<(U64, U64)>)
    requires DataOf(s.buttons, b).buttonState == Up && DataOf(s.buttons, b).repeatCount == 0
    requires ChainedWithin(DataOf(s.buttons, b).timeStamp, times, cfg.multiPressRate)
    requires DataOf(s.buttons, b).pressCounter + |times| < TWO_TO_16
    ensures var s' := Cycles(cfg, s, b, times);
      && DataOf(s'.buttons, b).pressCounter == DataOf(s.buttons, b).pressCounter + |times|
      && s'.events == s.events + CycleEvents(b, DataOf(s.buttons, b).pressCounter, |times|)
    decreases |times|
  {
    if times != [] {
      var c := DataOf(s.buttons, b).pressCounter;
      var s2 := Apply(cfg, Apply(cfg, s, b, Down, times[0].0), b, Up, times[0].1);
      assert ChainedWithin(DataOf(s.buttons, b).timeStamp, [times[0]], cfg.multiPressRate);
      OneCycle(cfg, s, b, times[0].0, times[0].1);
      PressCountingInsideWindow(cfg, s2, b, times[1..]);
      assert Cycles(cfg, s, b, times) == Cycles(cfg, s2, b, times[1..]);
    }
  }

  /** A press that comes `multiPressRate` or more after the button's last
      change (or on a button that never changed) starts counting afresh. */
  lemma PressOutsideWindowResets(cfg: Config, s: ExtState, b: nat, now: U64)
    requires DataOf(s.buttons, b).buttonState == Up
    requires DataOf(s.buttons, b).timeStamp <= now
    requires DataOf(s.buttons, b).timeStamp == 0 || now - DataOf(s.buttons, b).timeStamp >= cfg.multiPressRate
    ensures var s' := Apply(cfg, s, b, Down, now);
      s'.buttons[b].pressCounter == 0 && s'.events[|s'.events| - 1].counter == 0
  {
  }

  class ButtonStdExtension {
    const id: U8
    const multiPressRate: U16
    const repeatRate: U16

    var buttons: map<nat, ButtonData>
    var pressed: set<nat>
    var timerEnabled: bool
    var events: seq<ButtonEvent>

    function Cfg(): Config {
      Config(id, multiPressRate, repeatRate)
    }

    function State(): ExtState
      reads this
    {
      ExtState(buttons, pressed, timerEnabled, events)
    }

    constructor (id: U8, multipressRate: U16, repeatRate: U16)
      ensures Cfg() == Config(id, multipressRate, repeatRate)
      ensures State() == InitialState
    {
      this.id := id;
      this.multiPressRate := multipressRate;
      this.repeatRate := repeatRate;
      buttons := map[];
      pressed := {};
      timerEnabled := false;
      events := [];
    }

    /** The data of `b`, created with all fields zero and state Up on first use. */
    method GetButtonData(b: nat) returns (d: ButtonData)
      modifies this`buttons
      ensures buttons == WithData(old(buttons), b)
      ensures d == DataOf(old(buttons), b)
    {
      if b !in buttons {
        buttons := buttons[b := NewButtonData];
      }
      d := buttons[b];
    }

    method SetButtonState(button: nat, newState: ButtonState, now: U64)
      modifies this
      ensures State() == Apply(Cfg(), old(State()), button, newState, now)
      ensures |events| <= |old(events)| + 1
    {
      var data := GetButtonData(button);
      var multiPress := data.timeStamp != 0 && Sub64(now, data.timeStamp) < multiPressRate;
      if data.buttonState != newState {
        if newState == Down {
          if data.buttonState == Up {
            if multiPress {
              data := data.(pressCounter := Inc16(data.pressCounter));
            } else {
              data := data.(pressCounter := 0);
            }
            if repeatRate > 0 {
              pressed := pressed + {button};
              data := data.(actuationTimeStamp := now, repeatTimeStamp := now);
              timerEnabled := true;
            }
            events := events + [ButtonEvent(button, Pressed, data.pressCounter, data.repeatCount, 0)];
          }
        }
        if newState == Up {
          if repeatRate > 0 {
            pressed := pressed - {button};
            if pressed == {} {
              timerEnabled := false;
            }
            data := data.(actuationTimeStamp := 0, repeatTimeStamp := 0, repeatCount := 0);
          }
          events := events + [ButtonEvent(button, Released, data.pressCounter, data.repeatCount, 0)];
          if !multiPress {
            data := data.(pressCounter := 0);
          }
        }
        data := data.(timeStamp := now, buttonState := newState);
        buttons := buttons[button := data];
      }
    }

    /** One iteration of the repeat timer's loop, for button `b`. */
    method RepeatButton(b: nat, now: U64)
      modifies this`buttons, this`events
      ensures buttons == TickOne(Cfg(), old(buttons), b, now).0
      ensures events == old(events) + TickOne(Cfg(), old(buttons), b, now).1
    {
      var data := GetButtonData(b);
      if Sub64(now, data.repeatTimeStamp) > repeatRate {
        data := data.(repeatCount := Inc16(data.repeatCount));
        events := events + [ButtonEvent(b, Pressed, data.pressCounter, data.repeatCount,
                                        Trunc16(Sub64(now, data.actuationTimeStamp)))];
        data := data.(repeatTimeStamp := now);
        buttons := buttons[b := data];
      }
    }

    /** The repeat timer's callback. */
    method ProcessQueuedButtons(now: U64)
      modifies this`buttons, this`events
      ensures State() == Tick(Cfg(), old(State()), now)
    {
      var remaining := pressed;
      ghost var visited: seq<nat> := [];
      while remaining != {}
        invariant visited + Ascending(remaining) == Ascending(pressed)
        invariant buttons == TickFold(Cfg(), old(buttons), visited, now).0
        invariant events == old(events) + TickFold(Cfg(), old(buttons), visited, now).1
        decreases remaining
      {
        MinExists(remaining);
        var b :| b in remaining && forall x :: x in remaining ==> b <= x;
        AscendingStep(visited, remaining, b, Ascending(pressed));
        RepeatButton(b, now);
        TickFoldSnoc(Cfg(), old(buttons), visited, b, now);
        visited := visited + [b];
        remaining := remaining - {b};
      }
      assert Ascending(remaining) == [];
      assert visited + [] == visited;
    }
  }
}
