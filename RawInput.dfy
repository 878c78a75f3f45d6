/** Decoding of raw input reports into the library's input events: mouse
    reports (button transitions and the wheel), keyboard reports (a key
    event) and the values of a game-pad report (buttons and axes), and the
    dispatch on the report type.

    The operating-system calls that fetch a report and parse HID data are
    not modelled: their results (the report fields, the list of pressed
    usages and the list of axis values) are inputs here. */
module RawInput {
  import opened Common
  import opened KeyCodeHelper

  /** Slots of the mouse and of the game-pad button arrays. */
  const MAX_MOUSE_BUTTONS: nat := 8
  const MAX_HID_BUTTONS: nat := 32

  /** The mouse buttons a raw mouse report describes, each by a down bit and
      an up bit in the low half of `ulButtons` (RI_MOUSE_BUTTON_1_DOWN ..
      RI_MOUSE_BUTTON_5_UP). */
  const REPORTED_MOUSE_BUTTONS: nat := 5

  /** The vertical and horizontal wheel flags of a raw mouse report. */
  const RI_MOUSE_WHEEL: bv32 := 0x0400
  const RI_MOUSE_HWHEEL: bv32 := 0x0800

  /** One wheel notch. */
  const WHEEL_DELTA: int := 120

  datatype DeviceType = Mouse | Keyboard | GamePad

  // ---------------------------------------------------------------------
  // Integer conversions

  /** `static_cast<int16_t>` of a 16-bit pattern (two's complement). */
  function Int16(x: bv16): (r: int)
    ensures -0x8000 <= r < 0x8000
    ensures (r - x as int) % 0x1_0000 == 0
  {
    if x < 0x8000 then x as int else x as int - 0x1_0000
  }

  /** `a / d` in C: the quotient truncated toward zero. */
  function DivTrunc(a: int, d: int): (r: int)
    requires d > 0
    ensures a >= 0 ==> 0 <= r && r * d <= a < r * d + d
    ensures a < 0 ==> r <= 0 && r * d - d < a <= r * d
  {
    if a >= 0 then a / d else -((-a) / d)
  }

  /** Conversion to `int8_t`: the value modulo 256, in -128 .. 127. */
  function Int8(x: int): (r: int)
    ensures -128 <= r < 128
    ensures (r - x) % 256 == 0
  {
    (x + 128) % 256 - 128
  }

  // ---------------------------------------------------------------------
  // Mouse reports

  /** The fields of a raw mouse report the decoder reads. `ulButtons` holds
      the button flags in its low half and the wheel data in its high half. */
  datatype RawMouse = RawMouse(ulButtons: bv32, lastX: int, lastY: int)

  datatype MouseEvent = MouseEvent(
    deviceType: DeviceType, deviceIndex: int,
    deltaX: int, deltaY: int, wheelDelta: int,
    buttonState: seq<ButtonState>)

  /** `usButtonData`: the high half of `ulButtons`. */
  function ButtonData(mouse: RawMouse): bv16 {
    (mouse.ulButtons >> 16) as bv16
  }

  /** The wheel movement in notches: the signed wheel data divided by one
      notch, truncated toward zero, when the wheel flag is set; 0 otherwise. */
  function WheelDelta(mouse: RawMouse): (r: int)
    ensures mouse.ulButtons & RI_MOUSE_WHEEL == 0 ==> r == 0
    ensures mouse.ulButtons & RI_MOUSE_WHEEL != 0 ==> r == DivTrunc(Int16(ButtonData(mouse)), WHEEL_DELTA)
    ensures -273 <= r <= 273
  {
    if mouse.ulButtons & RI_MOUSE_WHEEL != 0 then DivTrunc(Int16(ButtonData(mouse)), WHEEL_DELTA) else 0
  }

  /** The down bit and the up bit of slot `i`. */
  function DownBit(i: nat): bv32
    requires i < 16
  {
    (1 as bv32) << (2 * i)
  }

  function UpBit(i: nat): bv32
    requires i < 16
  {
    (2 as bv32) << (2 * i)
  }

  /** The eight bit pairs of the low half. */
  lemma BitValues()
    ensures DownBit(0) == 0x1 && DownBit(1) == 0x4 && DownBit(2) == 0x10 && DownBit(3) == 0x40
    ensures DownBit(4) == 0x100 && DownBit(5) == 0x400 && DownBit(6) == 0x1000 && DownBit(7) == 0x4000
    ensures forall i :: 0 <= i < 16 ==> UpBit(i) == DownBit(i) << 1
  {
  }

  /** What the two bits of slot `i` say: Up when the up bit is set, whatever
      the down bit; Down when only the down bit is set; no report otherwise. */
  function SlotState(flags: bv32, i: nat): (r: ButtonState)
    requires i < 16
    ensures r == Up <==> flags & UpBit(i) != 0
    ensures r == Down <==> flags & DownBit(i) != 0 && flags & UpBit(i) == 0
    ensures r == NotSet <==> flags & DownBit(i) == 0 && flags & UpBit(i) == 0
  {
    if flags & UpBit(i) != 0 then Up
    else if flags & DownBit(i) != 0 then Down
    else NotSet
  }

  /** The button slots as the loop over all eight slots decodes them. */
  function DecodeButtonsAsWritten(flags: bv32): (r: seq<ButtonState>)
    ensures |r| == MAX_MOUSE_BUTTONS
  {
    seq(MAX_MOUSE_BUTTONS, i requires 0 <= i < MAX_MOUSE_BUTTONS => SlotState(flags, i))
  }

  /** The button slots when only the five reported buttons are decoded; the
      other slots carry no report. */
  function DecodeButtons(flags: bv32): (r: seq<ButtonState>)
    ensures |r| == MAX_MOUSE_BUTTONS
    ensures forall i :: REPORTED_MOUSE_BUTTONS <= i < MAX_MOUSE_BUTTONS ==> r[i] == NotSet
  {
    seq(MAX_MOUSE_BUTTONS, i requires 0 <= i < MAX_MOUSE_BUTTONS =>
      if i < REPORTED_MOUSE_BUTTONS then SlotState(flags, i) else NotSet)
  }

  /** The button slots depend on the ten button bits only: neither the wheel
      flags nor the wheel data change them. */
  lemma DecodeButtonsIgnoresWheel(flags: bv32)
    ensures DecodeButtons(flags) == DecodeButtons(flags & 0x3FF)
  {
    forall i | 0 <= i < REPORTED_MOUSE_BUTTONS
      ensures SlotState(flags, i) == SlotState(flags & 0x3FF, i)
    {
      SlotIgnoresHighBits(flags, i);
    }
  }

  lemma SlotIgnoresHighBits(flags: bv32, i: nat)
    requires i < REPORTED_MOUSE_BUTTONS
    ensures SlotState(flags, i) == SlotState(flags & 0x3FF, i)
  {
    var down, up := DownBit(i), UpBit(i);
    BitValues();
    if i == 0 {
      assert down == 0x1 && up == 0x2;
    } else if i == 1 {
      assert down == 0x4 && up == 0x8;
    } else if i == 2 {
      assert down == 0x10 && up == 0x20;
    } else if i == 3 {
      assert down == 0x40 && up == 0x80;
    } else {
      assert down == 0x100 && up == 0x200;
    }
    MaskKeeps(flags, down);
    MaskKeeps(flags, up);
  }

  /** Masking with the ten button bits keeps every one of them. */
  lemma MaskKeeps(flags: bv32, bit: bv32)
    requires bit & 0x3FF == bit
    ensures (flags & 0x3FF) & bit == flags & bit
  {
  }

  /** As written, the loop reads the vertical-wheel flag as a press of the
      sixth button and the horizontal-wheel flag as its release: one notch
      forward, with no button touched, reports slot 5 Down. */
  lemma WheelReadsAsButtonSix()
    ensures var mouse := RawMouse(0x0078_0400, 0, 0);
      && WheelDelta(mouse) == 1
      && DecodeButtonsAsWritten(mouse.ulButtons)[5] == Down
      && DecodeButtons(mouse.ulButtons) == seq(MAX_MOUSE_BUTTONS, _ => NotSet)
    ensures DecodeButtonsAsWritten(RI_MOUSE_HWHEEL)[5] == Up
  {
    var mouse := RawMouse(0x0078_0400, 0, 0);
    assert ButtonData(mouse) == 0x78;
    DecodeButtonsIgnoresWheel(mouse.ulButtons);
    assert mouse.ulButtons & 0x3FF == 0;
    assert DecodeButtons(0) == seq(MAX_MOUSE_BUTTONS, _ => NotSet);
  }

  /** Without the wheel flags and the undefined bits above them the two
      decodes agree; with them only the slots past the five buttons differ. */
  lemma DecodesAgreeOnButtons(flags: bv32)
    ensures forall i :: 0 <= i < REPORTED_MOUSE_BUTTONS ==> DecodeButtonsAsWritten(flags)[i] == DecodeButtons(flags)[i]
    ensures flags & 0xFC00 == 0 ==> DecodeButtonsAsWritten(flags) == DecodeButtons(flags)
  {
    BitValues();
    if flags & 0xFC00 == 0 {
      forall i | REPORTED_MOUSE_BUTTONS <= i < MAX_MOUSE_BUTTONS
        ensures SlotState(flags, i) == NotSet
      {
        HighSlotClear(flags, i);
      }
    }
  }

  /** Slots 5 to 7 read bits 10 to 15 only. */
  lemma HighSlotClear(flags: bv32, i: nat)
    requires REPORTED_MOUSE_BUTTONS <= i < MAX_MOUSE_BUTTONS && flags & 0xFC00 == 0
    ensures SlotState(flags, i) == NotSet
  {
    var down, up := DownBit(i), UpBit(i);
    BitValues();
    if i == 5 {
      assert down == 0x400 && up == 0x800;
    } else if i == 6 {
      assert down == 0x1000 && up == 0x2000;
    } else {
      assert down == 0x4000 && up == 0x8000;
    }
    HighBitClear(flags, down);
    HighBitClear(flags, up);
  }

  /** A bit among the high six of the low half is clear when they all are. */
  lemma HighBitClear(flags: bv32, bit: bv32)
    requires bit & 0xFC00 == bit && flags & 0xFC00 == 0
    ensures flags & bit == 0
  {
  }

  /** The event of a mouse report, with the button slots decoded as the
      loop is written (all eight slots). */
  function MouseEventOf(mouse: RawMouse): MouseEvent {
    MouseEvent(Mouse, 0, mouse.lastX, mouse.lastY, WheelDelta(mouse), DecodeButtonsAsWritten(mouse.ulButtons))
  }

  /** Decodes a mouse report: the movement as reported, the wheel in
      notches and one slot per flag pair, with no report for a slot whose
      bits are both clear. */
  method HandleRawInputMouse(mouse: RawMouse) returns (e: MouseEvent)
    ensures e == MouseEventOf(mouse)
  {
    var wheelDelta := WheelDelta(mouse);
    var buttonState := DecodeMouseButtons(mouse.ulButtons);
    e := MouseEvent(Mouse, 0, mouse.lastX, mouse.lastY, wheelDelta, buttonState);
  }

  /** The button loop of the mouse decoder, over a fresh array of eight
      slots with no report in any of them, visiting every slot. */
  method DecodeMouseButtons(flags: bv32) returns (r: seq<ButtonState>)
    ensures r == DecodeButtonsAsWritten(flags)
  {
    var buttonState := new ButtonState[MAX_MOUSE_BUTTONS](_ => NotSet);
    var i := 0;
    while i < MAX_MOUSE_BUTTONS
      invariant 0 <= i <= MAX_MOUSE_BUTTONS
      invariant forall j :: 0 <= j < i ==> buttonState[j] == SlotState(flags, j)
      invariant forall j :: i <= j < MAX_MOUSE_BUTTONS ==> buttonState[j] == NotSet
    {
      ghost var before := buttonState[..];
      var state := buttonState[i];
      if flags & DownBit(i) != 0 {
        state := Down;
      }
      if flags & UpBit(i) != 0 {
        state := Up;
      }
      assert state == SlotState(flags, i);
      buttonState[i] := state;
      assert buttonState[..] == before[i := state];
      i := i + 1;
    }
    r := buttonState[..];
    assert forall j :: 0 <= j < MAX_MOUSE_BUTTONS ==> r[j] == DecodeButtonsAsWritten(flags)[j];
  }

  /** C division truncates: 60 units back are no notch, 240 back are two. */
  lemma WheelTruncatesTowardZero()
    ensures WheelDelta(RawMouse(0xFFC4_0400, 0, 0)) == 0
    ensures WheelDelta(RawMouse(0xFF10_0400, 0, 0)) == -2
    ensures WheelDelta(RawMouse(0xFF10_0000, 0, 0)) == 0
  {
    assert ButtonData(RawMouse(0xFFC4_0400, 0, 0)) == 0xFFC4;
    assert ButtonData(RawMouse(0xFF10_0400, 0, 0)) == 0xFF10;
  }

  // ---------------------------------------------------------------------
  // Keyboard reports

  datatype KeyboardEvent = KeyboardEvent(
    deviceType: DeviceType, deviceIndex: int, state: ButtonState, scanCode: KeyCode)

  /** The event of a keyboard report: device 0, the key code assembled from
      the make code and prefix flags, Up exactly for a break report. */
  function HandleRawInputKeyboard(keyboard: RawKeyboard): (r: KeyboardEvent)
    ensures r.deviceType == Keyboard && r.deviceIndex == 0
    ensures r.scanCode == KeyCodeFromRawInput(keyboard)
    ensures r.state == Up <==> keyboard.flags & RI_KEY_BREAK != 0
    ensures r.state == Down <==> keyboard.flags & RI_KEY_BREAK == 0
  {
    var evnt := KeyEventFromRawInput(keyboard);
    KeyboardEvent(Keyboard, 0, evnt.state, evnt.keyCode)
  }

  // ---------------------------------------------------------------------
  // Game-pad reports

  /** Generic Desktop usages of the axes read (section 4 of the USB HID
      Usage Tables). */
  const HID_USAGE_GENERIC_X: U16 := 0x30
  const HID_USAGE_GENERIC_Y: U16 := 0x31
  const HID_USAGE_GENERIC_Z: U16 := 0x32
  const HID_USAGE_GENERIC_RZ: U16 := 0x35
  const HID_USAGE_GENERIC_HATSWITCH: U16 := 0x39

  /** Positions in the event's axis array. */
  const AXIS_X: nat := 0
  const AXIS_Y: nat := 1
  const AXIS_Z: nat := 2
  const AXIS_HAT_SWITCH: nat := 3
  const AXIS_Z_ROTATE: nat := 4
  const AXES_COUNT: nat := 5

  /** One value read from the report: the usage of the control and its
      unsigned 32-bit value. */
  datatype ValueCap = ValueCap(usage: U16, value: nat)

  /** What the HID parser reports: the usages of the pressed buttons, the
      first button usage of the device, and the values of its controls. */
  datatype HidReport = HidReport(usages: seq<U16>, usageMin: U16, values: seq<ValueCap>)

  /** Every pressed usage falls into one of the 32 slots. The decoder
      indexes its slot array with `usage - usageMin` unchecked, so any other
      report (a device with more than 32 buttons, or a usage outside the
      first button cap's range) is an out-of-bounds write and is excluded. */
  predicate HidReportFits(report: HidReport) {
    forall i :: 0 <= i < |report.usages| ==>
      report.usageMin <= report.usages[i] < report.usageMin + MAX_HID_BUTTONS
  }

  datatype HidEvent = HidEvent(
    deviceType: DeviceType, deviceIndex: int,
    buttonState: seq<ButtonState>, axes: seq<int>)

  /** Slot `k` is Down exactly when usage `usageMin + k` is pressed, Up
      otherwise. */
  function HidButtons(report: HidReport): (r: seq<ButtonState>)
    ensures |r| == MAX_HID_BUTTONS
    ensures forall k :: 0 <= k < MAX_HID_BUTTONS ==>
      (r[k] == Down <==> exists i :: 0 <= i < |report.usages| && report.usages[i] == report.usageMin + k)
    ensures forall k :: 0 <= k < MAX_HID_BUTTONS ==> r[k] != NotSet
  {
    seq(MAX_HID_BUTTONS, k requires 0 <= k < MAX_HID_BUTTONS =>
      if report.usageMin + k in report.usages then Down else Up)
  }

  /** The axis slot a usage writes, if any, and the value it writes there:
      the value less 128 for the four axes, the value itself for the hat
      switch, both stored as `int8_t`. */
  function AxisSlot(usage: U16): (r: int)
    ensures -1 <= r < AXES_COUNT as int
  {
    if usage == HID_USAGE_GENERIC_X then AXIS_X
    else if usage == HID_USAGE_GENERIC_Y then AXIS_Y
    else if usage == HID_USAGE_GENERIC_Z then AXIS_Z
    else if usage == HID_USAGE_GENERIC_RZ then AXIS_Z_ROTATE
    else if usage == HID_USAGE_GENERIC_HATSWITCH then AXIS_HAT_SWITCH
    else -1
  }

  function AxisValue(cap: ValueCap): int {
    if cap.usage == HID_USAGE_GENERIC_HATSWITCH then Int8(cap.value) else Int8(cap.value - 128)
  }

  /** The axes after the values are stored in order, starting from zero. */
  function HidAxes(values: seq<ValueCap>): (r: seq<int>)
    ensures |r| == AXES_COUNT
    decreases |values|
  {
    if values == [] then seq(AXES_COUNT, _ => 0)
    else
      var n := |values| - 1;
      var prev := HidAxes(values[..n]);
      var slot := AxisSlot(values[n].usage);
      if slot < 0 then prev else prev[slot := AxisValue(values[n])]
  }

  /** An axis that no control writes stays 0. */
  lemma {:induction false} HidAxesUnwritten(values: seq<ValueCap>, k: nat)
    requires k < AXES_COUNT
    requires forall i :: 0 <= i < |values| ==> AxisSlot(values[i].usage) != k
    ensures HidAxes(values)[k] == 0
    decreases |values|
  {
    if values != [] {
      var n := |values| - 1;
      var prefix := values[..n];
      forall i | 0 <= i < |prefix|
        ensures AxisSlot(prefix[i].usage) != k
      {
        assert prefix[i] == values[i];
      }
      HidAxesUnwritten(prefix, k);
    }
  }

  /** Axis `k` holds the value of the last control that writes it. */
  lemma {:induction false} HidAxesLastWins(values: seq<ValueCap>, k: nat, i: nat)
    requires k < AXES_COUNT && i < |values|
    requires AxisSlot(values[i].usage) == k
    requires forall j :: i < j < |values| ==> AxisSlot(values[j].usage) != k
    ensures HidAxes(values)[k] == AxisValue(values[i])
    decreases |values|
  {
    var n := |values| - 1;
    if i < n {
      var prefix := values[..n];
      assert AxisSlot(values[n].usage) != k;
      assert HidAxes(values)[k] == HidAxes(prefix)[k];
      assert prefix[i] == values[i];
      forall j | i < j < |prefix|
        ensures AxisSlot(prefix[j].usage) != k
      {
        assert prefix[j] == values[j];
      }
      HidAxesLastWins(prefix, k, i);
    }
  }

  /** The event of a game-pad report. */
  function HidEventOf(report: HidReport): HidEvent {
    HidEvent(GamePad, 1, HidButtons(report), HidAxes(report.values))
  }

  /** Decodes a game-pad report: every slot starts Up, each pressed usage
      sets its slot Down, and each known control writes its axis. */
  method HandleRawInputHID(report: HidReport) returns (e: HidEvent)
    requires HidReportFits(report)
    ensures e == HidEventOf(report)
  {
    var buttonState := new ButtonState[MAX_HID_BUTTONS](_ => Up);
    var i := 0;
    while i < |report.usages|
      invariant 0 <= i <= |report.usages|
      invariant forall k :: 0 <= k < MAX_HID_BUTTONS ==>
        buttonState[k] == if report.usageMin + k in report.usages[..i] then Down else Up
    {
      assert report.usages[..i + 1] == report.usages[..i] + [report.usages[i]];
      buttonState[report.usages[i] - report.usageMin] := Down;
      i := i + 1;
    }
    assert report.usages[..i] == report.usages;
    assert buttonState[..] == HidButtons(report);
    var axes := new int[AXES_COUNT](_ => 0);
    i := 0;
    while i < |report.values|
      invariant 0 <= i <= |report.values|
      invariant axes[..] == HidAxes(report.values[..i])
      invariant buttonState[..] == HidButtons(report)
    {
      var cap := report.values[i];
      assert report.values[..i + 1][..i] == report.values[..i];
      if cap.usage == HID_USAGE_GENERIC_X {
        axes[AXIS_X] := Int8(cap.value - 128);
      } else if cap.usage == HID_USAGE_GENERIC_Y {
        axes[AXIS_Y] := Int8(cap.value - 128);
      } else if cap.usage == HID_USAGE_GENERIC_Z {
        axes[AXIS_Z] := Int8(cap.value - 128);
      } else if cap.usage == HID_USAGE_GENERIC_RZ {
        axes[AXIS_Z_ROTATE] := Int8(cap.value - 128);
      } else if cap.usage == HID_USAGE_GENERIC_HATSWITCH {
        axes[AXIS_HAT_SWITCH] := Int8(cap.value);
      }
      i := i + 1;
    }
    assert report.values[..i] == report.values;
    e := HidEvent(GamePad, 1, buttonState[..], axes[..]);
  }

  // ---------------------------------------------------------------------
  // Dispatch

  /** Report types. */
  const RIM_TYPEMOUSE: nat := 0
  const RIM_TYPEKEYBOARD: nat := 1
  const RIM_TYPEHID: nat := 2

  /** A raw input report: its type and the views of its data, of which the
      type says which one is meaningful. */
  datatype RawInputMessage = RawInputMessage(
    dwType: nat, mouse: RawMouse, keyboard: RawKeyboard, hid: HidReport)

  datatype InputEvent =
    | MouseInput(mouseEvent: MouseEvent)
    | KeyboardInput(keyboardEvent: KeyboardEvent)
    | HidInput(hidEvent: HidEvent)

  /** Decodes a report by its type; an unknown type raises UnexpectedValue. */
  method ProcessRawInputMessage(rawInput: RawInputMessage) returns (r: Result<InputEvent>)
    requires rawInput.dwType == RIM_TYPEHID ==> HidReportFits(rawInput.hid)
    ensures rawInput.dwType == RIM_TYPEMOUSE ==> r == Success(MouseInput(MouseEventOf(rawInput.mouse)))
    ensures rawInput.dwType == RIM_TYPEKEYBOARD ==> r == Success(KeyboardInput(HandleRawInputKeyboard(rawInput.keyboard)))
    ensures rawInput.dwType == RIM_TYPEHID ==> r == Success(HidInput(HidEventOf(rawInput.hid)))
    ensures rawInput.dwType > RIM_TYPEHID ==> r == Failure(UnexpectedValue)
  {
    if rawInput.dwType == RIM_TYPEMOUSE {
      var e := HandleRawInputMouse(rawInput.mouse);
      r := Success(MouseInput(e));
    } else if rawInput.dwType == RIM_TYPEKEYBOARD {
      r := Success(KeyboardInput(HandleRawInputKeyboard(rawInput.keyboard)));
    } else if rawInput.dwType == RIM_TYPEHID {
      var e := HandleRawInputHID(rawInput.hid);
      r := Success(HidInput(e));
    } else {
      r := Failure(UnexpectedValue);
    }
  }
}
