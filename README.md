# LInput core in Dafny

LInput is a C++ input library for Windows. It reads keyboard, mouse and HID
(joystick) reports through the Win32 Raw Input interface and turns them into
events. It tracks the Up/Down state of every button of a device and passes
each change to *button extensions*:

- the standard extension, which counts multi-presses and raises key repeats;
- the multi-tap extension, which folds a burst of taps into one event;
- an earlier, repeat-free standard extension.

Key combinations ("Control+A", with the group names CONTROL, ALT, SHIFT and
WINKEY standing for their left and right keys, and ENTER for the main and
keypad Enter keys) are parsed from strings, expanded
into every concrete combination, and bound to values in a binding table.

The model has one module per core header:

| module | what it models |
|---|---|
| `Common` | button states, fixed-width unsigned types, wrap-around helpers, `Result`/`Outcome` |
| `SetOrder` | the ascending order in which a `std::set` of buttons is walked |
| `ButtonTable` | `ButtonsState`: the button array and the fan-out to extensions, as a class over an `array` |
| `StdExtension` | `ButtonStdExtension` (multi-press counter, repeat timer) |
| `MultiTap` | `MultitapExtension` (tap bursts, expiry timer) |
| `LegacyStdExtension` | the older standard extension (fixed 250 ms window, `uint16_t` map keys) |
| `KeyCodeHelper` | key-name lookups, the combination enumeration, key codes and events of keyboard reports |
| `KeyCombination` | the packed combination value, its hash, `AssignKey` and `FromString` |
| `KeyBindings` | the binding table |
| `RawInput` | decoding of Raw Input mouse, keyboard and HID reports |

Each extension is a class whose fields are the source's fields:

- a per-button map;
- the set of pressed or pending buttons;
- the timer;
- the list of raised events.

A ghost function (`Apply` for a state change, `Tick` for the timer callback)
describes each method's effect on a snapshot `State()`, and lemmas state what
those functions promise. The stopwatch reading is an explicit argument
`now`. Raising an event appends it to an `events` sequence.

Arithmetic follows the C++ types:

- `uint64_t` differences wrap modulo 2^64;
- `uint16_t` counters wrap;
- the multi-tap extension casts both stopwatch readings to `int64_t` before subtracting;
- the wheel delta uses truncating division;
- HID axes are truncated to `int8_t`.

## Model

| member | source | states |
|---|---|---|
| `ButtonTable.ButtonsState.constructor` | Include/LInput/Buttons/ButtonStates.h:57-60 | every button of a new table is Up; no extension is registered |
| `ButtonTable.ButtonsState.GetButtonState` | Include/LInput/Buttons/ButtonStates.h:62-65 | returns the stored state of the button, which is never NotSet |
| `ButtonTable.ButtonsState.SetButtonState` | Include/LInput/Buttons/ButtonStates.h:69-81 | a change to a state other than NotSet is stored and forwarded to every extension in registration order; a repeat of the stored state or NotSet changes nothing and calls no extension |
| `ButtonTable.ButtonsState.NotifyAll` | Include/LInput/Buttons/ButtonStates.h:77-78 | every registered extension (one registered twice included) ends in the state the forwarded change gives it; a ghost log the loop keeps records one call per registration, in order |
| `ButtonTable.ButtonsState.NotifyAt` | Include/LInput/Buttons/ButtonStates.h:78 | forwarding to one extension changes that extension and no other |
| `ButtonTable.ButtonsState.AddExtension` | Include/LInput/Buttons/ButtonStates.h:83-86 | appends the extension to the list |
| `ButtonTable.Notify` | Include/LInput/Buttons/ButtonStates.h:78 | an extension's new snapshot is its `SetButtonState` applied to the old one |
| `ButtonTable.ForwardedIdempotent` | Include/LInput/Buttons/ButtonStates.h:77-78 | forwarding the same change twice to one extension equals forwarding it once |
| `StdExtension.WithData` | Include/LInput/Buttons/Extensions/ButtonsStdExtension.h:100-107 | looking up a button inserts its default data and leaves every button's data as it read before |
| `StdExtension.InMultiPressWindow` | Include/LInput/Buttons/Extensions/ButtonsStdExtension.h:151 | a press counts toward a multi-press exactly when the button changed before and less than the rate has passed since |
| `StdExtension.RepeatDue` | Include/LInput/Buttons/Extensions/ButtonsStdExtension.h:117 | a repeat is due exactly when more than the repeat rate has passed since the last repeat |
| `StdExtension.ApplyIdempotent` | Include/LInput/Buttons/Extensions/ButtonsStdExtension.h:147-201 | reporting the same state twice has the effect of reporting it once |
| `StdExtension.SameStateChangesNothing` | Include/LInput/Buttons/Extensions/ButtonsStdExtension.h:153 | reporting the stored state changes nothing but inserting the button's default data |
| `StdExtension.ApplyFrame` | Include/LInput/Buttons/Extensions/ButtonsStdExtension.h:147-201 | a report touches only the reported button's data, the pressed set at that button, and appends at most one event |
| `StdExtension.ApplyStamps` | Include/LInput/Buttons/Extensions/ButtonsStdExtension.h:197-198 | after any change the button records the new state and the change time |
| `StdExtension.PressEffect` | Include/LInput/Buttons/Extensions/ButtonsStdExtension.h:156-175 | Up to Down: the counter goes up by one inside the window and restarts at zero outside it; one Pressed event carries it; with repeats on, the button joins the repeat set, the timer runs and both repeat time stamps become `now` |
| `StdExtension.ReleaseEffect` | Include/LInput/Buttons/Extensions/ButtonsStdExtension.h:177-195 | Down to Up: one Released event carries the counter as it was; with repeats on, the button leaves the repeat set and its repeat state is cleared first; the counter is then kept inside the window and cleared outside it |
| `StdExtension.InitialConsistent` | Include/LInput/Buttons/Extensions/ButtonsStdExtension.h:49-57 | a new extension satisfies the invariant: the repeat set is exactly the held buttons when repeats are on and empty otherwise, the timer runs exactly while it is non-empty, a released button has no repeat count |
| `StdExtension.ApplyPreservesConsistent` | Include/LInput/Buttons/Extensions/ButtonsStdExtension.h:165-188 | every state report keeps that invariant |
| `StdExtension.TransitionEventsRepeatFree` | Include/LInput/Buttons/Extensions/ButtonsStdExtension.h:156-195 | under the invariant every event a state report raises carries a repeat count of zero |
| `StdExtension.TickFoldAt` | Include/LInput/Buttons/Extensions/ButtonsStdExtension.h:110-124 | the repeat pass touches only the walked buttons, and those only when a repeat is due |
| `StdExtension.TickFoldEventsSound` | Include/LInput/Buttons/Extensions/ButtonsStdExtension.h:117-121 | every repeat event names a walked button whose repeat was due and is computed from that button's data before the tick |
| `StdExtension.TickFoldEventsComplete` | Include/LInput/Buttons/Extensions/ButtonsStdExtension.h:115-121 | every walked button whose repeat is due raises an event |
| `StdExtension.TickFoldEventsOrdered` | Include/LInput/Buttons/Extensions/ButtonsStdExtension.h:115-116 | repeat events come out in ascending button order, one per button |
| `StdExtension.TickEffect` | Include/LInput/Buttons/Extensions/ButtonsStdExtension.h:110-124 | a timer tick keeps the repeat set, repeats exactly the due pressed buttons in ascending order, and appends their events |
| `StdExtension.TickPreservesConsistent` | Include/LInput/Buttons/Extensions/ButtonsStdExtension.h:110-124 | a timer tick keeps the invariant |
| `StdExtension.OneCycle` | Include/LInput/Buttons/Extensions/ButtonsStdExtension.h:151-195 | a press and release inside the window raise Pressed and Released with the counter plus one |
| `StdExtension.PressCountingInsideWindow` | Include/LInput/Buttons/Extensions/ButtonsStdExtension.h:151-195 | n press/release cycles, each inside the window of the previous change, raise counters c+1 … c+n |
| `StdExtension.PressOutsideWindowResets` | Include/LInput/Buttons/Extensions/ButtonsStdExtension.h:151-163 | a press after the window has passed, or on a button that never changed, restarts the counter at zero and raises Pressed with it |
| `StdExtension.ButtonStdExtension.constructor` | Include/LInput/Buttons/Extensions/ButtonsStdExtension.h:49-57 | stores the id and both rates; no button data, no pressed button, no event |
| `StdExtension.ButtonStdExtension.GetButtonData` | Include/LInput/Buttons/Extensions/ButtonsStdExtension.h:100-107 | returns the button's data, inserting the default for an unseen button |
| `StdExtension.ButtonStdExtension.SetButtonState` | Include/LInput/Buttons/Extensions/ButtonsStdExtension.h:147-201 | the new state is `Apply` of the old one, with at most one event raised |
| `StdExtension.ButtonStdExtension.RepeatButton` | Include/LInput/Buttons/Extensions/ButtonsStdExtension.h:117-121 | one loop step of the repeat pass |
| `StdExtension.ButtonStdExtension.ProcessQueuedButtons` | Include/LInput/Buttons/Extensions/ButtonsStdExtension.h:110-124 | the new state is `Tick` of the old one, walking the pressed set in ascending order |
| `MultiTap.WithData` | Include/LInput/Buttons/Extensions/MultiTapExtensions.h:74-81 | looking up a button inserts its default data and leaves every button's data as it read before |
| `MultiTap.TimeToEvent` | Include/LInput/Buttons/Extensions/MultiTapExtensions.h:95-97 | time since the last Down minus the threshold, from the `int64_t` casts of both readings (the subtraction itself is unbounded) |
| `MultiTap.ApplyIdempotent` | Include/LInput/Buttons/Extensions/MultiTapExtensions.h:133-173 | reporting the same state twice has the effect of reporting it once |
| `MultiTap.ApplyFrame` | Include/LInput/Buttons/Extensions/MultiTapExtensions.h:133-173 | a report touches only the reported button's data and pending membership, and appends at most one event |
| `MultiTap.TapEffect` | Include/LInput/Buttons/Extensions/MultiTapExtensions.h:144-165 | Up to Down counts one more tap and records `now`; below the maximum the button becomes pending and the timer is armed for a full window; the tap that reaches the maximum raises the event at once, clears the counter, dequeues the button and leaves the timer running only while others are pending; above the maximum nothing else happens |
| `MultiTap.OtherChangesOnlyRecordState` | Include/LInput/Buttons/Extensions/MultiTapExtensions.h:170 | any report other than Up to Down only records the state; the pending set, the timer and the events are untouched |
| `MultiTap.InitialConsistent` | Include/LInput/Buttons/Extensions/MultiTapExtensions.h:44-51 | a new extension satisfies the invariant: a button is pending exactly when it has taps counted, no counter reaches the maximum, the timer is enabled while anything is pending, every event reports between one and the maximum taps |
| `MultiTap.ApplyPreservesConsistent` | Include/LInput/Buttons/Extensions/MultiTapExtensions.h:133-173 | every state report keeps that invariant |
| `MultiTap.TapPreservesConsistent` | Include/LInput/Buttons/Extensions/MultiTapExtensions.h:144-165 | a tap keeps that invariant |
| `MultiTap.TickStepEffect` | Include/LInput/Buttons/Extensions/MultiTapExtensions.h:98-104 | one expiry step resets and removes the button exactly when its window has passed |
| `MultiTap.TickFoldKeys` | Include/LInput/Buttons/Extensions/MultiTapExtensions.h:90-92 | the expiry pass inserts the walked buttons and no others |
| `MultiTap.TickFoldData` | Include/LInput/Buttons/Extensions/MultiTapExtensions.h:98-104 | the pass zeroes the counters of exactly the expired walked buttons |
| `MultiTap.TickFoldRemoved` | Include/LInput/Buttons/Extensions/MultiTapExtensions.h:87-104 | the removal set is exactly the expired walked buttons |
| `MultiTap.TickFoldAt` | Include/LInput/Buttons/Extensions/MultiTapExtensions.h:84-104 | the three facts above together |
| `MultiTap.TickFoldMin` | Include/LInput/Buttons/Extensions/MultiTapExtensions.h:105-109 | the pass keeps the largest negative time-to-event of the unexpired buttons, and the `int64_t` minimum when there is none |
| `MultiTap.TickFoldEventsSound` | Include/LInput/Buttons/Extensions/MultiTapExtensions.h:98-101 | every expiry event names an expired walked button and carries the taps it had counted before the tick |
| `MultiTap.TickFoldEventsComplete` | Include/LInput/Buttons/Extensions/MultiTapExtensions.h:98-101 | every expired walked button raises an event |
| `MultiTap.TickFoldEventsOrdered` | Include/LInput/Buttons/Extensions/MultiTapExtensions.h:90 | expiry events come out in ascending button order, one per button |
| `MultiTap.TickPending` | Include/LInput/Buttons/Extensions/MultiTapExtensions.h:119-120 | after a tick, exactly the unexpired pending buttons stay pending |
| `MultiTap.TickData` | Include/LInput/Buttons/Extensions/MultiTapExtensions.h:98-104 | a tick zeroes the counters of exactly the expired pending buttons |
| `MultiTap.TickMin` | Include/LInput/Buttons/Extensions/MultiTapExtensions.h:89-109 | the running maximum of a tick is at least the time-to-event of every unexpired pending button and equals one of them, or is the `int64_t` minimum |
| `MultiTap.TickEffect` | Include/LInput/Buttons/Extensions/MultiTapExtensions.h:84-122 | a tick dequeues exactly the expired pending buttons, resets them, and raises their events in ascending order |
| `MultiTap.TickDueTime` | Include/LInput/Buttons/Extensions/MultiTapExtensions.h:113-117 | with buttons still pending, the timer is re-armed for the smallest remaining window; otherwise it is left as it was |
| `MultiTap.TickPreservesConsistent` | Include/LInput/Buttons/Extensions/MultiTapExtensions.h:84-122 | a timer tick keeps the invariant, including the tap counts of the events it raises |
| `MultiTap.ThreeTapsRaiseOneEvent` | Include/LInput/Buttons/Extensions/MultiTapExtensions.h:144-165 | with a maximum of three, the third Down of a burst raises a single three-tap event and stops the timer |
| `MultiTap.TwoTapsThenExpiry` | Include/LInput/Buttons/Extensions/MultiTapExtensions.h:84-122 | two taps raise nothing until the window of the second Down ends; a tick inside it re-arms the timer for the rest, a tick after it raises one two-tap event |
| `MultiTap.MultitapExtension.constructor` | Include/LInput/Buttons/Extensions/MultiTapExtensions.h:44-51 | stores the id, the threshold and the maximum; the timer's due time is the threshold |
| `MultiTap.MultitapExtension.GetButtonData` | Include/LInput/Buttons/Extensions/MultiTapExtensions.h:74-81 | returns the button's data, inserting the default for an unseen button |
| `MultiTap.MultitapExtension.SetButtonState` | Include/LInput/Buttons/Extensions/MultiTapExtensions.h:133-173 | the new state is `Apply` of the old one, with at most one event raised |
| `MultiTap.MultitapExtension.ExpireButton` | Include/LInput/Buttons/Extensions/MultiTapExtensions.h:92-109 | one loop step of the expiry pass |
| `MultiTap.MultitapExtension.ExpirePending` | Include/LInput/Buttons/Extensions/MultiTapExtensions.h:87-111 | the expiry loop over the pending set in ascending order |
| `MultiTap.MultitapExtension.ProcessQueuedButtons` | Include/LInput/Buttons/Extensions/MultiTapExtensions.h:84-122 | the new state is `Tick` of the old one |
| `LegacyStdExtension.Key` | Include/LInput/Buttons/ButtonsStdExtension.h:125 | a button code below 2^16 is its own map key |
| `LegacyStdExtension.KeyAliases` | Include/LInput/Buttons/ButtonsStdExtension.h:125 | codes 2^16 apart share one map entry |
| `LegacyStdExtension.WithData` | Include/LInput/Buttons/ButtonsStdExtension.h:72-79 | looking up a key inserts its default data and leaves every key's data as it read before |
| `LegacyStdExtension.InWindow` | Include/LInput/Buttons/ButtonsStdExtension.h:91 | inside the window exactly when the wrapped time since the last change is below 250 ms |
| `LegacyStdExtension.SameStateChangesNothing` | Include/LInput/Buttons/ButtonsStdExtension.h:93 | reporting the stored state changes nothing but inserting the default data |
| `LegacyStdExtension.ApplyFrame` | Include/LInput/Buttons/ButtonsStdExtension.h:86-122 | a report touches only the button's key and appends at most one event |
| `LegacyStdExtension.ApplyStamps` | Include/LInput/Buttons/ButtonsStdExtension.h:118-119 | after any change the key records the new state and the change time |
| `LegacyStdExtension.PressEffect` | Include/LInput/Buttons/ButtonsStdExtension.h:98-105 | Up to Down: the counter goes up by one inside the window and restarts at zero outside it; one Pressed event carries it |
| `LegacyStdExtension.ReleaseEffect` | Include/LInput/Buttons/ButtonsStdExtension.h:109-115 | a change to Up from Down or NotSet raises Released with the counter as it was, which is then kept inside the window and cleared outside it |
| `LegacyStdExtension.OtherChangesOnlyStamp` | Include/LInput/Buttons/ButtonsStdExtension.h:86-122 | Down from NotSet, or any change to NotSet, only records the state and time |
| `LegacyStdExtension.FirstPressNearStartCounts` | Include/LInput/Buttons/ButtonsStdExtension.h:91 | with no guard for a never-changed key, a first press within 250 ms of the stopwatch's start already counts as a multi-press and reports counter 1 |
| `LegacyStdExtension.PressCountingInsideWindow` | Include/LInput/Buttons/ButtonsStdExtension.h:91-115 | n press/release cycles inside the window raise counters c+1 … c+n |
| `LegacyStdExtension.PressOutsideWindowResets` | Include/LInput/Buttons/ButtonsStdExtension.h:91-105 | a press 250 ms or more after the last change restarts the counter at zero and raises Pressed with it |
| `LegacyStdExtension.LegacyButtonStdExtension.constructor` | Include/LInput/Buttons/ButtonsStdExtension.h:125 | an empty map and no events |
| `LegacyStdExtension.LegacyButtonStdExtension.GetButtonData` | Include/LInput/Buttons/ButtonsStdExtension.h:72-79 | returns the key's data, inserting the default |
| `LegacyStdExtension.LegacyButtonStdExtension.SetButtonState` | Include/LInput/Buttons/ButtonsStdExtension.h:86-122 | the new state is `Apply` of the old one; `oldstate` is ignored |
| `SetOrder.Min` | Include/LInput/Buttons/Extensions/MultiTapExtensions.h:90 | a non-empty set of buttons has a least element |
| `SetOrder.AscendingSpec` | Include/LInput/Buttons/Extensions/MultiTapExtensions.h:90 | a set is walked once per element, in strictly increasing order |
| `KeyCodeHelper.KeyNameToKeyCode` | Include/LInput/Keys/KeyCodeHelper.h:51-60 | the code of the first entry with the name, or UNASSIGNED when none has it |
| `KeyCodeHelper.KeyCodeToString` | Include/LInput/Keys/KeyCodeHelper.h:39-49 | the name of the first entry with the code, or "Key not found" |
| `KeyCodeHelper.LookupsRoundTrip` | Include/LInput/Keys/KeyCodeHelper.h:39-60 | in a table without repeated names or codes the two lookups undo each other |
| `KeyCodeHelper.ProductPositive` | Include/LInput/Keys/KeyCodeHelper.h:69-74 | the number of combinations is positive exactly when no group is empty |
| `KeyCodeHelper.DigitsInBounds` | Include/LInput/Keys/KeyCodeHelper.h:80-84 | every index of a combination is below its group's size |
| `KeyCodeHelper.IndexOfDigits` | Include/LInput/Keys/KeyCodeHelper.h:76-87 | enumeration position e maps back to e |
| `KeyCodeHelper.DigitsOfIndex` | Include/LInput/Keys/KeyCodeHelper.h:76-87 | every in-bounds tuple is the tuple at its own position |
| `KeyCodeHelper.DigitAt` | Include/LInput/Keys/KeyCodeHelper.h:80-84 | index i of tuple e is e divided by the product of the earlier sizes, modulo size i |
| `KeyCodeHelper.ComputeCombinations` | Include/LInput/Keys/KeyCodeHelper.h:62-89 | returns product-of-sizes tuples; tuple e is the mixed-radix digits of e, first group fastest |
| `KeyCodeHelper.ComputeIndices` | Include/LInput/Keys/KeyCodeHelper.h:78-86 | the inner loop builds the digits of e |
| `KeyCodeHelper.CombinationsComplete` | Include/LInput/Keys/KeyCodeHelper.h:62-89 | the enumeration lists every in-bounds tuple exactly once |
| `KeyCodeHelper.CombinationsEdgeCases` | Include/LInput/Keys/KeyCodeHelper.h:66-74 | no groups give one empty tuple; an empty group gives none |
| `KeyCodeHelper.KeyCodeFromRawInput` | Include/LInput/Keys/KeyCodeHelper.h:110-121 | for every report, the key code's low byte is the make code's and its high byte is the make code's high byte OR-ed with 0xE1 when E1 is flagged, 0xE0 for E0 alone, nothing otherwise |
| `KeyCodeHelper.KeyCodeLayout` | Include/LInput/Keys/KeyCodeHelper.h:110-121 | for a one-byte make code, the key code holds it in its low byte and the prefix in its high byte: 0xE1 when E1 is flagged, 0xE0 for E0 alone, 0 otherwise |
| `KeyCodeHelper.KeyEventFromRawInput` | Include/LInput/Keys/KeyCodeHelper.h:123-129 | the event carries the report's key code and is Up exactly when the break flag is set |
| `KeyCombination.IdRoundTrip` | Include/LInput/Keys/KeyCombination.h:182-202 | the packed 32-bit id and the combination fields determine each other |
| `KeyCombination.Equals` | Include/LInput/Keys/KeyCombination.h:47-50 | equal exactly when all fields are equal |
| `KeyCombination.Hash` | Include/LInput/Keys/KeyCombination.h:37-45 | the hash fits in 32 bits |
| `KeyCombination.HashExact` | Include/LInput/Keys/KeyCombination.h:37-50 | two combinations hash alike exactly when they are equal |
| `KeyCombination.AssignKey` | Include/LInput/Keys/KeyCombination.h:143-176 | a modifier key sets its own flag only; any other key replaces the key code and keeps the flags |
| `KeyCombination.AssignKeyIdempotent` | Include/LInput/Keys/KeyCombination.h:143-176 | assigning a key twice equals assigning it once |
| `KeyCombination.LastPlainKeyWins` | Include/LInput/Keys/KeyCombination.h:170-174 | of two non-modifier keys the later one stays |
| `KeyCombination.ModifiersCommute` | Include/LInput/Keys/KeyCombination.h:147-169 | modifiers may be assigned in any order |
| `KeyCombination.ToUpper` | Include/LInput/Keys/KeyCombination.h:55 | same length, each lower-case letter `a`-`z` becomes its capital, other characters kept |
| `KeyCombination.Split` | Include/LInput/Keys/KeyCombination.h:66 | the fields hold no separator and join back to the input |
| `KeyCombination.Classify` | Include/LInput/Keys/KeyCombination.h:70-84 | a group name stands for its two keys; an unknown name is one the table does not hold |
| `KeyCombination.ScanFailurePersists` | Include/LInput/Keys/KeyCombination.h:82-84 | once a token is rejected, later tokens do not change the outcome |
| `KeyCombination.ScanOutcome` | Include/LInput/Keys/KeyCombination.h:68-91 | scanning fails exactly when a token is unknown, reporting the first one; otherwise one group per group name |
| `KeyCombination.ScanTokens` | Include/LInput/Keys/KeyCombination.h:68-91 | the token loop computes `Scan` |
| `KeyCombination.GroupSizes` | Include/LInput/Keys/KeyCombination.h:93-98 | the loop lists the group sizes |
| `KeyCombination.ExpandGroups` | Include/LInput/Keys/KeyCombination.h:93-107 | the expansion loop computes `Expand`; no group is empty |
| `KeyCombination.ApplyChoices` | Include/LInput/Keys/KeyCombination.h:102-105 | assigns the chosen key of each group in order |
| `KeyCombination.FromString` | Include/LInput/Keys/KeyCombination.h:52-115 | the method computes `Parse` |
| `KeyCombination.ProductOfPairs` | Include/LInput/Keys/KeyCombination.h:93-98 | n two-key groups give 2^n combinations |
| `KeyCombination.ParseCount` | Include/LInput/Keys/KeyCombination.h:52-115 | parsing succeeds exactly when every name is known, with 2^groups combinations; otherwise it names the first unknown token |
| `KeyCombination.NoGroupsOneCombination` | Include/LInput/Keys/KeyCombination.h:109-112 | without group names the result is the one scanned combination |
| `KeyCombination.ParseCoversChoices` | Include/LInput/Keys/KeyCombination.h:100-107 | the result holds, once each, the combination of every choice of keys from the groups |
| `KeyCombination.ExpandPair` | Include/LInput/Keys/KeyCombination.h:100-107 | one group expands to its left then its right key |
| `KeyCombination.ControlATokens` | Include/LInput/Keys/KeyCombination.h:55-66 | "control+a" splits into CONTROL and A |
| `KeyCombination.ControlAScenario` | Include/LInput/Keys/KeyCombination.h:52-115 | "control+a" gives left-Control+A and right-Control+A |
| `KeyCombination.CtrlATokens` | Include/LInput/Keys/KeyCombination.h:55-66 | "ctrl+a" splits into CTRL and A |
| `KeyCombination.UnknownNameScenario` | Include/LInput/Keys/KeyCombination.h:82-84 | "ctrl+a" fails naming CTRL |
| `KeyCombination.AEnterTokens` | Include/LInput/Keys/KeyCombination.h:55-66 | "A+ENTER" splits into A and ENTER |
| `KeyCombination.EnterOverridesExplicitKey` | Include/LInput/Keys/KeyCombination.h:170-174 | in "A+ENTER" the later plain key replaces the earlier one |
| `KeyBindings.Add` | Include/LInput/Keys/KeyBindings.h:37-46 | a binding is added exactly when the key is assigned and the combination is new; otherwise the table is unchanged |
| `KeyBindings.AddAllPasses` | Include/LInput/Keys/KeyBindings.h:48-52 | adding a list passes exactly when every combination is assigned, new and not repeated |
| `KeyBindings.AddAllBinds` | Include/LInput/Keys/KeyBindings.h:48-52 | a passing list binds all its combinations to the value |
| `KeyBindings.AddAllStops` | Include/LInput/Keys/KeyBindings.h:48-52 | a failing list stops at the first rejected combination, keeping the ones before it |
| `KeyBindings.ModifiersAloneRefused` | Include/LInput/Keys/KeyBindings.h:37-46 | a combination of modifiers only is refused |
| `KeyBindings.KeyBindings.constructor` | Include/LInput/Keys/KeyBindings.h:66-67 | the table starts empty |
| `KeyBindings.KeyBindings.AddBinding` | Include/LInput/Keys/KeyBindings.h:37-46 | the table and outcome are those of `Add` |
| `KeyBindings.KeyBindings.AddBindings` | Include/LInput/Keys/KeyBindings.h:48-52 | the table and outcome are those of `AddAll` |
| `KeyBindings.KeyBindings.GetBinding` | Include/LInput/Keys/KeyBindings.h:54-64 | found exactly when bound, returning the bound value, else the caller's default |
| `RawInput.Int16` | Include/LInput/Win32/RawInput/RawInput.h:323 | the signed reading of 16 bits |
| `RawInput.DivTrunc` | Include/LInput/Win32/RawInput/RawInput.h:324 | C division, truncating toward zero |
| `RawInput.Int8` | Include/LInput/Win32/RawInput/RawInput.h:143 | conversion to `int8_t` modulo 256 |
| `RawInput.WheelDelta` | Include/LInput/Win32/RawInput/RawInput.h:323-324 | zero without the wheel flag; otherwise the wheel data read as `int16_t` and divided by 120 with truncation toward zero, within ±273 |
| `RawInput.SlotState` | Include/LInput/Win32/RawInput/RawInput.h:328-337 | a slot is Up when its up bit is set, Down when only its down bit is set, otherwise NotSet |
| `RawInput.DecodeButtonsAsWritten` | Include/LInput/Win32/RawInput/RawInput.h:326-337 | eight slots decoded from the flag pairs, as the loop is written |
| `RawInput.DecodeButtons` | Include/LInput/Win32/RawInput/RawInput.h:326-337 | the corrected decode: only the five reported buttons are decoded, the other three slots are NotSet |
| `RawInput.DecodesAgreeOnButtons` | Include/LInput/Win32/RawInput/RawInput.h:326-337 | the as-written and the corrected decode agree on the five buttons, and on every slot when bits 10 to 15 are clear |
| `RawInput.DecodeButtonsIgnoresWheel` | Include/LInput/Win32/RawInput/RawInput.h:323-337 | the wheel bits do not affect the decoded buttons |
| `RawInput.WheelReadsAsButtonSix` | Include/LInput/Win32/RawInput/RawInput.h:326-337 | as written, a wheel report reads as button six going Down and a horizontal wheel as it going Up |
| `RawInput.WheelTruncatesTowardZero` | Include/LInput/Win32/RawInput/RawInput.h:324 | small negative wheel steps give zero, −240 gives −2 |
| `RawInput.HandleRawInputMouse` | Include/LInput/Win32/RawInput/RawInput.h:316-340 | builds the mouse event: the movement as reported, the wheel in notches, and all eight slots decoded from their flag pairs as the loop is written |
| `RawInput.DecodeMouseButtons` | Include/LInput/Win32/RawInput/RawInput.h:326-338 | the loop over all eight slots computes `DecodeButtonsAsWritten` |
| `RawInput.HandleRawInputKeyboard` | Include/LInput/Win32/RawInput/RawInput.h:172-181 | a keyboard event of device 0 with the report's key code, Up exactly when the break flag is set |
| `RawInput.HidButtons` | Include/LInput/Win32/RawInput/RawInput.h:270-271 | every HID button is Up unless reported pressed, then Down |
| `RawInput.AxisSlot` | Include/LInput/Win32/RawInput/RawInput.h:277-310 | each axis usage maps to its slot; others to none |
| `RawInput.HidAxes` | Include/LInput/Win32/RawInput/RawInput.h:277-310 | one value per axis slot |
| `RawInput.HidAxesUnwritten` | Include/LInput/Win32/RawInput/RawInput.h:277-310 | an axis no value cap names stays zero |
| `RawInput.HidAxesLastWins` | Include/LInput/Win32/RawInput/RawInput.h:277-310 | an axis holds the value of the last cap naming it |
| `RawInput.HandleRawInputHID` | Include/LInput/Win32/RawInput/RawInput.h:200-313 | builds the HID event from the report |
| `RawInput.ProcessRawInputMessage` | Include/LInput/Win32/RawInput/RawInput.h:342-359 | dispatches by report type; any other type is an unexpected-value error |

## Left out

- Win32 plumbing is not modelled: window procedure, device registration and enabling, device info. `GetRawInputData` and the `HidP_*` calls are OS calls, so their results are inputs.
- The stopwatch and the timers are a `now` argument. A tick uses one `now` for every button, whereas the C++ loops read the clock again for each button. `ButtonsState` also hands one `now` to all its extensions.
- Event delivery to subscribers is recorded as an appended `events` sequence. The event's parent pointer and the time-stamp field the legacy extension leaves zero are omitted.
- `KeyCodeFromVK` and `FromVirtualKey` call the OS and are not modelled.
- `KeyCombination::ToString` is declared without a definition and is not modelled.
- `KeyCombination.ToUpper`: only ASCII letters are upper-cased, because no locale is modelled.
- `KeyCombination.Split`: modelled as splitting on a single character that keeps empty fields. The string utility it stands for is not part of this model.
- The key-name table is an argument of the lookups: its entries are data and not part of the logic.
- `ButtonState.h`, `ButtonType.h` and `KeyCode.h` are not part of this model. The value-initialised `State` of `ButtonType.h` is taken to be NotSet, which matters for the untouched slots of the mouse event built at `RawInput.h:318`. Key codes are scan-code set 1 with the prefix byte in the high byte, and UNASSIGNED is 0.
- `KeyCombination.AssignKey` is modelled on values, because the combination is a four-byte value type.
- `KeyCodeHelper.ComputeCombinations` does not model `size_t` overflow of the product of group sizes.
- Signed overflow of mouse deltas (`LONG`) and the HID reads is not modelled; the deltas pass through unchanged.
- `RawInput.HandleRawInputHID` requires every pressed usage to lie within `usageMin` to `usageMin + 31` (`HidReportFits`). The source checks no bound: it writes the slot `usage - usageMin` directly, and a device with more than 32 buttons or a usage outside the first button cap's range writes past the 32-slot array (and past the 32-entry usage buffer). That undefined write is not modelled.
- `RawInput.ProcessRawInputMessage` inherits the same `HidReportFits` requirement for HID reports.
- `MultiTap.TimeToEvent`: the `int64_t` subtraction is done on unbounded integers, so its signed overflow (undefined in C++) is not modelled; `MultiTap.TickDueTime` assumes readings below 2^63.
- `ButtonStdExtension` `SetRepeatRate`/`GetRepeatRate` are accessors and are not modelled. The repeat rate is fixed at construction.
- The example programs, the mouse-button and mouse-code name tables, and `IButtonable.h` are not modelled. They hold no logic of the core.
- `MultiTap.MultitapExtension.ProcessQueuedButtons` does not model the one-shot timer's own firing. The timer is an enabled flag and a due time.

## Findings

| source | as written | input that shows it | evidently intended | confidence | as-written member | corrected member |
|---|---|---|---|---|---|---|
| Include/LInput/Win32/RawInput/RawInput.h:326-337 | the mouse loop decodes eight down/up flag pairs, so the wheel flags 0x400 and 0x800 are read as the down and up bits of button six | `ulButtons` = 0x0078_0400 (one wheel notch) reports button six Down | decode only the five button pairs and leave the other slots NotSet, so a wheel turn changes no button | not executed | `RawInput.WheelReadsAsButtonSix` | `RawInput.DecodeButtonsIgnoresWheel` |

`RawInput.HandleRawInputMouse` and `RawInput.ProcessRawInputMessage` decode the mouse buttons as the loop is written. The corrected decode is `RawInput.DecodeButtons`, and `RawInput.DecodesAgreeOnButtons` shows where the two differ.
