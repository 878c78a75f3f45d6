/** The button table: one stored state per button code, fed with raw
    reports. A report that carries no state (`NotSet`) or repeats the stored
    state is dropped; every real transition is stored and then forwarded, in
    registration order, to each registered extension. */
module ButtonTable {
  import opened Common
  import StdExtension
  import MultiTap

  /** A registered extension: the shared pointer of the table's extension
      vector, to one of the two extension kinds. */
  datatype Extension =
    | Std(std: StdExtension.ButtonStdExtension)
    | Tap(tap: MultiTap.MultitapExtension)

  function Obj(e: Extension): object {
    match e
    case Std(x) => x
    case Tap(y) => y
  }

  /** The state of an extension, of either kind. */
  datatype Snapshot = StdSnap(std: StdExtension.ExtState) | TapSnap(tap: MultiTap.TapState)

  ghost function SnapOf(e: Extension): Snapshot
    reads Obj(e)
  {
    match e
    case Std(x) => StdSnap(x.State())
    case Tap(y) => TapSnap(y.State())
  }

  /** What one `SetButtonState(button, newState)` call does to the state
      `snap` of extension `e`. */
  ghost function Forwarded(e: Extension, snap: Snapshot, button: nat, newState: ButtonState, now: U64): Snapshot {
    match (e, snap)
    case (Std(x), StdSnap(s)) => StdSnap(StdExtension.Apply(x.Cfg(), s, button, newState, now))
    case (Tap(y), TapSnap(t)) => TapSnap(MultiTap.Apply(y.Cfg(), t, button, newState, now))
    case _ => snap
  }

  /** Forwarding the same transition twice to an extension has the effect of
      forwarding it once; this is what makes an extension registered twice
      behave as if registered once. */
  lemma ForwardedIdempotent(e: Extension, snap: Snapshot, button: nat, newState: ButtonState, now: U64)
    ensures Forwarded(e, Forwarded(e, snap, button, newState, now), button, newState, now)
         == Forwarded(e, snap, button, newState, now)
  {
    match (e, snap)
    case (Std(x), StdSnap(s)) => StdExtension.ApplyIdempotent(x.Cfg(), s, button, newState, now);
    case (Tap(y), TapSnap(t)) => MultiTap.ApplyIdempotent(y.Cfg(), t, button, newState, now);
    case _ =>
  }

  /** Two registrations that share an object are the same registration. */
  lemma SameObjectSameExtension(a: Extension, b: Extension)
    requires Obj(a) == Obj(b)
    ensures a == b
  {
  }

  /** Forwards one transition to `e`. */
  method Notify(e: Extension, button: nat, newState: ButtonState, now: U64)
    modifies Obj(e)
    ensures SnapOf(e) == Forwarded(e, old(SnapOf(e)), button, newState, now)
  {
    match e {
      case Std(x) => x.SetButtonState(button, newState, now);
      case Tap(y) => y.SetButtonState(button, newState, now);
    }
  }

  /** One forwarded call: the extension's position in the registration order,
      the button and the new state. */
  datatype Call = Call(extension: nat, button: nat, state: ButtonState)

  /** One call per extension `0 .. n-1`, in that order. */
  function Calls(n: nat, button: nat, state: ButtonState): (r: seq<Call>)
    ensures |r| == n
    ensures forall i :: 0 <= i < n ==> r[i] == Call(i, button, state)
  {
    if n == 0 then [] else Calls(n - 1, button, state) + [Call(n - 1, button, state)]
  }

  /** Whether a report of `newState` against the stored `stored` is a real
      transition. */
  predicate IsTransition(stored: ButtonState, newState: ButtonState) {
    stored != newState && newState != NotSet
  }

  class ButtonsState {
    const numButtons: nat
    const states: array<ButtonState>
    var extensions: seq<Extension>
    /** Every call forwarded to an extension so far. */
    ghost var calls: seq<Call>

    /** One slot per button code, none of them `NotSet`. */
    ghost predicate Valid()
      reads this, states
    {
      states.Length == numButtons && forall i :: 0 <= i < states.Length ==> states[i] != NotSet
    }

    ghost function Objects(): set<object>
      reads this
    {
      set i | 0 <= i < |extensions| :: Obj(extensions[i])
    }

    /** Every slot starts Up; no extension is registered. */
    constructor (numButtons: nat)
      ensures Valid() && fresh(states) && states.Length == numButtons
      ensures forall i :: 0 <= i < numButtons ==> states[i] == Up
      ensures extensions == [] && calls == []
    {
      this.numButtons := numButtons;
      var a := new ButtonState[numButtons];
      var i := 0;
      while i < numButtons
        invariant 0 <= i <= numButtons
        invariant forall j :: 0 <= j < i ==> a[j] == Up
      {
        a[i] := Up;
        i := i + 1;
      }
      states := a;
      extensions := [];
      calls := [];
    }

    /** The stored state of `button`, which is never `NotSet`. */
    method GetButtonState(button: nat) returns (r: ButtonState)
      requires Valid() && button < numButtons
      ensures r == states[button] && r != NotSet
    {
      r := states[button];
    }

    /** Stores a real transition and forwards it to every extension in
      registration order; anything else changes nothing. */
    method SetButtonState(button: nat, newState: ButtonState, now: U64)
      requires Valid() && button < numButtons
      modifies states, Objects(), this`calls
      ensures Valid()
      ensures states[..] == if IsTransition(old(states[button]), newState)
                            then old(states[..])[button := newState] else old(states[..])
      ensures forall i :: 0 <= i < |extensions| ==>
        SnapOf(extensions[i]) == if IsTransition(old(states[button]), newState)
                                 then Forwarded(extensions[i], old(SnapOf(extensions[i])), button, newState, now)
                                 else old(SnapOf(extensions[i]))
      ensures calls == old(calls) + if IsTransition(old(states[button]), newState)
                                    then Calls(|extensions|, button, newState) else []
    {
      var oldState := states[button];
      if oldState != newState && newState != NotSet {
        states[button] := newState;
        ghost var stored := states[..];
        assert stored == old(states[..])[button := newState];
        NotifyAll(button, newState, now);
        assert states[..] == stored;
      }
    }

    /** The loop over the registered extensions: each gets exactly one call,
      in registration order. An extension registered more than once gets
      the call once per registration, which by idempotence leaves it as one
      call would. */
    method NotifyAll(button: nat, newState: ButtonState, now: U64)
      modifies Objects(), this`calls
      ensures forall i :: 0 <= i < |extensions| ==>
        SnapOf(extensions[i]) == Forwarded(extensions[i], old(SnapOf(extensions[i])), button, newState, now)
      ensures calls == old(calls) + Calls(|extensions|, button, newState)
    {
      var i := 0;
      while i < |extensions|
        invariant 0 <= i <= |extensions|
        invariant calls == old(calls) + Calls(i, button, newState)
        invariant forall j :: 0 <= j < |extensions| ==>
          || SnapOf(extensions[j]) == old(SnapOf(extensions[j]))
          || SnapOf(extensions[j]) == Forwarded(extensions[j], old(SnapOf(extensions[j])), button, newState, now)
        invariant forall j :: 0 <= j < i ==>
          SnapOf(extensions[j]) == Forwarded(extensions[j], old(SnapOf(extensions[j])), button, newState, now)
      {
        var e := extensions[i];
        ForwardedIdempotent(e, old(SnapOf(e)), button, newState, now);
        forall j | 0 <= j < |extensions| && Obj(extensions[j]) == Obj(e)
          ensures extensions[j] == e
        {
          SameObjectSameExtension(extensions[j], e);
        }
        NotifyAt(i, button, newState, now);
        calls := calls + [Call(i, button, newState)];
        i := i + 1;
      }
    }

    /** Forwards the transition to the extension at position `i`: every
        registration of that object moves one step, the others stay. */
    method NotifyAt(i: nat, button: nat, newState: ButtonState, now: U64)
      requires i < |extensions|
      modifies Obj(extensions[i])
      ensures forall j :: 0 <= j < |extensions| ==>
        SnapOf(extensions[j]) == if Obj(extensions[j]) == Obj(extensions[i])
                                 then Forwarded(extensions[j], old(SnapOf(extensions[j])), button, newState, now)
                                 else old(SnapOf(extensions[j]))
    {
      var e := extensions[i];
      forall j | 0 <= j < |extensions| && Obj(extensions[j]) == Obj(e)
        ensures extensions[j] == e
      {
        SameObjectSameExtension(extensions[j], e);
      }
      Notify(e, button, newState, now);
    }

    /** Registers `extension` after all others; there is no removal. */
    method AddExtension(extension: Extension)
      modifies this`extensions
      ensures extensions == old(extensions) + [extension]
    {
      extensions := extensions + [extension];
    }
  }
}
