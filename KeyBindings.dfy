/** A table from key combinations to bindings. A combination without a
    plain key cannot be bound, and a combination is bound at most once.
    Combinations compare by their packed identifier, which is the same as
    comparing their fields (`KeyCombination.Equals`). */
module KeyBindings {
  import opened Common
  import opened KeyCodeHelper
  import opened KeyCombination

  /** The outcome of an addition and the table after it. */
  datatype Added<B> = Added(outcome: Outcome, bindings: map<Combination, B>)

  /** Adding one binding: refused for a combination whose key code is
      unassigned, refused for a combination already bound, stored otherwise. */
  function Add<B>(m: map<Combination, B>, c: Combination, b: B): (r: Added<B>)
    ensures r.outcome == Pass <==> c.keycode != UNASSIGNED && c !in m
    ensures r.outcome == Pass ==> r.bindings.Keys == m.Keys + {c} && r.bindings[c] == b
    ensures forall k :: k in m ==> k in r.bindings && r.bindings[k] == m[k]
    ensures r.outcome != Pass ==> r.bindings == m
  {
    if c.keycode == UNASSIGNED then Added(Fail(LogicError), m)
    else if c in m then Added(Fail(DuplicateItem), m)
    else Added(Pass, m[c := b])
  }

  /** Adding a list of combinations with the same binding, in order; the
      first refusal stops the additions. */
  function AddAll<B>(m: map<Combination, B>, cs: seq<Combination>, b: B): Added<B>
    decreases |cs|
  {
    if cs == [] then Added(Pass, m)
    else
      var r := Add(m, cs[0], b);
      if r.outcome != Pass then r else AddAll(r.bindings, cs[1..], b)
  }

  /** The list is accepted exactly when no combination in it is unassigned
      or already bound and no two of its elements coincide. */
  predicate Acceptable<B>(m: map<Combination, B>, cs: seq<Combination>) {
    && (forall i :: 0 <= i < |cs| ==> cs[i].keycode != UNASSIGNED && cs[i] !in m)
    && (forall i, j :: 0 <= i < j < |cs| ==> cs[i] != cs[j])
  }

  lemma {:induction false} AddAllPasses<B>(m: map<Combination, B>, cs: seq<Combination>, b: B)
    ensures AddAll(m, cs, b).outcome == Pass <==> Acceptable(m, cs)
    decreases |cs|
  {
    if cs != [] {
      var r := Add(m, cs[0], b);
      var rest := cs[1..];
      assert forall i :: 1 <= i < |cs| ==> cs[i] == rest[i - 1];
      if r.outcome == Pass {
        AddAllPasses(r.bindings, rest, b);
        if Acceptable(m, cs) {
          forall i | 0 <= i < |rest|
            ensures rest[i].keycode != UNASSIGNED && rest[i] !in r.bindings
          {
            assert rest[i] == cs[i + 1];
          }
          assert Acceptable(r.bindings, rest);
        }
        if Acceptable(r.bindings, rest) {
          forall i, j | 0 <= i < j < |cs|
            ensures cs[i] != cs[j]
          {
            assert cs[j] == rest[j - 1] && cs[j] !in r.bindings;
          }
        }
      } else {
        assert !Acceptable(m, cs);
      }
    }
  }

  /** An accepted list binds every element to `b` and changes nothing else. */
  lemma {:induction false} AddAllBinds<B>(m: map<Combination, B>, cs: seq<Combination>, b: B)
    requires AddAll(m, cs, b).outcome == Pass
    ensures AddAll(m, cs, b).bindings == m + map c | c in cs :: b
    decreases |cs|
  {
    if cs != [] {
      var r := Add(m, cs[0], b);
      var rest := cs[1..];
      AddAllBinds(r.bindings, rest, b);
      var lhs := AddAll(m, cs, b).bindings;
      var rhs := m + map c | c in cs :: b;
      assert lhs == r.bindings + map c | c in rest :: b;
      assert forall c :: c in cs <==> c == cs[0] || c in rest;
      assert lhs.Keys == rhs.Keys;
      forall c | c in lhs
        ensures lhs[c] == rhs[c]
      {
      }
    }
  }

  /** When the list is refused, it is refused at some element `i`: all
      elements before it were added, and the table is what those additions
      left. */
  lemma {:induction false} AddAllStops<B>(m: map<Combination, B>, cs: seq<Combination>, b: B)
    requires AddAll(m, cs, b).outcome != Pass
    ensures exists i ::
      && 0 <= i < |cs|
      && AddAll(m, cs[..i], b).outcome == Pass
      && Add(AddAll(m, cs[..i], b).bindings, cs[i], b) == AddAll(m, cs, b)
    decreases |cs|
  {
    var r := Add(m, cs[0], b);
    assert cs[..0] == [];
    if r.outcome == Pass {
      var rest := cs[1..];
      AddAllStops(r.bindings, rest, b);
      var i :| 0 <= i < |rest|
        && AddAll(r.bindings, rest[..i], b).outcome == Pass
        && Add(AddAll(r.bindings, rest[..i], b).bindings, rest[i], b) == AddAll(r.bindings, rest, b);
      assert cs[..i + 1][1..] == rest[..i] && cs[..i + 1] != [];
      assert AddAll(m, cs[..i + 1], b) == AddAll(r.bindings, rest[..i], b);
      assert cs[i + 1] == rest[i];
    }
  }

  class KeyBindings<B> {
    var bindings: map<Combination, B>

    /** An empty table. */
    constructor ()
      ensures bindings == map[]
    {
      bindings := map[];
    }

    /** Binds `combination` to `binding`, or raises LogicError (no plain key)
        or DuplicateItem (already bound) and leaves the table as it was. */
    method AddBinding(combination: Combination, binding: B) returns (r: Outcome)
      modifies this
      ensures Added(r, bindings) == Add(old(bindings), combination, binding)
    {
      if combination.keycode == UNASSIGNED {
        return Fail(LogicError);
      }
      if combination in bindings {
        return Fail(DuplicateItem);
      }
      bindings := bindings[combination := binding];
      r := Pass;
    }

    /** Binds every combination of the list to `binding`, in order, until
        the first refusal. */
    method AddBindings(combinations: seq<Combination>, binding: B) returns (r: Outcome)
      modifies this
      ensures Added(r, bindings) == AddAll(old(bindings), combinations, binding)
    {
      var i := 0;
      while i < |combinations|
        invariant 0 <= i <= |combinations|
        invariant AddAll(old(bindings), combinations, binding) == AddAll(bindings, combinations[i..], binding)
      {
        assert combinations[i..][1..] == combinations[i + 1..];
        r := AddBinding(combinations[i], binding);
        if r != Pass {
          return;
        }
        i := i + 1;
      }
      r := Pass;
    }

    /** Whether `combination` is bound; if so `b` is its binding, otherwise
        `b` is `current`, the caller's variable left as it was. */
    method GetBinding(combination: Combination, current: B) returns (found: bool, b: B)
      ensures found <==> combination in bindings
      ensures found ==> b == bindings[combination]
      ensures !found ==> b == current
    {
      if combination in bindings {
        return true, bindings[combination];
      }
      return false, current;
    }
  }

  /** A combination made of modifiers alone has no key code, so "CONTROL"
      can never be bound. */
  lemma ModifiersAloneRefused<B>(m: map<Combination, B>, b: B)
    ensures Add(m, AssignKey(EMPTY, LCONTROL), b).outcome == Fail(LogicError)
  {
  }
}
