/** The iteration order of a `std::set` of button codes: ascending. */
module SetOrder {

  predicate StrictlyIncreasing(r: seq<nat>) {
    forall i, j :: 0 <= i < j < |r| ==> r[i] < r[j]
  }

  lemma {:induction false} MinExists(s: set<nat>)
    requires s != {}
    ensures exists m :: m in s && forall x :: x in s ==> m <= x
    decreases s
  {
    var y :| y in s;
    if s - {y} != {} {
      MinExists(s - {y});
      var m :| m in s - {y} && forall x :: x in s - {y} ==> m <= x;
      assert forall x :: x in s ==> x == y || x in s - {y};
      if y < m {
        assert forall x :: x in s ==> y <= x;
      } else {
        assert forall x :: x in s ==> m <= x;
      }
    } else {
      assert s == {y};
    }
  }

  /** The smallest element of a non-empty set. */
  ghost function Min(s: set<nat>): (m: nat)
    requires s != {}
    ensures m in s && forall x :: x in s ==> m <= x
  {
    MinExists(s);
    var m :| m in s && forall x :: x in s ==> m <= x; m
  }

  /** The elements of `s` in the order a `std::set` visits them. */
  ghost function Ascending(s: set<nat>): seq<nat>
    decreases s
  {
    if s == {} then [] else [Min(s)] + Ascending(s - {Min(s)})
  }

  /** `Ascending(s)` lists every element of `s` once, smallest first. */
  lemma {:induction false} AscendingSpec(s: set<nat>)
    ensures |Ascending(s)| == |s|
    ensures forall x :: x in Ascending(s) <==> x in s
    ensures StrictlyIncreasing(Ascending(s))
    decreases s
  {
    if s != {} {
      var m := Min(s);
      AscendingSpec(s - {m});
      var rest := Ascending(s - {m});
      assert Ascending(s) == [m] + rest;
      assert forall x :: x in [m] + rest <==> x == m || x in rest;
      forall i, j | 0 <= i < j < |Ascending(s)|
        ensures Ascending(s)[i] < Ascending(s)[j]
      {
        assert Ascending(s)[j] == rest[j - 1] && rest[j - 1] in s - {m};
        if i > 0 {
          assert Ascending(s)[i] == rest[i - 1];
        }
      }
    }
  }

  lemma AscendingUnfold(s: set<nat>, m: nat)
    requires s != {}
    requires m in s && forall x :: x in s ==> m <= x
    ensures Ascending(s) == [m] + Ascending(s - {m})
  {
    assert m == Min(s);
  }

  /** One step of a loop that takes the smallest remaining element: the
      visited prefix grows by it and the rest of the order is unchanged. */
  lemma AscendingStep(visited: seq<nat>, remaining: set<nat>, m: nat, whole: seq<nat>)
    requires m in remaining && forall x :: x in remaining ==> m <= x
    requires visited + Ascending(remaining) == whole
    ensures (visited + [m]) + Ascending(remaining - {m}) == whole
  {
    AscendingUnfold(remaining, m);
    assert (visited + [m]) + Ascending(remaining - {m}) == visited + ([m] + Ascending(remaining - {m}));
  }
}
