/** Key codes and the helpers around them: lookups in the key-name table, the
    mixed-radix enumeration of a cartesian product of groups, and the
    assembly of a key code from a raw keyboard report.

    A key code is a PC/AT scan code from scan code set 1 held in 16 bits: the
    make code in the low byte and the extended-key prefix (0xE0 or 0xE1) in
    the high byte. */
module KeyCodeHelper {
  import opened Common

  type KeyCode = bv16

  /** The code of "no key". */
  const UNASSIGNED: KeyCode := 0

  // The modifier keys and the two Enter keys (scan code set 1).
  const LCONTROL: KeyCode := 0x001D
  const RCONTROL: KeyCode := 0xE01D
  const LALT: KeyCode := 0x0038
  const RALT: KeyCode := 0xE038
  const LSHIFT: KeyCode := 0x002A
  const RSHIFT: KeyCode := 0x0036
  const LWIN: KeyCode := 0xE05B
  const RWIN: KeyCode := 0xE05C
  const ENTERMAIN: KeyCode := 0x001C
  const KEYPADENTER: KeyCode := 0xE01C

  // ---------------------------------------------------------------------
  // The key-name table

  /** The table of key codes and their names, searched front to back. */
  type NameTable = seq<(KeyCode, string)>

  /** Entry `i` is the first entry of `table` carrying `name`. */
  ghost predicate FirstWithName(table: NameTable, name: string, i: int) {
    0 <= i < |table| && table[i].1 == name && forall j :: 0 <= j < i ==> table[j].1 != name
  }

  /** Entry `i` is the first entry of `table` carrying `code`. */
  ghost predicate FirstWithCode(table: NameTable, code: KeyCode, i: int) {
    0 <= i < |table| && table[i].0 == code && forall j :: 0 <= j < i ==> table[j].0 != code
  }

  /** The code of the first entry named `name`, or `UNASSIGNED` when there is
      none. */
  function KeyNameToKeyCode(table: NameTable, name: string): (r: KeyCode)
    ensures (forall i :: 0 <= i < |table| ==> table[i].1 != name) ==> r == UNASSIGNED
    ensures forall i :: FirstWithName(table, name, i) ==> r == table[i].0
  {
    if table == [] then UNASSIGNED
    else if table[0].1 == name then table[0].0
    else
      var r := KeyNameToKeyCode(table[1..], name);
      assert forall i :: FirstWithName(table, name, i) ==> FirstWithName(table[1..], name, i - 1);
      r
  }

  /** The message for a code the table does not hold. */
  const KEY_NOT_FOUND: string := "Key not found"

  /** The name of the first entry with code `code`, or "Key not found". */
  function KeyCodeToString(table: NameTable, code: KeyCode): (r: string)
    ensures (forall i :: 0 <= i < |table| ==> table[i].0 != code) ==> r == KEY_NOT_FOUND
    ensures forall i :: FirstWithCode(table, code, i) ==> r == table[i].1
  {
    if table == [] then KEY_NOT_FOUND
    else if table[0].0 == code then table[0].1
    else
      var r := KeyCodeToString(table[1..], code);
      assert forall i :: FirstWithCode(table, code, i) ==> FirstWithCode(table[1..], code, i - 1);
      r
  }

  /** No two entries share a name or a code. */
  ghost predicate Injective(table: NameTable) {
    forall i, j :: 0 <= i < j < |table| ==> table[i].0 != table[j].0 && table[i].1 != table[j].1
  }

  /** In a table without repeated codes or names, the two lookups undo each
      other on every entry. */
  lemma LookupsRoundTrip(table: NameTable, i: int)
    requires Injective(table) && 0 <= i < |table|
    ensures KeyNameToKeyCode(table, KeyCodeToString(table, table[i].0)) == table[i].0
    ensures KeyCodeToString(table, KeyNameToKeyCode(table, table[i].1)) == table[i].1
  {
    assert FirstWithCode(table, table[i].0, i);
    assert FirstWithName(table, table[i].1, i);
  }

  // ---------------------------------------------------------------------
  // Mixed-radix enumeration

  /** The number of tuples of the cartesian product of groups of the given sizes. */
  function Product(sizes: seq<nat>): nat {
    if sizes == [] then 1 else sizes[0] * Product(sizes[1..])
  }

  predicate AllPositive(sizes: seq<nat>) {
    forall i :: 0 <= i < |sizes| ==> sizes[i] > 0
  }

  lemma {:induction false} ProductPositive(sizes: seq<nat>)
    ensures Product(sizes) > 0 <==> AllPositive(sizes)
  {
    if sizes != [] {
      ProductPositive(sizes[1..]);
      assert forall i :: 1 <= i < |sizes| ==> sizes[i] == sizes[1..][i - 1];
      if AllPositive(sizes) {
        assert AllPositive(sizes[1..]);
      } else if AllPositive(sizes[1..]) {
        assert sizes[0] == 0;
      }
    }
  }

  lemma {:induction false} ProductSnoc(sizes: seq<nat>, s: nat)
    ensures Product(sizes + [s]) == Product(sizes) * s
  {
    if sizes != [] {
      assert (sizes + [s])[1..] == sizes[1..] + [s];
      ProductSnoc(sizes[1..], s);
      assert Product(sizes + [s]) == sizes[0] * (Product(sizes[1..]) * s);
    }
  }

  /** The mixed-radix digits of `e`, the first group varying fastest. */
  function Digits(e: nat, sizes: seq<nat>): (r: seq<nat>)
    requires AllPositive(sizes)
    ensures |r| == |sizes|
    decreases |sizes|
  {
    if sizes == [] then [] else [e % sizes[0]] + Digits(e / sizes[0], sizes[1..])
  }

  /** Each digit lies below its group's size. */
  lemma {:induction false} DigitsInBounds(e: nat, sizes: seq<nat>)
    requires AllPositive(sizes)
    ensures InBounds(Digits(e, sizes), sizes)
    decreases |sizes|
  {
    if sizes != [] {
      assert AllPositive(sizes[1..]);
      var q := e / sizes[0];
      DigitsInBounds(q, sizes[1..]);
      DivMod(e, sizes[0]);
      InBoundsCons(e % sizes[0], Digits(q, sizes[1..]), sizes);
      assert Digits(e, sizes) == [e % sizes[0]] + Digits(q, sizes[1..]);
    }
  }

  lemma InBoundsCons(x: nat, rest: seq<nat>, sizes: seq<nat>)
    requires sizes != [] && x < sizes[0] && InBounds(rest, sizes[1..])
    ensures InBounds([x] + rest, sizes)
  {
    forall i | 1 <= i < |sizes|
      ensures ([x] + rest)[i] < sizes[i]
    {
      assert ([x] + rest)[i] == rest[i - 1] && sizes[1..][i - 1] == sizes[i];
    }
  }

  /** The position of a tuple in the enumeration. */
  function Index(t: seq<nat>, sizes: seq<nat>): nat
    requires |t| == |sizes|
  {
    if t == [] then 0 else t[0] + sizes[0] * Index(t[1..], sizes[1..])
  }

  predicate InBounds(t: seq<nat>, sizes: seq<nat>) {
    |t| == |sizes| && forall i :: 0 <= i < |t| ==> t[i] < sizes[i]
  }

  lemma DivMod(e: nat, d: nat)
    requires d > 0
    ensures e == e % d + d * (e / d) && e % d < d
  {
  }

  lemma MulMonoLe(a: int, b: int, c: nat)
    requires a <= b
    ensures a * c <= b * c
  {
    assert b * c - a * c == (b - a) * c;
  }

  lemma MulMono(a: nat, b: nat, c: nat)
    requires a < b
    ensures a * c <= b * c - c
  {
    assert b * c - a * c == (b - a) * c;
    MulMonoLe(1, b - a, c);
  }

  lemma DivUnique(n: nat, d: nat, q: nat, r: nat)
    requires 0 <= r < d && n == q * d + r
    ensures n / d == q && n % d == r
  {
    var q0, r0 := n / d, n % d;
    DivMod(n, d);
    assert n == q0 * d + r0;
    if q < q0 {
      MulMonoLe(q + 1, q0, d);
    } else if q0 < q {
      MulMonoLe(q0 + 1, q, d);
    }
  }

  /** Counting through the digits of `e` gives back `e`. */
  lemma {:induction false} IndexOfDigits(e: nat, sizes: seq<nat>)
    requires AllPositive(sizes) && e < Product(sizes)
    ensures Index(Digits(e, sizes), sizes) == e
    decreases |sizes|
  {
    if sizes != [] {
      var s := sizes[0];
      DivMod(e, s);
      assert AllPositive(sizes[1..]);
      IndexOfDigits(e / s, sizes[1..]);
      var d := Digits(e, sizes);
      assert d[1..] == Digits(e / s, sizes[1..]);
    }
  }

  /** Every tuple within bounds is the digit string of its own index, which
      lies below the product. */
  lemma {:induction false} DigitsOfIndex(t: seq<nat>, sizes: seq<nat>)
    requires InBounds(t, sizes)
    ensures AllPositive(sizes)
    ensures Index(t, sizes) < Product(sizes)
    ensures Digits(Index(t, sizes), sizes) == t
  {
    if t != [] {
      assert InBounds(t[1..], sizes[1..]);
      DigitsOfIndex(t[1..], sizes[1..]);
      var s, k := sizes[0], Index(t[1..], sizes[1..]);
      assert Index(t, sizes) == t[0] + s * k;
      assert AllPositive(sizes);
      MulMono(k, Product(sizes[1..]), s);
      assert s * k <= s * Product(sizes[1..]) - s;
      assert (t[0] + s * k) / s == k && (t[0] + s * k) % s == t[0] by {
        DivMod(t[0] + s * k, s);
        DivUnique(t[0] + s * k, s, k, t[0]);
      }
      assert Digits(Index(t, sizes), sizes) == [t[0]] + t[1..];
    }
  }

  lemma DivDiv(e: nat, a: nat, b: nat)
    requires a > 0 && b > 0
    ensures e / a / b == e / (a * b)
  {
    var ab := a * b;
    var q, r := e / ab, e % ab;
    DivMod(e, ab);
    var r1, r2 := r % a, r / a;
    DivMod(r, a);
    HighDigitBound(a, b, r1, r2);
    Regroup(e, a, b, q, r1, r2);
    DivUnique(e, a, q * b + r2, r1);
    DivUnique(q * b + r2, b, q, r2);
  }

  lemma HighDigitBound(a: nat, b: nat, r1: nat, r2: nat)
    requires r1 + a * r2 < a * b
    ensures r2 < b
  {
    if r2 >= b {
      MulMonoLe(b, r2, a);
    }
  }

  lemma Regroup(e: nat, a: nat, b: nat, q: nat, r1: nat, r2: nat)
    requires e == (r1 + a * r2) + (a * b) * q
    ensures e == (q * b + r2) * a + r1
  {
    assert (a * b) * q == (q * b) * a;
    assert (q * b + r2) * a == (q * b) * a + r2 * a;
  }

  /** Digit `i` of `e` is `e` divided by the product of the sizes before it,
      modulo size `i`: the formula the enumeration computes with. */
  lemma {:induction false} DigitAt(e: nat, sizes: seq<nat>, i: nat)
    requires AllPositive(sizes) && i < |sizes|
    ensures Product(sizes[..i]) > 0
    ensures Digits(e, sizes)[i] == (e / Product(sizes[..i])) % sizes[i]
    decreases i
  {
    assert AllPositive(sizes[..i]);
    ProductPositive(sizes[..i]);
    if i > 0 {
      var s := sizes[0];
      assert AllPositive(sizes[1..]);
      DigitAt(e / s, sizes[1..], i - 1);
      assert sizes[1..][..i - 1] == sizes[..i][1..];
      assert Product(sizes[..i]) == s * Product(sizes[1..][..i - 1]);
      DivDiv(e, s, Product(sizes[1..][..i - 1]));
    }
  }

  /** All tuples of indices into groups of the given sizes, in mixed-radix
      order with the first group varying fastest. */
  method ComputeCombinations(groupSizes: seq<nat>) returns (result: seq<seq<nat>>)
    ensures |result| == Product(groupSizes)
    ensures AllPositive(groupSizes) ==> forall e :: 0 <= e < |result| ==> result[e] == Digits(e, groupSizes)
  {
    var totalGroups := |groupSizes|;
    var accumulativeSize := new nat[totalGroups];
    var totalElements := 1;
    var i := 0;
    while i < totalGroups
      invariant 0 <= i <= totalGroups
      invariant totalElements == Product(groupSizes[..i])
      invariant forall j :: 0 <= j < i ==> accumulativeSize[j] == Product(groupSizes[..j + 1])
    {
      ProductSnoc(groupSizes[..i], groupSizes[i]);
      assert groupSizes[..i + 1] == groupSizes[..i] + [groupSizes[i]];
      totalElements := totalElements * groupSizes[i];
      accumulativeSize[i] := totalElements;
      i := i + 1;
    }
    assert groupSizes[..totalGroups] == groupSizes;
    ProductPositive(groupSizes);
    result := [];
    var e := 0;
    while e < totalElements
      invariant 0 <= e <= totalElements
      invariant |result| == e
      invariant forall k :: 0 <= k < e ==> result[k] == Digits(k, groupSizes)
      invariant forall j :: 0 <= j < totalGroups ==> accumulativeSize[j] == Product(groupSizes[..j + 1])
    {
      var indices := ComputeIndices(e, groupSizes, accumulativeSize);
      result := result + [indices];
      e := e + 1;
    }
  }

  /** One tuple of the enumeration: the digits of `e`, each computed from
      the running products of the group sizes. */
  method ComputeIndices(e: nat, groupSizes: seq<nat>, accumulativeSize: array<nat>) returns (r: seq<nat>)
    requires AllPositive(groupSizes) && accumulativeSize.Length == |groupSizes|
    requires forall j :: 0 <= j < |groupSizes| ==> accumulativeSize[j] == Product(groupSizes[..j + 1])
    ensures r == Digits(e, groupSizes)
  {
    var totalGroups := |groupSizes|;
    var indices := new nat[totalGroups];
    var j := 0;
    while j < totalGroups
      invariant 0 <= j <= totalGroups
      invariant forall k :: 0 <= k < j ==> indices[k] == Digits(e, groupSizes)[k]
    {
      var accumulativeFactor := if j == 0 then 1 else accumulativeSize[j - 1];
      DigitAt(e, groupSizes, j);
      assert j > 0 ==> groupSizes[..j - 1 + 1] == groupSizes[..j];
      indices[j] := (e / accumulativeFactor) % groupSizes[j];
      j := j + 1;
    }
    r := indices[..];
  }

  /** The enumeration lists every tuple within bounds exactly once: distinct
      positions hold distinct tuples, and each tuple within bounds sits at
      its index. */
  lemma CombinationsComplete(groupSizes: seq<nat>, result: seq<seq<nat>>)
    requires |result| == Product(groupSizes)
    requires AllPositive(groupSizes) ==> forall e :: 0 <= e < |result| ==> result[e] == Digits(e, groupSizes)
    ensures forall e :: 0 <= e < |result| ==> InBounds(result[e], groupSizes)
    ensures forall e, f :: 0 <= e < f < |result| ==> result[e] != result[f]
    ensures forall t :: InBounds(t, groupSizes) ==> Index(t, groupSizes) < |result| && result[Index(t, groupSizes)] == t
  {
    ProductPositive(groupSizes);
    forall e | 0 <= e < |result|
      ensures InBounds(result[e], groupSizes)
    {
      DigitsInBounds(e, groupSizes);
    }
    forall e, f | 0 <= e < f < |result|
      ensures result[e] != result[f]
    {
      IndexOfDigits(e, groupSizes);
      IndexOfDigits(f, groupSizes);
    }
    forall t | InBounds(t, groupSizes)
      ensures Index(t, groupSizes) < |result| && result[Index(t, groupSizes)] == t
    {
      DigitsOfIndex(t, groupSizes);
    }
  }

  /** No groups: one empty tuple. A group of size zero: no tuples. */
  lemma CombinationsEdgeCases(groupSizes: seq<nat>)
    ensures groupSizes == [] ==> Product(groupSizes) == 1 && Digits(0, groupSizes) == []
    ensures !AllPositive(groupSizes) ==> Product(groupSizes) == 0
  {
    ProductPositive(groupSizes);
  }

  // ---------------------------------------------------------------------
  // Raw keyboard reports

  /** The fields of a raw keyboard report the helpers read. */
  datatype RawKeyboard = RawKeyboard(makeCode: bv16, flags: bv16)

  // Raw keyboard flag bits.
  const RI_KEY_BREAK: bv16 := 1
  const RI_KEY_E0: bv16 := 2
  const RI_KEY_E1: bv16 := 4

  /** The prefix byte a report's flags call for: 0xE1 when E1 is flagged
      (with or without E0), 0xE0 for E0 alone, none otherwise. */
  function PrefixByte(flags: bv16): bv16 {
    if flags & RI_KEY_E1 != 0 then 0xE1 else if flags & RI_KEY_E0 != 0 then 0xE0 else 0
  }

  /** The key code of a report: the make code with the prefix byte of an E0
      or E1 report OR-ed in. Its low byte is the make code's; its high byte
      is the make code's high byte with the prefix byte OR-ed in. */
  function KeyCodeFromRawInput(keyboard: RawKeyboard): (r: KeyCode)
    ensures r & 0xFF == keyboard.makeCode & 0xFF
    ensures r >> 8 == (keyboard.makeCode >> 8) | PrefixByte(keyboard.flags)
  {
    PrefixBytes(keyboard.flags, keyboard.makeCode);
    (if keyboard.flags & RI_KEY_E0 != 0 then 0xE000 else 0)
    | (if keyboard.flags & RI_KEY_E1 != 0 then 0xE100 else 0)
    | keyboard.makeCode
  }

  /** The two bytes of the assembled code, one flag case at a time. */
  lemma PrefixBytes(flags: bv16, makeCode: bv16)
    ensures var r: KeyCode := (if flags & RI_KEY_E0 != 0 then 0xE000 else 0)
                              | (if flags & RI_KEY_E1 != 0 then 0xE100 else 0) | makeCode;
      && r & 0xFF == makeCode & 0xFF
      && r >> 8 == (makeCode >> 8) | PrefixByte(flags)
  {
    if flags & RI_KEY_E1 != 0 {
      OrBytes(0xE100, makeCode);
    } else if flags & RI_KEY_E0 != 0 {
      OrBytes(0xE000, makeCode);
    }
  }

  /** OR-ing in a value with a clear low byte leaves the low byte alone and
      ORs its high byte into the high byte. */
  lemma OrBytes(p: bv16, m: bv16)
    requires p & 0xFF == 0
    ensures (p | m) & 0xFF == m & 0xFF
    ensures (p | m) >> 8 == (m >> 8) | (p >> 8)
  {
  }

  /** For a make code of one byte: the low byte of the key code is the make
      code and the high byte is the prefix, 0xE1 when E1 is flagged (with or
      without E0), 0xE0 for E0 alone and 0 otherwise. */
  lemma KeyCodeLayout(keyboard: RawKeyboard)
    requires keyboard.makeCode < 0x100
    ensures KeyCodeFromRawInput(keyboard) & 0xFF == keyboard.makeCode
    ensures KeyCodeFromRawInput(keyboard) >> 8
         == if keyboard.flags & RI_KEY_E1 != 0 then 0xE1
            else if keyboard.flags & RI_KEY_E0 != 0 then 0xE0
            else 0
  {
  }

  /** A key press or release. */
  datatype KeyEvent = KeyEvent(keyCode: KeyCode, state: ButtonState)

  /** The event of a report: Up exactly when the break flag is set. */
  function KeyEventFromRawInput(keyboard: RawKeyboard): (r: KeyEvent)
    ensures r.keyCode == KeyCodeFromRawInput(keyboard)
    ensures r.state == Up <==> keyboard.flags & RI_KEY_BREAK != 0
    ensures r.state != NotSet
  {
    KeyEvent(KeyCodeFromRawInput(keyboard), if keyboard.flags & RI_KEY_BREAK != 0 then Up else Down)
  }
}
