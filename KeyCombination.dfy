/** A key combination: one plain key plus the eight modifier keys, packed
    into the 32-bit `combinationID` that equality and hashing use; and the
    parser of "CONTROL+A"-style strings, which expands each generic modifier
    into its left and right variants. */
module KeyCombination {
  import opened Common
  import opened KeyCodeHelper

  /** The fields of the packed identifier, in declaration order. */
  datatype Combination = Combination(
    keycode: KeyCode,
    leftCtrl: bool, rightCtrl: bool,
    leftAlt: bool, rightAlt: bool,
    leftShift: bool, rightShift: bool,
    leftWinKey: bool, rightWinKey: bool,
    reserved: bv8)

  /** A default-constructed combination: identifier 0. */
  const EMPTY: Combination :=
    Combination(UNASSIGNED, false, false, false, false, false, false, false, false, 0)

  // ---------------------------------------------------------------------
  // The packed identifier

  /** `combinationID`: the key code in bits 0-15, the eight flags in bits
      16-23 in declaration order, the reserved byte in bits 24-31. */
  function Id(c: Combination): bv32 {
    (c.keycode as bv32)
    | (if c.leftCtrl then 0x0001_0000 else 0)
    | (if c.rightCtrl then 0x0002_0000 else 0)
    | (if c.leftAlt then 0x0004_0000 else 0)
    | (if c.rightAlt then 0x0008_0000 else 0)
    | (if c.leftShift then 0x0010_0000 else 0)
    | (if c.rightShift then 0x0020_0000 else 0)
    | (if c.leftWinKey then 0x0040_0000 else 0)
    | (if c.rightWinKey then 0x0080_0000 else 0)
    | ((c.reserved as bv32) << 24)
  }

  /** The fields an identifier holds. */
  function Decode(id: bv32): Combination {
    Combination(
      (id & 0xFFFF) as bv16,
      id & 0x0001_0000 != 0, id & 0x0002_0000 != 0,
      id & 0x0004_0000 != 0, id & 0x0008_0000 != 0,
      id & 0x0010_0000 != 0, id & 0x0020_0000 != 0,
      id & 0x0040_0000 != 0, id & 0x0080_0000 != 0,
      (id >> 24) as bv8)
  }

  /** The packing loses nothing, and every identifier is some packing. */
  lemma IdRoundTrip(c: Combination, id: bv32)
    ensures Decode(Id(c)) == c
    ensures Id(Decode(id)) == id
  {
  }

  /** Equality of two combinations: their identifiers are equal. */
  function Equals(a: Combination, b: Combination): (r: bool)
    ensures r <==> a == b
  {
    IdRoundTrip(a, 0);
    IdRoundTrip(b, 0);
    Id(a) == Id(b)
  }

  /** The hash of a combination: its identifier widened to `size_t`. */
  function Hash(c: Combination): (r: bv64)
    ensures r < 0x1_0000_0000
  {
    Id(c) as bv64
  }

  /** The hash is perfect: two combinations hash alike exactly when they are
      equal. */
  lemma HashExact(a: Combination, b: Combination)
    ensures Hash(a) == Hash(b) <==> Equals(a, b)
  {
    IdRoundTrip(a, 0);
    IdRoundTrip(b, 0);
  }

  // ---------------------------------------------------------------------
  // Assigning a key

  /** The eight modifier keys, each with a flag of its own. */
  predicate IsModifier(key: KeyCode) {
    key in {LALT, RALT, RCONTROL, LCONTROL, RSHIFT, LSHIFT, RWIN, LWIN}
  }

  /** The flag of modifier `key` in `c`. */
  function Flag(c: Combination, key: KeyCode): bool
    requires IsModifier(key)
  {
    if key == LCONTROL then c.leftCtrl
    else if key == RCONTROL then c.rightCtrl
    else if key == LALT then c.leftAlt
    else if key == RALT then c.rightAlt
    else if key == LSHIFT then c.leftShift
    else if key == RSHIFT then c.rightShift
    else if key == LWIN then c.leftWinKey
    else c.rightWinKey
  }

  /** A modifier key raises its own flag and touches nothing else; any other
      key replaces the plain key. */
  function AssignKey(c: Combination, key: KeyCode): (r: Combination)
    ensures IsModifier(key) ==> Flag(r, key) && r.keycode == c.keycode && r.reserved == c.reserved
    ensures IsModifier(key) ==> forall m :: IsModifier(m) && m != key ==> Flag(r, m) == Flag(c, m)
    ensures !IsModifier(key) ==> r.keycode == key
    ensures !IsModifier(key) ==> forall m :: IsModifier(m) ==> Flag(r, m) == Flag(c, m)
    ensures r.reserved == c.reserved
  {
    if key == LALT then c.(leftAlt := true)
    else if key == RALT then c.(rightAlt := true)
    else if key == RCONTROL then c.(rightCtrl := true)
    else if key == LCONTROL then c.(leftCtrl := true)
    else if key == RSHIFT then c.(rightShift := true)
    else if key == LSHIFT then c.(leftShift := true)
    else if key == RWIN then c.(rightWinKey := true)
    else if key == LWIN then c.(leftWinKey := true)
    else c.(keycode := key)
  }

  /** Assigning a key twice is assigning it once. */
  lemma AssignKeyIdempotent(c: Combination, key: KeyCode)
    ensures AssignKey(AssignKey(c, key), key) == AssignKey(c, key)
  {
  }

  /** Of two plain keys, the last one assigned wins. */
  lemma LastPlainKeyWins(c: Combination, a: KeyCode, b: KeyCode)
    requires !IsModifier(a) && !IsModifier(b)
    ensures AssignKey(AssignKey(c, a), b) == AssignKey(c, b)
  {
  }

  /** Modifiers may be assigned in either order. */
  lemma ModifiersCommute(c: Combination, a: KeyCode, b: KeyCode)
    requires IsModifier(a) && IsModifier(b)
    ensures AssignKey(AssignKey(c, a), b) == AssignKey(AssignKey(c, b), a)
  {
  }

  // ---------------------------------------------------------------------
  // The string helpers the parser calls

  /** ASCII upper-casing of one character. */
  function UpperChar(ch: char): char {
    if 'a' <= ch <= 'z' then (ch as int - 32) as char else ch
  }

  /** ASCII upper-casing: same length, each lower-case letter replaced by
      its capital, every other character kept. */
  function ToUpper(s: string): (r: string)
    ensures |r| == |s|
    ensures forall i :: 0 <= i < |r| ==> !('a' <= r[i] <= 'z')
    ensures forall i :: 0 <= i < |r| ==> !('a' <= s[i] <= 'z') ==> r[i] == s[i]
    ensures forall i :: 0 <= i < |s| && 'a' <= s[i] <= 'z' ==> r[i] == (s[i] as int - 32) as char
  {
    seq(|s|, i requires 0 <= i < |s| => UpperChar(s[i]))
  }

  /** Upper-casing leaves a string without lower-case letters as it is. */
  lemma UpperKeepsUpper(s: string)
    requires forall i :: 0 <= i < |s| ==> !('a' <= s[i] <= 'z')
    ensures ToUpper(s) == s
  {
  }

  /** The position of the first `sep` in `s`, or `|s|`. */
  function IndexOf(s: string, sep: char): (r: nat)
    ensures r <= |s| && (r < |s| ==> s[r] == sep)
    ensures forall j :: 0 <= j < r ==> s[j] != sep
  {
    if s == [] || s[0] == sep then 0 else 1 + IndexOf(s[1..], sep)
  }

  /** The fields joined back with the separator between them. */
  function Join(fields: seq<string>, sep: char): string
    requires |fields| >= 1
  {
    if |fields| == 1 then fields[0] else fields[0] + [sep] + Join(fields[1..], sep)
  }

  /** The fields of `s` between separators, empty fields included: none
      holds the separator and joined back they give `s`. */
  function Split(s: string, sep: char): (r: seq<string>)
    ensures |r| >= 1
    ensures forall i :: 0 <= i < |r| ==> sep !in r[i]
    ensures Join(r, sep) == s
    decreases |s|
  {
    var i := IndexOf(s, sep);
    if i == |s| then
      [s]
    else
      var rest := Split(s[i + 1..], sep);
      assert ([s[..i]] + rest)[1..] == rest;
      assert s == s[..i] + [sep] + s[i + 1..];
      [s[..i]] + rest
  }

  // ---------------------------------------------------------------------
  // Parsing

  /** What one token stands for: a group of alternative keys, one key, or
      nothing the name table knows. */
  datatype Token = Group(choices: seq<KeyCode>) | Key(code: KeyCode) | Unknown

  function Classify(table: NameTable, token: string): (t: Token)
    ensures t.Group? ==> |t.choices| == 2
    ensures t.Key? ==> t.code != UNASSIGNED
    ensures t.Unknown? ==> KeyNameToKeyCode(table, token) == UNASSIGNED
  {
    if token == "CONTROL" then Group([LCONTROL, RCONTROL])
    else if token == "ALT" then Group([LALT, RALT])
    else if token == "SHIFT" then Group([LSHIFT, RSHIFT])
    else if token == "WINKEY" then Group([LWIN, RWIN])
    else if token == "ENTER" then Group([ENTERMAIN, KEYPADENTER])
    else
      var code := KeyNameToKeyCode(table, token);
      if code == UNASSIGNED then Unknown else Key(code)
  }

  /** The parser's state after some tokens: the base combination built from
      the explicit keys, and one group of alternatives per generic token. */
  datatype Parsed = Parsed(base: Combination, groups: seq<seq<KeyCode>>)

  /** One token processed. */
  function ScanStep(table: NameTable, p: Parsed, token: string): Result<Parsed> {
    match Classify(table, token)
    case Group(g) => Success(p.(groups := p.groups + [g]))
    case Key(k) => Success(p.(base := AssignKey(p.base, k)))
    case Unknown => Failure(BadParameters(token))
  }

  /** The tokens processed in order; the first unknown one aborts. */
  function Scan(table: NameTable, tokens: seq<string>): (r: Result<Parsed>)
    ensures r.Success? ==> forall i :: 0 <= i < |r.value.groups| ==> |r.value.groups[i]| == 2
    decreases |tokens|
  {
    if tokens == [] then Success(Parsed(EMPTY, []))
    else match Scan(table, tokens[..|tokens| - 1])
      case Failure(e) => Failure(e)
      case Success(p) => ScanStep(table, p, tokens[|tokens| - 1])
  }

  /** The number of alternatives of each group. */
  function Sizes(groups: seq<seq<KeyCode>>): (r: seq<nat>)
    ensures |r| == |groups|
  {
    seq(|groups|, i requires 0 <= i < |groups| => |groups[i]|)
  }

  /** `base` with the choice `indices[i]` of each group `i` assigned, in
      group order. */
  function Choose(base: Combination, groups: seq<seq<KeyCode>>, indices: seq<nat>): Combination
    requires |indices| <= |groups|
    requires forall i :: 0 <= i < |indices| ==> indices[i] < |groups[i]|
    decreases |indices|
  {
    if indices == [] then base
    else
      var n := |indices| - 1;
      AssignKey(Choose(base, groups, indices[..n]), groups[n][indices[n]])
  }

  /** The combination of enumeration position `e`. */
  function Choice(base: Combination, groups: seq<seq<KeyCode>>, e: nat): Combination
    requires AllPositive(Sizes(groups))
  {
    DigitsInBounds(e, Sizes(groups));
    Choose(base, groups, Digits(e, Sizes(groups)))
  }

  /** One combination per tuple of choices, in enumeration order. */
  function Expand(base: Combination, groups: seq<seq<KeyCode>>): seq<Combination>
    requires AllPositive(Sizes(groups))
  {
    seq(Product(Sizes(groups)), e requires 0 <= e => Choice(base, groups, e))
  }

  /** The tokens of a string: upper-cased, split at '+'. */
  function Tokens(s: string): seq<string> {
    Split(ToUpper(s), '+')
  }

  /** What parsing `s` yields. */
  function Parse(table: NameTable, s: string): Result<seq<Combination>> {
    match Scan(table, Tokens(s))
    case Failure(e) => Failure(e)
    case Success(p) =>
      if p.groups == [] then Success([p.base])
      else Success(Expand(p.base, p.groups))
  }

  /** Once a prefix of the tokens fails, the whole scan fails the same way. */
  lemma {:induction false} ScanFailurePersists(table: NameTable, tokens: seq<string>, n: nat)
    requires n <= |tokens| && Scan(table, tokens[..n]).Failure?
    ensures Scan(table, tokens) == Scan(table, tokens[..n])
    decreases |tokens| - n
  {
    if n < |tokens| {
      assert tokens[..n + 1][..n] == tokens[..n];
      ScanFailurePersists(table, tokens, n + 1);
    } else {
      assert tokens[..n] == tokens;
    }
  }

  /** Parses `s` against the name table: every generic token contributes a
      pair of alternatives, every other token must name a key. */
  method FromString(table: NameTable, s: string) returns (r: Result<seq<Combination>>)
    ensures r == Parse(table, s)
  {
    var upper := ToUpper(s);
    var keyCombination := Split(upper, '+');
    var parsed := ScanTokens(table, keyCombination);
    match parsed {
      case Failure(e) =>
        r := Failure(e);
      case Success(p) =>
        if p.groups != [] {
          var bindings := ExpandGroups(p.base, p.groups);
          r := Success(bindings);
        } else {
          r := Success([p.base]);
        }
    }
  }

  /** The token loop: explicit keys go into one combination, generic
      modifiers into the list of groups; an unknown name aborts. */
  method ScanTokens(table: NameTable, keyCombination: seq<string>) returns (r: Result<Parsed>)
    ensures r == Scan(table, keyCombination)
  {
    var combination := EMPTY;
    var groups: seq<seq<KeyCode>> := [];
    var n := 0;
    while n < |keyCombination|
      invariant 0 <= n <= |keyCombination|
      invariant Scan(table, keyCombination[..n]) == Success(Parsed(combination, groups))
    {
      var key := keyCombination[n];
      assert keyCombination[..n + 1][..n] == keyCombination[..n];
      if key == "CONTROL" {
        groups := groups + [[LCONTROL, RCONTROL]];
      } else if key == "ALT" {
        groups := groups + [[LALT, RALT]];
      } else if key == "SHIFT" {
        groups := groups + [[LSHIFT, RSHIFT]];
      } else if key == "WINKEY" {
        groups := groups + [[LWIN, RWIN]];
      } else if key == "ENTER" {
        groups := groups + [[ENTERMAIN, KEYPADENTER]];
      } else {
        var keyCode := KeyNameToKeyCode(table, key);
        if keyCode == UNASSIGNED {
          ScanFailurePersists(table, keyCombination, n + 1);
          r := Failure(BadParameters(key));
          return;
        }
        combination := AssignKey(combination, keyCode);
      }
      n := n + 1;
    }
    assert keyCombination[..n] == keyCombination;
    r := Success(Parsed(combination, groups));
  }

  /** The expansion: one copy of `combination` per tuple of choices, with
      the chosen keys assigned. */
  method ExpandGroups(combination: Combination, groups: seq<seq<KeyCode>>) returns (bindings: seq<Combination>)
    requires forall i :: 0 <= i < |groups| ==> |groups[i]| == 2
    ensures AllPositive(Sizes(groups))
    ensures bindings == Expand(combination, groups)
  {
    var sizes := GroupSizes(groups);
    assert AllPositive(sizes);
    var indices := ComputeCombinations(sizes);
    bindings := [];
    var k := 0;
    while k < |indices|
      invariant 0 <= k <= |indices| && |bindings| == k
      invariant forall j :: 0 <= j < k ==> bindings[j] == Choice(combination, groups, j)
    {
      DigitsInBounds(k, sizes);
      var extraCombination := ApplyChoices(combination, groups, indices[k]);
      bindings := bindings + [extraCombination];
      k := k + 1;
    }
    assert forall j :: 0 <= j < |bindings| ==> bindings[j] == Expand(combination, groups)[j];
  }

  /** The number of alternatives of each group, in group order. */
  method GroupSizes(groups: seq<seq<KeyCode>>) returns (sizes: seq<nat>)
    ensures sizes == Sizes(groups)
  {
    sizes := [];
    var i := 0;
    while i < |groups|
      invariant 0 <= i <= |groups| && |sizes| == i
      invariant forall j :: 0 <= j < i ==> sizes[j] == |groups[j]|
    {
      sizes := sizes + [|groups[i]|];
      i := i + 1;
    }
  }

  /** Assigns the chosen key of every group to a copy of `base`. */
  method ApplyChoices(base: Combination, groups: seq<seq<KeyCode>>, indices: seq<nat>) returns (c: Combination)
    requires |indices| <= |groups|
    requires forall i :: 0 <= i < |indices| ==> indices[i] < |groups[i]|
    ensures c == Choose(base, groups, indices)
  {
    c := base;
    var i := 0;
    while i < |indices|
      invariant 0 <= i <= |indices|
      invariant c == Choose(base, groups, indices[..i])
    {
      assert indices[..i + 1][..i] == indices[..i];
      c := AssignKey(c, groups[i][indices[i]]);
      i := i + 1;
    }
    assert indices[..i] == indices;
  }

  // ---------------------------------------------------------------------
  // What parsing promises

  /** The five generic modifier names. */
  predicate IsGroupName(token: string) {
    token in {"CONTROL", "ALT", "SHIFT", "WINKEY", "ENTER"}
  }

  /** The number of generic tokens. */
  function GroupCount(tokens: seq<string>): (r: nat)
    ensures r <= |tokens|
  {
    if tokens == [] then 0
    else GroupCount(tokens[..|tokens| - 1]) + (if IsGroupName(tokens[|tokens| - 1]) then 1 else 0)
  }

  /** Token `i` is the first one the name table does not know. */
  predicate FirstUnknown(table: NameTable, tokens: seq<string>, i: int) {
    0 <= i < |tokens| && Classify(table, tokens[i]).Unknown?
    && forall j :: 0 <= j < i ==> !Classify(table, tokens[j]).Unknown?
  }

  /** The scan fails exactly when some token is neither generic nor in the
      table, and then it reports the first such token; when it succeeds
      there is one group per generic token. */
  lemma {:induction false} ScanOutcome(table: NameTable, tokens: seq<string>)
    ensures Scan(table, tokens).Failure? <==> exists i :: 0 <= i < |tokens| && Classify(table, tokens[i]).Unknown?
    ensures forall i :: FirstUnknown(table, tokens, i) ==> Scan(table, tokens) == Failure(BadParameters(tokens[i]))
    ensures Scan(table, tokens).Success? ==> |Scan(table, tokens).value.groups| == GroupCount(tokens)
    decreases |tokens|
  {
    if tokens != [] {
      var n := |tokens| - 1;
      var pre := tokens[..n];
      ScanOutcome(table, pre);
      assert forall i :: 0 <= i < n ==> pre[i] == tokens[i];
      forall i | FirstUnknown(table, tokens, i)
        ensures Scan(table, tokens) == Failure(BadParameters(tokens[i]))
      {
        if i < n {
          assert FirstUnknown(table, pre, i);
        }
      }
    }
  }

  function Pow2(n: nat): nat {
    if n == 0 then 1 else 2 * Pow2(n - 1)
  }

  /** `n` groups of two alternatives have 2^n tuples of choices. */
  lemma {:induction false} ProductOfPairs(groups: seq<seq<KeyCode>>)
    requires forall i :: 0 <= i < |groups| ==> |groups[i]| == 2
    ensures Product(Sizes(groups)) == Pow2(|groups|)
  {
    if groups != [] {
      assert Sizes(groups)[1..] == Sizes(groups[1..]);
      ProductOfPairs(groups[1..]);
    }
  }

  /** A string with `k` generic tokens and only known names yields 2^k
      combinations; one unknown name makes it fail with that name. */
  lemma ParseCount(table: NameTable, s: string)
    ensures Parse(table, s).Success? <==> forall i :: 0 <= i < |Tokens(s)| ==> !Classify(table, Tokens(s)[i]).Unknown?
    ensures Parse(table, s).Success? ==> |Parse(table, s).value| == Pow2(GroupCount(Tokens(s)))
    ensures forall i :: FirstUnknown(table, Tokens(s), i) ==> Parse(table, s) == Failure(BadParameters(Tokens(s)[i]))
  {
    var tokens := Tokens(s);
    ScanOutcome(table, tokens);
    var r := Scan(table, tokens);
    if r.Success? {
      ProductOfPairs(r.value.groups);
    }
  }

  /** With no generic token the result is the one combination of the
      explicit keys. */
  lemma NoGroupsOneCombination(table: NameTable, s: string)
    requires Scan(table, Tokens(s)).Success? && GroupCount(Tokens(s)) == 0
    ensures Parse(table, s) == Success([Scan(table, Tokens(s)).value.base])
  {
    ScanOutcome(table, Tokens(s));
  }

  /** Every result is the combination of the explicit keys with one choice
      per group assigned after it, and every way of choosing occurs exactly
      once. */
  lemma ParseCoversChoices(table: NameTable, s: string)
    requires Scan(table, Tokens(s)).Success? && Scan(table, Tokens(s)).value.groups != []
    ensures var p := Scan(table, Tokens(s)).value;
      && AllPositive(Sizes(p.groups))
      && Parse(table, s).Success?
      && (forall e :: 0 <= e < |Parse(table, s).value| ==>
            InBounds(Digits(e, Sizes(p.groups)), Sizes(p.groups))
            && Parse(table, s).value[e] == Choose(p.base, p.groups, Digits(e, Sizes(p.groups))))
      && (forall t :: InBounds(t, Sizes(p.groups)) ==>
            Index(t, Sizes(p.groups)) < |Parse(table, s).value|
            && Parse(table, s).value[Index(t, Sizes(p.groups))] == Choose(p.base, p.groups, t))
  {
    var p := Scan(table, Tokens(s)).value;
    var sizes := Sizes(p.groups);
    assert AllPositive(sizes);
    var value := Parse(table, s).value;
    assert value == Expand(p.base, p.groups);
    forall e | 0 <= e < |value|
      ensures InBounds(Digits(e, sizes), sizes) && value[e] == Choose(p.base, p.groups, Digits(e, sizes))
    {
      DigitsInBounds(e, sizes);
      assert value[e] == Choice(p.base, p.groups, e);
    }
    forall t | InBounds(t, sizes)
      ensures Index(t, sizes) < |value| && value[Index(t, sizes)] == Choose(p.base, p.groups, t)
    {
      DigitsOfIndex(t, sizes);
    }
  }

  /** A string without the separator is one field. */
  lemma SplitNoSep(s: string, sep: char)
    requires sep !in s
    ensures Split(s, sep) == [s]
  {
  }

  /** A string whose first separator is at `i` splits there. */
  lemma SplitAt(s: string, sep: char, i: nat)
    requires i < |s| && s[i] == sep && sep !in s[..i]
    ensures Split(s, sep) == [s[..i]] + Split(s[i + 1..], sep)
  {
    assert forall j :: 0 <= j < i ==> s[j] == s[..i][j];
  }

  /** A string made of two separator-free fields around one separator. */
  lemma TwoFields(s: string, x: string, y: string, sep: char)
    requires s == x + [sep] + y && sep !in x && sep !in y
    ensures Split(s, sep) == [x, y]
  {
    assert s[..|x|] == x && s[|x| + 1..] == y;
    SplitAt(s, sep, |x|);
    SplitNoSep(y, sep);
  }

  /** The two parts of "control+a". */
  lemma ControlATokens()
    ensures Tokens("control+a") == ["CONTROL", "A"]
  {
    var u := ToUpper("control+a");
    assert u[0] == 'C' && u[1] == 'O' && u[2] == 'N' && u[3] == 'T' && u[4] == 'R';
    assert u[5] == 'O' && u[6] == 'L' && u[7] == '+' && u[8] == 'A';
    TwoFields(u, "CONTROL", "A", '+');
  }

  /** Expanding one group of two alternatives. */
  lemma ExpandPair(base: Combination, a: KeyCode, b: KeyCode)
    ensures AllPositive(Sizes([[a, b]]))
    ensures Expand(base, [[a, b]]) == [AssignKey(base, a), AssignKey(base, b)]
  {
    var groups := [[a, b]];
    assert Sizes(groups) == [2];
    assert Digits(0, [2]) == [0] && Digits(1, [2]) == [1];
    assert [0][..0] == [] && [1][..0] == [];
    assert Choice(base, groups, 0) == AssignKey(base, a);
    assert Choice(base, groups, 1) == AssignKey(base, b);
  }

  /** "control+a" against a table that names key 0x1E "A": two bindings,
      with the left and with the right Control key. */
  lemma ControlAScenario()
    ensures Parse([(0x1E, "A")], "control+a") == Success([
      Combination(0x1E, true, false, false, false, false, false, false, false, 0),
      Combination(0x1E, false, true, false, false, false, false, false, false, 0)])
  {
    var table: NameTable := [(0x1E, "A")];
    ControlATokens();
    var base := EMPTY.(keycode := 0x1E);
    assert Classify(table, "CONTROL") == Group([LCONTROL, RCONTROL]);
    assert KeyNameToKeyCode(table, "A") == 0x1E;
    assert Classify(table, "A") == Key(0x1E);
    assert ["CONTROL"][..0] == [];
    var pair: seq<seq<KeyCode>> := [[LCONTROL, RCONTROL]];
    assert [] + pair == pair;
    assert ScanStep(table, Parsed(EMPTY, []), "CONTROL") == Success(Parsed(EMPTY, pair));
    assert Scan(table, ["CONTROL"]) == Success(Parsed(EMPTY, [[LCONTROL, RCONTROL]]));
    assert ["CONTROL", "A"][..1] == ["CONTROL"];
    assert Scan(table, ["CONTROL", "A"]) == Success(Parsed(base, [[LCONTROL, RCONTROL]]));
    ExpandPair(base, LCONTROL, RCONTROL);
  }

  /** The two parts of "ctrl+a". */
  lemma CtrlATokens()
    ensures Tokens("ctrl+a") == ["CTRL", "A"]
  {
    var u := ToUpper("ctrl+a");
    assert u[0] == 'C' && u[1] == 'T' && u[2] == 'R' && u[3] == 'L' && u[4] == '+' && u[5] == 'A';
    TwoFields(u, "CTRL", "A", '+');
  }

  /** A name the table does not hold aborts the parse with that name, upper
      cased. */
  lemma UnknownNameScenario()
    ensures Parse([(0x1E, "A")], "ctrl+a") == Failure(BadParameters("CTRL"))
  {
    var table: NameTable := [(0x1E, "A")];
    CtrlATokens();
    assert ["CTRL", "A"][..1] == ["CTRL"];
    assert Scan(table, ["CTRL"]) == Failure(BadParameters("CTRL"));
  }

  /** The two parts of "A+ENTER". */
  lemma AEnterTokens()
    ensures Tokens("A+ENTER") == ["A", "ENTER"]
  {
    var s := "A+ENTER";
    assert |s| == 7 && s[0] == 'A' && s[1] == '+' && s[2] == 'E' && s[3] == 'N' && s[4] == 'T' && s[5] == 'E' && s[6] == 'R';
    UpperKeepsUpper(s);
    TwoFields(s, "A", "ENTER", '+');
  }

  /** ENTER stands for two plain keys, and groups are assigned after the
      explicit keys: "A+ENTER" binds the two Enter keys and no longer A. */
  lemma EnterOverridesExplicitKey()
    ensures Parse([(0x1E, "A")], "A+ENTER") == Success([
      Combination(ENTERMAIN, false, false, false, false, false, false, false, false, 0),
      Combination(KEYPADENTER, false, false, false, false, false, false, false, false, 0)])
  {
    var table: NameTable := [(0x1E, "A")];
    AEnterTokens();
    var base := EMPTY.(keycode := 0x1E);
    assert KeyNameToKeyCode(table, "A") == 0x1E;
    assert Classify(table, "A") == Key(0x1E);
    assert Classify(table, "ENTER") == Group([ENTERMAIN, KEYPADENTER]);
    assert ["A", "ENTER"][..1] == ["A"];
    assert Scan(table, ["A"]) == Success(Parsed(base, []));
    var pair: seq<seq<KeyCode>> := [[ENTERMAIN, KEYPADENTER]];
    assert [] + pair == pair;
    assert ScanStep(table, Parsed(base, []), "ENTER") == Success(Parsed(base, [[ENTERMAIN, KEYPADENTER]]));
    assert Scan(table, ["A", "ENTER"]) == Success(Parsed(base, [[ENTERMAIN, KEYPADENTER]]));
    ExpandPair(base, ENTERMAIN, KEYPADENTER);
  }
}
