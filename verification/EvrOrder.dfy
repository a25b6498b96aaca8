/** Comparing editions, epoch:version-release (pool_evrcmp_str, src/evr.c), in EVRCMP_COMPARE mode without epoch promotion. */
module EvrOrder {
  import opened Bytes
  import opened Lexicographic
  import opened Evr

  datatype Edition = Edition(epoch: Text, version: Text, release: Option<Text>)

  /** The position of the last '-', or -1. */
  function LastDash(s: Text): (r: int)
    ensures -1 <= r < |s|
  {
    if s == [] then -1
    else if s[|s| - 1] == '-' as int then |s| - 1
    else LastDash(s[..|s| - 1])
  }

  function HasEpoch(s: Text): bool {
    Digits(s) != [] && AfterDigits(s) != [] && AfterDigits(s)[0] == ':' as int
  }

  function AfterEpoch(s: Text): Text {
    if HasEpoch(s) then AfterDigits(s)[1..] else s
  }

  function VersionOf(rest: Text): Text {
    var d := LastDash(rest);
    if d < 0 then rest else rest[..d]
  }

  function ReleaseOf(rest: Text): Option<Text> {
    var d := LastDash(rest);
    if d < 0 then None else Some(rest[d + 1..])
  }

  /** The epoch is a non-empty run of digits before a colon at the start; the release is what follows the last dash. */
  function Parse(s: Text): Edition {
    var rest := AfterEpoch(s);
    Edition(if HasEpoch(s) then Digits(s) else [], VersionOf(rest), ReleaseOf(rest))
  }

  /** How the distribution compares version strings. */
  function Key(deb: bool, s: Text): seq<int> { if deb then DebKey(s) else RpmKey(s) }

  /** The number of the epoch; none counts as 0. */
  function EpochOf(e: Edition): nat { Value(Digits(e.epoch)) }

  /** No release ranks below any release. Two releases of which one is empty are not told apart. */
  function ReleaseOrder(deb: bool, r: Option<Text>, q: Option<Text>): int {
    if r.None? then (if q.None? then 0 else -1)
    else if q.None? then 1
    else if r.value == [] || q.value == [] then 0
    else Lex(Key(deb, r.value), Key(deb, q.value))
  }

  /** Epochs by number, then versions, then releases. */
  function Order(deb: bool, e: Edition, f: Edition): int {
    if EpochOf(e) != EpochOf(f) then Sign(EpochOf(e) - EpochOf(f))
    else
      var r := Lex(Key(deb, e.version), Key(deb, f.version));
      if r != 0 then r else ReleaseOrder(deb, e.release, f.release)
  }

  /** What follows the epochs, version and release. */
  function OrderRest(deb: bool, s: Text, t: Text): int {
    var r := Lex(Key(deb, VersionOf(s)), Key(deb, VersionOf(t)));
    if r != 0 then r else ReleaseOrder(deb, ReleaseOf(s), ReleaseOf(t))
  }

  function EvrCmp(deb: bool, a: Text, b: Text): int { Order(deb, Parse(a), Parse(b)) }

  // ---- the code ----

  method VerCmp(deb: bool, s: Text, t: Text) returns (r: int)
    ensures r == Lex(Key(deb, s), Key(deb, t))
  {
    if deb { r := VerCmpDeb(s, t); } else { r := VerCmpRpm(s, t); }
  }

  lemma {:induction false} AllDigits(s: Text)
    requires forall k :: 0 <= k < |s| ==> Digit(s[k])
    ensures Digits(s) == s && AfterDigits(s) == []
  {
    if s != [] {
      assert Digit(s[0]);
      AllDigits(s[1..]);
    }
  }

  lemma DebNumberKey(d: Text)
    requires d != [] && Digits(d) == d && AfterDigits(d) == [] && Digit(d[0])
    ensures DebKey(d) == [1, Value(d), 0]
  {
    hide Digits, AfterDigits, Value;
    assert DebKey([]) == [0];
    assert DebKey(d) == [1, Value(d)] + DebKey([]);
  }

  lemma RpmNumberKey(d: Text)
    requires d != [] && Digits(d) == d && AfterDigits(d) == [] && Digit(d[0])
    ensures RpmKey(d) == [300 + Value(d)]
  {
    hide Digits, AfterDigits, Value, Letters;
    assert RpmKey([]) == [];
    assert SkipSeparators(d) == d;
    assert RpmKey(d) == [300 + Value(d)] + RpmKey([]);
  }

  lemma NumberKey(deb: bool, d: Text)
    requires d != [] && forall k :: 0 <= k < |d| ==> Digit(d[k])
    ensures Key(deb, d) == if deb then [1, Value(d), 0] else [300 + Value(d)]
  {
    hide Value, Digits, AfterDigits, RpmKey, DebKey;
    AllDigits(d);
    assert Digit(d[0]);
    DebNumberKey(d);
    RpmNumberKey(d);
  }

  /** Strings of digits compare by value. */
  lemma NumberKeys(deb: bool, d: Text, e: Text)
    requires forall k :: 0 <= k < |d| ==> Digit(d[k])
    requires forall k :: 0 <= k < |e| ==> Digit(e[k])
    requires d != [] && e != []
    ensures Lex(Key(deb, d), Key(deb, e)) == Sign(Value(d) - Value(e))
  {
    hide Value, Key;
    NumberKey(deb, d);
    NumberKey(deb, e);
    LexAnti(Key(deb, d), Key(deb, e));
    if deb && Value(d) != Value(e) {
      LexSkip([1], [Value(d), 0], [Value(e), 0]);
      assert [1] + [Value(d), 0] == Key(deb, d) && [1] + [Value(e), 0] == Key(deb, e);
    }
  }

  /** A number is 0 exactly when it is all zeros. */
  lemma {:induction false} ZeroValue(d: Text, z: nat)
    requires z <= |d|
    requires forall k :: 0 <= k < |d| ==> Digit(d[k])
    requires forall k :: 0 <= k < z ==> d[k] == '0' as int
    requires z < |d| ==> d[z] != '0' as int
    ensures Value(d) == 0 <==> z == |d|
  {
    if d == [] {
    } else if z == |d| {
      ZeroValue(d[..|d| - 1], z - 1);
    } else if z == |d| - 1 {
      ZeroValue(d[..|d| - 1], z);
    } else {
      ZeroValue(d[..|d| - 1], z);
    }
  }

  /** Whether an epoch is other than 0: skip its zeros and look for the colon. */
  method NonZeroEpoch(s: Text) returns (r: bool)
    requires HasEpoch(s)
    ensures r <==> Value(Digits(s)) != 0
  {
    var z := 0;
    assert s[|Digits(s)|] == AfterDigits(s)[0];
    while s[z] == '0' as int
      invariant z <= |Digits(s)| < |s|
      invariant forall k :: 0 <= k < z ==> s[k] == '0' as int
      decreases |s| - z
    {
      assert z < |Digits(s)|;
      z := z + 1;
    }
    ZeroValue(Digits(s), z);
    if z < |Digits(s)| { assert Digit(Digits(s)[z]); }
    r := s[z] != ':' as int;
  }

  /** Find the epoch: how many digits there are before a colon, 0 if there is no epoch. */
  method FindEpoch(s: Text) returns (n: nat)
    ensures n == if HasEpoch(s) then |Digits(s)| else 0
    ensures n <= |s|
    ensures n == 0 ==> AfterEpoch(s) == s
    ensures n > 0 ==> s[..n] == Digits(s) && n < |s| && s[n + 1..] == AfterEpoch(s)
  {
    n := DigitRun(s);
    assert n < |s| ==> AfterDigits(s)[0] == s[n];
    if n == 0 || n == |s| || s[n] != ':' as int { n := 0; }
  }

  /** Find the last dash. */
  method FindRelease(s: Text) returns (d: int)
    ensures d == LastDash(s)
  {
    d := -1;
    var k := 0;
    while k < |s|
      invariant k <= |s| && d == LastDash(s[..k])
    {
      assert s[..k + 1][..k] == s[..k];
      if s[k] == '-' as int { d := k; }
      k := k + 1;
    }
    assert s[..k] == s;
  }

  lemma EpochIs(s: Text)
    ensures EpochOf(Parse(s)) == if HasEpoch(s) then Value(Digits(s)) else 0
  {
    assert Value([]) == 0;
    hide Value;
    AllDigits(Digits(s));
  }

  /** Compare the epochs. */
  method CompareEpochs(deb: bool, s: Text, t: Text, n: nat, m: nat) returns (r: int)
    requires n == if HasEpoch(s) then |Digits(s)| else 0
    requires m == if HasEpoch(t) then |Digits(t)| else 0
    ensures r == Sign(EpochOf(Parse(s)) - EpochOf(Parse(t)))
  {
    hide Key, Lex, EpochOf, Value, Parse;
    EpochIs(s);
    EpochIs(t);
    r := 0;
    if n > 0 && m > 0 {
      NumberKeys(deb, Digits(s), Digits(t));
      assert s[..n] == Digits(s) && t[..m] == Digits(t);
      r := VerCmp(deb, s[..n], t[..m]);
    } else if n > 0 {
      var big := NonZeroEpoch(s);
      if big { r := 1; }
    } else if m > 0 {
      var big := NonZeroEpoch(t);
      if big { r := -1; }
    }
  }

  /** Compare what follows the epochs. */
  method CompareRest(deb: bool, s1: Text, s2: Text) returns (r: int)
    ensures r == OrderRest(deb, s1, s2)
  {
    hide Key, Lex, LastDash;
    var r1 := FindRelease(s1);
    var r2 := FindRelease(s2);
    r := VerCmp(deb, if r1 >= 0 then s1[..r1] else s1, if r2 >= 0 then s2[..r2] else s2);
    if r != 0 { return; }
    if r1 < 0 && r2 >= 0 { return -1; }
    if r1 >= 0 && r2 < 0 { return 1; }
    if r1 >= 0 && r2 >= 0 {
      if r1 + 1 != |s1| && r2 + 1 != |s2| {
        r := VerCmp(deb, s1[r1 + 1..], s2[r2 + 1..]);
      }
    }
  }

  /** pool_evrcmp_str: epochs, versions, and releases where both editions have a non-empty one. */
  method EvrCmpStr(deb: bool, evr1: Text, evr2: Text) returns (r: int)
    ensures r == EvrCmp(deb, evr1, evr2)
  {
    hide EpochOf, OrderRest, HasEpoch;
    var n := FindEpoch(evr1);
    var m := FindEpoch(evr2);
    r := CompareEpochs(deb, evr1, evr2, n, m);
    OrderParts(deb, evr1, evr2);
    if r != 0 { return; }
    r := CompareRest(deb, if n > 0 then evr1[n + 1..] else evr1, if m > 0 then evr2[m + 1..] else evr2);
  }

  lemma OrderParts(deb: bool, a: Text, b: Text)
    ensures EvrCmp(deb, a, b) ==
      var r := Sign(EpochOf(Parse(a)) - EpochOf(Parse(b)));
      if r != 0 then r else OrderRest(deb, AfterEpoch(a), AfterEpoch(b))
  {
    hide EpochOf, Key, Lex, LastDash, AfterEpoch, HasEpoch;
  }

  // ---- what kind of order it is ----

  /** The release, if there is a dash, is not empty. */
  predicate Proper(s: Text) {
    var r := Parse(s).release;
    r.None? || r.value != []
  }

  /** Both version comparisons are total preorders on all strings. */
  lemma VersionPreorder(deb: bool, s: Text, t: Text, u: Text)
    ensures Lex(Key(deb, t), Key(deb, s)) == -Lex(Key(deb, s), Key(deb, t))
    ensures Lex(Key(deb, s), Key(deb, s)) == 0
    ensures Lex(Key(deb, s), Key(deb, t)) <= 0 && Lex(Key(deb, t), Key(deb, u)) <= 0 ==> Lex(Key(deb, s), Key(deb, u)) <= 0
  {
    hide Key;
    LexAnti(Key(deb, s), Key(deb, t));
    LexAnti(Key(deb, s), Key(deb, s));
    if Lex(Key(deb, s), Key(deb, t)) <= 0 && Lex(Key(deb, t), Key(deb, u)) <= 0 {
      LexTrans(Key(deb, s), Key(deb, t), Key(deb, u));
    }
  }

  lemma ReleaseAnti(deb: bool, r: Option<Text>, q: Option<Text>)
    ensures ReleaseOrder(deb, q, r) == -ReleaseOrder(deb, r, q)
  {
    hide Key, Lex;
    if r.Some? && q.Some? { LexAnti(Key(deb, r.value), Key(deb, q.value)); }
  }

  lemma ReleaseTrans(deb: bool, r: Option<Text>, q: Option<Text>, p: Option<Text>)
    requires q.Some? ==> q.value != []
    requires r.Some? ==> r.value != []
    requires p.Some? ==> p.value != []
    requires ReleaseOrder(deb, r, q) <= 0 && ReleaseOrder(deb, q, p) <= 0
    ensures ReleaseOrder(deb, r, p) <= 0
    ensures ReleaseOrder(deb, r, p) == 0 ==> ReleaseOrder(deb, r, q) == 0 && ReleaseOrder(deb, q, p) == 0
  {
    hide Key, Lex;
    if r.Some? && q.Some? && p.Some? { LexTrans(Key(deb, r.value), Key(deb, q.value), Key(deb, p.value)); }
  }

  /** The comparison changes its sign when its arguments are exchanged, on all strings. */
  lemma EvrAnti(deb: bool, a: Text, b: Text)
    ensures EvrCmp(deb, b, a) == -EvrCmp(deb, a, b)
    ensures EvrCmp(deb, a, a) == 0
  {
    hide Key, Lex, Parse, EpochOf, ReleaseOrder;
    var e, f := Parse(a), Parse(b);
    LexAnti(Key(deb, e.version), Key(deb, f.version));
    LexAnti(Key(deb, e.version), Key(deb, e.version));
    ReleaseAnti(deb, e.release, f.release);
    ReleaseAnti(deb, e.release, e.release);
  }

  /** It is transitive on proper editions. */
  lemma EvrTrans(deb: bool, a: Text, b: Text, c: Text)
    requires Proper(a) && Proper(b) && Proper(c)
    requires EvrCmp(deb, a, b) <= 0 && EvrCmp(deb, b, c) <= 0
    ensures EvrCmp(deb, a, c) <= 0
    ensures EvrCmp(deb, a, c) == 0 ==> EvrCmp(deb, a, b) == 0 && EvrCmp(deb, b, c) == 0
  {
    hide Key, Lex, Parse, EpochOf, ReleaseOrder;
    var e, f, g := Parse(a), Parse(b), Parse(c);
    if EpochOf(e) == EpochOf(f) == EpochOf(g) {
      LexTrans(Key(deb, e.version), Key(deb, f.version), Key(deb, g.version));
      if Lex(Key(deb, e.version), Key(deb, g.version)) == 0 {
        ReleaseTrans(deb, e.release, f.release, g.release);
      }
    }
  }

  // ---- where it is not transitive ----

  lemma DigitsPrefix(s: Text, x: Char)
    requires AfterDigits(s) != []
    ensures Digits(s + [x]) == Digits(s) && AfterDigits(s + [x]) == AfterDigits(s) + [x]
    decreases |s|
  {
    if Digit(s[0]) {
      assert AfterDigits(s) == AfterDigits(s[1..]);
      DigitsPrefix(s[1..], x);
      assert (s + [x])[1..] == s[1..] + [x];
    }
  }

  lemma ProperMeans(b: Text)
    ensures Proper(b) <==> (AfterEpoch(b) == [] || AfterEpoch(b)[|AfterEpoch(b)| - 1] != '-' as int)
  {
    hide AfterEpoch, HasEpoch;
  }

  lemma RestMore(rest: Text, x: Char)
    requires Digit(x) && rest != [] && rest[|rest| - 1] == '-' as int
    ensures VersionOf(rest + [x]) == VersionOf(rest) && ReleaseOf(rest + [x]) == Some([x])
  {
    assert (rest + [x])[..|rest|] == rest;
    assert LastDash(rest + [x]) == LastDash(rest) == |rest| - 1;
    assert (rest + [x])[..|rest| - 1] == rest[..|rest| - 1];
    assert (rest + [x])[|rest|..] == [x];
  }

  lemma OnlyDigits(s: Text)
    requires s != []
    ensures AfterDigits(s) == [] ==> Digit(s[|s| - 1])
  {
    assert Digits(s) + [] == Digits(s);
  }

  lemma EpochMore(b: Text, x: Char)
    requires AfterEpoch(b) != [] && !Digit(AfterEpoch(b)[|AfterEpoch(b)| - 1])
    ensures HasEpoch(b + [x]) == HasEpoch(b) && Digits(b + [x]) == Digits(b)
    ensures AfterEpoch(b + [x]) == AfterEpoch(b) + [x]
  {
    hide Digits, AfterDigits;
    assert Digits(b) + AfterDigits(b) == b;
    assert AfterEpoch(b)[|AfterEpoch(b)| - 1] == b[|b| - 1];
    OnlyDigits(b);
    DigitsPrefix(b, x);
    var a := AfterDigits(b);
    assert (a + [x])[0] == a[0] && (a + [x])[1..] == a[1..] + [x];
  }

  lemma ParseMore(b: Text, x: Char)
    requires Digit(x) && !Proper(b)
    ensures Parse(b + [x]) == Parse(b).(release := Some([x]))
  {
    hide Proper, AfterEpoch, HasEpoch, Digits, LastDash, VersionOf, ReleaseOf;
    ProperMeans(b);
    EpochMore(b, x);
    RestMore(AfterEpoch(b), x);
  }

  ghost predicate Three(a: Text, b: Text, c: Text) { true }

  /** The comparison is transitive through b. */
  ghost predicate TransitiveThrough(deb: bool, b: Text) {
    forall a, c {:trigger Three(a, b, c)} ::
      Three(a, b, c) && Proper(a) && Proper(c) && EvrCmp(deb, a, b) <= 0 && EvrCmp(deb, b, c) <= 0 ==>
        EvrCmp(deb, a, c) <= 0
  }

  /** An edition with a dash and nothing behind it equals every edition with the same epoch and version and a release. */
  lemma EmptyReleaseEqual(deb: bool, b: Text, x: Char)
    requires Digit(x) && !Proper(b)
    ensures Proper(b + [x]) && EvrCmp(deb, b + [x], b) == 0 && EvrCmp(deb, b, b + [x]) == 0
  {
    hide Parse, Key, Lex;
    ParseMore(b, x);
    LexAnti(Key(deb, Parse(b).version), Key(deb, Parse(b).version));
  }

  lemma ReleasesDiffer(deb: bool, b: Text)
    requires !Proper(b)
    ensures EvrCmp(deb, b + ['2' as Char], b + ['1' as Char]) == 1
  {
    hide Parse, Key;
    var one: Text, two: Text := ['1' as Char], ['2' as Char];
    ParseMore(b, one[0]);
    ParseMore(b, two[0]);
    LexAnti(Key(deb, Parse(b).version), Key(deb, Parse(b).version));
    NumberKeys(deb, two, one);
    assert Value(one) == 1 && Value(two) == 2;
  }

  /** The order is transitive through exactly those editions whose release, if there is a dash, is not empty. */
  lemma TransitiveIffProper(deb: bool, b: Text)
    ensures TransitiveThrough(deb, b) <==> Proper(b)
  {
    hide Parse, EvrCmp, Proper;
    if Proper(b) {
      forall a, c | Three(a, b, c) && Proper(a) && Proper(c) && EvrCmp(deb, a, b) <= 0 && EvrCmp(deb, b, c) <= 0
        ensures EvrCmp(deb, a, c) <= 0
      {
        EvrTrans(deb, a, b, c);
      }
    } else {
      EmptyReleaseEqual(deb, b, '1' as Char);
      EmptyReleaseEqual(deb, b, '2' as Char);
      ReleasesDiffer(deb, b);
      assert Three(b + ['2' as Char], b, b + ['1' as Char]);
    }
  }

  /** The text 1- has no epoch. */
  lemma DashParsed(b: Text)
    requires b == ['1' as Char, '-' as Char]
    ensures !Proper(b)
  {
    hide Proper, LastDash;
    assert b[0] == '1' as int && b[1] == '-' as int && b[1..] == ['-' as Char];
    assert Digits(b[1..]) == [] && AfterDigits(b[1..]) == b[1..];
    assert AfterDigits(b) == b[1..];
    assert AfterEpoch(b) == b;
    ProperMeans(b);
  }

  /** The edition 1- equals 1-1 and 1-2, and these differ. */
  lemma DashAlone(deb: bool, b: Text, one: Text, two: Text)
    requires b == ['1' as Char, '-' as Char] && one == b + ['1' as Char] && two == b + ['2' as Char]
    ensures EvrCmp(deb, b, one) == 0 && EvrCmp(deb, b, two) == 0 && EvrCmp(deb, two, one) == 1
  {
    DashParsed(b);
    hide Proper, EvrCmp;
    EmptyReleaseEqual(deb, b, '1' as Char);
    EmptyReleaseEqual(deb, b, '2' as Char);
    ReleasesDiffer(deb, b);
  }
}
