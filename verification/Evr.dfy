/** Version comparison (src/evr.c): both forms of sat_vercmp, and pool_evrcmp_str in EVRCMP_COMPARE mode.
 *
 * A string is the sequence of its bytes before the terminating zero. A pair of pointers
 * into it is the sequence between them, and advancing a pointer drops the first byte.
 * Each comparison is shown to be the lexicographic comparison of integer keys, in which
 * a run of digits counts by its numeric value.
 */
module Evr {
  import opened Bytes
  import opened Lexicographic

  type Char = c: int | 0 < c < 256 witness 1

  type Text = seq<Char>

  predicate Digit(c: int) { '0' as int <= c <= '9' as int }

  predicate Alpha(c: int) { 'a' as int <= c <= 'z' as int || 'A' as int <= c <= 'Z' as int }

  // ---- runs of digits ----

  /** The digits a string begins with. */
  function Digits(s: Text): (r: Text)
    ensures r <= s && forall k :: 0 <= k < |r| ==> Digit(r[k])
    ensures |r| < |s| ==> !Digit(s[|r|])
  {
    if s == [] || !Digit(s[0]) then [] else [s[0]] + Digits(s[1..])
  }

  /** The number that a run of digits denotes. */
  function Value(d: Text): nat
    requires forall k :: 0 <= k < |d| ==> Digit(d[k])
  {
    if d == [] then 0 else
      var c := d[|d| - 1];
      assert Digit(c);
      10 * Value(d[..|d| - 1]) + (c - '0' as int)
  }

  function Pow10(k: nat): (r: nat)
    ensures r >= 1
  {
    if k == 0 then 1 else 10 * Pow10(k - 1)
  }

  lemma {:induction false} Pow10Mono(j: nat, k: nat)
    requires j <= k
    ensures Pow10(j) <= Pow10(k)
  {
    if j < k { Pow10Mono(j, k - 1); }
  }

  /** A number has as many digits as its size needs. */
  lemma {:induction false} ValueBounds(d: Text)
    requires forall k :: 0 <= k < |d| ==> Digit(d[k])
    ensures Value(d) < Pow10(|d|)
    ensures d != [] && d[0] != '0' as int ==> Value(d) >= Pow10(|d| - 1)
  {
    if d != [] { ValueBounds(d[..|d| - 1]); }
  }

  /** Without leading zeros, more digits make a greater number. */
  lemma LongerIsGreater(d: Text, e: Text)
    requires forall k :: 0 <= k < |d| ==> Digit(d[k])
    requires forall k :: 0 <= k < |e| ==> Digit(e[k])
    requires |d| > |e| && d[0] != '0' as int
    ensures Value(d) > Value(e)
  {
    ValueBounds(d);
    ValueBounds(e);
    Pow10Mono(|e|, |d| - 1);
  }

  /** Numbers of equally many digits compare like their digits. */
  lemma {:induction false} SameLength(d: Text, e: Text)
    requires forall k :: 0 <= k < |d| ==> Digit(d[k])
    requires forall k :: 0 <= k < |e| ==> Digit(e[k])
    requires |d| == |e|
    ensures Lex(d, e) < 0 <==> Value(d) < Value(e)
    ensures Lex(d, e) == 0 <==> Value(d) == Value(e)
  {
    if d != [] {
      var d', e' := d[..|d| - 1], e[..|e| - 1];
      SameLength(d', e');
      assert d == d' + [d[|d| - 1]] && e == e' + [e[|e| - 1]];
      if d' == e' {
        LexSkip(d', [d[|d| - 1]], [e[|e| - 1]]);
      } else {
        LexAnti(d', e');
        LexDecided(d', e', [d[|d| - 1]], [e[|e| - 1]]);
      }
    }
  }

  /** Dropping a leading zero keeps the value. */
  lemma {:induction false} ZeroFirst(d: Text)
    requires forall k :: 0 <= k < |d| ==> Digit(d[k])
    requires d != [] && d[0] == '0' as int
    ensures Value(d) == Value(d[1..])
  {
    if |d| > 1 {
      ZeroFirst(d[..|d| - 1]);
      assert d[1..][..|d| - 2] == d[..|d| - 1][1..];
    }
  }

  /** What follows the digits a string begins with. */
  function AfterDigits(s: Text): (r: Text)
    ensures Digits(s) + r == s
    ensures r == [] || !Digit(r[0])
  {
    s[|Digits(s)|..]
  }

  // ---- Debian ----

  /** The rank of a character that is not part of a number; 0 stands for the end. */
  function DebWeight(c: int): int {
    if c == '~' as int then -1 else if c == 0 || Digit(c) || Alpha(c) then c else c + 256
  }

  /** A number ranks above the end and below every other character except '~', and by its value. */
  function DebKey(s: Text): (r: seq<int>)
    ensures r != []
    decreases |s|
  {
    if s == [] then [0]
    else if Digit(s[0]) then [1, Value(Digits(s))] + DebKey(AfterDigits(s))
    else [DebWeight(s[0])] + DebKey(s[1..])
  }

  /** The string whose first character, if any, has been read into c. */
  ghost function Now(c: int, s: Text): Text
    requires 0 <= c < 256
  {
    if c == 0 then [] else [c as Char] + s
  }

  method Next(s: Text) returns (c: int, t: Text)
    ensures 0 <= c < 256 && Now(c, t) == s
    ensures c == 0 ==> t == []
    ensures if s == [] then c == 0 && t == [] else |t| < |s|
  {
    if s == [] { return 0, []; }
    c, t := s[0], s[1..];
  }

  /** Reading on drops a digit from the run. */
  lemma NowDigit(c: int, s: Text)
    requires Digit(c)
    ensures Digits(Now(c, s)) == [c as Char] + Digits(s)
    ensures AfterDigits(Now(c, s)) == AfterDigits(s)
  {
    assert Now(c, s)[1..] == s;
  }

  lemma RunMoves(p: Text, c: int, s: Text)
    requires Digit(c)
    ensures p + Digits(Now(c, s)) == (p + [c as Char]) + Digits(s)
    ensures AfterDigits(Now(c, s)) == AfterDigits(s)
  {
    hide Digits, AfterDigits, Now;
    NowDigit(c, s);
  }

  method SkipZeros(c0: int, s0: Text) returns (c: int, s: Text)
    requires 0 <= c0 < 256
    ensures 0 <= c < 256 && c != '0' as int
    ensures Value(Digits(Now(c, s))) == Value(Digits(Now(c0, s0)))
    ensures AfterDigits(Now(c, s)) == AfterDigits(Now(c0, s0))
  {
    c, s := c0, s0;
    while c == '0' as int
      invariant 0 <= c < 256
      invariant Value(Digits(Now(c, s))) == Value(Digits(Now(c0, s0)))
      invariant AfterDigits(Now(c, s)) == AfterDigits(Now(c0, s0))
      decreases |s|, c
    {
      NowDigit(c, s);
      ZeroFirst(Digits(Now(c, s)));
      c, s := Next(s);
    }
  }

  /** What the parallel scan of two runs knows: r tells how the parts read so far compare. */
  ghost predicate Scanned(p: Text, q: Text, r: int) {
    |p| == |q| && (r < 0 <==> Lex(p, q) < 0) && (r == 0 <==> p == q)
  }

  lemma ScannedNothing()
    ensures Scanned([], [], 0)
  {
  }

  lemma ScannedMore(p: Text, q: Text, r: int, c: Char, d: Char)
    requires Scanned(p, q, r)
    ensures Scanned(p + [c], q + [d], if r == 0 then c - d else r)
  {
    LexAnti(p + [c], q + [d]);
    if r == 0 {
      LexSkip(p, [c], [d]);
    } else {
      LexAnti(p, q);
      LexDecided(p, q, [c], [d]);
    }
  }

  lemma ScannedAll(d: Text, e: Text, p: Text, q: Text, r: int)
    requires forall k :: 0 <= k < |d| ==> Digit(d[k])
    requires forall k :: 0 <= k < |e| ==> Digit(e[k])
    requires Scanned(p, q, r) && p <= d && q <= e && (p == d || q == e)
    requires d != [] ==> d[0] != '0' as int
    requires e != [] ==> e[0] != '0' as int
    ensures |d| > |p| ==> Value(d) > Value(e)
    ensures |e| > |q| ==> Value(d) < Value(e)
    ensures |d| == |p| && |e| == |q| ==> (r < 0 <==> Value(d) < Value(e)) && (r == 0 <==> Value(d) == Value(e))
  {
    if |d| > |p| {
      LongerIsGreater(d, e);
    } else if |e| > |q| {
      LongerIsGreater(e, d);
    } else {
      assert d == p && e == q;
      LexAnti(d, e);
      SameLength(d, e);
    }
  }

  function Sign(x: int): int { if x < 0 then -1 else if x == 0 then 0 else 1 }

  lemma NowOther(c: int, s: Text)
    requires 0 <= c < 256 && !Digit(c)
    ensures Digits(Now(c, s)) == [] && AfterDigits(Now(c, s)) == Now(c, s)
  {
  }

  lemma FirstOfRun(c: int, s: Text)
    requires 0 <= c < 256
    ensures Digits(Now(c, s)) != [] ==> Digits(Now(c, s))[0] == c
  {
  }

  /** Scan two runs of digits in parallel until one of them ends; r is the first difference. */
  method ScanBoth(c10: int, s10: Text, c20: int, s20: Text)
    returns (c1: int, s1: Text, c2: int, s2: Text, r: int, ghost p: Text, ghost q: Text)
    requires 0 <= c10 < 256 && 0 <= c20 < 256
    ensures 0 <= c1 < 256 && 0 <= c2 < 256 && !(Digit(c1) && Digit(c2))
    ensures Digits(Now(c10, s10)) == p + Digits(Now(c1, s1)) && AfterDigits(Now(c10, s10)) == AfterDigits(Now(c1, s1))
    ensures Digits(Now(c20, s20)) == q + Digits(Now(c2, s2)) && AfterDigits(Now(c20, s20)) == AfterDigits(Now(c2, s2))
    ensures Scanned(p, q, r)
  {
    hide Digits, AfterDigits, Scanned, Now;
    ScannedNothing();
    c1, s1, c2, s2, r, p, q := c10, s10, c20, s20, 0, [], [];
    while Digit(c1) && Digit(c2)
      invariant 0 <= c1 < 256 && 0 <= c2 < 256
      invariant Digits(Now(c10, s10)) == p + Digits(Now(c1, s1)) && AfterDigits(Now(c10, s10)) == AfterDigits(Now(c1, s1))
      invariant Digits(Now(c20, s20)) == q + Digits(Now(c2, s2)) && AfterDigits(Now(c20, s20)) == AfterDigits(Now(c2, s2))
      invariant Scanned(p, q, r)
      decreases |s1|, c1
    {
      ScannedMore(p, q, r, c1, c2);
      RunMoves(p, c1, s1);
      RunMoves(q, c2, s2);
      p, q := p + [c1], q + [c2];
      if r == 0 { r := c1 - c2; }
      c1, s1 := Next(s1);
      c2, s2 := Next(s2);
    }
  }

  /** Both strings stand at a digit: compare the numbers and read past them. */
  method CompareNumbers(c10: int, s10: Text, c20: int, s20: Text)
    returns (c1: int, s1: Text, c2: int, s2: Text, r: int)
    requires Digit(c10) && Digit(c20)
    ensures 0 <= c1 < 256 && 0 <= c2 < 256
    ensures r == Sign(Value(Digits(Now(c10, s10))) - Value(Digits(Now(c20, s20))))
    ensures r == 0 ==> !Digit(c1) && Now(c1, s1) == AfterDigits(Now(c10, s10))
    ensures r == 0 ==> !Digit(c2) && Now(c2, s2) == AfterDigits(Now(c20, s20))
  {
    hide AfterDigits, Value, Scanned, Digits, Now;
    c1, s1 := SkipZeros(c10, s10);
    c2, s2 := SkipZeros(c20, s20);
    ghost var d, e := Digits(Now(c1, s1)), Digits(Now(c2, s2));
    ghost var p, q;
    FirstOfRun(c1, s1);
    FirstOfRun(c2, s2);
    c1, s1, c2, s2, r, p, q := ScanBoth(c1, s1, c2, s2);
    if Digit(c1) {
      NowOther(c2, s2);
      NowDigit(c1, s1);
    } else {
      NowOther(c1, s1);
      if !Digit(c2) { NowOther(c2, s2); }
    }
    ScannedAll(d, e, p, q, r);
    if Digit(c1) { r := 1; return; }
    if Digit(c2) { NowDigit(c2, s2); r := -1; return; }
    if r != 0 { r := if r < 0 then -1 else 1; }
  }

  lemma DebKeyNumber(s: Text)
    requires s != [] && Digit(s[0])
    ensures DebKey(s) == [1, Value(Digits(s))] + DebKey(AfterDigits(s))
  {
  }

  /** Two keys whose first numbers are compared. */
  lemma DebNumbers(s: Text, t: Text)
    requires s != [] && t != [] && Digit(s[0]) && Digit(t[0])
    ensures var r := Sign(Value(Digits(s)) - Value(Digits(t)));
      Lex(DebKey(s), DebKey(t)) == if r != 0 then r else Lex(DebKey(AfterDigits(s)), DebKey(AfterDigits(t)))
  {
    hide DebKey, Value, Digits, AfterDigits;
    DebKeyNumber(s);
    DebKeyNumber(t);
    var v, u := Value(Digits(s)), Value(Digits(t));
    if v == u {
      LexSkip([1, v], DebKey(AfterDigits(s)), DebKey(AfterDigits(t)));
    } else {
      LexDecided([1, v], [1, u], DebKey(AfterDigits(s)), DebKey(AfterDigits(t)));
      LexSkip([1], [v], [u]);
      assert [1, v] == [1] + [v] && [1, u] == [1] + [u];
    }
  }

  /** Two keys of which at most one begins with a number. */
  lemma DebWeights(c: int, s: Text, d: int, t: Text)
    requires 0 <= c < 256 && 0 <= d < 256 && !(Digit(c) && Digit(d))
    ensures var r := Sign(DebWeight(c) - DebWeight(d));
      Lex(DebKey(Now(c, s)), DebKey(Now(d, t))) ==
        if r != 0 then r else if c == 0 then 0 else Lex(DebKey(s), DebKey(t))
  {
    assert c != 0 ==> Now(c, s)[1..] == s;
    assert d != 0 ==> Now(d, t)[1..] == t;
    if DebWeight(c) == DebWeight(d) {
      assert c == d;
      if c != 0 { LexSkip([DebWeight(c)], DebKey(s), DebKey(t)); }
    }
  }

  /** sat_vercmp, Debian form. */
  method VerCmpDeb(s10: Text, s20: Text) returns (r: int)
    ensures r == Lex(DebKey(s10), DebKey(s20))
  {
    hide DebKey, Lex, Value, Digits, AfterDigits, DebWeight;
    var s1, s2 := s10, s20;
    while true
      invariant Lex(DebKey(s1), DebKey(s2)) == Lex(DebKey(s10), DebKey(s20))
      decreases |s1|
    {
      ghost var t1, t2 := s1, s2;
      var c1, c2;
      c1, s1 := Next(s1);
      c2, s2 := Next(s2);
      if Digit(c1) && Digit(c2) {
        DebNumbers(t1, t2);
        c1, s1, c2, s2, r := CompareNumbers(c1, s1, c2, s2);
        if r != 0 { return; }
      }
      DebWeights(c1, s1, c2, s2);
      r := DebWeight(c1) - DebWeight(c2);
      if r != 0 { return if r < 0 then -1 else 1; }
      if c1 == 0 { return 0; }
    }
  }

  // ---- rpm ----

  function Letters(s: Text): (r: Text)
    ensures r <= s && forall k :: 0 <= k < |r| ==> Alpha(r[k])
    ensures |r| < |s| ==> !Alpha(s[|r|])
  {
    if s == [] || !Alpha(s[0]) then [] else [s[0]] + Letters(s[1..])
  }

  function SkipSeparators(s: Text): (r: Text)
    ensures |r| <= |s| && (r == [] || Digit(r[0]) || Alpha(r[0]))
  {
    if s == [] || Digit(s[0]) || Alpha(s[0]) then s else SkipSeparators(s[1..])
  }

  /** Segments in order: separators at the end of the string rank lowest, then words, then numbers by their value.
   * A word is its letters and a 1, so that a longer word is greater than its beginning. */
  function RpmKey(s: Text): (r: seq<int>)
    ensures s != [] ==> r != []
    decreases |s|
  {
    if s == [] then []
    else
      var t := SkipSeparators(s);
      if t == [] then [0] else RpmHead(t) + RpmKey(RpmRest(t))
  }

  /** The key of the segment at the beginning of the string, and what follows that segment. */
  function RpmHead(t: Text): (r: seq<int>)
    requires t != [] && (Digit(t[0]) || Alpha(t[0]))
    ensures r != []
  {
    if Digit(t[0]) then [300 + Value(Digits(t))] else Letters(t) + [1]
  }

  function RpmRest(t: Text): (r: Text)
    requires t != [] && (Digit(t[0]) || Alpha(t[0]))
    ensures |r| < |t|
  {
    if Digit(t[0]) then AfterDigits(t) else t[|Letters(t)|..]
  }

  /** The key of a string that does not begin with a separator; at the end it is the key of separators. */
  function SegKey(t: Text): (r: seq<int>)
    requires t == [] || Digit(t[0]) || Alpha(t[0])
    ensures r != []
  {
    if t == [] then [0] else RpmHead(t) + RpmKey(RpmRest(t))
  }

  method Separators(s0: Text) returns (s: Text)
    ensures s == SkipSeparators(s0)
  {
    s := s0;
    while s != [] && !Digit(s[0]) && !Alpha(s[0])
      invariant SkipSeparators(s) == SkipSeparators(s0)
      decreases |s|
    {
      s := s[1..];
    }
  }

  /** Drop leading zeros, but not the last digit. */
  method StripZeros(s0: Text) returns (s: Text)
    ensures Value(Digits(s)) == Value(Digits(s0)) && AfterDigits(s) == AfterDigits(s0)
    ensures Digits(s) == [] <==> Digits(s0) == []
    ensures |Digits(s)| > 1 ==> s[0] != '0' as int
  {
    s := s0;
    while |s| > 1 && s[0] == '0' as int && Digit(s[1])
      invariant Value(Digits(s)) == Value(Digits(s0)) && AfterDigits(s) == AfterDigits(s0)
      invariant Digits(s) == [] <==> Digits(s0) == []
      decreases |s|
    {
      assert Digits(s) == [s[0]] + Digits(s[1..]);
      ZeroFirst(Digits(s));
      s := s[1..];
    }
    if |Digits(s)| > 1 {
      assert Digits(s) == [s[0]] + Digits(s[1..]);
    }
  }

  method DigitRun(s: Text) returns (n: nat)
    ensures n == |Digits(s)|
  {
    n := 0;
    while n < |s| && Digit(s[n])
      invariant n <= |s| && |Digits(s)| == n + |Digits(s[n..])|
    {
      assert s[n..][1..] == s[n + 1..];
      n := n + 1;
    }
  }

  method LetterRun(s: Text) returns (n: nat)
    ensures n == |Letters(s)|
  {
    n := 0;
    while n < |s| && Alpha(s[n])
      invariant n <= |s| && |Letters(s)| == n + |Letters(s[n..])|
    {
      assert s[n..][1..] == s[n + 1..];
      n := n + 1;
    }
  }

  /** strncmp on n characters that both strings have. */
  method Compare(s: Text, t: Text, n: nat) returns (r: int)
    requires n <= |s| && n <= |t|
    ensures Sign(r) == Lex(s[..n], t[..n])
  {
    var k := 0;
    while k < n
      invariant k <= n && s[..k] == t[..k]
    {
      if s[k] != t[k] {
        LexSkip(s[..k], s[k..n], t[k..n]);
        assert s[..k] + s[k..n] == s[..n] && t[..k] + t[k..n] == t[..n];
        return (s[k] as int) - t[k];
      }
      k := k + 1;
    }
    LexAnti(s[..n], t[..n]);
    r := 0;
  }

  /** Two runs of digits without leading zeros compare by length first. */
  lemma RunsCompare(d: Text, e: Text)
    requires forall k :: 0 <= k < |d| ==> Digit(d[k])
    requires forall k :: 0 <= k < |e| ==> Digit(e[k])
    requires d != [] && e != []
    requires |d| > 1 ==> d[0] != '0' as int
    requires |e| > 1 ==> e[0] != '0' as int
    ensures Sign(Value(d) - Value(e)) == if |d| != |e| then Sign(|d| - |e|) else Lex(d, e)
  {
    if |d| > |e| {
      LongerIsGreater(d, e);
    } else if |d| < |e| {
      LongerIsGreater(e, d);
    } else {
      SameLength(d, e);
    }
  }

  lemma SegNumber(s: Text)
    requires s != [] && Digit(s[0])
    ensures Digits(s) != [] && SegKey(s) == [300 + Value(Digits(s))] + RpmKey(AfterDigits(s))
  {
    assert Digits(s) != [];
    hide RpmKey, Value, AfterDigits, Letters, Digits;
  }

  lemma SegWord(s: Text)
    requires s != [] && Alpha(s[0])
    ensures Digits(s) == [] && SegKey(s) == Letters(s) + [1] + RpmKey(s[|Letters(s)|..]) && 1 < SegKey(s)[0] < 256
  {
    hide RpmKey, Value, AfterDigits;
    assert Letters(s)[0] == s[0];
  }

  /** The key of a segment and its first element. */
  lemma SegFirst(s: Text)
    requires s == [] || Digit(s[0]) || Alpha(s[0])
    ensures s == [] ==> SegKey(s) == [0] && Digits(s) == []
    ensures Digits(s) != [] ==> SegKey(s) == [300 + Value(Digits(s))] + RpmKey(AfterDigits(s))
    ensures Digits(s) == [] && s != [] ==>
      SegKey(s) == Letters(s) + [1] + RpmKey(s[|Letters(s)|..]) && 1 < SegKey(s)[0] < 256
  {
    if s != [] {
      hide *;
      if Digit(s[0]) { SegNumber(s); } else { SegWord(s); }
    }
  }

  lemma LexFirst(a: seq<int>, b: seq<int>)
    requires a != [] && b != [] && a[0] != b[0]
    ensures Lex(a, b) == Sign(a[0] - b[0])
  {
  }

  /** Where at least one string has a number, the key of the number decides unless both have the same. */
  lemma SegNumbers(s: Text, t: Text)
    requires s == [] || Digit(s[0]) || Alpha(s[0])
    requires t == [] || Digit(t[0]) || Alpha(t[0])
    requires Digits(s) != [] || Digits(t) != []
    ensures Digits(s) == [] ==> Lex(SegKey(s), SegKey(t)) == -1
    ensures Digits(t) == [] ==> Lex(SegKey(s), SegKey(t)) == 1
    ensures Digits(s) != [] && Digits(t) != [] ==>
      var r := Sign(Value(Digits(s)) - Value(Digits(t)));
      Lex(SegKey(s), SegKey(t)) == if r != 0 then r else Lex(RpmKey(AfterDigits(s)), RpmKey(AfterDigits(t)))
  {
    hide RpmKey, SegKey, Value, Lex, Digits, AfterDigits;
    SegFirst(s);
    SegFirst(t);
    if SegKey(s)[0] != SegKey(t)[0] { LexFirst(SegKey(s), SegKey(t)); }
    if Digits(s) != [] && Digits(t) != [] {
      if Value(Digits(s)) == Value(Digits(t)) {
        LexSkip([300 + Value(Digits(s))], RpmKey(AfterDigits(s)), RpmKey(AfterDigits(t)));
      }
    }
  }

  /** Words compare by their letters, a longer word being greater than its beginning. */
  lemma {:induction false} WordsCompare(w: Text, v: Text, a: seq<int>, b: seq<int>)
    requires forall k :: 0 <= k < |w| ==> Alpha(w[k])
    requires forall k :: 0 <= k < |v| ==> Alpha(v[k])
    ensures var n := if |w| < |v| then |w| else |v|;
      var r := Lex(w[..n], v[..n]);
      Lex(w + [1] + a, v + [1] + b) == if r != 0 then r else if |w| != |v| then Sign(|w| - |v|) else Lex(a, b)
  {
    var n := if |w| < |v| then |w| else |v|;
    if w[..n] == v[..n] {
      LexAnti(w[..n], v[..n]);
      assert w + [1] + a == w[..n] + (w[n..] + [1] + a);
      assert v + [1] + b == v[..n] + (v[n..] + [1] + b);
      LexSkip(w[..n], w[n..] + [1] + a, v[n..] + [1] + b);
      if |w| == |v| {
        assert w[n..] + [1] + a == [1] + a && v[n..] + [1] + b == [1] + b;
        LexSkip([1], a, b);
      } else if |w| < |v| {
        assert (w[n..] + [1] + a)[0] == 1;
        assert (v[n..] + [1] + b)[0] == v[n];
      } else {
        assert (v[n..] + [1] + b)[0] == 1;
        assert (w[n..] + [1] + a)[0] == w[n];
      }
    } else {
      LexAnti(w[..n], v[..n]);
      assert w + [1] + a == w[..n] + (w[n..] + [1] + a);
      assert v + [1] + b == v[..n] + (v[n..] + [1] + b);
      LexDecided(w[..n], v[..n], w[n..] + [1] + a, v[n..] + [1] + b);
    }
  }

  /** Where neither string has a number, the words decide unless they are the same. */
  lemma SegWords(s: Text, t: Text)
    requires s == [] || Alpha(s[0])
    requires t == [] || Alpha(t[0])
    ensures var w, v := Letters(s), Letters(t);
      var n := if |w| < |v| then |w| else |v|;
      var r := Lex(s[..n], t[..n]);
      Lex(SegKey(s), SegKey(t)) ==
        if r != 0 then r else if |w| != |v| then Sign(|w| - |v|)
        else Lex(RpmKey(s[|w|..]), RpmKey(t[|v|..]))
    ensures Letters(s) == [] && Letters(t) == [] ==> s == t == []
  {
    hide RpmKey, SegKey, Lex;
    SegFirst(s);
    SegFirst(t);
    LexAnti([], []);
    if s == [] || t == [] {
      if SegKey(s)[0] != SegKey(t)[0] { LexFirst(SegKey(s), SegKey(t)); } else { LexAnti(SegKey(s), SegKey(t)); }
      assert s[..0] == [] && t[..0] == [];
      if s == [] && t == [] { assert Lex(RpmKey([]), RpmKey([])) == 0 by { LexAnti(RpmKey([]), RpmKey([])); } }
    } else {
      var w, v := Letters(s), Letters(t);
      hide Letters;
      var n := if |w| < |v| then |w| else |v|;
      assert w[..n] == s[..n] && v[..n] == t[..n];
      WordsCompare(w, v, RpmKey(s[|w|..]), RpmKey(t[|v|..]));
    }
  }

  lemma AfterIs(s: Text)
    ensures s[|Digits(s)|..] == AfterDigits(s)
  {
  }

  /** One turn at two numbers: r decides, or both strings move past equal numbers. */
  method NumberTurn(s10: Text, s20: Text) returns (s1: Text, s2: Text, r: int)
    requires s10 == [] || Digit(s10[0]) || Alpha(s10[0])
    requires s20 == [] || Digit(s20[0]) || Alpha(s20[0])
    requires Digits(s10) != [] || Digits(s20) != []
    ensures r != 0 ==> r == Lex(SegKey(s10), SegKey(s20))
    ensures r == 0 ==> Lex(SegKey(s10), SegKey(s20)) == Lex(RpmKey(s1), RpmKey(s2)) && |s1| < |s10|
  {
    hide RpmKey, SegKey, Value, Lex, Digits, AfterDigits;
    SegNumbers(s10, s20);
    s1 := StripZeros(s10);
    s2 := StripZeros(s20);
    var e1 := DigitRun(s1);
    var e2 := DigitRun(s2);
    r := (e1 as int) - e2;
    if r == 0 { r := Compare(s1, s2, e1); }
    if Digits(s10) != [] && Digits(s20) != [] { RunsCompare(Digits(s1), Digits(s2)); }
    if r != 0 { r := if r > 0 then 1 else -1; return; }
    AfterIs(s1);
    AfterIs(s2);
    s1, s2 := s1[e1..], s2[e2..];
  }

  /** One turn at two words, either of which may be empty. */
  method WordTurn(s10: Text, s20: Text) returns (s1: Text, s2: Text, r: int)
    requires s10 == [] || Alpha(s10[0])
    requires s20 == [] || Alpha(s20[0])
    ensures r != 0 ==> r == Lex(SegKey(s10), SegKey(s20))
    ensures r == 0 ==> Lex(SegKey(s10), SegKey(s20)) == Lex(RpmKey(s1), RpmKey(s2))
    ensures r == 0 ==> s1 == s2 == [] || |s1| < |s10|
  {
    hide RpmKey, SegKey, Lex, Letters;
    SegWords(s10, s20);
    s1, s2 := s10, s20;
    var e1 := LetterRun(s10);
    var e2 := LetterRun(s20);
    r := (e1 as int) - e2;
    if r > 0 {
      r := Compare(s10, s20, e2);
      r := if r >= 0 then 1 else -1;
      return;
    }
    if r < 0 {
      r := Compare(s10, s20, e1);
      r := if r <= 0 then -1 else 1;
      return;
    }
    r := Compare(s10, s20, e1);
    if r != 0 { r := if r > 0 then 1 else -1; return; }
    s1, s2 := s10[e1..], s20[e2..];
  }

  lemma SegOf(s: Text)
    requires s != []
    ensures RpmKey(s) == SegKey(SkipSeparators(s))
  {
  }

  lemma StartsWithDigit(s: Text)
    ensures s != [] && Digit(s[0]) ==> Digits(s) != []
  {
  }

  /** sat_vercmp, rpm form. The character after either string is not alphanumeric. */
  method VerCmpRpm(s10: Text, s20: Text) returns (r: int)
    ensures r == Lex(RpmKey(s10), RpmKey(s20))
  {
    hide RpmKey, SegKey, Letters, Digits, Lex;
    var s1, s2 := s10, s20;
    while s1 != [] && s2 != []
      invariant Lex(RpmKey(s1), RpmKey(s2)) == Lex(RpmKey(s10), RpmKey(s20))
      decreases |s1|
    {
      SegOf(s1);
      SegOf(s2);
      s1 := Separators(s1);
      s2 := Separators(s2);
      if (s1 != [] && Digit(s1[0])) || (s2 != [] && Digit(s2[0])) {
        StartsWithDigit(s1);
        StartsWithDigit(s2);
        s1, s2, r := NumberTurn(s1, s2);
      } else {
        s1, s2, r := WordTurn(s1, s2);
      }
      if r != 0 { return; }
    }
    RpmEnd(s1, s2);
    r := if s1 != [] then 1 else if s2 != [] then -1 else 0;
  }

  lemma RpmEnd(s: Text, t: Text)
    requires s == [] || t == []
    ensures Lex(RpmKey(s), RpmKey(t)) == if s != [] then 1 else if t != [] then -1 else 0
  {
  }
}
