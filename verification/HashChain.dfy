/** Hash table sizes and the probe sequence of the id tables (src/hash.h). */
module HashChain {
  import opened Pigeonhole

  function Pow2(k: nat): (p: nat)
    ensures p >= 1
  {
    if k == 0 then 1 else 2 * Pow2(k - 1)
  }

  const HASHCHAIN_START: nat := 7

  /** HASHCHAIN_NEXT: step on by hh, wrapping at the table size n == mask + 1. */
  function Next(h: nat, hh: nat, n: nat): (r: nat)
    requires n >= 1
    ensures r < n
  {
    (h + hh) % n
  }

  /** The slot looked at after t steps when the first slot is h: the steps are 7, 8, 9, ... */
  function Probe(h: nat, t: nat, n: nat): (r: nat)
    requires h < n
    ensures r < n
  {
    if t == 0 then h else Next(Probe(h, t - 1, n), HASHCHAIN_START + t - 1, n)
  }

  /** The t-th triangular number. */
  function Tri(t: nat): nat { if t == 0 then 0 else Tri(t - 1) + t }

  lemma TriStep(t: nat)
    requires t > 0
    ensures Tri(t) == Tri(t - 1) + t
  {
  }

  lemma {:induction false} TriClosed(t: nat)
    ensures 2 * Tri(t) == t * (t + 1)
  {
    if t > 0 { TriClosed(t - 1); }
  }

  lemma {:induction false} ModShift(a: int, b: int, n: nat)
    requires n >= 1
    ensures (a % n + b) % n == (a + b) % n
  {
    var q := a / n;
    assert a == q * n + a % n;
    ModPlusMultiple(a % n + b, q, n);
  }

  lemma ModPlusMultiple(x: int, q: int, n: nat)
    requires n >= 1
    ensures (x + q * n) % n == x % n
  {
    var y := x / n;
    assert x == y * n + x % n;
    assert x + q * n == (y + q) * n + x % n by { Distribute(y, q, n); }
    ModOf(x + q * n, y + q, x % n, n);
  }

  lemma Distribute(a: int, b: int, n: int)
    ensures (a + b) * n == a * n + b * n
  {
  }

  lemma ModOf(x: int, q: int, r: int, n: nat)
    requires n >= 1 && 0 <= r < n && x == q * n + r
    ensures x % n == r && x / n == q
  {
    var q', r' := x / n, x % n;
    assert q' * n + r' == q * n + r;
    Distribute(q', -q, n);
    if q' > q { MulAtLeast(q' - q, n); }
    if q' < q { MulAtLeast(q - q', n); }
  }

  lemma MulAtLeast(a: int, n: nat)
    requires a >= 1
    ensures a * n >= n
  {
  }

  lemma NextOfMod(x: nat, d: nat, n: nat)
    requires n >= 1
    ensures Next(x % n, d, n) == (x + d) % n
  {
    ModShift(x, d, n);
  }

  /** Where the probe is after t steps, before wrapping: Tri(t + 6) - Tri(6) slots on. */
  ghost function Reach(h: nat, t: nat): (r: nat) {
    TriGrows(6, t + 6);
    TriClosed(6);
    h + Tri(t + 6) - 21
  }

  lemma {:induction false} TriGrows(s: nat, t: nat)
    requires s <= t
    ensures Tri(s) <= Tri(t)
    decreases t
  {
    if s < t { TriGrows(s, t - 1); }
  }

  lemma ReachStep(h: nat, t: nat)
    requires t > 0
    ensures Reach(h, 0) == h && Reach(h, t) == Reach(h, t - 1) + (HASHCHAIN_START + t - 1)
  {
    TriClosed(6);
    TriStep(t + 6);
  }

  lemma {:induction false} ProbeClosed(h: nat, t: nat, n: nat)
    requires h < n
    ensures Probe(h, t, n) == Reach(h, t) % n
  {
    hide Reach, Next;
    if t == 0 {
      ReachStep(h, 1);
      ModOf(h, 0, h, n);
    } else {
      ProbeClosed(h, t - 1, n);
      NextOfMod(Reach(h, t - 1), HASHCHAIN_START + t - 1, n);
      ReachStep(h, t);
    }
  }

  /** An odd factor contributes nothing to divisibility by a power of two. */
  lemma {:induction false} OddFactor(k: nat, a: nat, b: nat, c: nat)
    requires a % 2 == 1 && a * b == Pow2(k) * c
    ensures b % Pow2(k) == 0
    decreases k
  {
    if k > 0 {
      assert a * b == 2 * (Pow2(k - 1) * c);
      assert b % 2 == 0 by { OddTimes(a, b, Pow2(k - 1) * c); }
      var b' := b / 2;
      assert a * b' == Pow2(k - 1) * c by { assert a * b == 2 * (a * b') by { assert b == 2 * b'; } }
      OddFactor(k - 1, a, b', c);
      var d := b' / Pow2(k - 1);
      assert b' == d * Pow2(k - 1);
      assert b == d * Pow2(k);
      ModOf(b, d, 0, Pow2(k));
    }
  }

  lemma OddTimes(a: nat, b: nat, c: nat)
    requires a % 2 == 1 && a * b == 2 * c
    ensures b % 2 == 0
  {
    var x, y := a / 2, b / 2;
    assert a == 2 * x + 1 && b == 2 * y + b % 2;
    assert a * b == 2 * (2 * x * y + x * (b % 2) + y) + b % 2;
  }

  lemma SmallMultiple(x: nat, n: nat)
    requires x < n && x % n == 0
    ensures x == 0
  {
    ModOf(x, 0, x, n);
  }

  lemma SameRemainder(a: nat, b: nat, n: nat) returns (c: nat)
    requires n >= 1 && a <= b && a % n == b % n
    ensures b - a == n * c
  {
    c := b / n - a / n;
    assert a == (a / n) * n + a % n && b == (b / n) * n + b % n;
    Distribute(b / n, -(a / n), n);
  }

  /** Below the table size, triangular numbers fall into different slots. */
  lemma TriInjective(k: nat, i: nat, j: nat)
    requires i < j < Pow2(k)
    ensures Tri(i) % Pow2(k) != Tri(j) % Pow2(k)
  {
    hide *;
    var n := Pow2(k);
    if Tri(i) % n == Tri(j) % n {
      TriGrows(i, j);
      var c := SameRemainder(Tri(i), Tri(j), n);
      FarApart(k, i, j, c);
    }
  }

  lemma FarApart(k: nat, i: nat, j: nat, c: nat)
    requires i < j < Pow2(k)
    ensures Tri(j) - Tri(i) != Pow2(k) * c
  {
    Pow2Step(k);
    hide *;
    if Tri(j) - Tri(i) == Pow2(k) * c {
      TriDifference(i, j, Pow2(k), c, Pow2(k + 1));
      NoSmallProduct(k + 1, j - i, i + j + 1, c);
    }
  }

  lemma Pow2Step(k: nat)
    ensures Pow2(k + 1) == 2 * Pow2(k)
  {
  }

  lemma TriDifference(i: nat, j: nat, n: nat, c: nat, n2: nat)
    requires i <= j && Tri(j) - Tri(i) == n * c && n2 == 2 * n
    ensures (j - i) * (i + j + 1) == n2 * c
  {
    hide Tri;
    TriClosed(i);
    TriClosed(j);
    assert (j - i) * (i + j + 1) == j * (j + 1) - i * (i + 1);
  }

  /** Two numbers below a power of two, one of them odd, do not multiply to a multiple of it. */
  lemma NoSmallProduct(k: nat, a: nat, b: nat, c: nat)
    requires a % 2 + b % 2 == 1
    requires 0 < a < Pow2(k) && 0 < b < Pow2(k)
    ensures a * b != Pow2(k) * c
  {
    hide Pow2;
    if a * b != Pow2(k) * c {
    } else if a % 2 == 1 {
      OddFactor(k, a, b, c);
      SmallMultiple(b, Pow2(k));
    } else {
      assert b * a == a * b;
      OddFactor(k, b, a, c);
      SmallMultiple(a, Pow2(k));
    }
  }

  lemma TriPeriodic(m: nat, n: nat)
    requires n >= 1
    ensures Tri(m + 2 * n) % n == Tri(m) % n
  {
    hide Tri;
    TriClosed(m);
    TriClosed(m + 2 * n);
    assert (m + 2 * n) * (m + 2 * n + 1) == m * (m + 1) + 2 * ((2 * m + 1 + 2 * n) * n);
    ModPlusMultiple(Tri(m), 2 * m + 1 + 2 * n, n);
  }

  /** Some triangular number falls into slot y. */
  lemma TriSurjective(k: nat, y: nat) returns (m: nat)
    requires y < Pow2(k)
    ensures m < Pow2(k) && Tri(m) % Pow2(k) == y
  {
    var n := Pow2(k);
    var s: seq<int> := seq(n, i requires 0 <= i < n => Tri(i) % n);
    forall i, j | 0 <= i < j < n ensures s[i] != s[j] {
      TriInjective(k, i, j);
    }
    DistinctFull(s, n, y);
    m :| 0 <= m < n && s[m] == y;
  }

  /** The probe sequence reaches every slot of a power-of-two table within twice its size. */
  lemma ProbeCovers(h: nat, k: nat, x: nat) returns (t: nat)
    requires 2 <= k && h < Pow2(k) && x < Pow2(k)
    ensures t < 2 * Pow2(k) && Probe(h, t, Pow2(k)) == x
  {
    assert Pow2(k) == 4 * Pow2(k - 2);
    hide Tri, Pow2, Probe, Reach;
    var n := Pow2(k);
    var m := TriSurjective(k, (x - h + 21) % n);
    TriPeriodic(m, n);
    t := if m >= 6 then m - 6 else m + 2 * n - 6;
    ReachIs(h, t);
    SlotOf(Tri(t + 6), h, x, n);
    ProbeClosed(h, t, n);
  }

  lemma ReachIs(h: nat, t: nat)
    ensures Reach(h, t) == Tri(t + 6) + (h - 21)
  {
    TriClosed(6);
  }

  /** The slot of a number that is congruent to the right one. */
  lemma SlotOf(tri: nat, h: nat, x: nat, n: nat)
    requires h < n && x < n && tri % n == (x - h + 21) % n
    ensures (tri + (h - 21)) % n == x
  {
    SameMod(tri, x - h + 21, h - 21, n);
    ModOf(x, 0, x, n);
  }

  lemma SameMod(a: int, b: int, d: int, n: nat)
    requires n >= 1 && a % n == b % n
    ensures (a + d) % n == (b + d) % n
  {
    ModShift(a, d, n);
    ModShift(b, d, n);
  }

  /** Clearing the lowest set bit: num & (num - 1). */
  function ClearLowest(num: nat): (r: nat)
    requires num > 0
    ensures r < num
  {
    if num % 2 == 1 then num - 1 else 2 * ClearLowest(num / 2)
  }

  /** Clearing the lowest bit either leaves nothing, then num was a power of two, or keeps the highest bit. */
  lemma {:induction false} ClearLowestKeepsTop(num: nat, k: nat)
    requires Pow2(k) <= num < Pow2(k + 1)
    ensures ClearLowest(num) == 0 <==> num == Pow2(k)
    ensures ClearLowest(num) != 0 ==> Pow2(k) <= ClearLowest(num)
    decreases k
  {
    if num % 2 == 0 {
      ClearLowestKeepsTop(num / 2, k - 1);
    }
  }

  lemma {:induction false} TopBit(num: nat) returns (k: nat)
    requires num > 0
    ensures Pow2(k) <= num < Pow2(k + 1)
  {
    if num == 1 { k := 0; }
    else {
      k := TopBit(num / 2);
      k := k + 1;
    }
  }

  /** The table mask for num entries: one less than a power of two, at least twice num. */
  method Mkmask(num0: nat) returns (mask: nat, ghost k: nat)
    requires num0 > 0
    ensures mask + 1 == Pow2(k) && 2 * num0 <= mask < 4 * num0
  {
    var num := num0 * 2;
    k := TopBit(num);
    while ClearLowest(num) != 0
      invariant Pow2(k) <= num < Pow2(k + 1)
      decreases num
    {
      ClearLowestKeepsTop(num, k);
      num := ClearLowest(num);
    }
    ClearLowestKeepsTop(num, k);
    k := k + 1;
    mask := num * 2 - 1;
  }
}
