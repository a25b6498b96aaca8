/** Bentley-McIlroy quicksort as the store uses it (src/qsort_r.c).
 *
 * The comparator is a function to int whose sign is what counts. It only has to
 * be a total preorder on the set S of values that are in the array.
 */
module SatSort {

  /** The sign of cmp is a total preorder on S. Transitivity is instantiated by mentioning Chain. */
  ghost predicate PreorderOn<T(!new)>(cmp: (T, T) -> int, S: iset<T>) {
    && (forall x, y :: x in S && y in S ==> (cmp(x, y) < 0 <==> cmp(y, x) > 0))
    && (forall x, y, z {:trigger Chain(x, y, z)} ::
          x in S && y in S && z in S && Chain(x, y, z) && cmp(x, y) <= 0 && cmp(y, z) <= 0 ==> cmp(x, z) <= 0)
  }

  ghost predicate Chain<T(!new)>(x: T, y: T, z: T) { true }

  ghost predicate AllIn<T(!new)>(a: array<T>, lo: int, hi: int, S: iset<T>)
    reads a
  {
    forall k :: 0 <= k < a.Length && lo <= k < hi ==> a[k] in S
  }

  ghost predicate Ordered<T(!new)>(cmp: (T, T) -> int, a: array<T>, lo: int, hi: int)
    reads a
  {
    forall i, j :: 0 <= i < j < a.Length && lo <= i && j < hi ==> cmp(a[i], a[j]) <= 0
  }

  /** Nothing outside [lo, hi) changed, and the whole is a permutation. */
  twostate predicate Permuted<T(!new)>(a: array<T>, lo: int, hi: int)
    reads a
  {
    && multiset(a[..]) == multiset(old(a[..]))
    && forall k :: 0 <= k < a.Length && !(lo <= k < hi) ==> a[k] == old(a[k])
  }

  lemma ThreeParts<T>(s: seq<T>, lo: nat, hi: nat)
    requires lo <= hi <= |s|
    ensures multiset(s) == multiset(s[..lo]) + multiset(s[lo..hi]) + multiset(s[hi..])
  {
    assert s == s[..lo] + s[lo..hi] + s[hi..];
  }

  /** A permutation that keeps the outside permutes the inside. */
  lemma InsidePermuted<T(!new)>(s: seq<T>, t: seq<T>, lo: nat, hi: nat)
    requires lo <= hi <= |s| == |t| && multiset(s) == multiset(t)
    requires forall k :: 0 <= k < |s| && !(lo <= k < hi) ==> t[k] == s[k]
    ensures multiset(s[lo..hi]) == multiset(t[lo..hi])
  {
    assert s[..lo] == t[..lo] && s[hi..] == t[hi..];
    ThreeParts(s, lo, hi);
    ThreeParts(t, lo, hi);
    Cancel(multiset(s[..lo]), multiset(s[lo..hi]), multiset(t[lo..hi]), multiset(s[hi..]));
  }

  lemma Cancel<T>(a: multiset<T>, x: multiset<T>, y: multiset<T>, b: multiset<T>)
    requires a + x + b == a + y + b
    ensures x == y
  {
    forall e: T ensures x[e] == y[e] {
      assert (a + x + b)[e] == (a + y + b)[e];
    }
  }

  /** What holds of every element of a range survives permuting the range. */
  lemma RangeFactSurvives<T(!new)>(s: seq<T>, t: seq<T>, lo: nat, hi: nat, p: T -> bool)
    requires lo <= hi <= |s| == |t| && multiset(s) == multiset(t)
    requires forall k :: 0 <= k < |s| && !(lo <= k < hi) ==> t[k] == s[k]
    requires forall k :: lo <= k < hi ==> p(s[k])
    ensures forall k :: lo <= k < hi ==> p(t[k])
  {
    InsidePermuted(s, t, lo, hi);
    forall k | lo <= k < hi ensures p(t[k]) {
      assert t[k] == t[lo..hi][k - lo];
      assert t[k] in multiset(t[lo..hi]);
      assert t[k] in s[lo..hi];
    }
  }

  ghost function Smaller<T(!new)>(cmp: (T, T) -> int, v: T): T -> bool { x => cmp(x, v) < 0 }

  ghost function NotBelow<T(!new)>(cmp: (T, T) -> int, v: T): T -> bool { x => cmp(v, x) <= 0 }

  /** m lies between x and y by the comparator. */
  ghost predicate Between<T(!new)>(cmp: (T, T) -> int, m: T, x: T, y: T) {
    (cmp(x, m) <= 0 && cmp(m, y) <= 0) || (cmp(y, m) <= 0 && cmp(m, x) <= 0)
  }

  /** Which of three is the median by the comparator (med3). */
  function Med3<T(!new)>(cmp: (T, T) -> int, a: T, b: T, c: T, ghost S: iset<T>): (r: int)
    requires PreorderOn(cmp, S) && a in S && b in S && c in S
    ensures 0 <= r <= 2
    ensures r == 0 ==> Between(cmp, a, b, c)
    ensures r == 1 ==> Between(cmp, b, a, c)
    ensures r == 2 ==> Between(cmp, c, a, b)
  {
    if cmp(a, b) < 0 then
      (if cmp(b, c) < 0 then 1 else if cmp(a, c) < 0 then 2 else 0)
    else
      (if cmp(b, c) > 0 then 1 else if cmp(a, c) < 0 then 0 else 2)
  }

  method Swap<T(!new)>(a: array<T>, i: nat, j: nat)
    requires i < a.Length && j < a.Length
    modifies a
    ensures multiset(a[..]) == multiset(old(a[..]))
    ensures a[i] == old(a[j]) && a[j] == old(a[i])
    ensures forall k :: 0 <= k < a.Length && k != i && k != j ==> a[k] == old(a[k])
  {
    a[i], a[j] := a[j], a[i];
  }

  /** Exchange two disjoint blocks of r elements (vecswap). */
  method VecSwap<T(!new)>(a: array<T>, x: nat, y: nat, r: nat)
    requires x + r <= y && y + r <= a.Length
    modifies a
    ensures multiset(a[..]) == multiset(old(a[..]))
    ensures forall k :: x <= k < x + r ==> a[k] == old(a[k - x + y])
    ensures forall k :: y <= k < y + r ==> a[k] == old(a[k - y + x])
    ensures forall k :: 0 <= k < a.Length && !(x <= k < x + r) && !(y <= k < y + r) ==> a[k] == old(a[k])
  {
    var i := 0;
    while i < r
      invariant 0 <= i <= r
      invariant multiset(a[..]) == multiset(old(a[..]))
      invariant forall k :: x <= k < x + i ==> a[k] == old(a[k - x + y])
      invariant forall k :: y <= k < y + i ==> a[k] == old(a[k - y + x])
      invariant forall k :: 0 <= k < a.Length && !(x <= k < x + i) && !(y <= k < y + i) ==> a[k] == old(a[k])
    {
      Swap(a, x + i, y + i);
      i := i + 1;
    }
  }

  /** In lo..pm, everything but a[pl] is ordered, and a[pl] is at most what follows it. */
  ghost predicate Sinking<T(!new)>(cmp: (T, T) -> int, a: array<T>, lo: int, pl: int, pm: int)
    reads a
  {
    && (forall i, j :: 0 <= i < j < a.Length && lo <= i && j <= pm && i != pl && j != pl ==> cmp(a[i], a[j]) <= 0)
    && (forall j :: 0 <= pl < j < a.Length && j <= pm ==> cmp(a[pl], a[j]) <= 0)
  }

  /** Exchange a sinking element with the greater one before it. */
  method SinkOne<T(!new)>(a: array<T>, lo: nat, pl: nat, pm: nat, cmp: (T, T) -> int, ghost S: iset<T>)
    requires lo < pl <= pm < a.Length && PreorderOn(cmp, S) && AllIn(a, lo, pm + 1, S)
    requires Sinking(cmp, a, lo, pl, pm) && cmp(a[pl - 1], a[pl]) > 0
    modifies a
    ensures Permuted(a, lo, pm + 1) && AllIn(a, lo, pm + 1, S)
    ensures Sinking(cmp, a, lo, pl - 1, pm)
  {
    assert cmp(a[pl], a[pl - 1]) < 0;
    hide PreorderOn;
    Swap(a, pl, pl - 1);
  }

  /** An element that is at least the one before it has sunk far enough. */
  lemma Sunk<T(!new)>(cmp: (T, T) -> int, a: array<T>, lo: nat, pl: nat, pm: nat, S: iset<T>)
    requires lo <= pl <= pm < a.Length && PreorderOn(cmp, S) && AllIn(a, lo, pm + 1, S)
    requires Sinking(cmp, a, lo, pl, pm) && (pl > lo ==> cmp(a[pl - 1], a[pl]) <= 0)
    ensures Ordered(cmp, a, lo, pm + 1)
  {
    forall i | lo <= i < pl ensures cmp(a[i], a[pl]) <= 0 {
      assert Chain(a[i], a[pl - 1], a[pl]);
    }
  }

  lemma StartsSinking<T(!new)>(cmp: (T, T) -> int, a: array<T>, lo: nat, pm: nat)
    requires lo <= pm < a.Length && Ordered(cmp, a, lo, pm)
    ensures Sinking(cmp, a, lo, pm, pm)
  {
  }

  /** One turn of the insertion sort: sink a[pm] into the ordered block before it. */
  method Insert<T(!new)>(a: array<T>, lo: nat, pm: nat, cmp: (T, T) -> int, ghost S: iset<T>)
    requires lo <= pm < a.Length
    requires PreorderOn(cmp, S) && AllIn(a, lo, pm + 1, S)
    requires Ordered(cmp, a, lo, pm)
    modifies a
    ensures Permuted(a, lo, pm + 1)
    ensures AllIn(a, lo, pm + 1, S)
    ensures Ordered(cmp, a, lo, pm + 1)
  {
    hide PreorderOn, AllIn, Ordered, Sinking;
    var pl := pm;
    StartsSinking(cmp, a, lo, pm);
    while pl > lo && cmp(a[pl - 1], a[pl]) > 0
      invariant lo <= pl <= pm && Permuted(a, lo, pm + 1)
      invariant AllIn(a, lo, pm + 1, S) && Sinking(cmp, a, lo, pl, pm)
    {
      SinkOne(a, lo, pl, pm, cmp, S);
      pl := pl - 1;
    }
    Sunk(cmp, a, lo, pl, pm, S);
  }

  /** The straight insertion sort used below seven elements and when partitioning swapped nothing. */
  method InsertionSort<T(!new)>(a: array<T>, lo: nat, n: nat, cmp: (T, T) -> int, ghost S: iset<T>)
    requires lo + n <= a.Length
    requires PreorderOn(cmp, S) && AllIn(a, lo, lo + n, S)
    modifies a
    ensures Permuted(a, lo, lo + n)
    ensures AllIn(a, lo, lo + n, S)
    ensures Ordered(cmp, a, lo, lo + n)
  {
    if n == 0 { return; }
    var pm := lo + 1;
    while pm < lo + n
      invariant lo + 1 <= pm <= lo + n
      invariant Permuted(a, lo, lo + n)
      invariant AllIn(a, lo, lo + n, S)
      invariant Ordered(cmp, a, lo, pm)
    {
      Insert(a, lo, pm, cmp, S);
      pm := pm + 1;
    }
  }

  /** Pick the pivot index: the middle, the median of three, or the median of three medians. */
  method PivotIndex<T(!new)>(a: array<T>, lo: nat, n: nat, cmp: (T, T) -> int, ghost S: iset<T>) returns (pm: nat)
    requires 7 <= n && lo + n <= a.Length
    requires PreorderOn(cmp, S) && AllIn(a, lo, lo + n, S)
    ensures lo <= pm < lo + n
  {
    pm := lo + n / 2;
    if n > 7 {
      var pl, pn := lo, lo + n - 1;
      if n > 40 {
        var d := n / 8;
        pl := [pl, pl + d, pl + 2 * d][Med3(cmp, a[pl], a[pl + d], a[pl + 2 * d], S)];
        pm := [pm - d, pm, pm + d][Med3(cmp, a[pm - d], a[pm], a[pm + d], S)];
        pn := [pn - 2 * d, pn - d, pn][Med3(cmp, a[pn - 2 * d], a[pn - d], a[pn], S)];
      }
      pm := [pl, pm, pn][Med3(cmp, a[pl], a[pm], a[pn], S)];
    }
  }

  /** The outcome of partitioning [lo, hi): smaller, equal and greater than the pivot v. */
  ghost predicate Partitioned<T(!new)>(cmp: (T, T) -> int, a: array<T>, lo: int, mid: int, top: int, hi: int, v: T)
    reads a
  {
    && (forall k :: 0 <= k < a.Length && lo <= k < mid ==> cmp(a[k], v) < 0)
    && (forall k :: 0 <= k < a.Length && mid <= k < top ==> cmp(a[k], v) == 0)
    && (forall k :: 0 <= k < a.Length && top <= k < hi ==> cmp(a[k], v) > 0)
  }

  /** The left part of the scan: equal to the pivot v up to pa, smaller up to pb. */
  ghost predicate LeftScanned<T(!new)>(cmp: (T, T) -> int, a: array<T>, lo: int, pa: int, pb: int, v: T)
    reads a
  {
    && (forall k :: 0 <= k < a.Length && lo <= k < pa ==> cmp(a[k], v) == 0)
    && (forall k :: 0 <= k < a.Length && pa <= k < pb ==> cmp(a[k], v) < 0)
  }

  /** The right part: greater after pc up to pd, equal after pd. */
  ghost predicate RightScanned<T(!new)>(cmp: (T, T) -> int, a: array<T>, pc: int, pd: int, hi: int, v: T)
    reads a
  {
    && (forall k :: 0 <= k < a.Length && pc < k <= pd ==> cmp(a[k], v) > 0)
    && (forall k :: 0 <= k < a.Length && pd < k < hi ==> cmp(a[k], v) == 0)
  }

  method ScanUp<T(!new)>(a: array<T>, lo: nat, pa0: nat, pb0: nat, pc: nat, cmp: (T, T) -> int)
    returns (pa: nat, pb: nat, equals: bool)
    requires lo < pa0 <= pb0 <= pc + 1 <= a.Length
    requires LeftScanned(cmp, a, lo, pa0, pb0, a[lo]) && cmp(a[lo], a[lo]) == 0
    modifies a
    ensures Permuted(a, pa0, pc + 1)
    ensures pa0 <= pa <= pb && pb0 <= pb <= pc + 1
    ensures LeftScanned(cmp, a, lo, pa, pb, a[lo])
    ensures pb <= pc ==> cmp(a[pb], a[lo]) > 0
  {
    pa, pb, equals := pa0, pb0, false;
    while pb <= pc && cmp(a[pb], a[lo]) <= 0
      invariant pa0 <= pa <= pb && pb0 <= pb <= pc + 1
      invariant Permuted(a, pa0, pc + 1)
      invariant LeftScanned(cmp, a, lo, pa, pb, a[lo])
    {
      if cmp(a[pb], a[lo]) == 0 {
        equals := true;
        Swap(a, pa, pb);
        pa := pa + 1;
      }
      pb := pb + 1;
    }
  }

  method ScanDown<T(!new)>(a: array<T>, lo: nat, pb: nat, pc0: nat, pd0: nat, hi: nat, cmp: (T, T) -> int)
    returns (pc: nat, pd: nat, equals: bool)
    requires lo < pb <= pc0 + 1 && pc0 <= pd0 < hi <= a.Length
    requires RightScanned(cmp, a, pc0, pd0, hi, a[lo])
    requires pb <= pc0 ==> cmp(a[pb], a[lo]) > 0
    modifies a
    ensures Permuted(a, pb, pd0 + 1)
    ensures pb <= pc + 1 && pc <= pc0 && pc <= pd <= pd0
    ensures RightScanned(cmp, a, pc, pd, hi, a[lo])
    ensures pb <= pc ==> cmp(a[pb], a[lo]) > 0 && cmp(a[pc], a[lo]) < 0
  {
    pc, pd, equals := pc0, pd0, false;
    while pb <= pc && cmp(a[pc], a[lo]) >= 0
      invariant pb <= pc + 1 && pc <= pc0 && pc <= pd <= pd0
      invariant Permuted(a, pb, pd0 + 1)
      invariant RightScanned(cmp, a, pc, pd, hi, a[lo])
      invariant pb <= pc ==> cmp(a[pb], a[lo]) > 0
    {
      if cmp(a[pc], a[lo]) == 0 {
        equals := true;
        Swap(a, pc, pd);
        pd := pd - 1;
      }
      pc := pc - 1;
    }
  }

  /** One turn of the two-ended scan: both inner loops, then the exchange unless the ends have met. */
  method ScanTurn<T(!new)>(a: array<T>, lo: nat, pa0: nat, pb0: nat, pc0: nat, pd0: nat, hi: nat, cmp: (T, T) -> int)
    returns (pa: nat, pb: nat, pc: nat, pd: nat, moved: bool, met: bool)
    requires lo < pa0 <= pb0 <= pc0 + 1 && pc0 <= pd0 < hi <= a.Length
    requires LeftScanned(cmp, a, lo, pa0, pb0, a[lo]) && RightScanned(cmp, a, pc0, pd0, hi, a[lo])
    requires cmp(a[lo], a[lo]) == 0
    modifies a
    ensures Permuted(a, lo + 1, hi)
    ensures lo < pa <= pb <= pc + 1 && pc <= pd < hi
    ensures if met then pb == pc + 1 else pc - pb < pc0 - pb0
    ensures LeftScanned(cmp, a, lo, pa, pb, a[lo]) && RightScanned(cmp, a, pc, pd, hi, a[lo])
  {
    var left, right;
    pa, pb, left := ScanUp(a, lo, pa0, pb0, pc0, cmp);
    pc, pd, right := ScanDown(a, lo, pb, pc0, pd0, hi, cmp);
    moved, met := left || right, pb > pc;
    if !met {
      Swap(a, pb, pc);
      pb, pc, moved := pb + 1, pc - 1, true;
    }
  }

  /** The two-ended scan around the pivot a[lo]; swapped tells whether any element was exchanged. */
  method Scan<T(!new)>(a: array<T>, lo: nat, n: nat, cmp: (T, T) -> int)
    returns (pa: nat, pb: nat, pc: nat, pd: nat, swapped: bool)
    requires 1 <= n && lo + n <= a.Length
    requires cmp(a[lo], a[lo]) == 0
    modifies a
    ensures Permuted(a, lo + 1, lo + n)
    ensures lo < pa <= pb == pc + 1 && pc <= pd < lo + n
    ensures LeftScanned(cmp, a, lo, pa, pb, a[lo]) && RightScanned(cmp, a, pc, pd, lo + n, a[lo])
  {
    pa, pb, pc, pd, swapped := lo + 1, lo + 1, lo + n - 1, lo + n - 1, false;
    var met := false;
    while !met
      invariant lo < pa <= pb <= pc + 1 && pc <= pd < lo + n
      invariant met ==> pb == pc + 1
      invariant Permuted(a, lo + 1, lo + n)
      invariant LeftScanned(cmp, a, lo, pa, pb, a[lo]) && RightScanned(cmp, a, pc, pd, lo + n, a[lo])
      decreases !met, pc + 1 - pb
    {
      var moved;
      pa, pb, pc, pd, moved, met := ScanTurn(a, lo, pa, pb, pc, pd, lo + n, cmp);
      swapped := swapped || moved;
    }
  }

  /** Move the equal elements at the left end behind the smaller ones. */
  method GatherLeft<T(!new)>(a: array<T>, lo: nat, pa: nat, pb: nat, cmp: (T, T) -> int, ghost v: T)
    requires lo < pa <= pb <= a.Length && LeftScanned(cmp, a, lo, pa, pb, v)
    modifies a
    ensures Permuted(a, lo, pb)
    ensures forall k :: lo <= k < lo + (pb - pa) ==> cmp(a[k], v) < 0
    ensures forall k :: lo + (pb - pa) <= k < pb ==> cmp(a[k], v) == 0
  {
    var r := if pa - lo < pb - pa then pa - lo else pb - pa;
    VecSwap(a, lo, pb - r, r);
  }

  /** Move the equal elements at the right end before the greater ones. */
  method GatherRight<T(!new)>(a: array<T>, pb: nat, pc: nat, pd: nat, hi: nat, cmp: (T, T) -> int, ghost v: T)
    requires pb == pc + 1 && pc <= pd < hi <= a.Length && RightScanned(cmp, a, pc, pd, hi, v)
    modifies a
    ensures Permuted(a, pb, hi)
    ensures forall k :: pb <= k < hi - (pd - pc) ==> cmp(a[k], v) == 0
    ensures forall k :: hi - (pd - pc) <= k < hi ==> cmp(a[k], v) > 0
  {
    var r := if pd - pc < hi - pd - 1 then pd - pc else hi - pd - 1;
    VecSwap(a, pb, hi - r, r);
  }

  /** Move the equal elements from both ends to the middle. */
  method Gather<T(!new)>(a: array<T>, lo: nat, pa: nat, pb: nat, pc: nat, pd: nat, hi: nat, cmp: (T, T) -> int, ghost v: T)
    requires lo < pa <= pb == pc + 1 && pc <= pd < hi <= a.Length
    requires LeftScanned(cmp, a, lo, pa, pb, v) && RightScanned(cmp, a, pc, pd, hi, v)
    modifies a
    ensures Permuted(a, lo, hi)
    ensures Partitioned(cmp, a, lo, lo + (pb - pa), hi - (pd - pc), hi, v)
  {
    GatherLeft(a, lo, pa, pb, cmp, v);
    GatherRight(a, pb, pc, pd, hi, cmp, v);
  }

  /** Everything in [lo, mid) is at most everything in [mid, hi). */
  ghost predicate Below<T(!new)>(cmp: (T, T) -> int, a: array<T>, lo: int, mid: int, hi: int)
    reads a
  {
    forall i, j :: 0 <= i < a.Length && 0 <= j < a.Length && lo <= i < mid <= j < hi ==> cmp(a[i], a[j]) <= 0
  }

  /** Permuting the upper part keeps everything before it at most everything in it. */
  lemma BelowSurvives<T(!new)>(cmp: (T, T) -> int, s: seq<T>, t: seq<T>, lo: nat, mid: nat, hi: nat)
    requires lo <= mid <= hi <= |s| == |t| && multiset(s) == multiset(t)
    requires forall k :: 0 <= k < |s| && !(mid <= k < hi) ==> t[k] == s[k]
    requires forall i, j :: lo <= i < mid <= j < hi ==> cmp(s[i], s[j]) <= 0
    ensures forall i, j :: lo <= i < mid <= j < hi ==> cmp(t[i], t[j]) <= 0
  {
    forall i, j | lo <= i < mid <= j < hi ensures cmp(t[i], t[j]) <= 0 {
      RangeFactSurvives(s, t, mid, hi, NotBelow(cmp, t[i]));
    }
  }

  /** After partitioning, everything not above the pivot is at most everything above it. */
  lemma PartitionedBelow<T(!new)>(cmp: (T, T) -> int, a: array<T>, lo: nat, mid: nat, top: nat, hi: nat, v: T, S: iset<T>)
    requires lo <= mid <= top <= hi <= a.Length && Partitioned(cmp, a, lo, mid, top, hi, v)
    requires PreorderOn(cmp, S) && AllIn(a, lo, hi, S) && v in S
    ensures Below(cmp, a, lo, mid, hi) && Below(cmp, a, lo, top, hi)
    ensures Ordered(cmp, a, mid, top)
  {
    forall i, j | lo <= i < hi && lo <= j < hi && cmp(a[i], v) <= 0 && cmp(a[j], v) >= 0
      ensures cmp(a[i], a[j]) <= 0
    {
      assert Chain(a[i], v, a[j]);
    }
  }

  /** Sort the smaller part in place; the equal part and the greater part stay as they are. */
  method SortSmaller<T(!new)>(a: array<T>, lo: nat, mid: nat, top: nat, hi: nat, cmp: (T, T) -> int, ghost v: T, ghost S: iset<T>)
    requires lo <= mid < top <= hi <= a.Length
    requires PreorderOn(cmp, S) && AllIn(a, lo, hi, S) && v in S
    requires Partitioned(cmp, a, lo, mid, top, hi, v)
    modifies a
    ensures Permuted(a, lo, mid)
    ensures Ordered(cmp, a, lo, top) && Below(cmp, a, lo, top, hi)
    decreases mid - lo, 3
  {
    if mid - lo > 1 {
      Sort(a, lo, mid - lo, cmp, S);
    }
    RangeFactSurvives(old(a[..]), a[..], lo, mid, Smaller(cmp, v));
    RangeFactSurvives(old(a[..]), a[..], lo, mid, x => x in S);
    PartitionedBelow(cmp, a, lo, mid, top, hi, v, S);
  }

  /** Choose a pivot and partition around it; swapped is false when the scan exchanged nothing. */
  method Partition<T(!new)>(a: array<T>, lo: nat, n: nat, cmp: (T, T) -> int, ghost S: iset<T>)
    returns (mid: nat, top: nat, swapped: bool, ghost v: T)
    requires 7 <= n && lo + n <= a.Length
    requires PreorderOn(cmp, S) && AllIn(a, lo, lo + n, S)
    modifies a
    ensures Permuted(a, lo, lo + n)
    ensures lo <= mid < top <= lo + n && v in S
    ensures swapped ==> Partitioned(cmp, a, lo, mid, top, lo + n, v)
  {
    var pm := PivotIndex(a, lo, n, cmp, S);
    Swap(a, lo, pm);
    var pa, pb, pc, pd;
    v := a[lo];
    pa, pb, pc, pd, swapped := Scan(a, lo, n, cmp);
    mid, top := lo + (pb - pa), lo + n - (pd - pc);
    if swapped {
      Gather(a, lo, pa, pb, pc, pd, lo + n, cmp, v);
    }
  }

  /** One pass of the main loop: what remains to be sorted is the n' elements from lo' on. */
  method SortPass<T(!new)>(a: array<T>, lo: nat, n: nat, cmp: (T, T) -> int, ghost S: iset<T>) returns (lo': nat, n': nat)
    requires 7 <= n && lo + n <= a.Length
    requires PreorderOn(cmp, S) && AllIn(a, lo, lo + n, S)
    modifies a
    ensures Permuted(a, lo, lo + n)
    ensures lo <= lo' && lo' + n' == lo + n && n' < n
    ensures Ordered(cmp, a, lo, lo') && Below(cmp, a, lo, lo', lo + n)
    decreases n, 0
  {
    var mid, top, swapped, v := Partition(a, lo, n, cmp, S);
    RangeFactSurvives(old(a[..]), a[..], lo, lo + n, x => x in S);
    if swapped {
      lo', n' := top, lo + n - top;
      SortSmaller(a, lo, mid, top, lo + n, cmp, v, S);
      if n' > 1 { return; }
    } else {
      InsertionSort(a, lo, n, cmp, S);
    }
    lo', n' := lo + n, 0;
  }

  /** The sorted front grows by what a pass put into place. */
  lemma FrontGrows<T(!new)>(cmp: (T, T) -> int, s: seq<T>, t: seq<T>, lo0: nat, lo: nat, lo': nat, hi: nat)
    requires lo0 <= lo <= lo' <= hi <= |s| == |t| && multiset(s) == multiset(t)
    requires forall k :: 0 <= k < |s| && !(lo <= k < hi) ==> t[k] == s[k]
    requires forall i, j :: lo0 <= i < j < lo ==> cmp(s[i], s[j]) <= 0
    requires forall i, j :: lo0 <= i < lo <= j < hi ==> cmp(s[i], s[j]) <= 0
    requires forall i, j :: lo <= i < j < lo' ==> cmp(t[i], t[j]) <= 0
    requires forall i, j :: lo <= i < lo' <= j < hi ==> cmp(t[i], t[j]) <= 0
    ensures forall i, j :: lo0 <= i < j < lo' ==> cmp(t[i], t[j]) <= 0
    ensures forall i, j :: lo0 <= i < lo' <= j < hi ==> cmp(t[i], t[j]) <= 0
  {
    BelowSurvives(cmp, s, t, lo0, lo, hi);
  }

  /** The state of the main loop: everything before lo is in its final place. */
  ghost predicate FrontDone<T(!new)>(cmp: (T, T) -> int, a: array<T>, lo0: int, lo: int, hi: int, S: iset<T>)
    reads a
  {
    AllIn(a, lo0, hi, S) && Ordered(cmp, a, lo0, lo) && Below(cmp, a, lo0, lo, hi)
  }

  method Advance<T(!new)>(a: array<T>, ghost lo0: nat, lo: nat, n: nat, cmp: (T, T) -> int, ghost S: iset<T>) returns (lo': nat, n': nat)
    requires 7 <= n && lo0 <= lo && lo + n <= a.Length
    requires PreorderOn(cmp, S) && FrontDone(cmp, a, lo0, lo, lo + n, S)
    modifies a
    ensures Permuted(a, lo, lo + n)
    ensures lo <= lo' && lo' + n' == lo + n && n' < n
    ensures FrontDone(cmp, a, lo0, lo', lo + n, S)
    decreases n, 1
  {
    lo', n' := SortPass(a, lo, n, cmp, S);
    FrontGrows(cmp, old(a[..]), a[..], lo0, lo, lo', lo + n);
    RangeFactSurvives(old(a[..]), a[..], lo0, lo + n, x => x in S);
  }

  /** Sort n elements from lo on. The last recursive call is the loop, as in the source. */
  method Sort<T(!new)>(a: array<T>, lo0: nat, n0: nat, cmp: (T, T) -> int, ghost S: iset<T>)
    requires lo0 + n0 <= a.Length
    requires PreorderOn(cmp, S) && AllIn(a, lo0, lo0 + n0, S)
    modifies a
    ensures Permuted(a, lo0, lo0 + n0)
    ensures Ordered(cmp, a, lo0, lo0 + n0)
    decreases n0, 2
  {
    var lo, n := lo0, n0;
    while n >= 7
      invariant lo0 <= lo && lo + n == lo0 + n0
      invariant Permuted(a, lo0, lo0 + n0)
      invariant FrontDone(cmp, a, lo0, lo, lo + n, S)
      decreases n
    {
      lo, n := Advance(a, lo0, lo, n, cmp, S);
    }
    ghost var s := a[..];
    InsertionSort(a, lo, n, cmp, S);
    FrontGrows(cmp, s, a[..], lo0, lo, lo + n, lo + n);
  }
}
