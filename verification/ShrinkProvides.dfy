/** Unifying and compacting the provider lists (pool_shrink_whatprovides, src/pool.c). */
module ShrinkProvides {
  import opened Pigeonhole
  import opened SatSort
  import opened WhatProvides

  /** Element by element comparison of two zero-terminated lists, as a difference of elements. */
  function LexCmp(x: seq<nat>, y: seq<nat>): int {
    if y == [] then (if x == [] then 0 else x[0])
    else if x == [] then -(y[0] as int)
    else if x[0] != y[0] then x[0] - y[0]
    else LexCmp(x[1..], y[1..])
  }

  ghost predicate NoZero(x: seq<nat>) { forall k :: 0 <= k < |x| ==> x[k] != 0 }

  lemma {:induction false} LexAntisym(x: seq<nat>, y: seq<nat>)
    requires NoZero(x) && NoZero(y)
    ensures LexCmp(x, y) < 0 <==> LexCmp(y, x) > 0
    ensures LexCmp(x, y) == 0 <==> x == y
  {
    if x != [] && y != [] && x[0] == y[0] {
      LexAntisym(x[1..], y[1..]);
      assert x == [x[0]] + x[1..] && y == [y[0]] + y[1..];
    }
  }

  lemma {:induction false} LexTrans(x: seq<nat>, y: seq<nat>, z: seq<nat>)
    requires NoZero(x) && NoZero(y) && NoZero(z) && LexCmp(x, y) <= 0 && LexCmp(y, z) <= 0
    ensures LexCmp(x, z) <= 0
    ensures LexCmp(x, z) == 0 ==> LexCmp(x, y) == 0
  {
    if x != [] && y != [] && z != [] && x[0] == y[0] == z[0] {
      LexTrans(x[1..], y[1..], z[1..]);
    }
  }

  /** The comparator of the sort: no list first, then by list, then by id. */
  function SortCmp(wp: seq<nat>, data: seq<nat>, a: nat, b: nat): int {
    if a >= |wp| || b >= |wp| || wp[a] > |data| || wp[b] > |data| then a - b
    else
      var oa, ob := wp[a], wp[b];
      if oa == ob then a - b
      else if oa == 0 then -1
      else if ob == 0 then 1
      else
        var c := LexCmp(ListAt(data, oa), ListAt(data, ob));
        if c != 0 then c else a - b
  }

  /** Where the lists of the names are: empty ones nowhere, the others zero-terminated behind the first two entries. */
  ghost predicate Placed(wp: seq<nat>, data: seq<nat>, lists: seq<seq<nat>>) {
    && |wp| == |lists| && |data| >= 2 && data[0] == 0
    && forall n :: 1 <= n < |wp| ==> PlacedAt(data, wp[n], lists[n])
  }

  ghost predicate PlacedAt(data: seq<nat>, o: nat, list: seq<nat>) {
    && NoZero(list)
    && (if list == [] then o == 0 else 2 <= o && o + |list| < |data| && data[o..o + |list|] == list && data[o + |list|] == 0)
  }

  lemma PlacedList(data: seq<nat>, o: nat, list: seq<nat>)
    requires PlacedAt(data, o, list) && |data| >= 2 && data[0] == 0
    ensures o <= |data| && ListAt(data, o) == list
  {
    if list != [] { ListAtIs(data, o, list); }
  }

  /** Later names have later lists. */
  ghost predicate InOrder(wp: seq<nat>, lists: seq<seq<nat>>) {
    |wp| == |lists| &&
    forall m, n :: 1 <= m < n < |wp| && lists[m] != [] && lists[n] != [] ==> wp[m] + |lists[m]| < wp[n]
  }

  ghost predicate IsName(n: nat, num: nat) { 1 <= n < num }

  ghost function Names(num: nat): iset<nat> { iset n: nat | IsName(n, num) }

  /** On placed lists, the comparator is the order by list, then by id. */
  lemma SortCmpMeans(wp: seq<nat>, data: seq<nat>, lists: seq<seq<nat>>, a: nat, b: nat)
    requires Placed(wp, data, lists) && InOrder(wp, lists) && 1 <= a < |wp| && 1 <= b < |wp|
    ensures NoZero(lists[a]) && NoZero(lists[b])
    ensures var c := LexCmp(lists[a], lists[b]);
      && (SortCmp(wp, data, a, b) < 0 <==> c < 0 || (c == 0 && a < b))
      && (SortCmp(wp, data, a, b) > 0 <==> c > 0 || (c == 0 && a > b))
  {
    hide ListAt;
    assert PlacedAt(data, wp[a], lists[a]) && PlacedAt(data, wp[b], lists[b]);
    PlacedList(data, wp[a], lists[a]);
    PlacedList(data, wp[b], lists[b]);
    LexAntisym(lists[a], lists[b]);
  }

  lemma SortCmpPreorder(wp: seq<nat>, data: seq<nat>, lists: seq<seq<nat>>)
    requires Placed(wp, data, lists) && InOrder(wp, lists)
    ensures PreorderOn((a, b) => SortCmp(wp, data, a, b), Names(|wp|))
  {
    hide SortCmp, LexCmp, Placed;
    var cmp := (a: nat, b: nat) => SortCmp(wp, data, a, b);
    var S := Names(|wp|);
    forall x, y | x in S && y in S ensures cmp(x, y) < 0 <==> cmp(y, x) > 0 {
      SortCmpMeans(wp, data, lists, x, y);
      SortCmpMeans(wp, data, lists, y, x);
      LexAntisym(lists[x], lists[y]);
      LexAntisym(lists[y], lists[x]);
    }
    forall x, y, z | x in S && y in S && z in S && cmp(x, y) <= 0 && cmp(y, z) <= 0 ensures cmp(x, z) <= 0 {
      SortCmpMeans(wp, data, lists, x, y);
      SortCmpMeans(wp, data, lists, y, z);
      SortCmpMeans(wp, data, lists, x, z);
      LexTrans(lists[x], lists[y], lists[z]);
      LexAntisym(lists[x], lists[y]);
      LexAntisym(lists[y], lists[z]);
      LexAntisym(lists[x], lists[z]);
    }
  }

  /** s[1..] is a permutation of 1..|s|-1. */
  ghost predicate Permutation(s: seq<nat>) {
    && Distinct(s) && (forall k :: 1 <= k < |s| ==> 1 <= s[k] < |s|)
    && (forall n :: 1 <= n < |s| ==> n in s[1..])
  }

  lemma PermutedIdentity(s: seq<nat>, id: seq<nat>)
    requires |s| == |id| && multiset(s) == multiset(id) && (forall k :: 0 <= k < |id| ==> id[k] == k)
    requires |s| > 0 && s[0] == 0
    ensures Permutation(s)
  {
    forall k | 0 <= k < |s| ensures s[k] < |s| {
      assert s[k] in multiset(s);
      assert s[k] in id;
    }
    forall n | 0 <= n < |s| ensures n in s {
      assert id[n] == n && n in multiset(id);
    }
    SurjectiveDistinct(s);
    forall n | 1 <= n < |s| ensures n in s[1..] {
      assert n in s;
      var k :| 0 <= k < |s| && s[k] == n;
      assert s[1..][k - 1] == n;
    }
  }

  /** Sort the names 1..num-1 by list, then by id. */
  method SortNames(wp: seq<nat>, data: seq<nat>, ghost lists: seq<seq<nat>>) returns (sorted: seq<nat>)
    requires Placed(wp, data, lists) && InOrder(wp, lists) && |wp| >= 1
    ensures |sorted| == |wp| && sorted[0] == 0 && Permutation(sorted)
    ensures forall i, j :: 1 <= i < j < |sorted| ==> SortCmp(wp, data, sorted[i], sorted[j]) <= 0
  {
    hide SortCmp, Placed, PreorderOn;
    var num := |wp|;
    var a := new nat[num](i => i);
    ghost var id := a[..];
    SortCmpPreorder(wp, data, lists);
    var cmp := (x, y) => SortCmp(wp, data, x, y);
    forall k | 1 <= k < num ensures a[k] in Names(num) { assert IsName(a[k], num); }
    Sort(a, 1, num - 1, cmp, Names(num));
    sorted := a[..];
    PermutedIdentity(sorted, id);
    forall i, j | 1 <= i < j < num ensures SortCmp(wp, data, sorted[i], sorted[j]) <= 0 {
      assert cmp(a[i], a[j]) <= 0;
    }
  }

  lemma PlacedElement(data: seq<nat>, o: nat, x: seq<nat>, k: nat)
    requires PlacedAt(data, o, x) && x != [] && k <= |x|
    ensures o + k < |data| && data[o + k] == if k < |x| then x[k] else 0
    ensures k < |x| ==> x[k] != 0
  {
    assert k < |x| ==> data[o + k] == data[o..o + |x|][k];
  }

  lemma LexEmpty(y: seq<nat>)
    ensures LexCmp([], y) <= 0
  {
  }

  /** Are the two zero-terminated lists the same? */
  method SameList(data: seq<nat>, o: nat, l: nat, ghost x: seq<nat>, ghost y: seq<nat>) returns (same: bool)
    requires PlacedAt(data, o, x) && PlacedAt(data, l, y) && x != [] && y != []
    ensures same <==> x == y
  {
    var dp, lp := o, l;
    ghost var k := 0;
    while data[dp] != 0
      invariant 0 <= k <= |x| && k <= |y| && dp == o + k && lp == l + k && x[..k] == y[..k]
      decreases |x| - k
    {
      PlacedElement(data, o, x, k);
      PlacedElement(data, l, y, k);
      if data[dp] != data[lp] { return false; }
      dp, lp, k := dp + 1, lp + 1, k + 1;
    }
    PlacedElement(data, o, x, k);
    PlacedElement(data, l, y, k);
    same := data[lp] == 0;
  }

  /** After unification: a name keeps its own list, or refers to the least name with the same list. */
  ghost predicate Unified(wp: seq<nat>, lists: seq<seq<nat>>, u: seq<int>, n: nat)
    requires |wp| == |lists| == |u| && n < |u|
  {
    if u[n] >= 0 then
      u[n] == wp[n] && forall m :: 1 <= m < n && lists[n] != [] ==> lists[m] != lists[n]
    else
      var m := -u[n];
      1 <= m < n && lists[m] == lists[n] != [] && u[m] == wp[m]
  }

  /** The state of the unification loop before position i of the sorted names; last is the name whose
   * list is the greatest seen so far, 0 before there is any. */
  ghost predicate UnifiedSoFar(wp: seq<nat>, lists: seq<seq<nat>>, sorted: seq<nat>, u: seq<int>, i: nat, last: nat)
    requires |wp| == |lists| == |u| == |sorted| && 1 <= i <= |sorted| && Permutation(sorted)
  {
    && (forall k :: i <= k < |sorted| ==> u[sorted[k]] == wp[sorted[k]])
    && (forall k :: 1 <= k < i ==> UnifiedAt(wp, lists, sorted, u, k))
    && (last == 0 ==> forall k :: 1 <= k < i ==> lists[sorted[k]] == [])
    && (last != 0 ==> IsLast(wp, lists, sorted, u, i, last))
  }

  ghost predicate UnifiedAt(wp: seq<nat>, lists: seq<seq<nat>>, sorted: seq<nat>, u: seq<int>, k: nat)
    requires |wp| == |lists| == |u| == |sorted| && 1 <= k < |sorted| && Permutation(sorted)
  {
    var n := sorted[k];
    if u[n] >= 0 then
      u[n] == wp[n] && forall j :: 1 <= j < k && lists[n] != [] ==> lists[sorted[j]] != lists[n]
    else
      var m := -u[n];
      1 <= m < n && lists[m] == lists[n] != [] && u[m] == wp[m] && exists j :: 1 <= j < k && sorted[j] == m
  }

  ghost predicate IsLast(wp: seq<nat>, lists: seq<seq<nat>>, sorted: seq<nat>, u: seq<int>, i: nat, last: nat)
    requires |wp| == |lists| == |u| == |sorted| && i <= |sorted| && Permutation(sorted)
  {
    && last < |u| && u[last] == wp[last] && lists[last] != []
    && (exists k :: 1 <= k < i && sorted[k] == last)
    && (forall k :: 1 <= k < i ==> LexCmp(lists[sorted[k]], lists[last]) <= 0)
  }

  /** The names in the order of the sort. */
  ghost predicate SortedNames(wp: seq<nat>, data: seq<nat>, sorted: seq<nat>) {
    |sorted| == |wp| && Permutation(sorted)
    && forall i, j :: 1 <= i < j < |sorted| ==> SortCmp(wp, data, sorted[i], sorted[j]) <= 0
  }

  lemma Earlier(wp: seq<nat>, data: seq<nat>, lists: seq<seq<nat>>, sorted: seq<nat>, k: nat, i: nat)
    requires Placed(wp, data, lists) && InOrder(wp, lists) && SortedNames(wp, data, sorted) && 1 <= k < i < |sorted|
    ensures NoZero(lists[sorted[k]]) && NoZero(lists[sorted[i]]) && sorted[k] != sorted[i]
    ensures LexCmp(lists[sorted[k]], lists[sorted[i]]) <= 0
    ensures lists[sorted[k]] == lists[sorted[i]] ==> sorted[k] < sorted[i]
  {
    hide SortCmp, LexCmp, PlacedAt, InOrder;
    SortCmpMeans(wp, data, lists, sorted[k], sorted[i]);
    LexAntisym(lists[sorted[k]], lists[sorted[i]]);
  }

  /** One step of the unification: an empty list is skipped. */
  lemma UnifySkip(wp: seq<nat>, data: seq<nat>, lists: seq<seq<nat>>, sorted: seq<nat>, u: seq<int>, i: nat, last: nat)
    requires Placed(wp, data, lists) && InOrder(wp, lists) && SortedNames(wp, data, sorted) && |u| == |wp|
    requires 1 <= i < |sorted| && UnifiedSoFar(wp, lists, sorted, u, i, last) && lists[sorted[i]] == []
    ensures UnifiedSoFar(wp, lists, sorted, u, i + 1, last)
  {
    hide LexCmp, PlacedAt, InOrder, SortCmp;
    if last != 0 { LexEmpty(lists[last]); }
  }

  /** The same list as the last one: refer to its name, which is smaller. */
  lemma UnifyShare(wp: seq<nat>, data: seq<nat>, lists: seq<seq<nat>>, sorted: seq<nat>, u: seq<int>, i: nat, last: nat)
    requires Placed(wp, data, lists) && InOrder(wp, lists) && SortedNames(wp, data, sorted) && |u| == |wp|
    requires 1 <= i < |sorted| && UnifiedSoFar(wp, lists, sorted, u, i, last) && lists[sorted[i]] != []
    requires last != 0 && lists[last] == lists[sorted[i]]
    ensures last < sorted[i] && UnifiedSoFar(wp, lists, sorted, u[sorted[i] := -(last as int)], i + 1, last)
  {
    hide LexCmp, PlacedAt, InOrder, SortCmp;
    var n := sorted[i];
    var j :| 1 <= j < i && sorted[j] == last;
    Earlier(wp, data, lists, sorted, j, i);
    var u' := u[n := -(last as int)];
    forall k | 1 <= k < i ensures UnifiedAt(wp, lists, sorted, u', k) {
      assert UnifiedAt(wp, lists, sorted, u, k);
    }
    LexAntisym(lists[n], lists[last]);
  }

  /** A new list: it becomes the last one, and no earlier name has it. */
  lemma UnifyNew(wp: seq<nat>, data: seq<nat>, lists: seq<seq<nat>>, sorted: seq<nat>, u: seq<int>, i: nat, last: nat)
    requires Placed(wp, data, lists) && InOrder(wp, lists) && SortedNames(wp, data, sorted) && |u| == |wp|
    requires 1 <= i < |sorted| && UnifiedSoFar(wp, lists, sorted, u, i, last) && lists[sorted[i]] != []
    requires last == 0 || lists[last] != lists[sorted[i]]
    ensures UnifiedSoFar(wp, lists, sorted, u, i + 1, sorted[i])
  {
    hide LexCmp, PlacedAt, InOrder, SortCmp;
    var n := sorted[i];
    forall k | 1 <= k < i
      ensures LexCmp(lists[sorted[k]], lists[n]) <= 0 && lists[sorted[k]] != lists[n]
    {
      Earlier(wp, data, lists, sorted, k, i);
      if last != 0 {
        var j :| 1 <= j < i && sorted[j] == last;
        Earlier(wp, data, lists, sorted, j, i);
        LexAntisym(lists[last], lists[n]);
        LexTrans(lists[sorted[k]], lists[last], lists[n]);
        LexAntisym(lists[sorted[k]], lists[n]);
        LexAntisym(lists[sorted[k]], lists[last]);
      }
    }
    LexReflexive(lists[n]);
  }

  lemma {:induction false} LexReflexive(x: seq<nat>)
    ensures LexCmp(x, x) == 0
  {
    if x != [] { LexReflexive(x[1..]); }
  }

  lemma UnifyEnd(wp: seq<nat>, data: seq<nat>, lists: seq<seq<nat>>, sorted: seq<nat>, u: seq<int>, last: nat)
    requires Placed(wp, data, lists) && InOrder(wp, lists) && SortedNames(wp, data, sorted) && |u| == |wp| >= 1
    requires UnifiedSoFar(wp, lists, sorted, u, |sorted|, last)
    ensures forall n :: 1 <= n < |u| ==> Unified(wp, lists, u, n)
  {
    hide LexCmp, PlacedAt, InOrder, SortCmp;
    forall n | 1 <= n < |u| ensures Unified(wp, lists, u, n) {
      assert n in sorted[1..];
      var i :| 0 <= i < |sorted| - 1 && sorted[1..][i] == n;
      var k := i + 1;
      assert sorted[k] == n && UnifiedAt(wp, lists, sorted, u, k);
      if u[n] >= 0 {
        forall m | 1 <= m < n && lists[n] != [] ensures lists[m] != lists[n] {
          assert m in sorted[1..];
          var j :| 0 <= j < |sorted| - 1 && sorted[1..][j] == m;
          assert sorted[j + 1] == m;
          if k < j + 1 { Earlier(wp, data, lists, sorted, k, j + 1); }
        }
      }
    }
  }

  /** The unification: names with equal lists come to refer to the least of them. */
  method Unify(wp: seq<nat>, data: seq<nat>, ghost lists: seq<seq<nat>>) returns (u: seq<int>)
    requires Placed(wp, data, lists) && InOrder(wp, lists) && |wp| >= 1
    ensures |u| == |wp| && u[0] == wp[0] && forall n :: 1 <= n < |u| ==> Unified(wp, lists, u, n)
  {
    hide SortCmp, PlacedAt, InOrder, UnifiedSoFar, Unified, Permutation;
    var sorted := SortNames(wp, data, lists);
    assert SortedNames(wp, data, sorted);
    u := seq(|wp|, k requires 0 <= k < |wp| => wp[k]);
    var i, last := 1, 0;
    UnifyStart(wp, lists, sorted, u);
    while i < |sorted|
      invariant 1 <= i <= |sorted| && |u| == |wp| && u[0] == wp[0]
      invariant UnifiedSoFar(wp, lists, sorted, u, i, last)
    {
      var id := sorted[i];
      UnifyHere(wp, data, lists, sorted, u, i, last);
      var o := u[id];
      if o == 0 || o == 1 {
        UnifySkip(wp, data, lists, sorted, u, i, last);
      } else {
        var same := false;
        if last != 0 { same := SameList(data, o, wp[last], lists[id], lists[last]); }
        if same {
          UnifyShare(wp, data, lists, sorted, u, i, last);
          u := u[id := -last];
        } else {
          UnifyNew(wp, data, lists, sorted, u, i, last);
          last := id;
        }
      }
      i := i + 1;
    }
    UnifyEnd(wp, data, lists, sorted, u, last);
  }

  lemma UnifyStart(wp: seq<nat>, lists: seq<seq<nat>>, sorted: seq<nat>, u: seq<int>)
    requires |wp| == |lists| == |u| == |sorted| >= 1 && Permutation(sorted)
    requires forall k :: 0 <= k < |wp| ==> u[k] == wp[k]
    ensures UnifiedSoFar(wp, lists, sorted, u, 1, 0)
  {
  }

  lemma UnifyHere(wp: seq<nat>, data: seq<nat>, lists: seq<seq<nat>>, sorted: seq<nat>, u: seq<int>, i: nat, last: nat)
    requires Placed(wp, data, lists) && SortedNames(wp, data, sorted) && |u| == |wp|
    requires 1 <= i < |sorted| && UnifiedSoFar(wp, lists, sorted, u, i, last)
    ensures 1 <= sorted[i] < |wp| && u[sorted[i]] == wp[sorted[i]] && PlacedAt(data, wp[sorted[i]], lists[sorted[i]])
    ensures lists[sorted[i]] == [] <==> u[sorted[i]] == 0 || u[sorted[i]] == 1
    ensures last != 0 ==> last < |wp| && lists[last] != [] && PlacedAt(data, wp[last], lists[last])
  {
    assert PlacedAt(data, wp[sorted[i]], lists[sorted[i]]);
  }

  /** The compaction before name id: the lists of the names before it have been moved up to below dp,
   * those of the names from it on are where they were. */
  ghost predicate Compacted(lists: seq<seq<nat>>, u: seq<int>, w: seq<int>, data: seq<nat>, id: nat, dp: nat)
    requires |lists| == |u| == |w| && 1 <= id <= |w|
  {
    && 2 <= dp <= |data| && data[0] == 0
    && (forall n :: 1 <= n < id ==> MovedBelow(data, w[n], lists[n], dp))
    && (forall n :: 1 <= n < id && u[n] < 0 ==> 1 <= -u[n] < n && w[n] == w[-u[n]])
    && (forall n :: id <= n < |w| ==> w[n] == u[n])
    && (forall n :: id <= n < |w| && u[n] > 1 ==> dp <= u[n] && PlacedAt(data, u[n], lists[n]))
  }

  ghost predicate MovedBelow(data: seq<nat>, o: int, list: seq<nat>, dp: nat) {
    0 <= o && PlacedAt(data, o, list) && (list != [] ==> o + |list| < dp)
  }

  /** Move one zero-terminated list down to dp. */
  method MoveList(data0: seq<nat>, lp0: nat, dp0: nat, ghost list: seq<nat>) returns (data: seq<nat>, dp: nat)
    requires PlacedAt(data0, lp0, list) && list != [] && 2 <= dp0 <= lp0
    ensures |data| == |data0| && dp == dp0 + |list| + 1 <= |data|
    ensures PlacedAt(data, dp0, list)
    ensures forall k :: 0 <= k < |data| && !(dp0 <= k < dp) ==> data[k] == data0[k]
  {
    data, dp := data0, dp0;
    var lp, last := lp0, 1;
    ghost var n := 0;
    while last != 0
      invariant 0 <= n <= |list| + 1 && lp == lp0 + n && dp == dp0 + n && |data| == |data0|
      invariant last == 0 <==> n == |list| + 1
      invariant forall k :: 0 <= k < |data| && !(dp0 <= k < dp) ==> data[k] == data0[k]
      invariant forall k :: dp0 <= k < dp ==> k < |data| && data[k] == if k - dp0 < |list| then list[k - dp0] else 0
      decreases |list| + 1 - n
    {
      PlacedElement(data0, lp0, list, n);
      last := data[lp];
      data := data[dp := last];
      dp, lp, n := dp + 1, lp + 1, n + 1;
    }
    assert data[dp0..dp0 + |list|] == list;
  }

  lemma PlacedElsewhere(data: seq<nat>, data': seq<nat>, o: nat, list: seq<nat>, lo: nat, hi: nat)
    requires PlacedAt(data, o, list) && |data| == |data'|
    requires forall k :: 0 <= k < |data| && !(lo <= k < hi) ==> data'[k] == data[k]
    requires o + |list| < lo || hi <= o || list == []
    ensures PlacedAt(data', o, list)
  {
    if list != [] { assert data'[o..o + |list|] == data[o..o + |list|]; }
  }

  lemma CompactMove(wp: seq<nat>, lists: seq<seq<nat>>, u: seq<int>, w: seq<int>, data: seq<nat>, data': seq<nat>, id: nat, dp: nat, dp': nat)
    requires |wp| == |lists| == |u| == |w| && 1 <= id < |w| && InOrder(wp, lists)
    requires forall n :: 1 <= n < |u| ==> Unified(wp, lists, u, n) && (wp[n] > 1 ==> lists[n] != [])
    requires Compacted(lists, u, w, data, id, dp) && u[id] > 1
    requires |data'| == |data| && dp' == dp + |lists[id]| + 1 <= |data|
    requires PlacedAt(data', dp, lists[id])
    requires forall k :: 0 <= k < |data| && !(dp <= k < dp') ==> data'[k] == data[k]
    ensures Compacted(lists, u, w[id := dp], data', id + 1, dp')
  {
    hide PlacedAt;
    var w' := w[id := dp];
    forall n | 1 <= n < id ensures MovedBelow(data', w'[n], lists[n], dp') {
      assert MovedBelow(data, w[n], lists[n], dp);
      PlacedElsewhere(data, data', w[n], lists[n], dp, dp');
    }
    assert Unified(wp, lists, u, id);
    forall n | id < n < |w| && u[n] > 1 ensures dp' <= u[n] && PlacedAt(data', u[n], lists[n]) {
      assert Unified(wp, lists, u, n);
      PlacedElsewhere(data, data', u[n], lists[n], dp, dp');
    }
  }

  lemma CompactRefer(lists: seq<seq<nat>>, wp: seq<nat>, u: seq<int>, w: seq<int>, data: seq<nat>, id: nat, dp: nat)
    requires |wp| == |lists| == |u| == |w| && 1 <= id < |w| && Unified(wp, lists, u, id)
    requires Compacted(lists, u, w, data, id, dp) && u[id] < 0
    ensures -u[id] < id && Compacted(lists, u, w[id := w[-u[id]]], data, id + 1, dp)
  {
    hide PlacedAt;
    assert MovedBelow(data, w[-u[id]], lists[-u[id]], dp);
  }

  /** The offset of one name after compaction, and the data: an empty list has none, a reference is followed to a
   * smaller name, and a list of its own is moved down. Neither abort is ever reached. */
  method CompactTurn(ghost wp: seq<nat>, ghost lists: seq<seq<nat>>, ghost u: seq<int>, w0: seq<int>, data0: seq<nat>, id: nat, dp0: nat)
    returns (w: seq<int>, data: seq<nat>, dp: nat)
    requires |wp| == |lists| == |u| == |w0| && 1 <= id < |w0| && InOrder(wp, lists) && dp0 >= 2
    requires forall n :: 1 <= n < |u| ==> Unified(wp, lists, u, n) && (wp[n] > 1 <==> lists[n] != []) && (lists[n] == [] ==> wp[n] == 0)
    requires Compacted(lists, u, w0, data0, id, dp0)
    ensures |w| == |w0| && w[0] == w0[0] && |data| == |data0| && dp >= dp0 && Compacted(lists, u, w, data, id + 1, dp)
    ensures dp <= dp0 || (u[id] > 1 && lists[id] != [] && dp <= u[id] + |lists[id]| + 1)
    ensures forall k :: 0 <= k < |data| && !(dp0 <= k < dp) ==> data[k] == data0[k]
  {
    hide PlacedAt, InOrder, Unified;
    w, data, dp := w0, data0, dp0;
    UnifiedIs(wp, lists, u, id);
    var o := w[id];
    if o == 0 || o == 1 {
      PlacedNothing(data, lists[id]);
    } else if o < 0 {
      var i := -o;
      CompactRefer(lists, wp, u, w, data, id, dp);
      assert i < id;
      w := w[id := w[i]];
    } else {
      var lp := o;
      assert lp >= dp;
      data, dp := MoveList(data, lp, dp, lists[id]);
      CompactMove(wp, lists, u, w, data0, data, id, dp0, dp);
      w := w[id := dp0];
    }
  }

  /** Close the gaps: move every kept list down, in the order of the names. */
  method Compact(ghost wp: seq<nat>, ghost lists: seq<seq<nat>>, u: seq<int>, data0: seq<nat>, ghost off: nat)
    returns (w: seq<int>, data: seq<nat>, dp: nat)
    requires Placed(wp, data0, lists) && InOrder(wp, lists) && |u| == |wp| >= 1
    requires forall n :: 1 <= n < |u| ==> Unified(wp, lists, u, n)
    requires 2 <= off <= |data0| && forall n :: 1 <= n < |wp| && lists[n] != [] ==> wp[n] + |lists[n]| < off
    ensures |w| == |u| && w[0] == u[0] && |data| == |data0| && 2 <= dp <= off && data[0] == 0 && data[1] == data0[1]
    ensures forall n :: 1 <= n < |w| ==> MovedBelow(data, w[n], lists[n], dp)
    ensures forall n :: 1 <= n < |w| && u[n] < 0 ==> 1 <= -u[n] < n && w[n] == w[-u[n]]
    ensures forall k :: off <= k < |data| ==> data[k] == data0[k]
  {
    hide PlacedAt, InOrder, Unified;
    w, data, dp := u, data0, 2;
    var id := 1;
    forall n | 1 <= n < |wp| ensures (wp[n] > 1 <==> lists[n] != []) && (lists[n] == [] ==> wp[n] == 0) {
      PlacedOffset(data0, wp[n], lists[n]);
    }
    forall n | 1 <= n < |u| ensures u[n] >= 0 ==> u[n] == wp[n] { UnifiedIs(wp, lists, u, n); }
    CompactStart(wp, lists, u, data0);
    while id < |w|
      invariant 1 <= id <= |w| == |u| && w[0] == u[0] && |data| == |data0| && 2 <= dp <= off && data[0] == 0 && data[1] == data0[1]
      invariant Compacted(lists, u, w, data, id, dp)
      invariant forall k :: off <= k < |data| ==> data[k] == data0[k]
    {
      hide Compacted;
      w, data, dp := CompactTurn(wp, lists, u, w, data, id, dp);
      id := id + 1;
    }
  }

  lemma PlacedOffset(data: seq<nat>, o: nat, list: seq<nat>)
    requires PlacedAt(data, o, list)
    ensures (o > 1 <==> list != []) && (list == [] ==> o == 0)
  {
  }

  lemma PlacedNothing(data: seq<nat>, list: seq<nat>)
    ensures list == [] ==> PlacedAt(data, 0, list)
  {
  }

  lemma UnifiedIs(wp: seq<nat>, lists: seq<seq<nat>>, u: seq<int>, n: nat)
    requires |wp| == |lists| == |u| && n < |u| && Unified(wp, lists, u, n)
    ensures u[n] >= 0 ==> u[n] == wp[n]
  {
  }

  lemma CompactStart(wp: seq<nat>, lists: seq<seq<nat>>, u: seq<int>, data: seq<nat>)
    requires Placed(wp, data, lists) && |u| == |wp| >= 1
    requires forall n :: 1 <= n < |u| ==> Unified(wp, lists, u, n)
    ensures Compacted(lists, u, u, data, 1, 2)
  {
    forall n | 1 <= n < |u| && u[n] > 1 ensures 2 <= u[n] && PlacedAt(data, u[n], lists[n]) {
      assert Unified(wp, lists, u, n) && PlacedAt(data, wp[n], lists[n]);
    }
  }
}
