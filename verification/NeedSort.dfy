/** Sorting the ids by need and numbering them (repo_write, ext/repo_write.c). */
module NeedSort {
  import opened Lexicographic
  import opened Pigeonhole
  import opened PoolId
  import opened SatSort
  import opened NeedId

  /** needid_cmp_need: most needed first, then older first. */
  function CmpNeed(a: Entry, b: Entry): int {
    if a.need != b.need then b.need - a.need else a.mp - b.mp
  }

  /** needid_cmp_need_s: most needed first, then by the bytes of the string. */
  function CmpNeedS(strings: seq<seq<int>>, a: Entry, b: Entry): int {
    if a.need != b.need then b.need - a.need
    else if a.mp >= |strings| || b.mp >= |strings| then a.mp - b.mp
    else Lex(strings[a.mp], strings[b.mp])
  }

  ghost predicate Anything(e: Entry, n: nat) { e.mp < n }

  ghost function Entries(n: nat): iset<Entry> { iset e: Entry | Anything(e, n) }

  lemma CmpNeedPreorder(n: nat)
    ensures PreorderOn((a, b) => CmpNeed(a, b), Entries(n))
  {
  }

  lemma CmpNeedSPreorder(strings: seq<seq<int>>)
    ensures PreorderOn((a, b) => CmpNeedS(strings, a, b), Entries(|strings|))
  {
    hide Lex;
    var cmp := (a: Entry, b: Entry) => CmpNeedS(strings, a, b);
    var S := Entries(|strings|);
    forall x, y | x in S && y in S ensures cmp(x, y) < 0 <==> cmp(y, x) > 0 {
      assert Anything(x, |strings|) && Anything(y, |strings|);
      LexAnti(strings[x.mp], strings[y.mp]);
    }
    forall x, y, z | x in S && y in S && z in S && cmp(x, y) <= 0 && cmp(y, z) <= 0 ensures cmp(x, z) <= 0 {
      assert Anything(x, |strings|) && Anything(y, |strings|) && Anything(z, |strings|);
      if x.need == y.need == z.need { LexTrans(strings[x.mp], strings[y.mp], strings[z.mp]); }
    }
  }

  /** The entries of a range are a permutation of its indices, each with the need of its index. */
  ghost predicate Ranking(s: seq<Entry>, N: seq<nat>, lo: nat, hi: nat) {
    && lo <= hi <= |s| == |N|
    && (forall k :: lo <= k < hi ==> lo <= s[k].mp < hi && s[k].need == N[s[k].mp])
    && (forall i, j :: lo <= i < j < hi ==> s[i].mp != s[j].mp)
    && (forall x :: lo <= x < hi ==> Ranked(s, lo, hi, x))
  }

  ghost predicate Ranked(s: seq<Entry>, lo: nat, hi: nat, x: nat)
    requires hi <= |s|
  {
    exists k :: lo <= k < hi && s[k].mp == x
  }

  ghost predicate ZerosLast(s: seq<Entry>, lo: nat, hi: nat)
    requires hi <= |s|
  {
    forall i, j :: lo <= i < j < hi && s[i].need == 0 ==> s[j].need == 0
  }

  /** Before sorting, entry k is that of k. */
  ghost predicate Unsorted(s: seq<Entry>, N: seq<nat>, lo: nat, hi: nat) {
    lo <= hi <= |s| == |N| && forall k :: lo <= k < hi ==> s[k] == Entry(N[k], k)
  }

  /** A permutation of them. */
  lemma PermutedRanking(s: seq<Entry>, t: seq<Entry>, N: seq<nat>, lo: nat, hi: nat)
    requires Unsorted(s, N, lo, hi) && |t| == |s|
    requires multiset(s[lo..hi]) == multiset(t[lo..hi])
    ensures Ranking(t, N, lo, hi)
  {
    var a, b := s[lo..hi], t[lo..hi];
    assert Distinct(a) by {
      forall i, j | 0 <= i < j < |a| ensures a[i] != a[j] {
        assert a[i] == s[lo + i] && a[j] == s[lo + j];
      }
    }
    PermutedDistinct(a, b);
    forall k | lo <= k < hi ensures lo <= t[k].mp < hi && t[k] == Entry(N[t[k].mp], t[k].mp) {
      assert t[k] == b[k - lo] && b[k - lo] in multiset(b);
      assert b[k - lo] in a;
      var i :| 0 <= i < |a| && a[i] == b[k - lo];
      assert a[i] == s[lo + i];
    }
    forall i, j | lo <= i < j < hi ensures t[i].mp != t[j].mp {
      assert b[i - lo] != b[j - lo];
    }
    forall x | lo <= x < hi ensures Ranked(t, lo, hi, x) {
      assert a[x - lo] == s[x] && s[x] in multiset(a);
      assert s[x] in b;
      var i :| 0 <= i < |b| && b[i] == s[x];
      assert t[lo + i].mp == x;
    }
  }

  /** Sort a range of entries. */
  method SortEntries(needid: array<Entry>, lo: nat, hi: nat, cmp: (Entry, Entry) -> int, ghost S: iset<Entry>, ghost N: seq<nat>)
    requires PreorderOn(cmp, S) && Unsorted(needid[..], N, lo, hi)
    requires forall k :: lo <= k < hi ==> needid[k] in S
    modifies needid
    ensures Ranking(needid[..], N, lo, hi)
    ensures forall k :: 0 <= k < needid.Length && !(lo <= k < hi) ==> needid[k] == old(needid[k])
    ensures forall i, j :: lo <= i < j < hi ==> cmp(needid[i], needid[j]) <= 0
  {
    hide PreorderOn, Ranking;
    Sort(needid, lo, hi - lo, cmp, S);
    InsidePermuted(old(needid[..]), needid[..], lo, hi);
    PermutedRanking(old(needid[..]), needid[..], N, lo, hi);
  }

  /** The numbers of a range: the first n entries got base, base + 1, ..., all other ids 0. */
  ghost predicate Numbered(s: seq<Entry>, t: seq<Entry>, N: seq<nat>, lo: nat, hi: nat, base: nat, n: nat) {
    && SameMaps(s, t) && lo + n <= hi <= |s| == |N|
    && (forall k :: lo <= k < hi ==> lo <= s[k].mp < hi)
    && (forall k :: lo <= k < lo + n ==> N[s[k].mp] > 0)
    && (forall k :: lo + n <= k < hi ==> N[s[k].mp] == 0)
    && (forall k :: lo <= k < lo + n ==> t[s[k].mp].need == base + (k - lo))
    && (forall x :: lo <= x < hi && N[x] == 0 ==> t[x].need == 0)
  }

  /** Find the end of the needed entries and forget the needs. */
  method ClearNeeds(needid: array<Entry>, lo: nat, hi: nat) returns (n: nat)
    requires lo <= hi <= needid.Length && ZerosLast(needid[..], lo, hi)
    modifies needid
    ensures SameMaps(old(needid[..]), needid[..]) && lo + n <= hi
    ensures forall k :: lo <= k < hi ==> needid[k].need == 0
    ensures forall k :: lo <= k < lo + n ==> old(needid[k].need) > 0
    ensures forall k :: lo + n <= k < hi ==> old(needid[k].need) == 0
    ensures forall k :: 0 <= k < needid.Length && !(lo <= k < hi) ==> needid[k] == old(needid[k])
  {
    var i := lo;
    while i < hi
      invariant lo <= i <= hi && SameMaps(old(needid[..]), needid[..])
      invariant forall k :: lo <= k < i ==> needid[k].need == 0 && old(needid[k].need) > 0
      invariant forall k :: 0 <= k < needid.Length && !(lo <= k < i) ==> needid[k] == old(needid[k])
    {
      if needid[i].need == 0 { break; }
      needid[i] := needid[i].(need := 0);
      i := i + 1;
    }
    n := i - lo;
    if i < hi {
      assert old(needid[..])[i].need == 0;
      assert forall k :: i < k < hi ==> old(needid[..])[k].need == 0;
    }
  }

  /** i entries of a range have got their numbers, the others none yet. */
  ghost predicate Assigned(s: seq<Entry>, t: seq<Entry>, lo: nat, hi: nat, base: nat, i: nat) {
    && lo + i <= hi <= |s| == |t| && (forall k :: lo <= k < hi ==> lo <= s[k].mp < hi)
    && (forall k :: lo <= k < lo + i ==> t[s[k].mp].need == base + (k - lo))
    && (forall k :: lo + i <= k < hi ==> t[s[k].mp].need == 0)
  }

  lemma AssignedRange(s: seq<Entry>, t: seq<Entry>, lo: nat, hi: nat, base: nat, i: nat)
    requires Assigned(s, t, lo, hi, base, i)
    ensures hi <= |s| == |t| && forall k :: lo <= k < hi ==> lo <= s[k].mp < hi
  {
  }

  lemma AssignOne(s: seq<Entry>, t: seq<Entry>, lo: nat, hi: nat, base: nat, i: nat)
    requires Assigned(s, t, lo, hi, base, i) && lo + i < hi
    requires forall i, j :: lo <= i < j < hi ==> s[i].mp != s[j].mp
    ensures var x := s[lo + i].mp; Assigned(s, t[x := t[x].(need := base + i)], lo, hi, base, i + 1)
  {
  }

  /** Give the first n entries of a ranked range their numbers. */
  method AssignNumbers(needid: array<Entry>, lo: nat, hi: nat, base: nat, n: nat, ghost s: seq<Entry>)
    requires SameMaps(s, needid[..]) && Assigned(s, needid[..], lo, hi, base, 0) && lo + n <= hi
    requires forall i, j :: lo <= i < j < hi ==> s[i].mp != s[j].mp
    modifies needid
    ensures SameMaps(s, needid[..]) && Assigned(s, needid[..], lo, hi, base, n)
    ensures forall k :: 0 <= k < needid.Length && !(lo <= k < hi) ==> needid[k] == old(needid[k])
  {
    hide SameMaps, Assigned;
    AssignedRange(s, needid[..], lo, hi, base, 0);
    var i := 0;
    while i < n
      invariant i <= n && SameMaps(s, needid[..]) && Assigned(s, needid[..], lo, hi, base, i)
      invariant forall k :: 0 <= k < needid.Length && !(lo <= k < hi) ==> needid[k] == old(needid[k])
    {
      SameMapsAt(s, needid[..], lo + i, base + i);
      AssignOne(s, needid[..], lo, hi, base, i);
      var x := needid[lo + i].mp;
      ghost var t := needid[..];
      needid[x] := needid[x].(need := base + i);
      assert needid[..] == t[x := t[x].(need := base + i)];
      i := i + 1;
    }
  }

  lemma SameMapsAt(s: seq<Entry>, t: seq<Entry>, k: nat, v: nat)
    requires SameMaps(s, t) && k < |s| && s[k].mp < |s|
    ensures t[k].mp == s[k].mp
    ensures SameMaps(s, t[s[k].mp := t[s[k].mp].(need := v)])
  {
  }

  /** Number a ranked range whose unneeded entries are last. */
  method NumberRange(needid: array<Entry>, lo: nat, hi: nat, base: nat, ghost N: seq<nat>) returns (n: nat)
    requires Ranking(needid[..], N, lo, hi) && ZerosLast(needid[..], lo, hi)
    modifies needid
    ensures Numbered(old(needid[..]), needid[..], N, lo, hi, base, n)
    ensures forall k :: 0 <= k < needid.Length && !(lo <= k < hi) ==> needid[k] == old(needid[k])
  {
    ghost var s := needid[..];
    n := ClearNeeds(needid, lo, hi);
    AssignNumbers(needid, lo, hi, base, n, s);
    forall x | lo <= x < hi && N[x] == 0 ensures needid[x].need == 0 {
      assert Ranked(s, lo, hi, x);
      var k :| lo <= k < hi && s[k].mp == x;
      assert s[k].need == N[x];
    }
  }

  /** The id that has a number. */
  lemma NumberedId(s: seq<Entry>, t: seq<Entry>, N: seq<nat>, lo: nat, hi: nat, base: nat, n: nat, i: nat)
    requires Numbered(s, t, N, lo, hi, base, n) && i < n
    ensures lo + i < |t| == |s| && t[lo + i].mp == s[lo + i].mp
    ensures lo <= s[lo + i].mp < hi && N[s[lo + i].mp] > 0 && t[s[lo + i].mp].need == base + i
  {
    assert t[lo + i].mp == s[lo + i].mp;
    hide SameMaps;
  }

  /** The number of an id that is needed is that of its rank. */
  lemma NumberOf(s: seq<Entry>, t: seq<Entry>, N: seq<nat>, lo: nat, hi: nat, base: nat, n: nat, x: nat)
    requires Numbered(s, t, N, lo, hi, base, n) && Ranking(s, N, lo, hi) && lo <= x < hi && N[x] > 0
    ensures base <= t[x].need < base + n
    ensures s[lo + (t[x].need - base)] == Entry(N[x], x) && t[lo + (t[x].need - base)].mp == x
  {
    hide SameMaps;
    assert Ranked(s, lo, hi, x);
    var k :| lo <= k < hi && s[k].mp == x;
    assert s[k].need == N[x];
    NumberedId(s, t, N, lo, hi, base, n, k - lo);
  }

  /** The table before sorting: every entry is its own, '' is needed once, and id 0 and relation 0 are not needed. */
  ghost function Prepared(reloff: nat, need: seq<nat>): (r: seq<nat>)
    requires 2 <= reloff < |need|
    ensures |r| == |need|
  {
    need[0 := 0][reloff := 0][1 := 1]
  }

  method Prepare(needid: array<Entry>, reloff: nat)
    requires 2 <= reloff < needid.Length && needid[0].mp == reloff
    modifies needid
    ensures Unsorted(needid[..], Prepared(reloff, Needs(old(needid[..]))), 1, needid.Length)
    ensures needid[0] == Entry(0, reloff)
  {
    needid[0] := needid[0].(need := 0);
    needid[reloff] := needid[reloff].(need := 0);
    var i := 1;
    while i < needid.Length
      invariant 1 <= i <= needid.Length && needid[0] == Entry(0, reloff)
      invariant forall k :: 1 <= k < i ==> needid[k].mp == k
      invariant forall k :: 1 <= k < needid.Length ==> needid[k].need == if k == reloff then 0 else old(needid[k].need)
    {
      needid[i] := needid[i].(mp := i);
      i := i + 1;
    }
    needid[1] := needid[1].(need := 1);
  }

  /** The '' entry in front of the ranked strings. */
  lemma WithEmpty(s: seq<Entry>, N: seq<nat>, hi: nat)
    requires Ranking(s, N, 2, hi) && s[1] == Entry(N[1], 1)
    ensures Ranking(s, N, 1, hi)
  {
    forall x | 1 <= x < hi ensures Ranked(s, 1, hi, x) {
      if x == 1 { assert s[1].mp == x; } else {
        assert Ranked(s, 2, hi, x);
        var k :| 2 <= k < hi && s[k].mp == x;
      }
    }
  }

  lemma RankingSame(s: seq<Entry>, t: seq<Entry>, N: seq<nat>, lo: nat, hi: nat)
    requires Ranking(s, N, lo, hi) && |t| == |s| && forall k :: lo <= k < hi ==> t[k] == s[k]
    ensures Ranking(t, N, lo, hi)
  {
    forall x | lo <= x < hi ensures Ranked(t, lo, hi, x) {
      assert Ranked(s, lo, hi, x);
      var k :| lo <= k < hi && s[k].mp == x;
      assert t[k].mp == x;
    }
  }

  /** The strings from 2 on and the relations are ranked, and in the order of the comparisons. */
  ghost predicate Order(s: seq<Entry>, N: seq<nat>, reloff: nat, strings: seq<seq<int>>) {
    && 2 <= reloff < |s| && |strings| == reloff
    && Ranking(s, N, 1, reloff) && Ranking(s, N, reloff, |s|)
    && s[1] == Entry(N[1], 1)
    && (forall i, j :: 2 <= i < j < reloff ==> CmpNeedS(strings, s[i], s[j]) <= 0)
    && (forall i, j :: reloff <= i < j < |s| ==> CmpNeed(s[i], s[j]) <= 0)
  }

  method SortTable(needid: array<Entry>, reloff: nat, strings: seq<seq<int>>, ghost N: seq<nat>)
    requires 2 <= reloff < needid.Length && |strings| == reloff
    requires Unsorted(needid[..], N, 1, needid.Length)
    modifies needid
    ensures Order(needid[..], N, reloff, strings) && needid[0] == old(needid[0])
  {
    hide PreorderOn, Ranking, CmpNeedS, CmpNeed;
    CmpNeedSPreorder(strings);
    CmpNeedPreorder(needid.Length);
    forall k | 2 <= k < reloff ensures needid[k] in Entries(reloff) { assert Anything(needid[k], reloff); }
    var cmps := (a, b) => CmpNeedS(strings, a, b);
    SortEntries(needid, 2, reloff, cmps, Entries(reloff), N);
    ghost var s := needid[..];
    forall i, j | 2 <= i < j < reloff ensures CmpNeedS(strings, s[i], s[j]) <= 0 { assert cmps(needid[i], needid[j]) <= 0; }
    WithEmpty(s, N, reloff);
    forall k | reloff <= k < needid.Length ensures needid[k] in Entries(needid.Length) {
      assert Anything(needid[k], needid.Length);
    }
    var cmp := (a, b) => CmpNeed(a, b);
    SortEntries(needid, reloff, needid.Length, cmp, Entries(needid.Length), N);
    RankingSame(s, needid[..], N, 1, reloff);
    forall i, j | reloff <= i < j < needid.Length ensures CmpNeed(needid[i], needid[j]) <= 0 { assert cmp(needid[i], needid[j]) <= 0; }
  }

  lemma ZerosSame(s: seq<Entry>, t: seq<Entry>, lo: nat, hi: nat)
    requires hi <= |s| == |t| && ZerosLast(s, lo, hi) && forall k :: lo <= k < hi ==> t[k] == s[k]
    ensures ZerosLast(t, lo, hi)
  {
  }

  /** The whole renumbering: strings from 1 on, then relations; sorted is the table in between. */
  ghost predicate Renumbered(s: seq<Entry>, t: seq<Entry>, N: seq<nat>, reloff: nat, strings: seq<seq<int>>, nstrings: nat, nrels: nat) {
    && Order(s, N, reloff, strings) && 1 <= nstrings && |t| == |s|
    && Numbered(s, t, N, 1, reloff, 1, nstrings - 1)
    && Numbered(s, t, N, reloff, |s|, nstrings, nrels)
    && t[0].need == 0
  }

  lemma SameMapsTrans(s: seq<Entry>, t: seq<Entry>, u: seq<Entry>)
    requires SameMaps(s, t) && SameMaps(t, u)
    ensures SameMaps(s, u)
  {
  }

  lemma NumberedSame(s: seq<Entry>, t: seq<Entry>, u: seq<Entry>, N: seq<nat>, lo: nat, hi: nat, base: nat, n: nat)
    requires Numbered(s, t, N, lo, hi, base, n) && SameMaps(s, u) && forall k :: lo <= k < hi ==> u[k] == t[k]
    ensures Numbered(s, u, N, lo, hi, base, n)
  {
  }

  /** From another start that agrees on the range. */
  lemma NumberedFrom(s: seq<Entry>, s': seq<Entry>, t: seq<Entry>, N: seq<nat>, lo: nat, hi: nat, base: nat, n: nat)
    requires Numbered(s, t, N, lo, hi, base, n) && SameMaps(s', s)
    ensures Numbered(s', t, N, lo, hi, base, n)
  {
  }

  /** Number the sorted strings and then the sorted relations. */
  method NumberTable(needid: array<Entry>, reloff: nat, ghost strings: seq<seq<int>>, ghost N: seq<nat>) returns (nstrings: nat, nrels: nat)
    requires Order(needid[..], N, reloff, strings) && N[1] == 1 && needid[0].need == 0
    modifies needid
    ensures Renumbered(old(needid[..]), needid[..], N, reloff, strings, nstrings, nrels)
  {
    hide Ranking, Numbered, ZerosLast, SameMaps;
    ghost var s := needid[..];
    assert 2 <= reloff < |s| && Ranking(s, N, 1, reloff) && Ranking(s, N, reloff, |s|);
    hide Order;
    OrderZeros(s, N, reloff, strings);
    var n := NumberRange(needid, 1, reloff, 1, N);
    nstrings := n + 1;
    ghost var t := needid[..];
    RankingSame(s, t, N, reloff, |s|);
    ZerosSame(s, t, reloff, |s|);
    nrels := NumberRange(needid, reloff, needid.Length, nstrings, N);
    NumberedTwice(s, t, needid[..], N, reloff, n, nrels);
  }

  lemma NumberedSizes(s: seq<Entry>, t: seq<Entry>, N: seq<nat>, lo: nat, hi: nat, base: nat, n: nat)
    requires Numbered(s, t, N, lo, hi, base, n)
    ensures SameMaps(s, t) && hi <= |s| == |t| == |N|
  {
    assert |s| == |t|;
    hide SameMaps;
  }

  lemma NumberedTwice(s: seq<Entry>, t: seq<Entry>, u: seq<Entry>, N: seq<nat>, reloff: nat, n: nat, nrels: nat)
    requires Numbered(s, t, N, 1, reloff, 1, n) && Numbered(t, u, N, reloff, |s|, n + 1, nrels)
    requires reloff <= |t| == |u| && forall k :: 0 <= k < reloff ==> u[k] == t[k]
    ensures Numbered(s, u, N, 1, reloff, 1, n) && Numbered(s, u, N, reloff, |s|, n + 1, nrels)
  {
    NumberedSizes(s, t, N, 1, reloff, 1, n);
    hide Numbered, SameMaps;
    NumberedSizes(t, u, N, reloff, |s|, n + 1, nrels);
    SameMapsTrans(s, t, u);
    NumberedSame(s, t, u, N, 1, reloff, 1, n);
    NumberedFrom(t, s, u, N, reloff, |s|, n + 1, nrels);
  }

  /** Sort the table and turn it into old id -> new id (need) and new id -> old id (mp). */
  method Renumber(needid: array<Entry>, strings: seq<seq<int>>) returns (nstrings: nat, nrels: nat, ghost s: seq<Entry>)
    requires 2 <= |strings| < needid.Length && needid[0].mp == |strings|
    modifies needid
    ensures Renumbered(s, needid[..], Prepared(|strings|, Needs(old(needid[..]))), |strings|, strings, nstrings, nrels)
  {
    assert |Needs(needid[..])| == needid.Length;
    hide Unsorted, Order, Needs, Renumbered;
    var reloff := needid[0].mp;
    ghost var N := Prepared(reloff, Needs(needid[..]));
    Prepare(needid, reloff);
    SortTable(needid, reloff, strings, N);
    s := needid[..];
    nstrings, nrels := NumberTable(needid, reloff, strings, N);
  }

  lemma OrderZeros(s: seq<Entry>, N: seq<nat>, reloff: nat, strings: seq<seq<int>>)
    requires Order(s, N, reloff, strings) && N[1] == 1
    ensures ZerosLast(s, 1, reloff) && ZerosLast(s, reloff, |s|)
  {
    hide Lex;
    forall i, j | 2 <= i < j < reloff ensures s[i].need >= s[j].need {
      assert CmpNeedS(strings, s[i], s[j]) <= 0;
    }
    forall i, j | reloff <= i < j < |s| ensures s[i].need >= s[j].need {
      assert CmpNeed(s[i], s[j]) <= 0;
    }
  }
}
