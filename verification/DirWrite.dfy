/** Renumbering directories for a written file (traverse_dirs, ext/repo_write.c), and reading the table back.
 *
 * The new table m lists old directory ids; an entry -j heads the block of the children of
 * the directory that got the new number j.
 */
module DirWrite {
  import opened Bytes
  import opened Pigeonhole
  import opened Dirpool
  import opened DirUse

  /** d goes into the file; without a usage array all directories do. */
  ghost predicate Wanted(used: Option<seq<nat>>, d: int) {
    used.Some? ==> 0 <= d < |used.value| && used.value[d] != 0
  }

  ghost predicate GoodUse(dirs: Dirs, used: Option<seq<nat>>)
    requires Blocks(dirs)
  {
    used.Some? ==> Closed(dirs, used.value) && Busy(dirs, used.value)
  }

  /** The old id of the parent whose block is headed at h. */
  ghost function Owner(m: seq<int>, h: nat): int
    requires h < |m| && 0 <= -m[h] < |m|
  {
    if h == 0 then 0 else m[-m[h]]
  }

  /** Entry i of the new table is in order: a wanted directory in its parent's block, or the head of
   * a block of an earlier directory that has children. */
  ghost predicate EntryOk(dirs: Dirs, used: Option<seq<nat>>, m: seq<int>, i: nat)
    requires Blocks(dirs) && 0 < i < |m| && m[0] == 0
  {
    if m[i] > 0 then
      var h := Head(m, i);
      && IsDir(dirs, m[i]) && Wanted(used, m[i])
      && -m[h] < |m| && ParentOf(dirs, m[i]) == Owner(m, h)
    else
      -m[i] < i && IsDir(dirs, m[-m[i]]) && Link(dirs, m[-m[i]]) != 0
  }

  ghost predicate Table(dirs: Dirs, used: Option<seq<nat>>, m: seq<int>)
    requires Blocks(dirs)
  {
    && m != [] && m[0] == 0
    && Distinct(m)
    && (forall i :: 0 < i < |m| ==> EntryOk(dirs, used, m, i))
  }

  /** Every block head is followed by a directory, except that the table may end with one. */
  ghost predicate NoEmptyBlock(m: seq<int>) {
    forall i :: 0 <= i < |m| - 1 && m[i] <= 0 ==> m[i + 1] > 0
  }

  /** The table ends with the head of p's block. */
  ghost predicate EndsWithHead(m: seq<int>, p: nat) {
    m != [] && m[|m| - 1] <= 0 && 0 <= -m[|m| - 1] < |m| && Owner(m, |m| - 1) == p
  }

  /** An entry keeps being in order when the table grows. */
  lemma EntryGrows(dirs: Dirs, used: Option<seq<nat>>, m: seq<int>, x: int, i: nat)
    requires Blocks(dirs) && 0 < i < |m| && m[0] == 0 && EntryOk(dirs, used, m, i)
    ensures EntryOk(dirs, used, m + [x], i)
  {
    HeadsAfterOne(m, x);
  }

  lemma TableGrows(dirs: Dirs, used: Option<seq<nat>>, m: seq<int>, x: int)
    requires Blocks(dirs) && Table(dirs, used, m) && x !in m && EntryOk(dirs, used, m + [x], |m|)
    ensures Table(dirs, used, m + [x])
  {
    hide EntryOk, Blocks;
    forall i | 0 < i < |m| ensures EntryOk(dirs, used, m + [x], i) {
      EntryGrows(dirs, used, m, x, i);
    }
  }

  /** Appending a wanted child of the directory whose block is being written. */
  lemma PushDir(dirs: Dirs, used: Option<seq<nat>>, m: seq<int>, d: nat, p: nat)
    requires Blocks(dirs) && Table(dirs, used, m) && d !in m
    requires IsDir(dirs, d) && ParentOf(dirs, d) == p && Wanted(used, d)
    requires var h := Head(m, |m| - 1); 0 <= -m[h] < |m| && Owner(m, h) == p
    ensures Table(dirs, used, m + [d])
    ensures Head(m + [d], |m|) == Head(m, |m| - 1)
  {
    hide Blocks, ParentOf;
    HeadsAfterOne(m, d);
    assert EntryOk(dirs, used, m + [d], |m|);
    TableGrows(dirs, used, m, d);
  }

  /** Opening a block for the directory at new number j. */
  lemma PushHead(dirs: Dirs, used: Option<seq<nat>>, m: seq<int>, j: nat)
    requires Blocks(dirs) && Table(dirs, used, m) && 0 < j < |m| && 0 < m[j] < |dirs| && Link(dirs, m[j]) != 0
    requires -(j as int) !in m
    ensures Table(dirs, used, m + [-(j as int)])
    ensures EndsWithHead(m + [-(j as int)], m[j])
  {
    hide Blocks, Link;
    assert EntryOk(dirs, used, m, j);
    assert EntryOk(dirs, used, m + [-(j as int)], |m|);
    TableGrows(dirs, used, m, -(j as int));
  }

  /** Each slot of the new table stands for a slot of the old one: a directory for itself, a block head
   * for the newest old block of the same parent. */
  ghost function OldSlot(dirs: Dirs, used: Option<seq<nat>>, m: seq<int>, i: nat): (r: int)
    requires Blocks(dirs) && Table(dirs, used, m) && i < |m|
    ensures 0 <= r < |dirs|
    ensures m[i] > 0 ==> r == m[i]
    ensures m[i] <= 0 ==> dirs[r] == -OwnerAt(m, i) && dirs[r] <= 0
  {
    if i == 0 then 0
    else
      assert EntryOk(dirs, used, m, i);
      if m[i] > 0 then m[i] else Link(dirs, m[-m[i]]) - 1
  }

  ghost function OwnerAt(m: seq<int>, h: nat): int
    requires h < |m|
  {
    if h == 0 || -m[h] < 0 || -m[h] >= |m| then 0 else m[-m[h]]
  }

  lemma OldSlotsDiffer(dirs: Dirs, used: Option<seq<nat>>, m: seq<int>, i: nat, j: nat)
    requires Blocks(dirs) && Table(dirs, used, m) && i < j < |m|
    ensures OldSlot(dirs, used, m, i) != OldSlot(dirs, used, m, j)
  {
    hide OldSlot, Link, Blocks;
    assert EntryOk(dirs, used, m, j);
    if i > 0 { assert EntryOk(dirs, used, m, i); }
    assert m[i] != m[j];
    if m[i] <= 0 && m[j] <= 0 && i > 0 {
      assert -m[i] != -m[j] && m[-m[i]] != m[-m[j]];
    }
  }

  /** The new table never has more slots than the old one. */
  lemma TableFits(dirs: Dirs, used: Option<seq<nat>>, m: seq<int>)
    requires Blocks(dirs) && Table(dirs, used, m)
    ensures |m| <= |dirs|
  {
    hide Table, Blocks;
    var s := seq(|m|, i requires 0 <= i < |m| => OldSlot(dirs, used, m, i));
    forall i, j | 0 <= i < j < |m| ensures s[i] != s[j] {
      OldSlotsDiffer(dirs, used, m, i, j);
    }
    DistinctBound(s, |dirs|);
  }

  ghost predicate WantedKid(dirs: Dirs, used: Option<seq<nat>>, p: nat, k: int)
    requires Blocks(dirs)
  {
    IsDir(dirs, k) && ParentOf(dirs, k) == p && Wanted(used, k)
  }

  ghost predicate HasWantedKid(dirs: Dirs, used: Option<seq<nat>>, p: nat)
    requires Blocks(dirs)
  {
    exists k :: WantedKid(dirs, used, p, k)
  }

  /** The table ends with (a part of) p's block, whose head is entry n0 - 1. */
  ghost predicate InBlock(dirs: Dirs, used: Option<seq<nat>>, n0: nat, m: seq<int>, p: nat)
    requires Blocks(dirs)
  {
    Table(dirs, used, m) && 0 < n0 <= |m| && Head(m, |m| - 1) == n0 - 1 && 0 <= -m[n0 - 1] < |m| && Owner(m, n0 - 1) == p
  }

  /** The wanted children met so far have been appended after the first n0 entries; the others lie ahead,
   * except that the root directory has been dealt with. */
  ghost predicate Listed(dirs: Dirs, used: Option<seq<nat>>, n0: nat, m: seq<int>, p: nat, ahead: seq<nat>)
    requires Blocks(dirs) && n0 <= |m|
  {
    && Distinct(ahead)
    && (forall k :: k in m[n0..] ==> WantedKid(dirs, used, p, k))
    && (forall k :: WantedKid(dirs, used, p, k) ==> k in m[n0..] || k in ahead)
    && (forall k :: k in ahead ==> IsDir(dirs, k) && ParentOf(dirs, k) == p)
    && (forall k :: k in ahead && Wanted(used, k) && k in m ==> n0 == 1 && k == 1)
    && (n0 == 1 ==> 1 in m[1..])
  }

  lemma KidsStart(dirs: Dirs, used: Option<seq<nat>>, m: seq<int>, p: nat)
    requires Blocks(dirs) && ValidParent(dirs, p) && Table(dirs, used, m) && EndsWithHead(m, p)
    requires (p == 0 <==> |m| == 1) && (p == 0 ==> Wanted(used, 1))
    requires forall k :: WantedKid(dirs, used, p, k) ==> k !in m
    ensures var m' := if |m| == 1 then m + [1] else m;
      InBlock(dirs, used, |m|, m', p) && Listed(dirs, used, |m|, m', p, Children(dirs, p))
  {
    hide Blocks, EntryOk, Table, Children;
    BlocksBasics(dirs);
    TableBasics(dirs, used, m);
    LastHeadIsOwn(m, p);
    ChildrenExact(dirs, p);
    if |m| == 1 {
      RootIsOne(dirs);
      assert WantedKid(dirs, used, 0, 1);
      PushDir(dirs, used, m, 1, p);
    }
    ListedStart(dirs, used, m, p);
  }

  lemma ListedStart(dirs: Dirs, used: Option<seq<nat>>, m: seq<int>, p: nat)
    requires Blocks(dirs) && ValidParent(dirs, p)
    requires (p == 0 <==> |m| == 1) && (p == 0 ==> Wanted(used, 1))
    requires forall k :: WantedKid(dirs, used, p, k) ==> k !in m
    ensures Listed(dirs, used, |m|, if |m| == 1 then m + [1] else m, p, Children(dirs, p))
  {
    hide Blocks, Children, Wanted;
    BlocksBasics(dirs);
    ChildrenExact(dirs, p);
    RootIsOne(dirs);
    var m' := if |m| == 1 then m + [1] else m;
    forall k | k in Children(dirs, p) && Wanted(used, k) && k in m' ensures |m| == 1 && k == 1 {
      assert WantedKid(dirs, used, p, k);
    }
  }

  lemma InBlockStep(dirs: Dirs, used: Option<seq<nat>>, n0: nat, m: seq<int>, p: nat, sib: nat)
    requires Blocks(dirs) && InBlock(dirs, used, n0, m, p) && WantedKid(dirs, used, p, sib) && sib !in m
    ensures InBlock(dirs, used, n0, m + [sib], p)
  {
    hide Blocks, EntryOk, Table, ParentOf;
    BlocksBasics(dirs);
    TableBasics(dirs, used, m);
    PushDir(dirs, used, m, sib, p);
  }

  lemma ListedStep(dirs: Dirs, used: Option<seq<nat>>, n0: nat, m: seq<int>, p: nat, sib: nat, rest: seq<nat>)
    requires Blocks(dirs) && n0 <= |m| && Listed(dirs, used, n0, m, p, [sib] + rest)
    ensures Wanted(used, sib) && !(sib == 1 && n0 == 1) ==>
      WantedKid(dirs, used, p, sib) && sib !in m && Listed(dirs, used, n0, m + [sib], p, rest)
    ensures !(Wanted(used, sib) && !(sib == 1 && n0 == 1)) ==> Listed(dirs, used, n0, m, p, rest)
  {
    hide Blocks, Wanted;
    assert sib in [sib] + rest;
    assert forall k :: k in [sib] + rest <==> k == sib || k in rest;
    assert Distinct(rest) && sib !in rest by { DistinctTail(sib, rest); }
    assert (m + [sib])[n0..] == m[n0..] + [sib];
  }

  lemma DistinctTail(x: nat, rest: seq<nat>)
    requires Distinct([x] + rest)
    ensures Distinct(rest) && x !in rest
  {
    var s := [x] + rest;
    forall i, j | 0 <= i < j < |rest| ensures rest[i] != rest[j] { assert s[i + 1] != s[j + 1]; }
    forall i | 0 <= i < |rest| ensures rest[i] != x { assert s[0] != s[i + 1]; }
  }

  lemma FromStep(dirs: Dirs, d: nat)
    requires Blocks(dirs) && IsDir(dirs, d)
    ensures From(dirs, d) == [d] + From(dirs, Sibling(dirs, d))
    ensures var s := Sibling(dirs, d); s != 0 ==> IsDir(dirs, s) && ParentOf(dirs, s) == ParentOf(dirs, d)
  {
  }

  /** The first loop of traverse_dirs: append the wanted children of p, the root directory first. */
  method AddKids(dp: Pool, m0: seq<int>, ghost p: nat, dir: nat, used: Option<seq<nat>>) returns (m: seq<int>)
    requires dp.Valid() && dp.dirs != [] && ValidParent(dp.dirs, p) && dir == Link(dp.dirs, p)
    requires GoodUse(dp.dirs, used) && Table(dp.dirs, used, m0) && EndsWithHead(m0, p)
    requires (p == 0 <==> |m0| == 1) && (p == 0 ==> Wanted(used, 1))
    requires forall k :: WantedKid(dp.dirs, used, p, k) ==> k !in m0
    modifies dp`dirtraverse
    ensures dp.Valid() && m0 <= m && Table(dp.dirs, used, m) && (|m0| == 1 ==> m0 + [1] <= m)
    ensures forall k :: k in m[|m0|..] <==> WantedKid(dp.dirs, used, p, k)
  {
    hide Blocks, Unique, Link, Links, From, Sibling, EndsWithHead, InBlock, Listed, Wanted;
    ghost var dirs := dp.dirs;
    KidsStart(dirs, used, m0, p);
    FirstOfBlock(dirs, p);
    BlocksBasics(dirs);
    m := if |m0| == 1 then m0 + [1] else m0;
    var sib := dir;
    while sib != 0
      invariant dp.Valid() && m0 <= m && (|m0| == 1 ==> m0 + [1] <= m) && (sib != 0 ==> IsDir(dirs, sib))
      invariant InBlock(dirs, used, |m0|, m, p) && Listed(dirs, used, |m0|, m, p, From(dirs, sib))
      decreases if sib == 0 then 0 else Head(dirs, sib) + 1, |dirs| - sib
    {
      FromStep(dirs, sib);
      ListedStep(dirs, used, |m0|, m, p, sib, From(dirs, Sibling(dirs, sib)));
      SiblingSmaller(dirs, sib);
      WantedIs(dirs, used, sib);
      if (used.Some? && used.value[sib] == 0) || (sib == 1 && |m0| == 1) {
      } else {
        InBlockStep(dirs, used, |m0|, m, p, sib);
        m := m + [sib];
      }
      sib := dp.NextSibling(sib);
    }
    KidsEnd(dirs, used, |m0|, m, p);
  }

  lemma WantedIs(dirs: Dirs, used: Option<seq<nat>>, d: nat)
    requires Blocks(dirs) && GoodUse(dirs, used) && IsDir(dirs, d)
    ensures used.Some? ==> d < |used.value|
    ensures Wanted(used, d) <==> !(used.Some? && used.value[d] == 0)
  {
  }

  lemma KidsEnd(dirs: Dirs, used: Option<seq<nat>>, n0: nat, m: seq<int>, p: nat)
    requires Blocks(dirs) && InBlock(dirs, used, n0, m, p) && Listed(dirs, used, n0, m, p, From(dirs, 0))
    ensures Table(dirs, used, m) && forall k :: k in m[n0..] <==> WantedKid(dirs, used, p, k)
  {
    hide Blocks, Table;
    FromNothing(dirs);
  }

  lemma FromNothing(dirs: Dirs)
    requires Blocks(dirs)
    ensures From(dirs, 0) == []
  {
  }

  lemma SiblingSmaller(dirs: Dirs, d: nat)
    requires Blocks(dirs) && IsDir(dirs, d)
    ensures var s := Sibling(dirs, d);
      s != 0 ==> s < |dirs| && (Head(dirs, s) < Head(dirs, d) || (Head(dirs, s) == Head(dirs, d) && s == d + 1))
  {
  }

  lemma LastHeadIsOwn(m: seq<int>, p: nat)
    requires EndsWithHead(m, p) && m[0] <= 0
    ensures Head(m, |m| - 1) == |m| - 1
  {
  }

  lemma TableBasics(dirs: Dirs, used: Option<seq<nat>>, m: seq<int>)
    requires Blocks(dirs) && Table(dirs, used, m)
    ensures m != [] && m[0] == 0 && Distinct(m)
    ensures forall i :: 0 <= i < |m| ==> m[i] < |dirs| && (m[i] <= 0 && i > 0 ==> -m[i] < i)
  {
    forall i | 0 <= i < |m| ensures m[i] < |dirs| && (m[i] <= 0 && i > 0 ==> -m[i] < i) {
      if i > 0 { assert EntryOk(dirs, used, m, i); }
    }
  }

  /** Nothing below p is in the table yet. */
  ghost predicate NoneBelow(dirs: Dirs, m: seq<int>, p: nat)
    requires Blocks(dirs)
  {
    forall d :: Under(dirs, p, d) ==> d !in m
  }

  /** From index from on, the table's directories are exactly the wanted ones below p. */
  ghost predicate HoldsBelow(dirs: Dirs, used: Option<seq<nat>>, m: seq<int>, from: nat, p: nat)
    requires Blocks(dirs) && from <= |m|
  {
    forall d :: d > 0 ==> (d in m[from..] <==> Under(dirs, p, d) && Wanted(used, d))
  }

  /** The heads from index from on belong to directories numbered from lo on, but not in [par, last). */
  ghost predicate HeadsAvoid(m: seq<int>, from: nat, lo: int, par: int, last: int) {
    forall i :: from <= i < |m| && m[i] <= 0 ==> -m[i] >= lo && !(par <= -m[i] < last)
  }

  /** The second loop has been through the kids up to number par: what follows them is what is wanted below those. */
  ghost predicate BelowKids(dirs: Dirs, used: Option<seq<nat>>, m: seq<int>, n0: nat, last: nat, par: nat)
    requires Blocks(dirs) && n0 <= par <= last <= |m|
  {
    forall d :: d > 0 ==> (d in m[last..] <==> Wanted(used, d) && exists k :: n0 <= k < par && BelowEntry(dirs, m, k, d))
  }

  ghost predicate BelowEntry(dirs: Dirs, m: seq<int>, k: nat, d: int)
    requires Blocks(dirs) && k < |m|
  {
    m[k] > 0 && Under(dirs, m[k], d)
  }

  /** When the kids and everything wanted below them have been written, everything wanted below p has. */
  lemma KidsComplete(dirs: Dirs, used: Option<seq<nat>>, m: seq<int>, n0: nat, last: nat, p: nat)
    requires Blocks(dirs) && n0 <= last <= |m|
    requires forall k :: k in m[n0..last] <==> WantedKid(dirs, used, p, k)
    requires BelowKids(dirs, used, m, n0, last, last)
    requires GoodUse(dirs, used)
    ensures HoldsBelow(dirs, used, m, n0, p)
  {
    hide Blocks, Under;
    BlocksBasics(dirs);
    assert m[n0..] == m[n0..last] + m[last..];
    forall d | d > 0 ensures d in m[n0..] <==> Under(dirs, p, d) && Wanted(used, d) {
      if d in m[n0..last] {
        ChildUnder(dirs, d, d);
      }
      if d in m[last..] {
        var k :| n0 <= k < last && BelowEntry(dirs, m, k, d);
        assert m[k] == m[n0..last][k - n0] && m[k] in m[n0..last];
        assert WantedKid(dirs, used, p, m[k]);
        ChildUnder(dirs, m[k], d);
      }
      if Under(dirs, p, d) && Wanted(used, d) {
        UnderIsDir(dirs, p, d);
        var k := UnderChild(dirs, p, d);
        WantedAbove(dirs, used, k, d);
        assert k in m[n0..last];
        var i :| 0 <= i < last - n0 && m[n0..last][i] == k;
        if k != d { assert BelowEntry(dirs, m, n0 + i, d); }
      }
    }
  }

  lemma UnderIsDir(dirs: Dirs, p: nat, d: int)
    requires Blocks(dirs) && Under(dirs, p, d)
    ensures IsDir(dirs, d)
  {
  }

  /** A directory at or above a wanted one is wanted. */
  lemma WantedAbove(dirs: Dirs, used: Option<seq<nat>>, k: nat, d: nat)
    requires Blocks(dirs) && GoodUse(dirs, used) && Wanted(used, d) && (d == k || Under(dirs, k, d))
    ensures Wanted(used, k)
    ensures used.Some? && d != k ==> used.value[k] == 2
  {
    if used.Some? && d != k { ClosedAbove(dirs, used.value, k, d); }
  }

  /** The state of the second loop at new number par: m0, the kids, and what is wanted below the kids done so far. */
  ghost predicate BelowSoFar(dirs: Dirs, used: Option<seq<nat>>, m0: seq<int>, m: seq<int>, last: nat, p: nat, par: nat)
    requires Blocks(dirs)
  {
    && m0 != [] && m0 <= m && |m0| < last <= |m| && |m0| <= par <= last
    && Table(dirs, used, m) && NoEmptyBlock(m) && m[|m| - 1] > 0
    && (forall k :: k in m[|m0|..last] <==> WantedKid(dirs, used, p, k))
    && HeadsAvoid(m, last, |m0|, par, last)
    && BelowKids(dirs, used, m, |m0|, last, par)
  }

  /** Nothing below the kid at par has been written so far, nor has a block been opened for it. */
  lemma KidIsFresh(dirs: Dirs, used: Option<seq<nat>>, m0: seq<int>, m: seq<int>, last: nat, p: nat, par: nat)
    requires Blocks(dirs) && BelowSoFar(dirs, used, m0, m, last, p, par) && par < last
    requires NoneBelow(dirs, m0, p)
    ensures WantedKid(dirs, used, p, m[par])
    ensures forall d :: Under(dirs, m[par], d) ==> d !in m
    ensures -(par as int) !in m
  {
    hide Blocks, Under, ParentOf, EntryOk, Table, Wanted;
    BlocksBasics(dirs);
    TableBasics(dirs, used, m);
    var sib := m[par];
    assert sib == m[|m0|..last][par - |m0|];
    assert sib in m[|m0|..last];
    assert WantedKid(dirs, used, p, sib);
    forall d | Under(dirs, sib, d) ensures d !in m {
      UnderIsDir(dirs, sib, d);
      ChildUnder(dirs, sib, d);
      UnderLater(dirs, sib, d);
      if d in m {
        var i :| 0 <= i < |m| && m[i] == d;
        assert i < |m0| ==> d in m0;
        if |m0| <= i < last {
          assert m[i] == m[|m0|..last][i - |m0|];
          assert WantedKid(dirs, used, p, m[i]);
          SiblingsApart(dirs, d, sib, d);
        } else if i >= last {
          assert d == m[last..][i - last] && d in m[last..];
          var k :| |m0| <= k < par && BelowEntry(dirs, m, k, d);
          assert m[k] == m[|m0|..last][k - |m0|];
          assert WantedKid(dirs, used, p, m[k]);
          SiblingsApart(dirs, m[k], sib, d);
        }
      }
    }
    forall i | 0 <= i < |m| ensures -m[i] != par {
      if |m0| <= i < last {
        assert m[i] == m[|m0|..last][i - |m0|];
        assert WantedKid(dirs, used, p, m[i]);
      }
    }
  }

  /** A kid that is not descended into has nothing wanted below it. */
  lemma SkipKid(dirs: Dirs, used: Option<seq<nat>>, m0: seq<int>, m: seq<int>, last: nat, p: nat, par: nat)
    requires Blocks(dirs) && GoodUse(dirs, used)
    requires BelowSoFar(dirs, used, m0, m, last, p, par) && par < last && 0 < m[par] < |dirs|
    requires (used.Some? && m[par] < |used.value| && used.value[m[par]] != 2) || Link(dirs, m[par]) == 0
    ensures BelowSoFar(dirs, used, m0, m, last, p, par + 1)
  {
    BelowBasics(dirs, used, m0, m, last, p, par);
    hide Blocks, Under, ParentOf, EntryOk, Table, Link, NoEmptyBlock;
    forall d | Wanted(used, d) ensures !BelowEntry(dirs, m, par, d) {
      if BelowEntry(dirs, m, par, d) {
        UnderIsDir(dirs, m[par], d);
        UnderLater(dirs, m[par], d);
        if Link(dirs, m[par]) == 0 { NoLinkNothingUnder(dirs, m[par], d); }
        else { WantedAbove(dirs, used, m[par], d); }
      }
    }
  }

  lemma NoLinkNothingUnder(dirs: Dirs, p: nat, d: nat)
    requires Blocks(dirs) && IsDir(dirs, p) && Link(dirs, p) == 0
    ensures !Under(dirs, p, d)
  {
    hide Link, Under, ParentOf;
    if Under(dirs, p, d) {
      var k := UnderChild(dirs, p, d);
      KidMeansLink(dirs, k);
    }
  }

  lemma KidMeansLink(dirs: Dirs, k: nat)
    requires Blocks(dirs) && IsDir(dirs, k)
    ensures var p := ParentOf(dirs, k); 0 <= p < |dirs| && Link(dirs, p) != 0
  {
    ParentEarlier(dirs, k);
    assert dirs[Head(dirs, k)] == -ParentOf(dirs, k);
  }

  /** A kid that is descended into has a wanted child. */
  lemma DescendHasKid(dirs: Dirs, used: Option<seq<nat>>, sib: nat)
    requires Blocks(dirs) && GoodUse(dirs, used) && IsDir(dirs, sib) && Link(dirs, sib) != 0
    requires used.Some? ==> sib < |used.value| && used.value[sib] == 2
    ensures HasWantedKid(dirs, used, sib)
  {
    if used.Some? {
      assert HasUsedChild(dirs, used.value, sib);
      var c :| IsDir(dirs, c) && used.value[c] != 0 && ParentOf(dirs, c) == sib;
      assert WantedKid(dirs, used, sib, c);
    } else {
      FirstOfBlock(dirs, sib);
      assert WantedKid(dirs, used, sib, Link(dirs, sib));
    }
  }

  /** Descending into the kid at par: its block head, then everything wanted below it. */
  lemma DescendKid(dirs: Dirs, used: Option<seq<nat>>, m0: seq<int>, m: seq<int>, m': seq<int>, last: nat, p: nat, par: nat)
    requires Blocks(dirs)
    requires BelowSoFar(dirs, used, m0, m, last, p, par) && par < last && m[par] > 0
    requires m + [-(par as int)] <= m' && Table(dirs, used, m') && NoEmptyBlock(m') && m'[|m'| - 1] > 0
    requires HoldsBelow(dirs, used, m', |m| + 1, m[par])
    requires HeadsAvoid(m', |m| + 1, |m| + 1, 0, 0)
    ensures BelowSoFar(dirs, used, m0, m', last, p, par + 1)
  {
    hide Blocks, Under, ParentOf, EntryOk, Table, NoEmptyBlock, Wanted;
    assert m'[last..] == m[last..] + [-(par as int)] + m'[|m| + 1..];
    assert m'[|m0|..last] == m[|m0|..last];
    forall d | d > 0
      ensures d in m'[last..] <==> Wanted(used, d) && exists k :: |m0| <= k < par + 1 && BelowEntry(dirs, m', k, d)
    {
      forall k | |m0| <= k < par + 1 ensures BelowEntry(dirs, m', k, d) <==> BelowEntry(dirs, m, k, d) { }
      if d in m[last..] {
        var k :| |m0| <= k < par && BelowEntry(dirs, m, k, d);
        assert BelowEntry(dirs, m', k, d);
      }
      if d in m'[|m| + 1..] { assert BelowEntry(dirs, m', par, d); }
      if Wanted(used, d) && exists k :: |m0| <= k < par + 1 && BelowEntry(dirs, m', k, d) {
        var k :| |m0| <= k < par + 1 && BelowEntry(dirs, m', k, d);
        if k < par { assert BelowEntry(dirs, m, k, d); }
      }
    }
  }

  lemma BelowStart(dirs: Dirs, used: Option<seq<nat>>, m0: seq<int>, m: seq<int>, p: nat)
    requires Blocks(dirs) && m0 <= m && Table(dirs, used, m) && NoEmptyBlock(m0) && m0 != []
    requires forall k :: k in m[|m0|..] <==> WantedKid(dirs, used, p, k)
    requires HasWantedKid(dirs, used, p)
    ensures BelowSoFar(dirs, used, m0, m, |m|, p, |m0|)
  {
    hide Blocks, Table, ParentOf, Wanted, Under;
    var k :| WantedKid(dirs, used, p, k);
    assert k in m[|m0|..];
    assert m[|m0|..|m|] == m[|m0|..];
    forall i | |m0| <= i < |m| ensures m[i] > 0 {
      assert m[i] == m[|m0|..][i - |m0|];
      assert m[i] in m[|m0|..];
    }
  }

  /** traverse_dirs: append the wanted children of p and, block by block, everything wanted below them. */
  method TraverseDirs(dp: Pool, m0: seq<int>, ghost p: nat, dir: nat, used: Option<seq<nat>>) returns (m: seq<int>)
    requires dp.Valid() && dp.dirs != [] && ValidParent(dp.dirs, p) && dir == Link(dp.dirs, p)
    requires GoodUse(dp.dirs, used) && Table(dp.dirs, used, m0) && NoEmptyBlock(m0) && EndsWithHead(m0, p)
    requires (p == 0 <==> |m0| == 1) && (p == 0 ==> Wanted(used, 1))
    requires NoneBelow(dp.dirs, m0, p) && HasWantedKid(dp.dirs, used, p)
    modifies dp`dirtraverse
    ensures dp.Valid() && m0 <= m && (|m0| == 1 ==> m0 + [1] <= m)
    ensures Table(dp.dirs, used, m) && NoEmptyBlock(m) && m != [] && m[|m| - 1] > 0
    ensures HoldsBelow(dp.dirs, used, m, |m0|, p)
    ensures HeadsAvoid(m, |m0|, |m0|, 0, 0)
    decreases |dp.dirs| - p
  {
    hide Blocks, Unique, Link, Links, Table, NoEmptyBlock, EndsWithHead, Wanted, BelowSoFar, HoldsBelow, HeadsAvoid, NoneBelow;
    ghost var dirs := dp.dirs;
    KidsNotThere(dirs, used, m0, p);
    m := AddKids(dp, m0, p, dir, used);
    TableBasics(dirs, used, m0);
    BelowStart(dirs, used, m0, m, p);
    var parent, lastn := |m0|, |m|;
    while parent < lastn
      invariant |m0| <= parent <= lastn && dp.Valid() && (|m0| == 1 ==> m0 + [1] <= m)
      invariant BelowSoFar(dirs, used, m0, m, lastn, p, parent)
      decreases lastn - parent
    {
      BelowBasics(dirs, used, m0, m, lastn, p, parent);
      KidIsFresh(dirs, used, m0, m, lastn, p, parent);
      var sib := m[parent];
      WantedIs(dirs, used, sib);
      if used.Some? && used.value[sib] != 2 {
        SkipKid(dirs, used, m0, m, lastn, p, parent);
      } else {
        var child := dp.Child(sib);
        if child != 0 {
          PushHead(dirs, used, m, parent);
          DescendHasKid(dirs, used, sib);
          DescendReady(dirs, m, sib, p, parent);
          var m' := TraverseDirs(dp, m + [-parent], sib, child, used);
          DescendKid(dirs, used, m0, m, m', lastn, p, parent);
          m := m';
        } else {
          SkipKid(dirs, used, m0, m, lastn, p, parent);
        }
      }
      parent := parent + 1;
    }
    BelowEnd(dirs, used, m0, m, lastn, p);
  }

  lemma KidsNotThere(dirs: Dirs, used: Option<seq<nat>>, m: seq<int>, p: nat)
    requires Blocks(dirs) && NoneBelow(dirs, m, p)
    ensures forall k :: WantedKid(dirs, used, p, k) ==> k !in m
  {
    forall k | WantedKid(dirs, used, p, k) ensures k !in m { ChildUnder(dirs, k, k); }
  }

  lemma BelowBasics(dirs: Dirs, used: Option<seq<nat>>, m0: seq<int>, m: seq<int>, last: nat, p: nat, par: nat)
    requires Blocks(dirs) && BelowSoFar(dirs, used, m0, m, last, p, par) && par < last
    ensures m0 <= m && last <= |m| && 0 < |m0| <= par && Table(dirs, used, m) && NoEmptyBlock(m) && m[|m| - 1] > 0
    ensures IsDir(dirs, m[par]) && ParentOf(dirs, m[par]) == p && p < m[par]
  {
    assert m[par] == m[|m0|..last][par - |m0|];
    assert WantedKid(dirs, used, p, m[par]);
    ParentEarlier(dirs, m[par]);
  }

  lemma DescendReady(dirs: Dirs, m: seq<int>, sib: nat, p: nat, par: nat)
    requires Blocks(dirs) && NoEmptyBlock(m) && m != [] && m[|m| - 1] > 0
    requires forall d :: Under(dirs, sib, d) ==> d !in m
    ensures NoneBelow(dirs, m + [-(par as int)], sib) && NoEmptyBlock(m + [-(par as int)])
  {
  }

  lemma BelowEnd(dirs: Dirs, used: Option<seq<nat>>, m0: seq<int>, m: seq<int>, last: nat, p: nat)
    requires Blocks(dirs) && GoodUse(dirs, used) && BelowSoFar(dirs, used, m0, m, last, p, last)
    ensures m0 <= m && Table(dirs, used, m) && NoEmptyBlock(m) && m != [] && m[|m| - 1] > 0
    ensures HoldsBelow(dirs, used, m, |m0|, p) && HeadsAvoid(m, |m0|, |m0|, 0, 0)
  {
    hide Table, NoEmptyBlock, Blocks, HoldsBelow;
    KidsComplete(dirs, used, m, |m0|, last, p);
    forall i | |m0| <= i < last ensures m[i] > 0 {
      assert m[i] == m[|m0|..last][i - |m0|];
      assert WantedKid(dirs, used, p, m[i]);
    }
  }

  /** The table that is written: new numbers for the components, block heads as they are. */
  ghost function Named(dirs: Dirs, m: seq<int>, need: nat -> nat): (t: Dirs)
    requires forall i :: 0 <= i < |m| ==> m[i] < |dirs| && (m[i] > 0 ==> dirs[m[i]] > 0)
    ensures |t| == |m|
  {
    seq(|m|, i requires 0 <= i < |m| => if m[i] > 0 then need(dirs[m[i]]) else m[i])
  }

  ghost function Renamed(need: nat -> nat, path: seq<int>): seq<int>
    requires forall i :: 0 <= i < |path| ==> path[i] >= 0
  {
    seq(|path|, i requires 0 <= i < |path| => need(path[i]))
  }

  lemma {:induction false} PathPositive(dirs: Dirs, d: nat)
    requires Blocks(dirs) && ValidParent(dirs, d)
    ensures forall i :: 0 <= i < |PathOf(dirs, d)| ==> PathOf(dirs, d)[i] > 0
    decreases d
  {
    if d != 0 {
      ParentEarlier(dirs, d);
      PathPositive(dirs, ParentOf(dirs, d));
    }
  }

  lemma {:induction false} SameHeads(m: seq<int>, t: seq<int>, i: nat)
    requires i < |m| == |t| && m[0] <= 0 && t[0] <= 0
    requires forall k :: 0 <= k < |m| ==> (m[k] <= 0 <==> t[k] <= 0)
    ensures Head(t, i) == Head(m, i)
  {
    if m[i] > 0 { SameHeads(m, t, i - 1); }
  }

  /** A complete traversal: every wanted directory, in non-empty blocks, the root directory at 1. */
  ghost predicate Complete(dirs: Dirs, used: Option<seq<nat>>, m: seq<int>)
    requires Blocks(dirs)
  {
    && Table(dirs, used, m) && NoEmptyBlock(m) && [0, 1] <= m && m[|m| - 1] > 0
    && HoldsBelow(dirs, used, m, 1, 0)
  }

  /** The components of the wanted directories have numbers, that of the root directory the number 1. */
  ghost predicate GoodNames(dirs: Dirs, used: Option<seq<nat>>, need: nat -> nat) {
    need(1) == 1 && forall d :: IsDir(dirs, d) && Wanted(used, d) ==> need(dirs[d]) > 0
  }

  /** The written table is a directory table again. */
  lemma NamedIsBlocks(dirs: Dirs, used: Option<seq<nat>>, m: seq<int>, need: nat -> nat)
    requires Blocks(dirs) && Complete(dirs, used, m) && GoodNames(dirs, used, need)
    ensures forall i :: 0 <= i < |m| ==> m[i] < |dirs| && (m[i] > 0 ==> dirs[m[i]] > 0)
    ensures Blocks(Named(dirs, m, need)) && forall i :: 0 <= i < |m| && m[i] > 0 ==> need(dirs[m[i]]) > 0
  {
    hide Blocks;
    BlocksBasics(dirs);
    TableBasics(dirs, used, m);
    forall i | 0 <= i < |m| && m[i] > 0 ensures dirs[m[i]] > 0 && need(dirs[m[i]]) > 0 { assert EntryOk(dirs, used, m, i); }
    var t := Named(dirs, m, need);
    assert m[1] == 1;
    forall i | 0 < i < |t| && t[i] <= 0
      ensures -t[i] < i && t[i] != 0 && t[-t[i]] > 0 && i + 1 < |t| && t[i + 1] > 0
    {
      assert EntryOk(dirs, used, m, i) && m[i] != m[0];
    }
    NamedBlocksShape(t);
  }

  lemma NamedBlocksShape(t: Dirs)
    requires 2 <= |t| && t[0] == 0 && t[1] == 1
    requires forall i :: 0 < i < |t| && t[i] <= 0 ==> -t[i] < i && t[i] != 0 && t[-t[i]] > 0 && i + 1 < |t| && t[i + 1] > 0
    ensures Blocks(t)
  {
  }

  /** In the written table the parent of entry i is the entry of the old parent. */
  lemma ParentPreserved(dirs: Dirs, used: Option<seq<nat>>, m: seq<int>, need: nat -> nat, i: nat)
    requires Blocks(dirs) && Complete(dirs, used, m) && GoodNames(dirs, used, need) && i < |m| && m[i] > 0
    ensures IsDir(dirs, m[i])
    ensures (NamedIsBlocks(dirs, used, m, need);
      var t := Named(dirs, m, need);
      var j := ParentOf(t, i);
      && IsDir(t, i) && t[i] == need(dirs[m[i]]) && 0 <= j < i
      && (j != 0 ==> m[j] > 0) && ParentOf(dirs, m[i]) == if j == 0 then 0 else m[j])
  {
    hide Blocks, Under, HoldsBelow, NoEmptyBlock;
    TableBasics(dirs, used, m);
    NamedIsBlocks(dirs, used, m, need);
    assert EntryOk(dirs, used, m, i);
    var t, h := Named(dirs, m, need), Head(m, i);
    SameHeads(m, t, i);
    ParentEarlier(t, i);
    assert h > 0 ==> EntryOk(dirs, used, m, h) && m[h] != m[0];
  }

  /** In the written table a directory has the path it had, in new component numbers. */
  lemma {:induction false} PathPreserved(dirs: Dirs, used: Option<seq<nat>>, m: seq<int>, need: nat -> nat, i: nat)
    requires Blocks(dirs) && Complete(dirs, used, m) && GoodNames(dirs, used, need) && i < |m| && m[i] > 0
    ensures IsDir(dirs, m[i])
    ensures (PathPositive(dirs, m[i]); NamedIsBlocks(dirs, used, m, need);
      PathOf(Named(dirs, m, need), i) == Renamed(need, PathOf(dirs, m[i])))
    decreases i
  {
    hide Blocks, Complete, Named, PathOf, ParentOf, GoodNames;
    NamedIsBlocks(dirs, used, m, need);
    ParentPreserved(dirs, used, m, need, i);
    var t := Named(dirs, m, need);
    BlocksBasics(dirs);
    BlocksBasics(t);
    var j, d := ParentOf(t, i), m[i];
    if j != 0 { PathPreserved(dirs, used, m, need, j); }
    PathPositive(dirs, d);
    PathStepOf(dirs, d);
    PathStepOf(t, i);
    RenamedStep(need, PathOf(dirs, ParentOf(dirs, d)), dirs[d]);
  }

  lemma RenamedStep(need: nat -> nat, path: seq<int>, c: int)
    requires c >= 0
    ensures (forall i :: 0 <= i < |path| ==> path[i] >= 0) ==> Renamed(need, path + [c]) == Renamed(need, path) + [need(c)]
    ensures Renamed(need, []) == []
  {
  }

  lemma PathStepOf(dirs: Dirs, d: nat)
    requires Blocks(dirs) && IsDir(dirs, d)
    ensures PathOf(dirs, 0) == []
    ensures 0 <= ParentOf(dirs, d) < d && ValidParent(dirs, ParentOf(dirs, d))
    ensures PathOf(dirs, d) == PathOf(dirs, ParentOf(dirs, d)) + [dirs[d]]
  {
    ParentEarlier(dirs, d);
  }

  /** The usage array as the writer leaves it: the root directory is always wanted. */
  function WithRoot(used: seq<nat>): seq<nat>
    requires |used| >= 2
  {
    if used[1] == 0 then used[1 := 1] else used
  }

  lemma WithRootGood(dirs: Dirs, used: seq<nat>)
    requires Blocks(dirs) && Closed(dirs, used) && Busy(dirs, used) && used[0] == 2
    ensures |used| >= 2 && Closed(dirs, WithRoot(used)) && Busy(dirs, WithRoot(used))
  {
    var u := WithRoot(used);
    RootIsOne(dirs);
    forall d | IsDir(dirs, d) && u[d] == 2 ensures HasUsedChild(dirs, u, d) {
      assert HasUsedChild(dirs, used, d);
      var c :| IsDir(dirs, c) && used[c] != 0 && ParentOf(dirs, c) == d;
      assert u[c] != 0;
    }
    forall d | IsDir(dirs, d) && u[d] != 0 ensures ParentBusy(dirs, u, d) {
      if d != 1 { assert ParentBusy(dirs, used, d); }
    }
  }

  lemma WithRootNames(dirs: Dirs, used: Option<seq<nat>>, need: nat -> nat)
    requires Blocks(dirs) && GoodNames(dirs, used, need) && (used.Some? ==> |used.value| == |dirs|)
    ensures GoodNames(dirs, if used.Some? then Some(WithRoot(used.value)) else None, need)
  {
  }

  /** The traversal of the whole pool. */
  method CollectDirs(dp: Pool, used: Option<seq<nat>>) returns (m: seq<int>)
    requires dp.Valid() && dp.dirs != [] && GoodUse(dp.dirs, used) && Wanted(used, 1)
    modifies dp`dirtraverse
    ensures dp.Valid() && Complete(dp.dirs, used, m) && |m| <= |dp.dirs|
  {
    var child := dp.Child(0);
    ghost var dirs := dp.dirs;
    RootIsOne(dirs);
    assert WantedKid(dirs, used, 0, 1);
    forall d | Under(dirs, 0, d) ensures d !in [0] { UnderLater(dirs, 0, d); }
    m := TraverseDirs(dp, [0], 0, child, used);
    TableFits(dirs, used, m);
  }

  /** The writer's renumbering: newid maps an old directory to its new number (0: not written), and the
   * result is the table of new component numbers. */
  method RenumberDirs(dp: Pool, used: Option<seq<nat>>, need: nat -> nat) returns (dirmap: seq<int>, newid: seq<nat>)
    requires dp.Valid() && dp.dirs != [] && GoodNames(dp.dirs, used, need)
    requires used.Some? ==> Closed(dp.dirs, used.value) && Busy(dp.dirs, used.value) && used.value[0] == 2
    modifies dp`dirtraverse
    ensures dp.Valid() && |dirmap| <= |dp.dirs| == |newid| && Blocks(dirmap)
    ensures forall d :: IsDir(dp.dirs, d) ==>
      (newid[d] != 0 <==> d == 1 || used.None? || used.value[d] != 0)
    ensures forall d :: IsDir(dp.dirs, d) && newid[d] != 0 ==> SamePath(dp.dirs, dirmap, need, d, newid[d])
    ensures forall i, j :: 0 < i < j < |dirmap| && dirmap[i] <= 0 && dirmap[j] <= 0 ==> dirmap[i] != dirmap[j]
    ensures forall i :: 0 <= i < |dirmap| && dirmap[i] > 0 ==> Stands(dp.dirs, dirmap, newid, need, i)
  {
    hide Blocks, Unique, Complete, Closed, Busy, Named, SamePath;
    ghost var dirs := dp.dirs;
    BlocksBasics(dirs);
    if used.Some? { WithRootGood(dirs, used.value); }
    WithRootNames(dirs, used, need);
    var u := if used.Some? then Some(WithRoot(used.value)) else None;
    var m := CollectDirs(dp, u);
    NamedIsBlocks(dirs, u, m, need);
    TableBasics(dirs, u, m);
    dirmap, newid := AssignNumbers(dp.dirs, m, need);
    Renumbered(dirs, used, u, m, need, newid);
    NamedHeads(dirs, m, need);
    forall i | 0 <= i < |dirmap| && dirmap[i] > 0 ensures Stands(dirs, dirmap, newid, need, i) {
      NamedStands(dirs, m, need, newid, i);
    }
  }

  /** Entry i of the new table stands for an old directory. */
  ghost predicate Stands(dirs: Dirs, dirmap: seq<int>, newid: seq<nat>, need: nat -> nat, i: nat)
    requires i < |dirmap| && |newid| == |dirs|
  {
    exists d :: IsDir(dirs, d) && newid[d] == i && i != 0 && dirmap[i] == need(dirs[d])
  }

  lemma NamedStands(dirs: Dirs, m: seq<int>, need: nat -> nat, newid: seq<nat>, i: nat)
    requires m != [] && m[0] == 0 && |newid| == |dirs| && i < |m|
    requires forall i :: 0 <= i < |m| ==> m[i] < |dirs| && (m[i] > 0 ==> dirs[m[i]] > 0)
    requires forall k :: 1 <= k < |m| && 0 < m[k] < |dirs| ==> newid[m[k]] == k
    requires Named(dirs, m, need)[i] > 0
    ensures Stands(dirs, Named(dirs, m, need), newid, need, i)
  {
    assert m[i] > 0;
    assert IsDir(dirs, m[i]);
  }

  /** The loop that turns old ids in dirmap into components and inverts dirmap into newid. */
  method AssignNumbers(dirs: Dirs, m: seq<int>, need: nat -> nat) returns (dirmap: seq<int>, newid: seq<nat>)
    requires Distinct(m) && m != [] && m[0] == 0
    requires forall i :: 0 <= i < |m| ==> m[i] < |dirs| && (m[i] > 0 ==> dirs[m[i]] > 0)
    ensures |newid| == |dirs| && dirmap == Named(dirs, m, need)
    ensures forall k :: 1 <= k < |m| && 0 < m[k] < |dirs| ==> newid[m[k]] == k
    ensures forall d :: 0 <= d < |dirs| && newid[d] != 0 ==> newid[d] < |m| && m[newid[d]] == d
  {
    newid := seq(|dirs|, _ => 0);
    dirmap := m;
    var i := 1;
    while i < |m|
      invariant 1 <= i <= |m| == |dirmap| && |newid| == |dirs|
      invariant forall k :: 0 <= k < i ==> dirmap[k] == Named(dirs, m, need)[k]
      invariant forall k :: i <= k < |m| ==> dirmap[k] == m[k]
      invariant forall k :: 1 <= k < i && m[k] > 0 ==> newid[m[k]] == k
      invariant forall d :: 0 <= d < |dirs| && newid[d] != 0 ==> newid[d] < i && m[newid[d]] == d
    {
      if dirmap[i] > 0 {
        newid := newid[dirmap[i] := i];
        dirmap := dirmap[i := need(dirs[dirmap[i]])];
      }
      i := i + 1;
    }
  }

  /** One block per parent in the written table, too. */
  lemma NamedHeads(dirs: Dirs, m: seq<int>, need: nat -> nat)
    requires forall i :: 0 <= i < |m| ==> m[i] < |dirs| && (m[i] > 0 ==> dirs[m[i]] > 0)
    requires Distinct(m) && forall i :: 0 <= i < |m| && m[i] > 0 ==> need(dirs[m[i]]) > 0
    ensures var t := Named(dirs, m, need);
      forall i, j :: 0 < i < j < |t| && t[i] <= 0 && t[j] <= 0 ==> t[i] != t[j]
  {
  }

  /** Directory d of the old table and n of the new one have the same path, up to renumbered components. */
  ghost predicate SamePath(dirs: Dirs, table: Dirs, need: nat -> nat, d: nat, n: nat) {
    && Blocks(dirs) && Blocks(table) && IsDir(dirs, d) && IsDir(table, n)
    && (forall i :: 0 <= i < |PathOf(dirs, d)| ==> PathOf(dirs, d)[i] >= 0)
    && PathOf(table, n) == Renamed(need, PathOf(dirs, d))
  }

  lemma Renumbered(dirs: Dirs, used: Option<seq<nat>>, u: Option<seq<nat>>, m: seq<int>, need: nat -> nat, newid: seq<nat>)
    requires Blocks(dirs) && Complete(dirs, u, m) && GoodNames(dirs, u, need) && |newid| == |dirs|
    requires used.Some? ==> |used.value| == |dirs|
    requires u == if used.Some? then Some(WithRoot(used.value)) else None
    requires forall k :: 1 <= k < |m| && 0 < m[k] < |dirs| ==> newid[m[k]] == k
    requires forall d :: 0 <= d < |dirs| && newid[d] != 0 ==> newid[d] < |m| && m[newid[d]] == d
    ensures forall i :: 0 <= i < |m| ==> m[i] < |dirs| && (m[i] > 0 ==> dirs[m[i]] > 0)
    ensures forall d :: IsDir(dirs, d) ==> (newid[d] != 0 <==> d == 1 || used.None? || used.value[d] != 0)
    ensures forall d :: IsDir(dirs, d) && newid[d] != 0 ==> SamePath(dirs, Named(dirs, m, need), need, d, newid[d])
  {
    hide Blocks, Under, Named, PathOf;
    NamedIsBlocks(dirs, u, m, need);
    TableBasics(dirs, u, m);
    forall d | IsDir(dirs, d) ensures newid[d] != 0 <==> d == 1 || used.None? || used.value[d] != 0 {
      AllUnderRoot(dirs, d);
      if Wanted(u, d) {
        assert d in m[1..];
        var k :| 0 <= k < |m| - 1 && m[1..][k] == d;
        assert m[k + 1] == d;
      }
      if newid[d] != 0 {
        assert m[1..][newid[d] - 1] == d && d in m[1..];
      }
    }
    forall d | IsDir(dirs, d) && newid[d] != 0
      ensures SamePath(dirs, Named(dirs, m, need), need, d, newid[d])
    {
      PathPositive(dirs, d);
      PathPreserved(dirs, u, m, need, newid[d]);
      NamedIsDir(dirs, m, need, newid[d]);
    }
  }

  lemma NamedIsDir(dirs: Dirs, m: seq<int>, need: nat -> nat, n: nat)
    requires forall i :: 0 <= i < |m| ==> m[i] < |dirs| && (m[i] > 0 ==> dirs[m[i]] > 0)
    requires 0 < n < |m| && m[n] > 0 && need(dirs[m[n]]) > 0
    ensures IsDir(Named(dirs, m, need), n)
  {
  }

  /** What the writer puts into the file: entries from 2 on, a block head as its parent's number beyond the strings. */
  method WriteTable(dirmap: seq<int>, nstrings: nat) returns (ids: seq<nat>)
    requires Blocks(dirmap) && forall i :: 0 <= i < |dirmap| ==> dirmap[i] < nstrings
    ensures |ids| == |dirmap| - 2
    ensures forall i :: 0 <= i < |ids| ==> ids[i] == if dirmap[i + 2] > 0 then dirmap[i + 2] else nstrings - dirmap[i + 2]
  {
    ids := [];
    var i := 2;
    while i < |dirmap|
      invariant 2 <= i <= |dirmap| && |ids| == i - 2
      invariant forall k :: 0 <= k < |ids| ==> ids[k] == if dirmap[k + 2] > 0 then dirmap[k + 2] else nstrings - dirmap[k + 2]
    {
      ids := ids + [if dirmap[i] > 0 then dirmap[i] else nstrings - dirmap[i]];
      i := i + 1;
    }
  }

  /** The reader: every id is range checked against i + numid; ids from numid on are block heads. */
  method ReadTable(ids: seq<nat>, numid: nat, idmap: nat -> nat) returns (ok: bool, dirs: Dirs)
    ensures ok <==> forall i :: 0 <= i < |ids| ==> ids[i] < i + 2 + numid
    ensures ok ==> |dirs| == |ids| + 2 && dirs[0] == 0 && dirs[1] == 1
    ensures ok ==> forall i :: 0 <= i < |ids| ==>
      dirs[i + 2] == if ids[i] >= numid then -(ids[i] - numid) else idmap(ids[i])
  {
    dirs := [0, 1];
    ok := true;
    var i := 2;
    while i < |ids| + 2
      invariant 2 <= i <= |ids| + 2 && |dirs| == i && dirs[0] == 0 && dirs[1] == 1 && ok
      invariant forall k :: 0 <= k < i - 2 ==> ids[k] < k + 2 + numid
      invariant forall k :: 0 <= k < i - 2 ==> dirs[k + 2] == if ids[k] >= numid then -(ids[k] - numid) else idmap(ids[k])
    {
      var id := ids[i - 2];
      if id >= i + numid { return false, []; }
      dirs := dirs + [if id >= numid then -(id - numid) else idmap(id)];
      i := i + 1;
    }
  }

  /** The table with other component ids. */
  ghost predicate Translated(table: Dirs, r: Dirs, idmap: nat -> nat) {
    |r| == |table| && forall i :: 0 <= i < |r| ==> r[i] == if table[i] > 0 then idmap(table[i]) else table[i]
  }

  /** A table with other component ids has the same directories and parents. */
  lemma TranslatedParent(table: Dirs, r: Dirs, idmap: nat -> nat)
    requires Blocks(table) && Translated(table, r, idmap) && idmap(1) == 1
    requires forall i :: 0 <= i < |table| && table[i] > 0 ==> idmap(table[i]) > 0
    ensures Blocks(r)
    ensures forall n :: IsDir(table, n) ==> IsDir(r, n) && ParentOf(r, n) == ParentOf(table, n)
  {
    forall n | IsDir(table, n) ensures IsDir(r, n) && ParentOf(r, n) == ParentOf(table, n) {
      SameHeads(table, r, n);
    }
  }

  /** In a table with other component ids, every directory has the path it had, in these ids. */
  lemma {:induction false} TranslatedPath(table: Dirs, r: Dirs, idmap: nat -> nat, n: nat)
    requires Blocks(table) && Translated(table, r, idmap) && idmap(1) == 1 && IsDir(table, n)
    requires forall i :: 0 <= i < |table| && table[i] > 0 ==> idmap(table[i]) > 0
    ensures SamePath(table, r, idmap, n, n)
    decreases n
  {
    TranslatedParent(table, r, idmap);
    hide Blocks, PathOf, ParentOf;
    PathPositive(table, n);
    BlocksBasics(table);
    BlocksBasics(r);
    PathStepOf(table, n);
    PathStepOf(r, n);
    var p := ParentOf(table, n);
    if p != 0 { TranslatedPath(table, r, idmap, p); }
    RenamedStep(idmap, PathOf(table, p), table[n]);
  }

  /** Writing a table and reading it back: no range error, and a table with the same paths in the reader's component ids. */
  method WriteAndRead(dirmap: seq<int>, nstrings: nat, idmap: nat -> nat) returns (ok: bool, dirs: Dirs)
    requires Blocks(dirmap) && forall i :: 0 <= i < |dirmap| ==> dirmap[i] < nstrings
    requires idmap(1) == 1 && forall i :: 0 <= i < |dirmap| && dirmap[i] > 0 ==> idmap(dirmap[i]) > 0
    ensures ok && Translated(dirmap, dirs, idmap)
    ensures forall n :: IsDir(dirmap, n) ==> SamePath(dirmap, dirs, idmap, n, n)
  {
    var ids := WriteTable(dirmap, nstrings);
    ok, dirs := ReadTable(ids, nstrings, idmap);
    forall i | 2 <= i < |dirs|
      ensures dirs[i] == if dirmap[i] > 0 then idmap(dirmap[i]) else dirmap[i]
    {
      assert dirs[(i - 2) + 2] == if ids[i - 2] >= nstrings then -(ids[i - 2] - nstrings) else idmap(ids[i - 2]);
    }
    hide SamePath, Blocks;
    forall n | IsDir(dirmap, n) ensures SamePath(dirmap, dirs, idmap, n, n) {
      TranslatedPath(dirmap, dirs, idmap, n);
    }
  }

  /** First one renumbering, then the other. */
  function Through(need: nat -> nat, idmap: nat -> nat): nat -> nat { c => idmap(need(c)) }

  /** Renumbering twice. */
  lemma SamePathTwice(dirs: Dirs, table: Dirs, r: Dirs, need: nat -> nat, idmap: nat -> nat, d: nat, n: nat)
    requires SamePath(dirs, table, need, d, n) && SamePath(table, r, idmap, n, n)
    ensures SamePath(dirs, r, Through(need, idmap), d, n)
  {
    hide Blocks, PathOf;
  }

  /** Renumber the directories of a pool, write their table and read it: every directory that went into the file has the path
   * it had, each component under the reader's id for its number.
   */
  method RoundTrip(dp: Pool, used: Option<seq<nat>>, need: nat -> nat, nstrings: nat, idmap: nat -> nat)
    returns (newid: seq<nat>, ok: bool, read: Dirs)
    requires dp.Valid() && dp.dirs != [] && GoodNames(dp.dirs, used, need) && idmap(1) == 1
    requires used.Some? ==> Closed(dp.dirs, used.value) && Busy(dp.dirs, used.value) && used.value[0] == 2
    requires nstrings > 0 && forall d :: IsDir(dp.dirs, d) && (d == 1 || Wanted(used, d)) ==> need(dp.dirs[d]) < nstrings && idmap(need(dp.dirs[d])) > 0
    modifies dp`dirtraverse
    ensures dp.Valid() && |newid| == |dp.dirs| && ok && |read| <= |dp.dirs|
    ensures forall d :: IsDir(dp.dirs, d) ==> (newid[d] != 0 <==> d == 1 || used.None? || used.value[d] != 0)
    ensures forall d :: IsDir(dp.dirs, d) && newid[d] != 0 ==> SamePath(dp.dirs, read, Through(need, idmap), d, newid[d])
  {
    assert used.Some? ==> |used.value| == |dp.dirs|;
    hide Blocks, Closed, Busy, SamePath, GoodNames;
    var dirmap;
    dirmap, newid := RenumberDirs(dp, used, need);
    forall i | 0 <= i < |dirmap| ensures dirmap[i] < nstrings && (dirmap[i] > 0 ==> idmap(dirmap[i]) > 0) {
      if dirmap[i] > 0 {
        assert Stands(dp.dirs, dirmap, newid, need, i);
        var d :| IsDir(dp.dirs, d) && newid[d] == i && i != 0 && dirmap[i] == need(dp.dirs[d]);
        assert d == 1 || Wanted(used, d);
      }
    }
    ok, read := WriteAndRead(dirmap, nstrings, idmap);
    forall d | IsDir(dp.dirs, d) && newid[d] != 0 ensures SamePath(dp.dirs, read, Through(need, idmap), d, newid[d]) {
      SamePathDirs(dp.dirs, dirmap, need, d, newid[d]);
      SamePathTwice(dp.dirs, dirmap, read, need, idmap, d, newid[d]);
    }
  }

  lemma SamePathDirs(dirs: Dirs, table: Dirs, need: nat -> nat, d: nat, n: nat)
    requires SamePath(dirs, table, need, d, n)
    ensures IsDir(table, n)
  {
  }
}
