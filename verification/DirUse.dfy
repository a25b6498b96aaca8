/** Which directories a written file needs (setdirused, ext/repo_write.c).
 *
 * dirused[d] is 0 for an unused directory, 1 for one that is used itself, 2 for one below which
 * something is used.
 */
module DirUse {
  import opened Dirpool

  /** d lies properly below p. */
  ghost predicate Under(dirs: Dirs, p: nat, d: int)
    requires Blocks(dirs)
    decreases d
  {
    IsDir(dirs, d) &&
      (ParentEarlier(dirs, d);
       ParentOf(dirs, d) == p || (ParentOf(dirs, d) != 0 && Under(dirs, p, ParentOf(dirs, d))))
  }

  lemma {:induction false} UnderLater(dirs: Dirs, p: nat, d: int)
    requires Blocks(dirs) && Under(dirs, p, d)
    ensures p < d
    decreases d
  {
    ParentEarlier(dirs, d);
    if ParentOf(dirs, d) != p { UnderLater(dirs, p, ParentOf(dirs, d)); }
  }

  /** Every directory is below the virtual root. */
  lemma {:induction false} AllUnderRoot(dirs: Dirs, d: nat)
    requires Blocks(dirs) && IsDir(dirs, d)
    ensures Under(dirs, 0, d)
    decreases d
  {
    ParentEarlier(dirs, d);
    if ParentOf(dirs, d) != 0 { AllUnderRoot(dirs, ParentOf(dirs, d)); }
  }

  /** What is below p is a child of p or below one. */
  lemma {:induction false} UnderChild(dirs: Dirs, p: nat, d: nat) returns (k: nat)
    requires Blocks(dirs) && Under(dirs, p, d)
    ensures IsDir(dirs, k) && ParentOf(dirs, k) == p && (d == k || Under(dirs, k, d))
    decreases d
  {
    ParentEarlier(dirs, d);
    if ParentOf(dirs, d) == p { k := d; }
    else { k := UnderChild(dirs, p, ParentOf(dirs, d)); }
  }

  lemma {:induction false} ChildUnder(dirs: Dirs, k: nat, d: nat)
    requires Blocks(dirs) && IsDir(dirs, k) && (d == k || Under(dirs, k, d))
    ensures ParentOf(dirs, k) >= 0 && Under(dirs, ParentOf(dirs, k), d)
    decreases d
  {
    ParentEarlier(dirs, k);
    if d != k {
      ParentEarlier(dirs, d);
      if ParentOf(dirs, d) != k { ChildUnder(dirs, k, ParentOf(dirs, d)); }
    }
  }

  /** Nothing is below two children of the same directory, and no child is below its sibling. */
  lemma {:induction false} SiblingsApart(dirs: Dirs, k: nat, l: nat, d: nat)
    requires Blocks(dirs) && IsDir(dirs, k) && IsDir(dirs, l) && k != l && ParentOf(dirs, k) == ParentOf(dirs, l)
    requires d == k || Under(dirs, k, d)
    ensures !Under(dirs, l, d)
    decreases d
  {
    ParentEarlier(dirs, k);
    ParentEarlier(dirs, l);
    var p := ParentOf(dirs, d);
    if d == k {
      if p != 0 && Under(dirs, l, p) { UnderLater(dirs, l, p); }
    } else {
      ParentEarlier(dirs, d);
      SiblingsApart(dirs, k, l, p);
      if p == l { SiblingsApart(dirs, l, k, l); }
    }
  }

  /** A used directory makes its parent (or the virtual root) a 2. */
  ghost predicate Closed(dirs: Dirs, used: seq<nat>)
    requires Blocks(dirs)
  {
    |used| == |dirs| && forall d :: IsDir(dirs, d) && used[d] != 0 ==> ParentBusy(dirs, used, d)
  }

  ghost predicate ParentBusy(dirs: Dirs, used: seq<nat>, d: nat)
    requires Blocks(dirs) && IsDir(dirs, d) && |used| == |dirs|
  {
    ParentEarlier(dirs, d);
    used[ParentOf(dirs, d)] == 2
  }

  /** A 2 has a used child. */
  ghost predicate Busy(dirs: Dirs, used: seq<nat>)
    requires Blocks(dirs) && |used| == |dirs|
  {
    forall d :: IsDir(dirs, d) && used[d] == 2 ==> HasUsedChild(dirs, used, d)
  }

  ghost predicate HasUsedChild(dirs: Dirs, used: seq<nat>, d: nat)
    requires Blocks(dirs) && |used| == |dirs|
  {
    exists c :: IsDir(dirs, c) && used[c] != 0 && ParentOf(dirs, c) == d
  }

  /** Everything above a used directory is a 2. */
  lemma {:induction false} ClosedAbove(dirs: Dirs, used: seq<nat>, p: nat, d: nat)
    requires Blocks(dirs) && Closed(dirs, used) && Under(dirs, p, d) && used[d] != 0
    ensures p < |used| && used[p] == 2
    decreases d
  {
    ParentEarlier(dirs, d);
    assert ParentBusy(dirs, used, d);
    if ParentOf(dirs, d) != p { ClosedAbove(dirs, used, p, ParentOf(dirs, d)); }
  }

  /** All parents are busy, except perhaps that of cur. */
  ghost predicate ClosedBut(dirs: Dirs, used: seq<nat>, cur: nat)
    requires Blocks(dirs)
  {
    |used| == |dirs| && forall d :: IsDir(dirs, d) && used[d] != 0 && d != cur ==> ParentBusy(dirs, used, d)
  }

  /** Marking the parent d of cur as a 2. */
  lemma MarkBusy(dirs: Dirs, used: seq<nat>, cur: nat, d: nat)
    requires Blocks(dirs) && ClosedBut(dirs, used, cur) && Busy(dirs, used)
    requires IsDir(dirs, cur) && used[cur] != 0 && d == ParentOf(dirs, cur) && d < |used|
    ensures Busy(dirs, used[d := 2])
    ensures ClosedBut(dirs, used[d := 2], d)
    ensures used[d] != 0 || d == 0 ==> Closed(dirs, used[d := 2])
  {
    hide Blocks, ParentOf;
    BlocksBasics(dirs);
    var used' := used[d := 2];
    assert HasUsedChild(dirs, used', d) by { assert used'[cur] != 0; }
    forall x | IsDir(dirs, x) && used'[x] == 2 ensures HasUsedChild(dirs, used', x) {
      if x != d {
        assert HasUsedChild(dirs, used, x);
        var c :| IsDir(dirs, c) && used[c] != 0 && ParentOf(dirs, c) == x;
        assert used'[c] != 0;
      }
    }
    forall x | IsDir(dirs, x) && used'[x] != 0 && (x != d || used[d] != 0) ensures ParentBusy(dirs, used', x) {
      ParentEarlier(dirs, x);
      if x != cur { assert ParentBusy(dirs, used, x); }
    }
  }

  /** Mark dir as used, and everything above it as having something used below. */
  method SetDirUsed(dp: Pool, dirused: array<nat>, dir: nat)
    requires dp.Valid() && dp.dirs != [] && IsDir(dp.dirs, dir)
    requires Closed(dp.dirs, dirused[..]) && Busy(dp.dirs, dirused[..])
    modifies dirused
    ensures Closed(dp.dirs, dirused[..]) && Busy(dp.dirs, dirused[..])
    ensures forall d :: IsDir(dp.dirs, d) ==>
      (dirused[d] != 0 <==> old(dirused[d]) != 0 || d == dir || Under(dp.dirs, d, dir))
  {
    hide Blocks, Unique, Under, ParentOf;
    ghost var dirs, before := dp.dirs, dirused[..];
    BlocksBasics(dirs);
    if dirused[dir] != 0 {
      UsedExactly(dirs, before, before, dir);
      return;
    }
    dirused[dir] := 1;
    ghost var cur := dir;
    MarkSelf(dirs, before, dir);
    assert dirused[..] == before[dir := 1];
    var d := dp.Parent(dir);
    while d != 0
      invariant IsDir(dirs, cur) && ParentOf(dirs, cur) == d && ValidParent(dirs, d) && dirused[cur] != 0
      invariant cur == dir || Under(dirs, cur, dir)
      invariant ClosedBut(dirs, dirused[..], cur) && Busy(dirs, dirused[..])
      invariant Grown(dirs, before, dirused[..], dir)
      decreases d
    {
      StepUp(dirs, cur, dir);
      ghost var used := dirused[..];
      MarkBusy(dirs, used, cur, d);
      if dirused[d] == 2 {
        assert used[d := 2] == used;
        UsedExactly(dirs, before, dirused[..], dir);
        return;
      }
      if dirused[d] != 0 {
        dirused[d] := 2;
        assert dirused[..] == used[d := 2];
        UsedExactly(dirs, before, dirused[..], dir);
        return;
      }
      dirused[d] := 2;
      assert dirused[..] == used[d := 2];
      cur := d;
      d := dp.Parent(d);
    }
    ghost var used := dirused[..];
    MarkBusy(dirs, used, cur, 0);
    dirused[0] := 2;
    assert dirused[..] == used[0 := 2];
    UsedExactly(dirs, before, dirused[..], dir);
  }

  /** Only dir and directories above it have been marked. */
  ghost predicate Grown(dirs: Dirs, before: seq<nat>, used: seq<nat>, dir: nat)
    requires Blocks(dirs)
  {
    |before| == |used| == |dirs| && (dir < |used| && used[dir] != 0)
    && forall d :: IsDir(dirs, d) ==>
         (before[d] != 0 ==> used[d] != 0) && (used[d] != 0 ==> before[d] != 0 || d == dir || Under(dirs, d, dir))
  }

  lemma UsedExactly(dirs: Dirs, before: seq<nat>, used: seq<nat>, dir: nat)
    requires Blocks(dirs) && Closed(dirs, used) && IsDir(dirs, dir)
    requires Grown(dirs, before, used, dir)
    ensures forall d :: IsDir(dirs, d) ==> (used[d] != 0 <==> before[d] != 0 || d == dir || Under(dirs, d, dir))
  {
    hide Blocks, Under;
    forall d | IsDir(dirs, d) && Under(dirs, d, dir) ensures used[d] != 0 {
      ClosedAbove(dirs, used, d, dir);
    }
  }

  lemma MarkSelf(dirs: Dirs, used: seq<nat>, dir: nat)
    requires Blocks(dirs) && Closed(dirs, used) && Busy(dirs, used) && IsDir(dirs, dir) && used[dir] == 0
    ensures ClosedBut(dirs, used[dir := 1], dir) && Busy(dirs, used[dir := 1])
    ensures Grown(dirs, used, used[dir := 1], dir)
  {
    hide Blocks, ParentOf, Under;
    BlocksBasics(dirs);
    var used' := used[dir := 1];
    forall x | IsDir(dirs, x) && used'[x] == 2 ensures HasUsedChild(dirs, used', x) {
      assert HasUsedChild(dirs, used, x);
      var c :| IsDir(dirs, c) && used[c] != 0 && ParentOf(dirs, c) == x;
      assert used'[c] != 0;
    }
    forall x | IsDir(dirs, x) && used'[x] != 0 && x != dir ensures ParentBusy(dirs, used', x) {
      ParentEarlier(dirs, x);
      assert ParentBusy(dirs, used, x);
    }
  }

  lemma StepUp(dirs: Dirs, cur: nat, dir: nat)
    requires Blocks(dirs) && IsDir(dirs, cur) && IsDir(dirs, dir) && (cur == dir || Under(dirs, cur, dir))
    ensures var d := ParentOf(dirs, cur); 0 <= d < cur && Under(dirs, d, dir)
  {
    ParentEarlier(dirs, cur);
    ChildUnder(dirs, cur, dir);
  }
}
