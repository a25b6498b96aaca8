/** Turning cumulative directory sizes into sizes per directory (commit_diskusage, ext/repo_rpmmd.c). */
module DiskUsage {
  import opened Dirpool
  import opened Pigeonhole
  import opened SatSort

  datatype Usage = Usage(dir: nat, size: nat, files: nat)

  /** x is a directory above d. */
  ghost predicate Above(dirs: Dirs, x: nat, d: nat)
    requires Blocks(dirs) && ValidParent(dirs, d)
    decreases d
  {
    d != 0 &&
      (ParentEarlier(dirs, d);
       ParentOf(dirs, d) != 0 && (ParentOf(dirs, d) == x || Above(dirs, x, ParentOf(dirs, d))))
  }

  lemma {:induction false} AboveEarlier(dirs: Dirs, x: nat, d: nat)
    requires Blocks(dirs) && ValidParent(dirs, d) && Above(dirs, x, d)
    ensures 0 < x < d
    decreases d
  {
    ParentEarlier(dirs, d);
    if ParentOf(dirs, d) != x { AboveEarlier(dirs, x, ParentOf(dirs, d)); }
  }

  /** The own values of the listed directories below d, as far as their ids are less than bound. */
  ghost function SumBelow(dirs: Dirs, listed: set<nat>, own: nat -> nat, d: nat, bound: nat): nat
    requires Blocks(dirs) && forall e :: e in listed ==> IsDir(dirs, e)
  {
    if bound == 0 then 0
    else
      SumBelow(dirs, listed, own, d, bound - 1) +
      if bound - 1 in listed && Above(dirs, d, bound - 1) then own(bound - 1) else 0
  }

  /** Directories below d have greater ids. */
  lemma {:induction false} NothingBelow(dirs: Dirs, listed: set<nat>, own: nat -> nat, d: nat, bound: nat)
    requires Blocks(dirs) && (forall e :: e in listed ==> IsDir(dirs, e)) && bound <= d + 1
    ensures SumBelow(dirs, listed, own, d, bound) == 0
  {
    if bound > 0 {
      NothingBelow(dirs, listed, own, d, bound - 1);
      if bound - 1 in listed && Above(dirs, d, bound - 1) { AboveEarlier(dirs, d, bound - 1); }
    }
  }

  /** Moving the bound down to a directory whose successors up to the old bound are not listed. */
  lemma {:induction false} SumStep(dirs: Dirs, listed: set<nat>, own: nat -> nat, d: nat, e: nat, bound: nat)
    requires Blocks(dirs) && (forall x :: x in listed ==> IsDir(dirs, x)) && e in listed && e < bound
    requires forall x :: x in listed && e < x ==> bound <= x
    ensures SumBelow(dirs, listed, own, d, bound) ==
      SumBelow(dirs, listed, own, d, e) + if Above(dirs, d, e) then own(e) else 0
    decreases bound
  {
    if bound > e + 1 {
      assert bound - 1 !in listed;
      SumStep(dirs, listed, own, d, e, bound - 1);
    }
  }

  ghost function Listed(s: seq<Usage>): set<nat> { set k | 0 <= k < |s| :: s[k].dir }

  /** The entries are distinct directories. */
  ghost predicate DistinctDirs(dirs: Dirs, s: seq<Usage>) {
    && (forall k :: 0 <= k < |s| ==> IsDir(dirs, s[k].dir))
    && (forall i, j :: 0 <= i < j < |s| ==> s[i].dir != s[j].dir)
  }

  /** Entry u holds its own values and those of the listed directories below it with ids less than bound. */
  ghost predicate Cumulative(dirs: Dirs, listed: set<nat>, size: nat -> nat, files: nat -> nat, u: Usage, bound: nat)
    requires Blocks(dirs) && forall e :: e in listed ==> IsDir(dirs, e)
  {
    && u.size == size(u.dir) + SumBelow(dirs, listed, size, u.dir, bound)
    && u.files == files(u.dir) + SumBelow(dirs, listed, files, u.dir, bound)
  }

  ghost predicate AllCumulative(dirs: Dirs, listed: set<nat>, size: nat -> nat, files: nat -> nat, s: seq<Usage>, bound: nat)
    requires Blocks(dirs) && forall e :: e in listed ==> IsDir(dirs, e)
  {
    forall k :: 0 <= k < |s| ==> Cumulative(dirs, listed, size, files, s[k], bound)
  }

  ghost predicate Ascending(s: seq<Usage>) { forall i, j :: 0 <= i < j < |s| ==> s[i].dir < s[j].dir }

  // ---- sorting ----

  ghost predicate AnyUsage(u: Usage) { true }

  ghost function AllUsages(): iset<Usage> { iset u: Usage | AnyUsage(u) }

  /** Sort by directory id, so that parents come before their children. */
  method SortDirs(a: array<Usage>, ghost dirs: Dirs)
    requires DistinctDirs(dirs, a[..])
    modifies a
    ensures DistinctDirs(dirs, a[..]) && Ascending(a[..])
    ensures multiset(a[..]) == multiset(old(a[..]))
  {
    if a.Length > 1 {
      var cmp := (u: Usage, v: Usage) => u.dir - v.dir;
      Sort(a, 0, a.Length, cmp, AllUsages());
      PermutedDirs(dirs, old(a[..]), a[..]);
      forall i, j | 0 <= i < j < a.Length ensures a[i].dir < a[j].dir {
        assert cmp(a[i], a[j]) <= 0;
        assert a[..][i].dir != a[..][j].dir;
      }
    }
  }

  lemma PermutedDirs(dirs: Dirs, s: seq<Usage>, t: seq<Usage>)
    requires DistinctDirs(dirs, s) && multiset(t) == multiset(s)
    ensures DistinctDirs(dirs, t) && Listed(t) == Listed(s)
  {
    forall k | 0 <= k < |t| ensures t[k] in s {
      assert t[k] in multiset(t);
    }
    forall k | 0 <= k < |s| ensures s[k] in t {
      assert s[k] in multiset(s);
    }
    PermutedDistinct(s, t);
  }

  // ---- subtracting ----

  /** Subtract, but not below zero. */
  function Minus(a: nat, b: nat): nat { if a < b then 0 else a - b }

  /** Subtracting v from u stops at zero. */
  predicate Clamps(u: Usage, v: Usage) { u.size < v.size || u.files < v.files }

  /** Subtracting entry i from one of its ancestors that are above p stops at zero. */
  ghost predicate ClampsAbove(dirs: Dirs, s: seq<Usage>, i: nat, p: nat)
    requires Blocks(dirs) && i < |s| && IsDir(dirs, s[i].dir)
  {
    exists k :: 0 <= k < |s| && Above(dirs, s[k].dir, s[i].dir) && s[k].dir > p && Clamps(s[k], s[i])
  }

  /** Look backwards from j for directory p. */
  method FindBefore(a: array<Usage>, j0: nat, p: nat) returns (found: bool, j: nat)
    requires j0 <= a.Length
    ensures found ==> j < j0 && a[j].dir == p
    ensures !found ==> forall k :: 0 <= k < j0 ==> a[k].dir != p
  {
    j := j0;
    while j > 0
      invariant 0 <= j <= j0
      invariant forall k :: j <= k < j0 ==> a[k].dir != p
    {
      j := j - 1;
      if a[j].dir == p { return true, j; }
    }
    found := false;
  }

  /** What entry k has become when the values of entry i were subtracted from its ancestors that are above p. */
  ghost predicate Subtracted(dirs: Dirs, s: seq<Usage>, t: seq<Usage>, i: nat, p: nat)
    requires Blocks(dirs) && i < |s| && IsDir(dirs, s[i].dir)
  {
    && |t| == |s|
    && forall k :: 0 <= k < |s| ==>
        t[k] == if Above(dirs, s[k].dir, s[i].dir) && s[k].dir > p then Less(s[k], s[i]) else s[k]
  }

  function Less(u: Usage, v: Usage): Usage { Usage(u.dir, Minus(u.size, v.size), Minus(u.files, v.files)) }

  /** The ancestors of d from p on are p and the ancestors of p. */
  lemma {:induction false} AboveSplit(dirs: Dirs, d: nat, p: nat, x: nat)
    requires Blocks(dirs) && IsDir(dirs, d) && (p == d || Above(dirs, p, d)) && ValidParent(dirs, p)
    requires Above(dirs, x, d) && x < p
    ensures Above(dirs, x, p)
    decreases d
  {
    if p != d {
      ParentEarlier(dirs, d);
      if ParentOf(dirs, d) == x { AboveEarlier2(dirs, p, d); }
      else if ParentOf(dirs, d) != p { AboveSplit(dirs, ParentOf(dirs, d), p, x); }
    }
  }

  /** No directory above d is nearer than the parent. */
  lemma AboveEarlier2(dirs: Dirs, p: nat, d: nat)
    requires Blocks(dirs) && IsDir(dirs, d) && Above(dirs, p, d)
    ensures 0 <= ParentOf(dirs, d) && p <= ParentOf(dirs, d)
  {
    ParentEarlier(dirs, d);
    if ParentOf(dirs, d) != p { AboveEarlier(dirs, p, ParentOf(dirs, d)); }
  }

  lemma {:induction false} AboveNext(dirs: Dirs, d: nat, p: nat)
    requires Blocks(dirs) && IsDir(dirs, d) && IsDir(dirs, p) && (p == d || Above(dirs, p, d)) && ParentOf(dirs, p) != 0
    ensures 0 < ParentOf(dirs, p) < p && IsDir(dirs, ParentOf(dirs, p)) && Above(dirs, ParentOf(dirs, p), d)
    decreases d
  {
    ParentEarlier(dirs, p);
    ParentEarlier(dirs, d);
    if p != d && ParentOf(dirs, d) != p { AboveNext(dirs, ParentOf(dirs, d), p); }
  }

  /** Going from an ancestor p to its parent, with or without an entry for p. */
  lemma SubtractedStep(dirs: Dirs, s: seq<Usage>, t: seq<Usage>, u: seq<Usage>, i: nat, p: nat)
    requires Blocks(dirs) && i < |s| && IsDir(dirs, s[i].dir) && IsDir(dirs, p) && Above(dirs, p, s[i].dir)
    requires Subtracted(dirs, s, t, i, p) && |u| == |t|
    requires forall k :: 0 <= k < |t| ==> u[k] == if s[k].dir == p then Less(t[k], s[i]) else t[k]
    ensures 0 <= ParentOf(dirs, p) && Subtracted(dirs, s, u, i, ParentOf(dirs, p))
  {
    ParentEarlier(dirs, p);
    var q := ParentOf(dirs, p);
    forall k | 0 <= k < |s|
      ensures u[k] == if Above(dirs, s[k].dir, s[i].dir) && s[k].dir > q then Less(s[k], s[i]) else s[k]
    {
      if Above(dirs, s[k].dir, s[i].dir) && s[k].dir < p {
        AboveSplit(dirs, s[i].dir, p, s[k].dir);
        AboveEarlier2(dirs, s[k].dir, p);
      }
    }
  }

  /** From an ancestor p to its parent: entry j is that of p, if there is one. */
  lemma ClampsStep(dirs: Dirs, s: seq<Usage>, i: nat, p: nat, found: bool, j: nat)
    requires Blocks(dirs) && i < |s| && IsDir(dirs, s[i].dir) && IsDir(dirs, p) && Above(dirs, p, s[i].dir)
    requires if found then j < |s| && s[j].dir == p && (forall k :: 0 <= k < |s| && s[k].dir == p ==> k == j)
             else forall k :: 0 <= k < |s| ==> s[k].dir != p
    ensures 0 <= ParentOf(dirs, p)
    ensures ClampsAbove(dirs, s, i, ParentOf(dirs, p)) <==> ClampsAbove(dirs, s, i, p) || (found && Clamps(s[j], s[i]))
  {
    ParentEarlier(dirs, p);
    forall k | 0 <= k < |s| && Above(dirs, s[k].dir, s[i].dir) && s[k].dir < p ensures s[k].dir <= ParentOf(dirs, p) {
      AboveSplit(dirs, s[i].dir, p, s[k].dir);
      AboveEarlier2(dirs, s[k].dir, p);
    }
  }

  lemma OnlyThatEntry(s: seq<Usage>, i: nat, j: nat, p: nat, found: bool, j': nat)
    requires j <= i < |s| && Ascending(s) && (j < i ==> s[j].dir > p) && p < s[i].dir
    requires found ==> j' < j && s[j'].dir == p
    requires !found ==> forall k :: 0 <= k < j ==> s[k].dir != p
    ensures if found then forall k :: 0 <= k < |s| && s[k].dir == p ==> k == j'
            else forall k :: 0 <= k < |s| ==> s[k].dir != p
  {
    assert forall k :: j <= k < |s| ==> s[j].dir <= s[k].dir;
  }

  /** One turn for the ancestor p: its entry was looked for before j. */
  lemma Turn(dirs: Dirs, s: seq<Usage>, t: seq<Usage>, i: nat, j: nat, p: nat, found: bool, j': nat)
    requires Blocks(dirs) && j <= i < |s| && IsDir(dirs, s[i].dir) && IsDir(dirs, p) && Above(dirs, p, s[i].dir)
    requires Subtracted(dirs, s, t, i, p) && Ascending(s) && (j < i ==> s[j].dir > p) && p < s[i].dir
    requires |t| == |s| && t[i] == s[i] && forall k :: 0 <= k < |s| ==> t[k].dir == s[k].dir
    requires found ==> j' < j && s[j'].dir == p
    requires !found ==> forall k :: 0 <= k < j ==> s[k].dir != p
    ensures 0 <= ParentOf(dirs, p)
    ensures Subtracted(dirs, s, if found then t[j' := Less(t[j'], s[i])] else t, i, ParentOf(dirs, p))
    ensures ClampsAbove(dirs, s, i, ParentOf(dirs, p)) <==> ClampsAbove(dirs, s, i, p) || (found && Clamps(t[j'], s[i]))
  {
    var u := if found then t[j' := Less(t[j'], s[i])] else t;
    if found { assert !(s[j'].dir > p) && t[j'] == s[j']; }
    hide ClampsAbove, Above, Blocks, Subtracted, Less;
    AfterFind(s, t, u, i, j, p, found, j');
    OnlyThatEntry(s, i, j, p, found, j');
    SubtractedStep(dirs, s, t, u, i, p);
    ClampsStep(dirs, s, i, p, found, j');
  }

  /** Subtract entry i from entry j. */
  method Take(a: array<Usage>, j: nat, i: nat)
    requires j < a.Length && i < a.Length && i != j
    modifies a
    ensures a[..] == old(a[..])[j := Less(old(a[j]), old(a[i]))]
  {
    a[j] := a[j].(size := Minus(a[j].size, a[i].size));
    a[j] := a[j].(files := Minus(a[j].files, a[i].files));
  }

  /** Subtract the values of entry i from all its listed ancestors. */
  method SubtractFromAncestors(pool: Pool, a: array<Usage>, i: nat) returns (ghost clamped: bool)
    requires pool.Valid() && pool.dirs != [] && i < a.Length
    requires DistinctDirs(pool.dirs, a[..]) && Ascending(a[..])
    modifies a
    ensures Subtracted(pool.dirs, old(a[..]), a[..], i, 0) && (clamped <==> ClampsAbove(pool.dirs, old(a[..]), i, 0))
  {
    ghost var s, dirs, d := a[..], pool.dirs, a[i].dir;
    assert s[i] == a[i];
    hide Above, Subtracted, ClampsAbove;
    var p := pool.Parent(a[i].dir);
    var j: nat := i;
    FirstAncestor(dirs, d);
    clamped := false;
    NothingAbove(dirs, s, i);
    while p != 0
      invariant ValidParent(dirs, p) && p < d && j <= i && (p != 0 ==> IsDir(dirs, p) && Above(dirs, p, d))
      invariant Subtracted(dirs, s, a[..], i, p)
      invariant j < i ==> s[j].dir > p
      invariant clamped <==> ClampsAbove(dirs, s, i, p)
      decreases p
    {
      ghost var t := a[..];
      SameDirs(dirs, s, t, i, p);
      var found, j' := FindBefore(a, j, p);
      Turn(dirs, s, t, i, j, p, found, j');
      if found {
        clamped := clamped || Clamps(a[j'], a[i]);
        Take(a, j', i);
      }
      NextAncestor(dirs, d, p);
      j := if found then j' else i;
      p := pool.Parent(p);
    }
  }

  lemma FirstAncestor(dirs: Dirs, d: nat)
    requires Blocks(dirs) && IsDir(dirs, d)
    ensures 0 <= ParentOf(dirs, d) < d
    ensures ParentOf(dirs, d) != 0 ==> IsDir(dirs, ParentOf(dirs, d)) && Above(dirs, ParentOf(dirs, d), d)
  {
    ParentEarlier(dirs, d);
  }

  lemma NextAncestor(dirs: Dirs, d: nat, p: nat)
    requires Blocks(dirs) && IsDir(dirs, d) && IsDir(dirs, p) && Above(dirs, p, d)
    ensures 0 <= ParentOf(dirs, p) < p
    ensures ParentOf(dirs, p) != 0 ==> IsDir(dirs, ParentOf(dirs, p)) && Above(dirs, ParentOf(dirs, p), d)
  {
    ParentEarlier(dirs, p);
    if ParentOf(dirs, p) != 0 { AboveNext(dirs, d, p); }
  }

  lemma NothingAbove(dirs: Dirs, s: seq<Usage>, i: nat)
    requires Blocks(dirs) && i < |s| && IsDir(dirs, s[i].dir)
    ensures 0 <= ParentOf(dirs, s[i].dir) && Subtracted(dirs, s, s, i, ParentOf(dirs, s[i].dir))
    ensures !ClampsAbove(dirs, s, i, ParentOf(dirs, s[i].dir))
  {
    ParentEarlier(dirs, s[i].dir);
    forall k | 0 <= k < |s| && Above(dirs, s[k].dir, s[i].dir) ensures s[k].dir <= ParentOf(dirs, s[i].dir) {
      AboveEarlier2(dirs, s[k].dir, s[i].dir);
    }
  }

  /** The entries keep their directories, and entry i its values. */
  lemma SameDirs(dirs: Dirs, s: seq<Usage>, t: seq<Usage>, i: nat, p: nat)
    requires Blocks(dirs) && i < |s| && IsDir(dirs, s[i].dir) && Subtracted(dirs, s, t, i, p)
    ensures |t| == |s| && t[i] == s[i] && forall k :: 0 <= k < |s| ==> t[k].dir == s[k].dir
  {
    if Above(dirs, s[i].dir, s[i].dir) { AboveEarlier(dirs, s[i].dir, s[i].dir); }
  }

  lemma AfterFind(s: seq<Usage>, t: seq<Usage>, u: seq<Usage>, i: nat, j: nat, p: nat, found: bool, j': nat)
    requires |s| == |t| == |u| && j <= i < |s| && Ascending(s) && p < s[i].dir && (j < i ==> s[j].dir > p)
    requires t[i] == s[i] && forall k :: 0 <= k < |s| ==> t[k].dir == s[k].dir
    requires found ==> j' < j && s[j'].dir == p && u == t[j' := Less(t[j'], s[i])]
    requires !found ==> u == t && forall k :: 0 <= k < j ==> s[k].dir != p
    ensures forall k :: 0 <= k < |t| ==> u[k] == if s[k].dir == p then Less(t[k], s[i]) else t[k]
  {
    assert forall k :: j <= k < |s| ==> s[j].dir <= s[k].dir;
  }

  /** Once the entries from i on are done, entry i - 1 holds its own values, and taking them from its ancestors
   * leaves what the others hold of the directories before it. */
  lemma EntryDone(dirs: Dirs, listed: set<nat>, size: nat -> nat, files: nat -> nat, s: seq<Usage>, t: seq<Usage>, i: nat, bound: nat)
    requires Blocks(dirs) && DistinctDirs(dirs, s) && Ascending(s) && i < |s| && listed == Listed(s)
    requires bound == (if i + 1 < |s| then s[i + 1].dir else |dirs|)
    requires forall e :: e in listed ==> IsDir(dirs, e)
    requires AllCumulative(dirs, listed, size, files, s, bound) && Subtracted(dirs, s, t, i, 0)
    ensures AllCumulative(dirs, listed, size, files, t, s[i].dir) && !ClampsAbove(dirs, s, i, 0)
  {
    var e := s[i].dir;
    assert e in listed && e < bound;
    assert forall k :: 0 <= k < i ==> s[k].dir < e;
    forall x | x in listed && e < x ensures bound <= x {
      var k :| 0 <= k < |s| && s[k].dir == x;
      assert i + 1 < |s| && i + 1 < k ==> s[i + 1].dir < s[k].dir;
    }
    hide Above, Listed;
    assert Cumulative(dirs, listed, size, files, s[i], bound);
    OwnValue(dirs, listed, size, files, s[i], bound);
    hide Cumulative;
    forall k | 0 <= k < |s|
      ensures Cumulative(dirs, listed, size, files, t[k], e) && (Above(dirs, s[k].dir, e) ==> !Clamps(s[k], s[i]))
    {
      assert Cumulative(dirs, listed, size, files, s[k], bound);
      if Above(dirs, s[k].dir, e) { AboveEarlier(dirs, s[k].dir, e); }
      OthersDone(dirs, listed, size, files, s[k], s[i], bound);
    }
  }

  lemma OthersDone(dirs: Dirs, listed: set<nat>, size: nat -> nat, files: nat -> nat, u: Usage, v: Usage, bound: nat)
    requires Blocks(dirs) && (forall x :: x in listed ==> IsDir(dirs, x)) && v.dir in listed && v.dir < bound
    requires forall x :: x in listed && v.dir < x ==> bound <= x
    requires Cumulative(dirs, listed, size, files, u, bound) && v.size == size(v.dir) && v.files == files(v.dir)
    ensures Cumulative(dirs, listed, size, files, if Above(dirs, u.dir, v.dir) then Less(u, v) else u, v.dir)
    ensures Above(dirs, u.dir, v.dir) ==> !Clamps(u, v)
  {
    hide Above;
    SumStep(dirs, listed, size, u.dir, v.dir, bound);
    SumStep(dirs, listed, files, u.dir, v.dir, bound);
  }

  /** With the bound at the next listed directory, an entry holds exactly its own values. */
  lemma OwnValue(dirs: Dirs, listed: set<nat>, size: nat -> nat, files: nat -> nat, u: Usage, bound: nat)
    requires Blocks(dirs) && (forall x :: x in listed ==> IsDir(dirs, x)) && u.dir in listed && u.dir < bound
    requires forall x :: x in listed && u.dir < x ==> bound <= x
    requires Cumulative(dirs, listed, size, files, u, bound)
    ensures u.size == size(u.dir) && u.files == files(u.dir)
  {
    SumStep(dirs, listed, size, u.dir, u.dir, bound);
    SumStep(dirs, listed, files, u.dir, u.dir, bound);
    NothingBelow(dirs, listed, size, u.dir, u.dir);
    NothingBelow(dirs, listed, files, u.dir, u.dir);
    if Above(dirs, u.dir, u.dir) { AboveEarlier(dirs, u.dir, u.dir); }
  }

  /** Every entry holds exactly its own values. */
  ghost predicate Own(size: nat -> nat, files: nat -> nat, s: seq<Usage>) {
    forall k :: 0 <= k < |s| ==> s[k].size == size(s[k].dir) && s[k].files == files(s[k].dir)
  }

  /** Before the first listed directory there is nothing left to subtract. */
  lemma AllOwn(dirs: Dirs, listed: set<nat>, size: nat -> nat, files: nat -> nat, s: seq<Usage>)
    requires Blocks(dirs) && (forall x :: x in listed ==> IsDir(dirs, x)) && Ascending(s)
    requires s != [] ==> AllCumulative(dirs, listed, size, files, s, s[0].dir)
    ensures Own(size, files, s)
  {
    forall k | 0 <= k < |s| ensures s[k].size == size(s[k].dir) && s[k].files == files(s[k].dir) {
      assert Cumulative(dirs, listed, size, files, s[k], s[0].dir);
      NothingBelow(dirs, listed, size, s[k].dir, s[0].dir);
      NothingBelow(dirs, listed, files, s[k].dir, s[0].dir);
    }
  }

  /** Make the sorted entries non-cumulative, leaves first. */
  method SubtractAll(pool: Pool, a: array<Usage>, ghost size: nat -> nat, ghost files: nat -> nat) returns (ghost clamped: bool)
    requires pool.Valid() && pool.dirs != [] && DistinctDirs(pool.dirs, a[..]) && Ascending(a[..])
    requires AllListed(pool.dirs, a[..]) && AllCumulative(pool.dirs, Listed(a[..]), size, files, a[..], |pool.dirs|)
    modifies a
    ensures Own(size, files, a[..]) && !clamped
    ensures forall k :: 0 <= k < a.Length ==> a[k].dir == old(a[k]).dir
  {
    hide DistinctDirs, Ascending, Above, AllCumulative, Listed, Own, ClampsAbove;
    ghost var listed, dirs, s0 := Listed(a[..]), pool.dirs, a[..];
    var i := a.Length;
    clamped := false;
    while i > 0
      invariant 0 <= i <= a.Length && SameDirsAs(s0, a[..]) && !clamped
      invariant AllCumulative(dirs, listed, size, files, a[..], if i < a.Length then a[i].dir else |dirs|)
    {
      i := i - 1;
      ghost var s := a[..];
      StillDirs(dirs, s0, s);
      EntryIsDir(dirs, s, i);
      ghost var c := SubtractFromAncestors(pool, a, i);
      clamped := clamped || c;
      EntryDone(dirs, listed, size, files, s, a[..], i, if i + 1 < a.Length then s[i + 1].dir else |dirs|);
      SameDirs(dirs, s, a[..], i, 0);
    }
    StillDirs(dirs, s0, a[..]);
    AllOwn(dirs, listed, size, files, a[..]);
  }

  lemma EntryIsDir(dirs: Dirs, s: seq<Usage>, i: nat)
    requires DistinctDirs(dirs, s) && i < |s|
    ensures IsDir(dirs, s[i].dir)
  {
  }

  ghost predicate SameDirsAs(s: seq<Usage>, t: seq<Usage>) {
    |s| == |t| && forall k :: 0 <= k < |s| ==> t[k].dir == s[k].dir
  }

  lemma StillDirs(dirs: Dirs, s: seq<Usage>, t: seq<Usage>)
    requires DistinctDirs(dirs, s) && Ascending(s) && SameDirsAs(s, t)
    ensures DistinctDirs(dirs, t) && Ascending(t) && Listed(t) == Listed(s)
  {
    assert forall x :: x in Listed(s) <==> x in Listed(t) by {
      forall x ensures x in Listed(s) <==> x in Listed(t) {
        if x in Listed(s) { var k :| 0 <= k < |s| && s[k].dir == x; assert t[k].dir == x; }
        if x in Listed(t) { var k :| 0 <= k < |t| && t[k].dir == x; assert s[k].dir == x; }
      }
    }
  }

  ghost predicate AllListed(dirs: Dirs, s: seq<Usage>) { forall e :: e in Listed(s) ==> IsDir(dirs, e) }

  /** The entries with a size or files. */
  function NonZero(s: seq<Usage>): seq<Usage> {
    if s == [] then []
    else NonZero(s[..|s| - 1]) + var u := s[|s| - 1]; if u.size != 0 || u.files != 0 then [u] else []
  }

  /** commit_diskusage: if the entries hold the sums over all listed directories below and including theirs, for
   * some non-negative values of each directory, what is added are exactly these values, by ascending directory, and no
   * subtraction stops at zero. */
  method CommitDiskUsage(pool: Pool, a: array<Usage>, ghost size: nat -> nat, ghost files: nat -> nat)
    returns (added: seq<Usage>, ghost clamped: bool)
    requires pool.Valid() && pool.dirs != [] && DistinctDirs(pool.dirs, a[..])
    requires AllListed(pool.dirs, a[..]) && AllCumulative(pool.dirs, Listed(a[..]), size, files, a[..], |pool.dirs|)
    modifies a
    ensures Own(size, files, a[..]) && Ascending(a[..]) && added == NonZero(a[..]) && !clamped
    ensures Listed(a[..]) == old(Listed(a[..])) && DistinctDirs(pool.dirs, a[..])
  {
    ghost var dirs, s := pool.dirs, a[..];
    SortDirs(a, dirs);
    ghost var t := a[..];
    PermutedDirs(dirs, s, t);
    PermutedCumulative(dirs, Listed(s), size, files, s, t);
    clamped := SubtractAll(pool, a, size, files);
    StillDirs(dirs, t, a[..]);
    added := [];
    var i := 0;
    while i < a.Length
      invariant 0 <= i <= a.Length && added == NonZero(a[..i])
    {
      assert a[..i + 1][..i] == a[..i];
      if a[i].size != 0 || a[i].files != 0 { added := added + [a[i]]; }
      i := i + 1;
    }
    assert a[..i] == a[..];
  }

  lemma PermutedCumulative(dirs: Dirs, listed: set<nat>, size: nat -> nat, files: nat -> nat, s: seq<Usage>, t: seq<Usage>)
    requires Blocks(dirs) && (forall x :: x in listed ==> IsDir(dirs, x)) && multiset(s) == multiset(t)
    requires AllCumulative(dirs, listed, size, files, s, |dirs|)
    ensures AllCumulative(dirs, listed, size, files, t, |dirs|)
  {
    forall k | 0 <= k < |t| ensures Cumulative(dirs, listed, size, files, t[k], |dirs|) {
      assert t[k] in multiset(t);
      assert t[k] in s;
    }
  }

  /** What is added, in terms of the directories: each listed directory with a non-zero value of its own, once. */
  lemma {:induction false} AddedAre(size: nat -> nat, files: nat -> nat, s: seq<Usage>, u: Usage)
    requires Own(size, files, s)
    ensures u in NonZero(s) <==>
      u.dir in Listed(s) && u.size == size(u.dir) && u.files == files(u.dir) && (u.size != 0 || u.files != 0)
  {
    if s != [] {
      var front, last := s[..|s| - 1], s[|s| - 1];
      AddedAre(size, files, front, u);
      assert Listed(s) == Listed(front) + {last.dir} by {
        forall x | x in Listed(s) ensures x in Listed(front) + {last.dir} {
          var k :| 0 <= k < |s| && s[k].dir == x;
          if k < |front| { assert front[k].dir == x; }
        }
        forall x | x in Listed(front) ensures x in Listed(s) {
          var k :| 0 <= k < |front| && front[k].dir == x;
          assert s[k].dir == x;
        }
        assert s[|s| - 1].dir in Listed(s);
      }
    }
  }
}
