/** The directory pool (src/dirpool.c, src/dirpool.h).
 *
 * dirs[id] > 0 is a directory and its component; dirs[i] <= 0 heads a block of directories
 * with parent -dirs[i]. A parent may have several blocks; dirtraverse links them.
 */
module Dirpool {
  import opened Bytes
  import opened Pigeonhole

  type Dirs = seq<int>

  /** The head of the block that index d lies in. */
  ghost function Head(dirs: Dirs, d: nat): (h: nat)
    requires d < |dirs| && dirs[0] <= 0
    ensures h <= d && dirs[h] <= 0
    ensures forall k :: h < k <= d ==> dirs[k] > 0
  {
    if dirs[d] <= 0 then d else Head(dirs, d - 1)
  }

  ghost predicate IsDir(dirs: Dirs, d: int) { 0 < d < |dirs| && dirs[d] > 0 }

  ghost function ParentOf(dirs: Dirs, d: nat): int
    requires d < |dirs| && dirs[0] <= 0
  {
    -dirs[Head(dirs, d)]
  }

  /** Each block head names the virtual root or an earlier directory, and is followed by a directory. */
  ghost predicate Blocks(dirs: Dirs) {
    && 2 <= |dirs| && dirs[0] == 0 && dirs[1] == 1
    && (forall i :: 0 < i < |dirs| && dirs[i] <= 0 ==>
          -dirs[i] < i && (dirs[i] != 0 ==> dirs[-dirs[i]] > 0) && i + 1 < |dirs| && dirs[i + 1] > 0)
  }

  /** No two directories share parent and component. */
  ghost predicate Unique(dirs: Dirs)
    requires dirs != [] && dirs[0] <= 0
  {
    forall d, e :: IsDir(dirs, d) && IsDir(dirs, e) && d != e && dirs[d] == dirs[e] ==> ParentOf(dirs, d) != ParentOf(dirs, e)
  }

  ghost predicate Forest(dirs: Dirs) { Blocks(dirs) && Unique(dirs) }

  ghost predicate ValidParent(dirs: Dirs, p: int) { p == 0 || IsDir(dirs, p) }

  /** Parents come first. */
  lemma ParentEarlier(dirs: Dirs, d: nat)
    requires Blocks(dirs) && IsDir(dirs, d)
    ensures 0 <= ParentOf(dirs, d) < d && ValidParent(dirs, ParentOf(dirs, d))
  {
  }

  /** The component path of a directory from the root. */
  ghost function PathOf(dirs: Dirs, d: nat): seq<int>
    requires Blocks(dirs) && ValidParent(dirs, d)
    decreases d
  {
    if d == 0 then []
    else
      ParentEarlier(dirs, d);
      PathOf(dirs, ParentOf(dirs, d)) + [dirs[d]]
  }

  /** The first entry of the last block with parent p before index upto; 0 when there is none. */
  ghost function LastBlock(dirs: Dirs, p: int, upto: nat): (r: nat)
    requires upto <= |dirs|
    ensures r <= upto
    ensures r != 0 ==> dirs[r - 1] == -p && forall i :: r <= i < upto ==> dirs[i] != -p
    ensures r == 0 ==> forall i :: 0 <= i < upto ==> dirs[i] != -p
  {
    if upto == 0 then 0 else if dirs[upto - 1] == -p then upto else LastBlock(dirs, p, upto - 1)
  }

  /** What dirtraverse[i] stands for: the newest block of children of a directory (and of the virtual
   * root 0), or the block before this one with the same parent. */
  ghost function Link(dirs: Dirs, i: nat): nat
    requires i < |dirs|
  {
    if dirs[i] > 0 || i == 0 then LastBlock(dirs, i, |dirs|) else LastBlock(dirs, -dirs[i], i)
  }

  ghost function Links(dirs: Dirs): (r: seq<nat>)
    ensures |r| == |dirs|
  {
    seq(|dirs|, i requires 0 <= i < |dirs| => Link(dirs, i))
  }

  /** Appending does not change the parents of the directories there are. */
  lemma {:induction false} HeadOfPrefix(dirs: Dirs, more: Dirs, d: nat)
    requires d < |dirs| && dirs[0] <= 0
    ensures Head(dirs + more, d) == Head(dirs, d)
  {
    if dirs[d] > 0 { HeadOfPrefix(dirs, more, d - 1); }
  }

  lemma {:induction false} PathOfPrefix(dirs: Dirs, more: Dirs, d: nat)
    requires Blocks(dirs) && Blocks(dirs + more) && ValidParent(dirs, d)
    ensures PathOf(dirs + more, d) == PathOf(dirs, d)
    decreases d
  {
    if d != 0 {
      HeadOfPrefix(dirs, more, d);
      ParentEarlier(dirs, d);
      PathOfPrefix(dirs, more, ParentOf(dirs, d));
    }
  }

  lemma {:induction false} LastBlockOfPrefix(dirs: Dirs, more: Dirs, p: int, upto: nat)
    requires upto <= |dirs|
    ensures LastBlock(dirs + more, p, upto) == LastBlock(dirs, p, upto)
  {
    if upto > 0 { LastBlockOfPrefix(dirs, more, p, upto - 1); }
  }

  /** dirtraverse[p] while only the blocks before index upto have been seen. */
  ghost function LinkSoFar(dirs: Dirs, p: nat, upto: nat): nat
    requires p < |dirs| && upto <= |dirs|
  {
    if dirs[p] > 0 || p == 0 then LastBlock(dirs, p, upto) else if p < upto then LastBlock(dirs, -dirs[p], p) else 0
  }

  ghost predicate LinkedSoFar(dirs: Dirs, t: seq<nat>, upto: nat)
    requires upto <= |dirs|
  {
    |t| == |dirs| && forall p :: 0 <= p < |dirs| ==> t[p] == LinkSoFar(dirs, p, upto)
  }

  /** One step of the rebuild: a block head takes over its parent's link and becomes the newest block. */
  lemma LinkStep(dirs: Dirs, t: seq<nat>, i: nat)
    requires Blocks(dirs) && i < |dirs| && LinkedSoFar(dirs, t, i)
    ensures |t| == |dirs|
    ensures dirs[i] > 0 ==> LinkedSoFar(dirs, t, i + 1)
    ensures dirs[i] <= 0 ==> -dirs[i] < |t| && LinkedSoFar(dirs, t[i := t[-dirs[i]]][-dirs[i] := i + 1], i + 1)
  {
    assert dirs[i] <= 0 ==> -dirs[i] <= i && (dirs[-dirs[i]] > 0 || dirs[i] == 0);
    hide Blocks;
    var u := if dirs[i] <= 0 then t[i := t[-dirs[i]]][-dirs[i] := i + 1] else t;
    forall p | 0 <= p < |dirs| ensures u[p] == LinkSoFar(dirs, p, i + 1) {
      assert t[p] == LinkSoFar(dirs, p, i);
    }
  }

  lemma LinkEnds(dirs: Dirs, t: seq<nat>)
    requires Blocks(dirs)
    ensures LinkedSoFar(dirs, seq(|dirs|, _ => 0), 0)
    ensures LinkedSoFar(dirs, t, |dirs|) ==> t == Links(dirs)
  {
  }

  /** Rebuild the links in one pass over the blocks. */
  method MakeLinks(dirs: Dirs) returns (t: seq<nat>)
    requires Blocks(dirs)
    ensures t == Links(dirs)
  {
    hide LinkedSoFar;
    t := seq(|dirs|, _ => 0);
    LinkEnds(dirs, t);
    var i := 0;
    while i < |dirs|
      invariant 0 <= i <= |dirs|
      invariant LinkedSoFar(dirs, t, i)
    {
      LinkStep(dirs, t, i);
      if dirs[i] <= 0 {
        var parent := -dirs[i];
        t := t[i := t[parent]];
        t := t[parent := i + 1];
      }
      i := i + 1;
    }
    LinkEnds(dirs, t);
  }

  /** The next directory with the same parent: the next of the block, else the first of the block before. */
  ghost function Sibling(dirs: Dirs, d: nat): (r: nat)
    requires Blocks(dirs) && IsDir(dirs, d)
    ensures r != 0 ==> IsDir(dirs, r) && ParentOf(dirs, r) == ParentOf(dirs, d)
    ensures r != 0 ==> Head(dirs, r) < Head(dirs, d) || (Head(dirs, r) == Head(dirs, d) && r == d + 1)
  {
    if d + 1 < |dirs| && dirs[d + 1] > 0 then d + 1
    else
      var h := Head(dirs, d);
      if h == 0 then 0 else
      LinkedBlock(dirs, h);
      Link(dirs, h)
  }

  /** The link of a block head leads to the first directory of an earlier block of the same parent. */
  lemma LinkedBlock(dirs: Dirs, h: nat)
    requires Blocks(dirs) && 0 < h < |dirs| && dirs[h] <= 0
    ensures var r := Link(dirs, h);
      r != 0 ==> IsDir(dirs, r) && Head(dirs, r) == r - 1 < h && ParentOf(dirs, r) == -dirs[h]
  {
    var r := Link(dirs, h);
    if r != 0 {
      assert dirs[r - 1] == dirs[h] && r - 1 < h;
      assert dirs[r] > 0;
    }
  }

  /** The directories met from d on by going from sibling to sibling. */
  ghost function From(dirs: Dirs, d: nat): seq<nat>
    requires Blocks(dirs) && (d == 0 || IsDir(dirs, d))
    decreases if d == 0 then 0 else Head(dirs, d) + 1, |dirs| - d
  {
    if d == 0 then [] else [d] + From(dirs, Sibling(dirs, d))
  }

  /** e lies at or after d on the way from sibling to sibling. */
  ghost predicate Ahead(dirs: Dirs, d: nat, e: int)
    requires Blocks(dirs) && IsDir(dirs, d)
  {
    && IsDir(dirs, e) && ParentOf(dirs, e) == ParentOf(dirs, d)
    && (Head(dirs, e) < Head(dirs, d) || (Head(dirs, e) == Head(dirs, d) && d <= e))
  }

  /** Going from sibling to sibling misses nothing and repeats nothing. */
  lemma {:induction false} FromLists(dirs: Dirs, d: nat)
    requires Blocks(dirs) && IsDir(dirs, d)
    ensures forall e :: e in From(dirs, d) <==> Ahead(dirs, d, e)
    ensures Distinct(From(dirs, d))
    decreases Head(dirs, d), |dirs| - d
  {
    var s := Sibling(dirs, d);
    if s != 0 {
      FromLists(dirs, s);
      assert !Ahead(dirs, s, d);
      assert d !in From(dirs, s);
    }
    forall e ensures Ahead(dirs, d, e) <==> e == d || (s != 0 && Ahead(dirs, s, e)) {
      NothingBetween(dirs, d, e);
    }
  }

  /** Between d and its sibling there is no further directory with the same parent. */
  lemma NothingBetween(dirs: Dirs, d: nat, e: int)
    requires Blocks(dirs) && IsDir(dirs, d)
    ensures var s := Sibling(dirs, d);
      Ahead(dirs, d, e) <==> e == d || (s != 0 && Ahead(dirs, s, e))
  {
    var s, h := Sibling(dirs, d), Head(dirs, d);
    if Ahead(dirs, d, e) && e != d {
      var g := Head(dirs, e);
      if g == h {
        SameBlock(dirs, d, e);
      } else {
        assert dirs[g] == dirs[h] && h != 0;
        assert s == d + 1 ==> Head(dirs, s) == h;
        assert s == LastBlock(dirs, -dirs[h], h) ==> s != 0 && g <= s - 1;
      }
    }
  }

  /** The directories of one block are consecutive. */
  lemma SameBlock(dirs: Dirs, d: nat, e: nat)
    requires Blocks(dirs) && IsDir(dirs, d) && IsDir(dirs, e) && d < e && Head(dirs, d) == Head(dirs, e)
    ensures dirs[d + 1] > 0 && Head(dirs, d + 1) == Head(dirs, d)
  {
  }

  /** The children of p, newest block first. */
  ghost function Children(dirs: Dirs, p: nat): seq<nat>
    requires Blocks(dirs) && ValidParent(dirs, p)
  {
    FirstOfBlock(dirs, p);
    From(dirs, Link(dirs, p))
  }

  lemma FirstOfBlock(dirs: Dirs, p: nat)
    requires Blocks(dirs) && ValidParent(dirs, p)
    ensures var d := Link(dirs, p);
      d != 0 ==> IsDir(dirs, d) && ParentOf(dirs, d) == p && Head(dirs, d) == d - 1
  {
  }

  /** Child and sibling traversal lists exactly the directories whose parent is p, each once. */
  lemma ChildrenExact(dirs: Dirs, p: nat)
    requires Blocks(dirs) && ValidParent(dirs, p)
    ensures forall e :: e in Children(dirs, p) <==> IsDir(dirs, e) && ParentOf(dirs, e) == p
    ensures Distinct(Children(dirs, p))
  {
    FirstOfBlock(dirs, p);
    var d := Link(dirs, p);
    if d != 0 { FromLists(dirs, d); }
    forall e | IsDir(dirs, e) && ParentOf(dirs, e) == p ensures d != 0 && Ahead(dirs, d, e) {
      assert dirs[Head(dirs, e)] == -ParentOf(dirs, e);
    }
  }

  class Pool {
    var dirs: Dirs
    var dirtraverse: Option<seq<nat>>

    ghost predicate Valid()
      reads this
    {
      && (dirs == [] || Forest(dirs))
      && (dirtraverse.Some? ==> dirs != [] && dirtraverse.value == Links(dirs))
    }

    constructor ()
      ensures Valid() && dirs == []
    {
      dirs, dirtraverse := [], None;
    }

    method MakeDirtraverse()
      requires Valid()
      modifies `dirtraverse
      ensures Valid() && (dirs != [] ==> dirtraverse == Some(Links(dirs)))
    {
      if |dirs| == 0 { return; }
      var t := MakeLinks(dirs);
      dirtraverse := Some(t);
    }

    method Parent(did: nat) returns (p: nat)
      requires Valid() && dirs != [] && ValidParent(dirs, did)
      ensures p == if did == 0 then 0 else ParentOf(dirs, did)
      ensures ValidParent(dirs, p) && (did != 0 ==> p < did)
    {
      if did == 0 { return 0; }
      var d := did - 1;
      while dirs[d] > 0
        invariant 0 <= d < did && Head(dirs, d) == Head(dirs, did)
        decreases d
      {
        d := d - 1;
      }
      p := -dirs[d];
    }

    method NextSibling(did: nat) returns (s: nat)
      requires Valid() && dirs != [] && IsDir(dirs, did)
      modifies `dirtraverse
      ensures Valid() && s == Sibling(dirs, did)
    {
      if did + 1 < |dirs| && dirs[did + 1] > 0 { return did + 1; }
      var d := did - 1;
      while dirs[d] > 0
        invariant 0 <= d < did && Head(dirs, d) == Head(dirs, did)
        decreases d
      {
        d := d - 1;
      }
      if d == 0 { return 0; }
      if dirtraverse.None? { MakeDirtraverse(); }
      s := dirtraverse.value[d];
    }

    method Child(did: nat) returns (c: nat)
      requires Valid() && dirs != [] && ValidParent(dirs, did)
      modifies `dirtraverse
      ensures Valid() && c == Link(dirs, did)
    {
      if dirtraverse.None? { MakeDirtraverse(); }
      c := dirtraverse.value[did];
    }

    /** Append comp under parent, opening a new block unless the last one is parent's. */
    method Append(parent: nat, comp: nat)
      requires Valid() && dirtraverse.Some? && comp > 0 && ValidParent(dirs, parent) && !Contains(dirs, parent, comp)
      modifies this
      ensures Valid() && dirtraverse.Some? && dirs == Appended(old(dirs), parent, comp)
      ensures var d := |dirs| - 1; IsDir(dirs, d) && ParentOf(dirs, d) == parent && dirs[d] == comp
    {
      hide Unique, Blocks, Head, Links, Contains;
      BlocksBasics(dirs);
      AppendForest(dirs, parent, comp);
      AppendLinks(dirs, parent, comp);
      var did := LastHead(dirs);
      LinksLength(dirs);
      var t := dirtraverse.value;
      if dirs[did] != -(parent as int) {
        t := t + [t[parent]];
        dirs := dirs + [-(parent as int)];
        t := t[parent := |dirs|];
      }
      dirs := dirs + [comp];
      dirtraverse := Some(t + [0]);
    }

    /** Find the directory comp under parent; with create, add it if there is none. */
    method AddDir(parent: nat, comp: nat, create: bool) returns (d: nat)
      requires Valid() && comp > 0 && ValidParent(dirs, parent)
      modifies this
      ensures Valid()
      ensures dirs == Added(old(dirs), parent, comp, create)
      ensures d == 0 <==> dirs == [] || !Contains(dirs, parent, comp)
      ensures d == 0 ==> !create
      ensures d != 0 ==> IsDir(dirs, d) && ParentOf(dirs, d) == parent && dirs[d] == comp
    {
      hide Unique, Blocks, Head;
      if |dirs| == 0 {
        if !create { return 0; }
        dirs := [0, 1];
        FirstForest();
      }
      BlocksBasics(dirs);
      RootIsOne(dirs);
      if parent == 0 && comp == 1 { return 1; }
      if dirtraverse.None? { MakeDirtraverse(); }
      d := Find(dirs, dirtraverse.value, parent, comp);
      if d == 0 && create {
        Append(parent, comp);
        d := |dirs| - 1;
      }
    }
  }

  /** The pool after dirpool_add_dir: unchanged if the directory exists or must not be created. */
  ghost function Added(dirs: Dirs, parent: nat, comp: nat, create: bool): Dirs
    requires dirs == [] || dirs[0] <= 0
  {
    if !create then dirs
    else
      var base := if dirs == [] then [0, 1] else dirs;
      if Contains(base, parent, comp) then base else Appended(base, parent, comp)
  }

  lemma FirstForest()
    ensures Forest([0, 1])
  {
  }

  lemma RootIsOne(dirs: Dirs)
    requires Blocks(dirs)
    ensures IsDir(dirs, 1) && ParentOf(dirs, 1) == 0 && dirs[1] == 1
  {
  }

  lemma LinksLength(dirs: Dirs)
    ensures |Links(dirs)| == |dirs|
  {
  }

  lemma LinkBound(dirs: Dirs, i: nat)
    requires i < |dirs|
    ensures Link(dirs, i) <= |dirs|
  {
  }

  lemma BlocksBasics(dirs: Dirs)
    requires Blocks(dirs)
    ensures 2 <= |dirs| && dirs[0] == 0 && dirs[1] == 1
  {
  }

  /** Search all blocks of parent for comp, newest block first. */
  method Find(dirs: Dirs, dirtraverse: seq<nat>, parent: nat, comp: nat) returns (d: nat)
    requires Blocks(dirs) && dirtraverse == Links(dirs) && ValidParent(dirs, parent) && comp > 0
    ensures d != 0 ==> IsDir(dirs, d) && ParentOf(dirs, d) == parent && dirs[d] == comp
    ensures d == 0 ==> !Contains(dirs, parent, comp)
  {
    hide Blocks, Head, Link, Searched, Contains;
    BlocksBasics(dirs);
    var ds: nat := dirtraverse[parent];
    LinkBound(dirs, parent);
    SearchStarts(dirs, parent, comp);
    while ds != 0
      invariant ds <= |dirs| && (ds != 0 ==> dirs[ds - 1] == -(parent as int))
      invariant Searched(dirs, parent, comp, ds)
      decreases ds
    {
      var found;
      d, found := ScanBlock(dirs, ds - 1, comp);
      ds := ds - 1;
      if found {
        HeadIs(dirs, ds, d);
        return;
      }
      BlockDone(dirs, parent, comp, ds, d);
      if ds != 0 {
        ds := dirtraverse[ds];
      }
    }
    SearchEnds(dirs, parent, comp);
    d := 0;
  }

  /** The head of the last block. */
  method LastHead(dirs: Dirs) returns (did: nat)
    requires dirs != [] && dirs[0] <= 0
    ensures did == Head(dirs, |dirs| - 1)
  {
    did := |dirs| - 1;
    while did > 0 && dirs[did] > 0
      invariant 0 <= did < |dirs| && Head(dirs, did) == Head(dirs, |dirs| - 1)
    {
      did := did - 1;
    }
  }

  /** Look for comp in the block headed at h; d is where it is, or where the block ends. */
  method ScanBlock(dirs: Dirs, h: nat, comp: nat) returns (d: nat, found: bool)
    requires h < |dirs| && comp > 0
    ensures h < d <= |dirs|
    ensures found ==> d < |dirs| && dirs[d] == comp
    ensures !found && d < |dirs| ==> dirs[d] <= 0
    ensures forall e :: h < e < d ==> dirs[e] > 0 && dirs[e] != comp
  {
    d, found := h + 1, false;
    while d < |dirs|
      invariant h < d <= |dirs|
      invariant forall e :: h < e < d ==> dirs[e] > 0 && dirs[e] != comp
    {
      if dirs[d] == comp { return d, true; }
      if dirs[d] <= 0 { break; }
      d := d + 1;
    }
  }

  /** comp exists under parent. */
  ghost predicate Contains(dirs: Dirs, parent: nat, comp: int)
    requires dirs != [] && dirs[0] <= 0
  {
    exists e :: IsDir(dirs, e) && ParentOf(dirs, e) == parent && dirs[e] == comp
  }

  /** comp is in no block of parent whose head is at index ds or later. */
  ghost predicate Searched(dirs: Dirs, parent: nat, comp: int, ds: nat)
    requires dirs != [] && dirs[0] <= 0
  {
    forall e :: IsDir(dirs, e) && ParentOf(dirs, e) == parent && Head(dirs, e) >= ds ==> dirs[e] != comp
  }

  lemma HeadIs(dirs: Dirs, h: nat, d: nat)
    requires h <= d < |dirs| && dirs[0] <= 0 && dirs[h] <= 0 && forall e :: h < e <= d ==> dirs[e] > 0
    ensures Head(dirs, d) == h
  {
    var g := Head(dirs, d);
    assert g >= h;
  }

  lemma SearchStarts(dirs: Dirs, parent: nat, comp: int)
    requires Blocks(dirs) && ValidParent(dirs, parent)
    ensures Searched(dirs, parent, comp, Link(dirs, parent))
    ensures Link(dirs, parent) != 0 ==> dirs[Link(dirs, parent) - 1] == -(parent as int)
  {
  }

  lemma SearchEnds(dirs: Dirs, parent: nat, comp: int)
    requires dirs != [] && dirs[0] <= 0 && Searched(dirs, parent, comp, 0)
    ensures !Contains(dirs, parent, comp)
  {
  }

  /** Having looked through the block headed at h, the search goes on with the block before it. */
  lemma BlockDone(dirs: Dirs, parent: nat, comp: int, h: nat, d: nat)
    requires Blocks(dirs) && ValidParent(dirs, parent) && comp > 0
    requires h < d <= |dirs| && dirs[h] == -(parent as int)
    requires Searched(dirs, parent, comp, h + 1)
    requires forall e :: h < e < d ==> dirs[e] > 0 && dirs[e] != comp
    requires d < |dirs| ==> dirs[d] <= 0
    ensures Searched(dirs, parent, comp, if h == 0 then 0 else Link(dirs, h))
    ensures h != 0 && Link(dirs, h) != 0 ==> Link(dirs, h) <= h && dirs[Link(dirs, h) - 1] == -(parent as int)
  {
    var next := if h == 0 then 0 else LastBlock(dirs, -dirs[h], h);
    forall e | IsDir(dirs, e) && ParentOf(dirs, e) == parent && Head(dirs, e) >= next
      ensures dirs[e] != comp
    {
      var g := Head(dirs, e);
      assert dirs[g] == -(parent as int);
      hide Blocks, IsDir, Head, LastBlock;
      if g <= h {
        assert g == h;
        assert d < |dirs| ==> e < d;
      }
    }
  }

  /** The pool after adding comp under parent: in the last block if that is parent's, else in a new one. */
  ghost function Appended(dirs: Dirs, parent: nat, comp: nat): (r: Dirs)
    requires dirs != [] && dirs[0] <= 0
    ensures dirs <= r
  {
    if ParentOf(dirs, |dirs| - 1) == parent then dirs + [comp] else dirs + [-(parent as int)] + [comp]
  }

  lemma AppendForest(dirs: Dirs, parent: nat, comp: nat)
    requires Forest(dirs) && ValidParent(dirs, parent) && comp > 0 && !Contains(dirs, parent, comp)
    ensures var r := Appended(dirs, parent, comp);
      Forest(r) && IsDir(r, |r| - 1) && ParentOf(r, |r| - 1) == parent && r[|r| - 1] == comp
  {
    hide Unique, Contains, Blocks, Appended;
    BlocksBasics(dirs);
    AppendBlocks(dirs, parent, comp);
    AppendHeads(dirs, parent, comp);
    UniqueExtends(dirs, Appended(dirs, parent, comp), parent, comp);
  }

  lemma AppendBlocks(dirs: Dirs, parent: nat, comp: nat)
    requires Blocks(dirs) && ValidParent(dirs, parent) && comp > 0
    ensures Blocks(Appended(dirs, parent, comp))
  {
    hide Head;
    var r := Appended(dirs, parent, comp);
    forall i | 0 <= i < |dirs| ensures r[i] == dirs[i] { }
  }

  lemma AppendHeads(dirs: Dirs, parent: nat, comp: nat)
    requires Blocks(dirs) && ValidParent(dirs, parent) && comp > 0
    ensures var r := Appended(dirs, parent, comp);
      && (forall d :: 0 <= d < |dirs| ==> Head(r, d) == Head(dirs, d))
      && r[|r| - 1] == comp && ParentOf(r, |r| - 1) == parent && |r| >= 2
      && (forall d :: |dirs| <= d < |r| - 1 ==> r[d] <= 0)
  {
    hide Head, Blocks;
    BlocksBasics(dirs);
    var base := if ParentOf(dirs, |dirs| - 1) == parent then dirs else dirs + [-(parent as int)];
    assert Appended(dirs, parent, comp) == base + [comp];
    HeadsAfterOne(dirs, -(parent as int));
    HeadsAfterOne(base, comp);
  }

  lemma HeadsAfterOne(dirs: Dirs, x: int)
    requires dirs != [] && dirs[0] <= 0
    ensures forall d :: 0 <= d < |dirs| ==> Head(dirs + [x], d) == Head(dirs, d)
    ensures Head(dirs + [x], |dirs|) == if x <= 0 then |dirs| else Head(dirs, |dirs| - 1)
  {
    forall d | 0 <= d < |dirs| ensures Head(dirs + [x], d) == Head(dirs, d) {
      HeadOfPrefix(dirs, [x], d);
    }
  }

  lemma UniqueExtends(dirs: Dirs, r: Dirs, parent: nat, comp: nat)
    requires dirs != [] && dirs[0] <= 0 && Unique(dirs) && dirs <= r && !Contains(dirs, parent, comp)
    requires forall d :: 0 <= d < |dirs| ==> Head(r, d) == Head(dirs, d)
    requires r[|r| - 1] == comp && ParentOf(r, |r| - 1) == parent
    requires forall d :: |dirs| <= d < |r| - 1 ==> r[d] <= 0
    ensures Unique(r)
  {
    forall d, e | IsDir(r, d) && IsDir(r, e) && d < e && r[d] == r[e]
      ensures ParentOf(r, d) != ParentOf(r, e)
    {
      assert IsDir(dirs, d) && ParentOf(r, d) == ParentOf(dirs, d);
      if e < |dirs| {
        assert IsDir(dirs, e) && ParentOf(r, e) == ParentOf(dirs, e);
      }
    }
  }

  /** The incrementally kept links are those a rebuild would give. */
  lemma AppendLinks(dirs: Dirs, parent: nat, comp: nat)
    requires Blocks(dirs) && ValidParent(dirs, parent) && comp > 0
    ensures var t, n := Links(dirs), |dirs|;
      Links(Appended(dirs, parent, comp)) ==
        if ParentOf(dirs, n - 1) == parent then t + [0] else (t + [t[parent]])[parent := n + 1] + [0]
  {
    hide Link, Head, Links;
    if ParentOf(dirs, |dirs| - 1) == parent {
      LinksAfterEntry(dirs, comp);
    } else {
      LinksAfterHead(dirs, parent);
      LinksAfterEntry(dirs + [-(parent as int)], comp);
    }
  }

  lemma LastBlockAfterOne(dirs: Dirs, x: int, p: int, upto: nat)
    requires upto <= |dirs|
    ensures LastBlock(dirs + [x], p, upto) == LastBlock(dirs, p, upto)
    ensures LastBlock(dirs + [x], p, |dirs| + 1) == if x == -p then |dirs| + 1 else LastBlock(dirs, p, |dirs|)
  {
    LastBlockOfPrefix(dirs, [x], p, upto);
    LastBlockOfPrefix(dirs, [x], p, |dirs|);
  }

  lemma LinksAfterEntry(dirs: Dirs, comp: nat)
    requires dirs != [] && comp > 0 && forall j :: 0 <= j < |dirs| && dirs[j] <= 0 ==> -dirs[j] < |dirs|
    ensures Links(dirs + [comp]) == Links(dirs) + [0]
  {
    hide LastBlock;
    var r := dirs + [comp];
    NoBlockYet(r, |dirs|);
    forall i | 0 <= i < |dirs| ensures Link(r, i) == Link(dirs, i) {
      LastBlockAfterOne(dirs, comp, i, |dirs|);
      if dirs[i] <= 0 { LastBlockAfterOne(dirs, comp, -dirs[i], i); }
    }
  }

  lemma LinksAfterHead(dirs: Dirs, parent: nat)
    requires Blocks(dirs) && ValidParent(dirs, parent)
    ensures Links(dirs + [-(parent as int)]) == (Links(dirs) + [Links(dirs)[parent]])[parent := |dirs| + 1]
  {
    hide LastBlock, Link;
    var x := -(parent as int);
    LinkOfNewHead(dirs, x);
    forall i | 0 <= i < |dirs| ensures Link(dirs + [x], i) == if i == parent then |dirs| + 1 else Link(dirs, i) {
      if dirs[i] > 0 || i == 0 { LinkOfDir(dirs, x, i); } else { LinkOfOldHead(dirs, x, i); }
    }
  }

  lemma LinkOfNewHead(dirs: Dirs, x: int)
    requires dirs != [] && dirs[0] <= 0 && -|dirs| < x <= 0 && (x != 0 ==> dirs[-x] > 0)
    ensures Link(dirs + [x], |dirs|) == Link(dirs, -x)
  {
    LastBlockAfterOne(dirs, x, -x, |dirs|);
  }

  lemma LinkOfDir(dirs: Dirs, x: int, i: nat)
    requires i < |dirs| && (dirs[i] > 0 || i == 0)
    ensures Link(dirs + [x], i) == if x + i == 0 then |dirs| + 1 else Link(dirs, i)
  {
    LastBlockAfterOne(dirs, x, i, |dirs|);
  }

  lemma LinkOfOldHead(dirs: Dirs, x: int, i: nat)
    requires 0 < i < |dirs| && dirs[i] <= 0
    ensures Link(dirs + [x], i) == Link(dirs, i)
  {
    LastBlockAfterOne(dirs, x, -dirs[i], i);
  }

  lemma NoBlockYet(r: Dirs, i: nat)
    requires 0 < i < |r| && forall j :: 0 <= j < |r| && r[j] <= 0 ==> -r[j] < i
    ensures LastBlock(r, i, |r|) == 0
  {
  }
}
