/** Directory names to ids and back (repodata_str2dir and repodata_dir2str, src/repodata.c). */
module DirPath {
  import opened Bytes
  import opened Dirpool

  /** A path without repeated and trailing slashes. */
  ghost function Normal(p: string): string {
    if p == "" then ""
    else if p[0] == '/' && (|p| == 1 || p[1] == '/') then Normal(p[1..])
    else [p[0]] + Normal(p[1..])
  }

  ghost predicate NoSlash(s: string) { forall k :: 0 <= k < |s| ==> s[k] != '/' }

  ghost function Slashes(n: nat): string { seq(n, _ => '/') }

  /** Leading repeated slashes do not matter. */
  lemma NormalLeading(p: string)
    requires |p| >= 2 && p[0] == '/' && p[1] == '/'
    ensures Normal(p) == Normal(p[1..])
  {
  }

  /** A part without slashes stays as it is. */
  lemma {:induction false} NormalPrefix(comp: string, rest: string)
    requires NoSlash(comp)
    ensures Normal(comp + rest) == comp + Normal(rest)
  {
    if comp == "" {
      assert comp + rest == rest;
    } else {
      NormalPrefix(comp[1..], rest);
      assert (comp + rest)[1..] == comp[1..] + rest;
      assert comp == [comp[0]] + comp[1..];
    }
  }

  /** Slashes become one, or none at the end. */
  lemma {:induction false} NormalSlashes(n: nat, tail: string)
    requires n >= 1 && (tail != "" ==> tail[0] != '/')
    ensures Normal(Slashes(n) + tail) == if tail == "" then "" else "/" + Normal(tail)
  {
    var p := Slashes(n) + tail;
    assert p[1..] == Slashes(n - 1) + tail;
    if n > 1 {
      NormalLeading(p);
      NormalSlashes(n - 1, tail);
    } else {
      assert p[1..] == tail;
    }
  }

  /** A component followed by slashes and a tail normalises to the component and the normalised tail. */
  lemma NormalSplit(comp: string, n: nat, tail: string)
    requires NoSlash(comp) && (tail != "" ==> tail[0] != '/') && (n == 0 ==> tail == "")
    ensures Normal(comp + Slashes(n) + tail) == comp + (if tail == "" then "" else "/" + Normal(tail))
  {
    NormalPrefix(comp, Slashes(n) + tail);
    assert comp + Slashes(n) + tail == comp + (Slashes(n) + tail);
    if n > 0 { NormalSlashes(n, tail); } else { assert Slashes(0) + tail == ""; }
  }

  /** Every component is the id of a string. */
  ghost predicate Named(dirs: Dirs, strings: seq<string>) {
    forall d :: IsDir(dirs, d) ==> dirs[d] < |strings|
  }

  /** The components from the root down, separated by slashes. */
  ghost function PathString(dirs: Dirs, strings: seq<string>, d: nat): string
    requires Blocks(dirs) && Named(dirs, strings) && ValidParent(dirs, d)
    decreases d
  {
    if d == 0 then ""
    else
      ParentEarlier(dirs, d);
      var p := ParentOf(dirs, d);
      (if p == 0 then "" else PathString(dirs, strings, p) + "/") + strings[dirs[d]]
  }

  lemma PathStep(dirs: Dirs, strings: seq<string>, d: nat)
    requires Blocks(dirs) && Named(dirs, strings) && IsDir(dirs, d)
    ensures var p := ParentOf(dirs, d);
      && 0 <= p < d && ValidParent(dirs, p)
      && PathString(dirs, strings, d) == PathString(dirs, strings, p) + (if p == 0 then "" else "/") + strings[dirs[d]]
    ensures PathString(dirs, strings, 0) == ""
  {
    ParentEarlier(dirs, d);
  }

  lemma SameParent(dirs: Dirs, dirs': Dirs, d: nat)
    requires Blocks(dirs) && Blocks(dirs') && dirs <= dirs' && IsDir(dirs, d)
    ensures IsDir(dirs', d) && ParentOf(dirs', d) == ParentOf(dirs, d)
  {
    assert dirs' == dirs + dirs'[|dirs|..];
    HeadOfPrefix(dirs, dirs'[|dirs|..], d);
  }

  lemma NamedAt(dirs: Dirs, strings: seq<string>, d: nat)
    requires Named(dirs, strings) && IsDir(dirs, d)
    ensures dirs[d] < |strings|
  {
  }

  /** Adding directories and strings leaves the paths of the old ones alone. */
  lemma {:induction false} PathStringGrows(dirs: Dirs, dirs': Dirs, strings: seq<string>, strings': seq<string>, d: nat)
    requires Blocks(dirs) && Named(dirs, strings) && ValidParent(dirs, d) && dirs <= dirs'
    requires Blocks(dirs') && Named(dirs', strings') && strings <= strings'
    ensures PathString(dirs', strings', d) == PathString(dirs, strings, d)
    decreases d
  {
    if d != 0 {
      SameParent(dirs, dirs', d);
      hide Blocks, Named, PathString, ParentOf;
      PathStep(dirs, strings, d);
      PathStep(dirs', strings', d);
      NamedAt(dirs, strings, d);
      PathStringGrows(dirs, dirs', strings, strings', ParentOf(dirs, d));
    } else {
      assert PathString(dirs', strings', 0) == "" == PathString(dirs, strings, 0);
    }
  }

  class Repodata {
    var dirpool: Pool
    var strings: seq<string>     // string ids; 1 is the empty string

    ghost predicate Valid()
      reads this, dirpool
    {
      && dirpool.Valid() && 2 <= |strings| && strings[1] == ""
      && (forall i, j :: 1 <= i < j < |strings| ==> strings[i] != strings[j])
      && Named(dirpool.dirs, strings)
    }

    constructor ()
      ensures Valid() && fresh(dirpool) && dirpool.dirs == []
    {
      dirpool := new Pool();
      strings := ["", ""];
    }

    /** Interning: the id of a string, appended if it is new and create is set. */
    method Strn2Id(s: string, create: bool) returns (id: nat)
      requires Valid()
      modifies `strings
      ensures Valid() && old(strings) <= strings
      ensures id != 0 ==> id < |strings| && strings[id] == s
      ensures id == 0 ==> !create && strings == old(strings) && forall i :: 1 <= i < |strings| ==> strings[i] != s
      ensures s == "" ==> id == 1
    {
      id := 1;
      while id < |strings| && strings[id] != s
        invariant 1 <= id <= |strings|
        invariant forall i :: 1 <= i < id ==> strings[i] != s
      {
        id := id + 1;
      }
      if id == |strings| {
        if create { strings := strings + [s]; } else { id := 0; }
      }
    }

    /** One step of the path: the directory comp under parent. */
    method EnterComponent(parent: nat, comp: string, create: bool) returns (d: nat)
      requires Valid() && (dirpool.dirs == [] ==> parent == 0) && ValidParent(dirpool.dirs, parent)
      modifies this, dirpool
      ensures Valid() && dirpool == old(dirpool) && old(strings) <= strings
      ensures old(dirpool.dirs) == [] || old(dirpool.dirs) <= dirpool.dirs
      ensures d == 0 ==> !create
      ensures d != 0 ==> Blocks(dirpool.dirs) && IsDir(dirpool.dirs, d)
      ensures d != 0 ==>
        PathString(dirpool.dirs, strings, d)
          == (if parent == 0 then "" else old(PathString(dirpool.dirs, strings, parent)) + "/") + comp
    {
      hide Unique, Blocks, Added, ParentOf;
      ghost var dirs0, strings0 := dirpool.dirs, strings;
      var id := Strn2Id(comp, create);
      d := 0;
      if id == 0 { return; }
      d := dirpool.AddDir(parent, id, create);
      AddedNames(dirs0, strings, parent, id, create);
      if d != 0 { EnteredPath(dirs0, dirpool.dirs, strings0, strings, parent, d); }
    }

    /** The directory a path names; with create, made if it is missing. 0 is the empty path or a missing directory. */
    method Str2Dir(p: string, create: bool) returns (d: nat)
      requires Valid()
      modifies this, dirpool
      ensures Valid() && dirpool == old(dirpool) && old(strings) <= strings
      ensures old(dirpool.dirs) == [] || old(dirpool.dirs) <= dirpool.dirs
      ensures d == 0 ==> p == "" || !create
      ensures d != 0 ==> Blocks(dirpool.dirs) && IsDir(dirpool.dirs, d)
      ensures d != 0 ==> PathString(dirpool.dirs, strings, d) == Normal(p)
    {
      hide Unique, Blocks, Named, Normal, PathString, Added, ParentOf;
      var i := SkipLeading(p);
      if i < |p| && p[i] == '/' && i + 1 == |p| {
        assert p[i..] == "/";
        NormalRoot();
        RootPath(dirpool.dirs, strings);
        if |dirpool.dirs| != 0 { return 1; }
        d := EnterRoot(create);
        return;
      }
      d := 0;
      while i < |p|
        invariant i <= |p| && Valid() && dirpool == old(dirpool) && old(strings) <= strings
        invariant old(dirpool.dirs) == [] || old(dirpool.dirs) <= dirpool.dirs
        invariant d == 0 ==> Normal(p) == Normal(p[i..]) && (p != "" ==> i < |p|)
        invariant d != 0 ==> Blocks(dirpool.dirs) && IsDir(dirpool.dirs, d)
        invariant d != 0 ==> Normal(p) == PathString(dirpool.dirs, strings, d) + (if i == |p| then "" else "/" + Normal(p[i..]))
        decreases |p| - i
      {
        var e, j := NextComponent(p, i);
        d := EnterComponent(d, p[i..e], create);
        if d == 0 { return; }
        i := j;
      }
    }

    /** The root directory in an empty pool. */
    method EnterRoot(create: bool) returns (d: nat)
      requires Valid() && dirpool.dirs == []
      modifies dirpool
      ensures Valid() && (d == 0 ==> !create)
      ensures d != 0 ==> Blocks(dirpool.dirs) && IsDir(dirpool.dirs, d) && PathString(dirpool.dirs, strings, d) == ""
    {
      d := dirpool.AddDir(0, 1, create);
      AddedNames([], strings, 0, 1, create);
      if d != 0 { EnteredPath([], dirpool.dirs, strings, strings, 0, d); }
    }

    /** The length of the name of a directory with its suffix, computed on the way up to the root. */
    method NameLength(did: nat, suf: Option<string>) returns (l: nat)
      requires Valid() && dirpool.dirs != [] && IsDir(dirpool.dirs, did)
      ensures l == |PathString(dirpool.dirs, strings, did)| + (if suf.Some? then |suf.value| + 1 else 0)
    {
      hide Unique, ParentOf, PathString;
      l := 0;
      var parent := did;
      while parent != 0
        invariant ValidParent(dirpool.dirs, parent)
        invariant l + |PathString(dirpool.dirs, strings, parent)| == |PathString(dirpool.dirs, strings, did)|
        decreases parent
      {
        l := l + |strings[dirpool.dirs[parent]]|;
        PathStep(dirpool.dirs, strings, parent);
        parent := dirpool.Parent(parent);
        if parent != 0 { l := l + 1; }
      }
      PathStep(dirpool.dirs, strings, did);
      if suf.Some? { l := l + |suf.value| + 1; }
    }

    /** The name of a directory, followed by a slash and the suffix if there is one. The string is
     * put together from its end, in a buffer of the length computed beforehand. */
    method Dir2Str(did: nat, suf: Option<string>) returns (r: string)
      requires Valid() && (did != 0 ==> dirpool.dirs != [] && IsDir(dirpool.dirs, did))
      ensures did == 0 ==> r == if suf.Some? then suf.value else ""
      ensures did != 0 ==> r == PathString(dirpool.dirs, strings, did) + (if suf.Some? then "/" + suf.value else "")
    {
      hide Unique, ParentOf, PathString;
      if did == 0 { return if suf.Some? then suf.value else ""; }
      var l := NameLength(did, suf);
      r := if suf.Some? then "/" + suf.value else "";
      ghost var whole := PathString(dirpool.dirs, strings, did) + r;
      var parent := did;
      while parent != 0
        invariant ValidParent(dirpool.dirs, parent)
        invariant PathString(dirpool.dirs, strings, parent) + r == whole
        decreases parent
      {
        ghost var up := ParentOf(dirpool.dirs, parent);
        ghost var name := strings[dirpool.dirs[parent]];
        ghost var front := if up == 0 then "" else "/";
        PathStep(dirpool.dirs, strings, parent);
        assert PathString(dirpool.dirs, strings, up) + (front + (name + r)) == PathString(dirpool.dirs, strings, up) + front + name + r;
        r := strings[dirpool.dirs[parent]] + r;
        parent := dirpool.Parent(parent);
        if parent != 0 { r := "/" + r; }
      }
      PathStep(dirpool.dirs, strings, did);
      assert |r| == l;
    }

    /** Going to the directory of a non-empty path and back gives the normalised path joined with the suffix. */
    method PathRoundTrip(p: string, f: string) returns (d: nat, r: string)
      requires Valid() && p != ""
      modifies this, dirpool
      ensures Valid() && d != 0 && r == Normal(p) + "/" + f
    {
      d := Str2Dir(p, true);
      r := Dir2Str(d, Some(f));
    }
  }

  /** Skip repeated leading slashes. */
  method SkipLeading(p: string) returns (i: nat)
    ensures i <= |p| && Normal(p[i..]) == Normal(p) && (p != "" ==> i < |p|)
  {
    i := 0;
    while i + 1 < |p| && p[i] == '/' && p[i + 1] == '/'
      invariant i <= |p| && Normal(p[i..]) == Normal(p)
      invariant p != "" ==> i < |p|
    {
      NormalLeading(p[i..]);
      assert p[i..][1..] == p[i + 1..];
      i := i + 1;
    }
  }

  /** The component from i on ends at e; after the slashes that follow it, the next one starts at j. */
  method NextComponent(p: string, i: nat) returns (e: nat, j: nat)
    requires i < |p|
    ensures i <= e <= j <= |p| && i < j
    ensures Normal(p[i..]) == p[i..e] + (if j == |p| then "" else "/" + Normal(p[j..]))
  {
    e := i;
    while e < |p| && p[e] != '/'
      invariant i <= e <= |p| && forall k :: i <= k < e ==> p[k] != '/'
    {
      e := e + 1;
    }
    j := if e < |p| then e + 1 else e;
    while e < |p| && j < |p| && p[j] == '/'
      invariant e <= j <= |p| && (e < |p| ==> e < j) && (e == |p| ==> j == e)
      invariant forall k :: e <= k < j ==> p[k] == '/'
    {
      j := j + 1;
    }
    assert p[e..j] == Slashes(j - e);
    assert p[i..] == p[i..e] + Slashes(j - e) + p[j..];
    NormalSplit(p[i..e], j - e, p[j..]);
  }

  lemma NormalRoot()
    ensures Normal("/") == ""
  {
    assert "/"[1..] == "";
  }

  lemma RootPath(dirs: Dirs, strings: seq<string>)
    requires dirs != [] ==> Blocks(dirs) && Named(dirs, strings)
    requires 2 <= |strings| && strings[1] == ""
    ensures dirs != [] ==> IsDir(dirs, 1) && PathString(dirs, strings, 1) == ""
  {
  }

  /** Adding a directory keeps every component named. */
  lemma AddedNames(dirs: Dirs, strings: seq<string>, parent: nat, id: nat, create: bool)
    requires dirs == [] || (Blocks(dirs) && Named(dirs, strings))
    requires 2 <= |strings| && id < |strings|
    ensures Named(Added(dirs, parent, id, create), strings)
    ensures dirs == [] || dirs <= Added(dirs, parent, id, create)
  {
    hide Contains, ParentOf;
    forall d | IsDir(dirs, d) ensures dirs[d] < |strings| { }
  }

  lemma EnteredPath(dirs: Dirs, dirs': Dirs, strings: seq<string>, strings': seq<string>, parent: nat, d: nat)
    requires dirs == [] || (Blocks(dirs) && Named(dirs, strings) && dirs <= dirs')
    requires ValidParent(dirs, parent) && strings <= strings'
    requires Blocks(dirs') && Named(dirs', strings') && IsDir(dirs', d) && ParentOf(dirs', d) == parent
    ensures PathString(dirs', strings', d) ==
      (if parent == 0 then "" else PathString(dirs, strings, parent) + "/") + strings'[dirs'[d]]
  {
    hide Blocks, Named, ParentOf;
    if parent != 0 { PathStringGrows(dirs, dirs', strings, strings', parent); }
  }
}
