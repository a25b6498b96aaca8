/** Which packages provide a dependency (pool_addrelproviders, src/pool.c).
 *
 * A dependency is a name or a relation between two older dependencies. Its provider list is
 * computed when it is first asked for and remembered.
 */
module RelProviders {
  import opened Pigeonhole
  import opened PoolId
  import opened WhatProvides
  import opened ShrinkProvides
  import opened ProvidesIndex
  import opened MatchFlags

  const REL_AND: nat := 16
  const REL_OR: nat := 17
  const REL_WITH: nat := 18
  const REL_NAMESPACE: nat := 19
  const REL_ARCH: nat := 20
  const REL_FILECONFLICT: nat := 21
  const SYSTEMSOLVABLE: nat := 1

  /** The pool: relations, packages, the number of strings, the comparison of editions, which names begin
   * with "rpmlib(", and three well-known ids. No namespace callback is installed. */
  datatype Env = Env(rels: seq<Reldep>, sv: seq<Solvable>, num: nat, evrcmp: (nat, nat) -> int, rpmlib: nat -> bool,
                     archSrc: nat, archNosrc: nat, otherProviders: nat)

  ghost predicate DepOk(env: Env, id: nat) {
    if IsRelDep(id) then 1 <= RelIndex(id) < |env.rels| else 1 <= id < env.num
  }

  /** Relations are made of older dependencies; the right-hand side of a plain version relation is an edition. */
  ghost predicate RelOk(env: Env, i: nat)
    requires i < |env.rels|
  {
    && DepOk(env, env.rels[i].name) && env.rels[i].name < MakeRelDep(i)
    && (env.rels[i].flags >= 8 ==> DepOk(env, env.rels[i].evr) && env.rels[i].evr < MakeRelDep(i))
  }

  ghost predicate EnvOk(env: Env) {
    Resolvable(env.rels, env.sv, env.num) && 1 < |env.sv| && env.num < 0x8000_0000 && forall i :: 1 <= i < |env.rels| ==> RelOk(env, i)
  }

  /** Does a package match a dependency by its own name and edition? (pool_match_nevr) */
  predicate MatchNevr(env: Env, p: nat, d: nat)
    requires EnvOk(env) && p < |env.sv| && DepOk(env, d)
    decreases d
  {
    var s := env.sv[p];
    if !IsRelDep(d) then d == s.name
    else
      assert RelOk(env, RelIndex(d));
      var rd := env.rels[RelIndex(d)];
      if rd.flags >= 8 then
        if rd.flags == REL_ARCH then s.arch == rd.evr && MatchNevr(env, p, rd.name)
        else if rd.flags == REL_OR then MatchNevr(env, p, rd.name) || MatchNevr(env, p, rd.evr)
        else if rd.flags == REL_AND || rd.flags == REL_WITH then MatchNevr(env, p, rd.name) && MatchNevr(env, p, rd.evr)
        else false
      else MatchNevr(env, p, rd.name) && MatchNevrFlags(rd.flags, rd.evr == s.evr, env.evrcmp(s.evr, rd.evr))
  }

  /** One provided dependency meets a version requirement on a name: the bare name meets every one. */
  predicate ProvideMeets(env: Env, pid: nat, name: nat, flags: nat, evr: nat)
    requires ValidId(env.rels, pid)
  {
    pid == name ||
    (IsRelDep(pid) && (var prd := env.rels[RelIndex(pid)];
      prd.name == name && MatchFlagsEvr(prd.flags, flags, prd.evr == evr, env.evrcmp(prd.evr, evr))))
  }

  /** A package that provides the name at all meets version relation d. */
  ghost predicate VersionMeets(env: Env, p: nat, d: nat)
    requires EnvOk(env) && p < |env.sv| && IsRelDep(d) && DepOk(env, d)
  {
    var rd := env.rels[RelIndex(d)];
    if env.sv[p].provided == [] then MatchNevr(env, p, d)
    else
      exists j :: 0 <= j < |env.sv[p].provided| &&
        ProvideMeets(env, env.sv[p].provided[j], BaseName(env.rels, rd.name), rd.flags, rd.evr)
  }

  ghost function Packages(n: nat): (r: set<nat>)
    ensures forall p :: p in r <==> 1 <= p < n
  {
    if n <= 1 then {} else Packages(n - 1) + {n - 1}
  }

  /** The specification: the set of packages that provide a dependency. */
  ghost function RelSet(env: Env, d: nat): (r: set<nat>)
    requires EnvOk(env) && DepOk(env, d)
    ensures forall p :: p in r ==> 1 <= p < |env.sv|
    decreases d
  {
    if !IsRelDep(d) then
      ProvidersExact(env.rels, env.sv, env.num, d, 1);
      Elements(Providers(env.rels, env.sv, env.num, d))
    else
      assert RelOk(env, RelIndex(d));
      var rd := env.rels[RelIndex(d)];
      if rd.flags == REL_AND || rd.flags == REL_WITH then RelSet(env, rd.name) * RelSet(env, rd.evr)
      else if rd.flags == REL_OR then RelSet(env, rd.name) + RelSet(env, rd.evr)
      else if rd.flags == REL_NAMESPACE && rd.name == env.otherProviders then RelSet(env, rd.evr)
      else if rd.flags == REL_ARCH && rd.evr == env.archSrc then
        set p | p in Packages(|env.sv|) && env.sv[p].arch in {env.archSrc, env.archNosrc} && MatchNevr(env, p, rd.name)
      else if rd.flags == REL_ARCH then set p | p in RelSet(env, rd.name) && env.sv[p].arch == rd.evr
      else if rd.flags == REL_FILECONFLICT then set p | p in RelSet(env, rd.name) && d in env.sv[p].provided
      else if rd.flags >= 8 || rd.flags == 0 then {}
      else
        var s := set p | p in RelSet(env, rd.name) && VersionMeets(env, p, d);
        if s == {} && env.rpmlib(BaseName(env.rels, rd.name)) then {SYSTEMSOLVABLE} else s
  }

  /** The list at an offset has no duplicates and is the given set. */
  ghost predicate Denotes(data: seq<nat>, off: nat, o: nat, s: set<nat>) {
    && ListWithin(data, o, off)
    && Distinct(ListAt(data, o)) && Elements(ListAt(data, o)) == s
  }

  /** Every list the index knows is right. */
  ghost predicate Good(env: Env, index: Index)
    reads index
  {
    && EnvOk(env) && index.Valid() && |index.whatprovides| == env.num && |index.whatprovidesRel| == |env.rels|
    && (forall n :: 1 <= n < env.num ==>
          Denotes(index.whatprovidesdata, index.whatprovidesdataoff, index.whatprovides[n], RelSet(env, n)))
    && (forall v :: 1 <= v < |env.rels| && index.whatprovidesRel[v] != 0 ==>
          Denotes(index.whatprovidesdata, index.whatprovidesdataoff, index.whatprovidesRel[v], RelSet(env, MakeRelDep(v))))
  }

  /** What a lookup may change: lists are only added, and only for relations not yet computed. */
  ghost predicate Extends(wp0: seq<nat>, rel0: seq<nat>, data0: seq<nat>, off0: nat, wp: seq<nat>, rel: seq<nat>, data: seq<nat>, off: nat) {
    && wp == wp0 && |rel| == |rel0| && off0 <= off && off0 <= |data0| && off <= |data|
    && data[..off0] == data0[..off0]
    && forall v :: 0 <= v < |rel| && rel0[v] != 0 ==> rel[v] == rel0[v]
  }

  lemma ExtendsTrans(wp0: seq<nat>, rel0: seq<nat>, data0: seq<nat>, off0: nat,
                     wp1: seq<nat>, rel1: seq<nat>, data1: seq<nat>, off1: nat,
                     wp2: seq<nat>, rel2: seq<nat>, data2: seq<nat>, off2: nat)
    requires Extends(wp0, rel0, data0, off0, wp1, rel1, data1, off1) && Extends(wp1, rel1, data1, off1, wp2, rel2, data2, off2)
    ensures Extends(wp0, rel0, data0, off0, wp2, rel2, data2, off2)
  {
    assert data2[..off0] == data2[..off1][..off0] == data1[..off1][..off0] == data1[..off0];
  }

  lemma DenotesKept(data: seq<nat>, off: nat, data': seq<nat>, off': nat, o: nat, s: set<nat>)
    requires Denotes(data, off, o, s) && off <= off' <= |data'| && data'[..off] == data[..off]
    ensures Denotes(data', off', o, s) && ListAt(data', o) == ListAt(data, o)
  {
    hide ListAt;
    ListKept(data, data', o, off);
  }

  lemma NamesDenote(env: Env, n: nat)
    requires EnvOk(env) && 1 <= n < env.num
    ensures Distinct(Providers(env.rels, env.sv, env.num, n))
    ensures !IsRelDep(n) ==> RelSet(env, n) == Elements(Providers(env.rels, env.sv, env.num, n))
  {
    ProvidersExact(env.rels, env.sv, env.num, n, 1);
  }

  /** A freshly created index is good. */
  lemma CreatedIsGood(env: Env, index: Index)
    requires EnvOk(env)
    requires index.Valid() && |index.whatprovides| == env.num && index.whatprovidesRel == seq(|env.rels|, _ => 0)
    requires forall n :: 1 <= n < env.num ==>
      ListAt(index.whatprovidesdata, index.whatprovides[n]) == Providers(env.rels, env.sv, env.num, n)
    ensures Good(env, index)
  {
    hide ListAt, RelSet, Providers;
    forall n | 1 <= n < env.num
      ensures Denotes(index.whatprovidesdata, index.whatprovidesdataoff, index.whatprovides[n], RelSet(env, n))
    {
      NamesDenote(env, n);
    }
  }

  /** Lists hold package numbers. */
  lemma DenotesPackages(env: Env, d: nat, list: seq<nat>)
    requires EnvOk(env) && DepOk(env, d) && Elements(list) == RelSet(env, d)
    ensures NoZero(list) && forall k :: 0 <= k < |list| ==> 1 <= list[k] < |env.sv|
  {
    forall k | 0 <= k < |list| ensures 1 <= list[k] < |env.sv| { assert list[k] in Elements(list); }
  }

  /** The members of list for which keep holds, in order. */
  ghost predicate Kept(list: seq<nat>, keep: set<nat>, plist: seq<nat>) {
    Distinct(plist) && Elements(plist) == Elements(list) * keep
  }

  lemma KeptStep(list: seq<nat>, keep: set<nat>, plist: seq<nat>, k: nat)
    requires Distinct(list) && k < |list| && Kept(list[..k], keep, plist)
    ensures list[k] in keep ==> Kept(list[..k + 1], keep, plist + [list[k]])
    ensures list[k] !in keep ==> Kept(list[..k + 1], keep, plist)
  {
    assert list[..k + 1] == list[..k] + [list[k]];
    assert list[k] !in list[..k];
    assert forall x :: x in plist ==> x in Elements(plist);
    assert Elements(list[..k + 1]) == Elements(list[..k]) + {list[k]};
    assert Elements(plist + [list[k]]) == Elements(plist) + {list[k]};
  }

  /** The AND branch: keep what is also in the second list; the first list can be reused if everything is. */
  method Intersect(list: seq<nat>, other: seq<nat>, wp0: nat) returns (plist: seq<nat>, wp: nat)
    requires Distinct(list)
    ensures Kept(list, Elements(other), plist)
    ensures wp == wp0 || wp == 0
    ensures wp == wp0 != 0 ==> Elements(list) <= Elements(other)
  {
    plist, wp := [], wp0;
    var k := 0;
    while k < |list|
      invariant 0 <= k <= |list| && Kept(list[..k], Elements(other), plist)
      invariant wp == wp0 || wp == 0
      invariant wp == wp0 != 0 ==> Elements(list[..k]) <= Elements(other)
    {
      KeptStep(list, Elements(other), plist, k);
      var j := 0;
      while j < |other| && other[j] != list[k]
        invariant 0 <= j <= |other| && forall i :: 0 <= i < j ==> other[i] != list[k]
      {
        j := j + 1;
      }
      assert list[..k + 1] == list[..k] + [list[k]];
      if j < |other| { plist := plist + [list[k]]; } else { wp := 0; }
      k := k + 1;
    }
    assert list[..k] == list;
  }

  /** The OR branch for a non-empty first list: both lists, without repeating an element. */
  method Unite(list: seq<nat>, other: seq<nat>, wp0: nat) returns (plist: seq<nat>, wp: nat)
    requires Distinct(list)
    ensures Distinct(plist) && Elements(plist) == Elements(list) + Elements(other)
    ensures wp == wp0 || wp == 0
    ensures wp == wp0 != 0 ==> Elements(other) <= Elements(list)
  {
    plist, wp := list, wp0;
    var k := 0;
    while k < |other|
      invariant 0 <= k <= |other| && list <= plist
      invariant Distinct(plist) && Elements(plist) == Elements(list) + Elements(other[..k])
    {
      assert other[..k + 1] == other[..k] + [other[k]];
      if other[k] !in plist {
        assert Elements(plist + [other[k]]) == Elements(plist) + {other[k]};
        plist := plist + [other[k]];
      }
      k := k + 1;
    }
    assert other[..k] == other;
    if |plist| != |list| { wp := 0; }
  }

  ghost function ArchSet(env: Env, arch: nat): (r: set<nat>)
    ensures forall p :: p in r <==> 1 <= p < |env.sv| && env.sv[p].arch == arch
  {
    set p | p in Packages(|env.sv|) && env.sv[p].arch == arch
  }

  /** The ARCH branch: keep the packages of one architecture. */
  method FilterArch(env: Env, list: seq<nat>, arch: nat, wp0: nat) returns (plist: seq<nat>, wp: nat)
    requires Distinct(list) && forall k :: 0 <= k < |list| ==> 1 <= list[k] < |env.sv|
    ensures Kept(list, ArchSet(env, arch), plist)
    ensures wp == wp0 || wp == 0
    ensures wp == wp0 != 0 ==> Elements(list) <= ArchSet(env, arch)
  {
    hide ArchSet;
    plist, wp := [], wp0;
    var k := 0;
    while k < |list|
      invariant 0 <= k <= |list| && Kept(list[..k], ArchSet(env, arch), plist)
      invariant wp == wp0 || wp == 0
      invariant wp == wp0 != 0 ==> Elements(list[..k]) <= ArchSet(env, arch)
    {
      KeptStep(list, ArchSet(env, arch), plist, k);
      assert list[..k + 1] == list[..k] + [list[k]];
      if env.sv[list[k]].arch == arch { plist := plist + [list[k]]; } else { wp := 0; }
      k := k + 1;
    }
    assert list[..k] == list;
  }

  ghost function SourceSet(env: Env, name: nat): (r: set<nat>)
    requires EnvOk(env) && DepOk(env, name)
    ensures forall p :: p in r <==> 1 <= p < |env.sv| && env.sv[p].arch in {env.archSrc, env.archNosrc} && MatchNevr(env, p, name)
  {
    set p | p in Packages(|env.sv|) && env.sv[p].arch in {env.archSrc, env.archNosrc} && MatchNevr(env, p, name)
  }

  /** Source packages provide nothing, so all packages are looked through. */
  method ScanSources(env: Env, name: nat) returns (plist: seq<nat>)
    requires EnvOk(env) && DepOk(env, name)
    ensures Distinct(plist) && Elements(plist) == SourceSet(env, name)
  {
    hide SourceSet, EnvOk, DepOk, MatchNevr;
    plist := [];
    var p := 1;
    while p < |env.sv|
      invariant 1 <= p && (p <= |env.sv| || p == 1)
      invariant Distinct(plist) && forall x :: x in plist <==> x in SourceSet(env, name) && x < p
    {
      if (env.sv[p].arch == env.archSrc || env.sv[p].arch == env.archNosrc) && MatchNevr(env, p, name) {
        plist := plist + [p];
      }
      p := p + 1;
    }
  }

  ghost function ConflictSet(env: Env, d: nat): (r: set<nat>)
    ensures forall p :: p in r <==> 1 <= p < |env.sv| && d in env.sv[p].provided
  {
    set p | p in Packages(|env.sv|) && d in env.sv[p].provided
  }

  /** The FILECONFLICT branch: keep the packages that provide the very relation. */
  method FilterConflict(env: Env, list: seq<nat>, d: nat) returns (plist: seq<nat>)
    requires Distinct(list) && forall k :: 0 <= k < |list| ==> 1 <= list[k] < |env.sv|
    ensures Kept(list, ConflictSet(env, d), plist)
  {
    hide ConflictSet;
    plist := [];
    var k := 0;
    while k < |list|
      invariant 0 <= k <= |list| && Kept(list[..k], ConflictSet(env, d), plist)
    {
      KeptStep(list, ConflictSet(env, d), plist, k);
      var provided := env.sv[list[k]].provided;
      var j := 0;
      while j < |provided| && provided[j] != d
        invariant 0 <= j <= |provided| && forall i :: 0 <= i < j ==> provided[i] != d
      {
        j := j + 1;
      }
      if j < |provided| { plist := plist + [list[k]]; }
      k := k + 1;
    }
    assert list[..k] == list;
  }

  ghost function VersionSet(env: Env, d: nat): (r: set<nat>)
    requires EnvOk(env) && IsRelDep(d) && DepOk(env, d)
    ensures forall p :: p in r <==> 1 <= p < |env.sv| && VersionMeets(env, p, d)
  {
    set p | p in Packages(|env.sv|) && VersionMeets(env, p, d)
  }

  /** Does package p meet version relation d on the given name? */
  method MeetsVersion(env: Env, p: nat, d: nat, name: nat) returns (yes: bool)
    requires EnvOk(env) && p < |env.sv| && IsRelDep(d) && DepOk(env, d)
    requires name == BaseName(env.rels, env.rels[RelIndex(d)].name)
    ensures yes == VersionMeets(env, p, d)
  {
    hide MatchNevr, ProvideMeets, BaseName;
    var rd := env.rels[RelIndex(d)];
    var provided := env.sv[p].provided;
    if provided == [] { return MatchNevr(env, p, d); }
    var j := 0;
    while j < |provided| && !ProvideMeets(env, provided[j], name, rd.flags, rd.evr)
      invariant 0 <= j <= |provided|
      invariant forall i :: 0 <= i < j ==> !ProvideMeets(env, provided[i], name, rd.flags, rd.evr)
    {
      j := j + 1;
    }
    yes := j < |provided|;
  }

  /** A version relation: keep the packages with a matching provide; the system provides unknown rpmlib features. */
  method FilterVersion(env: Env, list: seq<nat>, d: nat) returns (plist: seq<nat>)
    requires EnvOk(env) && IsRelDep(d) && DepOk(env, d)
    requires Distinct(list) && forall k :: 0 <= k < |list| ==> 1 <= list[k] < |env.sv|
    ensures Distinct(plist)
    ensures var s := Elements(list) * VersionSet(env, d);
      Elements(plist) == if s == {} && env.rpmlib(BaseName(env.rels, env.rels[RelIndex(d)].name)) then {SYSTEMSOLVABLE} else s
  {
    hide VersionSet, VersionMeets, BaseName;
    var name := ResolveName(env.rels, env.rels[RelIndex(d)].name);
    plist := [];
    var k := 0;
    while k < |list|
      invariant 0 <= k <= |list| && Kept(list[..k], VersionSet(env, d), plist)
    {
      KeptStep(list, VersionSet(env, d), plist, k);
      var yes := MeetsVersion(env, list[k], d, name);
      if yes { plist := plist + [list[k]]; }
      k := k + 1;
    }
    assert list[..k] == list;
    EmptyElements(plist);
    if |plist| == 0 && env.rpmlib(name) { plist := [SYSTEMSOLVABLE]; }
  }

  lemma EmptyElements(s: seq<nat>)
    ensures Elements(s) == {} <==> s == []
  {
    if s != [] { assert s[0] in Elements(s); }
  }

  /** The outcome of computing relation d: an existing list that can be reused, or the members of a new one. */
  ghost predicate Computed(env: Env, data: seq<nat>, off: nat, d: nat, wp: nat, plist: seq<nat>)
    requires EnvOk(env) && DepOk(env, d)
  {
    if wp != 0 then Denotes(data, off, wp, RelSet(env, d))
    else Distinct(plist) && Elements(plist) == RelSet(env, d)
  }

  lemma RelSetSpecial(env: Env, d: nat)
    requires EnvOk(env) && IsRelDep(d) && DepOk(env, d) && env.rels[RelIndex(d)].flags >= 8
    ensures var rd := env.rels[RelIndex(d)];
      && DepOk(env, rd.name) && DepOk(env, rd.evr) && rd.name < d && rd.evr < d
      && RelSet(env, d) ==
        (if rd.flags == REL_AND || rd.flags == REL_WITH then RelSet(env, rd.name) * RelSet(env, rd.evr)
         else if rd.flags == REL_OR then RelSet(env, rd.name) + RelSet(env, rd.evr)
         else if rd.flags == REL_NAMESPACE && rd.name == env.otherProviders then RelSet(env, rd.evr)
         else if rd.flags == REL_ARCH && rd.evr == env.archSrc then SourceSet(env, rd.name)
         else if rd.flags == REL_ARCH then RelSet(env, rd.name) * ArchSet(env, rd.evr)
         else if rd.flags == REL_FILECONFLICT then RelSet(env, rd.name) * ConflictSet(env, d)
         else {})
  {
    assert RelOk(env, RelIndex(d));
    var rd := env.rels[RelIndex(d)];
    var names, evrs := RelSet(env, rd.name), RelSet(env, rd.evr);
  }

  lemma RelSetVersion(env: Env, d: nat)
    requires EnvOk(env) && IsRelDep(d) && DepOk(env, d) && env.rels[RelIndex(d)].flags < 8
    ensures var rd := env.rels[RelIndex(d)];
      && DepOk(env, rd.name) && rd.name < d
      && (rd.flags == 0 ==> RelSet(env, d) == {})
      && (rd.flags != 0 ==>
           var s := RelSet(env, rd.name) * VersionSet(env, d);
           RelSet(env, d) == if s == {} && env.rpmlib(BaseName(env.rels, rd.name)) then {SYSTEMSOLVABLE} else s)
  {
    hide VersionMeets, BaseName;
    assert RelOk(env, RelIndex(d));
    var rd := env.rels[RelIndex(d)];
    assert (set p | p in RelSet(env, rd.name) && VersionMeets(env, p, d)) == RelSet(env, rd.name) * VersionSet(env, d);
  }

  /** Reuse and intersection: when nothing was dropped the kept set is the first set. */
  lemma KeptIs(list: seq<nat>, keep: set<nat>, plist: seq<nat>, s: set<nat>)
    requires Kept(list, keep, plist) && Elements(list) == s
    ensures Elements(plist) == s * keep
    ensures Elements(list) <= keep ==> s * keep == s
  {
  }

  /** The offset of the list of a dependency, computed on demand (pool_whatprovides). */
  method Whatprovides(env: Env, index: Index, d: nat) returns (off: nat)
    requires Good(env, index) && DepOk(env, d)
    modifies index
    ensures Good(env, index)
    ensures Extends(old(index.whatprovides), old(index.whatprovidesRel), old(index.whatprovidesdata), old(index.whatprovidesdataoff),
                    index.whatprovides, index.whatprovidesRel, index.whatprovidesdata, index.whatprovidesdataoff)
    ensures forall v :: 0 <= v < |index.whatprovidesRel| && MakeRelDep(v) > d ==> index.whatprovidesRel[v] == old(index.whatprovidesRel[v])
    ensures Denotes(index.whatprovidesdata, index.whatprovidesdataoff, off, RelSet(env, d))
    decreases d, 2
  {
    hide RelSet, Resolvable, ListAt;
    if !IsRelDep(d) { return index.whatprovides[d]; }
    var v := RelIndex(d);
    if index.whatprovidesRel[v] != 0 { return index.whatprovidesRel[v]; }
    off := AddRelProviders(env, index, d);
  }

  /** Both component lists of a relation. */
  method BothLists(env: Env, index: Index, a: nat, b: nat) returns (oa: nat, la: seq<nat>, ob: nat, lb: seq<nat>)
    requires Good(env, index) && DepOk(env, a) && DepOk(env, b)
    modifies index
    ensures Good(env, index)
    ensures Extends(old(index.whatprovides), old(index.whatprovidesRel), old(index.whatprovidesdata), old(index.whatprovidesdataoff),
                    index.whatprovides, index.whatprovidesRel, index.whatprovidesdata, index.whatprovidesdataoff)
    ensures forall v :: 0 <= v < |index.whatprovidesRel| && MakeRelDep(v) > a && MakeRelDep(v) > b ==> index.whatprovidesRel[v] == old(index.whatprovidesRel[v])
    ensures Denotes(index.whatprovidesdata, index.whatprovidesdataoff, oa, RelSet(env, a)) && la == ListAt(index.whatprovidesdata, oa)
    ensures Denotes(index.whatprovidesdata, index.whatprovidesdataoff, ob, RelSet(env, b)) && lb == ListAt(index.whatprovidesdata, ob)
    decreases if a > b then a else b, 3
  {
    hide RelSet, Denotes, EnvOk, ListAt;
    oa := Whatprovides(env, index, a);
    ghost var wp1, rel1, data1, off1 := index.whatprovides, index.whatprovidesRel, index.whatprovidesdata, index.whatprovidesdataoff;
    ob := Whatprovides(env, index, b);
    ExtendsTrans(old(index.whatprovides), old(index.whatprovidesRel), old(index.whatprovidesdata), old(index.whatprovidesdataoff),
                 wp1, rel1, data1, off1,
                 index.whatprovides, index.whatprovidesRel, index.whatprovidesdata, index.whatprovidesdataoff);
    DenotesKept(data1, off1, index.whatprovidesdata, index.whatprovidesdataoff, oa, RelSet(env, a));
    DenotesBound(index.whatprovidesdata, index.whatprovidesdataoff, oa, RelSet(env, a));
    DenotesBound(index.whatprovidesdata, index.whatprovidesdataoff, ob, RelSet(env, b));
    la, lb := ListAt(index.whatprovidesdata, oa), ListAt(index.whatprovidesdata, ob);
  }

  lemma DenotesBound(data: seq<nat>, off: nat, o: nat, s: set<nat>)
    requires Denotes(data, off, o, s)
    ensures o <= |data| && Distinct(ListAt(data, o)) && Elements(ListAt(data, o)) == s
  {
  }

  lemma GoodBounds(env: Env, index: Index)
    requires Good(env, index)
    ensures index.whatprovidesdataoff <= |index.whatprovidesdata| && ListAt(index.whatprovidesdata, 0) == []
    ensures Distinct<nat>([]) && Elements<nat>([]) == {}
  {
    EmptyAtZero(index.whatprovidesdata, index.whatprovidesdataoff);
  }

  /** The relations that are not version ranges. */
  method Special(env: Env, index: Index, d: nat) returns (wp: nat, plist: seq<nat>)
    requires Good(env, index) && IsRelDep(d) && DepOk(env, d) && env.rels[RelIndex(d)].flags >= 8
    modifies index
    ensures Good(env, index)
    ensures Extends(old(index.whatprovides), old(index.whatprovidesRel), old(index.whatprovidesdata), old(index.whatprovidesdataoff),
                    index.whatprovides, index.whatprovidesRel, index.whatprovidesdata, index.whatprovidesdataoff)
    ensures forall v :: 0 <= v < |index.whatprovidesRel| && MakeRelDep(v) >= d ==> index.whatprovidesRel[v] == old(index.whatprovidesRel[v])
    ensures Computed(env, index.whatprovidesdata, index.whatprovidesdataoff, d, wp, plist)
    decreases d, 0
  {
    hide RelSet, EnvOk, ListAt, Distinct, ArchSet, SourceSet, ConflictSet, Index.Valid;
    RelSetSpecial(env, d);
    GoodBounds(env, index);
    var rd := env.rels[RelIndex(d)];
    var name, evr := rd.name, rd.evr;
    wp, plist := 0, [];
    if rd.flags == REL_AND || rd.flags == REL_WITH {
      var o1, l1, o2, l2 := BothLists(env, index, name, evr);
      plist, wp := Intersect(l1, l2, o1);
      KeptIs(l1, Elements(l2), plist, RelSet(env, name));
    } else if rd.flags == REL_OR {
      var o1, l1, o2, l2 := BothLists(env, index, name, evr);
      EmptyElements(l1);
      GoodBounds(env, index);
      if l1 == [] { wp := o2; } else { plist, wp := Unite(l1, l2, o1); }
      assert Elements(l2) <= Elements(l1) ==> RelSet(env, name) + RelSet(env, evr) == RelSet(env, name);
      assert l1 == [] ==> RelSet(env, name) + RelSet(env, evr) == RelSet(env, evr);
    } else if rd.flags == REL_NAMESPACE && name == env.otherProviders {
      wp := Whatprovides(env, index, evr);
      GoodBounds(env, index);
    } else if rd.flags == REL_ARCH && evr == env.archSrc {
      plist := ScanSources(env, name);
    } else if rd.flags == REL_ARCH {
      wp := Whatprovides(env, index, name);
      DenotesBound(index.whatprovidesdata, index.whatprovidesdataoff, wp, RelSet(env, name));
      var list := ListAt(index.whatprovidesdata, wp);
      DenotesPackages(env, name, list);
      plist, wp := FilterArch(env, list, evr, wp);
      KeptIs(list, ArchSet(env, evr), plist, RelSet(env, name));
    } else if rd.flags == REL_FILECONFLICT {
      var o := Whatprovides(env, index, name);
      DenotesBound(index.whatprovidesdata, index.whatprovidesdataoff, o, RelSet(env, name));
      var list := ListAt(index.whatprovidesdata, o);
      DenotesPackages(env, name, list);
      plist := FilterConflict(env, list, d);
      KeptIs(list, ConflictSet(env, d), plist, RelSet(env, name));
    }
  }

  /** Compute and remember the providers of a relation. The offset is never 0, the list is exactly the
   * specified set, and no list that existed before is touched. */
  method AddRelProviders(env: Env, index: Index, d: nat) returns (off: nat)
    requires Good(env, index) && IsRelDep(d) && DepOk(env, d) && index.whatprovidesRel[RelIndex(d)] == 0
    modifies index
    ensures Good(env, index)
    ensures Extends(old(index.whatprovides), old(index.whatprovidesRel), old(index.whatprovidesdata), old(index.whatprovidesdataoff),
                    index.whatprovides, index.whatprovidesRel, index.whatprovidesdata, index.whatprovidesdataoff)
    ensures forall v :: 0 <= v < |index.whatprovidesRel| && MakeRelDep(v) > d ==> index.whatprovidesRel[v] == old(index.whatprovidesRel[v])
    ensures off != 0 && index.whatprovidesRel[RelIndex(d)] == off
    ensures Denotes(index.whatprovidesdata, index.whatprovidesdataoff, off, RelSet(env, d))
    decreases d, 1
  {
    hide RelSet, EnvOk, ListAt, Distinct, VersionSet, Index.Valid, Resolvable;
    var v, rd := RelIndex(d), env.rels[RelIndex(d)];
    var wp, plist := 0, [];
    GoodBounds(env, index);
    if rd.flags >= 8 {
      wp, plist := Special(env, index, d);
    } else {
      RelSetVersion(env, d);
      if rd.flags != 0 {
        var o := Whatprovides(env, index, rd.name);
        DenotesBound(index.whatprovidesdata, index.whatprovidesdataoff, o, RelSet(env, rd.name));
        var list := ListAt(index.whatprovidesdata, o);
        DenotesPackages(env, rd.name, list);
        plist := FilterVersion(env, list, d);
      }
    }
    off := Remember(env, index, d, wp, plist);
  }

  /** Enter the outcome for relation d: reuse the list or make a new one. */
  method Remember(env: Env, index: Index, d: nat, wp: nat, plist: seq<nat>) returns (off: nat)
    requires Good(env, index) && IsRelDep(d) && DepOk(env, d) && index.whatprovidesRel[RelIndex(d)] == 0
    requires Computed(env, index.whatprovidesdata, index.whatprovidesdataoff, d, wp, plist)
    modifies index
    ensures Good(env, index)
    ensures Extends(old(index.whatprovides), old(index.whatprovidesRel), old(index.whatprovidesdata), old(index.whatprovidesdataoff),
                    index.whatprovides, index.whatprovidesRel, index.whatprovidesdata, index.whatprovidesdataoff)
    ensures forall v :: 0 <= v < |index.whatprovidesRel| && MakeRelDep(v) != d ==> index.whatprovidesRel[v] == old(index.whatprovidesRel[v])
    ensures off != 0 && index.whatprovidesRel[RelIndex(d)] == off
    ensures Denotes(index.whatprovidesdata, index.whatprovidesdataoff, off, RelSet(env, d))
  {
    hide RelSet, ListAt, Distinct, Resolvable;
    ghost var data0, off0 := index.whatprovidesdata, index.whatprovidesdataoff;
    if wp != 0 {
      off := wp;
    } else {
      DenotesPackages(env, d, plist);
      off := index.QueueToWhatProvides(plist);
      forall n | 1 <= n < env.num
        ensures Denotes(index.whatprovidesdata, index.whatprovidesdataoff, index.whatprovides[n], RelSet(env, n))
      {
        DenotesKept(data0, off0, index.whatprovidesdata, index.whatprovidesdataoff, index.whatprovides[n], RelSet(env, n));
      }
      forall v | 1 <= v < |env.rels| && index.whatprovidesRel[v] != 0
        ensures Denotes(index.whatprovidesdata, index.whatprovidesdataoff, index.whatprovidesRel[v], RelSet(env, MakeRelDep(v)))
      {
        DenotesKept(data0, off0, index.whatprovidesdata, index.whatprovidesdataoff, index.whatprovidesRel[v], RelSet(env, MakeRelDep(v)));
      }
    }
    index.whatprovidesRel := index.whatprovidesRel[RelIndex(d) := off];
  }

  ghost predicate AllDenote(env: Env, data: seq<nat>, off: nat, deps: seq<nat>, offs: seq<nat>) {
    && EnvOk(env) && |deps| == |offs|
    && forall i :: 0 <= i < |deps| ==> DepOk(env, deps[i]) && Denotes(data, off, offs[i], RelSet(env, deps[i]))
  }

  lemma AllDenoteKept(env: Env, wp0: seq<nat>, rel0: seq<nat>, data0: seq<nat>, off0: nat,
                      wp: seq<nat>, rel: seq<nat>, data: seq<nat>, off: nat, deps: seq<nat>, offs: seq<nat>)
    requires AllDenote(env, data0, off0, deps, offs) && Extends(wp0, rel0, data0, off0, wp, rel, data, off)
    ensures AllDenote(env, data, off, deps, offs)
  {
    hide EnvOk, RelSet, Denotes;
    forall i | 0 <= i < |deps| ensures Denotes(data, off, offs[i], RelSet(env, deps[i])) {
      DenotesKept(data0, off0, data, off, offs[i], RelSet(env, deps[i]));
    }
  }

  lemma AllDenoteAnd(env: Env, data: seq<nat>, off: nat, deps: seq<nat>, offs: seq<nat>, d: nat, o: nat)
    requires AllDenote(env, data, off, deps, offs) && DepOk(env, d) && Denotes(data, off, o, RelSet(env, d))
    ensures AllDenote(env, data, off, deps + [d], offs + [o])
  {
    hide EnvOk, DepOk, RelSet, Denotes;
  }

  /** Look up one dependency after others: their lists stay. */
  method LookupNext(env: Env, index: Index, ghost deps: seq<nat>, offs: seq<nat>, d: nat) returns (all: seq<nat>)
    requires Good(env, index) && DepOk(env, d)
    requires AllDenote(env, index.whatprovidesdata, index.whatprovidesdataoff, deps, offs)
    modifies index
    ensures Good(env, index) && AllDenote(env, index.whatprovidesdata, index.whatprovidesdataoff, deps + [d], all)
  {
    hide EnvOk, Good, Extends, AllDenote, RelSet, Denotes;
    ghost var wp0, rel0, data0, off0 := index.whatprovides, index.whatprovidesRel, index.whatprovidesdata, index.whatprovidesdataoff;
    var off := Whatprovides(env, index, d);
    AllDenoteKept(env, wp0, rel0, data0, off0, index.whatprovides, index.whatprovidesRel, index.whatprovidesdata, index.whatprovidesdataoff,
      deps, offs);
    AllDenoteAnd(env, index.whatprovidesdata, index.whatprovidesdataoff, deps, offs, d, off);
    all := offs + [off];
  }

  /** Build the index and look up dependencies, one after the other: in the end the list at each offset that was returned holds
   * exactly the providers of its dependency, whatever was added to the index later.
   */
  method CreateAndLookup(env: Env, index: Index, deps: seq<nat>) returns (offs: seq<nat>)
    requires EnvOk(env) && env.num >= 1 && forall i :: 0 <= i < |deps| ==> DepOk(env, deps[i])
    modifies index
    ensures Good(env, index) && AllDenote(env, index.whatprovidesdata, index.whatprovidesdataoff, deps, offs)
  {
    index.CreateWhatProvides(env.rels, env.sv, env.num);
    CreatedIsGood(env, index);
    hide EnvOk, Good, DepOk, RelSet, Denotes;
    offs := [];
    while |offs| < |deps|
      invariant Good(env, index) && |offs| <= |deps|
      invariant AllDenote(env, index.whatprovidesdata, index.whatprovidesdataoff, deps[..|offs|], offs)
      decreases |deps| - |offs|
    {
      assert deps[..|offs| + 1] == deps[..|offs|] + [deps[|offs|]];
      offs := LookupNext(env, index, deps[..|offs|], offs, deps[|offs|]);
    }
    assert deps[..|deps|] == deps;
  }
}
