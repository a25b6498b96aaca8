/** The index from names to the packages that provide them (pool_createwhatprovides, src/pool.c). */
module WhatProvides {
  import opened PoolId

  /** A package: its provides list and what decides whether it is indexed. */
  datatype Solvable = Solvable(name: nat, evr: nat, arch: nat, provided: seq<nat>,
                               hasRepo: bool, disabled: bool, installed: bool, installable: bool)

  predicate Eligible(s: Solvable) {
    s.provided != [] && s.hasRepo && !s.disabled && (s.installed || s.installable)
  }

  /** Relations only refer to older relations. */
  ghost predicate WellFounded(rels: seq<Reldep>) {
    |rels| < 0x8000_0000 &&
    forall i :: 0 <= i < |rels| ==> rels[i].name < MakeRelDep(i)
  }

  ghost predicate ValidId(rels: seq<Reldep>, id: nat) { IsRelDep(id) ==> RelIndex(id) < |rels| }

  /** The name a dependency is about. */
  function BaseName(rels: seq<Reldep>, id: nat): (name: nat)
    requires WellFounded(rels) && ValidId(rels, id)
    ensures !IsRelDep(name)
    decreases id
  {
    if IsRelDep(id) then BaseName(rels, rels[RelIndex(id)].name) else id
  }

  /** Every provided dependency resolves to one of the num strings, and never to string 0. */
  ghost predicate Resolvable(rels: seq<Reldep>, sv: seq<Solvable>, num: nat) {
    WellFounded(rels) && 1 <= |sv| &&
    forall i, j :: 0 <= i < |sv| && 0 <= j < |sv[i].provided| ==>
      ValidId(rels, sv[i].provided[j]) && 1 <= BaseName(rels, sv[i].provided[j]) < num
  }

  /** How often a list provides a name, from position j on. */
  ghost function CountIn(rels: seq<Reldep>, list: seq<nat>, name: nat, j: nat): nat
    requires WellFounded(rels) && (forall k :: 0 <= k < |list| ==> ValidId(rels, list[k])) && j <= |list|
    decreases |list| - j
  {
    if j == |list| then 0
    else (if BaseName(rels, list[j]) == name then 1 else 0) + CountIn(rels, list, name, j + 1)
  }

  /** How often the eligible packages 1..i provide a name. */
  ghost function Count(rels: seq<Reldep>, sv: seq<Solvable>, num: nat, name: nat, i: nat): nat
    requires Resolvable(rels, sv, num) && i < |sv|
  {
    if i == 0 then 0
    else Count(rels, sv, num, name, i - 1) + (if Eligible(sv[i]) then CountIn(rels, sv[i].provided, name, 0) else 0)
  }

  ghost predicate ProvidesUpTo(rels: seq<Reldep>, list: seq<nat>, name: nat, j: nat)
    requires WellFounded(rels) && (forall k :: 0 <= k < |list| ==> ValidId(rels, list[k])) && j <= |list|
  {
    exists k :: 0 <= k < j && BaseName(rels, list[k]) == name
  }

  ghost predicate Provides(rels: seq<Reldep>, sv: seq<Solvable>, num: nat, i: nat, name: nat)
    requires Resolvable(rels, sv, num) && i < |sv|
  {
    Eligible(sv[i]) && ProvidesUpTo(rels, sv[i].provided, name, |sv[i].provided|)
  }

  /** The packages from number i on that provide a name, in ascending order: a plain scan. */
  ghost function ProvidersFrom(rels: seq<Reldep>, sv: seq<Solvable>, num: nat, name: nat, i: nat): seq<nat>
    requires Resolvable(rels, sv, num) && 1 <= i <= |sv|
    decreases |sv| - i
  {
    if i == |sv| then []
    else (if Provides(rels, sv, num, i, name) then [i] else []) + ProvidersFrom(rels, sv, num, name, i + 1)
  }

  ghost function Providers(rels: seq<Reldep>, sv: seq<Solvable>, num: nat, name: nat): seq<nat>
    requires Resolvable(rels, sv, num)
  {
    ProvidersFrom(rels, sv, num, name, 1)
  }

  /** The list is the set of providers, ascending and without duplicates. */
  lemma {:induction false} ProvidersExact(rels: seq<Reldep>, sv: seq<Solvable>, num: nat, name: nat, i: nat)
    requires Resolvable(rels, sv, num) && 1 <= i <= |sv|
    ensures var l := ProvidersFrom(rels, sv, num, name, i);
      && (forall k :: k in l <==> i <= k < |sv| && Provides(rels, sv, num, k, name))
      && (forall a, b :: 0 <= a < b < |l| ==> l[a] < l[b])
    decreases |sv| - i
  {
    hide Provides, Resolvable;
    if i < |sv| {
      ProvidersExact(rels, sv, num, name, i + 1);
      var l, rest := ProvidersFrom(rels, sv, num, name, i), ProvidersFrom(rels, sv, num, name, i + 1);
      assert l == (if Provides(rels, sv, num, i, name) then [i] else []) + rest;
      forall k ensures k in l <==> (k == i && Provides(rels, sv, num, i, name)) || k in rest { }
      forall a, b | 0 <= a < b < |l| ensures l[a] < l[b] {
        if l != rest {
          assert l[b] == rest[b - 1] && rest[b - 1] in rest;
        }
      }
    }
  }

  /** A name is provided at all exactly when it was counted. */
  lemma {:induction false} CountedIffProvided(rels: seq<Reldep>, list: seq<nat>, name: nat, j: nat)
    requires WellFounded(rels) && (forall k :: 0 <= k < |list| ==> ValidId(rels, list[k])) && j <= |list|
    ensures CountIn(rels, list, name, j) == 0 <==> forall k :: j <= k < |list| ==> BaseName(rels, list[k]) != name
    decreases |list| - j
  {
    if j < |list| { CountedIffProvided(rels, list, name, j + 1); }
  }

  /** Follow a relation to the name it is about. */
  method ResolveName(rels: seq<Reldep>, id0: nat) returns (id: nat)
    requires WellFounded(rels) && ValidId(rels, id0)
    ensures id == BaseName(rels, id0)
  {
    id := id0;
    while IsRelDep(id)
      invariant ValidId(rels, id) && BaseName(rels, id) == BaseName(rels, id0)
      decreases id
    {
      id := rels[RelIndex(id)].name;
    }
  }

  ghost function Total(rels: seq<Reldep>, sv: seq<Solvable>, num: nat, name: nat): nat
    requires Resolvable(rels, sv, num)
  {
    Count(rels, sv, num, name, |sv| - 1)
  }

  /** What is still to be counted or filled in when package i has been dealt with up to its j-th provide. */
  ghost function Remaining(rels: seq<Reldep>, sv: seq<Solvable>, num: nat, name: nat, i: nat, j: nat): nat
    requires Resolvable(rels, sv, num) && 1 <= i < |sv| && j <= |sv[i].provided|
  {
    Count(rels, sv, num, name, i - 1) + if Eligible(sv[i]) then CountIn(rels, sv[i].provided, name, j) else 0
  }

  lemma RemainingSteps(rels: seq<Reldep>, sv: seq<Solvable>, num: nat, name: nat, i: nat, j: nat)
    requires Resolvable(rels, sv, num) && 1 <= i < |sv| && j <= |sv[i].provided|
    ensures Remaining(rels, sv, num, name, i, 0) == Count(rels, sv, num, name, i)
    ensures !Eligible(sv[i]) || j == |sv[i].provided| ==> Remaining(rels, sv, num, name, i, j) == Count(rels, sv, num, name, i - 1)
    ensures Eligible(sv[i]) && j < |sv[i].provided| ==>
      Remaining(rels, sv, num, name, i, j) == Remaining(rels, sv, num, name, i, j + 1)
        + if BaseName(rels, sv[i].provided[j]) == name then 1 else 0
  {
  }

  /** First pass: count the provides of each name. */
  method CountNames(rels: seq<Reldep>, sv: seq<Solvable>, num: nat) returns (wp: seq<nat>)
    requires Resolvable(rels, sv, num)
    ensures |wp| == num
    ensures forall n :: 0 <= n < num ==> wp[n] == Total(rels, sv, num, n)
  {
    hide Count, Remaining, CountIn, BaseName;
    wp := seq(num, _ => 0);
    var i := |sv| - 1;
    while i > 0
      invariant 0 <= i < |sv| && |wp| == num
      invariant forall n :: 0 <= n < num ==> wp[n] + Count(rels, sv, num, n, i) == Total(rels, sv, num, n)
    {
      forall n | 0 <= n < num ensures wp[n] + Remaining(rels, sv, num, n, i, 0) == Total(rels, sv, num, n) {
        RemainingSteps(rels, sv, num, n, i, 0);
      }
      var j := 0;
      if Eligible(sv[i]) {
        while j < |sv[i].provided|
          invariant 0 <= j <= |sv[i].provided| && |wp| == num
          invariant forall n :: 0 <= n < num ==> wp[n] + Remaining(rels, sv, num, n, i, j) == Total(rels, sv, num, n)
        {
          var id := ResolveName(rels, sv[i].provided[j]);
          forall n | 0 <= n < num
            ensures Remaining(rels, sv, num, n, i, j) == Remaining(rels, sv, num, n, i, j + 1) + if n == id then 1 else 0
          {
            RemainingSteps(rels, sv, num, n, i, j);
          }
          wp := wp[id := wp[id] + 1];
          j := j + 1;
        }
      }
      forall n | 0 <= n < num ensures wp[n] + Count(rels, sv, num, n, i - 1) == Total(rels, sv, num, n) {
        RemainingSteps(rels, sv, num, n, i, j);
      }
      i := i - 1;
    }
    forall n | 0 <= n < num ensures Count(rels, sv, num, n, 0) == 0 { CountZero(rels, sv, num, n); }
  }

  lemma CountZero(rels: seq<Reldep>, sv: seq<Solvable>, num: nat, n: nat)
    requires Resolvable(rels, sv, num)
    ensures Count(rels, sv, num, n, 0) == 0
  {
  }

  /** Regions of the data, one for each counted name, in order, behind the first two entries:
   * count slots and a terminator, whose index is at[n]. */
  ghost predicate Regions(counts: seq<nat>, at: seq<nat>, off: nat) {
    && |at| == |counts| && 2 <= off
    && (forall n :: 0 <= n < |counts| && counts[n] == 0 ==> at[n] == 0)
    && (forall n :: 0 <= n < |counts| && counts[n] > 0 ==> 2 + counts[n] <= at[n] < off)
    && (forall m, n :: 0 <= m < n < |counts| && counts[m] > 0 && counts[n] > 0 ==> at[m] + counts[n] < at[n])
  }

  /** Second pass: turn the counts into the positions of the terminators. */
  method PlaceRegions(counts: seq<nat>) returns (wp: seq<nat>, off: nat)
    ensures Regions(counts, wp, off)
  {
    wp, off := counts, 2;
    var i := 0;
    while i < |counts|
      invariant 0 <= i <= |counts| == |wp| && 2 <= off
      invariant forall n :: i <= n < |counts| ==> wp[n] == counts[n]
      invariant Regions(counts[..i], wp[..i], off)
    {
      var n := wp[i];
      if n != 0 {
        off := off + n;
        wp := wp[i := off];
        off := off + 1;
      }
      i := i + 1;
    }
    assert counts[..i] == counts && wp[..i] == wp;
  }

  /** The providers of a name among the packages from i on, where of package i only the first j provides count. */
  ghost function PartialProviders(rels: seq<Reldep>, sv: seq<Solvable>, num: nat, name: nat, i: nat, j: nat): seq<nat>
    requires Resolvable(rels, sv, num) && 1 <= i < |sv| && j <= |sv[i].provided|
  {
    (if Eligible(sv[i]) && ProvidesUpTo(rels, sv[i].provided, name, j) then [i] else [])
      + ProvidersFrom(rels, sv, num, name, i + 1)
  }

  lemma RestLater(rels: seq<Reldep>, sv: seq<Solvable>, num: nat, name: nat, i: nat)
    requires Resolvable(rels, sv, num) && 1 <= i < |sv|
    ensures var rest := ProvidersFrom(rels, sv, num, name, i + 1); rest != [] ==> rest[0] > i
  {
    ProvidersExact(rels, sv, num, name, i + 1);
    hide Resolvable, ProvidersFrom, Provides;
    var rest := ProvidersFrom(rels, sv, num, name, i + 1);
    assert rest != [] ==> rest[0] in rest;
  }

  lemma UpToSteps(rels: seq<Reldep>, list: seq<nat>, name: nat, j: nat)
    requires WellFounded(rels) && (forall k :: 0 <= k < |list| ==> ValidId(rels, list[k])) && j <= |list|
    ensures !ProvidesUpTo(rels, list, name, 0)
    ensures j < |list| ==> (ProvidesUpTo(rels, list, name, j + 1) <==> ProvidesUpTo(rels, list, name, j) || BaseName(rels, list[j]) == name)
  {
    hide BaseName, WellFounded, ValidId;
  }

  lemma PartialSteps(rels: seq<Reldep>, sv: seq<Solvable>, num: nat, name: nat, i: nat, j: nat)
    requires Resolvable(rels, sv, num) && 1 <= i < |sv| && j <= |sv[i].provided|
    ensures PartialProviders(rels, sv, num, name, i, 0) == ProvidersFrom(rels, sv, num, name, i + 1)
    ensures !Eligible(sv[i]) || j == |sv[i].provided| ==>
      PartialProviders(rels, sv, num, name, i, j) == ProvidersFrom(rels, sv, num, name, i)
    ensures Eligible(sv[i]) && j < |sv[i].provided| && BaseName(rels, sv[i].provided[j]) != name ==>
      PartialProviders(rels, sv, num, name, i, j + 1) == PartialProviders(rels, sv, num, name, i, j)
    ensures Eligible(sv[i]) && j < |sv[i].provided| && BaseName(rels, sv[i].provided[j]) == name ==>
      var l := PartialProviders(rels, sv, num, name, i, j);
      PartialProviders(rels, sv, num, name, i, j + 1) == if l != [] && l[0] == i then l else [i] + l
  {
    RestLater(rels, sv, num, name, i);
    UpToSteps(rels, sv[i].provided, name, j);
    hide ProvidesUpTo, BaseName, Eligible;
  }

  /** The region of one name while it is filled from its end: w is where the list starts so far, end is
   * its terminator, and left more entries may come. */
  ghost predicate Filled(data: seq<nat>, w: nat, end: nat, count: nat, left: nat, list: seq<nat>) {
    if count == 0 then w == 0 && list == [] && left == 0
    else end < |data| && count + 2 <= end && end - count + left <= w <= end && data[end] == 0 && data[w..end] == list
  }

  /** Putting package i in front of the list of one name, unless it is there already (third pass). */
  lemma FillOne(data: seq<nat>, w: nat, end: nat, count: nat, left: nat, list: seq<nat>, i: nat)
    requires Filled(data, w, end, count, left, list) && left > 0 && i > 0 && count > 0
    ensures w < |data| && 0 < w
    ensures data[w] == i ==> list != [] && list[0] == i && Filled(data, w, end, count, left - 1, list)
    ensures data[w] != i ==> (list == [] || list[0] != i) && Filled(data[w - 1 := i], w - 1, end, count, left - 1, [i] + list)
  {
    assert data[w - 1 := i][w - 1..end] == [i] + data[w..end];
  }

  /** An entry outside the region of a name leaves it alone. */
  lemma FillOther(data: seq<nat>, w: nat, end: nat, count: nat, left: nat, list: seq<nat>, at: nat, i: nat)
    requires Filled(data, w, end, count, left, list) && at < |data| && (at + count < end || at > end || count == 0)
    ensures Filled(data[at := i], w, end, count, left, list)
  {
    if count > 0 { assert data[at := i][w..end] == data[w..end]; }
  }

  /** All regions in the middle of the third pass. */
  ghost predicate AllFilled(rels: seq<Reldep>, sv: seq<Solvable>, num: nat, counts: seq<nat>, ends: seq<nat>,
                            data: seq<nat>, wp: seq<nat>, i: nat, j: nat)
    requires Resolvable(rels, sv, num) && 1 <= i < |sv| && j <= |sv[i].provided|
  {
    && |wp| == |ends| == |counts| == num
    && forall n :: 1 <= n < num ==>
         Filled(data, wp[n], ends[n], counts[n], Remaining(rels, sv, num, n, i, j), PartialProviders(rels, sv, num, n, i, j))
  }

  lemma FillStep(rels: seq<Reldep>, sv: seq<Solvable>, num: nat, counts: seq<nat>, ends: seq<nat>, off: nat,
                 data: seq<nat>, wp: seq<nat>, i: nat, j: nat)
    requires Resolvable(rels, sv, num) && 1 <= i < |sv| && j < |sv[i].provided| && Eligible(sv[i])
    requires Regions(counts, ends, off) && AllFilled(rels, sv, num, counts, ends, data, wp, i, j)
    ensures var id := BaseName(rels, sv[i].provided[j]);
      && 1 <= id < num && 0 < wp[id] < |data|
      && (data[wp[id]] == i ==> AllFilled(rels, sv, num, counts, ends, data, wp, i, j + 1))
      && (data[wp[id]] != i ==> AllFilled(rels, sv, num, counts, ends, data[wp[id] - 1 := i], wp[id := wp[id] - 1], i, j + 1))
  {
    hide Remaining, PartialProviders, BaseName, CountIn, Filled;
    var id := BaseName(rels, sv[i].provided[j]);
    RemainingSteps(rels, sv, num, id, i, j);
    PartialSteps(rels, sv, num, id, i, j);
    assert counts[id] > 0 by { FilledCounted(data, wp[id], ends[id], counts[id], Remaining(rels, sv, num, id, i, j), PartialProviders(rels, sv, num, id, i, j)); }
    FillOne(data, wp[id], ends[id], counts[id], Remaining(rels, sv, num, id, i, j), PartialProviders(rels, sv, num, id, i, j), i);
    FilledBounds(data, wp[id], ends[id], counts[id], Remaining(rels, sv, num, id, i, j), PartialProviders(rels, sv, num, id, i, j));
    var at := wp[id] - 1;
    forall n | 1 <= n < num && n != id
      ensures Filled(data, wp[n], ends[n], counts[n], Remaining(rels, sv, num, n, i, j + 1), PartialProviders(rels, sv, num, n, i, j + 1))
      ensures Filled(data[at := i], wp[n], ends[n], counts[n], Remaining(rels, sv, num, n, i, j + 1), PartialProviders(rels, sv, num, n, i, j + 1))
    {
      RemainingSteps(rels, sv, num, n, i, j);
      PartialSteps(rels, sv, num, n, i, j);
      FillOther(data, wp[n], ends[n], counts[n], Remaining(rels, sv, num, n, i, j), PartialProviders(rels, sv, num, n, i, j), at, i);
    }
  }

  lemma FilledCounted(data: seq<nat>, w: nat, end: nat, count: nat, left: nat, list: seq<nat>)
    requires Filled(data, w, end, count, left, list) && left > 0
    ensures count > 0
  {
  }

  lemma FilledBounds(data: seq<nat>, w: nat, end: nat, count: nat, left: nat, list: seq<nat>)
    requires Filled(data, w, end, count, left, list) && count > 0
    ensures end - count + left <= w <= end
  {
  }

  lemma FillStarts(rels: seq<Reldep>, sv: seq<Solvable>, num: nat, counts: seq<nat>, ends: seq<nat>, off: nat, data: seq<nat>)
    requires Resolvable(rels, sv, num) && |sv| > 1 && |counts| == num && Regions(counts, ends, off) && off <= |data|
    requires forall n :: 0 <= n < num ==> counts[n] == Total(rels, sv, num, n)
    requires forall k :: 0 <= k < |data| ==> data[k] == 0
    ensures AllFilled(rels, sv, num, counts, ends, data, ends, |sv| - 1, 0)
  {
    hide Remaining, PartialProviders, Count, BaseName;
    forall n | 1 <= n < num
      ensures Filled(data, ends[n], ends[n], counts[n], Remaining(rels, sv, num, n, |sv| - 1, 0), PartialProviders(rels, sv, num, n, |sv| - 1, 0))
    {
      RemainingSteps(rels, sv, num, n, |sv| - 1, 0);
      PartialSteps(rels, sv, num, n, |sv| - 1, 0);
    }
  }

  /** Package i is done: the same state, seen from the start of package i - 1. */
  lemma FillTurns(rels: seq<Reldep>, sv: seq<Solvable>, num: nat, counts: seq<nat>, ends: seq<nat>,
                  data: seq<nat>, wp: seq<nat>, i: nat, j: nat)
    requires Resolvable(rels, sv, num) && 1 <= i < |sv| && j <= |sv[i].provided|
    requires AllFilled(rels, sv, num, counts, ends, data, wp, i, j)
    requires !Eligible(sv[i]) || j == |sv[i].provided|
    ensures i > 1 ==> AllFilled(rels, sv, num, counts, ends, data, wp, i - 1, 0)
    ensures i == 1 ==> forall n :: 1 <= n < num ==> Filled(data, wp[n], ends[n], counts[n], 0, Providers(rels, sv, num, n))
  {
    hide Remaining, PartialProviders, BaseName, Filled;
    forall n | 1 <= n < num
      ensures i > 1 ==> Remaining(rels, sv, num, n, i - 1, 0) == Remaining(rels, sv, num, n, i, j)
      ensures i > 1 ==> PartialProviders(rels, sv, num, n, i - 1, 0) == PartialProviders(rels, sv, num, n, i, j)
      ensures i == 1 ==> Remaining(rels, sv, num, n, i, j) == 0
      ensures i == 1 ==> PartialProviders(rels, sv, num, n, i, j) == Providers(rels, sv, num, n)
    {
      RemainingSteps(rels, sv, num, n, i, j);
      PartialSteps(rels, sv, num, n, i, j);
      if i > 1 {
        RemainingSteps(rels, sv, num, n, i - 1, 0);
        PartialSteps(rels, sv, num, n, i - 1, 0);
      }
    }
  }

  /** Third pass: put each package in front of the lists of the names it provides, last package first. */
  method FillData(rels: seq<Reldep>, sv: seq<Solvable>, num: nat, counts: seq<nat>, ends: seq<nat>, off: nat, size: nat)
    returns (wp: seq<nat>, data: seq<nat>)
    requires Resolvable(rels, sv, num) && |counts| == num && Regions(counts, ends, off) && off <= size
    requires forall n :: 0 <= n < num ==> counts[n] == Total(rels, sv, num, n)
    ensures |wp| == num && |data| == size
    ensures forall n :: 1 <= n < num ==> Filled(data, wp[n], ends[n], counts[n], 0, Providers(rels, sv, num, n))
    ensures forall k :: 0 <= k < size && (k < 2 || k >= off) ==> data[k] == 0
  {
    hide Regions, BaseName, Filled, Count;
    data := seq(size, _ => 0);
    wp := ends;
    if |sv| == 1 {
      NoPackages(rels, sv, num, counts, ends, off, data);
      return;
    }
    FillStarts(rels, sv, num, counts, ends, off, data);
    var i := |sv| - 1;
    RegionsBound(counts, ends, off);
    while i > 0
      invariant 0 <= i < |sv| && |data| == size && |wp| == num
      invariant i > 0 ==> AllFilled(rels, sv, num, counts, ends, data, wp, i, 0)
      invariant i == 0 ==> forall n :: 1 <= n < num ==> Filled(data, wp[n], ends[n], counts[n], 0, Providers(rels, sv, num, n))
      invariant forall k :: 0 <= k < size && (k < 2 || k >= off) ==> data[k] == 0
    {
      var j := 0;
      if Eligible(sv[i]) {
        while j < |sv[i].provided|
          invariant 0 <= j <= |sv[i].provided| && |data| == size
          invariant AllFilled(rels, sv, num, counts, ends, data, wp, i, j)
          invariant forall k :: 0 <= k < size && (k < 2 || k >= off) ==> data[k] == 0
        {
          var id := ResolveName(rels, sv[i].provided[j]);
          FillStep(rels, sv, num, counts, ends, off, data, wp, i, j);
          FillPlace(rels, sv, num, counts, ends, off, data, wp, i, j);
          var d := wp[id];
          if data[d] != i {
            data := data[d - 1 := i];
            wp := wp[id := d - 1];
          }
          j := j + 1;
        }
      }
      FillTurns(rels, sv, num, counts, ends, data, wp, i, j);
      i := i - 1;
    }
  }

  lemma RegionsBound(counts: seq<nat>, ends: seq<nat>, off: nat)
    requires Regions(counts, ends, off)
    ensures |ends| == |counts|
  {
  }

  /** The third pass only writes inside the regions. */
  lemma FillPlace(rels: seq<Reldep>, sv: seq<Solvable>, num: nat, counts: seq<nat>, ends: seq<nat>, off: nat,
                  data: seq<nat>, wp: seq<nat>, i: nat, j: nat)
    requires Resolvable(rels, sv, num) && 1 <= i < |sv| && j < |sv[i].provided| && Eligible(sv[i])
    requires Regions(counts, ends, off) && AllFilled(rels, sv, num, counts, ends, data, wp, i, j)
    ensures var id := BaseName(rels, sv[i].provided[j]); 1 <= id < num && 2 < wp[id] <= off
  {
    hide PartialProviders, CountIn, Remaining, Count, BaseName;
    var id := BaseName(rels, sv[i].provided[j]);
    RemainingSteps(rels, sv, num, id, i, j);
    assert Filled(data, wp[id], ends[id], counts[id], Remaining(rels, sv, num, id, i, j), PartialProviders(rels, sv, num, id, i, j));
  }

  lemma NoPackages(rels: seq<Reldep>, sv: seq<Solvable>, num: nat, counts: seq<nat>, ends: seq<nat>, off: nat, data: seq<nat>)
    requires Resolvable(rels, sv, num) && |sv| == 1 && |counts| == num && Regions(counts, ends, off) && off <= |data|
    requires forall n :: 0 <= n < num ==> counts[n] == Total(rels, sv, num, n)
    ensures |ends| == num
    ensures forall n :: 1 <= n < num ==> Filled(data, ends[n], ends[n], counts[n], 0, Providers(rels, sv, num, n))
  {
  }

  /** The zero-terminated list at an offset. */
  function ListAt(data: seq<nat>, o: nat): (l: seq<nat>)
    requires o <= |data|
    ensures o + |l| <= |data| && data[o..o + |l|] == l
    ensures forall k :: 0 <= k < |l| ==> l[k] != 0
    ensures o + |l| < |data| ==> data[o + |l|] == 0
    decreases |data| - o
  {
    if o == |data| || data[o] == 0 then [] else [data[o]] + ListAt(data, o + 1)
  }

  lemma {:induction false} ListAtIs(data: seq<nat>, o: nat, l: seq<nat>)
    requires o + |l| < |data| && data[o..o + |l|] == l && data[o + |l|] == 0 && forall k :: 0 <= k < |l| ==> l[k] != 0
    ensures ListAt(data, o) == l
    decreases |l|
  {
    if l != [] {
      assert data[o] == data[o..o + |l|][0] == l[0];
      assert data[o + 1..o + |l|] == data[o..o + |l|][1..];
      ListAtIs(data, o + 1, l[1..]);
    }
  }
}
