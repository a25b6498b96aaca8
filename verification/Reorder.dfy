/** Bringing the solvables read from an rpm database into order, in place (swap_solvables and the
 * "adapt order" loop of repo_add_rpmdb, ext/repo_rpmdb.c).
 */
module Reorder {
  import opened Bytes
  import opened Lexicographic
  import opened Pigeonhole
  import opened SatSort

  datatype Solvable = Solvable(name: nat, evr: nat, arch: nat)

  type Attrs = seq<nat>

  /** What belongs to one solvable: the solvable, its rpm database id and its pending attributes. */
  datatype Slot = Slot(solvable: Solvable, rpmdbid: Option<int>, attrs: Option<Attrs>)

  /** The arrays indexed by solvable: those of the pool, of the repository from start on, of its data from dataStart on. */
  class Tables {
    const solvables: array<Solvable>
    const rpmdbid: array?<int>
    const attrs: array?<Attrs>
    const start: nat
    const dataStart: nat

    constructor (solvables: array<Solvable>, rpmdbid: array?<int>, attrs: array?<Attrs>, start: nat, dataStart: nat)
      ensures this.solvables == solvables && this.rpmdbid == rpmdbid && this.attrs == attrs
      ensures this.start == start && this.dataStart == dataStart
    {
      this.solvables, this.rpmdbid, this.attrs := solvables, rpmdbid, attrs;
      this.start, this.dataStart := start, dataStart;
    }

    /** The arrays cover the solvables lo..hi-1. */
    predicate Covers(lo: nat, hi: nat) {
      && lo <= hi <= solvables.Length
      && (rpmdbid != null ==> start <= lo && hi <= start + rpmdbid.Length)
      && (attrs != null ==> dataStart <= lo && hi <= dataStart + attrs.Length)
    }

    ghost function Arrays(): set<object?> { {solvables as object, rpmdbid as object?, attrs as object?} }

    function At(p: nat): Slot
      requires Covers(p, p + 1)
      reads Arrays()
    {
      Slot(solvables[p], if rpmdbid == null then None else Some(rpmdbid[p - start]),
           if attrs == null then None else Some(attrs[p - dataStart]))
    }

    /** The slots from lo to hi - 1. */
    function Block(lo: nat, hi: nat): (r: seq<Slot>)
      requires Covers(lo, hi)
      reads Arrays()
      ensures |r| == hi - lo && forall p :: lo <= p < hi ==> r[p - lo] == At(p)
    {
      seq(hi - lo, k requires 0 <= k < hi - lo reads Arrays() => At(lo + k))
    }

    /** swap_solvables: everything that belongs to two solvables changes places. */
    method Swap(a: nat, b: nat, ghost lo: nat, ghost hi: nat)
      requires Covers(lo, hi) && lo <= a < hi && lo <= b < hi
      modifies Arrays()
      ensures Block(lo, hi) == old(Block(lo, hi))[a - lo := old(At(b))][b - lo := old(At(a))]
    {
      solvables[a], solvables[b] := solvables[b], solvables[a];
      if rpmdbid != null {
        rpmdbid[a - start], rpmdbid[b - start] := rpmdbid[b - start], rpmdbid[a - start];
      }
      if attrs != null {
        attrs[a - dataStart], attrs[b - dataStart] := attrs[b - dataStart], attrs[a - dataStart];
      }
    }
  }

  // ---- the chains ----

  /** Where the solvable that was at x has got to when the places below i are done: each of them passed on what it held. */
  function Follow(p: seq<nat>, i: nat, x: nat): nat
    requires i <= |p|
    decreases i - x
  {
    if x >= i || p[x] <= x then x else Follow(p, i, p[x])
  }

  /** One more place is done: what was there is now at j. */
  lemma {:induction false} FollowMore(p: seq<nat>, p': seq<nat>, i: nat, x: nat)
    requires i < |p| == |p'| && p'[..i] == p[..i] && p'[i] >= i && Follow(p, i, x) >= i
    ensures Follow(p', i + 1, x) == if Follow(p, i, x) == i then p'[i] else Follow(p, i, x)
    decreases i - x
  {
    assert forall k :: 0 <= k < i ==> p'[k] == p'[..i][k] == p[k];
    if x < i && p[x] > x { FollowMore(p, p', i, p[x]); }
  }

  /** now[q] tells which place the solvable in place q came from, at[x] where that of place x is now. */
  ghost predicate Tracks(now: seq<nat>, at: seq<nat>, n: nat) {
    && |now| == |at| == n
    && (forall q :: 0 <= q < n ==> now[q] < n && at[now[q]] == q)
    && (forall x :: 0 <= x < n ==> at[x] < n && now[at[x]] == x)
  }

  /** The places below i are final, and the chains of p lead to the rest. */
  ghost predicate Done(sorted: seq<nat>, p: seq<nat>, now: seq<nat>, i: nat) {
    && i <= |p| == |now| == |sorted|
    && (forall q :: 0 <= q < i ==> now[q] == sorted[q])
    && (forall q :: i <= q < |now| ==> Follow(p, i, now[q]) == q)
    && (forall q :: i <= q < |p| ==> p[q] == sorted[q])
  }

  /** Exchange places i and j in the record. */
  lemma TrackSwap(now: seq<nat>, at: seq<nat>, n: nat, i: nat, j: nat) returns (now': seq<nat>, at': seq<nat>)
    requires Tracks(now, at, n) && i < n && j < n
    ensures Tracks(now', at', n) && now' == now[i := now[j]][j := now[i]]
  {
    now' := now[i := now[j]][j := now[i]];
    at' := at[now[i] := j][now[j] := i];
  }

  ghost predicate IsPermutation(sorted: seq<nat>) {
    Distinct(sorted) && forall k :: 0 <= k < |sorted| ==> sorted[k] < |sorted|
  }

  /** The solvable wanted at place i is at the end of its chain, and that is not before i. */
  lemma ChainEnds(sorted: seq<nat>, p: seq<nat>, now: seq<nat>, at: seq<nat>, i: nat)
    requires IsPermutation(sorted) && Tracks(now, at, |sorted|) && Done(sorted, p, now, i) && i < |sorted|
    ensures i <= at[sorted[i]] < |sorted| && Follow(p, i, sorted[i]) == at[sorted[i]] && now[at[sorted[i]]] == sorted[i]
  {
    assert forall k :: 0 <= k < i ==> now[k] == sorted[k] != sorted[i];
  }

  /** The next place is done after the exchange with the end of the chain. */
  lemma DoneMore(sorted: seq<nat>, p: seq<nat>, p': seq<nat>, now: seq<nat>, i: nat, j: nat)
    requires Done(sorted, p, now, i) && i <= j < |sorted| && |p'| == |p|
    requires now[j] == sorted[i] && p' == p[i := j]
    ensures Done(sorted, p', now[i := now[j]][j := now[i]], i + 1)
  {
    var now' := now[i := now[j]][j := now[i]];
    forall q | i + 1 <= q < |now| ensures Follow(p', i + 1, now'[q]) == q {
      var x := now'[q];
      assert x == if q == j then now[i] else now[q];
      assert Follow(p, i, x) == if q == j then i else q;
      FollowMore(p, p', i, x);
    }
  }

  /** Follow the chain of place i: the index grows with every step, and the end is remembered in place i. */
  method Resolve(pkgids: array<nat>, i: nat, ghost end: nat) returns (j: nat)
    requires i < pkgids.Length && i <= end && Follow(pkgids[..], i, pkgids[i]) == end
    modifies pkgids
    ensures j == end && pkgids[..] == old(pkgids[..])[i := end]
  {
    ghost var p := pkgids[..];
    j := pkgids[i];
    while j < i
      invariant Follow(p, i, j) == end && pkgids[..] == p[i := j]
      decreases i - j
    {
      pkgids[i] := pkgids[j];
      j := pkgids[i];
    }
  }

  /** The slots in the places that the record says. */
  ghost function Arranged(slots: seq<Slot>, now: seq<nat>): (r: seq<Slot>)
    requires |now| == |slots| && forall q :: 0 <= q < |now| ==> now[q] < |slots|
    ensures |r| == |now| && forall q :: 0 <= q < |now| ==> r[q] == slots[now[q]]
  {
    seq(|now|, q requires 0 <= q < |now| => slots[now[q]])
  }

  ghost predicate Places(slots: seq<Slot>, now: seq<nat>, block: seq<Slot>) {
    && |now| == |slots| && (forall q :: 0 <= q < |now| ==> now[q] < |slots|)
    && block == Arranged(slots, now)
  }

  lemma PlacesSwap(slots: seq<Slot>, now: seq<nat>, block: seq<Slot>, i: nat, j: nat)
    requires Places(slots, now, block) && i < |now| && j < |now|
    ensures Places(slots, now[i := now[j]][j := now[i]], block[i := block[j]][j := block[i]])
  {
  }

  /** Exchange two places and what the record says of them; nothing happens if they are the same. */
  method SwapPlaces(t: Tables, ghost lo: nat, ghost n: nat, a: nat, b: nat, ghost i: nat, ghost j: nat, ghost slots: seq<Slot>, ghost now: seq<nat>)
    requires t.Covers(lo, lo + n) && i < n && j < n && a == lo + i && b == lo + j
    requires Places(slots, now, t.Block(lo, lo + n)) && |now| == n
    modifies t.Arrays()
    ensures Places(slots, now[i := now[j]][j := now[i]], t.Block(lo, lo + n))
  {
    hide Places;
    ghost var block := t.Block(lo, lo + n);
    PlacesSwap(slots, now, block, i, j);
    if a != b {
      t.Swap(a, b, lo, lo + n);
    } else {
      assert block[i := block[j]][j := block[i]] == block;
    }
  }

  /** One turn of the loop. */
  method AdaptPlace(t: Tables, pkgids: array<nat>, lo: nat, i: nat, ghost sorted: seq<nat>, ghost slots: seq<Slot>,
                    ghost now0: seq<nat>, ghost at0: seq<nat>)
    returns (ghost now: seq<nat>, ghost at: seq<nat>)
    requires t.Covers(lo, lo + pkgids.Length) && pkgids !in t.Arrays() && i < pkgids.Length == |sorted|
    requires IsPermutation(sorted) && Tracks(now0, at0, |sorted|) && Done(sorted, pkgids[..], now0, i)
    requires Places(slots, now0, t.Block(lo, lo + pkgids.Length))
    modifies t.Arrays(), pkgids
    ensures Tracks(now, at, |sorted|) && Done(sorted, pkgids[..], now, i + 1)
    ensures Places(slots, now, t.Block(lo, lo + pkgids.Length))
  {
    ghost var p, block := pkgids[..], t.Block(lo, lo + pkgids.Length);
    assert pkgids[i] == sorted[i] && |now0| == |sorted|;
    hide Tracks, Done, Places, IsPermutation;
    ChainEnds(sorted, p, now0, at0, i);
    var j := Resolve(pkgids, i, at0[sorted[i]]);
    assert t.Block(lo, lo + pkgids.Length) == block;
    DoneMore(sorted, p, pkgids[..], now0, i, j);
    now, at := TrackSwap(now0, at0, |sorted|, i, j);
    SwapPlaces(t, lo, pkgids.Length, lo + i, lo + j, i, j, slots, now0);
  }

  /** The "adapt order" loop: put the solvables of lo..lo+n-1 into the order that pkgids says. */
  method AdaptOrder(t: Tables, pkgids: array<nat>, lo: nat)
    requires IsPermutation(pkgids[..]) && t.Covers(lo, lo + pkgids.Length)
    requires pkgids !in t.Arrays()
    modifies t.Arrays(), pkgids
    ensures forall i :: 0 <= i < pkgids.Length ==>
      t.Block(lo, lo + pkgids.Length)[i] == old(t.Block(lo, lo + pkgids.Length))[old(pkgids[i])]
  {
    ghost var n, sorted, slots := pkgids.Length, pkgids[..], t.Block(lo, lo + pkgids.Length);
    ghost var now: seq<nat>, at: seq<nat> := seq(n, q requires 0 <= q < n => q), seq(n, q requires 0 <= q < n => q);
    assert slots == Arranged(slots, now);
    var i := 0;
    while i < pkgids.Length
      invariant i <= n && Tracks(now, at, n) && Done(sorted, pkgids[..], now, i)
      invariant Places(slots, now, t.Block(lo, lo + n))
    {
      hide Tracks, Done, Places;
      now, at := AdaptPlace(t, pkgids, lo, i, sorted, slots, now, at);
      i := i + 1;
    }
  }

  // ---- the order ----

  /** Solvables of the same name by their rpm database id, others by the bytes of the name (pkgids_sort_cmp). */
  function SlotCmp(strings: seq<seq<int>>, a: Slot, b: Slot): int {
    if a.solvable.name != b.solvable.name then
      if a.solvable.name < |strings| && b.solvable.name < |strings| then
        Lex(strings[a.solvable.name], strings[b.solvable.name])
      else a.solvable.name - b.solvable.name
    else if a.rpmdbid.Some? && b.rpmdbid.Some? then a.rpmdbid.value - b.rpmdbid.value
    else 0
  }

  /** Names are strings of the pool, which holds no string twice, and every solvable has a database id. */
  ghost predicate Named(strings: seq<seq<int>>, slots: seq<Slot>) {
    Distinct(strings) && forall k :: 0 <= k < |slots| ==> slots[k].solvable.name < |strings| && slots[k].rpmdbid.Some?
  }

  ghost predicate IsPlace(x: nat, n: nat) { x < n }

  ghost function AllPlaces(n: nat): iset<nat> { iset x: nat | IsPlace(x, n) }

  function PlaceCmp(strings: seq<seq<int>>, slots: seq<Slot>, x: nat, y: nat): int {
    if x < |slots| && y < |slots| then SlotCmp(strings, slots[x], slots[y]) else 0
  }

  lemma SlotTrans(strings: seq<seq<int>>, a: Slot, b: Slot, c: Slot)
    requires Named(strings, [a, b, c]) && SlotCmp(strings, a, b) <= 0 && SlotCmp(strings, b, c) <= 0
    ensures SlotCmp(strings, a, c) <= 0
  {
    assert [a, b, c][0] == a && [a, b, c][1] == b && [a, b, c][2] == c;
    var x, y, z := strings[a.solvable.name], strings[b.solvable.name], strings[c.solvable.name];
    LexAnti(x, y);
    LexAnti(y, z);
    LexAnti(x, z);
    LexTrans(x, y, z);
  }

  lemma SlotAnti(strings: seq<seq<int>>, a: Slot, b: Slot)
    requires Named(strings, [a, b])
    ensures SlotCmp(strings, a, b) < 0 <==> SlotCmp(strings, b, a) > 0
  {
    assert [a, b][0] == a && [a, b][1] == b;
    LexAnti(strings[a.solvable.name], strings[b.solvable.name]);
  }

  lemma PlacePreorder(strings: seq<seq<int>>, slots: seq<Slot>)
    requires Named(strings, slots)
    ensures PreorderOn((x: nat, y: nat) => PlaceCmp(strings, slots, x, y), AllPlaces(|slots|))
  {
    hide SlotCmp;
    var cmp := (x: nat, y: nat) => PlaceCmp(strings, slots, x, y);
    var S := AllPlaces(|slots|);
    forall x, y | x in S && y in S ensures cmp(x, y) < 0 <==> cmp(y, x) > 0 {
      assert IsPlace(x, |slots|) && IsPlace(y, |slots|);
      SlotAnti(strings, slots[x], slots[y]);
    }
    forall x, y, z | x in S && y in S && z in S && cmp(x, y) <= 0 && cmp(y, z) <= 0 ensures cmp(x, z) <= 0 {
      assert IsPlace(x, |slots|) && IsPlace(y, |slots|) && IsPlace(z, |slots|);
      SlotTrans(strings, slots[x], slots[y], slots[z]);
    }
  }

  lemma SortedPermutation(id: seq<nat>, s: seq<nat>)
    requires multiset(id) == multiset(s) && forall k :: 0 <= k < |id| ==> id[k] == k
    ensures IsPermutation(s) && |s| == |id|
  {
    assert |s| == |multiset(s)| == |multiset(id)| == |id|;
    PermutedDistinct(id, s);
    forall k | 0 <= k < |s| ensures s[k] < |s| {
      assert s[k] in multiset(s);
      assert s[k] in id;
    }
  }

  /** Sort the new solvables lo..hi-1 by name and database id, each keeping what belongs to it. */
  method SortSolvables(t: Tables, strings: seq<seq<int>>, lo: nat, hi: nat) returns (ghost order: seq<nat>)
    requires t.Covers(lo, hi) && Named(strings, t.Block(lo, hi))
    modifies t.Arrays()
    ensures |order| == hi - lo && IsPermutation(order)
    ensures forall i :: 0 <= i < hi - lo ==> t.Block(lo, hi)[i] == old(t.Block(lo, hi))[order[i]]
    ensures forall i, j :: 0 <= i < j < hi - lo ==> SlotCmp(strings, t.Block(lo, hi)[i], t.Block(lo, hi)[j]) <= 0
  {
    hide SlotCmp, Named;
    order := seq(hi - lo, k requires 0 <= k < hi - lo => k);
    if hi - lo > 1 {
      var slots := t.Block(lo, hi);
      var pkgids := new nat[hi - lo](k => k);
      SortPlaces(strings, slots, pkgids);
      order := pkgids[..];
      assert t.Block(lo, hi) == slots;
      forall i, j | 0 <= i < j < hi - lo ensures SlotCmp(strings, slots[order[i]], slots[order[j]]) <= 0 {
        assert PlaceCmp(strings, slots, order[i], order[j]) <= 0;
      }
      AdaptOrder(t, pkgids, lo);
    }
  }

  method SortPlaces(strings: seq<seq<int>>, slots: seq<Slot>, pkgids: array<nat>)
    requires Named(strings, slots) && pkgids.Length == |slots| && forall k :: 0 <= k < |slots| ==> pkgids[k] == k
    modifies pkgids
    ensures IsPermutation(pkgids[..])
    ensures forall i, j :: 0 <= i < j < |slots| ==> PlaceCmp(strings, slots, pkgids[i], pkgids[j]) <= 0
  {
    hide Named, PlaceCmp, PreorderOn;
    ghost var id := pkgids[..];
    PlacePreorder(strings, slots);
    var cmp := (x: nat, y: nat) => PlaceCmp(strings, slots, x, y);
    forall k | 0 <= k < pkgids.Length ensures pkgids[k] in AllPlaces(|slots|) { assert IsPlace(pkgids[k], |slots|); }
    Sort(pkgids, 0, pkgids.Length, cmp, AllPlaces(|slots|));
    SortedPermutation(id, pkgids[..]);
    forall i, j | 0 <= i < j < |slots| ensures PlaceCmp(strings, slots, pkgids[i], pkgids[j]) <= 0 {
      assert cmp(pkgids[i], pkgids[j]) <= 0;
    }
  }
}
