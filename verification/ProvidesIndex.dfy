/** The provider index of a pool: offsets into one array of zero-terminated lists (src/pool.c). */
module ProvidesIndex {
  import opened PoolId
  import opened WhatProvides
  import opened ShrinkProvides

  /** The list at an offset ends before off. */
  ghost predicate ListWithin(data: seq<nat>, o: nat, off: nat) {
    off <= |data| && o <= |data| && o + |ListAt(data, o)| < off
  }

  class Index {
    var whatprovides: seq<nat>         // name -> offset of its list; 0: no providers
    var whatprovidesRel: seq<nat>      // relation -> offset of its list; 0: not computed yet
    var whatprovidesdata: seq<nat>     // zero-terminated lists; offsets 0 and 1 are the empty list
    var whatprovidesdataoff: nat       // next free slot
    var whatprovidesdataleft: nat      // free slots from there on

    ghost predicate Valid()
      reads this
    {
      && |whatprovidesdata| == whatprovidesdataoff + whatprovidesdataleft
      && 2 <= whatprovidesdataoff && whatprovidesdata[0] == 0 && whatprovidesdata[1] == 0
      && (forall n :: 1 <= n < |whatprovides| ==> ListWithin(whatprovidesdata, whatprovides[n], whatprovidesdataoff))
      && (forall v :: 0 <= v < |whatprovidesRel| ==> ListWithin(whatprovidesdata, whatprovidesRel[v], whatprovidesdataoff))
    }

    constructor ()
      ensures Valid() && whatprovides == []
    {
      whatprovides, whatprovidesRel := [], [];
      whatprovidesdata, whatprovidesdataoff, whatprovidesdataleft := [0, 0], 2, 0;
    }

    /** Index all eligible packages: every name gets exactly the list of its providers, in ascending order,
     * and two names share a list exactly when their providers are the same. */
    method CreateWhatProvides(rels: seq<Reldep>, sv: seq<Solvable>, num: nat)
      requires Resolvable(rels, sv, num) && num >= 1
      modifies this
      ensures Valid() && |whatprovides| == num && whatprovidesRel == seq(|rels|, _ => 0)
      ensures forall n :: 1 <= n < num ==> ListAt(whatprovidesdata, whatprovides[n]) == Providers(rels, sv, num, n)
      ensures forall m, n :: 1 <= m < n < num ==>
        (whatprovides[m] == whatprovides[n] <==> Providers(rels, sv, num, m) == Providers(rels, sv, num, n))
    {
      hide Regions, PlacedAt, Providers, Resolvable;
      var counts := CountNames(rels, sv, num);
      var ends, off := PlaceRegions(counts);
      var extra := if 2 * |rels| < 256 then 256 else 2 * |rels|;
      var wp, data := FillData(rels, sv, num, counts, ends, off, off + extra);
      ghost var lists := seq(num, n requires 0 <= n < num => if n == 0 then [] else Providers(rels, sv, num, n));
      FilledIsPlaced(rels, sv, num, counts, ends, off, wp, data, lists);
      RegionsOff(counts, ends, off);
      whatprovides, whatprovidesRel := wp, seq(|rels|, _ => 0);
      whatprovidesdata, whatprovidesdataoff, whatprovidesdataleft := data, off, extra;
      ShrinkWhatProvides(lists);
    }

    /** Unify and compact the lists. No list changes its contents, names share an offset exactly when
     * their lists are equal, and the data never grows. */
    method ShrinkWhatProvides(ghost lists: seq<seq<nat>>)
      requires forall v :: 0 <= v < |whatprovidesRel| ==> whatprovidesRel[v] == 0
      requires |whatprovides| >= 1 && |whatprovidesdata| == whatprovidesdataoff + whatprovidesdataleft
      requires 2 <= whatprovidesdataoff && whatprovidesdata[0] == 0 && whatprovidesdata[1] == 0
      requires Placed(whatprovides, whatprovidesdata, lists) && InOrder(whatprovides, lists)
      requires forall n :: 1 <= n < |whatprovides| && lists[n] != [] ==> whatprovides[n] + |lists[n]| < whatprovidesdataoff
      modifies this
      ensures Valid() && |whatprovides| == old(|whatprovides|) && whatprovidesRel == old(whatprovidesRel)
      ensures whatprovidesdataoff <= old(whatprovidesdataoff) && whatprovidesdataleft == old(whatprovidesdataleft)
      ensures forall n :: 1 <= n < |whatprovides| ==> ListAt(whatprovidesdata, whatprovides[n]) == lists[n]
      ensures forall m, n :: 1 <= m < n < |whatprovides| ==> (whatprovides[m] == whatprovides[n] <==> lists[m] == lists[n])
    {
      hide PlacedAt, ListAt;
      AllPlaced(whatprovidesdata, whatprovides, lists, whatprovidesdataoff);
      EmptyAtZero(whatprovidesdata, whatprovidesdataoff);
      if |whatprovides| < 3 { return; }
      var u := Unify(whatprovides, whatprovidesdata, lists);
      var w, moved, o := Compact(whatprovides, lists, u, whatprovidesdata, whatprovidesdataoff);
      NamesShare(whatprovides, lists, u, w, moved, o);
      CutOff(moved, moved, w, lists, o);
      EmptyAtZero(moved, o);
      if whatprovidesdataoff == o {
        whatprovides, whatprovidesdata := w, moved;
        return;
      }
      var r := whatprovidesdataoff - o;
      if r > whatprovidesdataleft { r := whatprovidesdataleft; }
      ghost var kept := moved;
      moved := moved[..o] + seq(r, _ => 0) + moved[o + r..o + whatprovidesdataleft];
      CutOff(kept, moved, w, lists, o);
      EmptyAtZero(moved, o);
      whatprovides, whatprovidesdata, whatprovidesdataoff := w, moved, o;
    }

    /** Append the contents of a queue as a new list; the empty queue needs none. No list there is changes. */
    method QueueToWhatProvides(q: seq<nat>) returns (off: nat)
      requires Valid() && NoZero(q)
      modifies `whatprovidesdata, `whatprovidesdataoff, `whatprovidesdataleft
      ensures Valid() && off != 0 && ListWithin(whatprovidesdata, off, whatprovidesdataoff)
      ensures ListAt(whatprovidesdata, off) == q
      ensures old(whatprovidesdataoff) <= whatprovidesdataoff
      ensures whatprovidesdata[..old(whatprovidesdataoff)] == old(whatprovidesdata[..whatprovidesdataoff])
    {
      hide ListAt;
      var count := |q|;
      if count == 0 {
        EmptyAtZero(whatprovidesdata, whatprovidesdataoff);
        return 1;
      }
      ghost var before, o := whatprovidesdata, whatprovidesdataoff;
      if whatprovidesdataleft < count + 1 {
        whatprovidesdata := whatprovidesdata[..whatprovidesdataoff] + seq(count + 4096, _ => 0);
        whatprovidesdataleft := count + 4096;
      }
      off := whatprovidesdataoff;
      whatprovidesdata := whatprovidesdata[..off] + q + [0] + whatprovidesdata[off + count + 1..];
      whatprovidesdataoff := off + count + 1;
      whatprovidesdataleft := whatprovidesdataleft - (count + 1);
      assert whatprovidesdata[..o] == before[..o];
      assert whatprovidesdata[0] == before[..o][0] && whatprovidesdata[1] == before[..o][1];
      ListAtIs(whatprovidesdata, off, q);
      forall n | 1 <= n < |whatprovides| ensures ListWithin(whatprovidesdata, whatprovides[n], whatprovidesdataoff) {
        ListKept(before, whatprovidesdata, whatprovides[n], o);
      }
      forall v | 0 <= v < |whatprovidesRel| ensures ListWithin(whatprovidesdata, whatprovidesRel[v], whatprovidesdataoff) {
        ListKept(before, whatprovidesdata, whatprovidesRel[v], o);
      }
    }
  }

  lemma EmptyAtZero(data: seq<nat>, off: nat)
    requires 2 <= off <= |data| && data[0] == 0 && data[1] == 0
    ensures ListAt(data, 0) == [] && ListAt(data, 1) == [] && ListWithin(data, 0, off) && ListWithin(data, 1, off)
  {
  }

  /** A list that ends before off only depends on the data before off. */
  lemma ListKept(data: seq<nat>, data': seq<nat>, o: nat, off: nat)
    requires ListWithin(data, o, off) && off <= |data'| && data'[..off] == data[..off]
    ensures o <= |data'| && ListAt(data', o) == ListAt(data, o) && ListWithin(data', o, off)
  {
    hide ListAt;
    var l := ListAt(data, o);
    var e := o + |l|;
    assert data'[o..e] == data'[..off][o..e];
    assert data[o..e] == data[..off][o..e];
    assert data'[e] == data'[..off][e] && data[e] == data[..off][e];
    ListAtIs(data', o, l);
  }

  /** The third pass leaves lists that are placed in the order of the names. */
  lemma FilledIsPlaced(rels: seq<Reldep>, sv: seq<Solvable>, num: nat, counts: seq<nat>, ends: seq<nat>, off: nat,
                       wp: seq<nat>, data: seq<nat>, lists: seq<seq<nat>>)
    requires Resolvable(rels, sv, num) && |counts| == num >= 1 && Regions(counts, ends, off) && |wp| == |lists| == num
    requires 2 <= off <= |data| && data[0] == 0
    requires forall n :: 1 <= n < num ==> lists[n] == Providers(rels, sv, num, n) && counts[n] == Total(rels, sv, num, n)
    requires forall n :: 1 <= n < num ==> Filled(data, wp[n], ends[n], counts[n], 0, lists[n])
    ensures Placed(wp, data, lists) && InOrder(wp, lists)
    ensures forall n :: 1 <= n < num && lists[n] != [] ==> wp[n] + |lists[n]| < off
  {
    hide Count, Filled, Regions, PlacedAt;
    RegionsOrder(counts, ends, off);
    forall n | 1 <= n < num
      ensures PlacedAt(data, wp[n], lists[n])
      ensures lists[n] != [] ==> counts[n] > 0 && wp[n] + |lists[n]| == ends[n] <= wp[n] + counts[n]
    {
      ProvidersExact(rels, sv, num, n, 1);
      if counts[n] > 0 { CountedIsProvided(rels, sv, num, n, |sv| - 1); }
      FilledPlaced(data, wp[n], ends[n], counts[n], lists[n]);
    }
  }

  lemma FilledPlaced(data: seq<nat>, w: nat, end: nat, count: nat, list: seq<nat>)
    requires Filled(data, w, end, count, 0, list) && (count > 0 ==> list != []) && (forall k :: k in list ==> 1 <= k)
    ensures PlacedAt(data, w, list)
    ensures list != [] ==> count > 0 && w + |list| == end <= w + count
  {
    forall k | 0 <= k < |list| ensures list[k] != 0 { assert list[k] in list; }
  }

  lemma RegionsOrder(counts: seq<nat>, ends: seq<nat>, off: nat)
    requires Regions(counts, ends, off)
    ensures |ends| == |counts|
    ensures forall n :: 0 <= n < |counts| && counts[n] > 0 ==> ends[n] < off
    ensures forall m, n :: 0 <= m < n < |counts| && counts[m] > 0 && counts[n] > 0 ==> ends[m] + counts[n] < ends[n]
  {
  }

  /** A counted name has a provider. */
  lemma {:induction false} CountedIsProvided(rels: seq<Reldep>, sv: seq<Solvable>, num: nat, n: nat, i: nat)
    requires Resolvable(rels, sv, num) && i < |sv| && Count(rels, sv, num, n, i) > 0
    ensures Providers(rels, sv, num, n) != []
    decreases i
  {
    if Count(rels, sv, num, n, i - 1) > 0 {
      CountedIsProvided(rels, sv, num, n, i - 1);
    } else {
      CountedIffProvided(rels, sv[i].provided, n, 0);
      var k :| 0 <= k < |sv[i].provided| && BaseName(rels, sv[i].provided[k]) == n;
      assert Provides(rels, sv, num, i, n);
      ProvidersExact(rels, sv, num, n, 1);
    }
  }

  lemma AllPlaced(data: seq<nat>, wp: seq<nat>, lists: seq<seq<nat>>, off: nat)
    requires Placed(wp, data, lists) && 2 <= off <= |data|
    requires forall n :: 1 <= n < |wp| && lists[n] != [] ==> wp[n] + |lists[n]| < off
    ensures forall n :: 1 <= n < |wp| ==> wp[n] <= |data| && ListAt(data, wp[n]) == lists[n] && ListWithin(data, wp[n], off)
  {
    hide ListAt;
    forall n | 1 <= n < |wp| ensures wp[n] <= |data| && ListAt(data, wp[n]) == lists[n] && ListWithin(data, wp[n], off) {
      assert PlacedAt(data, wp[n], lists[n]);
      PlacedList(data, wp[n], lists[n]);
    }
  }

  /** Cutting the data off behind the lists, and clearing what follows, does not change them. */
  lemma CutOff(data: seq<nat>, data': seq<nat>, w: seq<int>, lists: seq<seq<nat>>, o: nat)
    requires |w| == |lists| && 2 <= o <= |data| && o <= |data'| && data'[..o] == data[..o] && data[0] == 0 && data[1] == 0
    requires forall n :: 1 <= n < |w| ==> MovedBelow(data, w[n], lists[n], o)
    ensures data'[0] == 0 && data'[1] == 0
    ensures forall n :: 1 <= n < |w| ==> 0 <= w[n] <= |data'| && ListAt(data', w[n]) == lists[n] && ListWithin(data', w[n], o)
  {
    hide ListAt, MovedBelow, ListWithin;
    assert data'[0] == data'[..o][0] && data'[1] == data'[..o][1];
    forall n | 1 <= n < |w|
      ensures 0 <= w[n] <= |data'| && ListAt(data', w[n]) == lists[n] && ListWithin(data', w[n], o)
    {
      assert MovedBelow(data, w[n], lists[n], o);
      CutOne(data, data', w[n], lists[n], o);
    }
  }

  lemma CutOne(data: seq<nat>, data': seq<nat>, a: int, list: seq<nat>, o: nat)
    requires 2 <= o <= |data| && o <= |data'| && data'[..o] == data[..o] && data'[0] == 0
    requires MovedBelow(data, a, list, o)
    ensures 0 <= a <= |data'| && ListAt(data', a) == list && ListWithin(data', a, o)
  {
    hide ListAt;
    if list != [] {
      var e := a + |list|;
      assert forall k :: 0 <= k < o ==> data'[k] == data'[..o][k] == data[..o][k] == data[k];
      assert data'[a..e] == data[a..e];
    }
    PlacedList(data', a, list);
  }

  /** Two names share an offset exactly when their lists are equal. */
  lemma NamesShare(wp: seq<nat>, lists: seq<seq<nat>>, u: seq<int>, w: seq<int>, data: seq<nat>, o: nat)
    requires |wp| == |lists| == |u| == |w| && |data| >= 2 && data[0] == 0
    requires forall n :: 1 <= n < |u| ==> Unified(wp, lists, u, n)
    requires forall n :: 1 <= n < |w| ==> MovedBelow(data, w[n], lists[n], o)
    requires forall n :: 1 <= n < |w| && u[n] < 0 ==> 1 <= -u[n] < n && w[n] == w[-u[n]]
    ensures forall m, n :: 1 <= m < n < |w| ==> (w[m] == w[n] <==> lists[m] == lists[n])
  {
    hide PlacedAt, ListAt;
    forall m, n | 1 <= m < n < |w| ensures w[m] == w[n] <==> lists[m] == lists[n] {
      assert MovedBelow(data, w[m], lists[m], o) && MovedBelow(data, w[n], lists[n], o);
      PlacedList(data, w[m], lists[m]);
      PlacedList(data, w[n], lists[n]);
      PlacedOffset(data, w[m], lists[m]);
      PlacedOffset(data, w[n], lists[n]);
      assert Unified(wp, lists, u, m) && Unified(wp, lists, u, n);
      if lists[m] == lists[n] != [] {
        assert u[n] < 0;
        var i, j := if u[m] < 0 then -u[m] else m, -u[n];
        assert Unified(wp, lists, u, i) && Unified(wp, lists, u, j);
      }
    }
  }

  lemma RegionsOff(counts: seq<nat>, ends: seq<nat>, off: nat)
    requires Regions(counts, ends, off)
    ensures off >= 2
  {
  }
}
