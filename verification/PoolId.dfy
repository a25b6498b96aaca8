/** Hash-consed relations (pool_rel2id, src/poolid.c). */
module PoolId {
  import opened HashChain
  import opened Pigeonhole

  const REL_BLOCK: nat := 1023

  /** A relation id has the top bit set. */
  function MakeRelDep(id: nat): nat { id + 0x8000_0000 }

  predicate IsRelDep(id: nat) { id >= 0x8000_0000 }

  function RelIndex(id: nat): nat
    requires IsRelDep(id)
  {
    id - 0x8000_0000
  }

  datatype Reldep = Reldep(name: nat, evr: nat, flags: nat)

  /** The sum name + 7 evr + 13 flags in 32-bit arithmetic. */
  function Relhash(d: Reldep): nat { (d.name + 7 * d.evr + 13 * d.flags) % 0x1_0000_0000 }

  function Start(d: Reldep, n: nat): (r: nat)
    requires n >= 1
    ensures r < n
  {
    Relhash(d) % n
  }

  /** The first t slots on d's probe sequence are taken. */
  ghost predicate Taken(tbl: seq<nat>, d: Reldep, t: nat)
    requires |tbl| >= 1
  {
    forall u :: 0 <= u < t ==> tbl[Probe(Start(d, |tbl|), u, |tbl|)] != 0
  }

  /** Relation i is found after t steps on its probe sequence. */
  ghost predicate StoredAt(tbl: seq<nat>, rels: seq<Reldep>, i: nat, t: nat)
    requires |tbl| >= 1 && i < |rels|
  {
    tbl[Probe(Start(rels[i], |tbl|), t, |tbl|)] == i && Taken(tbl, rels[i], t)
  }

  ghost predicate Stored(tbl: seq<nat>, rels: seq<Reldep>, i: nat)
    requires |tbl| >= 1 && i < |rels|
  {
    exists t: nat :: StoredAt(tbl, rels, i, t)
  }

  /** The table of 2^k slots holds exactly the relations 1..upto-1, each where probing finds it. */
  ghost predicate Table(tbl: seq<nat>, k: nat, rels: seq<Reldep>, upto: nat) {
    && 2 <= k && |tbl| == Pow2(k) && upto <= |rels|
    && (forall h :: 0 <= h < |tbl| ==> tbl[h] < upto)
    && (forall g, h :: 0 <= g < h < |tbl| && tbl[g] != 0 ==> tbl[g] != tbl[h])
    && (forall i :: 1 <= i < upto ==> Stored(tbl, rels, i))
  }

  /** A table with more slots than relations has a free slot, and every probe sequence reaches it in time. */
  lemma FreeSlotAhead(tbl: seq<nat>, k: nat, rels: seq<Reldep>, upto: nat, d: Reldep) returns (t: nat)
    requires Table(tbl, k, rels, upto) && upto < |tbl|
    ensures t < 2 * |tbl| && tbl[Probe(Start(d, |tbl|), t, |tbl|)] == 0
  {
    if forall h :: 0 <= h < |tbl| ==> tbl[h] != 0 {
      DistinctBound(tbl, upto);
    }
    var x :| 0 <= x < |tbl| && tbl[x] == 0;
    t := ProbeCovers(Start(d, |tbl|), k, x);
  }

  /** Entering the next relation into the first free slot on its probe sequence. */
  lemma EnterKeeps(tbl: seq<nat>, k: nat, rels: seq<Reldep>, upto: nat, h: nat, t: nat)
    requires Table(tbl, k, rels, upto) && 1 <= upto < |rels| && h < |tbl|
    requires h == Probe(Start(rels[upto], |tbl|), t, |tbl|) && tbl[h] == 0 && Taken(tbl, rels[upto], t)
    ensures Table(tbl[h := upto], k, rels, upto + 1)
  {
    hide Probe, Relhash, Pow2;
    var tbl' := tbl[h := upto];
    forall i | 1 <= i < upto + 1 ensures Stored(tbl', rels, i) {
      var u: nat := t;
      if i < upto { assert Stored(tbl, rels, i); u :| StoredAt(tbl, rels, i, u); }
      assert StoredAt(tbl', rels, i, u);
    }
  }

  /** If probing for d meets a free slot before any equal relation, no stored relation equals d. */
  lemma NotStored(tbl: seq<nat>, k: nat, rels: seq<Reldep>, upto: nat, d: Reldep, t: nat)
    requires Table(tbl, k, rels, upto)
    requires tbl[Probe(Start(d, |tbl|), t, |tbl|)] == 0
    requires forall u :: 0 <= u < t ==> rels[tbl[Probe(Start(d, |tbl|), u, |tbl|)]] != d
    ensures forall i :: 1 <= i < upto ==> rels[i] != d
  {
    hide Probe, Relhash, Pow2;
    var entry := tbl[Probe(Start(d, |tbl|), t, |tbl|)];
    forall i | 1 <= i < upto ensures rels[i] != d {
      assert Stored(tbl, rels, i);
      var u: nat :| StoredAt(tbl, rels, i, u);
      assert rels[i] == d && u > t ==> entry != 0;
    }
  }

  /** Relations are pairwise different. */
  ghost predicate HashConsed(rels: seq<Reldep>) {
    forall i, j :: 1 <= i < j < |rels| ==> rels[i] != rels[j]
  }

  class RelPool {
    var rels: seq<Reldep>     // rels[0] is unused
    var hashtbl: seq<nat>
    ghost var k: nat

    ghost predicate Valid()
      reads this
    {
      && 1 <= |rels| && HashConsed(rels)
      && (hashtbl == [] || Table(hashtbl, k, rels, |rels|))
    }

    /** relhashmask, 0 when there is no table yet. */
    function Mask(): nat
      reads this
    {
      if hashtbl == [] then 0 else |hashtbl| - 1
    }

    constructor ()
      ensures Valid() && rels == [Reldep(0, 0, 0)]
    {
      rels, hashtbl, k := [Reldep(0, 0, 0)], [], 0;
    }

    /** Probe for d until it or a free slot is found; this takes fewer than twice the table size steps. */
    method Lookup(d: Reldep) returns (h: nat, id: nat, ghost t: nat)
      requires Valid() && hashtbl != [] && |rels| < |hashtbl|
      ensures h < |hashtbl| && id == hashtbl[h] && t < 2 * |hashtbl|
      ensures h == Probe(Start(d, |hashtbl|), t, |hashtbl|) && Taken(hashtbl, d, t)
      ensures id != 0 ==> id < |rels| && rels[id] == d
      ensures id == 0 ==> forall i :: 1 <= i < |rels| ==> rels[i] != d
    {
      hide Pow2, Relhash;
      var n := |hashtbl|;
      ghost var free := FreeSlotAhead(hashtbl, k, rels, |rels|, d);
      h, t := Start(d, n), 0;
      var hh := HASHCHAIN_START;
      while hashtbl[h] != 0 && rels[hashtbl[h]] != d
        invariant t <= free && hh == HASHCHAIN_START + t && h < n
        invariant h == Probe(Start(d, n), t, n)
        invariant forall u :: 0 <= u < t ==> hashtbl[Probe(Start(d, n), u, n)] != 0
        invariant forall u :: 0 <= u < t ==> rels[hashtbl[Probe(Start(d, n), u, n)]] != d
        decreases free - t
      {
        h, hh, t := Next(h, hh, n), hh + 1, t + 1;
      }
      id := hashtbl[h];
      if id == 0 { NotStored(hashtbl, k, rels, |rels|, d, t); }
    }

    /** Build a bigger table from scratch and enter all relations. */
    method Rehash()
      requires Valid()
      modifies `hashtbl, `k
      ensures Valid() && hashtbl != [] && 2 * |rels| <= Mask()
    {
      hide Pow2, Relhash;
      var mask;
      mask, k := Mkmask(|rels| + REL_BLOCK);
      var n := mask + 1;
      BigEnough(k, n);
      hashtbl := seq(n, _ => 0);
      var i := 1;
      while i < |rels|
        invariant 1 <= i <= |rels| && |hashtbl| == n
        invariant Table(hashtbl, k, rels, i)
      {
        ghost var free := FreeSlotAhead(hashtbl, k, rels, i, rels[i]);
        var h, hh := Start(rels[i], n), HASHCHAIN_START;
        ghost var t := 0;
        while hashtbl[h] != 0
          invariant t <= free && hh == HASHCHAIN_START + t && h < n
          invariant h == Probe(Start(rels[i], n), t, n) && Taken(hashtbl, rels[i], t)
          decreases free - t
        {
          h, hh, t := Next(h, hh, n), hh + 1, t + 1;
        }
        EnterKeeps(hashtbl, k, rels, i, h, t);
        hashtbl := hashtbl[h := i];
        i := i + 1;
      }
    }

    /** The id of a relation. An existing one is found; otherwise, with create, a new one is appended. */
    method Rel2Id(name: nat, evr: nat, flags: nat, create: bool) returns (id: nat)
      requires Valid()
      modifies this
      ensures Valid()
      ensures rels == Interned(old(rels), Reldep(name, evr, flags), create)
      ensures id == IdOf(rels, Reldep(name, evr, flags))
    {
      hide Table, Relhash;
      var d := Reldep(name, evr, flags);
      if |rels| * 2 > Mask() { Rehash(); }
      var h, found;
      ghost var t;
      h, found, t := Lookup(d);
      if found != 0 {
        IdOfUnique(rels, d, found);
        return MakeRelDep(found);
      }
      if !create { return 0; }
      id := |rels|;
      rels := rels + [d];
      MoreRels(hashtbl, k, old(rels), d);
      EnterKeeps(hashtbl, k, rels, id, h, t);
      hashtbl := hashtbl[h := id];
      IdOfUnique(rels, d, id);
      id := MakeRelDep(id);
    }
  }

  lemma BigEnough(k: nat, n: nat)
    requires n == Pow2(k) && n > 2046
    ensures 2 <= k
  {
  }

  lemma MoreRels(tbl: seq<nat>, k: nat, rels: seq<Reldep>, d: Reldep)
    requires Table(tbl, k, rels, |rels|)
    ensures Table(tbl, k, rels + [d], |rels|)
  {
    hide Probe, Relhash, Pow2;
    forall i | 1 <= i < |rels| ensures Stored(tbl, rels + [d], i) {
      assert Stored(tbl, rels, i);
      var t: nat :| StoredAt(tbl, rels, i, t);
      assert StoredAt(tbl, rels + [d], i, t);
    }
  }

  /** The specification: a list of triples without duplicates, numbered by position. */
  ghost predicate Known(rels: seq<Reldep>, d: Reldep) {
    exists i :: 1 <= i < |rels| && rels[i] == d
  }

  ghost function Interned(rels: seq<Reldep>, d: Reldep, create: bool): seq<Reldep> {
    if !create || Known(rels, d) then rels else rels + [d]
  }

  ghost function IdOf(rels: seq<Reldep>, d: Reldep): nat {
    if Known(rels, d) then var i :| 1 <= i < |rels| && rels[i] == d; MakeRelDep(i) else 0
  }

  lemma IdOfUnique(rels: seq<Reldep>, d: Reldep, i: nat)
    requires HashConsed(rels) && 1 <= i < |rels| && rels[i] == d
    ensures IdOf(rels, d) == MakeRelDep(i)
  {
  }

  /** The relations after a history of calls (triple, create). */
  ghost function After(rels: seq<Reldep>, calls: seq<(Reldep, bool)>): seq<Reldep>
    decreases |calls|
  {
    if calls == [] then rels
    else
      var last := calls[|calls| - 1];
      Interned(After(rels, calls[..|calls| - 1]), last.0, last.1)
  }

  /** What a call returned: the id right after it. */
  ghost function Returned(rels: seq<Reldep>, calls: seq<(Reldep, bool)>, i: nat): nat
    requires i < |calls|
  {
    IdOf(After(rels, calls[..i + 1]), calls[i].0)
  }

  /** A history only appends, and keeps relations pairwise different. */
  lemma {:induction false} HistoryAppends(rels: seq<Reldep>, calls: seq<(Reldep, bool)>, i: nat)
    requires HashConsed(rels) && 1 <= |rels| && i <= |calls|
    ensures HashConsed(After(rels, calls)) && After(rels, calls[..i]) <= After(rels, calls)
    decreases |calls|
  {
    if i == |calls| {
      assert calls[..i] == calls;
      if calls != [] { HistoryAppends(rels, calls[..|calls| - 1], 0); }
    } else {
      var front := calls[..|calls| - 1];
      HistoryAppends(rels, front, i);
      assert front[..i] == calls[..i];
    }
  }

  /** Over every history, two creating calls return the same id exactly when their triples are equal;
   * the id never denotes anything else later on. */
  lemma SameIdSameTriple(rels: seq<Reldep>, calls: seq<(Reldep, bool)>, i: nat, j: nat)
    requires HashConsed(rels) && 1 <= |rels| && i <= j < |calls| && calls[i].1 && calls[j].1
    ensures Returned(rels, calls, i) == Returned(rels, calls, j) <==> calls[i].0 == calls[j].0
    ensures Returned(rels, calls, i) == IdOf(After(rels, calls), calls[i].0) != 0
  {
    var all := After(rels, calls);
    HistoryAppends(rels, calls, 0);
    CreatedId(rels, calls, i);
    CreatedId(rels, calls, j);
  }

  /** The id a creating call returned still denotes its triple at the end. */
  lemma CreatedId(rels: seq<Reldep>, calls: seq<(Reldep, bool)>, i: nat)
    requires HashConsed(rels) && 1 <= |rels| && i < |calls| && calls[i].1
    ensures var all := After(rels, calls);
      exists x :: 1 <= x < |all| && all[x] == calls[i].0 && Returned(rels, calls, i) == MakeRelDep(x)
        && IdOf(all, calls[i].0) == MakeRelDep(x)
  {
    var all, now := After(rels, calls), After(rels, calls[..i + 1]);
    HistoryAppends(rels, calls, i + 1);
    HistoryAppends(rels, calls[..i + 1], 0);
    HistoryAppends(rels, calls[..i], 0);
    assert calls[..i + 1][..i] == calls[..i];
    var before, d := After(rels, calls[..i]), calls[i].0;
    assert now == Interned(before, d, true);
    assert 1 <= |before| by { HistoryAppends(rels, calls[..i], 0); assert calls[..i][..0] == []; }
    assert Known(now, d) by { if !Known(before, d) { assert now[|now| - 1] == d; } }
    var x :| 1 <= x < |now| && now[x] == d;
    IdOfUnique(now, d, x);
    IdOfUnique(all, d, x);
  }
}
