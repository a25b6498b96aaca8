/** Renumbering ids by how often they are needed (ext/repo_write.c), and reading the renumbered relations back (src/repo_solv.c).
 *
 * The table needid has one entry for each string of the pool, then one for each relation.
 * needid[0].map is the index at which the relations start.
 */
module NeedId {
  import opened Lexicographic
  import opened Pigeonhole
  import opened PoolId
  import opened SatSort

  datatype Entry = Entry(need: nat, mp: nat)

  /** The table index of an id, where the relations start at reloff. */
  function Index(reloff: nat, id: nat): nat { if IsRelDep(id) then reloff + RelIndex(id) else id }

  ghost predicate ValidId(reloff: nat, rels: seq<Reldep>, id: nat) {
    if IsRelDep(id) then 1 <= RelIndex(id) < |rels| else id < reloff
  }

  /** Relation r is made of ids that exist, and of older relations only. */
  ghost predicate Older(reloff: nat, rels: seq<Reldep>, r: nat, id: nat) {
    ValidId(reloff, rels, id) && (IsRelDep(id) ==> RelIndex(id) < r)
  }

  ghost predicate ValidPool(reloff: nat, rels: seq<Reldep>) {
    && 2 <= reloff <= 0x8000_0000 && |rels| >= 1
    && forall r :: 1 <= r < |rels| ==> Older(reloff, rels, r, rels[r].name) && Older(reloff, rels, r, rels[r].evr)
  }

  function Rank(id: nat): nat { if IsRelDep(id) then RelIndex(id) else 0 }

  // ---- counting ----

  /** How often the table entry x is needed to write id. */
  ghost function Uses(reloff: nat, rels: seq<Reldep>, id: nat, x: nat): nat
    requires ValidPool(reloff, rels) && ValidId(reloff, rels, id)
    decreases Rank(id)
  {
    (if Index(reloff, id) == x then 1 else 0) +
    if IsRelDep(id) then
      assert Older(reloff, rels, RelIndex(id), rels[RelIndex(id)].name) && Older(reloff, rels, RelIndex(id), rels[RelIndex(id)].evr);
      Uses(reloff, rels, rels[RelIndex(id)].evr, x) + Uses(reloff, rels, rels[RelIndex(id)].name, x)
    else 0
  }

  /** Every part of a relation is needed at least as often as the relation. */
  lemma {:induction false} UsesParts(reloff: nat, rels: seq<Reldep>, id: nat, r: nat)
    requires ValidPool(reloff, rels) && ValidId(reloff, rels, id) && 1 <= r < |rels|
    ensures Uses(reloff, rels, id, reloff + r) <= Uses(reloff, rels, id, Index(reloff, rels[r].name))
    ensures Uses(reloff, rels, id, reloff + r) <= Uses(reloff, rels, id, Index(reloff, rels[r].evr))
    decreases Rank(id)
  {
    assert Older(reloff, rels, r, rels[r].name) && Older(reloff, rels, r, rels[r].evr);
    if IsRelDep(id) {
      var d := rels[RelIndex(id)];
      assert Older(reloff, rels, RelIndex(id), d.name) && Older(reloff, rels, RelIndex(id), d.evr);
      UsesParts(reloff, rels, d.name, r);
      UsesParts(reloff, rels, d.evr, r);
      if RelIndex(id) == r {
        OlderUsesNot(reloff, rels, d.name, r);
        OlderUsesNot(reloff, rels, d.evr, r);
        UsesSelf(reloff, rels, d.name);
        UsesSelf(reloff, rels, d.evr);
      }
    }
  }

  /** Writing an older id does not need the relation. */
  lemma {:induction false} OlderUsesNot(reloff: nat, rels: seq<Reldep>, id: nat, r: nat)
    requires ValidPool(reloff, rels) && Older(reloff, rels, r, id)
    ensures Uses(reloff, rels, id, reloff + r) == 0
    decreases Rank(id)
  {
    if IsRelDep(id) {
      var d := rels[RelIndex(id)];
      assert Older(reloff, rels, RelIndex(id), d.name) && Older(reloff, rels, RelIndex(id), d.evr);
      OlderUsesNot(reloff, rels, d.name, r);
      OlderUsesNot(reloff, rels, d.evr, r);
    }
  }

  lemma UsesSelf(reloff: nat, rels: seq<Reldep>, id: nat)
    requires ValidPool(reloff, rels) && ValidId(reloff, rels, id)
    ensures Uses(reloff, rels, id, Index(reloff, id)) >= 1
  {
  }

  /** Only the needs of a table changed. */
  ghost predicate SameMaps(was: seq<Entry>, now: seq<Entry>) {
    |was| == |now| && forall k :: 0 <= k < |was| ==> now[k].mp == was[k].mp
  }

  ghost predicate NeedsGrew(was: seq<Entry>, now: seq<Entry>, more: nat -> nat) {
    SameMaps(was, now) && forall k :: 0 <= k < |was| ==> now[k].need == was[k].need + more(k)
  }

  ghost function UsesOf(reloff: nat, rels: seq<Reldep>, id: nat): nat -> nat
    requires ValidPool(reloff, rels) && ValidId(reloff, rels, id)
  {
    x => Uses(reloff, rels, id, x)
  }

  method Increment(needid: array<Entry>, x: nat)
    requires x < needid.Length
    modifies needid
    ensures NeedsGrew(old(needid[..]), needid[..], k => if k == x then 1 else 0)
  {
    needid[x] := needid[x].(need := needid[x].need + 1);
  }

  /** incneedid: count everything that is needed to write an id. */
  method IncNeedId(reloff: nat, rels: seq<Reldep>, id0: nat, needid: array<Entry>)
    requires ValidPool(reloff, rels) && ValidId(reloff, rels, id0)
    requires needid.Length == reloff + |rels|
    modifies needid
    ensures NeedsGrew(old(needid[..]), needid[..], UsesOf(reloff, rels, id0))
    decreases Rank(id0)
  {
    var id := id0;
    while IsRelDep(id)
      invariant ValidId(reloff, rels, id) && Rank(id) <= Rank(id0)
      invariant SameMaps(old(needid[..]), needid[..])
      invariant forall k :: 0 <= k < needid.Length ==>
        needid[k].need + Uses(reloff, rels, id, k) == old(needid[k]).need + Uses(reloff, rels, id0, k)
      decreases Rank(id)
    {
      var rd := rels[RelIndex(id)];
      assert Older(reloff, rels, RelIndex(id), rd.name) && Older(reloff, rels, RelIndex(id), rd.evr);
      Increment(needid, Index(reloff, id));
      if IsRelDep(rd.evr) {
        IncNeedId(reloff, rels, rd.evr, needid);
      } else {
        Increment(needid, rd.evr);
      }
      id := rd.name;
    }
    Increment(needid, id);
  }

  ghost function UsesAll(reloff: nat, rels: seq<Reldep>, ids: seq<nat>, x: nat): nat
    requires ValidPool(reloff, rels) && forall k :: 0 <= k < |ids| ==> ValidId(reloff, rels, ids[k])
  {
    if ids == [] then 0 else UsesAll(reloff, rels, ids[..|ids| - 1], x) + Uses(reloff, rels, ids[|ids| - 1], x)
  }

  /** incneedidarray: the same for a list; the result is the size of the list with its end mark. */
  method IncNeedIdArray(reloff: nat, rels: seq<Reldep>, ids: seq<nat>, needid: array<Entry>) returns (n: nat)
    requires ValidPool(reloff, rels) && forall k :: 0 <= k < |ids| ==> ValidId(reloff, rels, ids[k])
    requires needid.Length == reloff + |rels|
    modifies needid
    ensures n == |ids| + 1
    ensures NeedsGrew(old(needid[..]), needid[..], x => UsesAll(reloff, rels, ids, x))
  {
    n := 0;
    while n < |ids|
      invariant n <= |ids|
      invariant SameMaps(old(needid[..]), needid[..])
      invariant forall k :: 0 <= k < needid.Length ==>
        needid[k].need == old(needid[k]).need + UsesAll(reloff, rels, ids[..n], k)
    {
      IncNeedId(reloff, rels, ids[n], needid);
      assert ids[..n + 1][..n] == ids[..n];
      n := n + 1;
    }
    assert ids[..n] == ids;
    n := n + 1;
  }

  /** Nothing is needed more often than a part of it. */
  ghost predicate PartsNeeded(reloff: nat, rels: seq<Reldep>, need: seq<nat>) {
    && |need| == reloff + |rels| && ValidPool(reloff, rels)
    && forall r :: 1 <= r < |rels| ==> PartsNeededBy(reloff, rels, need, r)
  }

  ghost predicate PartsNeededBy(reloff: nat, rels: seq<Reldep>, need: seq<nat>, r: nat)
    requires |need| == reloff + |rels| && ValidPool(reloff, rels) && 1 <= r < |rels|
  {
    assert Older(reloff, rels, r, rels[r].name) && Older(reloff, rels, r, rels[r].evr);
    need[reloff + r] <= need[Index(reloff, rels[r].name)] && need[reloff + r] <= need[Index(reloff, rels[r].evr)]
  }

  ghost function Needs(s: seq<Entry>): seq<nat> { seq(|s|, k requires 0 <= k < |s| => s[k].need) }

  /** Counting a list keeps that. */
  lemma {:induction false} CountingKeeps(reloff: nat, rels: seq<Reldep>, ids: seq<nat>, was: seq<Entry>, now: seq<Entry>)
    requires PartsNeeded(reloff, rels, Needs(was)) && forall k :: 0 <= k < |ids| ==> ValidId(reloff, rels, ids[k])
    requires NeedsGrew(was, now, x => UsesAll(reloff, rels, ids, x))
    ensures PartsNeeded(reloff, rels, Needs(now))
  {
    forall r | 1 <= r < |rels| ensures PartsNeededBy(reloff, rels, Needs(now), r) {
      assert PartsNeededBy(reloff, rels, Needs(was), r);
      assert Older(reloff, rels, r, rels[r].name) && Older(reloff, rels, r, rels[r].evr);
      UsesAllParts(reloff, rels, ids, r);
    }
  }

  lemma {:induction false} UsesAllParts(reloff: nat, rels: seq<Reldep>, ids: seq<nat>, r: nat)
    requires ValidPool(reloff, rels) && forall k :: 0 <= k < |ids| ==> ValidId(reloff, rels, ids[k])
    requires 1 <= r < |rels|
    ensures UsesAll(reloff, rels, ids, reloff + r) <= UsesAll(reloff, rels, ids, Index(reloff, rels[r].name))
    ensures UsesAll(reloff, rels, ids, reloff + r) <= UsesAll(reloff, rels, ids, Index(reloff, rels[r].evr))
  {
    if ids != [] {
      UsesAllParts(reloff, rels, ids[..|ids| - 1], r);
      UsesParts(reloff, rels, ids[|ids| - 1], r);
    }
  }

  /** A string needed once more, by a key or a directory, keeps that too. */
  lemma StringKeeps(reloff: nat, rels: seq<Reldep>, x: nat, was: seq<Entry>, now: seq<Entry>)
    requires PartsNeeded(reloff, rels, Needs(was)) && x < reloff
    requires NeedsGrew(was, now, k => if k == x then 1 else 0)
    ensures PartsNeeded(reloff, rels, Needs(now))
  {
    forall r | 1 <= r < |rels| ensures PartsNeededBy(reloff, rels, Needs(now), r) {
      assert PartsNeededBy(reloff, rels, Needs(was), r);
      assert Older(reloff, rels, r, rels[r].name) && Older(reloff, rels, r, rels[r].evr);
    }
  }
}
