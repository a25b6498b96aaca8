/** Relations in a written file: every relation comes after its parts, so that the reader's range check
 * never fails, and what is read back means the same (ext/repo_write.c, src/repo_solv.c). */
module NeedWrite {
  import opened Lexicographic
  import opened PoolId
  import opened NeedId
  import opened NeedSort

  /** The renumbering of a pool: the needs that were counted, the sorted table, and the final table. */
  datatype Numbering = Numbering(rels: seq<Reldep>, strings: seq<seq<int>>, need: seq<nat>, s: seq<Entry>, t: seq<Entry>,
                                 nstrings: nat, nrels: nat)
  {
    /** A table that was counted, sorted and numbered. */
    ghost predicate Valid() {
      && PartsNeeded(|strings|, rels, need)
      && Renumbered(s, t, Prepared(|strings|, need), |strings|, strings, nstrings, nrels)
    }

    ghost predicate Needed(id: nat) {
      id == 0 || id == 1 || (Index(|strings|, id) < |need| && need[Index(|strings|, id)] > 0)
    }

    /** The new number of a pool id. */
    function Number(id: nat): nat
      requires Index(|strings|, id) < |t|
    {
      t[Index(|strings|, id)].need
    }

    ghost predicate RelNeeded(r: nat) {
      1 <= r < |rels| && |strings| + r < |need| && need[|strings| + r] > 0
    }

    /** Relation r has a number behind those of the strings, whose entry leads back. */
    ghost predicate RelPlaced(r: nat) {
      var x := |strings| + r;
      && x < |t| && x < |need| && nstrings <= t[x].need < nstrings + nrels
      && var k := Place(t[x].need);
        && k < |t| == |s| && t[k].mp == x && s[k] == Entry(need[x], x)
    }

    /** The table entry of a new number. */
    function Place(n: nat): nat { if n < nstrings then n else |strings| + (n - nstrings) }
  }

  lemma Sizes(f: Numbering)
    requires f.Valid()
    ensures |f.t| == |f.s| == |f.need| == |f.strings| + |f.rels| && f.t[0].need == 0
    ensures ValidPool(|f.strings|, f.rels)
    ensures 1 <= f.nstrings <= |f.strings| && f.nrels <= |f.rels|
  {
  }

  lemma StringPart(f: Numbering)
    requires f.Valid()
    ensures Ranking(f.s, Prepared(|f.strings|, f.need), 1, |f.strings|)
    ensures Numbered(f.s, f.t, Prepared(|f.strings|, f.need), 1, |f.strings|, 1, f.nstrings - 1)
  {
    hide Ranking, Numbered;
  }

  lemma RelPart(f: Numbering)
    requires f.Valid()
    ensures Ranking(f.s, Prepared(|f.strings|, f.need), |f.strings|, |f.s|)
    ensures Numbered(f.s, f.t, Prepared(|f.strings|, f.need), |f.strings|, |f.s|, f.nstrings, f.nrels)
  {
    hide Ranking, Numbered;
  }

  /** A needed string has a number below nstrings, whose entry leads back. */
  lemma StringNumber(f: Numbering, x: nat)
    requires f.Valid() && 1 <= x < |f.strings| && (x == 1 || f.need[x] > 0)
    ensures 1 <= f.t[x].need < f.nstrings && f.t[f.t[x].need].mp == x
  {
    hide Ranking, Numbered, Renumbered, PartsNeeded;
    StringPart(f);
    Sizes(f);
    NumberOf(f.s, f.t, Prepared(|f.strings|, f.need), 1, |f.strings|, 1, f.nstrings - 1, x);
  }

  /** A needed relation has a number from nstrings on, whose entry leads back. */
  lemma RelNumber(f: Numbering, r: nat)
    requires f.Valid() && f.RelNeeded(r)
    ensures f.RelPlaced(r)
  {
    hide Ranking, Numbered, Renumbered, PartsNeeded;
    RelPart(f);
    Sizes(f);
    NumberOf(f.s, f.t, Prepared(|f.strings|, f.need), |f.strings|, |f.s|, f.nstrings, f.nrels, |f.strings| + r);
  }

  /** Every new number belongs to exactly the id that has it. */
  lemma IdOfNumber(f: Numbering, i: nat)
    requires f.Valid() && 1 <= i < f.nstrings + f.nrels
    ensures var k := f.Place(i);
      && k < |f.t| && 1 <= f.t[k].mp < |f.t| && f.t[f.t[k].mp].need == i
      && (i < f.nstrings <==> f.t[k].mp < |f.strings|)
      && (f.t[k].mp == 1 || (f.need[f.t[k].mp] > 0 && f.t[k].mp != |f.strings|))
  {
    hide Ranking, Numbered, Renumbered, PartsNeeded;
    StringPart(f);
    RelPart(f);
    Sizes(f);
    var N := Prepared(|f.strings|, f.need);
    if i < f.nstrings {
      NumberedId(f.s, f.t, N, 1, |f.strings|, 1, f.nstrings - 1, i - 1);
    } else {
      NumberedId(f.s, f.t, N, |f.strings|, |f.s|, f.nstrings, f.nrels, i - f.nstrings);
    }
  }

  /** The number of id x leads back to x. */
  ghost predicate LeadsBack(f: Numbering, x: nat) {
    && x < |f.t| && 1 <= f.t[x].need < f.nstrings + f.nrels
    && f.Place(f.t[x].need) < |f.t| && f.t[f.Place(f.t[x].need)].mp == x
  }

  /** The id of number i has that number. */
  ghost predicate HasNumber(f: Numbering, i: nat) {
    f.Place(i) < |f.t| && f.t[f.Place(i)].mp < |f.t| && f.t[f.t[f.Place(i)].mp].need == i
  }

  lemma PlacedLeadsBack(f: Numbering, r: nat)
    requires f.RelPlaced(r) && f.nstrings >= 1
    ensures LeadsBack(f, |f.strings| + r)
  {
  }

  lemma StringLeadsBack(f: Numbering, x: nat)
    requires x < |f.t| && 1 <= f.t[x].need < f.nstrings <= |f.t| && f.t[f.t[x].need].mp == x
    ensures LeadsBack(f, x)
  {
  }

  lemma StringIdLeadsBack(f: Numbering, x: nat)
    requires f.Valid() && 1 <= x < |f.strings| && (x == 1 || f.need[x] > 0)
    ensures LeadsBack(f, x)
  {
    hide *;
    Sizes(f);
    StringNumber(f, x);
    StringLeadsBack(f, x);
  }

  lemma RelIdLeadsBack(f: Numbering, r: nat)
    requires f.Valid() && f.RelNeeded(r)
    ensures LeadsBack(f, |f.strings| + r)
  {
    hide *;
    Sizes(f);
    RelNumber(f, r);
    PlacedLeadsBack(f, r);
  }

  lemma NeededRel(f: Numbering, x: nat)
    requires |f.strings| < x < |f.strings| + |f.rels| && x < |f.need| && f.need[x] > 0
    ensures f.RelNeeded(x - |f.strings|)
  {
  }

  lemma IdLeadsBack(f: Numbering, x: nat)
    requires f.Valid() && 2 <= x < |f.t| && x != |f.strings| && x < |f.need| && f.need[x] > 0
    ensures LeadsBack(f, x)
  {
    hide *;
    Sizes(f);
    if x < |f.strings| {
      StringIdLeadsBack(f, x);
    } else {
      NeededRel(f, x);
      RelIdLeadsBack(f, x - |f.strings|);
    }
  }

  /** old id -> new id and new id -> old id are inverse to each other on the ids that are needed. */
  lemma Inverse(f: Numbering)
    requires f.Valid()
    ensures forall x :: 2 <= x < |f.t| && x != |f.strings| && x < |f.need| && f.need[x] > 0 ==> LeadsBack(f, x)
    ensures forall i :: 1 <= i < f.nstrings + f.nrels ==> HasNumber(f, i)
  {
    hide Renumbered, PartsNeeded, LeadsBack;
    forall x | 2 <= x < |f.t| && x != |f.strings| && x < |f.need| && f.need[x] > 0 ensures LeadsBack(f, x) {
      IdLeadsBack(f, x);
    }
    forall i | 1 <= i < f.nstrings + f.nrels ensures HasNumber(f, i) {
      IdOfNumber(f, i);
    }
  }

  /** The entry of a needed relation in the sorted table. */
  lemma RelEntry(f: Numbering, r: nat) returns (i: nat)
    requires f.Valid() && f.RelNeeded(r)
    ensures |f.strings| <= i < |f.s| && |f.strings| + r < |f.t| && i == |f.strings| + (f.t[|f.strings| + r].need - f.nstrings)
    ensures f.s[i] == Entry(f.need[|f.strings| + r], |f.strings| + r)
  {
    RelNumber(f, r);
    hide Renumbered, PartsNeeded;
    i := f.Place(f.t[|f.strings| + r].need);
  }

  /** Of two relations the one needed more often, or the older one, comes first. */
  lemma RanksDiffer(f: Numbering, q: nat, r: nat)
    requires f.Valid() && q < r && f.RelNeeded(q) && f.RelNeeded(r) && f.need[|f.strings| + q] >= f.need[|f.strings| + r]
    ensures |f.strings| + r < |f.t| && f.t[|f.strings| + q].need < f.t[|f.strings| + r].need
  {
    hide Renumbered, PartsNeeded;
    var i := RelEntry(f, q);
    var j := RelEntry(f, r);
    RelsSorted(f, i, j);
  }

  lemma RelsSorted(f: Numbering, i: nat, j: nat)
    requires f.Valid() && |f.strings| <= i < |f.s| && |f.strings| <= j < |f.s| && i != j
    ensures CmpNeed(f.s[i], f.s[j]) < 0 ==> i < j
  {
    hide Ranking, Numbered, PartsNeeded;
    if j < i { assert CmpNeed(f.s[j], f.s[i]) <= 0; }
  }

  /** A part of a needed relation is needed, and has a smaller number. */
  lemma DefinitionBeforeUse(f: Numbering, r: nat, id: nat)
    requires f.Valid() && 1 <= r < |f.rels| && f.need[|f.strings| + r] > 0
    requires id == f.rels[r].name || id == f.rels[r].evr
    ensures Index(|f.strings|, id) < |f.t| && f.Number(id) < f.t[|f.strings| + r].need
    ensures f.Needed(id)
  {
    hide Renumbered;
    Sizes(f);
    assert Older(|f.strings|, f.rels, r, id);
    assert PartsNeededBy(|f.strings|, f.rels, f.need, r);
    hide PartsNeeded;
    RelNumber(f, r);
    if IsRelDep(id) {
      RanksDiffer(f, RelIndex(id), r);
    } else if id != 0 {
      StringNumber(f, id);
    }
  }

  // ---- the file ----

  /** Entry i of the file is the relation whose new number is the i-th. */
  ghost predicate Written(f: Numbering, i: nat, w: Reldep) {
    && |f.strings| + i < |f.t| && |f.strings| < f.t[|f.strings| + i].mp < |f.strings| + |f.rels| == |f.t|
    && var d := f.rels[f.t[|f.strings| + i].mp - |f.strings|];
      && Index(|f.strings|, d.name) < |f.t| && Index(|f.strings|, d.evr) < |f.t|
      && w == Reldep(f.Number(d.name), f.Number(d.evr), d.flags)
  }

  lemma WrittenRel(f: Numbering, i: nat)
    requires f.Valid() && i < f.nrels
    ensures |f.strings| + i < |f.t| == |f.strings| + |f.rels| && |f.strings| < f.t[|f.strings| + i].mp < |f.t|
    ensures var r := f.t[|f.strings| + i].mp - |f.strings|;
      && f.need[|f.strings| + r] > 0 && f.t[|f.strings| + r].need == f.nstrings + i
      && Index(|f.strings|, f.rels[r].name) < |f.t| && Index(|f.strings|, f.rels[r].evr) < |f.t|
      && f.Number(f.rels[r].name) < f.nstrings + i && f.Number(f.rels[r].evr) < f.nstrings + i
  {
    hide Renumbered, PartsNeeded;
    Sizes(f);
    IdOfNumber(f, f.nstrings + i);
    var r := f.t[|f.strings| + i].mp - |f.strings|;
    DefinitionBeforeUse(f, r, f.rels[r].name);
    DefinitionBeforeUse(f, r, f.rels[r].evr);
  }

  /** Write the needed relations in their new order, with the new numbers of their parts. */
  method WriteRels(needid: array<Entry>, rels: seq<Reldep>, nstrings: nat, nrels: nat, ghost f: Numbering)
    returns (out: seq<Reldep>)
    requires f.Valid() && needid[..] == f.t && rels == f.rels && nstrings == f.nstrings && nrels == f.nrels
    requires needid.Length > 0 && needid[0].mp == |f.strings|
    ensures |out| == nrels && forall i :: 0 <= i < nrels ==> Written(f, i, out[i])
  {
    hide Renumbered, PartsNeeded;
    var reloff := needid[0].mp;
    var i := 0;
    out := [];
    while i < nrels
      invariant i <= nrels && |out| == i
      invariant forall k :: 0 <= k < i ==> Written(f, k, out[k])
    {
      WrittenRel(f, i);
      assert needid[reloff + i] == f.t[reloff + i];
      var ran := rels[needid[reloff + i].mp - reloff];
      out := out + [Reldep(needid[Index(reloff, ran.name)].need, needid[Index(reloff, ran.evr)].need, ran.flags)];
      i := i + 1;
    }
  }

  // ---- reading ----

  /** What an id stands for. */
  datatype Dep = Word(text: seq<int>) | Rel(name: Dep, evr: Dep, flags: nat)

  ghost function Meaning(strings: seq<seq<int>>, rels: seq<Reldep>, id: nat): Dep
    requires ValidPool(|strings|, rels) && ValidId(|strings|, rels, id)
    decreases Rank(id)
  {
    if IsRelDep(id) then
      var d := rels[RelIndex(id)];
      assert Older(|strings|, rels, RelIndex(id), d.name) && Older(|strings|, rels, RelIndex(id), d.evr);
      Rel(Meaning(strings, rels, d.name), Meaning(strings, rels, d.evr), d.flags)
    else Word(strings[id])
  }

  /** New relations change no meaning. */
  lemma {:induction false} MeaningGrows(strings: seq<seq<int>>, rels: seq<Reldep>, more: seq<Reldep>, id: nat)
    requires ValidPool(|strings|, rels) && ValidId(|strings|, rels, id) && rels <= more && ValidPool(|strings|, more)
    ensures ValidId(|strings|, more, id) && Meaning(strings, more, id) == Meaning(strings, rels, id)
    decreases Rank(id)
  {
    if IsRelDep(id) {
      var r := RelIndex(id);
      assert rels[r] == more[r];
      assert Older(|strings|, rels, r, rels[r].name) && Older(|strings|, rels, r, rels[r].evr);
      MeaningGrows(strings, rels, more, rels[r].name);
      MeaningGrows(strings, rels, more, rels[r].evr);
    }
  }

  /** Look for a relation, in place of the hash table. */
  method FindRel(rels: seq<Reldep>, d: Reldep) returns (id: nat)
    requires |rels| >= 1
    ensures id < |rels| && (id != 0 ==> rels[id] == d)
  {
    id := |rels| - 1;
    while id > 0 && rels[id] != d
      invariant id < |rels|
    {
      id := id - 1;
    }
  }

  lemma PoolGrows(reloff: nat, rels: seq<Reldep>, d: Reldep)
    requires ValidPool(reloff, rels) && ValidId(reloff, rels, d.name) && ValidId(reloff, rels, d.evr)
    ensures ValidPool(reloff, rels + [d])
  {
    var more := rels + [d];
    forall r | 1 <= r < |more| ensures Older(reloff, more, r, more[r].name) && Older(reloff, more, r, more[r].evr) {
      if r < |rels| { assert Older(reloff, rels, r, rels[r].name) && Older(reloff, rels, r, rels[r].evr); }
    }
  }

  ghost predicate AllValid(reloff: nat, rels: seq<Reldep>, idmap: seq<nat>) {
    ValidPool(reloff, rels) && forall k :: 0 <= k < |idmap| ==> ValidId(reloff, rels, idmap[k])
  }

  /** Relation i of the file means what its entry says. */
  ghost predicate Reads(strings: seq<seq<int>>, rels: seq<Reldep>, idmap: seq<nat>, w: Reldep, k: nat)
    requires AllValid(|strings|, rels, idmap) && k < |idmap|
  {
    && w.name < |idmap| && w.evr < |idmap|
    && Meaning(strings, rels, idmap[k]) == Rel(Meaning(strings, rels, idmap[w.name]), Meaning(strings, rels, idmap[w.evr]), w.flags)
  }

  lemma ReadsGrows(strings: seq<seq<int>>, rels: seq<Reldep>, idmap: seq<nat>, more: seq<Reldep>, idmap': seq<nat>, w: Reldep, k: nat)
    requires AllValid(|strings|, rels, idmap) && AllValid(|strings|, more, idmap') && rels <= more && idmap <= idmap'
    requires k < |idmap| && Reads(strings, rels, idmap, w, k)
    ensures Reads(strings, more, idmap', w, k)
  {
    MeaningGrows(strings, rels, more, idmap[k]);
    MeaningGrows(strings, rels, more, idmap[w.name]);
    MeaningGrows(strings, rels, more, idmap[w.evr]);
  }

  /** Read one relation: find it in the pool or add it. */
  method ReadRel(strings: seq<seq<int>>, rels0: seq<Reldep>, idmap0: seq<nat>, w: Reldep) returns (rels: seq<Reldep>, idmap: seq<nat>)
    requires AllValid(|strings|, rels0, idmap0) && w.name < |idmap0| && w.evr < |idmap0|
    ensures rels0 <= rels && |idmap| == |idmap0| + 1 && idmap0 <= idmap
    ensures AllValid(|strings|, rels, idmap) && Reads(strings, rels, idmap, w, |idmap0|)
  {
    var d := Reldep(idmap0[w.name], idmap0[w.evr], w.flags);
    rels := rels0;
    var id := FindRel(rels, d);
    PoolGrows(|strings|, rels, d);
    if id == 0 {
      id := |rels|;
      rels := rels + [d];
    }
    idmap := idmap0 + [MakeRelDep(id)];
    forall k | 0 <= k < |idmap| ensures ValidId(|strings|, rels, idmap[k]) {
      if k < |idmap0| { assert ValidId(|strings|, rels0, idmap0[k]); }
    }
    assert rels[RelIndex(idmap[|idmap0|])] == d;
  }

  /** Read the relations of a file; numbers have to be smaller than that of the relation itself. */
  method ReadRels(strings: seq<seq<int>>, rels0: seq<Reldep>, idmap0: seq<nat>, file: seq<Reldep>)
    returns (error: bool, rels: seq<Reldep>, idmap: seq<nat>)
    requires AllValid(|strings|, rels0, idmap0)
    ensures error <==> !InOrder(file, |idmap0|)
    ensures !error ==> rels0 <= rels && idmap0 <= idmap && |idmap| == |idmap0| + |file| && AllValid(|strings|, rels, idmap)
    ensures !error ==> forall i :: 0 <= i < |file| ==> Reads(strings, rels, idmap, file[i], |idmap0| + i)
  {
    var i, numid := 0, |idmap0|;
    error, rels, idmap := false, rels0, idmap0;
    while i < |file|
      invariant i <= |file| && rels0 <= rels && idmap0 <= idmap && |idmap| == numid + i && AllValid(|strings|, rels, idmap)
      invariant InOrder(file[..i], numid)
      invariant forall k :: 0 <= k < i ==> Reads(strings, rels, idmap, file[k], numid + k)
    {
      if file[i].name >= i + numid || file[i].evr >= i + numid {
        assert !InOrder(file, numid);
        return true, rels, idmap;
      }
      ghost var rels1, idmap1 := rels, idmap;
      rels, idmap := ReadRel(strings, rels, idmap, file[i]);
      forall k | 0 <= k < i ensures Reads(strings, rels, idmap, file[k], numid + k) {
        ReadsGrows(strings, rels1, idmap1, rels, idmap, file[k], numid + k);
      }
      i := i + 1;
    }
    assert file[..i] == file;
  }

  ghost predicate InOrder(file: seq<Reldep>, numid: nat) {
    forall i :: 0 <= i < |file| ==> file[i].name < numid + i && file[i].evr < numid + i
  }

  /** Every relation of a written file is in order, so that reading it never fails. */
  lemma WrittenInOrder(f: Numbering, file: seq<Reldep>)
    requires f.Valid() && |file| == f.nrels && forall i :: 0 <= i < f.nrels ==> Written(f, i, file[i])
    ensures InOrder(file, f.nstrings)
  {
    hide Renumbered, PartsNeeded;
    forall i | 0 <= i < |file| ensures file[i].name < f.nstrings + i && file[i].evr < f.nstrings + i {
      WrittenRel(f, i);
      assert Written(f, i, file[i]);
    }
  }

  /** What was read from the file: the strings and relations of the reader's pool, and the pool id of each number. */
  datatype Loaded = Loaded(strings: seq<seq<int>>, rels: seq<Reldep>, idmap: seq<nat>)
  {
    /** Number k < nstrings stands for the same text, and 0 for id 0; the relations are as in the file. */
    ghost predicate Of(f: Numbering, file: seq<Reldep>) {
      && f.Valid() && |file| == f.nrels && (forall i :: 0 <= i < f.nrels ==> Written(f, i, file[i]))
      && AllValid(|strings|, rels, idmap) && |idmap| == f.nstrings + f.nrels
      && StringsRead(f)
      && forall i :: 0 <= i < f.nrels ==> Reads(strings, rels, idmap, file[i], f.nstrings + i)
    }

    ghost predicate StringsRead(f: Numbering) {
      && 1 <= f.nstrings <= |idmap| && f.nstrings <= |f.t| && 1 <= |f.strings|
      && (forall k :: 0 <= k < f.nstrings ==> idmap[k] < |strings|)
      && (forall k :: 1 <= k < f.nstrings ==> f.t[k].mp < |f.strings| && strings[idmap[k]] == f.strings[f.t[k].mp])
      && strings[idmap[0]] == f.strings[0]
    }
  }

  lemma StringMeaning(f: Numbering, file: seq<Reldep>, l: Loaded, id: nat)
    requires l.Of(f, file) && id < |f.strings| && f.Needed(id) && !IsRelDep(id)
    ensures id < |f.t| && f.Number(id) < |l.idmap|
    ensures l.idmap[f.Number(id)] < |l.strings| && l.strings[l.idmap[f.Number(id)]] == f.strings[id]
  {
    hide Renumbered, PartsNeeded, AllValid, Written, Reads;
    Sizes(f);
    if id != 0 { StringNumber(f, id); }
  }

  lemma RelMeaning(f: Numbering, file: seq<Reldep>, id: nat)
    requires f.Valid() && |file| == f.nrels && forall i :: 0 <= i < f.nrels ==> Written(f, i, file[i])
    requires IsRelDep(id) && ValidId(|f.strings|, f.rels, id) && f.Needed(id)
    ensures Index(|f.strings|, id) < |f.t| && f.nstrings <= f.Number(id) < f.nstrings + f.nrels
    ensures var d := f.rels[RelIndex(id)];
      && Index(|f.strings|, d.name) < |f.t| && Index(|f.strings|, d.evr) < |f.t|
      && file[f.Number(id) - f.nstrings] == Reldep(f.Number(d.name), f.Number(d.evr), d.flags)
      && f.Needed(d.name) && f.Needed(d.evr)
  {
    hide Renumbered, PartsNeeded;
    Sizes(f);
    var r := RelIndex(id);
    RelNumber(f, r);
    DefinitionBeforeUse(f, r, f.rels[r].name);
    DefinitionBeforeUse(f, r, f.rels[r].evr);
    assert Written(f, f.Number(id) - f.nstrings, file[f.Number(id) - f.nstrings]);
  }

  /** After reading, the number of every needed id stands for what the id stands for. */
  lemma {:induction false} MeaningPreserved(f: Numbering, file: seq<Reldep>, l: Loaded, id: nat)
    requires l.Of(f, file) && ValidPool(|f.strings|, f.rels) && ValidId(|f.strings|, f.rels, id) && f.Needed(id)
    ensures Index(|f.strings|, id) < |f.t| && f.Number(id) < |l.idmap|
    ensures Meaning(l.strings, l.rels, l.idmap[f.Number(id)]) == Meaning(f.strings, f.rels, id)
    decreases Rank(id)
  {
    hide Renumbered, PartsNeeded, Written;
    if IsRelDep(id) {
      RelMeaning(f, file, id);
      var d := f.rels[RelIndex(id)];
      assert Reads(l.strings, l.rels, l.idmap, file[f.Number(id) - f.nstrings], f.nstrings + (f.Number(id) - f.nstrings));
      assert Older(|f.strings|, f.rels, RelIndex(id), d.name) && Older(|f.strings|, f.rels, RelIndex(id), d.evr);
      MeaningPreserved(f, file, l, d.name);
      MeaningPreserved(f, file, l, d.evr);
    } else {
      StringMeaning(f, file, l, id);
    }
  }
}
