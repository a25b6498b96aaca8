/** The directories of a file from the pool of the writer to that of the reader: counting and numbering the components
 * (ext/repo_write.c), interning the strings of the file and reading the table (src/repo_solv.c).
 */
module DirFile {
  import opened Bytes
  import opened Dirpool
  import opened DirUse
  import opened DirWrite
  import opened NeedId
  import opened PoolId
  import NeedSort
  import NeedWrite

  // ---- counting ----

  /** How many of the directories before n that go into the file have the component x. */
  ghost function Uses(dirs: Dirs, used: Option<seq<nat>>, n: nat, x: nat): nat
    requires n <= |dirs|
  {
    if n == 0 then 0 else Uses(dirs, used, n - 1, x) + if IsDir(dirs, n - 1) && Wanted(used, n - 1) && dirs[n - 1] == x then 1 else 0
  }

  lemma {:induction false} UsesSome(dirs: Dirs, used: Option<seq<nat>>, n: nat, d: nat)
    requires d < n <= |dirs| && IsDir(dirs, d) && Wanted(used, d)
    ensures Uses(dirs, used, n, dirs[d]) > 0
  {
    if d < n - 1 { UsesSome(dirs, used, n - 1, d); }
  }

  /** Count the components of the directories that go into the file. */
  method CountComponents(needid: array<Entry>, dirs: Dirs, used: Option<seq<nat>>, ghost reloff: nat, ghost rels: seq<Reldep>)
    requires Blocks(dirs) && (used.Some? ==> |used.value| == |dirs|) && (forall d :: IsDir(dirs, d) ==> dirs[d] < reloff)
    requires PartsNeeded(reloff, rels, Needs(needid[..]))
    modifies needid
    ensures PartsNeeded(reloff, rels, Needs(needid[..]))
    ensures NeedsGrew(old(needid[..]), needid[..], x => Uses(dirs, used, |dirs|, x))
  {
    hide Blocks, PartsNeeded;
    ghost var s0 := needid[..];
    PartsLength(reloff, rels, s0);
    BlocksBasics(dirs);
    UsesStart(dirs, used);
    var i := 1;
    while i < |dirs|
      invariant 1 <= i <= |dirs| && PartsNeeded(reloff, rels, Needs(needid[..]))
      invariant NeedsGrew(s0, needid[..], x => Uses(dirs, used, i, x))
    {
      ghost var s := needid[..];
      if (used.None? || used.value[i] != 0) && dirs[i] > 0 {
        Increment(needid, dirs[i]);
        StringKeeps(reloff, rels, dirs[i], s, needid[..]);
      }
      i := i + 1;
    }
  }

  lemma UsesStart(dirs: Dirs, used: Option<seq<nat>>)
    requires 1 <= |dirs|
    ensures forall x :: Uses(dirs, used, 1, x) == 0
  {
    assert forall x :: Uses(dirs, used, 0, x) == 0;
  }

  lemma PartsLength(reloff: nat, rels: seq<Reldep>, s: seq<Entry>)
    requires PartsNeeded(reloff, rels, Needs(s))
    ensures |s| == reloff + |rels| && ValidPool(reloff, rels)
  {
  }

  // ---- strings ----

  /** The strings of the file, by their new numbers from 1 on. */
  method FileStrings(needid: array<Entry>, strings: seq<seq<int>>, nstrings: nat) returns (texts: seq<seq<int>>)
    requires 1 <= nstrings <= needid.Length && forall k :: 1 <= k < nstrings ==> needid[k].mp < |strings|
    ensures |texts| == nstrings - 1 && forall k :: 1 <= k < nstrings ==> texts[k - 1] == strings[needid[k].mp]
  {
    texts := [];
    var k := 1;
    while k < nstrings
      invariant 1 <= k <= nstrings && |texts| == k - 1
      invariant forall l :: 1 <= l < k ==> texts[l - 1] == strings[needid[l].mp]
    {
      texts := texts + [strings[needid[k].mp]];
      k := k + 1;
    }
  }

  /** Look for a string, in place of the hash table. */
  method FindText(pool: seq<seq<int>>, text: seq<int>) returns (id: nat)
    ensures id != 0 ==> id < |pool| && pool[id] == text
  {
    id := 1;
    while id < |pool|
      invariant id >= 1
    {
      if pool[id] == text { return; }
      id := id + 1;
    }
    id := 0;
  }

  /** The string pool after reading the strings of a file, and the id of each number: '' is always 1, and others are found or added. */
  method Intern(pool0: seq<seq<int>>, texts: seq<seq<int>>) returns (pool: seq<seq<int>>, idmap: seq<nat>)
    requires 2 <= |pool0| && pool0[1] == []
    ensures pool0 <= pool && |idmap| == |texts| + 1 && idmap[0] == 0
    ensures forall k :: 1 <= k < |idmap| ==> 0 < idmap[k] < |pool| && pool[idmap[k]] == texts[k - 1] && (texts[k - 1] == [] ==> idmap[k] == 1)
  {
    pool, idmap := pool0, [0];
    var i := 0;
    while i < |texts|
      invariant i <= |texts| && |idmap| == i + 1 && pool0 <= pool && idmap[0] == 0
      invariant forall k :: 1 <= k <= i ==> 0 < idmap[k] < |pool| && pool[idmap[k]] == texts[k - 1] && (texts[k - 1] == [] ==> idmap[k] == 1)
    {
      var id: nat := 1;
      if texts[i] != [] {
        id := FindText(pool, texts[i]);
        if id == 0 {
          id := |pool|;
          pool := pool + [texts[i]];
        }
      }
      idmap := idmap + [id];
      i := i + 1;
    }
  }

  // ---- all together ----

  function NumberIn(t: seq<Entry>): nat -> nat { (x: nat) => if x < |t| then t[x].need else 0 }

  function IdIn(idmap: seq<nat>): nat -> nat { (x: nat) => if x < |idmap| then idmap[x] else 0 }

  /** The id of the reader for component c stands for the same text. */
  ghost predicate SameText(strings: seq<seq<int>>, pool: seq<seq<int>>, ids: nat -> nat, c: int) {
    0 < c < |strings| && 0 < ids(c) < |pool| && pool[ids(c)] == strings[c]
  }

  /** Directory d of the one table and n of the other have the same components as texts, from the root on. */
  ghost predicate SameComponents(strings: seq<seq<int>>, dirs: Dirs, pool: seq<seq<int>>, read: Dirs, d: nat, n: nat) {
    && Blocks(dirs) && Blocks(read) && IsDir(dirs, d) && IsDir(read, n) && |PathOf(read, n)| == |PathOf(dirs, d)|
    && forall i :: 0 <= i < |PathOf(dirs, d)| ==>
        && 0 <= PathOf(dirs, d)[i] < |strings| && 0 <= PathOf(read, n)[i] < |pool|
        && pool[PathOf(read, n)[i]] == strings[PathOf(dirs, d)[i]]
  }

  /** What holds of the components of all directories that go into the file holds of the whole path. */
  lemma {:induction false} PathTexts(dirs: Dirs, used: Option<seq<nat>>, strings: seq<seq<int>>, pool: seq<seq<int>>, ids: nat -> nat, d: nat)
    requires Blocks(dirs) && IsDir(dirs, d) && (d == 1 || Wanted(used, d)) && (used.Some? ==> Closed(dirs, used.value))
    requires forall e :: IsDir(dirs, e) && (e == 1 || Wanted(used, e)) ==> SameText(strings, pool, ids, dirs[e])
    ensures forall i :: 0 <= i < |PathOf(dirs, d)| ==> SameText(strings, pool, ids, PathOf(dirs, d)[i])
    decreases d
  {
    PathStepOf(dirs, d);
    RootIsOne(dirs);
    hide Blocks, SameText, PathOf;
    var p := ParentOf(dirs, d);
    if p != 0 {
      if used.Some? { assert ParentBusy(dirs, used.value, d); }
      PathTexts(dirs, used, strings, pool, ids, p);
    }
  }

  lemma ComponentsSame(dirs: Dirs, used: Option<seq<nat>>, strings: seq<seq<int>>, pool: seq<seq<int>>, ids: nat -> nat, read: Dirs, d: nat, n: nat)
    requires SamePath(dirs, read, ids, d, n) && (d == 1 || Wanted(used, d)) && (used.Some? ==> Closed(dirs, used.value))
    requires forall e :: IsDir(dirs, e) && (e == 1 || Wanted(used, e)) ==> SameText(strings, pool, ids, dirs[e])
    ensures SameComponents(strings, dirs, pool, read, d, n)
  {
    PathTexts(dirs, used, strings, pool, ids, d);
    hide Blocks, PathOf, Closed;
    var path := PathOf(dirs, d);
    forall i | 0 <= i < |path| ensures 0 <= path[i] < |strings| && PathOf(read, n)[i] == ids(path[i]) && SameText(strings, pool, ids, path[i]) {
    }
  }

  /** The strings of the file by number, and those the directories need among them. */
  ghost predicate FileOf(f: NeedWrite.Numbering, texts: seq<seq<int>>) {
    && f.Valid() && |texts| == f.nstrings - 1 && f.nstrings <= |f.t|
    && forall k :: 1 <= k < f.nstrings ==> f.t[k].mp < |f.strings| && texts[k - 1] == f.strings[f.t[k].mp]
  }

  ghost predicate NeedsNames(need: seq<nat>, dirs: Dirs, used: Option<seq<nat>>) {
    forall d :: IsDir(dirs, d) && Wanted(used, d) ==> dirs[d] < |need| && need[dirs[d]] > 0
  }

  /** The number of a needed string leads to its text. */
  lemma NumberedText(f: NeedWrite.Numbering, texts: seq<seq<int>>, pool: seq<seq<int>>, idmap: seq<nat>, c: nat)
    requires FileOf(f, texts) && |idmap| == f.nstrings && 1 <= c < |f.strings| && (c == 1 || f.need[c] > 0)
    requires forall k :: 1 <= k < |idmap| ==> 0 < idmap[k] < |pool| && pool[idmap[k]] == texts[k - 1]
    ensures 1 <= NumberIn(f.t)(c) < f.nstrings && SameText(f.strings, pool, Through(NumberIn(f.t), IdIn(idmap)), c)
  {
    NeedWrite.Sizes(f);
    NeedWrite.StringNumber(f, c);
  }

  /** The empty string keeps the number 1. */
  lemma EmptyIsFirst(f: NeedWrite.Numbering)
    requires f.Valid()
    ensures 2 <= f.nstrings && |f.t| > 1 && f.t[1].need == 1 && f.t[1].mp == 1
  {
    NeedWrite.Sizes(f);
    NeedWrite.StringNumber(f, 1);
    assert f.s[1] == NeedId.Entry(1, 1) && f.t[f.s[1].mp].need == 1 + (1 - 1);
  }

  /** What the numbering and the reader's ids are for the components of the directories that go into the file. */
  lemma ComponentsNumbered(f: NeedWrite.Numbering, dirs: Dirs, used: Option<seq<nat>>, texts: seq<seq<int>>, pool: seq<seq<int>>, idmap: seq<nat>)
    requires FileOf(f, texts) && NeedsNames(f.need, dirs, used) && |idmap| == |texts| + 1
    requires Blocks(dirs) && 1 < |f.strings| && f.strings[1] == [] && (forall d :: IsDir(dirs, d) ==> dirs[d] < |f.strings|)
    requires forall k :: 1 <= k < |idmap| ==> 0 < idmap[k] < |pool| && pool[idmap[k]] == texts[k - 1] && (texts[k - 1] == [] ==> idmap[k] == 1)
    ensures var need, ids := NumberIn(f.t), IdIn(idmap);
      && GoodNames(dirs, used, need) && ids(1) == 1
      && forall d :: IsDir(dirs, d) && (d == 1 || Wanted(used, d)) ==>
          1 <= need(dirs[d]) < f.nstrings && ids(need(dirs[d])) > 0 && SameText(f.strings, pool, Through(need, ids), dirs[d])
  {
    EmptyIsFirst(f);
    RootIsOne(dirs);
    hide Blocks;
    forall d | IsDir(dirs, d) && (d == 1 || Wanted(used, d))
      ensures 1 <= NumberIn(f.t)(dirs[d]) < f.nstrings && SameText(f.strings, pool, Through(NumberIn(f.t), IdIn(idmap)), dirs[d])
    {
      NumberedText(f, texts, pool, idmap, dirs[d]);
    }
    assert texts[0] == [];
  }

  /** The table entries of the numbers are strings. */
  lemma NumbersAreStrings(f: NeedWrite.Numbering)
    requires f.Valid()
    ensures 1 <= f.nstrings <= |f.t| && forall k :: 1 <= k < f.nstrings ==> f.t[k].mp < |f.strings|
  {
    NeedWrite.Sizes(f);
    forall k | 1 <= k < f.nstrings ensures f.t[k].mp < |f.strings| {
      NeedWrite.IdOfNumber(f, k);
    }
  }

  lemma Counted(was: seq<Entry>, now: seq<Entry>, dirs: Dirs, used: Option<seq<nat>>)
    requires NeedsGrew(was, now, x => Uses(dirs, used, |dirs|, x))
    requires forall d :: IsDir(dirs, d) ==> dirs[d] < |now|
    ensures NeedsNames(Needs(now), dirs, used)
  {
    forall d | IsDir(dirs, d) && Wanted(used, d) ensures Needs(now)[dirs[d]] > 0 {
      UsesSome(dirs, used, |dirs|, d);
    }
  }

  /** Count, sort and number the strings. */
  method NumberNames(needid: array<Entry>, dirs: Dirs, used: Option<seq<nat>>, strings: seq<seq<int>>, ghost rels: seq<Reldep>)
    returns (texts: seq<seq<int>>, nstrings: nat, ghost f: NeedWrite.Numbering)
    requires Blocks(dirs) && (used.Some? ==> |used.value| == |dirs|) && (forall d :: IsDir(dirs, d) ==> dirs[d] < |strings|)
    requires 2 <= |strings| < needid.Length && needid[0].mp == |strings| && strings[1] == []
    requires PartsNeeded(|strings|, rels, Needs(needid[..]))
    modifies needid
    ensures f.t == needid[..] && f.strings == strings && f.nstrings == nstrings
    ensures FileOf(f, texts) && NeedsNames(f.need, dirs, used)
  {
    ghost var s0 := needid[..];
    hide PartsNeeded, Blocks, NeedSort.Renumbered;
    CountComponents(needid, dirs, used, |strings|, rels);
    ghost var need := Needs(needid[..]);
    Counted(s0, needid[..], dirs, used);
    var nrels;
    ghost var s;
    nstrings, nrels, s := NeedSort.Renumber(needid, strings);
    f := NeedWrite.Numbering(rels, strings, need, s, needid[..], nstrings, nrels);
    NumbersAreStrings(f);
    texts := FileStrings(needid, strings, nstrings);
  }

  /** Count, sort and number the strings; renumber and write the directories; read the strings and the table back: every directory
   * that went into the file has the components it had, as texts.
   */
  method WriteAndReadDirectories(dp: Pool, used: Option<seq<nat>>, needid: array<Entry>, strings: seq<seq<int>>, ghost rels: seq<Reldep>,
                                 pool0: seq<seq<int>>)
    returns (newid: seq<nat>, read: Dirs, pool: seq<seq<int>>)
    requires dp.Valid() && dp.dirs != [] && forall d :: IsDir(dp.dirs, d) ==> dp.dirs[d] < |strings|
    requires used.Some? ==> Closed(dp.dirs, used.value) && Busy(dp.dirs, used.value) && used.value[0] == 2
    requires 2 <= |strings| < needid.Length && needid[0].mp == |strings| && strings[1] == []
    requires PartsNeeded(|strings|, rels, Needs(needid[..]))
    requires 2 <= |pool0| && pool0[1] == []
    modifies dp`dirtraverse, needid
    ensures dp.Valid() && |newid| == |dp.dirs| && pool0 <= pool && |read| <= |dp.dirs|
    ensures forall d :: IsDir(dp.dirs, d) ==> (newid[d] != 0 <==> d == 1 || used.None? || used.value[d] != 0)
    ensures forall d :: IsDir(dp.dirs, d) && newid[d] != 0 ==> SameComponents(strings, dp.dirs, pool, read, d, newid[d])
  {
    ghost var dirs := dp.dirs;
    assert used.Some? ==> |used.value| == |dirs|;
    hide Closed, Busy, PartsNeeded, Blocks, SameComponents, SamePath, SameText, GoodNames, NeedSort.Renumbered, FileOf, NeedsNames;
    var texts, nstrings;
    ghost var f;
    texts, nstrings, f := NumberNames(needid, dp.dirs, used, strings, rels);
    var idmap;
    pool, idmap := Intern(pool0, texts);
    ComponentsNumbered(f, dirs, used, texts, pool, idmap);
    var ok;
    newid, ok, read := RoundTrip(dp, used, NumberIn(needid[..]), nstrings, IdIn(idmap));
    forall d | IsDir(dirs, d) && newid[d] != 0 ensures SameComponents(strings, dirs, pool, read, d, newid[d]) {
      assert d == 1 || Wanted(used, d);
      ComponentsSame(dirs, used, strings, pool, Through(NumberIn(f.t), IdIn(idmap)), read, d, newid[d]);
    }
  }
}
