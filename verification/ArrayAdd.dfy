/** Adding to pending arrays (repodata_add_array, src/repodata.c): the lists in attriddata as lists of groups. */
module ArrayAdd {
  import opened Bytes
  import opened Fields
  import opened Internalize
  import opened Merge
  import opened Packing
  import opened Serialize
  import opened SetAttr

  type Group = seq<Id31>

  /** The groups of a list. */
  ghost function GroupsOf(ids: seq<Id31>, o: nat, n: nat): (r: seq<Group>)
    requires n >= 1 && Groups(ids, o, n)
    ensures forall k :: 0 <= k < |r| ==> |r[k]| == n && r[k][0] != 0
    decreases |ids| - o
  {
    if ids[o] == 0 then [] else [ids[o..o + n]] + GroupsOf(ids, o + n, n)
  }

  /** The place of the zero that ends a list. */
  ghost function EndOf(ids: seq<Id31>, o: nat, n: nat): (e: nat)
    requires n >= 1 && Groups(ids, o, n)
    ensures o <= e < |ids| && ids[e] == 0
    ensures e == o + n * |GroupsOf(ids, o, n)|
    decreases |ids| - o
  {
    if ids[o] == 0 then o else EndOf(ids, o + n, n)
  }

  // ---- the values depend on the groups only ----

  ghost function ValueOf(t: KeyType, attrdata: seq<Byte>, g: Group): KeyValue
    requires |g| == EntrySize(t) && (t.DirStrArray? ==> StrEnd(attrdata, g[1]).Some?)
  {
    if t.DirNumNumArray? then KeyValue(g[0], g[1], g[2], [])
    else if t.DirStrArray? then NO_VALUE.(id := g[0], str := attrdata[g[1]..StrEnd(attrdata, g[1]).value])
    else NO_VALUE.(id := g[0])
  }

  /** A group that can be stored: its strings are there, and its first id is not zero. */
  ghost predicate GroupFits(t: KeyType, attrdata: seq<Byte>, g: Group) {
    |g| == EntrySize(t) && g[0] != 0 && (t.DirStrArray? ==> StrEnd(attrdata, g[1]).Some?)
  }

  ghost predicate AllFit(t: KeyType, attrdata: seq<Byte>, gs: seq<Group>) {
    forall k :: 0 <= k < |gs| ==> GroupFits(t, attrdata, gs[k])
  }

  ghost function ValuesOf(t: KeyType, attrdata: seq<Byte>, gs: seq<Group>): seq<KeyValue>
    requires AllFit(t, attrdata, gs)
  {
    seq(|gs|, k requires 0 <= k < |gs| => ValueOf(t, attrdata, gs[k]))
  }

  lemma ValuesCons(t: KeyType, attrdata: seq<Byte>, g: Group, gs: seq<Group>)
    requires AllFit(t, attrdata, [g] + gs)
    ensures AllFit(t, attrdata, gs) && GroupFits(t, attrdata, g)
    ensures ValuesOf(t, attrdata, [g] + gs) == [ValueOf(t, attrdata, g)] + ValuesOf(t, attrdata, gs)
  {
    hide GroupFits, ValueOf;
    assert forall k :: 0 <= k < |gs| ==> gs[k] == ([g] + gs)[k + 1];
    assert g == ([g] + gs)[0];
  }

  lemma FitCons(t: KeyType, attrdata: seq<Byte>, g: Group, gs: seq<Group>)
    requires GroupFits(t, attrdata, g) && AllFit(t, attrdata, gs)
    ensures AllFit(t, attrdata, [g] + gs)
  {
  }

  /** A pending array that fits, in terms of its groups. */
  lemma {:induction false} ArrayFits(t: KeyType, st: Store, o: nat)
    requires IsArray(t) && Groups(st.attriddata, o, EntrySize(t))
    requires t.DirStrArray? ==> Strings(st, o)
    ensures var gs := GroupsOf(st.attriddata, o, EntrySize(t));
      && AllFit(t, st.attrdata, gs) && InStore(t, st, o) && Values(t, 0, st, o) == ValuesOf(t, st.attrdata, gs)
    decreases |st.attriddata| - o
  {
    var ids, n := st.attriddata, EntrySize(t);
    if ids[o] != 0 {
      ArrayFits(t, st, o + n);
      var g := ids[o..o + n];
      FitCons(t, st.attrdata, g, GroupsOf(ids, o + n, n));
      ValuesCons(t, st.attrdata, g, GroupsOf(ids, o + n, n));
    }
  }

  /** Groups that fit make an array that fits. */
  lemma {:induction false} GroupsFit(t: KeyType, st: Store, o: nat)
    requires IsArray(t) && Groups(st.attriddata, o, EntrySize(t))
    requires AllFit(t, st.attrdata, GroupsOf(st.attriddata, o, EntrySize(t)))
    ensures t.DirStrArray? ==> Strings(st, o)
    ensures InStore(t, st, o)
    decreases |st.attriddata| - o
  {
    var ids, n := st.attriddata, EntrySize(t);
    if ids[o] != 0 {
      var g := ids[o..o + n];
      ValuesCons(t, st.attrdata, g, GroupsOf(ids, o + n, n));
      GroupsFit(t, st, o + n);
    }
  }

  // ---- lists that stay, grow and move ----

  /** A list is the same in a store that agrees on it. */
  lemma {:induction false} SameList(ids: seq<Id31>, more: seq<Id31>, o: nat, n: nat)
    requires n >= 1 && Groups(ids, o, n) && EndOf(ids, o, n) < |more|
    requires forall k :: o <= k <= EndOf(ids, o, n) ==> more[k] == ids[k]
    ensures Groups(more, o, n) && GroupsOf(more, o, n) == GroupsOf(ids, o, n) && EndOf(more, o, n) == EndOf(ids, o, n)
    decreases |ids| - o
  {
    if ids[o] != 0 {
      SameList(ids, more, o + n, n);
      assert more[o..o + n] == ids[o..o + n];
    }
  }

  /** A group written over the end of a list becomes its last group. */
  lemma {:induction false} ListExtends(ids: seq<Id31>, more: seq<Id31>, o: nat, n: nat, g: Group)
    requires n >= 1 && |g| == n && g[0] != 0 && Groups(ids, o, n)
    requires var e := EndOf(ids, o, n);
      e + n < |more| && (forall k :: o <= k < e ==> more[k] == ids[k]) && more[e..e + n] == g && more[e + n] == 0
    ensures Groups(more, o, n) && GroupsOf(more, o, n) == GroupsOf(ids, o, n) + [g]
    ensures EndOf(more, o, n) == EndOf(ids, o, n) + n
    decreases |ids| - o
  {
    if ids[o] == 0 {
      OneGroup(more, o, n, g);
    } else {
      ListExtends(ids, more, o + n, n, g);
      SameSlice(ids, more, o, o + n);
      GroupsBehind([ids[o..o + n]], GroupsOf(ids, o + n, n), [g]);
    }
  }

  lemma SliceBehind(front: seq<Id31>, ids: seq<Id31>, lo: nat, hi: nat)
    requires lo <= hi <= |ids|
    ensures (front + ids)[|front| + lo..|front| + hi] == ids[lo..hi]
  {
  }

  lemma SameSlice(ids: seq<Id31>, more: seq<Id31>, lo: nat, hi: nat)
    requires lo <= hi <= |ids| && hi <= |more| && forall k :: lo <= k < hi ==> more[k] == ids[k]
    ensures more[lo..hi] == ids[lo..hi]
  {
  }

  /** A list does not depend on what is before it. */
  lemma {:induction false} Shifted(front: seq<Id31>, ids: seq<Id31>, o: nat, n: nat)
    requires n >= 1
    ensures Groups(front + ids, |front| + o, n) <==> Groups(ids, o, n)
    ensures Groups(ids, o, n) ==>
      GroupsOf(front + ids, |front| + o, n) == GroupsOf(ids, o, n) && EndOf(front + ids, |front| + o, n) == |front| + EndOf(ids, o, n)
    decreases |ids| - o
  {
    var all := front + ids;
    if o + n < |ids| && ids[o] != 0 {
      Shifted(front, ids, o + n, n);
      SliceBehind(front, ids, o, o + n);
    }
  }

  /** A list copied behind the store is the same list. */
  lemma ListMoves(ids: seq<Id31>, o: nat, n: nat, front: seq<Id31>)
    requires n >= 1 && Groups(ids, o, n)
    ensures var more := front + ids[o..EndOf(ids, o, n)] + [0];
      Groups(more, |front|, n) && GroupsOf(more, |front|, n) == GroupsOf(ids, o, n) && EndOf(more, |front|, n) == |more| - 1
  {
    var e, tail := EndOf(ids, o, n), ids[o..];
    assert ids[..o] + tail == ids;
    Shifted(ids[..o], tail, 0, n);
    var list := ids[o..e] + [0];
    SameList(tail, list, 0, n);
    Shifted(front, list, 0, n);
    assert front + list == front + ids[o..e] + [0];
  }

  lemma GroupsBehind(a: seq<Group>, b: seq<Group>, c: seq<Group>)
    ensures a + (b + c) == (a + b) + c
  {
  }

  /** A list of one group. */
  lemma OneGroup(ids: seq<Id31>, o: nat, n: nat, g: Group)
    requires n >= 1 && |g| == n && g[0] != 0 && o + n < |ids| && ids[o + n] == 0 && ids[o..o + n] == g
    ensures Groups(ids, o, n) && GroupsOf(ids, o, n) == [g] && EndOf(ids, o, n) == o + n
  {
    assert ids[o] == g[0];
    assert GroupsOf(ids, o + n, n) == [] && EndOf(ids, o + n, n) == o + n;
  }

  /** The loop that looks for the end of a list. */
  method FindEnd(ids: seq<Id31>, o: nat, n: nat) returns (ida: nat)
    requires n >= 1 && Groups(ids, o, n)
    ensures ida == EndOf(ids, o, n)
  {
    ida := o;
    while ids[ida] != 0
      invariant Groups(ids, ida, n) && EndOf(ids, ida, n) == EndOf(ids, o, n)
      decreases |ids| - ida
    {
      ida := ida + n;
    }
  }

  // ---- values ----

  lemma ValuesSnoc(t: KeyType, attrdata: seq<Byte>, gs: seq<Group>, g: Group)
    requires AllFit(t, attrdata, gs) && GroupFits(t, attrdata, g)
    ensures AllFit(t, attrdata, gs + [g])
    ensures ValuesOf(t, attrdata, gs + [g]) == ValuesOf(t, attrdata, gs) + [ValueOf(t, attrdata, g)]
  {
  }

  /** A list of groups that fit is an array with their values. */
  lemma ListIs(t: KeyType, st: Store, o: nat, gs: seq<Group>)
    requires IsArray(t) && Groups(st.attriddata, o, EntrySize(t)) && GroupsOf(st.attriddata, o, EntrySize(t)) == gs
    requires AllFit(t, st.attrdata, gs)
    ensures InStore(t, st, o) && Values(t, 0, st, o) == ValuesOf(t, st.attrdata, gs)
  {
    GroupsFit(t, st, o);
    ArrayFits(t, st, o);
  }

  /** The value is the list at the end of the store. */
  ghost predicate EndsLast(t: KeyType, st: Store, val: int) {
    && IsArray(t) && val >= 0 && Groups(st.attriddata, val, EntrySize(t))
    && EndOf(st.attriddata, val, EntrySize(t)) == |st.attriddata| - 1
  }

  /** The store with the group over its last id. */
  function Appended(st: Store, g: Group): Store
    requires st.attriddata != []
  {
    st.(attriddata := st.attriddata[..|st.attriddata| - 1] + g + [0])
  }

  /** Appending to the list at the end of the store adds an element to it. */
  lemma GroupAppended(t: KeyType, st: Store, o: int, g: Group)
    requires InStore(t, st, o) && EndsLast(t, st, o) && GroupFits(t, st.attrdata, g)
    ensures st.attriddata != [] && InStore(t, Appended(st, g), o) && EndsLast(t, Appended(st, g), o)
    ensures Values(t, 0, Appended(st, g), o) == Values(t, 0, st, o) + [ValueOf(t, st.attrdata, g)]
  {
    var ids, n, more := st.attriddata, EntrySize(t), Appended(st, g);
    var gs := GroupsOf(ids, o, n);
    ArrayFits(t, st, o);
    ValuesSnoc(t, st.attrdata, gs, g);
    ListExtends(ids, more.attriddata, o, n, g);
    hide Groups, GroupsOf, EndOf, InStore, Values, ValuesOf, AllFit, GroupFits;
    ListIs(t, more, o, gs + [g]);
  }

  /** Copied to the end of the store, a list stays what it is. */
  lemma ListCopied(t: KeyType, st: Store, o: int, e: nat)
    requires IsArray(t) && InStore(t, st, o) && e == EndOf(st.attriddata, o, EntrySize(t))
    ensures o <= e < |st.attriddata|
    ensures var more, p := st.(attriddata := st.attriddata + st.attriddata[o..e] + [0]), |st.attriddata|;
      InStore(t, more, p) && EndsLast(t, more, p) && Values(t, 0, more, p) == Values(t, 0, st, o)
  {
    var ids, n, more, p := st.attriddata, EntrySize(t), st.(attriddata := st.attriddata + st.attriddata[o..e] + [0]), |st.attriddata|;
    var gs := GroupsOf(ids, o, n);
    ArrayFits(t, st, o);
    ListMoves(ids, o, n, ids);
    hide Groups, GroupsOf, EndOf, InStore, Values, ValuesOf, AllFit, GroupFits;
    ListIs(t, more, p, gs);
  }

  /** A list of one element behind the store. */
  lemma GroupNew(t: KeyType, st: Store, g: Group)
    requires IsArray(t) && GroupFits(t, st.attrdata, g)
    ensures var more, o := st.(attriddata := st.attriddata + g + [0]), |st.attriddata|;
      InStore(t, more, o) && EndsLast(t, more, o) && Values(t, 0, more, o) == [ValueOf(t, st.attrdata, g)]
  {
    var more, o := st.(attriddata := st.attriddata + g + [0]), |st.attriddata|;
    OneGroup(more.attriddata, o, EntrySize(t), g);
    ListIs(t, more, o, [g]);
  }

  /** The stores agree but for ids from place m on. */
  ghost predicate SameBelow(st: Store, more: Store, m: nat) {
    && st.attrdata == more.attrdata && m <= |st.attriddata| && m <= |more.attriddata|
    && forall k :: 0 <= k < m ==> more.attriddata[k] == st.attriddata[k]
  }

  /** A list that ends before the changed part of the store stays what it is, and so does everything else. */
  lemma ValueKept(t: KeyType, size: nat, st: Store, more: Store, val: int, m: nat)
    requires InStore(t, st, val) && SameBelow(st, more, m)
    requires m >= |st.attriddata| - 1 && (EndsLast(t, st, val) ==> m == |st.attriddata|)
    ensures InStore(t, more, val) && Values(t, size, more, val) == Values(t, size, st, val)
    ensures |more.attriddata| > |st.attriddata| ==> !EndsLast(t, more, val)
  {
    if IsArray(t) {
      var ids, n := st.attriddata, EntrySize(t);
      var gs := GroupsOf(ids, val, n);
      ArrayFits(t, st, val);
        SameList(ids, more.attriddata, val, n);
      ListIs(t, more, val, gs);
    }
  }
}
