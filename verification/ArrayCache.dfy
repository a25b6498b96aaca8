/** Adding to pending arrays (repodata_add_array, src/repodata.c): all pending attributes, and the memory of the last addition. */
module ArrayCache {
  import opened ArrayAdd
  import opened Bytes
  import opened Fields
  import opened Internalize
  import opened Merge
  import opened Packing
  import opened Serialize
  import opened SetAttr

  ghost predicate IsNamed(keys: seq<Repokey>, a: Attr, name: nat) { a.key < |keys| && keys[a.key].name == name }

  ghost predicate IsTyped(keys: seq<Repokey>, a: Attr, t: KeyType) { a.key < |keys| && keys[a.key].ktype == t }

  /** The attribute is the list at the end of the store. */
  ghost predicate AttrLast(keys: seq<Repokey>, st: Store, a: Attr) { a.key < |keys| && EndsLast(keys[a.key].ktype, st, a.val) }

  /** Only the owner, a name of an entry, may be the list at the end of the store. */
  ghost predicate LastOwned(keys: seq<Repokey>, st: Store, pendings: seq<seq<Attr>>, owner: (nat, nat)) {
    forall j, i :: 0 <= j < |pendings| && 0 <= i < |pendings[j]| && AttrLast(keys, st, pendings[j][i]) ==>
      j == owner.0 && IsNamed(keys, pendings[j][i], owner.1)
  }

  ghost predicate HasName(keys: seq<Repokey>, list: seq<Attr>, name: nat) {
    exists i :: 0 <= i < |list| && IsNamed(keys, list[i], name)
  }

  /** Something is pending under the name, which is of type t exactly if it is the list at the end of the store. */
  ghost predicate TypedLast(keys: seq<Repokey>, st: Store, list: seq<Attr>, name: nat, t: KeyType) {
    && HasName(keys, list, name)
    && forall i :: 0 <= i < |list| && IsNamed(keys, list[i], name) ==> (IsTyped(keys, list[i], t) <==> AttrLast(keys, st, list[i]))
  }

  /** The last addition was to the owner, if nothing was added to the store since. */
  ghost predicate CacheRight(keys: seq<Repokey>, st: Store, pendings: seq<seq<Attr>>, h: nat, k: nat, len: nat, owner: (nat, nat)) {
    && k < |keys| && !IsArray(keys[0].ktype) && len <= |st.attriddata| && LastOwned(keys, st, pendings, owner)
    && (IsArray(keys[k].ktype) ==> len >= 1)
    && (IsArray(keys[k].ktype) && len == |st.attriddata| ==>
      owner == (h, keys[k].name) && h < |pendings| && TypedLast(keys, st, pendings[h], keys[k].name, keys[k].ktype))
  }

  // ---- what stays ----

  ghost function AttrValues(keys: seq<Repokey>, st: Store, a: Attr): seq<KeyValue> {
    if a.key < |keys| && InStore(keys[a.key].ktype, st, a.val) then Values(keys[a.key].ktype, keys[a.key].size, st, a.val) else []
  }

  ghost predicate AttrKept(keys: seq<Repokey>, st: Store, more: Store, a: Attr) {
    a.key < |keys| && AttrStored(keys, st, a) && AttrStored(keys, more, a) && AttrValues(keys, more, a) == AttrValues(keys, st, a)
  }

  /** Everything but what has the name in entry j. */
  ghost predicate OthersKept(keys: seq<Repokey>, st: Store, pendings: seq<seq<Attr>>, more: Store, j: nat, name: nat) {
    forall j2, i :: 0 <= j2 < |pendings| && 0 <= i < |pendings[j2]| && (j2 == j ==> !IsNamed(keys, pendings[j2][i], name)) ==>
      AttrKept(keys, st, more, pendings[j2][i])
  }

  ghost predicate AllKept(keys: seq<Repokey>, st: Store, pendings: seq<seq<Attr>>, more: Store) {
    forall j, i :: 0 <= j < |pendings| && 0 <= i < |pendings[j]| ==> AttrKept(keys, st, more, pendings[j][i])
  }

  ghost predicate NoneLast(keys: seq<Repokey>, st: Store, pendings: seq<seq<Attr>>) {
    forall j, i :: 0 <= j < |pendings| && 0 <= i < |pendings[j]| ==> !AttrLast(keys, st, pendings[j][i])
  }

  /** The values of a2 are those of a, and the element g. */
  ghost predicate Longer(keys: seq<Repokey>, st: Store, a: Attr, st': Store, a2: Attr, g: Group) {
    && a.key < |keys| && GroupFits(keys[a.key].ktype, st.attrdata, g)
    && AttrValues(keys, st', a2) == AttrValues(keys, st, a) + [ValueOf(keys[a.key].ktype, st.attrdata, g)]
  }

  lemma AttrStays(keys: seq<Repokey>, st: Store, more: Store, a: Attr, m: nat)
    requires a.key < |keys| && AttrStored(keys, st, a) && SameBelow(st, more, m) && m >= |st.attriddata| - 1
    requires AttrLast(keys, st, a) ==> m == |st.attriddata|
    ensures AttrKept(keys, st, more, a)
    ensures |more.attriddata| > |st.attriddata| ==> !AttrLast(keys, more, a)
  {
    ValueKept(keys[a.key].ktype, keys[a.key].size, st, more, a.val, m);
  }

  lemma FitsAt(keys: seq<Repokey>, st: Store, pendings: seq<seq<Attr>>, j: nat, i: nat)
    requires Pendings(keys, st, pendings) && j < |pendings| && i < |pendings[j]|
    ensures 0 < pendings[j][i].key < |keys| && AttrStored(keys, st, pendings[j][i])
  {
    assert PendingStored(keys, st, pendings[j]);
  }

  lemma StillFits(keys: seq<Repokey>, st: Store, pendings: seq<seq<Attr>>, more: Store)
    requires Pendings(keys, st, pendings)
    requires forall j, i :: 0 <= j < |pendings| && 0 <= i < |pendings[j]| ==> pendings[j][i].key < |keys| && AttrStored(keys, more, pendings[j][i])
    ensures Pendings(keys, more, pendings)
  {
    hide AttrStored;
    forall j | 0 <= j < |pendings| ensures PendingStored(keys, more, pendings[j]) && NamesDistinct(keys, pendings[j]) {
      assert PendingStored(keys, st, pendings[j]);
    }
  }

  /** Nothing pending changes when the store grows, or when its last id belongs to no list. */
  lemma StoreGrows(keys: seq<Repokey>, st: Store, pendings: seq<seq<Attr>>, more: Store, m: nat)
    requires Pendings(keys, st, pendings) && SameBelow(st, more, m) && m >= |st.attriddata| - 1 && |more.attriddata| > |st.attriddata|
    requires m == |st.attriddata| || NoneLast(keys, st, pendings)
    ensures Pendings(keys, more, pendings) && AllKept(keys, st, pendings, more) && NoneLast(keys, more, pendings)
  {
    forall j, i | 0 <= j < |pendings| && 0 <= i < |pendings[j]|
      ensures AttrKept(keys, st, more, pendings[j][i]) && !AttrLast(keys, more, pendings[j][i])
    {
      FitsAt(keys, st, pendings, j, i);
      hide AttrStored, Pendings, EndsLast, SameBelow;
      AttrStays(keys, st, more, pendings[j][i], m);
    }
    hide AttrStored, AttrLast;
    StillFits(keys, st, pendings, more);
  }

  /** More bytes and ids behind the store change nothing. */
  lemma GrownKeeps(keys: seq<Repokey>, st: Store, pendings: seq<seq<Attr>>, more: Store)
    requires Pendings(keys, st, pendings) && Grown(st, more)
    ensures Pendings(keys, more, pendings) && AllKept(keys, st, pendings, more)
  {
    forall j, i | 0 <= j < |pendings| && 0 <= i < |pendings[j]| ensures AttrKept(keys, st, more, pendings[j][i]) {
      FitsAt(keys, st, pendings, j, i);
      var a := pendings[j][i];
      hide Pendings, InStore, Values, Grown;
      ValueStays(keys[a.key].ktype, keys[a.key].size, st, more, a.val);
    }
    hide AttrStored;
    StillFits(keys, st, pendings, more);
  }

  /** Appending to the list at the end of the store changes what is pending for its owner, and for no one else. */
  lemma OwnerGrows(keys: seq<Repokey>, st: Store, pendings: seq<seq<Attr>>, j: nat, p: nat, name: nat, g: Group)
    requires Pendings(keys, st, pendings) && LastOwned(keys, st, pendings, (j, name)) && j < |pendings| && p < |pendings[j]|
    requires AttrLast(keys, st, pendings[j][p]) && GroupFits(keys[pendings[j][p].key].ktype, st.attrdata, g)
    ensures st.attriddata != [] && Pendings(keys, Appended(st, g), pendings) && OthersKept(keys, st, pendings, Appended(st, g), j, name)
    ensures LastOwned(keys, Appended(st, g), pendings, (j, name)) && AttrLast(keys, Appended(st, g), pendings[j][p])
    ensures Longer(keys, st, pendings[j][p], Appended(st, g), pendings[j][p], g)
  {
    var a := pendings[j][p];
    var t := keys[a.key].ktype;
    FitsAt(keys, st, pendings, j, p);
    GroupAppended(t, st, a.val, g);
    var more := Appended(st, g);
    ArraySize(t, keys[a.key].size, st, a.val);
    ArraySize(t, keys[a.key].size, more, a.val);
    forall j2, i | 0 <= j2 < |pendings| && 0 <= i < |pendings[j2]| && (j2 != j || i != p)
      ensures AttrKept(keys, st, more, pendings[j2][i]) && !AttrLast(keys, more, pendings[j2][i])
    {
      FitsAt(keys, st, pendings, j2, i);
      OnlyOneLast(keys, st, pendings, j, p, name, j2, i);
      hide AttrStored, Pendings, EndsLast, LastOwned;
      AttrStays(keys, st, more, pendings[j2][i], |st.attriddata| - 1);
    }
    assert AttrStored(keys, more, a) && AttrLast(keys, more, a);
    assert IsNamed(keys, a, name);
    hide AttrStored, AttrLast, IsNamed;
    StillFits(keys, st, pendings, more);
  }

  lemma ArraySize(t: KeyType, size: nat, st: Store, val: int)
    requires IsArray(t) && InStore(t, st, val)
    ensures Values(t, size, st, val) == Values(t, 0, st, val)
  {
  }

  lemma OnlyOneLast(keys: seq<Repokey>, st: Store, pendings: seq<seq<Attr>>, j: nat, p: nat, name: nat, j2: nat, i: nat)
    requires Pendings(keys, st, pendings) && LastOwned(keys, st, pendings, (j, name)) && j < |pendings| && p < |pendings[j]|
    requires AttrLast(keys, st, pendings[j][p]) && j2 < |pendings| && i < |pendings[j2]| && (j2 != j || i != p)
    ensures !AttrLast(keys, st, pendings[j2][i])
  {
    hide EndsLast, PendingStored;
    assert NamesDistinct(keys, pendings[j]);
  }

  // ---- the memory of the last addition ----

  lemma CacheKeysGrow(keys: seq<Repokey>, key: Repokey, st: Store, pendings: seq<seq<Attr>>, h: nat, k: nat, len: nat, owner: (nat, nat))
    requires Pendings(keys, st, pendings) && CacheRight(keys, st, pendings, h, k, len, owner)
    ensures CacheRight(keys + [key], st, pendings, h, k, len, owner)
  {
    forall j, i | 0 <= j < |pendings| && 0 <= i < |pendings[j]| ensures pendings[j][i].key < |keys| {
      FitsAt(keys, st, pendings, j, i);
    }
    hide Pendings, EndsLast;
    assert forall a: Attr :: a.key < |keys| ==> (IsNamed(keys + [key], a, keys[k].name) <==> IsNamed(keys, a, keys[k].name));
  }

  lemma NameStays(keys: seq<Repokey>, list: seq<Attr>, news: seq<Attr>, name: nat, p: nat)
    requires HasName(keys, list, name) && |list| <= |news| && forall i :: 0 <= i < |list| && i != p ==> list[i] == news[i]
    requires p < |list| && IsNamed(keys, list[p], name) ==> IsNamed(keys, news[p], name)
    ensures HasName(keys, news, name)
  {
    var i :| 0 <= i < |list| && IsNamed(keys, list[i], name);
    assert IsNamed(keys, news[i], name);
  }

  /** Setting an attribute that is no array, or a new list that was put behind the store. */
  lemma CachePut(keys: seq<Repokey>, st: Store, pendings: seq<seq<Attr>>, h: nat, k: nat, len: nat, owner: (nat, nat), j: nat, list: seq<Attr>, p: nat)
    requires CacheRight(keys, st, pendings, h, k, len, owner) && j < |pendings| && p < |list| && list[p].key < |keys|
    requires |pendings[j]| <= |list| && forall i :: 0 <= i < |list| && i != p ==> i < |pendings[j]| && list[i] == pendings[j][i]
    requires p < |pendings[j]| ==> IsNamed(keys, pendings[j][p], keys[list[p].key].name)
    requires IsArray(keys[list[p].key].ktype) ==> len < |st.attriddata| && owner == (j, keys[list[p].key].name)
    ensures CacheRight(keys, st, pendings[j := list], h, k, len, owner)
  {
    var news := pendings[j := list];
    hide Groups, EndOf;
    assert AttrLast(keys, st, list[p]) ==> IsArray(keys[list[p].key].ktype);
    hide EndsLast;
    assert LastOwned(keys, st, news, owner);
    if IsArray(keys[k].ktype) && len == |st.attriddata| {
      NameStays(keys, pendings[h], news[h], keys[k].name, if h == j then p else |news[h]|);
      assert TypedLast(keys, st, news[h], keys[k].name, keys[k].ktype);
    }
  }

  /** The ids stay, and the bytes grow. */
  lemma CacheSameIds(keys: seq<Repokey>, st: Store, more: Store, pendings: seq<seq<Attr>>, h: nat, k: nat, len: nat, owner: (nat, nat))
    requires CacheRight(keys, st, pendings, h, k, len, owner) && more.attriddata == st.attriddata
    ensures CacheRight(keys, more, pendings, h, k, len, owner)
  {
    assert forall a: Attr :: AttrLast(keys, more, a) <==> AttrLast(keys, st, a);
    hide AttrLast;
  }

  /** After the store has grown, no one owns its end. */
  lemma CacheGrows(keys: seq<Repokey>, st: Store, more: Store, pendings: seq<seq<Attr>>, h: nat, k: nat, len: nat, owner: (nat, nat), next: (nat, nat))
    requires CacheRight(keys, st, pendings, h, k, len, owner) && |more.attriddata| > |st.attriddata| && NoneLast(keys, more, pendings)
    ensures CacheRight(keys, more, pendings, h, k, len, next)
  {
    hide AttrLast, TypedLast;
  }

  /** With nothing pending and an empty store. */
  lemma EmptyCache(keys: seq<Repokey>, st: Store, pendings: seq<seq<Attr>>, owner: (nat, nat))
    requires keys != [] && !IsArray(keys[0].ktype) && forall j :: 0 <= j < |pendings| ==> pendings[j] == []
    ensures CacheRight(keys, st, pendings, 0, 0, 0, owner)
  {
  }

  lemma NoneOwned(keys: seq<Repokey>, st: Store, pendings: seq<seq<Attr>>, owner: (nat, nat))
    requires NoneLast(keys, st, pendings)
    ensures LastOwned(keys, st, pendings, owner)
  {
    hide AttrLast;
  }

  /** What is pending under a name, and is the list at the end of the store. */
  lemma TypedIs(keys: seq<Repokey>, st: Store, list: seq<Attr>, name: nat, a: Attr)
    requires NamesDistinct(keys, list) && PendingNamed(keys, list, name) == Some(a) && AttrLast(keys, st, a)
    ensures a.key < |keys| && TypedLast(keys, st, list, name, keys[a.key].ktype)
  {
    PendingNamedIs(keys, list, name);
    hide AttrLast, PendingNamed;
  }

  /** A new list of one element. */
  lemma NewAttr(keys: seq<Repokey>, st: Store, keyid: nat, g: Group)
    requires keyid < |keys| && IsArray(keys[keyid].ktype) && GroupFits(keys[keyid].ktype, st.attrdata, g)
    ensures var more, a := st.(attriddata := st.attriddata + g + [0]), Attr(keyid, |st.attriddata|);
      AttrStored(keys, more, a) && AttrLast(keys, more, a) && AttrValues(keys, more, a) == [ValueOf(keys[keyid].ktype, st.attrdata, g)]
  {
    var t, more := keys[keyid].ktype, st.(attriddata := st.attriddata + g + [0]);
    hide EndsLast, InStore, Values, ValueOf, GroupFits;
    GroupNew(t, st, g);
    ArraySize(t, keys[keyid].size, more, |st.attriddata|);
  }

  /** A list at the end of the store that is put into entry j. */
  lemma PutIsLast(keys: seq<Repokey>, st: Store, pendings: seq<seq<Attr>>, st': Store, news: seq<seq<Attr>>, j: nat, a: Attr)
    requires Pendings(keys, st, pendings) && j < |pendings| && AllKept(keys, st, pendings, st') && AttrLast(keys, st', a)
    requires AttrStored(keys, st', a) && Pendings(keys, st', news) && forall i :: 0 <= i < |pendings[j]| ==> pendings[j][i].key < |keys|
    requires news == pendings[j := Put(keys, pendings[j], a)]
    ensures TypedLast(keys, st', news[j], keys[a.key].name, keys[a.key].ktype)
    ensures OthersKept(keys, st, pendings, st', j, keys[a.key].name)
  {
    assert NamesDistinct(keys, pendings[j]);
    assert NamesDistinct(keys, news[j]);
    hide PendingStored, EndsLast, AttrKept, Put, TypedLast, PendingNamed;
    PutMeans(keys, pendings[j], a, keys[a.key].name);
    TypedIs(keys, st', news[j], keys[a.key].name, a);
  }

  /** The attribute is an array whose list ends at e. */
  ghost predicate ListEnds(keys: seq<Repokey>, st: Store, a: Attr, e: nat) {
    && a.key < |keys| && IsArray(keys[a.key].ktype) && a.val >= 0
    && Groups(st.attriddata, a.val, EntrySize(keys[a.key].ktype)) && e == EndOf(st.attriddata, a.val, EntrySize(keys[a.key].ktype))
  }

  lemma ListMoved(keys: seq<Repokey>, st: Store, pendings: seq<seq<Attr>>, j: nat, p: nat, e: nat)
    requires Pendings(keys, st, pendings) && j < |pendings| && p < |pendings[j]| && ListEnds(keys, st, pendings[j][p], e)
    ensures 0 <= pendings[j][p].val <= e < |st.attriddata|
    ensures var a := pendings[j][p];
      var more, moved := st.(attriddata := st.attriddata + st.attriddata[a.val..e] + [0]), Attr(a.key, |st.attriddata|);
      a.key < |keys| && AttrStored(keys, more, moved) && AttrLast(keys, more, moved) && AttrValues(keys, more, moved) == AttrValues(keys, st, a)
  {
    var a := pendings[j][p];
    FitsAt(keys, st, pendings, j, p);
    var t, size := keys[a.key].ktype, keys[a.key].size;
    hide Groups, EndOf, EndsLast, Pendings, InStore, Values;
    ListCopied(t, st, a.val, e);
    ArraySize(t, size, st, a.val);
    ArraySize(t, size, st.(attriddata := st.attriddata + st.attriddata[a.val..e] + [0]), |st.attriddata|);
  }

  /** Attribute p of entry j may be replaced by another value of its key. */
  lemma PutAt(keys: seq<Repokey>, st: Store, pendings: seq<seq<Attr>>, j: nat, p: nat, a: Attr)
    requires Pendings(keys, st, pendings) && j < |pendings| && p < |pendings[j]| && a.key == pendings[j][p].key < |keys|
    requires AttrStored(keys, st, a)
    ensures forall i :: 0 <= i < |pendings[j]| ==> pendings[j][i].key < |keys|
    ensures pendings[j][p := a] == Put(keys, pendings[j], a) && 0 < a.key
    ensures PendingStored(keys, st, pendings[j][p := a]) && NamesDistinct(keys, pendings[j][p := a])
  {
    FitsAt(keys, st, pendings, j, p);
    assert PendingStored(keys, st, pendings[j]) && NamesDistinct(keys, pendings[j]);
    FirstPlace(keys, pendings[j], keys[a.key].name, p);
    hide AttrStored, PendingStored;
    PutValid(keys, st, pendings[j], a);
  }

  lemma ArrayAt(keys: seq<Repokey>, st: Store, pendings: seq<seq<Attr>>, j: nat, p: nat)
    requires Pendings(keys, st, pendings) && j < |pendings| && p < |pendings[j]| && pendings[j][p].key < |keys|
    requires IsArray(keys[pendings[j][p].key].ktype)
    ensures pendings[j][p].val >= 0 && Groups(st.attriddata, pendings[j][p].val, EntrySize(keys[pendings[j][p].key].ktype))
  {
    FitsAt(keys, st, pendings, j, p);
  }

  /** A list that ends at the end of the store is that of the owner. */
  lemma EndIs(keys: seq<Repokey>, st: Store, pendings: seq<seq<Attr>>, j: nat, p: nat, e: nat, owner: (nat, nat))
    requires Pendings(keys, st, pendings) && j < |pendings| && p < |pendings[j]| && pendings[j][p].key < |keys|
    requires IsArray(keys[pendings[j][p].key].ktype) && LastOwned(keys, st, pendings, owner)
    requires pendings[j][p].val >= 0 && Groups(st.attriddata, pendings[j][p].val, EntrySize(keys[pendings[j][p].key].ktype))
    requires e == EndOf(st.attriddata, pendings[j][p].val, EntrySize(keys[pendings[j][p].key].ktype))
    ensures ListEnds(keys, st, pendings[j][p], e) && AllKept(keys, st, pendings, st)
    ensures e + 1 == |st.attriddata| ==> AttrLast(keys, st, pendings[j][p]) && owner == (j, keys[pendings[j][p].key].name)
  {
    forall j2, i | 0 <= j2 < |pendings| && 0 <= i < |pendings[j2]| ensures AttrKept(keys, st, st, pendings[j2][i]) {
      FitsAt(keys, st, pendings, j2, i);
    }
  }

  /** The list at the end of the store grew, after it may have been moved there. */
  lemma FoundAdded(keys: seq<Repokey>, st: Store, pendings: seq<seq<Attr>>, mid: Store, news: seq<seq<Attr>>, st': Store, j: nat, p: nat, a: Attr, g: Group)
    requires Pendings(keys, st, pendings) && j < |pendings| && p < |pendings[j]| && a.key == pendings[j][p].key < |keys|
    requires AllKept(keys, st, pendings, mid) && st.attrdata == mid.attrdata && AttrValues(keys, mid, a) == AttrValues(keys, st, pendings[j][p])
    requires news == pendings[j := pendings[j][p := a]] && Pendings(keys, st', news) && OthersKept(keys, mid, news, st', j, keys[a.key].name)
    requires Longer(keys, mid, a, st', a, g) && AttrLast(keys, st', a)
    ensures forall i :: 0 <= i < |pendings[j]| ==> pendings[j][i].key < |keys|
    ensures news == pendings[j := Put(keys, pendings[j], a)] && 0 < a.key && TypedLast(keys, st', news[j], keys[a.key].name, keys[a.key].ktype)
    ensures OthersKept(keys, st, pendings, st', j, keys[a.key].name) && Longer(keys, st, pendings[j][p], st', a, g)
  {
    assert news[j][p] == a;
    FitsAt(keys, st', news, j, p);
    assert PendingStored(keys, st, pendings[j]) && NamesDistinct(keys, pendings[j]) && NamesDistinct(keys, news[j]);
    FirstPlace(keys, pendings[j], keys[a.key].name, p);
    hide AttrStored, PendingStored, AttrLast, AttrValues, PendingNamed, TypedLast;
    PutMeans(keys, pendings[j], a, keys[a.key].name);
    TypedIs(keys, st', news[j], keys[a.key].name, a);
    forall j2, i | 0 <= j2 < |pendings| && 0 <= i < |pendings[j2]| && (j2 == j ==> !IsNamed(keys, pendings[j2][i], keys[a.key].name))
      ensures AttrKept(keys, st, st', pendings[j2][i])
    {
      assert j2 == j ==> i != p;
      assert news[j2][i] == pendings[j2][i];
    }
  }

  /** An attribute of type t is pending under the name. */
  ghost predicate Pends(keys: seq<Repokey>, list: seq<Attr>, name: nat, t: KeyType)
    requires forall i :: 0 <= i < |list| ==> list[i].key < |keys|
  {
    var a := PendingNamed(keys, list, name);
    a.Some? && IsTyped(keys, a.value, t)
  }

  /** The memory of the last addition matches: what is pending under its name is the list at the end, or nothing is. */
  lemma HitIs(keys: seq<Repokey>, st: Store, pendings: seq<seq<Attr>>, j: nat, k: nat, owner: (nat, nat))
    requires Pendings(keys, st, pendings) && j < |pendings| && k < |keys| && LastOwned(keys, st, pendings, owner)
    requires owner == (j, keys[k].name) && TypedLast(keys, st, pendings[j], keys[k].name, keys[k].ktype)
    ensures forall i :: 0 <= i < |pendings[j]| ==> pendings[j][i].key < |keys|
    ensures var list, name, t := pendings[j], keys[k].name, keys[k].ktype; var p := PlaceOf(keys, list, name);
      if Pends(keys, list, name, t) then
        p < |list| && PendingNamed(keys, list, name) == Some(list[p]) && IsTyped(keys, list[p], t) && AttrLast(keys, st, list[p])
      else NoneLast(keys, st, pendings) && HasName(keys, list, name)
  {
    var list, name, t := pendings[j], keys[k].name, keys[k].ktype;
    assert PendingStored(keys, st, list) && NamesDistinct(keys, list);
    PendingIsPlace(keys, list, name);
    hide AttrLast, PendingNamed, PendingStored, Pendings;
    if !Pends(keys, list, name, t) {
      assert forall i :: 0 <= i < |list| && IsNamed(keys, list[i], name) ==> i == PlaceOf(keys, list, name);
    }
  }

  /** An element was added to what is pending under the name, or, if that is not of the type, to nothing. */
  ghost predicate HereResult(keys: seq<Repokey>, st: Store, pendings: seq<seq<Attr>>, st': Store, j: nat, name: nat, t: KeyType, g: Group) {
    && Pendings(keys, st, pendings) && j < |pendings| && (forall i :: 0 <= i < |pendings[j]| ==> pendings[j][i].key < |keys|)
    && if Pends(keys, pendings[j], name, t) then
        var a := PendingNamed(keys, pendings[j], name).value;
        && IsNamed(keys, a, name) && pendings == pendings[j := Put(keys, pendings[j], a)]
        && OthersKept(keys, st, pendings, st', j, name) && Longer(keys, st, a, st', a, g)
      else AllKept(keys, st, pendings, st')
  }

  lemma HereAdded(keys: seq<Repokey>, st: Store, pendings: seq<seq<Attr>>, st': Store, j: nat, name: nat, t: KeyType, g: Group)
    requires Pendings(keys, st, pendings) && j < |pendings| && forall i :: 0 <= i < |pendings[j]| ==> pendings[j][i].key < |keys|
    requires HasName(keys, pendings[j], name)
    requires var a := PendingNamed(keys, pendings[j], name);
      if Pends(keys, pendings[j], name, t) then
        AttrLast(keys, st', a.value) && OthersKept(keys, st, pendings, st', j, name) && Longer(keys, st, a.value, st', a.value, g)
      else NoneLast(keys, st', pendings) && AllKept(keys, st, pendings, st')
    ensures TypedLast(keys, st', pendings[j], name, t) && HereResult(keys, st, pendings, st', j, name, t, g)
  {
    var list := pendings[j];
    assert PendingStored(keys, st, list) && NamesDistinct(keys, list);
    hide OthersKept, Longer, AllKept, AttrLast, NoneLast, TypedLast;
    PendingNamedIs(keys, list, name);
    PendingIsPlace(keys, list, name);
    if Pends(keys, list, name, t) {
      PutSame(keys, list, PlaceOf(keys, list, name));
      TypedIs(keys, st', list, name, PendingNamed(keys, list, name).value);
    } else {
      NothingTyped(keys, st', pendings, j, name, t);
    }
  }

  lemma NothingTyped(keys: seq<Repokey>, st: Store, pendings: seq<seq<Attr>>, j: nat, name: nat, t: KeyType)
    requires j < |pendings| && NamesDistinct(keys, pendings[j]) && !Pends(keys, pendings[j], name, t) && NoneLast(keys, st, pendings)
    requires HasName(keys, pendings[j], name)
    ensures TypedLast(keys, st, pendings[j], name, t)
  {
    var list := pendings[j];
    PendingNamedIs(keys, list, name);
    hide AttrLast, PendingNamed;
    forall i | 0 <= i < |list| && IsNamed(keys, list[i], name) ensures !IsTyped(keys, list[i], t) && !AttrLast(keys, st, list[i]) {
      assert list[i] == PendingNamed(keys, list, name).value;
    }
  }

  lemma OnlyThatKey(keys: seq<Repokey>, st: Store, list: seq<Attr>, k: nat)
    requires OneKeyPerName(keys) && 0 < k < |keys| && TypedLast(keys, st, list, keys[k].name, keys[k].ktype)
    requires forall i :: 0 <= i < |list| ==> 0 < list[i].key < |keys|
    ensures Pends(keys, list, keys[k].name, keys[k].ktype)
  {
    PendingNamedIs(keys, list, keys[k].name);
    hide PendingNamed, AttrLast;
  }

  // ---- the effect of adding ----

  /** What is pending under the name is what was before, if it is of type t, and the new element behind it. */
  ghost predicate ElementAdded(keys: seq<Repokey>, st: Store, list: seq<Attr>, st': Store, list': seq<Attr>, name: nat, t: KeyType, v: KeyValue)
    requires NamesDistinct(keys, list) && NamesDistinct(keys, list')
  {
    var was, now := PendingNamed(keys, list, name), PendingNamed(keys, list', name);
    && now.Some? && IsTyped(keys, now.value, t)
    && AttrValues(keys, st', now.value) == (if was.Some? && IsTyped(keys, was.value, t) then AttrValues(keys, st, was.value) else []) + [v]
  }

  /** The same is pending under the name, with the same values. */
  ghost predicate NameKept(keys: seq<Repokey>, st: Store, list: seq<Attr>, st': Store, list': seq<Attr>, name: nat)
    requires NamesDistinct(keys, list) && NamesDistinct(keys, list')
  {
    var was, now := PendingNamed(keys, list, name), PendingNamed(keys, list', name);
    now == was && (was.Some? ==> AttrKept(keys, st, st', was.value))
  }

  lemma SameNames(keys: seq<Repokey>, st: Store, list: seq<Attr>, st': Store, name: nat)
    requires NamesDistinct(keys, list)
    requires forall i :: 0 <= i < |list| && IsNamed(keys, list[i], name) ==> AttrKept(keys, st, st', list[i])
    ensures NameKept(keys, st, list, st', list, name)
  {
    hide AttrKept;
    PendingNamedIs(keys, list, name);
  }

  lemma PutKeeps(keys: seq<Repokey>, st: Store, list: seq<Attr>, st': Store, a: Attr, name: nat)
    requires NamesDistinct(keys, list) && a.key < |keys| && NamesDistinct(keys, Put(keys, list, a)) && name != keys[a.key].name
    requires forall i :: 0 <= i < |list| && IsNamed(keys, list[i], name) ==> AttrKept(keys, st, st', list[i])
    ensures NameKept(keys, st, list, st', Put(keys, list, a), name)
  {
    hide AttrKept;
    PutMeans(keys, list, a, name);
    SameNames(keys, st, list, st', name);
  }

  /** The same for entry j of all that is pending. */
  ghost predicate NameKeptIn(keys: seq<Repokey>, st: Store, pendings: seq<seq<Attr>>, st': Store, pendings': seq<seq<Attr>>, j: nat, name: nat) {
    && j < |pendings| == |pendings'| && NamesDistinct(keys, pendings[j]) && NamesDistinct(keys, pendings'[j])
    && NameKept(keys, st, pendings[j], st', pendings'[j], name)
  }

  /** All names but that of a are kept when a is put into entry j. */
  lemma NamesKept(keys: seq<Repokey>, st: Store, pendings: seq<seq<Attr>>, st': Store, news: seq<seq<Attr>>, j: nat, a: Attr)
    requires Pendings(keys, st, pendings) && j < |pendings| && a.key < |keys| && OthersKept(keys, st, pendings, st', j, keys[a.key].name)
    requires NamesDistinct(keys, pendings[j]) && NamesDistinct(keys, Put(keys, pendings[j], a))
    requires news == pendings[j := Put(keys, pendings[j], a)]
    ensures forall j2: nat, name: nat :: j2 < |pendings| && (j2 != j || name != keys[a.key].name) ==>
      NameKeptIn(keys, st, pendings, st', news, j2, name)
  {
    hide AttrKept, PendingStored, NameKept, Put;
    forall j2: nat, name: nat | j2 < |pendings| && (j2 != j || name != keys[a.key].name)
      ensures NameKeptIn(keys, st, pendings, st', news, j2, name)
    {
      if j2 == j { PutKeeps(keys, st, pendings[j], st', a, name); } else { SameNames(keys, st, pendings[j2], st', name); }
    }
  }

  /** The element is behind what was pending under the name in entry j, and everything else is what it was. */
  ghost predicate Extended(keys: seq<Repokey>, st: Store, pendings: seq<seq<Attr>>, st': Store, pendings': seq<seq<Attr>>,
                           j: nat, name: nat, t: KeyType, v: KeyValue) {
    && j < |pendings| == |pendings'| && NamesDistinct(keys, pendings[j]) && NamesDistinct(keys, pendings'[j])
    && ElementAdded(keys, st, pendings[j], st', pendings'[j], name, t, v)
    && forall j2: nat, n2: nat :: j2 < |pendings| && (j2 != j || n2 != name) ==> NameKeptIn(keys, st, pendings, st', pendings', j2, n2)
  }

  /** Everything is what it was. */
  ghost predicate NamesStay(keys: seq<Repokey>, st: Store, pendings: seq<seq<Attr>>, st': Store) {
    forall j: nat, name: nat :: j < |pendings| ==> NameKeptIn(keys, st, pendings, st', pendings, j, name)
  }

  /** The effect of adding an element. */
  ghost predicate Outcome(lost: bool, keys: seq<Repokey>, st: Store, pendings: seq<seq<Attr>>, st': Store, pendings': seq<seq<Attr>>,
                          j: nat, name: nat, t: KeyType, v: KeyValue) {
    if lost then pendings' == pendings && NamesStay(keys, st, pendings, st')
    else Extended(keys, st, pendings, st', pendings', j, name, t, v)
  }

  lemma ElementMeans(keys: seq<Repokey>, st: Store, pendings: seq<seq<Attr>>, st': Store, news: seq<seq<Attr>>,
                     j: nat, name: nat, t: KeyType, a: Attr, g: Group)
    requires Pendings(keys, st, pendings) && Pendings(keys, st', news) && j < |pendings| && IsNamed(keys, a, name) && IsTyped(keys, a, t)
    requires forall i :: 0 <= i < |pendings[j]| ==> pendings[j][i].key < |keys|
    requires news == pendings[j := Put(keys, pendings[j], a)] && OthersKept(keys, st, pendings, st', j, name)
    requires GroupFits(t, st.attrdata, g)
    requires if Pends(keys, pendings[j], name, t) then Longer(keys, st, PendingNamed(keys, pendings[j], name).value, st', a, g)
             else AttrValues(keys, st', a) == [ValueOf(t, st.attrdata, g)]
    ensures Extended(keys, st, pendings, st', news, j, name, t, ValueOf(t, st.attrdata, g))
  {
    assert NamesDistinct(keys, pendings[j]) && NamesDistinct(keys, news[j]);
    hide PendingStored, OthersKept, Put, PendingNamed, NameKept, AttrValues;
    NamesKept(keys, st, pendings, st', news, j, a);
    PutMeans(keys, pendings[j], a, name);
  }

  lemma HereMeans(keys: seq<Repokey>, st: Store, pendings: seq<seq<Attr>>, st': Store, j: nat, name: nat, t: KeyType, g: Group)
    requires HereResult(keys, st, pendings, st', j, name, t, g) && Pendings(keys, st', pendings) && GroupFits(t, st.attrdata, g)
    ensures forall i :: 0 <= i < |pendings[j]| ==> pendings[j][i].key < |keys|
    ensures if Pends(keys, pendings[j], name, t) then Extended(keys, st, pendings, st', pendings, j, name, t, ValueOf(t, st.attrdata, g))
            else NamesStay(keys, st, pendings, st')
  {
    hide PendingStored, OthersKept, Longer, AttrKept, Extended, Put;
    if Pends(keys, pendings[j], name, t) {
      ElementMeans(keys, st, pendings, st', pendings, j, name, t, PendingNamed(keys, pendings[j], name).value, g);
    } else {
      forall j2: nat, n2: nat | j2 < |pendings| ensures NameKeptIn(keys, st, pendings, st', pendings, j2, n2) {
        SameNames(keys, st, pendings[j2], st', n2);
      }
    }
  }

  /** An element was added after bytes were added to the store. */
  lemma OutcomeAfter(lost: bool, oldkeys: seq<Repokey>, keys: seq<Repokey>, st: Store, pendings: seq<seq<Attr>>, mid: Store,
                     st': Store, pendings': seq<seq<Attr>>, j: nat, name: nat, t: KeyType, v: KeyValue)
    requires oldkeys <= keys && AllKept(oldkeys, st, pendings, mid) && j < |pendings|
    requires Outcome(lost, keys, mid, pendings, st', pendings', j, name, t, v)
    ensures Outcome(lost, keys, st, pendings, st', pendings', j, name, t, v)
  {
    forall j2: nat, n2: nat | j2 < |pendings| && NamesDistinct(keys, pendings[j2])
      ensures NameKept(keys, st, pendings[j2], mid, pendings[j2], n2)
    {
      SameNames(keys, st, pendings[j2], mid, n2);
    }
    assert forall j2: nat, n2: nat :: j2 < |pendings| && NameKeptIn(keys, mid, pendings, st', pendings', j2, n2) ==>
      NameKept(keys, st, pendings[j2], mid, pendings[j2], n2) && NameKeptIn(keys, st, pendings, st', pendings', j2, n2);
    if !lost { assert NameKept(keys, st, pendings[j], mid, pendings[j], name); }
  }

  /** A directory and a string behind the store. */
  lemma NewDirStr(st: Store, dir: Id31, str: seq<Byte>)
    requires dir != 0 && 0 !in str && |st.attrdata| < 0x8000_0000
    ensures var data, g := st.attrdata + str + [0], [dir, |st.attrdata|];
      GroupFits(DirStrArray, data, g) && ValueOf(DirStrArray, data, g) == NO_VALUE.(id := dir, str := str)
  {
    var data, o := st.attrdata + str + [0], |st.attrdata|;
    assert data[o..o + |str|] == str;
    EndOfStr(data, o, |str|);
  }

  lemma ListKeys(keys: seq<Repokey>, st: Store, pendings: seq<seq<Attr>>, j: nat)
    requires Pendings(keys, st, pendings) && j < |pendings|
    ensures forall i :: 0 <= i < |pendings[j]| ==> 0 < pendings[j][i].key < |keys|
  {
    assert PendingStored(keys, st, pendings[j]);
  }

  lemma PendsAt(keys: seq<Repokey>, list: seq<Attr>, name: nat, t: KeyType, p: nat)
    requires (forall i :: 0 <= i < |list| ==> list[i].key < |keys|) && p == PlaceOf(keys, list, name)
    ensures Pends(keys, list, name, t) <==> p < |list| && keys[list[p].key].ktype == t
    ensures Pends(keys, list, name, t) ==> PendingNamed(keys, list, name) == Some(list[p])
  {
    PendingIsPlace(keys, list, name);
  }

  lemma PendsGrows(keys: seq<Repokey>, more: seq<Repokey>, list: seq<Attr>, name: nat, t: KeyType)
    requires (forall i :: 0 <= i < |list| ==> list[i].key < |keys|) && keys <= more
    ensures Pends(more, list, name, t) <==> Pends(keys, list, name, t)
  {
    PendingIsPlace(keys, list, name);
    PendingIsPlace(more, list, name);
    FirstPlace(more, list, name, PlaceOf(keys, list, name));
  }

  /** What is there already is put where it is. */
  lemma PutSame(keys: seq<Repokey>, list: seq<Attr>, p: nat)
    requires NamesDistinct(keys, list) && p < |list|
    ensures Put(keys, list, list[p]) == list
  {
    FirstPlace(keys, list, keys[list[p].key].name, p);
  }
}
