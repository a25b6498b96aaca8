/** The attribute store as an object: setting attributes, internalizing them, and looking them up (src/repodata.c). */
module AttrStore {
  import opened ArrayAdd
  import opened ArrayCache
  import opened Bytes
  import opened Packing
  import opened Fields
  import opened Serialize
  import opened Merge
  import opened Internalize
  import opened SetAttr
  import Schemata

  /** Keys are the same by name and type, and constants by their value too. */
  predicate SameKey(a: Repokey, b: Repokey) {
    a.name == b.name && a.ktype == b.ktype && (a.ktype.Constant? || a.ktype.ConstantId? ==> a.size == b.size)
  }

  /** The key was made, if it was made, because there was no such key. */
  ghost predicate KeyMade(keys: seq<Repokey>, more: seq<Repokey>, key: Repokey)
    ensures KeyMade(keys, more, key) ==> keys <= more
  {
    more == keys || (more == keys + [key] && forall k :: 1 <= k < |keys| ==> !SameKey(keys[k], key))
  }

  // ---- adding a key changes nothing ----

  lemma FieldsGrow(keys: seq<Repokey>, k: Repokey, ks: seq<nat>, fields: seq<seq<Byte>>, meta: bool)
    requires ValidFields(keys, ks, fields, meta)
    ensures ValidFields(keys + [k], ks, fields, meta)
  {
    forall i | 0 <= i < |ks| ensures ValidField(keys + [k], ks, fields, meta, i) {
      assert ValidField(keys, ks, fields, meta, i);
    }
  }

  lemma EntriesGrow(keys: seq<Repokey>, k: Repokey, lists: seq<seq<nat>>, entries: seq<Entry>)
    requires ValidEntries(keys, lists, entries)
    ensures ValidEntries(keys + [k], lists, entries)
  {
    hide ValidFields;
    forall j | 0 <= j < |entries| ensures ValidEntry(keys + [k], lists, entries[j], j == 0) {
      assert ValidEntry(keys, lists, entries[j], j == 0);
      FieldsGrow(keys, k, lists[entries[j].schema], entries[j].fields, j == 0);
    }
  }

  lemma PendingGrows(keys: seq<Repokey>, k: Repokey, st: Store, pending: seq<Attr>)
    requires PendingStored(keys, st, pending) && NamesDistinct(keys, pending)
    ensures PendingStored(keys + [k], st, pending) && NamesDistinct(keys + [k], pending)
  {
    forall i | 0 <= i < |pending| ensures AttrStored(keys + [k], st, pending[i]) {
      assert AttrStored(keys, st, pending[i]);
    }
  }

  lemma PendingsGrow(keys: seq<Repokey>, k: Repokey, st: Store, pendings: seq<seq<Attr>>)
    requires Pendings(keys, st, pendings)
    ensures Pendings(keys + [k], st, pendings)
  {
    hide PendingStored, NamesDistinct;
    forall j | 0 <= j < |pendings| ensures PendingStored(keys + [k], st, pendings[j]) && NamesDistinct(keys + [k], pendings[j]) {
      PendingGrows(keys, k, st, pendings[j]);
    }
  }

  lemma SoundGrows(keys: seq<Repokey>, k: Repokey, st: Store, pendings: seq<seq<Attr>>)
    requires Pendings(keys, st, pendings) && AllSound(keys, st, pendings)
    ensures AllSound(keys + [k], st, pendings)
  {
    hide InStore, Sound, NamesDistinct;
    forall j | 0 <= j < |pendings| ensures PendingSound(keys + [k], st, pendings[j]) {
      assert PendingSound(keys, st, pendings[j]);
      PendingGrows(keys, k, st, pendings[j]);
    }
  }

  /** With nothing pending, an entry is its own merge. */
  lemma NothingPending(keys: seq<Repokey>, st: Store, lists: seq<seq<nat>>, e: Entry, meta: bool)
    requires ValidEntry(keys, lists, e, meta)
    ensures PendingStored(keys, st, []) && NamesDistinct(keys, [])
    ensures EntryMerged(keys, st, lists, e, [], meta, lists, e)
  {
  }

  /** The packed data: the entries are where the offsets say. */
  ghost predicate PackedRight(keys: seq<Repokey>, lists: seq<seq<nat>>, data: Option<seq<Byte>>, offs: seq<nat>, n: nat,
                              entries: seq<Entry>, mainschema: nat, mainoffsets: Option<seq<nat>>) {
    && |offs| == n && ValidEntries(keys, lists, entries) && Located(data, [1] + offs, entries)
    && (forall i :: 0 <= i < n ==> offs[i] != 1)
    && (mainoffsets.Some? ==> mainschema == entries[0].schema && MainOffsets(mainoffsets.value, entries[0]))
  }

  lemma PackedIs(keys: seq<Repokey>, lists: seq<seq<nat>>, data: seq<Byte>, offs: seq<nat>, entries: seq<Entry>, schema: nat, offsets: seq<nat>)
    requires |offs| == |entries| >= 1 && offs[0] == 1 && (forall j :: 1 <= j < |offs| ==> offs[j] > 1)
    requires ValidEntries(keys, lists, entries) && Located(Some(data), offs, entries)
    requires schema == entries[0].schema && MainOffsets(offsets, entries[0])
    ensures PackedRight(keys, lists, Some(data), offs[1..], |offs| - 1, entries, schema, Some(offsets))
  {
    assert [1] + offs[1..] == offs;
  }

  class Repodata {
    var keys: seq<Repokey>
    const schemas: Schemata.Pool
    var incoredata: Option<seq<Byte>>
    var incoreoffset: seq<nat>
    var start: nat
    var end: nat
    var attrs: Option<seq<seq<Attr>>>
    var metaattrs: Option<seq<Attr>>
    var store: Store
    var mainschema: nat
    var mainschemaoffsets: Option<seq<nat>>
    // the last addition to a pending array: its entry, its key, and how many ids there were after it
    var lasthandle: nat
    var lastkey: nat
    var lastdatalen: nat
    ghost var entries: seq<Entry>
    ghost var owner: (nat, nat)

    function Offsets(): seq<nat>
      reads this
    {
      [1] + incoreoffset
    }

    /** The pending attributes of every entry. */
    function AllPending(): (r: seq<seq<Attr>>)
      requires start <= end
      reads this
      ensures attrs.Some? && |attrs.value| == end - start ==> |r| == 1 + (end - start)
      ensures attrs.None? ==> |r| == 1 + (end - start)
    {
      [if metaattrs.Some? then metaattrs.value else []] + if attrs.Some? then attrs.value else seq(end - start, i => [])
    }

    ghost predicate Valid()
      reads this, schemas
    {
      && schemas.Valid() && ValidKeys(keys) && start <= end
      && PackedRight(keys, schemas.lists, incoredata, incoreoffset, end - start, entries, mainschema, mainschemaoffsets)
      && (attrs.Some? ==> |attrs.value| == end - start) && Pendings(keys, store, AllPending())
      && CacheRight(keys, store, AllPending(), lasthandle, lastkey, lastdatalen, owner)
    }

    /** An empty store for num solvables from start on. */
    constructor (start: nat, num: nat)
      ensures Valid() && |entries| == 1 + num && this.start == start && end == start + num
      ensures forall j :: 0 <= j < |entries| ==> entries[j] == Entry(0, []) && AllPending()[j] == []
      ensures fresh(schemas) && schemas.lists == [[]] && |keys| == 1
    {
      keys := [Repokey(0, Void, 0)];
      schemas := new Schemata.Pool();
      incoredata, attrs, metaattrs, mainschemaoffsets := None, None, None, None;
      incoreoffset := seq(num, i => 0);
      this.start, end, mainschema := start, start + num, 0;
      store := Store([], []);
      lasthandle, lastkey, lastdatalen, owner := 0, 0, 0, (0, 0);
      entries := seq(num + 1, i => Entry(0, []));
      new;
      assert ValidEntries(keys, schemas.lists, entries);
      hide ValidEntries, CacheRight, Pendings;
      EmptyPendings(keys, store, AllPending());
      EmptyCache(keys, store, AllPending(), owner);
    }

    /** repodata_key2id */
    method Key2Id(key: Repokey, create: bool) returns (keyid: nat)
      requires key.ktype.FlexArray? ==> key.name == SOLVABLES
      requires Valid()
      modifies this`keys
      ensures Valid() && (keyid != 0 ==> keyid < |keys| && SameKey(keys[keyid], key))
      ensures create ==> keyid != 0
      ensures keyid == 0 ==> forall k :: 1 <= k < |keys| ==> !SameKey(keys[k], key)
      ensures KeyMade(old(keys), keys, key) && (!create ==> keys == old(keys))
    {
      hide ValidEntries, Pendings, Located, MainOffsets, CacheRight;
      keyid := 1;
      while keyid < |keys|
        invariant 1 <= keyid <= |keys| && keys == old(keys)
        invariant forall k :: 1 <= k < keyid ==> !SameKey(keys[k], key)
      {
        if SameKey(keys[keyid], key) { return; }
        keyid := keyid + 1;
      }
      if !create { return 0; }
      ghost var was := keys;
      EntriesGrow(was, key, schemas.lists, entries);
      PendingsGrow(was, key, store, AllPending());
      CacheKeysGrow(was, key, store, AllPending(), lasthandle, lastkey, lastdatalen, owner);
      keys := keys + [key];
      FlexStaysOne(was, key);
    }

    /** The list of entry j, which is made if it is not there yet (repodata_get_attrp). */
    method ReplacePending(j: nat, list: seq<Attr>)
      requires Valid() && j < |entries| && PendingStored(keys, store, list) && NamesDistinct(keys, list)
      requires j < |AllPending()| && CacheRight(keys, store, AllPending()[j := list], lasthandle, lastkey, lastdatalen, owner)
      modifies this`attrs, this`metaattrs
      ensures Valid() && |AllPending()| == |old(AllPending())| == |entries| && AllPending() == old(AllPending())[j := list]
    {
      hide ValidEntries, MainOffsets, ValidKeys, PendingStored, NamesDistinct, CacheRight;
      SameLength(incoredata, Offsets(), entries);
      if j == 0 {
        metaattrs := Some(list);
      } else {
        if attrs.None? { attrs := Some(seq(end - start, i => [])); }
        attrs := Some(attrs.value[j - 1 := list]);
      }
      assert AllPending() == old(AllPending())[j := list];
    }

    /** repodata_insert_keyid: what has the name of the key already is replaced. */
    method InsertKeyId(j: nat, keyid: nat, val: int)
      requires Valid() && j < |entries| && 0 < keyid < |keys| && AttrStored(keys, store, Attr(keyid, val))
      requires IsArray(keys[keyid].ktype) ==> lastdatalen < |store.attriddata| && owner == (j, keys[keyid].name)
      modifies this`attrs, this`metaattrs
      ensures Valid() && |AllPending()| == |old(AllPending())| == |entries|
      ensures KeysIn(keys, old(AllPending())[j])
      ensures AllPending() == old(AllPending())[j := Put(keys, old(AllPending())[j], Attr(keyid, val))]
    {
      hide ValidEntries, Located, MainOffsets, ValidKeys, AttrStored, Put, CacheRight;
      SameLength(incoredata, Offsets(), entries);
      var list := AllPending()[j];
      assert PendingStored(keys, store, list) && NamesDistinct(keys, list);
      PutValid(keys, store, list, Attr(keyid, val));
      var p := FindAttr(keys, list, keys[keyid].name);
      PutIs(keys, list, Attr(keyid, val), p);
      var news := if p < |list| then list[p := Attr(keyid, val)] else list + [Attr(keyid, val)];
      CachePut(keys, store, AllPending(), lasthandle, lastkey, lastdatalen, owner, j, news, p);
      ReplacePending(j, news);
    }

    /** repodata_set: make the key and set its value. */
    method Set(j: nat, key: Repokey, val: int) returns (ghost keyid: nat)
      requires Valid() && j < |entries| && InStore(key.ktype, store, val)
      requires IsArray(key.ktype) ==> lastdatalen < |store.attriddata| && owner == (j, key.name)
      modifies this`keys, this`attrs, this`metaattrs
      ensures Valid() && KeyMade(old(keys), keys, key) && 0 < keyid < |keys| && SameKey(keys[keyid], key)
      ensures |AllPending()| == |old(AllPending())| == |entries| && KeysIn(keys, old(AllPending())[j])
      ensures AllPending() == old(AllPending())[j := Put(keys, old(AllPending())[j], Attr(keyid, val))]
    {
      hide ValidEntries, Located, MainOffsets, ValidKeys, Put, Pendings, CacheRight;
      var k := Key2Id(key, true);
      keyid := k;
      InsertKeyId(j, k, val);
    }

    /** More bytes in the store. */
    method GrowData(more: seq<Byte>)
      requires Valid() && store.attrdata <= more
      modifies this`store
      ensures Valid() && store == old(store).(attrdata := more) && AllPending() == old(AllPending())
      ensures Grown(old(store), store) && AllKept(keys, old(store), AllPending(), store)
    {
      hide ValidEntries, Located, MainOffsets, ValidKeys, CacheRight, Pendings, AllKept;
      ghost var was := store;
      store := store.(attrdata := more);
      GrownKeeps(keys, was, AllPending(), store);
      CacheSameIds(keys, was, store, AllPending(), lasthandle, lastkey, lastdatalen, owner);
    }

    /** More ids in the store, whose last list is about to be that of next. */
    method GrowIds(more: seq<Id31>, ghost next: (nat, nat))
      requires Valid() && store.attriddata < more
      modifies this`store, this`owner
      ensures Valid() && store == old(store).(attriddata := more) && AllPending() == old(AllPending())
      ensures Grown(old(store), store) && AllKept(keys, old(store), AllPending(), store)
      ensures owner == next && lastdatalen < |store.attriddata|
    {
      hide ValidEntries, Located, MainOffsets, ValidKeys, Pendings, AllKept, LastOwned, TypedLast;
      ghost var was := store;
      store := store.(attriddata := more);
      StoreGrows(keys, was, AllPending(), store, |was.attriddata|);
      CacheGrows(keys, was, store, AllPending(), lasthandle, lastkey, lastdatalen, owner, next);
      owner := next;
    }

    /** repodata_set_id */
    method SetId(j: nat, name: nat, id: Int32) returns (ghost keyid: nat)
      requires Valid() && j < |entries|
      modifies this`keys, this`attrs, this`metaattrs
      ensures Valid() && KeyMade(old(keys), keys, Repokey(name, Id, 0)) && 0 < keyid < |keys| && SameKey(keys[keyid], Repokey(name, Id, 0))
      ensures |AllPending()| == |old(AllPending())| == |entries| && KeysIn(keys, old(AllPending())[j])
      ensures AllPending() == old(AllPending())[j := Put(keys, old(AllPending())[j], Attr(keyid, id))]
      ensures Values(Id, 0, store, id) == [NO_VALUE.(id := Unsigned(id))]
    {
      hide PackedRight, ValidKeys, Put, Pendings, CacheRight, KeyMade;
      keyid := Set(j, Repokey(name, Id, 0), id);
    }

    /** repodata_set_str: the string is appended to attrdata. */
    method SetStr(j: nat, name: nat, str: seq<Byte>) returns (ghost keyid: nat, ghost val: nat)
      requires Valid() && j < |entries| && 0 !in str
      modifies this`keys, this`attrs, this`metaattrs, this`store
      ensures Valid() && KeyMade(old(keys), keys, Repokey(name, Str, 0)) && 0 < keyid < |keys| && SameKey(keys[keyid], Repokey(name, Str, 0))
      ensures |AllPending()| == |old(AllPending())| == |entries| && KeysIn(keys, old(AllPending())[j])
      ensures AllPending() == old(AllPending())[j := Put(keys, old(AllPending())[j], Attr(keyid, val))]
      ensures Grown(old(store), store) && InStore(Str, store, val) && Values(Str, 0, store, val) == [NO_VALUE.(str := str)]
    {
      hide ValidEntries, Located, MainOffsets, ValidKeys, Pendings, Values, Grown, CacheRight;
      NewStr(store, str);
      var o := |store.attrdata|;
      GrowData(store.attrdata + str + [0]);
      val := o;
      keyid := Set(j, Repokey(name, Str, 0), o);
    }

    /** repodata_set_bin_checksum */
    method SetChecksum(j: nat, name: nat, t: KeyType, sum: seq<Byte>) returns (ghost keyid: nat, ghost val: nat)
      requires Valid() && j < |entries| && IsChecksum(t) && |sum| == ChecksumLength(t)
      modifies this`keys, this`attrs, this`metaattrs, this`store
      ensures Valid() && KeyMade(old(keys), keys, Repokey(name, t, 0)) && 0 < keyid < |keys| && SameKey(keys[keyid], Repokey(name, t, 0))
      ensures |AllPending()| == |old(AllPending())| == |entries| && KeysIn(keys, old(AllPending())[j])
      ensures AllPending() == old(AllPending())[j := Put(keys, old(AllPending())[j], Attr(keyid, val))]
      ensures Grown(old(store), store) && InStore(t, store, val) && Values(t, 0, store, val) == [NO_VALUE.(str := sum)]
    {
      hide PackedRight, ValidKeys, Pendings, Values, Grown, CacheRight;
      NewChecksum(store, t, sum);
      var o := |store.attrdata|;
      GrowData(store.attrdata + sum);
      val := o;
      keyid := Set(j, Repokey(name, t, 0), o);
    }

    /** repodata_set_binary: the number of bytes is written in front of them. */
    method SetBinary(j: nat, name: nat, buf: seq<Byte>) returns (ghost keyid: nat, ghost val: nat)
      requires Valid() && j < |entries| && |buf| < BIT31
      modifies this`keys, this`attrs, this`metaattrs, this`store
      ensures Valid() && KeyMade(old(keys), keys, Repokey(name, Binary, 0)) && 0 < keyid < |keys| && SameKey(keys[keyid], Repokey(name, Binary, 0))
      ensures |AllPending()| == |old(AllPending())| == |entries| && KeysIn(keys, old(AllPending())[j])
      ensures AllPending() == old(AllPending())[j := Put(keys, old(AllPending())[j], Attr(keyid, val))]
      ensures Grown(old(store), store) && InStore(Binary, store, val)
      ensures Values(Binary, 0, store, val) == [NO_VALUE.(num := |buf|, str := buf)]
    {
      var header := IdBytes(|buf|);
      assert header == Varint(|buf|);
      hide PackedRight, ValidKeys, Pendings, Values, Grown, CacheRight, Varint, IdCode, AllKept;
      NewBinary(store, buf);
      var o := |store.attrdata|;
      var more := store.attrdata + header + buf;
      assert store.attrdata <= more;
      GrowData(more);
      val := o;
      keyid := Set(j, Repokey(name, Binary, 0), o);
    }

    /** repodata_set_idarray: the list and its end are appended to attriddata. */
    method SetIdArray(j: nat, name: nat, q: seq<Id31>) returns (ghost keyid: nat, ghost val: nat)
      requires Valid() && j < |entries|
      modifies this`keys, this`attrs, this`metaattrs, this`store, this`owner
      ensures Valid() && KeyMade(old(keys), keys, Repokey(name, IdArray, 0)) && 0 < keyid < |keys| && SameKey(keys[keyid], Repokey(name, IdArray, 0))
      ensures |AllPending()| == |old(AllPending())| == |entries| && KeysIn(keys, old(AllPending())[j])
      ensures AllPending() == old(AllPending())[j := Put(keys, old(AllPending())[j], Attr(keyid, val))]
      ensures Grown(old(store), store) && InStore(IdArray, store, val) && Values(IdArray, 0, store, val) == IdList(UpToZero(q))
    {
      hide ValidEntries, Located, MainOffsets, ValidKeys, Pendings, Values, Grown, CacheRight;
      NewIds(store, q);
      var o := |store.attriddata|;
      GrowIds(store.attriddata + q + [0], (j, name));
      val := o;
      keyid := Set(j, Repokey(name, IdArray, 0), o);
    }

    /** The last addition was to this name, and nothing was added to the store since. */
    predicate Hit(j: nat, name: nat, t: KeyType)
      requires lastkey < |keys|
      reads this
    {
      j == lasthandle && keys[lastkey].name == name && keys[lastkey].ktype == t && |store.attriddata| == lastdatalen
    }

    /** Since the given state, a was put into entry j under the name, the rest stayed, and the addition is remembered. */
    ghost predicate AddedTo(oldkeys: seq<Repokey>, st: Store, pendings: seq<seq<Attr>>, j: nat, name: nat, t: KeyType, a: Attr)
      reads this
    {
      && start <= end && oldkeys <= keys && j < |pendings| && 0 < a.key < |keys| && IsNamed(keys, a, name) && IsTyped(keys, a, t)
      && KeysIn(keys, pendings[j]) && AllPending() == pendings[j := Put(keys, pendings[j], a)]
      && Pendings(keys, st, pendings) && OthersKept(keys, st, pendings, store, j, name)
      && lasthandle == j && lastkey == a.key && lastdatalen == |store.attriddata| >= 1
    }

    /** Write an element over the last id of the store: the list at the end grows, if it is still pending. */
    method AppendLast(g: Group, ghost p: nat, ghost owned: bool)
      requires Valid() && store.attriddata != [] && |g| >= 1
      requires !owned ==> NoneLast(keys, store, AllPending())
      requires owned ==> owner.0 < |AllPending()| && p < |AllPending()[owner.0]| && AttrLast(keys, store, AllPending()[owner.0][p])
      requires owned ==> GroupFits(keys[AllPending()[owner.0][p].key].ktype, store.attrdata, g)
      modifies this`store
      ensures Valid() && store == Appended(old(store), g) && AllPending() == old(AllPending()) && lastdatalen < |store.attriddata|
      ensures !owned ==> NoneLast(keys, store, AllPending()) && AllKept(keys, old(store), AllPending(), store)
      ensures owned ==> OthersKept(keys, old(store), AllPending(), store, owner.0, owner.1)
      ensures owned ==> AttrLast(keys, store, AllPending()[owner.0][p])
      ensures owned ==> Longer(keys, old(store), AllPending()[owner.0][p], store, AllPending()[owner.0][p], g)
    {
      hide PackedRight, ValidKeys, Pendings, AllKept, OthersKept, LastOwned, TypedLast, AttrLast, GroupFits, NoneLast, Longer;
      ghost var was := store;
      if owned {
        OwnerGrows(keys, store, AllPending(), owner.0, p, owner.1, g);
      } else {
        StoreGrows(keys, store, AllPending(), Appended(store, g), |store.attriddata| - 1);
        NoneOwned(keys, Appended(store, g), AllPending(), owner);
      }
      store := store.(attriddata := store.attriddata[..|store.attriddata| - 1] + g + [0]);
    }

    /** Remember an addition: the entry, the key, and how many ids there are now. */
    method Remember(j: nat, keyid: nat, len: nat)
      requires Valid() && keyid < |keys| && j < |AllPending()| && len == |store.attriddata| >= 1
      requires owner == (j, keys[keyid].name) && TypedLast(keys, store, AllPending()[j], keys[keyid].name, keys[keyid].ktype)
      modifies this`lasthandle, this`lastkey, this`lastdatalen
      ensures Valid() && lasthandle == j && lastkey == keyid && lastdatalen == |store.attriddata| && AllPending() == old(AllPending())
    {
      hide PackedRight, ValidKeys, Pendings, LastOwned, TypedLast;
      lasthandle, lastkey, lastdatalen := j, keyid, len;
    }

    /** The branch for a name under which no array of the type is pending. */
    method AddNew(j: nat, name: nat, t: KeyType, g: Group) returns (ghost a: Attr)
      requires Valid() && j < |entries| == |AllPending()| && IsArray(t) && GroupFits(t, store.attrdata, g)
      modifies this`keys, this`attrs, this`metaattrs, this`store, this`lasthandle, this`lastkey, this`lastdatalen, this`owner
      ensures KeyMade(old(keys), keys, Repokey(name, t, 0))
      ensures Valid() && AddedTo(old(keys), old(store), old(AllPending()), j, name, t, a)
      ensures AttrValues(keys, store, a) == [ValueOf(t, old(store).attrdata, g)]
    {
      hide PackedRight, ValidKeys, Pendings, AllKept, GroupFits, Put, OthersKept, TypedLast, AttrValues, CacheRight, AttrLast, AttrStored, Grown;
      var keyid := Key2Id(Repokey(name, t, 0), true);
      ghost var was, pendings := store, AllPending();
      NewAttr(keys, store, keyid, g);
      var o := |store.attriddata|;
      GrowIds(store.attriddata + g + [0], (j, name));
      InsertKeyId(j, keyid, o);
      a := Attr(keyid, o);
      PutIsLast(keys, was, pendings, store, AllPending(), j, a);
      Remember(j, keyid, |store.attriddata|);
    }

    /** Copy the list of attribute p of entry j, which ends at e, to the end of the store. */
    method MoveToBack(j: nat, p: nat, e: nat) returns (ghost a: Attr)
      requires Valid() && j < |entries| == |AllPending()| && p < |AllPending()[j]| && ListEnds(keys, store, AllPending()[j][p], e)
      modifies this`attrs, this`metaattrs, this`store, this`owner
      ensures Valid() && p < |old(AllPending())[j]| && a.key == old(AllPending())[j][p].key < |keys|
      ensures AllPending() == old(AllPending())[j := old(AllPending())[j][p := a]] && owner == (j, keys[a.key].name)
      ensures AllKept(keys, old(store), old(AllPending()), store) && AttrLast(keys, store, a) && AttrStored(keys, store, a)
      ensures AttrValues(keys, store, a) == AttrValues(keys, old(store), old(AllPending())[j][p])
      ensures store.attrdata == old(store).attrdata && lastdatalen < |store.attriddata|
    {
      hide PackedRight, ValidKeys, Pendings, AllKept, CacheRight, AttrLast, AttrStored, AttrValues, ListEnds, Put;
      ghost var was, pendings := store, AllPending();
      var list, o := AllPending()[j], |store.attriddata|;
      ListMoved(keys, store, pendings, j, p, e);
      GrowIds(store.attriddata + store.attriddata[list[p].val..e] + [0], (j, keys[list[p].key].name));
      a := Attr(list[p].key, o);
      PutAt(keys, store, pendings, j, p, a);
      var news := list[p := Attr(list[p].key, o)];
      CachePut(keys, store, pendings, lasthandle, lastkey, lastdatalen, owner, j, news, p);
      ReplacePending(j, news);
    }

    /** See to it that the list of attribute p of entry j is at the end of the store. */
    method ToBack(j: nat, p: nat) returns (ghost a: Attr)
      requires Valid() && j < |entries| == |AllPending()| && p < |AllPending()[j]| && AllPending()[j][p].key < |keys|
      requires IsArray(keys[AllPending()[j][p].key].ktype)
      modifies this`attrs, this`metaattrs, this`store, this`owner
      ensures Valid() && p < |old(AllPending())[j]| && a.key == old(AllPending())[j][p].key < |keys|
      ensures AllPending() == old(AllPending())[j := old(AllPending())[j][p := a]] && owner == (j, keys[a.key].name)
      ensures AllKept(keys, old(store), old(AllPending()), store) && AttrLast(keys, store, a)
      ensures AttrValues(keys, store, a) == AttrValues(keys, old(store), old(AllPending())[j][p])
      ensures store.attrdata == old(store).attrdata && store.attriddata != []
    {
      hide PackedRight, ValidKeys, Pendings, AllKept, LastOwned, TypedLast, AttrStored, AttrValues, ListEnds;
      var list := AllPending()[j];
      ArrayAt(keys, store, AllPending(), j, p);
      var e := FindEnd(store.attriddata, list[p].val, EntrySize(keys[list[p].key].ktype));
      EndIs(keys, store, AllPending(), j, p, e, owner);
      if e + 1 == |store.attriddata| {
        a := list[p];
        assert list[p := a] == list && AllPending()[j := list] == AllPending();
      } else {
        a := MoveToBack(j, p, e);
      }
    }

    /** Add an element to the list of attribute p of entry j, at the end of the store. */
    method GrowFound(j: nat, p: nat, g: Group) returns (ghost a: Attr)
      requires Valid() && j < |entries| == |AllPending()| && p < |AllPending()[j]| && AllPending()[j][p].key < |keys|
      requires IsArray(keys[AllPending()[j][p].key].ktype) && GroupFits(keys[AllPending()[j][p].key].ktype, store.attrdata, g)
      modifies this`attrs, this`metaattrs, this`store, this`owner
      ensures Valid() && KeysIn(keys, old(AllPending())[j]) && p < |old(AllPending())[j]| && 0 < a.key == old(AllPending())[j][p].key < |keys|
      ensures |AllPending()| == |entries| && AllPending() == old(AllPending())[j := Put(keys, old(AllPending())[j], a)]
      ensures Pendings(keys, old(store), old(AllPending())) && OthersKept(keys, old(store), old(AllPending()), store, j, keys[a.key].name)
      ensures Longer(keys, old(store), old(AllPending())[j][p], store, a, g)
      ensures store.attriddata != [] && owner == (j, keys[a.key].name)
      ensures TypedLast(keys, store, AllPending()[j], keys[a.key].name, keys[a.key].ktype)
    {
      assert |g| >= 1;
      hide PackedRight, ValidKeys, Pendings, AllKept, CacheRight, AttrLast, AttrValues, Put, GroupFits, OthersKept, Longer, TypedLast;
      ghost var was, pendings := store, AllPending();
      a := ToBack(j, p);
      ghost var mid, news := store, AllPending();
      assert news[j][p] == a;
      AppendLast(g, p, true);
      assert AllPending() == news;
      FoundAdded(keys, was, pendings, mid, news, store, j, p, a, g);
    }

    /** The branch for a name under which an array of the type is pending, as attribute p. */
    method AddFound(j: nat, p: nat, g: Group) returns (ghost a: Attr)
      requires Valid() && j < |entries| == |AllPending()| && p < |AllPending()[j]| && AllPending()[j][p].key < |keys|
      requires IsArray(keys[AllPending()[j][p].key].ktype) && GroupFits(keys[AllPending()[j][p].key].ktype, store.attrdata, g)
      modifies this`attrs, this`metaattrs, this`store, this`lasthandle, this`lastkey, this`lastdatalen, this`owner
      ensures Valid() && p < |old(AllPending())[j]| && a.key == old(AllPending())[j][p].key < |keys|
      ensures AddedTo(keys, old(store), old(AllPending()), j, keys[a.key].name, keys[a.key].ktype, a)
      ensures Longer(keys, old(store), old(AllPending())[j][p], store, a, g)
    {
      hide PackedRight, ValidKeys, Pendings, CacheRight, Put, GroupFits, OthersKept, Longer, TypedLast;
      var keyid := AllPending()[j][p].key;
      a := GrowFound(j, p, g);
      Remember(j, keyid, |store.attriddata|);
    }

    /** Write an element over the last id: into what is pending under the name of last time, if that is still the list at the end. */
    method AppendHere(j: nat, name: nat, t: KeyType, g: Group)
      requires Valid() && j < |entries| == |AllPending()| && IsArray(t) && GroupFits(t, store.attrdata, g) && Hit(j, name, t)
      modifies this`store
      ensures Valid() && AllPending() == old(AllPending()) && |store.attriddata| == |old(store).attriddata| + EntrySize(t)
      ensures HereResult(keys, old(store), AllPending(), store, j, name, t, g)
      ensures owner == (j, name) && TypedLast(keys, store, AllPending()[j], name, t)
    {
      assert |g| == EntrySize(t);
      hide PackedRight, ValidKeys, Pendings, AllKept, AttrLast, GroupFits, OthersKept, Longer, TypedLast, NoneLast, LastOwned, Pends, HereResult;
      ghost var was, pendings := store, AllPending();
      HitIs(keys, store, pendings, j, lastkey, owner);
      AppendLast(g, PlaceOf(keys, pendings[j], name), Pends(keys, pendings[j], name, t));
      assert AllPending() == pendings;
      HereAdded(keys, was, pendings, store, j, name, t, g);
    }

    /** The branch for the same name as last time. If what is pending under it was set to something else since, the element is lost. */
    method AddHere(j: nat, name: nat, t: KeyType, g: Group)
      requires Valid() && j < |entries| == |AllPending()| && IsArray(t) && GroupFits(t, store.attrdata, g) && Hit(j, name, t)
      modifies this`store, this`lasthandle, this`lastkey, this`lastdatalen
      ensures Valid() && AllPending() == old(AllPending()) && Hit(j, name, t)
      ensures HereResult(keys, old(store), AllPending(), store, j, name, t, g)
    {
      hide PackedRight, ValidKeys, Pendings, GroupFits, TypedLast, HereResult, LastOwned;
      AppendHere(j, name, t, g);
      Remember(j, lastkey, lastdatalen + EntrySize(t));
    }

    /** The branches for another name than last time. */
    method AddElsewhere(j: nat, name: nat, t: KeyType, g: Group)
      requires Valid() && j < |entries| == |AllPending()| && IsArray(t) && GroupFits(t, store.attrdata, g)
      modifies this`keys, this`attrs, this`metaattrs, this`store, this`lasthandle, this`lastkey, this`lastdatalen, this`owner
      ensures Valid() && KeyMade(old(keys), keys, Repokey(name, t, 0)) && Hit(j, name, t)
      ensures Extended(keys, old(store), old(AllPending()), store, AllPending(), j, name, t, ValueOf(t, old(store).attrdata, g))
    {
      hide PackedRight, ValidKeys, Pendings, CacheRight, GroupFits, OthersKept, Longer, AttrValues, Extended, Put, Pends;
      ghost var was, pendings, oldkeys := store, AllPending(), keys;
      var list := AllPending()[j];
      ListKeys(keys, store, pendings, j);
      var p := FindAttr(keys, list, name);
      PendsAt(keys, list, name, t, p);
      ghost var a;
      if p < |list| && keys[list[p].key].ktype == t {
        a := AddFound(j, p, g);
      } else {
        a := AddNew(j, name, t, g);
        PendsGrows(oldkeys, keys, list, name, t);
      }
      ElementMeans(keys, was, pendings, store, AllPending(), j, name, t, a, g);
    }

    /** An element that is added now is lost: the last addition was to the name, and nothing was added to the store since,
     * but the name was set to something of another type.
     */
    ghost predicate Lost(j: nat, name: nat, t: KeyType)
      requires start <= end
      reads this
    {
      && lastkey < |keys| && j < |AllPending()| && KeysIn(keys, AllPending()[j])
      && Hit(j, name, t) && !Pends(keys, AllPending()[j], name, t)
    }

    /** With one key for each name, no element is lost. */
    lemma NeverLost(j: nat, name: nat, t: KeyType)
      requires Valid() && OneKeyPerName(keys) && IsArray(t)
      ensures !Lost(j, name, t)
    {
      hide PackedRight, ValidKeys, Pendings, LastOwned;
      if Lost(j, name, t) {
        ListKeys(keys, store, AllPending(), j);
        OnlyThatKey(keys, store, AllPending()[j], lastkey);
      }
    }

    /** repodata_add_array, and writing the element as its callers do. */
    method AddGroup(j: nat, name: nat, t: KeyType, g: Group)
      requires Valid() && j < |entries| && IsArray(t) && GroupFits(t, store.attrdata, g)
      modifies this`keys, this`attrs, this`metaattrs, this`store, this`lasthandle, this`lastkey, this`lastdatalen, this`owner
      ensures Valid() && start <= end && lastkey < |keys| && KeyMade(old(keys), keys, Repokey(name, t, 0)) && Hit(j, name, t) && |AllPending()| == |entries|
      ensures Outcome(old(Lost(j, name, t)), keys, old(store), old(AllPending()), store, AllPending(), j, name, t, ValueOf(t, old(store).attrdata, g))
    {
      SameLength(incoredata, Offsets(), entries);
      assert lastkey < |keys|;
      hide PackedRight, ValidKeys, Pendings, CacheRight, GroupFits, Extended, NamesStay, Pends, HereResult;
      ghost var was, pendings := store, AllPending();
      ListKeys(keys, store, pendings, j);
      if Hit(j, name, t) {
        AddHere(j, name, t, g);
        HereMeans(keys, was, pendings, store, j, name, t, g);
      } else {
        AddElsewhere(j, name, t, g);
      }
    }

    /** repodata_add_idarray */
    method AddIdArray(j: nat, name: nat, id: Id31)
      requires Valid() && j < |entries| && id != 0
      modifies this`keys, this`attrs, this`metaattrs, this`store, this`lasthandle, this`lastkey, this`lastdatalen, this`owner
      ensures Valid() && start <= end && lastkey < |keys| && KeyMade(old(keys), keys, Repokey(name, IdArray, 0)) && Hit(j, name, IdArray) && |AllPending()| == |entries|
      ensures Outcome(old(Lost(j, name, IdArray)), keys, old(store), old(AllPending()), store, AllPending(), j, name, IdArray, NO_VALUE.(id := id))
    {
      hide PackedRight, ValidKeys, Pendings, CacheRight, Outcome, Pends;
      AddGroup(j, name, IdArray, [id]);
    }

    /** repodata_add_dirnumnum */
    method AddDirNumNum(j: nat, name: nat, dir: Id31, num: Id31, num2: Id31)
      requires Valid() && j < |entries| && dir != 0
      modifies this`keys, this`attrs, this`metaattrs, this`store, this`lasthandle, this`lastkey, this`lastdatalen, this`owner
      ensures Valid() && start <= end && lastkey < |keys| && KeyMade(old(keys), keys, Repokey(name, DirNumNumArray, 0)) && Hit(j, name, DirNumNumArray) && |AllPending()| == |entries|
      ensures Outcome(old(Lost(j, name, DirNumNumArray)), keys, old(store), old(AllPending()), store, AllPending(), j, name, DirNumNumArray,
                      KeyValue(dir, num, num2, []))
    {
      hide PackedRight, ValidKeys, Pendings, CacheRight, Outcome, Pends;
      AddGroup(j, name, DirNumNumArray, [dir, num, num2]);
    }

    /** repodata_add_dirstr: the string is appended to attrdata. */
    method AddDirStr(j: nat, name: nat, dir: Id31, str: seq<Byte>)
      requires Valid() && j < |entries| && dir != 0 && 0 !in str && |store.attrdata| < 0x8000_0000
      modifies this`keys, this`attrs, this`metaattrs, this`store, this`lasthandle, this`lastkey, this`lastdatalen, this`owner
      ensures Valid() && start <= end && lastkey < |keys| && KeyMade(old(keys), keys, Repokey(name, DirStrArray, 0)) && Hit(j, name, DirStrArray) && |AllPending()| == |entries|
      ensures Outcome(old(Lost(j, name, DirStrArray)), keys, old(store), old(AllPending()), store, AllPending(), j, name, DirStrArray,
                      NO_VALUE.(id := dir, str := str))
    {
      SameLength(incoredata, Offsets(), entries);
      hide PackedRight, ValidKeys, Pendings, CacheRight, Outcome, Pends, AllKept, Grown;
      ghost var was, pendings, oldkeys, lost := store, AllPending(), keys, Lost(j, name, DirStrArray);
      var o := |store.attrdata|;
      NewDirStr(store, dir, str);
      GrowData(store.attrdata + str + [0]);
      ghost var mid := store;
      AddGroup(j, name, DirStrArray, [dir, o]);
      OutcomeAfter(lost, oldkeys, keys, was, pendings, mid, store, AllPending(), j, name, DirStrArray,
                   NO_VALUE.(id := dir, str := str));
    }

    /** Merge everything that is pending into new packed data. */
    method MergePending() returns (data: seq<Byte>, offs: seq<nat>, schema: nat, offsets: seq<nat>, ghost news: seq<Entry>)
      requires Valid() && |schemas.lists| + |entries| < 0x7fff_ffff && end - start < 0x8000_0000
      requires AllSound(keys, store, AllPending())
      modifies this`keys, schemas
      ensures schemas.Valid() && ValidKeys(keys) && KeyMade(old(keys), keys, Repokey(SOLVABLES, FlexArray, 0)) && !IsArray(keys[0].ktype)
      ensures ValidEntries(keys, old(schemas.lists), entries) && Pendings(keys, store, AllPending())
      ensures |entries| == |AllPending()| == |news| == 1 + (end - start)
      ensures Written(keys, store, old(schemas.lists), entries, AllPending(), schemas.lists, data, offs, news)
      ensures schema == news[0].schema && MainOffsets(offsets, news[0])
    {
      assert !IsArray(keys[0].ktype);
      hide ValidEntries, Pendings, Located, MainOffsets, AllMerged, Written, ValidKeys, SolvKey, CacheRight, AllSound;
      SoundGrows(keys, Repokey(SOLVABLES, FlexArray, 0), store, AllPending());
      var solvkeyid := Key2Id(Repokey(SOLVABLES, FlexArray, 0), end != start);
      SolvKeyIs(keys, solvkeyid);
      SameLength(incoredata, Offsets(), entries);
      var newincore := new ExtData();
      newincore.AddId(0);
      OneByte();
      offs, schema, offsets, news := MergeAll(schemas, newincore, keys, store, incoredata, Offsets(), solvkeyid, end != start, end - start, AllPending(), entries);
      data := newincore.buf;
    }

    /** Drop what is pending, its store, and the memory of the last addition. */
    method ForgetPending()
      requires start <= end && keys != [] && !IsArray(keys[0].ktype)
      modifies this`attrs, this`metaattrs, this`store, this`lasthandle, this`lastkey, this`lastdatalen
      ensures attrs.None? && metaattrs.None? && Pendings(keys, store, AllPending())
      ensures CacheRight(keys, store, AllPending(), lasthandle, lastkey, lastdatalen, owner)
    {
      attrs, metaattrs, store := None, None, Store([], []);
      lasthandle, lastkey, lastdatalen := 0, 0, 0;
      hide Pendings, CacheRight, IsArray;
      EmptyPendings(keys, store, AllPending());
      EmptyCache(keys, store, AllPending(), owner);
    }

    /** The packed data of the new entries. */
    method SetPacked(data: seq<Byte>, offs: seq<nat>, schema: nat, offsets: seq<nat>, ghost news: seq<Entry>)
      requires start <= end && |offs| == |news| == 1 + (end - start)
      requires offs[0] == 1 && (forall j :: 1 <= j < |offs| ==> offs[j] > 1) && Located(Some(data), offs, news)
      requires ValidEntries(keys, schemas.lists, news) && schema == news[0].schema && MainOffsets(offsets, news[0])
      modifies this`incoredata, this`incoreoffset, this`mainschema, this`mainschemaoffsets, this`entries
      ensures entries == news && PackedRight(keys, schemas.lists, incoredata, incoreoffset, end - start, entries, mainschema, mainschemaoffsets)
    {
      hide PackedRight, ValidEntries, Located, MainOffsets;
      PackedIs(keys, schemas.lists, data, offs, news, schema, offsets);
      incoredata, incoreoffset := Some(data), offs[1..];
      mainschema, mainschemaoffsets := schema, Some(offsets);
      entries := news;
    }

    /** Replace the packed data, and forget what was pending. */
    method StoreMerged(data: seq<Byte>, offs: seq<nat>, schema: nat, offsets: seq<nat>, ghost news: seq<Entry>)
      requires schemas.Valid() && ValidKeys(keys) && start <= end && |offs| == |news| == 1 + (end - start)
      requires offs[0] == 1 && (forall j :: 1 <= j < |offs| ==> offs[j] > 1) && Located(Some(data), offs, news)
      requires ValidEntries(keys, schemas.lists, news) && schema == news[0].schema && MainOffsets(offsets, news[0])
      requires !IsArray(keys[0].ktype)
      modifies this
      ensures Valid() && keys == old(keys) && start == old(start) && end == old(end)
      ensures entries == news && attrs.None? && metaattrs.None?
    {
      assert keys != [];
      hide PackedRight, ValidEntries, Pendings, Located, MainOffsets, ValidKeys, CacheRight, IsArray;
      SetPacked(data, offs, schema, offsets, news);
      ForgetPending();
    }

    /** repodata_internalize: afterwards nothing is pending, and every entry is merged with what was pending for it. */
    method Internalize()
      requires Valid() && |schemas.lists| + |entries| < 0x7fff_ffff && end - start < 0x8000_0000
      requires AllSound(keys, store, AllPending())
      modifies this, schemas
      ensures Valid() && start == old(start) && end == old(end) && |entries| == |old(entries)|
      ensures |schemas.lists| <= |old(schemas.lists)| + |entries|
      ensures attrs.None? && metaattrs.None?
      ensures KeyMade(old(keys), keys, Repokey(SOLVABLES, FlexArray, 0)) && ValidEntries(keys, old(schemas.lists), old(entries))
      ensures Pendings(keys, old(store), old(AllPending())) && |old(AllPending())| == |old(entries)|
      ensures AllMerged(keys, old(store), old(schemas.lists), old(entries), old(AllPending()), schemas.lists, entries)
    {
      hide ValidEntries, Pendings, Located, MainOffsets, AllMerged, Written, ValidKeys, SolvKey, CacheRight, AllSound;
      SameLength(incoredata, Offsets(), entries);
      if attrs.None? && metaattrs.None? {
        NothingMerged(keys, store, schemas.lists, entries, AllPending());
        return;
      }
      ghost var news;
      var data, offs, schema, offsets;
      data, offs, schema, offsets, news := MergePending();
      WrittenParts(keys, store, old(schemas.lists), entries, AllPending(), schemas.lists, data, offs, news);
      schemas.FreeHash();
      StoreMerged(data, offs, schema, offsets, news);
    }

    /** forward_to_key: from the first field of an entry to that of its key number kp. */
    method ForwardToKey(data: seq<Byte>, j: nat, schema: nat, ks: seq<nat>, kp: nat, dp0: nat) returns (dp: nat)
      requires Valid() && j < |entries| && incoredata == Some(data) && schema == entries[j].schema
      requires ks == schemas.lists[schema] && kp < |ks| && dp0 == Offsets()[j] + |Varint(schema)|
      requires Starts(data, dp0, Flat(entries[j].fields))
      ensures |entries[j].fields| == |ks| && Starts(data, dp, entries[j].fields[kp])
    {
      ghost var fields := entries[j].fields;
      assert ValidEntry(keys, schemas.lists, entries[j], j == 0);
      if mainschemaoffsets.Some? && mainschemaoffsets.value != [] && dp0 == mainschemaoffsets.value[0] && schema == mainschema {
        assert j == 0 by { FirstOffset(mainschemaoffsets.value, entries[0]); }
        assert Starting(mainschemaoffsets.value, dp0, fields);
        dp := mainschemaoffsets.value[kp];
        FieldInFlat(data, dp0, fields, kp);
        return;
      }
      dp := SkipTo(data, keys, ks, kp, dp0, fields, j == 0);
    }

    /** find_key_data: the key that a name has in an entry, and the place of its field. */
    method FindKeyData(j: nat, name: nat) returns (r: Option<(nat, nat)>)
      requires Valid() && j < |entries|
      ensures ValidEntry(keys, schemas.lists, entries[j], j == 0)
      ensures var v := ViewOf(keys, schemas.lists, entries[j], j == 0, name);
        (r.Some? <==> v.Some?) &&
        (r.Some? ==> r.value.0 == v.value.0 && incoredata.Some? && Starts(incoredata.value, r.value.1, v.value.1))
    {
      assert ValidEntry(keys, schemas.lists, entries[j], j == 0);
      if incoredata.None? { return None; }
      var data := incoredata.value;
      assert EntryAt(data, Offsets()[j], entries[j]);
      EntryParts(data, Offsets()[j], entries[j]);
      hide Located, MainOffsets, Pendings, ValidEntries, Flat, Varint;
      var schema, dp := ReadId(data, Offsets()[j]);
      var ks := schemas.Keys(schema);
      var kp := FindName(keys, ks, name);
      if kp == |ks| { return None; }
      var key := keys[ks[kp]];
      ConstantField(keys, ks, entries[j].fields, j == 0, kp);
      if key.ktype.Void? || key.ktype.Constant? || key.ktype.ConstantId? {
        assert data[dp..dp] == [];
        return Some((ks[kp], dp));
      }
      dp := ForwardToKey(data, j, schema, ks, kp, dp);
      r := Some((ks[kp], dp));
    }
  }

  lemma FirstOffset(offsets: seq<nat>, e: Entry)
    requires MainOffsets(offsets, e) && offsets != []
    ensures offsets[0] == 1 + |Varint(e.schema)|
  {
    FlatNothing();
    assert e.fields[..0] == [];
  }

  /** Field k of an entry, behind the fields before it. */
  lemma FieldInFlat(data: seq<Byte>, dp: nat, fields: seq<seq<Byte>>, k: nat)
    requires Starts(data, dp, Flat(fields)) && k < |fields|
    ensures Starts(data, dp + |Flat(fields[..k])|, fields[k])
  {
    assert fields == fields[..k] + fields[k..];
    FlatConcat(fields[..k], fields[k..]);
    hide Flat;
    StartsWith(data, dp, Flat(fields[..k]), Flat(fields[k..]));
    FlatFrom(data, dp + |Flat(fields[..k])|, fields, k);
  }

  /** Constants take no bytes. */
  lemma ConstantField(keys: seq<Repokey>, ks: seq<nat>, fields: seq<seq<Byte>>, meta: bool, k: nat)
    requires ValidFields(keys, ks, fields, meta) && k < |ks|
    ensures |fields| == |ks|
    ensures keys[ks[k]].ktype.Void? || keys[ks[k]].ktype.Constant? || keys[ks[k]].ktype.ConstantId? ==> fields[k] == []
  {
    assert ValidField(keys, ks, fields, meta, k);
  }

  method FindName(keys: seq<Repokey>, ks: seq<nat>, name: nat) returns (kp: nat)
    requires KeysBelow(ks, |keys|)
    ensures kp == FirstNamed(keys, ks, name)
  {
    kp := 0;
    assert ks[0..] == ks;
    while kp < |ks| && keys[ks[kp]].name != name
      invariant kp <= |ks| && FirstNamed(keys, ks, name) == kp + FirstNamed(keys, ks[kp..], name)
    {
      assert ks[kp..][1..] == ks[kp + 1..];
      kp := kp + 1;
    }
  }

  /** Skip the fields before that of key number kp, which is found by its id. */
  method SkipTo(data: seq<Byte>, keys: seq<Repokey>, ks: seq<nat>, kp: nat, dp0: nat, ghost fields: seq<seq<Byte>>, ghost meta: bool)
    returns (dp: nat)
    requires ValidFields(keys, ks, fields, meta) && kp < |ks| && Starts(data, dp0, Flat(fields))
    ensures Starts(data, dp, fields[kp])
  {
    hide Flat, Starts, IsField;
    dp := dp0;
    var i := 0;
    assert fields[0..] == fields;
    while ks[i] != ks[kp]
      invariant i <= kp && Starts(data, dp, Flat(fields[i..]))
      decreases kp - i
    {
      FlatFrom(data, dp, fields, i);
      assert ValidField(keys, ks, fields, meta, i);
      dp := SkipField(data, dp, keys[ks[i]], fields[i]);
      i := i + 1;
    }
    FlatFrom(data, dp, fields, i);
  }

  /** Fetching at the place of a field gives the values of the field. */
  lemma FetchedValues(key: Repokey, f: seq<Byte>, data: seq<Byte>, dp: nat)
    requires IsField(key, f) && Starts(data, dp, f)
    ensures dp <= |data|
    ensures FetchAll(Layout(key.ktype), key.size, data, dp) == Some((FetchAll(Layout(key.ktype), key.size, f, 0).value.0, dp + |f|))
  {
    hide FetchAll;
    FetchAllShift(Layout(key.ktype), key.size, data, dp, f, 0);
  }

  /** After internalizing, a name stands for what is kept of the values that were set for it, and otherwise for what it stood for before. */
  lemma InternalizeOverlays(keys: seq<Repokey>, st: Store, lists: seq<seq<nat>>, e: Entry, pending: seq<Attr>, meta: bool,
                            lists': seq<seq<nat>>, e': Entry, name: nat)
    requires ValidEntry(keys, lists, e, meta) && PendingSound(keys, st, pending) && OneKeyPerName(keys) && name != SOLVABLES
    requires EntryMerged(keys, st, lists, e, pending, meta, lists', e')
    ensures var v, a := ViewOf(keys, lists', e', meta, name), PendingNamed(keys, pending, name);
      if a.None? then v == ViewOf(keys, lists, e, meta, name)
      else
        a.value.key < |keys| && InStore(keys[a.value.key].ktype, st, a.value.val) && v.Some? && v.value.0 == a.value.key &&
        Complete(keys[a.value.key].ktype, keys[a.value.key].size, v.value.1,
                 CutAll(keys[a.value.key].ktype, Values(keys[a.value.key].ktype, keys[a.value.key].size, st, a.value.val)))
  {
    var a := PendingNamed(keys, pending, name);
    assert ViewOf(keys, lists', e', meta, name) == MergedView(keys, lists[e.schema], e.fields, pending, st, name);
    OverlayAlways(keys, lists[e.schema], e.fields, pending, st, name);
    if a.Some? {
      PendingNamedIs(keys, pending, name);
      PendingOfNamed(keys, st, pending, a.value);
      SerialComplete(keys[a.value.key].ktype, keys[a.value.key].size, st, a.value.val);
    }
  }

  /** A name for which a value is pending stands for exactly that value afterwards, under its own key, exactly if the name was stored
   * under no other key and all of the value is kept.
   */
  lemma InternalizeExact(keys: seq<Repokey>, st: Store, lists: seq<seq<nat>>, e: Entry, pending: seq<Attr>, meta: bool,
                         lists': seq<seq<nat>>, e': Entry, name: nat)
    requires ValidEntry(keys, lists, e, meta) && PendingSound(keys, st, pending) && name != SOLVABLES
    requires EntryMerged(keys, st, lists, e, pending, meta, lists', e') && PendingNamed(keys, pending, name).Some?
    ensures var was, v, a := ViewOf(keys, lists, e, meta, name), ViewOf(keys, lists', e', meta, name), PendingNamed(keys, pending, name).value;
      && a.key < |keys| && InStore(keys[a.key].ktype, st, a.val) && v.Some?
      && (v.value.0 == a.key && Complete(keys[a.key].ktype, keys[a.key].size, v.value.1, Values(keys[a.key].ktype, keys[a.key].size, st, a.val))
          <==> (was.None? || was.value.0 == a.key) && Fits(keys[a.key].ktype, st, a.val))
  {
    var a := PendingNamed(keys, pending, name).value;
    assert ViewOf(keys, lists', e', meta, name) == MergedView(keys, lists[e.schema], e.fields, pending, st, name);
    PendingNamedIs(keys, pending, name);
    PendingOfNamed(keys, st, pending, a);
    OverlayExact(keys, lists[e.schema], e.fields, pending, st, name);
    SerialExact(keys[a.key].ktype, keys[a.key].size, st, a.val);
  }

  lemma PendingOfNamed(keys: seq<Repokey>, st: Store, pending: seq<Attr>, a: Attr)
    requires PendingStored(keys, st, pending) && a in pending
    ensures PendingOf(pending, a.key) == Some(a.val) && a.key < |keys| && AttrStored(keys, st, a)
  {
    var i :| 0 <= i < |pending| && pending[i] == a;
    PendingFound(pending, i);
  }

  ghost predicate KeysIn(keys: seq<Repokey>, list: seq<Attr>) { forall i :: 0 <= i < |list| ==> list[i].key < |keys| }

  method FindAttr(keys: seq<Repokey>, list: seq<Attr>, name: nat) returns (p: nat)
    requires KeysIn(keys, list)
    ensures p == PlaceOf(keys, list, name)
  {
    p := 0;
    assert list[0..] == list;
    while p < |list| && keys[list[p].key].name != name
      invariant p <= |list| && PlaceOf(keys, list, name) == p + PlaceOf(keys, list[p..], name)
    {
      assert list[p..][1..] == list[p + 1..];
      p := p + 1;
    }
  }

  lemma PutIs(keys: seq<Repokey>, list: seq<Attr>, a: Attr, p: nat)
    requires KeysIn(keys, list) && a.key < |keys| && p == PlaceOf(keys, list, keys[a.key].name)
    ensures Put(keys, list, a) == if p < |list| then list[p := a] else list + [a]
  {
  }

  lemma FlexStaysOne(keys: seq<Repokey>, key: Repokey)
    requires ValidKeys(keys) && (key.ktype.FlexArray? ==> key.name == SOLVABLES)
    requires forall k :: 1 <= k < |keys| ==> !SameKey(keys[k], key)
    ensures ValidKeys(keys + [key])
  {
  }

  lemma NothingMerged(keys: seq<Repokey>, st: Store, lists: seq<seq<nat>>, entries: seq<Entry>, pendings: seq<seq<Attr>>)
    requires ValidEntries(keys, lists, entries) && Pendings(keys, st, pendings) && |entries| == |pendings|
    requires forall j :: 0 <= j < |pendings| ==> pendings[j] == []
    ensures AllMerged(keys, st, lists, entries, pendings, lists, entries)
  {
    hide EntryMerged, ValidEntry;
    forall j | 0 <= j < |entries| ensures EntryMerged(keys, st, lists, entries[j], pendings[j], j == 0, lists, entries[j]) {
      NothingPending(keys, st, lists, entries[j], j == 0);
    }
  }

  lemma SolvKeyIs(keys: seq<Repokey>, solvkey: nat)
    requires ValidKeys(keys)
    requires if solvkey == 0 then forall k :: 1 <= k < |keys| ==> !SameKey(keys[k], Repokey(SOLVABLES, FlexArray, 0))
             else solvkey < |keys| && SameKey(keys[solvkey], Repokey(SOLVABLES, FlexArray, 0))
    ensures SolvKey(keys, solvkey)
  {
  }

  lemma SameLength(data: Option<seq<Byte>>, offs: seq<nat>, entries: seq<Entry>)
    requires Located(data, offs, entries)
    ensures |offs| == |entries|
  {
  }

  lemma OneByte()
    ensures |IdCode(0)| == 1
  {
  }

  lemma WrittenParts(keys: seq<Repokey>, st: Store, lists0: seq<seq<nat>>, entries: seq<Entry>, pendings: seq<seq<Attr>>,
                     lists: seq<seq<nat>>, buf: seq<Byte>, newoffs: seq<nat>, news: seq<Entry>)
    requires ValidEntries(keys, lists0, entries) && Pendings(keys, st, pendings) && |entries| == |pendings| == |news| >= 1
    requires Written(keys, st, lists0, entries, pendings, lists, buf, newoffs, news)
    ensures |newoffs| == |news| && newoffs[0] == 1 && (forall j :: 1 <= j < |newoffs| ==> newoffs[j] > 1)
    ensures Located(Some(buf), newoffs, news) && ValidEntries(keys, lists, news) && |lists| <= |lists0| + |news|
    ensures AllMerged(keys, st, lists0, entries, pendings, lists, news)
  {
    hide PendingStored, ValidEntry, EntryAt;
    forall j | 0 <= j < |news| ensures ValidEntry(keys, lists, news[j], j == 0) {
      assert EntryMerged(keys, st, lists0, entries[j], pendings[j], j == 0, lists, news[j]);
    }
  }

  lemma EmptyPendings(keys: seq<Repokey>, st: Store, pendings: seq<seq<Attr>>)
    requires forall j :: 0 <= j < |pendings| ==> pendings[j] == []
    ensures Pendings(keys, st, pendings)
  {
  }
}
