/** Merging the pending attributes of all entries with the packed ones (repodata_internalize, src/repodata.c).
 *
 * Entry 0 describes the repository itself (SOLVID_META), entry 1 + i the i-th solvable. All keys are
 * stored incore; the solvables are a key of the first entry of which only the number is stored.
 */
module Internalize {
  import opened Bytes
  import opened Packing
  import opened Pigeonhole
  import opened Fields
  import opened Serialize
  import opened Merge
  import Schemata

  /** The name of the key of the solvables (REPOSITORY_SOLVABLES). */
  const SOLVABLES: nat := 28

  datatype Entry = Entry(schema: nat, fields: seq<seq<Byte>>)

  ghost predicate ValidKeys(keys: seq<Repokey>) {
    && |keys| >= 1
    && (forall k :: 1 <= k < |keys| && keys[k].ktype.FlexArray? ==> keys[k].name == SOLVABLES)
    && (forall i, j :: 1 <= i < j < |keys| ==> !(keys[i].ktype.FlexArray? && keys[j].ktype.FlexArray?))
  }

  /** Every field is complete, and only the first entry may end with the number of solvables. */
  ghost predicate ValidFields(keys: seq<Repokey>, ks: seq<nat>, fields: seq<seq<Byte>>, meta: bool) {
    && Distinct(ks) && KeysBelow(ks, |keys|) && |fields| == |ks|
    && forall i :: 0 <= i < |ks| ==> ValidField(keys, ks, fields, meta, i)
  }

  ghost predicate ValidField(keys: seq<Repokey>, ks: seq<nat>, fields: seq<seq<Byte>>, meta: bool, i: nat)
    requires KeysBelow(ks, |keys|) && i < |ks| == |fields|
  {
    if keys[ks[i]].ktype.FlexArray? then meta && i == |ks| - 1 else IsField(keys[ks[i]], fields[i])
  }

  ghost predicate ValidEntry(keys: seq<Repokey>, lists: seq<seq<nat>>, e: Entry, meta: bool) {
    e.schema < |lists| && ValidFields(keys, lists[e.schema], e.fields, meta)
  }

  /** The bytes of an entry. */
  function Packed(e: Entry): seq<Byte> { Varint(e.schema) + Flat(e.fields) }

  /** What a name stands for in an entry. */
  ghost function ViewOf(keys: seq<Repokey>, lists: seq<seq<nat>>, e: Entry, meta: bool, name: nat): Option<(nat, seq<Byte>)>
    requires ValidEntry(keys, lists, e, meta)
  {
    View(keys, lists[e.schema], e.fields, name)
  }

  // ---- merging one entry ----

  /** The key of the solvables, or 0 if there is none. */
  ghost predicate SolvKey(keys: seq<Repokey>, solvkey: nat) {
    if solvkey == 0 then forall k :: 1 <= k < |keys| ==> !keys[k].ktype.FlexArray?
    else solvkey < |keys| && keys[solvkey].ktype.FlexArray?
  }

  lemma OneFlex(keys: seq<Repokey>, solvkey: nat, k: nat)
    requires ValidKeys(keys) && SolvKey(keys, solvkey) && 1 <= k < |keys|
    ensures keys[k].ktype.FlexArray? <==> k == solvkey
  {
  }

  /** Without the number of solvables, all keys of an entry have complete fields. */
  lemma StripFields(keys: seq<Repokey>, ks: seq<nat>, fields: seq<seq<Byte>>, meta: bool, solvkey: nat)
    requires ValidKeys(keys) && ValidFields(keys, ks, fields, meta)
    requires SolvKey(keys, solvkey)
    ensures var olds := Strip(ks, solvkey);
      && |olds| <= |ks| && olds == ks[..|olds|] && AreFields(keys, olds, fields[..|olds|]) && Distinct(olds)
      && (|olds| < |ks| ==> solvkey != 0 && meta && ks == olds + [solvkey])
      && (forall i :: 0 <= i < |olds| ==> olds[i] != solvkey && !keys[olds[i]].ktype.FlexArray?)
    ensures forall i :: 0 <= i < |ks| && ks[i] == solvkey ==> meta && i == |ks| - 1
  {
    var olds := Strip(ks, solvkey);
    forall i | 0 <= i < |ks| ensures keys[ks[i]].ktype.FlexArray? <==> ks[i] == solvkey {
      OneFlex(keys, solvkey, ks[i]);
    }
    assert |olds| < |ks| ==> ks == olds + [solvkey] && ValidField(keys, ks, fields, meta, |ks| - 1);
    forall i | 0 <= i < |olds| ensures olds[i] != solvkey && IsField(keys[olds[i]], fields[..|olds|][i]) {
      assert ValidField(keys, ks, fields, meta, i) && olds[i] == ks[i];
    }
    forall i | 0 <= i < |ks| && ks[i] == solvkey ensures meta && i == |ks| - 1 {
      assert ValidField(keys, ks, fields, meta, i);
    }
  }

  /** The name of the solvables apart, a stripped entry looks the same. */
  lemma StripView(keys: seq<Repokey>, ks: seq<nat>, fields: seq<seq<Byte>>, olds: seq<nat>, tail: seq<nat>, name: nat)
    requires KeysBelow(ks, |keys|) && |fields| == |ks| && ks == olds + tail
    requires forall i :: 0 <= i < |tail| ==> tail[i] < |keys| && keys[tail[i]].name != name
    ensures KeysBelow(olds, |keys|) && View(keys, ks, fields, name) == View(keys, olds, fields[..|olds|], name)
  {
    assert forall i :: 0 <= i < |olds| ==> olds[i] == ks[i];
    assert forall i :: 0 <= i < |tail| ==> tail[i] == ks[|olds| + i];
    FirstNamedNone(keys, tail, name);
    FirstNamedConcat(keys, olds, tail, name);
  }

  /** The merged fields are complete. */
  lemma NewFieldsValid(keys: seq<Repokey>, st: Store, pending: seq<Attr>, ks: seq<nat>, olds: seq<nat>, oldFields: seq<seq<Byte>>,
                       solvkey: nat, count: nat, meta: bool)
    requires ValidKeys(keys) && PendingSound(keys, st, pending) && AreFields(keys, olds, oldFields)
    requires Merged(keys, olds, pending, ks, solvkey)
    requires SolvKey(keys, solvkey)
    requires forall i :: 0 <= i < |ks| && ks[i] == solvkey ==> meta
    ensures ValidFields(keys, ks, NewFields(keys, st, pending, ks, oldFields, solvkey, count), meta)
  {
    var fields := NewFields(keys, st, pending, ks, oldFields, solvkey, count);
    forall i | 0 <= i < |ks| ensures ValidField(keys, ks, fields, meta, i) {
      if ks[i] != solvkey {
        var k := ks[i];
        var f: seq<Byte> := if i < |oldFields| then oldFields[i] else [];
        if i < |olds| { assert ks[..|olds|][i] == olds[i]; }
        NewFieldIsField(keys, st, pending, k, f);
        FlexIsSolv(keys, k, solvkey, f, NewField(keys, st, pending, k, f));
      }
    }
  }

  lemma FlexIsSolv(keys: seq<Repokey>, k: nat, solvkey: nat, f: seq<Byte>, g: seq<Byte>)
    requires k < |keys| && IsField(keys[k], g)
    ensures !keys[k].ktype.FlexArray?
  {
  }

  lemma NewFieldIsField(keys: seq<Repokey>, st: Store, pending: seq<Attr>, k: nat, f: seq<Byte>)
    requires PendingSound(keys, st, pending) && k < |keys|
    requires PendingOf(pending, k).Some? || IsField(keys[k], f)
    ensures IsField(keys[k], NewField(keys, st, pending, k, f))
  {
    if PendingOf(pending, k).Some? {
      var i := PendingIn(pending, k);
      var t, val := keys[k].ktype, PendingOf(pending, k).value;
      SerialComplete(t, keys[k].size, st, val);
    }
  }

  /** The list of keys the code builds for an entry. */
  ghost predicate Built(was: seq<nat>, pending: seq<Attr>, ks: seq<nat>, solvkey: nat, withSolv: bool) {
    var olds := Strip(was, solvkey);
    var news := NewKeys(olds, pending);
    ks == if news != [] || withSolv then olds + news + (if withSolv then [solvkey] else []) else was
  }

  /** Old keys, then new ones, then at most that of the solvables. */
  lemma BuiltMerged(keys: seq<Repokey>, was: seq<nat>, fields: seq<seq<Byte>>, pending: seq<Attr>, ks: seq<nat>,
                    solvkey: nat, withSolv: bool, meta: bool) returns (tail: seq<nat>)
    requires ValidKeys(keys) && ValidFields(keys, was, fields, meta) && ValidPending(pending, |keys|)
    requires PendingOf(pending, solvkey).None? && SolvKey(keys, solvkey)
    requires Built(was, pending, ks, solvkey, withSolv) && (withSolv ==> meta && solvkey != 0)
    ensures Merged(keys, Strip(was, solvkey), pending, ks, solvkey)
    ensures ks == Strip(was, solvkey) + NewKeys(Strip(was, solvkey), pending) + tail
    ensures tail == [] || (tail == [solvkey] && solvkey != 0 && meta)
  {
    hide ValidKeys, ValidFields, ValidPending, PendingOf, AreFields, Distinct, NewKeys, Merged, KeysBelow, Strip;
    StripFields(keys, was, fields, meta, solvkey);
    var olds := Strip(was, solvkey);
    var news := NewKeys(olds, pending);
    NewKeysDistinct(olds, pending);
    NewKeysBelow(olds, pending, |keys|);
    FieldsKeys(keys, was, fields, meta);
    FieldKeysBelow(keys, olds, fields[..|olds|]);
    if news != [] || withSolv {
      tail := if withSolv then [solvkey] else [];
    } else {
      tail := was[|olds|..];
      assert was == olds + tail && olds + [] == olds;
      assert |olds| < |was| ==> tail == [solvkey];
    }
    assert ks == olds + news + tail;
    MergedParts(keys, olds, pending, news, tail, solvkey);
  }

  lemma FieldKeysBelow(keys: seq<Repokey>, ks: seq<nat>, fields: seq<seq<Byte>>)
    requires AreFields(keys, ks, fields)
    ensures KeysBelow(ks, |keys|)
  {
  }

  lemma MergedParts(keys: seq<Repokey>, olds: seq<nat>, pending: seq<Attr>, news: seq<nat>, tail: seq<nat>, solvkey: nat)
    requires Distinct(olds + news) && KeysBelow(olds, |keys|) && KeysBelow(news, |keys|)
    requires forall k :: k in news ==> k !in olds && PendingOf(pending, k).Some?
    requires PendingOf(pending, solvkey).None? && solvkey !in olds
    requires tail == [] || (tail == [solvkey] && 0 < solvkey < |keys|)
    ensures Merged(keys, olds, pending, olds + news + tail, solvkey)
  {
    hide PendingOf, Distinct;
    var ks := olds + news + tail;
    assert solvkey !in olds + news;
    DistinctWith(olds + news, tail, solvkey);
    forall i | 0 <= i < |ks| ensures 0 < ks[i] < |keys| && (ks[i] == solvkey ==> i == |ks| - 1 && i >= |olds|) {
      if i < |olds| {
        assert ks[i] == olds[i] && olds[i] in olds;
      } else if i < |olds| + |news| {
        assert ks[i] == news[i - |olds|] && news[i - |olds|] in olds + news;
      }
    }
    forall i | |olds| <= i < |ks| && ks[i] != solvkey ensures ks[i] !in olds && PendingOf(pending, ks[i]).Some? {
      assert i < |olds| + |news| ==> ks[i] == news[i - |olds|] && news[i - |olds|] in news;
    }
    assert ks[..|olds|] == olds;
  }

  lemma DistinctWith(s: seq<nat>, tail: seq<nat>, x: nat)
    requires Distinct(s) && x !in s && (tail == [] || tail == [x])
    ensures Distinct(s + tail)
  {
  }

  /** The bytes of an entry are in the data. */
  ghost predicate EntryAt(data: seq<Byte>, off: nat, e: Entry) { Starts(data, off, Packed(e)) }

  /** The first entry and an absent one start at a number and go on with their fields. */
  lemma EntryParts(data: seq<Byte>, off: nat, e: Entry)
    requires EntryAt(data, off, e)
    ensures GetId(data, off) == Some((e.schema, off + |Varint(e.schema)|))
    ensures Starts(data, off + |Varint(e.schema)|, Flat(e.fields))
  {
    hide Varint, Flat, GetId;
    StartsWith(data, off, Varint(e.schema), Flat(e.fields));
    IdRoundTrip(data, off, e.schema);
  }

  /** The keys of an entry before and after: read the old ones, add the pending ones, and those of the solvables. */
  method BuildSchema(keys: seq<Repokey>, was: seq<nat>, pending: seq<Attr>, meta: bool, solvkey: nat, withSolv: bool, ghost fields: seq<seq<Byte>>)
    returns (schema: seq<nat>, seen: seq<int>, oldcount: nat, newschema: bool)
    requires ValidKeys(keys) && ValidFields(keys, was, fields, meta) && ValidPending(pending, |keys|) && SolvKey(keys, solvkey)
    requires withSolv ==> meta && solvkey != 0
    ensures oldcount == |Strip(was, solvkey)| && |seen| == |keys|
    ensures forall k :: 0 <= k < |keys| ==> seen[k] == Seen(Strip(was, solvkey), pending, k)
    ensures newschema <==> NewKeys(Strip(was, solvkey), pending) != [] || withSolv
    ensures newschema ==> schema == Strip(was, solvkey) + NewKeys(Strip(was, solvkey), pending) + (if withSolv then [solvkey] else [])
  {
    StripFields(keys, was, fields, meta, solvkey);
    schema, seen := OldKeys(was, |keys|, meta, solvkey);
    oldcount := |schema|;
    schema, seen, newschema := AddPending(schema, seen, |keys|, pending);
    if withSolv {
      schema := schema + [solvkey];
      newschema := true;
    }
  }

  /** Choose the schema of an entry. */
  method ChooseSchema(schemas: Schemata.Pool, oldschema: nat, keys: seq<Repokey>, pending: seq<Attr>, meta: bool, solvkey: nat,
                      withSolv: bool, ghost fields: seq<seq<Byte>>)
    returns (schemaid: nat, ks: seq<nat>, seen: seq<int>, oldcount: nat)
    requires schemas.Valid() && oldschema < |schemas.lists|
    requires ValidKeys(keys) && ValidFields(keys, schemas.lists[oldschema], fields, meta) && ValidPending(pending, |keys|)
    requires SolvKey(keys, solvkey) && (withSolv ==> meta && solvkey != 0)
    modifies schemas
    ensures schemas.Valid() && old(schemas.lists) <= schemas.lists && |schemas.lists| <= |old(schemas.lists)| + 1
    ensures schemaid < |schemas.lists| && schemas.lists[schemaid] == ks
    ensures var was := old(schemas.lists)[oldschema];
      && Built(was, pending, ks, solvkey, withSolv) && oldcount == |Strip(was, solvkey)| && |seen| == |keys|
      && forall k :: 0 <= k < |keys| ==> seen[k] == Seen(Strip(was, solvkey), pending, k)
  {
    var was := schemas.Keys(oldschema);
    var schema, newschema;
    schema, seen, oldcount, newschema := BuildSchema(keys, was, pending, meta, solvkey, withSolv, fields);
    schemaid := oldschema;
    if newschema {
      NoZeroKey(keys, was, fields, meta, pending, solvkey, withSolv);
      schemaid := schemas.Schema2Id(schema, true);
    }
    ks := schemas.Keys(schemaid);
  }

  lemma NoZeroKey(keys: seq<Repokey>, was: seq<nat>, fields: seq<seq<Byte>>, meta: bool, pending: seq<Attr>, solvkey: nat, withSolv: bool)
    requires ValidKeys(keys) && ValidFields(keys, was, fields, meta) && ValidPending(pending, |keys|)
    requires SolvKey(keys, solvkey) && (withSolv ==> meta && solvkey != 0)
    ensures 0 !in Strip(was, solvkey) + NewKeys(Strip(was, solvkey), pending) + (if withSolv then [solvkey] else [])
  {
    StripFields(keys, was, fields, meta, solvkey);
    NewKeysBelow(Strip(was, solvkey), pending, |keys|);
  }

  /** What merging an entry has to achieve. */
  ghost predicate EntryMerged(keys: seq<Repokey>, st: Store, lists: seq<seq<nat>>, e: Entry, pending: seq<Attr>, meta: bool,
                              lists': seq<seq<nat>>, e': Entry)
    requires ValidEntry(keys, lists, e, meta) && PendingStored(keys, st, pending)
  {
    && ValidEntry(keys, lists', e', meta)
    && forall name :: name != SOLVABLES ==>
        ViewOf(keys, lists', e', meta, name) == MergedView(keys, lists[e.schema], e.fields, pending, st, name)
  }

  lemma MergeMeans(keys: seq<Repokey>, st: Store, lists: seq<seq<nat>>, e: Entry, pending: seq<Attr>, meta: bool,
                   lists': seq<seq<nat>>, e': Entry, solvkey: nat, withSolv: bool, count: nat)
    requires ValidKeys(keys) && ValidEntry(keys, lists, e, meta) && PendingSound(keys, st, pending) && NamesDistinct(keys, pending)
    requires SolvKey(keys, solvkey) && (withSolv ==> meta && solvkey != 0)
    requires e'.schema < |lists'| && Built(lists[e.schema], pending, lists'[e'.schema], solvkey, withSolv)
    requires var was := lists[e.schema]; var olds := Strip(was, solvkey);
      |olds| <= |e.fields| && e'.fields == NewFields(keys, st, pending, lists'[e'.schema], e.fields[..|olds|], solvkey, count)
    ensures EntryMerged(keys, st, lists, e, pending, meta, lists', e')
  {
    hide ValidFields, PendingStored, PendingSound, NewFields, MergedView, View, Merged, Built, SolvKey, ValidKeys, Strip, NewKeys, NamesDistinct, PendingOf, AreFields;
    SoundValid(keys, st, pending);
    var was, ks := lists[e.schema], lists'[e'.schema];
    var olds := Strip(was, solvkey);
    FieldsKeys(keys, was, e.fields, meta);
    SolvNotPending(keys, st, pending, solvkey);
    StripFields(keys, was, e.fields, meta, solvkey);
    var tail := BuiltMerged(keys, was, e.fields, pending, ks, solvkey, withSolv, meta);
    NewFieldsValid(keys, st, pending, ks, olds, e.fields[..|olds|], solvkey, count, meta);
    MergedKeys(keys, olds, pending, ks, solvkey);
    forall name | name != SOLVABLES
      ensures ViewOf(keys, lists', e', meta, name) == MergedView(keys, was, e.fields, pending, st, name)
    {
      MergeViewAt(keys, st, was, e.fields, pending, ks, tail, solvkey, count, name, meta);
    }
  }

  lemma FieldsKeys(keys: seq<Repokey>, ks: seq<nat>, fields: seq<seq<Byte>>, meta: bool)
    requires ValidFields(keys, ks, fields, meta)
    ensures KeysBelow(ks, |keys|) && |fields| == |ks|
  {
  }

  lemma MergeViewAt(keys: seq<Repokey>, st: Store, was: seq<nat>, fields: seq<seq<Byte>>, pending: seq<Attr>, ks: seq<nat>,
                    tail: seq<nat>, solvkey: nat, count: nat, name: nat, meta: bool)
    requires ValidKeys(keys) && ValidFields(keys, was, fields, meta) && SolvKey(keys, solvkey)
    requires PendingStored(keys, st, pending) && NamesDistinct(keys, pending) && KeysBelow(ks, |keys|)
    requires ks == Strip(was, solvkey) + NewKeys(Strip(was, solvkey), pending) + tail && name != SOLVABLES
    requires tail == [] || (tail == [solvkey] && solvkey != 0)
    ensures |Strip(was, solvkey)| <= |fields|
    ensures View(keys, ks, NewFields(keys, st, pending, ks, fields[..|Strip(was, solvkey)|], solvkey, count), name) ==
      MergedView(keys, was, fields, pending, st, name)
  {
    hide NewKeys, NewFields, View, PendingStored, Strip, PendingNamed;
    StripFields(keys, was, fields, meta, solvkey);
    var olds := Strip(was, solvkey);
    assert was == olds + was[|olds|..];
    MergedLookup(keys, olds, fields[..|olds|], pending, st, tail, solvkey, count, name);
    StripView(keys, was, fields, olds, was[|olds|..], name);
  }

  /** The key of the solvables is never pending: it cannot be set. */
  lemma SolvNotPending(keys: seq<Repokey>, st: Store, pending: seq<Attr>, solvkey: nat)
    requires PendingStored(keys, st, pending) && SolvKey(keys, solvkey)
    ensures PendingOf(pending, solvkey).None?
  {
    if PendingOf(pending, solvkey).Some? { PendingStoredAt(keys, st, pending, solvkey); }
  }

  /** Merge one entry: what repodata_internalize does in one turn of its loop. */
  method MergeEntry(schemas: Schemata.Pool, xd: ExtData, keys: seq<Repokey>, st: Store, data: Option<seq<Byte>>, off: nat, meta: bool,
                    solvkey: nat, withSolv: bool, count: nat, pending: seq<Attr>, ghost e: Entry)
    returns (schemaid: nat, offsets: seq<nat>, ghost e': Entry)
    requires schemas.Valid() && ValidKeys(keys) && SolvKey(keys, solvkey) && (withSolv ==> meta && solvkey != 0)
    requires ValidEntry(keys, schemas.lists, e, meta) && PendingSound(keys, st, pending) && NamesDistinct(keys, pending)
    requires if data.None? then e == Entry(0, []) else EntryAt(data.value, off, e)
    requires count < 0x8000_0000 && |schemas.lists| < 0x7fff_ffff
    modifies schemas, xd
    ensures schemas.Valid() && old(schemas.lists) <= schemas.lists && |schemas.lists| <= |old(schemas.lists)| + 1
    ensures xd.buf == old(xd.buf) + Packed(e') && e'.schema == schemaid
    ensures |offsets| == |e'.fields| && Starting(offsets, |old(xd.buf)| + |Varint(schemaid)|, e'.fields)
    ensures EntryMerged(keys, st, old(schemas.lists), e, pending, meta, schemas.lists, e')
  {
    hide *;
    SoundValid(keys, st, pending);
    ghost var lists := schemas.lists;
    EntryValid(keys, lists, e, meta);
    ghost var was := lists[e.schema];
    SolvNotPending(keys, st, pending, solvkey);
    StripFields(keys, was, e.fields, meta, solvkey);
    ghost var olds := Strip(was, solvkey);
    var oldschema, bytes, dp := OpenEntry(data, off, e, |olds|);
    var ks, seen, oldcount;
    schemaid, ks, seen, oldcount := ChooseSchema(schemas, oldschema, keys, pending, meta, solvkey, withSolv, e.fields);
    ghost var tail := BuiltMerged(keys, was, e.fields, pending, ks, solvkey, withSolv, meta);
    MarksHold(keys, olds, pending, ks, solvkey, seen);
    offsets := WriteEntry(xd, schemaid, bytes, dp, oldcount, ks, seen, keys, st, solvkey, count, olds, e.fields[..|olds|], pending);
    e' := Entry(schemaid, NewFields(keys, st, pending, ks, e.fields[..|olds|], solvkey, count));
    MergeMeans(keys, st, lists, e, pending, meta, schemas.lists, e', solvkey, withSolv, count);
  }

  lemma EntryValid(keys: seq<Repokey>, lists: seq<seq<nat>>, e: Entry, meta: bool)
    requires ValidEntry(keys, lists, e, meta)
    ensures e.schema < |lists| && ValidFields(keys, lists[e.schema], e.fields, meta)
    ensures |lists[e.schema]| == |e.fields|
  {
  }

  /** Read the schema of an entry, whose first n fields lie ahead. */
  method OpenEntry(data: Option<seq<Byte>>, off: nat, ghost e: Entry, ghost n: nat) returns (oldschema: nat, bytes: seq<Byte>, dp: nat)
    requires if data.None? then e == Entry(0, []) else EntryAt(data.value, off, e)
    requires n <= |e.fields|
    ensures oldschema == e.schema && Standing(bytes, dp, n, 0, e.fields[..n])
  {
    hide Standing, Flat, Varint;
    oldschema, dp, bytes := 0, 0, [];
    if data.Some? {
      EntryParts(data.value, off, e);
      bytes := data.value;
      oldschema, dp := ReadId(bytes, off);
    } else {
      FlatNothing();
    }
    StandsAtStart(bytes, dp, e.fields, n);
  }

  /** Write the schema and the fields of an entry. */
  method WriteEntry(xd: ExtData, schemaid: nat, bytes: seq<Byte>, dp: nat, oldcount: nat, ks: seq<nat>, seen: seq<int>,
                    keys: seq<Repokey>, st: Store, solvkey: nat, count: nat,
                    ghost olds: seq<nat>, ghost oldFields: seq<seq<Byte>>, ghost pending: seq<Attr>)
    returns (offsets: seq<nat>)
    requires PendingStored(keys, st, pending) && AreFields(keys, olds, oldFields) && Merged(keys, olds, pending, ks, solvkey)
    requires Marks(seen, ks, 0, olds, pending, |keys|) && Standing(bytes, dp, oldcount, 0, oldFields)
    requires count < 0x8000_0000 && schemaid < 0x8000_0000
    modifies xd
    ensures var e := Entry(schemaid, NewFields(keys, st, pending, ks, oldFields, solvkey, count));
      && xd.buf == old(xd.buf) + Packed(e)
      && |offsets| == |ks| == |e.fields| && Starting(offsets, |old(xd.buf)| + |Varint(schemaid)|, e.fields)
  {
    hide PendingStored, AreFields, Merged, Marks, Standing, NewFields, Starting, Flat, Varint;
    ghost var base := xd.buf;
    xd.AddId(schemaid);
    offsets := WriteFields(xd, bytes, dp, oldcount, ks, seen, keys, st, solvkey, count, olds, oldFields, pending);
    Assoc(base, Varint(schemaid), Flat(NewFields(keys, st, pending, ks, oldFields, solvkey, count)));
  }

  lemma SoundValid(keys: seq<Repokey>, st: Store, pending: seq<Attr>)
    requires PendingSound(keys, st, pending)
    ensures PendingStored(keys, st, pending) && ValidPending(pending, |keys|)
  {
  }

  /** At the start of an entry, the fields of the old keys lie ahead. */
  lemma StandsAtStart(data: seq<Byte>, dp: nat, fields: seq<seq<Byte>>, n: nat)
    requires n <= |fields| && Starts(data, dp, Flat(fields))
    ensures Standing(data, dp, n, 0, fields[..n])
  {
    assert fields == fields[..n] + fields[n..];
    FlatConcat(fields[..n], fields[n..]);
    StartsWith(data, dp, Flat(fields[..n]), Flat(fields[n..]));
    assert fields[..n][0..] == fields[..n];
  }

  lemma MarksHold(keys: seq<Repokey>, olds: seq<nat>, pending: seq<Attr>, ks: seq<nat>, solvkey: nat, seen: seq<int>)
    requires Merged(keys, olds, pending, ks, solvkey) && |seen| == |keys|
    requires forall k :: 0 <= k < |keys| ==> seen[k] == Seen(olds, pending, k)
    ensures Marks(seen, ks, 0, olds, pending, |keys|)
  {
  }

  // ---- merging all entries ----

  ghost predicate Pendings(keys: seq<Repokey>, st: Store, pendings: seq<seq<Attr>>) {
    forall j :: 0 <= j < |pendings| ==> PendingStored(keys, st, pendings[j]) && NamesDistinct(keys, pendings[j])
  }

  /** Every pending value of every entry has a packed form. */
  ghost predicate AllSound(keys: seq<Repokey>, st: Store, pendings: seq<seq<Attr>>) {
    forall j :: 0 <= j < |pendings| ==> PendingSound(keys, st, pendings[j])
  }

  ghost predicate ValidEntries(keys: seq<Repokey>, lists: seq<seq<nat>>, entries: seq<Entry>) {
    forall j :: 0 <= j < |entries| ==> ValidEntry(keys, lists, entries[j], j == 0)
  }

  /** Where the entries are: absent ones share the empty entry at the start of the data. */
  ghost predicate Located(data: Option<seq<Byte>>, offs: seq<nat>, entries: seq<Entry>) {
    && |offs| == |entries|
    && forall j :: 0 <= j < |entries| ==> if data.None? then entries[j] == Entry(0, []) else EntryAt(data.value, offs[j], entries[j])
  }

  /** Every entry was merged with what was pending for it. */
  ghost predicate AllMerged(keys: seq<Repokey>, st: Store, lists: seq<seq<nat>>, entries: seq<Entry>, pendings: seq<seq<Attr>>,
                            lists': seq<seq<nat>>, news: seq<Entry>)
    requires ValidEntries(keys, lists, entries) && Pendings(keys, st, pendings) && |entries| == |pendings| && |news| <= |entries|
  {
    forall j :: 0 <= j < |news| ==> EntryMerged(keys, st, lists, entries[j], pendings[j], j == 0, lists', news[j])
  }

  lemma ValidEntryGrows(keys: seq<Repokey>, lists: seq<seq<nat>>, lists': seq<seq<nat>>, e: Entry, meta: bool)
    requires ValidEntry(keys, lists, e, meta) && lists <= lists'
    ensures ValidEntry(keys, lists', e, meta) && lists'[e.schema] == lists[e.schema]
  {
  }

  lemma EntryMergedGrows(keys: seq<Repokey>, st: Store, lists0: seq<seq<nat>>, lists1: seq<seq<nat>>, e: Entry, pending: seq<Attr>,
                         meta: bool, lists2: seq<seq<nat>>, lists3: seq<seq<nat>>, e': Entry)
    requires ValidEntry(keys, lists0, e, meta) && PendingStored(keys, st, pending) && lists0 <= lists1 && lists2 <= lists3
    requires ValidEntry(keys, lists1, e, meta) && EntryMerged(keys, st, lists1, e, pending, meta, lists2, e')
    ensures EntryMerged(keys, st, lists0, e, pending, meta, lists3, e')
  {
    ValidEntryGrows(keys, lists0, lists1, e, meta);
    ValidEntryGrows(keys, lists2, lists3, e', meta);
    hide ValidFields, PendingStored, MergedView, View;
    forall name | name != SOLVABLES
      ensures ViewOf(keys, lists3, e', meta, name) == MergedView(keys, lists0[e.schema], e.fields, pending, st, name)
    {
      assert ViewOf(keys, lists2, e', meta, name) == MergedView(keys, lists1[e.schema], e.fields, pending, st, name);
    }
  }

  lemma AllMergedMore(keys: seq<Repokey>, st: Store, lists: seq<seq<nat>>, entries: seq<Entry>, pendings: seq<seq<Attr>>,
                      lists1: seq<seq<nat>>, lists2: seq<seq<nat>>, news: seq<Entry>, e': Entry)
    requires ValidEntries(keys, lists, entries) && Pendings(keys, st, pendings) && |entries| == |pendings| && |news| < |entries|
    requires AllMerged(keys, st, lists, entries, pendings, lists1, news) && lists <= lists1 <= lists2
    requires ValidEntry(keys, lists1, entries[|news|], |news| == 0)
    requires EntryMerged(keys, st, lists1, entries[|news|], pendings[|news|], |news| == 0, lists2, e')
    ensures AllMerged(keys, st, lists, entries, pendings, lists2, news + [e'])
  {
    hide EntryMerged, PendingStored, NamesDistinct, ValidEntry;
    assert lists1 <= lists1;
    forall j | 0 <= j < |news| + 1
      ensures EntryMerged(keys, st, lists, entries[j], pendings[j], j == 0, lists2, (news + [e'])[j])
    {
      if j < |news| {
        EntryMergedGrows(keys, st, lists, lists, entries[j], pendings[j], j == 0, lists1, lists2, news[j]);
      } else {
        EntryMergedGrows(keys, st, lists, lists1, entries[j], pendings[j], j == 0, lists2, lists2, e');
      }
    }
  }

  /** Entries written before others stay where they are. */
  lemma LocatedMore(data: seq<Byte>, offs: seq<nat>, entries: seq<Entry>, more: seq<Byte>, e': Entry)
    requires Located(Some(data), offs, entries) && more == data + Packed(e')
    ensures Located(Some(more), offs + [|data|], entries + [e'])
  {
    hide Packed;
    forall j | 0 <= j < |entries| + 1 ensures EntryAt(more, (offs + [|data|])[j], (entries + [e'])[j]) {
      if j < |entries| {
        assert EntryAt(data, offs[j], entries[j]);
        StartsInPrefix(data, more, offs[j], Packed(entries[j]));
      } else {
        assert more[|data|..] == Packed(e');
      }
    }
  }

  lemma StartsInPrefix(data: seq<Byte>, more: seq<Byte>, off: nat, bytes: seq<Byte>)
    requires Starts(data, off, bytes) && data <= more
    ensures Starts(more, off, bytes)
  {
    assert more[off..off + |bytes|] == data[off..off + |bytes|];
  }

  /** Where the fields of the first entry are (mainschemaoffsets). */
  ghost predicate MainOffsets(offsets: seq<nat>, e: Entry) {
    |offsets| == |e.fields| && Starting(offsets, 1 + |Varint(e.schema)|, e.fields)
  }

  /** The entries before j were written. */
  ghost predicate Written(keys: seq<Repokey>, st: Store, lists0: seq<seq<nat>>, entries: seq<Entry>, pendings: seq<seq<Attr>>,
                          lists: seq<seq<nat>>, buf: seq<Byte>, newoffs: seq<nat>, news: seq<Entry>)
    requires ValidEntries(keys, lists0, entries) && Pendings(keys, st, pendings) && |entries| == |pendings|
  {
    && |news| == |newoffs| <= |entries| && lists0 <= lists && |lists| <= |lists0| + |news|
    && Located(Some(buf), newoffs, news) && AllMerged(keys, st, lists0, entries, pendings, lists, news)
    && (if news == [] then |buf| == 1 else |buf| > 1)
    && forall i :: 0 <= i < |newoffs| ==> if i == 0 then newoffs[i] == 1 else newoffs[i] > 1
  }

  lemma WrittenMore(keys: seq<Repokey>, st: Store, lists0: seq<seq<nat>>, entries: seq<Entry>, pendings: seq<seq<Attr>>,
                    lists1: seq<seq<nat>>, buf: seq<Byte>, newoffs: seq<nat>, news: seq<Entry>,
                    lists2: seq<seq<nat>>, buf': seq<Byte>, e': Entry)
    requires ValidEntries(keys, lists0, entries) && Pendings(keys, st, pendings) && |entries| == |pendings| && |news| < |entries|
    requires Written(keys, st, lists0, entries, pendings, lists1, buf, newoffs, news)
    requires lists1 <= lists2 && |lists2| <= |lists1| + 1 && buf' == buf + Packed(e')
    requires ValidEntry(keys, lists1, entries[|news|], |news| == 0)
    requires EntryMerged(keys, st, lists1, entries[|news|], pendings[|news|], |news| == 0, lists2, e')
    ensures Written(keys, st, lists0, entries, pendings, lists2, buf', newoffs + [|buf|], news + [e'])
  {
    hide EntryMerged, PendingStored, NamesDistinct, EntryAt, Packed, ValidFields, AllMerged, Located, ValidEntries, Pendings;
    PackedNonEmpty(e');
    AllMergedMore(keys, st, lists0, entries, pendings, lists1, lists2, news, e');
    LocatedMore(buf, newoffs, news, buf', e');
  }

  /** What is known before entry j is merged. */
  lemma BeforeEntry(keys: seq<Repokey>, st: Store, lists0: seq<seq<nat>>, entries: seq<Entry>, pendings: seq<seq<Attr>>,
                    lists: seq<seq<nat>>, data: Option<seq<Byte>>, offs: seq<nat>, j: nat)
    requires ValidEntries(keys, lists0, entries) && Pendings(keys, st, pendings) && AllSound(keys, st, pendings) && Located(data, offs, entries)
    requires lists0 <= lists && j < |entries| == |pendings|
    ensures ValidEntry(keys, lists, entries[j], j == 0) && PendingSound(keys, st, pendings[j]) && NamesDistinct(keys, pendings[j])
    ensures |offs| == |entries| && if data.None? then entries[j] == Entry(0, []) else EntryAt(data.value, offs[j], entries[j])
  {
    hide ValidFields, PendingStored, PendingSound, NamesDistinct, EntryAt;
    ValidEntryGrows(keys, lists0, lists, entries[j], j == 0);
  }

  /** The loop over the entries, the first one being that of the repository. */
  method MergeAll(schemas: Schemata.Pool, xd: ExtData, keys: seq<Repokey>, st: Store, data: Option<seq<Byte>>, offs: seq<nat>,
                  solvkey: nat, withSolv: bool, count: nat, pendings: seq<seq<Attr>>, ghost entries: seq<Entry>)
    returns (newoffs: seq<nat>, mainschema: nat, mainoffsets: seq<nat>, ghost news: seq<Entry>)
    requires schemas.Valid() && ValidKeys(keys) && SolvKey(keys, solvkey) && (withSolv ==> solvkey != 0)
    requires ValidEntries(keys, schemas.lists, entries) && Pendings(keys, st, pendings) && AllSound(keys, st, pendings)
    requires |entries| == |pendings| == |offs| >= 1 && Located(data, offs, entries)
    requires count < 0x8000_0000 && |schemas.lists| + |entries| < 0x7fff_ffff && |xd.buf| == 1
    modifies schemas, xd
    ensures schemas.Valid() && |news| == |entries|
    ensures Written(keys, st, old(schemas.lists), entries, pendings, schemas.lists, xd.buf, newoffs, news)
    ensures mainschema == news[0].schema && MainOffsets(mainoffsets, news[0])
  {
    ghost var lists0 := schemas.lists;
    newoffs, news, mainschema, mainoffsets := [], [], 0, [];
    assert Written(keys, st, lists0, entries, pendings, lists0, xd.buf, [], []);
    var j := 0;
    hide *;
    while j < |pendings|
      invariant j <= |pendings| == |entries| && |news| == |newoffs| == j && schemas.Valid()
      invariant Written(keys, st, lists0, entries, pendings, schemas.lists, xd.buf, newoffs, news)
      invariant lists0 <= schemas.lists && |schemas.lists| <= |lists0| + j && (j == 0 ==> |xd.buf| == 1)
      invariant j > 0 ==> mainschema == news[0].schema && MainOffsets(mainoffsets, news[0])
    {
      ghost var lists1, buf := schemas.lists, xd.buf;
      var start := |xd.buf|;
      BeforeEntry(keys, st, lists0, entries, pendings, lists1, data, offs, j);
      var schemaid, offsets;
      ghost var e';
      schemaid, offsets, e' := MergeEntry(schemas, xd, keys, st, data, offs[j], j == 0, solvkey, withSolv && j == 0, count, pendings[j], entries[j]);
      if j == 0 {
        mainschema, mainoffsets := schemaid, offsets;
        MainIs(mainoffsets, e');
      }
      WrittenMore(keys, st, lists0, entries, pendings, lists1, buf, newoffs, news, schemas.lists, xd.buf, e');
      newoffs := newoffs + [start];
      news := news + [e'];
      j := j + 1;
    }
  }

  lemma MainIs(offsets: seq<nat>, e: Entry)
    requires |offsets| == |e.fields| && Starting(offsets, 1 + |Varint(e.schema)|, e.fields)
    ensures MainOffsets(offsets, e)
  {
  }

  lemma PackedNonEmpty(e: Entry)
    ensures Packed(e) != []
  {
  }
}
