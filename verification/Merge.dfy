/** Merging the pending attributes of one entry with its stored ones (the body of repodata_internalize, src/repodata.c). */
module Merge {
  import opened Bytes
  import opened Packing
  import opened Pigeonhole
  import opened Fields
  import opened Serialize

  datatype Repokey = Repokey(name: nat, ktype: KeyType, size: nat)

  datatype Attr = Attr(key: nat, val: int)

  // ---- the new schema ----

  /** The pending attribute of a key. */
  function PendingOf(pending: seq<Attr>, k: nat): Option<int> {
    if pending == [] then None
    else if pending[|pending| - 1].key == k then Some(pending[|pending| - 1].val)
    else PendingOf(pending[..|pending| - 1], k)
  }

  /** The keys of the pending attributes that are not among the old ones, in order. */
  function NewKeys(olds: seq<nat>, pending: seq<Attr>): (r: seq<nat>)
    ensures forall k :: k in r ==> k !in olds && PendingOf(pending, k).Some?
  {
    if pending == [] then []
    else
      var front, k := pending[..|pending| - 1], pending[|pending| - 1].key;
      NewKeys(olds, front) + if k in olds || PendingOf(front, k).Some? then [] else [k]
  }

  /** -1 for an old key, 0 for none, the value and one for a pending one. */
  function Seen(olds: seq<nat>, pending: seq<Attr>, k: nat): int {
    if PendingOf(pending, k).Some? then PendingOf(pending, k).value + 1 else if k in olds then -1 else 0
  }


  ghost predicate KeysBelow(s: seq<nat>, n: nat) { forall i :: 0 <= i < |s| ==> 0 < s[i] < n }

  ghost predicate ValidPending(pending: seq<Attr>, n: nat) {
    && (forall i :: 0 <= i < |pending| ==> 0 < pending[i].key < n)
    && (forall i, j :: 0 <= i < j < |pending| ==> pending[i].key != pending[j].key)
  }

  lemma {:induction false} PendingFound(pending: seq<Attr>, i: nat)
    requires i < |pending| && forall i, j :: 0 <= i < j < |pending| ==> pending[i].key != pending[j].key
    ensures PendingOf(pending, pending[i].key) == Some(pending[i].val)
  {
    if i < |pending| - 1 { PendingFound(pending[..|pending| - 1], i); }
  }

  lemma {:induction false} PendingIn(pending: seq<Attr>, k: nat) returns (i: nat)
    requires PendingOf(pending, k).Some?
    ensures i < |pending| && pending[i] == Attr(k, PendingOf(pending, k).value)
  {
    if pending[|pending| - 1].key == k { i := |pending| - 1; } else { i := PendingIn(pending[..|pending| - 1], k); }
  }

  lemma {:induction false} NewKeysDistinct(olds: seq<nat>, pending: seq<Attr>)
    requires Distinct(olds)
    ensures Distinct(olds + NewKeys(olds, pending))
  {
    if pending == [] {
      assert olds + [] == olds;
    } else {
      var front, k := pending[..|pending| - 1], pending[|pending| - 1].key;
      NewKeysDistinct(olds, front);
      var s := olds + NewKeys(olds, front);
      if k !in olds && PendingOf(front, k).None? {
        assert k !in s;
        assert olds + NewKeys(olds, pending) == s + [k];
      } else {
        assert olds + NewKeys(olds, pending) == s;
      }
    }
  }

  lemma {:induction false} PendingKeyIn(olds: seq<nat>, pending: seq<Attr>, k: nat)
    requires PendingOf(pending, k).Some?
    ensures k in olds + NewKeys(olds, pending)
  {
    var front, l := pending[..|pending| - 1], pending[|pending| - 1].key;
    if l == k {
      if k !in olds && PendingOf(front, k).Some? { PendingKeyIn(olds, front, k); }
    } else {
      PendingKeyIn(olds, front, k);
    }
  }

  lemma {:induction false} NewKeysBelow(olds: seq<nat>, pending: seq<Attr>, n: nat)
    requires ValidPending(pending, n)
    ensures KeysBelow(NewKeys(olds, pending), n)
  {
    if pending != [] { NewKeysBelow(olds, pending[..|pending| - 1], n); }
  }

  /** The old keys without the key of the solvables. */
  function Strip(keys: seq<nat>, solvkey: nat): seq<nat> {
    if keys != [] && keys[|keys| - 1] == solvkey then keys[..|keys| - 1] else keys
  }

  /** Mark the old keys, and leave out the key of the solvables for the meta entry. */
  method OldKeys(olds: seq<nat>, n: nat, meta: bool, solvkey: nat) returns (schema: seq<nat>, seen: seq<int>)
    requires Distinct(olds) && KeysBelow(olds, n)
    requires forall i :: 0 <= i < |olds| && olds[i] == solvkey ==> meta && i == |olds| - 1
    ensures schema == Strip(olds, solvkey)
    ensures |seen| == n && forall k :: 0 <= k < n ==> seen[k] == if k in schema then -1 else 0
  {
    seen := seq(n, k => 0);
    var i := 0;
    while i < |olds|
      invariant i <= |olds| && |seen| == n
      invariant forall k :: 0 <= k < n ==> seen[k] == if k in olds[..i] then -1 else 0
    {
      assert seen[olds[i]] == 0;
      seen := seen[olds[i] := -1];
      assert olds[..i + 1] == olds[..i] + [olds[i]];
      i := i + 1;
    }
    assert olds[..i] == olds;
    schema := olds;
    if meta && schema != [] && schema[|schema| - 1] == solvkey {
      schema := schema[..|schema| - 1];
      assert olds == schema + [solvkey];
      seen := seen[solvkey := 0];
    }
  }

  /** Add the pending keys to the schema. */
  method AddPending(schema0: seq<nat>, seen0: seq<int>, n: nat, pending: seq<Attr>)
    returns (schema: seq<nat>, seen: seq<int>, newschema: bool)
    requires |seen0| == n && ValidPending(pending, n)
    requires forall k :: 0 <= k < n ==> seen0[k] == if k in schema0 then -1 else 0
    ensures schema == schema0 + NewKeys(schema0, pending) && (newschema <==> NewKeys(schema0, pending) != [])
    ensures |seen| == n && forall k :: 0 <= k < n ==> seen[k] == Seen(schema0, pending, k)
  {
    schema, seen, newschema := schema0, seen0, false;
    var i := 0;
    assert schema0 == schema0 + NewKeys(schema0, []);
    while i < |pending|
      invariant i <= |pending| && |seen| == n
      invariant schema == schema0 + NewKeys(schema0, pending[..i]) && (newschema <==> NewKeys(schema0, pending[..i]) != [])
      invariant forall k :: 0 <= k < n ==> seen[k] == Seen(schema0, pending[..i], k)
    {
      var a := pending[i];
      SeenMore(schema0, pending, i, n);
      if seen[a.key] == 0 {
        newschema := true;
        schema := schema + [a.key];
      }
      seen := seen[a.key := a.val + 1];
      i := i + 1;
    }
    assert pending[..i] == pending;
  }

  lemma {:induction false} NotPending(pending: seq<Attr>, k: nat)
    requires forall i :: 0 <= i < |pending| ==> pending[i].key != k
    ensures PendingOf(pending, k).None?
  {
    if pending != [] { NotPending(pending[..|pending| - 1], k); }
  }

  lemma SeenMore(olds: seq<nat>, pending: seq<Attr>, i: nat, n: nat)
    requires ValidPending(pending, n) && i < |pending|
    ensures var a, p, q := pending[i], pending[..i], pending[..i + 1];
      && (Seen(olds, p, a.key) == 0 <==> a.key !in olds && PendingOf(p, a.key).None?)
      && NewKeys(olds, q) == NewKeys(olds, p) + (if Seen(olds, p, a.key) == 0 then [a.key] else [])
      && (forall k :: Seen(olds, q, k) == if k == a.key then a.val + 1 else Seen(olds, p, k))
  {
    var a, p, q := pending[i], pending[..i], pending[..i + 1];
    assert q[..i] == p;
    NotPending(p, a.key);
  }

  // ---- the new fields ----

  function Flat(fields: seq<seq<Byte>>): (r: seq<Byte>) {
    if fields == [] then [] else Flat(fields[..|fields| - 1]) + fields[|fields| - 1]
  }

  lemma {:induction false} FlatConcat(a: seq<seq<Byte>>, b: seq<seq<Byte>>)
    ensures Flat(a + b) == Flat(a) + Flat(b)
  {
    if b == [] {
      assert a + b == a;
      assert Flat(a) + [] == Flat(a);
    } else {
      var c, f := b[..|b| - 1], b[|b| - 1];
      FlatConcat(a, c);
      assert (a + b)[..|a + b| - 1] == a + c;
      assert Flat(a) + (Flat(c) + f) == (Flat(a) + Flat(c)) + f;
    }
  }

  lemma FlatOne(f: seq<Byte>)
    ensures Flat([f]) == f
  {
    assert Flat([f][..0]) == [] && [f][|[f]| - 1] == f;
  }

  /** A field that data_skip can skip. */
  ghost predicate IsField(key: Repokey, f: seq<Byte>) {
    && !key.ktype.Deleted? && !key.ktype.FixArray? && !key.ktype.FlexArray?
    && FetchAll(Layout(key.ktype), key.size, f, 0).Some? && FetchAll(Layout(key.ktype), key.size, f, 0).value.1 == |f|
  }

  ghost predicate AreFields(keys: seq<Repokey>, ks: seq<nat>, fields: seq<seq<Byte>>) {
    |fields| == |ks| && KeysBelow(ks, |keys|) && forall i :: 0 <= i < |ks| ==> IsField(keys[ks[i]], fields[i])
  }

  /** Every pending value is in the store. */
  ghost predicate PendingStored(keys: seq<Repokey>, st: Store, pending: seq<Attr>) {
    && ValidPending(pending, |keys|)
    && forall i :: 0 <= i < |pending| ==> AttrStored(keys, st, pending[i])
  }

  ghost predicate AttrStored(keys: seq<Repokey>, st: Store, a: Attr)
    requires a.key < |keys|
  {
    InStore(keys[a.key].ktype, st, a.val)
  }

  /** Every pending value has a packed form. */
  ghost predicate PendingSound(keys: seq<Repokey>, st: Store, pending: seq<Attr>) {
    && PendingStored(keys, st, pending)
    && forall i :: 0 <= i < |pending| ==> Sound(keys[pending[i].key].ktype, st, pending[i].val)
  }

  lemma PendingStoredAt(keys: seq<Repokey>, st: Store, pending: seq<Attr>, k: nat)
    requires PendingStored(keys, st, pending) && PendingOf(pending, k).Some?
    ensures k < |keys| && AttrStored(keys, st, Attr(k, PendingOf(pending, k).value))
  {
    var i := PendingIn(pending, k);
  }

  /** The field of a key after merging. A pending -1 is taken for the mark of no field, and -2 for that of an old one. */
  ghost function NewField(keys: seq<Repokey>, st: Store, pending: seq<Attr>, k: nat, oldField: seq<Byte>): seq<Byte>
    requires PendingStored(keys, st, pending)
  {
    if PendingOf(pending, k).None? || PendingOf(pending, k).value == -2 then oldField
    else if PendingOf(pending, k).value == -1 then []
    else
      PendingStoredAt(keys, st, pending, k);
      Serial(keys[k].ktype, st, PendingOf(pending, k).value)
  }

  /** All fields of an entry after merging; the solvables are only counted. */
  ghost function NewFields(keys: seq<Repokey>, st: Store, pending: seq<Attr>, ks: seq<nat>, oldFields: seq<seq<Byte>>,
                           solvkey: nat, count: nat): (r: seq<seq<Byte>>)
    requires PendingStored(keys, st, pending)
    ensures |r| == |ks|
  {
    seq(|ks|, i requires 0 <= i < |ks| =>
      if ks[i] == solvkey then Varint(count)
      else NewField(keys, st, pending, ks[i], if i < |oldFields| then oldFields[i] else []))
  }

  /** Skip the field of an old key. */
  method SkipField(data: seq<Byte>, dp: nat, key: Repokey, ghost f: seq<Byte>) returns (ndp: nat)
    requires IsField(key, f) && Starts(data, dp, f)
    ensures ndp == dp + |f| && ndp <= |data| && data[dp..ndp] == f
  {
    hide FetchAll;
    FetchAllShift(Layout(key.ktype), key.size, data, dp, f, 0);
    SizeFree(Layout(key.ktype), key.size, 0, data, dp);
    SizeFree(key.ktype, key.size, 0, data, dp);
    var r := Skip(key.ktype, data, dp);
    ndp := r.value;
  }

  /** Bytes of the old fields from i on, at dp. */
  lemma FlatFrom(data: seq<Byte>, dp: nat, fields: seq<seq<Byte>>, i: nat)
    requires i < |fields| && Starts(data, dp, Flat(fields[i..]))
    ensures Starts(data, dp, fields[i]) && Starts(data, dp + |fields[i]|, Flat(fields[i + 1..]))
  {
    assert fields[i..] == [fields[i]] + fields[i + 1..];
    FlatConcat([fields[i]], fields[i + 1..]);
    FlatOne(fields[i]);
    StartsWith(data, dp, fields[i], Flat(fields[i + 1..]));
  }

  /** The new schema against the old keys and the pending attributes. */
  ghost predicate Merged(keys: seq<Repokey>, olds: seq<nat>, pending: seq<Attr>, ks: seq<nat>, solvkey: nat) {
    && Distinct(ks) && KeysBelow(ks, |keys|) && |olds| <= |ks| && ks[..|olds|] == olds
    && (forall i :: 0 <= i < |ks| && ks[i] == solvkey ==> i == |ks| - 1 && i >= |olds|)
    && (forall i :: |olds| <= i < |ks| && ks[i] != solvkey ==> ks[i] !in olds && PendingOf(pending, ks[i]).Some?)
  }

  /** Write the field of one key: a copy of the old field, or the pending value. */
  method WriteField(xd: ExtData, data: seq<Byte>, dp: nat, ndp: nat, key: Repokey, seen: int, st: Store,
                    ghost keys: seq<Repokey>, ghost pending: seq<Attr>, ghost k: nat, ghost oldField: seq<Byte>)
    requires PendingStored(keys, st, pending) && k < |keys| && keys[k] == key
    requires dp <= ndp <= |data| && data[dp..ndp] == oldField
    requires if PendingOf(pending, k).Some? then seen == PendingOf(pending, k).value + 1 else seen == -1
    modifies xd
    ensures xd.buf == old(xd.buf) + NewField(keys, st, pending, k, oldField)
  {
    if PendingOf(pending, k).Some? {
      PendingStoredAt(keys, st, pending, k);
    }
    if seen == -1 {
      if dp != ndp { xd.AddBlob(data[dp..ndp]); } else { assert oldField == []; }
    } else if seen != 0 {
      SerializeKey(xd, key.ktype, st, seen - 1);
    }
  }

  lemma FlatSnoc(fields: seq<seq<Byte>>, i: nat)
    requires i < |fields|
    ensures Flat(fields[..i + 1]) == Flat(fields[..i]) + fields[i]
  {
    assert fields[..i + 1][..i] == fields[..i];
  }

  /** One turn of the loop over the new schema, except for the solvables. */
  method WriteOne(xd: ExtData, data: seq<Byte>, dp: nat, oldcount: nat, ks: seq<nat>, i: nat, seen: seq<int>,
                  keys: seq<Repokey>, st: Store, ghost solvkey: nat, ghost count: nat,
                  ghost olds: seq<nat>, ghost oldFields: seq<seq<Byte>>, ghost pending: seq<Attr>)
    returns (ndp: nat, oldcount': nat)
    requires PendingStored(keys, st, pending) && AreFields(keys, olds, oldFields) && Merged(keys, olds, pending, ks, solvkey)
    requires i < |ks| && ks[i] != solvkey && |seen| == |keys| && seen[ks[i]] == Seen(olds, pending, ks[i])
    requires Standing(data, dp, oldcount, i, oldFields)
    modifies xd
    ensures xd.buf == old(xd.buf) + NewFields(keys, st, pending, ks, oldFields, solvkey, count)[i]
    ensures Standing(data, ndp, oldcount', i + 1, oldFields)
  {
    hide Flat, Starts, FetchAll, PendingStored;
    var key := keys[ks[i]];
    ndp, oldcount' := dp, oldcount;
    ghost var f: seq<Byte> := if i < |olds| then oldFields[i] else [];
    if oldcount != 0 {
      assert ks[i] == olds[i] by { assert ks[..|olds|][i] == olds[i]; }
      FlatFrom(data, dp, oldFields, i);
      ndp := SkipField(data, dp, key, oldFields[i]);
      oldcount' := oldcount - 1;
    }
    assert i < |olds| ==> ks[i] in olds by { assert i < |olds| ==> ks[..|olds|][i] == olds[i]; }
    WriteField(xd, data, dp, ndp, key, seen[ks[i]], st, keys, pending, ks[i], f);
  }

  /** Where each field starts when the first one starts at base. */
  ghost predicate Starting(offsets: seq<nat>, base: nat, fields: seq<seq<Byte>>) {
    |offsets| <= |fields| && forall j :: 0 <= j < |offsets| ==> offsets[j] == base + |Flat(fields[..j])|
  }

  lemma StartingNothing(base: nat, fields: seq<seq<Byte>>)
    ensures Starting([], base, fields)
  {
  }

  lemma StartingMore(offsets: seq<nat>, base: nat, fields: seq<seq<Byte>>, x: nat)
    requires Starting(offsets, base, fields) && |offsets| < |fields| && x == base + |Flat(fields[..|offsets|])|
    ensures Starting(offsets + [x], base, fields)
  {
    hide Flat;
  }

  /** What is known of the marks of the keys from i on. */
  ghost predicate Marks(seen: seq<int>, ks: seq<nat>, i: nat, olds: seq<nat>, pending: seq<Attr>, n: nat) {
    |seen| == n && KeysBelow(ks, n) && forall j :: i <= j < |ks| ==> seen[ks[j]] == Seen(olds, pending, ks[j])
  }

  lemma MarksMore(seen: seq<int>, ks: seq<nat>, i: nat, olds: seq<nat>, pending: seq<Attr>, n: nat)
    requires Marks(seen, ks, i, olds, pending, n) && i < |ks| && Distinct(ks)
    ensures 0 < ks[i] < |seen| == n && seen[ks[i]] == Seen(olds, pending, ks[i])
    ensures Marks(seen, ks, i + 1, olds, pending, n) && Marks(seen[ks[i] := 0], ks, i + 1, olds, pending, n)
  {
    hide Seen;
  }

  /** Where the loop over the new schema stands before key i: how many old fields are left, and where they are. */
  ghost predicate Standing(data: seq<Byte>, dp: nat, oldcount: nat, i: nat, oldFields: seq<seq<Byte>>) {
    && oldcount == (if i < |oldFields| then |oldFields| - i else 0) && dp <= |data|
    && (i <= |oldFields| ==> Starts(data, dp, Flat(oldFields[i..])))
  }

  /** One turn of the loop: the number of solvables, with which the loop ends, or the field of a key. */
  method WriteTurn(xd: ExtData, data: seq<Byte>, dp0: nat, oldcount0: nat, ks: seq<nat>, i: nat, seen0: seq<int>,
                   keys: seq<Repokey>, st: Store, solvkey: nat, count: nat,
                   ghost olds: seq<nat>, ghost oldFields: seq<seq<Byte>>, ghost pending: seq<Attr>)
    returns (dp: nat, oldcount: nat, seen: seq<int>)
    requires PendingStored(keys, st, pending) && AreFields(keys, olds, oldFields) && Merged(keys, olds, pending, ks, solvkey)
    requires i < |ks| && Marks(seen0, ks, i, olds, pending, |keys|) && count < 0x8000_0000
    requires Standing(data, dp0, oldcount0, i, oldFields)
    modifies xd
    ensures xd.buf == old(xd.buf) + NewFields(keys, st, pending, ks, oldFields, solvkey, count)[i]
    ensures ks[i] == solvkey ==> i == |ks| - 1
    ensures ks[i] != solvkey ==> Marks(seen, ks, i + 1, olds, pending, |keys|) && Standing(data, dp, oldcount, i + 1, oldFields)
  {
    assert |oldFields| == |olds|;
    MergedKeys(keys, olds, pending, ks, solvkey);
    hide PendingStored, AreFields, Merged, NewFields, Marks, Flat, Starts;
    MarksMore(seen0, ks, i, olds, pending, |keys|);
    dp, oldcount, seen := dp0, oldcount0, seen0;
    if ks[i] == solvkey {
      SolvablesField(keys, st, pending, ks, oldFields, solvkey, count, i);
      xd.AddId(count);
    } else {
      dp, oldcount := WriteOne(xd, data, dp, oldcount, ks, i, seen, keys, st, solvkey, count, olds, oldFields, pending);
      if seen[ks[i]] == -1 { seen := seen[ks[i] := 0]; }
    }
  }

  /** Write the fields of an entry: old ones that were not overwritten are copied, the others written anew. */
  method WriteFields(xd: ExtData, data: seq<Byte>, dp0: nat, oldcount0: nat, ks: seq<nat>, seen0: seq<int>,
                     keys: seq<Repokey>, st: Store, solvkey: nat, count: nat,
                     ghost olds: seq<nat>, ghost oldFields: seq<seq<Byte>>, ghost pending: seq<Attr>)
    returns (offsets: seq<nat>)
    requires PendingStored(keys, st, pending) && AreFields(keys, olds, oldFields) && Merged(keys, olds, pending, ks, solvkey)
    requires Marks(seen0, ks, 0, olds, pending, |keys|) && Standing(data, dp0, oldcount0, 0, oldFields) && count < 0x8000_0000
    modifies xd
    ensures var fields := NewFields(keys, st, pending, ks, oldFields, solvkey, count);
      xd.buf == old(xd.buf) + Flat(fields) && |offsets| == |ks| && Starting(offsets, |old(xd.buf)|, fields)
  {
    hide *;
    ghost var fields, base := NewFields(keys, st, pending, ks, oldFields, solvkey, count), xd.buf;
    FlatNothing();
    StartingNothing(|base|, fields);
    assert fields[..0] == [] && base + [] == base;
    var i: nat, dp: nat, oldcount: nat, seen := 0, dp0, oldcount0, seen0;
    offsets := [];
    while i < |ks|
      invariant i <= |ks| == |fields| && |offsets| == i
      invariant xd.buf == base + Flat(fields[..i]) && Starting(offsets, |base|, fields)
      invariant i < |ks| ==> Marks(seen, ks, i, olds, pending, |keys|) && Standing(data, dp, oldcount, i, oldFields)
    {
      StartingMore(offsets, |base|, fields, |xd.buf|);
      offsets := offsets + [|xd.buf|];
      FlatSnoc(fields, i);
      Assoc(base, Flat(fields[..i]), fields[i]);
      dp, oldcount, seen := WriteTurn(xd, data, dp, oldcount, ks, i, seen, keys, st, solvkey, count, olds, oldFields, pending);
      i := i + 1;
      if ks[i - 1] == solvkey { break; }
    }
    assert fields[..i] == fields;
  }

  lemma MergedKeys(keys: seq<Repokey>, olds: seq<nat>, pending: seq<Attr>, ks: seq<nat>, solvkey: nat)
    requires Merged(keys, olds, pending, ks, solvkey)
    ensures Distinct(ks) && KeysBelow(ks, |keys|) && forall i :: 0 <= i < |ks| && ks[i] == solvkey ==> i == |ks| - 1
  {
  }

  lemma FlatNothing()
    ensures Flat([]) == []
  {
  }

  lemma SolvablesField(keys: seq<Repokey>, st: Store, pending: seq<Attr>, ks: seq<nat>, oldFields: seq<seq<Byte>>,
                       solvkey: nat, count: nat, i: nat)
    requires PendingStored(keys, st, pending) && i < |ks| && ks[i] == solvkey
    ensures NewFields(keys, st, pending, ks, oldFields, solvkey, count)[i] == Varint(count)
  {
  }

  // ---- lookups ----

  /** The first key with a name; the length of the list if there is none (the search of find_key_data). */
  function FirstNamed(keys: seq<Repokey>, ks: seq<nat>, name: nat): (r: nat)
    requires KeysBelow(ks, |keys|)
    ensures r <= |ks| && (r < |ks| ==> keys[ks[r]].name == name)
    ensures forall i :: 0 <= i < r ==> keys[ks[i]].name != name
  {
    if ks == [] || keys[ks[0]].name == name then 0 else 1 + FirstNamed(keys, ks[1..], name)
  }

  /** The key and the bytes that a name stands for in an entry. */
  function View(keys: seq<Repokey>, ks: seq<nat>, fields: seq<seq<Byte>>, name: nat): Option<(nat, seq<Byte>)>
    requires KeysBelow(ks, |keys|) && |fields| == |ks|
  {
    var i := FirstNamed(keys, ks, name);
    if i < |ks| then Some((ks[i], fields[i])) else None
  }

  /** The pending attribute of a name. */
  function PendingNamed(keys: seq<Repokey>, pending: seq<Attr>, name: nat): Option<Attr>
    requires forall i :: 0 <= i < |pending| ==> pending[i].key < |keys|
  {
    if pending == [] then None
    else if keys[pending[0].key].name == name then Some(pending[0])
    else PendingNamed(keys, pending[1..], name)
  }

  /** No two pending attributes have the same name (repodata_insert_keyid). */
  ghost predicate NamesDistinct(keys: seq<Repokey>, pending: seq<Attr>) {
    && (forall i :: 0 <= i < |pending| ==> pending[i].key < |keys|)
    && forall i, j :: 0 <= i < j < |pending| ==> keys[pending[i].key].name != keys[pending[j].key].name
  }

  lemma {:induction false} PendingNamedIs(keys: seq<Repokey>, pending: seq<Attr>, name: nat)
    requires forall i :: 0 <= i < |pending| ==> pending[i].key < |keys|
    ensures var a := PendingNamed(keys, pending, name);
      if a.Some? then a.value in pending && keys[a.value.key].name == name
      else forall i :: 0 <= i < |pending| ==> keys[pending[i].key].name != name
  {
    if pending != [] && keys[pending[0].key].name != name {
      PendingNamedIs(keys, pending[1..], name);
      assert forall i :: 1 <= i < |pending| ==> pending[i] == pending[1..][i - 1];
    }
  }

  /** What a lookup gives in the merged entry: the first old key of the name keeps its place and gets the value
   * that is pending for it; otherwise the pending attribute of the name. */
  ghost function MergedView(keys: seq<Repokey>, olds: seq<nat>, oldFields: seq<seq<Byte>>, pending: seq<Attr>, st: Store, name: nat)
    : Option<(nat, seq<Byte>)>
    requires PendingStored(keys, st, pending) && KeysBelow(olds, |keys|) && |oldFields| == |olds|
  {
    var was := View(keys, olds, oldFields, name);
    if was.Some? then Some((was.value.0, NewField(keys, st, pending, was.value.0, was.value.1)))
    else
      var a := PendingNamed(keys, pending, name);
      if a.None? then None
      else
        PendingNamedIs(keys, pending, name);
        Some((a.value.key, NewField(keys, st, pending, a.value.key, [])))
  }

  lemma {:induction false} FirstNamedConcat(keys: seq<Repokey>, a: seq<nat>, b: seq<nat>, name: nat)
    requires KeysBelow(a + b, |keys|)
    ensures KeysBelow(a, |keys|) && KeysBelow(b, |keys|)
    ensures FirstNamed(keys, a + b, name) ==
      if FirstNamed(keys, a, name) < |a| then FirstNamed(keys, a, name) else |a| + FirstNamed(keys, b, name)
  {
    assert forall i :: 0 <= i < |a| ==> a[i] == (a + b)[i];
    assert forall i :: 0 <= i < |b| ==> b[i] == (a + b)[|a| + i];
    if a == [] {
      assert a + b == b;
    } else {
      assert (a + b)[1..] == a[1..] + b;
      FirstNamedConcat(keys, a[1..], b, name);
    }
  }

  /** The first of the new keys with a name that no old key has is the pending one. */
  lemma {:induction false} FirstNew(keys: seq<Repokey>, olds: seq<nat>, pending: seq<Attr>, name: nat)
    requires NamesDistinct(keys, pending) && ValidPending(pending, |keys|) && KeysBelow(olds, |keys|)
    requires forall i :: 0 <= i < |olds| ==> keys[olds[i]].name != name
    ensures KeysBelow(NewKeys(olds, pending), |keys|)
    ensures var news, a, i := NewKeys(olds, pending), PendingNamed(keys, pending, name), FirstNamed(keys, NewKeys(olds, pending), name);
      if a.None? then i == |news| else i < |news| && news[i] == a.value.key
  {
    NewKeysBelow(olds, pending, |keys|);
    var news, i := NewKeys(olds, pending), FirstNamed(keys, NewKeys(olds, pending), name);
    PendingNamedIs(keys, pending, name);
    var a := PendingNamed(keys, pending, name);
    if a.Some? {
      var l :| 0 <= l < |pending| && pending[l] == a.value;
      PendingFound(pending, l);
      PendingKeyIn(olds, pending, a.value.key);
      assert a.value.key !in olds;
      assert a.value.key in news;
      var m :| 0 <= m < |news| && news[m] == a.value.key;
      assert keys[news[m]].name == name;
    }
    if i < |news| {
      assert news[i] in news;
      var j := PendingIn(pending, news[i]);
      assert keys[pending[j].key].name == name;
    }
  }

  lemma {:induction false} FirstNamedNone(keys: seq<Repokey>, ks: seq<nat>, name: nat)
    requires KeysBelow(ks, |keys|) && forall i :: 0 <= i < |ks| ==> keys[ks[i]].name != name
    ensures FirstNamed(keys, ks, name) == |ks|
  {
    if ks != [] { FirstNamedNone(keys, ks[1..], name); }
  }

  /** Where a name is first found in the merged schema. */
  lemma FirstMerged(keys: seq<Repokey>, olds: seq<nat>, news: seq<nat>, tail: seq<nat>, name: nat)
    requires KeysBelow(olds, |keys|) && KeysBelow(news, |keys|) && KeysBelow(tail, |keys|)
    requires forall i :: 0 <= i < |tail| ==> keys[tail[i]].name != name
    ensures KeysBelow(olds + news + tail, |keys|)
    ensures var i, j, ks := FirstNamed(keys, olds, name), FirstNamed(keys, news, name), olds + news + tail;
      && (i < |olds| ==> FirstNamed(keys, ks, name) == i && ks[i] == olds[i])
      && (i == |olds| && j < |news| ==> FirstNamed(keys, ks, name) == |olds| + j && ks[|olds| + j] == news[j])
      && (i == |olds| && j == |news| ==> FirstNamed(keys, ks, name) == |ks|)
  {
    hide FirstNamed;
    FirstNamedNone(keys, tail, name);
    FirstNamedConcat(keys, olds + news, tail, name);
    FirstNamedConcat(keys, olds, news, name);
  }

  /** A lookup in the merged entry, for any name but that of the solvables. */
  lemma MergedLookup(keys: seq<Repokey>, olds: seq<nat>, oldFields: seq<seq<Byte>>, pending: seq<Attr>, st: Store,
                     tail: seq<nat>, solvkey: nat, count: nat, name: nat)
    requires PendingStored(keys, st, pending) && NamesDistinct(keys, pending) && KeysBelow(olds, |keys|) && |oldFields| == |olds|
    requires KeysBelow(tail, |keys|) && forall i :: 0 <= i < |tail| ==> keys[tail[i]].name != name
    requires solvkey != 0 ==> solvkey < |keys| && keys[solvkey].name != name
    ensures var ks := olds + NewKeys(olds, pending) + tail;
      KeysBelow(ks, |keys|) &&
      View(keys, ks, NewFields(keys, st, pending, ks, oldFields, solvkey, count), name) ==
        MergedView(keys, olds, oldFields, pending, st, name)
  {
    hide NewField, PendingOf, NewKeys, FirstNamed, PendingNamed, AttrStored, NamesDistinct;
    NewKeysBelow(olds, pending, |keys|);
    FirstMerged(keys, olds, NewKeys(olds, pending), tail, name);
    if FirstNamed(keys, olds, name) == |olds| {
      FirstNew(keys, olds, pending, name);
    }
    hide PendingStored;
    var ks := olds + NewKeys(olds, pending) + tail;
    var i := FirstNamed(keys, ks, name);
    assert i < |ks| ==> keys[ks[i]].name == name && ks[i] != 0;
  }

  // ---- the overlay ----

  /** No two keys share a name: a name always comes with the same type, and a constant with the same value. */
  ghost predicate OneKeyPerName(keys: seq<Repokey>) {
    forall i, j :: 1 <= i < j < |keys| ==> keys[i].name != keys[j].name
  }

  /** The pending value if there is one, and otherwise the old one. */
  ghost function Overlay(keys: seq<Repokey>, olds: seq<nat>, oldFields: seq<seq<Byte>>, pending: seq<Attr>, st: Store, name: nat)
    : Option<(nat, seq<Byte>)>
    requires PendingStored(keys, st, pending) && KeysBelow(olds, |keys|) && |oldFields| == |olds|
  {
    var a := PendingNamed(keys, pending, name);
    if a.Some? then
      PendingNamedIs(keys, pending, name);
      Some((a.value.key, Serial(keys[a.value.key].ktype, st, a.value.val)))
    else View(keys, olds, oldFields, name)
  }

  lemma NoPendingOf(keys: seq<Repokey>, pending: seq<Attr>, k: nat, name: nat)
    requires k < |keys| && keys[k].name == name && (forall i :: 0 <= i < |pending| ==> pending[i].key < |keys|)
    requires PendingNamed(keys, pending, name).None?
    ensures PendingOf(pending, k).None?
  {
    PendingNamedIs(keys, pending, name);
    if PendingOf(pending, k).Some? { var i := PendingIn(pending, k); }
  }

  lemma PendingNamedOf(keys: seq<Repokey>, pending: seq<Attr>, name: nat)
    requires ValidPending(pending, |keys|) && PendingNamed(keys, pending, name).Some?
    ensures var a := PendingNamed(keys, pending, name).value;
      a.key < |keys| && keys[a.key].name == name && PendingOf(pending, a.key) == Some(a.val)
  {
    PendingNamedIs(keys, pending, name);
    var l :| 0 <= l < |pending| && pending[l] == PendingNamed(keys, pending, name).value;
    PendingFound(pending, l);
  }

  /** The merged entry is the overlay of the pending attributes over the old entry, for a given name, exactly if
   * the first old key of the name, if any, is the key that is pending for the name, if any. */
  lemma OverlayExact(keys: seq<Repokey>, olds: seq<nat>, oldFields: seq<seq<Byte>>, pending: seq<Attr>, st: Store, name: nat)
    requires PendingStored(keys, st, pending) && KeysBelow(olds, |keys|) && |oldFields| == |olds|
    requires PendingNamed(keys, pending, name).Some? ==>
      PendingNamed(keys, pending, name).value.val != -1 && PendingNamed(keys, pending, name).value.val != -2
    ensures MergedView(keys, olds, oldFields, pending, st, name) == Overlay(keys, olds, oldFields, pending, st, name) <==>
      var was, a := View(keys, olds, oldFields, name), PendingNamed(keys, pending, name);
      was.None? || a.None? || was.value.0 == a.value.key
  {
    var was, a := View(keys, olds, oldFields, name), PendingNamed(keys, pending, name);
    if a.Some? {
      PendingNamedOf(keys, pending, name);
    } else if was.Some? {
      NoPendingOf(keys, pending, was.value.0, name);
    }
  }

  /** Types whose fields are not empty. */
  predicate TakesBytes(t: KeyType) { !t.Void? && !t.Constant? && !t.ConstantId? }

  /** Pending -1, the number 2^32 - 1: the name is found, but no field follows. */
  lemma MinusOneIsLost(keys: seq<Repokey>, olds: seq<nat>, oldFields: seq<seq<Byte>>, pending: seq<Attr>, st: Store, name: nat)
    requires PendingStored(keys, st, pending) && KeysBelow(olds, |keys|) && |oldFields| == |olds|
    requires PendingNamed(keys, pending, name).Some? && PendingNamed(keys, pending, name).value.val == -1
    requires var was := View(keys, olds, oldFields, name); was.Some? ==> was.value.0 == PendingNamed(keys, pending, name).value.key
    ensures var k := PendingNamed(keys, pending, name).value.key;
      && k < |keys| && MergedView(keys, olds, oldFields, pending, st, name) == Some((k, []))
      && (TakesBytes(keys[k].ktype) ==> !IsField(keys[k], []))
  {
    PendingNamedOf(keys, pending, name);
    NoEmptyField(keys[PendingNamed(keys, pending, name).value.key]);
  }

  lemma NoEmptyField(key: Repokey)
    ensures TakesBytes(key.ktype) ==> !IsField(key, [])
  {
    if TakesBytes(key.ktype) && !key.ktype.Deleted? && !key.ktype.FixArray? && !key.ktype.FlexArray? {
      assert Fetch(Layout(key.ktype), key.size, [], 0).None?;
    }
  }

  /** Pending -2, the number 2^32 - 2: the name keeps its old field, and has none if it had none. */
  lemma MinusTwoIsIgnored(keys: seq<Repokey>, olds: seq<nat>, oldFields: seq<seq<Byte>>, pending: seq<Attr>, st: Store, name: nat)
    requires PendingStored(keys, st, pending) && KeysBelow(olds, |keys|) && |oldFields| == |olds|
    requires PendingNamed(keys, pending, name).Some? && PendingNamed(keys, pending, name).value.val == -2
    requires var was := View(keys, olds, oldFields, name); was.Some? ==> was.value.0 == PendingNamed(keys, pending, name).value.key
    ensures var was, k := View(keys, olds, oldFields, name), PendingNamed(keys, pending, name).value.key;
      && k < |keys| && MergedView(keys, olds, oldFields, pending, st, name) == Some((k, if was.Some? then was.value.1 else []))
      && (TakesBytes(keys[k].ktype) ==> !IsField(keys[k], []))
  {
    PendingNamedOf(keys, pending, name);
    NoEmptyField(keys[PendingNamed(keys, pending, name).value.key]);
  }

  /** With one key per name, and no value that is taken for a mark, it always is. */
  lemma OverlayAlways(keys: seq<Repokey>, olds: seq<nat>, oldFields: seq<seq<Byte>>, pending: seq<Attr>, st: Store, name: nat)
    requires PendingSound(keys, st, pending) && KeysBelow(olds, |keys|) && |oldFields| == |olds| && OneKeyPerName(keys)
    ensures MergedView(keys, olds, oldFields, pending, st, name) == Overlay(keys, olds, oldFields, pending, st, name)
  {
    var was, a := View(keys, olds, oldFields, name), PendingNamed(keys, pending, name);
    PendingNamedIs(keys, pending, name);
    OverlayExact(keys, olds, oldFields, pending, st, name);
    if was.Some? && a.Some? {
      var l :| 0 <= l < |pending| && pending[l] == a.value;
      assert keys[was.value.0].name == name == keys[a.value.key].name;
    }
  }
}
