/** The schema pool (repodata_schema2id, repodata_free_schemahash, src/repodata.c).
 *
 * A schema is a list of key ids. schemata[i] is the place of schema i in schemadata, where it ends with a zero.
 * Schema 0 is empty.
 */
module Schemata {
  import opened Bytes

  /** At o, the data holds the list and a zero. */
  ghost predicate ListAt(data: seq<nat>, o: nat, list: seq<nat>) {
    o + |list| < |data| && data[o..o + |list|] == list && data[o + |list|] == 0 && 0 !in list
  }

  lemma ListElement(data: seq<nat>, o: nat, list: seq<nat>, k: nat)
    requires ListAt(data, o, list) && k <= |list|
    ensures data[o + k] == if k < |list| then list[k] else 0
    ensures k < |list| ==> list[k] != 0
  {
    assert k < |list| ==> data[o..o + |list|][k] == list[k] && list[k] in list;
  }

  lemma ListKept(data: seq<nat>, more: seq<nat>, o: nat, list: seq<nat>)
    requires ListAt(data, o, list)
    ensures ListAt(data + more, o, list)
  {
    assert (data + more)[o..o + |list|] == data[o..o + |list|];
  }

  /** h * 7 + key over the list, in 32 bits. */
  function Fold(list: seq<nat>): nat {
    if list == [] then 0 else (Fold(list[..|list| - 1]) * 7 + list[|list| - 1]) % 0x1_0000_0000
  }

  function HashOf(list: seq<nat>): (h: nat)
    ensures h < 256
  {
    Fold(list) % 256
  }

  /** Hash a zero-terminated list. */
  method HashList(data: seq<nat>, o: nat, ghost list: seq<nat>) returns (h: nat)
    requires ListAt(data, o, list)
    ensures h == HashOf(list)
  {
    var i := 0;
    h := 0;
    ListElement(data, o, list, 0);
    while data[o + i] != 0
      invariant i <= |list| && h == Fold(list[..i])
      invariant data[o + i] == if i < |list| then list[i] else 0
      decreases |list| - i
    {
      assert list[..i + 1][..i] == list[..i];
      h := (h * 7 + data[o + i]) % 0x1_0000_0000;
      i := i + 1;
      ListElement(data, o, list, i);
    }
    assert list[..i] == list;
    h := h % 256;
  }

  /** Does the list at o equal the schema, including its end? */
  method SameAt(data: seq<nat>, o: nat, schema: seq<nat>, ghost list: seq<nat>) returns (same: bool)
    requires ListAt(data, o, list) && 0 !in schema
    ensures same <==> list == schema
  {
    var i := 0;
    while i < |schema|
      invariant i <= |schema| && i <= |list| && list[..i] == schema[..i]
    {
      ListElement(data, o, list, i);
      assert schema[i] in schema;
      if data[o + i] != schema[i] { return false; }
      i := i + 1;
    }
    ListElement(data, o, list, i);
    same := data[o + i] == 0;
    assert schema[..i] == schema && (i == |list| ==> list[..i] == list);
  }

  class Pool {
    var schemata: seq<nat>
    var schemadata: seq<nat>
    var schematahash: Option<seq<nat>>
    ghost var lists: seq<seq<nat>>

    ghost predicate Valid()
      reads this
    {
      && |schemata| == |lists| >= 1 && lists[0] == []
      && (forall i :: 0 <= i < |lists| ==> ListAt(schemadata, schemata[i], lists[i]))
      && (forall i, j :: 0 <= i < j < |lists| ==> lists[i] != lists[j])
      && (schematahash.Some? ==> Hashed(schematahash.value, |lists|))
    }

    /** Every slot holds a schema or nothing, and the slot of every schema but the empty one is taken. */
    ghost predicate Hashed(hash: seq<nat>, n: nat)
      requires n <= |lists|
      reads this
    {
      && |hash| == 256 && (forall h :: 0 <= h < 256 ==> hash[h] < |lists|)
      && (forall i :: 1 <= i < n ==> hash[HashOf(lists[i])] != 0)
    }

    constructor ()
      ensures Valid() && lists == [[]] && fresh(this)
    {
      schemata, schemadata, schematahash := [0], [0], None;
      lists := [[]];
    }

    /** The keys of a schema. */
    method Keys(id: nat) returns (keys: seq<nat>)
      requires Valid() && id < |lists|
      ensures keys == lists[id]
    {
      var o := schemata[id];
      keys := [];
      ListElement(schemadata, o, lists[id], 0);
      while schemadata[o + |keys|] != 0
        invariant |keys| <= |lists[id]| && keys == lists[id][..|keys|]
        invariant schemadata[o + |keys|] == if |keys| < |lists[id]| then lists[id][|keys|] else 0
        decreases |lists[id]| - |keys|
      {
        keys := keys + [schemadata[o + |keys|]];
        ListElement(schemadata, o, lists[id], |keys|);
      }
    }

    /** Build the hash table. */
    method MakeHash() returns (hash: seq<nat>)
      requires Valid()
      ensures Hashed(hash, |lists|)
    {
      hash := seq(256, k => 0);
      var i := 1;
      while i < |schemata|
        invariant 1 <= i <= |lists| && Hashed(hash, i)
      {
        var h := HashList(schemadata, schemata[i], lists[i]);
        hash := hash[h := i];
        i := i + 1;
      }
    }

    /** The slow search. */
    method Search(schema: seq<nat>) returns (cid: nat)
      requires Valid() && 0 !in schema && schema != []
      ensures cid < |lists| && (cid == 0 ==> schema !in lists) && (cid != 0 ==> lists[cid] == schema)
    {
      cid := 1;
      while cid < |schemata|
        invariant 1 <= cid <= |lists| && forall i :: 0 <= i < cid ==> lists[i] != schema
      {
        var same := SameAt(schemadata, schemata[cid], schema, lists[cid]);
        if same { return; }
        cid := cid + 1;
      }
      cid := 0;
    }

    /** Look a schema up by its hash. */
    method Find(schema: seq<nat>) returns (cid: nat)
      requires Valid() && 0 !in schema && schema != [] && schematahash.Some?
      ensures cid < |lists| && (cid == 0 ==> schema !in lists) && (cid != 0 ==> lists[cid] == schema)
    {
      assert ListAt(schema + [0], 0, schema) by { assert (schema + [0])[0..|schema|] == schema; }
      var h := HashList(schema + [0], 0, schema);
      cid := schematahash.value[h];
      if cid != 0 {
        var same := SameAt(schemadata, schemata[cid], schema, lists[cid]);
        if same { return; }
        // another schema has this slot: look through them all
        cid := Search(schema);
      }
    }

    /** repodata_schema2id: the id of a schema, which is added if asked for; no two ids have the same schema. */
    method Schema2Id(schema: seq<nat>, create: bool) returns (id: nat)
      requires Valid() && 0 !in schema
      modifies this
      ensures Valid() && old(lists) <= lists
      ensures id < |lists| && (id == 0 ==> schema == [] || (!create && schema !in old(lists)))
      ensures id != 0 ==> lists[id] == schema
      ensures schema == [] ==> id == 0
      ensures lists == if create && schema !in old(lists) then old(lists) + [schema] else old(lists)
    {
      if schema == [] { return 0; }
      if schematahash.None? {
        var hash := MakeHash();
        schematahash := Some(hash);
      }
      id := Find(schema);
      if id != 0 || !create { return; }
      AddSchema(schema);
      id := |schemata| - 1;
    }

    method AddSchema(schema: seq<nat>)
      requires Valid() && 0 !in schema && schema !in lists && schematahash.Some?
      modifies this
      ensures Valid() && lists == old(lists) + [schema]
    {
      ghost var was := schemadata;
      var o := |schemadata|;
      schemadata := schemadata + (schema + [0]);
      forall i | 0 <= i < |lists| ensures ListAt(schemadata, schemata[i], lists[i]) {
        ListKept(was, schema + [0], schemata[i], lists[i]);
      }
      assert schemadata[o..o + |schema|] == schema;
      assert ListAt(schema + [0], 0, schema) by { assert (schema + [0])[0..|schema|] == schema; }
      var h := HashList(schema + [0], 0, schema);
      schemata := schemata + [o];
      lists := lists + [schema];
      schematahash := Some(schematahash.value[h := |schemata| - 1]);
    }

    /** repodata_free_schemahash */
    method FreeHash()
      requires Valid()
      modifies this`schematahash
      ensures Valid() && lists == old(lists)
    {
      schematahash := None;
    }
  }
}
