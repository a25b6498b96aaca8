/** Setting attributes: the list of what is pending for an entry, and the store of the values
 * (repodata_insert_keyid, repodata_set and its callers, src/repodata.c).
 */
module SetAttr {
  import opened Bytes
  import opened Packing
  import opened Fields
  import opened Serialize
  import opened Merge

  // ---- the list ----

  /** The place of the attribute with a name, or the end. */
  function PlaceOf(keys: seq<Repokey>, list: seq<Attr>, name: nat): (r: nat)
    requires forall i :: 0 <= i < |list| ==> list[i].key < |keys|
    ensures r <= |list| && (r < |list| ==> keys[list[r].key].name == name)
    ensures forall i :: 0 <= i < r ==> keys[list[i].key].name != name
  {
    if list == [] || keys[list[0].key].name == name then 0 else 1 + PlaceOf(keys, list[1..], name)
  }

  /** The list with an attribute set: what had the name before is replaced. */
  function Put(keys: seq<Repokey>, list: seq<Attr>, a: Attr): seq<Attr>
    requires a.key < |keys| && forall i :: 0 <= i < |list| ==> list[i].key < |keys|
  {
    var p := PlaceOf(keys, list, keys[a.key].name);
    if p < |list| then list[p := a] else list + [a]
  }

  lemma {:induction false} PendingIsPlace(keys: seq<Repokey>, list: seq<Attr>, name: nat)
    requires forall i :: 0 <= i < |list| ==> list[i].key < |keys|
    ensures PendingNamed(keys, list, name) ==
      if PlaceOf(keys, list, name) < |list| then Some(list[PlaceOf(keys, list, name)]) else None
  {
    if list != [] && keys[list[0].key].name != name { PendingIsPlace(keys, list[1..], name); }
  }

  lemma FirstPlace(keys: seq<Repokey>, list: seq<Attr>, name: nat, p: nat)
    requires (forall i :: 0 <= i < |list| ==> list[i].key < |keys|) && p <= |list|
    requires (p < |list| ==> keys[list[p].key].name == name) && forall i :: 0 <= i < p ==> keys[list[i].key].name != name
    ensures PlaceOf(keys, list, name) == p
  {
  }

  lemma PutValid(keys: seq<Repokey>, st: Store, list: seq<Attr>, a: Attr)
    requires PendingStored(keys, st, list) && NamesDistinct(keys, list) && 0 < a.key < |keys| && AttrStored(keys, st, a)
    ensures PendingStored(keys, st, Put(keys, list, a)) && NamesDistinct(keys, Put(keys, list, a))
  {
    hide AttrStored;
    var p, r := PlaceOf(keys, list, keys[a.key].name), Put(keys, list, a);
    assert forall i :: 0 <= i < |r| ==> r[i] == if i == p then a else list[i];
    assert forall i :: 0 <= i < |list| && i != p ==> keys[list[i].key].name != keys[a.key].name by {
      assert p < |list| ==> keys[list[p].key].name == keys[a.key].name;
    }
    assert NamesDistinct(keys, r);
  }

  /** Setting an attribute changes what is pending for its name, and for no other. */
  lemma PutMeans(keys: seq<Repokey>, list: seq<Attr>, a: Attr, name: nat)
    requires NamesDistinct(keys, list) && a.key < |keys| && (forall i :: 0 <= i < |Put(keys, list, a)| ==> Put(keys, list, a)[i].key < |keys|)
    ensures PendingNamed(keys, Put(keys, list, a), name) ==
      if name == keys[a.key].name then Some(a) else PendingNamed(keys, list, name)
  {
    var p, r := PlaceOf(keys, list, keys[a.key].name), Put(keys, list, a);
    PendingIsPlace(keys, list, name);
    PendingIsPlace(keys, r, name);
    hide PendingNamed;
    if name == keys[a.key].name {
      FirstPlace(keys, r, name, p);
    } else {
      var q := PlaceOf(keys, list, name);
      if q < |list| { FirstPlace(keys, r, name, q); } else { FirstPlace(keys, r, name, |r|); }
    }
  }

  // ---- the store ----

  /** Bytes and ids were appended to the store. */
  ghost predicate Grown(st: Store, more: Store) {
    st.attrdata <= more.attrdata && st.attriddata <= more.attriddata
  }

  lemma PrefixStarts(data: seq<Byte>, more: seq<Byte>)
    requires data <= more
    ensures Starts(more, 0, data)
  {
  }

  lemma StrGrows(data: seq<Byte>, more: seq<Byte>, o: nat)
    requires data <= more && StrEnd(data, o).Some?
    ensures StrEnd(more, o) == StrEnd(data, o) && StrCode(more, o) == StrCode(data, o)
    ensures more[o..StrEnd(data, o).value] == data[o..StrEnd(data, o).value]
  {
    PrefixStarts(data, more);
    StrEndShift(more, 0, data, o);
  }

  lemma BinaryGrows(data: seq<Byte>, more: seq<Byte>, o: nat)
    requires data <= more && FetchBinary(data, o).Some?
    ensures FetchBinary(more, o) == FetchBinary(data, o) && BinaryCode(more, o) == BinaryCode(data, o)
  {
    PrefixStarts(data, more);
    BinaryShift(more, 0, data, o);
  }

  lemma {:induction false} GroupsGrow(ids: seq<Id31>, more: seq<Id31>, o: nat, n: nat)
    requires n >= 1 && ids <= more && Groups(ids, o, n)
    ensures Groups(more, o, n)
    decreases |ids| - o
  {
    if ids[o] != 0 { GroupsGrow(ids, more, o + n, n); }
  }

  lemma {:induction false} IdsGrow(ids: seq<Id31>, more: seq<Id31>, o: nat)
    requires ids <= more && Groups(ids, o, 1) && Groups(more, o, 1)
    ensures IdCodes(more, o) == IdCodes(ids, o) && IdValues(more, o) == IdValues(ids, o)
    decreases |ids| - o
  {
    if ids[o] != 0 { IdsGrow(ids, more, o + 1); }
  }

  lemma {:induction false} NumsGrow(ids: seq<Id31>, more: seq<Id31>, o: nat)
    requires ids <= more && Groups(ids, o, 3) && Groups(more, o, 3)
    ensures NumCodes(more, o) == NumCodes(ids, o) && NumValues(more, o) == NumValues(ids, o)
    decreases |ids| - o
  {
    hide EofCode, Varint;
    if ids[o] != 0 { NumsGrow(ids, more, o + 3); }
  }

  lemma {:induction false} StringsGrow(st: Store, more: Store, o: nat)
    requires Grown(st, more) && Groups(st.attriddata, o, 2) && Groups(more.attriddata, o, 2) && Strings(st, o)
    ensures Strings(more, o) && StrCodes(more, o) == StrCodes(st, o) && StrValues(more, o) == StrValues(st, o)
    decreases |st.attriddata| - o
  {
    hide EofCode, StrCode, StrEnd;
    if st.attriddata[o] != 0 {
      StringsGrow(st, more, o + 2);
      StrGrows(st.attrdata, more.attrdata, st.attriddata[o + 1]);
    }
  }

  /** A value in the store stays what it is when the store grows. */
  lemma ValueStays(t: KeyType, size: nat, st: Store, more: Store, val: int)
    requires Grown(st, more) && InStore(t, st, val)
    ensures InStore(t, more, val) && Serial(t, more, val) == Serial(t, st, val) && Values(t, size, more, val) == Values(t, size, st, val)
  {
    hide StrEnd, FetchBinary, Groups, Strings, IdCodes, IdValues, NumCodes, NumValues, StrCodes, StrValues, StrCode, BinaryCode, IdCode;
    if t.Str? {
      StrGrows(st.attrdata, more.attrdata, val);
    } else if t.Binary? {
      BinaryGrows(st.attrdata, more.attrdata, val);
    } else if t.IdArray? {
      GroupsGrow(st.attriddata, more.attriddata, val, 1);
      IdsGrow(st.attriddata, more.attriddata, val);
    } else if t.DirNumNumArray? {
      GroupsGrow(st.attriddata, more.attriddata, val, 3);
      NumsGrow(st.attriddata, more.attriddata, val);
    } else if t.DirStrArray? {
      GroupsGrow(st.attriddata, more.attriddata, val, 2);
      StringsGrow(st, more, val);
    }
  }

  // ---- new values ----

  /** A string behind the store (repodata_set_str). */
  lemma NewStr(st: Store, str: seq<Byte>)
    requires 0 !in str
    ensures var more, o := st.(attrdata := st.attrdata + str + [0]), |st.attrdata|;
      && Grown(st, more) && InStore(Str, more, o)
      && Values(Str, 0, more, o) == [NO_VALUE.(str := str)]
  {
    var data, o := st.attrdata + str + [0], |st.attrdata|;
    EndOfStr(data, o, |str|);
    assert data[o..o + |str|] == str;
  }

  lemma {:induction false} EndOfStr(data: seq<Byte>, o: nat, n: nat)
    requires o + n < |data| && 0 !in data[o..o + n] && data[o + n] == 0
    ensures StrEnd(data, o) == Some(o + n)
    decreases n
  {
    if n > 0 {
      assert data[o] == data[o..o + n][0];
      assert data[o + 1..o + n] == data[o..o + n][1..];
      EndOfStr(data, o + 1, n - 1);
    }
  }

  predicate IsChecksum(t: KeyType) { t.Md5? || t.Sha1? || t.Sha256? }

  /** sat_chksum_len */
  function ChecksumLength(t: KeyType): nat
    requires IsChecksum(t)
  {
    if t.Md5? then 16 else if t.Sha1? then 20 else 32
  }

  /** A checksum behind the store (repodata_set_bin_checksum). */
  lemma NewChecksum(st: Store, t: KeyType, sum: seq<Byte>)
    requires IsChecksum(t) && |sum| == ChecksumLength(t)
    ensures var more, o := st.(attrdata := st.attrdata + sum), |st.attrdata|;
      Grown(st, more) && InStore(t, more, o) && Values(t, 0, more, o) == [NO_VALUE.(str := sum)]
  {
    assert (st.attrdata + sum)[|st.attrdata|..|st.attrdata| + |sum|] == sum;
  }

  /** Bytes with their number in front, behind the store (repodata_set_binary). */
  lemma NewBinary(st: Store, buf: seq<Byte>)
    ensures var more, o := st.(attrdata := st.attrdata + Varint(|buf|) + buf), |st.attrdata|;
      Grown(st, more) && InStore(Binary, more, o) && Values(Binary, 0, more, o) == [NO_VALUE.(num := |buf|, str := buf)]
  {
    hide Varint, GetId;
    var v := Varint(|buf|);
    var data, o := st.attrdata + v + buf, |st.attrdata|;
    assert data[o..o + |v|] == v && data[o + |v|..o + |v| + |buf|] == buf;
    IdRoundTrip(data, o, |buf|);
  }

  /** The values of a list of ids. */
  function IdList(q: seq<Id31>): seq<KeyValue> {
    if q == [] then [] else [NO_VALUE.(id := q[0])] + IdList(q[1..])
  }

  /** The ids of a list up to the first zero, which ends it. */
  function UpToZero(q: seq<Id31>): (r: seq<Id31>)
    ensures 0 !in r && r <= q
  {
    if q == [] || q[0] == 0 then [] else [q[0]] + UpToZero(q[1..])
  }

  /** A list of ids behind the store (repodata_set_idarray). */
  lemma {:induction false} IdsBehind(ids: seq<Id31>, o: nat, q: seq<Id31>)
    requires o + |q| + 1 == |ids| && ids[o..] == q + [0]
    ensures Groups(ids, o, 1) && IdValues(ids, o) == IdList(UpToZero(q))
    decreases |q|
  {
    assert ids[o] == (q + [0])[0];
    if q != [] {
      assert ids[o + 1..] == ids[o..][1..] == q[1..] + [0];
      IdsBehind(ids, o + 1, q[1..]);
      if q[0] != 0 { assert ([q[0]] + UpToZero(q[1..]))[1..] == UpToZero(q[1..]); }
    }
  }

  lemma Behind(ids: seq<Id31>, q: seq<Id31>)
    ensures (ids + q + [0])[|ids|..] == q + [0] && ids < ids + q + [0]
    ensures (ids + q + [0])[|ids|] == if q == [] then 0 else q[0]
  {
  }

  lemma NewIds(st: Store, q: seq<Id31>)
    ensures var more, o := st.(attriddata := st.attriddata + q + [0]), |st.attriddata|;
      && Grown(st, more) && InStore(IdArray, more, o) && Values(IdArray, 0, more, o) == IdList(UpToZero(q))
  {
    hide Groups, Narrow, IdValues, IdList, UpToZero;
    var ids, o := st.attriddata + q + [0], |st.attriddata|;
    Behind(st.attriddata, q);
    IdsBehind(ids, o, q);
  }
}
