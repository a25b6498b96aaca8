/** Pending attribute values and their packed form (repodata_serialize_key, src/repodata.c).
 *
 * A pending value is a number whose meaning depends on the type of the key: the value itself, the
 * place of bytes in attrdata, or the place of a zero-terminated list in attriddata.
 */
module Serialize {
  import opened Bytes
  import opened Packing
  import opened Fields

  type Id31 = x: int | 0 <= x < 0x8000_0000

  /** The store of the pending values. */
  datatype Store = Store(attrdata: seq<Byte>, attriddata: seq<Id31>)

  /** A list of groups of n ids that ends with a zero. */
  ghost predicate Groups(ids: seq<Id31>, o: nat, n: nat)
    requires n >= 1
    decreases |ids| - o
  {
    o < |ids| && (ids[o] == 0 || (o + n < |ids| && Groups(ids, o + n, n)))
  }

  /** The strings of a list of directories and strings are there. */
  ghost predicate Strings(st: Store, o: nat)
    requires Groups(st.attriddata, o, 2)
    decreases |st.attriddata| - o
  {
    st.attriddata[o] != 0 ==> StrEnd(st.attrdata, st.attriddata[o + 1]).Some? && Strings(st, o + 2)
  }

  /** The value can be read from the store. */
  ghost predicate InStore(t: KeyType, st: Store, val: int) {
    match t
    case Void | Constant | ConstantId => val == 0
    case Id | Num | Dir => -0x8000_0000 <= val < 0x8000_0000
    case Str => 0 <= val && StrEnd(st.attrdata, val).Some?
    case Md5 => 0 <= val && val + 16 <= |st.attrdata|
    case Sha1 => 0 <= val && val + 20 <= |st.attrdata|
    case Sha256 => 0 <= val && val + 32 <= |st.attrdata|
    case Binary => 0 <= val && FetchBinary(st.attrdata, val).Some?
    case IdArray => 0 <= val && Groups(st.attriddata, val, 1)
    case DirNumNumArray => 0 <= val && Groups(st.attriddata, val, 3)
    case DirStrArray => 0 <= val && Groups(st.attriddata, val, 2) && Strings(st, val)
    case _ => false
  }

  // ---- arrays ----

  function IdCodes(ids: seq<Id31>, o: nat): seq<Byte>
    requires Groups(ids, o, 1)
    decreases |ids| - o
  {
    if ids[o] == 0 then [] else EofCode(ids[o], ids[o + 1] == 0) + IdCodes(ids, o + 1)
  }

  function IdValues(ids: seq<Id31>, o: nat): seq<KeyValue>
    requires Groups(ids, o, 1)
    decreases |ids| - o
  {
    if ids[o] == 0 then [] else [NO_VALUE.(id := ids[o])] + IdValues(ids, o + 1)
  }

  function NumCodes(ids: seq<Id31>, o: nat): seq<Byte>
    requires Groups(ids, o, 3)
    decreases |ids| - o
  {
    if ids[o] == 0 then []
    else Varint(ids[o]) + Varint(ids[o + 1]) + EofCode(ids[o + 2], ids[o + 3] == 0) + NumCodes(ids, o + 3)
  }

  function NumValues(ids: seq<Id31>, o: nat): seq<KeyValue>
    requires Groups(ids, o, 3)
    decreases |ids| - o
  {
    if ids[o] == 0 then [] else [KeyValue(ids[o], ids[o + 1], ids[o + 2], [])] + NumValues(ids, o + 3)
  }

  /** A string with its end. */
  function StrCode(data: seq<Byte>, o: nat): seq<Byte>
    requires StrEnd(data, o).Some?
  {
    data[o..StrEnd(data, o).value + 1]
  }

  function StrCodes(st: Store, o: nat): seq<Byte>
    requires Groups(st.attriddata, o, 2) && Strings(st, o)
    decreases |st.attriddata| - o
  {
    var ids := st.attriddata;
    if ids[o] == 0 then []
    else EofCode(ids[o], ids[o + 2] == 0) + StrCode(st.attrdata, ids[o + 1]) + StrCodes(st, o + 2)
  }

  function StrValues(st: Store, o: nat): seq<KeyValue>
    requires Groups(st.attriddata, o, 2) && Strings(st, o)
    decreases |st.attriddata| - o
  {
    var ids := st.attriddata;
    if ids[o] == 0 then []
    else [NO_VALUE.(id := ids[o], str := st.attrdata[ids[o + 1]..StrEnd(st.attrdata, ids[o + 1]).value])] + StrValues(st, o + 2)
  }

  /** The elements whose last part marks the end of the array fit into 30 bits. */
  ghost predicate Narrow(ids: seq<Id31>, o: nat, n: nat, last: nat)
    requires n >= 1 && last < n && Groups(ids, o, n)
    decreases |ids| - o
  {
    ids[o] != 0 ==> ids[o + last] < BIT30 && Narrow(ids, o + n, n, last)
  }

  // ---- all types ----

  function BinaryCode(data: seq<Byte>, o: nat): seq<Byte>
    requires FetchBinary(data, o).Some?
  {
    data[o..FetchBinary(data, o).value.dp]
  }

  /** The bytes of a pending value. */
  function Serial(t: KeyType, st: Store, val: int): seq<Byte>
    requires InStore(t, st, val)
  {
    match t
    case Void | Constant | ConstantId => []
    case Id | Num | Dir => IdCode(val)
    case Str => StrCode(st.attrdata, val)
    case Md5 => st.attrdata[val..val + 16]
    case Sha1 => st.attrdata[val..val + 20]
    case Sha256 => st.attrdata[val..val + 32]
    case Binary => BinaryCode(st.attrdata, val)
    case IdArray => IdCodes(st.attriddata, val)
    case DirNumNumArray => NumCodes(st.attriddata, val)
    case DirStrArray => StrCodes(st, val)
  }

  /** A number of 32 bits, read without its sign: numbers from 2^31 on are set as negative ones. */
  function Unsigned(val: int): nat
    requires -0x8000_0000 <= val < 0x8000_0000
  {
    if val < 0 then val + 0x1_0000_0000 else val
  }

  /** The values that were set. */
  function Values(t: KeyType, size: nat, st: Store, val: int): seq<KeyValue>
    requires InStore(t, st, val)
  {
    match t
    case Void => [NO_VALUE]
    case Constant => [NO_VALUE.(num := size)]
    case ConstantId => [NO_VALUE.(id := size)]
    case Id | Dir => [NO_VALUE.(id := Unsigned(val))]
    case Num => [NO_VALUE.(num := Unsigned(val))]
    case Str => [NO_VALUE.(str := st.attrdata[val..StrEnd(st.attrdata, val).value])]
    case Md5 => [NO_VALUE.(str := st.attrdata[val..val + 16])]
    case Sha1 => [NO_VALUE.(str := st.attrdata[val..val + 20])]
    case Sha256 => [NO_VALUE.(str := st.attrdata[val..val + 32])]
    case Binary => [FetchBinary(st.attrdata, val).value.kv]
    case IdArray => IdValues(st.attriddata, val)
    case DirNumNumArray => NumValues(st.attriddata, val)
    case DirStrArray => StrValues(st, val)
  }

  predicate IsNumber(t: KeyType) { t.Id? || t.Num? || t.Dir? }

  predicate IsArray(t: KeyType) { t.IdArray? || t.DirNumNumArray? || t.DirStrArray? }

  /** How many ids an element of an array has. */
  function EntrySize(t: KeyType): (n: nat)
    ensures n >= 1
  {
    if t.DirNumNumArray? then 3 else if t.DirStrArray? then 2 else 1
  }

  /** Which id of an element carries the end mark. */
  function MarkedId(t: KeyType): nat { if t.DirNumNumArray? then 2 else 0 }

  /** The value comes out of its packed form as it went in: numbers are not negative, and arrays not empty and of elements that fit. */
  ghost predicate Fits(t: KeyType, st: Store, val: int)
    requires InStore(t, st, val)
  {
    && (IsNumber(t) ==> val >= 0)
    && (IsArray(t) ==> st.attriddata[val] != 0 && Narrow(st.attriddata, val, EntrySize(t), MarkedId(t)))
  }

  /** The value has a packed form: it is no mark of the merging loop, and no empty array. */
  ghost predicate Sound(t: KeyType, st: Store, val: int)
    requires InStore(t, st, val)
  {
    val != -1 && val != -2 && (IsArray(t) ==> st.attriddata[val] != 0)
  }

  /** What is kept of a value in its packed form. */
  function Cut(t: KeyType, v: KeyValue): KeyValue {
    if t.IdArray? || t.DirStrArray? then v.(id := Kept(v.id))
    else if t.DirNumNumArray? then v.(num2 := Kept(v.num2))
    else if t.Id? || t.Dir? then v.(id := KeptNumber(v.id))
    else if t.Num? then v.(num := KeptNumber(v.num))
    else v
  }

  /** What is kept of a number of 32 bits. */
  function KeptNumber(x: nat): nat { if x < BIT31 then x else x % 128 }

  function CutAll(t: KeyType, values: seq<KeyValue>): (r: seq<KeyValue>)
    ensures |r| == |values|
  {
    if values == [] then [] else [Cut(t, values[0])] + CutAll(t, values[1..])
  }

  // ---- the writer ----

  method AddStr(xd: ExtData, data: seq<Byte>, o: nat)
    requires StrEnd(data, o).Some?
    modifies xd
    ensures xd.buf == old(xd.buf) + StrCode(data, o)
  {
    var e := SkipStr(data, o);
    xd.AddBlob(data[o..e + 1]);
  }

  lemma Assoc(a: seq<Byte>, b: seq<Byte>, c: seq<Byte>)
    ensures a + (b + c) == (a + b) + c
  {
  }

  method AddIds(xd: ExtData, ids: seq<Id31>, o: nat)
    requires Groups(ids, o, 1)
    modifies xd
    ensures xd.buf == old(xd.buf) + IdCodes(ids, o)
  {
    hide EofCode;
    var i := o;
    while ids[i] != 0
      invariant Groups(ids, i, 1)
      invariant old(xd.buf) + IdCodes(ids, o) == xd.buf + IdCodes(ids, i)
      decreases |ids| - i
    {
      Assoc(xd.buf, EofCode(ids[i], ids[i + 1] == 0), IdCodes(ids, i + 1));
      xd.AddIdEof(ids[i], ids[i + 1] == 0);
      i := i + 1;
    }
  }

  method AddNums(xd: ExtData, ids: seq<Id31>, o: nat)
    requires Groups(ids, o, 3)
    modifies xd
    ensures xd.buf == old(xd.buf) + NumCodes(ids, o)
  {
    hide EofCode, Varint;
    var i := o;
    while ids[i] != 0
      invariant Groups(ids, i, 3)
      invariant old(xd.buf) + NumCodes(ids, o) == xd.buf + NumCodes(ids, i)
      decreases |ids| - i
    {
      var a, b, c := Varint(ids[i]), Varint(ids[i + 1]), EofCode(ids[i + 2], ids[i + 3] == 0);
      Assoc(xd.buf, a + b + c, NumCodes(ids, i + 3));
      Assoc(xd.buf, a, b);
      Assoc(xd.buf, a + b, c);
      xd.AddId(ids[i]);
      xd.AddId(ids[i + 1]);
      xd.AddIdEof(ids[i + 2], ids[i + 3] == 0);
      i := i + 3;
    }
  }

  method AddStrs(xd: ExtData, st: Store, o: nat)
    requires Groups(st.attriddata, o, 2) && Strings(st, o)
    modifies xd
    ensures xd.buf == old(xd.buf) + StrCodes(st, o)
  {
    hide EofCode, StrCode;
    var ids, i := st.attriddata, o;
    while ids[i] != 0
      invariant Groups(ids, i, 2) && Strings(st, i)
      invariant old(xd.buf) + StrCodes(st, o) == xd.buf + StrCodes(st, i)
      decreases |ids| - i
    {
      var a, b := EofCode(ids[i], ids[i + 2] == 0), StrCode(st.attrdata, ids[i + 1]);
      Assoc(xd.buf, a + b, StrCodes(st, i + 2));
      Assoc(xd.buf, a, b);
      xd.AddIdEof(ids[i], ids[i + 2] == 0);
      AddStr(xd, st.attrdata, ids[i + 1]);
      i := i + 2;
    }
  }

  /** repodata_serialize_key, without sub-structures. */
  method SerializeKey(xd: ExtData, t: KeyType, st: Store, val: int)
    requires InStore(t, st, val)
    modifies xd
    ensures xd.buf == old(xd.buf) + Serial(t, st, val)
  {
    match t
    case Void | Constant | ConstantId =>
    case Str => AddStr(xd, st.attrdata, val);
    case Md5 => xd.AddBlob(st.attrdata[val..val + 16]);
    case Sha1 => xd.AddBlob(st.attrdata[val..val + 20]);
    case Sha256 => xd.AddBlob(st.attrdata[val..val + 32]);
    case Id | Num | Dir => xd.AddId(val);
    case Binary =>
      var len, dp := ReadId(st.attrdata, val);
      xd.AddBlob(st.attrdata[val..dp + len]);
    case IdArray => AddIds(xd, st.attriddata, val);
    case DirNumNumArray => AddNums(xd, st.attriddata, val);
    case DirStrArray => AddStrs(xd, st, val);
  }

  // ---- what was written is one field with the values ----

  lemma Whole(f: seq<Byte>)
    ensures Starts(f, 0, f)
  {
  }

  lemma SelfPart(data: seq<Byte>, lo: nat, hi: nat)
    requires lo <= hi <= |data|
    ensures Starts(data, lo, data[lo..hi])
  {
  }

  /** The bytes of a field inside a blob, taken out, are that field. */
  lemma {:induction false} LeadBack(data: seq<Byte>, off: nat, f: seq<Byte>, p: nat, x: nat)
    requires Starts(data, off, f) && Lead(data, off + p, x).Some? && Lead(data, off + p, x).value.1 < off + |f|
    ensures Lead(f, p, x) == Some((Lead(data, off + p, x).value.0, Lead(data, off + p, x).value.1 - off))
    decreases |f| - p
  {
    ByteAt(data, off, f, p);
    if f[p] >= 128 { LeadBack(data, off, f, p + 1, x * 128 + (f[p] - 128)); }
  }

  lemma {:induction false} StrEndBack(data: seq<Byte>, off: nat, f: seq<Byte>, p: nat)
    requires Starts(data, off, f) && StrEnd(data, off + p).Some? && StrEnd(data, off + p).value < off + |f|
    ensures StrEnd(f, p) == Some(StrEnd(data, off + p).value - off)
    decreases |f| - p
  {
    ByteAt(data, off, f, p);
    if f[p] != 0 { StrEndBack(data, off, f, p + 1); }
  }

  lemma StrComplete(data: seq<Byte>, o: nat)
    requires StrEnd(data, o).Some?
    ensures Complete(Str, 0, StrCode(data, o), [NO_VALUE.(str := data[o..StrEnd(data, o).value])])
    ensures StrEnd(StrCode(data, o), 0) == Some(|StrCode(data, o)| - 1)
    ensures StrCode(data, o)[..|StrCode(data, o)| - 1] == data[o..StrEnd(data, o).value]
  {
    var e := StrEnd(data, o).value;
    SelfPart(data, o, e + 1);
    StrEndBack(data, o, data[o..e + 1], 0);
    assert data[o..e + 1][0..e - o] == data[o..e];
  }

  lemma BinaryComplete(data: seq<Byte>, o: nat)
    requires FetchBinary(data, o).Some?
    ensures FetchBinary(BinaryCode(data, o), 0) == Some(Fetched(FetchBinary(data, o).value.kv, |BinaryCode(data, o)|, true))
  {
    var f := BinaryCode(data, o);
    var l := Lead(data, o, 0).value;
    var (n, q) := GetId(data, o).value;
    SelfPart(data, o, q + n);
    LeadBack(data, o, f, 0, 0);
    ByteAt(data, o, f, l.1 - o);
    SliceShift(data, o, f, q - o, q - o + n);
  }

  /** A first value and, unless it is the last, a field with the others. */
  lemma ConsComplete(t: KeyType, v: seq<Byte>, rest: seq<Byte>, kv: KeyValue, values: seq<KeyValue>, eof: bool)
    requires Fetch(t, 0, v + rest, 0) == Some(Fetched(kv, |v|, eof))
    requires if eof then rest == [] && values == [] else Complete(t, 0, rest, values)
    ensures Complete(t, 0, v + rest, [kv] + values)
  {
    hide Fetch, FetchAll;
    Whole(v + rest);
    StartsWith(v + rest, 0, v, rest);
    Unfold(t, 0, v + rest, 0);
    assert eof ==> [kv] + values == [kv];
    if !eof { FetchAllShift(t, 0, v + rest, |v|, rest, 0); }
  }

  lemma CutCons(t: KeyType, v: KeyValue, values: seq<KeyValue>)
    ensures CutAll(t, [v] + values) == [Cut(t, v)] + CutAll(t, values)
  {
    assert ([v] + values)[1..] == values;
  }

  lemma CutNothing(t: KeyType)
    ensures CutAll(t, []) == []
  {
  }

  lemma {:induction false} IdsComplete(ids: seq<Id31>, o: nat)
    requires Groups(ids, o, 1) && ids[o] != 0
    ensures Complete(IdArray, 0, IdCodes(ids, o), CutAll(IdArray, IdValues(ids, o)))
    decreases |ids| - o
  {
    var f, rest, eof := IdCodes(ids, o), IdCodes(ids, o + 1), ids[o + 1] == 0;
    var v := EofCode(ids[o], eof);
    EofCodeIs(ids[o], eof);
    CutCons(IdArray, NO_VALUE.(id := ids[o]), IdValues(ids, o + 1));
    hide EofCode, VarEof, Fetch, FetchAll, GetIdEof, Complete, Starts, Kept, CutAll;
    Whole(f);
    StartsWith(f, 0, v, rest);
    IdEofRoundTrip(f, 0, Kept(ids[o]), eof);
    ElemFetch(f, 0);
    if eof { CutNothing(IdArray); } else { IdsComplete(ids, o + 1); }
    ConsComplete(IdArray, v, rest, NO_VALUE.(id := Kept(ids[o])), CutAll(IdArray, IdValues(ids, o + 1)), eof);
  }

  lemma ElemFetch(f: seq<Byte>, p: nat)
    requires GetIdEof(f, p).Some? && p <= |f|
    ensures var (x, q, eof) := GetIdEof(f, p).value;
      Fetch(IdArray, 0, f, p) == Some(Fetched(NO_VALUE.(id := x), q, eof))
  {
  }

  lemma DirNumNumFetch(f: seq<Byte>, p: nat, d: nat, n: nat, m: nat, eof: bool)
    requires p <= |f| && Starts(f, p, Varint(d) + Varint(n) + VarEof(m, eof))
    ensures Fetch(DirNumNumArray, 0, f, p) ==
      Some(Fetched(KeyValue(d, n, m, []), p + |Varint(d) + Varint(n) + VarEof(m, eof)|, eof))
  {
    hide Varint, VarEof, GetId, GetIdEof;
    StartsWith(f, p, Varint(d) + Varint(n), VarEof(m, eof));
    StartsWith(f, p, Varint(d), Varint(n));
    IdRoundTrip(f, p, d);
    IdRoundTrip(f, p + |Varint(d)|, n);
    IdEofRoundTrip(f, p + |Varint(d)| + |Varint(n)|, m, eof);
  }

  lemma {:induction false} NumsComplete(ids: seq<Id31>, o: nat)
    requires Groups(ids, o, 3) && ids[o] != 0
    ensures Complete(DirNumNumArray, 0, NumCodes(ids, o), CutAll(DirNumNumArray, NumValues(ids, o)))
    decreases |ids| - o
  {
    var f, rest, eof := NumCodes(ids, o), NumCodes(ids, o + 3), ids[o + 3] == 0;
    EofCodeIs(ids[o + 2], eof);
    var v := Varint(ids[o]) + Varint(ids[o + 1]) + VarEof(Kept(ids[o + 2]), eof);
    CutCons(DirNumNumArray, KeyValue(ids[o], ids[o + 1], ids[o + 2], []), NumValues(ids, o + 3));
    assert f == v + rest && (eof ==> rest == [] && NumValues(ids, o + 3) == []);
    hide EofCode, VarEof, Varint, Fetch, FetchAll, Complete, Starts, Kept, CutAll, NumCodes;
    Whole(f);
    StartsWith(f, 0, v, rest);
    DirNumNumFetch(f, 0, ids[o], ids[o + 1], Kept(ids[o + 2]), eof);
    if eof { CutNothing(DirNumNumArray); } else { NumsComplete(ids, o + 3); }
    ConsComplete(DirNumNumArray, v, rest, KeyValue(ids[o], ids[o + 1], Kept(ids[o + 2]), []), CutAll(DirNumNumArray, NumValues(ids, o + 3)), eof);
  }

  /** A string inside a blob. */
  lemma StrInside(f: seq<Byte>, q: nat, data: seq<Byte>, o: nat)
    requires StrEnd(data, o).Some? && Starts(f, q, StrCode(data, o))
    ensures StrEnd(f, q) == Some(q + |StrCode(data, o)| - 1)
    ensures f[q..q + |StrCode(data, o)| - 1] == data[o..StrEnd(data, o).value]
  {
    StrComplete(data, o);
    hide StrCode, StrEnd;
    StrEndShift(f, q, StrCode(data, o), 0);
    SliceShift(f, q, StrCode(data, o), 0, |StrCode(data, o)| - 1);
  }

  lemma DirStrFetch(f: seq<Byte>, p: nat, d: nat, eof: bool, data: seq<Byte>, o: nat)
    requires p <= |f| && StrEnd(data, o).Some? && Starts(f, p, VarEof(d, eof) + StrCode(data, o))
    ensures Fetch(DirStrArray, 0, f, p) ==
      Some(Fetched(NO_VALUE.(id := d, str := data[o..StrEnd(data, o).value]), p + |VarEof(d, eof) + StrCode(data, o)|, eof))
  {
    hide VarEof, GetIdEof, StrCode, StrEnd, Starts;
    StartsWith(f, p, VarEof(d, eof), StrCode(data, o));
    IdEofRoundTrip(f, p, d, eof);
    StrInside(f, p + |VarEof(d, eof)|, data, o);
  }

  /** The first directory and string of a list. */
  ghost function FirstStr(st: Store, o: nat): KeyValue
    requires Groups(st.attriddata, o, 2) && Strings(st, o) && st.attriddata[o] != 0
  {
    var q := st.attriddata[o + 1];
    NO_VALUE.(id := st.attriddata[o], str := st.attrdata[q..StrEnd(st.attrdata, q).value])
  }

  ghost function FirstStrCode(st: Store, o: nat): seq<Byte>
    requires Groups(st.attriddata, o, 2) && Strings(st, o) && st.attriddata[o] != 0
  {
    EofCode(st.attriddata[o], st.attriddata[o + 2] == 0) + StrCode(st.attrdata, st.attriddata[o + 1])
  }

  lemma FirstStrFetch(st: Store, o: nat, rest: seq<Byte>)
    requires Groups(st.attriddata, o, 2) && Strings(st, o) && st.attriddata[o] != 0
    ensures Fetch(DirStrArray, 0, FirstStrCode(st, o) + rest, 0) ==
      Some(Fetched(Cut(DirStrArray, FirstStr(st, o)), |FirstStrCode(st, o)|, st.attriddata[o + 2] == 0))
  {
    var ids, v := st.attriddata, FirstStrCode(st, o);
    EofCodeIs(ids[o], ids[o + 2] == 0);
    hide EofCode, VarEof, StrCode, Fetch, StrEnd, Starts, Kept;
    Whole(v + rest);
    StartsWith(v + rest, 0, v, rest);
    DirStrFetch(v + rest, 0, Kept(ids[o]), ids[o + 2] == 0, st.attrdata, ids[o + 1]);
  }

  lemma {:induction false} StrsComplete(st: Store, o: nat)
    requires Groups(st.attriddata, o, 2) && Strings(st, o) && st.attriddata[o] != 0
    ensures Complete(DirStrArray, 0, StrCodes(st, o), CutAll(DirStrArray, StrValues(st, o)))
    decreases |st.attriddata| - o
  {
    var eof := st.attriddata[o + 2] == 0;
    assert StrCodes(st, o) == FirstStrCode(st, o) + StrCodes(st, o + 2);
    assert StrValues(st, o) == [FirstStr(st, o)] + StrValues(st, o + 2);
    CutCons(DirStrArray, FirstStr(st, o), StrValues(st, o + 2));
    hide FirstStrCode, FirstStr, Fetch, Complete, Cut, CutAll;
    FirstStrFetch(st, o, StrCodes(st, o + 2));
    if eof { CutNothing(DirStrArray); } else { StrsComplete(st, o + 2); }
    ConsComplete(DirStrArray, FirstStrCode(st, o), StrCodes(st, o + 2), Cut(DirStrArray, FirstStr(st, o)), CutAll(DirStrArray, StrValues(st, o + 2)), eof);
  }

  lemma BlobComplete(t: KeyType, n: nat, data: seq<Byte>, o: nat)
    requires (t.Md5? && n == 16) || (t.Sha1? && n == 20) || (t.Sha256? && n == 32)
    requires o + n <= |data|
    ensures Complete(t, 0, data[o..o + n], [NO_VALUE.(str := data[o..o + n])])
  {
    var f := data[o..o + n];
    assert f[0..n] == f;
  }

  lemma NumberComplete(t: KeyType, val: Int32)
    requires IsNumber(t)
    ensures Complete(t, 0, IdCode(val), CutAll(t, [if t.Num? then NO_VALUE.(num := Unsigned(val)) else NO_VALUE.(id := Unsigned(val))]))
  {
    IdCodeIs(val);
    var x := KeptInt(val);
    var f := Varint(x);
    assert KeptNumber(Unsigned(val)) == x;
    var v := if t.Num? then NO_VALUE.(num := Unsigned(val)) else NO_VALUE.(id := Unsigned(val));
    CutCons(t, v, []);
    CutNothing(t);
    assert [v] == [v] + [] && [Cut(t, v)] == [Cut(t, v)] + [];
    hide GetId, Varint, IdCode;
    Whole(f);
    IdRoundTrip(f, 0, x);
  }

  lemma CutOthers(t: KeyType, values: seq<KeyValue>)
    requires !IsNumber(t) && !IsArray(t)
    ensures CutAll(t, values) == values
  {
    if values != [] { CutOthers(t, values[1..]); }
  }

  /** A pending value that has a packed form is written as one complete field, of what is kept of its values. */
  lemma SerialComplete(t: KeyType, size: nat, st: Store, val: int)
    requires InStore(t, st, val) && (IsArray(t) ==> st.attriddata[val] != 0)
    ensures Complete(t, size, Serial(t, st, val), CutAll(t, Values(t, size, st, val)))
  {
    if !IsNumber(t) && !IsArray(t) { CutOthers(t, Values(t, size, st, val)); }
    hide FetchAll, Fetch, StrCode, BinaryCode, IdCodes, NumCodes, StrCodes, IdValues, NumValues, StrValues, FetchBinary, Varint, IdCode, CutAll;
    if t.Void? || t.Constant? || t.ConstantId? {
      ConstantComplete(t, size);
      return;
    }
    match t {
      case Id | Num | Dir => NumberComplete(t, val);
      case Str => StrComplete(st.attrdata, val);
      case Md5 => BlobComplete(t, 16, st.attrdata, val);
      case Sha1 => BlobComplete(t, 20, st.attrdata, val);
      case Sha256 => BlobComplete(t, 32, st.attrdata, val);
      case Binary => BinaryFetch(st.attrdata, val);
      case IdArray => IdsComplete(st.attriddata, val);
      case DirNumNumArray => NumsComplete(st.attriddata, val);
      case DirStrArray => StrsComplete(st, val);
    }
    SizeComplete(t, size, Serial(t, st, val), CutAll(t, Values(t, size, st, val)));
  }

  lemma ConstantComplete(t: KeyType, size: nat)
    requires t.Void? || t.Constant? || t.ConstantId?
    ensures Complete(t, size, [], [if t.Void? then NO_VALUE else if t.Constant? then NO_VALUE.(num := size) else NO_VALUE.(id := size)])
  {
  }

  lemma BinaryFetch(data: seq<Byte>, o: nat)
    requires FetchBinary(data, o).Some?
    ensures Complete(Binary, 0, BinaryCode(data, o), [FetchBinary(data, o).value.kv])
  {
    hide FetchBinary, BinaryCode;
    BinaryComplete(data, o);
  }

  /** Only constants depend on the size of the key. */
  lemma {:induction false} SizeValues(t: KeyType, size: nat, data: seq<Byte>, dp: nat)
    requires dp <= |data| && !t.Constant? && !t.ConstantId?
    ensures FetchAll(t, size, data, dp) == FetchAll(t, 0, data, dp)
    decreases |data| - dp
  {
    hide FetchU32, FetchBinary, FetchDirStr, FetchDirNumNum, FetchStr, FetchId, FetchNum, FetchElem, Blob;
    var g := Fetch(t, size, data, dp);
    if g.Some? && !g.value.eof { SizeValues(t, size, data, g.value.dp); }
  }

  lemma SizeComplete(t: KeyType, size: nat, f: seq<Byte>, values: seq<KeyValue>)
    requires Complete(t, 0, f, values) && !t.Constant? && !t.ConstantId?
    ensures Complete(t, size, f, values)
  {
    hide FetchAll;
    SizeValues(t, size, f, 0);
  }

  // ---- values that do not fit ----

  /** An array that was set but is empty is written as nothing, which is not a field. */
  lemma EmptyArrayIsNoField(t: KeyType, size: nat, st: Store, val: nat, values: seq<KeyValue>)
    requires t.IdArray? || t.DirNumNumArray? || t.DirStrArray?
    requires InStore(t, st, val) && st.attriddata[val] == 0
    ensures Serial(t, st, val) == [] && !Complete(t, size, Serial(t, st, val), values)
  {
    assert Serial(t, st, val) == [];
    assert Fetch(t, size, [], 0) == None;
  }

  lemma CutSame(t: KeyType, v: KeyValue, values: seq<KeyValue>)
    ensures CutAll(t, [v] + values) == [v] + values <==> Cut(t, v) == v && CutAll(t, values) == values
  {
    CutCons(t, v, values);
    assert ([Cut(t, v)] + CutAll(t, values))[0] == Cut(t, v) && ([Cut(t, v)] + CutAll(t, values))[1..] == CutAll(t, values);
    assert ([v] + values)[0] == v && ([v] + values)[1..] == values;
  }

  lemma KeptExact(x: nat)
    requires x < 0x1_0000_0000
    ensures (Kept(x) == x <==> x < BIT30) && (KeptNumber(x) == x <==> x < BIT31)
  {
  }

  lemma {:induction false} IdsKept(ids: seq<Id31>, o: nat)
    requires Groups(ids, o, 1)
    ensures CutAll(IdArray, IdValues(ids, o)) == IdValues(ids, o) <==> Narrow(ids, o, 1, 0)
    decreases |ids| - o
  {
    if ids[o] != 0 {
      IdsKept(ids, o + 1);
      CutSame(IdArray, NO_VALUE.(id := ids[o]), IdValues(ids, o + 1));
      KeptExact(ids[o]);
    }
  }

  lemma {:induction false} NumsKept(ids: seq<Id31>, o: nat)
    requires Groups(ids, o, 3)
    ensures CutAll(DirNumNumArray, NumValues(ids, o)) == NumValues(ids, o) <==> Narrow(ids, o, 3, 2)
    decreases |ids| - o
  {
    if ids[o] != 0 {
      NumsKept(ids, o + 3);
      CutSame(DirNumNumArray, KeyValue(ids[o], ids[o + 1], ids[o + 2], []), NumValues(ids, o + 3));
      KeptExact(ids[o + 2]);
    }
  }

  lemma {:induction false} StrsKept(st: Store, o: nat)
    requires Groups(st.attriddata, o, 2) && Strings(st, o)
    ensures CutAll(DirStrArray, StrValues(st, o)) == StrValues(st, o) <==> Narrow(st.attriddata, o, 2, 0)
    decreases |st.attriddata| - o
  {
    if st.attriddata[o] != 0 {
      StrsKept(st, o + 2);
      CutSame(DirStrArray, FirstStr(st, o), StrValues(st, o + 2));
      KeptExact(st.attriddata[o]);
    }
  }

  /** All of a value is kept exactly if numbers are not negative, and elements of arrays below 2^30. */
  lemma CutExact(t: KeyType, size: nat, st: Store, val: int)
    requires InStore(t, st, val) && (IsArray(t) ==> st.attriddata[val] != 0)
    ensures CutAll(t, Values(t, size, st, val)) == Values(t, size, st, val) <==> Fits(t, st, val)
  {
    hide Narrow, IdValues, NumValues, StrValues, StrEnd, FetchBinary;
    if IsNumber(t) {
      KeptExact(Unsigned(val));
      CutNothing(t);
      CutSame(t, Values(t, size, st, val)[0], []);
      assert Values(t, size, st, val) == [Values(t, size, st, val)[0]] + [];
    } else if t.IdArray? {
      IdsKept(st.attriddata, val);
    } else if t.DirNumNumArray? {
      NumsKept(st.attriddata, val);
    } else if t.DirStrArray? {
      StrsKept(st, val);
    } else {
      CutOthers(t, Values(t, size, st, val));
    }
  }

  /** Any pending value is written as one complete field with its values exactly if it is a number that is not negative, an array
   * that is not empty and whose marked ids are below 2^30, or of another type.
   */
  lemma SerialExact(t: KeyType, size: nat, st: Store, val: int)
    requires InStore(t, st, val)
    ensures Complete(t, size, Serial(t, st, val), Values(t, size, st, val)) <==> Fits(t, st, val)
  {
    if IsArray(t) && st.attriddata[val] == 0 {
      EmptyArrayIsNoField(t, size, st, val, Values(t, size, st, val));
    } else {
      SerialComplete(t, size, st, val);
      CutExact(t, size, st, val);
    }
  }
}
