/** How numbers and values are packed into bytes (src/repopack.h; data_addid, data_addideof in ext/repo_write.c and src/repodata.c).
 *
 * A number is written seven bits at a time, most significant first, and every byte but the last
 * has bit 7 set. In an array the last byte of an element has six bits and bit 6 is set when
 * another element follows. A pointer is an index into the bytes.
 */
module Packing {
  import opened Bytes

  // ---- the format ----

  /** The leading bytes of a number. */
  function High(x: nat): (r: seq<Byte>)
    ensures forall k :: 0 <= k < |r| ==> r[k] >= 128
  {
    if x == 0 then [] else High(x / 128) + [x % 128 + 128]
  }

  function Varint(x: nat): (r: seq<Byte>)
    ensures r != []
  {
    High(x / 128) + [x % 128]
  }

  function VarEof(x: nat, eof: bool): (r: seq<Byte>)
    ensures r != []
  {
    High(x / 64) + [x % 64 + if eof then 0 else 64]
  }

  /** Read leading bytes: the value so far and the place of the byte that ends the number, unless the bytes run out. */
  function Lead(data: seq<Byte>, dp: nat, x: nat): (r: Option<(nat, nat)>)
    ensures r.Some? ==> dp <= r.value.1 < |data| && data[r.value.1] < 128
    decreases |data| - dp
  {
    if dp >= |data| then None
    else if data[dp] < 128 then Some((x, dp))
    else Lead(data, dp + 1, x * 128 + (data[dp] - 128))
  }

  function GetId(data: seq<Byte>, dp: nat): (r: Option<(nat, nat)>)
    ensures r.Some? ==> dp < r.value.1 <= |data|
  {
    var l := Lead(data, dp, 0);
    if l.None? then None else Some((l.value.0 * 128 + data[l.value.1], l.value.1 + 1))
  }

  /** Value, next place, and whether this was the last element. */
  function GetIdEof(data: seq<Byte>, dp: nat): (r: Option<(nat, nat, bool)>)
    ensures r.Some? ==> dp < r.value.1 <= |data|
  {
    var l := Lead(data, dp, 0);
    if l.None? then None else
      var c := data[l.value.1];
      Some((l.value.0 * 64 + c % 64, l.value.1 + 1, c < 64))
  }

  ghost predicate Starts(data: seq<Byte>, dp: nat, bytes: seq<Byte>) {
    dp + |bytes| <= |data| && data[dp..dp + |bytes|] == bytes
  }

  lemma StartsWith(data: seq<Byte>, dp: nat, a: seq<Byte>, b: seq<Byte>)
    requires Starts(data, dp, a + b)
    ensures Starts(data, dp, a) && Starts(data, dp + |a|, b)
  {
    assert data[dp..dp + |a|] == (a + b)[..|a|];
    assert data[dp + |a|..dp + |a + b|] == (a + b)[|a|..];
  }

  lemma StartsOne(data: seq<Byte>, dp: nat, c: Byte)
    requires Starts(data, dp, [c])
    ensures dp < |data| && data[dp] == c
  {
    assert data[dp..dp + 1][0] == c;
  }

  lemma {:induction false} LeadThrough(data: seq<Byte>, dp: nat, y: nat)
    requires Starts(data, dp, High(y))
    ensures Lead(data, dp, 0) == Lead(data, dp + |High(y)|, y)
  {
    if y != 0 {
      var h, c := High(y / 128), y % 128 + 128;
      StartsWith(data, dp, h, [c]);
      LeadThrough(data, dp, y / 128);
      StartsOne(data, dp + |h|, c);
      assert (y / 128) * 128 + y % 128 == y;
    }
  }

  /** Reading back what was written gives the number and the place behind it. */
  lemma IdRoundTrip(data: seq<Byte>, dp: nat, x: nat)
    requires Starts(data, dp, Varint(x))
    ensures GetId(data, dp) == Some((x, dp + |Varint(x)|))
  {
    var h := High(x / 128);
    StartsWith(data, dp, h, [x % 128]);
    LeadThrough(data, dp, x / 128);
    StartsOne(data, dp + |h|, x % 128);
  }

  lemma IdEofRoundTrip(data: seq<Byte>, dp: nat, x: nat, eof: bool)
    requires Starts(data, dp, VarEof(x, eof))
    ensures GetIdEof(data, dp) == Some((x, dp + |VarEof(x, eof)|, eof))
  {
    var h, c := High(x / 64), x % 64 + if eof then 0 else 64;
    StartsWith(data, dp, h, [c]);
    LeadThrough(data, dp, x / 64);
    StartsOne(data, dp + |h|, c);
    assert c % 64 == x % 64;
    assert (x / 64) * 64 + x % 64 == x;
  }

  // ---- the writers ----

  const BIT7: nat := 0x80
  const BIT14: nat := 0x4000
  const BIT21: nat := 0x20_0000
  const BIT28: nat := 0x1000_0000
  const BIT30: nat := 0x4000_0000
  const BIT31: nat := 0x8000_0000

  type Int32 = x: int | -0x8000_0000 <= x < 0x8000_0000

  /** x | 128 as a byte. */
  function More(x: nat): Byte { x % 128 + 128 }

  lemma HighParts(x: nat)
    requires x < BIT31
    ensures High(x / BIT7) ==
      (if x >= BIT28 then [More(x / BIT28)] else []) + (if x >= BIT21 then [More(x / BIT21)] else []) +
      (if x >= BIT14 then [More(x / BIT14)] else []) + (if x >= BIT7 then [More(x / BIT7)] else [])
  {
    var a, b, c := x / BIT7, x / BIT14, x / BIT21;
    assert a / 128 == b && b / 128 == c && c / 128 == x / BIT28 && x / BIT28 / 128 == 0;
    assert High(0) == [];
    assert High(x / BIT28) == if x / BIT28 == 0 then [] else [More(x / BIT28)];
    assert High(c) == if c == 0 then [] else High(x / BIT28) + [More(c)];
    assert High(b) == if b == 0 then [] else High(c) + [More(b)];
    assert High(a) == if a == 0 then [] else High(b) + [More(a)];
  }

  /** What data_addid writes: only non-negative numbers are written in full. */
  function IdCode(x: Int32): (r: seq<Byte>) {
    if x >= 0 then Varint(x) else [x % 128]
  }

  /** A number as a 32-bit integer. */
  function Wrap(x: nat): Int32
    requires x < 0x1_0000_0000
  {
    if x < BIT31 then x else x - 0x1_0000_0000
  }

  /** The sum of low bits and high bits, as a 32-bit integer. */
  function Wide(low: nat, high: nat): (r: Int32)
    requires low < 64 && high < 0x200_0000
    ensures r < BIT31 - 64 && if high < 0x100_0000 then r == low + high * 128 else r < -64 && r % 128 == low
  {
    Wrap(low + high * 128)
  }

  /** Make room for bit 6. */
  function Spread(x: nat): (r: Int32)
    requires x < BIT31
    ensures r < BIT31 - 64 && (x < BIT30 ==> r == x % 64 + x / 64 * 128) && (x >= BIT30 ==> r < -64 && r % 128 == x % 64)
  {
    if x >= 64 then Wide(x % 64, x / 64) else x
  }

  function EofCode(x: nat, eof: bool): seq<Byte>
    requires x < BIT31
  {
    IdCode(if eof then Spread(x) else Spread(x) + 64)
  }

  /** What remains of an array element that is written: from 2^30 on, its lowest six bits. */
  function Kept(x: nat): nat { if x < BIT30 then x else x % 64 }

  /** Elements of an array are written in full exactly below 2^30. */
  lemma EofCodeIs(x: nat, eof: bool)
    requires x < BIT31
    ensures EofCode(x, eof) == VarEof(Kept(x), eof) && (Kept(x) == x <==> x < BIT30)
  {
    var y: int := if eof then Spread(x) else Spread(x) + 64;
    var f := if eof then 0 else 64;
    if x < BIT30 {
      assert y == x / 64 * 128 + (x % 64 + f);
      assert y / 128 == x / 64 && y % 128 == x % 64 + f;
    } else {
      assert (Spread(x) + f) % 128 == x % 64 + f;
      assert High(0) == [];
    }
  }

  /** What remains of a number that is written: of a negative one, its lowest seven bits. */
  function KeptInt(x: Int32): nat { if x >= 0 then x else x % 128 }

  lemma IdCodeIs(x: Int32)
    ensures IdCode(x) == Varint(KeptInt(x))
  {
    assert High(0) == [];
  }

  /** The bytes of a number, most significant first. */
  method IdBytes(x: Int32) returns (dp: seq<Byte>)
    ensures dp == IdCode(x)
  {
    hide High;
    if x >= 0 { HighParts(x); }
    dp := [];
    if x >= BIT14 {
      if x >= BIT28 { dp := dp + [More(x / BIT28)]; }
      if x >= BIT21 { dp := dp + [More(x / BIT21)]; }
      dp := dp + [More(x / BIT14)];
    }
    if x >= BIT7 { dp := dp + [More(x / BIT7)]; }
    dp := dp + [x % 128];
  }

  /** A growing buffer of packed data (struct extdata). */
  class ExtData {
    var buf: seq<Byte>

    constructor ()
      ensures buf == []
    {
      buf := [];
    }

    /** data_addid */
    method AddId(x: Int32)
      modifies this
      ensures buf == old(buf) + IdCode(x)
    {
      var bytes := IdBytes(x);
      buf := buf + bytes;
    }

    /** data_addideof */
    method AddIdEof(x: nat, eof: bool)
      requires x < BIT31
      modifies this
      ensures buf == old(buf) + EofCode(x, eof)
    {
      AddId(if eof then Spread(x) else Spread(x) + 64);
    }

    /** data_addblob */
    method AddBlob(blob: seq<Byte>)
      modifies this
      ensures buf == old(buf) + blob
    {
      buf := buf + blob;
    }
  }

  // ---- the readers ----

  /** data_read_id */
  method ReadId(data: seq<Byte>, dp0: nat) returns (x: nat, dp: nat)
    requires GetId(data, dp0).Some?
    ensures GetId(data, dp0) == Some((x, dp))
  {
    dp, x := dp0, 0;
    while data[dp] >= 128
      invariant dp0 <= dp < |data|
      invariant Lead(data, dp, x) == Lead(data, dp0, 0)
      decreases |data| - dp
    {
      x := x * 128 + (data[dp] - 128);
      dp := dp + 1;
    }
    x, dp := x * 128 + data[dp], dp + 1;
  }

  /** data_read_ideof */
  method ReadIdEof(data: seq<Byte>, dp0: nat) returns (x: nat, dp: nat, eof: bool)
    requires GetIdEof(data, dp0).Some?
    ensures GetIdEof(data, dp0) == Some((x, dp, eof))
  {
    dp, x := dp0, 0;
    while data[dp] >= 128
      invariant dp0 <= dp < |data|
      invariant Lead(data, dp, x) == Lead(data, dp0, 0)
      decreases |data| - dp
    {
      x := x * 128 + (data[dp] - 128);
      dp := dp + 1;
    }
    var c := data[dp];
    if c / 64 % 2 == 1 {
      c := c - 64;
      eof := false;
    } else {
      eof := true;
    }
    x, dp := x * 64 + c, dp + 1;
  }

  // ---- fields of every type ----

  datatype KeyType =
    | Void | Constant | ConstantId | Id | Num | U32 | Dir | Str | Binary
    | IdArray | RelIdArray | DirStrArray | DirNumNumArray | Md5 | Sha1 | Sha256
    | FixArray | FlexArray | Deleted

  datatype KeyValue = KeyValue(id: nat, num: nat, num2: nat, str: seq<Byte>)

  const NO_VALUE := KeyValue(0, 0, 0, [])

  /** The place of the next zero byte. */
  function StrEnd(data: seq<Byte>, dp: nat): (r: Option<nat>)
    ensures r.Some? ==> dp <= r.value < |data|
    decreases |data| - dp
  {
    if dp >= |data| then None else if data[dp] == 0 then Some(dp) else StrEnd(data, dp + 1)
  }

  /** A value, the place behind it, and whether it was the last of the field. */
  datatype Fetched = Fetched(kv: KeyValue, dp: nat, eof: bool)

  function Blob(data: seq<Byte>, dp: nat, n: nat): Option<Fetched> {
    if dp + n <= |data| then Some(Fetched(NO_VALUE.(str := data[dp..dp + n]), dp + n, true)) else None
  }

  function FetchStr(data: seq<Byte>, dp: nat): Option<Fetched> {
    var e := StrEnd(data, dp);
    if e.None? then None else Some(Fetched(NO_VALUE.(str := data[dp..e.value]), e.value + 1, true))
  }

  function FetchId(data: seq<Byte>, dp: nat): Option<Fetched> {
    var g := GetId(data, dp);
    if g.None? then None else Some(Fetched(NO_VALUE.(id := g.value.0), g.value.1, true))
  }

  function FetchNum(data: seq<Byte>, dp: nat): Option<Fetched> {
    var g := GetId(data, dp);
    if g.None? then None else Some(Fetched(NO_VALUE.(num := g.value.0), g.value.1, true))
  }

  function FetchU32(data: seq<Byte>, dp: nat): Option<Fetched> {
    if dp + 4 > |data| then None
    else
      var a: nat, b: nat, c: nat := data[dp], data[dp + 1], data[dp + 2];
      var n := a * 0x100_0000 + b * 0x1_0000 + c * 0x100 + data[dp + 3];
      Some(Fetched(NO_VALUE.(num := n), dp + 4, true))
  }

  function FetchBinary(data: seq<Byte>, dp: nat): Option<Fetched> {
    var g := GetId(data, dp);
    if g.None? || g.value.1 + g.value.0 > |data| then None
    else
      var (n, p) := g.value;
      Some(Fetched(NO_VALUE.(num := n, str := data[p..p + n]), p + n, true))
  }

  function FetchElem(data: seq<Byte>, dp: nat): Option<Fetched> {
    var g := GetIdEof(data, dp);
    if g.None? then None else Some(Fetched(NO_VALUE.(id := g.value.0), g.value.1, g.value.2))
  }

  function FetchDirStr(data: seq<Byte>, dp: nat): Option<Fetched> {
    var g := GetIdEof(data, dp);
    if g.None? then None
    else
      var (x, p, eof) := g.value;
      var e := StrEnd(data, p);
      if e.None? then None else Some(Fetched(NO_VALUE.(id := x, str := data[p..e.value]), e.value + 1, eof))
  }

  function FetchDirNumNum(data: seq<Byte>, dp: nat): Option<Fetched> {
    var d := GetId(data, dp);
    if d.None? then None
    else
      var n := GetId(data, d.value.1);
      if n.None? then None
      else
        var m := GetIdEof(data, n.value.1);
        if m.None? then None
        else Some(Fetched(KeyValue(d.value.0, n.value.0, m.value.0, []), m.value.1, m.value.2))
  }

  /** data_fetch of one value at dp; size is that of the key. None for data that ends too early and for types it cannot fetch. */
  function Fetch(t: KeyType, size: nat, data: seq<Byte>, dp: nat): (r: Option<Fetched>)
    requires dp <= |data|
    ensures r.Some? ==> dp <= r.value.dp <= |data| && (!r.value.eof ==> dp < r.value.dp)
  {
    match t
    case Void => Some(Fetched(NO_VALUE, dp, true))
    case Constant => Some(Fetched(NO_VALUE.(num := size), dp, true))
    case ConstantId => Some(Fetched(NO_VALUE.(id := size), dp, true))
    case Str => FetchStr(data, dp)
    case Id | Dir => FetchId(data, dp)
    case Num => FetchNum(data, dp)
    case U32 => FetchU32(data, dp)
    case Md5 => Blob(data, dp, 16)
    case Sha1 => Blob(data, dp, 20)
    case Sha256 => Blob(data, dp, 32)
    case Binary => FetchBinary(data, dp)
    case IdArray => FetchElem(data, dp)
    case DirStrArray => FetchDirStr(data, dp)
    case DirNumNumArray => FetchDirNumNum(data, dp)
    case _ => None
  }

  /** The values of a field, fetched until the last, and the place behind it. */
  function FetchAll(t: KeyType, size: nat, data: seq<Byte>, dp: nat): (r: Option<(seq<KeyValue>, nat)>)
    requires dp <= |data|
    ensures r.Some? ==> dp <= r.value.1 <= |data|
    decreases |data| - dp
  {
    var f := Fetch(t, size, data, dp);
    if f.None? then None
    else if f.value.eof then Some(([f.value.kv], f.value.dp))
    else
      var rest := FetchAll(t, size, data, f.value.dp);
      if rest.None? then None else Some(([f.value.kv] + rest.value.0, rest.value.1))
  }

  method SkipLead(data: seq<Byte>, dp0: nat) returns (dp: nat)
    requires Lead(data, dp0, 0).Some?
    ensures Lead(data, dp0, 0).value.1 == dp && dp < |data|
  {
    dp := dp0;
    ghost var x: nat := 0;
    while data[dp] >= 128
      invariant dp0 <= dp < |data|
      invariant Lead(data, dp, x) == Lead(data, dp0, 0)
      decreases |data| - dp
    {
      x := x * 128 + (data[dp] - 128);
      dp := dp + 1;
    }
  }

  method SkipStr(data: seq<Byte>, dp0: nat) returns (dp: nat)
    requires StrEnd(data, dp0).Some?
    ensures StrEnd(data, dp0) == Some(dp) && dp < |data|
  {
    dp := dp0;
    while data[dp] != 0
      invariant dp0 <= dp < |data| && StrEnd(data, dp) == StrEnd(data, dp0)
      decreases |data| - dp
    {
      dp := dp + 1;
    }
  }

  /** Skip an array of ids: every byte with bit 6 or 7 set, and one more. */
  method SkipIdArray(data: seq<Byte>, dp0: nat) returns (dp: nat)
    requires dp0 <= |data| && FetchAll(IdArray, 0, data, dp0).Some?
    ensures FetchAll(IdArray, 0, data, dp0).value.1 == dp
  {
    dp := dp0;
    ghost var start: nat, x: nat := dp0, 0;
    while data[dp] >= 64
      invariant dp0 <= start <= dp < |data|
      invariant FetchAll(IdArray, 0, data, start).Some?
      invariant FetchAll(IdArray, 0, data, start).value.1 == FetchAll(IdArray, 0, data, dp0).value.1
      invariant Lead(data, dp, x) == Lead(data, start, 0)
      decreases |data| - dp
    {
      if data[dp] >= 128 {
        x := x * 128 + (data[dp] - 128);
      } else {
        start, x := dp + 1, 0;
      }
      dp := dp + 1;
    }
    dp := dp + 1;
  }

  ghost predicate NumberAndStr(data: seq<Byte>, dp: nat) {
    Lead(data, dp, 0).Some? && StrEnd(data, Lead(data, dp, 0).value.1 + 1).Some?
  }

  /** The place of the last byte of a number, and that of the zero behind the string after it. */
  ghost function NumberEnd(data: seq<Byte>, dp: nat): (r: nat)
    requires NumberAndStr(data, dp)
    ensures dp <= r < |data| && data[r] < 128
  {
    Lead(data, dp, 0).value.1
  }

  ghost function AfterStr(data: seq<Byte>, dp: nat): (r: nat)
    requires NumberAndStr(data, dp)
    ensures dp < r <= |data|
  {
    StrEnd(data, Lead(data, dp, 0).value.1 + 1).value + 1
  }

  method SkipNumberAndStr(data: seq<Byte>, dp0: nat) returns (x: Byte, dp: nat)
    requires NumberAndStr(data, dp0)
    ensures x == data[NumberEnd(data, dp0)] && dp == AfterStr(data, dp0)
  {
    hide Lead, StrEnd;
    dp := SkipLead(data, dp0);
    x := data[dp];
    dp := SkipStr(data, dp + 1);
    dp := dp + 1;
  }

  lemma DirStrFetched(data: seq<Byte>, dp: nat)
    requires FetchDirStr(data, dp).Some?
    ensures NumberAndStr(data, dp) && FetchDirStr(data, dp).value.dp == AfterStr(data, dp)
    ensures FetchDirStr(data, dp).value.eof <==> data[NumberEnd(data, dp)] < 64
  {
    hide Lead, StrEnd;
  }

  lemma DirStrStep(data: seq<Byte>, dp: nat)
    requires dp <= |data| && FetchAll(DirStrArray, 0, data, dp).Some?
    ensures NumberAndStr(data, dp)
    ensures var x, e := data[NumberEnd(data, dp)], AfterStr(data, dp);
      && (x >= 64 ==> FetchAll(DirStrArray, 0, data, e).Some?)
      && FetchAll(DirStrArray, 0, data, dp).value.1 == if x < 64 then e else FetchAll(DirStrArray, 0, data, e).value.1
  {
    hide FetchDirStr, NumberAndStr, NumberEnd, AfterStr;
    assert Fetch(DirStrArray, 0, data, dp) == FetchDirStr(data, dp);
    DirStrFetched(data, dp);
  }

  method SkipDirStrArray(data: seq<Byte>, dp0: nat) returns (dp: nat)
    requires dp0 <= |data| && FetchAll(DirStrArray, 0, data, dp0).Some?
    ensures FetchAll(DirStrArray, 0, data, dp0).value.1 == dp
  {
    hide NumberAndStr, NumberEnd, AfterStr, FetchAll;
    dp := dp0;
    while true
      invariant dp0 <= dp <= |data| && FetchAll(DirStrArray, 0, data, dp).Some?
      invariant FetchAll(DirStrArray, 0, data, dp).value.1 == FetchAll(DirStrArray, 0, data, dp0).value.1
      decreases |data| - dp
    {
      DirStrStep(data, dp);
      var x;
      x, dp := SkipNumberAndStr(data, dp);
      if x / 64 % 2 == 0 { return; }
    }
  }

  ghost predicate ThreeNumbers(data: seq<Byte>, dp: nat) {
    && Lead(data, dp, 0).Some?
    && Lead(data, Lead(data, dp, 0).value.1 + 1, 0).Some?
    && Lead(data, Lead(data, Lead(data, dp, 0).value.1 + 1, 0).value.1 + 1, 0).Some?
  }

  /** The place of the last byte of three numbers. */
  ghost function ThirdEnd(data: seq<Byte>, dp: nat): (r: nat)
    requires ThreeNumbers(data, dp)
    ensures dp <= r < |data| && data[r] < 128
  {
    Lead(data, Lead(data, Lead(data, dp, 0).value.1 + 1, 0).value.1 + 1, 0).value.1
  }

  method SkipThree(data: seq<Byte>, dp0: nat) returns (dp: nat)
    requires ThreeNumbers(data, dp0)
    ensures dp == ThirdEnd(data, dp0)
  {
    hide Lead;
    dp := SkipLead(data, dp0);
    dp := SkipLead(data, dp + 1);
    dp := SkipLead(data, dp + 1);
  }

  lemma ThreeFetched(data: seq<Byte>, dp: nat)
    requires FetchDirNumNum(data, dp).Some?
    ensures ThreeNumbers(data, dp)
    ensures FetchDirNumNum(data, dp).value.dp == ThirdEnd(data, dp) + 1
    ensures FetchDirNumNum(data, dp).value.eof <==> data[ThirdEnd(data, dp)] < 64
  {
    hide Lead;
  }

  lemma DirNumNumStep(data: seq<Byte>, dp: nat)
    requires dp <= |data| && FetchAll(DirNumNumArray, 0, data, dp).Some?
    ensures ThreeNumbers(data, dp)
    ensures var e := ThirdEnd(data, dp);
      && (data[e] >= 64 ==> FetchAll(DirNumNumArray, 0, data, e + 1).Some?)
      && FetchAll(DirNumNumArray, 0, data, dp).value.1 ==
         if data[e] < 64 then e + 1 else FetchAll(DirNumNumArray, 0, data, e + 1).value.1
  {
    hide FetchDirNumNum, ThreeNumbers, ThirdEnd;
    assert Fetch(DirNumNumArray, 0, data, dp) == FetchDirNumNum(data, dp);
    ThreeFetched(data, dp);
  }

  method SkipDirNumNumArray(data: seq<Byte>, dp0: nat) returns (dp: nat)
    requires dp0 <= |data| && FetchAll(DirNumNumArray, 0, data, dp0).Some?
    ensures FetchAll(DirNumNumArray, 0, data, dp0).value.1 == dp
  {
    hide ThreeNumbers, ThirdEnd, FetchAll;
    dp := dp0;
    while true
      invariant dp0 <= dp <= |data| && FetchAll(DirNumNumArray, 0, data, dp).Some?
      invariant FetchAll(DirNumNumArray, 0, data, dp).value.1 == FetchAll(DirNumNumArray, 0, data, dp0).value.1
      decreases |data| - dp
    {
      DirNumNumStep(data, dp);
      dp := SkipThree(data, dp);
      if data[dp] / 64 % 2 == 0 {
        return dp + 1;
      }
      dp := dp + 1;
    }
  }

  /** Types that data_fetch can fetch; of the others, relation arrays are laid out like id arrays. */
  function Layout(t: KeyType): KeyType { if t == RelIdArray then IdArray else t }

  /** data_skip: exactly to where repeated fetching ends; no place for types it does not know. */
  method Skip(t: KeyType, data: seq<Byte>, dp: nat) returns (r: Option<nat>)
    requires dp <= |data|
    requires !t.Deleted? && !t.FixArray? && !t.FlexArray? ==> FetchAll(Layout(t), 0, data, dp).Some?
    ensures !t.Deleted? && !t.FixArray? && !t.FlexArray? ==> r == Some(FetchAll(Layout(t), 0, data, dp).value.1)
    ensures t.Deleted? ==> r == Some(dp)
    ensures t.FixArray? || t.FlexArray? ==> r == None
  {
    var p;
    match t
    case Void | Constant | ConstantId | Deleted => return Some(dp);
    case Id | Num | Dir => p := SkipLead(data, dp); return Some(p + 1);
    case U32 => return Some(dp + 4);
    case Md5 => return Some(dp + 16);
    case Sha1 => return Some(dp + 20);
    case Sha256 => return Some(dp + 32);
    case IdArray | RelIdArray => p := SkipIdArray(data, dp); return Some(p);
    case Str => p := SkipStr(data, dp); return Some(p + 1);
    case Binary =>
      var len;
      len, p := ReadId(data, dp);
      return Some(p + len);
    case DirStrArray => p := SkipDirStrArray(data, dp); return Some(p);
    case DirNumNumArray => p := SkipDirNumNumArray(data, dp); return Some(p);
    case _ => return None;
  }
}
