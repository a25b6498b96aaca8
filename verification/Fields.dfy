/** Fields inside a larger blob: fetching depends only on the bytes of the field (src/repopack.h). */
module Fields {
  import opened Bytes
  import opened Packing

  lemma ByteAt(data: seq<Byte>, off: nat, f: seq<Byte>, p: nat)
    requires Starts(data, off, f) && p < |f|
    ensures off + p < |data| && data[off + p] == f[p]
  {
    assert data[off..off + |f|][p] == f[p];
  }

  lemma {:induction false} LeadShift(data: seq<Byte>, off: nat, f: seq<Byte>, p: nat, x: nat)
    requires Starts(data, off, f) && Lead(f, p, x).Some?
    ensures Lead(data, off + p, x) == Some((Lead(f, p, x).value.0, off + Lead(f, p, x).value.1))
    ensures data[off + Lead(f, p, x).value.1] == f[Lead(f, p, x).value.1]
    decreases |f| - p
  {
    ByteAt(data, off, f, p);
    if f[p] >= 128 {
      LeadShift(data, off, f, p + 1, x * 128 + (f[p] - 128));
    }
  }

  lemma {:induction false} StrEndShift(data: seq<Byte>, off: nat, f: seq<Byte>, p: nat)
    requires Starts(data, off, f) && StrEnd(f, p).Some?
    ensures StrEnd(data, off + p) == Some(off + StrEnd(f, p).value)
    decreases |f| - p
  {
    ByteAt(data, off, f, p);
    if f[p] != 0 { StrEndShift(data, off, f, p + 1); }
  }

  lemma SliceShift(data: seq<Byte>, off: nat, f: seq<Byte>, lo: nat, hi: nat)
    requires Starts(data, off, f) && lo <= hi <= |f|
    ensures data[off + lo..off + hi] == f[lo..hi]
  {
    var a, b := data[off + lo..off + hi], f[lo..hi];
    forall k | 0 <= k < hi - lo ensures a[k] == b[k] {
      ByteAt(data, off, f, lo + k);
    }
  }

  lemma GetIdShift(data: seq<Byte>, off: nat, f: seq<Byte>, p: nat)
    requires Starts(data, off, f) && GetId(f, p).Some?
    ensures GetId(data, off + p) == Some((GetId(f, p).value.0, off + GetId(f, p).value.1))
  {
    hide Lead;
    LeadShift(data, off, f, p, 0);
  }

  lemma GetIdEofShift(data: seq<Byte>, off: nat, f: seq<Byte>, p: nat)
    requires Starts(data, off, f) && GetIdEof(f, p).Some?
    ensures GetIdEof(data, off + p) == Some((GetIdEof(f, p).value.0, off + GetIdEof(f, p).value.1, GetIdEof(f, p).value.2))
  {
    hide Lead;
    LeadShift(data, off, f, p, 0);
  }

  function Moved(r: Option<Fetched>, off: nat): Option<Fetched> {
    if r.None? then None else Some(r.value.(dp := off + r.value.dp))
  }

  lemma SimpleShift(t: KeyType, size: nat, data: seq<Byte>, off: nat, f: seq<Byte>, p: nat)
    requires t.Str? || t.Id? || t.Dir? || t.Num? || t.IdArray? || t.Md5? || t.Sha1? || t.Sha256?
    requires p <= |f| && Starts(data, off, f) && Fetch(t, size, f, p).Some?
    ensures off + p <= |data| && Fetch(t, size, data, off + p) == Moved(Fetch(t, size, f, p), off)
  {
    hide Lead, StrEnd, GetId, GetIdEof;
    match t
    case Str =>
      StrEndShift(data, off, f, p);
      SliceShift(data, off, f, p, StrEnd(f, p).value);
    case Id => GetIdShift(data, off, f, p);
    case Dir => GetIdShift(data, off, f, p);
    case Num => GetIdShift(data, off, f, p);
    case IdArray => GetIdEofShift(data, off, f, p);
    case Md5 => SliceShift(data, off, f, p, p + 16);
    case Sha1 => SliceShift(data, off, f, p, p + 20);
    case Sha256 => SliceShift(data, off, f, p, p + 32);
  }

  lemma U32Shift(data: seq<Byte>, off: nat, f: seq<Byte>, p: nat)
    requires Starts(data, off, f) && FetchU32(f, p).Some?
    ensures FetchU32(data, off + p) == Moved(FetchU32(f, p), off)
  {
    ByteAt(data, off, f, p);
    ByteAt(data, off, f, p + 1);
    ByteAt(data, off, f, p + 2);
    ByteAt(data, off, f, p + 3);
  }

  lemma BinaryShift(data: seq<Byte>, off: nat, f: seq<Byte>, p: nat)
    requires Starts(data, off, f) && FetchBinary(f, p).Some?
    ensures FetchBinary(data, off + p) == Moved(FetchBinary(f, p), off)
  {
    hide GetId;
    GetIdShift(data, off, f, p);
    var (n, q) := GetId(f, p).value;
    SliceShift(data, off, f, q, q + n);
  }

  lemma DirStrShift(data: seq<Byte>, off: nat, f: seq<Byte>, p: nat)
    requires Starts(data, off, f) && FetchDirStr(f, p).Some?
    ensures FetchDirStr(data, off + p) == Moved(FetchDirStr(f, p), off)
  {
    hide GetIdEof, StrEnd;
    GetIdEofShift(data, off, f, p);
    var q := GetIdEof(f, p).value.1;
    StrEndShift(data, off, f, q);
    SliceShift(data, off, f, q, StrEnd(f, q).value);
  }

  lemma DirNumNumShift(data: seq<Byte>, off: nat, f: seq<Byte>, p: nat)
    requires Starts(data, off, f) && FetchDirNumNum(f, p).Some?
    ensures FetchDirNumNum(data, off + p) == Moved(FetchDirNumNum(f, p), off)
  {
    hide GetId, GetIdEof;
    GetIdShift(data, off, f, p);
    var q := GetId(f, p).value.1;
    GetIdShift(data, off, f, q);
    GetIdEofShift(data, off, f, GetId(f, q).value.1);
  }

  lemma FetchShift(t: KeyType, size: nat, data: seq<Byte>, off: nat, f: seq<Byte>, p: nat)
    requires p <= |f| && Starts(data, off, f) && Fetch(t, size, f, p).Some?
    ensures off + p <= |data| && Fetch(t, size, data, off + p) == Moved(Fetch(t, size, f, p), off)
  {
    hide FetchU32, FetchBinary, FetchDirStr, FetchDirNumNum, FetchStr, FetchId, FetchNum, FetchElem, Blob;
    if t.U32? {
      U32Shift(data, off, f, p);
    } else if t.Binary? {
      BinaryShift(data, off, f, p);
    } else if t.DirStrArray? {
      DirStrShift(data, off, f, p);
    } else if t.DirNumNumArray? {
      DirNumNumShift(data, off, f, p);
    } else if t.Void? || t.Constant? || t.ConstantId? {
    } else {
      SimpleShift(t, size, data, off, f, p);
    }
  }

  /** One step of fetching a field. */
  lemma Unfold(t: KeyType, size: nat, data: seq<Byte>, dp: nat)
    requires dp <= |data|
    ensures FetchAll(t, size, data, dp) == FetchRest(t, size, data, Fetch(t, size, data, dp), dp)
  {
    hide Fetch;
  }

  ghost function FetchRest(t: KeyType, size: nat, data: seq<Byte>, f: Option<Fetched>, dp: nat): Option<(seq<KeyValue>, nat)>
    requires f.Some? ==> f.value.dp <= |data|
  {
    if f.None? then None
    else if f.value.eof then Some(([f.value.kv], f.value.dp))
    else
      var rest := FetchAll(t, size, data, f.value.dp);
      if rest.None? then None else Some(([f.value.kv] + rest.value.0, rest.value.1))
  }

  /** Fetching a whole field inside a blob gives what fetching it alone gives. */
  lemma {:induction false} FetchAllShift(t: KeyType, size: nat, data: seq<Byte>, off: nat, f: seq<Byte>, p: nat)
    requires p <= |f| && Starts(data, off, f) && FetchAll(t, size, f, p).Some?
    ensures off + p <= |data|
    ensures FetchAll(t, size, data, off + p) == Some((FetchAll(t, size, f, p).value.0, off + FetchAll(t, size, f, p).value.1))
    decreases |f| - p
  {
    hide Fetch, FetchAll, Starts;
    Unfold(t, size, f, p);
    FetchShift(t, size, data, off, f, p);
    Unfold(t, size, data, off + p);
    var g := Fetch(t, size, f, p).value;
    if !g.eof {
      FetchAllShift(t, size, data, off, f, g.dp);
    }
  }

  /** The bytes are exactly one field of the type, with these values. */
  ghost predicate Complete(t: KeyType, size: nat, f: seq<Byte>, values: seq<KeyValue>) {
    FetchAll(t, size, f, 0) == Some((values, |f|))
  }

  /** The size of the key matters only for constants. */
  lemma {:induction false} SizeFree(t: KeyType, size: nat, size': nat, data: seq<Byte>, dp: nat)
    requires dp <= |data|
    ensures FetchAll(t, size, data, dp).Some? <==> FetchAll(t, size', data, dp).Some?
    ensures FetchAll(t, size, data, dp).Some? ==> FetchAll(t, size, data, dp).value.1 == FetchAll(t, size', data, dp).value.1
    decreases |data| - dp
  {
    hide FetchU32, FetchBinary, FetchDirStr, FetchDirNumNum, FetchStr, FetchId, FetchNum, FetchElem, Blob;
    var g := Fetch(t, size, data, dp);
    if g.Some? && !g.value.eof { SizeFree(t, size, size', data, g.value.dp); }
  }
}
