/** The page decompressor (unchecked_decompress_buf, src/repopage.c). */
module LzDecompress {
  import opened Bytes
  import opened LzFormat

  /** n single-byte copies in a row, each from o + 1 bytes back: falling through n cases of the copy switch. */
  method Burst(out: array<Byte>, op: nat, o: nat, n: nat)
    requires o < op && op + n <= out.Length
    modifies out
    ensures out[..op + n] == CopyBack(old(out[..op]), o, n)
  {
    hide CopyBack;
    var k := 0;
    while k < n
      invariant 0 <= k <= n
      invariant CopyBack(out[..op + k], o, n - k) == CopyBack(old(out[..op]), o, n)
    {
      ghost var text := out[..op + k];
      CopyOne(text, o, n - k);
      out[op + k] := out[op + k - 1 - o];
      assert out[..op + k + 1] == text + [text[|text| - 1 - o]];
      k := k + 1;
    }
    CopyNone(out[..op + k], o);
  }

  lemma CopyOne(text: seq<Byte>, o: nat, n: nat)
    requires o < |text| && n > 0
    ensures CopyBack(text, o, n) == CopyBack(text + [text[|text| - 1 - o]], o, n - 1)
  {
  }

  lemma CopyNone(text: seq<Byte>, o: nat)
    requires o < |text|
    ensures CopyBack(text, o, 0) == text
  {
  }

  /** The sixteen-fold unrolled loop: it goes round while the counter, less 16 each time, stays positive. */
  method BurstsOf16(out: array<Byte>, op: nat, o: nat, counter: int, ghost turns: nat, ghost text: seq<Byte>, ghost done: nat)
    returns (at: nat)
    requires 16 * turns - 16 < counter <= 16 * turns
    requires o < op && op + 16 * turns <= out.Length
    requires o < |text| && out[..op] == CopyBack(text, o, done)
    modifies out
    ensures at == op + 16 * turns
    ensures out[..at] == CopyBack(text, o, done + 16 * turns)
  {
    hide CopyBack;
    var first := counter;
    at := op;
    ghost var left, copied := turns, done;
    while first > 0
      invariant 16 * left - 16 < first <= 16 * left
      invariant op <= at && 0 <= left && at + 16 * left == op + 16 * turns && copied + 16 * left == done + 16 * turns
      invariant out[..at] == CopyBack(text, o, copied)
    {
      CopyBackSplit(text, o, copied, 16);
      Burst(out, at, o, 16);
      at, left, copied := at + 16, left - 1, copied + 16;
      first := first - 16;
    }
  }

  /** The copy switch: up to 18 cases fall through directly; longer copies enter the
   * unrolled loop in the middle, so that the first pass takes the remainder. */
  method CopyRef(out: array<Byte>, op: nat, o: nat, length: nat) returns (at: nat)
    requires o < op && op + length <= out.Length
    modifies out
    ensures at == op + length
    ensures out[..at] == CopyBack(old(out[..op]), o, length)
  {
    hide CopyBack;
    if length <= 18 {
      Burst(out, op, o, length);
      at := op + length;
    } else {
      ghost var text := out[..op];
      var entry := if length % 16 == 0 then 16 else length % 16;
      Burst(out, op, o, entry);
      at := BurstsOf16(out, op + entry, o, length - 16, (length - entry) / 16, text, entry);
    }
  }

  /** Read a back reference whose first byte is at ip - 1. */
  method ReadRef(src: seq<Byte>, ip: nat) returns (length: nat, o: nat, next: nat)
    requires 1 <= ip <= |src| && src[ip - 1] >= 0xa0 && FirstToken(src[ip - 1..]).Some?
    ensures next > ip && FirstToken(src[ip - 1..]) == Some(Parsed(BackRef(length, o), next + 1 - ip))
  {
    ghost var s := src[ip - 1..];
    var first: int := src[ip - 1];
    if first / 16 < 12 {                    // c
      length, o, next := first % 8 + 2, Wide(src[ip], first / 8 % 4), ip + 1;
    } else if first / 16 < 14 {             // d
      length, o, next := first % 32 + 10, src[ip], ip + 1;
    } else if first / 16 == 14 {            // e
      length, o, next := first % 32 + 3, Wide(src[ip], src[ip + 1]), ip + 2;
    } else {
      first := first % 16;
      if first >= 8 {                       // g
        length, o := Wide(src[ip], first - 8) + 5, Wide(src[ip + 1], Wide(src[ip + 2], src[ip + 3]));
        next := ip + 4;
      } else {                              // f
        length, o := Wide(src[ip], first) + 19, Wide(src[ip + 1], src[ip + 2]);
        next := ip + 3;
      }
    }
  }

  /** The literal-run copy. */
  method CopyRun(src: seq<Byte>, ip: nat, out: array<Byte>, op: nat, l: nat)
    requires ip + l + 1 <= |src| && op + l + 1 <= out.Length
    modifies out
    ensures out[..op + l + 1] == old(out[..op]) + src[ip..ip + l + 1]
  {
    var k := 0;
    while k <= l
      invariant 0 <= k <= l + 1
      invariant out[..op + k] == old(out[..op]) + src[ip..ip + k]
    {
      out[op + k] := src[ip + k];
      k := k + 1;
    }
  }

  /** One turn of the decoding loop: read the token at ip and extend the text by it. */
  method DecodeOne(src: seq<Byte>, ip: nat, out: array<Byte>, op: nat) returns (ip': nat, op': nat)
    requires ip < |src| && op <= out.Length
    requires FirstToken(src[ip..]).Some?
    requires var next := Apply(out[..op], FirstToken(src[ip..]).value.token); next.Some? && |next.value| <= out.Length
    modifies out
    ensures ip' == ip + FirstToken(src[ip..]).value.used && op' <= out.Length
    ensures Some(out[..op']) == Apply(old(out[..op]), FirstToken(src[ip..]).value.token)
  {
    ghost var s := src[ip..];
    var first: int := src[ip];
    if first / 16 < 8 {                       // a
      out[op] := first;
      assert out[..op + 1] == old(out[..op]) + [first];
      ip', op' := ip + 1, op + 1;
    } else if first / 16 < 10 {               // b
      var l := first % 32;
      assert s[1..l + 2] == src[ip + 1..ip + 1 + l + 1];
      CopyRun(src, ip + 1, out, op, l);
      ip', op' := ip + l + 2, op + l + 1;
    } else {
      var length, o;
      length, o, ip' := ReadRef(src, ip + 1);
      op' := CopyRef(out, op, o, length);
    }
  }

  /** For input that decodes to a text fitting into out, the decompressor writes exactly that text. */
  method Decompress(src: seq<Byte>, out: array<Byte>) returns (n: nat)
    requires Decode(src, []).Some? && |Decode(src, []).value| <= out.Length
    modifies out
    ensures n <= out.Length && out[..n] == Decode(src, []).value
  {
    hide *;
    var ip := 0;
    n := 0;
    ghost var text := Decode(src, []);
    assert src[0..] == src && out[..0] == [];
    while ip < |src|
      invariant 0 <= ip <= |src| && n <= out.Length
      invariant Decode(src[ip..], out[..n]) == text
    {
      DecodeFirst(src, ip, out[..n]);
      ip, n := DecodeOne(src, ip, out, n);
    }
    assert src[ip..] == [];
    DecodeNothing(out[..n]);
  }
}
