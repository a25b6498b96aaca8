/** The page compressor (compress_buf, src/repopage.c).
 *
 * Matches are found through a hash table of three-byte strings and a chain of
 * earlier positions with the same hash. Both hold sixteen-bit positions; what
 * they hold only decides how well the page compresses, never what it decodes to.
 */
module LzCompress {
  import opened Bytes
  import opened LzFormat
  import opened LzDecompress

  type Ref = r: int | 0 <= r < 65536

  const HS: nat := 65536

  /** mlen bytes at io repeat those mofs + 1 positions earlier. */
  ghost predicate IsMatch(src: seq<Byte>, io: nat, mlen: nat, mofs: nat) {
    && mofs < io && io + mlen <= |src|
    && src[io..io + mlen] == src[io - 1 - mofs..io - 1 - mofs + mlen]
  }

  lemma ShorterMatch(src: seq<Byte>, io: nat, mlen: nat, mofs: nat, m: nat)
    requires IsMatch(src, io, mlen, mofs) && m <= mlen
    ensures IsMatch(src, io, m, mofs)
  {
    assert src[io..io + m] == src[io..io + mlen][..m];
    assert src[io - 1 - mofs..io - 1 - mofs + m] == src[io - 1 - mofs..io - 1 - mofs + mlen][..m];
  }

  lemma LongerMatch(src: seq<Byte>, io: nat, mlen: nat, mofs: nat)
    requires IsMatch(src, io, mlen, mofs) && io + mlen < |src| && src[io + mlen] == src[io - 1 - mofs + mlen]
    ensures IsMatch(src, io, mlen + 1, mofs)
  {
    assert src[io..io + mlen + 1] == src[io..io + mlen] + [src[io + mlen]];
    assert src[io - 1 - mofs..io - mofs + mlen] == src[io - 1 - mofs..io - 1 - mofs + mlen] + [src[io - 1 - mofs + mlen]];
  }

  /** The sixteen-bit hash of three bytes. */
  function Hash(a: Byte, b: Byte, c: Byte): Ref {
    var h := (a as bv32) | ((b as bv32) << 8) | ((c as bv32) << 16);
    var g := (h ^ (h << 5) ^ (h >> 5)) - h * 5;
    (g & 0xffff) as bv16 as int
  }

  lemma RepeatsHere(src: seq<Byte>, try_: nat, io: nat, m: nat)
    requires try_ < io && io + m <= |src| && src[try_..try_ + m] == src[io..io + m]
    ensures IsMatch(src, io, m, io - try_ - 1)
  {
  }

  /** Extend a match of m bytes between try and io as far as it goes. */
  method Extend(src: seq<Byte>, try_: nat, io: nat, m: nat) returns (len: nat)
    requires try_ < io && IsMatch(src, io, m, io - try_ - 1)
    ensures m <= len && IsMatch(src, io, len, io - try_ - 1)
  {
    len := m;
    while io + len < |src| && src[try_ + len] == src[io + len]
      invariant m <= len && IsMatch(src, io, len, io - try_ - 1)
    {
      LongerMatch(src, io, len, io - try_ - 1);
      len := len + 1;
    }
  }

  /** Search up to twelve chain links for a match at io: first any match of two bytes,
   * then ever longer ones. The comparison of try with -1 in the source is always unequal,
   * since the sixteen-bit entries are widened before the comparison. */
  method FindMatch(src: seq<Byte>, io: nat, start: Ref, hnext: array<Ref>) returns (mlen: nat, mofs: nat)
    requires io + 2 < |src| && hnext.Length == 65536
    ensures mlen > 0 ==> 2 <= mlen && IsMatch(src, io, mlen, mofs)
  {
    hide IsMatch;
    var try_: Ref, tries := start, 0;
    mlen, mofs := 0, 0;
    while tries < 12
      invariant mlen == 0 && tries <= 12
    {
      if try_ < io && src[try_] == src[io] && src[try_ + 1] == src[io + 1] {
        mlen, mofs := 2, io - try_ - 1;
        assert src[io..io + 2] == [src[io], src[io + 1]] == src[try_..try_ + 2];
        RepeatsHere(src, try_, io, 2);
        break;
      }
      try_ := hnext[try_];
      tries := tries + 1;
    }
    while tries < 12
      invariant mlen > 0 || tries == 12
      invariant mlen > 0 ==> 2 <= mlen && IsMatch(src, io, mlen, mofs)
      invariant tries < 12 ==> io + mlen < |src|
    {
      if try_ < io && src[try_ + mlen] == src[io + mlen] {
        if src[try_..try_ + mlen] == src[io..io + mlen] {
          RepeatsHere(src, try_, io, mlen);
          LongerMatch(src, io, mlen, io - try_ - 1);
          mlen := Extend(src, try_, io, mlen + 1);
          mofs := io - try_ - 1;
          if io + mlen >= |src| { break; }
        }
      }
      try_ := hnext[try_];
      tries := tries + 1;
    }
  }

  /** The length to encode for a match, 0 for none: cut at 2066, dropped when too short. */
  function Clamp(mlen: nat, mofs: nat, pendingLiterals: bool): (m: nat)
    requires mlen >= 2
    ensures m <= mlen
    ensures mofs < 65536 ==> m == 0 || 3 <= m <= 2066
  {
    if mlen == 2 && (pendingLiterals || mofs >= 1024) then 0
    else if mofs >= 65536 then
      (if mlen >= 2048 + 5 then 2047 + 5 else if mlen < 5 then 0 else mlen)
    else if mlen < 3 then 0
    else if mlen >= 2048 + 19 then 2047 + 19
    else mlen
  }

  /** Whether the head of the chain for io + 1 gives a match of at least mlen bytes. */
  method BetterAtNext(src: seq<Byte>, io: nat, mlen: nat, try_: Ref) returns (better: bool)
    requires io + 3 < |src|
    ensures better ==> try_ <= io && IsMatch(src, io + 1, mlen, io - try_)
  {
    better := false;
    if try_ < io + 1 && src[try_] == src[io + 1] && src[try_ + 1] == src[io + 2] {
      assert src[io + 1..io + 3] == [src[io + 1], src[io + 2]] == src[try_..try_ + 2];
      var len := Extend(src, try_, io + 1, 2);
      if len >= mlen {
        better := true;
        ShorterMatch(src, io + 1, len, io - try_, mlen);
      }
    }
  }

  /** Append bytes to the output unless that would fill it up to outLen. */
  method Emit(out: array<Byte>, oo: nat, outLen: nat, bytes: seq<Byte>) returns (ok: bool, oo': nat)
    requires outLen <= out.Length && oo <= out.Length
    modifies out
    ensures ok == (oo + |bytes| < outLen)
    ensures oo' == (if ok then oo + |bytes| else oo)
    ensures ok ==> out[..oo'] == old(out[..oo]) + bytes
  {
    ok, oo' := true, oo;
    if oo + |bytes| >= outLen {
      ok := false;
      return;
    }
    var k := 0;
    while k < |bytes|
      invariant 0 <= k <= |bytes|
      invariant out[..oo + k] == old(out[..oo]) + bytes[..k]
    {
      out[oo + k] := bytes[k];
      k := k + 1;
    }
    oo' := oo + |bytes|;
  }

  /** Short length, offset below 1024. */
  lemma FormC(mlen: nat, mofs: nat)
    requires 2 <= mlen <= 9 && mofs < 1024
    ensures 0xa0 <= 0xa0 + mofs / 256 * 8 + (mlen - 2) < 0xc0
    ensures FirstToken([0xa0 + mofs / 256 * 8 + (mlen - 2), mofs % 256]) == Some(Parsed(BackRef(mlen, mofs), 2))
  {
    var c := 0xa0 + mofs / 256 * 8 + (mlen - 2);
    assert c / 8 == 20 + mofs / 256 && c % 8 == mlen - 2;
    assert c / 8 % 4 == mofs / 256;
  }

  lemma FormD(mlen: nat, mofs: nat)
    requires 10 <= mlen <= 41 && mofs < 256
    ensures FirstToken([0xc0 + (mlen - 10), mofs]) == Some(Parsed(BackRef(mlen, mofs), 2))
  {
    assert (0xc0 + (mlen - 10)) % 32 == mlen - 10;
  }

  lemma FormE(mlen: nat, mofs: nat)
    requires 3 <= mlen <= 18 && mofs < 65536
    ensures FirstToken([0xe0 + (mlen - 3), mofs % 256, mofs / 256]) == Some(Parsed(BackRef(mlen, mofs), 3))
  {
    assert (0xe0 + (mlen - 3)) % 16 == mlen - 3;
  }

  lemma FormF(mlen: nat, mofs: nat)
    requires 19 <= mlen <= 2066 && mofs < 65536
    ensures FirstToken([0xf0 + (mlen - 19) / 256, (mlen - 19) % 256, mofs % 256, mofs / 256])
      == Some(Parsed(BackRef(mlen, mofs), 4))
  {
    assert (0xf0 + (mlen - 19) / 256) % 8 == (mlen - 19) / 256;
  }

  /** Write one back reference. It never takes more bytes than it stands for. The assertions are the source's. */
  method EmitRef(out: array<Byte>, oo: nat, outLen: nat, mlen: nat, mofs: nat)
    returns (ok: bool, oo': nat, ghost bytes: seq<Byte>)
    requires outLen <= out.Length && oo <= out.Length
    requires 3 <= mlen <= 2066 && mofs < 65536
    modifies out
    ensures 1 <= |bytes| <= mlen && FirstToken(bytes) == Some(Parsed(BackRef(mlen, mofs), |bytes|))
    ensures ok == (oo + |bytes| < outLen)
    ensures ok ==> oo' == oo + |bytes| && out[..oo'] == old(out[..oo]) + bytes
  {
    hide FirstToken;
    if mlen >= 2 && mlen <= 9 && mofs < 1024 {
      FormC(mlen, mofs);
      ok, oo' := Emit(out, oo, outLen, [0xa0 + mofs / 256 * 8 + (mlen - 2), mofs % 256]);
      bytes := [0xa0 + mofs / 256 * 8 + (mlen - 2), mofs % 256];
    } else if mlen >= 10 && mlen <= 41 && mofs < 256 {
      FormD(mlen, mofs);
      ok, oo' := Emit(out, oo, outLen, [0xc0 + (mlen - 10), mofs]);
      bytes := [0xc0 + (mlen - 10), mofs];
    } else if mofs >= 65536 {
      assert false;
    } else if mlen >= 3 && mlen <= 18 {
      assert mofs < 65536;
      FormE(mlen, mofs);
      ok, oo' := Emit(out, oo, outLen, [0xe0 + (mlen - 3), mofs % 256, mofs / 256]);
      bytes := [0xe0 + (mlen - 3), mofs % 256, mofs / 256];
    } else {
      assert mlen >= 19 && mlen <= 4095 + 19 && mofs < 65536;
      FormF(mlen, mofs);
      ok, oo' := Emit(out, oo, outLen, [0xf0 + (mlen - 19) / 256, (mlen - 19) % 256, mofs % 256, mofs / 256]);
      bytes := [0xf0 + (mlen - 19) / 256, (mlen - 19) % 256, mofs % 256, mofs / 256];
    }
  }

  /** The output so far decodes to the input up to position done. */
  ghost predicate Encoded(src: seq<Byte>, out: seq<Byte>, done: nat) {
    done <= |src| && Decode(out, []) == Some(src[..done])
  }

  lemma EncodedEnds(src: seq<Byte>, out: seq<Byte>)
    ensures Encoded(src, [], 0)
    ensures Encoded(src, out, |src|) <==> Decode(out, []) == Some(src)
  {
    assert src[..|src|] == src && src[..0] == [];
  }

  /** Appending bytes that stand for the next part of the input. */
  lemma EncodedMore(src: seq<Byte>, out: seq<Byte>, bytes: seq<Byte>, done: nat, done': nat)
    requires Encoded(src, out, done) && done' <= |src|
    requires Decode(bytes, src[..done]) == Some(src[..done'])
    ensures Encoded(src, out + bytes, done')
  {
    DecodeAppend(out, bytes, []);
  }

  lemma EncodedRef(src: seq<Byte>, out: seq<Byte>, bytes: seq<Byte>, io: nat, mlen: nat, mofs: nat)
    requires Encoded(src, out, io) && IsMatch(src, io, mlen, mofs)
    requires bytes != [] && FirstToken(bytes) == Some(Parsed(BackRef(mlen, mofs), |bytes|))
    ensures Encoded(src, out + bytes, io + mlen)
  {
    DecodeToken(bytes, src[..io]);
    CopyBackRepeats(src, io, mofs, mlen);
    EncodedMore(src, out, bytes, io, io + mlen);
  }

  lemma EncodedAscii(src: seq<Byte>, out: seq<Byte>, at: nat, n: nat)
    requires Encoded(src, out, at) && at + n <= |src|
    requires forall k :: at <= k < at + n ==> src[k] < 0x80
    ensures Encoded(src, out + src[at..at + n], at + n)
  {
    DecodeAscii(src[at..at + n], src[..at]);
    assert src[..at] + src[at..at + n] == src[..at + n];
    EncodedMore(src, out, src[at..at + n], at, at + n);
  }

  lemma EncodedRun(src: seq<Byte>, out: seq<Byte>, at: nat, n: nat)
    requires Encoded(src, out, at) && at + n <= |src| && 1 <= n <= 32
    ensures Encoded(src, out + ([0x80 + (n - 1)] + src[at..at + n]), at + n)
  {
    var bytes := [0x80 + (n - 1)] + src[at..at + n];
    assert bytes[1..n + 1] == src[at..at + n] && (0x80 + (n - 1)) % 32 == n - 1;
    DecodeToken(bytes, src[..at]);
    assert src[..at] + src[at..at + n] == src[..at + n];
    EncodedMore(src, out, bytes, at, at + n);
  }

  /** Write the pending literals: plain bytes as long as they are below 0x80, then runs of at most 32.
   * A run of k pending bytes takes at most k + 1 + (k - 1) / 32 bytes. */
  method EmitLiterals(src: seq<Byte>, litofs0: nat, end: nat, out: array<Byte>, oo: nat, outLen: nat) returns (ok: bool, oo': nat)
    requires litofs0 < end <= |src| && outLen <= out.Length && oo <= out.Length
    requires Encoded(src, out[..oo], litofs0)
    modifies out
    ensures ok ==> oo' < outLen && Encoded(src, out[..oo'], end)
    ensures ok ==> 32 * (oo' - oo) <= 33 * (end - litofs0) + 31
    ensures !ok ==> 32 * (outLen - oo) <= 33 * (end - litofs0) + 31
  {
    hide Encoded;
    var litofs, litlen := litofs0, end - litofs0;
    ok, oo' := true, oo;
    while litlen > 0
      invariant litofs0 <= litofs <= end && litofs + litlen == end
      invariant ok && oo <= oo' <= out.Length && (litlen == 0 ==> oo' < outLen)
      invariant Encoded(src, out[..oo'], litofs)
      invariant 32 * (oo' - oo) <= 33 * (litofs - litofs0) + (if litlen == 0 then 31 else 0)
    {
      var easy := PlainPrefix(src, litofs, litlen);
      if easy > 0 {
        EncodedAscii(src, out[..oo'], litofs, easy);
        ok, oo' := Emit(out, oo', outLen, src[litofs..litofs + easy]);
        if !ok { return; }
        litofs, litlen := litofs + easy, litlen - easy;
        if litlen == 0 { break; }
      }
      var n := if litlen <= 32 then litlen else 32;
      EncodedRun(src, out[..oo'], litofs, n);
      ok, oo' := Emit(out, oo', outLen, [0x80 + (n - 1)] + src[litofs..litofs + n]);
      if !ok { return; }
      litofs, litlen := litofs + n, litlen - n;
    }
  }

  /** How many of the next litlen bytes are below 0x80 before the first that is not. */
  method PlainPrefix(src: seq<Byte>, litofs: nat, litlen: nat) returns (easy: nat)
    requires litofs + litlen <= |src|
    ensures easy <= litlen && forall k :: litofs <= k < litofs + easy ==> src[k] < 0x80
    ensures easy < litlen ==> src[litofs + easy] >= 0x80
  {
    easy := 0;
    while easy < litlen && src[litofs + easy] < 0x80
      invariant 0 <= easy <= litlen
      invariant forall k :: litofs <= k < litofs + easy ==> src[k] < 0x80
    {
      easy := easy + 1;
    }
  }

  /** Enter position io into the chains if three bytes are left there. */
  method Chain(src: seq<Byte>, io: nat, htab: array<Ref>, hnext: array<Ref>)
    requires |src| <= 65536 && io + 2 < |src| && htab.Length == HS && hnext.Length == 65536 && htab != hnext
    modifies htab, hnext
  {
    var hval := Hash(src[io], src[io + 1], src[io + 2]);
    hnext[io] := htab[hval];
    htab[hval] := io;
  }

  /** Enter the remaining positions of a match and step over it. */
  method ChainRun(src: seq<Byte>, io0: nat, mlen0: nat, htab: array<Ref>, hnext: array<Ref>) returns (io: nat)
    requires |src| <= 65536 && mlen0 >= 1 && htab.Length == HS && hnext.Length == 65536 && htab != hnext
    modifies htab, hnext
    ensures io == io0 + mlen0
  {
    var mlen := mlen0 - 1;
    io := io0 + 1;
    while mlen > 0
      invariant io + mlen == io0 + mlen0
    {
      if io + 2 < |src| { Chain(src, io, htab, hnext); }
      mlen, io := mlen - 1, io + 1;
    }
  }

  /** Choose what to encode at io: the clamped best match, or 0 for a literal. */
  method Choose(src: seq<Byte>, io: nat, pendingLiterals: bool, start: Ref, htab: array<Ref>, hnext: array<Ref>)
    returns (mlen: nat, mofs: nat)
    requires |src| <= 65536 && io + 2 < |src| && htab.Length == HS && hnext.Length == 65536
    ensures mlen > 0 ==> 3 <= mlen <= 2066 && mofs < 65536 && IsMatch(src, io, mlen, mofs)
  {
    mlen, mofs := FindMatch(src, io, start, hnext);
    if mlen > 0 {
      ShorterMatch(src, io, mlen, mofs, Clamp(mlen, mofs, pendingLiterals));
      mlen := Clamp(mlen, mofs, pendingLiterals);
      if mlen > 0 && mlen < 2048 + 5 && io + 3 < |src| {
        var better := BetterAtNext(src, io, mlen, htab[Hash(src[io + 1], src[io + 2], src[io + 3])]);
        if better { mlen := 0; }
      }
    }
  }

  /** Where the pending literals start: the source keeps that position plus one, 0 for none. */
  function Pending(litofs: nat, io: nat): nat { if litofs > 0 then litofs - 1 else io }

  /** Flush the literals before the reference, then write the reference. */
  method EmitMatch(src: seq<Byte>, litofs: nat, io: nat, mlen: nat, mofs: nat, out: array<Byte>, oo: nat, outLen: nat)
    returns (ok: bool, oo': nat)
    requires litofs <= io < |src| && outLen <= out.Length && oo <= out.Length
    requires 3 <= mlen <= 2066 && mofs < 65536 && IsMatch(src, io, mlen, mofs)
    requires Encoded(src, out[..oo], Pending(litofs, io))
    requires 4 * oo <= 5 * Pending(litofs, io)
    modifies out
    ensures ok ==> oo' < outLen && Encoded(src, out[..oo'], io + mlen) && 4 * oo' <= 5 * (io + mlen)
    ensures !ok ==> 4 * outLen <= 5 * |src| + 3
  {
    ok, oo' := true, oo;
    if litofs > 0 {
      ok, oo' := EmitLiterals(src, litofs - 1, io, out, oo, outLen);
      if !ok { return; }
    }
    ghost var bytes, before := [], out[..oo'];
    ok, oo', bytes := EmitRef(out, oo', outLen, mlen, mofs);
    EncodedRef(src, before, bytes, io, mlen, mofs);
  }

  /** Compress src into at most outLen - 1 bytes of out; 0 means it did not fit (or src is empty).
   * What is written decodes to src. It always fits when outLen exceeds five quarters of the input. */
  method Compress(src: seq<Byte>, out: array<Byte>, outLen: nat) returns (n: nat)
    requires |src| <= 65536 && outLen <= out.Length
    modifies out
    ensures n > 0 ==> n < outLen && Decode(out[..n], []) == Some(src)
    ensures src != [] && 4 * outLen > 5 * |src| + 3 ==> n > 0
  {
    hide Encoded, Hash;
    var htab := new Ref[HS](_ => 65535);
    var hnext := new Ref[65536](_ => 65535);
    var oo: nat, io: nat, litofs: nat := 0, 0, 0;
    EncodedEnds(src, out[..oo]);
    while io + 2 < |src|
      invariant io <= |src| && litofs <= io && oo <= out.Length
      invariant oo == 0 || oo < outLen
      invariant 4 * oo <= 5 * Pending(litofs, io)
      invariant Encoded(src, out[..oo], Pending(litofs, io))
      invariant oo == 0 ==> Pending(litofs, io) == 0
    {
      var start := htab[Hash(src[io], src[io + 1], src[io + 2])];
      Chain(src, io, htab, hnext);
      var mlen, mofs := Choose(src, io, litofs > 0, start, htab, hnext);
      if mlen == 0 {
        if litofs == 0 { litofs := io + 1; }
        io := io + 1;
      } else {
        var ok;
        ok, oo := EmitMatch(src, litofs, io, mlen, mofs, out, oo, outLen);
        if !ok { return 0; }
        litofs := 0;
        io := ChainRun(src, io, mlen, htab, hnext);
      }
    }
    if io < |src| && litofs == 0 { litofs := io + 1; }
    io := |src|;
    if litofs > 0 {
      var ok;
      ok, oo := EmitLiterals(src, litofs - 1, io, out, oo, outLen);
      if !ok { return 0; }
    }
    EncodedEnds(src, out[..oo]);
    return oo;
  }

  /** Compressing a page and decompressing the result gives the page back. */
  method RoundTrip(page: seq<Byte>, cpage: array<Byte>, max: nat, back: array<Byte>) returns (clen: nat, len: nat)
    requires |page| <= 65536 && max <= cpage.Length && |page| <= back.Length && cpage != back
    modifies cpage, back
    ensures clen > 0 ==> clen < max && len == |page| && back[..len] == page
  {
    len := 0;
    clen := Compress(page, cpage, max);
    if clen > 0 {
      len := Decompress(cpage[..clen], back);
    }
  }
}
