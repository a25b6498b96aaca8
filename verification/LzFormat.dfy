/** The compressed page format, as the table at the head of src/repopage.c gives it.
 *
 * This is the reference both the compressor and the decompressor are proved against:
 * a byte string is read token by token, and each token extends the text read so far.
 */
module LzFormat {
  import opened Bytes

  /** A run of literal bytes, or len bytes copied from ofs + 1 bytes back. */
  datatype Token =
    | Literal(run: seq<Byte>)
    | BackRef(len: nat, ofs: nat)

  datatype Parsed = Parsed(token: Token, used: nat)

  /** low | high << 8 */
  function Wide(low: nat, high: nat): nat { low + 256 * high }

  /** The first token of s and how many bytes it takes; None when s is cut off. */
  ghost function FirstToken(s: seq<Byte>): (r: Option<Parsed>)
    requires s != []
    ensures r.Some? ==> 1 <= r.value.used <= |s|
    ensures r.Some? && r.value.token.Literal? ==> r.value.token.run != []
    ensures r.Some? && r.value.token.BackRef? ==> 2 <= r.value.token.len
  {
    var c := s[0];
    if c < 0x80 then                                        // a: 0LLLLLLL
      Some(Parsed(Literal([c]), 1))
    else if c < 0xa0 then                                   // b: 100lllll <l+1 bytes>
      var n := c % 32 + 1;
      if |s| < n + 1 then None else Some(Parsed(Literal(s[1..n + 1]), n + 1))
    else if c < 0xc0 then                                   // c: 101oolll <8o>
      if |s| < 2 then None
      else Some(Parsed(BackRef(c % 8 + 2, Wide(s[1], c / 8 % 4)), 2))
    else if c < 0xe0 then                                   // d: 110lllll <8o>
      if |s| < 2 then None
      else Some(Parsed(BackRef(c % 32 + 10, s[1]), 2))
    else if c < 0xf0 then                                   // e: 1110llll <8o> <8o>
      if |s| < 3 then None
      else Some(Parsed(BackRef(c % 16 + 3, Wide(s[1], s[2])), 3))
    else if c < 0xf8 then                                   // f: 11110lll <8l> <8o> <8o>
      if |s| < 4 then None
      else Some(Parsed(BackRef(Wide(s[1], c % 8) + 19, Wide(s[2], s[3])), 4))
    else                                                    // g: 11111lll <8l> <8o> <8o> <8o>
      if |s| < 5 then None
      else Some(Parsed(BackRef(Wide(s[1], c % 8) + 5, Wide(s[2], Wide(s[3], s[4]))), 5))
  }

  /** Append len bytes, each the byte ofs + 1 positions before it; the source may overlap the copy. */
  ghost function CopyBack(text: seq<Byte>, ofs: nat, len: nat): (r: seq<Byte>)
    requires ofs < |text|
    ensures |r| == |text| + len && text <= r
    decreases len
  {
    if len == 0 then text else CopyBack(text + [text[|text| - 1 - ofs]], ofs, len - 1)
  }

  ghost function Apply(text: seq<Byte>, t: Token): (r: Option<seq<Byte>>)
    ensures r.Some? ==> text <= r.value
  {
    match t
    case Literal(run) => Some(text + run)
    case BackRef(len, ofs) => if ofs < |text| then Some(CopyBack(text, ofs, len)) else None
  }

  /** The text that s stands for when text has been read already; None for malformed s. */
  ghost function Decode(s: seq<Byte>, text: seq<Byte>): (r: Option<seq<Byte>>)
    ensures r.Some? ==> text <= r.value
    decreases |s|
  {
    if s == [] then Some(text)
    else
      var p := FirstToken(s);
      if p.None? then None
      else
        var t := Apply(text, p.value.token);
        if t.None? then None else Decode(s[p.value.used..], t.value)
  }

  /** Bytes after the first token do not change it. */
  lemma FirstTokenPrefix(a: seq<Byte>, b: seq<Byte>)
    requires a != [] && FirstToken(a).Some?
    ensures FirstToken(a + b) == FirstToken(a)
  {
    var c := a[0];
    assert (a + b)[0] == c;
    if 0x80 <= c < 0xa0 {
      var n := c % 32 + 1;
      assert (a + b)[1..n + 1] == a[1..n + 1];
    }
  }

  /** Decoding a concatenation is decoding the parts one after the other. */
  lemma {:induction false} DecodeAppend(a: seq<Byte>, b: seq<Byte>, text: seq<Byte>)
    requires Decode(a, text).Some?
    ensures Decode(a + b, text) == Decode(b, Decode(a, text).value)
    decreases |a|
  {
    if a == [] {
      assert a + b == b;
    } else {
      FirstTokenPrefix(a, b);
      var p := FirstToken(a).value;
      assert (a + b)[p.used..] == a[p.used..] + b;
      DecodeAppend(a[p.used..], b, Apply(text, p.token).value);
    }
  }

  /** A text that decodes from position ip decodes by its first token and then from after it. */
  lemma DecodeFirst(s: seq<Byte>, ip: nat, text: seq<Byte>)
    requires ip < |s| && Decode(s[ip..], text).Some?
    ensures FirstToken(s[ip..]).Some?
    ensures var p := FirstToken(s[ip..]).value;
      var next := Apply(text, p.token);
      && ip + p.used <= |s| && next.Some?
      && Decode(s[ip + p.used..], next.value) == Decode(s[ip..], text)
      && |next.value| <= |Decode(s[ip..], text).value|
  {
    var p := FirstToken(s[ip..]).value;
    assert s[ip..][p.used..] == s[ip + p.used..];
    assert Apply(text, p.token).value <= Decode(s[ip..], text).value;
  }

  lemma DecodeNothing(text: seq<Byte>)
    ensures Decode([], text) == Some(text)
  {
  }

  /** One well-formed token decodes to its effect. */
  lemma DecodeToken(s: seq<Byte>, text: seq<Byte>)
    requires s != [] && FirstToken(s).Some? && FirstToken(s).value.used == |s|
    ensures Decode(s, text) == Apply(text, FirstToken(s).value.token)
  {
    assert s[|s|..] == [];
  }

  /** A string of bytes below 0x80 stands for itself. */
  lemma {:induction false} DecodeAscii(s: seq<Byte>, text: seq<Byte>)
    requires forall k :: 0 <= k < |s| ==> s[k] < 0x80
    ensures Decode(s, text) == Some(text + s)
    decreases |s|
  {
    if s == [] {
      assert text + s == text;
    } else {
      DecodeAscii(s[1..], text + [s[0]]);
      assert text + [s[0]] + s[1..] == text + s;
    }
  }

  /** Copying back over a repetition reproduces it. */
  lemma {:induction false} CopyBackRepeats(s: seq<Byte>, at: nat, ofs: nat, len: nat)
    requires ofs < at && at + len <= |s|
    requires s[at..at + len] == s[at - 1 - ofs..at - 1 - ofs + len]
    ensures CopyBack(s[..at], ofs, len) == s[..at + len]
    decreases len
  {
    if len > 0 {
      assert s[at] == s[at..at + len][0] == s[at - 1 - ofs];
      assert s[..at] + [s[at]] == s[..at + 1];
      assert s[at + 1..at + len] == s[at..at + len][1..] == s[at - ofs..at - 1 - ofs + len];
      CopyBackRepeats(s, at + 1, ofs, len - 1);
    }
  }

  /** Copying in two parts is copying once. */
  lemma {:induction false} CopyBackSplit(text: seq<Byte>, ofs: nat, m: nat, n: nat)
    requires ofs < |text|
    ensures CopyBack(CopyBack(text, ofs, m), ofs, n) == CopyBack(text, ofs, m + n)
    decreases m
  {
    if m > 0 {
      CopyBackSplit(text + [text[|text| - 1 - ofs]], ofs, m - 1, n);
    }
  }
}
