/** The strings of a written file: each without the beginning it shares with the one before
 * (repo_write, ext/repo_write.c; repo_add_solv, src/repo_solv.c).
 */
module PrefixCode {
  import opened Bytes

  ghost predicate Plain(s: seq<Byte>) { 0 !in s }

  ghost predicate AllPlain(strings: seq<seq<Byte>>) { forall i :: 0 <= i < |strings| ==> Plain(strings[i]) }

  /** The string before string i; the empty one before the first. */
  function Before(strings: seq<seq<Byte>>, i: nat): seq<Byte>
    requires i <= |strings|
  {
    if i == 0 then [] else strings[i - 1]
  }

  /** What the strings take in memory. */
  function Space(strings: seq<seq<Byte>>): seq<Byte> {
    if strings == [] then [] else Space(strings[..|strings| - 1]) + strings[|strings| - 1] + [0]
  }

  /** What the strings take in the file, each with the length of the beginning it shares. */
  function Coded(strings: seq<seq<Byte>>, comp: seq<nat>): seq<Byte>
    requires |comp| == |strings| && Shared(strings, comp)
  {
    if strings == [] then []
    else
      var n, s, c := |strings| - 1, strings[|strings| - 1], comp[|strings| - 1];
      SharedFront(strings, comp, n);
      assert SharedAt(strings, comp, n);
      Coded(strings[..n], comp[..n]) + [c] + s[c..] + [0]
  }

  function Sum(comp: seq<nat>): nat {
    if comp == [] then 0 else Sum(comp[..|comp| - 1]) + comp[|comp| - 1]
  }

  /** comp[i] bytes of string i are those of the string before it, and fit into a byte. */
  ghost predicate Shared(strings: seq<seq<Byte>>, comp: seq<nat>) {
    |comp| <= |strings| && forall i :: 0 <= i < |comp| ==> SharedAt(strings, comp, i)
  }

  ghost predicate SharedAt(strings: seq<seq<Byte>>, comp: seq<nat>, i: nat)
    requires i < |comp| <= |strings|
  {
    && comp[i] <= 255 && comp[i] <= |strings[i]| && comp[i] <= |Before(strings, i)|
    && strings[i][..comp[i]] == Before(strings, i)[..comp[i]]
  }

  lemma SharedFront(strings: seq<seq<Byte>>, comp: seq<nat>, n: nat)
    requires Shared(strings, comp) && n <= |comp|
    ensures Shared(strings[..n], comp[..n])
  {
    forall i | 0 <= i < n ensures SharedAt(strings[..n], comp[..n], i) {
      assert SharedAt(strings, comp, i);
    }
  }

  // ---- writing ----

  /** How much two strings share, at most 255 bytes. */
  method CommonStart(s: seq<Byte>, t: seq<Byte>) returns (same: nat)
    ensures same <= 255 && same <= |s| && same <= |t| && s[..same] == t[..same]
    ensures same == 255 || same == |s| || same == |t| || s[same] != t[same]
  {
    same := 0;
    while same < 255
      invariant same <= 255 && same <= |s| && same <= |t| && s[..same] == t[..same]
    {
      if same == |s| || same == |t| || s[same] != t[same] { break; }
      same := same + 1;
    }
  }

  /** The shared beginnings, and their sum. */
  method Prefixes(strings: seq<seq<Byte>>) returns (comp: seq<nat>, compsum: nat)
    ensures |comp| == |strings| && Shared(strings, comp) && compsum == Sum(comp)
  {
    comp, compsum := [], 0;
    var i, old_str: seq<Byte> := 0, [];
    while i < |strings|
      invariant i <= |strings| && |comp| == i && Shared(strings, comp) && compsum == Sum(comp) && old_str == Before(strings, i)
    {
      var same := CommonStart(old_str, strings[i]);
      SharedMore(strings, comp, same);
      assert (comp + [same])[..i] == comp;
      comp := comp + [same];
      compsum := compsum + same;
      old_str := strings[i];
      i := i + 1;
    }
  }

  lemma SharedMore(strings: seq<seq<Byte>>, comp: seq<nat>, same: nat)
    requires Shared(strings, comp) && |comp| < |strings|
    requires same <= 255 && same <= |strings[|comp|]| && same <= |Before(strings, |comp|)|
    requires strings[|comp|][..same] == Before(strings, |comp|)[..same]
    ensures Shared(strings, comp + [same])
  {
    forall i | 0 <= i < |comp| + 1 ensures SharedAt(strings, comp + [same], i) {
      assert i < |comp| ==> SharedAt(strings, comp, i);
    }
  }

  /** Write the strings; the header says how many bytes they take. */
  method WriteStrings(strings: seq<seq<Byte>>, sizeid: nat) returns (size: nat, data: seq<Byte>, ghost comp: seq<nat>)
    requires sizeid == |Space(strings)|
    ensures |comp| == |strings| && Shared(strings, comp) && data == Coded(strings, comp) && size == |data|
  {
    var prefixcomp, compsum := Prefixes(strings);
    comp := prefixcomp;
    CodedSize(strings, comp);
    size := sizeid + |strings| - compsum;
    data := [];
    var i := 0;
    while i < |strings|
      invariant i <= |strings| && Shared(strings[..i], comp[..i]) && data == Coded(strings[..i], comp[..i])
    {
      assert SharedAt(strings, comp, i);
      SharedFront(strings, comp, i + 1);
      assert strings[..i + 1][..i] == strings[..i] && comp[..i + 1][..i] == comp[..i];
      data := data + [prefixcomp[i]];
      data := data + strings[i][prefixcomp[i]..] + [0];
      i := i + 1;
    }
    assert strings[..i] == strings && comp[..i] == comp;
  }

  /** The saved bytes, and one for the length of each beginning. */
  lemma {:induction false} CodedSize(strings: seq<seq<Byte>>, comp: seq<nat>)
    requires |comp| == |strings| && Shared(strings, comp)
    ensures |Coded(strings, comp)| + Sum(comp) == |Space(strings)| + |strings|
  {
    if strings != [] {
      var n := |strings| - 1;
      SharedFront(strings, comp, n);
      assert SharedAt(strings, comp, n);
      CodedSize(strings[..n], comp[..n]);
    }
  }

  // ---- reading ----

  /** The place of the next zero byte. */
  method FindZero(data: seq<Byte>, p: nat, ghost n: nat) returns (len: nat)
    requires p + n < |data| && data[p + n] == 0 && forall k :: p <= k < p + n ==> data[k] != 0
    ensures len == n
  {
    len := 0;
    while data[p + len] != 0
      invariant len <= n
      decreases n - len
    {
      len := len + 1;
    }
  }

  lemma PartsOf(data: seq<Byte>, pp: nat, s: seq<Byte>, c: nat)
    requires c <= |s| && c <= 255 && Plain(s) && pp + 1 + (|s| - c) < |data| && data[pp..pp + 2 + (|s| - c)] == [c] + s[c..] + [0]
    ensures data[pp] == c && data[pp + 1 + (|s| - c)] == 0 && data[pp + 1..pp + 2 + (|s| - c)] == s[c..] + [0]
    ensures forall k :: pp + 1 <= k < pp + 1 + (|s| - c) ==> data[k] != 0
  {
    var part := data[pp..pp + 2 + (|s| - c)];
    assert part[1..] == s[c..] + [0] && part[0] == c;
    assert data[pp + 1..pp + 2 + (|s| - c)] == part[1..];
    forall k | pp + 1 <= k < pp + 1 + (|s| - c) ensures data[k] != 0 {
      assert data[k] == part[k - pp] == s[c + (k - pp - 1)];
      assert s[c + (k - pp - 1)] in s;
    }
    assert data[pp + 1 + (|s| - c)] == part[1 + (|s| - c)];
  }

  /** Expand one string: what it shares with the string at old_str, and its rest. */
  method ExpandOne(data: seq<Byte>, pp: nat, space: seq<Byte>, old_str: nat, sizeid: nat, ghost s: seq<Byte>, ghost c: nat)
    returns (error: bool, pp': nat, space': seq<Byte>)
    requires c <= |s| && c <= 255 && Plain(s) && pp + 1 + (|s| - c) < |data| && data[pp..pp + 2 + (|s| - c)] == [c] + s[c..] + [0]
    requires old_str + c <= |space| && space[old_str..old_str + c] == s[..c]
    ensures error <==> |space| + |s| + 1 > sizeid
    ensures !error ==> pp' == pp + 2 + (|s| - c) && space' == space + s + [0]
  {
    PartsOf(data, pp, s, c);
    hide Plain;
    var same := data[pp];
    var len := FindZero(data, pp + 1, |s| - c);
    len := len + 1;
    if |space| + same + len > sizeid { return true, pp, space; }
    ExpandedParts(data, pp, space, old_str, s, c);
    space' := space + space[old_str..old_str + same];
    space' := space' + data[pp + 1..pp + 1 + len];
    pp', error := pp + 1 + len, false;
  }

  lemma ExpandedParts(data: seq<Byte>, pp: nat, space: seq<Byte>, old_str: nat, s: seq<Byte>, c: nat)
    requires c <= |s| && pp + 2 + (|s| - c) <= |data| && data[pp + 1..pp + 2 + (|s| - c)] == s[c..] + [0]
    requires old_str + c <= |space| && space[old_str..old_str + c] == s[..c]
    ensures space + space[old_str..old_str + c] + data[pp + 1..pp + 2 + (|s| - c)] == space + s + [0]
  {
    assert s == s[..c] + s[c..];
  }

  /** Where string i starts in the code. */
  ghost function Place(strings: seq<seq<Byte>>, comp: seq<nat>, i: nat): nat
    requires |comp| == |strings| && Shared(strings, comp) && i <= |strings|
  {
    SharedFront(strings, comp, i);
    |Coded(strings[..i], comp[..i])|
  }

  /** Everything the reader meets at string i. */
  lemma AtString(strings: seq<seq<Byte>>, comp: seq<nat>, i: nat, sizeid: nat)
    requires |comp| == |strings| && Shared(strings, comp) && AllPlain(strings) && i < |strings| && sizeid == |Space(strings)|
    ensures var s, c, pp, data := strings[i], comp[i], Place(strings, comp, i), Coded(strings, comp);
      && c <= 255 && c <= |s| && c <= |Before(strings, i)| && s[..c] == Before(strings, i)[..c] && Plain(s)
      && pp + 1 + (|s| - c) < |data| && data[pp..pp + 2 + (|s| - c)] == [c] + s[c..] + [0]
      && Place(strings, comp, i + 1) == pp + 2 + (|s| - c)
      && Space(strings[..i + 1]) == Space(strings[..i]) + s + [0] && |Space(strings[..i])| + |s| + 1 <= sizeid
      && Before(strings, i + 1) == s
  {
    FrontsOf(strings, comp, i + 1);
    OneOf(strings, comp, i);
    assert strings[..i + 1][..i] == strings[..i] && comp[..i + 1][..i] == comp[..i];
  }

  /** What two strings share is where the earlier one was put. */
  lemma StartAt(space: seq<Byte>, o: nat, last: seq<Byte>, c: nat)
    requires o + |last| <= |space| && space[o..o + |last|] == last && c <= |last|
    ensures space[o..o + c] == last[..c]
  {
  }

  lemma PutBehind(space: seq<Byte>, s: seq<Byte>)
    ensures (space + s + [0])[|space|..|space| + |s|] == s
  {
  }

  /** Expand the strings of a written file: no error, and exactly the strings. */
  method ExpandStrings(data: seq<Byte>, n: nat, sizeid: nat, ghost strings: seq<seq<Byte>>, ghost comp: seq<nat>)
    returns (error: bool, space: seq<Byte>)
    requires n == |strings| == |comp| && Shared(strings, comp) && AllPlain(strings)
    requires data == Coded(strings, comp) && sizeid == |Space(strings)|
    ensures !error && space == Space(strings)
  {
    var i: nat, pp: nat, old_str: nat := 0, 0, 0;
    ghost var last: seq<Byte> := [];
    error, space := false, [];
    assert strings[..0] == [] && Space([]) == [] && Place(strings, comp, 0) == 0;
    hide *;
    assert Before(strings, 0) == [] by { FirstBefore(strings); }
    while i < n
      invariant i <= n && !error && space == Space(strings[..i]) && pp == Place(strings, comp, i)
      invariant last == Before(strings, i) && old_str + |last| <= |space| && space[old_str..old_str + |last|] == last
    {
      var start := |space|;
      AtString(strings, comp, i, sizeid);
      StartAt(space, old_str, last, comp[i]);
      PutBehind(space, strings[i]);
      error, pp, space := ExpandOne(data, pp, space, old_str, sizeid, strings[i], comp[i]);
      old_str, last := start, strings[i];
      i := i + 1;
    }
    assert strings[..n] == strings;
    error := |space| != sizeid;
  }

  lemma FirstBefore(strings: seq<seq<Byte>>)
    ensures Before(strings, 0) == []
  {
  }

  /** The code of the first i strings begins the code of all, and so for the space. */
  lemma {:induction false} FrontsOf(strings: seq<seq<Byte>>, comp: seq<nat>, i: nat)
    requires |comp| == |strings| && Shared(strings, comp) && i <= |strings|
    ensures Shared(strings[..i], comp[..i]) && Coded(strings[..i], comp[..i]) <= Coded(strings, comp)
    ensures |Space(strings[..i])| <= |Space(strings)|
    decreases |strings|
  {
    SharedFront(strings, comp, i);
    if i == |strings| {
      assert strings[..i] == strings && comp[..i] == comp;
    } else {
      var n := |strings| - 1;
      SharedFront(strings, comp, n);
      FrontsOf(strings[..n], comp[..n], i);
      assert strings[..n][..i] == strings[..i] && comp[..n][..i] == comp[..i];
    }
  }

  /** The bytes of string i. */
  lemma OneOf(strings: seq<seq<Byte>>, comp: seq<nat>, i: nat)
    requires |comp| == |strings| && Shared(strings, comp) && i < |strings|
    ensures Shared(strings[..i], comp[..i]) && Shared(strings[..i + 1], comp[..i + 1]) && SharedAt(strings, comp, i)
    ensures var pp, c, s, data := |Coded(strings[..i], comp[..i])|, comp[i], strings[i], Coded(strings, comp);
      pp + 1 + (|s| - c) < |data| && data[pp..pp + 2 + (|s| - c)] == [c] + s[c..] + [0]
    ensures Space(strings[..i + 1]) == Space(strings[..i]) + strings[i] + [0]
  {
    SharedFront(strings, comp, i);
    SharedFront(strings, comp, i + 1);
    assert SharedAt(strings, comp, i);
    FrontsOf(strings, comp, i + 1);
    assert strings[..i + 1][..i] == strings[..i] && comp[..i + 1][..i] == comp[..i];
    var front, c, s, data := Coded(strings[..i], comp[..i]), comp[i], strings[i], Coded(strings, comp);
    assert Space(strings[..i + 1]) == Space(strings[..i]) + strings[i] + [0] && strings[..i + 1][i] == strings[i] && comp[..i + 1][i] == comp[i];
    hide Shared, Space;
    var more := front + [c] + s[c..] + [0];
    assert Coded(strings[..i + 1], comp[..i + 1]) == more;
    assert data[..|more|] == more;
    assert data[|front|..|more|] == more[|front|..];
    assert more[|front|..] == [c] + s[c..] + [0];
  }
}
