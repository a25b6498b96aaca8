/** Sorted, difference-coded dependency arrays (data_addidarray_sort, ext/repo_write.c; data_read_rel_idarray, src/repo_solv.c).
 *
 * The ids before the marker and those after it are sorted separately. Each id is written as its
 * difference to the one before, plus one; the marker is written as 0 and restarts the differences.
 */
module PackDeps {
  import opened Bytes
  import opened Packing
  import opened SatSort

  // ---- sorted lists ----

  ghost predicate Ascending(s: seq<nat>) { forall i, j :: 0 <= i < j < |s| ==> s[i] <= s[j] }

  function Insertion(x: nat, s: seq<nat>): seq<nat> {
    if s == [] || x <= s[0] then [x] + s else [s[0]] + Insertion(x, s[1..])
  }

  function Sorted(s: seq<nat>): seq<nat> {
    if s == [] then [] else Insertion(s[0], Sorted(s[1..]))
  }

  lemma HeadAndTail(s: seq<nat>)
    requires s != []
    ensures s == [s[0]] + s[1..] && multiset(s) == multiset{s[0]} + multiset(s[1..])
  {
    assert s == [s[0]] + s[1..];
  }

  lemma AscendingCons(x: nat, s: seq<nat>)
    requires Ascending(s) && forall y :: y in multiset(s) ==> x <= y
    ensures Ascending([x] + s)
  {
    forall k | 0 <= k < |s| ensures x <= s[k] {
      assert s[k] in multiset(s);
    }
  }

  lemma {:induction false} InsertionFacts(x: nat, s: seq<nat>)
    requires Ascending(s)
    ensures multiset(Insertion(x, s)) == multiset{x} + multiset(s)
    ensures Ascending(Insertion(x, s))
  {
    if s == [] || x <= s[0] {
      assert [x] + s == Insertion(x, s);
    } else {
      HeadAndTail(s);
      InsertionFacts(x, s[1..]);
      var r := Insertion(x, s[1..]);
      forall y | y in multiset(r) ensures s[0] <= y {
        if y != x { assert y in s[1..]; }
      }
      AscendingCons(s[0], r);
    }
  }

  lemma {:induction false} SortedFacts(s: seq<nat>)
    ensures multiset(Sorted(s)) == multiset(s) && Ascending(Sorted(s)) && |Sorted(s)| == |s|
  {
    if s != [] {
      SortedFacts(s[1..]);
      InsertionFacts(s[0], Sorted(s[1..]));
      HeadAndTail(s);
    }
    assert |Sorted(s)| == |multiset(Sorted(s))| == |multiset(s)|;
  }

  /** There is only one sorted order of the same numbers. */
  lemma {:induction false} AscendingUnique(s: seq<nat>, t: seq<nat>)
    requires Ascending(s) && Ascending(t) && multiset(s) == multiset(t)
    ensures s == t
  {
    assert |s| == |multiset(s)| == |multiset(t)| == |t|;
    if s != [] {
      HeadLeast(s, t);
      HeadLeast(t, s);
      HeadAndTail(s);
      HeadAndTail(t);
      var s', t' := s[1..], t[1..];
      assert multiset(s') == multiset(s) - multiset{s[0]} && multiset(t') == multiset(t) - multiset{t[0]};
      assert Ascending(s') && Ascending(t');
      AscendingUnique(s', t');
    }
  }

  lemma HeadLeast(s: seq<nat>, t: seq<nat>)
    requires Ascending(s) && multiset(s) == multiset(t) && s != [] && t != []
    ensures s[0] <= t[0]
  {
    assert t[0] in multiset(t);
    assert t[0] in s;
  }

  // ---- the code of an array ----

  /** What is written for an id after the id last. */
  function Diff(id: nat, m: nat, last: nat): int { if id == m then 0 else id - last + 1 }

  function Base(id: nat, m: nat): nat { if id == m then 0 else id }

  /** Every id is the marker or not below the one before it, and the differences are 32-bit numbers. */
  ghost predicate Rising(s: seq<nat>, m: nat, last: nat) {
    s != [] ==> 0 <= Diff(s[0], m, last) < BIT31 && (s[0] != m ==> s[0] >= last) && Rising(s[1..], m, Base(s[0], m))
  }

  function Code(s: seq<nat>, m: nat, last: nat): (r: seq<Byte>)
    requires s != [] && Rising(s, m, last)
  {
    var d := Diff(s[0], m, last);
    if |s| == 1 then EofCode(d, true) else EofCode(d, false) + Code(s[1..], m, Base(s[0], m))
  }

  /** The first place of the marker, or the length of the list. */
  function MarkerAt(s: seq<nat>, m: nat): (i: nat)
    ensures i <= |s| && m !in s[..i] && (i < |s| ==> s[i] == m)
  {
    if s == [] || s[0] == m then 0
    else
      var i := MarkerAt(s[1..], m) + 1;
      assert s[..i] == [s[0]] + s[1..][..i - 1];
      i
  }

  /** Both halves sorted, the marker in between. */
  function Halves(s: seq<nat>, m: nat): seq<nat> {
    var i := MarkerAt(s, m);
    if i == |s| then Sorted(s) else Sorted(s[..i]) + [m] + Sorted(s[i + 1..])
  }

  lemma {:induction false} AscendingRises(s: seq<nat>, m: nat, last: nat)
    requires Ascending(s) && (forall k :: 0 <= k < |s| ==> last <= s[k] < BIT31 - 1)
    ensures Rising(s, m, last)
  {
    if s != [] { AscendingRises(s[1..], m, Base(s[0], m)); }
  }

  /** A sorted list without the marker, then the marker, then a sorted list. */
  lemma {:induction false} HalvesRise(a: seq<nat>, m: nat, b: seq<nat>, last: nat)
    requires Ascending(a) && Ascending(b) && (forall k :: 0 <= k < |a| ==> last <= a[k] < BIT31 - 1)
    requires forall k :: 0 <= k < |b| ==> b[k] < BIT31 - 1
    ensures Rising(a + [m] + b, m, last)
  {
    if a == [] {
      AscendingRises(b, m, 0);
      assert (a + [m] + b)[1..] == b;
    } else {
      HalvesRise(a[1..], m, b, Base(a[0], m));
      assert (a + [m] + b)[1..] == a[1..] + [m] + b;
    }
  }

  lemma SortedBelow(s: seq<nat>, n: nat)
    requires forall k :: 0 <= k < |s| ==> s[k] < n
    ensures forall k :: 0 <= k < |Sorted(s)| ==> Sorted(s)[k] < n
  {
    SortedFacts(s);
    forall k | 0 <= k < |Sorted(s)| ensures Sorted(s)[k] < n {
      assert Sorted(s)[k] in multiset(s);
      assert Sorted(s)[k] in s;
    }
  }

  lemma HalvesRising(s: seq<nat>, m: nat)
    requires forall k :: 0 <= k < |s| ==> s[k] < BIT31 - 1
    ensures Rising(Halves(s, m), m, 0)
  {
    var i := MarkerAt(s, m);
    hide Sorted, Rising, MarkerAt;
    SortedFacts(s);
    SortedFacts(s[..i]);
    if i == |s| {
      SortedBelow(s, BIT31 - 1);
      AscendingRises(Sorted(s), m, 0);
    } else {
      SortedBelow(s[..i], BIT31 - 1);
      SortedBelow(s[i + 1..], BIT31 - 1);
      SortedFacts(s[i + 1..]);
      HalvesRise(Sorted(s[..i]), m, Sorted(s[i + 1..]), 0);
    }
  }

  // ---- the writer ----

  ghost function AllIds(): iset<nat> { iset x: nat | IsId(x) }

  ghost predicate IsId(x: nat) { true }

  /** A sorted permutation of a part, with the rest unchanged. */
  lemma PartSorted(s: seq<nat>, t: seq<nat>, lo: nat, hi: nat)
    requires lo <= hi <= |s| == |t| && multiset(s) == multiset(t)
    requires forall k :: 0 <= k < |s| && !(lo <= k < hi) ==> t[k] == s[k]
    requires forall i, j :: lo <= i < j < hi ==> t[i] <= t[j]
    ensures t == s[..lo] + Sorted(s[lo..hi]) + s[hi..]
  {
    hide Sorted;
    InsidePermuted(s, t, lo, hi);
    SortedFacts(s[lo..hi]);
    assert Ascending(t[lo..hi]);
    AscendingUnique(t[lo..hi], Sorted(s[lo..hi]));
    assert t == t[..lo] + t[lo..hi] + t[hi..];
    assert t[..lo] == s[..lo] && t[hi..] == s[hi..];
  }

  /** Sort n numbers from lo on (cmp_ids). */
  method SortPart(a: array<nat>, lo: nat, n: nat)
    requires lo + n <= a.Length
    modifies a
    ensures a[..] == old(a[..])[..lo] + Sorted(old(a[..])[lo..lo + n]) + old(a[..])[lo + n..]
  {
    var cmp := (x: nat, y: nat) => x - y;
    Sort(a, lo, n, cmp, AllIds());
    forall i, j | lo <= i < j < lo + n ensures a[i] <= a[j] {
      assert cmp(a[i], a[j]) <= 0;
    }
    PartSorted(old(a[..]), a[..], lo, lo + n);
  }

  lemma HalvesParts(s: seq<nat>, m: nat, i: nat)
    requires i == MarkerAt(s, m)
    ensures |Sorted(s[..i])| == i
    ensures i == |s| ==> Halves(s, m) == Sorted(s[..i]) + s[i..]
    ensures i < |s| ==> Halves(s, m) == (Sorted(s[..i]) + s[i..])[..i + 1] + Sorted((Sorted(s[..i]) + s[i..])[i + 1..])
  {
    hide Sorted, MarkerAt;
    SortedFacts(s[..i]);
    if i == |s| {
      assert s[..i] == s && s[i..] == [];
    } else {
      assert (Sorted(s[..i]) + s[i..])[..i + 1] == Sorted(s[..i]) + [m];
      assert (Sorted(s[..i]) + s[i..])[i + 1..] == s[i + 1..];
    }
  }

  method FindMarker(sids: array<nat>, marker: nat) returns (i: nat)
    ensures i == MarkerAt(sids[..], marker)
  {
    i := 0;
    ghost var s := sids[..];
    while i < sids.Length && sids[i] != marker
      invariant i <= sids.Length && MarkerAt(s, marker) == i + MarkerAt(s[i..], marker)
    {
      assert s[i..][1..] == s[i + 1..];
      i := i + 1;
    }
  }

  /** Sort the halves in place; halves of at most one id are left alone. */
  method SortHalves(sids: array<nat>, marker: nat)
    modifies sids
    ensures sids[..] == Halves(old(sids[..]), marker)
  {
    hide Sorted, MarkerAt, Halves;
    var len := sids.Length;
    var i := FindMarker(sids, marker);
    ghost var s := sids[..];
    HalvesParts(s, marker, i);
    if i > 1 { SortPart(sids, 0, i); } else { SmallSorted(s[..i]); }
    assert s[0..i] == s[..i] && s[..0] == [];
    ghost var t := Sorted(s[..i]) + s[i..];
    assert sids[..] == t;
    if len - i > 2 {
      SortPart(sids, i + 1, len - i - 1);
      assert t[i + 1..i + 1 + (len - i - 1)] == t[i + 1..] && t[i + 1 + (len - i - 1)..] == [];
    } else if i < len {
      SmallSorted(t[i + 1..]);
    }
  }

  lemma SmallSorted(s: seq<nat>)
    requires |s| <= 1
    ensures Sorted(s) == s
  {
    SortedFacts(s);
    AscendingUnique(Sorted(s), s);
  }

  function Mapped(ids: seq<nat>, need: nat -> nat): (r: seq<nat>)
    ensures |r| == |ids| && forall k :: 0 <= k < |ids| ==> r[k] == need(ids[k])
  {
    seq(|ids|, k requires 0 <= k < |ids| => need(ids[k]))
  }

  /** What data_addidarray_sort writes for a list. */
  function ArrayCode(s: seq<nat>, m: nat): seq<Byte>
    requires forall k :: 0 <= k < |s| ==> s[k] < BIT31 - 1
  {
    HalvesRising(s, m);
    if s == [] then Varint(0)
    else
      HalvesLength(s, m);
      Code(Halves(s, m), m, 0)
  }

  lemma HalvesLength(s: seq<nat>, m: nat)
    ensures |Halves(s, m)| == |s|
  {
    var i := MarkerAt(s, m);
    hide Sorted, MarkerAt;
    SortedFacts(s);
    SortedFacts(s[..i]);
    if i < |s| { SortedFacts(s[i + 1..]); }
  }

  lemma CodeFrom(s: seq<nat>, i: nat, m: nat, last: nat)
    requires i < |s| && Rising(s[i..], m, last)
    ensures 0 <= Diff(s[i], m, last) < BIT31
    ensures i + 1 == |s| ==> Code(s[i..], m, last) == EofCode(Diff(s[i], m, last), true)
    ensures i + 1 < |s| ==> Rising(s[i + 1..], m, Base(s[i], m))
    ensures i + 1 < |s| ==>
      Code(s[i..], m, last) == EofCode(Diff(s[i], m, last), false) + Code(s[i + 1..], m, Base(s[i], m))
  {
    assert s[i..][1..] == s[i + 1..];
  }

  /** Write the differences of sorted halves. */
  method AddDifferences(xd: ExtData, s: seq<nat>, marker: nat)
    requires s != [] && Rising(s, marker, 0)
    modifies xd
    ensures xd.buf == old(xd.buf) + Code(s, marker, 0)
  {
    hide Code, Rising, EofCode;
    var last: nat, i, len := 0, 0, |s|;
    assert s[0..] == s;
    while i < len - 1
      invariant 0 <= i < len && Rising(s[i..], marker, last)
      invariant xd.buf + Code(s[i..], marker, last) == old(xd.buf) + Code(s, marker, 0)
    {
      CodeFrom(s, i, marker, last);
      ghost var before, code := xd.buf, EofCode(Diff(s[i], marker, last), false);
      var id: int := s[i];
      if id == marker {
        id, last := 0, 0;
      } else {
        id := id - last + 1;
        last := s[i];
      }
      xd.AddIdEof(id, false);
      assert before + (code + Code(s[i + 1..], marker, last)) == xd.buf + Code(s[i + 1..], marker, last);
      i := i + 1;
    }
    CodeFrom(s, i, marker, last);
    xd.AddIdEof(if s[i] == marker then 0 else s[i] - last + 1, true);
  }

  method MapIds(ids: seq<nat>, need: nat -> nat) returns (sids: array<nat>)
    ensures fresh(sids) && sids[..] == Mapped(ids, need)
  {
    sids := new nat[|ids|];
    var len := 0;
    while len < |ids|
      invariant len <= |ids| && forall k :: 0 <= k < len ==> sids[k] == need(ids[k])
    {
      sids[len] := need(ids[len]);
      len := len + 1;
    }
  }

  /** data_addidarray_sort; no list at all writes nothing. need renumbers the ids, and the marker. */
  method AddIdArraySort(xd: ExtData, list: Option<seq<nat>>, need: nat -> nat, marker0: nat)
    requires list.Some? ==> forall k :: 0 <= k < |list.value| ==> need(list.value[k]) < BIT31 - 1
    modifies xd
    ensures xd.buf == old(xd.buf) +
      if list.None? then [] else ArrayCode(Mapped(list.value, need), need(marker0))
  {
    hide Halves, Rising, Code, Mapped;
    if list.None? { return; }
    var ids := list.value;
    if ids == [] {
      xd.AddId(0);
      return;
    }
    var sids := MapIds(ids, need);
    var marker := need(marker0);
    HalvesRising(sids[..], marker);
    HalvesLength(sids[..], marker);
    SortHalves(sids, marker);
    AddDifferences(xd, sids[..], marker);
  }

  // ---- the reader ----

  datatype RelRead = RelRead(ids: seq<nat>, dp: nat, error: bool)

  /** Parameters of the reader: the number of ids (0 for no check), how they are mapped, and the marker to put in. */
  datatype Reader = Reader(max: nat, mapping: nat -> nat, marker: nat)

  function Markers(rd: Reader): seq<nat> { if rd.marker != 0 then [rd.marker] else [] }

  function Put(front: seq<nat>, r: Option<RelRead>): Option<RelRead> {
    if r.None? then None else Some(r.value.(ids := front + r.value.ids))
  }

  /** The ids of the array at dp when last was the last id read. */
  function ReadRel(data: seq<Byte>, dp: nat, last: nat, rd: Reader): (r: Option<RelRead>)
    decreases |data| - dp
  {
    var g := GetIdEof(data, dp);
    if g.None? then None
    else
      var (x, p, eof) := g.value;
      if x == 0 then
        if eof then Some(RelRead([], p, false)) else Put(Markers(rd), ReadRel(data, p, 0, rd))
      else
        var id := last + (x - 1);
        if rd.max != 0 && id >= rd.max then Some(RelRead([], p, true))
        else if eof then Some(RelRead([rd.mapping(id)], p, false))
        else Put([rd.mapping(id)], ReadRel(data, p, id, rd))
  }

  lemma PutNil(r: Option<RelRead>)
    ensures Put([], r) == r
  {
    if r.Some? { assert [] + r.value.ids == r.value.ids; }
  }

  lemma PutPut(a: seq<nat>, b: seq<nat>, r: Option<RelRead>)
    ensures Put(a, Put(b, r)) == Put(a + b, r)
  {
    if r.Some? { assert a + (b + r.value.ids) == a + b + r.value.ids; }
  }

  /** data_read_rel_idarray */
  method ReadRelIdArray(data: seq<Byte>, dp0: nat, rd: Reader) returns (store: seq<nat>, dp: nat, error: bool)
    requires ReadRel(data, dp0, 0, rd).Some?
    ensures var r := ReadRel(data, dp0, 0, rd).value; store == r.ids + [0] && dp == r.dp && error == r.error
  {
    hide Lead;
    PutNil(ReadRel(data, dp0, 0, rd));
    store, dp, error := [], dp0, false;
    var last: nat := 0;
    while true
      invariant dp0 <= dp
      invariant ReadRel(data, dp, last, rd).Some?
      invariant Put(store, ReadRel(data, dp, last, rd)) == ReadRel(data, dp0, 0, rd)
      decreases |data| - dp
    {
            var x, eof;
      x, dp, eof := ReadIdEof(data, dp);
      if x == 0 {
        if eof { break; }
        PutPut(store, Markers(rd), ReadRel(data, dp, 0, rd));
        assert store + [] == store;
        if rd.marker != 0 { store := store + [rd.marker]; }
        last := 0;
      } else {
        x := last + (x - 1);
        last := x;
        if rd.max != 0 && x >= rd.max {
          error := true;
          break;
        }
        PutPut(store, [rd.mapping(x)], ReadRel(data, dp, x, rd));
        store := store + [rd.mapping(x)];
        if eof { break; }
      }
    }
    store := store + [0];
  }

  // ---- reading what was written ----

  /** What the reader makes of a list of numbers: the marker becomes its own, and a marker at the end is dropped. */
  function Back(s: seq<nat>, m: nat, rd: Reader): seq<nat> {
    if s == [] then []
    else if s[0] == m then (if |s| == 1 then [] else Markers(rd) + Back(s[1..], m, rd))
    else [rd.mapping(s[0])] + Back(s[1..], m, rd)
  }

  /** Every difference fits into 30 bits. */
  ghost predicate Narrow(s: seq<nat>, m: nat, last: nat) {
    s != [] ==> Diff(s[0], m, last) < BIT30 && Narrow(s[1..], m, Base(s[0], m))
  }

  ghost predicate InRange(s: seq<nat>, m: nat, max: nat) {
    max == 0 || forall k :: 0 <= k < |s| ==> s[k] == m || s[k] < max
  }

  /** One step of reading back a code: of a wide difference, only what is kept of it. */
  lemma CodeStep(data: seq<Byte>, dp: nat, s: seq<nat>, m: nat, last: nat)
    requires s != [] && Rising(s, m, last) && Starts(data, dp, Code(s, m, last))
    ensures var d := Diff(s[0], m, last); var n := |EofCode(d, |s| == 1)|;
      && GetIdEof(data, dp) == Some((Kept(d), dp + n, |s| == 1))
      && |Code(s, m, last)| == n + (if |s| == 1 then 0 else |Code(s[1..], m, Base(s[0], m))|)
      && (|s| > 1 ==> Rising(s[1..], m, Base(s[0], m)) && Starts(data, dp + n, Code(s[1..], m, Base(s[0], m))))
  {
    hide Spread, IdCode, GetIdEof, VarEof, Kept;
    var d := Diff(s[0], m, last);
    EofCodeIs(d, |s| == 1);
    if |s| > 1 {
      StartsWith(data, dp, EofCode(d, false), Code(s[1..], m, Base(s[0], m)));
    }
    IdEofRoundTrip(data, dp, Kept(d), |s| == 1);
  }

  /** Reading the code of a list gives the list. */
  lemma {:induction false} CodeRoundTrip(data: seq<Byte>, dp: nat, s: seq<nat>, m: nat, last: nat, rd: Reader)
    requires s != [] && Rising(s, m, last) && Narrow(s, m, last) && InRange(s, m, rd.max)
    requires Starts(data, dp, Code(s, m, last))
    ensures ReadRel(data, dp, last, rd) == Some(RelRead(Back(s, m, rd), dp + |Code(s, m, last)|, false))
    decreases |s|
  {
    hide GetIdEof, Code, Starts, EofCode, High;
    CodeStep(data, dp, s, m, last);
    if |s| > 1 {
      CodeRoundTrip(data, dp + |EofCode(Diff(s[0], m, last), false)|, s[1..], m, Base(s[0], m), rd);
    } else {
      assert Back(s[1..], m, rd) == [];
      assert [rd.mapping(s[0])] + [] == [rd.mapping(s[0])];
    }
  }

  lemma MappedStep(a: seq<nat>, mapping: nat -> nat)
    requires a != []
    ensures Mapped(a, mapping) == [mapping(a[0])] + Mapped(a[1..], mapping)
  {
  }

  lemma {:induction false} BackPlain(a: seq<nat>, m: nat, b: seq<nat>, rd: Reader)
    requires m !in a
    ensures Back(a + b, m, rd) == Mapped(a, rd.mapping) + Back(b, m, rd)
  {
    if a == [] {
      assert a + b == b;
    } else {
      BackPlain(a[1..], m, b, rd);
      MappedStep(a, rd.mapping);
      hide Mapped;
      assert (a + b)[1..] == a[1..] + b;
    }
  }

  lemma {:induction false} AscendingNarrow(s: seq<nat>, m: nat, last: nat)
    requires forall k :: 0 <= k < |s| ==> s[k] < BIT30 - 1
    ensures Narrow(s, m, last)
  {
    if s != [] { AscendingNarrow(s[1..], m, Base(s[0], m)); }
  }

  /** The sorted halves of a list, as a set of the same elements. */
  lemma HalvesElements(s: seq<nat>, m: nat)
    ensures forall x :: x in Halves(s, m) <==> x in s
  {
    var i := MarkerAt(s, m);
    hide Sorted, MarkerAt;
    SortedFacts(s);
    SortedFacts(s[..i]);
    forall x ensures x in Halves(s, m) <==> x in s {
      if i == |s| {
        assert x in Sorted(s) <==> x in multiset(Sorted(s));
      } else {
        SortedFacts(s[i + 1..]);
        assert s == s[..i] + [m] + s[i + 1..];
        assert x in Sorted(s[..i]) <==> x in multiset(Sorted(s[..i]));
        assert x in Sorted(s[i + 1..]) <==> x in multiset(Sorted(s[i + 1..]));
        assert x in s[..i] <==> x in multiset(s[..i]);
        assert x in s[i + 1..] <==> x in multiset(s[i + 1..]);
      }
    }
  }

  /** What is read back of a list with at most one marker: the first half sorted, the marker unless nothing follows it,
   * and the second half sorted, all renumbered by the reader. */
  function ReadBack(s: seq<nat>, m: nat, rd: Reader): seq<nat> {
    var i := MarkerAt(s, m);
    Mapped(Sorted(s[..i]), rd.mapping) +
    if i + 1 >= |s| then [] else Markers(rd) + Mapped(Sorted(s[i + 1..]), rd.mapping)
  }

  lemma SortedHas(s: seq<nat>, x: nat)
    ensures x in Sorted(s) <==> x in s
  {
    SortedFacts(s);
    assert x in Sorted(s) <==> x in multiset(Sorted(s));
  }

  lemma BackNothing(m: nat, rd: Reader)
    ensures Back([], m, rd) == []
  {
  }

  lemma BackMarker(b: seq<nat>, m: nat, rd: Reader)
    ensures Back([m] + b, m, rd) == if b == [] then [] else Markers(rd) + Back(b, m, rd)
  {
    assert ([m] + b)[1..] == b;
  }

  lemma BackHalves(s: seq<nat>, m: nat, rd: Reader)
    requires MarkerAt(s, m) < |s| ==> m !in s[MarkerAt(s, m) + 1..]
    ensures Back(Halves(s, m), m, rd) == ReadBack(s, m, rd)
  {
    var i := MarkerAt(s, m);
    hide Sorted, MarkerAt, Back, Mapped;
    BackNothing(m, rd);
    SortedHas(s[..i], m);
    if i == |s| {
      assert s[..i] == s;
      BackPlain(Sorted(s), m, [], rd);
      assert Sorted(s) + [] == Sorted(s);
    } else {
      var b := Sorted(s[i + 1..]);
      SortedHas(s[i + 1..], m);
      SortedFacts(s[i + 1..]);
      assert Sorted(s[..i]) + [m] + b == Sorted(s[..i]) + ([m] + b);
      BackPlain(Sorted(s[..i]), m, [m] + b, rd);
      BackPlain(b, m, [], rd);
      assert b + [] == b && ([m] + b)[1..] == b;
      BackMarker(b, m, rd);
    }
  }

  lemma EmptyRoundTrip(data: seq<Byte>, dp: nat, m: nat, rd: Reader)
    requires Starts(data, dp, ArrayCode([], m))
    ensures ReadRel(data, dp, 0, rd) == Some(RelRead(ReadBack([], m, rd), dp + |ArrayCode([], m)|, false))
  {
    assert ArrayCode([], m) == Varint(0) == VarEof(0, true);
    IdEofRoundTrip(data, dp, 0, true);
    assert MarkerAt([], m) == 0 && ReadBack([], m, rd) == [];
  }

  lemma FullRoundTrip(data: seq<Byte>, dp: nat, s: seq<nat>, m: nat, rd: Reader)
    requires s != [] && (forall k :: 0 <= k < |s| ==> s[k] < BIT30 - 1) && InRange(s, m, rd.max)
    requires MarkerAt(s, m) < |s| ==> m !in s[MarkerAt(s, m) + 1..]
    requires Starts(data, dp, ArrayCode(s, m))
    ensures ReadRel(data, dp, 0, rd) == Some(RelRead(ReadBack(s, m, rd), dp + |ArrayCode(s, m)|, false))
  {
    hide ReadRel, Code, Rising, Halves, ReadBack, Starts, Sorted;
    var t := Halves(s, m);
    HalvesRising(s, m);
    HalvesLength(s, m);
    HalvesElements(s, m);
    forall k | 0 <= k < |t| ensures t[k] in s && t[k] < BIT30 - 1 && (rd.max == 0 || t[k] == m || t[k] < rd.max) {
      assert t[k] in t;
    }
    AscendingNarrow(t, m, 0);
    CodeRoundTrip(data, dp, t, m, 0, rd);
    BackHalves(s, m, rd);
  }

  /** Reading a written dependency array: both halves sorted, with the marker between them. */
  lemma ArrayRoundTrip(data: seq<Byte>, dp: nat, s: seq<nat>, m: nat, rd: Reader)
    requires (forall k :: 0 <= k < |s| ==> s[k] < BIT30 - 1) && InRange(s, m, rd.max)
    requires MarkerAt(s, m) < |s| ==> m !in s[MarkerAt(s, m) + 1..]
    requires Starts(data, dp, ArrayCode(s, m))
    ensures ReadRel(data, dp, 0, rd) == Some(RelRead(ReadBack(s, m, rd), dp + |ArrayCode(s, m)|, false))
  {
    hide *;
    if s == [] { EmptyRoundTrip(data, dp, m, rd); } else { FullRoundTrip(data, dp, s, m, rd); }
  }

  /** data_skip of such an array stops where the reader stops. */
  lemma {:induction false} SkipAgrees(data: seq<Byte>, dp: nat, last: nat, rd: Reader)
    requires dp <= |data| && ReadRel(data, dp, last, rd).Some? && !ReadRel(data, dp, last, rd).value.error
    ensures FetchAll(IdArray, 0, data, dp).Some?
    ensures FetchAll(IdArray, 0, data, dp).value.1 == ReadRel(data, dp, last, rd).value.dp
    decreases |data| - dp
  {
    var (x, p, eof) := GetIdEof(data, dp).value;
    hide GetIdEof;
    if !eof {
      SkipAgrees(data, p, if x == 0 then 0 else last + (x - 1), rd);
    }
  }

  // ---- where it ends ----

  /** A reader that tells all ids apart, and its marker, if it has one, from all ids but the marker. */
  ghost predicate Distinguishes(rd: Reader, m: nat) {
    && (forall x, y :: rd.mapping(x) == rd.mapping(y) ==> x == y)
    && (rd.marker != 0 ==> forall x :: x != m ==> rd.mapping(x) != rd.marker)
  }

  /** Whatever was read before, a code can be read; without a marker of its own, the reader makes at most one id of every id. */
  lemma {:induction false} CodeReads(data: seq<Byte>, dp: nat, s: seq<nat>, m: nat, last: nat, was: nat, rd: Reader)
    requires s != [] && Rising(s, m, last) && Starts(data, dp, Code(s, m, last))
    ensures ReadRel(data, dp, was, rd).Some?
    ensures rd.marker == 0 ==> |ReadRel(data, dp, was, rd).value.ids| <= |Back(s, m, rd)|
    decreases |s|
  {
    hide GetIdEof, Code, Starts, EofCode;
    CodeStep(data, dp, s, m, last);
    var (x, p, eof) := GetIdEof(data, dp).value;
    if |s| > 1 {
      CodeReads(data, p, s[1..], m, Base(s[0], m), if x == 0 then 0 else was + (x - 1), rd);
    }
  }

  lemma PutDiffers(front: seq<nat>, a: seq<nat>, b: seq<nat>)
    requires a != b
    ensures front + a != front + b
  {
    assert (front + a)[|front|..] == a && (front + b)[|front|..] == b;
  }

  /** The first wide difference changes what is read. */
  lemma WideDiffers(data: seq<Byte>, dp: nat, s: seq<nat>, m: nat, last: nat, rd: Reader)
    requires s != [] && Rising(s, m, last) && Distinguishes(rd, m) && Starts(data, dp, Code(s, m, last))
    requires Diff(s[0], m, last) >= BIT30
    ensures ReadRel(data, dp, last, rd).Some? && ReadRel(data, dp, last, rd).value.ids != Back(s, m, rd)
  {
    hide GetIdEof, Code, Starts, EofCode;
    CodeStep(data, dp, s, m, last);
    CodeReads(data, dp, s, m, last, last, rd);
    var (x, p, eof) := GetIdEof(data, dp).value;
    assert Back(s, m, rd)[0] == rd.mapping(s[0]);
    if x == 0 && !eof && rd.marker == 0 {
      CodeReads(data, p, s[1..], m, Base(s[0], m), 0, rd);
      assert |Back(s, m, rd)| == 1 + |Back(s[1..], m, rd)|;
    } else if x == 0 && !eof {
      assert ReadRel(data, dp, last, rd).value.ids[0] == rd.marker;
    } else if x != 0 {
      assert last + (x - 1) != s[0];
    }
  }

  lemma {:induction false} CodeExact(data: seq<Byte>, dp: nat, s: seq<nat>, m: nat, last: nat, rd: Reader)
    requires s != [] && Rising(s, m, last) && InRange(s, m, rd.max) && Distinguishes(rd, m) && Starts(data, dp, Code(s, m, last))
    requires !Narrow(s, m, last)
    ensures ReadRel(data, dp, last, rd).Some? && ReadRel(data, dp, last, rd).value.ids != Back(s, m, rd)
    decreases |s|
  {
    hide GetIdEof, Code, Starts, EofCode, Distinguishes;
    if Diff(s[0], m, last) >= BIT30 {
      WideDiffers(data, dp, s, m, last, rd);
    } else {
      CodeStep(data, dp, s, m, last);
      assert |s| > 1;
      var p := GetIdEof(data, dp).value.1;
      CodeExact(data, p, s[1..], m, Base(s[0], m), rd);
      PutDiffers(if s[0] == m then Markers(rd) else [rd.mapping(s[0])],
                 ReadRel(data, p, Base(s[0], m), rd).value.ids, Back(s[1..], m, rd));
    }
  }

  /** A written array is read back as it is, up to sorting and a marker at the end, exactly if all differences in its sorted halves,
   * with the one that is added, are below 2^30.
   */
  lemma ArrayExact(data: seq<Byte>, dp: nat, s: seq<nat>, m: nat, rd: Reader)
    requires s != [] && (forall k :: 0 <= k < |s| ==> s[k] < BIT31 - 1) && InRange(s, m, rd.max) && Distinguishes(rd, m)
    requires Starts(data, dp, ArrayCode(s, m))
    ensures ReadRel(data, dp, 0, rd) == Some(RelRead(Back(Halves(s, m), m, rd), dp + |ArrayCode(s, m)|, false)) <==>
      Narrow(Halves(s, m), m, 0)
  {
    hide ReadRel, Code, Rising, Halves, Starts, Sorted, Narrow, Distinguishes, Back;
    var t := Halves(s, m);
    HalvesRising(s, m);
    HalvesLength(s, m);
    HalvesInRange(s, m, rd.max);
    if Narrow(t, m, 0) { CodeRoundTrip(data, dp, t, m, 0, rd); } else { CodeExact(data, dp, t, m, 0, rd); }
  }

  lemma HalvesInRange(s: seq<nat>, m: nat, max: nat)
    requires InRange(s, m, max)
    ensures InRange(Halves(s, m), m, max)
  {
    hide Halves;
    HalvesElements(s, m);
    assert forall k :: 0 <= k < |Halves(s, m)| ==> Halves(s, m)[k] in Halves(s, m);
  }

  lemma {:induction false} HalvesOfAscending(s: seq<nat>, m: nat)
    requires Ascending(s) && m !in s
    ensures Halves(s, m) == s
  {
    SortedFacts(s);
    AscendingUnique(Sorted(s), s);
    assert MarkerAt(s, m) == |s|;
  }

  /** An id of 2^30 - 1 on its own is lost, and ids above it are kept where their differences are small. */
  lemma WideAlone(rd: Reader)
    requires rd.max == 0 && rd.marker == 1 && rd.mapping == (x => x)
    ensures ReadRel(ArrayCode([BIT30 - 1], 1), 0, 0, rd) != Some(RelRead([BIT30 - 1], |ArrayCode([BIT30 - 1], 1)|, false))
    ensures ReadRel(ArrayCode([BIT30 - 2, BIT30 + 3], 1), 0, 0, rd) ==
      Some(RelRead([BIT30 - 2, BIT30 + 3], |ArrayCode([BIT30 - 2, BIT30 + 3], 1)|, false))
  {
    var one, two := [BIT30 - 1], [BIT30 - 2, BIT30 + 3];
    HalvesOfAscending(one, 1);
    HalvesOfAscending(two, 1);
    assert two[1..] == [BIT30 + 3] && one[1..] == [] && two[1..][1..] == [];
    BackPlain(one, 1, [], rd);
    BackPlain(two, 1, [], rd);
    assert one + [] == one && two + [] == two && Mapped(one, rd.mapping) == one && Mapped(two, rd.mapping) == two;
    assert !Narrow(one, 1, 0);
    assert Narrow([], 1, BIT30 + 3) && Narrow([BIT30 + 3], 1, BIT30 - 2);
    assert Narrow(two, 1, 0);
    hide ArrayCode, ReadRel;
    ArrayExact(ArrayCode(one, 1), 0, one, 1, rd);
    ArrayExact(ArrayCode(two, 1), 0, two, 1, rd);
  }
}
