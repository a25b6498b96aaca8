/** Dependency lists in the arena of a repository (repo_addid, repo_addid_dep, src/repo.c).
 *
 * A list is a run of non-zero ids ended by 0. A marker id splits it in two halves, the
 * ids before the marker and those after it.
 */
module IdArray {
  import opened Pigeonhole

  datatype Deps = Deps(before: seq<nat>, after: seq<nat>)

  /** The list as it is stored: the marker is there exactly if something follows it. */
  function Encode(d: Deps, m: nat): seq<nat> {
    d.before + if d.after == [] then [] else [m] + d.after
  }

  ghost predicate Good(d: Deps, m: nat) {
    m != 0 && Distinct(d.before + d.after) && 0 !in d.before + d.after && m !in d.before + d.after
  }

  /** The elements of s that are not in t. */
  function Minus(s: seq<nat>, t: seq<nat>): (r: seq<nat>)
    ensures forall x :: x in r <==> x in s && x !in t
  {
    if s == [] then []
    else
      var x := s[|s| - 1];
      Minus(s[..|s| - 1], t) + if x in t then [] else [x]
  }

  /** An id in the second half stays there; one in the first half moves when it is added after the marker. */
  function AddAfter(d: Deps, id: nat): Deps {
    if id in d.after then d else Deps(Minus(d.before, [id]), d.after + [id])
  }

  function AddBefore(d: Deps, id: nat): Deps {
    if id in d.before || id in d.after then d else d.(before := d.before + [id])
  }

  function Add(d: Deps, id: nat, after: bool): Deps {
    if after then AddAfter(d, id) else AddBefore(d, id)
  }

  lemma {:induction false} MinusDistinct(s: seq<nat>, t: seq<nat>)
    requires Distinct(s)
    ensures Distinct(Minus(s, t))
  {
    if s != [] {
      MinusDistinct(s[..|s| - 1], t);
    }
  }

  /** Taking away what is not there. */
  lemma {:induction false} MinusNone(s: seq<nat>, t: seq<nat>)
    requires forall x :: x in t ==> x !in s
    ensures Minus(s, t) == s
  {
    if s != [] {
      assert s[|s| - 1] in s;
      MinusNone(s[..|s| - 1], t);
      assert s == s[..|s| - 1] + [s[|s| - 1]];
    }
  }

  lemma MinusSnoc(s: seq<nat>, x: nat, t: seq<nat>)
    ensures Minus(s + [x], t) == Minus(s, t) + if x in t then [] else [x]
  {
    assert (s + [x])[..|s|] == s;
  }

  lemma Assoc(a: seq<nat>, b: seq<nat>, c: seq<nat>)
    ensures (a + b) + c == a + (b + c)
  {
  }

  lemma {:induction false} MinusConcat(s: seq<nat>, u: seq<nat>, t: seq<nat>)
    ensures Minus(s + u, t) == Minus(s, t) + Minus(u, t)
  {
    assert Minus([], t) == [];
    hide Minus;
    if u == [] {
      assert s + u == s;
    } else {
      var v, x := u[..|u| - 1], u[|u| - 1];
      var tail := if x in t then [] else [x];
      calc {
        Minus(s + u, t);
        { Assoc(s, v, [x]); assert u == v + [x]; }
        Minus((s + v) + [x], t);
        { MinusSnoc(s + v, x, t); }
        Minus(s + v, t) + tail;
        { MinusConcat(s, v, t); Assoc(Minus(s, t), Minus(v, t), tail); }
        Minus(s, t) + (Minus(v, t) + tail);
        { MinusSnoc(v, x, t); assert u == v + [x]; }
        Minus(s, t) + Minus(u, t);
      }
    }
  }

  lemma {:induction false} MinusTwice(s: seq<nat>, t: seq<nat>, x: nat)
    ensures Minus(s, t + [x]) == Minus(Minus(s, t), [x])
  {
    if s != [] {
      var y := s[|s| - 1];
      MinusTwice(s[..|s| - 1], t, x);
      MinusConcat(Minus(s[..|s| - 1], t), if y in t then [] else [y], [x]);
      assert Minus([y], [x]) == if y == x then [] else [y] by { assert [y][..0] == []; }
    }
  }

  lemma AddKeepsGood(d: Deps, m: nat, id: nat, after: bool)
    requires Good(d, m) && id != 0 && id != m
    ensures Good(Add(d, id, after), m)
  {
    var e := Add(d, id, after);
    if e != d {
      assert Distinct(d.before) by { assert (d.before + d.after)[..|d.before|] == d.before; }
      assert Distinct(d.after) by { assert (d.before + d.after)[|d.before|..] == d.after; }
      forall x | x in d.before ensures x !in d.after {
        CrossDistinct(d.before, d.after, x);
      }
      if after {
        MinusDistinct(d.before, [id]);
      }
      assert Distinct(e.before) && Distinct(e.after) && forall x :: x in e.before ==> x !in e.after;
      JoinDistinct(e.before, e.after);
    }
  }

  lemma CrossDistinct(s: seq<nat>, t: seq<nat>, x: nat)
    requires Distinct(s + t) && x in s
    ensures x !in t
  {
    var i :| 0 <= i < |s| && s[i] == x;
    forall j | 0 <= j < |t| ensures t[j] != x {
      assert (s + t)[i] != (s + t)[|s| + j];
    }
  }

  lemma JoinDistinct(s: seq<nat>, t: seq<nat>)
    requires Distinct(s) && Distinct(t) && forall x :: x in s ==> x !in t
    ensures Distinct(s + t)
  {
    forall i, j | 0 <= i < j < |s + t| ensures (s + t)[i] != (s + t)[j] {
      if i < |s| <= j { assert s[i] in s && t[j - |s|] in t; }
    }
  }

  // ---- every sequence of calls ----

  datatype Call = Call(id: nat, after: bool)

  function Run(calls: seq<Call>): Deps {
    if calls == [] then Deps([], [])
    else Add(Run(calls[..|calls| - 1]), calls[|calls| - 1].id, calls[|calls| - 1].after)
  }

  /** The ids of the calls, only those added after the marker, and each of a sequence where it first occurs. */
  function All(calls: seq<Call>): seq<nat> {
    if calls == [] then [] else All(calls[..|calls| - 1]) + [calls[|calls| - 1].id]
  }

  function Hard(calls: seq<Call>): seq<nat> {
    if calls == [] then []
    else Hard(calls[..|calls| - 1]) + if calls[|calls| - 1].after then [calls[|calls| - 1].id] else []
  }

  function Firsts(s: seq<nat>): (r: seq<nat>)
    ensures forall x :: x in r <==> x in s
  {
    if s == [] then []
    else
      var front, x := s[..|s| - 1], s[|s| - 1];
      assert s == front + [x];
      if x in front then Firsts(front) else Firsts(front) + [x]
  }

  lemma FirstsSnoc(s: seq<nat>, x: nat)
    ensures Firsts(s + [x]) == if x in s then Firsts(s) else Firsts(s) + [x]
  {
    assert (s + [x])[..|s|] == s;
  }

  lemma {:induction false} HardInAll(calls: seq<Call>)
    ensures forall x :: x in Hard(calls) ==> x in All(calls)
  {
    if calls != [] { HardInAll(calls[..|calls| - 1]); }
  }

  /** After any calls, the second half holds the ids ever added after the marker, in the order of the first such call;
   * the first half holds the others, in the order of their first call. */
  lemma {:induction false} RunIs(calls: seq<Call>)
    ensures Run(calls).after == Firsts(Hard(calls))
    ensures Run(calls).before == Minus(Firsts(All(calls)), Firsts(Hard(calls)))
  {
    if calls != [] {
      var front, c := calls[..|calls| - 1], calls[|calls| - 1];
      RunIs(front);
      HardInAll(front);
      var all, hard := Firsts(All(front)), Firsts(Hard(front));
      FirstsSnoc(All(front), c.id);
      assert Firsts(All(calls)) == if c.id in All(front) then all else all + [c.id];
      if c.after {
        FirstsSnoc(Hard(front), c.id);
        HardCall(all, hard, c.id, c.id in All(front));
      } else {
        assert Hard(calls) == Hard(front);
        if c.id !in All(front) {
          MinusConcat(all, [c.id], hard);
          assert Minus([c.id], hard) == [c.id] by { MinusNone([c.id], hard); }
        }
      }
    }
  }

  lemma HardCall(all: seq<nat>, hard: seq<nat>, id: nat, known: bool)
    requires known <==> id in all
    requires id in hard ==> known
    ensures var d := AddAfter(Deps(Minus(all, hard), hard), id);
      var all' := if known then all else all + [id];
      var hard' := if id in hard then hard else hard + [id];
      d == Deps(Minus(all', hard'), hard')
  {
    if id !in hard {
      MinusTwice(all, hard, id);
      if !known {
        MinusConcat(all, [id], hard + [id]);
        assert Minus([id], hard + [id]) == [] by { assert [id][..0] == []; }
      }
    }
  }

  // ---- the arena ----

  /** At o, the arena holds the list. */
  ghost predicate Holds(data: seq<nat>, o: nat, list: seq<nat>) {
    && 0 < o && o + |list| < |data|
    && data[o..o + |list|] == list && data[o + |list|] == 0 && 0 !in list
  }

  /** Nothing outside the list of n ids at o changed. */
  ghost predicate Kept(was: seq<nat>, now: seq<nat>, o: nat, n: nat) {
    |was| <= |now| && forall i :: 0 <= i < |was| && !(o <= i <= o + n) ==> now[i] == was[i]
  }

  /** A list that shares no slot with the changed one is still there. */
  lemma OtherKept(was: seq<nat>, now: seq<nat>, o: nat, n: nat, p: nat, other: seq<nat>)
    requires Kept(was, now, o, n) && Holds(was, p, other)
    requires p + |other| < o || o + n < p
    ensures Holds(now, p, other)
  {
    assert now[p..p + |other|] == was[p..p + |other|];
  }

  lemma HoldsAt(data: seq<nat>, o: nat, list: seq<nat>, k: nat)
    requires Holds(data, o, list) && k <= |list|
    ensures data[o + k] == if k < |list| then list[k] else 0
    ensures data[o + k] == 0 <==> k == |list|
  {
    assert k < |list| ==> data[o..o + |list|][k] == list[k] && list[k] in list;
  }

  /** Copy the list at o to the end of the arena. */
  method CopyList(data0: seq<nat>, o: nat, ghost list: seq<nat>) returns (data: seq<nat>)
    requires Holds(data0, o, list)
    ensures data == data0 + list
  {
    data := data0;
    var i := o;
    HoldsAt(data0, o, list, 0);
    while data[i] != 0
      invariant o <= i <= o + |list|
      invariant data == data0 + list[..i - o]
      invariant data[i] == data0[i] && (data[i] == 0 <==> i == o + |list|)
      decreases o + |list| - i
    {
      HoldsAt(data0, o, list, i - o);
      HoldsAt(data0, o, list, i + 1 - o);
      data := data + [data[i]];
      i := i + 1;
    }
    assert list[..|list|] == list;
  }

  /** Look for id, stopping there or at the end; mp is the place of the marker seen on the way, or 0. */
  method Find(data: seq<nat>, o: nat, id: nat, m: nat, ghost list: seq<nat>) returns (p: nat, mp: nat)
    requires Holds(data, o, list) && id != 0 && id != m && m != 0
    requires forall i, j :: 0 <= i < j < |list| && list[i] == m ==> list[j] != m
    ensures o <= p <= o + |list| && p < |data| && id !in list[..p - o]
    ensures p < o + |list| ==> data[p] == id
    ensures if mp == 0 then m !in list[..p - o] else o <= mp < p && data[mp] == m
  {
    p, mp := o, 0;
    HoldsAt(data, o, list, 0);
    while data[p] != 0
      invariant o <= p <= o + |list| && id !in list[..p - o]
      invariant data[p] == 0 <==> p == o + |list|
      invariant if mp == 0 then m !in list[..p - o] else o <= mp < p && data[mp] == m
      decreases o + |list| - p
    {
      HoldsAt(data, o, list, p - o);
      HoldsAt(data, o, list, p - o + 1);
      assert list[..p - o + 1] == list[..p - o] + [list[p - o]];
      if data[p] == m {
        mp := p;
      } else if data[p] == id {
        return;
      }
      p := p + 1;
    }
  }

  /** Look for x from p on. */
  method FindFrom(data: seq<nat>, o: nat, p0: nat, x: nat, ghost list: seq<nat>) returns (p: nat)
    requires Holds(data, o, list) && o <= p0 <= o + |list| && x != 0
    ensures p0 <= p <= o + |list| && x !in list[p0 - o..p - o]
    ensures p < |data| && data[p] == if p < o + |list| then x else 0
    ensures p < o + |list| ==> list[p - o] == x
  {
    p := p0;
    HoldsAt(data, o, list, p - o);
    while data[p] != 0
      invariant p0 <= p <= o + |list| && x !in list[p0 - o..p - o]
      invariant data[p] == 0 <==> p == o + |list|
      decreases o + |list| - p
    {
      HoldsAt(data, o, list, p - o);
      if data[p] == x { return; }
      HoldsAt(data, o, list, p - o + 1);
      assert list[p0 - o..p - o + 1] == list[p0 - o..p - o] + [list[p - o]];
      p := p + 1;
    }
  }

  /** Go on to the last id of the list. */
  method LastFrom(data: seq<nat>, o: nat, p0: nat, ghost list: seq<nat>) returns (p: nat)
    requires Holds(data, o, list) && o <= p0 < o + |list|
    ensures p == o + |list| - 1
  {
    p := p0;
    HoldsAt(data, o, list, p + 1 - o);
    while data[p + 1] != 0
      invariant p0 <= p < o + |list|
      invariant data[p + 1] == 0 <==> p + 1 == o + |list|
      decreases o + |list| - p
    {
      HoldsAt(data, o, list, p + 2 - o);
      p := p + 1;
    }
  }

  /** memmove of [from + 1, to] down by one; slot to keeps its value. */
  function MoveDown(data: seq<nat>, from: nat, to: nat): (r: seq<nat>)
    requires from <= to < |data|
    ensures |r| == |data|
  {
    data[..from] + data[from + 1..to + 1] + data[to..]
  }

  /** memmove of [from, to) up by one; slot from keeps its value. */
  function MoveUp(data: seq<nat>, from: nat, to: nat): (r: seq<nat>)
    requires from <= to < |data|
    ensures |r| == |data|
  {
    data[..from] + data[from..from + 1] + data[from..to] + data[to + 1..]
  }

  /** Writing a list of the same length over a list. */
  lemma Overwrite(was: seq<nat>, now: seq<nat>, o: nat, list: seq<nat>, list': seq<nat>)
    requires Holds(was, o, list) && |list'| == |list| && 0 !in list'
    requires now == was[..o] + list' + was[o + |list|..]
    ensures Holds(now, o, list') && Kept(was, now, o, |list|)
  {
    assert now[o..o + |list|] == list';
    assert now[o + |list|] == was[o + |list|];
  }

  /** The arena cut at a list. */
  lemma CutAt(data: seq<nat>, o: nat, list: seq<nat>)
    requires Holds(data, o, list)
    ensures data == data[..o] + list + data[o + |list|..]
  {
    assert data == data[..o] + data[o..o + |list|] + data[o + |list|..];
  }

  /** What the list becomes. */
  function Result(list: seq<nat>, d: Deps, id: nat, marker: int): seq<nat> {
    if marker == 0 then (if id in list then list else list + [id])
    else Encode(Add(d, id, marker > 0), Abs(marker))
  }

  function Abs(x: int): nat { if x < 0 then -x else x }

  lemma EncodeFacts(d: Deps, m: nat)
    requires Good(d, m)
    ensures var list := Encode(d, m);
      && 0 !in list
      && (forall x :: x in list <==> x in d.before || x in d.after || (x == m && d.after != []))
      && (forall i, j :: 0 <= i < j < |list| && list[i] == m ==> list[j] != m)
      && (forall k :: 0 <= k < |list| && list[k] == m ==> k == |d.before| && d.after != [])
  {
    var list := Encode(d, m);
    forall k | 0 <= k < |list| && k != |d.before| ensures list[k] != m && list[k] != 0 {
      if k < |d.before| { assert list[k] == (d.before + d.after)[k]; }
      else { assert list[k] == (d.before + d.after)[k - 1]; }
    }
    forall x | x in d.after ensures x in list {
      assert list[|d.before| + 1..] == d.after;
    }
  }

  lemma NotInPart(s: seq<nat>, lo: nat, hi: nat, x: nat)
    requires lo <= hi <= |s| && x !in s[lo..hi]
    ensures forall k :: lo <= k < hi ==> s[k] != x
  {
    forall k | lo <= k < hi ensures s[k] != x {
      assert s[lo..hi][k - lo] == s[k];
    }
  }

  lemma NotElsewhere(s: seq<nat>, k: nat)
    requires Distinct(s) && k < |s|
    ensures s[k] !in s[..k] && s[k] !in s[k + 1..]
  {
  }

  lemma MinusSplit(x: seq<nat>, id: nat, y: seq<nat>)
    requires id !in x && id !in y
    ensures Minus(x + [id] + y, [id]) == x + y
  {
    hide Minus;
    MinusConcat(x + [id], y, [id]);
    MinusSnoc(x, id, [id]);
    MinusNone(x, [id]);
    MinusNone(y, [id]);
    assert x + [] == x;
  }

  /** Taking an id out of distinct ones. */
  lemma MinusOne(s: seq<nat>, k: nat)
    requires Distinct(s) && k < |s|
    ensures Minus(s, [s[k]]) == s[..k] + s[k + 1..]
  {
    hide *;
    NotElsewhere(s, k);
    MinusSplit(s[..k], s[k], s[k + 1..]);
    assert s == s[..k] + [s[k]] + s[k + 1..];
  }

  /** Id found before the marker, or the marker is not there. */
  lemma FoundFirstHalf(d: Deps, m: nat, id: nat, k: nat)
    requires Good(d, m) && id != m && k < |Encode(d, m)| && Encode(d, m)[k] == id && m !in Encode(d, m)[..k]
    ensures k < |d.before| && d.before[k] == id && id !in d.after
    ensures Minus(d.before, [id]) == d.before[..k] + d.before[k + 1..]
  {
    hide Minus;
    NotInPart(Encode(d, m), 0, k, m);
    assert Encode(d, m)[..k] == Encode(d, m)[0..k];
    assert d.after != [] ==> Encode(d, m)[|d.before|] == m;
    assert d.before == (d.before + d.after)[..|d.before|];
    assert Distinct(d.before);
    MinusOne(d.before, k);
    CrossDistinct(d.before, d.after, id);
  }

  /** Id found after the marker. */
  lemma FoundSecondHalf(d: Deps, m: nat, id: nat, k: nat, j: nat)
    requires Good(d, m) && id != m && j < k < |Encode(d, m)| && Encode(d, m)[k] == id && Encode(d, m)[j] == m
    ensures id in d.after && id !in d.before
  {
    EncodeFacts(d, m);
    assert Encode(d, m)[k] == d.after[k - |d.before| - 1];
    if id in d.before { CrossDistinct(d.before, d.after, id); }
  }

  /** The list after an id of the first half was moved, without and with a marker there. */
  lemma Moved(d: Deps, m: nat, id: nat, k: nat)
    requires Good(d, m) && k < |d.before| && id !in d.after && Minus(d.before, [id]) == d.before[..k] + d.before[k + 1..]
    ensures var list, now := Encode(d, m), Encode(AddAfter(d, id), m);
      now == if d.after == [] then list[..k] + list[k + 1..] + [m] + [id] else list[..k] + list[k + 1..] + [id]
  {
    hide Minus, Good;
    var list := Encode(d, m);
    var tail := if d.after == [] then [] else [m] + d.after;
    assert list[..k] == d.before[..k] && list[k + 1..] == d.before[k + 1..] + tail;
  }

  /** The list after an id was put before the marker. */
  lemma Inserted(d: Deps, m: nat, id: nat, k: nat)
    requires Good(d, m) && k < |Encode(d, m)| && Encode(d, m)[k] == m && id !in Encode(d, m)
    ensures var list := Encode(d, m);
      var last := list[|list| - 1];
      && k + 1 < |list| && 0 !in list && last in list && m != 0
      && list[..k] + [id, m] + list[k + 1..|list| - 1] + [last] == Encode(AddBefore(d, id), m)
  {
    EncodeFacts(d, m);
    var list := Encode(d, m);
    assert list == d.before + ([m] + d.after);
    assert Encode(AddBefore(d, id), m) == (d.before + [id]) + ([m] + d.after);
    assert m != 0 && k == |d.before| && d.after != [];
    hide Good, Encode, Distinct, AddBefore;
    InsertedParts(d.before, m, d.after, id);
    assert list[|list| - 1] in list;
  }

  lemma InsertedParts(a: seq<nat>, m: nat, b: seq<nat>, id: nat)
    requires b != []
    ensures var list := a + ([m] + b);
      list[..|a|] + [id, m] + list[|a| + 1..|list| - 1] + [list[|list| - 1]] == (a + [id]) + ([m] + b)
  {
    var list := a + ([m] + b);
    assert list[..|a|] == a && list[|a| + 1..] == b;
    assert list[|a| + 1..|list| - 1] + [list[|list| - 1]] == b;
  }

  lemma KeptTwice(was: seq<nat>, mid: seq<nat>, now: seq<nat>, o: nat, n: nat, o': nat, n': nat)
    requires Kept(was, mid, o, n) && Kept(mid, now, o', n')
    requires o' >= |was| || (o' == o && (n' <= n || o + n + 1 >= |was|))
    ensures Kept(was, now, o, n)
  {
    forall i | 0 <= i < |was| && !(o <= i <= o + n) ensures now[i] == was[i] {
      assert mid[i] == was[i];
    }
  }

  /** Take out the id at index k of the list and put v at its end. */
  method RemoveAndEnd(data: seq<nat>, o: nat, k: nat, v: nat, ghost list: seq<nat>) returns (r: seq<nat>)
    requires Holds(data, o, list) && k < |list| && v != 0
    ensures Holds(r, o, list[..k] + list[k + 1..] + [v]) && Kept(data, r, o, |list|)
    ensures |r| == |data|
  {
    var e := LastFrom(data, o, o + k, list);
    r := data;
    if o + k < e { r := MoveDown(r, o + k, e); }
    r := r[e := v];
    ghost var list' := list[..k] + list[k + 1..] + [v];
    CutAt(data, o, list);
    assert r == data[..o] + list' + data[o + |list|..];
    Overwrite(data, r, o, list, list');
  }

  /** Put id before the marker at index k; the list loses its last id. */
  method InsertBefore(data: seq<nat>, o: nat, k: nat, id: nat, m: nat, ghost list: seq<nat>) returns (r: seq<nat>, last: nat)
    requires Holds(data, o, list) && k + 1 < |list| && list[k] == m && id != 0 && m != 0
    ensures Holds(r, o, list[..k] + [id, m] + list[k + 1..|list| - 1]) && Kept(data, r, o, |list|)
    ensures |r| == |data| && last == list[|list| - 1]
  {
    hide MoveUp;
    var e := LastFrom(data, o, o + k, list);
    HoldsAt(data, o, list, |list| - 1);
    r := data[o + k := id];
    last := r[e];
    if o + k + 1 < e { r := MoveUp(r, o + k + 1, e); }
    r := r[o + k + 1 := m];
    ghost var y := list[k + 1..|list| - 1];
    CutInFour(data, o, list, k);
    InsertShape(data[..o] + list[..k], m, y, last, data[o + |list|..], id);
    ghost var list' := list[..k] + ([id, m] + y);
    assert list' == list[..k] + [id, m] + y;
    JoinThree(data[..o], list[..k], [id, m] + y, data[o + |list|..]);
    Overwrite(data, r, o, list, list');
  }

  /** The arena around the marker and the last id of a list. */
  lemma CutInFour(data: seq<nat>, o: nat, list: seq<nat>, k: nat)
    requires Holds(data, o, list) && k + 1 < |list|
    ensures data == (data[..o] + list[..k]) + [list[k]] + list[k + 1..|list| - 1] + [list[|list| - 1]] + data[o + |list|..]
    ensures |data[..o] + list[..k]| == o + k
  {
    CutAt(data, o, list);
    assert list == list[..k] + [list[k]] + list[k + 1..|list| - 1] + [list[|list| - 1]];
  }

  lemma JoinThree(a: seq<nat>, b: seq<nat>, c: seq<nat>, d: seq<nat>)
    ensures (a + b) + c + d == a + (b + c) + d
  {
  }

  /** Moving the part y up by one place. */
  lemma MoveUpShape(front: seq<nat>, y: seq<nat>, last: nat, back: seq<nat>)
    requires y != []
    ensures MoveUp(front + y + [last] + back, |front|, |front| + |y|) == front + [y[0]] + y + back
  {
    var r, p, e := front + y + [last] + back, |front|, |front| + |y|;
    assert r[..p] == front && r[p..e] == y && r[e + 1..] == back && r[p..p + 1] == [y[0]];
  }

  /** Writing id over the marker, moving what follows up, and putting the marker behind id. */
  lemma InsertShape(front: seq<nat>, m: nat, y: seq<nat>, last: nat, back: seq<nat>, id: nat)
    ensures var data, p, e := front + [m] + y + [last] + back, |front|, |front| + 1 + |y|;
      var r := data[p := id];
      (if p + 1 < e then MoveUp(r, p + 1, e) else r)[p + 1 := m] == front + ([id, m] + y) + back
  {
    hide MoveUp;
    var data, p := front + [m] + y + [last] + back, |front|;
    assert data[p := id] == (front + [id]) + y + [last] + back;
    if y != [] {
      MoveUpShape(front + [id], y, last, back);
    }
  }

  /** The dependency arena of a repository; lastoff is where the last list starts, 0 if none can be extended in place. */
  class Repo {
    var idarraydata: seq<nat>
    var lastoff: nat

    ghost predicate Valid()
      reads this
    {
      idarraydata != [] ==>
        && idarraydata[0] == 0 && idarraydata[|idarraydata| - 1] == 0
        && (lastoff != 0 ==> lastoff < |idarraydata| && 0 !in idarraydata[lastoff..|idarraydata| - 1])
    }

    /** Is the list at off, nowhere if it is empty and was never stored? */
    ghost predicate At(off: nat, list: seq<nat>)
      reads this
    {
      if off == 0 then list == [] else Holds(idarraydata, off, list)
    }

    /** repo_addid: append an id; in place at the end of the arena, in a copy otherwise. */
    method AddId(olddeps: nat, id: nat, ghost list: seq<nat>) returns (off: nat)
      requires Valid() && At(olddeps, list) && id != 0
      modifies this
      ensures Valid() && off != 0 && Holds(idarraydata, off, list + [id])
      ensures olddeps == 0 ==> old(idarraydata) <= idarraydata
      ensures olddeps != 0 ==> Kept(old(idarraydata), idarraydata, olddeps, |list|)
      ensures off == olddeps ==> olddeps + |list| + 1 == |old(idarraydata)|
      ensures off == olddeps || off >= |old(idarraydata)|
    {
      if idarraydata == [] {
        idarraydata := [0];
        lastoff := 0;
      }
      off := olddeps;
      ghost var base := idarraydata;
      if olddeps == 0 {
        off := |idarraydata|;
      } else if olddeps == lastoff {
        LastEnds(idarraydata, lastoff, list);
        idarraydata := idarraydata[..|idarraydata| - 1];
      } else {
        off := |idarraydata|;
        idarraydata := CopyList(idarraydata, olddeps, list);
      }
      assert idarraydata == idarraydata[..off] + list;
      idarraydata := idarraydata + [id];
      idarraydata := idarraydata + [0];
      lastoff := off;
      assert idarraydata[off..|idarraydata| - 1] == list + [id];
    }

    /** Add the marker and an id to a list without marker. */
    method AddMarked(olddeps: nat, id: nat, m: nat, ghost list: seq<nat>) returns (off: nat)
      requires Valid() && At(olddeps, list) && id != 0 && m != 0
      modifies this
      ensures Valid() && off != 0 && Holds(idarraydata, off, list + [m, id])
      ensures olddeps == 0 ==> old(idarraydata) <= idarraydata
      ensures olddeps != 0 ==> Kept(old(idarraydata), idarraydata, olddeps, |list|)
      ensures off == olddeps || off >= |old(idarraydata)|
    {
      var mid := AddId(olddeps, m, list);
      ghost var data := idarraydata;
      off := AddId(mid, id, list + [m]);
      assert list + [m, id] == list + [m] + [id];
      if olddeps != 0 { KeptTwice(old(idarraydata), data, idarraydata, olddeps, |list|, mid, |list| + 1); }
    }

    /** Add an id that is in a list without marker behind a new marker. */
    method MoveBehindNew(olddeps: nat, id: nat, m: nat, k: nat, ghost list: seq<nat>) returns (off: nat)
      requires Valid() && Holds(idarraydata, olddeps, list) && k < |list| && m != 0 && id != 0
      modifies this
      ensures Valid() && off != 0 && Holds(idarraydata, off, list[..k] + list[k + 1..] + [m] + [id])
      ensures Kept(old(idarraydata), idarraydata, olddeps, |list|)
      ensures off == olddeps || off >= |old(idarraydata)|
    {
      hide Kept;
      idarraydata := RemoveAndEnd(idarraydata, olddeps, k, m, list);
      StillValid(old(idarraydata), idarraydata, olddeps, list, list[..k] + list[k + 1..] + [m], lastoff);
      ghost var mid := idarraydata;
      off := AddId(olddeps, id, list[..k] + list[k + 1..] + [m]);
      KeptTwice(old(idarraydata), mid, idarraydata, olddeps, |list|, olddeps, |list|);
    }

    /** Move an id of the first half to the end of the second half. */
    method MoveToEnd(olddeps: nat, id: nat, k: nat, ghost list: seq<nat>)
      requires Valid() && Holds(idarraydata, olddeps, list) && k < |list| && id != 0
      modifies this
      ensures Valid() && Holds(idarraydata, olddeps, list[..k] + list[k + 1..] + [id])
      ensures Kept(old(idarraydata), idarraydata, olddeps, |list|)
    {
      hide Kept;
      idarraydata := RemoveAndEnd(idarraydata, olddeps, k, id, list);
      StillValid(old(idarraydata), idarraydata, olddeps, list, list[..k] + list[k + 1..] + [id], lastoff);
    }

    /** Add an id that is in the first half to the second half. */
    method MoveToSecond(olddeps: nat, id: nat, m: nat, k: nat, ghost d: Deps) returns (off: nat)
      requires Valid() && Good(d, m) && id != m && id != 0 && m != 0
      requires Holds(idarraydata, olddeps, Encode(d, m)) && olddeps != 0
      requires k < |Encode(d, m)| && Encode(d, m)[k] == id && m !in Encode(d, m)[..k]
      modifies this
      ensures Valid() && off != 0 && Holds(idarraydata, off, Encode(AddAfter(d, id), m))
      ensures Kept(old(idarraydata), idarraydata, olddeps, |Encode(d, m)|)
      ensures off == olddeps || off >= |old(idarraydata)|
    {
      hide Minus, Holds, Good, Kept, Encode, AddAfter;
      FoundFirstHalf(d, m, id, k);
      Moved(d, m, id, k);
      var q := FindFrom(idarraydata, olddeps, olddeps + k + 1, m, Encode(d, m));
      MarkerAfter(d, m, k, q - olddeps);
      if idarraydata[q] == 0 {
        off := MoveBehindNew(olddeps, id, m, k, Encode(d, m));
      } else {
        off := olddeps;
        MoveToEnd(olddeps, id, k, Encode(d, m));
      }
    }

    /** Add an id that is not in the list before the marker. */
    method InsertInFirst(olddeps: nat, id: nat, m: nat, k: nat, ghost d: Deps) returns (off: nat)
      requires Valid() && Good(d, m) && id != m && id != 0
      requires Holds(idarraydata, olddeps, Encode(d, m))
      requires k < |Encode(d, m)| && Encode(d, m)[k] == m && id !in Encode(d, m)
      modifies this
      ensures Valid() && off != 0 && Holds(idarraydata, off, Encode(AddBefore(d, id), m))
      ensures Kept(old(idarraydata), idarraydata, olddeps, |Encode(d, m)|)
      ensures off == olddeps || off >= |old(idarraydata)|
    {
      hide Minus, Holds, Good, Kept, Encode, Add, AddAfter, AddBefore;
      ghost var list := Encode(d, m);
      Inserted(d, m, id, k);
      HoldsInside(idarraydata, olddeps, list);
      var last;
      idarraydata, last := InsertBefore(idarraydata, olddeps, k, id, m, list);
      StillValid(old(idarraydata), idarraydata, olddeps, list, list[..k] + [id, m] + list[k + 1..|list| - 1], lastoff);
      ghost var mid := idarraydata;
      off := AddId(olddeps, last, list[..k] + [id, m] + list[k + 1..|list| - 1]);
      KeptTwice(old(idarraydata), mid, idarraydata, olddeps, |list|, olddeps, |list|);
    }

    /** repo_addid_dep for a list that exists and a marker. */
    method AddMarkerDep(olddeps: nat, id: nat, marker: int, ghost d: Deps) returns (off: nat)
      requires Valid() && marker != 0 && Good(d, Abs(marker)) && id != Abs(marker) && id != 0
      requires olddeps != 0 && Holds(idarraydata, olddeps, Encode(d, Abs(marker)))
      modifies this
      ensures Valid() && off != 0 && Holds(idarraydata, off, Encode(Add(d, id, marker > 0), Abs(marker)))
      ensures Kept(old(idarraydata), idarraydata, olddeps, |Encode(d, Abs(marker))|)
      ensures off == olddeps || off >= |old(idarraydata)|
    {
      hide Minus, Holds, Good, Kept, Encode, AddAfter, AddBefore;
      var before, m := marker < 0, Abs(marker);
      ghost var list := Encode(d, m);
      EncodeFacts(d, m);
      var p, mp := Find(idarraydata, olddeps, id, m, list);
      FindMeans(idarraydata, olddeps, list, p, mp, id, m);
      ghost var k := p - olddeps;
      if idarraydata[p] != 0 {
        if mp != 0 { FoundSecondHalf(d, m, id, k, mp - olddeps); }
        if mp != 0 || before {
          AlreadyThere(d, m, id, marker > 0);
          KeptSame(idarraydata, olddeps, |list|);
          HoldsInside(idarraydata, olddeps, list);
          return olddeps;
        }
        off := MoveToSecond(olddeps, id, m, p - olddeps, d);
      } else {
        assert list[..k] == list;
        if !before && mp == 0 {
          AddedBehindNew(d, m, id);
          off := AddMarked(olddeps, id, m, list);
        } else if before && mp != 0 {
          off := InsertInFirst(olddeps, id, m, mp - olddeps, d);
        } else {
          AddedAtEnd(d, m, id, marker > 0);
          off := AddId(olddeps, id, list);
        }
      }
    }

    /** repo_addid_dep: a positive marker adds behind it, a negative one before it, none anywhere. */
    method AddIdDep(olddeps: nat, id: nat, marker: int, ghost list: seq<nat>, ghost d: Deps) returns (off: nat)
      requires Valid() && At(olddeps, list) && id != 0
      requires marker != 0 ==> Good(d, Abs(marker)) && list == Encode(d, Abs(marker)) && id != Abs(marker)
      modifies this
      ensures Valid() && off != 0 && Holds(idarraydata, off, Result(list, d, id, marker))
      ensures olddeps == 0 ==> old(idarraydata) <= idarraydata
      ensures olddeps != 0 ==> Kept(old(idarraydata), idarraydata, olddeps, |list|)
      ensures off == olddeps || off >= |old(idarraydata)|
    {
      hide Good, Holds, Kept;
      if olddeps == 0 {
        if marker > 0 {
          MinusNone([], [id]);
          off := AddMarked(olddeps, id, marker, list);
          assert list + [marker, id] == Result(list, d, id, marker);
        } else {
          assert [] + [id] == Result(list, d, id, marker);
          off := AddId(olddeps, id, list);
        }
      } else if marker == 0 {
        var p := FindFrom(idarraydata, olddeps, olddeps, id, list);
        HoldsAt(idarraydata, olddeps, list, p - olddeps);
        if idarraydata[p] == id {
          KeptSame(idarraydata, olddeps, |list|);
          return olddeps;
        }
        assert list[..|list|] == list && list[0..p - olddeps] == list;
        off := AddId(olddeps, id, list);
      } else {
        off := AddMarkerDep(olddeps, id, marker, d);
      }
    }
  }

  /** An id that is in the half it is added to, or stronger, stays. */
  lemma AlreadyThere(d: Deps, m: nat, id: nat, after: bool)
    requires Good(d, m) && id != m && if after then id in d.after else id in Encode(d, m)
    ensures Add(d, id, after) == d
  {
    EncodeFacts(d, m);
  }

  lemma HoldsInside(data: seq<nat>, o: nat, list: seq<nat>)
    requires Holds(data, o, list)
    ensures 0 < o < |data|
  {
  }

  /** An id that is not in a list without marker goes behind a new marker. */
  lemma AddedBehindNew(d: Deps, m: nat, id: nat)
    requires Good(d, m) && id !in Encode(d, m) && m !in Encode(d, m)
    ensures Encode(AddAfter(d, id), m) == Encode(d, m) + [m, id]
  {
    EncodeFacts(d, m);
    hide Minus;
    MinusNone(d.before, [id]);
  }

  /** An id that is not in the list goes to its end, if that is the half it is added to. */
  lemma AddedAtEnd(d: Deps, m: nat, id: nat, after: bool)
    requires Good(d, m) && id !in Encode(d, m) && (m in Encode(d, m) <==> after)
    ensures Encode(Add(d, id, after), m) == Encode(d, m) + [id]
  {
    EncodeFacts(d, m);
    hide Minus;
    MinusNone(d.before, [id]);
  }

  lemma KeptSame(data: seq<nat>, o: nat, n: nat)
    ensures Kept(data, data, o, n)
  {
  }

  /** The last list of the arena ends with it. */
  lemma LastEnds(data: seq<nat>, o: nat, list: seq<nat>)
    requires Holds(data, o, list) && data != [] && data[|data| - 1] == 0 && 0 !in data[o..|data| - 1]
    ensures o + |list| == |data| - 1 && data[..|data| - 1] == data[..o] + list
  {
    NotInPart(data, o, |data| - 1, 0);
    CutAt(data, o, list);
  }

  /** Rewriting a list in place keeps the arena's ends. */
  lemma StillValid(was: seq<nat>, now: seq<nat>, o: nat, list: seq<nat>, list': seq<nat>, lastoff: nat)
    requires Holds(was, o, list) && Kept(was, now, o, |list|) && |now| == |was|
    requires Holds(now, o, list') && |list'| == |list|
    requires was[0] == 0 && was[|was| - 1] == 0 && (lastoff != 0 ==> lastoff < |was| && 0 !in was[lastoff..|was| - 1])
    ensures now[0] == 0 && now[|now| - 1] == 0 && (lastoff != 0 ==> lastoff < |now| && 0 !in now[lastoff..|now| - 1])
  {
    NotInPart(now, o, o + |list|, 0);
    if lastoff != 0 {
      NotInPart(was, lastoff, |was| - 1, 0);
    }
  }

  /** Whether the marker follows index k of the list. */
  lemma MarkerAfter(d: Deps, m: nat, k: nat, q: int)
    requires Good(d, m) && k < |d.before| && k + 1 <= q <= |Encode(d, m)|
    requires m !in Encode(d, m)[k + 1..q]
    requires q < |Encode(d, m)| ==> Encode(d, m)[q] == m
    ensures q < |Encode(d, m)| <==> d.after != []
  {
    EncodeFacts(d, m);
    NotInPart(Encode(d, m), k + 1, q, m);
    assert d.after != [] ==> Encode(d, m)[|d.before|] == m;
  }

  lemma FindMeans(data: seq<nat>, o: nat, list: seq<nat>, p: nat, mp: nat, id: nat, m: nat)
    requires Holds(data, o, list) && o <= p <= o + |list| && id != 0
    requires p < o + |list| ==> data[p] == id
    requires mp != 0 ==> o <= mp < p && data[mp] == m
    ensures data[p] != 0 <==> p < o + |list|
    ensures p < o + |list| ==> list[p - o] == id
    ensures mp != 0 ==> list[mp - o] == m
  {
    HoldsAt(data, o, list, p - o);
    if mp != 0 { HoldsAt(data, o, list, mp - o); }
  }
}
