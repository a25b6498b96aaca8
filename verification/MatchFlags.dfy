/** Do two version ranges overlap? (pool_match_flags_evr, pool_match_nevr_rel, src/pool.c)
 *
 * A range is given by an edition and three bits: 1 later, 2 equal, 4 earlier.
 */
module MatchFlags {

  const REL_GT: nat := 1
  const REL_EQ: nat := 2
  const REL_LT: nat := 4

  /** The three bits of a number, and the number with three given bits. */
  predicate Gt(a: nat) { a % 2 == 1 }
  predicate Eq(a: nat) { a / 2 % 2 == 1 }
  predicate Lt(a: nat) { a / 4 % 2 == 1 }

  function Bits(gt: bool, eq: bool, lt: bool): (r: nat)
    ensures r < 8 && (Gt(r) <==> gt) && (Eq(r) <==> eq) && (Lt(r) <==> lt)
    ensures r == 0 <==> !gt && !eq && !lt
    ensures r == 7 <==> gt && eq && lt
    ensures r == 5 <==> gt && !eq && lt
    ensures r == 2 <==> !gt && eq && !lt
  {
    (if gt then 1 else 0) + (if eq then 2 else 0) + (if lt then 4 else 0)
  }

  lemma BitsOf(a: nat)
    requires a < 8
    ensures a == Bits(Gt(a), Eq(a), Lt(a))
  {
  }

  /** Bitwise operations on three-bit numbers. */
  function And(a: nat, b: nat): nat { Bits(Gt(a) && Gt(b), Eq(a) && Eq(b), Lt(a) && Lt(b)) }
  function Or(a: nat, b: nat): nat { Bits(Gt(a) || Gt(b), Eq(a) || Eq(b), Lt(a) || Lt(b)) }
  function Xor(a: nat, b: nat): nat { Bits(Gt(a) != Gt(b), Eq(a) != Eq(b), Lt(a) != Lt(b)) }

  /** 1 << (1 + cmp) */
  function CmpBit(cmp: int): (r: nat)
    ensures r in {1, 2, 4}
  {
    if cmp < 0 then 1 else if cmp == 0 then 2 else 4
  }

  /** Provider range (pflags, pevr) against required range (flags, evr); cmp compares pevr with evr,
   * sameId tells that the two editions are the same id, in which case they are not compared. */
  function MatchFlagsEvr(pflags: nat, flags: nat, sameId: bool, cmp: int): bool {
    if pflags == 0 || flags == 0 || pflags >= 8 || flags >= 8 then false
    else if flags == 7 || pflags == 7 then true
    else if And(And(pflags, flags), 5) != 0 then true
    else if sameId then And(And(pflags, flags), 2) != 0
    else
      var f := if flags == 5 then 5 else if flags == 2 then pflags else And(Xor(flags, 5), Or(pflags, 5));
      And(f, CmpBit(cmp)) != 0
  }

  /** A total preorder of editions, given by its strict part. */
  ghost predicate Order<V(!new)>(lt: (V, V) -> bool) {
    && (forall a :: !lt(a, a))
    && (forall a, b, c {:trigger Three(a, b, c)} :: Three(a, b, c) && lt(a, b) && lt(b, c) ==> lt(a, c))
    && (forall a, b, c {:trigger Three(a, b, c)} :: Three(a, b, c) && lt(a, b) ==> lt(a, c) || lt(c, b))
  }

  ghost predicate Three<V(!new)>(a: V, b: V, c: V) { true }

  /** There is always something in between, above and below. */
  ghost predicate DenseNoEnds<V(!new)>(lt: (V, V) -> bool) {
    && (forall a, b :: lt(a, b) ==> HasBetween(lt, a, b))
    && (forall a :: HasAbove(lt, a) && HasBelow(lt, a))
  }

  ghost predicate HasBetween<V(!new)>(lt: (V, V) -> bool, a: V, b: V) { exists c :: lt(a, c) && lt(c, b) }
  ghost predicate HasAbove<V(!new)>(lt: (V, V) -> bool, a: V) { exists b :: lt(a, b) }
  ghost predicate HasBelow<V(!new)>(lt: (V, V) -> bool, a: V) { exists b :: lt(b, a) }

  ghost predicate InRange<V(!new)>(lt: (V, V) -> bool, flags: nat, evr: V, v: V) {
    || (Gt(flags) && lt(evr, v))
    || (Eq(flags) && !lt(evr, v) && !lt(v, evr))
    || (Lt(flags) && lt(v, evr))
  }

  ghost predicate Overlap<V(!new)>(lt: (V, V) -> bool, pflags: nat, pevr: V, flags: nat, evr: V) {
    exists v :: InRange(lt, pflags, pevr, v) && InRange(lt, flags, evr, v)
  }

  ghost function Compare<V(!new)>(lt: (V, V) -> bool, a: V, b: V): int {
    if lt(a, b) then -1 else if lt(b, a) then 1 else 0
  }

  /** Which bits of two ranges meet somewhere, when the first edition is earlier (c < 0), equal or later. */
  ghost predicate BitsMeet(c: int, p: nat, f: nat) {
    || (Gt(p) && Gt(f))
    || (Lt(p) && Lt(f))
    || (c == 0 && Eq(p) && Eq(f))
    || (c < 0 && ((Gt(p) && (Eq(f) || Lt(f))) || (Eq(p) && Lt(f))))
    || (c > 0 && ((Lt(p) && (Gt(f) || Eq(f))) || (Eq(p) && Gt(f))))
  }

  /** The computation on flags is the meeting of bits. */
  lemma FlagsMeet(pflags: nat, flags: nat, sameId: bool, c: int)
    requires 1 <= pflags <= 7 && 1 <= flags <= 7 && (sameId ==> c == 0)
    ensures MatchFlagsEvr(pflags, flags, sameId, c) <==> BitsMeet(c, pflags, flags)
  {
    hide Gt, Eq, Lt, Bits;
    BitsOf(pflags);
    BitsOf(flags);
    BitsOf(5);
    BitsOf(2);
    BitsOf(CmpBit(c));
    CmpBits(c);
  }

  lemma CmpBits(c: int)
    ensures (Gt(CmpBit(c)) <==> c < 0) && (Eq(CmpBit(c)) <==> c == 0) && (Lt(CmpBit(c)) <==> c > 0)
    ensures Gt(5) && !Eq(5) && Lt(5) && !Gt(2) && Eq(2) && !Lt(2)
  {
  }

  lemma OrderFacts<V(!new)>(lt: (V, V) -> bool, a: V, b: V, c: V)
    requires Order(lt)
    ensures !(lt(a, b) && lt(b, a))
    ensures lt(a, b) && lt(b, c) ==> lt(a, c)
    ensures lt(a, b) ==> lt(a, c) || lt(c, b)
  {
    assert Three(a, b, c) && Three(a, b, a);
  }

  /** No version lies where the bits do not meet. */
  lemma OnlyWhereBitsMeet<V(!new)>(lt: (V, V) -> bool, p: nat, pe: V, f: nat, e: V, v: V)
    requires Order(lt) && InRange(lt, p, pe, v) && InRange(lt, f, e, v)
    ensures BitsMeet(Compare(lt, pe, e), p, f)
  {
    hide Gt, Eq, Lt, Order;
    OrderFacts(lt, pe, e, v);
    OrderFacts(lt, e, pe, v);
    OrderFacts(lt, pe, v, e);
    OrderFacts(lt, v, pe, e);
    OrderFacts(lt, e, v, pe);
    OrderFacts(lt, v, e, pe);
  }

  lemma Above<V(!new)>(lt: (V, V) -> bool, a: V) returns (v: V)
    requires HasAbove(lt, a)
    ensures lt(a, v)
  {
    v :| lt(a, v);
  }

  lemma Below<V(!new)>(lt: (V, V) -> bool, a: V) returns (v: V)
    requires HasBelow(lt, a)
    ensures lt(v, a)
  {
    v :| lt(v, a);
  }

  lemma Between<V(!new)>(lt: (V, V) -> bool, a: V, b: V) returns (v: V)
    requires HasBetween(lt, a, b)
    ensures lt(a, v) && lt(v, b)
  {
    v :| lt(a, v) && lt(v, b);
  }

  lemma MeetAbove<V(!new)>(lt: (V, V) -> bool, p: nat, pe: V, f: nat, e: V)
    requires Order(lt) && DenseNoEnds(lt) && Gt(p) && Gt(f)
    ensures Overlap(lt, p, pe, f, e)
  {
    hide Gt, Eq, Lt, Order, Overlap, HasAbove, HasBelow, HasBetween;
    var hi := if lt(pe, e) then e else pe;
    var v := Above(lt, hi);
    OrderFacts(lt, pe, e, v);
    OrderFacts(lt, pe, v, e);
    WitnessIs(lt, p, pe, f, e, v);
  }

  lemma MeetBelow<V(!new)>(lt: (V, V) -> bool, p: nat, pe: V, f: nat, e: V)
    requires Order(lt) && DenseNoEnds(lt) && Lt(p) && Lt(f)
    ensures Overlap(lt, p, pe, f, e)
  {
    hide Gt, Eq, Lt, Order, Overlap, HasAbove, HasBelow, HasBetween;
    var lo := if lt(pe, e) then pe else e;
    var v := Below(lt, lo);
    OrderFacts(lt, v, pe, e);
    OrderFacts(lt, v, e, pe);
    WitnessIs(lt, p, pe, f, e, v);
  }

  /** The two ranges point towards each other. */
  lemma MeetBetween<V(!new)>(lt: (V, V) -> bool, p: nat, pe: V, f: nat, e: V)
    requires DenseNoEnds(lt)
    requires (lt(pe, e) && Gt(p) && Lt(f)) || (lt(e, pe) && Lt(p) && Gt(f))
    ensures Overlap(lt, p, pe, f, e)
  {
    hide Gt, Eq, Lt, Overlap, HasAbove, HasBelow, HasBetween;
    if lt(pe, e) && Gt(p) && Lt(f) {
      var v := Between(lt, pe, e);
      WitnessIs(lt, p, pe, f, e, v);
    } else {
      var v := Between(lt, e, pe);
      WitnessIs(lt, p, pe, f, e, v);
    }
  }

  /** Where the bits meet there is a version. */
  lemma BitsMeetSomewhere<V(!new)>(lt: (V, V) -> bool, p: nat, pe: V, f: nat, e: V)
    requires Order(lt) && DenseNoEnds(lt) && BitsMeet(Compare(lt, pe, e), p, f)
    ensures Overlap(lt, p, pe, f, e)
  {
    hide Gt, Eq, Lt, Overlap, Order, DenseNoEnds;
    OrderFacts(lt, pe, e, pe);
    OrderFacts(lt, pe, pe, pe);
    OrderFacts(lt, e, e, e);
    WitnessIs(lt, p, pe, f, e, pe);
    WitnessIs(lt, p, pe, f, e, e);
    if Gt(p) && Gt(f) { MeetAbove(lt, p, pe, f, e); }
    else if Lt(p) && Lt(f) { MeetBelow(lt, p, pe, f, e); }
    else if (lt(pe, e) && Gt(p) && Lt(f)) || (lt(e, pe) && Lt(p) && Gt(f)) { MeetBetween(lt, p, pe, f, e); }
  }

  lemma WitnessIs<V(!new)>(lt: (V, V) -> bool, p: nat, pe: V, f: nat, e: V, v: V)
    ensures InRange(lt, p, pe, v) && InRange(lt, f, e, v) ==> Overlap(lt, p, pe, f, e)
  {
  }

  /** The test is exact: two proper ranges match exactly when some version lies in both. */
  lemma MatchIsOverlap<V(!new)>(lt: (V, V) -> bool, pflags: nat, pevr: V, flags: nat, evr: V, sameId: bool)
    requires Order(lt) && DenseNoEnds(lt) && 1 <= pflags <= 7 && 1 <= flags <= 7
    requires sameId ==> Compare(lt, pevr, evr) == 0
    ensures MatchFlagsEvr(pflags, flags, sameId, Compare(lt, pevr, evr)) <==> Overlap(lt, pflags, pevr, flags, evr)
  {
    hide BitsMeet, Order, DenseNoEnds, MatchFlagsEvr, InRange;
    FlagsMeet(pflags, flags, sameId, Compare(lt, pevr, evr));
    if Overlap(lt, pflags, pevr, flags, evr) {
      var v :| InRange(lt, pflags, pevr, v) && InRange(lt, flags, evr, v);
      OnlyWhereBitsMeet(lt, pflags, pevr, flags, evr, v);
    }
    if BitsMeet(Compare(lt, pevr, evr), pflags, flags) {
      BitsMeetSomewhere(lt, pflags, pevr, flags, evr);
    }
  }

  /** Which side provides does not matter. */
  lemma MatchSymmetric(pflags: nat, flags: nat, sameId: bool, c: int)
    requires sameId ==> c == 0
    ensures MatchFlagsEvr(pflags, flags, sameId, c) == MatchFlagsEvr(flags, pflags, sameId, -c)
  {
    hide MatchFlagsEvr;
    if 1 <= pflags <= 7 && 1 <= flags <= 7 {
      FlagsMeet(pflags, flags, sameId, c);
      FlagsMeet(flags, pflags, sameId, -c);
    } else {
      ImproperNever(pflags, flags, sameId, c);
      ImproperNever(flags, pflags, sameId, -c);
    }
  }

  lemma ImproperNever(pflags: nat, flags: nat, sameId: bool, c: int)
    requires !(1 <= pflags <= 7 && 1 <= flags <= 7)
    ensures !MatchFlagsEvr(pflags, flags, sameId, c)
  {
  }

  /** The version branch of pool_match_nevr_rel: an installed edition against (flags, evr). */
  function MatchNevrFlags(flags: nat, sameId: bool, cmp: int): bool
    requires flags < 8
  {
    if sameId then And(flags, 2) != 0
    else if flags == 0 then false
    else if flags == 7 then true
    else And(if flags != 2 && flags != 5 then Xor(flags, 5) else flags, CmpBit(cmp)) != 0
  }

  /** A package matches a version range as if it provided its own name with '=' its own edition. */
  lemma SelfProvide(flags: nat, sameId: bool, c: int)
    requires flags < 8 && (sameId ==> c == 0)
    ensures MatchNevrFlags(flags, sameId, c) == MatchFlagsEvr(REL_EQ, flags, sameId, c)
  {
    hide Gt, Eq, Lt, Bits;
    BitsOf(flags);
    CmpBits(c);
  }
}
