/** The page cache of the vertical data (src/repopage.c, repopagestore_load_page_range).
 *
 * Pages live compressed in the file and are mapped on demand into numbered slots of one
 * memory block. A caller asks for a range of pages and gets the address of a region in
 * which they lie one behind the other.
 */
module PageStore {
  import opened Bytes
  import opened LzFormat
  import opened LzDecompress

  const PAGESIZE: nat := 32768

  /** A page: where it is mapped (-1: nowhere), and what the file holds for it. */
  datatype Page = Page(mappedAt: int, stored: seq<Byte>, compressed: bool) {
    /** The stored bytes are something the unchecked decompressor can be given. */
    ghost predicate Sound() {
      if compressed then Decode(stored, []).Some? && |Decode(stored, []).value| <= PAGESIZE
      else |stored| <= PAGESIZE
    }

    /** What the page says. */
    ghost function Text(): (t: seq<Byte>)
      requires Sound()
      ensures |t| <= PAGESIZE
    {
      if compressed then Decode(stored, []).value else stored
    }
  }

  /** Slot s of the block begins with t. */
  ghost predicate Holds(blob: seq<Byte>, s: int, t: seq<Byte>) {
    0 <= s && Address(s) + PAGESIZE <= |blob| && |t| <= PAGESIZE
    && blob[Address(s)..Address(s) + |t|] == t
  }

  /** Overwrite the block from position at on. */
  function Write(blob: seq<Byte>, at: nat, data: seq<Byte>): (r: seq<Byte>)
    requires at + |data| <= |blob|
    ensures |r| == |blob|
  {
    blob[..at] + data + blob[at + |data|..]
  }

  lemma WriteHere(blob: seq<Byte>, s: nat, data: seq<Byte>, t: seq<Byte>)
    requires Address(s) + PAGESIZE <= |blob| && |data| <= PAGESIZE && t <= data
    ensures Holds(Write(blob, Address(s), data), s, t)
  {
    var r := Write(blob, Address(s), data);
    assert r[s * PAGESIZE..s * PAGESIZE + |t|] == data[..|t|];
  }

  lemma WriteElsewhere(blob: seq<Byte>, s: nat, data: seq<Byte>, s': nat, t: seq<Byte>)
    requires Address(s) + PAGESIZE <= |blob| && |data| <= PAGESIZE && s' != s && Holds(blob, s', t)
    ensures Holds(Write(blob, Address(s), data), s', t)
  {
    var r := Write(blob, Address(s), data);
    var a := s' * PAGESIZE;
    assert s' < s ==> a + PAGESIZE <= s * PAGESIZE;
    assert s' > s ==> a >= s * PAGESIZE + PAGESIZE;
    assert r[a..a + |t|] == blob[a..a + |t|];
  }

  /** Byte address of a slot, and the slot at an address. */
  function Address(s: int): int { s * PAGESIZE }

  function SlotAt(at: int): int { at / PAGESIZE }

  lemma SlotAtAddress()
    ensures forall s {:trigger Address(s)} :: SlotAt(Address(s)) == s
    ensures forall s {:trigger Address(s)} :: 0 <= s ==> 0 <= Address(s)
  {
    forall s: int ensures SlotAt(Address(s)) == s { assert s * PAGESIZE / PAGESIZE == s; }
  }

  lemma AddressFits(s: nat, n: nat)
    requires s < n
    ensures 0 <= Address(s) && Address(s) + PAGESIZE <= n * PAGESIZE
  {
  }

  /** mapped[] and the pages' mappedAt are inverse to each other. */
  ghost predicate Inverse(mapped: seq<nat>, pages: seq<Page>) {
    && (forall s :: 0 <= s < |mapped| && mapped[s] != 0 ==> mapped[s] - 1 < |pages|)
    && (forall s :: 0 <= s < |mapped| && mapped[s] != 0 ==> pages[mapped[s] - 1].mappedAt == Address(s))
    && (forall p :: 0 <= p < |pages| && pages[p].mappedAt != -1 ==> InSlot(mapped, p, pages[p].mappedAt))
  }

  ghost predicate InSlot(mapped: seq<nat>, p: nat, at: int) {
    0 <= SlotAt(at) < |mapped| && at == Address(SlotAt(at)) && mapped[SlotAt(at)] == p + 1
  }

  /** Each mapped slot holds its page's text. */
  ghost predicate Contents(blob: seq<Byte>, mapped: seq<nat>, pages: seq<Page>)
    requires Inverse(mapped, pages) && AllSound(pages)
  {
    forall s :: 0 <= s < |mapped| && mapped[s] != 0 ==> Holds(blob, s, pages[mapped[s] - 1].Text())
  }

  ghost predicate AllSound(pages: seq<Page>) {
    forall p :: 0 <= p < |pages| ==> pages[p].Sound()
  }

  ghost predicate Consistent(blob: seq<Byte>, mapped: seq<nat>, pages: seq<Page>) {
    |blob| == |mapped| * PAGESIZE && AllSound(pages) && Inverse(mapped, pages) && Contents(blob, mapped, pages)
  }

  /** Only the mapping of pages may change, never what they say. */
  ghost predicate SameFile(before: seq<Page>, after: seq<Page>) {
    |before| == |after|
    && forall p :: 0 <= p < |before| ==>
         after[p].stored == before[p].stored && after[p].compressed == before[p].compressed
  }

  /** Every page was read in at once, at its own place. */
  ghost predicate AllResident(blob: seq<Byte>, pages: seq<Page>) {
    && |blob| == |pages| * PAGESIZE && AllSound(pages)
    && (forall p :: 0 <= p < |pages| ==> pages[p].mappedAt == p * PAGESIZE && Holds(blob, p, pages[p].Text()))
  }

  /** Pages pstart..pend lie one behind the other from address at on. */
  ghost predicate Region(blob: seq<Byte>, pages: seq<Page>, pstart: nat, pend: nat, at: nat)
    requires pend < |pages| && AllSound(pages)
  {
    exists s: nat :: at == s * PAGESIZE && forall p :: pstart <= p <= pend ==> Holds(blob, s + (p - pstart), pages[p].Text())
  }

  function Unmapped(pages: seq<Page>, i: nat): (r: seq<Page>)
    requires i < |pages|
    ensures AllSound(pages) ==> AllSound(r)
  {
    pages[i := pages[i].(mappedAt := -1)]
  }

  function MappedTo(pages: seq<Page>, i: nat, s: nat): (r: seq<Page>)
    requires i < |pages|
    ensures AllSound(pages) ==> AllSound(r)
  {
    pages[i := pages[i].(mappedAt := Address(s))]
  }

  /** Dropping what slot s holds. */
  lemma Unmap(blob: seq<Byte>, mapped: seq<nat>, pages: seq<Page>, s: nat)
    requires Consistent(blob, mapped, pages) && s < |mapped| && mapped[s] != 0
    ensures Consistent(blob, mapped[s := 0], Unmapped(pages, mapped[s] - 1))
  {
    hide Holds, Page.Text, Page.Sound, Address, SlotAt;
    SlotAtAddress();
    var mapped', pages' := mapped[s := 0], Unmapped(pages, mapped[s] - 1);
    forall t | 0 <= t < |mapped'| && mapped'[t] != 0
      ensures mapped'[t] - 1 < |pages'| && pages'[mapped'[t] - 1] == pages[mapped[t] - 1]
    {
    }
  }

  /** The slot table after page i has left its old slot. */
  function Freed(mapped: seq<nat>, page: Page): (r: seq<nat>)
    requires page.mappedAt != -1 ==> 0 <= SlotAt(page.mappedAt) < |mapped|
    ensures |r| == |mapped|
  {
    if page.mappedAt == -1 then mapped else mapped[SlotAt(page.mappedAt) := 0]
  }

  /** Once slot s is free, page i can be put there: its previous slot, if any, becomes free. */
  lemma Remap(blob: seq<Byte>, mapped: seq<nat>, pages: seq<Page>, s: nat, i: nat, data: seq<Byte>)
    requires Consistent(blob, mapped, pages) && s < |mapped| && mapped[s] == 0 && i < |pages|
    requires |data| <= PAGESIZE && pages[i].Text() <= data
    ensures Consistent(Write(blob, Address(s), data), Freed(mapped, pages[i])[s := i + 1], MappedTo(pages, i, s))
  {
    hide Holds, Page.Text, Page.Sound, Write, Address, SlotAt;
    SlotAtAddress();
    var mapped', pages' := Freed(mapped, pages[i])[s := i + 1], MappedTo(pages, i, s);
    RemapInverse(mapped, pages, s, i);
    AddressFits(s, |mapped|);
    WriteHere(blob, s, data, pages[i].Text());
    SameText(pages, i, Address(s));
    forall t | 0 <= t < |mapped'| && mapped'[t] != 0
      ensures Holds(Write(blob, Address(s), data), t, pages'[mapped'[t] - 1].Text())
    {
      if t != s {
        WriteElsewhere(blob, s, data, t, pages[mapped[t] - 1].Text());
      }
    }
  }

  lemma SameText(pages: seq<Page>, i: nat, at: int)
    requires i < |pages| && AllSound(pages)
    ensures pages[i].(mappedAt := at).Text() == pages[i].Text()
  {
  }

  /** A slot that is not freed holds another page. */
  lemma RemapOther(mapped: seq<nat>, pages: seq<Page>, i: nat, t: nat)
    requires Inverse(mapped, pages) && i < |pages| && t < |mapped| && Freed(mapped, pages[i])[t] != 0
    ensures mapped[t] == Freed(mapped, pages[i])[t] && mapped[t] - 1 < |pages| && mapped[t] - 1 != i
    ensures pages[mapped[t] - 1].mappedAt == Address(t)
  {
    hide Address, SlotAt;
    SlotAtAddress();
  }

  lemma RemapInverse(mapped: seq<nat>, pages: seq<Page>, s: nat, i: nat)
    requires Inverse(mapped, pages) && s < |mapped| && mapped[s] == 0 && i < |pages|
    ensures Inverse(Freed(mapped, pages[i])[s := i + 1], MappedTo(pages, i, s))
  {
    hide Address, SlotAt;
    SlotAtAddress();
    var mapped', pages' := Freed(mapped, pages[i])[s := i + 1], MappedTo(pages, i, s);
    assert pages[i].mappedAt != -1 ==> InSlot(mapped, i, pages[i].mappedAt);
    forall t | 0 <= t < |mapped'| && mapped'[t] != 0 && t != s
      ensures mapped'[t] - 1 < |pages'| && pages'[mapped'[t] - 1].mappedAt == Address(t)
    {
      RemapOther(mapped, pages, i, t);
    }
    forall p | 0 <= p < |pages'| && pages'[p].mappedAt != -1
      ensures InSlot(mapped', p, pages'[p].mappedAt)
    {
      if p != i { assert InSlot(mapped, p, pages[p].mappedAt); }
    }
  }

  /** Garbage in a free slot does no harm. */
  lemma Scribble(blob: seq<Byte>, mapped: seq<nat>, pages: seq<Page>, s: nat, data: seq<Byte>)
    requires Consistent(blob, mapped, pages) && s < |mapped| && mapped[s] == 0 && |data| <= PAGESIZE
    ensures Consistent(Write(blob, Address(s), data), mapped, pages)
  {
    hide Holds, Page.Text, Page.Sound, Write, Address, SlotAt;
    SlotAtAddress();
    AddressFits(s, |mapped|);
    forall t | 0 <= t < |mapped| && mapped[t] != 0
      ensures Holds(Write(blob, Address(s), data), t, pages[mapped[t] - 1].Text())
    {
      WriteElsewhere(blob, s, data, t, pages[mapped[t] - 1].Text());
    }
  }

  /** A free slot or the very page that is wanted there: such slots need not be evicted. */
  ghost predicate Cleared(mapped: seq<nat>, best: nat, from: nat, n: nat, pstart: nat) {
    best + n <= |mapped|
    && forall s :: best + from <= s < best + n ==> mapped[s] == 0 || mapped[s] == pstart + (s - best) + 1
  }

  /** Pages pstart..upto-1 sit in consecutive slots from best on. */
  ghost predicate InPlace(pages: seq<Page>, best: nat, pstart: nat, upto: nat) {
    upto <= |pages| && forall p :: pstart <= p < upto ==> pages[p].mappedAt == Address(best + (p - pstart))
  }

  /** Reading page p cannot deliver its text: the read fails, or an inner page unpacks to the wrong length. */
  ghost predicate Unusable(pages: seq<Page>, readable: set<nat>, p: nat)
    requires p < |pages| && AllSound(pages)
  {
    p !in readable || (pages[p].compressed && |pages[p].Text()| != PAGESIZE && p < |pages| - 1)
  }

  lemma InPlaceIsRegion(blob: seq<Byte>, mapped: seq<nat>, pages: seq<Page>, best: nat, pstart: nat, pend: nat)
    requires Consistent(blob, mapped, pages) && pstart <= pend < |pages|
    requires InPlace(pages, best, pstart, pend + 1)
    ensures Region(blob, pages, pstart, pend, Address(best))
  {
    hide Holds, Page.Text, Page.Sound, Address, SlotAt;
    SlotAtAddress();
    forall p | pstart <= p <= pend ensures Holds(blob, best + (p - pstart), pages[p].Text()) {
      assert InSlot(mapped, p, pages[p].mappedAt);
    }
    AddressFits(best, best + 1);
    assert Address(best) == best * PAGESIZE by { AddressIs(best); }
  }

  /** The pages are all mapped, one after the other. */
  ghost predicate InARow(pages: seq<Page>, pstart: nat, pend: nat)
    requires pstart <= pend < |pages|
  {
    && pages[pstart].mappedAt >= 0
    && forall p :: pstart <= p <= pend ==> pages[p].mappedAt == pages[pstart].mappedAt + (p - pstart) * PAGESIZE
  }

  lemma AddressIs(s: int)
    ensures Address(s) == s * PAGESIZE
  {
  }

  lemma GrowKeeps(blob: seq<Byte>, mapped: seq<nat>, pages: seq<Page>, more: seq<Byte>, free: seq<nat>)
    requires Consistent(blob, mapped, pages)
    requires |more| == |free| * PAGESIZE && forall k :: 0 <= k < |free| ==> free[k] == 0
    ensures Consistent(blob + more, mapped + free, pages)
  {
    hide Page.Text, Page.Sound, Address, SlotAt, Holds;
    SlotAtAddress();
    var mapped' := mapped + free;
    forall p | 0 <= p < |pages| && pages[p].mappedAt != -1
      ensures InSlot(mapped', p, pages[p].mappedAt)
    {
      assert InSlot(mapped, p, pages[p].mappedAt);
    }
    forall s | 0 <= s < |mapped'| && mapped'[s] != 0
      ensures Holds(blob + more, s, pages[mapped'[s] - 1].Text())
    {
      assert mapped'[s] == mapped[s];
      HoldsLonger(blob, more, s, pages[mapped[s] - 1].Text());
    }
  }

  lemma HoldsLonger(blob: seq<Byte>, more: seq<Byte>, s: int, t: seq<Byte>)
    requires Holds(blob, s, t)
    ensures Holds(blob + more, s, t)
  {
    assert (blob + more)[Address(s)..Address(s) + |t|] == blob[Address(s)..Address(s) + |t|];
  }

  class Store {
    var paging: bool          // pagefd != -1
    var blob: seq<Byte>       // blob_store
    var pages: seq<Page>
    var mapped: seq<nat>      // slot -> page + 1, 0 for a free slot; its length is ncanmap
    var rrCounter: nat

    ghost predicate Valid()
      reads this
    {
      if paging then Consistent(blob, mapped, pages) else AllResident(blob, pages)
    }

    /** A seekable page file: nothing is mapped yet. */
    constructor Paged(file: seq<Page>)
      requires AllSound(file) && forall p :: 0 <= p < |file| ==> file[p].mappedAt == -1
      ensures Valid() && paging && pages == file
    {
      paging, blob, mapped, rrCounter, pages := true, [], [], 0, file;
    }

    /** The quick check: are all pages mapped already and consecutive? */
    method AllThere(pstart: nat, pend: nat) returns (there: bool)
      requires Valid() && pstart <= pend < |pages|
      ensures there ==> pages[pstart].mappedAt >= 0 && Region(blob, pages, pstart, pend, pages[pstart].mappedAt)
      ensures there <==> InARow(pages, pstart, pend)
      ensures !there ==> paging
    {
      hide Holds, Page.Text, Page.Sound, SlotAt, Contents;
      var i := pstart;
      while i <= pend
        invariant pstart <= i <= pend + 1
        invariant i > pstart ==> pages[pstart].mappedAt != -1
        invariant forall p :: pstart <= p < i ==> pages[p].mappedAt == pages[pstart].mappedAt + (p - pstart) * PAGESIZE
      {
        if pages[i].mappedAt == -1 || (i > pstart && pages[i].mappedAt != pages[i - 1].mappedAt + PAGESIZE) {
          return false;
        }
        i := i + 1;
      }
      there := true;
      if paging {
        var best := SlotAt(pages[pstart].mappedAt);
        assert InSlot(mapped, pstart, pages[pstart].mappedAt);
        InPlaceIsRegion(blob, mapped, pages, best, pstart, pend);
      } else {
        assert pages[pstart].mappedAt == pstart * PAGESIZE;
      }
    }

    /** Room for at least n slots, and at least four. */
    method Grow(n: nat)
      requires Consistent(blob, mapped, pages)
      modifies `mapped, `blob
      ensures Consistent(blob, mapped, pages) && n <= |mapped|
    {
      if n > |mapped| {
        hide Consistent;
        var can := if n < 4 then 4 else n;
        var more, free := seq((can - |mapped|) * PAGESIZE, _ => 0), seq(can - |mapped|, _ => 0);
        GrowKeeps(blob, mapped, pages, more, free);
        blob, mapped := blob + more, mapped + free;
      }
    }

    /** Where to map n pages: the cheapest run of slots, or the next one round-robin when all cost the same. */
    method ChooseBest(pstart: nat, pend: nat) returns (best: nat)
      requires Consistent(blob, mapped, pages) && pstart <= pend < |pages| && pend - pstart < |mapped|
      modifies `rrCounter
      ensures best + (pend - pstart) < |mapped|
    {
      var n := pend - pstart;
      var cost := seq(|mapped|, i requires 0 <= i < |mapped| reads this =>
        if mapped[i] == 0 then 0 else if pstart <= mapped[i] - 1 <= pend then 1 else 3);
      var bestCost, sameCost, i := 0xffff_ffff, 0, 0;
      best := 0;
      while i + n < |mapped|
        invariant best + n < |mapped|
      {
        var c, j := cost[i], 0;
        while j < n + 1
          invariant 0 <= j <= n + 1
        {
          c := c + cost[i + j];
          j := j + 1;
        }
        if c < bestCost { bestCost, best := c, i; }
        else if c == bestCost { sameCost := sameCost + 1; }
        if c == 0 { break; }
        i := i + 1;
      }
      if sameCost == |mapped| - n - 1 {
        best := rrCounter % (|mapped| - n);
        rrCounter := (rrCounter + 1) % 0x1_0000_0000;
      }
    }

    /** Throw away every page in slots best..best+n-1 that is not already where it is wanted. */
    method Evict(best: nat, n: nat, pstart: nat)
      requires Consistent(blob, mapped, pages) && best + n <= |mapped| && pstart + n <= |pages|
      modifies `mapped, `pages
      ensures Consistent(blob, mapped, pages) && SameFile(old(pages), pages) && |mapped| == old(|mapped|)
      ensures Cleared(mapped, best, 0, n, pstart)
    {
      hide Consistent;
      var i := best;
      while i < best + n
        invariant best <= i <= best + n && |mapped| == old(|mapped|)
        invariant Consistent(blob, mapped, pages) && SameFile(old(pages), pages)
        invariant forall s :: best <= s < i ==> mapped[s] == 0 || mapped[s] == pstart + (s - best) + 1
      {
        if mapped[i] != 0 && mapped[i] - 1 != pstart + (i - best) {
          Unmap(blob, mapped, pages, i);
          ConsistentRange(blob, mapped, pages, i);
          var pnum := mapped[i] - 1;
          mapped, pages := mapped[i := 0], Unmapped(pages, pnum);
        }
        i := i + 1;
      }
    }

    /** Put page i into the cleared slot s: leave it, copy it from where it is, or read it in. */
    method Bring(i: nat, s: nat, readable: set<nat>) returns (ok: bool)
      requires Consistent(blob, mapped, pages) && i < |pages| && s < |mapped|
      requires mapped[s] == 0 || mapped[s] == i + 1
      modifies `blob, `mapped, `pages
      ensures Consistent(blob, mapped, pages) && SameFile(old(pages), pages) && |mapped| == old(|mapped|)
      ensures ok ==> pages[i].mappedAt == Address(s)
      ensures !ok ==> Unusable(pages, readable, i)
      ensures forall p :: 0 <= p < |pages| && p != i ==> pages[p] == old(pages[p])
      ensures forall t :: 0 <= t < |mapped| && t != s ==> mapped[t] == old(mapped[t]) || mapped[t] == 0
    {
      hide Consistent, Write, Address, Page.Sound, Page.Text;
      var at := pages[i].mappedAt;
      BringReady(blob, mapped, pages, i, s);
      if at == Address(s) { return true; }
      var data;
      if at != -1 {
        data := blob[at..at + PAGESIZE];
      } else {
        ok, data := ReadPage(i, readable);
        if !ok {
          if data != [] {
            Scribble(blob, mapped, pages, s, data);
            blob := Write(blob, Address(s), data);
          }
          return;
        }
      }
      Remap(blob, mapped, pages, s, i, data);
      blob, mapped, pages := Write(blob, Address(s), data), Freed(mapped, pages[i])[s := i + 1], MappedTo(pages, i, s);
      ok := true;
    }

    /** Read page i from the file and unpack it; the data is what reaches memory even when the page is refused. */
    method ReadPage(i: nat, readable: set<nat>) returns (ok: bool, data: seq<Byte>)
      requires AllSound(pages) && i < |pages|
      ensures |data| <= PAGESIZE
      ensures ok <==> !Unusable(pages, readable, i)
      ensures ok ==> data == pages[i].Text()
    {
      if i !in readable { return false, []; }
      if pages[i].compressed {
        var buf := new Byte[PAGESIZE];
        var outLen := Decompress(pages[i].stored, buf);
        data := buf[..outLen];
        ok := !(outLen != PAGESIZE && i < |pages| - 1);
      } else {
        ok, data := true, pages[i].stored;
      }
    }

    /** Make pages pstart..pend consecutive and return the address of the first; None when a page cannot be had.
     * The address is a region that holds exactly the pages' texts, and the cache stays consistent either way. */
    method LoadPageRange(pstart: nat, pend: nat, readable: set<nat>) returns (at: Option<nat>)
      requires Valid() && pstart <= pend < |pages|
      modifies this
      ensures Valid() && paging == old(paging) && SameFile(old(pages), pages)
      ensures at.Some? ==> Region(blob, pages, pstart, pend, at.value)
      ensures at.None? ==> exists p :: pstart <= p <= pend && Unusable(pages, readable, p)
    {
      hide Consistent, AllResident, Region, Unusable, Address, Page.Sound, Page.Text;
      ValidSound(paging, blob, mapped, pages);
      var there := AllThere(pstart, pend);
      if there { return Some(pages[pstart].mappedAt); }
      var n := pend - pstart + 1;
      Grow(n);
      var best := ChooseBest(pstart, pend);
      Evict(best, n, pstart);
      var i := pstart;
      while i <= pend
        invariant pstart <= i <= pend + 1 && |pages| == old(|pages|)
        invariant Consistent(blob, mapped, pages) && SameFile(old(pages), pages) && paging == old(paging)
        invariant InPlace(pages, best, pstart, i)
        invariant Cleared(mapped, best, i - pstart, n, pstart)
      {
        var ok := Bring(i, best + (i - pstart), readable);
        if !ok { return None; }
        i := i + 1;
      }
      InPlaceIsRegion(blob, mapped, pages, best, pstart, pend);
      AddressIs(best);
      at := Some(best * PAGESIZE);
    }
  }

  lemma ValidSound(paging: bool, blob: seq<Byte>, mapped: seq<nat>, pages: seq<Page>)
    requires if paging then Consistent(blob, mapped, pages) else AllResident(blob, pages)
    ensures AllSound(pages)
  {
  }

  /** Two regions that were returned for ranges with a common page, whenever they were loaded, show the same bytes for that page. */
  lemma RegionsAgree(blob1: seq<Byte>, pages1: seq<Page>, first1: nat, last1: nat, at1: nat,
                     blob2: seq<Byte>, pages2: seq<Page>, first2: nat, last2: nat, at2: nat, p: nat)
    requires SameFile(pages1, pages2) && AllSound(pages1) && AllSound(pages2) && last1 < |pages1| && last2 < |pages2|
    requires Region(blob1, pages1, first1, last1, at1) && Region(blob2, pages2, first2, last2, at2)
    requires first1 <= p <= last1 && first2 <= p <= last2
    ensures var len, from1, from2 := |pages1[p].Text()|, at1 + (p - first1) * PAGESIZE, at2 + (p - first2) * PAGESIZE;
      from1 + len <= |blob1| && from2 + len <= |blob2| && blob1[from1..from1 + len] == blob2[from2..from2 + len]
  {
    assert pages1[p].Text() == pages2[p].Text();
    PageOfRegion(blob1, pages1, first1, last1, at1, p);
    PageOfRegion(blob2, pages2, first2, last2, at2, p);
  }

  lemma PageOfRegion(blob: seq<Byte>, pages: seq<Page>, first: nat, last: nat, at: nat, p: nat)
    requires AllSound(pages) && last < |pages| && Region(blob, pages, first, last, at) && first <= p <= last
    ensures var len, from := |pages[p].Text()|, at + (p - first) * PAGESIZE;
      from + len <= |blob| && blob[from..from + len] == pages[p].Text()
  {
    var s: nat :| at == s * PAGESIZE && forall q :: first <= q <= last ==> Holds(blob, s + (q - first), pages[q].Text());
    assert Holds(blob, s + (p - first), pages[p].Text());
    assert Address(s + (p - first)) == at + (p - first) * PAGESIZE;
  }

  /** What Bring needs to know about page i and slot s. */
  lemma BringReady(blob: seq<Byte>, mapped: seq<nat>, pages: seq<Page>, i: nat, s: nat)
    requires Consistent(blob, mapped, pages) && i < |pages| && s < |mapped|
    requires mapped[s] == 0 || mapped[s] == i + 1
    ensures AllSound(pages)
    ensures 0 <= Address(s) && Address(s) + PAGESIZE <= |blob|
    ensures pages[i].mappedAt != Address(s) ==> mapped[s] == 0
    ensures pages[i].mappedAt != -1 ==>
      var at := pages[i].mappedAt;
      0 <= at && at + PAGESIZE <= |blob| && pages[i].Text() <= blob[at..at + PAGESIZE]
      && 0 <= SlotAt(at) < |mapped|
  {
    hide Page.Text, Page.Sound;
    if pages[i].mappedAt != -1 {
      var at := pages[i].mappedAt;
      assert InSlot(mapped, i, at);
      assert Holds(blob, SlotAt(at), pages[i].Text());
      assert blob[at..at + PAGESIZE][..|pages[i].Text()|] == blob[at..at + |pages[i].Text()|];
    }
  }

  lemma ConsistentRange(blob: seq<Byte>, mapped: seq<nat>, pages: seq<Page>, s: nat)
    requires Consistent(blob, mapped, pages) && s < |mapped| && mapped[s] != 0
    ensures mapped[s] - 1 < |pages|
  {
  }
}
