/** Translations as functions of the address, and what mapping and unmapping ranges do to them.
    Nothing here mentions tables. */
module Ranges {
  import opened Wrappers
  import opened Arithmetic
  import opened Descriptor
  import opened PageTable
  import opened Region

  /** The translation of every address; `None` is an unmapped one. */
  type Xlation = nat -> Option<Hit>

  predicate SamePage(l: LeafLevel, u: nat, v: nat) {
    u / EntrySize(l) == v / EntrySize(l)
  }

  function PageBase(l: LeafLevel, v: nat): (b: nat)
    ensures b <= v < b + EntrySize(l)
  {
    v - v % EntrySize(l)
  }

  /** All addresses of one page are translated by that page. */
  ghost predicate Uniform(q: Xlation, span: nat)
  {
    forall u: nat, v: nat :: u < span && v < span && q(v).Some? && SamePage(q(v).value.l, u, v) ==>
                               q(u).Some? && q(u).value.l == q(v).value.l
  }

  /** `q'` is `q` with one page of level `l` mapped at `v`, where nothing was mapped. */
  ghost predicate PageMapped(q: Xlation, q': Xlation, span: nat, v: nat, l: LeafLevel, paddr: nat, access: MemFlags)
  {
    && (forall u: nat :: u < span && !SamePage(l, u, v) ==> q'(u) == q(u))
    && (forall u: nat :: u < span && SamePage(l, u, v) ==>
                           q(u).None? && q'(u) == Some(Hit(paddr + u % EntrySize(l), access, l)))
  }

  ghost predicate PageCleared(q: Xlation, q': Xlation, span: nat, v: nat, l: LeafLevel)
  {
    forall u: nat :: u < span ==> q'(u) == if SamePage(l, u, v) then None else q(u)
  }

  ghost predicate PageInside(l: LeafLevel, v: nat, lo: nat, hi: nat) {
    lo <= PageBase(l, v) && PageBase(l, v) + EntrySize(l) <= hi
  }

  /** `v` translates as `r` prescribes, by a page inside `[lo, hi)`. */
  ghost predicate MappedBy(h: Option<Hit>, r: MemoryRegion, v: nat, lo: nat, hi: nat)
  {
    h.Some? && h.value.paddr == r.Xlate(v) && h.value.access == Access(r.flags) && PageInside(h.value.l, v, lo, hi)
  }

  /** `q'` is `q` with the first `done` bytes of `r` mapped, all of which were unmapped. */
  ghost predicate RangeMapped(q: Xlation, q': Xlation, span: nat, r: MemoryRegion, done: nat)
  {
    && (forall v: nat :: v < span && !(r.start <= v < r.start + done) ==> q'(v) == q(v))
    && (forall v: nat :: v < span && r.start <= v < r.start + done ==>
                           q(v).None? && MappedBy(q'(v), r, v, r.start, r.start + done))
  }

  /** A page of level `l` may serve the address `v` of the region: it lies inside the region, its frame
      is aligned and the region does not ask for small pages. */
  predicate MayServe(r: MemoryRegion, l: LeafLevel, v: nat) {
    || l == 1
    || (&& NO_HUGEPAGES !in r.flags && r.start <= PageBase(l, v) && PageBase(l, v) + EntrySize(l) <= r.start + r.size
        && r.MapFn(PageBase(l, v)) % EntrySize(l) == 0)
  }

  /** A page of level `l` that starts at `b` may serve. */
  predicate ServesFrom(r: MemoryRegion, l: LeafLevel, b: nat) { b % EntrySize(l) == 0 && MayServe(r, l, b) }

  ghost predicate NoneLarger(r: MemoryRegion, l: LeafLevel, b: nat) {
    forall k: LeafLevel :: k > l ==> !ServesFrom(r, k, b)
  }

  /** The largest level that may serve `v`. */
  function BestLevel(r: MemoryRegion, v: nat): (best: LeafLevel)
    ensures MayServe(r, best, v) && forall l: LeafLevel :: MayServe(r, l, v) ==> l <= best
  {
    if MayServe(r, 3, v) then 3 else if MayServe(r, 2, v) then 2 else 1
  }

  /** The first `done` bytes of the region are mapped by pages as large as may be. */
  ghost predicate PagesBest(q: Xlation, span: nat, r: MemoryRegion, done: nat)
  {
    forall v: nat :: v < span && r.start <= v < r.start + done ==> q(v).Some? && q(v).value.l == BestLevel(r, v)
  }

  ghost predicate RangeCleared(q: Xlation, q': Xlation, span: nat, r: MemoryRegion, done: nat)
  {
    forall v: nat :: v < span ==> q'(v) == if r.start <= v < r.start + done then None else q(v)
  }

  /** Every page found inside `r` lies wholly inside `r`. */
  ghost predicate PagesRespect(q: Xlation, span: nat, r: MemoryRegion)
  {
    forall v: nat :: v < span && r.Contains(v) && q(v).Some? ==> PageInside(q(v).value.l, v, r.start, r.start + r.size)
  }

  lemma SamePageRange(l: LeafLevel, b: nat, u: nat)
    requires b % EntrySize(l) == 0
    ensures SamePage(l, u, b) <==> b <= u < b + EntrySize(l)
    ensures SamePage(l, u, b) ==> PageBase(l, u) == b
  {
    var s := EntrySize(l);
    assert u == s * (u / s) + u % s;
    assert b == s * (b / s);
    if b <= u < b + s { DivModOf(u, s, b / s, u - b); }
  }

  lemma BaseIsSamePage(l: LeafLevel, v: nat)
    ensures SamePage(l, PageBase(l, v), v) && PageBase(l, v) % EntrySize(l) == 0
  {
    var s := EntrySize(l);
    assert v == s * (v / s) + v % s;
    DivModOf(PageBase(l, v), s, v / s, 0);
  }

  /** One more page extends a mapped prefix. */
  lemma ExtendMapped(q: Xlation, q1: Xlation, q2: Xlation, span: nat, r: MemoryRegion, done: nat, size: PageSize)
    requires RangeMapped(q, q1, span, r, done)
    requires size.IsAligned(r.start + done) && r.start + done < WORD
    requires size.Size4K? || size.IsAligned(r.MapFn(r.start + done))
    requires var p := r.MapFn(r.start + done);
             PageMapped(q1, q2, span, r.start + done, size.Level(), PhysField(size.AlignDown(p)), Access(r.flags))
    ensures RangeMapped(q, q2, span, r, done + size.Bytes())
  {
    hide EntrySize, PhysField, WrappingSub;
    var b, l, done' := r.start + done, size.Level(), done + size.Bytes();
    forall v: nat | v < span
      ensures !(r.start <= v < r.start + done') ==> q2(v) == q(v)
      ensures r.start <= v < r.start + done' ==> q(v).None? && MappedBy(q2(v), r, v, r.start, r.start + done')
    {
      SamePageRange(l, b, v);
      if b <= v < b + size.Bytes() {
        PageAgreesWithXlate(r, size, b, v);
      }
    }
  }

  /** A page of level `l` lies in the page of a higher level around its start. */
  lemma PagesNest(l: LeafLevel, k: LeafLevel, b: nat)
    requires l <= k && b % EntrySize(l) == 0
    ensures b + EntrySize(l) <= PageBase(k, b) + EntrySize(k)
  {
    var s := EntrySize(l);
    var c := if k == l then 1 else if k == l + 1 then 512 else 262144;
    assert EntrySize(k) == s * c;
    QuotientOfRemainder(b, s, c);
    RemainderOfRemainder(b, s, c);
    WholePages(b % (s * c), s, c);
  }

  lemma WholePages(x: nat, s: nat, c: nat)
    requires s > 0 && c > 0 && x < s * c && x % s == 0
    ensures x + s <= s * c
  {
    var q, _ := Parts(x, s);
    if q >= c { MulMono(s, c, q); }
    MulMono(s, q + 1, c);
    assert s * (q + 1) == s * q + s;
  }

  lemma BaseOfAligned(l: LeafLevel, b: nat, v: nat)
    requires b % EntrySize(l) == 0 && b <= v < b + EntrySize(l)
    ensures PageBase(l, v) == b
  {
    SamePageRange(l, b, v);
  }

  /** A page that may serve an address beyond a prefix mapped by pages as large as may be starts where
      the prefix ends, or is smaller than the page that does. */
  lemma NoLargerBehind(q: Xlation, span: nat, r: MemoryRegion, done: nat, k: LeafLevel, v: nat)
    requires PagesBest(q, span, r, done) && r.start + done <= span
    requires forall u: nat :: u < span && r.start <= u < r.start + done ==>
               q(u).Some? && PageInside(q(u).value.l, u, r.start, r.start + done)
    requires k > 1 && MayServe(r, k, v) && r.start + done <= v
    ensures PageBase(k, v) >= r.start + done
  {
    hide EntrySize, BestLevel;
    var b := PageBase(k, v);
    if b < r.start + done {
      AlignedBase(k, v);
      BaseOfAligned(k, b, b);
      assert MayServe(r, k, b);
      assert q(b).value.l == BestLevel(r, b) >= k;
      PagesNest(k, q(b).value.l, b);
    }
  }

  lemma AlignedBase(l: LeafLevel, v: nat)
    ensures PageBase(l, v) % EntrySize(l) == 0
  {
    var s := EntrySize(l);
    var q, r := Parts(v, s);
    DivModOf(v - r, s, q, 0);
  }

  /** So a larger page that may serve an address of the next page starts where the prefix ends. */
  lemma ServesAtEnd(q: Xlation, span: nat, r: MemoryRegion, done: nat, l: LeafLevel, k: LeafLevel, v: nat)
    requires PagesBest(q, span, r, done) && r.start + done <= span
    requires forall u: nat :: u < span && r.start <= u < r.start + done ==>
               q(u).Some? && PageInside(q(u).value.l, u, r.start, r.start + done)
    requires (r.start + done) % EntrySize(l) == 0 && r.start + done <= v < r.start + done + EntrySize(l)
    requires k > l && MayServe(r, k, v)
    ensures ServesFrom(r, k, r.start + done)
  {
    hide EntrySize, MayServe, BestLevel, PageInside, PagesBest, PageBase;
    var b := r.start + done;
    NoLargerBehind(q, span, r, done, k, v);
    BaseBefore(l, k, b, v);
    AlignedBase(k, v);
    SameServe(r, k, v, b);
  }

  /** The next page, when it is the largest that its place allows, is the best for its addresses. */
  lemma NextIsBest(q: Xlation, span: nat, r: MemoryRegion, done: nat, l: LeafLevel, v: nat)
    requires PagesBest(q, span, r, done) && r.start + done <= span
    requires forall u: nat :: u < span && r.start <= u < r.start + done ==>
               q(u).Some? && PageInside(q(u).value.l, u, r.start, r.start + done)
    requires (r.start + done) % EntrySize(l) == 0 && r.start + done <= v < r.start + done + EntrySize(l)
    requires MayServe(r, l, r.start + done) && NoneLarger(r, l, r.start + done)
    ensures BestLevel(r, v) == l
  {
    hide EntrySize, MayServe, BestLevel, ServesFrom, PageInside, PagesBest, PageBase;
    SameServe(r, l, r.start + done, v);
    var k := BestLevel(r, v);
    if k > l { ServesAtEnd(q, span, r, done, l, k, v); }
  }

  /** Whether a page may serve depends on the page only. */
  lemma SameServe(r: MemoryRegion, l: LeafLevel, u: nat, v: nat)
    requires PageBase(l, u) == PageBase(l, v) || (u % EntrySize(l) == 0 && u <= v < u + EntrySize(l))
    ensures MayServe(r, l, u) <==> MayServe(r, l, v)
  {
    hide EntrySize, WrappingSub;
    if u % EntrySize(l) == 0 && u <= v < u + EntrySize(l) {
      BaseOfAligned(l, u, u);
      BaseOfAligned(l, u, v);
    }
  }

  /** A larger page around `v` that does not start before `b`, the start of a smaller one around it,
      starts at `b`. */
  lemma BaseBefore(l: LeafLevel, k: LeafLevel, b: nat, v: nat)
    requires l <= k && b % EntrySize(l) == 0 && b <= v < b + EntrySize(l) && PageBase(k, v) >= b
    ensures PageBase(k, v) == b == PageBase(k, b)
  {
    hide EntrySize;
    AlignedBase(k, v);
    var base := PageBase(k, v);
    CoarserAligned(l, k, base);
    if base > b { Gap(b, base, EntrySize(l)); }
    BaseOfAligned(k, b, b);
  }

  lemma CoarserAligned(l: LeafLevel, k: LeafLevel, b: nat)
    requires l <= k && b % EntrySize(k) == 0
    ensures b % EntrySize(l) == 0
  {
    var s := EntrySize(l);
    var c := if k == l then 1 else if k == l + 1 then 512 else 262144;
    assert EntrySize(k) == s * c;
    RemainderOfRemainder(b, s, c);
  }

  /** Two multiples of `s` are at least `s` apart. */
  lemma Gap(a: nat, b: nat, s: nat)
    requires s > 0 && a < b && a % s == 0 && b % s == 0
    ensures a + s <= b
  {
    if b < a + s { RemaindersDiffer(a, b, s); }
  }

  /** Mapping the largest page that the end of the prefix allows extends it by pages as large as may be. */
  lemma ExtendBest(q: Xlation, q1: Xlation, q2: Xlation, span: nat, r: MemoryRegion, done: nat,
      l: LeafLevel, paddr: nat, access: MemFlags)
    requires RangeMapped(q, q1, span, r, done) && PagesBest(q1, span, r, done) && r.start + done <= span
    requires (r.start + done) % EntrySize(l) == 0 && PageMapped(q1, q2, span, r.start + done, l, paddr, access)
    requires MayServe(r, l, r.start + done) && NoneLarger(r, l, r.start + done)
    ensures PagesBest(q2, span, r, done + EntrySize(l))
  {
    hide EntrySize, MayServe, BestLevel, NoneLarger;
    forall v: nat | v < span && r.start <= v < r.start + done + EntrySize(l)
      ensures q2(v).Some? && q2(v).value.l == BestLevel(r, v)
    {
      SamePageRange(l, r.start + done, v);
      if v >= r.start + done { NextIsBest(q1, span, r, done, l, v); }
    }
  }

  /** Something mapped within the next page was mapped before the run began. */
  lemma ObstacleWasThere(q: Xlation, q1: Xlation, span: nat, r: MemoryRegion, done: nat, size: PageSize, u: nat)
    requires RangeMapped(q, q1, span, r, done)
    requires size.IsAligned(r.start + done) && done + size.Bytes() <= r.size
    requires u < span && SamePage(size.Level(), u, r.start + done) && q1(u).Some?
    ensures r.Contains(u) && q(u).Some?
  {
    SamePageRange(size.Level(), r.start + done, u);
  }

  /** With a cleared prefix, the page found at its end starts exactly there and fits in what is left,
      if and only if it lies inside the range. */
  lemma PageStartsHere(q: Xlation, q1: Xlation, span: nat, r: MemoryRegion, done: nat)
    requires RangeCleared(q, q1, span, r, done) && Uniform(q1, span)
    requires done < r.size && r.start + r.size <= span && q1(r.start + done).Some?
    ensures var v, l := r.start + done, q1(r.start + done).value.l;
            v % EntrySize(l) == 0 && EntrySize(l) <= r.size - done <==> PageInside(l, v, r.start, r.start + r.size)
  {
    var v := r.start + done;
    var l := q1(v).value.l;
    BaseIsSamePage(l, v);
    if PageInside(l, v, r.start, r.start + r.size) {
      assert q1(PageBase(l, v)).Some?;
    }
  }

  /** Pages found in the first `done` bytes of `r` lie inside `r`. */
  ghost predicate PrefixRespects(q: Xlation, r: MemoryRegion, done: nat)
  {
    forall v: nat :: r.start <= v < r.start + done ==>
                       q(v).Some? && PageInside(q(v).value.l, v, r.start, r.start + r.size)
  }

  lemma ExtendRespects(q: Xlation, q1: Xlation, span: nat, r: MemoryRegion, done: nat)
    requires RangeCleared(q, q1, span, r, done) && Uniform(q1, span) && PrefixRespects(q, r, done)
    requires r.start + r.size <= span && done < r.size && q1(r.start + done).Some?
    requires var s := EntrySize(q1(r.start + done).value.l); (r.start + done) % s == 0 && s <= r.size - done
    ensures PrefixRespects(q, r, done + EntrySize(q1(r.start + done).value.l))
  {
    var b, l := r.start + done, q1(r.start + done).value.l;
    forall u: nat | b <= u < b + EntrySize(l)
      ensures q(u).Some? && PageInside(q(u).value.l, u, r.start, r.start + r.size)
    {
      SamePageRange(l, b, u);
      assert q1(u).Some? && q1(u).value.l == l;
    }
  }

  lemma RespectsAll(q: Xlation, span: nat, r: MemoryRegion)
    requires PrefixRespects(q, r, r.size)
    ensures PagesRespect(q, span, r)
  {
  }

  /** What an unmapping that met a page sticking out of the range has done: the prefix and that page. */
  ghost predicate ClearedThrough(q: Xlation, q': Xlation, span: nat, r: MemoryRegion, done: nat, l: LeafLevel)
  {
    forall v: nat :: v < span ==>
      q'(v) == if r.start <= v < r.start + done || SamePage(l, v, r.start + done) then None else q(v)
  }

  lemma ClearThrough(q: Xlation, q1: Xlation, q2: Xlation, span: nat, r: MemoryRegion, done: nat, l: LeafLevel)
    requires RangeCleared(q, q1, span, r, done) && PageCleared(q1, q2, span, r.start + done, l)
    ensures ClearedThrough(q, q2, span, r, done, l)
  {
  }

  lemma ClearedHead(q: Xlation, q1: Xlation, span: nat, r: MemoryRegion, done: nat)
    requires RangeCleared(q, q1, span, r, done) && r.start + done < span
    ensures q1(r.start + done) == q(r.start + done)
  {
  }

  lemma ExtendCleared(q: Xlation, q1: Xlation, q2: Xlation, span: nat, r: MemoryRegion, done: nat, l: LeafLevel)
    requires RangeCleared(q, q1, span, r, done) && (r.start + done) % EntrySize(l) == 0
    requires PageCleared(q1, q2, span, r.start + done, l)
    ensures RangeCleared(q, q2, span, r, done + EntrySize(l))
  {
    forall v: nat | v < span
      ensures q2(v) == if r.start <= v < r.start + (done + EntrySize(l)) then None else q(v)
    {
      SamePageRange(l, r.start + done, v);
    }
  }

  /** The same address and flags, whatever the page size. */
  predicate SameHit(h: Option<Hit>, h': Option<Hit>) {
    if h.None? || h'.None? then h == h' else h.value.paddr == h'.value.paddr && h.value.access == h'.value.access
  }

  /** Mapping with and without huge pages gives the same address and flags everywhere. */
  lemma HugePagesInvisible(q: Xlation, q1: Xlation, q': Xlation, q2: Xlation, span: nat, r: MemoryRegion, v: nat)
    requires RangeMapped(q, q1, span, r, r.size)
    requires RangeMapped(q', q2, span, r.(flags := r.flags + {NO_HUGEPAGES}), r.size)
    requires v < span && SameHit(q(v), q'(v))
    ensures SameHit(q1(v), q2(v))
  {
    assert Access(r.flags + {NO_HUGEPAGES}) == Access(r.flags);
    if r.start <= v < r.start + r.size {
      assert MappedBy(q1(v), r, v, r.start, r.start + r.size);
    }
  }
}
