/** Guest memory regions and their offset mappers (hvisor, `memory/mm.rs` and `memory/mapper.rs`). */
module Region {
  import opened Wrappers
  import opened Arithmetic
  import opened Descriptor
  import opened PageTable

  const WORD: nat := 0x1_0000_0000_0000_0000

  type Usize = x: int | 0 <= x < WORD

  /** `wrapping_sub` on 64-bit words. */
  function WrappingSub(a: nat, b: nat): Usize {
    (a - b) % WORD
  }

  /** A region with an offset mapper. */
  datatype MemoryRegion = MemoryRegion(start: nat, size: nat, flags: MemFlags, offset: Usize)
  {
    predicate Contains(v: int) { start <= v < start + size }

    predicate IsOverlapWith(other: MemoryRegion) {
      var p0, p1 := start, start + size;
      var p2, p3 := other.start, other.start + other.size;
      !(p1 <= p2 || p0 >= p3)
    }

    predicate Aligned() { start % 0x1000 == 0 && size % 0x1000 == 0 }

    function MapFn(v: nat): nat { WrappingSub(v, offset) }

    /** The physical range starts at a page and fits the 48 bits of a descriptor. */
    predicate PhysicallyPlain() { MapFn(start) % 0x1000 == 0 && MapFn(start) + size <= PHYS_LIMIT }

    /** Where `v` goes: its page frame, cut to the 48 bits a descriptor holds, plus the page offset. */
    function Xlate(v: nat): nat { PhysField(MapFn(v - v % 0x1000)) + v % 0x1000 }
  }

  function NewWithOffsetMapper(startVaddr: Usize, startPaddr: Usize, size: nat, flags: MemFlags): (r: MemoryRegion)
    ensures r.MapFn(startVaddr) == startPaddr
  {
    var r := MemoryRegion(startVaddr, size, flags, WrappingSub(startVaddr, startPaddr));
    SubOfSub(startVaddr, startPaddr);
    r
  }

  lemma SubOfSub(v: Usize, p: Usize)
    ensures WrappingSub(v, WrappingSub(v, p)) == p
  {
  }

  /** Two regions overlap exactly when some address is in both. */
  lemma OverlapIsSharedAddress(a: MemoryRegion, b: MemoryRegion)
    requires a.size > 0 && b.size > 0
    ensures a.IsOverlapWith(b) <==> exists v: nat :: a.Contains(v) && b.Contains(v)
  {
    if a.IsOverlapWith(b) {
      var v := if a.start < b.start then b.start else a.start;
      assert a.Contains(v) && b.Contains(v);
    }
  }

  /** Adding less than `s` to a multiple of `s` cannot carry across a multiple of `s * c`. */
  lemma NoCarry(n: nat, k: nat, s: nat, c: nat)
    requires s > 0 && c > 0 && k < s
    ensures s * c > 0 && (s * n + k) % (s * c) == (s * n) % (s * c) + k
  {
    var e, d := n / c, n % c;
    assert n == c * e + d;
    assert s * n == s * c * e + s * d by { Nested(s, c, e, d); }
    MulMono(s, d + 1, c);
    assert s * (d + 1) == s * d + s;
    DivModOf(s * n, s * c, e, s * d);
    DivModOf(s * n + k, s * c, e, s * d + k);
  }

  lemma NoCarryInPage(size: PageSize, p: nat, k: nat)
    requires size.IsAligned(p) && k < size.Bytes()
    ensures (p + k) % WORD == p % WORD + k && (p + k) % PHYS_LIMIT == p % PHYS_LIMIT + k
  {
    var s := size.Bytes();
    var n := p / s;
    assert p == s * n;
    match size {
      case Size4K => NoCarry(n, k, s, 0x10_0000_0000_0000); NoCarry(n, k, s, 0x10_0000_0000);
      case Size2M => NoCarry(n, k, s, 0x800_0000_0000); NoCarry(n, k, s, 0x800_0000);
      case Size1G => NoCarry(n, k, s, 0x4_0000_0000); NoCarry(n, k, s, 0x4_0000);
    }
  }

  /** A page whose base is mapped to an aligned frame maps each of its addresses as `Xlate` says,
      whatever the page size. */
  lemma PageAgreesWithXlate(r: MemoryRegion, size: PageSize, b: nat, v: nat)
    requires size.IsAligned(b) && b <= v < b + size.Bytes() && b < WORD
    requires size.Size4K? || size.IsAligned(r.MapFn(b))
    ensures var p := r.MapFn(b);
            PhysField(size.AlignDown(p)) + v % size.Bytes() == r.Xlate(v)
  {
    if size.Size4K? { SmallPageAgrees(r, b, v); } else { HugePageAgrees(r, size, b, v); }
  }

  lemma SmallPageAgrees(r: MemoryRegion, b: nat, v: nat)
    requires b % 0x1000 == 0 && b <= v < b + 0x1000 && b < WORD
    ensures var p := r.MapFn(b); PhysField(Size4K.AlignDown(p)) + v % Size4K.Bytes() == r.Xlate(v)
  {
    hide PhysField, WrappingSub;
    AlignedRemainder(Size4K, b, v);
    TruncatedField(r.MapFn(b));
    assert v - v % 0x1000 == b;
  }

  lemma AlignedAlready(size: PageSize, p: nat)
    requires size.IsAligned(p)
    ensures size.AlignDown(p) == p
  {
  }

  lemma HugePageAgrees(r: MemoryRegion, size: PageSize, b: nat, v: nat)
    requires size.IsAligned(b) && b <= v < b + size.Bytes() && b < WORD && size.IsAligned(r.MapFn(b))
    ensures var p := r.MapFn(b); PhysField(size.AlignDown(p)) + v % size.Bytes() == r.Xlate(v)
  {
    hide PhysField, WrappingSub, EntrySize;
    var p := r.MapFn(b);
    AlignedAlready(size, p);
    AlignedRemainder(size, b, v);
    var k := OffsetWithinPage(size, b, v);
    FieldWithinPage(size, p, k);
    MovedPage(r, size, b, k);
    assert r.Xlate(v) == PhysField(p + k) + v % 0x1000;
  }

  /** Within a page mapped to an aligned frame, the mapper moves along with the address. */
  lemma MovedPage(r: MemoryRegion, size: PageSize, b: nat, k: nat)
    requires b < WORD && k < size.Bytes() && size.IsAligned(r.MapFn(b))
    ensures r.MapFn(b + k) == r.MapFn(b) + k
  {
    hide EntrySize;
    NoCarryInPage(size, r.MapFn(b), k);
    ShiftedSub(b, k, r.offset, r.MapFn(b));
  }

  lemma AlignedRemainder(size: PageSize, b: nat, v: nat)
    requires size.IsAligned(b) && b <= v < b + size.Bytes()
    ensures v % size.Bytes() == v - b && v / size.Bytes() == b / size.Bytes()
  {
    var s := size.Bytes();
    assert b == s * (b / s);
    DivModOf(v, s, b / s, v - b);
  }

  lemma SumOfPages(p: nat, k: nat)
    requires p % 0x1000 == 0 && k % 0x1000 == 0
    ensures (p + k) % 0x1000 == 0
  {
    DivModOf(p + k, 0x1000, p / 0x1000 + k / 0x1000, 0);
  }

  lemma FieldWithinPage(size: PageSize, p: nat, k: nat)
    requires size.IsAligned(p) && k < size.Bytes() && k % 0x1000 == 0
    ensures PhysField(p + k) == PhysField(p) + k
  {
    hide EntrySize;
    PageMultiple(size, p);
    SumOfPages(p, k);
    NoCarryInPage(size, p, k);
  }

  lemma TruncatedField(p: nat)
    ensures PhysField(p - p % 0x1000) == PhysField(p)
  {
    PhysFieldIsPage(p);
    PhysFieldIsPage(p - p % 0x1000);
    assert (p - p % 0x1000) / 0x1000 == p / 0x1000;
  }

  lemma PageMultiple(size: PageSize, p: nat)
    requires size.IsAligned(p)
    ensures p % 0x1000 == 0
  {
    match size case Size4K => case Size2M => case Size1G =>
  }

  lemma OffsetWithinPage(size: PageSize, b: nat, v: nat) returns (k: nat)
    requires size.IsAligned(b) && b <= v < b + size.Bytes()
    ensures v - v % 0x1000 == b + k && k < size.Bytes() && k % 0x1000 == 0
  {
    hide EntrySize;
    PageMultiple(size, b);
    var q, c := v / 0x1000, b / 0x1000;
    assert v == 0x1000 * q + v % 0x1000 && b == 0x1000 * c && c <= q;
    k := 0x1000 * (q - c);
    DivModOf(k, 0x1000, q - c, 0);
  }

  lemma ShiftedSub(b: nat, k: nat, off: nat, p: nat)
    requires b < WORD && off < WORD && p == WrappingSub(b, off) && (p + k) % WORD == p % WORD + k
    ensures WrappingSub(b + k, off) == p + k
  {
    assert (b + k - off) % WORD == (p + k) % WORD;
  }

  // ------------------------------------------------------------------
  // When the translation is the mapper

  lemma SubWhole(v: nat, off: nat)
    requires v < WORD && off < WORD
    ensures WrappingSub(v, off) == if off <= v then v - off else v + WORD - off
  {
  }

  lemma SubOfPages(v: nat, off: nat)
    requires v < WORD && off < WORD
    ensures WrappingSub(v, off) % 0x1000 == v % 0x1000 <==> off % 0x1000 == 0
  {
    hide WrappingSub;
    SubWhole(v, off);
    SameRemainder(WrappingSub(v, off), off, v);
  }

  lemma SameRemainder(p: nat, off: nat, v: nat)
    requires p + off == v || p + off == v + WORD
    ensures p % 0x1000 == v % 0x1000 <==> off % 0x1000 == 0
  {
    AddMultiple(v, WORD / 0x1000, 0x1000);
    assert (p + off) % 0x1000 == v % 0x1000;
    if off % 0x1000 == 0 { AddMultiple(p, off / 0x1000, 0x1000); } else { SumRemainder(p, off); }
  }

  lemma SumRemainder(p: nat, off: nat)
    requires off % 0x1000 != 0
    ensures (p + off) % 0x1000 != p % 0x1000
  {
    var d := off % 0x1000;
    AddMultiple(p + d, off / 0x1000, 0x1000);
    RemaindersDiffer(p, p + d, 0x1000);
  }

  /** The code's translation is the mapper's address if and only if the mapper moves whole pages and
      the address has at most 48 bits. */
  lemma XlateIsPlainOffset(r: MemoryRegion, v: nat)
    requires v < WORD
    ensures r.Xlate(v) == r.MapFn(v) <==> r.offset % 0x1000 == 0 && r.MapFn(v) < PHYS_LIMIT
  {
    hide WrappingSub, PhysField;
    var k := v % 0x1000;
    var b := v - k;
    SubOfPages(v, r.offset);
    FieldPlusOffset(r.MapFn(b), k);
    if r.offset % 0x1000 == 0 {
      SubOfPages(b, r.offset);
      assert Size4K.IsAligned(r.MapFn(b)) && Size4K.Bytes() == 0x1000;
      MovedPage(r, Size4K, b, k);
    }
  }

  /** A page frame and an offset below the page size keep out of each other's way. */
  lemma FieldPlusOffset(p: nat, k: nat)
    requires k < 0x1000
    ensures (PhysField(p) + k) % 0x1000 == k
    ensures p % 0x1000 == 0 ==> (PhysField(p) == p <==> p + k < PHYS_LIMIT)
  {
    PhysFieldIsPage(p);
  }

  /** A region whose physical start is page-aligned and whose end has at most 48 bits is translated
      byte by byte. */
  lemma RegionIsPlain(r: MemoryRegion, v: nat)
    requires r.Aligned() && r.start + r.size <= WORD && r.Contains(v) && r.PhysicallyPlain()
    ensures r.Xlate(v) == r.MapFn(v) == r.MapFn(r.start) + (v - r.start)
  {
    hide WrappingSub, PhysField;
    var p := r.MapFn(r.start);
    SubOfPages(r.start, r.offset);
    ShiftedSub(r.start, v - r.start, r.offset, p);
    XlateIsPlainOffset(r, v);
  }
}
