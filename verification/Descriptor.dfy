/** Stage-2 translation table descriptors (hvisor, `s2pt.rs`).

    `Pte` is what the generic page-table code may assume of an entry; `Encode` gives the
    64-bit VMSAv8-64 word that stands for it.  The lemmas show that every accessor of the word
    answers as the entry does, so the table proofs can be carried out on `Pte`. */
module Descriptor {

  import opened Wrappers
  import opened Arithmetic

  datatype MemFlag =
    READ | WRITE | EXECUTE | DMA | IO | COMMUNICATION | LOADABLE | ROOTSHARED | NO_HUGEPAGES | USER

  type MemFlags = set<MemFlag>

  /** The flags a descriptor can carry back. */
  const ACCESS_FLAGS: MemFlags := {READ, WRITE, IO}

  function Access(flags: MemFlags): (a: MemFlags)
    ensures a <= ACCESS_FLAGS
  {
    flags * ACCESS_FLAGS
  }

  const PHYS_LIMIT: nat := 0x1_0000_0000_0000

  /** `paddr & PHYS_ADDR_MASK`: bits 12 to 47. */
  function PhysField(w: nat): nat {
    LowBitsFit(w);
    w % PHYS_LIMIT - w % 0x1000
  }

  lemma LowBitsFit(w: nat)
    ensures w % 0x1000 <= w % PHYS_LIMIT
  {
    RemainderOfRemainder(w, 0x1000, 0x10_0000_0000);
  }

  lemma PhysFieldIsPage(w: nat)
    ensures PhysField(w) == w / 0x1000 % 0x10_0000_0000 * 0x1000
    ensures PhysField(w) < PHYS_LIMIT && PhysField(w) % 0x1000 == 0
    ensures w % 0x1000 == 0 && w < PHYS_LIMIT ==> PhysField(w) == w
  {
    var q := w / 0x1000;
    var h, l := q / 0x10_0000_0000, q % 0x10_0000_0000;
    DivModOf(w, PHYS_LIMIT, h, l * 0x1000 + w % 0x1000);
    DivModOf(l * 0x1000, 0x1000, l, 0);
  }

  // ------------------------------------------------------------------
  // Entries as the generic code sees them

  datatype Pte =
    | Unused
    | Table(next: nat)
    | Leaf(paddr: nat, access: MemFlags, huge: bool)
  {
    predicate IsUnused() { Unused? }
    predicate IsPresent() { !Unused? }

    /** An unused entry counts as huge: its NON_BLOCK bit is clear. */
    predicate IsHuge() { Unused? || (Leaf? && huge) }

    function Addr(): nat {
      match this
      case Unused => 0
      case Table(a) => a
      case Leaf(a, _, _) => a
    }

    predicate Representable() {
      && Addr() % 0x1000 == 0
      && Addr() < PHYS_LIMIT
      && (Leaf? ==> access <= ACCESS_FLAGS)
    }
  }

  // ------------------------------------------------------------------
  // Entries as words.  Attribute flags are sets of bit positions in 0..11.

  const VALID := 0
  const NON_BLOCK := 1
  const S2AP_R := 6
  const S2AP_W := 7
  const INNER := 8
  const SHAREABLE := 9
  const AF := 10
  const ATTR_WIDTH := 11

  datatype MemType = Device | Normal

  function FromMemType(t: MemType): set<nat> {
    match t
    case Device => {2}
    case Normal => {2, 3, 4, 5, INNER, SHAREABLE}
  }

  function Shr(w: nat, k: nat): nat
    decreases k, w
  {
    if k == 0 then w else Shr(w / 2, k - 1)
  }

  predicate Bit(w: nat, k: nat) {
    Shr(w, k) % 2 == 1
  }

  /** The word whose bits from `k` up to the attribute width are those of `attr`, with `hi` above. */
  function Pack(attr: set<nat>, k: nat, hi: nat): nat
    requires k <= ATTR_WIDTH
    decreases ATTR_WIDTH - k, hi
  {
    if k == ATTR_WIDTH then hi else (if k in attr then 1 else 0) + 2 * Pack(attr, k + 1, hi)
  }

  function SetAddr(w: nat, paddr: nat): nat {
    PhysFieldIsPage(paddr);
    w - PhysField(w) + PhysField(paddr)
  }

  function SetFlagsAndMemType(w: nat, attr: set<nat>, t: MemType): nat {
    PhysFieldIsPage(w);
    Pack(attr + FromMemType(t), 0, PhysField(w) / 0x800)
  }

  function AttrOfFlags(flags: MemFlags): set<nat> {
    FromMemType(if IO in flags then Device else Normal) + {VALID, AF}
    + (if READ in flags then {S2AP_R} else {})
    + (if WRITE in flags then {S2AP_W} else {})
  }

  function SetFlags(w: nat, flags: MemFlags, huge: bool): nat {
    SetFlagsAndMemType(w, AttrOfFlags(flags) + (if huge then {} else {NON_BLOCK}),
                       if IO in flags then Device else Normal)
  }

  function SetTable(w: nat, paddr: nat): nat {
    SetFlagsAndMemType(SetAddr(w, paddr), {VALID, NON_BLOCK}, Normal)
  }

  /** `mem_type` panics on an attribute index other than 1 and 15. */
  function MemTypeOf(w: nat): Option<MemType> {
    if Bit(w, 2) && !Bit(w, 3) && !Bit(w, 4) && !Bit(w, 5) then Some(Device)
    else if Bit(w, 2) && Bit(w, 3) && Bit(w, 4) && Bit(w, 5) then Some(Normal)
    else None
  }

  function FlagsOf(w: nat): Option<MemFlags> {
    match MemTypeOf(w)
    case None => None
    case Some(t) =>
      Some((if Bit(w, VALID) && Bit(w, S2AP_R) then {READ} else {})
           + (if Bit(w, S2AP_W) then {WRITE} else {})
           + (if t == Device then {IO} else {}))
  }

  /** The word the code builds for an entry, starting from a zero word. */
  function Encode(e: Pte): nat {
    match e
    case Unused => 0
    case Table(a) => SetTable(0, a)
    case Leaf(a, access, huge) => SetFlags(SetAddr(0, a), access, huge)
  }

  function AttrOf(e: Pte): set<nat> {
    match e
    case Unused => {}
    case Table(_) => {VALID, NON_BLOCK} + FromMemType(Normal)
    case Leaf(_, access, huge) => AttrOfFlags(access) + (if huge then {} else {NON_BLOCK})
  }

  lemma {:induction false} ShrShr(w: nat, j: nat, k: nat)
    ensures Shr(Shr(w, j), k) == Shr(w, j + k)
    decreases j
  {
    if j > 0 { ShrShr(w / 2, j - 1, k); }
  }

  lemma {:induction false} PackShr(attr: set<nat>, k: nat, j: nat, hi: nat)
    requires k <= j <= ATTR_WIDTH
    ensures Shr(Pack(attr, k, hi), j - k) == Pack(attr, j, hi)
    decreases j - k
  {
    if k < j {
      assert Pack(attr, k, hi) / 2 == Pack(attr, k + 1, hi);
      PackShr(attr, k + 1, j, hi);
    }
  }

  lemma PackBit(attr: set<nat>, j: nat, hi: nat)
    requires j < ATTR_WIDTH
    ensures Bit(Pack(attr, 0, hi), j) <==> j in attr
  {
    hide Pack, Shr;
    PackShr(attr, 0, j, hi);
    PackOdd(attr, j, hi);
  }

  lemma PackOdd(attr: set<nat>, j: nat, hi: nat)
    requires j < ATTR_WIDTH
    ensures Pack(attr, j, hi) % 2 == 1 <==> j in attr
  {
    var rest := Pack(attr, j + 1, hi);
    assert Pack(attr, j, hi) == (if j in attr then 1 else 0) + 2 * rest;
  }

  function BitValue(attr: set<nat>, k: nat, value: nat): nat { if k in attr then value else 0 }

  /** The low bits of a packed word, one by one. */
  lemma PackSum(attr: set<nat>, hi: nat)
    ensures Pack(attr, 0, hi)
            == BitValue(attr, 0, 0x1) + BitValue(attr, 1, 0x2) + BitValue(attr, 2, 0x4) + BitValue(attr, 3, 0x8)
               + BitValue(attr, 4, 0x10) + BitValue(attr, 5, 0x20) + BitValue(attr, 6, 0x40) + BitValue(attr, 7, 0x80)
               + BitValue(attr, 8, 0x100) + BitValue(attr, 9, 0x200) + BitValue(attr, 10, 0x400) + 0x800 * hi
  {
    hide Pack, BitValue;
    PackTop(attr, hi);
    PackStep(attr, 0, hi, 0x1);
    PackStep(attr, 1, hi, 0x2);
    PackStep(attr, 2, hi, 0x4);
    PackStep(attr, 3, hi, 0x8);
    PackStep(attr, 4, hi, 0x10);
    PackStep(attr, 5, hi, 0x20);
    PackStep(attr, 6, hi, 0x40);
    PackStep(attr, 7, hi, 0x80);
    PackStep(attr, 8, hi, 0x100);
    PackStep(attr, 9, hi, 0x200);
    PackStep(attr, 10, hi, 0x400);
  }

  /** One bit of weight `value`, and the bits above it. */
  lemma PackStep(attr: set<nat>, k: nat, hi: nat, value: nat)
    requires k < ATTR_WIDTH
    ensures value * Pack(attr, k, hi) == BitValue(attr, k, value) + 2 * value * Pack(attr, k + 1, hi)
  {
    var rest := Pack(attr, k + 1, hi);
    assert Pack(attr, k, hi) == (if k in attr then 1 else 0) + 2 * rest;
    assert value * (2 * rest) == 2 * value * rest;
    assert value * (1 + 2 * rest) == value + value * (2 * rest);
  }

  lemma FieldTwice(a: nat)
    ensures PhysField(PhysField(a)) == PhysField(a) == 0x800 * (PhysField(a) / 0x800) && SetAddr(0, a) == PhysField(a)
  {
    PhysFieldIsPage(a);
    PhysFieldIsPage(PhysField(a));
    PhysFieldIsPage(0);
    DivDiv(PhysField(a), 0x800, 2);
    var q, _ := Parts(PhysField(a), 0x1000);
    DivModOf(PhysField(a), 0x800, 2 * q, 0);
  }

  /** The word of a page, bit by bit: valid, accessed, page or block, memory type and shareability, read
      and write permission, address. */
  lemma LeafWord(paddr: nat, flags: MemFlags, huge: bool)
    ensures SetFlags(SetAddr(0, paddr), flags, huge)
            == PhysField(paddr) + 0x401 + (if huge then 0 else 0x2) + (if IO in flags then 0x4 else 0x33C)
               + (if READ in flags then 0x40 else 0) + (if WRITE in flags then 0x80 else 0)
  {
    hide Pack, PhysField, SetAddr;
    FieldTwice(paddr);
    var attr := AttrOfFlags(flags) + (if huge then {} else {NON_BLOCK});
    PackSum(attr + FromMemType(if IO in flags then Device else Normal), PhysField(paddr) / 0x800);
  }

  /** The word of a table: valid, not a block, normal memory, address. */
  lemma TableWord(paddr: nat)
    ensures SetTable(0, paddr) == PhysField(paddr) + 0x33F && Encode(Table(paddr)) == PhysField(paddr) + 0x33F
  {
    hide Pack, PhysField, SetAddr;
    FieldTwice(paddr);
    PackSum({VALID, NON_BLOCK} + FromMemType(Normal), PhysField(paddr) / 0x800);
  }

  lemma PackAddr(attr: set<nat>, a: nat)
    requires a % 0x1000 == 0 && a < PHYS_LIMIT
    ensures PhysField(Pack(attr, 0, a / 0x800)) == a
  {
    hide Pack, Shr, PhysField;
    var w := Pack(attr, 0, a / 0x800);
    PackShr(attr, 0, ATTR_WIDTH, a / 0x800);
    PackTop(attr, a / 0x800);
    ShrShr(w, ATTR_WIDTH, 1);
    DivDiv(a, 0x800, 2);
    ShrTwelve(w);
    PhysFieldIsPage(w);
    PhysFieldIsPage(a);
  }

  lemma PackTop(attr: set<nat>, hi: nat)
    ensures Pack(attr, ATTR_WIDTH, hi) == hi && Shr(hi, 1) == hi / 2
  {
  }

  lemma ShrTwelve(w: nat)
    ensures Shr(w, 12) == w / 0x1000
  {
    hide Shr;
    ShrShr(w, 4, 8);
    ShrShr(Shr(w, 4), 4, 4);
    ShrFour(w);
    ShrFour(w / 16);
    DivDiv(w, 16, 16);
    ShrFour(w / 256);
    DivDiv(w, 256, 16);
  }

  lemma ShrFour(w: nat)
    ensures Shr(w, 4) == w / 16
  {
    assert Shr(w, 4) == Shr(w / 2, 3) == Shr(w / 2 / 2, 2) == Shr(w / 2 / 2 / 2, 1) == w / 2 / 2 / 2 / 2;
    DivDiv(w, 2, 2);
    DivDiv(w, 4, 2);
    DivDiv(w, 8, 2);
  }

  lemma SetAddrFromZero(a: nat)
    requires a % 0x1000 == 0 && a < PHYS_LIMIT
    ensures PhysField(SetAddr(0, a)) == a
  {
    PhysFieldIsPage(a);
  }

  lemma AttrKeepsMemType(e: Pte)
    requires e.Leaf?
    ensures AttrOf(e) + FromMemType(if IO in e.access then Device else Normal) == AttrOf(e)
  {
  }

  lemma EncodePacks(e: Pte)
    requires e.Representable() && !e.Unused?
    ensures Encode(e) == Pack(AttrOf(e), 0, e.Addr() / 0x800)
  {
    SetAddrFromZero(e.Addr());
    if e.Leaf? { AttrKeepsMemType(e); }
  }

  lemma EncodedBits(e: Pte)
    requires e.Representable() && !e.Unused?
    ensures forall j: nat :: j < ATTR_WIDTH ==> (Bit(Encode(e), j) <==> j in AttrOf(e))
    ensures PhysField(Encode(e)) == e.Addr()
  {
    EncodePacks(e);
    PackAddr(AttrOf(e), e.Addr());
    forall j: nat | j < ATTR_WIDTH ensures Bit(Encode(e), j) <==> j in AttrOf(e) {
      PackBit(AttrOf(e), j, e.Addr() / 0x800);
    }
  }

  lemma LeafFlags(e: Pte)
    requires e.Representable() && e.Leaf?
    ensures FlagsOf(Encode(e)) == Some(e.access)
  {
    hide Encode, Bit, PhysField;
    EncodedBits(e);
    assert FlagsOf(Encode(e)).Some?;
    assert FlagsOf(Encode(e)).value == e.access;
  }

  /** `mem_type` reads the four bits of the attribute index: 1 is device memory, 15 normal memory, and
      anything else panics. */
  lemma MemTypeExactly(w: nat)
    ensures MemTypeOf(w) == if w / 4 % 16 == 1 then Some(Device) else if w / 4 % 16 == 15 then Some(Normal) else None
  {
    hide Shr;
    BitIs(w);
    DivDiv(w, 4, 2);
    DivDiv(w, 4, 4);
    DivDiv(w, 4, 8);
    FourBits(w / 4);
  }

  lemma BitIs(w: nat)
    ensures Bit(w, 2) <==> w / 4 % 2 == 1
    ensures Bit(w, 3) <==> w / 8 % 2 == 1
    ensures Bit(w, 4) <==> w / 16 % 2 == 1
    ensures Bit(w, 5) <==> w / 32 % 2 == 1
  {
    DivDiv(w, 2, 2);
    DivDiv(w, 4, 2);
    DivDiv(w, 8, 2);
    DivDiv(w, 16, 2);
    assert Shr(w, 2) == Shr(w / 2, 1) == Shr(w / 2 / 2, 0);
    assert Shr(w, 3) == Shr(w / 2, 2) == Shr(w / 2 / 2, 1) == Shr(w / 2 / 2 / 2, 0);
    ShrFour(w);
    ShrShr(w, 4, 1);
    assert Shr(w / 16, 1) == w / 16 / 2;
  }

  lemma FourBits(x: nat)
    ensures x % 16 == x % 2 + 2 * (x / 2 % 2) + 4 * (x / 4 % 2) + 8 * (x / 8 % 2)
  {
    DivDiv(x, 2, 2);
    DivDiv(x, 4, 2);
    var q1, r1 := Parts(x, 2);
    var q2, r2 := Parts(q1, 2);
    var q3, r3 := Parts(q2, 2);
    var q4, r4 := Parts(q3, 2);
    DivModOf(x, 16, q4, r1 + 2 * r2 + 4 * r3 + 8 * r4);
  }

  /** `set_addr` replaces the address and keeps every other bit. */
  lemma SetAddrExactly(w: nat, paddr: nat)
    ensures PhysField(SetAddr(w, paddr)) == PhysField(paddr)
    ensures SetAddr(w, paddr) - PhysField(SetAddr(w, paddr)) == w - PhysField(w)
  {
    var h, l := Parts(w, PHYS_LIMIT);
    PhysFieldIsPage(paddr);
    FieldBetween(h, paddr / 0x1000 % 0x10_0000_0000, w % 0x1000);
  }

  lemma FieldBetween(h: nat, page: nat, low: nat)
    requires page < 0x10_0000_0000 && low < 0x1000
    ensures PhysField(PHYS_LIMIT * h + (page * 0x1000 + low)) == page * 0x1000
  {
    var w := PHYS_LIMIT * h + (page * 0x1000 + low);
    DivModOf(w, PHYS_LIMIT, h, page * 0x1000 + low);
    DivModOf(w, 0x1000, 0x10_0000_0000 * h + page, low);
  }

  /** The entry for a page: what `set_addr` and then `set_flags` make of an empty word, whatever the
      address and the flags. */
  function NewLeaf(paddr: nat, flags: MemFlags, huge: bool): (e: Pte)
    ensures e.Representable()
    ensures Encode(e) == SetFlags(SetAddr(Encode(Unused), paddr), flags, huge)
    ensures Encode(e)
            == PhysField(paddr) + 0x401 + (if huge then 0 else 0x2) + (if IO in flags then 0x4 else 0x33C)
               + (if READ in flags then 0x40 else 0) + (if WRITE in flags then 0x80 else 0)
  {
    LeafWord(paddr, flags, huge);
    PhysFieldIsPage(paddr);
    SetAddrCuts(paddr);
    AttrIgnoresOthers(flags);
    Leaf(PhysField(paddr), Access(flags), huge)
  }

  lemma SetAddrCuts(paddr: nat)
    ensures SetAddr(0, PhysField(paddr)) == SetAddr(0, paddr)
  {
    PhysFieldIsPage(paddr);
    PhysFieldIsPage(PhysField(paddr));
  }

  lemma AttrIgnoresOthers(flags: MemFlags)
    ensures AttrOfFlags(Access(flags)) == AttrOfFlags(flags) && (IO in Access(flags) <==> IO in flags)
  {
  }

  /** Whatever flags and address a page is given, reading the descriptor back yields READ, WRITE and
      IO as given, no other flag, and bits 12 to 47 of the address. */
  lemma EncodedFlags(paddr: nat, flags: MemFlags, huge: bool)
    ensures var word := SetFlags(SetAddr(0, paddr), flags, huge);
            FlagsOf(word) == Some(Access(flags)) && PhysField(word) == PhysField(paddr)
  {
    hide SetFlags, SetAddr, FlagsOf, PhysField;
    var e := NewLeaf(paddr, flags, huge);
    LeafFlags(e);
    EncodedBits(e);
  }

  /** Every accessor of the word agrees with the entry it encodes. */
  lemma EncodeFaithful(e: Pte)
    requires e.Representable()
    ensures Encode(e) == 0 <==> e.IsUnused()
    ensures Bit(Encode(e), VALID) <==> e.IsPresent()
    ensures !Bit(Encode(e), NON_BLOCK) <==> e.IsHuge()
    ensures PhysField(Encode(e)) == e.Addr()
    ensures Bit(Encode(e), AF) <==> e.Leaf?
    ensures FlagsOf(Encode(e)) ==
            match e case Unused => None case Table(_) => Some({}) case Leaf(_, access, _) => Some(access)
  {
    hide Bit, SetFlags, SetAddr, SetTable;
    ZeroHasNoBits(ATTR_WIDTH);
    assert !Bit(0, VALID);
    match e {
      case Unused =>
      case Table(_) => EncodedBits(e);
      case Leaf(_, _, _) => EncodedBits(e); LeafFlags(e);
    }
  }

  lemma ZeroHasNoBits(n: nat)
    ensures forall k: nat :: k <= n ==> !Bit(0, k)
  {
    forall k: nat | k <= n ensures Shr(0, k) == 0 { ShrZero(k); }
  }

  lemma {:induction false} ShrZero(k: nat)
    ensures Shr(0, k) == 0
  {
    if k > 0 { ShrZero(k - 1); }
  }

  /** Decoding is determined: two entries with the same word are the same entry. */
  lemma EncodeInjective(d: Pte, e: Pte)
    requires d.Representable() && e.Representable()
    requires Encode(d) == Encode(e)
    ensures d == e
  {
    EncodeFaithful(d);
    EncodeFaithful(e);
  }
}
