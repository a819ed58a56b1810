/** The stage-2 page table (hvisor, `arch/aarch64/paging.rs`): 3 or 4 levels of 512-entry tables
    in physical frames, 1G/2M/4K leaves, intermediate tables created on demand and never freed.

    This module is about table contents as values: the heap-separation invariant `WF` and what one
    entry update does to every address.  The mutable table is in module `Stage2`. */
module PageTable {
  import opened Wrappers
  import opened Descriptor

  datatype PagingError = NoMemory | NotMapped | AlreadyMapped | MappedToHugePage

  type PagingResult<+T> = Result<T, PagingError>

  datatype PageSize = Size4K | Size2M | Size1G
  {
    /** The table level whose entries map pages of this size. */
    function Level(): (l: nat) ensures 1 <= l <= 3 {
      match this case Size4K => 1 case Size2M => 2 case Size1G => 3
    }

    function Bytes(): nat { EntrySize(Level()) }
    predicate IsAligned(addr: nat) { addr % Bytes() == 0 }
    function AlignDown(addr: nat): nat { addr - addr % Bytes() }
    predicate IsHuge() { !Size4K? }
  }

  function SizeOfLevel(l: nat): (s: PageSize)
    requires 1 <= l <= 3
    ensures s.Level() == l
  {
    if l == 1 then Size4K else if l == 2 then Size2M else Size1G
  }

  const ENTRY_COUNT := 512

  /** Bytes covered by one entry of a level-`l` table; level 5 stands for a whole level-4 table. */
  function EntrySize(l: nat): (s: nat)
    requires 1 <= l <= 5
    ensures s > 0
  {
    if l == 1 then 0x1000 else if l == 2 then 0x20_0000 else if l == 3 then 0x4000_0000
    else if l == 4 then 0x80_0000_0000 else 0x1_0000_0000_0000
  }

  /** `p1_index` to `p4_index`. */
  function Index(l: nat, v: nat): (i: nat)
    requires 1 <= l <= 4
    ensures i < ENTRY_COUNT
  {
    v / EntrySize(l) % ENTRY_COUNT
  }

  lemma NextSize(l: nat, v: nat)
    requires 1 <= l <= 4
    ensures v / EntrySize(l) / ENTRY_COUNT == v / EntrySize(l + 1)
    ensures EntrySize(l + 1) == ENTRY_COUNT * EntrySize(l)
  {
    var q := v / EntrySize(l);
    var r := q / ENTRY_COUNT;
    assert v == q * EntrySize(l) + v % EntrySize(l);
    assert q == r * ENTRY_COUNT + q % ENTRY_COUNT;
  }

  /** Where a table sits in the tree: its level, and the number of the address range it covers. */
  datatype Place = Place(l: nat, n: nat)

  /** A table with the places of its frames; `place` is only ever used in proofs. */
  datatype View = View(level: nat, root: nat, mem: map<nat, seq<Pte>>, place: map<nat, Place>)

  datatype Slot = Slot(frame: nat, index: nat, l: nat)

  ghost predicate EntryOk(w: View, p: Place, i: nat, e: Pte)
  {
    match e
    case Unused => true
    case Table(g) => p.l > 1 && g in w.mem && g in w.place && w.place[g] == Place(p.l - 1, p.n * ENTRY_COUNT + i)
    case Leaf(a, access, huge) => 1 <= p.l <= 3 && huge == (p.l > 1) && a % EntrySize(p.l) == 0 && e.Representable()
  }

  /** Frame `g` is pointed to from the place directly above its own. */
  ghost predicate Held(w: View, g: nat, f: nat)
    requires g in w.place
  {
    && f in w.mem && f in w.place
    && w.place[f] == Place(w.place[g].l + 1, w.place[g].n / ENTRY_COUNT)
    && |w.mem[f]| == ENTRY_COUNT
    && w.mem[f][w.place[g].n % ENTRY_COUNT] == Table(g)
  }

  ghost predicate HasParent(w: View, g: nat)
    requires g in w.place
  {
    exists f :: Held(w, g, f)
  }

  ghost predicate SlotOk(w: View, f: nat, i: nat)
    requires f in w.mem && f in w.place && i < |w.mem[f]|
  {
    EntryOk(w, w.place[f], i, w.mem[f][i])
  }

  ghost predicate Shape(w: View)
  {
    && w.level in {3, 4}
    && w.place.Keys == w.mem.Keys
    && w.root in w.mem && w.place[w.root] == Place(w.level, 0)
    && (forall f :: f in w.mem ==> |w.mem[f]| == ENTRY_COUNT && 1 <= w.place[f].l <= w.level)
    && (forall f :: f in w.mem && f != w.root ==> w.place[f].l < w.level)
    && OnePlaceEach(w.place)
  }

  ghost predicate OnePlaceEach(place: map<nat, Place>)
  {
    forall f, g :: f in place && g in place && place[f] == place[g] ==> f == g
  }

  ghost predicate WF(w: View)
  {
    && Shape(w)
    && (forall f: nat, i: nat :: f in w.mem && i < ENTRY_COUNT ==> SlotOk(w, f, i))
    && (forall g: nat {:trigger HasParent(w, g)} :: g in w.mem && g != w.root ==> HasParent(w, g))
  }

  lemma ShapeOf(w: View)
    requires WF(w)
    ensures Shape(w)
  {
  }

  /** The tables form a tree: each frame but the root is named by exactly one entry. */
  lemma TablesFormTree(w: View, g: nat)
    requires WF(w) && g in w.mem
    ensures g == w.root ==> forall f, i :: f in w.mem && 0 <= i < ENTRY_COUNT ==> w.mem[f][i] != Table(g)
    ensures g != w.root ==>
              exists f, i :: f in w.mem && 0 <= i < ENTRY_COUNT && w.mem[f][i] == Table(g)
    ensures forall f, i, f', i' ::
              (f in w.mem && 0 <= i < ENTRY_COUNT && w.mem[f][i] == Table(g)
               && f' in w.mem && 0 <= i' < ENTRY_COUNT && w.mem[f'][i'] == Table(g)) ==> f == f' && i == i'
  {
    if g != w.root {
      assert HasParent(w, g);
      var f :| Held(w, g, f);
      assert f in w.mem && w.mem[f][w.place[g].n % ENTRY_COUNT] == Table(g);
    }
    forall f, i | f in w.mem && 0 <= i < ENTRY_COUNT && w.mem[f][i] == Table(g)
      ensures g != w.root && w.place[f] == Place(w.place[g].l + 1, w.place[g].n / ENTRY_COUNT)
      ensures i == w.place[g].n % ENTRY_COUNT
    {
      assert SlotOk(w, f, i);
    }
  }

  // ------------------------------------------------------------------
  // The walk, and what it says about an address

  /** `get_entry_mut` from table `f` of level `l` downwards. */
  ghost function Walk(w: View, f: nat, l: nat, v: nat): (r: PagingResult<Slot>)
    requires WF(w) && f in w.mem && w.place[f].l == l
    decreases l
  {
    var e := w.mem[f][Index(l, v)];
    assert SlotOk(w, f, Index(l, v));
    if l == 1 || (l <= 3 && e.IsHuge()) then Ok(Slot(f, Index(l, v), l))
    else if !e.IsPresent() then Err(NotMapped)
    else if e.IsHuge() then Err(MappedToHugePage)
    else Walk(w, e.Addr(), l - 1, v)
  }

  /** Levels at which an entry can be a leaf. */
  type LeafLevel = l: nat | 1 <= l <= 3 witness 1

  datatype Hit = Hit(paddr: nat, access: MemFlags, l: LeafLevel)

  /** What a query of `v` yields when its walk ends at entry `e` of level `l`. */
  ghost function HitOf(e: Pte, l: LeafLevel, v: nat): Option<Hit> {
    if e.Leaf? then Some(Hit(e.paddr + v % EntrySize(l), e.access, l)) else None
  }

  ghost function HitFrom(w: View, f: nat, l: nat, v: nat): Option<Hit>
    requires WF(w) && f in w.mem && w.place[f].l == l
  {
    WalkEnds(w, f, l, v);
    match Walk(w, f, l, v)
    case Ok(s) => HitOf(w.mem[s.frame][s.index], s.l, v)
    case Err(_) => None
  }

  /** The translation of `v`: physical address, flags and page level, or nothing. */
  ghost function Query(w: View, v: nat): Option<Hit>
    requires WF(w)
  {
    HitFrom(w, w.root, w.level, v)
  }

  /** Address `v` belongs to entry `i` of table `f`. */
  ghost predicate Covers(w: View, f: nat, i: nat, v: nat)
    requires WF(w) && f in w.mem
  {
    v / EntrySize(w.place[f].l) == w.place[f].n * ENTRY_COUNT + i
  }

  lemma {:induction false} WalkEnds(w: View, f: nat, l: nat, v: nat)
    requires WF(w) && f in w.mem && w.place[f].l == l
    ensures var r := Walk(w, f, l, v);
            && (r.Ok? ==> && r.value.frame in w.mem && 1 <= r.value.l <= 3 && r.value.l <= l
                          && w.place[r.value.frame].l == r.value.l && r.value.index == Index(r.value.l, v)
                          && !w.mem[r.value.frame][r.value.index].Table?)
            && (r.Err? ==> r.error == NotMapped)
    decreases l
  {
    var e := w.mem[f][Index(l, v)];
    assert SlotOk(w, f, Index(l, v));
    if !(l == 1 || (l <= 3 && e.IsHuge())) && e.IsPresent() && !e.IsHuge() {
      WalkEnds(w, e.Addr(), l - 1, v);
    }
  }

  /** In a table covering `v`, the indexed entry covers `v`, and so does the table it names. */
  lemma IndexedEntry(w: View, f: nat, l: nat, v: nat)
    requires WF(w) && f in w.mem && 1 <= l <= 4 && w.place[f] == Place(l, v / EntrySize(l + 1))
    ensures SlotOk(w, f, Index(l, v)) && Covers(w, f, Index(l, v), v)
    ensures var e := w.mem[f][Index(l, v)];
            e.Table? ==> l > 1 && e.next in w.mem && w.place[e.next] == Place(l - 1, v / EntrySize(l))
  {
    NextSize(l, v);
    assert SlotOk(w, f, Index(l, v));
  }

  /** A walk that starts in a table covering `v` ends in an entry covering `v`. */
  lemma {:induction false} WalkCovers(w: View, f: nat, l: nat, v: nat)
    requires WF(w) && f in w.mem && 1 <= l <= 4 && w.place[f] == Place(l, v / EntrySize(l + 1))
    ensures var r := Walk(w, f, l, v);
            r.Ok? ==> r.value.frame in w.mem && Covers(w, r.value.frame, r.value.index, v)
    decreases l
  {
    IndexedEntry(w, f, l, v);
    var e := w.mem[f][Index(l, v)];
    if e.Table? {
      WalkCovers(w, e.next, l - 1, v);
    }
  }

  /** The walk from the root passes through every table that covers `v`. */
  lemma {:induction false} WalkReaches(w: View, f: nat, v: nat)
    requires WF(w) && f in w.mem && v / EntrySize(w.place[f].l + 1) == w.place[f].n
    ensures Walk(w, w.root, w.level, v) == Walk(w, f, w.place[f].l, v)
    decreases w.level - w.place[f].l
  {
    if f != w.root {
      assert HasParent(w, f);
      var p :| Held(w, f, p);
      var l := w.place[f].l;
      NextSize(l + 1, v);
      assert Index(l + 1, v) == w.place[f].n % ENTRY_COUNT;
      WalkReaches(w, p, v);
    }
  }

  /** An entry that is no table decides every address it covers. */
  lemma QueryAtEntry(w: View, f: nat, i: nat, v: nat)
    requires WF(w) && f in w.mem && i < ENTRY_COUNT && Covers(w, f, i, v) && !w.mem[f][i].Table?
    ensures w.mem[f][i].Leaf? ==> w.place[f].l <= 3
    ensures Query(w, v) == if w.mem[f][i].Leaf? then HitOf(w.mem[f][i], w.place[f].l, v) else None
  {
    var l := w.place[f].l;
    assert SlotOk(w, f, i);
    NextSize(l, v);
    WalkReaches(w, f, v);
  }

  /** A hit says which entry it came from: the whole page around `v` translates alike. */
  lemma QuerySlot(w: View, v: nat) returns (s: Slot)
    requires WF(w) && v < EntrySize(w.level + 1) && Query(w, v).Some?
    ensures s.frame in w.mem && s.index < ENTRY_COUNT && w.place[s.frame].l == s.l == Query(w, v).value.l
    ensures Covers(w, s.frame, s.index, v) && w.mem[s.frame][s.index].Leaf?
    ensures Walk(w, w.root, w.level, v) == Ok(s)
    ensures Query(w, v) == HitOf(w.mem[s.frame][s.index], s.l, v)
    ensures forall u :: u / EntrySize(s.l) == v / EntrySize(s.l) ==>
                          Query(w, u) == HitOf(w.mem[s.frame][s.index], s.l, u)
  {
    WalkEnds(w, w.root, w.level, v);
    WalkCovers(w, w.root, w.level, v);
    s := Walk(w, w.root, w.level, v).value;
    forall u: nat | u / EntrySize(s.l) == v / EntrySize(s.l)
      ensures Query(w, u) == HitOf(w.mem[s.frame][s.index], s.l, u)
    {
      QueryAtEntry(w, s.frame, s.index, u);
    }
  }

  // ------------------------------------------------------------------
  // One entry update

  ghost function Write(w: View, f: nat, i: nat, e: Pte): View
    requires f in w.mem && i < |w.mem[f]|
  {
    w.(mem := w.mem[f := w.mem[f][i := e]])
  }

  /** `w'` keeps every entry of `w` except possibly entry `i` of table `f`. */
  ghost predicate AllBut(w: View, w': View, f: nat, i: nat)
    requires WF(w) && WF(w')
  {
    && w.mem.Keys <= w'.mem.Keys
    && (forall g :: g in w.mem ==> w'.place[g] == w.place[g])
    && (forall g, j :: g in w.mem && 0 <= j < ENTRY_COUNT && (g != f || j != i) ==> w'.mem[g][j] == w.mem[g][j])
  }

  lemma {:induction false} WalkFrame(w: View, w': View, f: nat, i: nat, x: nat, l: nat, v: nat)
    requires WF(w) && WF(w') && f in w.mem && i < ENTRY_COUNT && AllBut(w, w', f, i)
    requires x in w.mem && 1 <= l <= 4 && w.place[x] == Place(l, v / EntrySize(l + 1)) && !Covers(w, f, i, v)
    ensures Walk(w', x, l, v) == Walk(w, x, l, v)
    decreases l
  {
    IndexedEntry(w, x, l, v);
    var e := w.mem[x][Index(l, v)];
    assert w'.mem[x][Index(l, v)] == e;
    if e.Table? {
      WalkFrame(w, w', f, i, e.next, l - 1, v);
    }
  }

  lemma QueryFrame(w: View, w': View, f: nat, i: nat, v: nat)
    requires WF(w) && WF(w') && f in w.mem && i < ENTRY_COUNT && AllBut(w, w', f, i)
    requires w'.root == w.root && w'.level == w.level && v < EntrySize(w.level + 1) && !Covers(w, f, i, v)
    ensures Query(w', v) == Query(w, v)
  {
    WalkFrame(w, w', f, i, w.root, w.level, v);
    WalkEnds(w, w.root, w.level, v);
    WalkCovers(w, w.root, w.level, v);
  }

  /** Replacing a leaf or unused entry by another leaf or unused entry changes exactly the
      addresses that entry covers. */
  lemma WriteLeaf(w: View, f: nat, i: nat, e: Pte)
    requires WF(w) && f in w.mem && i < ENTRY_COUNT && w.place[f].l <= 3
    requires !w.mem[f][i].Table? && !e.Table? && EntryOk(w, w.place[f], i, e)
    ensures WF(Write(w, f, i, e))
    ensures forall v :: 0 <= v < EntrySize(w.level + 1) ==>
                          Query(Write(w, f, i, e), v)
                          == if Covers(w, f, i, v) then HitOf(e, w.place[f].l, v) else Query(w, v)
  {
    var w' := Write(w, f, i, e);
    WriteLeafWF(w, f, i, e);
    forall v: nat | v < EntrySize(w.level + 1)
      ensures Query(w', v) == if Covers(w, f, i, v) then HitOf(e, w.place[f].l, v) else Query(w, v)
    {
      if Covers(w, f, i, v) {
        QueryAtEntry(w', f, i, v);
      } else {
        QueryFrame(w, w', f, i, v);
      }
    }
  }

  lemma WriteLeafWF(w: View, f: nat, i: nat, e: Pte)
    requires WF(w) && f in w.mem && i < ENTRY_COUNT
    requires !w.mem[f][i].Table? && !e.Table? && EntryOk(w, w.place[f], i, e)
    ensures WF(Write(w, f, i, e))
  {
    var w' := Write(w, f, i, e);
    assert Shape(w') by { assert w'.mem.Keys == w.mem.Keys; }
    forall g: nat, j: nat | g in w'.mem && j < ENTRY_COUNT
      ensures SlotOk(w', g, j)
    {
      WrittenEntry(w, f, i, e, g, j);
    }
    forall g | g in w'.mem && g != w'.root ensures HasParent(w', g) {
      WrittenHeld(w, f, i, e, g);
    }
  }

  lemma WrittenEntry(w: View, f: nat, i: nat, e: Pte, g: nat, j: nat)
    requires WF(w) && f in w.mem && i < ENTRY_COUNT && g in w.mem && j < ENTRY_COUNT
    requires !e.Table? && EntryOk(w, w.place[f], i, e)
    ensures var w' := Write(w, f, i, e); EntryOk(w', w.place[g], j, w'.mem[g][j])
  {
    assert SlotOk(w, g, j);
  }

  lemma WrittenHeld(w: View, f: nat, i: nat, e: Pte, g: nat)
    requires WF(w) && f in w.mem && i < ENTRY_COUNT && g in w.mem && g != w.root
    requires !w.mem[f][i].Table?
    ensures HasParent(Write(w, f, i, e), g)
  {
    assert HasParent(w, g);
    var h :| Held(w, g, h);
    assert Held(Write(w, f, i, e), g, h);
  }

  /** A zeroed frame. */
  function EmptyTable(): (t: seq<Pte>)
    ensures |t| == ENTRY_COUNT && forall i :: 0 <= i < |t| ==> t[i] == Unused
  {
    seq(ENTRY_COUNT, _ => Unused)
  }

  /** Hanging a fresh zeroed frame `g` under an unused entry. */
  ghost function Hang(w: View, f: nat, i: nat, g: nat): View
    requires f in w.mem && f in w.place && i < |w.mem[f]| && w.place[f].l >= 1
  {
    View(w.level, w.root, w.mem[f := w.mem[f][i := Table(g)]][g := EmptyTable()],
         w.place[g := Place(w.place[f].l - 1, w.place[f].n * ENTRY_COUNT + i)])
  }

  lemma PlaceIsFree(w: View, f: nat, i: nat)
    requires WF(w) && f in w.mem && i < ENTRY_COUNT && w.mem[f][i] == Unused && w.place[f].l > 1
    ensures forall h :: h in w.mem ==> w.place[h] != Place(w.place[f].l - 1, w.place[f].n * ENTRY_COUNT + i)
  {
    forall h | h in w.mem ensures w.place[h] != Place(w.place[f].l - 1, w.place[f].n * ENTRY_COUNT + i) {
      if h != w.root { assert HasParent(w, h); }
    }
  }

  lemma HangShape(w: View, f: nat, i: nat, g: nat)
    requires WF(w) && f in w.mem && i < ENTRY_COUNT && w.mem[f][i] == Unused && w.place[f].l > 1 && g !in w.mem
    ensures Shape(Hang(w, f, i, g))
  {
    hide WF, OnePlaceEach;
    ShapeOf(w);
    PlaceIsFree(w, f, i);
    var w' := Hang(w, f, i, g);
    assert w'.place.Keys == w'.mem.Keys == w.mem.Keys + {g};
    NewPlace(w.place, g, w'.place[g]);
  }

  lemma NewPlace(place: map<nat, Place>, g: nat, p: Place)
    requires OnePlaceEach(place) && g !in place && forall h :: h in place ==> place[h] != p
    ensures OnePlaceEach(place[g := p])
  {
  }

  lemma HangWF(w: View, f: nat, i: nat, g: nat)
    requires WF(w) && f in w.mem && i < ENTRY_COUNT && w.mem[f][i] == Unused && w.place[f].l > 1 && g !in w.mem
    ensures WF(Hang(w, f, i, g))
  {
    var w' := Hang(w, f, i, g);
    HangShape(w, f, i, g);
    forall h: nat, j: nat | h in w'.mem && j < ENTRY_COUNT
      ensures SlotOk(w', h, j)
    {
      HangEntry(w, f, i, g, h, j);
    }
    forall h | h in w'.mem && h != w'.root ensures HasParent(w', h) {
      HangHeld(w, f, i, g, h);
    }
  }

  lemma HangEntry(w: View, f: nat, i: nat, g: nat, h: nat, j: nat)
    requires WF(w) && f in w.mem && i < ENTRY_COUNT && w.mem[f][i] == Unused && w.place[f].l > 1 && g !in w.mem
    requires h in w.mem.Keys + {g} && j < ENTRY_COUNT
    ensures var w' := Hang(w, f, i, g); EntryOk(w', w'.place[h], j, w'.mem[h][j])
  {
    if h != g {
      assert SlotOk(w, h, j);
    }
  }

  lemma HangHeld(w: View, f: nat, i: nat, g: nat, h: nat)
    requires WF(w) && f in w.mem && i < ENTRY_COUNT && w.mem[f][i] == Unused && w.place[f].l > 1 && g !in w.mem
    requires h in w.mem.Keys + {g} && h != w.root
    ensures HasParent(Hang(w, f, i, g), h)
  {
    var w' := Hang(w, f, i, g);
    if h == g {
      assert Held(w', g, f);
    } else {
      assert HasParent(w, h);
      var p :| Held(w, h, p);
      assert Held(w', h, p);
    }
  }

  lemma HangUnderUnused(w: View, f: nat, i: nat, g: nat, v: nat)
    requires WF(w) && f in w.mem && i < ENTRY_COUNT && w.mem[f][i] == Unused && w.place[f].l > 1 && g !in w.mem
    requires WF(Hang(w, f, i, g)) && Covers(w, f, i, v)
    ensures Query(w, v) == Query(Hang(w, f, i, g), v) == None
  {
    QueryAtEntry(w, f, i, v);
    var w' := Hang(w, f, i, g);
    var l := w'.place[g].l;
    NextSize(l, v);
    QueryAtEntry(w', g, Index(l, v), v);
  }

  /** Creating an intermediate table changes no translation. */
  lemma HangKeepsQueries(w: View, f: nat, i: nat, g: nat)
    requires WF(w) && f in w.mem && i < ENTRY_COUNT && w.mem[f][i] == Unused && w.place[f].l > 1 && g !in w.mem
    ensures WF(Hang(w, f, i, g))
    ensures forall v :: 0 <= v < EntrySize(w.level + 1) ==> Query(Hang(w, f, i, g), v) == Query(w, v)
  {
    HangWF(w, f, i, g);
    var w' := Hang(w, f, i, g);
    forall v: nat | v < EntrySize(w.level + 1) ensures Query(w', v) == Query(w, v) {
      if Covers(w, f, i, v) {
        HangUnderUnused(w, f, i, g, v);
      } else {
        HangAllBut(w, f, i, g);
        QueryFrame(w, w', f, i, v);
      }
    }
  }

  lemma HangAllBut(w: View, f: nat, i: nat, g: nat)
    requires WF(w) && f in w.mem && i < ENTRY_COUNT && w.mem[f][i] == Unused && w.place[f].l > 1 && g !in w.mem
    requires WF(Hang(w, f, i, g))
    ensures AllBut(w, Hang(w, f, i, g), f, i)
  {
  }
}
