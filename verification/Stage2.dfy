/** The mutable stage-2 page table: page and range mapping (hvisor, `arch/aarch64/paging.rs`).
    Frames come from a pool; taking one from an empty pool is the allocator's failure. */
module Stage2 {
  import opened Wrappers
  import opened Arithmetic
  import opened Descriptor
  import opened PageTable
  import opened Region
  import opened Ranges

  /** `next_table_mut`. */
  function NextTable(e: Pte): PagingResult<nat> {
    if !e.IsPresent() then Err(NotMapped)
    else if e.IsHuge() then Err(MappedToHugePage)
    else Ok(e.Addr())
  }

  function Span(level: nat): nat {
    if level == 4 then 0x1_0000_0000_0000 else 0x80_0000_0000
  }

  /** The translation a table implements. */
  ghost function Translation(w: View): (q: Xlation)
    requires WF(w)
    ensures forall v :: q(v) == Query(w, v)
  {
    (v: nat) => Query(w, v)
  }

  ghost predicate SameQueries(w: View, w': View)
    requires WF(w) && WF(w')
  {
    forall v :: 0 <= v < Span(w.level) ==> Query(w', v) == Query(w, v)
  }

  ghost predicate Grown(w: View, w': View)
    requires WF(w) && WF(w')
  {
    && w'.level == w.level && w'.root == w.root
    && w.mem.Keys <= w'.mem.Keys && w.place.Keys == w.mem.Keys && w'.place.Keys == w'.mem.Keys
    && (forall g :: g in w.mem ==> w'.place[g] == w.place[g])
  }

  /** Every table added between `w` and `w'` lies on the way to `v`, at level `l` or above. */
  ghost predicate NewOnPath(w: View, w': View, v: nat, l: nat)
    requires WF(w) && WF(w')
  {
    forall g :: g in w'.mem && g !in w.mem ==> w'.place[g].l >= l && v / EntrySize(w'.place[g].l + 1) == w'.place[g].n
  }

  /** A table hangs where a page of level `l` containing `v` would go. */
  ghost predicate TableAt(w: View, l: LeafLevel, v: nat)
    requires WF(w)
  {
    exists g :: g in w.mem && w.place[g] == Place(l - 1, v / EntrySize(l))
  }

  /** Some address below table `g` is mapped. */
  ghost predicate Inhabited(w: View, g: nat)
    requires WF(w) && g in w.mem
  {
    exists v :: 0 <= v < Span(w.level) && v / EntrySize(w.place[g].l + 1) == w.place[g].n && Query(w, v).Some?
  }

  /** No intermediate table is empty: true of a new table and kept by mapping, not by unmapping. */
  ghost predicate NoEmptyTable(w: View)
    requires WF(w)
  {
    forall g :: g in w.mem && g != w.root ==> Inhabited(w, g)
  }

  // ------------------------------------------------------------------
  // Facts used by the methods

  lemma TranslationIsUniform(w: View)
    requires WF(w)
    ensures Uniform(Translation(w), Span(w.level))
  {
    var q := Translation(w);
    forall u: nat, v: nat | u < Span(w.level) && v < Span(w.level) && q(v).Some? && SamePage(q(v).value.l, u, v)
      ensures q(u).Some? && q(u).value.l == q(v).value.l
    {
      var _ := QuerySlot(w, v);
    }
  }

  /** The entry a page would go to holds a table exactly when a table sits below it. */
  lemma TableAtEntry(w: View, f: nat, i: nat, l: LeafLevel, v: nat)
    requires WF(w) && f in w.mem && i < ENTRY_COUNT && w.place[f].l == l && Covers(w, f, i, v)
    ensures TableAt(w, l, v) <==> w.mem[f][i].Table?
  {
    assert SlotOk(w, f, i);
    if TableAt(w, l, v) {
      var g :| g in w.mem && w.place[g] == Place(l - 1, v / EntrySize(l));
      assert HasParent(w, g);
      var p :| Held(w, g, p);
      assert w.place[p] == w.place[f];
    }
  }

  lemma TableAtOld(w: View, w': View, l: LeafLevel, v: nat)
    requires WF(w) && WF(w') && Grown(w, w') && NewOnPath(w, w', v, l)
    ensures TableAt(w, l, v) <==> TableAt(w', l, v)
  {
    if TableAt(w, l, v) {
      var g :| g in w.mem && w.place[g] == Place(l - 1, v / EntrySize(l));
      assert w'.place[g] == w.place[g];
    }
  }

  /** Mapping keeps every table inhabited: old ones lose nothing, new ones lead to the new page. */
  lemma StaysInhabited(w: View, w': View, v: nat, l: LeafLevel)
    requires WF(w) && WF(w') && Grown(w, w') && NewOnPath(w, w', v, l) && NoEmptyTable(w)
    requires v < Span(w.level) && Query(w', v).Some?
    requires forall u :: 0 <= u < Span(w.level) && Query(w, u).Some? ==> Query(w', u).Some?
    ensures NoEmptyTable(w')
  {
    forall g | g in w'.mem && g != w'.root ensures Inhabited(w', g) {
      if g in w.mem {
        assert Inhabited(w, g);
        var u :| 0 <= u < Span(w.level) && u / EntrySize(w.place[g].l + 1) == w.place[g].n && Query(w, u).Some?;
        assert Query(w', u).Some?;
      }
    }
  }

  lemma AlignDownAligned(size: PageSize, p: nat)
    ensures size.IsAligned(size.AlignDown(p))
  {
    var s := size.Bytes();
    assert p == s * (p / s) + p % s;
    DivModOf(p - p % s, s, p / s, 0);
  }

  lemma RemainderOfField(size: PageSize, x: nat)
    ensures x % PHYS_LIMIT % size.Bytes() == x % size.Bytes()
  {
    var s := size.Bytes();
    var c := PHYS_LIMIT / s;
    assert PHYS_LIMIT == s * c by { match size case Size4K => case Size2M => case Size1G => }
    RemainderOfRemainder(x, s, c);
  }

  lemma AlignedField(size: PageSize, p: nat)
    ensures size.IsAligned(PhysField(size.AlignDown(p)))
    ensures PhysField(size.AlignDown(p)) % 0x1000 == 0 && PhysField(size.AlignDown(p)) < PHYS_LIMIT
  {
    AlignDownAligned(size, p);
    var x := size.AlignDown(p);
    PageMultiple(size, x);
    RemainderOfField(size, x);
    PageMultiple(size, PhysField(x));
  }

  /** Every frame is a table or free, none both, and each intermediate table was allocated once. */
  ghost predicate Accounted(root: nat, tables: set<nat>, intrm: seq<nat>, pool: seq<nat>)
  {
    && (forall f :: f in tables <==> f == root || f in intrm)
    && root !in intrm
    && Distinct(intrm) && Distinct(pool)
    && (forall f :: f in pool ==> f !in tables)
    && (forall f :: f in tables || f in pool ==> f % 0x1000 == 0 && f < PHYS_LIMIT)
  }

  ghost predicate Distinct(s: seq<nat>) {
    forall i, j :: 0 <= i < j < |s| ==> s[i] != s[j]
  }

  lemma AccountAlloc(root: nat, tables: set<nat>, intrm: seq<nat>, pool: seq<nat>)
    requires Accounted(root, tables, intrm, pool) && pool != []
    ensures pool[0] !in tables
    ensures Accounted(root, tables + {pool[0]}, intrm + [pool[0]], pool[1..])
  {
    assert pool[0] in pool;
    assert forall f :: f in pool[1..] ==> f in pool && f != pool[0];
  }

  lemma NewTable(w: View)
    requires w.level in {3, 4} && w.mem == map[w.root := EmptyTable()] && w.place == map[w.root := Place(w.level, 0)]
    ensures WF(w) && NoEmptyTable(w)
    ensures forall v :: 0 <= v < Span(w.level) ==> Query(w, v) == None
  {
  }

  lemma TableFacts(w: View, f: nat)
    requires WF(w) && f in w.mem
    ensures f in w.place && |w.mem[f]| == ENTRY_COUNT && w.level in {3, 4}
  {
  }

  /** What stepping through entry `i` of table `f` may do: create the table below, or nothing. */
  ghost predicate Descended(w: View, w': View, f: nat, i: nat, r: PagingResult<nat>)
    requires WF(w) && WF(w') && f in w.mem && i < ENTRY_COUNT
  {
    && Grown(w, w') && SameQueries(w, w')
    && (r.Ok? ==> r.value in w'.mem && w.place[f].l > 1
                  && w'.place[r.value] == Place(w.place[f].l - 1, w.place[f].n * ENTRY_COUNT + i))
    && (forall g :: g in w'.mem && g !in w.mem ==> r == Ok(g))
    && (r.Err? ==> w' == w && (r.error == NoMemory || (r.error == MappedToHugePage && w.mem[f][i].Leaf?)))
  }

  lemma CreateDescends(w: View, f: nat, i: nat, g: nat)
    requires WF(w) && f in w.mem && i < ENTRY_COUNT && w.mem[f][i] == Unused && w.place[f].l > 1 && g !in w.mem
    ensures WF(Hang(w, f, i, g)) && Descended(w, Hang(w, f, i, g), f, i, Ok(g))
    ensures Hang(w, f, i, g).mem.Keys == w.mem.Keys + {g}
  {
    HangKeepsQueries(w, f, i, g);
  }

  lemma NoFrameDescends(w: View, f: nat, i: nat)
    requires WF(w) && f in w.mem && i < ENTRY_COUNT
    ensures Descended(w, w, f, i, Err(NoMemory))
  {
  }

  lemma NextDescends(w: View, f: nat, i: nat)
    requires WF(w) && f in w.mem && i < ENTRY_COUNT && w.mem[f][i] != Unused && w.place[f].l > 1
    ensures Descended(w, w, f, i, NextTable(w.mem[f][i]))
  {
    assert SlotOk(w, f, i);
  }

  /** One level of the walk. */
  lemma WalkStep(w: View, f: nat, l: nat, v: nat)
    requires WF(w) && f in w.mem && w.place[f].l == l
    ensures 1 <= l <= 4 && |w.mem[f]| == ENTRY_COUNT
    ensures var e := w.mem[f][Index(l, v)];
            if l == 1 || (l <= 3 && e.IsHuge()) then Walk(w, f, l, v) == Ok(Slot(f, Index(l, v), l))
            else var n := NextTable(e);
                 if n.Err? then Walk(w, f, l, v) == Err(n.error)
                 else n.value in w.mem && w.place[n.value].l == l - 1 && Walk(w, f, l, v) == Walk(w, n.value, l - 1, v)
  {
    assert SlotOk(w, f, Index(l, v));
  }

  lemma RootFacts(w: View)
    requires WF(w)
    ensures Grown(w, w)
    ensures w.root in w.mem && w.root in w.place && w.place[w.root] == Place(w.level, 0) && w.level in {3, 4}
  {
  }

  /** A query in terms of the slot its walk ends in. */
  lemma QueryOfWalk(w: View, v: nat)
    requires WF(w)
    ensures var r := Walk(w, w.root, w.level, v);
            if r.Err? then r.error == NotMapped && Query(w, v) == None
            else var s := r.value;
                 && s.frame in w.mem && 1 <= s.l <= 3 && s.index < ENTRY_COUNT && |w.mem[s.frame]| == ENTRY_COUNT
                 && Query(w, v) == HitOf(w.mem[s.frame][s.index], s.l, v)
                 && !w.mem[s.frame][s.index].Table?
  {
    WalkEnds(w, w.root, w.level, v);
  }

  /** Clearing the leaf that translates `v` unmaps its page and nothing else. */
  lemma ClearLeaf(w: View, v: nat, s: Slot)
    requires WF(w) && v < Span(w.level) && Walk(w, w.root, w.level, v) == Ok(s) && Query(w, v).Some?
    ensures s.frame in w.mem && s.index < |w.mem[s.frame]| && 1 <= s.l <= 3
    ensures var w' := Write(w, s.frame, s.index, Unused);
            WF(w') && Grown(w, w') && w'.mem.Keys == w.mem.Keys
            && PageCleared(Translation(w), Translation(w'), Span(w.level), v, s.l)
  {
    var _ := QuerySlot(w, v);
    WriteLeaf(w, s.frame, s.index, Unused);
    var w' := Write(w, s.frame, s.index, Unused);
    forall u: nat | u < Span(w.level)
      ensures Translation(w')(u) == if SamePage(s.l, u, v) then None else Translation(w)(u)
    {
      assert Covers(w, s.frame, s.index, u) <==> SamePage(s.l, u, v);
    }
  }

  ghost predicate Kept(w: View, w': View, v: nat, l: nat)
    requires WF(w) && WF(w')
  {
    Grown(w, w') && SameQueries(w, w') && NewOnPath(w, w', v, l)
  }

  /** Some steps on, table `f` of level `l` covers `v`, and only tables towards `v` were added. */
  ghost predicate Reached(w: View, w': View, v: nat, l: nat, f: nat)
    requires WF(w) && WF(w')
  {
    Kept(w, w', v, l) && 1 <= l <= 4 && f in w'.mem && w'.place[f] == Place(l, v / EntrySize(l + 1))
  }

  lemma ReachedRoot(w: View, v: nat)
    requires WF(w) && v < Span(w.level)
    ensures Reached(w, w, v, w.level, w.root)
  {
  }

  lemma ReachedFacts(w: View, w': View, v: nat, l: nat, f: nat)
    requires WF(w) && WF(w') && Reached(w, w', v, l, f)
    ensures f in w'.mem && f in w'.place && w'.place[f].l == l
    ensures forall l0: nat :: l0 <= l ==> Kept(w, w', v, l0)
  {
    hide WF, Query, Walk;
  }

  lemma ChildPlace(w: View, f: nat, l: nat, v: nat)
    requires WF(w) && f in w.mem && 1 <= l <= 4 && w.place[f] == Place(l, v / EntrySize(l + 1))
    ensures w.place[f].n * ENTRY_COUNT + Index(l, v) == v / EntrySize(l)
  {
    NextSize(l, v);
  }

  lemma LeafOnTheWay(w: View, f: nat, l: nat, v: nat)
    requires WF(w) && f in w.mem && 1 <= l <= 4 && w.place[f] == Place(l, v / EntrySize(l + 1))
    requires w.mem[f][Index(l, v)].Leaf?
    ensures Query(w, v).Some?
  {
    IndexedEntry(w, f, l, v);
    QueryAtEntry(w, f, Index(l, v), v);
  }

  lemma KeptStep(w: View, w1: View, w2: View, v: nat, l: nat, g: nat)
    requires WF(w) && WF(w1) && WF(w2) && Kept(w, w1, v, l) && 1 < l <= 4
    requires Grown(w1, w2) && SameQueries(w1, w2) && g in w2.mem && w2.place[g] == Place(l - 1, v / EntrySize(l))
    requires forall h :: h in w2.mem && h !in w1.mem ==> h == g
    ensures Kept(w, w2, v, l - 1)
  {
    hide WF, Query, Walk;
    assert forall h :: h in w1.mem ==> w2.place[h] == w1.place[h];
  }

  lemma ReachedStep(w: View, w1: View, w2: View, v: nat, l: nat, f: nat, r: PagingResult<nat>)
    requires WF(w) && WF(w1) && WF(w2) && v < Span(w.level) && Reached(w, w1, v, l, f) && l > 1
    requires Descended(w1, w2, f, Index(l, v), r)
    ensures r.Ok? ==> Reached(w, w2, v, l - 1, r.value)
    ensures r.Err? ==> w2 == w1 && (r.error == NoMemory || (r.error == MappedToHugePage && Query(w, v).Some?))
  {
    hide WF, Query, Walk, Kept, Grown, SameQueries;
    ChildPlace(w1, f, l, v);
    if r.Ok? {
      KeptStep(w, w1, w2, v, l, r.value);
    } else if r.error == MappedToHugePage {
      LeafOnTheWay(w1, f, l, v);
      KeptQuery(w, w1, v, l);
    }
  }

  lemma KeptQuery(w: View, w1: View, v: nat, l: nat)
    requires WF(w) && WF(w1) && Kept(w, w1, v, l) && v < Span(w.level)
    ensures Query(w1, v) == Query(w, v)
  {
    hide WF, Query, Walk;
  }

  ghost predicate PageAdded(w: View, w': View, v: nat, l: LeafLevel, paddr: nat, access: MemFlags)
    requires WF(w) && WF(w')
  {
    && Grown(w, w') && NewOnPath(w, w', v, l)
    && PageMapped(Translation(w), Translation(w'), Span(w.level), v, l, paddr, access)
    && (NoEmptyTable(w) ==> NoEmptyTable(w'))
  }

  lemma UnusedHere(w: View, w1: View, f: nat, v: nat, l: LeafLevel, u: nat)
    requires WF(w) && WF(w1) && v < Span(w.level) && u < Span(w.level) && Reached(w, w1, v, l, f)
    requires w1.mem[f][Index(l, v)] == Unused
    ensures SamePage(l, u, v) <==> Covers(w1, f, Index(l, v), u)
    ensures SamePage(l, u, v) ==> Query(w, u).None?
  {
    IndexedEntry(w1, f, l, v);
    if SamePage(l, u, v) { QueryAtEntry(w1, f, Index(l, v), u); }
  }

  lemma NoTableHere(w: View, w1: View, f: nat, v: nat, l: LeafLevel)
    requires WF(w) && WF(w1) && v < Span(w.level) && Reached(w, w1, v, l, f)
    ensures w1.mem[f][Index(l, v)].Table? <==> TableAt(w, l, v)
  {
    IndexedEntry(w1, f, l, v);
    TableAtEntry(w1, f, Index(l, v), l, v);
    TableAtOld(w, w1, l, v);
  }

  /** What a leaf written into an unused entry does to one address. */
  lemma LeafMapsAt(w: View, w1: View, f: nat, v: nat, l: LeafLevel, e: Pte, u: nat)
    requires WF(w) && WF(w1) && v < Span(w.level) && u < Span(w.level) && Reached(w, w1, v, l, f)
    requires w1.mem[f][Index(l, v)] == Unused && e.Leaf? && EntryOk(w1, w1.place[f], Index(l, v), e)
    ensures WF(Write(w1, f, Index(l, v), e))
    ensures var q' := Query(Write(w1, f, Index(l, v), e), u);
            if SamePage(l, u, v) then Query(w, u).None? && q' == HitOf(e, l, u) else q' == Query(w, u)
  {
    hide WF, Query, Walk, HitOf;
    TableFacts(w1, f);
    WriteLeaf(w1, f, Index(l, v), e);
    UnusedHere(w, w1, f, v, l, u);
    assert Query(w1, u) == Query(w, u);
  }

  lemma LeafMapsPage(w: View, w1: View, f: nat, v: nat, l: LeafLevel, e: Pte)
    requires WF(w) && WF(w1) && v < Span(w.level) && Reached(w, w1, v, l, f)
    requires w1.mem[f][Index(l, v)] == Unused && e.Leaf? && EntryOk(w1, w1.place[f], Index(l, v), e)
    ensures WF(Write(w1, f, Index(l, v), e))
    ensures PageMapped(Translation(w), Translation(Write(w1, f, Index(l, v), e)), Span(w.level),
                       v, l, e.paddr, e.access)
  {
    hide WF, Query, Walk, Reached, Covers, EntryOk, SamePage;
    ReachedFacts(w, w1, v, l, f);
    TableFacts(w1, f);
    LeafMapsAt(w, w1, f, v, l, e, v);
    forall u: nat | u < Span(w.level)
      ensures var q' := Query(Write(w1, f, Index(l, v), e), u);
              if SamePage(l, u, v) then Query(w, u).None? && q' == Some(Hit(e.paddr + u % EntrySize(l), e.access, l))
              else q' == Query(w, u)
    {
      LeafMapsAt(w, w1, f, v, l, e, u);
    }
  }

  lemma MappedKeepsInhabited(w: View, w': View, v: nat, l: LeafLevel, paddr: nat, access: MemFlags)
    requires WF(w) && WF(w') && Grown(w, w') && NewOnPath(w, w', v, l) && v < Span(w.level)
    requires PageMapped(Translation(w), Translation(w'), Span(w.level), v, l, paddr, access)
    ensures NoEmptyTable(w) ==> NoEmptyTable(w')
  {
    hide WF, Query, Walk;
    assert Translation(w')(v).Some?;
    forall u | 0 <= u < Span(w.level) && Query(w, u).Some? ensures Query(w', u).Some? {
      assert Translation(w)(u).Some?;
      assert Translation(w')(u).Some?;
    }
    if NoEmptyTable(w) { StaysInhabited(w, w', v, l); }
  }

  lemma WriteGrows(w: View, w1: View, f: nat, v: nat, l: LeafLevel, e: Pte)
    requires WF(w) && WF(w1) && v < Span(w.level) && Reached(w, w1, v, l, f) && WF(Write(w1, f, Index(l, v), e))
    ensures Grown(w, Write(w1, f, Index(l, v), e)) && NewOnPath(w, Write(w1, f, Index(l, v), e), v, l)
    ensures Write(w1, f, Index(l, v), e).mem.Keys == w1.mem.Keys
  {
    hide Query, Walk, WF, EntrySize;
    ShapeOf(w);
    ShapeOf(w1);
    ShapeOf(Write(w1, f, Index(l, v), e));
  }

  /** Writing a leaf into the unused entry a walk has reached maps its page and nothing else. */
  lemma PlaceLeaf(w: View, w1: View, f: nat, v: nat, l: LeafLevel, e: Pte)
    requires WF(w) && WF(w1) && v < Span(w.level) && Reached(w, w1, v, l, f)
    requires w1.mem[f][Index(l, v)] == Unused && e.Leaf? && EntryOk(w1, w1.place[f], Index(l, v), e)
    ensures var w2 := Write(w1, f, Index(l, v), e);
            WF(w2) && w2.mem.Keys == w1.mem.Keys && PageAdded(w, w2, v, l, e.paddr, e.access)
    ensures !TableAt(w, l, v)
  {
    hide WF, Query, Walk, Reached, PageMapped, NoEmptyTable, Grown, NewOnPath;
    ReachedFacts(w, w1, v, l, f);
    TableFacts(w1, f);
    NoTableHere(w, w1, f, v, l);
    LeafMapsPage(w, w1, f, v, l, e);
    WriteGrows(w, w1, f, v, l, e);
    MappedKeepsInhabited(w, Write(w1, f, Index(l, v), e), v, l, e.paddr, e.access);
  }

  /** A used entry means that `v` was mapped or that a table was already there. */
  lemma EntryTaken(w: View, w1: View, f: nat, v: nat, l: LeafLevel)
    requires WF(w) && WF(w1) && v < Span(w.level) && Reached(w, w1, v, l, f)
    requires w1.mem[f][Index(l, v)] != Unused
    ensures Query(w, v).Some? || TableAt(w, l, v)
  {
    var i := Index(l, v);
    IndexedEntry(w1, f, l, v);
    if w1.mem[f][i].Table? {
      TableAtEntry(w1, f, i, l, v);
      TableAtOld(w, w1, l, v);
    } else {
      QueryAtEntry(w1, f, i, v);
    }
  }

  lemma MappedBelow(w: View, l: LeafLevel, v: nat) returns (u: nat)
    requires WF(w) && NoEmptyTable(w) && TableAt(w, l, v)
    ensures u < Span(w.level) && SamePage(l, u, v) && Query(w, u).Some?
  {
    hide WF, Query, Walk, EntrySize;
    ShapeOf(w);
    var g :| g in w.mem && w.place[g] == Place(l - 1, v / EntrySize(l));
    assert Inhabited(w, g);
    u :| 0 <= u < Span(w.level) && u / EntrySize(w.place[g].l + 1) == w.place[g].n && Query(w, u).Some?;
  }

  /** Why a run over a free range stopped: a table in the way has something mapped below it, and
      that was mapped before the run. */
  lemma BlockedByMapping(w: View, w1: View, r: MemoryRegion, done: nat, size: PageSize)
    requires WF(w) && WF(w1) && w1.level == w.level && NoEmptyTable(w1)
    requires RangeMapped(Translation(w), Translation(w1), Span(w.level), r, done)
    requires size.IsAligned(r.start + done) && done + size.Bytes() <= r.size && r.start + r.size <= Span(w.level)
    requires Translation(w1)(r.start + done).Some? || TableAt(w1, size.Level(), r.start + done)
    ensures MappedWithin(Translation(w), Span(w.level), r)
  {
    hide WF, Query, Walk, RangeMapped;
    var l, b := size.Level(), r.start + done;
    if Translation(w1)(b).Some? {
      ObstacleWasThere(Translation(w), Translation(w1), Span(w.level), r, done, size, b);
    } else {
      var u := MappedBelow(w1, l, b);
      ObstacleWasThere(Translation(w), Translation(w1), Span(w.level), r, done, size, u);
    }
  }

  lemma GrownTrans(w: View, w1: View, w2: View)
    requires WF(w) && WF(w1) && WF(w2) && Grown(w, w1) && Grown(w1, w2)
    ensures Grown(w, w2)
  {
    hide WF;
  }

  lemma SameMapped(w: View, w1: View, w2: View, r: MemoryRegion, done: nat)
    requires WF(w) && WF(w1) && WF(w2) && w1.level == w.level && SameQueries(w1, w2)
    requires RangeMapped(Translation(w), Translation(w1), Span(w.level), r, done)
    ensures RangeMapped(Translation(w), Translation(w2), Span(w.level), r, done)
  {
    hide WF, Query, Walk;
    assert forall v: nat :: v < Span(w.level) ==> Translation(w2)(v) == Translation(w1)(v);
  }

  lemma NothingMapped(q: Xlation, span: nat, r: MemoryRegion)
    ensures RangeMapped(q, q, span, r, 0) && RangeCleared(q, q, span, r, 0)
  {
  }

  /** The largest page that fits at `vaddr`, unless the region asks for small ones. */
  function PageSizeFor(vaddr: nat, paddr: nat, size: nat, flags: MemFlags): PageSize {
    if Size1G.IsAligned(vaddr) && Size1G.IsAligned(paddr) && size >= Size1G.Bytes() && NO_HUGEPAGES !in flags
    then Size1G
    else if Size2M.IsAligned(vaddr) && Size2M.IsAligned(paddr) && size >= Size2M.Bytes() && NO_HUGEPAGES !in flags
    then Size2M
    else Size4K
  }

  lemma StillAligned(vaddr: nat, paddr: nat, size: nat, flags: MemFlags)
    requires vaddr % 0x1000 == 0 && size % 0x1000 == 0 && size > 0
    ensures var pageSize := PageSizeFor(vaddr, paddr, size, flags);
            && pageSize.IsAligned(vaddr) && (pageSize.Size4K? || pageSize.IsAligned(paddr))
                && 0 < pageSize.Bytes() <= size
            && (vaddr + pageSize.Bytes()) % 0x1000 == 0 && (size - pageSize.Bytes()) % 0x1000 == 0
  {
    match PageSizeFor(vaddr, paddr, size, flags) case Size4K => case Size2M => case Size1G =>
  }

  /** The page `map` chooses at offset `off` of the region. */
  function SizeAt(r: MemoryRegion, off: nat): PageSize
    requires off <= r.size
  {
    PageSizeFor(r.start + off, r.MapFn(r.start + off), r.size - off, r.flags)
  }

  predicate OffsetOk(r: MemoryRegion, off: nat) { r.Aligned() && off <= r.size && off % 0x1000 == 0 }

  lemma SizeAtFits(r: MemoryRegion, off: nat)
    requires OffsetOk(r, off) && off < r.size
    ensures var size := SizeAt(r, off);
            && OffsetOk(r, off + size.Bytes()) && size.Bytes() > 0 && size.IsAligned(r.start + off)
            && (size.Size4K? || size.IsAligned(r.MapFn(r.start + off)))
  {
    hide PageSizeFor, EntrySize, WrappingSub;
    SumOfPages(r.start, off);
    DifferenceOfPages(r.size, off);
    StillAligned(r.start + off, r.MapFn(r.start + off), r.size - off, r.flags);
    DifferenceOfPages(r.size, r.size - off - SizeAt(r, off).Bytes());
  }

  lemma DifferenceOfPages(p: nat, k: nat)
    requires k <= p && p % 0x1000 == 0 && k % 0x1000 == 0
    ensures (p - k) % 0x1000 == 0
  {
    DivModOf(p - k, 0x1000, p / 0x1000 - k / 0x1000, 0);
  }

  /** It is the largest that may serve there. */
  lemma SizeAtIsBest(r: MemoryRegion, off: nat)
    requires OffsetOk(r, off) && off < r.size
    ensures MayServe(r, SizeAt(r, off).Level(), r.start + off)
    ensures NoneLarger(r, SizeAt(r, off).Level(), r.start + off)
  {
    hide WrappingSub, PageBase;
    var b := r.start + off;
    forall l: LeafLevel | b % EntrySize(l) == 0 ensures PageBase(l, b) == b { BaseOfAligned(l, b, b); }
  }

  /** The pages `map` goes through from offset `off` of the region on. */
  function Tiles(r: MemoryRegion, off: nat): (tiles: seq<(nat, PageSize)>)
    requires OffsetOk(r, off)
    decreases r.size - off
  {
    if off == r.size then []
    else
      SizeAtFits(r, off);
      [(r.start + off, SizeAt(r, off))] + Tiles(r, off + SizeAt(r, off).Bytes())
  }

  /** Something is mapped where the page would start, or a table hangs where it would go. */
  ghost predicate PageBlocked(w: View, v: nat, size: PageSize)
    requires WF(w)
  {
    Query(w, v).Some? || TableAt(w, size.Level(), v)
  }

  ghost predicate AnyBlocked(w: View, tiles: seq<(nat, PageSize)>)
    requires WF(w)
  {
    exists i :: 0 <= i < |tiles| && PageBlocked(w, tiles[i].0, tiles[i].1)
  }

  lemma AnyFirst(w: View, t: (nat, PageSize), rest: seq<(nat, PageSize)>)
    requires WF(w)
    ensures AnyBlocked(w, [t] + rest) <==> PageBlocked(w, t.0, t.1) || AnyBlocked(w, rest)
  {
    hide WF, PageBlocked;
    var all := [t] + rest;
    if i :| 0 <= i < |all| && PageBlocked(w, all[i].0, all[i].1) {
      assert i > 0 ==> all[i] == rest[i - 1];
    }
    if PageBlocked(w, t.0, t.1) { assert all[0] == t; }
    if i :| 0 <= i < |rest| && PageBlocked(w, rest[i].0, rest[i].1) { assert all[i + 1] == rest[i]; }
  }

  /** One of the pages from `off` on is blocked. */
  ghost predicate Obstructed(w: View, r: MemoryRegion, off: nat)
    requires WF(w)
  {
    OffsetOk(r, off) && AnyBlocked(w, Tiles(r, off))
  }

  lemma ObstructedFirst(w: View, r: MemoryRegion, off: nat)
    requires WF(w) && OffsetOk(r, off)
    ensures off == r.size ==> !Obstructed(w, r, off)
    ensures off < r.size ==>
              (Obstructed(w, r, off) <==>
               PageBlocked(w, r.start + off, SizeAt(r, off)) || Obstructed(w, r, off + SizeAt(r, off).Bytes()))
  {
    hide WF, PageBlocked, SizeAt, AnyBlocked;
    if off < r.size {
      SizeAtFits(r, off);
      AnyFirst(w, (r.start + off, SizeAt(r, off)), Tiles(r, off + SizeAt(r, off).Bytes()));
    } else {
      NoneBlocked(w);
    }
  }

  lemma NoneBlocked(w: View)
    requires WF(w)
    ensures !AnyBlocked(w, [])
  {
  }

  /** Every table added starts below `x`. */
  ghost predicate NewBelow(w: View, w': View, x: nat)
    requires WF(w) && WF(w')
  {
    forall g :: g in w'.mem && g !in w.mem ==>
                  1 <= w'.place[g].l <= 4 && w'.place[g].n * EntrySize(w'.place[g].l + 1) < x
  }

  /** What holds after `done` bytes of a region have been mapped, `w` being the table before. */
  ghost predicate MapProgress(w: View, w1: View, r: MemoryRegion, done: nat)
    requires WF(w) && WF(w1)
  {
    && OffsetOk(r, done)
    && Grown(w, w1) && NewBelow(w, w1, r.start + done)
    && RangeMapped(Translation(w), Translation(w1), Span(w.level), r, done)
    && PagesBest(Translation(w1), Span(w.level), r, done)
    && (NoEmptyTable(w) ==> NoEmptyTable(w1))
    && (Obstructed(w, r, 0) <==> Obstructed(w, r, done))
  }

  lemma MapBegins(w: View, r: MemoryRegion)
    requires WF(w) && r.Aligned()
    ensures MapProgress(w, w, r, 0)
  {
    hide WF, Query, Walk, Obstructed, NoEmptyTable;
    RootFacts(w);
    NothingMapped(Translation(w), Span(w.level), r);
  }

  /** The next page is blocked now exactly when it was before the run. */
  lemma BlockedNowAndThen(w: View, w1: View, r: MemoryRegion, done: nat)
    requires WF(w) && WF(w1) && MapProgress(w, w1, r, done) && done < r.size && r.start + done < Span(w.level)
    ensures PageBlocked(w1, r.start + done, SizeAt(r, done)) <==> PageBlocked(w, r.start + done, SizeAt(r, done))
  {
    hide WF, Query, Walk, Obstructed, NoEmptyTable, SizeAt;
    SizeAtFits(r, done);
    var v, l := r.start + done, SizeAt(r, done).Level();
    assert Translation(w1)(v) == Translation(w)(v);
    if g :| g in w.mem && w.place[g] == Place(l - 1, v / EntrySize(l)) {
      assert w1.place[g] == w.place[g];
    }
    assert v == EntrySize(l) * (v / EntrySize(l));
    forall g | g in w1.mem && w1.place[g] == Place(l - 1, v / EntrySize(l))
      ensures g in w.mem && w.place[g] == w1.place[g]
    {
    }
  }

  lemma NewStaysBelow(w: View, w1: View, w2: View, v: nat, l: LeafLevel)
    requires WF(w) && WF(w1) && WF(w2) && Grown(w, w1) && Grown(w1, w2) && NewBelow(w, w1, v) && NewOnPath(w1, w2, v, l)
    ensures NewBelow(w, w2, v + EntrySize(l))
  {
    hide WF, Query, Walk;
    forall g | g in w2.mem && g !in w.mem
      ensures 1 <= w2.place[g].l <= 4 && w2.place[g].n * EntrySize(w2.place[g].l + 1) < v + EntrySize(l)
    {
      LevelBounds(w2, g);
      if g in w1.mem {
        assert w2.place[g] == w1.place[g];
      } else {
        QuotientBelow(v, EntrySize(w2.place[g].l + 1));
      }
    }
  }

  lemma QuotientBelow(v: nat, s: nat)
    requires s > 0
    ensures v / s * s <= v
  {
    assert v == s * (v / s) + v % s;
  }

  lemma LevelBounds(w: View, g: nat)
    requires WF(w) && g in w.mem
    ensures g in w.place && 1 <= w.place[g].l <= 4
  {
  }

  lemma StillObstructed(w: View, w1: View, r: MemoryRegion, done: nat)
    requires WF(w) && WF(w1) && MapProgress(w, w1, r, done) && done < r.size && r.start + r.size <= Span(w.level)
    requires !PageBlocked(w1, r.start + done, SizeAt(r, done))
    ensures Obstructed(w, r, 0) <==> Obstructed(w, r, done + SizeAt(r, done).Bytes())
  {
    hide WF, Query, Walk, NoEmptyTable, Obstructed, SizeAt, PageBlocked, NewBelow, RangeMapped;
    ObstructedFirst(w, r, done);
    BlockedNowAndThen(w, w1, r, done);
  }

  lemma NotBlocked(w: View, w2: View, v: nat, size: PageSize, paddr: nat, access: MemFlags)
    requires WF(w) && WF(w2) && v < Span(w.level) && PageAdded(w, w2, v, size.Level(), paddr, access)
             && !TableAt(w, size.Level(), v)
    ensures !PageBlocked(w, v, size)
  {
    hide WF, Query, Walk, NoEmptyTable, TableAt, NewOnPath;
    assert SamePage(size.Level(), v, v);
    assert Translation(w)(v).None?;
  }

  lemma MapAdvances(w: View, w1: View, w2: View, r: MemoryRegion, done: nat, paddr: nat)
    requires WF(w) && WF(w1) && WF(w2) && MapProgress(w, w1, r, done) && done < r.size
             && r.start + r.size <= Span(w.level)
    requires paddr == PhysField(SizeAt(r, done).AlignDown(r.MapFn(r.start + done)))
    requires PageAdded(w1, w2, r.start + done, SizeAt(r, done).Level(), paddr, Access(r.flags))
    requires !TableAt(w1, SizeAt(r, done).Level(), r.start + done)
    ensures MapProgress(w, w2, r, done + SizeAt(r, done).Bytes())
  {
    hide WF, Query, Walk, NoEmptyTable, Obstructed, SizeAt, TableAt, NewBelow, NewOnPath, RangeMapped, PageBlocked,
         PageMapped, PhysField, PagesBest, MayServe, NoneLarger;
    var size := SizeAt(r, done);
    SizeAtFits(r, done);
    NotBlocked(w1, w2, r.start + done, size, paddr, Access(r.flags));
    StillObstructed(w, w1, r, done);
    GrownTrans(w, w1, w2);
    NewStaysBelow(w, w1, w2, r.start + done, size.Level());
    ExtendMapped(Translation(w), Translation(w1), Translation(w2), Span(w.level), r, done, size);
    SizeAtIsBest(r, done);
    ExtendBest(Translation(w), Translation(w1), Translation(w2), Span(w.level), r, done,
               size.Level(), paddr, Access(r.flags));
  }

  /** A page that cannot be mapped for want of something else than frames is an obstruction. */
  lemma MapObstructed(w: View, w1: View, r: MemoryRegion, done: nat)
    requires WF(w) && WF(w1) && MapProgress(w, w1, r, done) && done < r.size && r.start + r.size <= Span(w.level)
    requires PageBlocked(w1, r.start + done, SizeAt(r, done))
    ensures Obstructed(w, r, 0)
    ensures NoEmptyTable(w) ==> MappedWithin(Translation(w), Span(w.level), r)
  {
    hide WF, Query, Walk, NoEmptyTable, Obstructed, SizeAt, TableAt, NewBelow, RangeMapped, MappedWithin;
    SizeAtFits(r, done);
    ObstructedFirst(w, r, done);
    BlockedNowAndThen(w, w1, r, done);
    if NoEmptyTable(w) { BlockedByMapping(w, w1, r, done, SizeAt(r, done)); }
  }

  lemma MapStops(w: View, w1: View, w2: View, r: MemoryRegion, done: nat)
    requires WF(w) && WF(w1) && WF(w2) && MapProgress(w, w1, r, done) && Grown(w1, w2) && SameQueries(w1, w2)
    ensures Grown(w, w2) && RangeMapped(Translation(w), Translation(w2), Span(w.level), r, done)
    ensures PagesBest(Translation(w2), Span(w.level), r, done)
  {
    hide WF, Query, Walk, NoEmptyTable, Obstructed, NewBelow, RangeMapped;
    GrownTrans(w, w1, w2);
    SameMapped(w, w1, w2, r, done);
    SameBest(w1, w2, r, done);
  }

  lemma SameBest(w1: View, w2: View, r: MemoryRegion, done: nat)
    requires WF(w1) && WF(w2) && SameQueries(w1, w2) && PagesBest(Translation(w1), Span(w1.level), r, done)
    ensures PagesBest(Translation(w2), Span(w1.level), r, done)
  {
    hide WF, Query, Walk;
    assert forall v: nat :: v < Span(w1.level) ==> Translation(w2)(v) == Translation(w1)(v);
  }

  lemma MapEnds(w: View, w1: View, r: MemoryRegion)
    requires WF(w) && WF(w1) && MapProgress(w, w1, r, r.size)
    ensures Grown(w, w1) && RangeMapped(Translation(w), Translation(w1), Span(w.level), r, r.size)
    ensures PagesBest(Translation(w1), Span(w.level), r, r.size)
    ensures NoEmptyTable(w) ==> NoEmptyTable(w1)
    ensures !Obstructed(w, r, 0)
  {
    hide WF, Query, Walk, NoEmptyTable, Obstructed, NewBelow, RangeMapped;
    ObstructedFirst(w, r, r.size);
  }

  /** Some address of `r` is mapped. */
  ghost predicate MappedWithin(q: Xlation, span: nat, r: MemoryRegion) {
    exists v: nat :: v < span && r.Contains(v) && q(v).Some?
  }

  lemma IndexWraps(l: nat, top: nat, v: nat)
    requires 1 <= l <= top && top in {3, 4}
    ensures Index(l, v % Span(top)) == Index(l, v)
    ensures v % Span(top) % EntrySize(l) == v % EntrySize(l)
  {
    hide EntrySize;
    Multiples(l, top);
    var s, d := EntrySize(l), Span(top) / EntrySize(l) / ENTRY_COUNT;
    RemainderOfRemainder(v, s, ENTRY_COUNT * d);
    QuotientOfRemainder(v, s, ENTRY_COUNT * d);
    RemainderOfRemainder(v / s, ENTRY_COUNT, d);
  }

  lemma Multiples(l: nat, top: nat)
    requires 1 <= l <= top && top in {3, 4}
    ensures EntrySize(l) > 0 && Span(top) / EntrySize(l) / ENTRY_COUNT > 0
    ensures Span(top) == EntrySize(l) * (ENTRY_COUNT * (Span(top) / EntrySize(l) / ENTRY_COUNT))
  {
  }

  lemma {:induction false} WalkWraps(w: View, f: nat, l: nat, v: nat)
    requires WF(w) && f in w.mem && w.place[f].l == l
    ensures Walk(w, f, l, v % Span(w.level)) == Walk(w, f, l, v)
    decreases l
  {
    IndexWraps(l, w.level, v);
    WalkStep(w, f, l, v);
    WalkStep(w, f, l, v % Span(w.level));
    var e := w.mem[f][Index(l, v)];
    if !(l == 1 || (l <= 3 && e.IsHuge())) && NextTable(e).Ok? {
      WalkWraps(w, e.Addr(), l - 1, v);
    }
  }

  /** The index functions mask to nine bits, so an address past the span answers as the address it
      wraps to: regions must stay below the span for the table to tell them apart. */
  lemma QueryWraps(w: View, v: nat)
    requires WF(w)
    ensures Query(w, v) == Query(w, v % Span(w.level))
  {
    WalkWraps(w, w.root, w.level, v);
    QueryOfWalk(w, v);
    QueryOfWalk(w, v % Span(w.level));
    var r := Walk(w, w.root, w.level, v);
    if r.Ok? {
      IndexWraps(r.value.l, w.level, v);
    }
  }

  /** A page found at `v` has a table above it at every larger page size. */
  lemma TableAbovePage(w: View, v: nat, l: LeafLevel)
    requires WF(w) && v < Span(w.level) && Query(w, v).Some? && Query(w, v).value.l < l
    ensures TableAt(w, l, v)
  {
    var s := QuerySlot(w, v);
    NextSize(s.l, v);
    if s.l + 1 < l { TableAboveTable(w, s.frame, v); }
  }

  /** The table holding a small page has one above it, unless it is the root. */
  lemma TableAboveTable(w: View, f: nat, v: nat)
    requires WF(w) && f in w.mem && w.place[f] == Place(1, v / EntrySize(2))
    ensures TableAt(w, 3, v)
  {
    assert HasParent(w, f);
    var p :| Held(w, f, p);
    NextSize(2, v);
    assert w.place[p] == Place(2, v / EntrySize(3));
  }

  class Stage2PageTable {
    const level: nat
    const root: nat
    /** Table frames by physical address. */
    var mem: map<nat, seq<Pte>>
    var intrmTables: seq<nat>
    /** Frames the allocator can still hand out. */
    var pool: seq<nat>
    ghost var place: map<nat, Place>

    ghost function W(): View reads this { View(level, root, mem, place) }

    ghost predicate Valid()
      reads this
    {
      WF(W()) && Accounted(root, mem.Keys, intrmTables, pool)
    }

    ghost function Q(): Xlation
      reads this
      requires Valid()
    {
      Translation(W())
    }

    constructor (level: nat, pool: seq<nat>)
      requires level == 3 || level == 4
      requires pool != [] && Distinct(pool) && forall f :: f in pool ==> f % 0x1000 == 0 && f < PHYS_LIMIT
      ensures Valid() && this.level == level && this.pool == pool[1..]
      ensures NoEmptyTable(W())
      ensures forall v :: 0 <= v < Span(level) ==> Q()(v) == None
    {
      this.level, root := level, pool[0];
      mem := map[pool[0] := EmptyTable()];
      intrmTables := [];
      this.pool := pool[1..];
      place := map[pool[0] := Place(level, 0)];
      new;
      NewTable(W());
      assert pool[0] in pool && forall f :: f in pool[1..] ==> f in pool && f != pool[0];
    }

    /** `alloc_intrm_table`. */
    method AllocIntrmTable() returns (r: PagingResult<nat>)
      requires Valid()
      modifies this
      ensures unchanged(this`mem) && unchanged(this`place)
      ensures r == if old(pool) == [] then Err(NoMemory) else Ok(old(pool)[0])
      ensures pool == if r.Ok? then old(pool)[1..] else old(pool)
      ensures intrmTables == if r.Ok? then old(intrmTables) + [r.value] else old(intrmTables)
    {
      if pool == [] {
        return Err(NoMemory);
      }
      r := Ok(pool[0]);
      intrmTables := intrmTables + [pool[0]];
      pool := pool[1..];
    }

    /** `next_table_mut_or_create` on an unused entry. */
    method CreateNext(f: nat, i: nat) returns (r: PagingResult<nat>)
      requires Valid() && f in mem && i < ENTRY_COUNT && place[f].l > 1 && mem[f][i] == Unused
      modifies this
      ensures Valid() && Descended(old(W()), W(), f, i, r)
      ensures r.Err? ==> pool == old(pool) == []
      ensures |pool| + 1 >= |old(pool)|
    {
      hide WF, Accounted, Descended;
      TableFacts(W(), f);
      r := AllocIntrmTable();
      if r.Ok? {
        AccountAlloc(root, mem.Keys, old(intrmTables), old(pool));
        CreateDescends(W(), f, i, r.value);
        ghost var w' := Hang(W(), f, i, r.value);
        mem := mem[f := mem[f][i := Table(r.value)]][r.value := EmptyTable()];
        place := w'.place;
        assert W() == w';
      } else {
        NoFrameDescends(W(), f, i);
      }
    }

    /** `next_table_mut_or_create` on entry `i` of table `f`. */
    method NextTableOrCreate(f: nat, i: nat) returns (r: PagingResult<nat>)
      requires Valid() && f in mem && i < ENTRY_COUNT && place[f].l > 1
      modifies this
      ensures Valid() && Descended(old(W()), W(), f, i, r)
      ensures r == Err(NoMemory) ==> pool == old(pool) == []
      ensures |pool| + 1 >= |old(pool)|
    {
      if mem[f][i].IsUnused() {
        r := CreateNext(f, i);
      } else {
        r := NextTable(mem[f][i]);
        NextDescends(W(), f, i);
      }
    }

    /** `get_entry_mut`. */
    method GetEntry(v: nat) returns (r: PagingResult<Slot>)
      requires Valid()
      ensures r == Walk(W(), root, level, v)
    {
      hide WF, Accounted, Walk;
      ghost var w := W();
      RootFacts(w);
      var p3 := root;
      if level == 4 {
        WalkStep(w, root, 4, v);
        var n4 := NextTable(mem[root][Index(4, v)]);
        if n4.Err? { return Err(n4.error); }
        p3 := n4.value;
      }
      WalkStep(w, p3, 3, v);
      var p3e := mem[p3][Index(3, v)];
      if p3e.IsHuge() { return Ok(Slot(p3, Index(3, v), 3)); }
      var n3 := NextTable(p3e);
      WalkStep(w, n3.value, 2, v);
      var p2e := mem[n3.value][Index(2, v)];
      if p2e.IsHuge() { return Ok(Slot(n3.value, Index(2, v), 2)); }
      var n2 := NextTable(p2e);
      WalkStep(w, n2.value, 1, v);
      r := Ok(Slot(n2.value, Index(1, v), 1));
    }

    /** `query`: physical address, flags and page size. */
    method QueryAddr(v: nat) returns (r: PagingResult<(nat, MemFlags, PageSize)>)
      requires Valid()
      ensures r == match Q()(v)
                   case None => Err(NotMapped)
                   case Some(h) => Ok((h.paddr, h.access, SizeOfLevel(h.l)))
    {
      hide WF, Accounted, Walk, Query;
      var s := GetEntry(v);
      QueryOfWalk(W(), v);
      if s.Err? { return Err(s.error); }
      var e := mem[s.value.frame][s.value.index];
      if e.IsUnused() { return Err(NotMapped); }
      var size := SizeOfLevel(s.value.l);
      r := Ok((e.Addr() + v % size.Bytes(), e.access, size));
    }

    /** `get_entry_mut_or_create`: on success, the table holding the entry for `v`. */
    method GetEntryOrCreate(v: nat, size: PageSize) returns (r: PagingResult<nat>)
      requires Valid() && v < Span(level)
      modifies this
      ensures Valid() && Kept(old(W()), W(), v, size.Level())
      ensures r.Ok? ==> Reached(old(W()), W(), v, size.Level(), r.value)
      ensures r.Err? ==>
                || (r.error == NoMemory && pool == [] && |old(pool)| < 3)
                || (r.error == MappedToHugePage && old(Q()(v)).Some?)
    {
      hide WF, Accounted, Descended, Reached, Kept, Query;
      ghost var w := W();
      RootFacts(w);
      ReachedRoot(w, v);
      var p3 := root;
      if level == 4 {
        ReachedFacts(w, w, v, 4, root);
        var n4 := NextTableOrCreate(root, Index(4, v));
        ReachedStep(w, w, W(), v, 4, root, n4);
        if n4.Err? { return Err(n4.error); }
        p3 := n4.value;
      }
      ghost var w3 := W();
      ReachedFacts(w, w3, v, 3, p3);
      if size.Size1G? { return Ok(p3); }
      var n3 := NextTableOrCreate(p3, Index(3, v));
      ReachedStep(w, w3, W(), v, 3, p3, n3);
      if n3.Err? { return Err(n3.error); }
      ghost var w2 := W();
      ReachedFacts(w, w2, v, 2, n3.value);
      if size.Size2M? { return Ok(n3.value); }
      var n2 := NextTableOrCreate(n3.value, Index(2, v));
      ReachedStep(w, w2, W(), v, 2, n3.value, n2);
      if n2.Err? { return Err(n2.error); }
      ReachedFacts(w, W(), v, 1, n2.value);
      r := Ok(n2.value);
    }

    /** `map_page`.  Given enough frames and a page with nothing mapped in it, the call succeeds
        exactly when no table, even an empty one, hangs where the page would go. */
    method MapPage(v: nat, size: PageSize, paddr: nat, flags: MemFlags) returns (r: PagingResult<()>)
      requires Valid() && v < Span(level) && size.IsAligned(v)
      modifies this
      ensures Valid() && Grown(old(W()), W())
      ensures r.Err? ==> SameQueries(old(W()), W())
      ensures r.Ok? ==> !TableAt(old(W()), size.Level(), v)
                        && PageAdded(old(W()), W(), v, size.Level(), PhysField(size.AlignDown(paddr)), Access(flags))
      ensures r.Err? ==> (r.error == NoMemory && pool == [] && |old(pool)| < 3)
                         || old(Q()(v)).Some? || TableAt(old(W()), size.Level(), v)
    {
      hide WF, Accounted, Reached, PageAdded, Query, TableAt, Encode, SetFlags, SetAddr;
      ghost var w := W();
      var l := size.Level();
      var f := GetEntryOrCreate(v, size);
      if f.Err? { return Err(f.error); }
      var i := Index(l, v);
      ReachedFacts(w, W(), v, l, f.value);
      TableFacts(W(), f.value);
      if !mem[f.value][i].IsUnused() {
        EntryTaken(w, W(), f.value, v, l);
        return Err(AlreadyMapped);
      }
      AlignedField(size, paddr);
      var e := NewLeaf(size.AlignDown(paddr), flags, size.IsHuge());
      PlaceLeaf(w, W(), f.value, v, l, e);
      ghost var w' := Write(W(), f.value, i, e);
      mem := mem[f.value := mem[f.value][i := e]];
      assert W() == w';
      r := Ok(());
    }

    /** `unmap_page`. */
    method UnmapPage(v: nat) returns (r: PagingResult<(nat, PageSize)>)
      requires Valid() && v < Span(level)
      modifies this
      ensures Valid() && Grown(old(W()), W())
      ensures r.Err? <==> old(Q()(v)) == None
      ensures r.Err? ==> r.error == NotMapped && W() == old(W())
      ensures r.Ok? ==> var h := old(Q()(v)).value;
                        && r.value.1 == SizeOfLevel(h.l)
                        && PageCleared(old(Q()), Q(), Span(level), v, h.l)
    {
      hide WF, Accounted, Query, Walk, PageCleared;
      ghost var w := W();
      RootFacts(w);
      var s := GetEntry(v);
      QueryOfWalk(w, v);
      if s.Err? { return Err(NotMapped); }
      var e := mem[s.value.frame][s.value.index];
      if e.IsUnused() { return Err(NotMapped); }
      ClearLeaf(w, v, s.value);
      ghost var w' := Write(w, s.value.frame, s.value.index, Unused);
      mem := mem[s.value.frame := mem[s.value.frame][s.value.index := Unused]];
      assert W() == w';
      r := Ok((e.Addr(), SizeOfLevel(s.value.l)));
    }

    /** `map`.  Whatever happens, exactly a prefix of the region is mapped, each address by the largest
        page that lies inside the region with an aligned frame, and nothing else changes.
        Unless frames run out, it fails if and only if one of the pages it goes through is blocked: by
        a mapping, or by a table, even an empty one left behind by an earlier unmapping. */
    method Map(region: MemoryRegion) returns (r: PagingResult<()>, ghost done: nat)
      requires Valid() && region.Aligned() && region.start + region.size <= Span(level)
      modifies this
      ensures Valid() && Grown(old(W()), W())
      ensures done <= region.size && (r.Ok? <==> done == region.size)
      ensures RangeMapped(old(Q()), Q(), Span(level), region, done)
      ensures PagesBest(Q(), Span(level), region, done)
      ensures r.Ok? && NoEmptyTable(old(W())) ==> NoEmptyTable(W())
      ensures r.Ok? ==> !Obstructed(old(W()), region, 0)
      ensures r.Err? ==> (r.error == NoMemory && pool == []) || Obstructed(old(W()), region, 0)
      ensures r.Err? ==> (r.error == NoMemory && pool == [])
                         || MappedWithin(old(Q()), Span(level), region) || !NoEmptyTable(old(W()))
    {
      hide WF, Accounted, Query, RangeMapped, PageMapped, PagesBest, TableAt, NoEmptyTable, MappedWithin, PageSizeFor,
           MapProgress, Obstructed, PageAdded, PhysField;
      ghost var w := W();
      MapBegins(w, region);
      var vaddr, size := region.start, region.size;
      done := 0;
      while size > 0
        invariant done <= region.size && vaddr == region.start + done && size == region.size - done
        invariant OffsetOk(region, done) && Valid() && MapProgress(w, W(), region, done)
        decreases size
      {
        var paddr := region.MapFn(vaddr);
        var pageSize := PageSizeFor(vaddr, paddr, size, region.flags);
        ghost var w1 := W();
        SizeAtFits(region, done);
        var m := MapPage(vaddr, pageSize, paddr, region.flags);
        if m.Err? {
          MapStops(w, w1, W(), region, done);
          if !(m.error == NoMemory && pool == []) {
            MapObstructed(w, w1, region, done);
          }
          return Err(m.error), done;
        }
        MapAdvances(w, w1, W(), region, done, PhysField(pageSize.AlignDown(paddr)));
        done := done + pageSize.Bytes();
        vaddr := vaddr + pageSize.Bytes();
        size := size - pageSize.Bytes();
      }
      MapEnds(w, W(), region);
      r := Ok(());
    }

    /** `unmap`.  The page sizes are read back from the table.  It gets stuck, in its endless loop or on
        its assertion, exactly at a page that sticks out of the region, and fails exactly at an
        address that is not mapped; otherwise it clears the region. */
    method Unmap(region: MemoryRegion) returns (r: Unmapping, ghost done: nat)
      requires Valid() && region.start + region.size <= Span(level)
      modifies this
      ensures Valid() && Grown(old(W()), W())
      ensures done <= region.size && (r.Unmapped? <==> done == region.size)
      ensures PrefixRespects(old(Q()), region, done)
      ensures r.Unmapped? ==> PagesRespect(old(Q()), Span(level), region)
      ensures !r.Stuck? ==> RangeCleared(old(Q()), Q(), Span(level), region, done)
      ensures r.Failed? ==> r.error == NotMapped && old(Q()(region.start + done)) == None
      ensures r.Stuck? ==>
                var h := old(Q()(region.start + done));
                && h.Some? && !PageInside(h.value.l, region.start + done, region.start, region.start + region.size)
                && ClearedThrough(old(Q()), Q(), Span(level), region, done, h.value.l)
    {
      hide WF, Accounted, Query, RangeCleared, PageCleared, PagesRespect, Uniform, PrefixRespects, PageInside,
           ClearedThrough, Grown, EntrySize;
      ghost var w := W();
      RootFacts(w);
      NothingMapped(Q(), Span(level), region);
      NothingRespected(Q(), region);
      var vaddr, size := region.start, region.size;
      done := 0;
      while size > 0
        invariant done <= region.size && vaddr == region.start + done && size == region.size - done
        invariant Valid() && Grown(w, W())
        invariant RangeCleared(Translation(w), Q(), Span(level), region, done)
        invariant PrefixRespects(Translation(w), region, done)
        decreases size
      {
        ghost var w1 := W();
        TranslationIsUniform(w1);
        ClearedHead(Translation(w), Translation(w1), Span(level), region, done);
        var u := UnmapPage(vaddr);
        GrownTrans(w, w1, W());
        if u.Err? {
          return Failed(u.error), done;
        }
        var pageSize := u.value.1;
        PageStartsHere(Translation(w), Translation(w1), Span(level), region, done);
        if !pageSize.IsAligned(vaddr) || !(pageSize.Bytes() <= size) {
          ClearThrough(Translation(w), Translation(w1), Q(), Span(level), region, done, pageSize.Level());
          return Stuck, done;
        }
        ExtendRespects(Translation(w), Translation(w1), Span(level), region, done);
        ExtendCleared(Translation(w), Translation(w1), Q(), Span(level), region, done, pageSize.Level());
        done := done + pageSize.Bytes();
        vaddr := vaddr + pageSize.Bytes();
        size := size - pageSize.Bytes();
      }
      RespectsAll(Translation(w), Span(level), region);
      r := Unmapped;
    }
  }

  lemma NothingRespected(q: Xlation, r: MemoryRegion)
    ensures PrefixRespects(q, r, 0)
  {
  }

  /** How an unmapping ends. */
  datatype Unmapping = Unmapped | Failed(error: PagingError) | Stuck

  /** Mapping a region with huge pages into one table and without into another that translates alike:
      if both succeed, the two translate alike again, addresses and flags. */
  method MapBothWays(huge: Stage2PageTable, small: Stage2PageTable, region: MemoryRegion)
      returns (r: PagingResult<()>, r': PagingResult<()>)
    requires huge.Valid() && small.Valid() && huge != small && huge.level == small.level
    requires region.Aligned() && region.start + region.size <= Span(huge.level)
    requires forall v: nat :: v < Span(huge.level) ==> SameHit(huge.Q()(v), small.Q()(v))
    modifies huge, small
    ensures huge.Valid() && small.Valid()
    ensures r.Ok? && r'.Ok? ==> forall v: nat :: v < Span(huge.level) ==> SameHit(huge.Q()(v), small.Q()(v))
  {
    hide WF, Accounted, Query, RangeMapped, Obstructed, NoEmptyTable, MappedWithin;
    ghost var q, q' := huge.Q(), small.Q();
    ghost var done, done';
    r, done := huge.Map(region);
    r', done' := small.Map(region.(flags := region.flags + {NO_HUGEPAGES}));
    if r.Ok? && r'.Ok? {
      forall v: nat | v < Span(huge.level) ensures SameHit(huge.Q()(v), small.Q()(v)) {
        HugePagesInvisible(q, huge.Q(), q', small.Q(), Span(huge.level), region, v);
      }
    }
  }

  /** Deleting leaves empty tables: after the only page below a larger slot is unmapped, whatever its
      size and place in it, the slot is free, and yet the larger page can no longer be mapped there. */
  method RemapLarger(pt: Stage2PageTable, u: nat, v: nat, size: PageSize, paddr: nat, flags: MemFlags)
      returns (r: PagingResult<()>)
    requires pt.Valid() && v < Span(pt.level) && size.IsAligned(v) && u < Span(pt.level) && SamePage(size.Level(), u, v)
    requires pt.Q()(u).Some? && pt.Q()(u).value.l < size.Level()
    requires forall x: nat ::
               x < Span(pt.level) && SamePage(size.Level(), x, v) && !SamePage(pt.Q()(u).value.l, x, u) ==>
                 pt.Q()(x).None?
    modifies pt
    ensures pt.Valid() && r.Err?
    ensures forall x: nat :: x < Span(pt.level) && SamePage(size.Level(), x, v) ==> pt.Q()(x).None?
  {
    hide WF, Accounted, Query, TableAt;
    ghost var w, l := pt.W(), size.Level();
    TableAbovePage(w, u, l);
    SameTable(w, l, u, v);
    var _ := pt.UnmapPage(u);
    ghost var w1 := pt.W();
    TableKept(w, w1, l, v);
    assert forall x: nat :: x < Span(pt.level) && SamePage(l, x, v) ==> Translation(w1)(x).None?;
    r := pt.MapPage(v, size, paddr, flags);
    if r.Err? {
      forall x: nat | x < Span(pt.level) && SamePage(l, x, v) ensures pt.Q()(x).None? {
        assert Translation(w1)(x).None?;
      }
    }
  }

  lemma SameTable(w: View, l: LeafLevel, u: nat, v: nat)
    requires WF(w) && TableAt(w, l, u) && SamePage(l, u, v)
    ensures TableAt(w, l, v)
  {
  }

  lemma TableKept(w: View, w1: View, l: LeafLevel, v: nat)
    requires WF(w) && WF(w1) && Grown(w, w1) && TableAt(w, l, v)
    ensures TableAt(w1, l, v)
  {
    var g :| g in w.mem && w.place[g] == Place(l - 1, v / EntrySize(l));
    assert w1.place[g] == w.place[g];
  }
}
