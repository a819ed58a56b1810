/** `MemorySet` (hvisor, `memory/mm.rs`): the recorded regions next to the page table that
    implements them. */
module AddressSpace {
  import opened Wrappers
  import opened Descriptor
  import opened PageTable
  import opened Region
  import opened Ranges
  import opened Stage2

  datatype Outcome = Done | Einval | MapFailed(error: PagingError)

  type Regions = map<nat, MemoryRegion>

  /** Recorded regions: keyed by their start, non-empty, aligned, in range, pairwise disjoint. */
  ghost predicate RegionsOk(regions: Regions, span: nat)
  {
    && (forall k :: k in regions ==> var r := regions[k];
                                     r.start == k && r.size > 0 && r.Aligned() && r.start + r.size <= span)
    && (forall j, k :: j in regions && k in regions && j != k ==> !regions[j].IsOverlapWith(regions[k]))
  }

  /** The address lies in a recorded region. */
  ghost predicate Recorded(regions: Regions, v: nat) {
    exists k :: k in regions && regions[k].Contains(v)
  }

  // ------------------------------------------------------------------
  // Neighbours in the ordered map

  predicate IsBefore(regions: Regions, start: nat, k: nat) {
    k in regions && k < start && forall j :: j in regions && j < start ==> j <= k
  }

  predicate IsAfter(regions: Regions, start: nat, k: nat) {
    k in regions && start <= k && forall j :: j in regions && start <= j ==> k <= j
  }

  lemma {:induction false} GreatestExists(s: set<nat>) returns (m: nat)
    requires s != {}
    ensures m in s && forall j :: j in s ==> j <= m
    decreases |s|
  {
    var x :| x in s;
    var rest := s - {x};
    if rest == {} {
      m := x;
      assert forall j :: j in s ==> j == x || j in rest;
    } else {
      var y := GreatestExists(rest);
      m := if x < y then y else x;
      assert forall j :: j in s ==> j == x || j in rest;
    }
  }

  lemma {:induction false} LeastExists(s: set<nat>) returns (m: nat)
    requires s != {}
    ensures m in s && forall j :: j in s ==> m <= j
    decreases |s|
  {
    var x :| x in s;
    var rest := s - {x};
    if rest == {} {
      m := x;
      assert forall j :: j in s ==> j == x || j in rest;
    } else {
      var y := LeastExists(rest);
      m := if x < y then x else y;
      assert forall j :: j in s ==> j == x || j in rest;
    }
  }

  /** `regions.range(..start).last()`. */
  function Before(regions: Regions, start: nat): (r: Option<MemoryRegion>)
    ensures r.None? ==> forall j :: j in regions ==> start <= j
    ensures r.Some? ==> exists k :: IsBefore(regions, start, k) && r.value == regions[k]
  {
    var keys := set k | k in regions && k < start;
    if keys == {} then
      assert forall j :: j in regions && j < start ==> j in keys;
      None
    else
      assert exists k :: IsBefore(regions, start, k) by {
        var k := GreatestExists(keys);
        assert forall j :: j in regions && j < start ==> j in keys;
        assert IsBefore(regions, start, k);
      }
      var k :| IsBefore(regions, start, k);
      Some(regions[k])
  }

  /** `regions.range(start..).next()`. */
  function After(regions: Regions, start: nat): (r: Option<MemoryRegion>)
    ensures r.None? ==> forall j :: j in regions ==> j < start
    ensures r.Some? ==> exists k :: IsAfter(regions, start, k) && r.value == regions[k]
  {
    var keys := set k | k in regions && start <= k;
    if keys == {} then
      assert forall j :: j in regions && start <= j ==> j in keys;
      None
    else
      assert exists k :: IsAfter(regions, start, k) by {
        var k := LeastExists(keys);
        assert forall j :: j in regions && start <= j ==> j in keys;
        assert IsAfter(regions, start, k);
      }
      var k :| IsAfter(regions, start, k);
      Some(regions[k])
  }

  predicate TestFreeArea(regions: Regions, other: MemoryRegion) {
    var before := Before(regions, other.start);
    var after := After(regions, other.start);
    !(before.Some? && before.value.IsOverlapWith(other)) && !(after.Some? && after.value.IsOverlapWith(other))
  }

  /** Looking at the two neighbours decides overlap with every recorded region. */
  lemma NeighboursDecideOverlap(regions: Regions, span: nat, other: MemoryRegion)
    requires RegionsOk(regions, span) && other.size > 0
    ensures TestFreeArea(regions, other) <==> forall k :: k in regions ==> !regions[k].IsOverlapWith(other)
  {
    var before := Before(regions, other.start);
    var after := After(regions, other.start);
    if TestFreeArea(regions, other) {
      forall k | k in regions ensures !regions[k].IsOverlapWith(other) {
        if k < other.start {
          var b: nat :| IsBefore(regions, other.start, b) && before.value == regions[b];
          assert b == k || !regions[k].IsOverlapWith(regions[b]);
        } else {
          var a: nat :| IsAfter(regions, other.start, a) && after.value == regions[a];
          assert a <= k;
        }
      }
    }
  }

  // ------------------------------------------------------------------
  // Agreement between the regions and the translation

  /** Every recorded address is translated as its region says, by pages inside that region. */
  ghost predicate Sound(regions: Regions, q: Xlation, span: nat)
  {
    forall k, v: nat :: k in regions && v < span && regions[k].Contains(v) ==>
                          MappedBy(q(v), regions[k], v, k, k + regions[k].size)
  }

  /** Every recorded address is mapped by the largest page that its region allows there. */
  ghost predicate Sized(regions: Regions, q: Xlation, span: nat)
  {
    forall k, v: nat :: k in regions && v < span && regions[k].Contains(v) ==>
                          q(v).Some? && q(v).value.l == BestLevel(regions[k], v)
  }

  /** The address lies in a prefix that a failed insertion left mapped. */
  ghost predicate LeftBehind(left: seq<MemoryRegion>, v: nat) {
    exists i :: 0 <= i < |left| && left[i].Contains(v)
  }

  ghost predicate LeftAt(regions: Regions, q: Xlation, l: MemoryRegion, v: nat)
  {
    !Recorded(regions, v) && MappedBy(q(v), l, v, l.start, l.start + l.size)
  }

  /** The prefixes left behind are still mapped, and no recorded region has their addresses. */
  ghost predicate LeftSound(regions: Regions, left: seq<MemoryRegion>, q: Xlation, span: nat)
  {
    forall i, v: nat :: 0 <= i < |left| && v < span && left[i].Contains(v) ==> LeftAt(regions, q, left[i], v)
  }

  /** Nothing else is translated. */
  ghost predicate Exact(regions: Regions, left: seq<MemoryRegion>, q: Xlation, span: nat)
  {
    forall v: nat :: v < span && q(v).Some? ==> Recorded(regions, v) || LeftBehind(left, v)
  }

  /** The table holds the recorded regions, the prefixes left behind, and nothing else. */
  ghost predicate Implements(regions: Regions, left: seq<MemoryRegion>, q: Xlation, span: nat)
  {
    && Sound(regions, q, span) && Sized(regions, q, span)
    && LeftSound(regions, left, q, span) && Exact(regions, left, q, span)
  }

  lemma SoundKeepsPages(regions: Regions, q: Xlation, span: nat, k: nat)
    requires RegionsOk(regions, span) && Sound(regions, q, span) && k in regions
    ensures PagesRespect(q, span, regions[k])
    ensures forall v: nat :: v < span && regions[k].Contains(v) ==> q(v).Some?
  {
    forall v: nat | v < span && regions[k].Contains(v)
      ensures MappedBy(q(v), regions[k], v, k, k + regions[k].size)
    {
    }
  }

  /** A partly or fully mapped free range disturbs no recorded region. */
  lemma MapKeepsSound(regions: Regions, q: Xlation, q': Xlation, span: nat, r: MemoryRegion, done: nat)
    requires RegionsOk(regions, span) && Sound(regions, q, span) && done <= r.size
    requires RangeMapped(q, q', span, r, done)
    ensures Sound(regions, q', span)
  {
    forall k, v: nat | k in regions && v < span && regions[k].Contains(v)
      ensures MappedBy(q'(v), regions[k], v, k, k + regions[k].size)
    {
      assert MappedBy(q(v), regions[k], v, k, k + regions[k].size);
    }
  }

  lemma MapKeepsSized(regions: Regions, q: Xlation, q': Xlation, span: nat, r: MemoryRegion, done: nat)
    requires Sized(regions, q, span) && RangeMapped(q, q', span, r, done)
    ensures Sized(regions, q', span)
  {
    hide BestLevel, MappedBy;
  }

  lemma InsertSized(regions: Regions, q: Xlation, q': Xlation, span: nat, r: MemoryRegion)
    requires Sized(regions, q, span) && RangeMapped(q, q', span, r, r.size) && PagesBest(q', span, r, r.size)
    ensures Sized(regions[r.start := r], q', span)
  {
    hide BestLevel, RangeMapped;
    MapKeepsSized(regions, q, q', span, r, r.size);
    var regions' := regions[r.start := r];
    forall k, v: nat | k in regions' && v < span && regions'[k].Contains(v)
      ensures q'(v).Some? && q'(v).value.l == BestLevel(regions'[k], v)
    {
    }
  }

  lemma DeleteSized(regions: Regions, q: Xlation, q': Xlation, span: nat, k: nat)
    requires RegionsOk(regions, span) && Sized(regions, q, span) && k in regions
    requires RangeCleared(q, q', span, regions[k], regions[k].size)
    ensures Sized(regions - {k}, q', span)
  {
    hide BestLevel;
    forall j, v: nat | j in regions - {k} && v < span && regions[j].Contains(v)
      ensures q'(v).Some? && q'(v).value.l == BestLevel(regions[j], v)
    {
      assert !regions[j].IsOverlapWith(regions[k]);
    }
  }

  lemma InsertRecorded(regions: Regions, r: MemoryRegion, v: nat)
    requires r.start !in regions
    ensures Recorded(regions[r.start := r], v) <==> r.Contains(v) || Recorded(regions, v)
  {
    var regions' := regions[r.start := r];
    assert regions'[r.start] == r;
    if k :| k in regions && regions[k].Contains(v) { assert regions'[k].Contains(v); }
  }

  lemma InsertExact(regions: Regions, left: seq<MemoryRegion>, q: Xlation, q': Xlation, span: nat, r: MemoryRegion)
    requires Exact(regions, left, q, span) && RangeMapped(q, q', span, r, r.size) && r.start !in regions
    ensures Exact(regions[r.start := r], left, q', span)
  {
    hide Recorded, LeftBehind, MappedBy;
    forall v: nat | v < span && q'(v).Some? ensures Recorded(regions[r.start := r], v) || LeftBehind(left, v) {
      InsertRecorded(regions, r, v);
      if !r.Contains(v) { assert q'(v) == q(v); }
    }
  }

  lemma InsertLeft(regions: Regions, left: seq<MemoryRegion>, q: Xlation, q': Xlation, span: nat, r: MemoryRegion)
    requires LeftSound(regions, left, q, span) && RangeMapped(q, q', span, r, r.size) && r.start !in regions
    ensures LeftSound(regions[r.start := r], left, q', span)
  {
    hide Recorded;
    forall i, v: nat | 0 <= i < |left| && v < span && left[i].Contains(v)
      ensures LeftAt(regions[r.start := r], q', left[i], v)
    {
      assert LeftAt(regions, q, left[i], v);
      InsertRecorded(regions, r, v);
    }
  }

  lemma InsertOk(regions: Regions, span: nat, r: MemoryRegion)
    requires RegionsOk(regions, span) && r.size > 0 && r.Aligned() && r.start + r.size <= span
    requires forall k :: k in regions ==> !regions[k].IsOverlapWith(r)
    ensures r.start !in regions && RegionsOk(regions[r.start := r], span)
  {
  }

  /** Recording a disjoint, fully mapped region. */
  lemma InsertSound(regions: Regions, left: seq<MemoryRegion>, q: Xlation, q': Xlation, span: nat, r: MemoryRegion)
    requires RegionsOk(regions, span) && Implements(regions, left, q, span)
    requires r.size > 0 && r.Aligned() && r.start + r.size <= span
    requires forall k :: k in regions ==> !regions[k].IsOverlapWith(r)
    requires RangeMapped(q, q', span, r, r.size) && PagesBest(q', span, r, r.size)
    ensures RegionsOk(regions[r.start := r], span) && Implements(regions[r.start := r], left, q', span)
  {
    hide Exact, MappedBy, RegionsOk, LeftSound, Sized, PagesBest;
    InsertOk(regions, span, r);
    InsertSized(regions, q, q', span, r);
    MapKeepsSound(regions, q, q', span, r, r.size);
    InsertExact(regions, left, q, q', span, r);
    InsertLeft(regions, left, q, q', span, r);
    var regions' := regions[r.start := r];
    forall k, v: nat | k in regions' && v < span && regions'[k].Contains(v)
      ensures MappedBy(q'(v), regions'[k], v, k, k + regions'[k].size)
    {
    }
  }

  /** The part of `r` that is mapped when `map` fails. */
  function Prefix(r: MemoryRegion, done: nat): MemoryRegion { r.(size := done) }

  lemma LeftMore(left: seq<MemoryRegion>, l: MemoryRegion, v: nat)
    ensures LeftBehind(left + [l], v) <==> LeftBehind(left, v) || l.Contains(v)
  {
    assert (left + [l])[|left|] == l;
    if i :| 0 <= i < |left| && left[i].Contains(v) { assert (left + [l])[i] == left[i]; }
  }

  lemma FailExact(regions: Regions, left: seq<MemoryRegion>, q: Xlation, q': Xlation, span: nat, r: MemoryRegion,
      done: nat)
    requires Exact(regions, left, q, span) && RangeMapped(q, q', span, r, done)
    ensures Exact(regions, left + [Prefix(r, done)], q', span)
  {
    hide Recorded, LeftBehind, MappedBy;
    forall v: nat | v < span && q'(v).Some? ensures Recorded(regions, v) || LeftBehind(left + [Prefix(r, done)], v) {
      LeftMore(left, Prefix(r, done), v);
      if !Prefix(r, done).Contains(v) { assert q'(v) == q(v); }
    }
  }

  lemma RecordedMapped(regions: Regions, q: Xlation, span: nat, v: nat)
    requires Sound(regions, q, span) && v < span
    ensures Recorded(regions, v) ==> q(v).Some?
  {
    if k :| k in regions && regions[k].Contains(v) { assert MappedBy(q(v), regions[k], v, k, k + regions[k].size); }
  }

  lemma FailLeftAt(regions: Regions, q: Xlation, q': Xlation, span: nat, r: MemoryRegion, done: nat, l: MemoryRegion,
      v: nat)
    requires RangeMapped(q, q', span, r, done) && Sound(regions, q, span) && v < span && l.Contains(v)
    requires l == Prefix(r, done) || LeftAt(regions, q, l, v)
    ensures LeftAt(regions, q', l, v)
  {
    hide Recorded, Sound, PageInside;
    RecordedMapped(regions, q, span, v);
  }

  /** A failed insertion records nothing and leaves a prefix behind. */
  lemma FailSound(regions: Regions, left: seq<MemoryRegion>, q: Xlation, q': Xlation, span: nat, r: MemoryRegion,
      done: nat)
    requires RegionsOk(regions, span) && Implements(regions, left, q, span) && done <= r.size
    requires RangeMapped(q, q', span, r, done)
    ensures Implements(regions, left + [Prefix(r, done)], q', span)
  {
    hide Exact, MappedBy, RegionsOk, LeftAt, RangeMapped, Sound, Sized;
    MapKeepsSound(regions, q, q', span, r, done);
    MapKeepsSized(regions, q, q', span, r, done);
    FailExact(regions, left, q, q', span, r, done);
    var left' := left + [Prefix(r, done)];
    forall i, v: nat | 0 <= i < |left'| && v < span && left'[i].Contains(v) ensures LeftAt(regions, q', left'[i], v) {
      if i < |left| { assert left[i].Contains(v); }
      FailLeftAt(regions, q, q', span, r, done, left'[i], v);
    }
  }

  lemma DeleteExact(regions: Regions, left: seq<MemoryRegion>, q: Xlation, q': Xlation, span: nat, k: nat)
    requires RegionsOk(regions, span) && Exact(regions, left, q, span) && k in regions
    requires RangeCleared(q, q', span, regions[k], regions[k].size)
    ensures Exact(regions - {k}, left, q', span)
  {
    hide Recorded, LeftBehind, RegionsOk;
    forall v: nat | v < span && q'(v).Some? ensures Recorded(regions - {k}, v) || LeftBehind(left, v) {
      DeleteRecorded(regions, span, k, v);
    }
  }

  lemma DeleteLeft(regions: Regions, left: seq<MemoryRegion>, q: Xlation, q': Xlation, span: nat, k: nat)
    requires RegionsOk(regions, span) && LeftSound(regions, left, q, span) && k in regions
    requires RangeCleared(q, q', span, regions[k], regions[k].size)
    ensures LeftSound(regions - {k}, left, q', span)
  {
    hide RegionsOk, MappedBy;
    forall i, v: nat | 0 <= i < |left| && v < span && left[i].Contains(v)
      ensures LeftAt(regions - {k}, q', left[i], v)
    {
      assert LeftAt(regions, q, left[i], v);
      DeleteRecorded(regions, span, k, v);
    }
  }

  /** Clearing and dropping a region. */
  lemma DeleteSound(regions: Regions, left: seq<MemoryRegion>, q: Xlation, q': Xlation, span: nat, k: nat)
    requires RegionsOk(regions, span) && Implements(regions, left, q, span) && k in regions
    requires RangeCleared(q, q', span, regions[k], regions[k].size)
    ensures RegionsOk(regions - {k}, span) && Implements(regions - {k}, left, q', span)
  {
    hide Exact, LeftSound, MappedBy, Sized;
    DeleteSized(regions, q, q', span, k);
    DeleteExact(regions, left, q, q', span, k);
    DeleteLeft(regions, left, q, q', span, k);
    forall j, v: nat | j in regions - {k} && v < span && regions[j].Contains(v)
      ensures MappedBy(q'(v), regions[j], v, j, j + regions[j].size)
    {
      assert !regions[j].IsOverlapWith(regions[k]);
      assert MappedBy(q(v), regions[j], v, j, j + regions[j].size);
    }
  }

  /** The region recorded for an address, if any. */
  ghost function RegionOf(regions: Regions, v: nat): (r: Option<MemoryRegion>)
    ensures r.None? <==> !Recorded(regions, v)
    ensures r.Some? ==> r.value.Contains(v) && exists k :: k in regions && regions[k] == r.value
  {
    if Recorded(regions, v) then
      var k :| k in regions && regions[k].Contains(v);
      Some(regions[k])
    else None
  }

  /** The prefix left behind that holds an address, if any. */
  ghost function LeftOf(left: seq<MemoryRegion>, v: nat): (r: Option<MemoryRegion>)
    ensures r.None? <==> !LeftBehind(left, v)
    ensures r.Some? ==> r.value.Contains(v) && exists i :: 0 <= i < |left| && left[i] == r.value
  {
    if LeftBehind(left, v) then
      var i :| 0 <= i < |left| && left[i].Contains(v);
      Some(left[i])
    else None
  }

  /** The whole specification of the address space at one address: a recorded address goes where its
      region says with its region's flags, one left behind where the failed region said, and no other
      address translates. */
  lemma SoundAndExact(regions: Regions, left: seq<MemoryRegion>, q: Xlation, span: nat, v: nat)
    requires RegionsOk(regions, span) && Implements(regions, left, q, span) && v < span <= WORD
    ensures Agrees(regions, left, q, v)
  {
    hide Sound, Exact, LeftSound, RegionsOk, Sized, BestLevel;
    QueryRecorded(regions, q, span, v);
    QuerySized(regions, q, span, v);
    QueryLeft(regions, left, q, span, v);
    if !Recorded(regions, v) && !LeftBehind(left, v) { QueryUnrecorded(regions, left, q, span, v); }
    if Recorded(regions, v) { RecordedPlainly(regions, span, v); }
  }

  lemma QuerySized(regions: Regions, q: Xlation, span: nat, v: nat)
    requires Sized(regions, q, span) && v < span
    ensures var g := RegionOf(regions, v); g.Some? ==> q(v).Some? && q(v).value.l == BestLevel(g.value, v)
  {
    hide BestLevel;
    var g := RegionOf(regions, v);
    if g.Some? {
      var k :| k in regions && regions[k] == g.value;
      assert regions[k].Contains(v);
    }
  }

  lemma RecordedPlainly(regions: Regions, span: nat, v: nat)
    requires RegionsOk(regions, span) && Recorded(regions, v) && span <= WORD
    ensures var g := RegionOf(regions, v).value; g.PhysicallyPlain() ==> g.Xlate(v) == g.MapFn(g.start) + (v - g.start)
  {
    var g := RegionOf(regions, v).value;
    if g.PhysicallyPlain() { RegionIsPlain(g, v); }
  }

  lemma QueryLeft(regions: Regions, left: seq<MemoryRegion>, q: Xlation, span: nat, v: nat)
    requires LeftSound(regions, left, q, span) && v < span
    ensures var l := LeftOf(left, v);
            l.Some? ==>
              && !Recorded(regions, v) && q(v).Some?
              && q(v).value.paddr == l.value.Xlate(v) && q(v).value.access == Access(l.value.flags)
  {
    var l := LeftOf(left, v);
    if l.Some? {
      var i :| 0 <= i < |left| && left[i] == l.value;
      assert LeftAt(regions, q, left[i], v);
    }
  }

  lemma QueryRecorded(regions: Regions, q: Xlation, span: nat, v: nat)
    requires Sound(regions, q, span) && v < span
    ensures var g := RegionOf(regions, v);
            g.Some? ==> q(v).Some? && q(v).value.paddr == g.value.Xlate(v) && q(v).value.access == Access(g.value.flags)
  {
    var g := RegionOf(regions, v);
    if g.Some? {
      var k :| k in regions && regions[k] == g.value;
      assert MappedBy(q(v), regions[k], v, k, k + regions[k].size);
    }
  }

  lemma QueryUnrecorded(regions: Regions, left: seq<MemoryRegion>, q: Xlation, span: nat, v: nat)
    requires Exact(regions, left, q, span) && v < span && !Recorded(regions, v) && !LeftBehind(left, v)
    ensures q(v) == None
  {
  }

  /** Nothing was left behind by a failed insertion. */
  ghost predicate NothingLeft(left: seq<MemoryRegion>) {
    forall i :: 0 <= i < |left| ==> left[i].size == 0
  }

  lemma OverlapOfMapped(regions: Regions, left: seq<MemoryRegion>, q: Xlation, span: nat, r: MemoryRegion)
    requires RegionsOk(regions, span) && Exact(regions, left, q, span) && NothingLeft(left) && MappedWithin(q, span, r)
    ensures exists k :: k in regions && regions[k].IsOverlapWith(r)
  {
    var v: nat :| v < span && r.Contains(v) && q(v).Some?;
    assert !LeftBehind(left, v);
    var k :| k in regions && regions[k].Contains(v);
    assert regions[k].IsOverlapWith(r);
  }

  /** At `v`, the translation is what the recorded regions and the prefixes left behind prescribe; for
      a recorded region with a plain physical range it is the byte at the same distance from its start. */
  ghost predicate Agrees(regions: Regions, left: seq<MemoryRegion>, q: Xlation, v: nat)
  {
    var g, l := RegionOf(regions, v), LeftOf(left, v);
    if g.Some? then
      && q(v).Some? && q(v).value.paddr == g.value.Xlate(v) && q(v).value.access == Access(g.value.flags)
      && q(v).value.l == BestLevel(g.value, v)
      && (g.value.PhysicallyPlain() ==> q(v).value.paddr == g.value.MapFn(g.value.start) + (v - g.value.start))
    else if l.Some? then
      q(v).Some? && q(v).value.paddr == l.value.Xlate(v) && q(v).value.access == Access(l.value.flags)
    else q(v) == None
  }

  /** The addresses recorded in `all` but no longer in `rest` are cleared, the others untouched. */
  ghost predicate ClearedOf(all: Regions, rest: Regions, q: Xlation, q': Xlation, span: nat)
  {
    forall v: nat :: v < span ==> q'(v) == if Recorded(all, v) && !Recorded(rest, v) then None else q(v)
  }

  lemma ClearedOfNothing(all: Regions, q: Xlation, span: nat)
    ensures ClearedOf(all, all, q, q, span)
  {
  }

  /** Dropping a region drops exactly its own addresses. */
  lemma DeleteRecorded(regions: Regions, span: nat, k: nat, v: nat)
    requires RegionsOk(regions, span) && k in regions
    ensures Recorded(regions - {k}, v) <==> Recorded(regions, v) && !regions[k].Contains(v)
  {
    if regions[k].Contains(v) {
      forall j | j in regions - {k} ensures !regions[j].Contains(v) {
        assert !regions[j].IsOverlapWith(regions[k]);
      }
    } else if j :| j in regions && regions[j].Contains(v) {
      assert (regions - {k})[j].Contains(v);
    }
  }

  lemma ClearedOfOneMore(all: Regions, rest: Regions, k: nat, q: Xlation, q1: Xlation, q2: Xlation, span: nat)
    requires RegionsOk(rest, span) && k in rest
    requires forall j :: j in rest ==> j in all && rest[j] == all[j]
    requires ClearedOf(all, rest, q, q1, span) && RangeCleared(q1, q2, span, rest[k], rest[k].size)
    ensures ClearedOf(all, rest - {k}, q, q2, span)
  {
    hide RegionsOk;
    forall v: nat | v < span
      ensures q2(v) == if Recorded(all, v) && !Recorded(rest - {k}, v) then None else q(v)
    {
      DeleteRecorded(rest, span, k, v);
      if rest[k].Contains(v) { assert all[k].Contains(v); }
    }
  }

  /** A fully mapped range none of whose pages sticks out is unmapped without trouble. */
  lemma NotStuck(q: Xlation, span: nat, r: MemoryRegion, done: nat, u: Unmapping)
    requires PagesRespect(q, span, r) && r.start + r.size <= span
             && (forall v: nat :: v < span && r.Contains(v) ==> q(v).Some?)
    requires done <= r.size && (u.Unmapped? <==> done == r.size)
    requires u.Failed? ==> q(r.start + done) == None
    requires u.Stuck? ==>
               var h := q(r.start + done);
               h.Some? && !PageInside(h.value.l, r.start + done, r.start, r.start + r.size)
    ensures u.Unmapped?
  {
    hide PageInside;
    assert !u.Unmapped? ==> r.Contains(r.start + done);
  }

  lemma SmallerRest(rest: Regions, k: nat)
    requires k in rest
    ensures |rest - {k}| < |rest|
  {
    assert (rest - {k}).Keys == rest.Keys - {k};
  }

  datatype Op = Insert(region: MemoryRegion) | Delete(start: nat)

  /** What the failed insertions of a run leave behind, in order. */
  ghost function Leftovers(ops: seq<Op>, outcomes: seq<Outcome>, done: seq<nat>): seq<MemoryRegion>
    requires |outcomes| == |done| == |ops|
  {
    if ops == [] then []
    else
      var n := |ops| - 1;
      Leftovers(ops[..n], outcomes[..n], done[..n])
      + if ops[n].Insert? && outcomes[n].MapFailed? then [Prefix(ops[n].region, done[n])] else []
  }

  /** What is recorded after one operation with this outcome, and after a run. */
  function RecordedBy(regions: Regions, op: Op, o: Outcome): Regions {
    match op
    case Insert(r) => if o == Done && r.size > 0 then regions[r.start := r] else regions
    case Delete(start) => regions - {start}
  }

  ghost function RegionsAfter(regions: Regions, ops: seq<Op>, outcomes: seq<Outcome>): Regions
    requires |outcomes| == |ops|
  {
    if ops == [] then regions
    else
      var n := |ops| - 1;
      RecordedBy(RegionsAfter(regions, ops[..n], outcomes[..n]), ops[n], outcomes[n])
  }

  lemma LeftoversMore(ops: seq<Op>, i: nat, outcomes: seq<Outcome>, done: seq<nat>, o: Outcome, n: nat)
    requires i < |ops| && |outcomes| == |done| == i
    ensures Leftovers(ops[..i + 1], outcomes + [o], done + [n])
            == Leftovers(ops[..i], outcomes, done)
               + if ops[i].Insert? && o.MapFailed? then [Prefix(ops[i].region, n)] else []
    ensures forall regions: Regions :: RegionsAfter(regions, ops[..i + 1], outcomes + [o])
                                       == RecordedBy(RegionsAfter(regions, ops[..i], outcomes), ops[i], o)
  {
    hide RecordedBy;
    assert ops[..i + 1][..i] == ops[..i] && (outcomes + [o])[..i] == outcomes && (done + [n])[..i] == done;
  }

  lemma ImplementsExact(regions: Regions, left: seq<MemoryRegion>, q: Xlation, span: nat)
    requires Implements(regions, left, q, span)
    ensures Exact(regions, left, q, span)
  {
  }

  class MemorySet {
    var regions: Regions
    const pt: Stage2PageTable

    ghost function Span(): nat { Stage2.Span(pt.level) }

    ghost var left: seq<MemoryRegion>   // what failed insertions left mapped

    ghost predicate Valid()
      reads this, pt
    {
      pt.Valid() && RegionsOk(regions, Span()) && Implements(regions, left, pt.Q(), Span())
    }

    constructor (level: nat, pool: seq<nat>)
      requires level == 3 || level == 4
      requires pool != [] && Distinct(pool) && forall f :: f in pool ==> f % 0x1000 == 0 && f < PHYS_LIMIT
      ensures Valid() && fresh(pt) && regions == map[] && left == [] && NoEmptyTable(pt.W())
    {
      regions := map[];
      left := [];
      pt := new Stage2PageTable(level, pool);
    }

    /** `insert`.  A region is refused exactly when it overlaps a recorded one.  Otherwise, unless frames
        run out, it fails if and only if a page that `map` goes through is blocked; then `done` bytes of
        it are mapped and stay so, and nothing else has changed.  When nothing was left over by an
        earlier failure or deletion, only a lack of frames makes it fail. */
    method Insert(region: MemoryRegion) returns (r: Outcome, ghost done: nat)
      requires Valid() && region.Aligned() && region.start + region.size <= Span()
      modifies this, pt
      ensures Valid()
      ensures r == Einval <==> region.size > 0 && exists k :: k in old(regions) && old(regions)[k].IsOverlapWith(region)
      ensures regions == if r == Done && region.size > 0 then old(regions)[region.start := region] else old(regions)
      ensures r == Einval ==> pt.W() == old(pt.W())
      ensures r != Einval ==> RangeMapped(old(pt.Q()), pt.Q(), Span(), region, done)
      ensures r != Einval ==> done <= region.size && (r == Done <==> done == region.size)
      ensures r == Done ==> !Obstructed(old(pt.W()), region, 0)
      ensures r.MapFailed? ==> (r.error == NoMemory && pt.pool == []) || Obstructed(old(pt.W()), region, 0)
      ensures left == if r.MapFailed? then old(left) + [Prefix(region, done)] else old(left)
      ensures !r.MapFailed? && NoEmptyTable(old(pt.W())) ==> NoEmptyTable(pt.W())
      ensures r.MapFailed? && NothingLeft(old(left)) && NoEmptyTable(old(pt.W())) ==>
                r.error == NoMemory && pt.pool == []
    {
      hide WF, Accounted, Query, RangeMapped, PagesBest, Implements, NoEmptyTable, RegionsOk, Obstructed;
      done := 0;
      if region.size == 0 {
        NothingMapped(pt.Q(), Span(), region);
        ObstructedFirst(pt.W(), region, 0);
        return Done, 0;
      }
      NeighboursDecideOverlap(regions, Span(), region);
      if !TestFreeArea(regions, region) {
        return Einval, 0;
      }
      ghost var q := pt.Q();
      var m;
      m, done := pt.Map(region);
      if m.Err? {
        FailSound(regions, left, q, pt.Q(), Span(), region, done);
        if MappedWithin(q, Span(), region) && NothingLeft(left) {
          ImplementsExact(regions, left, q, Span());
          OverlapOfMapped(regions, left, q, Span(), region);
        }
        left := left + [Prefix(region, done)];
        return MapFailed(m.error), done;
      }
      InsertSound(regions, left, q, pt.Q(), Span(), region);
      regions := regions[region.start := region];
      r := Done;
    }

    /** Unmapping one of the regions `rs` that the table implements never fails. */
    method UnmapRegion(rs: Regions, k: nat)
      requires pt.Valid() && RegionsOk(rs, Span()) && Implements(rs, left, pt.Q(), Span()) && k in rs
      modifies pt
      ensures pt.Valid() && RangeCleared(old(pt.Q()), pt.Q(), Span(), rs[k], rs[k].size)
      ensures RegionsOk(rs - {k}, Span()) && Implements(rs - {k}, left, pt.Q(), Span())
    {
      hide WF, Accounted, Query, RangeCleared, PagesRespect, Sound, Sized, Exact, LeftSound, PrefixRespects,
           ClearedThrough;
      SoundKeepsPages(rs, pt.Q(), Span(), k);
      ghost var q := pt.Q();
      var u, done := pt.Unmap(rs[k]);
      assert u.Unmapped? by { NotStuck(q, Span(), rs[k], done, u); }
      DeleteSound(rs, left, q, pt.Q(), Span(), k);
    }

    /** `delete`: fails only for an unknown start, whatever happened before. */
    method Delete(start: nat) returns (r: Outcome)
      requires Valid()
      modifies this, pt
      ensures Valid()
      ensures r == if start in old(regions) then Done else Einval
      ensures regions == old(regions) - {start} && left == old(left)
      ensures r == Done ==> RangeCleared(old(pt.Q()), pt.Q(), Span(), old(regions)[start], old(regions)[start].size)
    {
      hide WF, Accounted, Query, RangeCleared, Implements, RegionsOk;
      if start !in regions {
        return Einval;
      }
      UnmapRegion(regions, start);
      regions := regions - {start};
      r := Done;
    }

    /** `page_table_query`. */
    method PageTableQuery(v: nat) returns (r: PagingResult<(nat, MemFlags, PageSize)>)
      requires Valid() && v < Span()
      ensures Recorded(regions, v) ==> r.Ok? && var g := RegionOf(regions, v).value;
                && r.value.0 == g.Xlate(v) && r.value.1 == Access(g.flags) && r.value.2 == SizeOfLevel(BestLevel(g, v))
                && (g.PhysicallyPlain() ==> r.value.0 == g.MapFn(g.start) + (v - g.start))
      ensures !Recorded(regions, v) && LeftBehind(left, v) ==> r.Ok? && var l := LeftOf(left, v).value;
                r.value.0 == l.Xlate(v) && r.value.1 == Access(l.flags)
      ensures !Recorded(regions, v) && !LeftBehind(left, v) ==> r == Err(NotMapped)
    {
      hide WF, Accounted, Query, RegionsOk, Implements, Recorded, LeftBehind, BestLevel;
      r := pt.QueryAddr(v);
      SoundAndExact(regions, left, pt.Q(), Span(), v);
    }

    /** `clear`: no unmapping fails, and exactly the recorded addresses lose their translation. */
    method Clear()
      requires Valid()
      modifies this, pt
      ensures Valid() && regions == map[] && left == old(left)
      ensures ClearedOf(old(regions), map[], old(pt.Q()), pt.Q(), Span())
    {
      hide WF, Accounted, Query, RangeCleared, Implements, ClearedOf, RegionsOk;
      var rest := regions;
      ClearedOfNothing(regions, pt.Q(), Span());
      while rest != map[]
        invariant pt.Valid() && RegionsOk(rest, Span()) && Implements(rest, left, pt.Q(), Span())
        invariant forall k :: k in rest ==> k in regions && rest[k] == regions[k]
        invariant regions == old(regions) && left == old(left) && RegionsOk(regions, Span())
        invariant ClearedOf(regions, rest, old(pt.Q()), pt.Q(), Span())
        decreases |rest|
      {
        var k :| k in rest;
        ghost var q := pt.Q();
        UnmapRegion(rest, k);
        ClearedOfOneMore(regions, rest, k, old(pt.Q()), q, pt.Q(), Span());
        SmallerRest(rest, k);
        rest := rest - {k};
      }
      regions := map[];
    }

    method Execute(op: Op) returns (o: Outcome, ghost done: nat)
      requires Valid()
      requires op.Insert? ==> op.region.Aligned() && op.region.start + op.region.size <= Span()
      modifies this, pt
      ensures Valid() && regions == RecordedBy(old(regions), op, o)
      ensures left == old(left) + if op.Insert? && o.MapFailed? then [Prefix(op.region, done)] else []
    {
      hide WF, Accounted, Query, RangeCleared, RangeMapped, Implements, NoEmptyTable, RegionsOk, Obstructed;
      done := 0;
      match op {
        case Insert(region) => o, done := Insert(region);
        case Delete(start) => o := Delete(start);
      }
    }

    /** Any sequence of operations: every address translates as its recorded region says, as the prefix
        that a failed insertion of the run or an earlier one left there says, or not at all. */
    method Run(ops: seq<Op>) returns (outcomes: seq<Outcome>, ghost done: seq<nat>)
      requires Valid()
      requires forall op :: op in ops && op.Insert? ==>
                 op.region.Aligned() && op.region.start + op.region.size <= Span()
      modifies this, pt
      ensures Valid() && |outcomes| == |done| == |ops|
      ensures regions == RegionsAfter(old(regions), ops, outcomes)
      ensures left == old(left) + Leftovers(ops, outcomes, done)
      ensures forall v: nat :: v < Span() ==> Agrees(regions, left, pt.Q(), v)
    {
      hide WF, Accounted, Query, RangeCleared, RangeMapped, Implements, NoEmptyTable, RegionsOk, Obstructed, Agrees;
      outcomes, done := [], [];
      for i := 0 to |ops|
        invariant Valid() && |outcomes| == |done| == i
        invariant regions == RegionsAfter(old(regions), ops[..i], outcomes)
        invariant left == old(left) + Leftovers(ops[..i], outcomes, done)
      {
        var o, n := Execute(ops[i]);
        LeftoversMore(ops, i, outcomes, done, o, n);
        outcomes, done := outcomes + [o], done + [n];
      }
      assert ops[..|ops|] == ops;
      forall v: nat | v < Span() ensures Agrees(regions, left, pt.Q(), v) {
        SoundAndExact(regions, left, pt.Q(), Span(), v);
      }
    }

    /** Insertions alone: each one succeeds, overlaps a recorded region, or finds no frame left. */
    method InsertAll(rs: seq<MemoryRegion>) returns (outcomes: seq<Outcome>)
      requires Valid() && NothingLeft(left) && NoEmptyTable(pt.W())
      requires forall r :: r in rs ==> r.Aligned() && r.start + r.size <= Span()
      modifies this, pt
      ensures Valid() && |outcomes| <= |rs|
      ensures |outcomes| == |rs| || (outcomes != [] && outcomes[|outcomes| - 1] == MapFailed(NoMemory) && pt.pool == [])
      ensures forall i :: 0 <= i < |outcomes| - 1 ==> !outcomes[i].MapFailed?
      ensures forall i :: 0 <= i < |outcomes| && outcomes[i].MapFailed? ==> outcomes[i].error == NoMemory
    {
      hide WF, Accounted, Query, RangeCleared, RangeMapped, Implements, NoEmptyTable, RegionsOk, Obstructed;
      outcomes := [];
      for i := 0 to |rs|
        invariant Valid() && NothingLeft(left) && NoEmptyTable(pt.W())
        invariant |outcomes| == i && forall j :: 0 <= j < i ==> !outcomes[j].MapFailed?
      {
        var o, done := Insert(rs[i]);
        outcomes := outcomes + [o];
        if o.MapFailed? { return; }
      }
    }
  }
}
