/** The GPU device's resource table and scanouts (hvisor-tool, `tools/virtio_gpu.c`; Virtio 1.2
    section 5.7.6.8).

    The first part says what each command does to the table and why every command keeps its
    invariant; the class at the end is the table itself, with the searches and loops of the source.
    A bitmask is the set of its bits. */
module GpuResources {
  import opened Wrappers
  import opened Arithmetic
  import opened Iov

  type u32 = x: nat | x < 0x1_0000_0000

  const U32: nat := 0x1_0000_0000
  const MAX_HOSTMEM: nat := 0x2000_0000
  const MAX_ENTRIES: nat := 16384

  datatype Rect = Rect(x: u32, y: u32, width: u32, height: u32)

  datatype Resource = Resource(
    id: u32, width: u32, height: u32, format: u32,
    iov: seq<array<byte>>,          // empty exactly when the pointer is null
    hostmem: nat, scanouts: set<nat>,
    transferRect: Rect, transferOffset: nat)

  datatype FrameBuffer = FrameBuffer(format: u32, width: u32, height: u32, stride: nat, offset: nat, enabled: bool)

  datatype Scanout = Scanout(resourceId: u32, x: u32, y: u32, width: u32, height: u32, fb: FrameBuffer)

  datatype Table = Table(resources: seq<Resource>, hostmem: nat, scanouts: seq<Scanout>)

  datatype Response = OkNoData | ErrUnspec | ErrInvalidScanoutId | ErrInvalidResourceId | ErrInvalidParameter

  datatype Command =
    | Truncated                     // the chain is shorter than the command's structure
    | Query                         // display information and EDID
    | Create2d(id: u32, width: u32, height: u32, format: u32)
    | Unref(id: u32)
    | Attach(id: u32, nrEntries: u32, entries: seq<array<byte>>)
    | Detach(id: u32)
    | SetScanout(scanoutId: u32, id: u32, r: Rect)
    | Transfer(id: u32, r: Rect, offset: nat)
    | Flush(id: u32, r: Rect, drm: nat -> bool)   // whether the DRM calls for a scanout succeed
    | Unknown

  // ------------------------------------------------------------------
  // Sizes

  function Stride(width: u32): nat { (width * 32 % U32 + 0x1f) % U32 / 32 * 4 }

  function CalcImageHostmem(width: u32, height: u32): u32 { height * Stride(width) % U32 }

  lemma StrideIs(width: u32)
    ensures Stride(width) == 4 * (width % 0x800_0000)
  {
  }

  lemma Wraps(q: nat)
    ensures q % U32 == q <==> q < U32
    ensures q % U32 <= q
  {
  }

  /** The size is the size of the image if and only if neither product wraps. */
  lemma HostmemExact(width: u32, height: u32)
    ensures CalcImageHostmem(width, height) == 4 * width * height
            <==> (height == 0 || (width < 0x800_0000 && 4 * width * height < U32))
  {
    hide Stride;
    StrideIs(width);
    var low := width % 0x800_0000;
    var p, q := 4 * width * height, height * (4 * low);
    assert CalcImageHostmem(width, height) == q % U32;
    assert height * (4 * width) == p;
    Wraps(q);
    if height > 0 && width >= 0x800_0000 {
      MulMono(height, 4 * low + 1, 4 * width);
      assert height * (4 * low + 1) == q + height;
    }
  }

  predicate InBounds(r: Rect, width: u32, height: u32) {
    && r.x <= width && r.y <= height && r.width <= width && r.height <= height
    && (r.x + r.width) % U32 <= width && (r.y + r.height) % U32 <= height
  }

  /** The edges `start + length` of 32-bit numbers, up to `limit`: a sum that wraps passes. */
  predicate EdgeInside(start: u32, length: u32, limit: u32) {
    start <= limit && length <= limit && (start + length <= limit || start + length >= 0x1_0000_0000)
  }

  /** The bounds test, without remainders. */
  predicate Inside(r: Rect, width: u32, height: u32) {
    EdgeInside(r.x, r.width, width) && EdgeInside(r.y, r.height, height)
  }

  lemma InBoundsExactly(r: Rect, width: u32, height: u32)
    ensures InBounds(r, width, height) <==> Inside(r, width, height)
  {
    SumWraps(r.x, r.width);
    SumWraps(r.y, r.height);
  }

  lemma SumWraps(a: u32, b: u32)
    ensures (a + b) % U32 == if a + b < 0x1_0000_0000 then a + b else a + b - 0x1_0000_0000
  {
  }

  /** The size of an image in 32-bit arithmetic. */
  lemma HostmemIs(width: u32, height: u32)
    ensures CalcImageHostmem(width, height) == 4 * (width % 0x800_0000) * height % 0x1_0000_0000
  {
    hide Stride;
    StrideIs(width);
    var s := 4 * (width % 0x800_0000);
    assert height * s == s * height;
  }

  // ------------------------------------------------------------------
  // The invariant

  /** The index of the first resource called `id`, or the length of the list. */
  function Find(rs: seq<Resource>, id: u32): (k: nat)
    ensures k <= |rs| && (k < |rs| ==> rs[k].id == id) && (forall j :: 0 <= j < k ==> rs[j].id != id)
  {
    if rs == [] then 0
    else if rs[0].id == id then 0
    else
      var k := Find(rs[1..], id);
      assert forall j :: 1 <= j < k + 1 ==> rs[j] == rs[1..][j - 1];
      k + 1
  }

  function Sum(rs: seq<Resource>): nat {
    if rs == [] then 0 else rs[0].hostmem + Sum(rs[1..])
  }

  /** The list without its `k`-th resource. */
  function Without(rs: seq<Resource>, k: nat): seq<Resource>
    requires k < |rs|
  {
    rs[..k] + rs[k + 1..]
  }

  lemma {:induction false} SumAt(rs: seq<Resource>, k: nat)
    requires k < |rs|
    ensures Sum(rs) == rs[k].hostmem + Sum(Without(rs, k))
  {
    if k == 0 {
      assert rs[..0] + rs[1..] == rs[1..];
    } else {
      SumAt(rs[1..], k - 1);
      assert (rs[..k] + rs[k + 1..])[1..] == rs[1..][..k - 1] + rs[1..][k..];
    }
  }

  lemma {:induction false} SumSame(rs: seq<Resource>, rs': seq<Resource>)
    requires |rs| == |rs'| && forall k :: 0 <= k < |rs| ==> rs[k].hostmem == rs'[k].hostmem
    ensures Sum(rs) == Sum(rs')
  {
    if rs != [] { SumSame(rs[1..], rs'[1..]); }
  }

  ghost predicate IdsOk(rs: seq<Resource>) {
    && (forall k :: 0 <= k < |rs| ==> rs[k].id != 0)
    && (forall j, k :: 0 <= j < k < |rs| ==> rs[j].id != rs[k].id)
  }

  ghost predicate SizesOk(rs: seq<Resource>) {
    forall k :: 0 <= k < |rs| ==>
      && rs[k].hostmem == CalcImageHostmem(rs[k].width, rs[k].height)
      && InBounds(rs[k].transferRect, rs[k].width, rs[k].height)
  }

  /** Bit `i` of the resource's mask is set exactly when scanout `i` names the resource. */
  ghost predicate MaskOk(r: Resource, scs: seq<Scanout>) {
    forall i: nat :: i in r.scanouts <==> i < |scs| && scs[i].resourceId == r.id
  }

  ghost predicate MasksOk(rs: seq<Resource>, scs: seq<Scanout>) {
    forall k :: 0 <= k < |rs| ==> MaskOk(rs[k], scs)
  }

  /** A scanout names nothing, or a live resource whose size its framebuffer has. */
  ghost predicate ScanoutOk(rs: seq<Resource>, sc: Scanout) {
    sc.resourceId != 0 ==>
      var k := Find(rs, sc.resourceId);
      k < |rs| && rs[k].hostmem > 0 && sc.fb.width == rs[k].width && sc.fb.height == rs[k].height
  }

  ghost predicate Inv(t: Table) {
    && IdsOk(t.resources) && SizesOk(t.resources) && MasksOk(t.resources, t.scanouts)
    && (forall i :: 0 <= i < |t.scanouts| ==> ScanoutOk(t.resources, t.scanouts[i]))
    && t.hostmem == Sum(t.resources) && t.hostmem < MAX_HOSTMEM
  }

  // ------------------------------------------------------------------
  // What each command does

  /** A resource of positive size has rows: the divisor of every stride is positive. */
  lemma HasRows(r: Resource)
    requires r.hostmem == CalcImageHostmem(r.width, r.height) && r.hostmem > 0
    ensures r.height > 0
  {
  }

  /** `virtio_gpu_check_resource`. */
  function Check(rs: seq<Resource>, id: u32): Response {
    var k := Find(rs, id);
    if k == |rs| then ErrInvalidResourceId
    else if rs[k].iov == [] || rs[k].hostmem <= 0 then ErrUnspec
    else OkNoData
  }

  function DoCreate(t: Table, c: Command): (Table, Response)
    requires c.Create2d?
  {
    var size := CalcImageHostmem(c.width, c.height);
    if c.id == 0 || Find(t.resources, c.id) < |t.resources| then (t, ErrInvalidResourceId)
    else if size + t.hostmem >= MAX_HOSTMEM then (t, OkNoData)
    else
      var r := Resource(c.id, c.width, c.height, c.format, [], size, {}, Rect(0, 0, 0, 0), 0);
      (t.(resources := [r] + t.resources, hostmem := t.hostmem + size), OkNoData)
  }

  /** The resource called `id`, if there is one. */
  function ById(rs: seq<Resource>, id: u32): Option<Resource> {
    var k := Find(rs, id);
    if k < |rs| then Some(rs[k]) else None
  }

  /** Every other resource is found as before. */
  ghost predicate OnlyChanges(rs: seq<Resource>, rs': seq<Resource>, id: u32) {
    forall i: u32 :: i != id ==> ById(rs', i) == ById(rs, i)
  }

  lemma FindIs(rs: seq<Resource>, id: u32, k: nat)
    requires k <= |rs| && (k < |rs| ==> rs[k].id == id) && forall j :: 0 <= j < k ==> rs[j].id != id
    ensures Find(rs, id) == k
  {
  }

  lemma AddById(rs: seq<Resource>, r: Resource)
    ensures OnlyChanges(rs, [r] + rs, r.id) && ById([r] + rs, r.id) == Some(r)
  {
    assert ([r] + rs)[1..] == rs;
  }

  lemma UpdateById(rs: seq<Resource>, k: nat, r: Resource)
    requires k < |rs| && k == Find(rs, rs[k].id) && r.id == rs[k].id
    ensures OnlyChanges(rs, rs[k := r], r.id) && ById(rs[k := r], r.id) == Some(r)
  {
    hide Find;
    var rs' := rs[k := r];
    forall i: u32 ensures Find(rs', i) == Find(rs, i) {
      FindIs(rs', i, Find(rs, i));
    }
  }

  /** Creation in terms of ids: refused exactly for 0 and for a used id; otherwise the id names a new
      resource of the computed size, unless the memory would not suffice. */
  lemma CreateById(t: Table, c: Command)
    requires c.Create2d?
    ensures var (t', e) := DoCreate(t, c);
            var size := CalcImageHostmem(c.width, c.height);
            var fits := !e.ErrInvalidResourceId? && size + t.hostmem < 0x2000_0000;
            && (e.ErrInvalidResourceId? <==> c.id == 0 || ById(t.resources, c.id).Some?)
            && OnlyChanges(t.resources, t'.resources, c.id) && t'.scanouts == t.scanouts
            && t'.hostmem == t.hostmem + (if fits then size else 0)
            && ById(t'.resources, c.id) ==
               if fits then Some(Resource(c.id, c.width, c.height, c.format, [], size, {}, Rect(0, 0, 0, 0), 0))
               else ById(t.resources, c.id)
  {
    hide Find, CalcImageHostmem;
    var size := CalcImageHostmem(c.width, c.height);
    AddById(t.resources, Resource(c.id, c.width, c.height, c.format, [], size, {}, Rect(0, 0, 0, 0), 0));
  }

  /** Attaching in terms of ids: the named resource, if it has no backing store, gets the first
      `nrEntries` buffers of the command, and nothing else changes. */
  lemma AttachById(t: Table, c: Command)
    requires c.Attach?
    ensures var (t', e) := DoAttach(t, c);
            var was := ById(t.resources, c.id);
            && (e.ErrInvalidResourceId? <==> was.None?)
            && (e.OkNoData? <==>
                was.Some? && was.value.iov == [] && c.nrEntries <= 16384 && c.nrEntries <= |c.entries|)
            && OnlyChanges(t.resources, t'.resources, c.id) && t'.scanouts == t.scanouts && t'.hostmem == t.hostmem
            && ById(t'.resources, c.id)
               == if e.OkNoData? then Some(was.value.(iov := c.entries[..c.nrEntries])) else was
  {
    hide Find;
    var k := Find(t.resources, c.id);
    if k < |t.resources| && c.nrEntries <= |c.entries| {
      UpdateById(t.resources, k, t.resources[k].(iov := c.entries[..c.nrEntries]));
    }
  }

  /** A transfer in terms of ids: recorded on the named resource exactly when it is usable and the
      rectangle lies inside it. */
  lemma TransferById(t: Table, c: Command)
    requires c.Transfer?
    ensures var (t', e) := DoTransfer(t, c);
            var was := ById(t.resources, c.id);
            && (e.OkNoData? <==> was.Some? && was.value.iov != [] && was.value.hostmem > 0
                                 && Inside(c.r, was.value.width, was.value.height))
            && (!e.OkNoData? ==> e == if was.None? then ErrInvalidResourceId
                                      else if was.value.iov == [] || was.value.hostmem == 0 then ErrUnspec
                                      else ErrInvalidParameter)
            && OnlyChanges(t.resources, t'.resources, c.id) && t'.scanouts == t.scanouts && t'.hostmem == t.hostmem
            && ById(t'.resources, c.id) ==
               if e.OkNoData? then Some(was.value.(transferRect := c.r, transferOffset := c.offset)) else was
  {
    hide Find, InBounds, Inside;
    var k := Find(t.resources, c.id);
    if k < |t.resources| {
      InBoundsExactly(c.r, t.resources[k].width, t.resources[k].height);
      UpdateById(t.resources, k, t.resources[k].(transferRect := c.r, transferOffset := c.offset));
    }
  }

  /** Every scanout that shows `id` shows nothing. */
  function Blanked(scs: seq<Scanout>, id: u32): (r: seq<Scanout>)
    ensures |r| == |scs|
  {
    seq(|scs|, i requires 0 <= i < |scs| =>
      if scs[i].resourceId == id then scs[i].(resourceId := 0, width := 0, height := 0) else scs[i])
  }

  function DoUnref(t: Table, id: u32): (Table, Response)
    requires t.hostmem == Sum(t.resources)
  {
    var k := Find(t.resources, id);
    if k == |t.resources| then (t, ErrInvalidResourceId)
    else
      SumAt(t.resources, k);
      (Table(Without(t.resources, k), t.hostmem - t.resources[k].hostmem, Blanked(t.scanouts, id)), OkNoData)
  }

  function DoAttach(t: Table, c: Command): (Table, Response)
    requires c.Attach?
  {
    var k := Find(t.resources, c.id);
    if k == |t.resources| then (t, ErrInvalidResourceId)
    else if t.resources[k].iov != [] || c.nrEntries > MAX_ENTRIES || |c.entries| < c.nrEntries then (t, ErrUnspec)
    else (t.(resources := t.resources[k := t.resources[k].(iov := c.entries[..c.nrEntries])]), OkNoData)
  }

  function DoDetach(t: Table, id: u32): (Table, Response)
  {
    if Check(t.resources, id) != OkNoData then (t, Check(t.resources, id))
    else
      var k := Find(t.resources, id);
      (t.(resources := t.resources[k := t.resources[k].(iov := [])]), OkNoData)
  }

  /** Bit `i` moves to the resource called `id`. */
  function Rebound(rs: seq<Resource>, i: nat, id: u32): (r: seq<Resource>)
    ensures |r| == |rs|
  {
    seq(|rs|, k requires 0 <= k < |rs| =>
      rs[k].(scanouts := if rs[k].id == id then rs[k].scanouts + {i} else rs[k].scanouts - {i}))
  }

  predicate ScanoutRect(r: Rect, width: u32, height: u32) {
    && r.x <= width && r.y <= width && r.width >= 16 && r.height >= 16 && r.width <= width && r.height <= height
    && (r.x + r.width) % U32 <= width && (r.y + r.height) % U32 <= height
  }

  function FrameBufferFor(res: Resource, r: Rect): FrameBuffer
    requires res.height > 0
  {
    var stride := res.hostmem / res.height;
    FrameBuffer(res.format, res.width, res.height, stride, (r.x * 4 + r.y * stride) % U32, false)
  }

  function DoSetScanout(t: Table, c: Command): (Table, Response)
    requires c.SetScanout? && SizesOk(t.resources)
  {
    if c.scanoutId >= |t.scanouts| then (t, ErrInvalidScanoutId)
    else if Check(t.resources, c.id) != OkNoData then (t, Check(t.resources, c.id))
    else
      var res := t.resources[Find(t.resources, c.id)];
      HasRows(res);
      var fb := FrameBufferFor(res, c.r);
      if !ScanoutRect(c.r, res.width, res.height) then (t, ErrInvalidParameter)
      else
        var sc := Scanout(c.id, c.r.x, c.r.y, c.r.width, c.r.height, fb);
        (t.(resources := Rebound(t.resources, c.scanoutId, c.id), scanouts := t.scanouts[c.scanoutId := sc]), OkNoData)
  }

  function DoTransfer(t: Table, c: Command): (Table, Response)
    requires c.Transfer?
  {
    if Check(t.resources, c.id) != OkNoData then (t, Check(t.resources, c.id))
    else
      var k := Find(t.resources, c.id);
      var res := t.resources[k];
      if !InBounds(c.r, res.width, res.height) then (t, ErrInvalidParameter)
      else (t.(resources := t.resources[k := res.(transferRect := c.r, transferOffset := c.offset)]), OkNoData)
  }

  predicate Blocked(sc: Scanout, ok: bool) { !sc.fb.enabled && !ok }

  /** The first scanout of `mask` from `i` on whose framebuffer cannot be created. */
  function FirstBlocked(scs: seq<Scanout>, mask: set<nat>, drm: nat -> bool, i: nat): (f: nat)
    requires i <= |scs|
    ensures i <= f <= |scs|
    ensures f < |scs| ==> f in mask && Blocked(scs[f], drm(f))
    ensures forall j :: i <= j < f && j in mask ==> !Blocked(scs[j], drm(j))
    decreases |scs| - i
  {
    if i == |scs| || (i in mask && Blocked(scs[i], drm(i))) then i else FirstBlocked(scs, mask, drm, i + 1)
  }

  /** The scanouts of `mask` below `n` have framebuffers. */
  function Enabled(scs: seq<Scanout>, mask: set<nat>, n: nat): (r: seq<Scanout>)
    ensures |r| == |scs|
  {
    seq(|scs|, i requires 0 <= i < |scs| =>
      if i in mask && i < n then scs[i].(fb := scs[i].fb.(enabled := true)) else scs[i])
  }

  function DoFlush(t: Table, c: Command): (Table, Response)
    requires c.Flush?
  {
    if Check(t.resources, c.id) != OkNoData then (t, Check(t.resources, c.id))
    else
      var res := t.resources[Find(t.resources, c.id)];
      if !InBounds(c.r, res.width, res.height) then (t, ErrInvalidParameter)
      else
        var f := FirstBlocked(t.scanouts, res.scanouts, c.drm, 0);
        (t.(scanouts := Enabled(t.scanouts, res.scanouts, f)), if f < |t.scanouts| then ErrUnspec else OkNoData)
  }

  function Step(t: Table, c: Command): (Table, Response)
    requires SizesOk(t.resources) && t.hostmem == Sum(t.resources)
  {
    match c
    case Truncated => (t, OkNoData)
    case Query => (t, OkNoData)
    case Create2d(_, _, _, _) => DoCreate(t, c)
    case Unref(id) => DoUnref(t, id)
    case Attach(_, _, _) => DoAttach(t, c)
    case Detach(id) => DoDetach(t, id)
    case SetScanout(_, _, _) => DoSetScanout(t, c)
    case Transfer(_, _, _) => DoTransfer(t, c)
    case Flush(_, _, _) => DoFlush(t, c)
    case Unknown => (t, ErrUnspec)
  }

  // ------------------------------------------------------------------
  // The other commands in terms of ids

  lemma WithoutById(rs: seq<Resource>, k: nat)
    requires k < |rs| && k == Find(rs, rs[k].id)
    ensures OnlyChanges(rs, Without(rs, k), rs[k].id)
  {
    hide Find;
    var rs' := Without(rs, k);
    forall id: u32 | id != rs[k].id ensures ById(rs', id) == ById(rs, id) {
      var f := Find(rs, id);
      FindIs(rs', id, if f > k then f - 1 else f);
    }
  }

  lemma GoneById(rs: seq<Resource>, k: nat)
    requires IdsOk(rs) && k < |rs|
    ensures ById(Without(rs, k), rs[k].id) == None
  {
    hide Find;
    FindIs(Without(rs, k), rs[k].id, |rs| - 1);
  }

  /** Destruction: the id is free again, its memory is given back, and exactly the scanouts that showed it
      show nothing. */
  lemma UnrefById(t: Table, id: u32)
    requires IdsOk(t.resources) && t.hostmem == Sum(t.resources)
    ensures var (t', e) := DoUnref(t, id);
            var was := ById(t.resources, id);
            if was.None? then t' == t && e == ErrInvalidResourceId
            else
              && e == OkNoData && ById(t'.resources, id) == None && OnlyChanges(t.resources, t'.resources, id)
              && t'.hostmem == t.hostmem - was.value.hostmem && |t'.scanouts| == |t.scanouts|
              && forall i :: 0 <= i < |t.scanouts| ==>
                   var sc := t.scanouts[i];
                   t'.scanouts[i] == if sc.resourceId == id then Scanout(0, sc.x, sc.y, 0, 0, sc.fb) else sc
  {
    hide Find, Sum, IdsOk;
    var k := Find(t.resources, id);
    if k < |t.resources| {
      GoneById(t.resources, k);
      WithoutById(t.resources, k);
    }
  }

  /** Detaching: a usable resource loses its backing store and nothing else changes. */
  lemma DetachById(t: Table, id: u32)
    ensures var (t', e) := DoDetach(t, id);
            var was := ById(t.resources, id);
            && e == (if was.None? then ErrInvalidResourceId
                     else if was.value.iov == [] || was.value.hostmem == 0 then ErrUnspec
                     else OkNoData)
            && OnlyChanges(t.resources, t'.resources, id) && t'.scanouts == t.scanouts && t'.hostmem == t.hostmem
            && ById(t'.resources, id) == if e.OkNoData? then Some(was.value.(iov := [])) else was
  {
    hide Find;
    var k := Find(t.resources, id);
    if k < |t.resources| { UpdateById(t.resources, k, t.resources[k].(iov := [])); }
  }

  lemma ReboundById(rs: seq<Resource>, i: nat, owner: u32, id: u32)
    ensures ById(Rebound(rs, i, owner), id) == BitMoved(ById(rs, id), i, owner)
  {
    hide Find;
    FindIs(Rebound(rs, i, owner), id, Find(rs, id));
  }

  /** The resource with bit `i` of its mask set if it is `owner`, and cleared if not. */
  function BitMoved(was: Option<Resource>, i: nat, owner: u32): Option<Resource> {
    match was
    case None => None
    case Some(r) => Some(r.(scanouts := if r.id == owner then r.scanouts + {i} else r.scanouts - {i}))
  }

  /** What the rectangle of a scanout must satisfy: at least 16 by 16 and inside the resource; `y` is held
      against the width. */
  predicate Displayable(r: Rect, width: u32, height: u32) {
    && r.width >= 16 && r.height >= 16 && EdgeInside(r.x, r.width, width)
    && r.y <= width && r.height <= height && (r.y + r.height <= height || r.y + r.height >= 0x1_0000_0000)
  }

  lemma ScanoutRectExactly(r: Rect, width: u32, height: u32)
    ensures ScanoutRect(r, width, height) <==> Displayable(r, width, height)
  {
    SumWraps(r.x, r.width);
    SumWraps(r.y, r.height);
  }

  /** The scanout of resource `res` with this rectangle. */
  function ShownAs(res: Resource, r: Rect): Scanout
    requires res.height > 0
  {
    var stride := res.hostmem / res.height;
    Scanout(res.id, r.x, r.y, r.width, r.height,
            FrameBuffer(res.format, res.width, res.height, stride, (4 * r.x + r.y * stride) % 0x1_0000_0000, false))
  }

  /** Setting a scanout: exactly when it is accepted, what the scanout then shows, whose bit is set and
      cleared, and that nothing else changes. */
  lemma SetScanoutById(t: Table, c: Command)
    requires c.SetScanout? && SizesOk(t.resources)
    ensures var (t', e) := DoSetScanout(t, c);
            var was := ById(t.resources, c.id);
            && e == (if c.scanoutId >= |t.scanouts| then ErrInvalidScanoutId
                     else if was.None? then ErrInvalidResourceId
                     else if was.value.iov == [] || was.value.hostmem == 0 then ErrUnspec
                     else if !Displayable(c.r, was.value.width, was.value.height) then ErrInvalidParameter
                     else OkNoData)
            && (!e.OkNoData? ==> t' == t)
            && (e.OkNoData? ==>
                  && t'.hostmem == t.hostmem && was.value.height > 0
                  && t'.scanouts == t.scanouts[c.scanoutId := ShownAs(was.value, c.r)]
                  && forall id: u32 :: ById(t'.resources, id) == BitMoved(ById(t.resources, id), c.scanoutId, c.id))
  {
    hide Find, ScanoutRect, Displayable, Rebound, CalcImageHostmem, SizesOk;
    var k := Find(t.resources, c.id);
    if k < |t.resources| { ScanoutRectExactly(c.r, t.resources[k].width, t.resources[k].height); }
    if Check(t.resources, c.id).OkNoData? { UsableHasRows(t.resources, k, c.id); }
    forall id: u32
      ensures ById(Rebound(t.resources, c.scanoutId, c.id), id) == BitMoved(ById(t.resources, id), c.scanoutId, c.id)
    {
      ReboundById(t.resources, c.scanoutId, c.id, id);
    }
  }

  /** Flushing: exactly when it is accepted, and which scanouts have framebuffers afterwards: those of the
      resource, up to the first whose framebuffer cannot be created. */
  lemma FlushById(t: Table, c: Command)
    requires c.Flush?
    ensures var (t', e) := DoFlush(t, c);
            var was := ById(t.resources, c.id);
            && t'.resources == t.resources && t'.hostmem == t.hostmem && |t'.scanouts| == |t.scanouts|
            && (e == ErrInvalidResourceId <==> was.None?)
            && (e == ErrInvalidParameter <==> was.Some? && was.value.iov != [] && was.value.hostmem > 0
                                              && !Inside(c.r, was.value.width, was.value.height))
            && (e == OkNoData <==>
                && was.Some? && was.value.iov != [] && was.value.hostmem > 0
                && Inside(c.r, was.value.width, was.value.height)
                && forall i | 0 <= i < |t.scanouts| && i in was.value.scanouts ::
                     t.scanouts[i].fb.enabled || c.drm(i))
            && (e == OkNoData ==> EnabledBelow(t.scanouts, t'.scanouts, was.value.scanouts, |t.scanouts|))
            && (e != OkNoData && t' != t ==> was.Some? && exists f: nat :: StopsAt(t, t', was.value.scanouts, c.drm, f))
  {
    hide Find, InBounds, Inside;
    var k := Find(t.resources, c.id);
    if k < |t.resources| {
      InBoundsExactly(c.r, t.resources[k].width, t.resources[k].height);
      var f := FirstBlocked(t.scanouts, t.resources[k].scanouts, c.drm, 0);
      var t' := DoFlush(t, c).0;
      assert f < |t.scanouts| && t' != t ==> StopsAt(t, t', t.resources[k].scanouts, c.drm, f);
    }
  }

  /** The scanouts of `mask` below `n` have framebuffers, and nothing else has changed. */
  ghost predicate EnabledBelow(scs: seq<Scanout>, scs': seq<Scanout>, mask: set<nat>, n: nat) {
    && |scs'| == |scs|
    && forall i :: 0 <= i < |scs| ==>
         scs'[i] == if i in mask && i < n then scs[i].(fb := scs[i].fb.(enabled := true)) else scs[i]
  }

  /** Scanout `f` is the first of `mask` whose framebuffer cannot be created. */
  ghost predicate StopsAt(t: Table, t': Table, mask: set<nat>, drm: nat -> bool, f: nat) {
    && f < |t.scanouts| && f in mask && !t.scanouts[f].fb.enabled && !drm(f)
    && (forall i :: 0 <= i < f && i in mask ==> t.scanouts[i].fb.enabled || drm(i))
    && EnabledBelow(t.scanouts, t'.scanouts, mask, f)
  }

  /** A refused command changes nothing, except that a flush that fails half way has enabled some
      framebuffers; unknown commands are refused, and questions and truncated commands change nothing. */
  lemma RefusedChangesNothing(t: Table, c: Command)
    requires SizesOk(t.resources) && t.hostmem == Sum(t.resources)
    ensures var (t', e) := Step(t, c);
            && (e != OkNoData && !c.Flush? ==> t' == t)
            && (c.Flush? ==> t'.resources == t.resources && t'.hostmem == t.hostmem)
            && (c.Unknown? ==> e == ErrUnspec) && (c.Query? || c.Truncated? ==> t' == t && e == OkNoData)
  {
    hide Find, InBounds, ScanoutRect, CalcImageHostmem, SizesOk, Sum;
  }

  // ------------------------------------------------------------------
  // Every command keeps the invariant

  lemma FoundAt(rs: seq<Resource>, k: nat)
    requires IdsOk(rs) && k < |rs|
    ensures Find(rs, rs[k].id) == k
  {
  }

  /** What scanouts need of a list, in terms of a resource of the list. */
  lemma ScanoutOkAt(rs: seq<Resource>, sc: Scanout, k: nat)
    requires IdsOk(rs) && k < |rs| && rs[k].id == sc.resourceId
    requires rs[k].hostmem > 0 && sc.fb.width == rs[k].width && sc.fb.height == rs[k].height
    ensures ScanoutOk(rs, sc)
  {
    FoundAt(rs, k);
  }

  /** A scanout that is all right with one list is with another that has its resource. */
  lemma ScanoutKept(rs: seq<Resource>, rs': seq<Resource>, sc: Scanout, sc': Scanout)
    requires IdsOk(rs') && ScanoutOk(rs, sc)
    requires sc'.resourceId == sc.resourceId && sc'.fb.width == sc.fb.width && sc'.fb.height == sc.fb.height
    requires forall k :: 0 <= k < |rs| && rs[k].id == sc.resourceId ==> Has(rs', rs[k])
    ensures ScanoutOk(rs', sc')
  {
    if sc.resourceId != 0 {
      var k := Find(rs, sc.resourceId);
      assert Has(rs', rs[k]);
      var k' :| 0 <= k' < |rs'| && SameImage(rs'[k'], rs[k]);
      ScanoutOkAt(rs', sc', k');
    }
  }

  predicate SameImage(r: Resource, r': Resource) {
    r.id == r'.id && r.hostmem == r'.hostmem && r.width == r'.width && r.height == r'.height
  }

  ghost predicate Has(rs: seq<Resource>, r: Resource) {
    exists k :: 0 <= k < |rs| && SameImage(rs[k], r)
  }

  lemma CreateKeepsInv(t: Table, c: Command)
    requires Inv(t) && c.Create2d?
    ensures Inv(DoCreate(t, c).0)
  {
    hide CalcImageHostmem, InBounds, Find, ScanoutOk, MaskOk;
    var t' := DoCreate(t, c).0;
    if t' != t {
      var rs, rs' := t.resources, t'.resources;
      assert rs'[1..] == rs;
      assert forall k :: 0 <= k < |rs| ==> rs'[k + 1] == rs[k];
      assert IdsOk(rs');
      assert SizesOk(rs') by { EmptyRect(rs'[0].width, rs'[0].height); }
      assert MaskOk(rs'[0], t.scanouts) by { NotShownYet(t, rs'[0]); }
      forall i | 0 <= i < |t.scanouts| ensures ScanoutOk(rs', t.scanouts[i]) {
        assert forall k :: 0 <= k < |rs| ==> SameImage(rs'[k + 1], rs[k]);
        ScanoutKept(rs, rs', t.scanouts[i], t.scanouts[i]);
      }
    }
  }

  lemma EmptyRect(width: u32, height: u32)
    ensures InBounds(Rect(0, 0, 0, 0), width, height)
  {
  }

  lemma NotShownYet(t: Table, r: Resource)
    requires Inv(t) && r.id != 0 && Find(t.resources, r.id) == |t.resources| && r.scanouts == {}
    ensures MaskOk(r, t.scanouts)
  {
    forall i | 0 <= i < |t.scanouts| ensures t.scanouts[i].resourceId != r.id {
      assert ScanoutOk(t.resources, t.scanouts[i]);
    }
  }

  lemma WithoutOk(rs: seq<Resource>, k: nat)
    requires k < |rs| && IdsOk(rs) && SizesOk(rs)
    ensures IdsOk(Without(rs, k)) && SizesOk(Without(rs, k))
  {
    hide CalcImageHostmem, InBounds;
    var rs' := Without(rs, k);
    assert forall j :: 0 <= j < |rs'| ==> rs'[j] == rs[if j < k then j else j + 1];
  }

  lemma WithoutMasks(rs: seq<Resource>, scs: seq<Scanout>, k: nat)
    requires k < |rs| && IdsOk(rs) && MasksOk(rs, scs)
    ensures MasksOk(Without(rs, k), Blanked(scs, rs[k].id))
  {
    hide MaskOk, Blanked;
    var rs' := Without(rs, k);
    forall j | 0 <= j < |rs'| ensures MaskOk(rs'[j], Blanked(scs, rs[k].id)) {
      assert rs'[j] == rs[if j < k then j else j + 1];
      BlankedMask(rs'[j], scs, rs[k].id);
    }
  }

  lemma WithoutScanout(rs: seq<Resource>, sc: Scanout, k: nat)
    requires k < |rs| && IdsOk(Without(rs, k)) && ScanoutOk(rs, sc) && sc.resourceId != rs[k].id
    ensures ScanoutOk(Without(rs, k), sc)
  {
    hide ScanoutOk, IdsOk;
    var rs' := Without(rs, k);
    forall j | 0 <= j < |rs| && rs[j].id == sc.resourceId ensures Has(rs', rs[j]) {
      assert SameImage(rs'[if j < k then j else j - 1], rs[j]);
    }
    ScanoutKept(rs, rs', sc, sc);
  }

  lemma UnrefKeepsInv(t: Table, id: u32)
    requires Inv(t)
    ensures Inv(DoUnref(t, id).0)
  {
    hide Find, ScanoutOk, Sum, IdsOk, SizesOk, MasksOk;
    var rs, scs, k := t.resources, t.scanouts, Find(t.resources, id);
    if k < |rs| {
      var t' := DoUnref(t, id).0;
      assert t'.resources == Without(rs, k);
      SumAt(rs, k);
      WithoutOk(rs, k);
      WithoutMasks(rs, scs, k);
      forall i | 0 <= i < |scs| ensures ScanoutOk(t'.resources, t'.scanouts[i]) {
        if scs[i].resourceId == id { BlankOk(t'.resources, t'.scanouts[i]); } else { WithoutScanout(rs, scs[i], k); }
      }
    }
  }

  lemma BlankedMask(r: Resource, scs: seq<Scanout>, id: u32)
    requires MaskOk(r, scs) && r.id != id && r.id != 0
    ensures MaskOk(r, Blanked(scs, id))
  {
  }

  lemma BlankOk(rs: seq<Resource>, sc: Scanout)
    requires sc.resourceId == 0
    ensures ScanoutOk(rs, sc)
  {
  }

  /** The backing store and the pending transfer are not part of what scanouts and sizes rely on. */
  lemma UpdateKeepsInv(t: Table, k: nat, r: Resource)
    requires Inv(t) && k < |t.resources|
    requires var was := t.resources[k];
             r == was.(iov := r.iov, transferRect := r.transferRect, transferOffset := r.transferOffset)
    requires InBounds(r.transferRect, r.width, r.height)
    ensures Inv(t.(resources := t.resources[k := r]))
  {
    hide CalcImageHostmem, InBounds, Find, ScanoutOk, Sum;
    var rs, rs' := t.resources, t.resources[k := r];
    SumSame(rs, rs');
    assert IdsOk(rs') && SizesOk(rs') && MasksOk(rs', t.scanouts);
    forall i | 0 <= i < |t.scanouts| ensures ScanoutOk(rs', t.scanouts[i]) {
      assert forall j :: 0 <= j < |rs| ==> SameImage(rs'[j], rs[j]);
      ScanoutKept(rs, rs', t.scanouts[i], t.scanouts[i]);
    }
  }

  lemma ReboundMask(rs: seq<Resource>, scs: seq<Scanout>, k: nat, i: nat, id: u32, sc: Scanout)
    requires k < |rs| && MaskOk(rs[k], scs) && i < |scs| && sc.resourceId == id
    ensures MaskOk(Rebound(rs, i, id)[k], scs[i := sc])
  {
  }

  lemma SetScanoutKeepsInv(t: Table, c: Command)
    requires Inv(t) && c.SetScanout?
    ensures Inv(DoSetScanout(t, c).0)
  {
    hide CalcImageHostmem, InBounds, Find, ScanoutOk, Sum, ScanoutRect, MaskOk;
    var t' := DoSetScanout(t, c).0;
    if t' != t {
      var rs, rs', k := t.resources, t'.resources, Find(t.resources, c.id);
      SumSame(rs, rs');
      assert IdsOk(rs') && SizesOk(rs');
      forall j | 0 <= j < |rs'| ensures MaskOk(rs'[j], t'.scanouts) {
        ReboundMask(rs, t.scanouts, j, c.scanoutId, c.id, t'.scanouts[c.scanoutId]);
      }
      forall i | 0 <= i < |t'.scanouts| ensures ScanoutOk(rs', t'.scanouts[i]) {
        if i == c.scanoutId {
          ScanoutOkAt(rs', t'.scanouts[i], k);
        } else {
          assert forall j :: 0 <= j < |rs| ==> SameImage(rs'[j], rs[j]);
          ScanoutKept(rs, rs', t.scanouts[i], t'.scanouts[i]);
        }
      }
    }
  }

  lemma EnabledMask(r: Resource, scs: seq<Scanout>, mask: set<nat>, n: nat)
    requires MaskOk(r, scs)
    ensures MaskOk(r, Enabled(scs, mask, n))
  {
  }

  lemma EnabledKeeps(rs: seq<Resource>, scs: seq<Scanout>, mask: set<nat>, n: nat)
    requires IdsOk(rs) && MasksOk(rs, scs) && forall i :: 0 <= i < |scs| ==> ScanoutOk(rs, scs[i])
    ensures var scs' := Enabled(scs, mask, n);
            MasksOk(rs, scs') && forall i :: 0 <= i < |scs'| ==> ScanoutOk(rs, scs'[i])
  {
    hide ScanoutOk, MaskOk;
    var scs' := Enabled(scs, mask, n);
    forall j | 0 <= j < |rs| ensures MaskOk(rs[j], scs') { EnabledMask(rs[j], scs, mask, n); }
    assert forall j :: 0 <= j < |rs| ==> SameImage(rs[j], rs[j]);
    forall i | 0 <= i < |scs'| ensures ScanoutOk(rs, scs'[i]) { ScanoutKept(rs, rs, scs[i], scs'[i]); }
  }

  lemma FlushKeepsInv(t: Table, c: Command)
    requires Inv(t) && c.Flush?
    ensures Inv(DoFlush(t, c).0)
  {
    hide InBounds, Find, ScanoutOk, Sum, FirstBlocked, SizesOk, IdsOk, MasksOk, Enabled;
    var t' := DoFlush(t, c).0;
    if t' != t {
      var mask := t.resources[Find(t.resources, c.id)].scanouts;
      EnabledKeeps(t.resources, t.scanouts, mask, FirstBlocked(t.scanouts, mask, c.drm, 0));
    }
  }

  lemma OthersKeepInv(t: Table, c: Command)
    requires Inv(t) && (c.Attach? || c.Detach? || c.Transfer?)
    ensures Inv(Step(t, c).0)
  {
    hide CalcImageHostmem, InBounds, Find, ScanoutOk, Sum;
    var t' := Step(t, c).0;
    var k := Find(t.resources, c.id);
    if k < |t.resources| && t' != t {
      UpdateKeepsInv(t, k, t'.resources[k]);
    }
  }

  /** Every command, whatever its arguments, keeps the invariant of the table. */
  lemma StepKeepsInv(t: Table, c: Command)
    requires Inv(t)
    ensures Inv(Step(t, c).0)
  {
    hide Inv, SizesOk, Sum;
    match c {
      case Create2d(_, _, _, _) => CreateKeepsInv(t, c);
      case Unref(id) => UnrefKeepsInv(t, id);
      case SetScanout(_, _, _) => SetScanoutKeepsInv(t, c);
      case Flush(_, _, _) => FlushKeepsInv(t, c);
      case Attach(_, _, _) => OthersKeepInv(t, c);
      case Detach(_) => OthersKeepInv(t, c);
      case Transfer(_, _, _) => OthersKeepInv(t, c);
      case _ =>
    }
  }

  // ------------------------------------------------------------------
  // The device

  /** As `Blanked`, for the scanouts below `n` only. */
  function BlankedTo(scs: seq<Scanout>, id: u32, n: nat): (r: seq<Scanout>)
    requires n <= |scs|
    ensures |r| == |scs|
  {
    Blanked(scs[..n], id) + scs[n..]
  }

  lemma BlankOne(scs: seq<Scanout>, id: u32, n: nat)
    requires n < |scs|
    ensures BlankedTo(scs, id, n)[n] == scs[n]
    ensures BlankedTo(scs, id, n + 1) ==
            if scs[n].resourceId == id then
              BlankedTo(scs, id, n)[n := scs[n].(resourceId := 0, width := 0, height := 0)]
            else BlankedTo(scs, id, n)
  {
  }

  lemma BlankAll(scs: seq<Scanout>, id: u32)
    ensures BlankedTo(scs, id, 0) == scs && BlankedTo(scs, id, |scs|) == Blanked(scs, id)
    ensures (forall i :: 0 <= i < |scs| ==> scs[i].resourceId != id) ==> Blanked(scs, id) == scs
  {
    assert scs[..|scs|] == scs;
  }

  function MaskFrom(mask: set<nat>, n: nat): set<nat> { set j | j in mask && j >= n }

  class GpuDevice {
    var resources: seq<Resource>
    var hostmem: nat
    var scanouts: seq<Scanout>

    function State(): Table
      reads this
    {
      Table(resources, hostmem, scanouts)
    }

    ghost predicate Valid()
      reads this
    {
      Inv(State())
    }

    constructor (scanoutsNum: nat, width: u32, height: u32)
      ensures Valid() && resources == [] && |scanouts| == scanoutsNum
    {
      resources, hostmem := [], 0;
      scanouts := seq(scanoutsNum, i => Scanout(0, 0, 0, width, height, FrameBuffer(0, 0, 0, 0, 0, false)));
    }

    method FindResource(id: u32) returns (k: nat)
      ensures k == Find(resources, id)
    {
      k := 0;
      while k < |resources|
        invariant k <= |resources| && forall j :: 0 <= j < k ==> resources[j].id != id
      {
        if resources[k].id == id { return; }
        k := k + 1;
      }
    }

    method CheckResource(id: u32) returns (k: nat, error: Response)
      ensures error == Check(resources, id)
      ensures error.OkNoData? ==> k == Find(resources, id) && k < |resources|
    {
      k := FindResource(id);
      if k == |resources| { return k, ErrInvalidResourceId; }
      if resources[k].iov == [] || resources[k].hostmem <= 0 { return k, ErrUnspec; }
      error := OkNoData;
    }

    method Create2d(c: Command) returns (error: Response)
      requires Valid() && c.Create2d?
      modifies this
      ensures (State(), error) == DoCreate(old(State()), c) && Valid()
      ensures error.ErrInvalidResourceId? <==> c.id == 0 || ById(old(resources), c.id).Some?
      ensures OnlyChanges(old(resources), resources, c.id) && scanouts == old(scanouts)
      ensures hostmem != old(hostmem) ==>
                ById(resources, c.id).Some? && hostmem == old(hostmem) + ById(resources, c.id).value.hostmem
    {
      hide Inv, Find, CalcImageHostmem, OnlyChanges, ById;
      CreateKeepsInv(State(), c);
      CreateById(State(), c);
      if c.id == 0 { return ErrInvalidResourceId; }
      var k := FindResource(c.id);
      if k < |resources| { return ErrInvalidResourceId; }
      var size := CalcImageHostmem(c.width, c.height);
      var r := Resource(c.id, c.width, c.height, c.format, [], size, {}, Rect(0, 0, 0, 0), 0);
      if r.hostmem + hostmem >= MAX_HOSTMEM { return OkNoData; }
      resources := [r] + resources;
      hostmem := hostmem + r.hostmem;
      error := OkNoData;
    }

    /** `virtio_gpu_disable_scanout`, for a scanout that shows resource `k`. */
    method DisableScanout(i: nat, ghost k: nat)
      requires i < |scanouts| && k < |resources| && scanouts[i].resourceId == resources[k].id && IdsOk(resources)
      modifies this`resources, this`scanouts
      ensures resources == old(resources)[k := old(resources)[k].(scanouts := old(resources)[k].scanouts - {i})]
      ensures scanouts == old(scanouts)[i := old(scanouts)[i].(resourceId := 0, width := 0, height := 0)]
    {
      if scanouts[i].resourceId == 0 { return; }
      var j := FindResource(scanouts[i].resourceId);
      if j < |resources| {
        resources := resources[j := resources[j].(scanouts := resources[j].scanouts - {i})];
      }
      scanouts := scanouts[i := scanouts[i].(resourceId := 0, width := 0, height := 0)];
    }

    /** The loop over the bits of resource `k`'s mask. */
    method DisableScanouts(k: nat)
      requires k < |resources| && IdsOk(resources) && MaskOk(resources[k], scanouts)
      modifies this`resources, this`scanouts
      ensures resources == old(resources)[k := old(resources)[k].(scanouts := {})]
      ensures scanouts == Blanked(old(scanouts), old(resources)[k].id)
    {
      hide IdsOk, MaskOk, Blanked, BlankedTo, MaskFrom, Find;
      ghost var rs, scs, id := resources, scanouts, resources[k].id;
      ghost var mask := resources[k].scanouts;
      BlankAll(scs, id);
      MaskEnds(rs[k], scs);
      assert resources == rs[k := rs[k].(scanouts := MaskFrom(mask, 0))];
      var i := 0;
      while i < |scanouts|
        invariant i <= |scanouts| == |scs|
        invariant resources == rs[k := rs[k].(scanouts := MaskFrom(mask, i))]
        invariant scanouts == BlankedTo(scs, id, i)
      {
        BlankOne(scs, id, i);
        MaskStep(rs[k], scs, i);
        if i in resources[k].scanouts {
          IdsKept(rs, k, resources[k]);
          DisableScanout(i, k);
        }
        i := i + 1;
      }
    }

    /** `virtio_gpu_resource_destory`. */
    method Destroy(k: nat)
      requires Valid() && k < |resources|
      modifies this
      ensures State() == DoUnref(old(State()), old(resources)[k].id).0
    {
      hide Inv, Find, Sum, IdsOk, MaskOk, Blanked;
      ghost var rs := resources;
      DestroyFacts(State(), k);
      if resources[k].scanouts != {} {
        DisableScanouts(k);
      } else {
        NotShown(rs[k], scanouts);
      }
      resources := resources[k := resources[k].(iov := [])];
      hostmem := hostmem - resources[k].hostmem;
      assert Without(resources, k) == Without(rs, k);
      resources := Without(resources, k);
    }

    method Unref(id: u32) returns (error: Response)
      requires Valid()
      modifies this
      ensures (State(), error) == DoUnref(old(State()), id) && Valid()
    {
      hide Inv, Find, Sum;
      UnrefKeepsInv(State(), id);
      var k := FindResource(id);
      if k == |resources| { return ErrInvalidResourceId; }
      Destroy(k);
      error := OkNoData;
    }

    /** `virtio_gpu_resource_attach_backing`: `entries` are the guest buffers the command carries. */
    method AttachBacking(c: Command) returns (error: Response)
      requires Valid() && c.Attach?
      modifies this
      ensures (State(), error) == DoAttach(old(State()), c) && Valid()
      ensures OnlyChanges(old(resources), resources, c.id) && scanouts == old(scanouts) && hostmem == old(hostmem)
      ensures error.OkNoData? ==>
                ById(resources, c.id).Some? && ById(resources, c.id).value.iov == c.entries[..c.nrEntries]
    {
      hide Inv, Find, OnlyChanges, ById;
      OthersKeepInv(State(), c);
      AttachById(State(), c);
      var k := FindResource(c.id);
      if k == |resources| { return ErrInvalidResourceId; }
      if resources[k].iov != [] { return ErrUnspec; }
      if c.nrEntries > MAX_ENTRIES || |c.entries| < c.nrEntries { return ErrUnspec; }
      var iov := [];
      while |iov| < c.nrEntries
        invariant |iov| <= c.nrEntries && iov == c.entries[..|iov|]
      {
        iov := iov + [c.entries[|iov|]];
      }
      resources := resources[k := resources[k].(iov := iov)];
      error := OkNoData;
    }

    method DetachBacking(id: u32) returns (error: Response)
      requires Valid()
      modifies this
      ensures (State(), error) == DoDetach(old(State()), id) && Valid()
    {
      hide Inv, Find, Check;
      OthersKeepInv(State(), Detach(id));
      var k;
      k, error := CheckResource(id);
      if !error.OkNoData? { return; }
      resources := resources[k := resources[k].(iov := [])];
    }

    /** `virtio_gpu_update_scanout`: the old resource loses the bit before the new one gets it. */
    method UpdateScanout(i: nat, fb: FrameBuffer, k: nat, r: Rect)
      requires i < |scanouts| && k < |resources| && IdsOk(resources) && MasksOk(resources, scanouts)
      modifies this`resources, this`scanouts
      ensures resources == Rebound(old(resources), i, old(resources)[k].id)
      ensures scanouts == old(scanouts)[i := Scanout(old(resources)[k].id, r.x, r.y, r.width, r.height, fb)]
    {
      hide Find, IdsOk, MasksOk, Rebound;
      ghost var rs := resources;
      var o := FindResource(scanouts[i].resourceId);
      if o < |resources| {
        resources := resources[o := resources[o].(scanouts := resources[o].scanouts - {i})];
      }
      resources := resources[k := resources[k].(scanouts := resources[k].scanouts + {i})];
      RebindInPlace(rs, scanouts, i, o, k);
      scanouts := scanouts[i := Scanout(resources[k].id, r.x, r.y, r.width, r.height, fb)];
    }

    method SetScanout(c: Command) returns (error: Response)
      requires Valid() && c.SetScanout?
      modifies this
      ensures (State(), error) == DoSetScanout(old(State()), c) && Valid()
      ensures error.OkNoData? <==>
              && c.scanoutId < |old(scanouts)|
              && var was := ById(old(resources), c.id);
                 && was.Some? && was.value.iov != [] && was.value.hostmem > 0
                 && Displayable(c.r, was.value.width, was.value.height)
      ensures error.OkNoData? ==>
                var was := ById(old(resources), c.id).value;
                was.height > 0 && scanouts == old(scanouts)[c.scanoutId := ShownAs(was, c.r)]
      ensures !error.OkNoData? ==> State() == old(State())
    {
      hide Inv, Find, Check, ScanoutRect, FrameBufferFor, Rebound, CalcImageHostmem, IdsOk, MasksOk, Displayable,
           ShownAs, ById;
      InvParts(State());
      SetScanoutById(State(), c);
      SetScanoutKeepsInv(State(), c);
      if c.scanoutId >= |scanouts| { return ErrInvalidScanoutId; }
      var k;
      k, error := CheckResource(c.id);
      if !error.OkNoData? { return; }
      UsableHasRows(resources, k, c.id);
      var fb := FrameBufferFor(resources[k], c.r);
      if !ScanoutRect(c.r, fb.width, fb.height) { return ErrInvalidParameter; }
      UpdateScanout(c.scanoutId, fb, k, c.r);
    }

    method TransferToHost2d(c: Command) returns (error: Response)
      requires Valid() && c.Transfer?
      modifies this
      ensures (State(), error) == DoTransfer(old(State()), c) && Valid()
      ensures OnlyChanges(old(resources), resources, c.id) && scanouts == old(scanouts) && hostmem == old(hostmem)
      ensures error.OkNoData? ==>
                var r := ById(resources, c.id);
                r.Some? && r.value.transferRect == c.r && r.value.transferOffset == c.offset
    {
      hide Inv, Find, Check, InBounds, OnlyChanges, ById;
      OthersKeepInv(State(), c);
      TransferById(State(), c);
      var k;
      k, error := CheckResource(c.id);
      if !error.OkNoData? { return; }
      if !InBounds(c.r, resources[k].width, resources[k].height) { return ErrInvalidParameter; }
      resources := resources[k := resources[k].(transferRect := c.r, transferOffset := c.offset)];
    }

    /** The loop over the scanouts of resource `k`.  Every division by the height is defined. */
    method FlushScanouts(k: nat, drm: nat -> bool) returns (error: Response, painted: seq<nat>)
      requires k < |resources| && resources[k].height > 0
      modifies this`scanouts
      ensures var scs, mask := old(scanouts), resources[k].scanouts;
              var f := FirstBlocked(scs, mask, drm, 0);
              && scanouts == Enabled(scs, mask, f)
              && error == (if f < |scs| then ErrUnspec else OkNoData)
              && (forall i :: i in painted <==> i < f && i in mask)
    {
      hide FirstBlocked, Enabled;
      ghost var scs, mask := scanouts, resources[k].scanouts;
      EnableNone(scs, mask);
      painted := [];
      var i := 0;
      while i < |scanouts|
        invariant i <= |scanouts| == |scs| && scanouts == Enabled(scs, mask, i)
        invariant forall j :: 0 <= j < i && j in mask ==> !Blocked(scs[j], drm(j))
        invariant forall j :: j in painted <==> j < i && j in mask
      {
        EnableOne(scs, mask, i);
        if i in resources[k].scanouts {
          if !scanouts[i].fb.enabled {
            if !drm(i) {
              IsFirstBlocked(scs, mask, drm, i);
              return ErrUnspec, painted;
            }
            scanouts := scanouts[i := scanouts[i].(fb := scanouts[i].fb.(enabled := true))];
          }
          var _ := resources[k].hostmem / resources[k].height;   // the stride of the copy is defined
          painted := painted + [i];
        }
        i := i + 1;
      }
      IsFirstBlocked(scs, mask, drm, i);
      error := OkNoData;
    }

    /** `virtio_gpu_resource_flush`; `painted` are the scanouts whose framebuffer is then copied to. */
    method ResourceFlush(c: Command) returns (error: Response, painted: seq<nat>)
      requires Valid() && c.Flush?
      modifies this
      ensures (State(), error) == DoFlush(old(State()), c) && Valid()
      ensures OnlyShowing(scanouts, c.id, painted) && (error.OkNoData? ==> AllShowing(scanouts, c.id, painted))
      ensures error.OkNoData? ==>
                var was := ById(old(resources), c.id);
                was.Some? && EnabledBelow(old(scanouts), scanouts, was.value.scanouts, |scanouts|)
    {
      hide Inv, Find, Check, InBounds, FirstBlocked, Enabled, MasksOk, OnlyShowing, AllShowing, SizesOk, Inside,
           StopsAt;
      painted := [];
      FlushById(State(), c);
      NonePainted(scanouts, c.id);
      InvParts(State());
      FlushKeepsInv(State(), c);
      var k;
      k, error := CheckResource(c.id);
      if !error.OkNoData? { return; }
      if !InBounds(c.r, resources[k].width, resources[k].height) { return ErrInvalidParameter, []; }
      UsableHasRows(resources, k, c.id);
      error, painted := FlushScanouts(k, c.drm);
      PaintedAre(resources, old(scanouts), k, FirstBlocked(old(scanouts), resources[k].scanouts, c.drm, 0), painted);
    }

    /** `virtio_gpu_simple_process_cmd`. */
    method Process(c: Command) returns (error: Response)
      requires Valid()
      modifies this
      ensures Valid() && (State(), error) == Step(old(State()), c)
    {
      hide Inv, Find, DoCreate, DoUnref, DoAttach, DoDetach, DoSetScanout, DoTransfer, DoFlush, Sum, SizesOk;
      InvParts(State());
      match c {
        case Truncated => error := OkNoData;
        case Query => error := OkNoData;
        case Create2d(_, _, _, _) => error := Create2d(c);
        case Unref(id) => error := Unref(id);
        case Attach(_, _, _) => error := AttachBacking(c);
        case Detach(id) => error := DetachBacking(id);
        case SetScanout(_, _, _) => error := SetScanout(c);
        case Transfer(_, _, _) => error := TransferToHost2d(c);
        case Flush(_, _, _) => var painted; error, painted := ResourceFlush(c);
        case Unknown => error := ErrUnspec;
      }
    }

    /** Any sequence of commands keeps the table in order. */
    method Run(cmds: seq<Command>)
      requires Valid()
      modifies this
      ensures Valid() && State() == After(old(State()), cmds)
    {
      hide Inv, Step;
      for n := 0 to |cmds|
        invariant Valid() && State() == After(old(State()), cmds[..n])
      {
        assert cmds[..n + 1][..n] == cmds[..n];
        InvParts(State());
        var _ := Process(cmds[n]);
      }
      assert cmds[..|cmds|] == cmds;
    }
  }

  /** The table after a sequence of commands. */
  ghost function After(t: Table, cmds: seq<Command>): (t': Table)
    requires Inv(t)
    ensures Inv(t')
  {
    if cmds == [] then t
    else
      var t1 := After(t, cmds[..|cmds| - 1]);
      StepKeepsInv(t1, cmds[|cmds| - 1]);
      Step(t1, cmds[|cmds| - 1]).0
  }

  /** Painted scanouts show `id` and have a framebuffer. */
  ghost predicate OnlyShowing(scs: seq<Scanout>, id: u32, painted: seq<nat>) {
    forall i: nat :: i in painted ==> i < |scs| && scs[i].resourceId == id && scs[i].fb.enabled
  }

  /** Every scanout that shows `id` is painted. */
  ghost predicate AllShowing(scs: seq<Scanout>, id: u32, painted: seq<nat>) {
    forall i: nat :: i < |scs| && scs[i].resourceId == id ==> i in painted
  }

  lemma NonePainted(scs: seq<Scanout>, id: u32)
    ensures OnlyShowing(scs, id, [])
  {
  }

  lemma PaintedAre(rs: seq<Resource>, scs: seq<Scanout>, k: nat, n: nat, painted: seq<nat>)
    requires k < |rs| && MasksOk(rs, scs) && forall i :: i in painted <==> i < n && i in rs[k].scanouts
    ensures OnlyShowing(Enabled(scs, rs[k].scanouts, n), rs[k].id, painted)
    ensures n >= |scs| ==> AllShowing(Enabled(scs, rs[k].scanouts, n), rs[k].id, painted)
  {
    assert MaskOk(rs[k], scs);
  }

  lemma EnableNone(scs: seq<Scanout>, mask: set<nat>)
    ensures Enabled(scs, mask, 0) == scs
  {
  }

  lemma EnableOne(scs: seq<Scanout>, mask: set<nat>, i: nat)
    requires i < |scs|
    ensures Enabled(scs, mask, i)[i] == scs[i]
    ensures Enabled(scs, mask, i + 1) ==
            if i in mask then Enabled(scs, mask, i)[i := scs[i].(fb := scs[i].fb.(enabled := true))]
            else Enabled(scs, mask, i)
    ensures i in mask && scs[i].fb.enabled ==> Enabled(scs, mask, i + 1) == Enabled(scs, mask, i)
  {
    var one, two := Enabled(scs, mask, i), Enabled(scs, mask, i + 1);
    assert forall j :: 0 <= j < |scs| && j != i ==> one[j] == two[j];
    assert one[i] == scs[i];
    if i in mask {
      assert two[i] == scs[i].(fb := scs[i].fb.(enabled := true));
      assert two == one[i := two[i]];
    } else {
      assert two == one;
    }
  }

  lemma IsFirstBlocked(scs: seq<Scanout>, mask: set<nat>, drm: nat -> bool, f: nat)
    requires f <= |scs| && (f < |scs| ==> f in mask && Blocked(scs[f], drm(f)))
    requires forall j :: 0 <= j < f && j in mask ==> !Blocked(scs[j], drm(j))
    ensures f == FirstBlocked(scs, mask, drm, 0)
  {
    hide FirstBlocked;
  }

  lemma InvParts(t: Table)
    requires Inv(t)
    ensures IdsOk(t.resources) && SizesOk(t.resources) && MasksOk(t.resources, t.scanouts)
            && t.hostmem == Sum(t.resources)
  {
  }

  lemma UsableHasRows(rs: seq<Resource>, k: nat, id: u32)
    requires SizesOk(rs) && Check(rs, id).OkNoData? && k == Find(rs, id)
    ensures k < |rs| && rs[k].id == id && rs[k].height > 0
    ensures forall r: Rect ::
              FrameBufferFor(rs[k], r).width == rs[k].width && FrameBufferFor(rs[k], r).height == rs[k].height
  {
    HasRows(rs[k]);
  }

  /** Clearing the bit at the resource the scanout names and setting it at `k` moves the bit,
      whether or not the two are the same resource. */
  lemma RebindInPlace(rs: seq<Resource>, scs: seq<Scanout>, i: nat, o: nat, k: nat)
    requires i < |scs| && k < |rs| && IdsOk(rs) && MasksOk(rs, scs) && o == Find(rs, scs[i].resourceId)
    ensures var rs1 := if o < |rs| then rs[o := rs[o].(scanouts := rs[o].scanouts - {i})] else rs;
            rs1[k := rs1[k].(scanouts := rs1[k].scanouts + {i})] == Rebound(rs, i, rs[k].id)
  {
    hide Find;
    forall j | 0 <= j < |rs| && j != o ensures rs[j].scanouts - {i} == rs[j].scanouts {
      assert MaskOk(rs[j], scs);
    }
    assert rs[k].scanouts - {i} + {i} == rs[k].scanouts + {i};
    var rs1 := if o < |rs| then rs[o := rs[o].(scanouts := rs[o].scanouts - {i})] else rs;
    var rs2 := rs1[k := rs1[k].(scanouts := rs1[k].scanouts + {i})];
    forall j | 0 <= j < |rs| ensures rs2[j] == Rebound(rs, i, rs[k].id)[j] {
      if j != k { assert rs[j].id != rs[k].id; }
    }
  }

  lemma MaskEnds(r: Resource, scs: seq<Scanout>)
    requires MaskOk(r, scs)
    ensures MaskFrom(r.scanouts, 0) == r.scanouts && MaskFrom(r.scanouts, |scs|) == {}
  {
  }

  lemma MaskStep(r: Resource, scs: seq<Scanout>, i: nat)
    requires MaskOk(r, scs) && i < |scs|
    ensures i in MaskFrom(r.scanouts, i) <==> scs[i].resourceId == r.id
    ensures MaskFrom(r.scanouts, i + 1) == MaskFrom(r.scanouts, i) - {i}
    ensures scs[i].resourceId != r.id ==> MaskFrom(r.scanouts, i + 1) == MaskFrom(r.scanouts, i)
  {
  }

  lemma NotShown(r: Resource, scs: seq<Scanout>)
    requires MaskOk(r, scs) && r.scanouts == {}
    ensures Blanked(scs, r.id) == scs
  {
    BlankAll(scs, r.id);
  }

  lemma IdsKept(rs: seq<Resource>, k: nat, r: Resource)
    requires k < |rs| && IdsOk(rs) && r.id == rs[k].id
    ensures IdsOk(rs[k := r])
  {
  }

  lemma DestroyFacts(t: Table, k: nat)
    requires Inv(t) && k < |t.resources|
    ensures IdsOk(t.resources) && Find(t.resources, t.resources[k].id) == k
    ensures t.hostmem == Sum(t.resources) == t.resources[k].hostmem + Sum(Without(t.resources, k))
    ensures MaskOk(t.resources[k], t.scanouts)
  {
    FoundAt(t.resources, k);
    SumAt(t.resources, k);
  }
}
