/** Copying a resource's backing store into the framebuffer of a scanout that shows it
    (hvisor-tool, `tools/virtio_gpu.c`, `virtio_gpu_copy_and_flush`). */
module GpuFlush {
  import opened Wrappers
  import opened Arithmetic
  import opened Iov
  import opened GpuResources

  const BPP: nat := 32

  predicate FullWidth(res: Resource) { res.transferRect.x == 0 && res.transferRect.width == res.width }

  /** Neither product of the size computation wraps. */
  predicate NoWrap(res: Resource) { res.width < 0x800_0000 && 4 * res.width * res.height < U32 }

  /** Bytes per row. */
  function Pitch(res: Resource): nat { 4 * res.width }

  /** 32-bit wrap-around. */
  function Wrap(a: nat): nat { a % U32 }

  function StrideOf(res: Resource): nat
    requires res.height > 0
  {
    res.hostmem / res.height
  }

  function RowStart(res: Resource, h: nat): nat
    requires res.height > 0
  {
    Wrap(Wrap((res.transferRect.y + h) * StrideOf(res)) + Wrap(res.transferRect.x * BPP))
  }

  ghost predicate Backed(res: Resource)
    reads res.iov
  {
    res.transferOffset % U32 + Pitch(res) * res.transferRect.height <= |Flatten(Bufs(res.iov))|
  }

  /** `now` has `len` bytes of `flat` from `from` on at `at`, and is otherwise `was`. */
  ghost predicate BytesPainted(was: seq<byte>, now: seq<byte>, at: nat, flat: seq<byte>, from: nat, len: nat) {
    && |now| == |was| && at + len <= |now| && from + len <= |flat|
    && (forall a :: at <= a < at + len ==> now[a] == flat[from + (a - at)])
    && (forall a :: 0 <= a < |now| && !(at <= a < at + len) ==> now[a] == was[a])
  }

  /** Exactly rows `y .. y + height` are the backing store from the transfer's offset on, all of them
      inside the memory accounted for the resource. */
  ghost predicate RowsPainted(was: seq<byte>, now: seq<byte>, flat: seq<byte>, res: Resource) {
    var p, y, h := Pitch(res), res.transferRect.y, res.transferRect.height;
    && p * y + p * h == p * (y + h) <= res.hostmem
    && BytesPainted(was, now, p * y, flat, res.transferOffset % U32, p * h)
  }

  /** What the copy computes, without wrapping, for a full-width transfer. */
  lemma FullWidthSizes(res: Resource)
    requires res.hostmem == CalcImageHostmem(res.width, res.height) && res.hostmem > 0 && NoWrap(res)
    requires InBounds(res.transferRect, res.width, res.height)
    ensures res.height > 0 && res.hostmem == Pitch(res) * res.height && res.hostmem / res.height == Pitch(res)
    ensures res.transferRect.y + res.transferRect.height <= res.height
    ensures Pitch(res) * (res.transferRect.y + res.transferRect.height) <= res.hostmem < U32
    ensures Pitch(res) * res.transferRect.y + Pitch(res) * res.transferRect.height
            == Pitch(res) * (res.transferRect.y + res.transferRect.height)
    ensures res.transferRect.y * (res.hostmem / res.height) % U32 == Pitch(res) * res.transferRect.y
    ensures (res.hostmem / res.height) * res.transferRect.height % U32 == Pitch(res) * res.transferRect.height
  {
    hide CalcImageHostmem;
    HostmemExact(res.width, res.height);
    HasRows(res);
    var w, h, r := res.width, res.height, res.transferRect;
    assert 4 * w * h == (4 * w) * h;
    assert h * (4 * w) == (4 * w) * h;
    DivModOf(res.hostmem, h, 4 * w, 0);
    FewRows(w, h, res.hostmem);
    RowProducts(4 * w, r.y, r.height, h);
  }

  lemma RowProducts(p: nat, y: nat, n: nat, h: nat)
    requires y + n <= h && p * h < U32
    ensures p * y + p * n == p * (y + n) <= p * h
    ensures y * p % U32 == p * y && p * n % U32 == p * n
  {
    MulMono(p, y + n, h);
    assert p * y + p * n == p * (y + n);
  }

  lemma FewRows(w: nat, h: nat, size: nat)
    requires size == (4 * w) * h && 0 < size < U32
    ensures 4 * h < U32
  {
    assert w != 0;
    MulMono(4 * h, 1, w);
    assert 4 * h * w == (4 * w) * h;
  }

  lemma Painted(was: seq<byte>, at: nat, flat: seq<byte>, from: nat, len: nat)
    requires at + len <= |was| && from + len <= |flat|
    ensures |Window(flat, from, len)| == len
    ensures BytesPainted(was, Filled(was, at, Window(flat, from, len)), at, flat, from, len)
  {
    hide Filled;
    var w := Window(flat, from, len);
    assert |w| == len && forall i :: 0 <= i < len ==> w[i] == flat[from + i];
    forall a: nat | a < |was| ensures Filled(was, at, w)[a] == if at <= a < at + len then w[a - at] else was[a] {
      FilledAt(was, at, w, a);
    }
  }

  function RowSource(res: Resource, h: nat): nat
    requires res.height > 0
  {
    Wrap(res.transferOffset + Wrap(StrideOf(res) * h))
  }

  /** What the row branch copies per row. */
  function RowLength(res: Resource): nat { Wrap(res.transferRect.width * BPP) }

  /** How many bytes row `h` copies from a backing store of `m` bytes. */
  function RowCount(res: Resource, m: nat, h: nat): nat
    requires res.height > 0
  {
    Available(m, RowSource(res, h), RowLength(res))
  }

  predicate RowStays(res: Resource, n: nat, m: nat, h: nat)
    requires res.height > 0
  {
    Holds(n, RowStart(res, h), RowCount(res, m, h))
  }

  /** No row writes beyond a framebuffer of `n` bytes. */
  ghost predicate RowsStay(res: Resource, n: nat, m: nat)
    requires res.height > 0
  {
    forall h: nat :: h < res.transferRect.height ==> RowStays(res, n, m, h)
  }

  /** The framebuffer after the first `k` rows of the row branch, those that stay inside it. */
  ghost function RowsCopied(was: seq<byte>, flat: seq<byte>, res: Resource, k: nat): (now: seq<byte>)
    requires res.height > 0
    ensures |now| == |was|
  {
    if k == 0 then was
    else if !RowStays(res, |was|, |flat|, k - 1) then RowsCopied(was, flat, res, k - 1)
    else
      WindowLength(flat, RowSource(res, k - 1), RowLength(res));
      Filled(RowsCopied(was, flat, res, k - 1), RowStart(res, k - 1), RowBytes(res, flat, k - 1))
  }

  function RowBytes(res: Resource, flat: seq<byte>, h: nat): seq<byte>
    requires res.height > 0
  {
    Window(flat, RowSource(res, h), RowLength(res))
  }

  lemma WindowLength(flat: seq<byte>, offset: nat, n: nat)
    ensures |Window(flat, offset, n)| == Available(|flat|, offset, n)
  {
  }

  /** Row `h` writes address `a`. */
  predicate Covers(res: Resource, m: nat, h: nat, a: nat)
    requires res.height > 0
  {
    RowStart(res, h) <= a < RowStart(res, h) + RowCount(res, m, h)
  }

  /** Address `a` has the byte of the last of the first `k` rows that write it, if any does. */
  ghost predicate FromLastRow(was: seq<byte>, now: seq<byte>, flat: seq<byte>, res: Resource, k: nat, a: nat)
    requires res.height > 0 && |was| == |now| && a < |was|
  {
    && ((forall h: nat :: h < k ==> !Covers(res, |flat|, h, a)) ==> now[a] == was[a])
    && (forall h: nat :: IsLastRow(res, |flat|, k, h, a) ==> now[a] == flat[RowSource(res, h) + (a - RowStart(res, h))])
  }

  ghost predicate IsLastRow(res: Resource, m: nat, k: nat, h: nat, a: nat)
    requires res.height > 0
  {
    h < k && Covers(res, m, h, a) && forall j: nat :: h < j < k ==> !Covers(res, m, j, a)
  }

  lemma {:induction false} LastRowWins(was: seq<byte>, flat: seq<byte>, res: Resource, k: nat, a: nat)
    requires res.height > 0 && k <= res.transferRect.height && RowsStay(res, |was|, |flat|) && a < |was|
    ensures FromLastRow(was, RowsCopied(was, flat, res, k), flat, res, k, a)
  {
    hide RowStart, RowSource, RowLength, Filled, Available, Window;
    if k > 0 {
      LastRowWins(was, flat, res, k - 1, a);
      RowByte(was, flat, res, k, a);
      if !Covers(res, |flat|, k - 1, a) {
        forall h: nat | IsLastRow(res, |flat|, k, h, a) ensures IsLastRow(res, |flat|, k - 1, h, a) {}
      }
    }
  }

  /** One row more. */
  lemma RowByte(was: seq<byte>, flat: seq<byte>, res: Resource, k: nat, a: nat)
    requires res.height > 0 && 0 < k <= res.transferRect.height && RowsStay(res, |was|, |flat|) && a < |was|
    ensures Covers(res, |flat|, k - 1, a) ==> RowSource(res, k - 1) + (a - RowStart(res, k - 1)) < |flat|
    ensures RowsCopied(was, flat, res, k)[a]
            == if Covers(res, |flat|, k - 1, a) then flat[RowSource(res, k - 1) + (a - RowStart(res, k - 1))]
               else RowsCopied(was, flat, res, k - 1)[a]
  {
    hide RowStart, RowSource, RowLength, Filled;
    WindowLength(flat, RowSource(res, k - 1), RowLength(res));
    assert RowStays(res, |was|, |flat|, k - 1);
    FilledAt(RowsCopied(was, flat, res, k - 1), RowStart(res, k - 1), RowBytes(res, flat, k - 1), a);
  }

  /** The copy of part of the width, row by row; `inside` is false when a row would be written beyond
      the framebuffer. */
  method CopyRows(fb: array<byte>, res: Resource) returns (inside: bool)
    requires res.height > 0 && fb !in res.iov
    modifies fb
    ensures inside <==> RowsStay(res, fb.Length, Total(res.iov))
    ensures inside ==> forall a :: 0 <= a < fb.Length ==>
              FromLastRow(old(fb[..]), fb[..], Flatten(Bufs(res.iov)), res, res.transferRect.height, a)
  {
    hide Flatten, Filled, Window, Bufs, RowStart, RowSource, RowLength, Available, FromLastRow;
    ghost var was, flat := fb[..], Flatten(Bufs(res.iov));
    var m := Total(res.iov);
    var h := 0;
    while h < res.transferRect.height
      invariant h <= res.transferRect.height && flat == Flatten(Bufs(res.iov)) && m == |flat|
      invariant forall j: nat :: j < h ==> RowStays(res, fb.Length, m, j)
      invariant fb[..] == RowsCopied(was, flat, res, h)
    {
      if !RowStays(res, fb.Length, m, h) { return false; }
      WindowLength(flat, RowSource(res, h), RowLength(res));
      var _ := IovToBuf(res.iov, RowSource(res, h), fb, RowStart(res, h), RowLength(res), false);
      h := h + 1;
    }
    inside := true;
    forall a | 0 <= a < fb.Length ensures FromLastRow(was, fb[..], flat, res, res.transferRect.height, a) {
      LastRowWins(was, flat, res, res.transferRect.height, a);
    }
  }

  // ------------------------------------------------------------------
  // Transfers of part of the width

  /** Nothing wraps in the offsets of the row branch, and the stride is the length of a row. */
  ghost predicate RowsPlain(res: Resource) {
    && res.height > 0 && StrideOf(res) == Pitch(res)
    && forall h: nat :: h < res.transferRect.height ==> RowPlain(res, Pitch(res), h)
  }

  predicate RowPlain(res: Resource, stride: nat, h: nat) {
    var r := res.transferRect;
    (r.y + h) * stride + r.x * BPP + r.width * BPP < U32 && res.transferOffset + stride * h < U32
  }

  /** Row `h` of the transferred rectangle starts here; its pixels have four bytes. */
  function RectRow(res: Resource, h: nat): nat { (res.transferRect.y + h) * Pitch(res) + 4 * res.transferRect.x }

  predicate InRectRow(res: Resource, h: nat, a: nat) {
    h < res.transferRect.height && RectRow(res, h) <= a < RectRow(res, h) + 4 * res.transferRect.width
  }

  ghost predicate InRect(res: Resource, a: nat) {
    exists h: nat :: InRectRow(res, h, a)
  }

  /** Exactly the rectangle is painted, with the bytes of its rows. */
  ghost predicate RectPainted(was: seq<byte>, now: seq<byte>, flat: seq<byte>, res: Resource) {
    && |now| == |was|
    && (forall a :: 0 <= a < |was| && !InRect(res, a) ==> now[a] == was[a])
    && (forall h: nat :: h < res.transferRect.height ==> RowPainted(now, flat, res, h))
  }

  ghost predicate RowPainted(now: seq<byte>, flat: seq<byte>, res: Resource, h: nat) {
    var at, from, len := RectRow(res, h), res.transferOffset + Pitch(res) * h, 4 * res.transferRect.width;
    len > 0 ==> at + len <= |now| && from + len <= |flat| && now[at..at + len] == flat[from..from + len]
  }

  lemma PlainOffsets(res: Resource, stride: nat, h: nat)
    requires res.height > 0 && stride == StrideOf(res) && RowPlain(res, stride, h)
    ensures RowStart(res, h) == (res.transferRect.y + h) * stride + res.transferRect.x * BPP
    ensures RowSource(res, h) == res.transferOffset + stride * h && RowLength(res) == res.transferRect.width * BPP
  {
    hide Wrap, StrideOf;
    SmallSum((res.transferRect.y + h) * stride, res.transferRect.x * BPP);
    SmallSum(res.transferOffset, stride * h);
    SmallSum(0, res.transferRect.width * BPP);
  }

  lemma PlainRow(res: Resource, h: nat)
    requires RowsPlain(res) && h < res.transferRect.height
    ensures RowStart(res, h) == (res.transferRect.y + h) * Pitch(res) + res.transferRect.x * BPP
    ensures RowSource(res, h) == res.transferOffset + Pitch(res) * h && RowLength(res) == res.transferRect.width * BPP
  {
    hide RowPlain, RowStart, RowSource;
    PlainOffsets(res, Pitch(res), h);
  }

  lemma SmallSum(a: nat, b: nat)
    requires a + b < U32
    ensures Wrap(Wrap(a) + Wrap(b)) == a + b && Wrap(a + Wrap(b)) == a + b && Wrap(a + b) == a + b
  {
  }

  /** Where no offset wraps every row shifts the backing store by the same distance. */
  lemma PlainShift(res: Resource, h: nat)
    requires RowsPlain(res) && h < res.transferRect.height
    ensures RowStart(res, h) + res.transferOffset == RowSource(res, h) + FirstStart(res)
    ensures RowStart(res, h) == FirstStart(res) + Pitch(res) * h
  {
    hide RowStart, RowSource, RowsPlain;
    PlainRow(res, h);
    Distribute(res.transferRect.y, h, Pitch(res));
  }

  lemma Distribute(y: nat, h: nat, p: nat)
    ensures (y + h) * p == y * p + p * h
  {
  }

  function FirstStart(res: Resource): nat { res.transferRect.y * Pitch(res) + res.transferRect.x * BPP }

  ghost predicate Covered(res: Resource, m: nat, k: nat, a: nat)
    requires res.height > 0
  {
    exists h: nat :: h < k && Covers(res, m, h, a)
  }

  /** So the row branch leaves that shift of the backing store wherever a row reaches. */
  lemma {:induction false} PlainByte(was: seq<byte>, flat: seq<byte>, res: Resource, k: nat, a: nat)
    requires RowsPlain(res) && k <= res.transferRect.height && RowsStay(res, |was|, |flat|) && a < |was|
    ensures Covered(res, |flat|, k, a) ==> FirstStart(res) <= a && res.transferOffset + (a - FirstStart(res)) < |flat|
    ensures RowsCopied(was, flat, res, k)[a]
            == if Covered(res, |flat|, k, a) then flat[res.transferOffset + (a - FirstStart(res))] else was[a]
  {
    hide RowStart, RowSource, RowLength, RowsPlain, FirstStart, RowCount, Covers, RowsStay, RowsCopied, Covered;
    HasStride(res);
    CoveredMore(res, |flat|, k, a);
    if k == 0 {
      NoRows(was, flat, res);
    } else {
      PlainByte(was, flat, res, k - 1, a);
      RowByte(was, flat, res, k, a);
      PlainCovers(res, |flat|, k - 1, a);
    }
  }

  lemma CoveredMore(res: Resource, m: nat, k: nat, a: nat)
    requires res.height > 0
    ensures Covered(res, m, k, a) <==> k > 0 && (Covered(res, m, k - 1, a) || Covers(res, m, k - 1, a))
  {
    hide Covers;
    if k > 0 && Covers(res, m, k - 1, a) { assert Covered(res, m, k, a); }
  }

  lemma NoRows(was: seq<byte>, flat: seq<byte>, res: Resource)
    requires res.height > 0
    ensures RowsCopied(was, flat, res, 0) == was
  {
  }

  lemma HasStride(res: Resource)
    requires RowsPlain(res)
    ensures res.height > 0
  {
  }

  lemma PlainCovers(res: Resource, m: nat, h: nat, a: nat)
    requires RowsPlain(res) && h < res.transferRect.height
    ensures res.height > 0
    ensures Covers(res, m, h, a) ==>
              && RowStart(res, h) <= a && FirstStart(res) <= a
              && RowSource(res, h) + (a - RowStart(res, h)) == res.transferOffset + (a - FirstStart(res))
  {
    hide RowsPlain, RowStart, RowSource, RowLength, FirstStart, RowCount;
    HasStride(res);
    PlainShift(res, h);
    MulMono(Pitch(res), 0, h);
  }

  /** The last row that the backing store reaches, when it reaches the first. */
  function LastRow(res: Resource, m: nat): nat
    requires res.transferRect.height > 0 && res.transferOffset < m
  {
    var h := res.transferRect.height - 1;
    if Pitch(res) == 0 then h else Min(h, (m - res.transferOffset - 1) / Pitch(res))
  }

  lemma RowReached(res: Resource, m: nat, h: nat)
    requires h < res.transferRect.height && res.transferOffset < m
    ensures Pitch(res) * h < m - res.transferOffset <==> h <= LastRow(res, m)
  {
    var p, x := Pitch(res), m - res.transferOffset - 1;
    if p > 0 {
      var q, _ := Parts(x, p);
      if h <= q { MulMono(p, h, q); } else { NextMultiple(p, q, h); }
    }
  }

  lemma NextMultiple(p: nat, q: nat, h: nat)
    requires q < h
    ensures p * q + p <= p * h
  {
    MulMono(p, q + 1, h);
    assert p * (q + 1) == p * q + p;
  }

  /** Where the bytes of row `h` would end, and where they do when the backing store ends first. */
  function RowEnd(res: Resource, m: nat, h: nat): nat
    requires res.transferOffset < m
  {
    FirstStart(res) + Min(Pitch(res) * h + 32 * res.transferRect.width, m - res.transferOffset)
  }

  lemma RowStaysExactly(res: Resource, n: nat, m: nat, h: nat)
    requires RowsPlain(res) && h < res.transferRect.height
    ensures res.height > 0
    ensures RowStays(res, n, m, h) <==>
            res.transferRect.width == 0 || res.transferOffset >= m || h > LastRow(res, m) || RowEnd(res, m, h) <= n
  {
    hide RowStart, RowSource, RowLength, RowsPlain, LastRow, FirstStart;
    HasStride(res);
    PlainRow(res, h);
    PlainShift(res, h);
    if res.transferOffset < m { RowReached(res, m, h); }
  }

  /** Where no offset wraps, the row branch stays inside a framebuffer of `n` bytes if and only if the
      last row that the backing store reaches does. */
  lemma RowsStayExactly(res: Resource, n: nat, m: nat)
    requires RowsPlain(res)
    ensures RowsStay(res, n, m) <==>
            var r := res.transferRect;
            r.height == 0 || r.width == 0 || res.transferOffset >= m || RowEnd(res, m, LastRow(res, m)) <= n
  {
    hide RowStays, RowsPlain, LastRow, RowEnd;
    var r := res.transferRect;
    HasStride(res);
    forall h: nat | h < r.height
      ensures RowStays(res, n, m, h) <==>
              r.width == 0 || res.transferOffset >= m || h > LastRow(res, m) || RowEnd(res, m, h) <= n
    {
      RowStaysExactly(res, n, m, h);
    }
    if r.height > 0 && res.transferOffset < m {
      LastRowInside(res, m);
      forall h: nat | h <= LastRow(res, m) ensures RowEnd(res, m, h) <= RowEnd(res, m, LastRow(res, m)) {
        EndsGrow(res, m, h, LastRow(res, m));
      }
    }
  }

  lemma LastRowInside(res: Resource, m: nat)
    requires res.transferRect.height > 0 && res.transferOffset < m
    ensures LastRow(res, m) < res.transferRect.height
  {
  }

  lemma EndsGrow(res: Resource, m: nat, h: nat, h': nat)
    requires h <= h' && res.transferOffset < m
    ensures RowEnd(res, m, h) <= RowEnd(res, m, h')
  {
    MulMono(Pitch(res), h, h');
  }

  /** The backing store has all the bytes that the rows ask for. */
  predicate RowsBacked(res: Resource, m: nat) {
    var r := res.transferRect;
    r.height > 0 ==> res.transferOffset + Pitch(res) * (r.height - 1) + 32 * r.width <= m
  }

  lemma BackedEnd(res: Resource, m: nat)
    requires RowsBacked(res, m) && res.transferRect.height > 0 && res.transferRect.width > 0
    ensures res.transferOffset < m
    ensures RowEnd(res, m, LastRow(res, m))
            == FirstStart(res) + Pitch(res) * (res.transferRect.height - 1) + 32 * res.transferRect.width
  {
    hide LastRow;
    MulMono(Pitch(res), 0, res.transferRect.height - 1);
    LastRowInside(res, m);
    RowReached(res, m, res.transferRect.height - 1);
  }

  /** In a framebuffer as large as the resource: if and only if eight times the rectangle's right edge
      fits the pixels that are left from its last row on. */
  lemma OverrunsExactly(res: Resource, m: nat)
    requires RowsPlain(res) && RowsBacked(res, m) && res.hostmem == Pitch(res) * res.height
    requires res.transferRect.y + res.transferRect.height <= res.height
    ensures var r := res.transferRect;
            RowsStay(res, res.hostmem, m) <==>
            r.height == 0 || r.width == 0 || 8 * (r.x + r.width) <= res.width * (res.height - (r.y + r.height - 1))
  {
    hide RowsPlain, RowsStay, RowsBacked, RowEnd, LastRow;
    var r := res.transferRect;
    RowsStayExactly(res, res.hostmem, m);
    if r.height > 0 && r.width > 0 {
      BackedEnd(res, m);
      Distribute(r.y, r.height - 1, Pitch(res));
      PixelsLeft(res.width, res.height, r.y + r.height - 1, r.x + r.width);
    }
  }

  lemma PixelsLeft(width: nat, height: nat, last: nat, right: nat)
    requires last <= height
    ensures last * (4 * width) + 32 * right <= 4 * width * height <==> 8 * right <= width * (height - last)
  {
    assert 4 * (width * (height - last)) == 4 * width * height - last * (4 * width);
  }

  lemma FirstOffsets(res: Resource)
    requires res.height == 32 && res.hostmem == 4096 && res.transferRect == Rect(0, 31, 16, 1)
             && res.transferOffset == 0
    ensures RowStart(res, 0) == 31 * 128 && RowSource(res, 0) == 0 && RowLength(res) == 512
  {
    assert StrideOf(res) == 128;
  }

  /** The last half row of a 32 by 32 resource, copied beyond the end of a framebuffer of its size. */
  lemma OverrunInBounds(res: Resource, m: nat)
    requires res.width == 32 && res.height == 32 && res.hostmem == CalcImageHostmem(32, 32)
    requires res.transferRect == Rect(0, 31, 16, 1) && res.transferOffset == 0 && m >= 512
    ensures InBounds(res.transferRect, res.width, res.height) && !RowsStay(res, res.hostmem, m)
  {
    hide RowStart, RowSource, RowLength;
    assert RowStart(res, 0) == 31 * 128 && RowSource(res, 0) == 0 && RowLength(res) == 512 by { FirstOffsets(res); }
    assert !RowStays(res, res.hostmem, m, 0);
  }

  /** For framebuffers of `n` bytes and backing stores of `m` that the rows stay inside, the row branch
      paints an in-bounds rectangle right whatever they contain, if and only if the rectangle is empty
      or is the left part of one row that ends with the backing store. */
  lemma PartialWidthExactly(res: Resource, n: nat, m: nat)
    requires RowsPlain(res) && RowsStay(res, n, m) && !FullWidth(res)
    requires res.transferRect.x + res.transferRect.width <= res.width
    ensures AlwaysRight(res, n, m) <==>
            var r := res.transferRect;
            r.width == 0 || r.height == 0 || (r.x == 0 && r.height == 1 && m == res.transferOffset + 4 * r.width)
  {
    hide RowsPlain, RowsStay, RectPainted, RowsCopied;
    var r := res.transferRect;
    HasStride(res);
    if r.width == 0 || r.height == 0 || (r.x == 0 && r.height == 1 && m == res.transferOffset + 4 * r.width) {
      forall was: seq<byte>, flat: seq<byte> | |was| == n && |flat| == m
        ensures RectPainted(was, AllRows(was, flat, res), flat, res)
      {
        if r.width == 0 || r.height == 0 { EmptyRight(was, flat, res); } else { OneRowRight(was, flat, res); }
      }
    } else if r.x > 0 {
      Shifted(res, n, m);
    } else {
      TooLong(res, n, m);
    }
  }

  ghost function AllRows(was: seq<byte>, flat: seq<byte>, res: Resource): (now: seq<byte>)
    requires res.height > 0
    ensures |now| == |was|
  {
    RowsCopied(was, flat, res, res.transferRect.height)
  }

  ghost predicate AlwaysRight(res: Resource, n: nat, m: nat)
    requires res.height > 0
  {
    forall was: seq<byte>, flat: seq<byte> :: |was| == n && |flat| == m ==>
                                                RectPainted(was, AllRows(was, flat, res), flat, res)
  }

  lemma EmptyRight(was: seq<byte>, flat: seq<byte>, res: Resource)
    requires RowsPlain(res) && RowsStay(res, |was|, |flat|)
    requires res.transferRect.width == 0 || res.transferRect.height == 0
    ensures RectPainted(was, AllRows(was, flat, res), flat, res)
  {
    hide RowsStay, RowsPlain, RowsCopied, RowStart, RowSource, InRect;
    HasStride(res);
    var now := AllRows(was, flat, res);
    forall a: nat | a < |was| ensures now[a] == was[a] {
      PlainByte(was, flat, res, res.transferRect.height, a);
    }
  }

  lemma OneRowRight(was: seq<byte>, flat: seq<byte>, res: Resource)
    requires RowsPlain(res) && RowsStay(res, |was|, |flat|)
    requires var r := res.transferRect;
             r.x == 0 && r.height == 1 && r.width > 0 && |flat| == res.transferOffset + 4 * r.width
    ensures RectPainted(was, AllRows(was, flat, res), flat, res)
  {
    hide RowsStay, RowsPlain, RowsCopied, RowStart, RowSource, RowLength;
    HasStride(res);
    var now, at := AllRows(was, flat, res), FirstStart(res);
    OneRow(res, |was|, |flat|);
    forall a: nat | a < |was|
      ensures now[a] ==
              if at <= a < at + 4 * res.transferRect.width then flat[res.transferOffset + (a - at)] else was[a]
    {
      PlainByte(was, flat, res, 1, a);
      assert Covered(res, |flat|, 1, a) <==> Covers(res, |flat|, 0, a);
    }
    forall a: nat | a < |was| && !InRect(res, a) ensures now[a] == was[a] {
      assert !InRectRow(res, 0, a);
    }
    assert now[at..at + 4 * res.transferRect.width] == flat[res.transferOffset..];
  }

  lemma OneRow(res: Resource, n: nat, m: nat)
    requires RowsPlain(res) && RowsStay(res, n, m)
    requires var r := res.transferRect;
             r.x == 0 && r.height == 1 && r.width > 0 && m == res.transferOffset + 4 * r.width
    ensures RowStart(res, 0) == FirstStart(res) == RectRow(res, 0) && RowCount(res, m, 0) == 4 * res.transferRect.width
    ensures FirstStart(res) + 4 * res.transferRect.width <= n
  {
    hide RowStart, RowSource, RowLength, RowsPlain;
    HasStride(res);
    PlainRow(res, 0);
    PlainShift(res, 0);
    assert RowStays(res, n, m, 0);
  }

  /** To the right of the first column every byte comes from the wrong place. */
  lemma Shifted(res: Resource, n: nat, m: nat)
    requires RowsPlain(res) && RowsStay(res, n, m)
    requires res.transferRect.x > 0 && res.transferRect.width > 0 && res.transferRect.height > 0
    ensures !AlwaysRight(res, n, m)
  {
    hide RowsStay, RowsPlain, RowsCopied, Covered;
    HasStride(res);
    var r, off := res.transferRect, res.transferOffset;
    var was, flat := seq(n, _ => 0 as byte), seq(m, i => if i == off then 1 as byte else 0 as byte);
    var now := AllRows(was, flat, res);
    if RectPainted(was, now, flat, res) {
      assert RowPainted(now, flat, res, 0);
      var a := RectRow(res, 0);
      assert now[a..a + 4 * r.width][0] == flat[off..off + 4 * r.width][0] == 1;
      PlainByte(was, flat, res, r.height, a);
    }
  }

  /** In the first column a row runs on to the right of the rectangle. */
  lemma TooLong(res: Resource, n: nat, m: nat)
    requires RowsPlain(res) && RowsStay(res, n, m)
    requires var r := res.transferRect; r.x == 0 && 0 < r.width < res.width && r.height > 0
    requires !(res.transferRect.height == 1 && m == res.transferOffset + 4 * res.transferRect.width)
    ensures !AlwaysRight(res, n, m)
  {
    hide RowsStay, RowsPlain, RowsCopied, Covered, RowPainted, InRect, AllRows;
    HasStride(res);
    var r := res.transferRect;
    var was, flat := seq(n, _ => 0 as byte), seq(m, _ => 1 as byte);
    var now := AllRows(was, flat, res);
    if RectPainted(was, now, flat, res) {
      LastRowBacked(now, flat, res);
      var a := FirstStart(res) + 4 * r.width;
      RunsOn(res, n, m);
      AllBytes(was, flat, res, a);
    }
  }

  lemma AllBytes(was: seq<byte>, flat: seq<byte>, res: Resource, a: nat)
    requires RowsPlain(res) && RowsStay(res, |was|, |flat|) && a < |was|
    ensures res.height > 0
    ensures Covered(res, |flat|, res.transferRect.height, a) ==>
              FirstStart(res) <= a && res.transferOffset + (a - FirstStart(res)) < |flat|
    ensures AllRows(was, flat, res)[a]
            == if Covered(res, |flat|, res.transferRect.height, a) then
                 flat[res.transferOffset + (a - FirstStart(res))]
               else was[a]
  {
    hide RowsPlain, RowsStay, Covered, FirstStart, RowsCopied;
    HasStride(res);
    PlainByte(was, flat, res, res.transferRect.height, a);
  }

  lemma LastRowBacked(now: seq<byte>, flat: seq<byte>, res: Resource)
    requires forall h: nat :: h < res.transferRect.height ==> RowPainted(now, flat, res, h)
    requires 0 < res.transferRect.width < res.width && res.transferRect.height > 0
    requires !(res.transferRect.height == 1 && |flat| == res.transferOffset + 4 * res.transferRect.width)
    ensures res.transferOffset + 4 * res.transferRect.width < |flat|
  {
    var r := res.transferRect;
    assert RowPainted(now, flat, res, r.height - 1);
    if r.height > 1 { MulMono(Pitch(res), 1, r.height - 1); }
  }

  lemma RunsOn(res: Resource, n: nat, m: nat)
    requires RowsPlain(res) && RowsStay(res, n, m)
    requires var r := res.transferRect; r.x == 0 && 0 < r.width < res.width && r.height > 0
    requires res.transferOffset + 4 * res.transferRect.width < m
    ensures var a := FirstStart(res) + 4 * res.transferRect.width;
            a < n && res.height > 0 && Covered(res, m, res.transferRect.height, a) && !InRect(res, a)
  {
    hide RowStart, RowSource, RowLength, RowsPlain;
    var r := res.transferRect;
    var a := FirstStart(res) + 4 * r.width;
    HasStride(res);
    PlainRow(res, 0);
    PlainShift(res, 0);
    assert RowStays(res, n, m, 0) && Covers(res, m, 0, a);
    forall h: nat | h < r.height ensures !InRectRow(res, h, a) {
      Distribute(r.y, h, Pitch(res));
      if h > 0 { MulMono(Pitch(res), 1, h); }
    }
  }

  function WholeStart(res: Resource): nat
    requires res.height > 0
  {
    Wrap(Wrap(res.transferRect.y * StrideOf(res)) + Wrap(res.transferRect.x * BPP))
  }

  function WholeLength(res: Resource): nat
    requires res.height > 0
  {
    Wrap(StrideOf(res) * res.transferRect.height)
  }

  /** The copy of whole rows does not write beyond a framebuffer of `n` bytes. */
  predicate WholeStays(res: Resource, n: nat, m: nat)
    requires res.height > 0
  {
    Holds(n, WholeStart(res), Available(m, Wrap(res.transferOffset), WholeLength(res)))
  }

  function WholeCopied(was: seq<byte>, flat: seq<byte>, res: Resource): seq<byte>
    requires res.height > 0 && WholeStays(res, |was|, |flat|)
  {
    WindowLength(flat, Wrap(res.transferOffset), WholeLength(res));
    Filled(was, WholeStart(res), Window(flat, Wrap(res.transferOffset), WholeLength(res)))
  }

  lemma WholeFits(res: Resource, n: nat, m: nat)
    requires res.hostmem == CalcImageHostmem(res.width, res.height) && res.hostmem > 0 && NoWrap(res) && FullWidth(res)
    requires InBounds(res.transferRect, res.width, res.height) && res.hostmem <= n
    ensures res.height > 0 && WholeStays(res, n, m)
    ensures WholeStart(res) == Pitch(res) * res.transferRect.y
            && WholeLength(res) == Pitch(res) * res.transferRect.height
    ensures Pitch(res) * res.transferRect.y + Pitch(res) * res.transferRect.height
            == Pitch(res) * (res.transferRect.y + res.transferRect.height) <= res.hostmem
  {
    hide InBounds, CalcImageHostmem, NoWrap;
    FullWidthSizes(res);
    AvailableBelow(m, Wrap(res.transferOffset), WholeLength(res));
  }

  /** The copy of whole rows, in one go; `inside` is false when it would write beyond the framebuffer. */
  method CopyWhole(fb: array<byte>, res: Resource) returns (inside: bool)
    requires res.hostmem == CalcImageHostmem(res.width, res.height) && res.hostmem > 0 && FullWidth(res)
    requires InBounds(res.transferRect, res.width, res.height) && res.height > 0 && fb !in res.iov
    modifies fb
    ensures inside <==> WholeStays(res, fb.Length, Total(res.iov))
    ensures inside ==> fb[..] == WholeCopied(old(fb[..]), Flatten(Bufs(res.iov)), res)
    ensures NoWrap(res) && res.hostmem <= fb.Length ==>
              inside && (Backed(res) ==> RowsPainted(old(fb[..]), fb[..], Flatten(Bufs(res.iov)), res))
  {
    hide InBounds, Flatten, Filled, Window, Bufs, BytesPainted, CalcImageHostmem, WholeStart, WholeLength, NoWrap,
        Available;
    ghost var was, flat := fb[..], Flatten(Bufs(res.iov));
    ghost var plain := NoWrap(res) && res.hostmem <= fb.Length;
    if plain { WholeFits(res, fb.Length, |flat|); }
    inside := WholeStays(res, fb.Length, Total(res.iov));
    if inside {
      var _ := IovToBuf(res.iov, Wrap(res.transferOffset), fb, WholeStart(res), WholeLength(res), false);
      if plain && Backed(res) { Painted(was, WholeStart(res), flat, Wrap(res.transferOffset), WholeLength(res)); }
    }
  }

  /** `virtio_gpu_copy_and_flush`, into the memory of an enabled framebuffer; `inside` is false when it
      would write beyond that memory. */
  method CopyAndFlush(fb: array<byte>, res: Resource) returns (error: Response, inside: bool)
    requires res.hostmem == CalcImageHostmem(res.width, res.height) && InBounds(res.transferRect, res.width, res.height)
    requires fb !in res.iov
    modifies fb
    ensures error.OkNoData? <==> res.iov != [] && res.hostmem > 0
    ensures error.OkNoData? ==> res.height > 0
    ensures error.OkNoData? && FullWidth(res) ==>
              && (inside <==> WholeStays(res, fb.Length, Total(res.iov)))
              && (inside ==> fb[..] == WholeCopied(old(fb[..]), Flatten(Bufs(res.iov)), res))
              && (NoWrap(res) && res.hostmem <= fb.Length ==>
                    inside && (Backed(res) ==> RowsPainted(old(fb[..]), fb[..], Flatten(Bufs(res.iov)), res)))
    ensures error.OkNoData? && !FullWidth(res) ==>
              && (inside <==> RowsStay(res, fb.Length, Total(res.iov)))
              && (inside ==> forall a :: 0 <= a < fb.Length ==>
                    FromLastRow(old(fb[..]), fb[..], Flatten(Bufs(res.iov)), res, res.transferRect.height, a))
    ensures !error.OkNoData? ==> inside && fb[..] == old(fb[..])
  {
    hide InBounds, Flatten, Bufs, RowsPainted, CalcImageHostmem, RowsCopied, RowStart, RowsStay, WholeStays,
        FromLastRow, Backed;
    if res.iov == [] || res.hostmem <= 0 { return ErrUnspec, true; }
    HasRows(res);
    error := OkNoData;
    if res.transferRect.x != 0 || res.transferRect.width != res.width {
      inside := CopyRows(fb, res);
    } else {
      inside := CopyWhole(fb, res);
    }
  }

  /** The command leaves the resource and the scanout alone: those in `ids` are neither destroyed, nor
      detached, nor transferred to, nor flushed, and the scanout is not set. */
  predicate LeavesAlone(c: Command, i: nat, ids: set<u32>) {
    match c
    case Unref(id) => id !in ids
    case Detach(id) => id !in ids
    case Transfer(id, _, _) => id !in ids
    case Flush(id, _, _) => id !in ids
    case SetScanout(scanoutId, _, _) => scanoutId != i
    case _ => true
  }

  /** The resource called as `res` is `res`, except for the scanouts it is bound to, and scanout `i`
      still shows what `sc` shows. */
  predicate StillThere(t: Table, res: Resource, i: nat, sc: Scanout) {
    var now := ById(t.resources, res.id);
    && now.Some? && now.value.(scanouts := {}) == res.(scanouts := {})
    && i < |t.scanouts| && t.scanouts[i].resourceId == sc.resourceId
    && t.scanouts[i].fb.width == sc.fb.width && t.scanouts[i].fb.height == sc.fb.height
  }

  lemma UnrefStillThere(t: Table, id: u32, res: Resource, i: nat, sc: Scanout)
    requires t.hostmem == Sum(t.resources) && StillThere(t, res, i, sc) && id != res.id && id != sc.resourceId
    ensures StillThere(DoUnref(t, id).0, res, i, sc)
  {
    hide Find, ById, Sum;
    var k := Find(t.resources, id);
    if k < |t.resources| { WithoutById(t.resources, k); }
  }

  lemma SetStillThere(t: Table, c: Command, res: Resource, i: nat, sc: Scanout)
    requires c.SetScanout? && SizesOk(t.resources) && StillThere(t, res, i, sc) && c.scanoutId != i
    ensures StillThere(DoSetScanout(t, c).0, res, i, sc)
  {
    hide Find, ById, ScanoutRect, FrameBufferFor, Check, Rebound;
    ReboundById(t.resources, c.scanoutId, c.id, res.id);
  }

  lemma CommandLeavesAlone(t: Table, c: Command, res: Resource, i: nat, sc: Scanout)
    requires Inv(t) && StillThere(t, res, i, sc) && res.iov != [] && LeavesAlone(c, i, {res.id, sc.resourceId})
    ensures SizesOk(t.resources) && t.hostmem == Sum(t.resources) && StillThere(Step(t, c).0, res, i, sc)
  {
    hide Inv, SizesOk, Sum, ById, DoCreate, DoUnref, DoAttach, DoDetach, DoSetScanout, DoTransfer, DoFlush;
    InvParts(t);
    match c {
      case Create2d(_, _, _, _) => CreateById(t, c);
      case Unref(id) => UnrefStillThere(t, id, res, i, sc);
      case Attach(_, _, _) => AttachById(t, c);
      case Detach(id) => DetachById(t, id);
      case SetScanout(_, _, _) => SetStillThere(t, c, res, i, sc);
      case Transfer(_, _, _) => TransferById(t, c);
      case Flush(_, _, _) => FlushEffect(t, c, i);
      case _ =>
    }
  }

  lemma {:induction false} CommandsLeaveAlone(t: Table, cmds: seq<Command>, res: Resource, i: nat, sc: Scanout)
    requires Inv(t) && StillThere(t, res, i, sc) && res.iov != []
    requires forall j :: 0 <= j < |cmds| ==> LeavesAlone(cmds[j], i, {res.id, sc.resourceId})
    ensures StillThere(After(t, cmds), res, i, sc)
  {
    hide Inv, StillThere, LeavesAlone, Step;
    if cmds != [] {
      CommandsLeaveAlone(t, cmds[..|cmds| - 1], res, i, sc);
      CommandLeavesAlone(After(t, cmds[..|cmds| - 1]), cmds[|cmds| - 1], res, i, sc);
    }
  }

  /** A full-width transfer, other commands and a flush, for scanout `i` whose framebuffer memory is `fb`. */
  method TransferThenFlush(dev: GpuDevice, i: nat, fb: array<byte>, transfer: Command, between: seq<Command>,
      flush: Command)
    returns (error: Response, copied: bool)
    requires dev.Valid() && i < |dev.scanouts|
    requires transfer.Transfer? && flush.Flush? && transfer.id == flush.id
    requires forall j :: 0 <= j < |between| ==> LeavesAlone(between[j], i, {transfer.id, dev.scanouts[i].resourceId})
    requires 4 * dev.scanouts[i].fb.width * dev.scanouts[i].fb.height <= fb.Length
    requires forall k :: 0 <= k < |dev.resources| && dev.resources[k].id == transfer.id ==>
               && fb !in dev.resources[k].iov && NoWrap(dev.resources[k])
               && transfer.r.x == 0 && transfer.r.width == dev.resources[k].width
    modifies dev, fb
    ensures dev.Valid()
    ensures error.OkNoData? ==> copied == (old(dev.scanouts[i]).resourceId == flush.id)
    ensures copied ==>
              var was, now := ById(old(dev.resources), flush.id), ById(dev.resources, flush.id);
              && was.Some? && now.Some?
              && var res := was.value.(transferRect := transfer.r, transferOffset := transfer.offset);
                 && now.value.(scanouts := {}) == res.(scanouts := {})
                 && (Backed(res) ==> RowsPainted(old(fb[..]), fb[..], Flatten(Bufs(res.iov)), res))
    ensures !copied ==> fb[..] == old(fb[..])
  {
    hide Inv, Find, InBounds, Flatten, Bufs, RowsPainted, CalcImageHostmem, Check, DoTransfer, DoFlush, Backed,
        After, LeavesAlone;
    copied := false;
    ghost var t0 := dev.State();
    error := dev.TransferToHost2d(transfer);
    if !error.OkNoData? { return; }
    TransferEffect(t0, transfer);
    ghost var t1 := dev.State();
    ghost var res := ById(t1.resources, transfer.id).value;
    dev.Run(between);
    CommandsLeaveAlone(t1, between, res, i, t0.scanouts[i]);
    ghost var t2 := dev.State();
    var painted;
    error, painted := dev.ResourceFlush(flush);
    FlushEffect(t2, flush, i);
    if i in painted {
      var k := dev.FindResource(flush.id);
      ShownSizes(dev.State(), i, k);
      var _, _ := CopyAndFlush(fb, dev.resources[k]);
      SamePainting(res, dev.resources[k], old(fb[..]), fb[..]);
      copied := true;
    }
  }

  /** The painting does not depend on where a resource is bound. */
  lemma SamePainting(res: Resource, now: Resource, before: seq<byte>, after: seq<byte>)
    requires now.(scanouts := {}) == res.(scanouts := {})
    ensures Backed(now) <==> Backed(res)
    ensures RowsPainted(before, after, Flatten(Bufs(now.iov)), now) <==>
            RowsPainted(before, after, Flatten(Bufs(res.iov)), res)
  {
    hide Flatten, Bufs, BytesPainted;
  }

  lemma TransferEffect(t: Table, c: Command)
    requires Inv(t) && c.Transfer? && DoTransfer(t, c).1.OkNoData?
    ensures var t', k := DoTransfer(t, c).0, Find(t.resources, c.id);
            && k < |t.resources| && t.resources[k].id == c.id != 0 && t.resources[k].iov != []
                && t'.scanouts == t.scanouts
            && t'.resources == t.resources[k := t.resources[k].(transferRect := c.r, transferOffset := c.offset)]
            && Find(t'.resources, c.id) == k
  {
    hide InBounds;
    var t', k := DoTransfer(t, c).0, Find(t.resources, c.id);
    assert IdsOk(t.resources);
    IdsKept(t.resources, k, t'.resources[k]);
    FoundAt(t'.resources, k);
  }

  lemma FlushEffect(t: Table, c: Command, i: nat)
    requires c.Flush? && i < |t.scanouts|
    ensures var t' := DoFlush(t, c).0;
            && t'.resources == t.resources && |t'.scanouts| == |t.scanouts|
            && t'.scanouts[i].resourceId == t.scanouts[i].resourceId
            && t'.scanouts[i].fb.width == t.scanouts[i].fb.width && t'.scanouts[i].fb.height == t.scanouts[i].fb.height
  {
    hide InBounds, Find;
  }

  lemma ShownSizes(t: Table, i: nat, k: nat)
    requires Inv(t) && i < |t.scanouts| && t.scanouts[i].resourceId != 0
             && k == Find(t.resources, t.scanouts[i].resourceId)
    ensures k < |t.resources|
    ensures var r := t.resources[k];
            && r.hostmem == CalcImageHostmem(r.width, r.height) && r.hostmem > 0 && r.height > 0
            && InBounds(r.transferRect, r.width, r.height)
            && t.scanouts[i].fb.width == r.width && t.scanouts[i].fb.height == r.height
            && (NoWrap(r) ==> r.hostmem == 4 * r.width * r.height)
  {
    hide CalcImageHostmem, Find, InBounds;
    assert ScanoutOk(t.resources, t.scanouts[i]);
    assert SizesOk(t.resources);
    HasRows(t.resources[k]);
    HostmemExact(t.resources[k].width, t.resources[k].height);
  }
}
