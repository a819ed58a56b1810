/** Scatter/gather copies between a flat buffer and a list of buffers
    (hvisor-tool, `tools/virtio_gpu_base.c` and `tools/include/virtio_gpu.h`).

    An I/O vector is a list of pairwise distinct arrays; its meaning is their concatenation. */
module Iov {

  newtype byte = x: int | 0 <= x < 256

  function Min(a: nat, b: nat): nat { if a <= b then a else b }

  function Flatten(bufs: seq<seq<byte>>): seq<byte> {
    if bufs == [] then [] else Flatten(bufs[..|bufs| - 1]) + bufs[|bufs| - 1]
  }

  /** How many of `n` bytes there are from `offset` on. */
  function Available(total: nat, offset: nat, n: nat): nat {
    if offset >= total then 0 else Min(n, total - offset)
  }

  function Window(flat: seq<byte>, offset: nat, n: nat): seq<byte> {
    if offset >= |flat| then [] else flat[offset..offset + Min(n, |flat| - offset)]
  }

  /** Writing `len` bytes at `at` stays inside a buffer of `size` bytes. */
  predicate Holds(size: nat, at: nat, len: nat) { len > 0 ==> at + len <= size }

  /** `dst` with `data` written at `at`. */
  function Filled(dst: seq<byte>, at: nat, data: seq<byte>): (r: seq<byte>)
    requires Holds(|dst|, at, |data|)
    ensures |r| == |dst|
  {
    if data == [] then dst else dst[..at] + data + dst[at + |data|..]
  }

  /** `flat` with as much of `data` as fits written from `offset` on. */
  function Splice(flat: seq<byte>, offset: nat, data: seq<byte>): (r: seq<byte>)
    ensures |r| == |flat|
  {
    var len := Available(|flat|, offset, |data|);
    if len == 0 then flat else Filled(flat, offset, data[..len])
  }

  /** The contents of the buffers. */
  ghost function Bufs(iov: seq<array<byte>>): (bufs: seq<seq<byte>>)
    reads iov
    ensures |bufs| == |iov| && forall i :: 0 <= i < |iov| ==> bufs[i] == iov[i][..]
  {
    seq(|iov|, i requires 0 <= i < |iov| reads iov => iov[i][..])
  }

  ghost predicate Disjoint(iov: seq<array<byte>>) {
    forall i, j :: 0 <= i < j < |iov| ==> iov[i] != iov[j]
  }

  /** The number of bytes the buffers hold. */
  function Total(iov: seq<array<byte>>): (n: nat)
    reads iov
    ensures n == |Flatten(Bufs(iov))|
  {
    if iov == [] then 0 else
      assert Bufs(iov)[..|iov| - 1] == Bufs(iov[..|iov| - 1]);
      Total(iov[..|iov| - 1]) + iov[|iov| - 1].Length
  }

  // ------------------------------------------------------------------

  lemma FlattenOne(bufs: seq<seq<byte>>, i: nat)
    requires i < |bufs|
    ensures Flatten(bufs[..i + 1]) == Flatten(bufs[..i]) + bufs[i]
  {
    assert bufs[..i + 1][..i] == bufs[..i];
  }

  lemma {:induction false} FlattenSplit(bufs: seq<seq<byte>>, i: nat)
    requires i <= |bufs|
    ensures Flatten(bufs) == Flatten(bufs[..i]) + Flatten(bufs[i..])
    decreases |bufs|
  {
    if i == |bufs| {
      assert bufs[..i] == bufs;
    } else {
      var front := bufs[..|bufs| - 1];
      FlattenSplit(front, i);
      assert front[..i] == bufs[..i] && front[i..] == bufs[i..][..|bufs| - 1 - i];
    }
  }

  /** A buffer's place in the concatenation. */
  lemma FlattenAround(bufs: seq<seq<byte>>, i: nat)
    requires i < |bufs|
    ensures Flatten(bufs) == Flatten(bufs[..i]) + bufs[i] + Flatten(bufs[i + 1..])
  {
    FlattenSplit(bufs, i + 1);
    FlattenOne(bufs, i);
  }

  /** Writing inside one buffer writes the concatenation at that buffer's place. */
  lemma FlattenUpdate(bufs: seq<seq<byte>>, i: nat, x: seq<byte>)
    requires i < |bufs| && |x| == |bufs[i]|
    ensures Flatten(bufs[i := x]) == Flatten(bufs[..i]) + x + Flatten(bufs[i + 1..])
  {
    FlattenAround(bufs[i := x], i);
    assert bufs[i := x][..i] == bufs[..i] && bufs[i := x][i + 1..] == bufs[i + 1..];
  }

  /** Reading back what was written gives the data back; outside the window nothing changed. */
  lemma SpliceThenWindow(flat: seq<byte>, offset: nat, data: seq<byte>)
    ensures var len := Available(|flat|, offset, |data|);
            && Window(Splice(flat, offset, data), offset, |data|) == data[..len]
            && (forall p :: 0 <= p < |flat| && !(offset <= p < offset + len) ==>
                              Splice(flat, offset, data)[p] == flat[p])
  {
  }

  // ------------------------------------------------------------------

  /** The `done` bytes from `start` on. */
  function Part(flat: seq<byte>, start: nat, done: nat): (r: seq<byte>)
    requires done > 0 ==> start + done <= |flat|
    ensures |r| == done
  {
    if done == 0 then [] else flat[start..start + done]
  }

  /** What writing leaves at each address. */
  lemma FilledAt(dst: seq<byte>, at: nat, data: seq<byte>, k: nat)
    requires Holds(|dst|, at, |data|) && k < |dst|
    ensures Filled(dst, at, data)[k] == if at <= k < at + |data| then data[k - at] else dst[k]
  {
  }

  lemma FillTwice(dst: seq<byte>, at: nat, a: seq<byte>, b: seq<byte>)
    requires Holds(|dst|, at, |a| + |b|)
    ensures Filled(Filled(dst, at, a), at + |a|, b) == Filled(dst, at, a + b)
  {
    hide Filled;
    var l, r := Filled(Filled(dst, at, a), at + |a|, b), Filled(dst, at, a + b);
    forall k | 0 <= k < |dst| ensures l[k] == r[k] {
      FilledAt(dst, at, a, k);
      FilledAt(Filled(dst, at, a), at + |a|, b, k);
      FilledAt(dst, at, a + b, k);
    }
    assert l == r;
  }

  lemma FillMore(dst: seq<byte>, at: nat, flat: seq<byte>, start: nat, done: nat, len: nat)
    requires Holds(|dst|, at, done + len) && (done + len > 0 ==> start + done + len <= |flat|)
    ensures Filled(Filled(dst, at, Part(flat, start, done)), at + done, Part(flat, start + done, len))
            == Filled(dst, at, Part(flat, start, done + len))
  {
    hide Filled;
    assert Part(flat, start, done) + Part(flat, start + done, len) == Part(flat, start, done + len);
    FillTwice(dst, at, Part(flat, start, done), Part(flat, start + done, len));
  }

  lemma FillNone(dst: seq<byte>, at: nat)
    ensures Filled(dst, at, []) == dst
  {
  }

  method Memcpy(dst: array<byte>, at: nat, src: array<byte>, from: nat, len: nat)
    requires dst != src && Holds(dst.Length, at, len) && from + len <= src.Length
    modifies dst
    ensures dst[..] == Filled(old(dst[..]), at, src[from..from + len])
  {
    forall k | 0 <= k < len {
      dst[at + k] := src[from + k];
    }
  }

  /** The copy loops have passed `pos` bytes of the concatenation: `offset` bytes are still to be
      skipped, `done` are copied. */
  predicate Passed(start: nat, n: nat, pos: nat, offset: nat, done: nat) {
    && offset == (if start > pos then start - pos else 0)
    && done == (if pos > start then Min(n, pos - start) else 0)
  }

  lemma PassBuffer(start: nat, n: nat, pos: nat, bufLen: nat, offset: nat, done: nat)
    requires Passed(start, n, pos, offset, done)
    ensures done <= n && (done > 0 ==> start + done <= pos)
    ensures offset >= bufLen ==> Passed(start, n, pos + bufLen, offset - bufLen, done)
    ensures offset < bufLen ==>
              var len := Min(bufLen - offset, n - done);
              && (len > 0 ==> pos + offset == start + done && start + done + len <= pos + bufLen)
              && Passed(start, n, pos + bufLen, 0, done + len)
  {
  }

  lemma PassedBelow(start: nat, n: nat, total: nat, pos: nat, offset: nat, done: nat)
    requires Passed(start, n, pos, offset, done) && pos <= total
    ensures done <= Available(total, start, n)
  {
  }

  lemma AvailableBelow(total: nat, start: nat, n: nat)
    ensures Available(total, start, n) <= n
  {
  }

  lemma PassedAll(start: nat, n: nat, total: nat, pos: nat, offset: nat, done: nat)
    requires Passed(start, n, pos, offset, done) && pos <= total
    requires (offset == 0 && done >= n) || pos == total
    ensures done == Available(total, start, n) && (offset != 0 ==> done == 0)
  {
  }

  /** `iov_to_buf_full`, copying to `buf` from index `at` on. */
  method IovToBufFull(iov: seq<array<byte>>, start: nat, buf: array<byte>, at: nat, n: nat) returns (done: nat)
    requires buf !in iov && Holds(buf.Length, at, Available(|Flatten(Bufs(iov))|, start, n))
    modifies buf
    ensures done == Available(|Flatten(Bufs(iov))|, start, n)
    ensures buf[..] == Filled(old(buf[..]), at, Window(Flatten(Bufs(iov)), start, n))
  {
    hide Flatten, Filled, Part, Passed, Bufs, Available;
    ghost var bufs := Bufs(iov);
    ghost var flat := Flatten(bufs);
    ghost var was := buf[..];
    var offset: nat := start;
    done := 0;
    var i := 0;
    Begin(bufs, start, n);
    AvailableBelow(|flat|, start, n);
    FillNone(was, at);
    while (offset != 0 || done < n) && i < |iov|
      invariant i <= |iov| && |Flatten(bufs[..i])| <= |flat| && bufs == Bufs(iov)
      invariant Passed(start, n, |Flatten(bufs[..i])|, offset, done)
      invariant done <= Available(|flat|, start, n) <= n && (done > 0 ==> start + done <= |flat|)
      invariant buf[..] == Filled(was, at, Part(flat, start, done))
    {
      ghost var pos := |Flatten(bufs[..i])|;
      FlattenOne(bufs, i);
      FlattenAround(bufs, i);
      PassBuffer(start, n, pos, iov[i].Length, offset, done);
      if offset < iov[i].Length {
        var len := Min(iov[i].Length - offset, n - done);
        PassedBelow(start, n, |flat|, pos + iov[i].Length, 0, done + len);
        Memcpy(buf, at + done, iov[i], offset, len);
        BufferPart(bufs, i, offset, len, start + done);
        FillMore(was, at, flat, start, done, len);
        done := done + len;
        offset := 0;
      } else {
        offset := offset - iov[i].Length;
      }
      i := i + 1;
    }
    assert i == |iov| ==> bufs[..i] == bufs;
    PassedAll(start, n, |flat|, |Flatten(bufs[..i])|, offset, done);
    PartIsWindow(flat, start, n);
    if offset != 0 {
      return 0;
    }
  }

  lemma Begin(bufs: seq<seq<byte>>, start: nat, n: nat)
    ensures |Flatten(bufs[..0])| == 0 && Passed(start, n, 0, start, 0) && Part(Flatten(bufs), start, 0) == []
  {
  }

  lemma PartIsWindow(flat: seq<byte>, start: nat, n: nat)
    ensures Part(flat, start, Available(|flat|, start, n)) == Window(flat, start, n)
  {
  }

  lemma BufferPart(bufs: seq<seq<byte>>, i: nat, offset: nat, len: nat, start: nat)
    requires i < |bufs| && offset + len <= |bufs[i]| && (len > 0 ==> |Flatten(bufs[..i])| + offset == start)
    ensures len > 0 ==> start + len <= |Flatten(bufs)|
    ensures Part(Flatten(bufs), start, len) == bufs[i][offset..offset + len]
  {
    hide Flatten;
    FlattenAround(bufs, i);
  }

  // ------------------------------------------------------------------

  /** `flat` with the bytes of `data` copied so far. */
  function Put(flat: seq<byte>, start: nat, data: seq<byte>): (r: seq<byte>)
    requires data != [] ==> start + |data| <= |flat|
    ensures |r| == |flat|
  {
    if data == [] then flat else Filled(flat, start, data)
  }

  lemma PutNone(flat: seq<byte>, start: nat, data: seq<byte>)
    ensures Put(flat, start, data[..0]) == flat
  {
  }

  lemma PutMore(flat: seq<byte>, start: nat, data: seq<byte>, done: nat, len: nat)
    requires done + len <= |data| && start + done + len <= |flat|
    ensures Filled(Put(flat, start, data[..done]), start + done, data[done..done + len])
            == Put(flat, start, data[..done + len])
  {
    hide Filled;
    var a, b := data[..done], data[done..done + len];
    assert a + b == data[..done + len];
    if a == [] {
      if b == [] { FillNone(flat, start); }
    } else {
      FillTwice(flat, start, a, b);
    }
  }

  lemma PutIsSplice(flat: seq<byte>, start: nat, data: seq<byte>)
    ensures var done := Available(|flat|, start, |data|);
            Put(flat, start, data[..done]) == Splice(flat, start, data)
  {
  }

  /** Writing at `offset` in buffer `i` writes the concatenation at that place. */
  lemma BufferFilled(bufs: seq<seq<byte>>, i: nat, offset: nat, d: seq<byte>)
    requires i < |bufs| && offset + |d| <= |bufs[i]|
    ensures var pos := |Flatten(bufs[..i])|;
            && pos + |bufs[i]| <= |Flatten(bufs)|
            && Flatten(bufs[i := Filled(bufs[i], offset, d)]) == Filled(Flatten(bufs), pos + offset, d)
  {
    hide Flatten;
    FlattenAround(bufs, i);
    FlattenUpdate(bufs, i, Filled(bufs[i], offset, d));
  }

  /** One buffer's worth of the scattering loop, as values. */
  lemma StoreStep(flat: seq<byte>, bufs: seq<seq<byte>>, i: nat, start: nat, offset: nat, data: seq<byte>, done: nat,
      len: nat)
    requires i < |bufs| && offset + len <= |bufs[i]| && done + len <= |data|
    requires done > 0 ==> start + done <= |flat|
    requires Flatten(bufs) == Put(flat, start, data[..done])
    requires len > 0 ==> |Flatten(bufs[..i])| + offset == start + done
    ensures done + len > 0 ==> start + done + len <= |flat|
    ensures Flatten(bufs[i := Filled(bufs[i], offset, data[done..done + len])]) == Put(flat, start, data[..done + len])
  {
    hide Flatten, Filled, Put;
    BufferFilled(bufs, i, offset, data[done..done + len]);
    if len == 0 {
      assert data[done..done + len] == [];
      FillNone(Flatten(bufs), |Flatten(bufs[..i])| + offset);
    } else {
      PutMore(flat, start, data, done, len);
    }
  }

  lemma SliceOfSlice(s: seq<byte>, n: nat, done: nat, len: nat)
    requires done + len <= n <= |s|
    ensures s[..n][done..done + len] == s[done..done + len]
  {
  }

  /** `buf_to_iov_full`. */
  method BufToIovFull(iov: seq<array<byte>>, start: nat, buf: array<byte>, n: nat) returns (done: nat)
    requires Disjoint(iov) && buf !in iov && n <= buf.Length
    modifies iov
    ensures done == Available(|old(Flatten(Bufs(iov)))|, start, n)
    ensures Flatten(Bufs(iov)) == Splice(old(Flatten(Bufs(iov))), start, buf[..n])
  {
    hide Flatten, Filled, Put, Passed, Bufs;
    ghost var flat := Flatten(Bufs(iov));
    var offset: nat := start;
    done := 0;
    var i := 0;
    ghost var pos := 0;
    Begin(Bufs(iov), start, n);
    PutNone(flat, start, buf[..n]);
    while (offset != 0 || done < n) && i < |iov|
      invariant i <= |iov| && pos == |Flatten(Bufs(iov)[..i])| && pos <= |flat|
      invariant Passed(start, n, pos, offset, done)
      invariant done <= n && (done > 0 ==> start + done <= |flat|)
      invariant Flatten(Bufs(iov)) == Put(flat, start, buf[..n][..done])
    {
      ghost var bufs := Bufs(iov);
      FlattenOne(bufs, i);
      FlattenAround(bufs, i);
      PassBuffer(start, n, pos, iov[i].Length, offset, done);
      if offset < iov[i].Length {
        var len := Min(iov[i].Length - offset, n - done);
        Memcpy(iov[i], offset, buf, done, len);
        SliceOfSlice(buf[..], n, done, len);
        StoreStep(flat, bufs, i, start, offset, buf[..n], done, len);
        assert Bufs(iov) == bufs[i := Filled(bufs[i], offset, buf[done..done + len])];
        assert Bufs(iov)[..i] == bufs[..i];
        FlattenOne(Bufs(iov), i);
        done := done + len;
        offset := 0;
      } else {
        offset := offset - iov[i].Length;
      }
      pos := pos + iov[i].Length;
      i := i + 1;
    }
    assert i == |iov| ==> Bufs(iov)[..i] == Bufs(iov);
    PassedAll(start, n, |flat|, pos, offset, done);
    PutIsSplice(flat, start, buf[..n]);
    if offset != 0 {
      return 0;
    }
  }

  // ------------------------------------------------------------------
  // The one-buffer fast paths; `constant` says that the compiler knows the size

  lemma FirstBuffer(bufs: seq<seq<byte>>, start: nat, n: nat)
    requires bufs != [] && start + n <= |bufs[0]|
    ensures start + n <= |Flatten(bufs)| && n == Available(|Flatten(bufs)|, start, n)
    ensures Window(Flatten(bufs), start, n) == bufs[0][start..start + n]
  {
    FlattenAround(bufs, 0);
    assert bufs[..0] == [];
  }

  lemma FillFirst(bufs: seq<seq<byte>>, start: nat, data: seq<byte>)
    requires bufs != [] && start + |data| <= |bufs[0]|
    ensures Flatten(bufs[0 := Filled(bufs[0], start, data)]) == Splice(Flatten(bufs), start, data)
  {
    hide Filled;
    FirstBuffer(bufs, start, |data|);
    BufferFilled(bufs, 0, start, data);
    assert bufs[..0] == [] && data[..|data|] == data;
    if data == [] { FillNone(Flatten(bufs), start); }
  }

  /** `iov_to_buf`: the same contract as the loop, whichever way it goes. */
  method IovToBuf(iov: seq<array<byte>>, start: nat, buf: array<byte>, at: nat, n: nat, constant: bool)
      returns (done: nat)
    requires buf !in iov && Holds(buf.Length, at, Available(|Flatten(Bufs(iov))|, start, n))
    modifies buf
    ensures done == Available(|Flatten(Bufs(iov))|, start, n)
    ensures buf[..] == Filled(old(buf[..]), at, Window(Flatten(Bufs(iov)), start, n))
  {
    hide Flatten, Filled, Bufs, Window, Available;
    if constant && |iov| != 0 && start <= iov[0].Length && n <= iov[0].Length - start {
      FirstBuffer(Bufs(iov), start, n);
      Memcpy(buf, at, iov[0], start, n);
      return n;
    }
    done := IovToBufFull(iov, start, buf, at, n);
  }

  /** `buf_to_iov`. */
  method BufToIov(iov: seq<array<byte>>, start: nat, buf: array<byte>, n: nat, constant: bool) returns (done: nat)
    requires Disjoint(iov) && buf !in iov && n <= buf.Length
    modifies iov
    ensures done == Available(|old(Flatten(Bufs(iov)))|, start, n)
    ensures Flatten(Bufs(iov)) == Splice(old(Flatten(Bufs(iov))), start, buf[..n])
  {
    hide Flatten, Filled, Bufs, Splice, Available;
    if constant && |iov| != 0 && start <= iov[0].Length && n <= iov[0].Length - start {
      ghost var bufs := Bufs(iov);
      FirstBuffer(bufs, start, n);
      FillFirst(bufs, start, buf[..n]);
      Memcpy(iov[0], start, buf, 0, n);
      assert Bufs(iov) == bufs[0 := Filled(bufs[0], start, buf[..n])];
      return n;
    }
    done := BufToIovFull(iov, start, buf, n);
  }

  /** Scattering and then gathering at the same place gives the data back. */
  method WriteThenRead(iov: seq<array<byte>>, start: nat, data: array<byte>, n: nat, out: array<byte>,
      constant: bool) returns (done: nat)
    requires Disjoint(iov) && data !in iov && out !in iov && data != out && n <= data.Length && n <= out.Length
    modifies iov, out
    ensures done == Available(|old(Flatten(Bufs(iov)))|, start, n)
    ensures out[..done] == data[..done] && out[done..] == old(out[done..])
  {
    hide Flatten, Bufs, Splice;
    ghost var flat := Flatten(Bufs(iov));
    var _ := BufToIov(iov, start, data, n, constant);
    done := IovToBuf(iov, start, out, 0, n, constant);
    SpliceThenWindow(flat, start, data[..n]);
    assert data[..n][..done] == data[..done];
  }
}
