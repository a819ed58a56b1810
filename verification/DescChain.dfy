/** Split virtqueues: reading descriptor chains and returning used elements
    (hvisor-tool, `tools/virtio.c`; Virtio 1.2 sections 2.7.5, 2.7.6 and 2.7.8). */
module DescChain {
  import opened Arithmetic

  const IDX: nat := 0x1_0000

  datatype Desc = Desc(addr: nat, len: nat, flags: nat, next: nat)
  {
    predicate HasNext() { flags % 2 == 1 }
    predicate IsIndirect() { flags / 4 % 2 == 1 }
    function TableLen(): nat { len / 16 }
  }

  datatype Iovec = Iovec(base: nat, len: nat)

  datatype UsedElem = UsedElem(id: nat, len: nat)

  /** `path` follows NEXT links (bit 0 of the flags; bit 2 is INDIRECT) through `table` from `head` to a
      descriptor without NEXT. */
  ghost predicate Linked(table: seq<Desc>, head: nat, path: seq<nat>) {
    && path != [] && path[0] == head
    && (forall k :: 0 <= k < |path| ==> path[k] < |table|)
    && (forall k :: 0 <= k < |path| - 1 ==> table[path[k]].flags % 2 == 1 && table[path[k]].next == path[k + 1])
    && table[path[|path| - 1]].flags % 2 == 0
  }

  function Select(table: seq<Desc>, path: seq<nat>): seq<Desc>
    requires forall k :: 0 <= k < |path| ==> path[k] < |table|
  {
    seq(|path|, k requires 0 <= k < |path| => table[path[k]])
  }

  /** The buffers of a chain: its direct descriptors and then those of the indirect table, if any. */
  ghost function Buffers(table: seq<Desc>, path: seq<nat>, indirect: seq<Desc>, ipath: seq<nat>): (r: seq<Desc>)
    requires forall k :: 0 <= k < |path| ==> path[k] < |table|
    requires forall k :: 0 <= k < |ipath| ==> ipath[k] < |indirect|
    requires path != []
  {
    if table[path[|path| - 1]].flags / 4 % 2 == 1
    then Select(table, path[..|path| - 1]) + Select(indirect, ipath)
    else Select(table, path)
  }

  lemma LinkStep(table: seq<Desc>, head: nat, path: seq<nat>, k: nat)
    requires Linked(table, head, path) && k < |path|
    ensures path[k] < |table| && (table[path[k]].HasNext() <==> k < |path| - 1)
    ensures k < |path| - 1 ==> table[path[k]].next == path[k + 1]
  {
  }

  /** A chain is determined by its head: two paths agree as far as both go, and end together. */
  lemma {:induction false} LinkedPrefix(table: seq<Desc>, head: nat, p: seq<nat>, q: seq<nat>, n: nat)
    requires Linked(table, head, p) && Linked(table, head, q) && 0 < n <= |p| && n <= |q|
    ensures p[..n] == q[..n]
  {
    if n > 1 {
      LinkedPrefix(table, head, p, q, n - 1);
      assert p[n - 2] == p[..n - 1][n - 2] == q[n - 2];
    }
  }

  lemma LinkedUnique(table: seq<Desc>, head: nat, p: seq<nat>, q: seq<nat>)
    requires Linked(table, head, p) && Linked(table, head, q)
    ensures p == q
  {
    var n := if |p| <= |q| then |p| else |q|;
    LinkedPrefix(table, head, p, q, n);
    assert p[n - 1] == p[..n][n - 1] == q[n - 1];
    LinkStep(table, head, p, n - 1);
    LinkStep(table, head, q, n - 1);
  }

  /** The first `n` entries hold the first `n` buffers. */
  ghost predicate Recorded(host: nat -> nat, bufs: seq<Desc>, n: nat, iov: seq<Iovec>, flags: seq<nat>, copyFlags: bool)
  {
    && n <= |bufs| && n <= |iov| && (copyFlags ==> n <= |flags|)
    && (forall k :: 0 <= k < n ==> iov[k] == Iovec(host(bufs[k].addr), bufs[k].len))
    && (copyFlags ==> forall k :: 0 <= k < n ==> flags[k] == bufs[k].flags)
  }

  lemma RecordMore(host: nat -> nat, bufs: seq<Desc>, n: nat, iov: seq<Iovec>, flags: seq<nat>, copyFlags: bool)
    requires Recorded(host, bufs, n, iov, flags, copyFlags) && n < |bufs| && n < |iov| && (copyFlags ==> n < |flags|)
    ensures Recorded(host, bufs, n + 1, iov[n := Iovec(host(bufs[n].addr), bufs[n].len)],
                     if copyFlags then flags[n := bufs[n].flags] else flags, copyFlags)
  {
  }

  class VirtQueue {
    const num: nat
    const descTable: seq<Desc>             // guest memory: not written by the device
    const tables: map<nat, seq<Desc>>      // descriptors found at a host address
    const host: nat -> nat                 // guest to host addresses of the zone
    var availIdx: nat
    var availRing: seq<nat>
    var lastAvailIdx: nat
    var usedRing: array<UsedElem>
    var usedIdx: nat
    ghost var taken: nat                   // chains taken so far
    ghost var returned: seq<UsedElem>      // elements returned so far

    ghost predicate Valid()
      reads this, usedRing
    {
      && num > 0 && IDX % num == 0
      && |availRing| == num && usedRing.Length == num
      && availIdx < IDX
      && lastAvailIdx == taken % IDX && usedIdx == |returned| % IDX
      && (forall k :: 0 <= k < |returned| && |returned| - num <= k ==> usedRing[k % num] == returned[k])
    }

    /** The queue as the driver set it up. */
    constructor (num: nat, descTable: seq<Desc>, tables: map<nat, seq<Desc>>, host: nat -> nat, ring: seq<nat>,
        used: array<UsedElem>)
      requires num > 0 && IDX % num == 0 && |ring| == num && used.Length == num
      ensures Valid() && taken == 0 && returned == [] && usedRing == used && availRing == ring
    {
      this.num, this.descTable, this.tables, this.host := num, descTable, tables, host;
      availIdx, availRing, lastAvailIdx, usedRing, usedIdx := 0, ring, 0, used, 0;
      taken, returned := 0, [];
    }

    /** What the driver promises of the chain at `head`: direct descriptors, then at most one
        indirect table of `len / 16` descriptors, all of them linked. */
    ghost predicate WellFormed(head: nat, path: seq<nat>, ipath: seq<nat>) {
      && |path| <= num
      && Linked(descTable, head, path)
      && (forall k :: 0 <= k < |path| - 1 ==> descTable[path[k]].flags / 4 % 2 == 0)
      && var last := descTable[path[|path| - 1]];
         if last.flags / 4 % 2 == 1 then
           && host(last.addr) in tables
           && Linked(tables[host(last.addr)], 0, ipath) && |ipath| == last.len / 16
         else ipath == []
    }

    ghost function ChainBuffers(head: nat, path: seq<nat>, ipath: seq<nat>): (r: seq<Desc>)
      requires WellFormed(head, path, ipath)
    {
      var last := descTable[path[|path| - 1]];
      Buffers(descTable, path, if last.flags / 4 % 2 == 1 then tables[host(last.addr)] else [], ipath)
    }

    method DescriptorToIov(i: nat, d: Desc, iov: array<Iovec>, flags: array<nat>, copyFlags: bool)
      requires i < iov.Length && (copyFlags ==> i < flags.Length)
      modifies iov, flags
      ensures iov[..] == old(iov[..])[i := Iovec(host(d.addr), d.len)]
      ensures flags[..] == if copyFlags then old(flags[..])[i := d.flags] else old(flags[..])
    {
      iov[i] := Iovec(host(d.addr), d.len);
      if copyFlags { flags[i] := d.flags; }
    }

    /** The counting pass. */
    method CountChain(head: nat, ghost path: seq<nat>, ghost ipath: seq<nat>) returns (chainLen: nat)
      requires WellFormed(head, path, ipath)
      ensures chainLen == |ChainBuffers(head, path, ipath)|
    {
      var len, i, next := 0, 0, head;
      while i < num
        invariant 0 <= i < |path| && next == path[i] && len == 0
      {
        var vdesc := descTable[next];
        if vdesc.IsIndirect() {
          len := len + vdesc.TableLen();
          i := i - 1;
        }
        if !vdesc.HasNext() { break; }
        i, next := i + 1, vdesc.next;
      }
      chainLen := len + i + 1;
    }

    /** The filling pass of an indirect table, starting at entry `start` of the result. */
    method FillIndirect(start: nat, table: seq<Desc>, len: nat, ghost ipath: seq<nat>, ghost bufs: seq<Desc>,
                        iov: array<Iovec>, flags: array<nat>, copyFlags: bool) returns (i: nat, tableLen: int)
      requires Linked(table, 0, ipath) && |ipath| == len
      requires start <= |bufs| && bufs[start..] == Select(table, ipath)
      requires |bufs| <= iov.Length && (copyFlags ==> |bufs| <= flags.Length)
      requires Recorded(host, bufs, start, iov[..], flags[..], copyFlags)
      modifies iov, flags
      ensures tableLen == 0 && i == |bufs|
      ensures Recorded(host, bufs, |bufs|, iov[..], flags[..], copyFlags)
    {
      hide Recorded;
      i, tableLen := start, len;
      var next := 0;
      LinkStep(table, 0, ipath, 0);
      assert |bufs[start..]| == len;
      hide Linked;
      while true
        invariant start <= i < |bufs| && tableLen == |bufs| - i && next == ipath[i - start]
        invariant Recorded(host, bufs, i, iov[..], flags[..], copyFlags)
        decreases tableLen
      {
        LinkStep(table, 0, ipath, i - start);
        var indDesc := table[next];
        assert bufs[i] == bufs[start..][i - start] == indDesc;
        RecordMore(host, bufs, i, iov[..], flags[..], copyFlags);
        DescriptorToIov(i, indDesc, iov, flags, copyFlags);
        tableLen := tableLen - 1;
        i := i + 1;
        if !indDesc.HasNext() { break; }
        next := indDesc.next;
      }
    }

    /** The filling pass. */
    method FillChain(head: nat, chainLen: nat, iov: array<Iovec>, flags: array<nat>, copyFlags: bool,
                     ghost path: seq<nat>, ghost ipath: seq<nat>)
      requires WellFormed(head, path, ipath) && chainLen == |ChainBuffers(head, path, ipath)|
      requires chainLen <= iov.Length && (copyFlags ==> chainLen <= flags.Length)
      modifies iov, flags
      ensures Recorded(host, ChainBuffers(head, path, ipath), chainLen, iov[..], flags[..], copyFlags)
    {
      ghost var bufs := ChainBuffers(head, path, ipath);
      var i, next := 0, head;
      while i < chainLen
        invariant i < chainLen ==> i < |path| && next == path[i]
        invariant Recorded(host, bufs, if i < chainLen then i else chainLen, iov[..], flags[..], copyFlags)
      {
        hide Recorded;
        ChainStep(head, path, ipath, i);
        var vdesc := descTable[next];
        if vdesc.IsIndirect() {
          var indTable := tables[host(vdesc.addr)];
          var tableLen;
          i, tableLen := FillIndirect(i, indTable, vdesc.TableLen(), ipath, bufs, iov, flags, copyFlags);
          if tableLen != 0 { break; }
        } else {
          RecordMore(host, bufs, i, iov[..], flags[..], copyFlags);
          DescriptorToIov(i, vdesc, iov, flags, copyFlags);
        }
        i, next := i + 1, vdesc.next;
      }
    }

    lemma ChainStep(head: nat, path: seq<nat>, ipath: seq<nat>, i: nat)
      requires WellFormed(head, path, ipath) && i < |path| && i < |ChainBuffers(head, path, ipath)|
      ensures path[i] < |descTable|
      ensures var bufs, d := ChainBuffers(head, path, ipath), descTable[path[i]];
              if d.IsIndirect() then
                && host(d.addr) in tables && Linked(tables[host(d.addr)], 0, ipath) && |ipath| == d.TableLen()
                && bufs[i..] == Select(tables[host(d.addr)], ipath)
              else
                && bufs[i] == d
                && (i + 1 < |bufs| ==> i + 1 < |path| && d.next == path[i + 1])
    {
      LinkStep(descTable, head, path, i);
    }

    /** `process_descriptor_chain`.  `path` and `ipath` are the chain and its indirect table, as the
        driver built them. */
    method ProcessDescriptorChain(appendLen: nat, copyFlags: bool, ghost path: seq<nat>, ghost ipath: seq<nat>)
      returns (chainLen: nat, descIdx: nat, iov: array<Iovec>, flags: array<nat>)
      requires Valid()
      requires lastAvailIdx != availIdx ==> WellFormed(availRing[taken % num], path, ipath)
      modifies this`lastAvailIdx, this`taken
      ensures Valid()
      ensures old(lastAvailIdx) == availIdx ==> chainLen == 0 && taken == old(taken)
      ensures old(lastAvailIdx) != availIdx ==>
                && taken == old(taken) + 1 && lastAvailIdx == (old(lastAvailIdx) + 1) % IDX
                && descIdx == availRing[old(taken) % num]
                && var bufs := ChainBuffers(descIdx, path, ipath);
                   && chainLen == |bufs| && iov.Length == chainLen + appendLen
                   && Recorded(host, bufs, chainLen, iov[..], flags[..], copyFlags)
    {
      hide Recorded, WellFormed;
      var last := lastAvailIdx;
      if last == availIdx {
        chainLen, descIdx, iov, flags := 0, 0, new Iovec[0], new nat[0];
        return;
      }
      MaskedIndex(taken, num);
      NextIndex(taken);
      lastAvailIdx := (lastAvailIdx + 1) % IDX;
      taken := taken + 1;
      descIdx := availRing[last % num];
      chainLen := CountChain(descIdx, path, ipath);
      iov := new Iovec[chainLen + appendLen];
      flags := new nat[if copyFlags then chainLen + appendLen else 0];
      FillChain(descIdx, chainLen, iov, flags, copyFlags, path, ipath);
    }

    /** `update_used_ring`: the ring keeps the last `num` elements returned, the newest included. */
    method UpdateUsedRing(id: nat, len: nat)
      requires Valid()
      modifies this`usedIdx, this`returned, usedRing
      ensures Valid() && returned == old(returned) + [UsedElem(id, len)]
    {
      MaskedIndex(|returned|, num);
      NextIndex(|returned|);
      SlotsDiffer(|returned|, num);
      usedRing[usedIdx % num] := UsedElem(id, len);
      usedIdx := (usedIdx + 1) % IDX;
      returned := returned + [UsedElem(id, len)];
    }
  }

  /** Masking a 16-bit index gives the same slot as masking the count it wraps. */
  lemma MaskedIndex(count: nat, num: nat)
    requires num > 0 && IDX % num == 0
    ensures count % IDX % num == count % num
  {
    var q, m := count / IDX, IDX / num;
    assert IDX * q == num * (m * q);
    AddMultiple(count % IDX, m * q, num);
  }

  lemma NextIndex(count: nat)
    ensures (count % IDX + 1) % IDX == (count + 1) % IDX
  {
  }

  /** Among the last `num` elements, each has a slot of its own. */
  lemma SlotsDiffer(count: nat, num: nat)
    requires num > 0
    ensures forall k: nat :: count - num < k < count ==> k % num != count % num
  {
    forall k: nat | count - num < k < count
      ensures k % num != count % num
    {
      RemaindersDiffer(k, count, num);
    }
  }
}
