/** Which interrupts the lists hold, in terms of the results that the daemon pushed
    (hvisor, `hypercall/mod.rs` and `device/virtio_trampoline.rs`). */
module IrqDelivery {
  import opened Wrappers
  import opened ResultRing

  /** The draining thread has filed the result at the head and not yet passed it over. */
  predicate PastFiling(t: State) {
    && t.irqLock.Some? && t.irqLock.value < |t.threads|
    && var p := t.threads[t.irqLock.value]; p.DSend? || p.DNotify? || p.DAdvance?
  }

  /** How many results have been filed. */
  function Filed(t: State): nat { if PastFiling(t) then t.drained + 1 else t.drained }

  /** Result `k` raises interrupt `irq` on CPU `c`. */
  predicate Raises(t: State, k: nat, c: nat, irq: nat) {
    k < |t.pushed| && t.pushed[k].zone in t.zones && t.zones[t.pushed[k].zone] == c && t.pushed[k].irq == irq
  }

  // ------------------------------------------------------------------
  // One step

  lemma HeadIs(t: State, d: nat)
    requires Shaped(t) && RingInv(t) && d < |t.threads| && t.threads[d].DFile?
    ensures t.drained < |t.pushed| && Head(t) == t.pushed[t.drained] && t.irqLock == Some(d)
  {
    assert ThreadOk(t.threads[d], t.slots, t.pushed, t.drained);
    assert LocksAt(t.threads[d], d, t.mutex, t.bridge, t.irqLock);
  }

  lemma Draining(t: State, d: nat)
    requires RingInv(t) && d < |t.threads|
    ensures t.threads[d].HoldsIrqs() <==> t.irqLock == Some(d)
    ensures t.threads[d].DSend? || t.threads[d].DNotify? || t.threads[d].DAdvance? ==> PastFiling(t)
    ensures PastFiling(t) ==> t.drained < |t.pushed|
  {
    hide OwnersOk;
    assert LocksAt(t.threads[d], d, t.mutex, t.bridge, t.irqLock);
    if PastFiling(t) { assert ThreadOk(t.threads[t.irqLock.value], t.slots, t.pushed, t.drained); }
  }

  /** Results are only added, and zones stay. */
  lemma PushedGrows(t: State, x: Step)
    requires Shaped(t) && Enabled(t, x)
    ensures var t' := Next(t, x); t'.zones == t.zones && t.pushed <= t'.pushed
  {
  }

  /** A listed interrupt stays listed until its CPU injects it. */
  lemma StaysListed(t: State, x: Step, c: nat, irq: nat)
    requires Shaped(t) && Enabled(t, x) && irq in ListOf(t, c) && x != HandleIrq(c)
    ensures irq in ListOf(Next(t, x), c)
  {
  }

  /** The step that files a result: its interrupt is then listed for its CPU. */
  lemma FilesHead(t: State, d: nat)
    requires Shaped(t) && RingInv(t) && d < |t.threads| && t.threads[d].DFile? && Head(t).zone in t.zones
    ensures ThreadEnabled(t, d) && t.drained < |t.pushed|
    ensures var t', r := ThreadNext(t, d), t.pushed[t.drained];
            && Filed(t) == t.drained && Filed(t') == t.drained + 1 && r == Head(t)
            && r.irq in ListOf(t', t.zones[r.zone])
  {
    hide RingInv;
    HeadIs(t, d);
  }

  /** No other step changes how many are filed. */
  lemma FiledElsewhere(t: State, x: Step)
    requires Shaped(t) && RingInv(t) && Enabled(t, x)
    requires !(x.ThreadStep? && t.threads[x.thread].DFile? && Head(t).zone in t.zones)
    ensures Filed(Next(t, x)) == Filed(t)
  {
    hide RingInv;
    if x.ThreadStep? {
      Draining(t, x.thread);
    } else if t.irqLock.Some? && t.irqLock.value < |t.threads| {
      Draining(t, t.irqLock.value);
    }
  }

  /** Nor what is listed, except for the CPU that injects. */
  lemma ListedElsewhere(t: State, x: Step, c: nat, irq: nat)
    requires Shaped(t) && Enabled(t, x) && irq in ListOf(Next(t, x), c)
    ensures irq in ListOf(t, c)
            || (x.ThreadStep? && t.threads[x.thread].DFile? && Head(t).zone in t.zones
                && t.zones[Head(t).zone] == c && Head(t).irq == irq)
  {
  }

  // ------------------------------------------------------------------
  // Every run

  /** Step `i` injects interrupt `irq` on CPU `c`, after result `k` was filed. */
  ghost predicate InjectsAt(s: State, steps: seq<Step>, i: nat, c: nat, irq: nat, k: nat)
    requires Shaped(s)
  {
    && i < |steps| && steps[i] == HandleIrq(c) && Run(s, steps[..i]).Some?
    && var t := Run(s, steps[..i]).value; k < Filed(t) && irq in ListOf(t, c)
  }

  ghost predicate Injected(s: State, steps: seq<Step>, c: nat, irq: nat, k: nat)
    requires Shaped(s)
  {
    exists i: nat :: InjectsAt(s, steps, i, c, irq, k)
  }

  lemma InjectedStill(s: State, steps: seq<Step>, x: Step, c: nat, irq: nat, k: nat)
    requires Shaped(s) && Injected(s, steps, c, irq, k)
    ensures Injected(s, steps + [x], c, irq, k)
  {
    hide Run, Filed;
    var i: nat :| InjectsAt(s, steps, i, c, irq, k);
    assert (steps + [x])[..i] == steps[..i];
    assert InjectsAt(s, steps + [x], i, c, irq, k);
  }

  /** In every run of up to 31 injecting threads, every filed result whose zone exists has its interrupt
      listed for the zone's first CPU, or that CPU has injected it since. */
  lemma {:induction false} FiledAreDelivered(s: State, steps: seq<Step>, k: nat, c: nat, irq: nat)
    requires Init(s) && |s.threads| <= 31 && Run(s, steps).Some?
    requires var t := Run(s, steps).value; k < Filed(t) && Raises(t, k, c, irq)
    ensures irq in ListOf(Run(s, steps).value, c) || Injected(s, steps, c, irq, k)
  {
    hide RingInv, Next, Enabled, InjectsAt, Filed, ListOf;
    if steps == [] {
      NoneFiled(s);
    } else {
      var front, x := steps[..|steps| - 1], steps[|steps| - 1];
      assert steps == front + [x];
      var t := Run(s, front).value;
      RunKeepsRing(s, front);
      PushedGrows(t, x);
      if k < Filed(t) {
        FiledPushed(t);
        assert t.pushed[k] == Next(t, x).pushed[k];
        FiledAreDelivered(s, front, k, c, irq);
        DeliveredStill(s, front, x, c, irq, k);
      } else {
        FiledNow(t, x);
      }
    }
  }

  lemma NoneFiled(s: State)
    requires Init(s)
    ensures Filed(s) == 0
  {
  }

  lemma FiledPushed(t: State)
    requires RingInv(t)
    ensures Filed(t) <= |t.pushed|
  {
    hide RingOk, OwnersOk, ThreadsOk;
    WithinRing(t);
    if PastFiling(t) { Draining(t, t.irqLock.value); }
  }

  lemma DeliveredStill(s: State, front: seq<Step>, x: Step, c: nat, irq: nat, k: nat)
    requires Shaped(s) && Run(s, front).Some? && Enabled(Run(s, front).value, x) && k < Filed(Run(s, front).value)
    requires irq in ListOf(Run(s, front).value, c) || Injected(s, front, c, irq, k)
    ensures irq in ListOf(Next(Run(s, front).value, x), c) || Injected(s, front + [x], c, irq, k)
  {
    hide Next, Enabled, Filed, ListOf, Injected;
    if Injected(s, front, c, irq, k) {
      InjectedStill(s, front, x, c, irq, k);
    } else if x == HandleIrq(c) {
      InjectedNow(s, front, c, irq, k);
    } else {
      StaysListed(Run(s, front).value, x, c, irq);
    }
  }

  lemma InjectedNow(s: State, front: seq<Step>, c: nat, irq: nat, k: nat)
    requires Shaped(s) && Run(s, front).Some? && k < Filed(Run(s, front).value) && irq in ListOf(Run(s, front).value, c)
    ensures Injected(s, front + [HandleIrq(c)], c, irq, k)
  {
    hide Run, Filed, ListOf;
    var steps := front + [HandleIrq(c)];
    assert steps[..|front|] == front;
    assert InjectsAt(s, steps, |front|, c, irq, k);
  }

  /** What a step newly files is listed. */
  lemma FiledNow(t: State, x: Step)
    requires Shaped(t) && RingInv(t) && Enabled(t, x)
    ensures Filed(Next(t, x)) > Filed(t) ==>
              && Filed(Next(t, x)) == Filed(t) + 1 && Filed(t) < |t.pushed|
              && var r := t.pushed[Filed(t)]; r.zone in t.zones && r.irq in ListOf(Next(t, x), t.zones[r.zone])
  {
    hide RingInv, Filed, ThreadNext, ListOf;
    if x.ThreadStep? && t.threads[x.thread].DFile? && Head(t).zone in t.zones {
      FilesHead(t, x.thread);
    } else {
      FiledElsewhere(t, x);
    }
  }

  /** Nothing else is ever listed: a listed interrupt is that of a filed result for that CPU. */
  lemma {:induction false} ListedWereFiled(s: State, steps: seq<Step>, c: nat, irq: nat) returns (k: nat)
    requires Init(s) && |s.threads| <= 31 && Run(s, steps).Some? && irq in ListOf(Run(s, steps).value, c)
    ensures var t := Run(s, steps).value; k < Filed(t) && Raises(t, k, c, irq)
  {
    hide RingInv, Next, Enabled, Filed;
    k := 0;
    if steps != [] {
      var front, x := steps[..|steps| - 1], steps[|steps| - 1];
      var t := Run(s, front).value;
      RunKeepsRing(s, front);
      PushedGrows(t, x);
      FiledKept(t, x);
      ListedElsewhere(t, x, c, irq);
      if irq in ListOf(t, c) {
        k := ListedWereFiled(s, front, c, irq);
      } else {
        HeadFiled(t, x);
        k := t.drained;
      }
    }
  }

  lemma FiledKept(t: State, x: Step)
    requires Shaped(t) && RingInv(t) && Enabled(t, x)
    ensures Filed(Next(t, x)) >= Filed(t)
  {
    hide RingInv, Filed, ThreadNext, ListOf;
    if x.ThreadStep? && t.threads[x.thread].DFile? && Head(t).zone in t.zones {
      FilesHead(t, x.thread);
    } else {
      FiledElsewhere(t, x);
    }
  }

  lemma HeadFiled(t: State, x: Step)
    requires Shaped(t) && RingInv(t) && Enabled(t, x)
    requires x.ThreadStep? && t.threads[x.thread].DFile? && Head(t).zone in t.zones
    ensures t.drained < |t.pushed| && Head(t) == t.pushed[t.drained] && Filed(Next(t, x)) == t.drained + 1
  {
    hide RingInv, ThreadNext, Filed;
    FilesHead(t, x.thread);
  }
}
