/** Completion interrupts from the root-Linux daemon to guest CPUs: the 32-slot result ring, the
    draining hypercall, the per-CPU interrupt lists and the event queues
    (hvisor-tool, `tools/virtio.c`; hvisor, `hypercall/mod.rs`, `device/virtio_trampoline.rs`,
    `event.rs`, `device/irqchip/gicv3/mod.rs`; not the loongarch variant).

    An event is queued for a CPU and then announced by a software-generated interrupt (SGI); an SGI
    that is already pending stays one, and each SGI that the CPU takes fetches one event.

    Any number of daemon threads inject; every shared access is one step.  `pushed`, `owners`,
    `drained`, `tenure` and `owed` only record what happened. */
module ResultRing {

  import opened Wrappers
  import opened Arithmetic

  const MAX_REQ := 32
  const MAX_DEVS := 4

  datatype Res = Res(zone: nat, irq: nat)

  datatype Event = Wakeup | Shutdown | InjectIrq | WakeupVirtioDevice | ClearInjectIrq

  /** Where a daemon thread is in `virtio_inject_irq` and the hypercall it makes. */
  datatype Thread =
    | Idle
    | Checking(res: Res)      // about to read the front for the fullness test, outside the mutex
    | Peeking(res: Res, front: nat)    // has read the front, about to compare with the rear
    | Wanting(res: Res)       // seen room, wants RES_MUTEX
    | Writing(res: Res)
    | Advancing(res: Res)
    | Releasing
    | Calling                 // wants VIRTIO_BRIDGE
    | CallingIrq              // wants VIRTIO_IRQS
    | DCheck
    | DFile
    | DSend(cpu: nat)         // about to queue the event
    | DNotify(cpu: nat)       // about to write the SGI register
    | DAdvance
  {
    predicate HoldsMutex() { Writing? || Advancing? || Releasing? }
    predicate HoldsIrqs() { DCheck? || DFile? || DSend? || DNotify? || DAdvance? }
    predicate HoldsBridge() { CallingIrq? || HoldsIrqs() }

    /** Still to push a result. */
    predicate HasResult() { Checking? || Peeking? || Wanting? || Writing? || Advancing? }

    /** Between its push and the end of its own draining hypercall. */
    predicate InFlight() { Releasing? || Calling? || HoldsBridge() }
  }

  /** Where a CPU is: a guest's, about to fetch an event for the SGI it took, or injecting. */
  datatype CpuPc = Running | Taking | Handling

  datatype State = State(
    zones: map<nat, nat>,                          // first CPU of each existing zone
    front: nat, rear: nat, slots: seq<Res>,
    mutex: Option<nat>, bridge: Option<nat>, irqLock: Option<nat>,
    lists: map<nat, seq<nat>>, events: seq<seq<Event>>,
    pending: seq<bool>, notifying: seq<nat>,       // SGIs; other senders about to write the register
    threads: seq<Thread>, cpus: seq<CpuPc>, panicked: bool,
    pushed: seq<Res>, owners: seq<nat>, drained: nat, tenure: nat, owed: set<(nat, nat)>)

  datatype Step =
    | Inject(thread: nat, res: Res)
    | ThreadStep(thread: nat)
    | Take(cpu: nat)
    | Fetch(cpu: nat)
    | HandleIrq(cpu: nat)
    | Other(cpu: nat, event: Event)    // somebody else queues an event
    | OtherSgi(cpu: nat)               // and announces it

  predicate Shaped(s: State) {
    && s.front < MAX_REQ && s.rear < MAX_REQ && |s.slots| == MAX_REQ
        && |s.events| == |s.pending| == |s.notifying| == |s.cpus|
    && (forall z :: z in s.zones ==> s.zones[z] < |s.cpus|)
  }

  predicate ThreadEnabled(s: State, t: nat)
  {
    && t < |s.threads|
    && match s.threads[t]
       case Idle => false
       case Wanting(_) => s.mutex.None?
       case Calling => s.bridge.None?
       case CallingIrq => s.irqLock.None?
       case _ => true
  }

  /** The result at the head of the ring, and the list it would be filed in. */
  function Head(s: State): Res requires Shaped(s) { s.slots[s.front] }

  function ListOf(s: State, c: nat): seq<nat> { if c in s.lists then s.lists[c] else [] }

  predicate Files(s: State)
    requires Shaped(s)
  {
    Head(s).zone in s.zones && Head(s).irq !in ListOf(s, s.zones[Head(s).zone])
  }

  function ThreadAfter(s: State, t: nat): Thread
    requires Shaped(s) && t < |s.threads|
  {
    match s.threads[t]
    case Idle => Idle
    case Checking(res) => Peeking(res, s.front)
    case Peeking(res, front) => if (s.rear + 1) % MAX_REQ == front then Checking(res) else Wanting(res)
    case Wanting(res) => Writing(res)
    case Writing(res) => Advancing(res)
    case Advancing(_) => Releasing
    case Releasing => Calling
    case Calling => CallingIrq
    case CallingIrq => DCheck
    case DCheck => if s.rear == s.front then Idle else DFile
    case DFile =>
      if Head(s).zone !in s.zones then DCheck          // `continue` without advancing
      else if Files(s) then DSend(s.zones[Head(s).zone])
      else DAdvance
    case DSend(c) => DNotify(c)
    case DNotify(_) => DAdvance
    case DAdvance => DCheck
  }

  function ThreadNext(s: State, t: nat): State
    requires Shaped(s) && ThreadEnabled(s, t)
  {
    var p := s.threads[t];
    var done := p.DCheck? && s.rear == s.front;
    var known := p.DFile? && Head(s).zone in s.zones;
    s.(threads := s.threads[t := ThreadAfter(s, t)],
       mutex := if p.Wanting? then Some(t) else if p.Releasing? then None else s.mutex,
       bridge := if p.Calling? then Some(t) else if done then None else s.bridge,
       irqLock := if p.CallingIrq? then Some(t) else if done then None else s.irqLock,
       slots := if p.Writing? then s.slots[s.rear := p.res] else s.slots,
       rear := if p.Advancing? then (s.rear + 1) % MAX_REQ else s.rear,
       pushed := if p.Advancing? then s.pushed + [p.res] else s.pushed,
       owners := if p.Advancing? then s.owners + [t] else s.owners,
       front := if p.DAdvance? then (s.front + 1) % MAX_REQ else s.front,
       drained := if p.DAdvance? then s.drained + 1 else s.drained,
       tenure := if p.Calling? then s.drained else s.tenure,
       lists := if known then
                  var c := s.zones[Head(s).zone];
                  s.lists[c := if Files(s) then ListOf(s, c) + [Head(s).irq] else ListOf(s, c)]
                else s.lists,
       panicked := s.panicked || (known && Files(s) && !(|ListOf(s, s.zones[Head(s).zone])| + 1 < MAX_DEVS)),
       owed := if known then s.owed + {(s.zones[Head(s).zone], Head(s).irq)} else s.owed,
       events := if p.DSend? && p.cpu < |s.events| then s.events[p.cpu := s.events[p.cpu] + [InjectIrq]] else s.events,
       pending := if p.DNotify? && p.cpu < |s.pending| then s.pending[p.cpu := true] else s.pending)
  }

  predicate Enabled(s: State, step: Step)
    requires Shaped(s)
  {
    !s.panicked &&
    match step
    case Inject(t, _) => t < |s.threads| && s.threads[t].Idle?
    case ThreadStep(t) => ThreadEnabled(s, t)
    case Take(c) => c < |s.cpus| && s.cpus[c].Running? && s.pending[c]
    case Fetch(c) => c < |s.cpus| && s.cpus[c].Taking?
    case HandleIrq(c) => c < |s.cpus| && s.cpus[c].Handling? && s.irqLock.None?
    case Other(c, e) => c < |s.cpus| && !e.InjectIrq?
    case OtherSgi(c) => c < |s.cpus| && s.notifying[c] > 0
  }

  function Next(s: State, step: Step): State
    requires Shaped(s) && Enabled(s, step)
  {
    match step
    case Inject(t, res) => s.(threads := s.threads[t := Checking(res)])
    case ThreadStep(t) => ThreadNext(s, t)
    case Take(c) => s.(pending := s.pending[c := false], cpus := s.cpus[c := Taking])
    case Fetch(c) =>
      if s.events[c] == [] then s.(cpus := s.cpus[c := Running])
      else s.(events := s.events[c := s.events[c][1..]],
              cpus := s.cpus[c := if s.events[c][0].InjectIrq? then Handling else Running])
    case HandleIrq(c) =>
      if c !in s.lists then s.(panicked := true)
      else s.(cpus := s.cpus[c := Running], lists := s.lists[c := []],
              owed := set o | o in s.owed && !(o.0 == c && o.1 in s.lists[c]))
    case Other(c, e) =>
      s.(events := s.events[c := s.events[c] + [e]], notifying := s.notifying[c := s.notifying[c] + 1])
    case OtherSgi(c) =>
      s.(pending := s.pending[c := true], notifying := s.notifying[c := s.notifying[c] - 1])
  }

  predicate Init(s: State) {
    && Shaped(s)
    && s.front == s.rear == 0 && s.mutex.None? && s.bridge.None? && s.irqLock.None?
    && s.lists == map[] && !s.panicked
    && (forall t :: 0 <= t < |s.threads| ==> s.threads[t].Idle?)
    && (forall c :: 0 <= c < |s.cpus| ==>
                      s.cpus[c].Running? && s.events[c] == [] && !s.pending[c] && s.notifying[c] == 0)
    && s.pushed == [] && s.owners == [] && s.drained == s.tenure == 0 && s.owed == {}
  }

  // ------------------------------------------------------------------
  // Invariants

  ghost predicate RingOk(front: nat, rear: nat, slots: seq<Res>, pushed: seq<Res>, drained: nat)
  {
    && |slots| == MAX_REQ
    && drained <= |pushed| <= drained + MAX_REQ - 1
    && rear == |pushed| % MAX_REQ && front == drained % MAX_REQ
    && forall k :: drained <= k < |pushed| ==> slots[k % MAX_REQ] == pushed[k]
  }

  /** From which push on the ring is accounted for: the whole tenure of a draining hypercall, if
      there is one. */
  function Since(bridge: Option<nat>, drained: nat, tenure: nat): nat { if bridge.Some? then tenure else drained }

  /** The results pushed since then come from different threads, all still in flight. */
  ghost predicate OwnersOk(threads: seq<Thread>, owners: seq<nat>, since: nat)
  {
    && since <= |owners|
    && (forall k :: since <= k < |owners| ==> owners[k] < |threads| && threads[owners[k]].InFlight())
    && (forall j, k :: since <= j < k < |owners| ==> owners[j] != owners[k])
  }

  ghost predicate LocksOk(s: State)
  {
    forall t: nat :: t < |s.threads| ==> LocksAt(s.threads[t], t, s.mutex, s.bridge, s.irqLock)
  }

  predicate LocksAt(p: Thread, t: nat, mutex: Option<nat>, bridge: Option<nat>, irqLock: Option<nat>) {
    && (p.HoldsMutex() <==> mutex == Some(t))
    && (p.HoldsBridge() <==> bridge == Some(t))
    && (p.HoldsIrqs() <==> irqLock == Some(t))
  }

  ghost predicate LockIdsOk(s: State)
  {
    && (s.mutex.Some? ==> s.mutex.value < |s.threads|)
    && (s.bridge.Some? ==> s.bridge.value < |s.threads|)
    && (s.irqLock.Some? ==> s.irqLock.value < |s.threads|)
  }

  /** A thread about to advance has its result in place; one filing or advancing finds a result. */
  ghost predicate ThreadOk(p: Thread, slots: seq<Res>, pushed: seq<Res>, drained: nat)
    requires |slots| == MAX_REQ
  {
    && (p.Advancing? ==> slots[|pushed| % MAX_REQ] == p.res)
    && (p.DFile? || p.DSend? || p.DNotify? || p.DAdvance? ==> drained < |pushed|)
  }

  ghost predicate ThreadsOk(threads: seq<Thread>, slots: seq<Res>, pushed: seq<Res>, drained: nat)
    requires |slots| == MAX_REQ
  {
    forall t :: 0 <= t < |threads| ==> ThreadOk(threads[t], slots, pushed, drained)
  }

  ghost predicate RingInv(s: State)
  {
    && RingOk(s.front, s.rear, s.slots, s.pushed, s.drained)
    && |s.owners| == |s.pushed| && s.tenure <= s.drained
    && OwnersOk(s.threads, s.owners, Since(s.bridge, s.drained, s.tenure))
    && LocksOk(s) && LockIdsOk(s)
    && ThreadsOk(s.threads, s.slots, s.pushed, s.drained)
  }

  // ------------------------------------------------------------------
  // Occupancy

  /** Different owners in flight: no more results than threads in flight. */
  lemma OccupancyBound(threads: seq<Thread>, owners: seq<nat>, since: nat)
    requires OwnersOk(threads, owners, since)
    ensures |owners| - since <= |set t: nat | t < |threads| && threads[t].InFlight()| <= |threads|
  {
    var flying := set t: nat | t < |threads| && threads[t].InFlight();
    var pushers := set k | since <= k < |owners| :: owners[k];
    DistinctCount(owners, since);
    Within(pushers, flying);
    BelowCount(flying, |threads|);
  }

  lemma Within(a: set<nat>, b: set<nat>)
    requires a <= b
    ensures |a| <= |b|
  {
    assert b == a + (b - a);
  }

  lemma {:induction false} DistinctCount(owners: seq<nat>, since: nat)
    requires since <= |owners| && forall j, k :: since <= j < k < |owners| ==> owners[j] != owners[k]
    ensures |set k | since <= k < |owners| :: owners[k]| == |owners| - since
    decreases |owners| - since
  {
    var all := set k | since <= k < |owners| :: owners[k];
    if since < |owners| {
      var rest := set k | since + 1 <= k < |owners| :: owners[k];
      DistinctCount(owners, since + 1);
      assert all == rest + {owners[since]};
    } else {
      assert all == {};
    }
  }

  lemma {:induction false} BelowCount(a: set<nat>, n: nat)
    requires forall x :: x in a ==> x < n
    ensures |a| <= n
  {
    if n == 0 {
      assert a == {};
    } else {
      BelowCount(a - {n - 1}, n - 1);
      assert a <= a - {n - 1} + {n - 1};
      Within(a, a - {n - 1} + {n - 1});
    }
  }

  /** With another thread still to push, one more result stays within the thread count. */
  lemma RoomForOneMore(threads: seq<Thread>, owners: seq<nat>, since: nat, t: nat)
    requires OwnersOk(threads, owners, since) && t < |threads| && !threads[t].InFlight()
    ensures |owners| - since + 1 <= |threads|
  {
    var flying := set x: nat | x < |threads| && threads[x].InFlight();
    OccupancyBound(threads, owners, since);
    BelowCount(flying + {t}, |threads|);
  }

  // ------------------------------------------------------------------
  // Steps keep the ring

  lemma WriteOk(front: nat, rear: nat, slots: seq<Res>, pushed: seq<Res>, drained: nat, res: Res)
    requires RingOk(front, rear, slots, pushed, drained)
    ensures RingOk(front, rear, slots[rear := res], pushed, drained)
    ensures slots[rear := res][|pushed| % MAX_REQ] == res
  {
    forall k | drained <= k < |pushed| ensures slots[rear := res][k % MAX_REQ] == pushed[k] {
      RemaindersDiffer(k, |pushed|, MAX_REQ);
    }
  }

  lemma PushOk(front: nat, rear: nat, slots: seq<Res>, pushed: seq<Res>, drained: nat, res: Res)
    requires RingOk(front, rear, slots, pushed, drained) && slots[|pushed| % MAX_REQ] == res
    requires |pushed| - drained + 1 <= MAX_REQ - 1
    ensures RingOk(front, (rear + 1) % MAX_REQ, slots, pushed + [res], drained)
  {
    NextRemainder(|pushed|, MAX_REQ);
  }

  lemma DrainOk(front: nat, rear: nat, slots: seq<Res>, pushed: seq<Res>, drained: nat)
    requires RingOk(front, rear, slots, pushed, drained) && drained < |pushed|
    ensures RingOk((front + 1) % MAX_REQ, rear, slots, pushed, drained + 1)
  {
    NextRemainder(drained, MAX_REQ);
  }

  lemma EmptyIffDrained(front: nat, rear: nat, slots: seq<Res>, pushed: seq<Res>, drained: nat)
    requires RingOk(front, rear, slots, pushed, drained)
    ensures rear == front <==> drained == |pushed|
  {
  }

  lemma KeepsRing(s: State, t: nat)
    requires Shaped(s) && RingInv(s) && ThreadEnabled(s, t) && |s.threads| <= MAX_REQ - 1
    ensures var s' := ThreadNext(s, t); RingOk(s'.front, s'.rear, s'.slots, s'.pushed, s'.drained)
  {
    hide RingOk, OwnersOk, LocksOk;
    assert ThreadOk(s.threads[t], s.slots, s.pushed, s.drained);
    match s.threads[t] {
      case Writing(res) => RingIndex(s); WriteOk(s.front, s.rear, s.slots, s.pushed, s.drained, res);
      case Advancing(res) =>
        SinceBelow(s);
        RoomForOneMore(s.threads, s.owners, Since(s.bridge, s.drained, s.tenure), t);
        PushOk(s.front, s.rear, s.slots, s.pushed, s.drained, res);
      case DAdvance => DrainOk(s.front, s.rear, s.slots, s.pushed, s.drained);
      case _ =>
    }
  }

  lemma RingIndex(s: State)
    requires RingOk(s.front, s.rear, s.slots, s.pushed, s.drained)
    ensures s.rear < |s.slots|
  {
  }

  lemma SinceBelow(s: State)
    requires RingInv(s)
    ensures Since(s.bridge, s.drained, s.tenure) <= s.drained
  {
  }

  /** A thread in flight stays so, or nothing is accounted for. */
  lemma OwnersStay(threads: seq<Thread>, owners: seq<nat>, since: nat, t: nat, p: Thread)
    requires OwnersOk(threads, owners, since) && t < |threads|
    requires (threads[t].InFlight() ==> p.InFlight()) || since == |owners|
    ensures OwnersOk(threads[t := p], owners, since)
  {
  }

  lemma OwnersPush(threads: seq<Thread>, owners: seq<nat>, since: nat, t: nat, p: Thread)
    requires OwnersOk(threads, owners, since) && t < |threads| && !threads[t].InFlight() && p.InFlight()
    ensures OwnersOk(threads[t := p], owners + [t], since)
  {
  }

  lemma OwnersLater(threads: seq<Thread>, owners: seq<nat>, since: nat, later: nat)
    requires OwnersOk(threads, owners, since) && since <= later <= |owners|
    ensures OwnersOk(threads, owners, later)
  {
  }

  lemma KeepsOwners(s: State, t: nat)
    requires Shaped(s) && RingInv(s) && ThreadEnabled(s, t)
    ensures var s' := ThreadNext(s, t);
            && |s'.owners| == |s'.pushed| && s'.tenure <= s'.drained
            && OwnersOk(s'.threads, s'.owners, Since(s'.bridge, s'.drained, s'.tenure))
  {
    hide RingOk, OwnersOk, ThreadsOk, LocksAt;
    var p, since := ThreadAfter(s, t), Since(s.bridge, s.drained, s.tenure);
    WithinRing(s);
    HoldsItsLocks(s, t);
    if s.threads[t].Advancing? {
      OwnersPush(s.threads, s.owners, since, t, p);
    } else if s.threads[t].DCheck? && s.rear == s.front {
      EmptyIffDrained(s.front, s.rear, s.slots, s.pushed, s.drained);
      OwnersLater(s.threads, s.owners, since, s.drained);
      OwnersStay(s.threads, s.owners, s.drained, t, p);
    } else {
      OwnersStay(s.threads, s.owners, since, t, p);
    }
  }

  lemma HoldsItsLocks(s: State, t: nat)
    requires LocksOk(s) && t < |s.threads|
    ensures s.threads[t].HoldsBridge() <==> s.bridge == Some(t)
  {
    assert LocksAt(s.threads[t], t, s.mutex, s.bridge, s.irqLock);
  }

  lemma WithinRing(s: State)
    requires RingInv(s)
    ensures s.drained <= |s.pushed|
  {
  }

  lemma KeepsLocks(s: State, t: nat)
    requires Shaped(s) && LocksOk(s) && LockIdsOk(s) && ThreadEnabled(s, t)
    ensures LocksOk(ThreadNext(s, t)) && LockIdsOk(ThreadNext(s, t))
  {
    hide LocksAt;
    var s' := ThreadNext(s, t);
    assert LocksAt(s.threads[t], t, s.mutex, s.bridge, s.irqLock);
    forall u: nat | u < |s'.threads| ensures LocksAt(s'.threads[u], u, s'.mutex, s'.bridge, s'.irqLock) {
      assert LocksAt(s.threads[u], u, s.mutex, s.bridge, s.irqLock);
      LocksMove(s, t, u);
    }
  }

  lemma LocksMove(s: State, t: nat, u: nat)
    requires Shaped(s) && ThreadEnabled(s, t) && u < |s.threads|
    requires LocksAt(s.threads[t], t, s.mutex, s.bridge, s.irqLock)
             && LocksAt(s.threads[u], u, s.mutex, s.bridge, s.irqLock)
    ensures var s' := ThreadNext(s, t); LocksAt(s'.threads[u], u, s'.mutex, s'.bridge, s'.irqLock)
  {
  }

  lemma KeepsLocksInv(s: State, t: nat)
    requires Shaped(s) && RingInv(s) && ThreadEnabled(s, t)
    ensures LocksOk(ThreadNext(s, t)) && LockIdsOk(ThreadNext(s, t))
  {
    hide RingOk, OwnersOk, ThreadsOk;
    KeepsLocks(s, t);
  }

  lemma KeepsThreads(s: State, t: nat)
    requires Shaped(s) && RingInv(s) && ThreadEnabled(s, t)
    ensures var s' := ThreadNext(s, t); ThreadsOk(s'.threads, s'.slots, s'.pushed, s'.drained)
  {
    hide RingOk, OwnersOk;
    var s' := ThreadNext(s, t);
    RingIndex(s);
    if s.threads[t].Writing? { WriteOk(s.front, s.rear, s.slots, s.pushed, s.drained, s.threads[t].res); }
    if s.threads[t].DCheck? { WithinRing(s); EmptyIffDrained(s.front, s.rear, s.slots, s.pushed, s.drained); }
    forall u | 0 <= u < |s'.threads| ensures ThreadOk(s'.threads[u], s'.slots, s'.pushed, s'.drained) {
      assert ThreadOk(s.threads[u], s.slots, s.pushed, s.drained);
    }
  }

  // ------------------------------------------------------------------
  // Interrupt lists and events

  /** The interrupts that the devices `devs` raise on CPU `c`. */
  ghost function Irqs(devs: set<Res>, zones: map<nat, nat>, c: nat): set<nat> {
    set r | r in devs && r.zone in zones && zones[r.zone] == c :: r.irq
  }

  /** At most three distinct interrupts go to any one CPU. */
  ghost predicate FewIrqs(devs: set<Res>, zones: map<nat, nat>) {
    forall c :: |Irqs(devs, zones, c)| <= 3
  }

  ghost predicate NoRepeats(s: seq<nat>) { forall i, j :: 0 <= i < j < |s| ==> s[i] != s[j] }

  ghost predicate ListsOk(lists: map<nat, seq<nat>>, devs: set<Res>, zones: map<nat, nat>)
  {
    forall c :: c in lists ==> NoRepeats(lists[c]) && forall i :: i in lists[c] ==> i in Irqs(devs, zones, c)
  }

  ghost predicate FromDevs(s: State, devs: set<Res>)
  {
    && (forall k :: 0 <= k < |s.pushed| ==> s.pushed[k] in devs)
    && (forall t :: 0 <= t < |s.threads| && s.threads[t].HasResult() ==> s.threads[t].res in devs)
  }

  /** An inject event for `c` is queued, being handled, or about to be sent. */
  ghost predicate Coming(s: State, c: nat)
    requires Shaped(s)
  {
    c < |s.cpus| && (InjectIrq in s.events[c] || s.cpus[c].Handling? || Sending(s.threads, c))
  }

  ghost predicate Sending(threads: seq<Thread>, c: nat) { exists t :: 0 <= t < |threads| && threads[t] == DSend(c) }

  ghost predicate EventsOk(s: State)
    requires Shaped(s)
  {
    && (forall c :: c in s.lists && s.lists[c] != [] ==> Coming(s, c))
    && (forall c :: Coming(s, c) ==> c in s.lists)
    && (forall t :: 0 <= t < |s.threads| && s.threads[t].DSend? ==> s.threads[t].cpu < |s.cpus|)
  }

  /** The interrupts drained and not injected since are exactly the listed ones. */
  ghost predicate OwedOk(lists: map<nat, seq<nat>>, owed: set<(nat, nat)>)
  {
    && (forall o :: o in owed ==> o.0 in lists && o.1 in lists[o.0])
    && (forall c, i :: c in lists && i in lists[c] ==> (c, i) in owed)
  }

  ghost predicate IrqInv(s: State, devs: set<Res>)
  {
    Shaped(s) && FromDevs(s, devs) && ListsOk(s.lists, devs, s.zones) && EventsOk(s) && OwedOk(s.lists, s.owed)
        && !s.panicked
  }

  lemma {:induction false} ListCount(s: seq<nat>, a: set<nat>)
    requires NoRepeats(s) && forall i :: i in s ==> i in a
    ensures |s| <= |a|
  {
    if s != [] {
      var last := s[|s| - 1];
      ListCount(s[..|s| - 1], a - {last});
    }
  }

  lemma RoomInList(list: seq<nat>, irq: nat, a: set<nat>)
    requires NoRepeats(list) && (forall i :: i in list ==> i in a) && irq in a && irq !in list
    ensures NoRepeats(list + [irq]) && |list| + 1 <= |a|
  {
    assert forall i :: i in list + [irq] ==> i in a;
    ListCount(list + [irq], a);
  }

  lemma HeadFromDevs(s: State, t: nat, devs: set<Res>)
    requires Shaped(s) && RingInv(s) && FromDevs(s, devs) && t < |s.threads| && s.threads[t].DFile?
    ensures Head(s) in devs
    ensures Head(s).zone in s.zones ==> Head(s).irq in Irqs(devs, s.zones, s.zones[Head(s).zone])
  {
    assert ThreadOk(s.threads[t], s.slots, s.pushed, s.drained);
    assert Head(s) == s.pushed[s.drained];
  }

  lemma KeepsLists(s: State, t: nat, devs: set<Res>)
    requires Shaped(s) && RingInv(s) && IrqInv(s, devs) && FewIrqs(devs, s.zones) && ThreadEnabled(s, t)
    ensures var s' := ThreadNext(s, t);
            ListsOk(s'.lists, devs, s.zones) && OwedOk(s'.lists, s'.owed) && !s'.panicked
  {
    hide RingInv, EventsOk, FromDevs, Irqs;
    if s.threads[t].DFile? && Head(s).zone in s.zones {
      HeadFromDevs(s, t, devs);
      var c := s.zones[Head(s).zone];
      if Files(s) {
        RoomInList(ListOf(s, c), Head(s).irq, Irqs(devs, s.zones, c));
        assert |Irqs(devs, s.zones, c)| <= 3;
      }
    }
  }

  lemma KeepsFromDevs(s: State, t: nat, devs: set<Res>)
    requires Shaped(s) && FromDevs(s, devs) && ThreadEnabled(s, t)
    ensures FromDevs(ThreadNext(s, t), devs)
  {
  }

  /** Only the thread that sends can stop an event from coming, and then it has come. */
  lemma StillComing(s: State, t: nat, c: nat)
    requires Shaped(s) && ThreadEnabled(s, t) && Coming(s, c)
    ensures Shaped(ThreadNext(s, t)) && Coming(ThreadNext(s, t), c)
  {
    var s' := ThreadNext(s, t);
    if Sending(s.threads, c) && s.threads[t] != DSend(c) {
      var u :| 0 <= u < |s.threads| && s.threads[u] == DSend(c);
      assert s'.threads[u] == DSend(c);
    }
    if s.threads[t] == DSend(c) {
      assert s'.events[c] == s.events[c] + [InjectIrq];
    } else if s.threads[t].DSend? && InjectIrq in s.events[c] {
      assert InjectIrq in s'.events[c];
    }
  }

  /** A step of a thread makes an event come only where it files an interrupt. */
  lemma NewlyComing(s: State, t: nat, c: nat)
    requires Shaped(s) && ThreadEnabled(s, t) && Shaped(ThreadNext(s, t)) && Coming(ThreadNext(s, t), c)
    ensures Coming(s, c) || (s.threads[t].DFile? && Files(s) && c == s.zones[Head(s).zone])
  {
    var s' := ThreadNext(s, t);
    if Sending(s'.threads, c) {
      var u :| 0 <= u < |s'.threads| && s'.threads[u] == DSend(c);
      if u != t { assert s.threads[u] == DSend(c); }
    }
  }

  lemma KeepsEvents(s: State, t: nat, devs: set<Res>)
    requires IrqInv(s, devs) && ThreadEnabled(s, t)
    ensures Shaped(ThreadNext(s, t)) && EventsOk(ThreadNext(s, t))
  {
    hide ListsOk, OwedOk, FromDevs, Coming;
    var s' := ThreadNext(s, t);
    forall c | c in s'.lists && s'.lists[c] != [] ensures Coming(s', c) {
      if c in s.lists && s.lists[c] != [] {
        StillComing(s, t, c);
      } else {
        SendsNow(s, t, c);
      }
    }
    forall c | Coming(s', c) ensures c in s'.lists {
      NewlyComing(s, t, c);
    }
  }

  lemma SendsNow(s: State, t: nat, c: nat)
    requires Shaped(s) && ThreadEnabled(s, t) && Shaped(ThreadNext(s, t))
    requires !(c in s.lists && s.lists[c] != []) && c in ThreadNext(s, t).lists && ThreadNext(s, t).lists[c] != []
    ensures Coming(ThreadNext(s, t), c)
  {
    assert ThreadNext(s, t).threads[t] == DSend(c);
  }

  // ------------------------------------------------------------------
  // Every run

  lemma ThreadKeepsRing(s: State, t: nat)
    requires Shaped(s) && RingInv(s) && ThreadEnabled(s, t) && |s.threads| <= MAX_REQ - 1
    ensures RingInv(ThreadNext(s, t))
  {
    hide RingOk, OwnersOk, LocksOk, ThreadsOk;
    KeepsRing(s, t);
    KeepsOwners(s, t);
    KeepsLocksInv(s, t);
    KeepsThreads(s, t);
  }

  lemma InjectKeepsRing(s: State, t: nat, res: Res)
    requires Shaped(s) && RingInv(s) && Enabled(s, Inject(t, res))
    ensures RingInv(Next(s, Inject(t, res)))
  {
    hide RingOk;
    var s' := Next(s, Inject(t, res));
    forall u | 0 <= u < |s'.threads| ensures ThreadOk(s'.threads[u], s.slots, s.pushed, s.drained) {
      assert ThreadOk(s.threads[u], s.slots, s.pushed, s.drained);
    }
  }

  /** Every step keeps the ring in order, whatever is injected. */
  lemma NextKeepsRing(s: State, step: Step)
    requires Shaped(s) && RingInv(s) && Enabled(s, step) && |s.threads| <= MAX_REQ - 1
    ensures RingInv(Next(s, step))
  {
    hide RingOk, OwnersOk, ThreadsOk, LocksOk, ThreadNext;
    match step {
      case Inject(t, res) => InjectKeepsRing(s, t, res);
      case ThreadStep(t) => ThreadKeepsRing(s, t);
      case _ => CpusKeepRing(s, step);
    }
  }

  lemma CpusKeepRing(s: State, step: Step)
    requires Shaped(s) && RingInv(s) && Enabled(s, step) && !step.Inject? && !step.ThreadStep?
    ensures RingInv(Next(s, step))
  {
    hide RingOk, OwnersOk, ThreadsOk, LocksAt, ThreadNext;
  }

  ghost predicate Inv(s: State, devs: set<Res>) {
    Shaped(s) && RingInv(s) && IrqInv(s, devs)
  }

  lemma ThreadKeepsInv(s: State, t: nat, devs: set<Res>)
    requires Inv(s, devs) && ThreadEnabled(s, t) && FewIrqs(devs, s.zones) && |s.threads| <= MAX_REQ - 1
    ensures Inv(ThreadNext(s, t), devs)
  {
    hide RingInv;
    ThreadKeepsRing(s, t);
    KeepsLists(s, t, devs);
    KeepsFromDevs(s, t, devs);
    KeepsEvents(s, t, devs);
  }

  lemma InjectKeepsInv(s: State, t: nat, res: Res, devs: set<Res>)
    requires Inv(s, devs) && Enabled(s, Inject(t, res)) && res in devs
    ensures Inv(Next(s, Inject(t, res)), devs)
  {
    hide RingInv, ListsOk, OwedOk;
    InjectKeepsRing(s, t, res);
    var s' := Next(s, Inject(t, res));
    forall c ensures Coming(s', c) <==> Coming(s, c) {
      if Sending(s.threads, c) {
        var u :| 0 <= u < |s.threads| && s.threads[u] == DSend(c);
        assert s'.threads[u] == DSend(c);
      }
      if Sending(s'.threads, c) {
        var u :| 0 <= u < |s'.threads| && s'.threads[u] == DSend(c);
        assert s.threads[u] == DSend(c);
      }
    }
  }

  lemma FetchKeepsInv(s: State, c: nat, devs: set<Res>)
    requires Inv(s, devs) && Enabled(s, Fetch(c))
    ensures Inv(Next(s, Fetch(c)), devs)
  {
    hide RingOk, OwnersOk, ThreadsOk, ListsOk, OwedOk;
    var s' := Next(s, Fetch(c));
    if s.events[c] != [] { assert s.events[c] == [s.events[c][0]] + s'.events[c]; }
    forall d ensures Coming(s', d) ==> Coming(s, d) {
    }
    forall d | Coming(s, d) ensures Coming(s', d) || (d == c && s.cpus[c].Handling?) {
      if d == c && InjectIrq in s.events[c] {
        assert InjectIrq == s.events[c][0] || InjectIrq in s'.events[c];
      }
    }
  }

  lemma SgiKeepsInv(s: State, step: Step, devs: set<Res>)
    requires Inv(s, devs) && Enabled(s, step) && (step.Take? || step.OtherSgi?)
    ensures Inv(Next(s, step), devs)
  {
    hide RingOk, OwnersOk, ThreadsOk, ListsOk, OwedOk;
    var s' := Next(s, step);
    forall d ensures Coming(s', d) <==> Coming(s, d) {
    }
  }

  lemma HandleKeepsInv(s: State, c: nat, devs: set<Res>)
    requires Inv(s, devs) && Enabled(s, HandleIrq(c))
    ensures Inv(Next(s, HandleIrq(c)), devs) && c in s.lists
    ensures forall i :: i in s.lists[c] ==> (c, i) !in Next(s, HandleIrq(c)).owed
    ensures ListOf(Next(s, HandleIrq(c)), c) == [] && Next(s, HandleIrq(c)).cpus == s.cpus[c := Running]
  {
    hide RingOk, OwnersOk, ThreadsOk;
    assert Coming(s, c);
    var s' := Next(s, HandleIrq(c));
    forall d ensures d != c ==> (Coming(s', d) <==> Coming(s, d)) {
    }
  }

  lemma OtherKeepsInv(s: State, c: nat, e: Event, devs: set<Res>)
    requires Inv(s, devs) && Enabled(s, Other(c, e))
    ensures Inv(Next(s, Other(c, e)), devs)
  {
    hide RingOk, OwnersOk, ThreadsOk, ListsOk, OwedOk;
    var s' := Next(s, Other(c, e));
    forall d ensures Coming(s', d) <==> Coming(s, d) {
    }
  }

  lemma NextKeepsInv(s: State, step: Step, devs: set<Res>)
    requires Inv(s, devs) && Enabled(s, step) && FewIrqs(devs, s.zones) && |s.threads| <= MAX_REQ - 1
    requires step.Inject? ==> step.res in devs
    ensures Inv(Next(s, step), devs)
  {
    hide Inv, FewIrqs;
    match step {
      case Inject(t, res) => InjectKeepsInv(s, t, res, devs);
      case ThreadStep(t) => ThreadKeepsInv(s, t, devs);
      case Fetch(c) => FetchKeepsInv(s, c, devs);
      case HandleIrq(c) => HandleKeepsInv(s, c, devs);
      case Other(c, e) => OtherKeepsInv(s, c, e, devs);
      case _ => SgiKeepsInv(s, step, devs);
    }
  }

  lemma NextShaped(s: State, step: Step)
    requires Shaped(s) && Enabled(s, step)
    ensures var s' := Next(s, step);
            Shaped(s') && s'.zones == s.zones && |s'.threads| == |s.threads| && |s'.cpus| == |s.cpus|
  {
  }

  /** The state after a sequence of steps, if each was possible when its turn came. */
  function Run(s: State, steps: seq<Step>): (r: Option<State>)
    requires Shaped(s)
    ensures r.Some? ==> Shaped(r.value)
  {
    if steps == [] then Some(s)
    else
      match Run(s, steps[..|steps| - 1])
      case None => None
      case Some(t) =>
        var last := steps[|steps| - 1];
        if Enabled(t, last) then NextShaped(t, last); Some(Next(t, last)) else None
  }

  predicate InjectsFrom(steps: seq<Step>, devs: set<Res>) {
    forall i :: 0 <= i < |steps| && steps[i].Inject? ==> steps[i].res in devs
  }

  lemma {:induction false} RunKeepsInv(s: State, steps: seq<Step>, devs: set<Res>)
    requires Init(s) && Run(s, steps).Some? && InjectsFrom(steps, devs) && FewIrqs(devs, s.zones)
             && |s.threads| <= MAX_REQ - 1
    ensures var t := Run(s, steps).value; Inv(t, devs) && t.zones == s.zones && |t.threads| == |s.threads|
  {
    hide FewIrqs;
    if steps != [] {
      var front, last := steps[..|steps| - 1], steps[|steps| - 1];
      RunKeepsInv(s, front, devs);
      NextShaped(Run(s, front).value, last);
      NextKeepsInv(Run(s, front).value, last, devs);
    }
  }

  lemma {:induction false} RunKeepsRing(s: State, steps: seq<Step>)
    requires Init(s) && Run(s, steps).Some? && |s.threads| <= MAX_REQ - 1
    ensures var t := Run(s, steps).value; RingInv(t) && t.zones == s.zones && |t.threads| == |s.threads|
  {
    if steps != [] {
      hide RingInv;
      var front, last := steps[..|steps| - 1], steps[|steps| - 1];
      RunKeepsRing(s, front);
      NextShaped(Run(s, front).value, last);
      NextKeepsRing(Run(s, front).value, last);
    }
  }

  /** With at most 31 injecting threads the ring never overflows, though the fullness test is made
      outside the mutex: it holds no more results than there are threads between their push and the
      end of their own hypercall, and one hypercall drains no more than one result per thread. */
  lemma OccupancyAndDrain(s: State, steps: seq<Step>)
    requires Init(s) && Run(s, steps).Some? && |s.threads| <= 31
    ensures var t := Run(s, steps).value;
            var flying := set x: nat | x < |t.threads| && t.threads[x].InFlight();
            && |t.pushed| - t.drained <= |flying| <= |s.threads|
            && (t.rear == t.front <==> t.drained == |t.pushed|)
            && (t.bridge.Some? ==> t.drained - t.tenure <= |flying|)
  {
    RunKeepsRing(s, steps);
    var t := Run(s, steps).value;
    OccupancyBound(t.threads, t.owners, Since(t.bridge, t.drained, t.tenure));
    EmptyIffDrained(t.front, t.rear, t.slots, t.pushed, t.drained);
  }

  /** No completion interrupt is lost: the lists never overflow and hold no duplicates, exactly the
      interrupts drained and not injected since are listed, and a non-empty list has an inject event
      coming to its CPU. */
  lemma NoLostInterrupt(s: State, steps: seq<Step>, devs: set<Res>)
    requires Init(s) && Run(s, steps).Some? && InjectsFrom(steps, devs) && FewIrqs(devs, s.zones)
             && |s.threads| <= MAX_REQ - 1
    ensures var t := Run(s, steps).value;
            && !t.panicked
            && (forall c :: c in t.lists ==> NoRepeats(t.lists[c]) && |t.lists[c]| <= 3)
            && (forall c, i :: (c, i) in t.owed <==> c in t.lists && i in t.lists[c])
            && (forall c, i :: (c, i) in t.owed ==> Coming(t, c))
  {
    RunKeepsInv(s, steps, devs);
    var t := Run(s, steps).value;
    forall c | c in t.lists ensures |t.lists[c]| <= 3 {
      ListCount(t.lists[c], Irqs(devs, t.zones, c));
      assert |Irqs(devs, s.zones, c)| <= 3;
    }
  }

  /** A thread that looks at the rear while the front is still what it read sees a full ring exactly when
      31 results are in it. */
  lemma FullExactly(s: State, steps: seq<Step>, d: nat)
    requires Init(s) && Run(s, steps).Some? && |s.threads| <= 31
    requires var t := Run(s, steps).value;
             d < |t.threads| && t.threads[d].Peeking? && t.threads[d].front == t.front
    ensures var t := Run(s, steps).value;
            && ThreadAfter(t, d) == (if |t.pushed| - t.drained == 31 then Checking(t.threads[d].res)
                                     else Wanting(t.threads[d].res))
  {
    hide Run, OwnersOk, LocksOk, ThreadsOk;
    RunKeepsRing(s, steps);
    var t := Run(s, steps).value;
    NextRemainder(|t.pushed|, MAX_REQ);
    if |t.pushed| - t.drained == 31 {
      AddMultiple(t.drained, 1, MAX_REQ);
    } else {
      RemaindersDiffer(t.drained, |t.pushed| + 1, MAX_REQ);
    }
  }

  /** No deadlock among the injecting threads: when none can go on, all are idle, the locks are free and
      every result has been drained. */
  lemma RestMeansDrained(s: State, steps: seq<Step>)
    requires Init(s) && Run(s, steps).Some? && |s.threads| <= 31
    requires forall d: nat :: d < |Run(s, steps).value.threads| ==> !ThreadEnabled(Run(s, steps).value, d)
    ensures var t := Run(s, steps).value;
            && (forall d: nat :: d < |t.threads| ==> t.threads[d].Idle?) && t.drained == |t.pushed|
            && t.mutex.None? && t.bridge.None? && t.irqLock.None?
  {
    hide Run, RingOk, ThreadsOk, LocksAt;
    RunKeepsRing(s, steps);
    var t := Run(s, steps).value;
    LocksFree(t);
    WithinRing(t);
    if t.drained < |t.pushed| { UndrainedIsInFlight(t); }
    forall d: nat | d < |t.threads| ensures t.threads[d].Idle? { assert !ThreadEnabled(t, d); }
  }

  lemma UndrainedIsInFlight(t: State)
    requires RingInv(t) && t.bridge.None? && t.drained < |t.pushed|
    ensures exists d: nat :: d < |t.threads| && t.threads[d].InFlight()
  {
    assert t.threads[t.owners[t.drained]].InFlight();
  }

  lemma LocksFree(t: State)
    requires LocksOk(t) && LockIdsOk(t) && forall d: nat :: d < |t.threads| ==> !ThreadEnabled(t, d)
    ensures t.mutex.None? && t.bridge.None? && t.irqLock.None?
  {
    forall d: nat | d < |t.threads|
      ensures t.irqLock != Some(d) && t.mutex != Some(d) && (t.irqLock.None? ==> t.bridge != Some(d))
    {
      assert LocksAt(t.threads[d], d, t.mutex, t.bridge, t.irqLock) && !ThreadEnabled(t, d);
    }
  }

  // ------------------------------------------------------------------
  // A drain ends, exactly when the zones exist

  function Rank(p: Thread): nat {
    match p case DCheck => 4 case DFile => 3 case DSend(_) => 2 case DNotify(_) => 1 case _ => 0
  }

  /** An upper bound on the steps left to the thread `d` in its drain. */
  function Left(s: State, d: nat): int
    requires d < |s.threads|
  {
    5 * (|s.threads| - (s.drained - s.tenure)) + Rank(s.threads[d])
  }

  predicate Drains(s: State, d: nat) { d < |s.threads| && s.threads[d].HoldsIrqs() }

  lemma LeftBounds(s: State, d: nat)
    requires RingInv(s) && Drains(s, d)
    ensures 0 <= Left(s, d) <= 5 * |s.threads| + 4
  {
    hide RingOk;
    WithinRing(s);
    OccupancyBound(s.threads, s.owners, Since(s.bridge, s.drained, s.tenure));
  }

  /** A step of the draining thread ends the drain or brings it nearer to its end. */
  lemma DrainAdvances(s: State, d: nat)
    requires Shaped(s) && Drains(s, d) && (s.threads[d].DFile? ==> Head(s).zone in s.zones)
    ensures ThreadEnabled(s, d)
    ensures var s' := ThreadNext(s, d); s'.threads[d].Idle? || (Drains(s', d) && Left(s', d) < Left(s, d))
  {
  }

  /** Steps of anybody else leave it where it is. */
  lemma DrainUndisturbed(s: State, step: Step, d: nat)
    requires Shaped(s) && RingInv(s) && Drains(s, d) && Enabled(s, step) && step != ThreadStep(d)
    ensures var s' := Next(s, step); Drains(s', d) && Left(s', d) == Left(s, d)
  {
    hide RingOk, OwnersOk, ThreadsOk;
    assert s.bridge == Some(d) == s.irqLock;
  }

  /** How many of the steps are thread `d`'s. */
  function OwnSteps(steps: seq<Step>, d: nat): nat {
    if steps == [] then 0
    else OwnSteps(steps[..|steps| - 1], d) + if steps[|steps| - 1] == ThreadStep(d) then 1 else 0
  }

  /** After `steps`, thread `d` is draining and goes on draining all through `more`. */
  ghost predicate DrainsThrough(s: State, steps: seq<Step>, more: seq<Step>, d: nat)
    requires Shaped(s)
  {
    forall k :: 0 <= k <= |more| ==> var r := Run(s, steps + more[..k]); r.Some? && Drains(r.value, d)
  }

  lemma {:induction false} RunFromDevs(s: State, steps: seq<Step>, devs: set<Res>)
    requires Init(s) && Run(s, steps).Some? && InjectsFrom(steps, devs)
    ensures FromDevs(Run(s, steps).value, devs) && Run(s, steps).value.zones == s.zones
  {
    if steps != [] {
      var front, last := steps[..|steps| - 1], steps[|steps| - 1];
      RunFromDevs(s, front, devs);
      var t := Run(s, front).value;
      NextShaped(t, last);
      if last.ThreadStep? { KeepsFromDevs(t, last.thread, devs); }
    }
  }

  lemma DrainStep(t: State, x: Step, d: nat, devs: set<Res>)
    requires Shaped(t) && RingInv(t) && FromDevs(t, devs) && forall r :: r in devs ==> r.zone in t.zones
    requires Drains(t, d) && Enabled(t, x) && Drains(Next(t, x), d)
    ensures Left(Next(t, x), d) + (if x == ThreadStep(d) then 1 else 0) <= Left(t, d)
  {
    hide RingInv, FromDevs;
    if x == ThreadStep(d) {
      if t.threads[d].DFile? { HeadFromDevs(t, d, devs); }
      DrainAdvances(t, d);
    } else {
      DrainUndisturbed(t, x, d);
    }
  }

  lemma DrainsShorter(s: State, steps: seq<Step>, more: seq<Step>, d: nat)
    requires Shaped(s) && DrainsThrough(s, steps, more, d)
    ensures Run(s, steps).Some? && Drains(Run(s, steps).value, d)
    ensures Run(s, steps + more).Some? && Drains(Run(s, steps + more).value, d)
    ensures more != [] ==> DrainsThrough(s, steps, more[..|more| - 1], d)
  {
    hide Run, Drains;
    assert steps + more[..0] == steps && more[..|more|] == more;
    if more != [] {
      var front := more[..|more| - 1];
      assert forall k :: 0 <= k <= |front| ==> front[..k] == more[..k];
    }
  }

  lemma LastStep(s: State, steps: seq<Step>, more: seq<Step>)
    requires Shaped(s) && more != [] && Run(s, steps + more).Some?
    ensures var r, x := Run(s, steps + more[..|more| - 1]), more[|more| - 1];
            r.Some? && Enabled(r.value, x) && Run(s, steps + more) == Some(Next(r.value, x))
  {
    assert (steps + more)[..|steps + more| - 1] == steps + more[..|more| - 1];
  }

  lemma {:induction false} DrainProgress(s: State, steps: seq<Step>, more: seq<Step>, d: nat, devs: set<Res>)
    requires Init(s) && |s.threads| <= MAX_REQ - 1 && DrainsThrough(s, steps, more, d)
    requires InjectsFrom(steps + more, devs) && forall r :: r in devs ==> r.zone in s.zones
    ensures Run(s, steps).Some? && Drains(Run(s, steps).value, d)
    ensures Run(s, steps + more).Some? && Drains(Run(s, steps + more).value, d)
    ensures Left(Run(s, steps + more).value, d) + OwnSteps(more, d) <= Left(Run(s, steps).value, d)
    decreases |more|
  {
    hide RingInv, FromDevs, Run, Next, Enabled, Left, Drains, DrainsThrough;
    DrainsShorter(s, steps, more, d);
    if more == [] {
      assert steps + more == steps;
    } else {
      var front, last := more[..|more| - 1], more[|more| - 1];
      LastStep(s, steps, more);
      assert forall i :: 0 <= i < |steps + front| ==> (steps + front)[i] == (steps + more)[i];
      DrainProgress(s, steps, front, d, devs);
      RunKeepsRing(s, steps + front);
      RunFromDevs(s, steps + front, devs);
      DrainStep(Run(s, steps + front).value, last, d, devs);
    }
  }

  /** When the target zones exist, a drain takes at most five steps per thread, and four more. */
  lemma DrainEnds(s: State, steps: seq<Step>, more: seq<Step>, d: nat, devs: set<Res>)
    requires Init(s) && |s.threads| <= 31 && DrainsThrough(s, steps, more, d)
    requires InjectsFrom(steps + more, devs) && forall r :: r in devs ==> r.zone in s.zones
    ensures OwnSteps(more, d) <= 5 * |s.threads| + 4
  {
    hide RingInv;
    DrainProgress(s, steps, more, d, devs);
    RunKeepsRing(s, steps);
    RunKeepsRing(s, steps + more);
    LeftBounds(Run(s, steps).value, d);
    LeftBounds(Run(s, steps + more).value, d);
  }

  /** A result for a zone that does not exist is never passed over: the drain comes back to the same
      state, locks held. */
  lemma MissingZoneSpins(s: State, d: nat)
    requires Shaped(s) && d < |s.threads| && s.threads[d].DFile? && Head(s).zone !in s.zones && s.rear != s.front
    ensures ThreadNext(s, d) == s.(threads := s.threads[d := DCheck])
    ensures ThreadNext(ThreadNext(s, d), d) == s
  {
    assert s.threads[d := DCheck][d := DFile] == s.threads;
  }

  /** Nobody holds a lock, the ring is empty and thread `d` is idle. */
  predicate Quiet(t: State, d: nat) {
    && Shaped(t) && d < |t.threads| && t.threads[d].Idle? && !t.panicked
    && t.mutex.None? && t.bridge.None? && t.irqLock.None? && t.front == t.rear
  }

  /** Nobody else sends events. */
  predicate NoOthers(steps: seq<Step>) { forall i :: 0 <= i < |steps| ==> !steps[i].Other? }

  /** `t` is reached by `steps`, which inject results of `devs` only. */
  ghost predicate Reached(s: State, steps: seq<Step>, t: State, devs: set<Res>) {
    Shaped(s) && Shaped(t) && Run(s, steps) == Some(t) && InjectsFrom(steps, devs) && NoOthers(steps)
  }

  lemma Go(s: State, steps: seq<Step>, t: State, devs: set<Res>, x: Step)
    requires Reached(s, steps, t, devs) && Enabled(t, x) && (x.Inject? ==> x.res in devs) && !x.Other?
    ensures Reached(s, steps + [x], Next(t, x), devs)
  {
    hide Next;
    Extend(s, steps, t, x);
  }

  lemma PassTheTest(s: State, before: seq<Step>, t: State, devs: set<Res>, d: nat, res: Res)
      returns (steps: seq<Step>, t': State)
    requires Reached(s, before, t, devs) && Quiet(t, d) && res in devs
    ensures Reached(s, steps, t', devs) && t' == t.(threads := t.threads[d := Wanting(res)])
  {
    hide Reached;
    ReachedShaped(s, before, t, devs);
    var c := ThreadStep(d);
    Go(s, before, t, devs, Inject(d, res));
    var t1 := Next(t, Inject(d, res));
    ReachedShaped(s, before + [Inject(d, res)], t1, devs);
    Go(s, before + [Inject(d, res)], t1, devs, c);
    var t2 := Next(t1, c);
    ReachedShaped(s, before + [Inject(d, res)] + [c], t2, devs);
    Go(s, before + [Inject(d, res)] + [c], t2, devs, c);
    steps, t' := before + [Inject(d, res)] + [c] + [c], Next(t2, c);
    assert t'.threads == t.threads[d := Wanting(res)];
  }

  lemma ReachedShaped(s: State, steps: seq<Step>, t: State, devs: set<Res>)
    requires Reached(s, steps, t, devs)
    ensures Shaped(s) && Shaped(t)
  {
  }

  lemma EnterDrain(s: State, before: seq<Step>, t: State, devs: set<Res>, d: nat) returns (steps: seq<Step>, t': State)
    requires Reached(s, before, t, devs) && d < |t.threads| && t.threads[d].Calling? && !t.panicked
    requires t.bridge.None? && t.irqLock.None? && t.rear != t.front
    ensures Reached(s, steps, t', devs)
    ensures t' == t.(threads := t.threads[d := DFile], bridge := Some(d), irqLock := Some(d), tenure := t.drained)
  {
    hide Reached;
    ReachedShaped(s, before, t, devs);
    var c := ThreadStep(d);
    Go(s, before, t, devs, c);
    var t1 := t.(threads := t.threads[d := CallingIrq], bridge := Some(d), tenure := t.drained);
    Go(s, before + [c], t1, devs, c);
    var t2 := t1.(threads := t.threads[d := DCheck], irqLock := Some(d));
    assert t1.threads[d := DCheck] == t2.threads;
    assert Next(t1, c) == t2;
    Go(s, before + [c] + [c], t2, devs, c);
    steps, t' := before + [c] + [c] + [c], Next(t2, c);
    assert t'.threads == t.threads[d := DFile];
  }

  /** One thread alone injects `res` and gets as far as filing it. */
  lemma ToFiling(s: State, before: seq<Step>, t: State, devs: set<Res>, d: nat, res: Res)
      returns (steps: seq<Step>, t': State)
    requires Reached(s, before, t, devs) && Quiet(t, d) && res in devs
    ensures Reached(s, steps, t', devs) && !t'.panicked
    ensures Drains(t', d) && t'.threads[d].DFile? && Head(t') == res && t'.rear == (t'.front + 1) % MAX_REQ
    ensures t'.zones == t.zones && t'.lists == t.lists && t'.mutex.None? && SameCpus(t, t')
    ensures t'.threads == t.threads[d := DFile]
  {
    hide Reached, Next, Enabled;
    var s1, t1 := PassTheTest(s, before, t, devs, d, res);
    var s2, t2 := PushReached(s, s1, t1, devs, d);
    steps, t' := EnterDrain(s, s2, t2, devs, d);
    ReachedShaped(s, steps, t', devs);
  }

  /** Nothing has happened to the CPUs, their events and SGIs. */
  predicate SameCpus(t: State, t': State) {
    t'.cpus == t.cpus && t'.events == t.events && t'.pending == t.pending && t'.notifying == t.notifying
  }

  lemma PushReached(s: State, before: seq<Step>, t: State, devs: set<Res>, d: nat) returns (steps: seq<Step>, t': State)
    requires Reached(s, before, t, devs) && !t.panicked
    requires d < |t.threads| && t.threads[d].Wanting? && t.mutex.None?
    ensures Reached(s, steps, t', devs) && t' == HasPushed(t, d, t.threads[d].res)
  {
    hide Run;
    steps, t' := PushUndisturbed(s, before, t, d);
  }

  function Repeat(x: Step, n: nat): (r: seq<Step>)
    ensures |r| == n && forall i :: 0 <= i < n ==> r[i] == x
  {
    seq(n, _ => x)
  }

  /** The spinning drain, `k` steps on. */
  function Spun(t: State, d: nat, k: nat): State
    requires d < |t.threads|
  {
    if k % 2 == 0 then t else t.(threads := t.threads[d := DCheck])
  }

  lemma {:induction false} SpinOn(s: State, steps: seq<Step>, t: State, devs: set<Res>, d: nat, k: nat)
    requires Reached(s, steps, t, devs) && !t.panicked && d < |t.threads| && t.threads[d].DFile?
    requires Head(t).zone !in t.zones && t.rear != t.front
    ensures Reached(s, steps + Repeat(ThreadStep(d), k), Spun(t, d, k), devs) && Drains(Spun(t, d, k), d)
    ensures OwnSteps(Repeat(ThreadStep(d), k), d) == k
  {
    hide Reached, Next;
    var x := ThreadStep(d);
    if k == 0 {
      assert steps + Repeat(x, 0) == steps;
    } else {
      SpinOn(s, steps, t, devs, d, k - 1);
      ReachedShaped(s, steps, t, devs);
      var u := Spun(t, d, k - 1);
      ReachedShaped(s, steps + Repeat(x, k - 1), u, devs);
      SpinStep(t, d, k);
      Go(s, steps + Repeat(x, k - 1), u, devs, x);
      assert steps + Repeat(x, k) == steps + Repeat(x, k - 1) + [x];
      assert Repeat(x, k)[..k - 1] == Repeat(x, k - 1);
    }
  }

  lemma SpinStep(t: State, d: nat, k: nat)
    requires Shaped(t) && !t.panicked && d < |t.threads| && t.threads[d].DFile? && k > 0
    requires Head(t).zone !in t.zones && t.rear != t.front
    ensures var u := Spun(t, d, k - 1);
            Shaped(u) && Enabled(u, ThreadStep(d)) && Next(u, ThreadStep(d)) == Spun(t, d, k)
  {
    hide ThreadNext;
    MissingZoneSpins(t, d);
  }

  /** With a missing zone, a drain can take any number of steps and still hold both locks. */
  lemma DrainNeverEnds(s: State, d: nat, res: Res, n: nat) returns (steps: seq<Step>, more: seq<Step>)
    requires Init(s) && d < |s.threads| && res.zone !in s.zones
    ensures InjectsFrom(steps + more, {res}) && DrainsThrough(s, steps, more, d) && OwnSteps(more, d) == n
  {
    hide Run, Next, Spun;
    NoSteps(s);
    InitQuiet(s, d);
    var t;
    steps, t := ToFiling(s, [], s, {res}, d, res);
    more := Repeat(ThreadStep(d), n);
    forall k | 0 <= k <= n ensures var r := Run(s, steps + more[..k]); r.Some? && Drains(r.value, d) {
      SpinOn(s, steps, t, {res}, d, k);
      assert more[..k] == Repeat(ThreadStep(d), k);
    }
    SpinOn(s, steps, t, {res}, d, n);
  }

  /** No drain takes more than `bound` steps of its thread, when results come from `devs`. */
  ghost predicate DrainsBounded(s: State, devs: set<Res>, bound: nat)
    requires Shaped(s)
  {
    forall steps, more, d :: InjectsFrom(steps + more, devs) && DrainsThrough(s, steps, more, d) ==>
                               OwnSteps(more, d) <= bound
  }

  /** There is a bound on every drain if and only if every device's zone exists. */
  lemma DrainsEndExactly(s: State, devs: set<Res>)
    requires Init(s) && 0 < |s.threads| <= 31
    ensures (exists bound :: DrainsBounded(s, devs, bound)) <==> forall r :: r in devs ==> r.zone in s.zones
  {
    hide Run, DrainsThrough;
    if forall r :: r in devs ==> r.zone in s.zones {
      forall steps, more, d | InjectsFrom(steps + more, devs) && DrainsThrough(s, steps, more, d)
        ensures OwnSteps(more, d) <= 5 * |s.threads| + 4
      {
        DrainEnds(s, steps, more, d, devs);
      }
      assert DrainsBounded(s, devs, 5 * |s.threads| + 4);
    } else {
      var r :| r in devs && r.zone !in s.zones;
      forall bound: nat ensures !DrainsBounded(s, devs, bound) {
        var steps, more := DrainNeverEnds(s, 0, r, bound + 1);
        assert InjectsFrom(steps + more, devs);
      }
    }
  }

  // ------------------------------------------------------------------
  // The interrupt lists overflow exactly with a fourth interrupt for one CPU

  /** The filed interrupt is sent, the result passed over and the hypercall left. */
  lemma FileAndLeave(s: State, before: seq<Step>, t: State, devs: set<Res>, d: nat)
      returns (steps: seq<Step>, t': State)
    requires Reached(s, before, t, devs) && !t.panicked && Drains(t, d) && t.threads[d].DFile? && t.mutex.None?
    requires t.rear == (t.front + 1) % MAX_REQ && Files(t) && |ListOf(t, t.zones[Head(t).zone])| + 1 < MAX_DEVS
    ensures Reached(s, steps, t', devs) && Quiet(t', d) && t'.zones == t.zones
    ensures var c := t.zones[Head(t).zone];
            && t'.lists == t.lists[c := ListOf(t, c) + [Head(t).irq]] && t'.threads == t.threads[d := Idle]
            && t'.events == t.events[c := t.events[c] + [InjectIrq]] && t'.pending == t.pending[c := true]
            && t'.cpus == t.cpus && t'.notifying == t.notifying
  {
    hide Reached, Next, Enabled, Quiet;
    ReachedShaped(s, before, t, devs);
    var x, c := ThreadStep(d), t.zones[Head(t).zone];
    FilesIrq(t, d);
    Go(s, before, t, devs, x);
    var t1 := Next(t, x);
    SendsEvent(t1, d, c);
    Go(s, before + [x], t1, devs, x);
    Go(s, before + [x] + [x], Next(t1, x), devs, x);
    var t3 := Next(Next(t1, x), x);
    assert t3.threads == t.threads[d := DAdvance];
    steps, t' := LeaveDrain(s, before + [x] + [x] + [x], t3, devs, d);
  }

  lemma FilesIrq(t: State, d: nat)
    requires Shaped(t) && !t.panicked && d < |t.threads| && t.threads[d].DFile? && Files(t)
    requires |ListOf(t, t.zones[Head(t).zone])| + 1 < MAX_DEVS
    ensures Enabled(t, ThreadStep(d))
    ensures var c := t.zones[Head(t).zone];
            Next(t, ThreadStep(d)) == t.(threads := t.threads[d := DSend(c)],
                                         lists := t.lists[c := ListOf(t, c) + [Head(t).irq]],
                                         owed := t.owed + {(c, Head(t).irq)})
  {
  }

  lemma SendsEvent(t: State, d: nat, c: nat)
    requires Shaped(t) && !t.panicked && d < |t.threads| && t.threads[d] == DSend(c) && c < |t.cpus|
    ensures var x := ThreadStep(d);
            var t1 := t.(threads := t.threads[d := DNotify(c)], events := t.events[c := t.events[c] + [InjectIrq]]);
            && Enabled(t, x) && Next(t, x) == t1 && Shaped(t1) && Enabled(t1, x)
            && Next(t1, x) == t1.(threads := t1.threads[d := DAdvance], pending := t.pending[c := true])
  {
  }

  lemma LeaveDrain(s: State, before: seq<Step>, t: State, devs: set<Res>, d: nat) returns (steps: seq<Step>, t': State)
    requires Reached(s, before, t, devs) && !t.panicked && d < |t.threads| && t.threads[d].DAdvance? && t.mutex.None?
    requires t.rear == (t.front + 1) % MAX_REQ
    ensures Reached(s, steps, t', devs) && Quiet(t', d) && t'.zones == t.zones && t'.lists == t.lists
    ensures SameCpus(t, t') && t'.threads == t.threads[d := Idle]
  {
    hide Reached;
    ReachedShaped(s, before, t, devs);
    var x := ThreadStep(d);
    Go(s, before, t, devs, x);
    var t1 := Next(t, x);
    ReachedShaped(s, before + [x], t1, devs);
    Go(s, before + [x], t1, devs, x);
    steps, t' := before + [x] + [x], Next(t1, x);
    ReachedShaped(s, steps, t', devs);
  }

  /** One more distinct interrupt for CPU `c`, injected and drained by thread `d` alone. */
  lemma Deliver(s: State, before: seq<Step>, t: State, devs: set<Res>, d: nat, res: Res)
      returns (steps: seq<Step>, t': State)
    requires Reached(s, before, t, devs) && Quiet(t, d) && res in devs && res.zone in t.zones
    requires var l := ListOf(t, t.zones[res.zone]); res.irq !in l && |l| + 1 < MAX_DEVS
    ensures Reached(s, steps, t', devs) && Quiet(t', d) && t'.zones == t.zones
    ensures var c := t.zones[res.zone]; ListOf(t', c) == ListOf(t, c) + [res.irq]
  {
    hide Reached, Next, Enabled, Quiet;
    var s1, t1 := ToFiling(s, before, t, devs, d, res);
    ReachedShaped(s, s1, t1, devs);
    steps, t' := FileAndLeave(s, s1, t1, devs, d);
  }

  lemma {:induction false} PickFrom(a: set<nat>, n: nat) returns (l: seq<nat>)
    requires n <= |a|
    ensures |l| == n && NoRepeats(l) && forall i :: i in l ==> i in a
  {
    if n == 0 {
      l := [];
    } else {
      var x :| x in a;
      var rest := PickFrom(a - {x}, n - 1);
      l := [x] + rest;
    }
  }

  /** With `devs` injecting, some run panics if and only if more than three distinct interrupts go to
      one CPU. */
  lemma PanicsExactly(s: State, devs: set<Res>)
    requires Init(s) && 0 < |s.threads| <= 31
    ensures (exists steps :: InjectsFrom(steps, devs) && Run(s, steps).Some? && Run(s, steps).value.panicked)
            <==> !FewIrqs(devs, s.zones)
  {
    hide Run;
    if FewIrqs(devs, s.zones) {
      forall steps | InjectsFrom(steps, devs) && Run(s, steps).Some? ensures !Run(s, steps).value.panicked {
        NoLostInterrupt(s, steps, devs);
      }
    } else {
      var c :| |Irqs(devs, s.zones, c)| >= 4;
      var irqs := PickFrom(Irqs(devs, s.zones, c), 4);
      var rs := DevicesOf(devs, s.zones, c, irqs);
      var steps := FourthIrqPanics(s, 0, rs, devs);
    }
  }

  lemma {:induction false} DevicesOf(devs: set<Res>, zones: map<nat, nat>, c: nat, irqs: seq<nat>)
      returns (rs: seq<Res>)
    requires forall i :: i in irqs ==> i in Irqs(devs, zones, c)
    ensures |rs| == |irqs|
    ensures forall i :: 0 <= i < |rs| ==>
              rs[i] in devs && rs[i].zone in zones && zones[rs[i].zone] == c && rs[i].irq == irqs[i]
  {
    rs := [];
    while |rs| < |irqs|
      invariant |rs| <= |irqs|
      invariant forall i :: 0 <= i < |rs| ==>
                  rs[i] in devs && rs[i].zone in zones && zones[rs[i].zone] == c && rs[i].irq == irqs[i]
    {
      assert irqs[|rs|] in irqs;
      var r :| r in devs && r.zone in zones && zones[r.zone] == c && r.irq == irqs[|rs|];
      rs := rs + [r];
    }
  }

  /** A fourth distinct interrupt for one CPU trips the hypercall's assertion. */
  lemma FourthIrqPanics(s: State, d: nat, rs: seq<Res>, devs: set<Res>) returns (steps: seq<Step>)
    requires Init(s) && d < |s.threads| && |rs| == 4
             && (forall i :: 0 <= i < 4 ==> rs[i] in devs && rs[i].zone in s.zones)
    requires forall i :: 0 <= i < 4 ==> s.zones[rs[i].zone] == s.zones[rs[0].zone]
    requires forall i, j :: 0 <= i < j < 4 ==> rs[i].irq != rs[j].irq
    ensures InjectsFrom(steps, devs) && Run(s, steps).Some? && Run(s, steps).value.panicked
  {
    hide Run, Next, Enabled, Quiet;
    var c := s.zones[rs[0].zone];
    NoSteps(s);
    assert Quiet(s, d) && ListOf(s, c) == [] by { InitQuiet(s, d); }
    var s1, t1 := Deliver(s, [], s, devs, d, rs[0]);
    var s2, t2 := Deliver(s, s1, t1, devs, d, rs[1]);
    var s3, t3 := Deliver(s, s2, t2, devs, d, rs[2]);
    assert ListOf(t3, c) == [rs[0].irq, rs[1].irq, rs[2].irq];
    var s4, t4 := ToFiling(s, s3, t3, devs, d, rs[3]);
    assert ListOf(t4, c) == ListOf(t3, c);
    FilingPanics(t4, d);
    Go(s, s4, t4, devs, ThreadStep(d));
    steps := s4 + [ThreadStep(d)];
  }

  lemma InitQuiet(s: State, d: nat)
    requires Init(s) && d < |s.threads|
    ensures Quiet(s, d) && s.lists == map[]
  {
  }

  lemma FilingPanics(t: State, d: nat)
    requires Shaped(t) && !t.panicked && Drains(t, d) && t.threads[d].DFile? && Files(t)
    requires |ListOf(t, t.zones[Head(t).zone])| + 1 == MAX_DEVS
    ensures Enabled(t, ThreadStep(d)) && Next(t, ThreadStep(d)).panicked
  {
  }

  // ------------------------------------------------------------------
  // With 32 or more injecting threads the ring can overflow

  lemma Extend(s: State, steps: seq<Step>, t: State, x: Step)
    requires Shaped(s) && Run(s, steps) == Some(t) && Shaped(t) && Enabled(t, x)
    ensures Run(s, steps + [x]) == Some(Next(t, x)) && Shaped(Next(t, x))
  {
    assert (steps + [x])[..|steps|] == steps;
    NextShaped(t, x);
  }

  /** Threads below `k` have passed the fullness test, those below `j` have pushed as well. */
  function Crowd(n: nat, j: nat, k: nat, res: Res): seq<Thread> {
    seq(n, i => if i < j then Calling else if i < k then Wanting(res) else Idle)
  }

  function Crowded(s: State, j: nat, k: nat, res: Res): State
    requires |s.slots| == MAX_REQ
  {
    s.(threads := Crowd(|s.threads|, j, k, res),
       rear := j % MAX_REQ,
       slots := seq(MAX_REQ, i requires 0 <= i < MAX_REQ => if i < j then res else s.slots[i]),
       pushed := seq(j, _ => res), owners := seq(j, i => i))
  }

  lemma {:induction false} AllPassTheTest(s: State, k: nat, res: Res) returns (steps: seq<Step>)
    requires Init(s) && k <= |s.threads|
    ensures Shaped(Crowded(s, 0, k, res)) && Run(s, steps) == Some(Crowded(s, 0, k, res))
  {
    hide Run;
    var t' := Crowded(s, 0, k, res);
    assert t'.slots == s.slots;
    if k == 0 {
      assert t'.threads == s.threads;
      assert t' == s;
      steps := [];
      NoSteps(s);
    } else {
      var before := AllPassTheTest(s, k - 1, res);
      var t := Crowded(s, 0, k - 1, res);
      var i, c := Inject(k - 1, res), ThreadStep(k - 1);
      Extend(s, before, t, i);
      var t1 := Next(t, i);
      Extend(s, before + [i], t1, c);
      var t2 := Next(t1, c);
      Extend(s, before + [i] + [c], t2, c);
      assert Next(t2, c).threads == t'.threads;
      assert Next(t2, c) == t';
      steps := before + [i] + [c] + [c];
    }
  }

  lemma NoSteps(s: State)
    requires Shaped(s)
    ensures Run(s, []) == Some(s)
  {
  }

  /** One thread that has passed the test pushes undisturbed. */
  lemma PushUndisturbed(s: State, before: seq<Step>, t: State, j: nat) returns (steps: seq<Step>, t': State)
    requires Shaped(s) && Run(s, before) == Some(t) && Shaped(t) && !t.panicked
    requires j < |t.threads| && t.threads[j].Wanting? && t.mutex.None?
    ensures Run(s, steps) == Some(t') && Shaped(t')
    ensures var c := ThreadStep(j); steps == before + [c] + [c] + [c] + [c]
    ensures t' == HasPushed(t, j, t.threads[j].res)
  {
    hide Run, Next, Enabled;
    var c, res := ThreadStep(j), t.threads[j].res;
    WritesSlot(t, j);
    Extend(s, before, t, c);
    var t1 := t.(threads := t.threads[j := Writing(res)], mutex := Some(j));
    Extend(s, before + [c], t1, c);
    var t2 := t1.(threads := t.threads[j := Advancing(res)], slots := t.slots[t.rear := res]);
    PassesSlot(t, j, res);
    Extend(s, before + [c] + [c], t2, c);
    Extend(s, before + [c] + [c] + [c], Next(t2, c), c);
    steps, t' := before + [c] + [c] + [c] + [c], HasPushed(t, j, res);
  }

  /** The state in which thread `j` has pushed `res` and left the mutex. */
  function HasPushed(t: State, j: nat, res: Res): State
    requires Shaped(t) && j < |t.threads|
  {
    t.(threads := t.threads[j := Calling], slots := t.slots[t.rear := res], rear := (t.rear + 1) % MAX_REQ,
       pushed := t.pushed + [res], owners := t.owners + [j])
  }

  lemma WritesSlot(t: State, j: nat)
    requires Shaped(t) && !t.panicked && j < |t.threads| && t.threads[j].Wanting? && t.mutex.None?
    ensures var c, res := ThreadStep(j), t.threads[j].res;
            var t1 := t.(threads := t.threads[j := Writing(res)], mutex := Some(j));
            && Enabled(t, c) && Next(t, c) == t1 && Shaped(t1) && Enabled(t1, c)
            && Next(t1, c) == t1.(threads := t.threads[j := Advancing(res)], slots := t.slots[t.rear := res])
  {
    var res := t.threads[j].res;
    assert t.threads[j := Writing(res)][j := Advancing(res)] == t.threads[j := Advancing(res)];
  }

  lemma PassesSlot(t: State, j: nat, res: Res)
    requires Shaped(t) && !t.panicked && j < |t.threads| && t.mutex.None?
    ensures var c := ThreadStep(j);
            var t2 := t.(threads := t.threads[j := Advancing(res)], mutex := Some(j), slots := t.slots[t.rear := res]);
            && Shaped(t2) && Enabled(t2, c) && Shaped(Next(t2, c)) && Enabled(Next(t2, c), c)
            && Next(Next(t2, c), c) == HasPushed(t, j, res)
  {
    hide Next;
    var c := ThreadStep(j);
    var t2 := t.(threads := t.threads[j := Advancing(res)], mutex := Some(j), slots := t.slots[t.rear := res]);
    MovesRear(t2, j);
    Releases(Next(t2, c), j);
    assert t.threads[j := Advancing(res)][j := Releasing][j := Calling] == t.threads[j := Calling];
  }

  lemma MovesRear(t: State, j: nat)
    requires Shaped(t) && !t.panicked && j < |t.threads| && t.threads[j].Advancing?
    ensures Enabled(t, ThreadStep(j))
    ensures var res := t.threads[j].res;
            Next(t, ThreadStep(j)) == t.(threads := t.threads[j := Releasing], rear := (t.rear + 1) % MAX_REQ,
                                         pushed := t.pushed + [res], owners := t.owners + [j])
  {
  }

  lemma Releases(t: State, j: nat)
    requires Shaped(t) && !t.panicked && j < |t.threads| && t.threads[j].Releasing?
    ensures Enabled(t, ThreadStep(j))
    ensures Next(t, ThreadStep(j)) == t.(threads := t.threads[j := Calling], mutex := None)
  {
  }

  lemma PushOne(s: State, before: seq<Step>, j: nat, res: Res) returns (steps: seq<Step>)
    requires Init(s) && j < MAX_REQ <= |s.threads|
    requires Shaped(Crowded(s, j, MAX_REQ, res)) && Run(s, before) == Some(Crowded(s, j, MAX_REQ, res))
    ensures Shaped(Crowded(s, j + 1, MAX_REQ, res)) && Run(s, steps) == Some(Crowded(s, j + 1, MAX_REQ, res))
  {
    hide Run;
    var t4;
    var t' := Crowded(s, j + 1, MAX_REQ, res);
    steps, t4 := PushUndisturbed(s, before, Crowded(s, j, MAX_REQ, res), j);
    assert t4.threads == t'.threads;
    assert t4.slots == t'.slots;
    assert t4.pushed == t'.pushed;
    assert t4.owners == t'.owners;
  }

  lemma {:induction false} AllPush(s: State, j: nat, res: Res) returns (steps: seq<Step>)
    requires Init(s) && j <= MAX_REQ <= |s.threads|
    ensures Shaped(Crowded(s, j, MAX_REQ, res)) && Run(s, steps) == Some(Crowded(s, j, MAX_REQ, res))
  {
    if j == 0 {
      steps := AllPassTheTest(s, MAX_REQ, res);
    } else {
      var before := AllPush(s, j - 1, res);
      steps := PushOne(s, before, j - 1, res);
    }
  }

  /** Thirty-two threads that all pass the fullness test of an empty ring fill it to the brim: 32
      results are in it and it reads as empty. */
  lemma OverflowPossible(s: State, res: Res) returns (steps: seq<Step>)
    requires Init(s) && |s.threads| >= 32
    ensures Run(s, steps).Some?
    ensures var t := Run(s, steps).value; |t.pushed| - t.drained == 32 && t.rear == t.front
  {
    steps := AllPush(s, MAX_REQ, res);
  }

  /** Some run fills the ring to the brim if and only if there are at least 32 injecting threads. */
  lemma OverflowsExactly(s: State)
    requires Init(s)
    ensures (exists steps ::
               Run(s, steps).Some? && |Run(s, steps).value.pushed| - Run(s, steps).value.drained >= 32)
            <==> |s.threads| >= 32
  {
    hide Run;
    if |s.threads| >= 32 {
      var steps := OverflowPossible(s, Res(0, 0));
    } else {
      forall steps | Run(s, steps).Some? ensures |Run(s, steps).value.pushed| - Run(s, steps).value.drained < MAX_REQ {
        OccupancyAndDrain(s, steps);
      }
    }
  }
}
