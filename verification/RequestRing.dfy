/** The virtio request path between guest CPUs and the root-Linux daemon: the 32-slot request
    ring, the per-CPU configuration handshake and the wake-up flag
    (hvisor, `device/virtio_trampoline.rs`; hvisor-tool, `tools/virtio.c`).

    Every shared access of either side is one step; a run is any sequence of steps of any CPUs and
    of the daemon.  `pushed`, `served` and `answers` only record what happened. */
module RequestRing {

  import opened Wrappers
  import opened Arithmetic

  const MAX_REQ := 32
  const U64: nat := 0x1_0000_0000_0000_0000
  const VIRT_MAGIC: nat := 0x7472_6976

  datatype Req = Req(srcCpu: nat, address: nat, size: nat, value: nat, srcZone: nat, isWrite: bool, needInterrupt: bool)

  datatype Vdev = Vdev(zone: nat, base: nat, len: nat)

  /** The address belongs to a device of the guest's zone. */
  ghost predicate AtDevice(vdevs: seq<Vdev>, req: Req) {
    exists d :: d in vdevs && d.zone == req.srcZone && 0 <= req.address - d.base < d.len
  }

  /** The search of `virtio_handle_req` finds a device. */
  predicate Matches(vdevs: seq<Vdev>, req: Req): (found: bool)
    ensures found <==> AtDevice(vdevs, req)
  {
    if vdevs == [] then false
    else if req.srcZone == vdevs[0].zone && vdevs[0].base <= req.address < vdevs[0].base + vdevs[0].len then true
    else
      assert AtDevice(vdevs, req) ==> AtDevice(vdevs[1..], req);
      Matches(vdevs[1..], req)
  }

  /** Where a guest CPU is in `mmio_virtio_handler`. */
  datatype Cpu =
    | Guest
    | Locking(req: Req)
    | Locked(req: Req)
    | HasRoom(req: Req)
    | FlagRead(req: Req, oldFlag: nat)
    | SlotWritten(req: Req, oldFlag: nat)
    | Pushed(req: Req, oldFlag: nat, ticket: nat)
    | Waking(req: Req, oldFlag: nat, ticket: nat)
    | Unlocking(req: Req, oldFlag: nat, ticket: nat)
    | Spinning(req: Req, oldFlag: nat, ticket: nat)
    | Reading(req: Req, ticket: nat)
    | Answered(req: Req, ticket: nat, value: nat)
  {
    predicate HoldsLock() {
      Locked? || HasRoom? || FlagRead? || SlotWritten? || Pushed? || Waking? || Unlocking?
    }

    predicate Awaits() { Pushed? || Waking? || Unlocking? || Spinning? }
  }

  /** Where the daemon is in `handle_virtio_requests`. */
  datatype Daemon =
    | SigWait
    | Check
    | ClearWake
    | Handle
    | WriteValue(value: nat)
    | BumpFlag(value: nat)
    | Advance
    | Publish
    | SetWake
    | Recheck

  datatype State = State(
    vdevs: seq<Vdev>,
    front: nat, rear: nat, slots: seq<Req>,
    needWakeup: bool,
    flags: seq<nat>, values: seq<nat>,
    lock: Option<nat>, cpus: seq<Cpu>,
    daemon: Daemon, localFront: nat,
    inflight: nat, signalled: bool,
    pushed: seq<Req>, served: seq<Req>, answers: seq<nat>)

  datatype Step =
    | Trap(cpu: nat, req: Req)
    | CpuStep(cpu: nat)
    | DeliverSignal
    | DaemonStep
    | DaemonRead(value: nat)     // the register value a handled read returns
    | DaemonIdle                 // the 30 ms of polling are over

  predicate IsFull(s: State) { (s.rear + 1) % MAX_REQ == s.front }

  predicate Shaped(s: State) {
    && s.front < MAX_REQ && s.rear < MAX_REQ && s.localFront < MAX_REQ && |s.slots| == MAX_REQ
    && |s.flags| == |s.cpus| && |s.values| == |s.cpus|
  }

  predicate CpuEnabled(s: State, c: nat)
    requires Shaped(s)
  {
    && c < |s.cpus|
    && match s.cpus[c]
       case Guest => false
       case Locking(_) => s.lock.None?
       case Spinning(_, was, _) => s.flags[c] != was
       case _ => true
  }

  /** Where one step takes a guest CPU. */
  function CpuAfter(s: State, c: nat): Cpu
    requires Shaped(s) && c < |s.cpus|
  {
    match s.cpus[c]
    case Guest => Guest
    case Locking(req) => Locked(req)
    case Locked(req) => if IsFull(s) then Locking(req) else HasRoom(req)
    case HasRoom(req) => FlagRead(req, s.flags[c])
    case FlagRead(req, was) => SlotWritten(req, was)
    case SlotWritten(req, was) => Pushed(req, was, |s.pushed|)
    case Pushed(req, was, k) => if s.needWakeup then Waking(req, was, k) else Unlocking(req, was, k)
    case Waking(req, was, k) => Unlocking(req, was, k)
    case Unlocking(req, was, k) => if req.needInterrupt then Guest else Spinning(req, was, k)
    case Spinning(req, _, k) => Reading(req, k)
    case Reading(req, k) => if req.isWrite then Guest else Answered(req, k, s.values[c])
    case Answered(_, _, _) => Guest
  }

  /** One step of a guest CPU inside the handler. */
  function CpuNext(s: State, c: nat): State
    requires Shaped(s) && CpuEnabled(s, c)
  {
    var p := s.cpus[c];
    s.(cpus := s.cpus[c := CpuAfter(s, c)],
       lock := if p.Locking? then Some(c)
               else if (p.Locked? && IsFull(s)) || p.Unlocking? then None
               else s.lock,
       slots := if p.FlagRead? then s.slots[s.rear % MAX_REQ := p.req] else s.slots,
       rear := if p.SlotWritten? then (s.rear + 1) % MAX_REQ else s.rear,
       pushed := if p.SlotWritten? then s.pushed + [p.req] else s.pushed,
       inflight := if p.Waking? then s.inflight + 1 else s.inflight)
  }

  /** The request the daemon is looking at. */
  function Current(s: State): Req
    requires Shaped(s)
  {
    s.slots[s.localFront]
  }

  predicate DaemonEnabled(s: State, step: Step)
    requires Shaped(s)
  {
    match s.daemon
    case SigWait => step.DaemonStep? && s.signalled
    case Check => step.DaemonStep? || (step.DaemonIdle? && s.localFront == s.rear)
    case Handle =>
      if Matches(s.vdevs, Current(s)) && !Current(s).isWrite then step.DaemonRead? else step.DaemonStep?
    case WriteValue(_) => step.DaemonStep? && Current(s).srcCpu < |s.cpus|
    case BumpFlag(_) => step.DaemonStep? && Current(s).srcCpu < |s.cpus|
    case _ => step.DaemonStep?
  }

  /** `virtio_handle_req`: the value an access computes; an unmatched one reads the magic number. */
  function Computed(s: State, step: Step): nat
    requires Shaped(s)
  {
    if !Matches(s.vdevs, Current(s)) then VIRT_MAGIC
    else if step.DaemonRead? then step.value
    else 0
  }

  /** An unmatched request is answered whatever its kind; a matched one only when it is a
      configuration access. */
  function DaemonAfter(s: State, step: Step): Daemon
    requires Shaped(s)
  {
    match s.daemon
    case SigWait => Check
    case Check => if step.DaemonIdle? then SetWake else if s.localFront != s.rear then ClearWake else Check
    case ClearWake => Handle
    case Handle =>
      if !Matches(s.vdevs, Current(s)) || !Current(s).needInterrupt then WriteValue(Computed(s, step)) else Advance
    case WriteValue(v) => BumpFlag(v)
    case BumpFlag(_) => Advance
    case Advance => Publish
    case Publish => Check
    case SetWake => Recheck
    case Recheck => if s.localFront == s.rear then SigWait else Check
  }

  function DaemonNext(s: State, step: Step): State
    requires Shaped(s) && DaemonEnabled(s, step)
  {
    var d := s.daemon;
    s.(daemon := DaemonAfter(s, step),
       signalled := if d.SigWait? then false else s.signalled,
       needWakeup := if d.ClearWake? then false else if d.SetWake? then true else s.needWakeup,
       served := if d.Handle? then s.served + [Current(s)] else s.served,
       answers := if d.Handle? then s.answers + [Computed(s, step)] else s.answers,
       values := if d.WriteValue? then s.values[Current(s).srcCpu := d.value] else s.values,
       flags := if d.BumpFlag? then s.flags[Current(s).srcCpu := (s.flags[Current(s).srcCpu] + 1) % U64] else s.flags,
       localFront := if d.Advance? then (s.localFront + 1) % MAX_REQ else s.localFront,
       front := if d.Publish? then s.localFront else s.front)
  }

  predicate Enabled(s: State, step: Step)
    requires Shaped(s)
  {
    match step
    case Trap(c, req) => c < |s.cpus| && s.cpus[c].Guest? && req.srcCpu == c
    case CpuStep(c) => CpuEnabled(s, c)
    case DeliverSignal => s.inflight > 0
    case _ => DaemonEnabled(s, step)
  }

  function Next(s: State, step: Step): State
    requires Shaped(s) && Enabled(s, step)
  {
    match step
    case Trap(c, req) => s.(cpus := s.cpus[c := Locking(req)])
    case CpuStep(c) => CpuNext(s, c)
    case DeliverSignal => s.(inflight := s.inflight - 1, signalled := true)
    case _ => DaemonNext(s, step)
  }

  /** The daemon enters its loop with an empty ring and the flag set. */
  predicate Init(s: State) {
    && Shaped(s)
    && s.front == s.rear == s.localFront == 0 && s.needWakeup && s.lock.None?
    && (forall c :: 0 <= c < |s.cpus| ==> s.cpus[c].Guest?)
    && (forall c :: 0 <= c < |s.flags| ==> s.flags[c] < U64)
    && s.daemon.SigWait? && s.inflight == 0 && !s.signalled
    && s.pushed == s.served == [] && s.answers == []
  }

  // ------------------------------------------------------------------
  // Invariants.  Each names only the parts of the state it speaks about.

  /** The request being handled has been served but not answered, published or passed over. */
  predicate MidRequest(d: Daemon) { d.WriteValue? || d.BumpFlag? || d.Advance? || d.Publish? }

  /** Requests whose slot has been given back to the producers. */
  function Freed(d: Daemon, served: nat): int { if MidRequest(d) then served - 1 else served }

  /** Requests whose configuration answer, if any, has been flagged. */
  function Flagged(d: Daemon, served: nat): int { if d.WriteValue? || d.BumpFlag? then served - 1 else served }

  /** Slots `freed..|pushed|` of the ring hold the pushed requests in order; one slot stays empty. */
  ghost predicate RingOk(front: nat, rear: nat, slots: seq<Req>, pushed: seq<Req>, freed: int)
  {
    && |slots| == MAX_REQ
    && 0 <= freed <= |pushed| <= freed + MAX_REQ - 1
    && rear == |pushed| % MAX_REQ && front == freed % MAX_REQ
    && forall k :: freed <= k < |pushed| ==> slots[k % MAX_REQ] == pushed[k]
  }

  /** The daemon has served a prefix of the pushed requests, in order, and knows where it is. */
  ghost predicate ServedOk(d: Daemon, localFront: nat, pushed: seq<Req>, served: seq<Req>, answers: seq<nat>)
  {
    && 0 <= Freed(d, |served|)
    && localFront == (if d.Publish? then |served| else Freed(d, |served|)) % MAX_REQ
    && |served| <= |pushed| && served == pushed[..|served|] && |answers| == |served|
    && (d.ClearWake? || d.Handle? ==> |served| < |pushed|)
  }

  ghost predicate LockOk(lock: Option<nat>, cpus: seq<Cpu>)
  {
    && (lock.Some? ==> lock.value < |cpus|)
    && forall c: nat :: c < |cpus| ==> (cpus[c].HoldsLock() <==> lock == Some(c))
  }

  /** A producer past the fullness test has room; one past the slot write has its request there. */
  ghost predicate ProducerOk(p: Cpu, c: nat, slots: seq<Req>, pushed: seq<Req>, freed: int)
    requires |slots| == MAX_REQ
  {
    && (!p.Guest? ==> p.req.srcCpu == c)
    && (p.HasRoom? || p.FlagRead? || p.SlotWritten? ==> |pushed| <= freed + MAX_REQ - 2)
    && (p.SlotWritten? ==> slots[|pushed| % MAX_REQ] == p.req)
    && (p.Awaits() || p.Reading? || p.Answered? ==> p.ticket < |pushed| && pushed[p.ticket] == p.req)
  }

  /** The CPUs in `quiet` make no configuration requests; queue-notify requests of the others match a
      device. */
  ghost predicate LawfulReq(vdevs: seq<Vdev>, quiet: set<nat>, req: Req) {
    if req.srcCpu in quiet then req.needInterrupt else req.needInterrupt ==> Matches(vdevs, req)
  }

  ghost predicate LawfulOk(vdevs: seq<Vdev>, quiet: set<nat>, cpus: seq<Cpu>, pushed: seq<Req>)
  {
    && (forall k :: 0 <= k < |pushed| ==> LawfulReq(vdevs, quiet, pushed[k]) && pushed[k].srcCpu < |cpus|)
    && (forall c: nat :: c < |cpus| && !cpus[c].Guest? ==> LawfulReq(vdevs, quiet, cpus[c].req))
  }

  /** An unanswered configuration request has its CPU waiting for exactly that request. */
  ghost predicate OutstandingOk(cpus: seq<Cpu>, pushed: seq<Req>, flagged: int)
  {
    forall k :: 0 <= k && flagged <= k < |pushed| && !pushed[k].needInterrupt && pushed[k].srcCpu < |cpus| ==>
                  cpus[pushed[k].srcCpu].Awaits() && cpus[pushed[k].srcCpu].ticket == k
  }

  /** What one CPU may rely on about its own flag and value cells. */
  ghost predicate CellOk(p: Cpu, flag: nat, value: nat, answers: seq<nat>, flagged: int)
  {
    && flag < U64
    && (p.FlagRead? || p.SlotWritten? ==> flag == p.oldFlag)
    && (p.Awaits() ==> p.oldFlag < U64)
    && (p.Awaits() && !p.req.needInterrupt && flagged <= p.ticket ==> flag == p.oldFlag)
    && (p.Awaits() && !p.req.needInterrupt && p.ticket < flagged ==>
          flag == (p.oldFlag + 1) % U64 && p.ticket < |answers| && value == answers[p.ticket])
    && (p.Spinning? || p.Reading? || p.Answered? ==> !p.req.needInterrupt) && (p.Answered? ==> !p.req.isWrite)
    && (p.Reading? ==> p.ticket < |answers| && value == answers[p.ticket])
    && (p.Answered? ==> p.ticket < |answers| && p.value == answers[p.ticket])
  }

  /** The answer on its way to a CPU. */
  ghost predicate AnswerOk(quiet: set<nat>, d: Daemon, served: seq<Req>, answers: seq<nat>, values: seq<nat>)
  {
    d.WriteValue? || d.BumpFlag? ==>
      && served != [] && |answers| == |served|
      && (served[|served| - 1].srcCpu in quiet || !served[|served| - 1].needInterrupt)
      && d.value == answers[|answers| - 1]
      && (d.BumpFlag? ==> served[|served| - 1].srcCpu < |values| && values[served[|served| - 1].srcCpu] == d.value)
  }

  ghost predicate Notifying(cpus: seq<Cpu>) {
    exists c :: 0 <= c < |cpus| && (cpus[c].Pushed? || cpus[c].Waking?)
  }

  /** A sleeping daemon with work to do has a wake-up under way. */
  ghost predicate WakeOk(s: State)
  {
    && (s.daemon.Recheck? ==> s.needWakeup)
    && (s.daemon.SigWait? ==>
          s.needWakeup && (|s.served| == |s.pushed| || s.inflight > 0 || s.signalled || Notifying(s.cpus)))
  }

  ghost predicate RingInv(s: State) {
    && RingOk(s.front, s.rear, s.slots, s.pushed, Freed(s.daemon, |s.served|))
    && ServedOk(s.daemon, s.localFront, s.pushed, s.served, s.answers)
  }

  ghost predicate ProducerInv(s: State)
    requires |s.slots| == MAX_REQ
  {
    forall c: nat :: c < |s.cpus| ==> ProducerOk(s.cpus[c], c, s.slots, s.pushed, Freed(s.daemon, |s.served|))
  }

  ghost predicate CellInv(s: State, quiet: set<nat>)
    requires Shaped(s)
  {
    forall c: nat :: c < |s.cpus| ==> OneCellOk(s, quiet, c)
  }

  /** A quiet CPU never spins. */
  ghost predicate OneCellOk(s: State, quiet: set<nat>, c: nat)
    requires Shaped(s) && c < |s.cpus|
  {
    if c in quiet then !s.cpus[c].Spinning? && !s.cpus[c].Reading? && !s.cpus[c].Answered?
    else CellOk(s.cpus[c], s.flags[c], s.values[c], s.answers, Flagged(s.daemon, |s.served|))
  }

  ghost predicate HandshakeInv(s: State, quiet: set<nat>)
    requires Shaped(s)
  {
    && LawfulOk(s.vdevs, quiet, s.cpus, s.pushed)
    && OutstandingOk(s.cpus, s.pushed, Flagged(s.daemon, |s.served|))
    && AnswerOk(quiet, s.daemon, s.served, s.answers, s.values)
    && CellInv(s, quiet)
  }

  /** What every run keeps, whatever requests the guests make. */
  ghost predicate TransportInv(s: State) {
    Shaped(s) && RingInv(s) && LockOk(s.lock, s.cpus) && ProducerInv(s) && WakeOk(s)
  }

  /** What runs keep whose queue-notify requests match a device. */
  ghost predicate Inv(s: State, quiet: set<nat>) {
    TransportInv(s) && HandshakeInv(s, quiet)
  }

  lemma InitInv(s: State, quiet: set<nat>)
    requires Init(s)
    ensures TransportInv(s) && Inv(s, quiet)
  {
  }

  // ------------------------------------------------------------------
  // The ring

  lemma SlotsDiffer(j: nat, k: nat)
    requires j < k < j + MAX_REQ
    ensures j % MAX_REQ != k % MAX_REQ
  {
    RemaindersDiffer(j, k, MAX_REQ);
  }

  lemma NotFullMeansRoom(front: nat, rear: nat, slots: seq<Req>, pushed: seq<Req>, freed: int)
    requires RingOk(front, rear, slots, pushed, freed) && (rear + 1) % MAX_REQ != front
    ensures |pushed| <= freed + MAX_REQ - 2
  {
    NextRemainder(|pushed|, MAX_REQ);
  }

  lemma WriteSlotOk(front: nat, rear: nat, slots: seq<Req>, pushed: seq<Req>, freed: int, req: Req)
    requires RingOk(front, rear, slots, pushed, freed) && |pushed| <= freed + MAX_REQ - 2
    ensures RingOk(front, rear, slots[rear % MAX_REQ := req], pushed, freed)
    ensures slots[rear % MAX_REQ := req][|pushed| % MAX_REQ] == req
  {
    forall k | freed <= k < |pushed| ensures slots[rear % MAX_REQ := req][k % MAX_REQ] == pushed[k] {
      SlotsDiffer(k, |pushed|);
    }
  }

  lemma PushOk(front: nat, rear: nat, slots: seq<Req>, pushed: seq<Req>, freed: int, req: Req)
    requires RingOk(front, rear, slots, pushed, freed) && |pushed| <= freed + MAX_REQ - 2
    requires slots[|pushed| % MAX_REQ] == req
    ensures RingOk(front, (rear + 1) % MAX_REQ, slots, pushed + [req], freed)
  {
    NextRemainder(|pushed|, MAX_REQ);
  }

  lemma FreeOk(front: nat, rear: nat, slots: seq<Req>, pushed: seq<Req>, freed: nat)
    requires RingOk(front, rear, slots, pushed, freed) && freed < |pushed|
    ensures RingOk((freed + 1) % MAX_REQ, rear, slots, pushed, freed + 1)
  {
  }

  /** The slot under the daemon's hand is the oldest request not yet freed. */
  lemma CurrentRequest(s: State)
    requires Shaped(s) && RingInv(s) && !s.daemon.Publish? && Freed(s.daemon, |s.served|) < |s.pushed|
    ensures Current(s) == s.pushed[Freed(s.daemon, |s.served|)]
  {
  }

  // ------------------------------------------------------------------
  // Steps of a guest CPU

  lemma CpuKeepsRing(s: State, c: nat)
    requires Shaped(s) && RingInv(s) && ProducerInv(s) && CpuEnabled(s, c)
    ensures Shaped(CpuNext(s, c)) && RingInv(CpuNext(s, c))
  {
    hide RingOk;
    var s', freed := CpuNext(s, c), Freed(s.daemon, |s.served|);
    assert ProducerOk(s.cpus[c], c, s.slots, s.pushed, freed);
    match s.cpus[c] {
      case FlagRead(req, _) => WriteSlotOk(s.front, s.rear, s.slots, s.pushed, freed, req);
      case SlotWritten(req, _) =>
        PushOk(s.front, s.rear, s.slots, s.pushed, freed, req);
        assert s'.pushed[..|s.served|] == s.pushed[..|s.served|];
      case _ =>
    }
  }

  lemma CpuKeepsLock(s: State, c: nat)
    requires Shaped(s) && LockOk(s.lock, s.cpus) && CpuEnabled(s, c)
    ensures LockOk(CpuNext(s, c).lock, CpuNext(s, c).cpus)
  {
  }

  lemma CpuKeepsProducers(s: State, c: nat)
    requires Shaped(s) && RingInv(s) && LockOk(s.lock, s.cpus) && ProducerInv(s) && CpuEnabled(s, c)
    ensures ProducerInv(CpuNext(s, c))
  {
    hide RingOk;
    var s', freed := CpuNext(s, c), Freed(s.daemon, |s.served|);
    if s.cpus[c].Locked? && !IsFull(s) {
      NotFullMeansRoom(s.front, s.rear, s.slots, s.pushed, freed);
    }
    if s.cpus[c].FlagRead? {
      assert ProducerOk(s.cpus[c], c, s.slots, s.pushed, freed);
      WriteSlotOk(s.front, s.rear, s.slots, s.pushed, freed, s.cpus[c].req);
    }
    forall d: nat | d < |s'.cpus| ensures ProducerOk(s'.cpus[d], d, s'.slots, s'.pushed, freed) {
      assert ProducerOk(s.cpus[d], d, s.slots, s.pushed, freed);
    }
  }

  lemma CpuKeepsLawful(s: State, quiet: set<nat>, c: nat)
    requires Shaped(s) && RingInv(s) && ProducerInv(s) && LawfulOk(s.vdevs, quiet, s.cpus, s.pushed) && CpuEnabled(s, c)
    ensures LawfulOk(s.vdevs, quiet, CpuNext(s, c).cpus, CpuNext(s, c).pushed)
  {
    hide RingOk, Matches, AtDevice;
    assert ProducerOk(s.cpus[c], c, s.slots, s.pushed, Freed(s.daemon, |s.served|));
  }

  lemma CpuKeepsOutstanding(s: State, quiet: set<nat>, c: nat)
    requires Shaped(s) && RingInv(s) && ProducerInv(s) && HandshakeInv(s, quiet) && CpuEnabled(s, c)
    ensures OutstandingOk(CpuNext(s, c).cpus, CpuNext(s, c).pushed, Flagged(s.daemon, |s.served|))
  {
    hide RingOk, Matches, AtDevice, LawfulReq, AnswerOk;
    var s', flagged := CpuNext(s, c), Flagged(s.daemon, |s.served|);
    assert ProducerOk(s.cpus[c], c, s.slots, s.pushed, Freed(s.daemon, |s.served|));
    QuietCell(s, quiet, c);
    forall k | 0 <= k && flagged <= k < |s'.pushed| && !s'.pushed[k].needInterrupt && s'.pushed[k].srcCpu < |s'.cpus|
      ensures s'.cpus[s'.pushed[k].srcCpu].Awaits() && s'.cpus[s'.pushed[k].srcCpu].ticket == k
    {
      if k < |s.pushed| {
        assert s'.pushed[k] == s.pushed[k];
        assert s.cpus[s.pushed[k].srcCpu].Awaits();
      }
    }
  }

  lemma CpuKeepsCells(s: State, quiet: set<nat>, c: nat)
    requires Shaped(s) && CellInv(s, quiet) && CpuEnabled(s, c) && RingInv(s) && ProducerInv(s) && Shaped(CpuNext(s, c))
    requires LawfulOk(s.vdevs, quiet, s.cpus, s.pushed)
    ensures CellInv(CpuNext(s, c), quiet)
  {
    hide CellOk, CpuNext, LawfulOk, RingOk, ProducerInv;
    var s' := CpuNext(s, c);
    forall d: nat | d < |s'.cpus| ensures OneCellOk(s', quiet, d) {
      OtherCells(s, c, d);
      QuietCell(s, quiet, d);
      if d == c {
        if c in quiet { QuietStays(s, quiet, c); } else { CpuKeepsOwnCell(s, c); }
      }
    }
  }

  lemma OtherCells(s: State, c: nat, d: nat)
    requires Shaped(s) && CpuEnabled(s, c) && d < |CpuNext(s, c).cpus|
    ensures var s' := CpuNext(s, c);
            && |s'.cpus| == |s.cpus| && s'.flags == s.flags && s'.values == s.values && s'.answers == s.answers
            && s'.daemon == s.daemon && s'.served == s.served
            && s'.cpus[d] == if d == c then CpuAfter(s, c) else s.cpus[d]
  {
  }

  lemma QuietStays(s: State, quiet: set<nat>, c: nat)
    requires Shaped(s) && CpuEnabled(s, c) && ProducerInv(s) && LawfulOk(s.vdevs, quiet, s.cpus, s.pushed)
    requires c in quiet && OneCellOk(s, quiet, c)
    ensures var p := CpuAfter(s, c); !p.Spinning? && !p.Reading? && !p.Answered?
  {
    hide Matches, AtDevice;
    ProducerOf(s, c);
    assert !s.cpus[c].Guest? ==> LawfulReq(s.vdevs, quiet, s.cpus[c].req);
  }

  lemma CpuKeepsOwnCell(s: State, c: nat)
    requires Shaped(s) && CpuEnabled(s, c) && ServedOk(s.daemon, s.localFront, s.pushed, s.served, s.answers)
    requires CellOk(s.cpus[c], s.flags[c], s.values[c], s.answers, Flagged(s.daemon, |s.served|))
    ensures CellOk(CpuAfter(s, c), s.flags[c], s.values[c], s.answers, Flagged(s.daemon, |s.served|))
  {
  }

  lemma CpuKeepsWake(s: State, c: nat)
    requires Shaped(s) && WakeOk(s) && CpuEnabled(s, c)
    ensures WakeOk(CpuNext(s, c))
  {
    var s' := CpuNext(s, c);
    if s.cpus[c].SlotWritten? { assert s'.cpus[c].Pushed?; }
    if s.cpus[c].Pushed? && s.needWakeup { assert s'.cpus[c].Waking?; }
    if d: nat :| d < |s.cpus| && d != c && (s.cpus[d].Pushed? || s.cpus[d].Waking?) {
      assert s'.cpus[d] == s.cpus[d];
    }
  }

  // ------------------------------------------------------------------
  // Steps of the daemon

  lemma DaemonKeepsRing(s: State, step: Step)
    requires Shaped(s) && RingInv(s) && DaemonEnabled(s, step)
    ensures Shaped(DaemonNext(s, step)) && RingInv(DaemonNext(s, step))
  {
    hide RingOk, ServedOk, DaemonNext;
    DaemonShaped(s, step);
    DaemonKeepsSlots(s, step);
    DaemonKeepsServed(s, step);
  }

  lemma DaemonShaped(s: State, step: Step)
    requires Shaped(s) && DaemonEnabled(s, step)
    ensures Shaped(DaemonNext(s, step))
  {
    hide Matches, AtDevice;
  }

  lemma DaemonKeepsSlots(s: State, step: Step)
    requires Shaped(s) && RingInv(s) && DaemonEnabled(s, step)
    ensures var s' := DaemonNext(s, step);
            RingOk(s'.front, s'.rear, s'.slots, s'.pushed, Freed(s'.daemon, |s'.served|))
  {
    hide RingOk, Matches, AtDevice;
    if s.daemon.Publish? { FreeOk(s.front, s.rear, s.slots, s.pushed, |s.served| - 1); }
  }

  lemma DaemonKeepsServed(s: State, step: Step)
    requires Shaped(s) && RingInv(s) && DaemonEnabled(s, step)
    ensures var s' := DaemonNext(s, step);
            ServedOk(s'.daemon, s'.localFront, s'.pushed, s'.served, s'.answers)
  {
    hide RingInv, ServedOk, DaemonNext;
    match s.daemon {
      case Handle => HandleServed(s, step);
      case Advance => AdvanceServed(s, step);
      case _ => OthersServed(s, step);
    }
  }

  lemma HandleServed(s: State, step: Step)
    requires Shaped(s) && RingInv(s) && DaemonEnabled(s, step) && s.daemon.Handle?
    ensures var s' := DaemonNext(s, step); ServedOk(s'.daemon, s'.localFront, s'.pushed, s'.served, s'.answers)
  {
    hide RingOk, Matches, AtDevice, Computed;
    CurrentRequest(s);
    ServeOne(s);
  }

  lemma AdvanceServed(s: State, step: Step)
    requires Shaped(s) && RingInv(s) && DaemonEnabled(s, step) && s.daemon.Advance?
    ensures var s' := DaemonNext(s, step); ServedOk(s'.daemon, s'.localFront, s'.pushed, s'.served, s'.answers)
  {
    hide RingOk, Matches, AtDevice, Computed;
    NextRemainder(|s.served| - 1, MAX_REQ);
  }

  lemma OthersServed(s: State, step: Step)
    requires Shaped(s) && RingInv(s) && DaemonEnabled(s, step) && !s.daemon.Handle? && !s.daemon.Advance?
    ensures var s' := DaemonNext(s, step); ServedOk(s'.daemon, s'.localFront, s'.pushed, s'.served, s'.answers)
  {
    hide RingOk, Matches, AtDevice, Computed;
    if s.daemon.Check? && s.localFront != s.rear { RearBehind(s); }
  }

  lemma RearBehind(s: State)
    requires Shaped(s) && RingInv(s) && s.daemon.Check? && s.localFront != s.rear
    ensures |s.served| < |s.pushed|
  {
  }

  lemma ServeOne(s: State)
    requires Shaped(s) && RingInv(s) && s.daemon.Handle? && Current(s) == s.pushed[|s.served|]
    ensures s.served + [Current(s)] == s.pushed[..|s.served| + 1]
  {
  }

  lemma DaemonKeepsProducers(s: State, step: Step)
    requires Shaped(s) && RingInv(s) && ProducerInv(s) && DaemonEnabled(s, step)
    ensures ProducerInv(DaemonNext(s, step))
  {
    hide RingOk, Matches, AtDevice;
    var s' := DaemonNext(s, step);
    assert s'.cpus == s.cpus && s'.slots == s.slots && s'.pushed == s.pushed;
    assert Freed(s'.daemon, |s'.served|) >= Freed(s.daemon, |s.served|);
    forall d: nat | d < |s.cpus| ensures ProducerOk(s.cpus[d], d, s.slots, s.pushed, Freed(s'.daemon, |s'.served|)) {
      assert ProducerOk(s.cpus[d], d, s.slots, s.pushed, Freed(s.daemon, |s.served|));
    }
  }

  lemma DaemonKeepsOutstanding(s: State, quiet: set<nat>, step: Step)
    requires Shaped(s) && RingInv(s) && HandshakeInv(s, quiet) && DaemonEnabled(s, step)
    ensures var s' := DaemonNext(s, step);
            OutstandingOk(s'.cpus, s'.pushed, Flagged(s'.daemon, |s'.served|))
  {
    hide RingOk, CellInv;
    var s' := DaemonNext(s, step);
    if s.daemon.Handle? {
      CurrentRequest(s);
      assert LawfulReq(s.vdevs, quiet, s.pushed[|s.served|]);
    }
  }

  lemma DaemonKeepsAnswer(s: State, quiet: set<nat>, step: Step)
    requires Shaped(s) && RingInv(s) && HandshakeInv(s, quiet) && DaemonEnabled(s, step)
    ensures var s' := DaemonNext(s, step);
            AnswerOk(quiet, s'.daemon, s'.served, s'.answers, s'.values)
  {
    hide RingOk, CellInv, OutstandingOk;
    if s.daemon.Handle? || s.daemon.WriteValue? {
      CurrentRequest(s);
      assert LawfulReq(s.vdevs, quiet, s.pushed[Freed(s.daemon, |s.served|)]);
    }
  }

  lemma CellServe(p: Cpu, flag: nat, value: nat, answers: seq<nat>, v: nat, flagged: int)
    requires CellOk(p, flag, value, answers, flagged)
    ensures CellOk(p, flag, value, answers + [v], flagged)
  {
  }

  /** A request that no CPU spins on is passed over. */
  lemma CellSkip(p: Cpu, flag: nat, value: nat, answers: seq<nat>, flagged: int)
    requires CellOk(p, flag, value, answers, flagged) && (p.Awaits() && !p.req.needInterrupt ==> p.ticket != flagged)
    ensures CellOk(p, flag, value, answers, flagged + 1)
  {
  }

  /** The awaited answer is written, and then flagged. */
  lemma CellAnswer(p: Cpu, flag: nat, value: nat, answers: seq<nat>, v: nat, flagged: int)
    requires CellOk(p, flag, value, answers, flagged) && p.Awaits() && p.ticket == flagged && !p.req.needInterrupt
    ensures CellOk(p, flag, v, answers, flagged)
    ensures p.ticket < |answers| && value == answers[p.ticket] ==>
            CellOk(p, (flag + 1) % U64, value, answers, flagged + 1)
  {
  }

  lemma HandleKeepsCell(s: State, quiet: set<nat>, step: Step, d: nat)
    requires Shaped(s) && RingInv(s) && ProducerInv(s) && HandshakeInv(s, quiet) && DaemonEnabled(s, step)
             && d < |s.cpus|
    requires s.daemon.Handle? && d !in quiet
    ensures var s' := DaemonNext(s, step);
            CellOk(s'.cpus[d], s'.flags[d], s'.values[d], s'.answers, Flagged(s'.daemon, |s'.served|))
  {
    hide RingOk, Matches, AtDevice, CellOk, ProducerInv, CellInv, ProducerOk, LawfulOk, OutstandingOk, AnswerOk;
    var p, s' := s.cpus[d], DaemonNext(s, step);
    CellOf(s, quiet, d);
    CellServe(p, s.flags[d], s.values[d], s.answers, s'.answers[|s.answers|], |s.served|);
    if s'.daemon.Advance? {
      CurrentRequest(s);
      NotAwaited(s, d);
      CellSkip(p, s.flags[d], s.values[d], s'.answers, |s.served|);
    }
  }

  lemma WriteKeepsCell(s: State, quiet: set<nat>, step: Step, d: nat)
    requires Shaped(s) && RingInv(s) && ProducerInv(s) && HandshakeInv(s, quiet) && DaemonEnabled(s, step)
             && d < |s.cpus|
    requires s.daemon.WriteValue? && d !in quiet
    ensures var s' := DaemonNext(s, step);
            CellOk(s'.cpus[d], s'.flags[d], s'.values[d], s'.answers, Flagged(s'.daemon, |s'.served|))
  {
    hide RingOk, Matches, AtDevice, CellOk, ProducerInv, CellInv, ProducerOk, LawfulOk, OutstandingOk;
    CellOf(s, quiet, d);
    CurrentRequest(s);
    AwaitedAnswer(s, quiet, d);
    CellAnswerIf(s, d, s.daemon.value);
  }

  lemma BumpKeepsCell(s: State, quiet: set<nat>, step: Step, d: nat)
    requires Shaped(s) && RingInv(s) && ProducerInv(s) && HandshakeInv(s, quiet) && DaemonEnabled(s, step)
             && d < |s.cpus|
    requires s.daemon.BumpFlag? && d !in quiet
    ensures var s' := DaemonNext(s, step);
            CellOk(s'.cpus[d], s'.flags[d], s'.values[d], s'.answers, Flagged(s'.daemon, |s'.served|))
  {
    hide RingOk, Matches, AtDevice, CellOk, ProducerInv, CellInv, ProducerOk, LawfulOk, OutstandingOk;
    CellOf(s, quiet, d);
    CurrentRequest(s);
    AwaitedAnswer(s, quiet, d);
    CellAnswerIf(s, d, s.daemon.value);
    if Current(s).srcCpu != d { CellSkip(s.cpus[d], s.flags[d], s.values[d], s.answers, |s.served| - 1); }
  }

  /** What a CPU's cells look like after a step of the daemon. */
  lemma DaemonKeepsOneCell(s: State, quiet: set<nat>, step: Step, d: nat)
    requires Shaped(s) && RingInv(s) && ProducerInv(s) && HandshakeInv(s, quiet) && DaemonEnabled(s, step)
             && d < |s.cpus|
    ensures var s' := DaemonNext(s, step);
            Shaped(s') && d < |s'.cpus| && OneCellOk(s', quiet, d)
  {
    hide RingInv, Matches, AtDevice, CellOk, ProducerInv, CellInv, LawfulOk, OutstandingOk, AnswerOk;
    DaemonKeepsRing(s, step);
    if d in quiet { assert OneCellOk(s, quiet, d) by { QuietCell(s, quiet, d); } return; }
    CellOf(s, quiet, d);
    match s.daemon {
      case Handle => HandleKeepsCell(s, quiet, step, d);
      case WriteValue(_) => WriteKeepsCell(s, quiet, step, d);
      case BumpFlag(_) => BumpKeepsCell(s, quiet, step, d);
      case _ =>
    }
  }

  /** A queue-notify request under the daemon's hand is awaited by nobody. */
  lemma NotAwaited(s: State, d: nat)
    requires Shaped(s) && RingInv(s) && ProducerInv(s) && s.daemon.Handle? && d < |s.cpus|
    requires s.pushed[|s.served|].needInterrupt
    ensures var p := s.cpus[d]; p.Awaits() && !p.req.needInterrupt ==> p.ticket != |s.served|
  {
    hide RingOk;
    ProducerOf(s, d);
  }

  /** The request being answered is the one its CPU awaits, and no other CPU awaits it. */
  lemma AwaitedAnswer(s: State, quiet: set<nat>, d: nat)
    requires Shaped(s) && RingInv(s) && ProducerInv(s) && HandshakeInv(s, quiet) && d < |s.cpus| && d !in quiet
    requires s.daemon.WriteValue? || s.daemon.BumpFlag?
    ensures var p, k := s.cpus[d], |s.served| - 1;
            if s.pushed[k].srcCpu == d then p.Awaits() && p.ticket == k && !p.req.needInterrupt
            else p.Awaits() && !p.req.needInterrupt ==> p.ticket != k
  {
    hide RingOk, CellInv, LawfulOk;
    ProducerOf(s, d);
    assert s.served[|s.served| - 1] == s.pushed[|s.served| - 1];
  }

  lemma CellAnswerIf(s: State, d: nat, v: nat)
    requires Shaped(s) && d < |s.cpus| && CellOk(s.cpus[d], s.flags[d], s.values[d], s.answers, |s.served| - 1)
    requires |s.answers| == |s.served| > 0
    ensures var p, flagged := s.cpus[d], |s.served| - 1;
            p.Awaits() && p.ticket == flagged && !p.req.needInterrupt ==>
              && CellOk(p, s.flags[d], v, s.answers, flagged)
              && (s.values[d] == s.answers[flagged] ==>
                  CellOk(p, (s.flags[d] + 1) % U64, s.values[d], s.answers, flagged + 1))
  {
    hide CellOk;
    var p := s.cpus[d];
    if p.Awaits() && p.ticket == |s.served| - 1 && !p.req.needInterrupt {
      CellAnswer(p, s.flags[d], s.values[d], s.answers, v, |s.served| - 1);
    }
  }

  lemma CellOf(s: State, quiet: set<nat>, d: nat)
    requires Shaped(s) && CellInv(s, quiet) && d < |s.cpus| && d !in quiet
    ensures CellOk(s.cpus[d], s.flags[d], s.values[d], s.answers, Flagged(s.daemon, |s.served|))
  {
    QuietCell(s, quiet, d);
  }

  lemma QuietCell(s: State, quiet: set<nat>, d: nat)
    requires Shaped(s) && CellInv(s, quiet) && d < |s.cpus|
    ensures OneCellOk(s, quiet, d)
  {
  }

  lemma ProducerOf(s: State, d: nat)
    requires |s.slots| == MAX_REQ && ProducerInv(s) && d < |s.cpus|
    ensures ProducerOk(s.cpus[d], d, s.slots, s.pushed, Freed(s.daemon, |s.served|))
  {
  }

  lemma DaemonKeepsCells(s: State, quiet: set<nat>, step: Step)
    requires Shaped(s) && RingInv(s) && ProducerInv(s) && HandshakeInv(s, quiet) && DaemonEnabled(s, step)
    ensures Shaped(DaemonNext(s, step)) && CellInv(DaemonNext(s, step), quiet)
  {
    hide RingInv, Matches, AtDevice, ProducerInv, HandshakeInv, OneCellOk;
    var s' := DaemonNext(s, step);
    DaemonKeepsRing(s, step);
    forall d: nat | d < |s'.cpus| ensures OneCellOk(s', quiet, d) {
      DaemonKeepsOneCell(s, quiet, step, d);
    }
  }

  lemma DaemonKeepsWake(s: State, step: Step)
    requires Shaped(s) && RingInv(s) && WakeOk(s) && DaemonEnabled(s, step)
    ensures WakeOk(DaemonNext(s, step))
  {
    if s.daemon.Recheck? && s.localFront == s.rear { EmptyMeansServed(s); }
  }

  lemma EmptyMeansServed(s: State)
    requires Shaped(s) && RingInv(s) && s.daemon.Recheck? && s.localFront == s.rear
    ensures |s.served| == |s.pushed|
  {
  }

  // ------------------------------------------------------------------
  // Every run

  lemma CpuKeepsTransport(s: State, c: nat)
    requires TransportInv(s) && CpuEnabled(s, c)
    ensures TransportInv(CpuNext(s, c))
  {
    hide RingInv, LockOk, ProducerOk, WakeOk;
    CpuKeepsRing(s, c);
    CpuKeepsLock(s, c);
    CpuKeepsProducers(s, c);
    CpuKeepsWake(s, c);
  }

  lemma CpuKeepsInv(s: State, quiet: set<nat>, c: nat)
    requires Inv(s, quiet) && CpuEnabled(s, c)
    ensures Inv(CpuNext(s, c), quiet)
  {
    CpuKeepsTransport(s, c);
    CpuKeepsLawful(s, quiet, c);
    CpuKeepsOutstanding(s, quiet, c);
    CpuKeepsCells(s, quiet, c);
  }

  lemma DaemonKeepsTransport(s: State, step: Step)
    requires TransportInv(s) && DaemonEnabled(s, step)
    ensures TransportInv(DaemonNext(s, step))
  {
    hide RingInv, LockOk, ProducerOk, WakeOk, Matches, AtDevice;
    DaemonKeepsRing(s, step);
    DaemonKeepsProducers(s, step);
    DaemonKeepsWake(s, step);
  }

  lemma DaemonKeepsInv(s: State, quiet: set<nat>, step: Step)
    requires Inv(s, quiet) && DaemonEnabled(s, step)
    ensures Inv(DaemonNext(s, step), quiet)
  {
    DaemonKeepsTransport(s, step);
    DaemonKeepsOutstanding(s, quiet, step);
    DaemonKeepsAnswer(s, quiet, step);
    DaemonKeepsCells(s, quiet, step);
  }

  lemma TrapKeepsTransport(s: State, c: nat, req: Req)
    requires TransportInv(s) && Enabled(s, Trap(c, req))
    ensures TransportInv(Next(s, Trap(c, req)))
  {
    hide RingOk, ServedOk, Matches, AtDevice;
    var s' := Next(s, Trap(c, req));
    assert ProducerInv(s');
    if d: nat :| d < |s.cpus| && (s.cpus[d].Pushed? || s.cpus[d].Waking?) {
      assert s'.cpus[d] == s.cpus[d];
    }
  }

  lemma TrapKeepsInv(s: State, quiet: set<nat>, c: nat, req: Req)
    requires Inv(s, quiet) && Enabled(s, Trap(c, req)) && LawfulReq(s.vdevs, quiet, req)
    ensures Inv(Next(s, Trap(c, req)), quiet)
  {
    hide RingOk, ServedOk, Matches, AtDevice, ProducerOk, WakeOk, LockOk;
    TrapKeepsTransport(s, c, req);
    var s' := Next(s, Trap(c, req));
    assert LawfulOk(s'.vdevs, quiet, s'.cpus, s'.pushed);
    assert CellInv(s', quiet) by {
      forall d: nat | d < |s'.cpus| ensures OneCellOk(s', quiet, d) { QuietCell(s, quiet, d); }
    }
  }

  lemma SignalKeepsInv(s: State, quiet: set<nat>)
    requires TransportInv(s) && Enabled(s, DeliverSignal)
    ensures TransportInv(Next(s, DeliverSignal)) && (Inv(s, quiet) ==> Inv(Next(s, DeliverSignal), quiet))
  {
    hide RingOk, ServedOk, Matches, AtDevice, CellOk;
    var s' := Next(s, DeliverSignal);
    if Inv(s, quiet) {
      forall d: nat | d < |s'.cpus| ensures OneCellOk(s', quiet, d) { QuietCell(s, quiet, d); }
    }
  }

  /** Every step of every actor keeps the ring, the lock and the wake-up in order. */
  lemma NextKeepsTransport(s: State, step: Step)
    requires TransportInv(s) && Enabled(s, step)
    ensures TransportInv(Next(s, step))
  {
    hide RingInv, LockOk, ProducerOk, WakeOk;
    match step {
      case Trap(c, req) => TrapKeepsTransport(s, c, req);
      case CpuStep(c) => CpuKeepsTransport(s, c);
      case DeliverSignal => SignalKeepsInv(s, {});
      case _ => DaemonKeepsTransport(s, step);
    }
  }

  /** Every step keeps the handshake too, if queue-notify requests match a device. */
  lemma NextKeepsInv(s: State, quiet: set<nat>, step: Step)
    requires Inv(s, quiet) && Enabled(s, step) && (step.Trap? ==> LawfulReq(s.vdevs, quiet, step.req))
    ensures Inv(Next(s, step), quiet)
  {
    hide RingInv, LockOk, ProducerOk, WakeOk, HandshakeInv;
    match step {
      case Trap(c, req) => TrapKeepsInv(s, quiet, c, req);
      case CpuStep(c) => CpuKeepsInv(s, quiet, c);
      case DeliverSignal => SignalKeepsInv(s, quiet);
      case _ => DaemonKeepsInv(s, quiet, step);
    }
  }

  /** The state after a sequence of steps, if each was possible when its turn came. */
  function Run(s: State, steps: seq<Step>): (r: Option<State>)
    requires Shaped(s)
    ensures r.Some? ==> Shaped(r.value)
  {
    if steps == [] then Some(s)
    else
      match Run(s, steps[..|steps| - 1])
      case None => None
      case Some(t) =>
        var last := steps[|steps| - 1];
        if Enabled(t, last) then NextShaped(t, last); Some(Next(t, last)) else None
  }

  lemma NextShaped(s: State, step: Step)
    requires Shaped(s) && Enabled(s, step)
    ensures Shaped(Next(s, step)) && Next(s, step).vdevs == s.vdevs
  {
  }

  /** The requests of the run are lawful. */
  ghost predicate LawfulRun(vdevs: seq<Vdev>, quiet: set<nat>, steps: seq<Step>) {
    forall i :: 0 <= i < |steps| && steps[i].Trap? ==> LawfulReq(vdevs, quiet, steps[i].req)
  }

  lemma {:induction false} RunKeepsInv(s: State, quiet: set<nat>, steps: seq<Step>)
    requires Init(s) && Run(s, steps).Some? && LawfulRun(s.vdevs, quiet, steps)
    ensures Inv(Run(s, steps).value, quiet) && Run(s, steps).value.vdevs == s.vdevs
  {
    if steps == [] {
      InitInv(s, quiet);
    } else {
      var front, last := steps[..|steps| - 1], steps[|steps| - 1];
      RunKeepsInv(s, quiet, front);
      NextShaped(Run(s, front).value, last);
      NextKeepsInv(Run(s, front).value, quiet, last);
    }
  }

  lemma {:induction false} RunKeepsTransport(s: State, steps: seq<Step>)
    requires Init(s) && Run(s, steps).Some?
    ensures TransportInv(Run(s, steps).value)
  {
    hide TransportInv;
    if steps == [] {
      InitInv(s, {});
    } else {
      var front, last := steps[..|steps| - 1], steps[|steps| - 1];
      RunKeepsTransport(s, front);
      NextKeepsTransport(Run(s, front).value, last);
    }
  }

  /** In every run: requests are served once each, in the order they were pushed, and no unserved
      request has been overwritten. */
  lemma DeliveredInOrder(s: State, steps: seq<Step>)
    requires Init(s) && Run(s, steps).Some?
    ensures var t := Run(s, steps).value;
            && t.served <= t.pushed && |t.pushed| - |t.served| <= 31
            && (forall k :: |t.served| <= k < |t.pushed| ==> t.slots[k % MAX_REQ] == t.pushed[k])
  {
    RunKeepsTransport(s, steps);
  }

  /** What the device side answers to `req`: the magic number when no device is there, the register's
      value to a read, and nothing to a write. */
  ghost predicate AnswerTo(vdevs: seq<Vdev>, req: Req, step: Step, answer: nat) {
    if !AtDevice(vdevs, req) then answer == 0x7472_6976
    else if req.isWrite then answer == 0
    else step.DaemonRead? && answer == step.value
  }

  /** Step `i` of the run is the one that handles its `k`-th request. */
  ghost predicate Handles(s: State, steps: seq<Step>, i: nat, k: nat)
    requires Shaped(s)
  {
    && i < |steps| && Run(s, steps[..i]).Some?
    && var t := Run(s, steps[..i]).value;
       t.daemon.Handle? && |t.served| == k && (steps[i].DaemonStep? || steps[i].DaemonRead?)
  }

  lemma HandleServes(t: State, x: Step)
    requires Shaped(t) && RingInv(t) && Enabled(t, x)
    ensures var t' := Next(t, x);
            if t.daemon.Handle? && (x.DaemonStep? || x.DaemonRead?) then
              && |t.served| < |t.pushed| && |t.answers| == |t.served|
              && t'.served == t.served + [t.pushed[|t.served|]] && |t'.answers| == |t.answers| + 1
              && t'.answers[..|t.answers|] == t.answers
              && AnswerTo(t.vdevs, t.pushed[|t.served|], x, t'.answers[|t.answers|])
            else t'.served == t.served && t'.answers == t.answers
  {
    hide RingOk, Matches, AtDevice;
    if t.daemon.Handle? && (x.DaemonStep? || x.DaemonRead?) { HandlesCurrent(t); }
  }

  lemma HandlesCurrent(t: State)
    requires Shaped(t) && RingInv(t) && t.daemon.Handle?
    ensures |t.served| < |t.pushed| && |t.answers| == |t.served| && Current(t) == t.pushed[|t.served|]
  {
    hide RingOk;
    CurrentRequest(t);
  }

  /** In every run, every served request was handled by a step of its own, whose answer it got. */
  lemma {:induction false} ServedAnswer(s: State, steps: seq<Step>, k: nat) returns (i: nat)
    requires Init(s) && Run(s, steps).Some? && k < |Run(s, steps).value.served|
    ensures var t := Run(s, steps).value;
            && Handles(s, steps, i, k) && |t.answers| == |t.served|
            && AnswerTo(s.vdevs, t.served[k], steps[i], t.answers[k])
  {
    hide RingInv, Next, Enabled, AnswerTo, LockOk, ProducerInv, WakeOk;
    i := 0;
    if steps != [] {
      var front, x := steps[..|steps| - 1], steps[|steps| - 1];
      var t := Run(s, front).value;
      RunKeepsTransport(s, front);
      SameDevices(s, front);
      HandleServes(t, x);
      if k < |t.served| {
        i := ServedAnswer(s, front, k);
        assert steps[..i] == front[..i] && steps[i] == front[i];
        assert k < |t.answers| && Run(s, steps).value.answers[..|t.answers|][k] == t.answers[k];
      } else {
        i := |steps| - 1;
      }
    }
  }

  lemma {:induction false} SameDevices(s: State, steps: seq<Step>)
    requires Shaped(s) && Run(s, steps).Some?
    ensures Run(s, steps).value.vdevs == s.vdevs
  {
    if steps != [] {
      SameDevices(s, steps[..|steps| - 1]);
      NextShaped(Run(s, steps[..|steps| - 1]).value, steps[|steps| - 1]);
    }
  }

  /** CPU `c`, if it has stopped spinning, has been answered: its own request has been served, and the
      value it reads, or has read, is what the step that handled that request answered. */
  ghost predicate Answers(s: State, steps: seq<Step>, c: nat)
    requires Shaped(s) && Run(s, steps).Some? && c < |Run(s, steps).value.cpus|
  {
    var t := Run(s, steps).value;
    var p := t.cpus[c];
    p.Reading? || p.Answered? ==>
      && p.req.srcCpu == c && p.ticket < |t.served| && t.served[p.ticket] == p.req
      && exists i: nat :: Handles(s, steps, i, p.ticket)
                          && AnswerTo(s.vdevs, p.req, steps[i], if p.Reading? then t.values[c] else p.value)
  }

  lemma OwnAnswer(s: State, quiet: set<nat>, steps: seq<Step>, c: nat)
    requires Init(s) && Run(s, steps).Some? && LawfulRun(s.vdevs, quiet, steps) && c < |Run(s, steps).value.cpus|
    ensures Answers(s, steps, c)
  {
    hide RingOk, WakeOk, LockOk, LawfulOk, OutstandingOk, AnswerOk, Run, ProducerInv, CellInv, AnswerTo, Handles;
    RunKeepsInv(s, quiet, steps);
    var t := Run(s, steps).value;
    QuietCell(t, quiet, c);
    ProducerOf(t, c);
    if t.cpus[c].Reading? || t.cpus[c].Answered? {
      var _ := ServedAnswer(s, steps, t.cpus[c].ticket);
    }
  }

  /** A CPU goes back to its guest from a queue-notify once it has pushed it, from a write once it has
      stopped spinning, and from a read with a value. */
  lemma LeavesFrom(t: State, quiet: set<nat>, x: Step, c: nat)
    requires Inv(t, quiet) && Enabled(t, x) && c < |t.cpus| == |Next(t, x).cpus|
    requires !t.cpus[c].Guest? && Next(t, x).cpus[c].Guest?
    ensures var p := t.cpus[c];
            if p.req.needInterrupt then p.Unlocking? else if p.req.isWrite then p.Reading? else p.Answered?
  {
    hide RingOk, WakeOk, LockOk, LawfulOk, OutstandingOk, AnswerOk, ProducerInv, DaemonNext, DaemonEnabled;
    QuietCell(t, quiet, c);
    if !x.Trap? && !x.CpuStep? && !x.DeliverSignal? { DaemonLeavesCpus(t, x); }
  }

  lemma DaemonLeavesCpus(t: State, x: Step)
    requires Shaped(t) && Enabled(t, x) && !x.Trap? && !x.CpuStep? && !x.DeliverSignal?
    ensures Next(t, x).cpus == t.cpus
  {
  }

  /** So every access returns only when its request has been pushed, and a configuration access only when
      it has been served: a read with the value answered to it, a write without. */
  lemma AccessReturns(s: State, quiet: set<nat>, steps: seq<Step>, x: Step, c: nat)
    requires Init(s) && Run(s, steps).Some? && LawfulRun(s.vdevs, quiet, steps) && Enabled(Run(s, steps).value, x)
    requires var t := Run(s, steps).value;
             c < |t.cpus| == |Next(t, x).cpus| && !t.cpus[c].Guest? && Next(t, x).cpus[c].Guest?
    ensures var t := Run(s, steps).value;
            var p := t.cpus[c];
            && (p.Awaits() || p.Reading? || p.Answered?) && p.req.srcCpu == c
            && p.ticket < |t.pushed| && t.pushed[p.ticket] == p.req
            && (!p.req.needInterrupt ==>
                  p.ticket < |t.served| && Answers(s, steps, c) && (p.Answered? <==> !p.req.isWrite))
  {
    hide RingOk, WakeOk, LockOk, LawfulOk, OutstandingOk, AnswerOk, ProducerInv, CellInv, Next, Enabled, Run, Handles,
         AnswerTo;
    RunKeepsInv(s, quiet, steps);
    LeavesFrom(Run(s, steps).value, quiet, x, c);
    OwnAnswer(s, quiet, steps, c);
    ProducerOf(Run(s, steps).value, c);
  }

  /** A daemon asleep with a request in the ring is being woken: a signal or event is pending, or a
      producer that has pushed is still to look at the flag, which is set. */
  lemma NoLostWakeup(s: State, steps: seq<Step>)
    requires Init(s) && Run(s, steps).Some?
    requires var t := Run(s, steps).value; t.daemon.SigWait? && |t.served| < |t.pushed|
    ensures var t := Run(s, steps).value;
            && t.needWakeup
            && (t.inflight > 0 || t.signalled
                || exists c :: 0 <= c < |t.cpus| && (t.cpus[c].Pushed? || t.cpus[c].Waking?))
  {
    RunKeepsTransport(s, steps);
  }

  /** After its last look the daemon sleeps exactly when nothing is left to serve. */
  lemma SleepsExactly(s: State, steps: seq<Step>)
    requires Init(s) && Run(s, steps).Some? && Run(s, steps).value.daemon.Recheck?
    ensures var t := Run(s, steps).value;
            Enabled(t, DaemonStep) && (Next(t, DaemonStep).daemon.SigWait? <==> t.served == t.pushed)
  {
    hide Run;
    RunKeepsTransport(s, steps);
    var t := Run(s, steps).value;
    if t.localFront == t.rear { EmptyMeansServed(t); }
    assert t.pushed[..|t.pushed|] == t.pushed;
  }

  /** No deadlock: when the daemon sleeps, no wake-up is under way and no CPU can go on, every CPU is in its
      guest and every request has been served. */
  lemma RestMeansServed(s: State, quiet: set<nat>, steps: seq<Step>)
    requires Init(s) && Run(s, steps).Some? && LawfulRun(s.vdevs, quiet, steps)
    requires var t := Run(s, steps).value;
             && t.daemon.SigWait? && !t.signalled && t.inflight == 0
             && forall c: nat :: c < |t.cpus| ==> !CpuEnabled(t, c)
    ensures var t := Run(s, steps).value;
            t.served == t.pushed && forall c: nat :: c < |t.cpus| ==> t.cpus[c].Guest?
  {
    hide Run, RingOk, AnswerOk, OutstandingOk, LawfulOk, CellInv, CellOk, ProducerInv;
    RunKeepsInv(s, quiet, steps);
    var t := Run(s, steps).value;
    assert |t.served| == |t.pushed| by { NobodyNotifies(t); }
    assert t.pushed[..|t.pushed|] == t.pushed;
    forall c: nat | c < |t.cpus| ensures t.cpus[c].Guest? { RestsInGuest(t, quiet, c); }
  }

  lemma NobodyNotifies(t: State)
    requires Shaped(t) && forall c: nat :: c < |t.cpus| ==> !CpuEnabled(t, c)
    ensures !Notifying(t.cpus)
  {
    forall c: nat | c < |t.cpus| ensures !t.cpus[c].Pushed? && !t.cpus[c].Waking? { assert !CpuEnabled(t, c); }
  }

  lemma RestsInGuest(t: State, quiet: set<nat>, c: nat)
    requires Inv(t, quiet) && t.daemon.SigWait? && |t.served| == |t.pushed| && c < |t.cpus|
    requires forall d: nat :: d < |t.cpus| ==> !CpuEnabled(t, d)
    ensures t.cpus[c].Guest?
  {
    hide RingOk, AnswerOk, OutstandingOk, LawfulOk, ProducerInv, WakeOk;
    assert !CpuEnabled(t, c);
    QuietCell(t, quiet, c);
    ProducerOf(t, c);
    forall d: nat | d < |t.cpus| ensures t.lock != Some(d) { assert !CpuEnabled(t, d); }
  }

  // ------------------------------------------------------------------
  // Without the side condition the handshake breaks

  /** The guests make only these requests. */
  ghost predicate Requests(steps: seq<Step>, reqs: set<Req>) {
    forall i :: 0 <= i < |steps| && steps[i].Trap? ==> steps[i].req in reqs
  }

  ghost predicate Reached(s: State, reqs: set<Req>, steps: seq<Step>, t: State) {
    Shaped(s) && Shaped(t) && Run(s, steps) == Some(t) && Requests(steps, reqs)
  }

  lemma NoSteps(s: State, reqs: set<Req>)
    requires Shaped(s)
    ensures Reached(s, reqs, [], s)
  {
  }

  lemma Extend(s: State, reqs: set<Req>, steps: seq<Step>, t: State, x: Step)
    requires Shaped(t) && Reached(s, reqs, steps, t) && Enabled(t, x) && (x.Trap? ==> x.req in reqs)
    ensures Shaped(Next(t, x)) && Reached(s, reqs, steps + [x], Next(t, x))
  {
    assert (steps + [x])[..|steps|] == steps;
    NextShaped(t, x);
  }

  lemma Enter(s: State, reqs: set<Req>, steps: seq<Step>, t: State, c: nat, req: Req)
      returns (steps': seq<Step>, t': State)
    requires Shaped(t) && Reached(s, reqs, steps, t)
    requires c < |t.cpus| && t.cpus[c].Guest? && t.lock.None? && req.srcCpu == c && req in reqs && !IsFull(t)
    ensures Shaped(t') && Reached(s, reqs, steps', t') && t' == t.(lock := Some(c), cpus := t.cpus[c := HasRoom(req)])
  {
    hide Reached, DaemonNext, DaemonEnabled;
    var x := CpuStep(c);
    Extend(s, reqs, steps, t, Trap(c, req));
    var s1, t1 := steps + [Trap(c, req)], Next(t, Trap(c, req));
    Extend(s, reqs, s1, t1, x);
    var s2, t2 := s1 + [x], Next(t1, x);
    Extend(s, reqs, s2, t2, x);
    steps', t' := s2 + [x], Next(t2, x);
    assert t'.cpus == t.cpus[c := HasRoom(req)];
  }

  lemma Push(s: State, reqs: set<Req>, steps: seq<Step>, t: State, c: nat) returns (steps': seq<Step>, t': State)
    requires Shaped(t) && Reached(s, reqs, steps, t)
    requires c < |t.cpus| && t.cpus[c].HasRoom?
    ensures Shaped(t') && Reached(s, reqs, steps', t')
    ensures var req := t.cpus[c].req;
            t' == t.(cpus := t.cpus[c := Pushed(req, t.flags[c], |t.pushed|)],
                     slots := t.slots[t.rear := req], rear := (t.rear + 1) % MAX_REQ, pushed := t.pushed + [req])
  {
    hide Reached, Next, Enabled;
    var x := CpuStep(c);
    FlagsAndWrites(t, c);
    Extend(s, reqs, steps, t, x);
    var s1, t1 := steps + [x], Next(t, x);
    Extend(s, reqs, s1, t1, x);
    var s2, t2 := s1 + [x], Next(t1, x);
    MovesRear(t2, c);
    Extend(s, reqs, s2, t2, x);
    steps', t' := s2 + [x], Next(t2, x);
    assert t'.cpus == t.cpus[c := Pushed(t.cpus[c].req, t.flags[c], |t.pushed|)];
  }

  lemma FlagsAndWrites(t: State, c: nat)
    requires Shaped(t) && c < |t.cpus| && t.cpus[c].HasRoom?
    ensures var x, req := CpuStep(c), t.cpus[c].req;
            var t1 := t.(cpus := t.cpus[c := FlagRead(req, t.flags[c])]);
            && Enabled(t, x) && Next(t, x) == t1 && Shaped(t1) && Enabled(t1, x)
            && Next(t1, x) == t1.(cpus := t1.cpus[c := SlotWritten(req, t.flags[c])], slots := t.slots[t.rear := req])
  {
    hide DaemonNext, DaemonEnabled;
  }

  lemma MovesRear(t: State, c: nat)
    requires Shaped(t) && c < |t.cpus| && t.cpus[c].SlotWritten?
    ensures Enabled(t, CpuStep(c))
    ensures var p := t.cpus[c];
            Next(t, CpuStep(c)) == t.(cpus := t.cpus[c := Pushed(p.req, p.oldFlag, |t.pushed|)],
                                      rear := (t.rear + 1) % MAX_REQ, pushed := t.pushed + [p.req])
  {
    hide DaemonNext, DaemonEnabled;
  }

  lemma Leave(s: State, reqs: set<Req>, steps: seq<Step>, t: State, c: nat) returns (steps': seq<Step>, t': State)
    requires Shaped(t) && Reached(s, reqs, steps, t)
    requires c < |t.cpus| && t.cpus[c].Pushed? && t.needWakeup
    ensures Shaped(t') && Reached(s, reqs, steps', t')
    ensures var p := t.cpus[c];
            t' == t.(cpus := t.cpus[c := if p.req.needInterrupt then Guest else Spinning(p.req, p.oldFlag, p.ticket)],
                     lock := None, inflight := t.inflight + 1)
  {
    hide Reached, DaemonNext, DaemonEnabled;
    var x, p := CpuStep(c), t.cpus[c];
    Extend(s, reqs, steps, t, x);
    var s1, t1 := steps + [x], Next(t, x);
    Extend(s, reqs, s1, t1, x);
    var s2, t2 := s1 + [x], Next(t1, x);
    Extend(s, reqs, s2, t2, x);
    steps', t' := s2 + [x], Next(t2, x);
    assert t'.cpus == t.cpus[c := if p.req.needInterrupt then Guest else Spinning(p.req, p.oldFlag, p.ticket)];
  }

  /** CPU `c` alone, from the guest to having pushed `req` and left the lock. */
  lemma PushAlone(s: State, reqs: set<Req>, steps: seq<Step>, t: State, c: nat, req: Req)
      returns (steps': seq<Step>, t': State)
    requires Shaped(t) && Reached(s, reqs, steps, t)
    requires c < |t.cpus| && t.cpus[c].Guest? && t.lock.None? && req.srcCpu == c && req in reqs && !IsFull(t)
             && t.needWakeup
    ensures Shaped(t') && Reached(s, reqs, steps', t')
    ensures t' == t.(cpus := t.cpus[c := if req.needInterrupt then Guest else Spinning(req, t.flags[c], |t.pushed|)],
                     slots := t.slots[t.rear := req], rear := (t.rear + 1) % MAX_REQ,
                     pushed := t.pushed + [req], inflight := t.inflight + 1)
  {
    hide Reached;
    var s1, t1 := Enter(s, reqs, steps, t, c, req);
    var s2, t2 := Push(s, reqs, s1, t1, c);
    steps', t' := Leave(s, reqs, s2, t2, c);
    assert t'.cpus == t.cpus[c := if req.needInterrupt then Guest else Spinning(req, t.flags[c], |t.pushed|)];
  }

  /** The daemon wakes up and takes the only unserved request up to its handler. */
  lemma WakeAndTake(s: State, reqs: set<Req>, steps: seq<Step>, t: State) returns (steps': seq<Step>, t': State)
    requires Shaped(t) && Reached(s, reqs, steps, t)
    requires t.daemon.SigWait? && t.inflight > 0 && t.localFront != t.rear
    ensures Shaped(t') && Reached(s, reqs, steps', t')
    ensures t' == t.(daemon := Handle, needWakeup := false, inflight := t.inflight - 1, signalled := false)
  {
    hide Reached, CpuNext, CpuEnabled;
    var d := DaemonStep;
    Extend(s, reqs, steps, t, DeliverSignal);
    var s1, t1 := steps + [DeliverSignal], Next(t, DeliverSignal);
    Extend(s, reqs, s1, t1, d);
    var s2, t2 := s1 + [d], Next(t1, d);
    Extend(s, reqs, s2, t2, d);
    var s3, t3 := s2 + [d], Next(t2, d);
    Extend(s, reqs, s3, t3, d);
    steps', t' := s3 + [d], Next(t3, d);
  }

  lemma AnswerUnmatched(s: State, reqs: set<Req>, steps: seq<Step>, t: State) returns (steps': seq<Step>, t': State)
    requires Shaped(t) && Reached(s, reqs, steps, t)
    requires t.daemon.Handle? && !Matches(t.vdevs, Current(t)) && Current(t).srcCpu < |t.cpus|
    ensures Shaped(t') && Reached(s, reqs, steps', t')
    ensures t' == t.(daemon := Advance, served := t.served + [Current(t)], answers := t.answers + [VIRT_MAGIC],
                     values := t.values[Current(t).srcCpu := VIRT_MAGIC],
                     flags := t.flags[Current(t).srcCpu := (t.flags[Current(t).srcCpu] + 1) % U64])
  {
    hide Reached, Matches, AtDevice, CpuNext, CpuEnabled, Next;
    var d := DaemonStep;
    ServeUnmatched(t);
    Extend(s, reqs, steps, t, d);
    var s1, t1 := steps + [d], Next(t, d);
    PostAnswer(t1);
    Extend(s, reqs, s1, t1, d);
    var s2, t2 := s1 + [d], Next(t1, d);
    Extend(s, reqs, s2, t2, d);
    steps', t' := s2 + [d], Next(t2, d);
  }

  lemma ServeUnmatched(t: State)
    requires Shaped(t) && t.daemon.Handle? && !Matches(t.vdevs, Current(t))
    ensures Enabled(t, DaemonStep)
    ensures Next(t, DaemonStep) == t.(daemon := WriteValue(VIRT_MAGIC), served := t.served + [Current(t)],
                                      answers := t.answers + [VIRT_MAGIC])
  {
    hide Matches, AtDevice, CpuNext, CpuEnabled;
  }

  lemma PostAnswer(t: State)
    requires Shaped(t) && t.daemon.WriteValue? && Current(t).srcCpu < |t.cpus|
    ensures Enabled(t, DaemonStep)
    ensures var t' := Next(t, DaemonStep);
            && t' == t.(daemon := BumpFlag(t.daemon.value), values := t.values[Current(t).srcCpu := t.daemon.value])
            && Shaped(t') && Enabled(t', DaemonStep)
            && Next(t', DaemonStep)
               == t'.(daemon := Advance, flags := t.flags[Current(t).srcCpu := (t.flags[Current(t).srcCpu] + 1) % U64])
  {
    hide Matches, AtDevice, CpuNext, CpuEnabled;
  }

  /** For every device table, every CPU and every queue-notify request matching none of the devices:
      the CPU issues it, then makes a configuration request, and stops spinning before that request is
      served, with the magic number in its value cell. */
  lemma UnmatchedNotifyBreaksHandshake(s: State, reqs: set<Req>, notify: Req, config: Req)
    returns (steps: seq<Step>, t: State)
    requires Init(s) && notify in reqs && config in reqs && notify.srcCpu == config.srcCpu < |s.cpus|
    requires notify.needInterrupt && !Matches(s.vdevs, notify) && !config.needInterrupt
    ensures Shaped(t) && Reached(s, reqs, steps, t)
    ensures var c := notify.srcCpu;
            && t.cpus == s.cpus[c := Reading(config, 1)] && t.values == s.values[c := VIRT_MAGIC]
            && t.pushed == [notify, config] && t.served == [notify]
  {
    hide Reached, Matches, AtDevice, DaemonNext, DaemonEnabled;
    var c := notify.srcCpu;
    NoSteps(s, reqs);
    var x := CpuStep(c);
    var a1, t1 := PushAlone(s, reqs, [], s, c, notify);
    assert t1.cpus == s.cpus;
    var a2, t2 := PushAlone(s, reqs, a1, t1, c, config);
    var a3, t3 := WakeAndTake(s, reqs, a2, t2);
    var a4, t4 := AnswerUnmatched(s, reqs, a3, t3);
    assert t4.flags[c] != s.flags[c];
    Extend(s, reqs, a4, t4, x);
    steps, t := a4 + [x], Next(t4, x);
    assert t.cpus == s.cpus[c := Reading(config, 1)];
  }

  /** Some CPU makes both configuration requests and queue-notify requests that match no device. */
  ghost predicate Clash(vdevs: seq<Vdev>, reqs: set<Req>) {
    exists n, r :: n in reqs && r in reqs && n.srcCpu == r.srcCpu && Unmatched(vdevs, n) && !r.needInterrupt
  }

  ghost predicate Unmatched(vdevs: seq<Vdev>, req: Req) { req.needInterrupt && !AtDevice(vdevs, req) }

  ghost predicate AllAnswered(s: State, steps: seq<Step>)
    requires Shaped(s)
  {
    Run(s, steps).Some? ==> forall c: nat :: c < |Run(s, steps).value.cpus| ==> Answers(s, steps, c)
  }

  /** In every run of guests that make requests from `reqs`, every CPU that stops spinning does so
      because its own request was answered, if and only if no CPU makes both kinds of requests. */
  lemma HandshakeExactly(s: State, reqs: set<Req>)
    requires Init(s) && forall r :: r in reqs ==> r.srcCpu < |s.cpus|
    ensures (forall steps: seq<Step> :: Requests(steps, reqs) ==> AllAnswered(s, steps)) <==> !Clash(s.vdevs, reqs)
  {
    hide Run, Requests, Matches, AtDevice;
    if Clash(s.vdevs, reqs) {
      var n, r :| n in reqs && r in reqs && n.srcCpu == r.srcCpu && Unmatched(s.vdevs, n) && !r.needInterrupt;
      var steps, t := UnmatchedNotifyBreaksHandshake(s, reqs, n, r);
      assert Requests(steps, reqs) && !Answers(s, steps, n.srcCpu);
    } else {
      var quiet := set r | r in reqs && Unmatched(s.vdevs, r) :: r.srcCpu;
      forall steps: seq<Step> | Requests(steps, reqs) ensures AllAnswered(s, steps) {
        if Run(s, steps).Some? {
          QuietIsLawful(s.vdevs, reqs, quiet, steps);
          forall c: nat | c < |Run(s, steps).value.cpus| ensures Answers(s, steps, c) {
            OwnAnswer(s, quiet, steps, c);
          }
        }
      }
    }
  }

  lemma QuietIsLawful(vdevs: seq<Vdev>, reqs: set<Req>, quiet: set<nat>, steps: seq<Step>)
    requires quiet == set r | r in reqs && Unmatched(vdevs, r) :: r.srcCpu
    requires !Clash(vdevs, reqs) && Requests(steps, reqs)
    ensures LawfulRun(vdevs, quiet, steps)
  {
    hide Matches, AtDevice;
    forall i | 0 <= i < |steps| && steps[i].Trap? ensures LawfulReq(vdevs, quiet, steps[i].req) {
      var r := steps[i].req;
      if r.srcCpu in quiet {
        var n :| n in reqs && Unmatched(vdevs, n) && n.srcCpu == r.srcCpu;
      }
    }
  }
}
