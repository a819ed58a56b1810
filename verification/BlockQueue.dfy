/** The block device's virtqueue: the guest driver, the notify handler on the daemon's main thread
    and the worker thread (hvisor-tool, `tools/virtio_blk.c`; notification switches and emptiness
    test of `tools/virtio.c`).

    Every shared access is one step.  The driver follows Virtio 1.2 section 2.7.10: after making a
    buffer available it looks at the used ring's NO_NOTIFY flag and kicks if it is clear.  A chain
    that is not a block request (Virtio 1.2 section 5.2.6) comes back as a null pointer, which the
    handler puts in its queue: the daemon crashes. */
module BlockQueue {

  import opened Wrappers

  const IDX: nat := 0x1_0000

  const BLK_SEG_MAX: nat := 512
  const HEADER_SIZE: nat := 16
  const T_OUT: nat := 1

  /** One descriptor of a chain. */
  datatype Segment = Segment(len: nat, writable: bool)

  /** A chain of descriptors; `kind` is the request type found in the first. */
  datatype Buffer = Buffer(head: nat, segments: seq<Segment>, kind: nat)

  datatype Driver = DIdle | DMustCheck | DMustKick

  datatype Handler =
    | HIdle
    | HOuter | HDisable | HInner | HTake | HEnable      // the two loops over the available ring
    | HDone | HLock | HConcat | HSignal | HUnlock       // handing the requests to the worker

  datatype Worker =
    | WTake                                             // `get_breq`, holding the mutex
    | WWork(req: Buffer)                                 // file I/O, no lock
    | WPeekLock | WPeek | WPeekUnlock(empty: bool)      // `complete_block_operation`
    | WInject
    | WRelock
    | WWait | WWoken                                    // `pthread_cond_wait`

  datatype Who = HandlerThread | WorkerThread

  datatype State = State(
    num: nat,
    avail: seq<Buffer>, taken: nat, noNotify: bool, driver: Driver, kicks: nat,
    handler: Handler, local: seq<Buffer>,
    mtx: Option<Who>, procq: seq<Buffer>, worker: Worker,
    used: seq<Buffer>, kicked: nat, crashed: bool)

  datatype Step = Publish(buffer: Buffer) | DriverStep | HandlerStep | WorkerStep | Spurious

  /** A 16-byte header to read, at most 512 segments of data in the direction of the request (1 is a
      write to the device), and a status byte to write. */
  ghost predicate IsRequest(b: Buffer) {
    exists data: seq<Segment> ::
      && b.segments == [Segment(16, false)] + data + [Segment(1, true)]
      && |data| <= 512
      && forall k :: 0 <= k < |data| ==> data[k].writable == (b.kind != 1)
  }

  /** What `virtq_blk_handle_one_request` tests before it looks at the data. */
  predicate Framed(segments: seq<Segment>) {
    && 2 <= |segments| <= BLK_SEG_MAX + 2
    && segments[0] == Segment(HEADER_SIZE, false) && segments[|segments| - 1] == Segment(1, true)
  }

  predicate Directed(segments: seq<Segment>, kind: nat) {
    forall k :: 1 <= k < |segments| - 1 ==> segments[k].writable == (kind != T_OUT)
  }

  lemma RequestIs(b: Buffer)
    ensures IsRequest(b) <==> Framed(b.segments) && Directed(b.segments, b.kind)
  {
    if Framed(b.segments) && Directed(b.segments, b.kind) {
      var data := b.segments[1..|b.segments| - 1];
      assert b.segments == [Segment(HEADER_SIZE, false)] + data + [Segment(1, true)];
    }
    if IsRequest(b) {
      var data: seq<Segment> :| b.segments == [Segment(HEADER_SIZE, false)] + data + [Segment(1, true)]
        && |data| <= BLK_SEG_MAX && forall k :: 0 <= k < |data| ==> data[k].writable == (b.kind != T_OUT);
      LaidOut(b.segments, data, b.kind);
    }
  }

  lemma LaidOut(segments: seq<Segment>, data: seq<Segment>, kind: nat)
    requires segments == [Segment(HEADER_SIZE, false)] + data + [Segment(1, true)] && |data| <= BLK_SEG_MAX
    requires forall k :: 0 <= k < |data| ==> data[k].writable == (kind != T_OUT)
    ensures Framed(segments) && Directed(segments, kind)
  {
    forall k | 1 <= k < |segments| - 1 ensures segments[k] == data[k - 1] {}
  }

  /** `virtq_blk_handle_one_request`: null exactly when the chain is not a request. */
  method HandleOneRequest(b: Buffer) returns (breq: Option<Buffer>)
    ensures breq == if IsRequest(b) then Some(b) else None
  {
    hide IsRequest;
    RequestIs(b);
    var n := |b.segments|;
    if n < 2 || n > BLK_SEG_MAX + 2 { return None; }
    if b.segments[0].writable { return None; }
    if b.segments[0].len != HEADER_SIZE { return None; }
    if b.segments[n - 1].len != 1 || !b.segments[n - 1].writable { return None; }
    for i := 1 to n - 1
      invariant forall k :: 1 <= k < i ==> b.segments[k].writable == (b.kind != T_OUT)
    {
      if !b.segments[i].writable != (b.kind == T_OUT) { return None; }
    }
    breq := Some(b);
  }

  /** `virtqueue_is_empty`, on 16-bit indices. */
  predicate IsEmpty(s: State) { s.taken % IDX == |s.avail| % IDX }

  predicate Enabled(s: State, step: Step) {
    !s.crashed &&
    match step
    case Publish(_) => !s.driver.DMustKick? && |s.avail| < |s.used| + s.num
    case DriverStep => !s.driver.DIdle?
    case HandlerStep =>
      (match s.handler
       case HIdle => s.kicks > 0
       case HTake => s.taken < |s.avail|
       case HLock => s.mtx.None?
       case _ => true)
    case WorkerStep =>
      (match s.worker
       case WPeekLock => s.mtx.None?
       case WRelock => s.mtx.None?
       case WWoken => s.mtx.None?
       case WWait => false
       case _ => true)
    case Spurious => s.worker.WWait?
  }

  /** The handler is about to take a chain that is not a request. */
  ghost predicate CrashesNow(s: State) { s.handler.HTake? && s.taken < |s.avail| && !IsRequest(s.avail[s.taken]) }

  ghost function HandlerAfter(s: State): Handler {
    match s.handler
    case HIdle => HOuter
    case HOuter => if IsEmpty(s) then HDone else HDisable
    case HDisable => HInner
    case HInner => if IsEmpty(s) then HEnable else HTake
    case HTake => if CrashesNow(s) then HTake else HInner
    case HEnable => HOuter
    case HDone => if s.local == [] then HIdle else HLock
    case HLock => HConcat
    case HConcat => HSignal
    case HSignal => HUnlock
    case HUnlock => HIdle
  }

  function WorkerAfter(s: State): Worker {
    match s.worker
    case WTake => if s.procq == [] then WWait else WWork(s.procq[0])
    case WWork(_) => WPeekLock
    case WPeekLock => WPeek
    case WPeek => WPeekUnlock(s.procq == [])
    case WPeekUnlock(e) => if e then WInject else WRelock
    case WInject => WRelock
    case WRelock => WTake
    case WWait => WWoken
    case WWoken => WTake
  }

  ghost function Next(s: State, step: Step): State
    requires Enabled(s, step)
  {
    match step
    case Publish(b) => s.(avail := s.avail + [b], driver := DMustCheck)
    case DriverStep =>
      if s.driver.DMustCheck? then s.(driver := if s.noNotify then DIdle else DMustKick)
      else s.(driver := DIdle, kicks := s.kicks + 1)
    case HandlerStep =>
      var h := s.handler;
      s.(handler := HandlerAfter(s),
         kicks := if h.HIdle? then s.kicks - 1 else s.kicks,
         noNotify := if h.HDisable? then true else if h.HEnable? then false else s.noNotify,
         crashed := CrashesNow(s),
         local := if h.HTake? && !CrashesNow(s) then s.local + [s.avail[s.taken]]
                  else if h.HConcat? then []
                  else s.local,
         taken := if h.HTake? then s.taken + 1 else s.taken,
         mtx := if h.HLock? then Some(HandlerThread) else if h.HUnlock? then None else s.mtx,
         procq := if h.HConcat? then s.procq + s.local else s.procq,
         worker := if h.HSignal? && s.worker.WWait? then WWoken else s.worker)
    case WorkerStep =>
      var w := s.worker;
      s.(worker := WorkerAfter(s),
         procq := if w.WTake? && s.procq != [] then s.procq[1..] else s.procq,
         mtx := if w.WPeekLock? || w.WRelock? || w.WWoken? then Some(WorkerThread)
                else if w.WTake? || w.WPeekUnlock? then None
                else s.mtx,
         used := if w.WWork? then s.used + [w.req] else s.used,
         kicked := if w.WInject? then |s.used| else s.kicked)
    case Spurious => s.(worker := WWoken)
  }

  /** The worker thread starts by locking the mutex. */
  predicate Init(s: State) {
    && s.num < IDX && s.avail == [] && s.taken == 0 && !s.noNotify && s.driver.DIdle? && s.kicks == 0
    && s.handler.HIdle? && s.local == [] && s.mtx.None? && s.procq == [] && s.worker.WRelock?
    && s.used == [] && s.kicked == 0 && !s.crashed
  }

  // ------------------------------------------------------------------

  predicate InLoops(h: Handler) { h.HOuter? || h.HDisable? || h.HInner? || h.HTake? || h.HEnable? }

  /** What the worker holds in its hand. */
  function InHand(w: Worker): seq<Buffer> { if w.WWork? then [w.req] else [] }

  /** The buffers taken and handed on. */
  function Kept(s: State): nat { if s.crashed && s.taken > 0 then s.taken - 1 else s.taken }

  /** Every buffer taken is in exactly one place, in order, except the one that crashed the daemon. */
  ghost predicate OrderOk(s: State)
  {
    && s.taken <= |s.avail| <= |s.used| + s.num && s.num < IDX
    && s.avail[..Kept(s)] == s.used + InHand(s.worker) + s.procq + s.local
    && (forall k :: 0 <= k < Kept(s) ==> IsRequest(s.avail[k]))
    && (s.crashed ==> s.taken > 0 && !IsRequest(s.avail[s.taken - 1]) && s.handler.HTake?)
    && ((s.handler.HTake? || s.handler.HDisable?) && !s.crashed ==> s.taken < |s.avail|)
    && (!InLoops(s.handler) && !s.handler.HDone? && !s.handler.HLock? && !s.handler.HConcat? ==> s.local == [])
  }

  /** A buffer the handler has not seen will be announced. */
  ghost predicate NotifyOk(s: State)
  {
    && (s.noNotify ==> s.handler.HInner? || s.handler.HTake? || s.handler.HEnable?)
    && (!InLoops(s.handler) ==> s.taken == |s.avail| || !s.driver.DIdle? || s.kicks > 0)
  }

  ghost predicate MutexOk(s: State)
  {
    && (s.mtx == Some(HandlerThread) <==> s.handler.HConcat? || s.handler.HSignal? || s.handler.HUnlock?)
    && (s.mtx == Some(WorkerThread) <==> s.worker.WTake? || s.worker.WPeek? || s.worker.WPeekUnlock?)
  }

  /** The worker sleeps only when everything it completed has been announced, and never on a
      non-empty queue unless it is about to be signalled. */
  ghost predicate WorkerOk(s: State)
  {
    && s.kicked <= |s.used|
    && (s.worker.WTake? || s.worker.WRelock? || (s.worker.WPeekUnlock? && !s.worker.empty) ==>
          s.kicked == |s.used| || s.procq != [])
    && (s.worker.WWait? || s.worker.WWoken? ==> s.kicked == |s.used|)
    && (s.worker.WWait? ==> s.procq == [] || s.handler.HSignal?)
  }

  ghost predicate Inv(s: State) { OrderOk(s) && NotifyOk(s) && MutexOk(s) && WorkerOk(s) }

  lemma EmptyMeansTaken(s: State)
    requires OrderOk(s) && !s.crashed
    ensures IsEmpty(s) <==> s.taken == |s.avail|
  {
    assert |s.used| <= s.taken by { assert |s.avail[..s.taken]| == s.taken; }
  }

  lemma HandlerKeepsOrder(s: State)
    requires OrderOk(s) && Enabled(s, HandlerStep)
    ensures OrderOk(Next(s, HandlerStep))
  {
    hide IsRequest;
    var s' := Next(s, HandlerStep);
    EmptyMeansTaken(s);
    if s.handler.HTake? {
      assert s'.avail[..s'.taken] == s.avail[..s.taken] + [s.avail[s.taken]];
    }
  }

  lemma WorkerKeepsOrder(s: State)
    requires OrderOk(s) && Enabled(s, WorkerStep)
    ensures OrderOk(Next(s, WorkerStep))
  {
    hide IsRequest;
    var s' := Next(s, WorkerStep);
    if s.worker.WTake? && s.procq != [] {
      assert s.procq == [s.procq[0]] + s'.procq;
    }
    assert s.used + InHand(s.worker) + s.procq == s'.used + InHand(s'.worker) + s'.procq;
  }

  lemma KeepsOrder(s: State, step: Step)
    requires OrderOk(s) && Enabled(s, step)
    ensures OrderOk(Next(s, step))
  {
    hide IsRequest;
    match step {
      case Publish(_) => assert Next(s, step).avail[..s.taken] == s.avail[..s.taken];
      case HandlerStep => HandlerKeepsOrder(s);
      case WorkerStep => WorkerKeepsOrder(s);
      case _ =>
    }
  }

  lemma KeepsNotify(s: State, step: Step)
    requires Inv(s) && Enabled(s, step)
    ensures NotifyOk(Next(s, step))
  {
    hide IsRequest;
    EmptyMeansTaken(s);
  }

  lemma KeepsMutex(s: State, step: Step)
    requires MutexOk(s) && Enabled(s, step)
    ensures MutexOk(Next(s, step))
  {
    hide IsRequest;
  }

  lemma KeepsWorker(s: State, step: Step)
    requires OrderOk(s) && MutexOk(s) && WorkerOk(s) && Enabled(s, step)
    ensures WorkerOk(Next(s, step))
  {
    hide IsRequest;
  }

  ghost function Run(s: State, steps: seq<Step>): Option<State> {
    if steps == [] then Some(s)
    else
      match Run(s, steps[..|steps| - 1])
      case None => None
      case Some(t) => if Enabled(t, steps[|steps| - 1]) then Some(Next(t, steps[|steps| - 1])) else None
  }

  lemma {:induction false} RunKeepsInv(s: State, steps: seq<Step>)
    requires Init(s) && Run(s, steps).Some?
    ensures Inv(Run(s, steps).value)
  {
    hide OrderOk, NotifyOk, MutexOk, WorkerOk, Next;
    if steps == [] {
      InitInv(s);
    } else {
      var front, last := steps[..|steps| - 1], steps[|steps| - 1];
      RunKeepsInv(s, front);
      var t := Run(s, front).value;
      KeepsOrder(t, last);
      KeepsNotify(t, last);
      KeepsMutex(t, last);
      KeepsWorker(t, last);
    }
  }

  lemma InitInv(s: State)
    requires Init(s)
    ensures Inv(s)
  {
  }

  /** No lost kick: when the notify handler has returned, a buffer it did not take has the driver
      about to find the flag clear, about to kick, or already kicking. */
  lemma NoLostKick(s: State, steps: seq<Step>)
    requires Init(s) && Run(s, steps).Some? && Run(s, steps).value.handler.HIdle?
    ensures var t := Run(s, steps).value;
            !t.noNotify && (t.taken < |t.avail| ==> t.driver.DMustCheck? || t.driver.DMustKick? || t.kicks > 0)
  {
    hide IsRequest;
    RunKeepsInv(s, steps);
  }

  /** A sleeping worker has announced every completion, and has work only if the handler is just
      about to signal it. */
  lemma SleepsAnnounced(s: State, steps: seq<Step>)
    requires Init(s) && Run(s, steps).Some? && Run(s, steps).value.worker.WWait?
    ensures var t := Run(s, steps).value;
            t.kicked == |t.used| && (t.procq != [] ==> t.handler.HSignal?)
  {
    hide IsRequest;
    RunKeepsInv(s, steps);
  }

  /** One used entry per buffer, in the order the driver made them available; the buffers taken and not
      yet used are in hand, queued or about to be, all but the one that crashed the daemon. */
  lemma UsedInOrder(s: State, steps: seq<Step>)
    requires Init(s) && Run(s, steps).Some?
    ensures var t := Run(s, steps).value;
            && t.used <= t.avail && t.taken <= |t.avail|
            && |t.used| + |InHand(t.worker)| + |t.procq| + |t.local| + (if t.crashed then 1 else 0) == t.taken
  {
    hide IsRequest;
    RunKeepsInv(s, steps);
    var t := Run(s, steps).value;
    assert |t.avail[..Kept(t)]| == Kept(t);
    assert t.used == t.avail[..Kept(t)][..|t.used|];
  }

  /** The daemon has crashed if and only if it has taken a chain that is not a request. */
  lemma CrashesExactly(s: State, steps: seq<Step>)
    requires Init(s) && Run(s, steps).Some?
    ensures var t := Run(s, steps).value;
            t.taken <= |t.avail| && (t.crashed <==> exists k :: 0 <= k < t.taken && !IsRequest(t.avail[k]))
  {
    hide IsRequest;
    RunKeepsInv(s, steps);
  }

  // ------------------------------------------------------------------
  // No livelock: what handler and worker do is paid for by what happens around them

  function HandlerRank(s: State): nat {
    match s.handler
    case HIdle => 0
    case HUnlock => 1
    case HSignal => 4
    case HConcat => 5
    case HLock => 6
    case HDone => 7
    case HOuter => 8
    case HEnable => 9
    case HInner => if s.taken < |s.avail| then 6 else 10
    case HDisable => 7
    case HTake => 5
  }

  function WorkerRank(w: Worker): nat {
    match w
    case WWait => 0
    case WTake => 1
    case WWoken => 2
    case WRelock => 2
    case WInject => 3
    case WPeekUnlock(_) => 4
    case WPeek => 5
    case WPeekLock => 6
    case WWork(_) => 7
  }

  /** The steps that handler and worker can still take with what is there. */
  function Work(s: State): int {
    13 * (|s.avail| - s.taken) + 9 * s.kicks + HandlerRank(s) + 7 * (|s.procq| + |s.local|) + WorkerRank(s.worker)
  }

  /** What a step by somebody else can add. */
  function Pays(step: Step): nat {
    match step
    case Publish(_) => 13
    case DriverStep => 9
    case Spurious => 2
    case _ => 0
  }

  predicate IsOwn(step: Step) { step.HandlerStep? || step.WorkerStep? }

  lemma HandlerWorks(s: State)
    requires Inv(s) && Enabled(s, HandlerStep)
    ensures Work(Next(s, HandlerStep)) + 1 <= Work(s)
  {
    hide IsRequest, WorkerAfter;
    EmptyMeansTaken(s);
  }

  lemma WorkerWorks(s: State)
    requires Enabled(s, WorkerStep)
    ensures Work(Next(s, WorkerStep)) + 1 <= Work(s)
  {
    hide IsRequest, HandlerAfter;
  }

  lemma StepWorks(s: State, step: Step)
    requires Inv(s) && Enabled(s, step)
    ensures Work(Next(s, step)) + (if IsOwn(step) then 1 else 0) <= Work(s) + Pays(step)
  {
    hide Inv, IsRequest, HandlerAfter, WorkerAfter;
    match step {
      case HandlerStep => HandlerWorks(s);
      case WorkerStep => WorkerWorks(s);
      case _ =>
    }
  }

  /** Steps of handler and worker, and what the others pay for. */
  function OwnSteps(steps: seq<Step>): nat {
    if steps == [] then 0 else OwnSteps(steps[..|steps| - 1]) + if IsOwn(steps[|steps| - 1]) then 1 else 0
  }

  function Paid(steps: seq<Step>): nat {
    if steps == [] then 0 else Paid(steps[..|steps| - 1]) + Pays(steps[|steps| - 1])
  }

  lemma {:induction false} WorkLeft(s: State, steps: seq<Step>)
    requires Init(s) && Run(s, steps).Some?
    ensures Work(Run(s, steps).value) + OwnSteps(steps) <= Work(s) + Paid(steps)
  {
    hide Next, Enabled, Inv, Work;
    if steps != [] {
      var front := steps[..|steps| - 1];
      WorkLeft(s, front);
      RunKeepsInv(s, front);
      StepWorks(Run(s, front).value, steps[|steps| - 1]);
    }
  }

  /** Neither thread spins: in every run they take at most 13 steps for each buffer made available, 9 for
      each step of the driver after that, 2 for each spurious wake-up, and 2 to start. */
  lemma NoSpinning(s: State, steps: seq<Step>)
    requires Init(s) && Run(s, steps).Some?
    ensures OwnSteps(steps) <= Paid(steps) + 2
  {
    hide Run, Inv;
    WorkLeft(s, steps);
    RunKeepsInv(s, steps);
    WorkIsLeft(Run(s, steps).value);
  }

  lemma WorkIsLeft(s: State)
    requires Inv(s)
    ensures Work(s) >= 0
  {
    hide IsRequest;
  }

  /** And when they come to rest, with the driver at rest too, everything published has been served and
      announced. */
  lemma RestMeansServed(s: State, steps: seq<Step>)
    requires Init(s) && Run(s, steps).Some?
    requires var t := Run(s, steps).value;
             !t.crashed && t.driver.DIdle? && !Enabled(t, HandlerStep) && !Enabled(t, WorkerStep)
    ensures var t := Run(s, steps).value; t.used == t.avail && t.kicked == |t.used| && !t.noNotify
  {
    hide Run, IsRequest;
    RunKeepsInv(s, steps);
    var t := Run(s, steps).value;
    AtRest(t);
    assert t.avail[..|t.avail|] == t.avail;
  }

  lemma AtRest(t: State)
    requires Inv(t) && !t.crashed && !Enabled(t, HandlerStep) && !Enabled(t, WorkerStep)
    ensures t.handler.HIdle? && t.kicks == 0 && t.worker.WWait?
  {
    hide IsRequest;
    match t.mtx case None => case Some(HandlerThread) => case Some(WorkerThread) =>
  }

  /** The driver makes only these chains available. */
  ghost predicate PublishesOnly(steps: seq<Step>, chains: set<Buffer>) {
    forall k :: 0 <= k < |steps| && steps[k].Publish? ==> steps[k].buffer in chains
  }

  lemma {:induction false} OnlyPublished(s: State, steps: seq<Step>, chains: set<Buffer>)
    requires Init(s) && Run(s, steps).Some? && PublishesOnly(steps, chains)
    ensures forall b :: b in Run(s, steps).value.avail ==> b in chains
  {
    hide IsRequest, HandlerAfter, WorkerAfter;
    if steps != [] {
      OnlyPublished(s, steps[..|steps| - 1], chains);
      assert steps[|steps| - 1].Publish? ==> steps[|steps| - 1].buffer in chains;
    }
  }

  /** A driver that publishes from `chains` never crashes the daemon, in any interleaving, if and only
      if all of them are requests. */
  lemma SafeExactly(s: State, chains: set<Buffer>)
    requires Init(s) && s.num > 0
    ensures (forall steps: seq<Step> :: PublishesOnly(steps, chains) && Run(s, steps).Some? ==>
                                          !Run(s, steps).value.crashed)
            <==> forall b :: b in chains ==> IsRequest(b)
  {
    hide IsRequest, Run, PublishesOnly;
    if forall b :: b in chains ==> IsRequest(b) {
      forall steps: seq<Step> | PublishesOnly(steps, chains) && Run(s, steps).Some?
        ensures !Run(s, steps).value.crashed
      {
        CrashesExactly(s, steps);
        OnlyPublished(s, steps, chains);
        var t := Run(s, steps).value;
        assert forall k :: 0 <= k < t.taken ==> t.avail[k] in t.avail;
      }
    } else {
      var b :| b in chains && !IsRequest(b);
      var steps := CrashRun(s, b);
      assert PublishesOnly(steps, chains) by { OnlyThis(steps, b, chains); }
    }
  }

  lemma OnlyThis(steps: seq<Step>, b: Buffer, chains: set<Buffer>)
    requires b in chains && forall k :: 0 <= k < |steps| ==> steps[k].Publish? ==> steps[k].buffer == b
    ensures PublishesOnly(steps, chains)
  {
  }

  /** Published, kicked and taken. */
  lemma CrashRun(s: State, b: Buffer) returns (steps: seq<Step>)
    requires Init(s) && s.num > 0 && !IsRequest(b)
    ensures forall k :: 0 <= k < |steps| && steps[k].Publish? ==> steps[k].buffer == b
    ensures Run(s, steps).Some? && Run(s, steps).value.crashed
  {
    hide IsRequest, Run, Next;
    NoSteps(s);
    Kicks(s, b);
    var kicked := s.(avail := [b], kicks := 1);
    var s1 := Extend(s, [], s, Publish(b));
    var s2 := Extend(s, s1, s.(avail := [b], driver := DMustCheck), DriverStep);
    var s3 := Extend(s, s2, s.(avail := [b], driver := DMustKick), DriverStep);
    Takes(kicked);
    var s4 := Extend(s, s3, kicked, HandlerStep);
    var s5 := Extend(s, s4, kicked.(kicks := 0, handler := HOuter), HandlerStep);
    var s6 := Extend(s, s5, kicked.(kicks := 0, handler := HDisable), HandlerStep);
    var s7 := Extend(s, s6, kicked.(kicks := 0, handler := HInner, noNotify := true), HandlerStep);
    steps := Extend(s, s7, kicked.(kicks := 0, handler := HTake, noNotify := true), HandlerStep);
  }

  lemma Kicks(s: State, b: Buffer)
    requires Init(s) && s.num > 0
    ensures Enabled(s, Publish(b)) && Next(s, Publish(b)) == s.(avail := [b], driver := DMustCheck)
    ensures var t := s.(avail := [b], driver := DMustCheck);
            Enabled(t, DriverStep) && Next(t, DriverStep) == s.(avail := [b], driver := DMustKick)
    ensures var t := s.(avail := [b], driver := DMustKick);
            Enabled(t, DriverStep) && Next(t, DriverStep) == s.(avail := [b], kicks := 1)
  {
    hide IsRequest, HandlerAfter, WorkerAfter;
    assert s.avail + [b] == [b];
  }

  lemma Takes(t: State)
    requires t.handler.HIdle? && t.kicks == 1 && |t.avail| == 1 && t.taken == 0 && !IsRequest(t.avail[0]) && !t.crashed
    ensures Enabled(t, HandlerStep) && Next(t, HandlerStep) == t.(kicks := 0, handler := HOuter)
    ensures var u := t.(kicks := 0, handler := HOuter);
            Enabled(u, HandlerStep) && Next(u, HandlerStep) == t.(kicks := 0, handler := HDisable)
    ensures var u := t.(kicks := 0, handler := HDisable);
            Enabled(u, HandlerStep) && Next(u, HandlerStep) == t.(kicks := 0, handler := HInner, noNotify := true)
    ensures var u := t.(kicks := 0, handler := HInner, noNotify := true);
            Enabled(u, HandlerStep) && Next(u, HandlerStep) == t.(kicks := 0, handler := HTake, noNotify := true)
    ensures var u := t.(kicks := 0, handler := HTake, noNotify := true);
            Enabled(u, HandlerStep) && Next(u, HandlerStep).crashed
  {
    hide IsRequest, WorkerAfter;
  }

  lemma NoSteps(s: State)
    ensures Run(s, []) == Some(s)
  {
  }

  lemma Extend(s: State, steps: seq<Step>, t: State, step: Step) returns (more: seq<Step>)
    requires Run(s, steps) == Some(t) && Enabled(t, step)
    ensures more == steps + [step] && Run(s, more) == Some(Next(t, step))
  {
    hide IsRequest, Next;
    more := steps + [step];
    assert more[..|more| - 1] == steps;
  }
}
