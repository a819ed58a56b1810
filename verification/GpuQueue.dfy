/** The GPU device's control queue: the notify handler, the command queue and the worker thread
    (hvisor-tool, `tools/virtio_gpu_base.c`, `tools/virtio_gpu_async.c`, and the response path of
    `tools/virtio_gpu.c`), for control-queue traffic.

    Every shared access is one step.  A command whose chain is too short for the control header is
    dropped by the command processor without a response; otherwise the handler of its type may
    respond with data itself, and a response without data is sent if it did not.  `processed`,
    `kicked` and `missed` only record what happened. */
module GpuQueue {

  import opened Wrappers

  const IDX: nat := 0x1_0000
  const MAX_REQUEST_BEFORE_KICK := 16

  datatype Command = Command(head: nat, hasHeader: bool)

  datatype Driver = DIdle | DMustCheck | DMustKick

  datatype Notifier =
    | NIdle | NDisable | NCheck | NTake
    | NLock(cmd: Command) | NInsert(cmd: Command) | NUnlock
    | NSigLock | NSignal | NSigUnlock
    | NEnable

  datatype Worker =
    | GLoop                      // holding the mutex, at the test of the inner loop
    | GProcess(cmd: Command)     // no lock from here to GRelock
    | GHandle(cmd: Command)      // has the header, at the switch over command types
    | GFinish(cmd: Command, finished: bool, error: nat)
    | GCount
    | GKickFull                  // `request_cnt` reached the limit
    | GRelock
    | GKickIdle                  // queue empty, something completed; still holding the mutex
    | GWait | GWoken

  datatype Who = NotifierThread | WorkerThread

  /** A handler sends a response with data, or leaves an error code (0 for none). */
  datatype Outcome = SendsData | Leaves(error: nat)

  datatype Response = Data | NoData(error: nat)

  datatype Used = Used(head: nat, response: Response)

  datatype State = State(
    num: nat,
    avail: seq<Command>, taken: nat, noNotify: bool, driver: Driver, kicks: nat,
    notifier: Notifier,
    mutex: Option<Who>, queue: seq<Command>, worker: Worker, requestCnt: nat,
    processed: seq<Command>, used: seq<Used>, kicked: nat, missed: bool)

  datatype Step = Publish(cmd: Command) | DriverStep | NotifierStep | WorkerStep | Handle(outcome: Outcome) | Spurious

  predicate IsEmpty(s: State) { s.taken % IDX == |s.avail| % IDX }

  predicate Enabled(s: State, step: Step) {
    match step
    case Publish(_) => !s.driver.DMustKick? && |s.avail| < |s.used| + s.num
    case DriverStep => !s.driver.DIdle?
    case NotifierStep =>
      (match s.notifier
       case NIdle => s.kicks > 0
       case NTake => s.taken < |s.avail|
       case NLock(_) => s.mutex.None?
       case NSigLock => s.mutex.None?
       case _ => true)
    case WorkerStep =>
      (match s.worker
       case GRelock => s.mutex.None?
       case GWoken => s.mutex.None?
       case GWait => false
       case GHandle(_) => false
       case _ => true)
    case Handle(_) => s.worker.GHandle?
    case Spurious => s.worker.GWait?
  }

  function NotifierAfter(s: State): Notifier
    requires s.notifier.NTake? ==> s.taken < |s.avail|
  {
    match s.notifier
    case NIdle => NDisable
    case NDisable => NCheck
    case NCheck => if IsEmpty(s) then NSigLock else NTake
    case NTake => NLock(s.avail[s.taken])
    case NLock(b) => NInsert(b)
    case NInsert(_) => NUnlock
    case NUnlock => NCheck
    case NSigLock => NSignal
    case NSignal => NSigUnlock
    case NSigUnlock => NEnable
    case NEnable => NIdle
  }

  function WorkerAfter(s: State): Worker {
    match s.worker
    case GLoop => if s.queue != [] then GProcess(s.queue[0]) else if s.requestCnt != 0 then GKickIdle else GWait
    case GProcess(cmd) => if cmd.hasHeader then GHandle(cmd) else GCount
    case GHandle(_) => s.worker
    case GFinish(_, _, _) => GCount
    case GCount => if s.requestCnt + 1 >= MAX_REQUEST_BEFORE_KICK then GKickFull else GRelock
    case GKickFull => GRelock
    case GRelock => GLoop
    case GKickIdle => GWait
    case GWait => GWoken
    case GWoken => GLoop
  }

  /** The notifier has found the ring empty for the last time and not yet switched notification on. */
  predicate InWindow(n: Notifier) { n.NSigLock? || n.NSignal? || n.NSigUnlock? || n.NEnable? }

  /** Looking at the flag now, the driver is told not to kick for a command that nobody will look for. */
  predicate LooksTooEarly(s: State) {
    InWindow(s.notifier) && s.noNotify && s.taken < |s.avail| && s.kicks == 0
  }

  function Next(s: State, step: Step): State
    requires Enabled(s, step)
  {
    match step
    case Publish(b) => s.(avail := s.avail + [b], driver := DMustCheck, missed := false)
    case DriverStep =>
      if s.driver.DMustCheck? then s.(driver := if s.noNotify then DIdle else DMustKick, missed := LooksTooEarly(s))
      else s.(driver := DIdle, kicks := s.kicks + 1)
    case NotifierStep =>
      var n := s.notifier;
      s.(notifier := NotifierAfter(s),
         kicks := if n.NIdle? then s.kicks - 1 else s.kicks,
         noNotify := if n.NDisable? then true else if n.NEnable? then false else s.noNotify,
         taken := if n.NTake? then s.taken + 1 else s.taken,
         mutex := if n.NLock? || n.NSigLock? then Some(NotifierThread)
                  else if n.NUnlock? || n.NSigUnlock? then None
                  else s.mutex,
         queue := if n.NInsert? then s.queue + [n.cmd] else s.queue,
         worker := if n.NSignal? && s.worker.GWait? then GWoken else s.worker)
    case WorkerStep =>
      var w := s.worker;
      s.(worker := WorkerAfter(s),
         queue := if w.GLoop? && s.queue != [] then s.queue[1..] else s.queue,
         mutex := if w.GRelock? || w.GWoken? then Some(WorkerThread)
                  else if w.GKickIdle? || (w.GLoop? && !(s.queue == [] && s.requestCnt != 0)) then None
                  else s.mutex,
         processed := if (w.GProcess? && !w.cmd.hasHeader) || w.GFinish? then s.processed + [w.cmd] else s.processed,
         used := if w.GFinish? && !w.finished then s.used + [Used(w.cmd.head, NoData(w.error))] else s.used,
         requestCnt := if w.GCount? then s.requestCnt + 1 else if w.GKickFull? || w.GKickIdle? then 0 else s.requestCnt,
         kicked := if w.GKickFull? || w.GKickIdle? then |s.processed| else s.kicked)
    case Handle(outcome) =>
      var cmd := s.worker.cmd;
      if outcome.SendsData?
      then s.(worker := GFinish(cmd, true, 0), used := s.used + [Used(cmd.head, Data)])
      else s.(worker := GFinish(cmd, false, outcome.error))
    case Spurious => s.(worker := GWoken)
  }

  predicate Init(s: State) {
    && s.num < IDX && s.avail == [] && s.taken == 0 && !s.noNotify && s.driver.DIdle? && s.kicks == 0
    && s.notifier.NIdle? && s.mutex.None? && s.queue == [] && s.worker.GRelock? && s.requestCnt == 0
    && s.processed == [] && s.used == [] && s.kicked == 0 && !s.missed
  }

  // ------------------------------------------------------------------

  /** The responses due for a sequence of commands. */
  function Responses(cmds: seq<Command>): seq<nat> {
    if cmds == [] then []
    else
      var last := cmds[|cmds| - 1];
      Responses(cmds[..|cmds| - 1]) + (if last.hasHeader then [last.head] else [])
  }

  lemma ResponsesAppend(cmds: seq<Command>, c: Command)
    ensures Responses(cmds + [c]) == Responses(cmds) + (if c.hasHeader then [c.head] else [])
  {
    assert (cmds + [c])[..|cmds|] == cmds;
  }

  lemma {:induction false} ResponsesBound(cmds: seq<Command>)
    ensures |Responses(cmds)| <= |cmds|
  {
    if cmds != [] { ResponsesBound(cmds[..|cmds| - 1]); }
  }

  lemma {:induction false} AllRespond(cmds: seq<Command>)
    requires forall i :: 0 <= i < |cmds| ==> cmds[i].hasHeader
    ensures |Responses(cmds)| == |cmds| && forall i :: 0 <= i < |cmds| ==> Responses(cmds)[i] == cmds[i].head
  {
    if cmds != [] { AllRespond(cmds[..|cmds| - 1]); }
  }

  function Heads(used: seq<Used>): (r: seq<nat>)
    ensures |r| == |used|
  {
    seq(|used|, i requires 0 <= i < |used| => used[i].head)
  }

  lemma HeadsAppend(used: seq<Used>, u: Used)
    ensures Heads(used + [u]) == Heads(used) + [u.head]
  {
  }

  function InHand(w: Worker): seq<Command> { if w.GProcess? || w.GHandle? || w.GFinish? then [w.cmd] else [] }

  function InTransit(n: Notifier): seq<Command> { if n.NLock? || n.NInsert? then [n.cmd] else [] }

  /** The command in hand whose response has been sent already. */
  function Early(w: Worker): seq<Command> { if w.GFinish? && w.finished then [w.cmd] else [] }

  ghost predicate OrderOk(s: State)
  {
    && s.taken <= |s.avail|
    && s.avail[..s.taken] == s.processed + InHand(s.worker) + s.queue + InTransit(s.notifier)
  }

  ghost predicate ResponsesOk(s: State)
  {
    && Heads(s.used) == Responses(s.processed + Early(s.worker))
    && (s.worker.GHandle? || s.worker.GFinish? ==> s.worker.cmd.hasHeader)
  }

  /** What is left untaken when the notifier is through with the ring was looked at too early. */
  ghost predicate NotifyOk(s: State)
  {
    && (s.noNotify <==> !s.notifier.NIdle? && !s.notifier.NDisable?)
    && (s.notifier.NTake? ==> s.taken < |s.avail|)
    && s.taken <= |s.avail| <= s.taken + s.num < s.taken + IDX
    && (s.missed ==>
          s.driver.DIdle? && s.kicks == 0 && s.taken < |s.avail| && (InWindow(s.notifier) || s.notifier.NIdle?))
    && (InWindow(s.notifier) || s.notifier.NIdle? ==>
          (s.taken < |s.avail| && s.driver.DIdle? && s.kicks == 0 ==> s.missed))
  }

  ghost predicate MutexOk(s: State)
  {
    && (s.mutex == Some(NotifierThread) <==>
        s.notifier.NInsert? || s.notifier.NUnlock? || s.notifier.NSignal? || s.notifier.NSigUnlock?)
    && (s.mutex == Some(WorkerThread) <==> s.worker.GLoop? || s.worker.GKickIdle?)
  }

  /** The notifier has still to signal the worker. */
  predicate WillSignal(n: Notifier) {
    n.NCheck? || n.NTake? || n.NLock? || n.NInsert? || n.NUnlock? || n.NSigLock? || n.NSignal?
  }

  ghost predicate WorkerOk(s: State)
  {
    && s.kicked + s.requestCnt + (if s.worker.GCount? then 1 else 0) == |s.processed|
    && (if s.worker.GKickFull? then s.requestCnt == MAX_REQUEST_BEFORE_KICK else s.requestCnt < MAX_REQUEST_BEFORE_KICK)
    && (s.worker.GWait? || s.worker.GWoken? ==> s.requestCnt == 0)
    && (s.worker.GKickIdle? ==> s.queue == [])
    && (s.worker.GWait? ==> s.queue == [] || WillSignal(s.notifier))
  }

  ghost predicate Inv(s: State) { OrderOk(s) && ResponsesOk(s) && NotifyOk(s) && MutexOk(s) && WorkerOk(s) }

  lemma NotifierKeepsOrder(s: State)
    requires OrderOk(s) && Enabled(s, NotifierStep)
    ensures OrderOk(Next(s, NotifierStep))
  {
    var s' := Next(s, NotifierStep);
    if s.notifier.NTake? {
      assert s'.avail[..s'.taken] == s.avail[..s.taken] + [s.avail[s.taken]];
    }
    if s.notifier.NInsert? {
      assert s.queue + InTransit(s.notifier) == s'.queue + InTransit(s'.notifier);
    }
  }

  lemma WorkerKeepsOrder(s: State)
    requires OrderOk(s) && Enabled(s, WorkerStep)
    ensures OrderOk(Next(s, WorkerStep))
  {
    var s' := Next(s, WorkerStep);
    if s.worker.GLoop? && s.queue != [] {
      assert s.queue == [s.queue[0]] + s'.queue;
    }
    assert s.processed + InHand(s.worker) + s.queue == s'.processed + InHand(s'.worker) + s'.queue;
  }

  lemma KeepsOrder(s: State, step: Step)
    requires OrderOk(s) && Enabled(s, step)
    ensures OrderOk(Next(s, step))
  {
    match step {
      case Publish(_) => assert Next(s, step).avail[..s.taken] == s.avail[..s.taken];
      case NotifierStep => NotifierKeepsOrder(s);
      case WorkerStep => WorkerKeepsOrder(s);
      case _ =>
    }
  }

  /** A command has its response when it is left behind, and never a second one. */
  lemma WorkerKeepsResponses(s: State)
    requires ResponsesOk(s) && Enabled(s, WorkerStep)
    ensures ResponsesOk(Next(s, WorkerStep))
  {
    hide Responses, Heads;
    var s', w := Next(s, WorkerStep), s.worker;
    assert s'.processed + Early(s'.worker) == s'.processed;
    if w.GFinish? {
      ResponsesAppend(s.processed, w.cmd);
      HeadsAppend(s.used, Used(w.cmd.head, NoData(w.error)));
      assert s.processed + Early(w) == if w.finished then s'.processed else s.processed;
    } else {
      assert s.processed + Early(w) == s.processed;
      if w.GProcess? { ResponsesAppend(s.processed, w.cmd); }
    }
  }

  lemma HandleKeepsResponses(s: State, outcome: Outcome)
    requires ResponsesOk(s) && Enabled(s, Handle(outcome))
    ensures ResponsesOk(Next(s, Handle(outcome)))
  {
    hide Responses, Heads;
    var s', cmd := Next(s, Handle(outcome)), s.worker.cmd;
    assert s.processed + Early(s.worker) == s.processed;
    ResponsesAppend(s.processed, cmd);
    HeadsAppend(s.used, Used(cmd.head, Data));
    assert s'.processed + Early(s'.worker) == if outcome.SendsData? then s.processed + [cmd] else s.processed;
  }

  lemma KeepsResponses(s: State, step: Step)
    requires ResponsesOk(s) && Enabled(s, step)
    ensures ResponsesOk(Next(s, step))
  {
    hide Responses, Heads;
    match step {
      case WorkerStep => WorkerKeepsResponses(s);
      case Handle(outcome) => HandleKeepsResponses(s, outcome);
      case _ =>
    }
  }

  /** The driver waits for used buffers, so it is never a whole index range ahead. */
  lemma RoomKept(s: State, step: Step)
    requires OrderOk(s) && ResponsesOk(s) && NotifyOk(s) && Enabled(s, step) && step.Publish?
    ensures |s.avail| + 1 <= s.taken + s.num
  {
    hide Responses, Heads;
    ResponsesBound(s.processed + Early(s.worker));
    assert |s.avail[..s.taken]| == s.taken;
  }

  lemma KeepsNotify(s: State, step: Step)
    requires OrderOk(s) && ResponsesOk(s) && NotifyOk(s) && Enabled(s, step)
    ensures NotifyOk(Next(s, step))
  {
    hide OrderOk, ResponsesOk, WorkerAfter;
    if step.Publish? { RoomKept(s, step); }
    EmptyMeansTaken(s);
  }

  lemma EmptyMeansTaken(s: State)
    requires NotifyOk(s)
    ensures IsEmpty(s) <==> s.taken == |s.avail|
  {
  }

  lemma KeepsWorker(s: State, step: Step)
    requires MutexOk(s) && WorkerOk(s) && Enabled(s, step)
    ensures MutexOk(Next(s, step)) && WorkerOk(Next(s, step))
  {
  }

  lemma KeepsInv(s: State, step: Step)
    requires Inv(s) && Enabled(s, step)
    ensures Inv(Next(s, step))
  {
    hide OrderOk, ResponsesOk, NotifyOk, MutexOk, WorkerOk, Next, Enabled;
    KeepsOrder(s, step);
    KeepsResponses(s, step);
    KeepsNotify(s, step);
    KeepsWorker(s, step);
  }

  function Run(s: State, steps: seq<Step>): Option<State> {
    if steps == [] then Some(s)
    else
      match Run(s, steps[..|steps| - 1])
      case None => None
      case Some(t) => if Enabled(t, steps[|steps| - 1]) then Some(Next(t, steps[|steps| - 1])) else None
  }

  lemma {:induction false} RunKeepsInv(s: State, steps: seq<Step>)
    requires Init(s) && Run(s, steps).Some?
    ensures Inv(Run(s, steps).value)
  {
    if steps != [] {
      var front, last := steps[..|steps| - 1], steps[|steps| - 1];
      RunKeepsInv(s, front);
      KeepsInv(Run(s, front).value, last);
    }
  }

  /** The used entries are the responses due to the processed commands, in arrival order; the
      commands taken and not yet processed follow, in order. */
  lemma RespondsInOrder(s: State, steps: seq<Step>)
    requires Init(s) && Run(s, steps).Some?
    ensures Accounted(Run(s, steps).value)
  {
    hide Run, Init, Accounted;
    RunKeepsInv(s, steps);
    OrderAccounts(Run(s, steps).value);
  }

  ghost predicate Accounted(t: State)
  {
    && |t.processed| <= t.taken <= |t.avail|
    && t.processed == t.avail[..|t.processed|]
    && Heads(t.used) == Responses(t.processed + Early(t.worker))
    && t.avail[|t.processed|..t.taken] == InHand(t.worker) + t.queue + InTransit(t.notifier)
  }

  lemma OrderAccounts(t: State)
    requires OrderOk(t) && ResponsesOk(t)
    ensures Accounted(t)
  {
    hide Responses, Heads;
    var rest := InHand(t.worker) + t.queue + InTransit(t.notifier);
    assert t.avail[..t.taken] == t.processed + rest;
    assert |t.processed| + |rest| == t.taken;
    assert t.avail[..|t.processed|] == t.avail[..t.taken][..|t.processed|];
    assert t.avail[|t.processed|..t.taken] == t.avail[..t.taken][|t.processed|..];
  }

  predicate AllHeaders(steps: seq<Step>) {
    forall i :: 0 <= i < |steps| && steps[i].Publish? ==> steps[i].cmd.hasHeader
  }

  lemma {:induction false} AvailHeaders(s: State, steps: seq<Step>)
    requires Init(s) && Run(s, steps).Some? && AllHeaders(steps)
    ensures forall i :: 0 <= i < |Run(s, steps).value.avail| ==> Run(s, steps).value.avail[i].hasHeader
  {
    if steps != [] { AvailHeaders(s, steps[..|steps| - 1]); }
  }

  /** When every chain holds a header, the i-th command made available gets the i-th used entry:
      exactly one each, sent by the time the command is left behind. */
  lemma OneResponseEach(s: State, steps: seq<Step>)
    requires Init(s) && Run(s, steps).Some? && AllHeaders(steps)
    ensures var t := Run(s, steps).value;
            && |t.processed| <= |t.avail| && |t.used| <= |t.avail|
            && |t.used| == |t.processed| + (if t.worker.GFinish? && t.worker.finished then 1 else 0)
            && forall i :: 0 <= i < |t.used| ==> t.used[i].head == t.avail[i].head
  {
    hide Run, Responses;
    RespondsInOrder(s, steps);
    AvailHeaders(s, steps);
    var t := Run(s, steps).value;
    var done := t.processed + Early(t.worker);
    EarlyIsNext(t);
    AllRespond(done);
    assert forall i :: 0 <= i < |t.used| ==> Heads(t.used)[i] == t.used[i].head;
  }

  /** What the handlers called in a run did, in order. */
  function Outcomes(steps: seq<Step>): seq<Outcome> {
    if steps == [] then []
    else
      var last := steps[|steps| - 1];
      Outcomes(steps[..|steps| - 1]) + if last.Handle? then [last.outcome] else []
  }

  /** A response with data, or the error code that the handler left. */
  predicate ResponseTo(outcome: Outcome, response: Response) {
    match outcome
    case SendsData => response == Data
    case Leaves(error) => response == NoData(error)
  }

  /** Each response is what its handler called for, and all handlers but one that has just left its error
      code have been responded for. */
  ghost predicate Responded(t: State, handled: seq<Outcome>) {
    var due := t.worker.GFinish? && !t.worker.finished;
    && |handled| == |t.used| + (if due then 1 else 0)
    && (due ==> handled[|t.used|] == Leaves(t.worker.error))
    && forall i :: 0 <= i < |t.used| ==> ResponseTo(handled[i], t.used[i].response)
  }

  lemma StepResponds(t: State, handled: seq<Outcome>, x: Step)
    requires Enabled(t, x) && Responded(t, handled)
    ensures Responded(Next(t, x), handled + if x.Handle? then [x.outcome] else [])
  {
    hide NotifierAfter;
    if !x.Handle? { assert handled + [] == handled; }
  }

  /** In every run the i-th response is what the i-th handler called for. */
  lemma {:induction false} ResponsesAre(s: State, steps: seq<Step>)
    requires Init(s) && Run(s, steps).Some?
    ensures Responded(Run(s, steps).value, Outcomes(steps))
  {
    hide Next, Enabled;
    if steps != [] {
      var front := steps[..|steps| - 1];
      ResponsesAre(s, front);
      StepResponds(Run(s, front).value, Outcomes(front), steps[|steps| - 1]);
    }
  }

  lemma EarlyIsNext(t: State)
    requires Accounted(t)
    ensures var done := t.processed + Early(t.worker); |done| <= |t.avail| && done == t.avail[..|done|]
  {
    hide Responses, Heads;
    if Early(t.worker) != [] {
      assert t.avail[|t.processed|..t.taken][0] == t.worker.cmd;
    }
  }

  // ------------------------------------------------------------------
  // No livelock: what notifier and worker do is paid for by what happens around them

  function NotifierRank(s: State): nat {
    match s.notifier
    case NIdle => 0
    case NEnable => 1
    case NSigUnlock => 2
    case NSignal => 6
    case NSigLock => 7
    case NCheck => if s.taken < |s.avail| then 6 else 8
    case NUnlock => 9
    case NDisable => 9
    case NInsert(_) => 17
    case NLock(_) => 18
    case NTake => 5
  }

  function WorkerRank(w: Worker): nat {
    match w
    case GWait => 0
    case GKickIdle => 1
    case GLoop => 2
    case GRelock => 3
    case GWoken => 3
    case GKickFull => 4
    case GCount => 5
    case GFinish(_, _, _) => 6
    case GHandle(_) => 7
    case GProcess(_) => 8
  }

  /** The steps that notifier and worker can still take with what is there. */
  function Work(s: State): int {
    14 * (|s.avail| - s.taken) + 10 * s.kicks + NotifierRank(s) + 7 * |s.queue| + WorkerRank(s.worker)
  }

  /** What a step by somebody else can add. */
  function Pays(step: Step): nat {
    match step
    case Publish(_) => 14
    case DriverStep => 10
    case Spurious => 3
    case _ => 0
  }

  predicate IsOwn(step: Step) { step.NotifierStep? || step.WorkerStep? || step.Handle? }

  lemma NotifierWorks(s: State)
    requires Inv(s) && Enabled(s, NotifierStep)
    ensures Work(Next(s, NotifierStep)) + 1 <= Work(s)
  {
    hide WorkerAfter, ResponsesOk, LooksTooEarly;
    EmptyMeansTaken(s);
  }

  lemma WorkerWorks(s: State, step: Step)
    requires Enabled(s, step) && (step.WorkerStep? || step.Handle?)
    ensures Work(Next(s, step)) + 1 <= Work(s)
  {
    hide NotifierAfter, LooksTooEarly;
  }

  lemma StepWorks(s: State, step: Step)
    requires Inv(s) && Enabled(s, step)
    ensures Work(Next(s, step)) + (if IsOwn(step) then 1 else 0) <= Work(s) + Pays(step)
  {
    hide Inv, NotifierAfter, WorkerAfter, LooksTooEarly;
    match step {
      case NotifierStep => NotifierWorks(s);
      case WorkerStep => WorkerWorks(s, step);
      case Handle(_) => WorkerWorks(s, step);
      case _ =>
    }
  }

  /** Steps of notifier and worker, and what the others pay for. */
  function OwnSteps(steps: seq<Step>): nat {
    if steps == [] then 0 else OwnSteps(steps[..|steps| - 1]) + if IsOwn(steps[|steps| - 1]) then 1 else 0
  }

  function Paid(steps: seq<Step>): nat {
    if steps == [] then 0 else Paid(steps[..|steps| - 1]) + Pays(steps[|steps| - 1])
  }

  lemma {:induction false} WorkLeft(s: State, steps: seq<Step>)
    requires Init(s) && Run(s, steps).Some?
    ensures Work(Run(s, steps).value) + OwnSteps(steps) <= Work(s) + Paid(steps)
  {
    hide Next, Enabled, Inv, Work;
    if steps != [] {
      var front := steps[..|steps| - 1];
      WorkLeft(s, front);
      RunKeepsInv(s, front);
      StepWorks(Run(s, front).value, steps[|steps| - 1]);
    }
  }

  lemma WorkIsLeft(s: State)
    requires Inv(s)
    ensures Work(s) >= 0
  {
    hide ResponsesOk, NotifyOk, MutexOk, WorkerOk;
  }

  /** Neither thread spins: in every run they take at most 14 steps for each command made available, 10
      for each step of the driver after that, 3 for each spurious wake-up, and 3 to start. */
  lemma NoSpinning(s: State, steps: seq<Step>)
    requires Init(s) && Run(s, steps).Some?
    ensures OwnSteps(steps) <= Paid(steps) + 3
  {
    hide Run, Inv;
    WorkLeft(s, steps);
    RunKeepsInv(s, steps);
    WorkIsLeft(Run(s, steps).value);
  }

  /** And when they come to rest, with the driver at rest too, every command has been processed and
      announced, unless a kick has been lost. */
  lemma RestMeansProcessed(s: State, steps: seq<Step>)
    requires Init(s) && Run(s, steps).Some?
    requires var t := Run(s, steps).value;
             t.driver.DIdle? && !Enabled(t, NotifierStep) && !Enabled(t, WorkerStep) && !t.worker.GHandle?
    ensures var t := Run(s, steps).value;
            && t.processed <= t.avail && t.kicked == |t.processed| && !t.noNotify
            && (|t.processed| < |t.avail| <==> KickLost(t))
  {
    hide Run, ResponsesOk;
    RunKeepsInv(s, steps);
    var t := Run(s, steps).value;
    AtRest(t);
    assert t.avail[..t.taken] == t.processed;
  }

  lemma AtRest(t: State)
    requires Inv(t) && !Enabled(t, NotifierStep) && !Enabled(t, WorkerStep) && !t.worker.GHandle?
    ensures t.notifier.NIdle? && t.kicks == 0 && t.worker.GWait?
  {
    hide ResponsesOk;
    match t.mutex case None => case Some(NotifierThread) => case Some(WorkerThread) =>
  }

  /** At most 16 commands complete between two kicks; a sleeping worker has kicked for all of them,
      and sleeps on a non-empty queue only if the notifier has yet to signal. */
  lemma KicksInTime(s: State, steps: seq<Step>)
    requires Init(s) && Run(s, steps).Some?
    ensures var t := Run(s, steps).value;
            && t.kicked <= |t.processed| <= t.kicked + 16
            && (t.worker.GWait? ==> t.kicked == |t.processed| && (t.queue != [] ==> WillSignal(t.notifier)))
  {
    RunKeepsInv(s, steps);
  }

  // ------------------------------------------------------------------
  // When a kick is lost

  /** A command is left with nobody about to announce it. */
  predicate KickLost(t: State) { t.taken < |t.avail| && t.driver.DIdle? && t.kicks == 0 }

  /** At step `k` the driver looked at the flag too early. */
  ghost predicate TooEarlyAt(s: State, steps: seq<Step>, k: nat) {
    && k < |steps| && steps[k].DriverStep? && Run(s, steps[..k]).Some?
    && var t := Run(s, steps[..k]).value; t.driver.DMustCheck? && LooksTooEarly(t)
  }

  predicate NoPublish(steps: seq<Step>, from: nat) {
    forall i :: from <= i < |steps| ==> !steps[i].Publish?
  }

  /** The driver's last look at the flag was too early, and nothing has been published since. */
  ghost predicate LookedTooEarly(s: State, steps: seq<Step>) {
    exists k: nat :: TooEarlyAt(s, steps, k) && NoPublish(steps, k)
  }

  lemma TooEarlyPrefix(s: State, steps: seq<Step>, k: nat)
    requires k + 1 < |steps|
    ensures TooEarlyAt(s, steps, k) <==> TooEarlyAt(s, steps[..|steps| - 1], k)
    ensures NoPublish(steps, k) <==> NoPublish(steps[..|steps| - 1], k) && !steps[|steps| - 1].Publish?
  {
    hide Run, LooksTooEarly;
    assert steps[..|steps| - 1][..k] == steps[..k];
  }

  /** One more step: the look was too early if this is such a look, or an earlier one was and this
      step publishes nothing. */
  lemma LookedStep(s: State, steps: seq<Step>)
    requires steps != [] && Run(s, steps[..|steps| - 1]).Some?
    ensures var n := |steps| - 1;
            LookedTooEarly(s, steps) <==>
            TooEarlyAt(s, steps, n) || (LookedTooEarly(s, steps[..n]) && !steps[n].Publish?)
  {
    hide Run, TooEarlyAt, NoPublish, LooksTooEarly;
    var n := |steps| - 1;
    LastTooEarly(s, steps);
    if LookedTooEarly(s, steps) {
      var k: nat :| TooEarlyAt(s, steps, k) && NoPublish(steps, k);
      EarlierThan(s, steps, k);
      if k < n { TooEarlyPrefix(s, steps, k); }
    }
    if LookedTooEarly(s, steps[..n]) && !steps[n].Publish? {
      var k: nat :| TooEarlyAt(s, steps[..n], k) && NoPublish(steps[..n], k);
      EarlierThan(s, steps[..n], k);
      TooEarlyPrefix(s, steps, k);
    }
  }

  lemma NotLookedYet(s: State)
    requires Init(s)
    ensures Run(s, []) == Some(s) && !s.missed && !LookedTooEarly(s, [])
  {
  }

  lemma RunLast(s: State, steps: seq<Step>)
    requires steps != [] && Run(s, steps).Some?
    ensures var r, x := Run(s, steps[..|steps| - 1]), steps[|steps| - 1];
            r.Some? && Enabled(r.value, x) && Run(s, steps) == Some(Next(r.value, x))
  {
  }

  lemma {:induction false} MissedMeans(s: State, steps: seq<Step>)
    requires Init(s) && Run(s, steps).Some?
    ensures Run(s, steps).value.missed <==> LookedTooEarly(s, steps)
  {
    hide Inv, TooEarlyAt, LookedTooEarly, Next, Enabled, LooksTooEarly, Init, Run;
    if steps == [] {
      NotLookedYet(s);
    } else {
      var n := |steps| - 1;
      RunLast(s, steps);
      MissedMeans(s, steps[..n]);
      RunKeepsInv(s, steps[..n]);
      var t := Run(s, steps[..n]).value;
      MissedIdle(t);
      NextMissed(t, steps[n]);
      LastTooEarly(s, steps);
      LookedStep(s, steps);
    }
  }

  lemma EarlierThan(s: State, steps: seq<Step>, k: nat)
    requires TooEarlyAt(s, steps, k)
    ensures k < |steps|
  {
  }

  lemma NextMissed(t: State, x: Step)
    requires Enabled(t, x)
    ensures Next(t, x).missed ==
            if x.Publish? then false else if x.DriverStep? && t.driver.DMustCheck? then LooksTooEarly(t) else t.missed
    ensures x.DriverStep? ==> !t.driver.DIdle?
  {
  }

  lemma MissedIdle(t: State)
    requires Inv(t)
    ensures t.missed ==> t.driver.DIdle?
  {
    hide OrderOk, ResponsesOk, MutexOk, WorkerOk;
  }

  lemma LastTooEarly(s: State, steps: seq<Step>)
    requires steps != [] && Run(s, steps[..|steps| - 1]).Some?
    ensures var n := |steps| - 1; var t := Run(s, steps[..n]).value;
            && (TooEarlyAt(s, steps, n) <==> steps[n].DriverStep? && t.driver.DMustCheck? && LooksTooEarly(t))
            && (NoPublish(steps, n) <==> !steps[n].Publish?)
  {
    hide Run, LooksTooEarly;
  }

  /** In every run: when the handler has returned, a kick is lost if and only if the driver last looked
      at the flag in the window between the handler's last emptiness test and its switching
      notification on, with a command there, no kick pending and nothing published since. */
  lemma KickLostExactly(s: State, steps: seq<Step>)
    requires Init(s) && Run(s, steps).Some? && Run(s, steps).value.notifier.NIdle?
    ensures KickLost(Run(s, steps).value) <==> LookedTooEarly(s, steps)
  {
    hide Run, LookedTooEarly, OrderOk, ResponsesOk, MutexOk, WorkerOk;
    RunKeepsInv(s, steps);
    MissedMeans(s, steps);
  }

  lemma Extend(s: State, steps: seq<Step>, t: State, x: Step)
    requires Run(s, steps) == Some(t) && Enabled(t, x)
    ensures Run(s, steps + [x]) == Some(Next(t, x))
  {
    assert (steps + [x])[..|steps|] == steps;
  }

  /** `n` further steps of the notifier. */
  function Notify(t: State, n: nat): Option<State>
    decreases n
  {
    if n == 0 then Some(t)
    else if Enabled(t, NotifierStep) then Notify(Next(t, NotifierStep), n - 1)
    else None
  }

  lemma {:induction false} ExtendNotify(s: State, steps: seq<Step>, t: State, n: nat) returns (steps': seq<Step>)
    requires Run(s, steps) == Some(t) && Notify(t, n).Some?
    ensures Run(s, steps') == Notify(t, n)
    decreases n
  {
    if n == 0 {
      steps' := steps;
    } else {
      Extend(s, steps, t, NotifierStep);
      steps' := ExtendNotify(s, steps + [NotifierStep], Next(t, NotifierStep), n - 1);
    }
  }

  /** Unlike the block device's handler, this one does not look again after switching notification
      back on: a command made available in between is left with everybody idle. */
  lemma KickCanBeLost(s: State, a: Command, b: Command) returns (steps: seq<Step>)
    requires Init(s) && s.num >= 2
    ensures Run(s, steps).Some?
    ensures var t := Run(s, steps).value;
            && t.notifier.NIdle? && t.driver.DIdle? && t.kicks == 0 && !t.noNotify && t.worker.GWait? && t.queue == []
            && t.avail == [a, b] && t.taken == 1 && t.processed == [a] && t.kicked == 1
  {
    hide Run, Next, Enabled, Notify;
    NoSteps(s);
    var s3, t3 := DriverKicks(s, [], s, a);
    assert t3.avail == [a];
    // The handler takes `a` and comes back to the emptiness test, which it passes.
    TakesOne(t3, a);
    var s4 := ExtendNotify(s, s3, t3, 8);
    var t4 := Notify(t3, 8).value;
    var s6, t6 := DriverLooks(s, s4, t4, b);
    FinishesUp(t6);
    var s7 := ExtendNotify(s, s6, t6, 4);
    var t7 := Notify(t6, 4).value;
    steps := WorkerCatchesUp(s, s7, t7);
  }

  /** The driver publishes, finds notification on and kicks. */
  lemma DriverKicks(s: State, before: seq<Step>, t: State, a: Command) returns (steps: seq<Step>, t': State)
    requires Run(s, before) == Some(t) && t.driver.DIdle? && !t.noNotify && |t.avail| < |t.used| + t.num && !t.missed
    ensures Run(s, steps) == Some(t') && t' == t.(avail := t.avail + [a], kicks := t.kicks + 1)
  {
    hide Run, NotifierAfter, WorkerAfter;
    Extend(s, before, t, Publish(a));
    var s1, t1 := before + [Publish(a)], t.(avail := t.avail + [a], driver := DMustCheck);
    Extend(s, s1, t1, DriverStep);
    var s2, t2 := s1 + [DriverStep], t1.(driver := DMustKick);
    Extend(s, s2, t2, DriverStep);
    steps, t' := s2 + [DriverStep], t2.(driver := DIdle, kicks := t.kicks + 1);
  }

  /** The driver publishes and finds notification off. */
  lemma DriverLooks(s: State, before: seq<Step>, t: State, b: Command) returns (steps: seq<Step>, t': State)
    requires Run(s, before) == Some(t) && t.driver.DIdle? && t.noNotify && |t.avail| < |t.used| + t.num
    ensures Run(s, steps) == Some(t') && t' == t.(avail := t.avail + [b], missed := t'.missed)
  {
    hide Run, NotifierAfter, WorkerAfter;
    Extend(s, before, t, Publish(b));
    var s1, t1 := before + [Publish(b)], Next(t, Publish(b));
    Extend(s, s1, t1, DriverStep);
    steps, t' := s1 + [DriverStep], Next(t1, DriverStep);
  }

  /** The worker alone serves the only queued command, kicks and goes to sleep. */
  lemma WorkerCatchesUp(s: State, before: seq<Step>, t: State) returns (steps: seq<Step>)
    requires Run(s, before) == Some(t) && t.worker.GRelock? && t.mutex.None? && |t.queue| == 1 && t.requestCnt == 0
    ensures Run(s, steps).Some?
    ensures var t' := Run(s, steps).value;
            && t'.worker.GWait? && t'.queue == []
            && t'.processed == t.processed + t.queue && t'.kicked == |t.processed| + 1
            && t'.notifier == t.notifier && t'.driver == t.driver && t'.kicks == t.kicks && t'.noNotify == t.noNotify
            && t'.avail == t.avail && t'.taken == t.taken
  {
    hide Run, NotifierAfter;
    var w := WorkerStep;
    Extend(s, before, t, w);
    var s1, t1 := before + [w], t.(worker := GLoop, mutex := Some(WorkerThread));
    Extend(s, s1, t1, w);
    var s2, t2 := s1 + [w], t1.(worker := GProcess(t.queue[0]), mutex := None, queue := []);
    assert t.queue[1..] == [];
    assert Next(t1, w) == t2;
    var s3, t3 := WorkerServes(s, s2, t2);
    assert t3.processed == t.processed + t.queue;
    steps := WorkerSleeps(s, s3, t3);
  }

  lemma WorkerServes(s: State, before: seq<Step>, t: State) returns (steps: seq<Step>, t': State)
    requires Run(s, before) == Some(t) && t.worker.GProcess?
    ensures Run(s, steps) == Some(t')
    ensures t' == t.(worker := GCount, processed := t.processed + [t.worker.cmd], used := t'.used)
  {
    hide Run, NotifierAfter;
    var w := WorkerStep;
    Extend(s, before, t, w);
    var s1, t1 := before + [w], Next(t, w);
    if t.worker.cmd.hasHeader {
      Extend(s, s1, t1, Handle(SendsData));
      var s2, t2 := s1 + [Handle(SendsData)], Next(t1, Handle(SendsData));
      Extend(s, s2, t2, w);
      steps, t' := s2 + [w], Next(t2, w);
    } else {
      steps, t' := s1, t1;
    }
  }

  lemma WorkerSleeps(s: State, before: seq<Step>, t: State) returns (steps: seq<Step>)
    requires Run(s, before) == Some(t) && t.worker.GCount? && t.mutex.None? && t.queue == [] && t.requestCnt == 0
    ensures Run(s, steps) == Some(t.(worker := GWait, kicked := |t.processed|))
  {
    hide Run, NotifierAfter;
    var w := WorkerStep;
    Extend(s, before, t, w);
    var s1, t1 := before + [w], t.(worker := GRelock, requestCnt := 1);
    Extend(s, s1, t1, w);
    var s2, t2 := s1 + [w], t1.(worker := GLoop, mutex := Some(WorkerThread));
    Extend(s, s2, t2, w);
    var s3, t3 := s2 + [w], t2.(worker := GKickIdle);
    Extend(s, s3, t3, w);
    steps := s3 + [w];
  }

  lemma NoSteps(s: State)
    ensures Run(s, []) == Some(s)
  {
  }

  lemma NotifyOnce(t: State, n: nat)
    requires n > 0 && Enabled(t, NotifierStep)
    ensures Notify(t, n) == Notify(Next(t, NotifierStep), n - 1)
  {
  }

  lemma TakesOne(t: State, a: Command)
    requires t.notifier.NIdle? && t.kicks == 1 && t.avail == [a] && t.taken == 0 && t.mutex.None? && t.worker.GRelock?
    ensures Notify(t, 8)
            == Some(t.(notifier := NSigLock, kicks := 0, noNotify := true, taken := 1, queue := t.queue + [a]))
  {
    hide Notify, Next, Enabled;
    TakesFirst(t, a);
    NotifyOnce(t, 8);
    var t1 := t.(notifier := NDisable, kicks := 0);
    NotifyOnce(t1, 7);
    var t2 := t1.(notifier := NCheck, noNotify := true);
    NotifyOnce(t2, 6);
    var t3 := t2.(notifier := NTake);
    NotifyOnce(t3, 5);
    QueuesIt(t3.(notifier := NLock(a), taken := 1));
  }

  lemma TakesFirst(t: State, a: Command)
    requires t.notifier.NIdle? && t.kicks == 1 && t.avail == [a] && t.taken == 0
    ensures Enabled(t, NotifierStep) && Next(t, NotifierStep) == t.(notifier := NDisable, kicks := 0)
    ensures var u := t.(notifier := NDisable, kicks := 0);
            Enabled(u, NotifierStep) && Next(u, NotifierStep) == u.(notifier := NCheck, noNotify := true)
    ensures var u := t.(notifier := NCheck, kicks := 0, noNotify := true);
            Enabled(u, NotifierStep) && Next(u, NotifierStep) == u.(notifier := NTake)
    ensures var u := t.(notifier := NTake, kicks := 0, noNotify := true);
            Enabled(u, NotifierStep) && Next(u, NotifierStep) == u.(notifier := NLock(a), taken := 1)
  {
    hide WorkerAfter, LooksTooEarly;
  }

  lemma QueuesIt(t: State)
    requires t.notifier.NLock? && |t.avail| == 1 && t.taken == 1 && t.mutex.None?
    ensures Notify(t, 4) == Some(t.(notifier := NSigLock, queue := t.queue + [t.notifier.cmd]))
  {
    hide Notify, Next, Enabled;
    var a := t.notifier.cmd;
    InsertsIt(t, a);
    NotifyOnce(t, 4);
    var t1 := t.(notifier := NInsert(a), mutex := Some(NotifierThread));
    NotifyOnce(t1, 3);
    var t2 := t1.(notifier := NUnlock, queue := t.queue + [a]);
    NotifyOnce(t2, 2);
    var t3 := t2.(notifier := NCheck, mutex := None);
    NotifyOnce(t3, 1);
    NotifyZero(t3.(notifier := NSigLock));
  }

  lemma InsertsIt(t: State, a: Command)
    requires t.notifier == NLock(a) && |t.avail| == 1 && t.taken == 1 && t.mutex.None?
    ensures Enabled(t, NotifierStep)
    ensures Next(t, NotifierStep) == t.(notifier := NInsert(a), mutex := Some(NotifierThread))
    ensures var u := t.(notifier := NInsert(a), mutex := Some(NotifierThread));
            Enabled(u, NotifierStep) && Next(u, NotifierStep) == u.(notifier := NUnlock, queue := t.queue + [a])
    ensures var u := t.(notifier := NUnlock, mutex := Some(NotifierThread), queue := t.queue + [a]);
            Enabled(u, NotifierStep) && Next(u, NotifierStep) == u.(notifier := NCheck, mutex := None)
    ensures var u := t.(notifier := NCheck, queue := t.queue + [a]);
            Enabled(u, NotifierStep) && Next(u, NotifierStep) == u.(notifier := NSigLock)
  {
    hide WorkerAfter, LooksTooEarly;
  }

  lemma NotifyZero(t: State)
    ensures Notify(t, 0) == Some(t)
  {
  }

  lemma FinishesUp(t: State)
    requires t.notifier.NSigLock? && t.mutex.None? && t.worker.GRelock?
    ensures Notify(t, 4) == Some(t.(notifier := NIdle, noNotify := false))
  {
    hide Notify, WorkerAfter, LooksTooEarly;
    NotifyOnce(t, 4);
    var t1 := t.(notifier := NSignal, mutex := Some(NotifierThread));
    NotifyOnce(t1, 3);
    var t2 := t1.(notifier := NSigUnlock);
    NotifyOnce(t2, 2);
    var t3 := t2.(notifier := NEnable, mutex := None);
    NotifyOnce(t3, 1);
    NotifyZero(t3.(notifier := NIdle, noNotify := false));
  }
}
