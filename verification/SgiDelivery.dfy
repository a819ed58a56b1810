/** When a listed completion interrupt has a software-generated interrupt (SGI) still to come
    (hvisor, `event.rs`, `hypercall/mod.rs`, `device/irqchip/gicv3/mod.rs`).

    Events are queued and SGIs are not: one that is already pending absorbs the next, and each one
    taken fetches one event.  The inject events of a CPU are interchangeable, because handling one
    injects the whole list; an event of another kind ahead of them is not. */
module SgiDelivery {
  import opened Wrappers
  import opened ResultRing

  ghost predicate Notifying(threads: seq<Thread>, c: nat) { exists t :: 0 <= t < |threads| && threads[t] == DNotify(c) }

  /** An SGI for CPU `c` is pending, taken and not done with, or about to be written. */
  ghost predicate Woken(s: State, c: nat)
    requires Shaped(s) && c < |s.cpus|
  {
    s.pending[c] || s.notifying[c] > 0 || !s.cpus[c].Running? || Sending(s.threads, c) || Notifying(s.threads, c)
  }

  /** Interrupts are listed for CPU `c` and nothing makes it look. */
  ghost predicate Stranded(s: State, c: nat)
    requires Shaped(s) && c < |s.cpus|
  {
    ListOf(s, c) != [] && !Woken(s, c)
  }

  // ------------------------------------------------------------------
  // A CPU that gets no events but inject events

  ghost predicate OnlyInjects(s: State, c: nat)
    requires Shaped(s) && c < |s.cpus|
  {
    s.notifying[c] == 0 && forall i :: 0 <= i < |s.events[c]| ==> s.events[c][i].InjectIrq?
  }

  /** A listed interrupt is being injected, its event is about to be queued, or there is an event and
      an SGI for it. */
  ghost predicate Reaches(s: State, c: nat)
    requires Shaped(s) && c < |s.cpus|
  {
    ListOf(s, c) != [] ==>
      || s.cpus[c].Handling? || Sending(s.threads, c)
      || (s.events[c] != [] && (s.pending[c] || s.cpus[c].Taking? || Notifying(s.threads, c)))
  }

  lemma OthersStay(s: State, t: nat, c: nat, p: Thread)
    requires Shaped(s) && ThreadEnabled(s, t) && (p == DSend(c) || p == DNotify(c)) && s.threads[t] != p
             && p in s.threads
    ensures p in ThreadNext(s, t).threads
  {
    var u :| 0 <= u < |s.threads| && s.threads[u] == p;
    assert ThreadNext(s, t).threads[u] == p;
  }

  lemma ThreadEvents(s: State, t: nat, c: nat)
    requires Shaped(s) && ThreadEnabled(s, t) && c < |s.cpus|
    ensures t < |s.threads| == |ThreadNext(s, t).threads|
    ensures var s' := ThreadNext(s, t);
            && Shaped(s') && s'.cpus == s.cpus && s'.notifying == s.notifying
            && s'.events[c] == (if s.threads[t] == DSend(c) then s.events[c] + [InjectIrq] else s.events[c])
            && s'.pending[c] == (s.threads[t] == DNotify(c) || s.pending[c])
            && (ListOf(s', c) != [] ==> ListOf(s, c) != [] || s'.threads[t] == DSend(c))
            && (s.threads[t] == DSend(c) ==> s'.threads[t] == DNotify(c))
  {
  }

  lemma ThreadReaches(s: State, t: nat, c: nat)
    requires Shaped(s) && ThreadEnabled(s, t) && c < |s.cpus| && OnlyInjects(s, c) && Reaches(s, c)
    ensures Shaped(ThreadNext(s, t)) && OnlyInjects(ThreadNext(s, t), c) && Reaches(ThreadNext(s, t), c)
  {
    hide ThreadNext, ThreadEnabled, Shaped, ListOf;
    ThreadEvents(s, t, c);
    var s' := ThreadNext(s, t);
    if Sending(s.threads, c) && s.threads[t] != DSend(c) { OthersStay(s, t, c, DSend(c)); }
    if Notifying(s.threads, c) && s.threads[t] != DNotify(c) { OthersStay(s, t, c, DNotify(c)); }
    assert s'.threads[t] == DSend(c) ==> Sending(s'.threads, c);
    assert s'.threads[t] == DNotify(c) ==> Notifying(s'.threads, c);
  }

  lemma InjectReaches(s: State, t: nat, res: Res, c: nat)
    requires Shaped(s) && Enabled(s, Inject(t, res)) && c < |s.cpus| && OnlyInjects(s, c) && Reaches(s, c)
    ensures OnlyInjects(Next(s, Inject(t, res)), c) && Reaches(Next(s, Inject(t, res)), c)
  {
    var s' := Next(s, Inject(t, res));
    if u :| 0 <= u < |s.threads| && s.threads[u] == DSend(c) { assert s'.threads[u] == DSend(c); }
    if u :| 0 <= u < |s.threads| && s.threads[u] == DNotify(c) { assert s'.threads[u] == DNotify(c); }
  }

  lemma NextReaches(s: State, step: Step, c: nat)
    requires Shaped(s) && Enabled(s, step) && c < |s.cpus| && OnlyInjects(s, c) && Reaches(s, c)
    requires step.Other? ==> step.cpu != c
    ensures Shaped(Next(s, step)) && OnlyInjects(Next(s, step), c) && Reaches(Next(s, step), c)
  {
    hide ThreadNext, ThreadEnabled;
    match step {
      case ThreadStep(t) => ThreadReaches(s, t, c);
      case Inject(t, res) => InjectReaches(s, t, res, c);
      case _ =>
    }
  }

  // ------------------------------------------------------------------
  // Every run

  /** Other events are sent only to CPUs in `others`. */
  ghost predicate OthersTo(steps: seq<Step>, others: set<nat>) {
    forall i :: 0 <= i < |steps| && steps[i].Other? ==> steps[i].cpu in others
  }

  lemma {:induction false} RunReaches(s: State, steps: seq<Step>, others: set<nat>, c: nat)
    requires Init(s) && Run(s, steps).Some? && OthersTo(steps, others) && c !in others && c < |s.cpus|
    ensures var t := Run(s, steps).value; c < |t.cpus| && OnlyInjects(t, c) && Reaches(t, c)
  {
    hide Next, Enabled, OnlyInjects, Reaches;
    if steps == [] {
      InitReaches(s, c);
    } else {
      var front, last := steps[..|steps| - 1], steps[|steps| - 1];
      RunReaches(s, front, others, c);
      NextShaped(Run(s, front).value, last);
      NextReaches(Run(s, front).value, last, c);
    }
  }

  lemma InitReaches(s: State, c: nat)
    requires Init(s) && c < |s.cpus|
    ensures OnlyInjects(s, c) && Reaches(s, c)
  {
  }

  lemma {:induction false} RunOn(s: State, first: seq<Step>, more: seq<Step>)
    requires Shaped(s) && Run(s, first).Some?
    ensures Run(s, first + more) == Run(Run(s, first).value, more)
  {
    hide Next, Enabled;
    if more == [] {
      assert first + more == first;
    } else {
      RunOn(s, first, more[..|more| - 1]);
      assert (first + more)[..|first + more| - 1] == first + more[..|more| - 1];
    }
  }

  /** An event of another kind is queued and announced; then an interrupt is filed, its own SGI absorbed
      by the one pending; the CPU takes that one and fetches the other event. */
  lemma StrandingRun(s: State, e: Event, d: nat, res: Res) returns (steps: seq<Step>, t: State)
    requires Init(s) && d < |s.threads| && res.zone in s.zones && !e.InjectIrq?
    ensures var c := s.zones[res.zone];
            && Shaped(t) && Run(s, steps) == Some(t) && InjectsFrom(steps, {res}) && OthersTo(steps, {c})
            && c < |t.cpus| && Stranded(t, c)
  {
    hide Run, Next, Enabled;
    var c := s.zones[res.zone];
    var first := [Other(c, e), OtherSgi(c)];
    var s1 := s.(events := s.events[c := [e]], pending := s.pending[c := true]);
    assert Run(s, first) == Some(s1) && Shaped(s1) && Quiet(s1, d) by { Announced(s, c, e, d); }
    NoSteps(s1);
    var a2, t2 := ToFiling(s1, [], s1, {res}, d, res);
    ReachedShaped(s1, a2, t2, {res});
    var a3, t3 := FileAndLeave(s1, a2, t2, {res}, d);
    ReachedShaped(s1, a3, t3, {res});
    assert t3.threads == s1.threads by { assert t3.threads[d] == s1.threads[d]; }
    var a4, t4 := TakeOther(s1, a3, t3, {res}, c);
    RunOn(s, first, a4);
    steps, t := first + a4, t4;
  }

  lemma Announced(s: State, c: nat, e: Event, d: nat)
    requires Init(s) && c < |s.cpus| && d < |s.threads| && !e.InjectIrq?
    ensures var s1 := s.(events := s.events[c := [e]], pending := s.pending[c := true]);
            Run(s, [Other(c, e), OtherSgi(c)]) == Some(s1) && Shaped(s1) && Quiet(s1, d)
  {
    hide Run;
    var o, n := Other(c, e), OtherSgi(c);
    NoSteps(s);
    Extend(s, [], s, o);
    Extend(s, [] + [o], Next(s, o), n);
    assert [] + [o] + [n] == [o, n];
    var s1, t := s.(events := s.events[c := [e]], pending := s.pending[c := true]), Next(Next(s, o), n);
    assert s.events[c] + [e] == [e];
    assert t.events == s1.events;
    assert t.notifying == s.notifying;
    assert t == s1;
  }

  lemma TakeOther(s: State, before: seq<Step>, t: State, devs: set<Res>, c: nat) returns (steps: seq<Step>, t': State)
    requires Reached(s, before, t, devs) && c < |t.cpus| && t.pending[c] && t.cpus[c].Running? && !t.panicked
    requires t.events[c] != [] && !t.events[c][0].InjectIrq? && t.notifying[c] == 0 && ListOf(t, c) != []
    requires forall u :: 0 <= u < |t.threads| ==> t.threads[u].Idle?
    ensures Reached(s, steps, t', devs) && c < |t'.cpus| && Stranded(t', c)
  {
    hide Reached;
    ReachedShaped(s, before, t, devs);
    Go(s, before, t, devs, Take(c));
    var t1 := Next(t, Take(c));
    ReachedShaped(s, before + [Take(c)], t1, devs);
    Go(s, before + [Take(c)], t1, devs, Fetch(c));
    steps, t' := before + [Take(c)] + [Fetch(c)], Next(t1, Fetch(c));
  }

  /** For a CPU that some device interrupts: its listed interrupts always have an SGI still to be done
      with, in every run in which other events go to CPUs in `others` only, if and only if it is not one
      of those. */
  lemma StrandsExactly(s: State, devs: set<Res>, others: set<nat>, res: Res)
    requires Init(s) && |s.threads| > 0 && res in devs && res.zone in s.zones
    ensures var c := s.zones[res.zone];
            (forall steps: seq<Step> :: InjectsFrom(steps, devs) && OthersTo(steps, others) ==>
                                          NeverStranded(s, steps, c))
            <==> c !in others
  {
    hide Run, InjectsFrom, OthersTo;
    var c := s.zones[res.zone];
    if c !in others {
      forall steps: seq<Step> | InjectsFrom(steps, devs) && OthersTo(steps, others) ensures NeverStranded(s, steps, c) {
        if Run(s, steps).Some? { RunReaches(s, steps, others, c); }
      }
    } else {
      var steps, _ := StrandingRun(s, WakeupVirtioDevice, 0, res);
      MoreSources(steps, {res}, devs, {c}, others);
    }
  }

  ghost predicate NeverStranded(s: State, steps: seq<Step>, c: nat)
    requires Shaped(s)
  {
    Run(s, steps).Some? && c < |Run(s, steps).value.cpus| ==> !Stranded(Run(s, steps).value, c)
  }

  lemma MoreSources(steps: seq<Step>, few: set<Res>, devs: set<Res>, one: set<nat>, others: set<nat>)
    requires InjectsFrom(steps, few) && few <= devs && OthersTo(steps, one) && one <= others
    ensures InjectsFrom(steps, devs) && OthersTo(steps, others)
  {
  }
}
