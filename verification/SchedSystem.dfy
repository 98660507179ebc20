/**
 N CPUs running the scheduler of kernel/sched/scheduler.cpp at once, one step
 of one CPU at a time. The lock is taken apart into the loads and stores of
 include/eris/lock.hpp; the code between lock and context_switch, and
 context_switch itself (kernel/sched/switch.asm), are one step each.
 */
module SchedSystem {
  import opened Basics
  import opened SchedModel
  import opened SchedPlaced

  /** What a thread asks the scheduler for. */
  datatype Call =
    | YieldCall
    | SleepCall(ns: nat)
    | ExitCall
    | WaitCall(w: Wid)
    | WakeCall(t: Tid)
    | WakeOneCall(w: Wid)
    | WakeAllCall(w: Wid)
    | AdoptCall(t: Tid)

  /** A point in the code of a thread. */
  datatype Pc =
    | Outside              // its own code
    | Asking(call: Call)   // flags saved, interrupts off, about to load locked_
    | SawHeld(call: Call)  // locked_ was set, about to load owner_
    | Spinning(call: Call) // about to exchange locked_
    | Claiming(call: Call) // exchange won, about to store owner_
    | Inside(call: Call)   // lock held, about to do the work
    | Switching(next: Tid) // about to context_switch
    | Fresh                // never run: about to unlock in thread_entry_start
    | Resumed              // back from the switch, or no switch: about to clear owner_
    | Releasing            // about to clear locked_
    | Panicked             // lock_recursion_panic

  /** Where a thread's registers are: on a CPU, or behind its stack_pointer_,
      from where it goes on at `pc` with the flags its lock() had saved. */
  datatype Context = Live(cpu: nat) | Saved(pc: Pc, flags: bool)

  datatype Sys = Sys(
    s: Sched,
    locked: bool,
    owner: Option<nat>,
    holder: Option<nat>,     // the CPU whose exchange won, until it unlocks
    exec: seq<Tid>,          // whose stack each CPU is on
    at: seq<Pc>,             // where in its code
    flags: seq<bool>,        // the interrupt flag its lock() saved
    irq: seq<bool>,          // the interrupt flag
    asked: map<Tid, bool>,   // the interrupt flag each thread had when it last asked for the lock
    ctx: map<Tid, Context>)

  datatype Event =
    | Ask(call: Call) | TestHeld | TestOwner | Exchange | StoreOwner
    | Work(now: nat) | Switch | Start | ClearOwner | Unlock
    | Interrupts(on: bool)   // cli, sti, or an interrupt coming in or being returned from

  /** The lock is this thread's to release. */
  predicate Holding(pc: Pc) {
    pc.Claiming? || pc.Inside? || pc.Switching? || pc.Fresh? || pc.Resumed? || pc.Releasing?
  }

  const U64: nat := 0x1_0000_0000_0000_0000

  /** monotonic_ns() + nanoseconds, in 64 bits. */
  function Deadline(now: nat, ns: nat): nat {
    (now + ns) % U64
  }

  /** The critical section of a call, on one CPU. */
  function Section(s: Sched, cpu: nat, call: Call, now: nat): Outcome
    requires IsCpu(s, cpu) && Legal(s, cpu, call)
  {
    match call
    case YieldCall => Yield(s, cpu, now)
    case SleepCall(ns) => Sleep(s, cpu, Deadline(now, ns))
    case ExitCall => Exit(s, cpu)
    case WaitCall(w) => Wait(s, cpu, w)
    case WakeCall(t) => Outcome(Wake(s, t), None)
    case WakeOneCall(w) => Outcome(WakeOne(s, w), None)
    case WakeAllCall(w) => Outcome(WakeAll(s, w), None)
    case AdoptCall(t) => Outcome(Adopt(s, t), None)
  }

  /** Only a thread that is not idle may sleep, wait or exit; wake is for a
      thread that is not in a wait queue; a spawned thread is new. */
  predicate Legal(s: Sched, cpu: nat, call: Call)
    requires IsCpu(s, cpu)
  {
    match call
    case YieldCall => true
    case SleepCall(_) => s.current[cpu] != s.idle[cpu]
    case ExitCall => s.current[cpu] != s.idle[cpu] && s.alive > 0
    case WaitCall(w) => s.current[cpu] != s.idle[cpu] && w in s.waits
    case WakeCall(t) => t in s.place && StateIn(s.place[t]) != Blocked
    case WakeOneCall(w) => w in s.waits
    case WakeAllCall(w) => w in s.waits
    case AdoptCall(t) => t !in s.place && t !in s.idle
  }

  // --------------------------------------------------------------- steps

  /** As many entries as there are CPUs, and a context for every thread. */
  ghost predicate Shape(a: Sys) {
    && |a.exec| == |a.at| == |a.flags| == |a.irq| == |a.s.current| == |a.s.idle|
    && (forall t :: t in a.s.place ==> t in a.ctx)
    && (forall c: nat :: c < |a.s.idle| ==> a.s.idle[c] in a.ctx)
  }

  function Goto(a: Sys, cpu: nat, p: Pc): Sys
    requires cpu < |a.at|
  {
    a.(at := a.at[cpu := p])
  }

  /** The steps of IrqSpinLock::lock and unlock, on one CPU. */
  ghost predicate LockStep(a: Sys, cpu: nat, e: Event, b: Sys)
    requires Shape(a) && cpu < |a.at|
  {
    var p := a.at[cpu];
    match e
    case Ask(call) =>
      && p == Outside
      && b == Goto(a, cpu, Asking(call)).(flags := a.flags[cpu := a.irq[cpu]], irq := a.irq[cpu := false],
                                            asked := a.asked[a.exec[cpu] := a.irq[cpu]])
    case TestHeld =>
      && p.Asking?
      && b == Goto(a, cpu, if a.locked then SawHeld(p.call) else Spinning(p.call))
    case TestOwner =>
      && p.SawHeld?
      && b == Goto(a, cpu, if a.owner == Some(cpu) then Panicked else Spinning(p.call))
    case Exchange =>
      && p.Spinning?
      && b == if a.locked then a else Goto(a, cpu, Claiming(p.call)).(locked := true, holder := Some(cpu))
    case StoreOwner =>
      && p.Claiming?
      && b == Goto(a, cpu, Inside(p.call)).(owner := Some(cpu))
    case Start =>
      && p.Fresh?
      && b == Goto(a, cpu, Resumed).(flags := a.flags[cpu := true])
    case ClearOwner =>
      && p.Resumed?
      && b == Goto(a, cpu, Releasing).(owner := None)
    case Unlock =>
      && p.Releasing?
      && b == Goto(a, cpu, Outside).(locked := false, holder := None, irq := a.irq[cpu := a.irq[cpu] || a.flags[cpu]])
    case Interrupts(on) =>
      && p == Outside
      && b == a.(irq := a.irq[cpu := on])
    case _ => false
  }

  /** The work under the lock, up to the switch if there is one. */
  ghost predicate WorkStep(a: Sys, cpu: nat, now: nat, b: Sys)
    requires Shape(a) && cpu < |a.at|
  {
    var p := a.at[cpu];
    && p.Inside? && Legal(a.s, cpu, p.call)
    && (p.call.AdoptCall? ==> p.call.t !in a.ctx)
    && var o := Section(a.s, cpu, p.call, now);
       b == Goto(a, cpu, if o.next.Some? then Switching(o.next.value) else Resumed)
            .(s := o.s,
              ctx := if p.call.AdoptCall? then a.ctx[p.call.t := Saved(Fresh, true)] else a.ctx,
              asked := if p.call.AdoptCall? then a.asked[p.call.t := true] else a.asked)
  }

  /** context_switch: the CPU goes on with whatever stack_pointer_ holds. */
  ghost predicate SwitchStep(a: Sys, cpu: nat, b: Sys)
    requires Shape(a) && cpu < |a.at|
  {
    var p := a.at[cpu];
    && p.Switching? && p.next in a.ctx
    && var target := a.ctx[p.next];
       b == Goto(a, cpu, if target.Saved? then target.pc else Panicked)
            .(exec := a.exec[cpu := p.next],
              flags := if target.Saved? then a.flags[cpu := target.flags] else a.flags,
              ctx := a.ctx[a.exec[cpu] := Saved(Resumed, a.flags[cpu])][p.next := Live(cpu)])
  }

  /** One step of one CPU. */
  ghost predicate Next(a: Sys, cpu: nat, e: Event, b: Sys) {
    && Shape(a) && cpu < |a.at|
    && match e
       case Work(now) => WorkStep(a, cpu, now, b)
       case Switch => SwitchStep(a, cpu, b)
       case _ => LockStep(a, cpu, e, b)
  }

  // ----------------------------------------------------------- invariant

  /** A CPU is on the stack of its current thread, except between choosing the
      next one and switching to it. */
  ghost predicate Following(a: Sys)
    requires Shape(a)
  {
    forall c: nat :: c < |a.exec| ==>
      if a.at[c].Switching? then a.at[c].next == a.s.current[c] && a.at[c].next != a.exec[c]
      else a.s.current[c] == a.exec[c]
  }

  /** The lock excludes, and owner_ names the holder or nobody. */
  ghost predicate Locking(a: Sys)
    requires Shape(a)
  {
    && a.locked == a.holder.Some?
    && (forall c: nat :: c < |a.at| ==> (Holding(a.at[c]) <==> a.holder == Some(c)))
    && (a.holder.Some? ==>
          && a.holder.value < |a.at|
          && (a.owner.Some? <==> !a.at[a.holder.value].Claiming? && !a.at[a.holder.value].Releasing?))
    && (a.owner.Some? ==> a.owner == a.holder)
  }

  /** A live context is the one its CPU is on; a saved one will go on by
      releasing the lock. */
  ghost predicate Contexts(a: Sys)
    requires Shape(a)
  {
    && (forall c: nat :: c < |a.exec| ==> a.exec[c] in a.ctx && a.ctx[a.exec[c]] == Live(c))
    && (forall t :: t in a.ctx && a.ctx[t].Live? ==> a.ctx[t].cpu < |a.exec| && a.exec[a.ctx[t].cpu] == t)
    && (forall t :: t in a.ctx && a.ctx[t].Saved? ==> a.ctx[t].pc.Resumed? || a.ctx[t].pc.Fresh?)
  }

  /** No panic, interrupts off on the way in and out, and the dead only leave. */
  ghost predicate Quiet(a: Sys)
    requires Shape(a)
  {
    && (forall c: nat :: c < |a.at| ==> !a.at[c].Panicked?)
    && (forall c: nat :: c < |a.at| && a.at[c] != Outside ==> !a.irq[c])
    && (forall c: nat :: c < |a.exec| && a.exec[c] in a.s.place && a.s.place[a.exec[c]] == Gone ==> a.at[c].Switching?)
  }

  /** The flags a thread will restore are those it asked with, wherever it is;
      one that has never run starts with interrupts on. */
  ghost predicate FlagsKept(a: Sys)
    requires Shape(a)
  {
    && (forall c: nat :: c < |a.exec| && a.at[c] != Outside ==>
          && a.exec[c] in a.asked && a.flags[c] == a.asked[a.exec[c]]
          && (a.at[c].Fresh? ==> a.flags[c]))
    && (forall t :: t in a.ctx && a.ctx[t].Saved? ==>
          && t in a.asked && a.ctx[t].flags == a.asked[t]
          && (a.ctx[t].pc.Fresh? ==> a.ctx[t].flags))
  }

  ghost predicate Inv(a: Sys) {
    Placed(a.s) && Shape(a) && Following(a) && Locking(a) && Contexts(a) && Quiet(a) && FlagsKept(a)
  }

  /** What holds when the CPUs start: every CPU on its idle thread. */
  ghost predicate Init(a: Sys) {
    && a.s.run == [] && a.s.sleepers == [] && a.s.place == map[] && a.s.alive == 0
    && (forall w :: w in a.s.waits ==> a.s.waits[w] == [])
    && a.s.current == a.s.idle && a.exec == a.s.idle && NoDup(a.s.idle)
    && |a.at| == |a.flags| == |a.irq| == |a.exec|
    && (forall c: nat :: c < |a.exec| ==> a.at[c] == Outside && a.exec[c] in a.ctx && a.ctx[a.exec[c]] == Live(c))
    && (forall t :: t in a.ctx ==> a.ctx[t].Live? && a.ctx[t].cpu < |a.exec| && a.exec[a.ctx[t].cpu] == t)
    && !a.locked && a.owner == None && a.holder == None
  }

  lemma InitInv(a: Sys)
    requires Init(a)
    ensures Inv(a)
  {
    assert Living(a.s.place) == {};
  }

  // --------------------------------------------------- the steps keep it

  lemma LockStepLocking(a: Sys, cpu: nat, e: Event, b: Sys)
    requires Shape(a) && cpu < |a.at| && Locking(a) && LockStep(a, cpu, e, b)
    ensures Shape(b) && Locking(b)
    ensures b.s == a.s && b.exec == a.exec && b.ctx == a.ctx
  {
  }

  /** The recursion panic needs owner_ to be the asking CPU, and it never is. */
  lemma LockStepQuiet(a: Sys, cpu: nat, e: Event, b: Sys)
    requires Shape(a) && cpu < |a.at| && Locking(a) && Quiet(a) && Following(a) && LockStep(a, cpu, e, b)
    ensures Shape(b) && Quiet(b) && Following(b)
  {
    match e
    case TestOwner =>
    case _ =>
  }

  /** context_switch: the thread it goes to is saved, so no CPU is on it. */
  lemma NextIsSaved(a: Sys, cpu: nat)
    requires Shape(a) && CpusSound(a.s) && Following(a) && Locking(a) && Contexts(a)
    requires cpu < |a.at| && a.at[cpu].Switching?
    ensures a.at[cpu].next in a.ctx && a.ctx[a.at[cpu].next].Saved?
    ensures forall d: nat :: d < |a.exec| ==> a.exec[d] != a.at[cpu].next
  {
    var next := a.at[cpu].next;
    forall d: nat | d < |a.exec|
      ensures a.exec[d] != next
    {
      if d != cpu {
        assert !Holding(a.at[d]);
        assert a.s.current[d] == a.exec[d];
      }
    }
  }

  lemma LockStepFlags(a: Sys, cpu: nat, e: Event, b: Sys)
    requires Shape(a) && Contexts(a) && FlagsKept(a) && cpu < |a.at| && LockStep(a, cpu, e, b)
    ensures Shape(b) && FlagsKept(b)
  {
    hide Contexts;
    OneStack(a, cpu);
    match e
    case Ask(call) =>
    case Start =>
    case _ =>
  }

  /** No other CPU, and no saved context, is on the stack of this one. */
  lemma OneStack(a: Sys, cpu: nat)
    requires Shape(a) && Contexts(a) && cpu < |a.exec|
    ensures forall c: nat :: c < |a.exec| && c != cpu ==> a.exec[c] != a.exec[cpu]
    ensures forall t :: t in a.ctx && a.ctx[t].Saved? ==> t != a.exec[cpu]
  {
  }

  lemma SwitchStepFlags(a: Sys, cpu: nat, b: Sys)
    requires Shape(a) && Contexts(a) && FlagsKept(a) && cpu < |a.at| && SwitchStep(a, cpu, b)
    requires a.ctx[a.at[cpu].next].Saved?
    ensures Shape(b) && FlagsKept(b)
  {
  }

  lemma WorkStepFlags(a: Sys, cpu: nat, now: nat, b: Sys)
    requires Shape(a) && Contexts(a) && FlagsKept(a) && cpu < |a.at| && WorkStep(a, cpu, now, b) && Shape(b)
    ensures FlagsKept(b)
  {
    hide Section;
  }

  lemma SwitchKeeps(a: Sys, cpu: nat, b: Sys)
    requires Inv(a) && cpu < |a.at| && SwitchStep(a, cpu, b)
    ensures Inv(b)
  {
    hide Holds, WaitsSound, FlagsKept, Living;
    NextIsSaved(a, cpu);
    SwitchStepFlags(a, cpu, b);
  }

  /** What each critical section does to the CPUs: only the calling CPU gets a
      new current thread, never the one it is leaving. */
  ghost predicate SectionGood(s: Sched, cpu: nat, call: Call, o: Outcome)
    requires IsCpu(s, cpu)
  {
    && Placed(o.s) && o.s.idle == s.idle && |o.s.current| == |s.current|
    && (forall c: nat :: c < |s.current| && c != cpu ==> o.s.current[c] == s.current[c])
    && (if o.next.Some? then o.s.current[cpu] == o.next.value && o.next.value != s.current[cpu]
        else o.s.current[cpu] == s.current[cpu])
    && (forall t :: t in o.s.place ==> t in s.place || (call.AdoptCall? && t == call.t))
  }

  lemma YieldGood(s: Sched, cpu: nat, now: nat)
    requires Placed(s) && IsCpu(s, cpu)
    ensures SectionGood(s, cpu, YieldCall, Yield(s, cpu, now))
  {
    hide Holds, WaitsSound, WakeExpired;
    YieldPlaced(s, cpu, now);
    WakeExpiredPlaced(s, now);
    var s1 := WakeExpired(s, now);
    if s1.run != [] {
      FirstLeaves(s1.run, s1.place, InRun, Gone);
    }
  }

  lemma SwitchAwayGood(s: Sched, cpu: nat, r: Sched, call: Call)
    requires Placed(s) && IsCpu(s, cpu) && s.current[cpu] != s.idle[cpu]
    requires r.run == s.run && r.current == s.current && r.idle == s.idle && Placed(SwitchAway(r, cpu).s)
    requires forall t :: t in r.place ==> t in s.place
    ensures SectionGood(s, cpu, call, SwitchAway(r, cpu))
  {
    hide Holds, WaitsSound;
    if s.run != [] {
      FirstLeaves(s.run, s.place, InRun, Gone);
    }
  }

  lemma SectionKeeps(s: Sched, cpu: nat, call: Call, now: nat)
    requires Placed(s) && IsCpu(s, cpu) && Legal(s, cpu, call)
    ensures SectionGood(s, cpu, call, Section(s, cpu, call, now))
  {
    hide Holds, WaitsSound, Placed;
    var self := s.current[cpu];
    match call
    case YieldCall => YieldGood(s, cpu, now);
    case SleepCall(ns) =>
      SleepPlaced(s, cpu, Deadline(now, ns));
      OnItsCpu(s, cpu);
      SwitchAwayGood(s, cpu, s.(sleepers := [self] + s.sleepers, place := s.place[self := InSleepers],
                                wakeAt := s.wakeAt[self := Deadline(now, ns)]), call);
    case ExitCall =>
      ExitPlaced(s, cpu);
      OnItsCpu(s, cpu);
      SwitchAwayGood(s, cpu, s.(place := s.place[self := Gone], alive := s.alive - 1), call);
    case WaitCall(w) =>
      WaitPlaced(s, cpu, w);
      OnItsCpu(s, cpu);
      SwitchAwayGood(s, cpu, s.(waits := s.waits[w := [self] + s.waits[w]], place := s.place[self := InWait(w)]), call);
    case WakeCall(t) => WakePlaced(s, t);
    case WakeOneCall(w) => WakeOnePlaced(s, w); WaiterKnown(s, w);
    case WakeAllCall(w) => WakeAllPlaced(s, w); CpusUntouched(s.(waits := s.waits[w := []]), s.waits[w]);
    case AdoptCall(t) => AdoptPlaced(s, t);
  }

  lemma OnItsCpu(s: Sched, cpu: nat)
    requires Placed(s) && IsCpu(s, cpu) && s.current[cpu] != s.idle[cpu]
    ensures s.current[cpu] in s.place
  {
  }

  lemma WaiterKnown(s: Sched, w: Wid)
    requires Placed(s) && w in s.waits
    ensures s.waits[w] != [] ==> s.waits[w][0] in s.place
  {
    assert Holds(s.waits[w], s.place, InWait(w));
  }

  lemma WorkKeeps(a: Sys, cpu: nat, now: nat, b: Sys)
    requires Inv(a) && cpu < |a.at| && WorkStep(a, cpu, now, b)
    ensures Inv(b)
  {
    hide Placed, Section, Legal, Following, Locking, Contexts, Quiet, FlagsKept;
    SectionKeeps(a.s, cpu, a.at[cpu].call, now);
    WorkShape(a, cpu, now, b);
    WorkLocking(a, cpu, now, b);
    PlacedCpus(a.s);
    PlacedCpus(b.s);
    WorkQuiet(a, cpu, now, b);
    WorkStepFlags(a, cpu, now, b);
  }

  lemma PlacedCpus(s: Sched)
    requires Placed(s)
    ensures CpusSound(s)
  {
  }

  lemma WorkShape(a: Sys, cpu: nat, now: nat, b: Sys)
    requires Shape(a) && Following(a) && Contexts(a) && cpu < |a.at| && WorkStep(a, cpu, now, b)
    requires SectionGood(a.s, cpu, a.at[cpu].call, Section(a.s, cpu, a.at[cpu].call, now))
    ensures Shape(b) && Following(b) && Contexts(b)
  {
    hide Placed, Section, Legal;
  }

  lemma WorkLocking(a: Sys, cpu: nat, now: nat, b: Sys)
    requires Shape(a) && Locking(a) && cpu < |a.at| && WorkStep(a, cpu, now, b) && Shape(b)
    ensures Locking(b)
  {
    hide Placed, Section, Legal;
  }

  lemma WorkQuiet(a: Sys, cpu: nat, now: nat, b: Sys)
    requires Shape(a) && Following(a) && Quiet(a) && cpu < |a.at| && WorkStep(a, cpu, now, b) && Shape(b)
    requires CpusSound(a.s) && CpusSound(b.s)
    requires SectionGood(a.s, cpu, a.at[cpu].call, Section(a.s, cpu, a.at[cpu].call, now))
    ensures Quiet(b)
  {
    hide Placed, Section, Legal;
  }

  lemma NextKeepsInv(a: Sys, cpu: nat, e: Event, b: Sys)
    requires Inv(a) && Next(a, cpu, e, b)
    ensures Inv(b)
  {
    hide Placed, WorkStep, SwitchStep, LockStep, Following, Locking, Quiet, FlagsKept;
    match e
    case Work(now) => WorkKeeps(a, cpu, now, b);
    case Switch => SwitchKeeps(a, cpu, b);
    case _ =>
      LockStepLocking(a, cpu, e, b);
      LockStepQuiet(a, cpu, e, b);
      LockStepFlags(a, cpu, e, b);
  }

  // ----------------------------------------------------------- whole runs

  datatype Action = Action(cpu: nat, event: Event)

  ghost predicate Run(states: seq<Sys>, actions: seq<Action>) {
    && |states| == |actions| + 1
    && forall k :: 0 <= k < |actions| ==> Next(states[k], actions[k].cpu, actions[k].event, states[k + 1])
  }

  lemma {:induction false} RunKeepsInv(states: seq<Sys>, actions: seq<Action>, n: nat)
    requires Run(states, actions) && Init(states[0]) && n < |states|
    ensures Inv(states[n])
  {
    hide Inv, Init, Next;
    if n == 0 {
      InitInv(states[0]);
    } else {
      RunKeepsInv(states, actions, n - 1);
      assert Next(states[n - 1], actions[n - 1].cpu, actions[n - 1].event, states[n]);
      NextKeepsInv(states[n - 1], actions[n - 1].cpu, actions[n - 1].event, states[n]);
    }
  }

  /** In every interleaving, at every moment: no thread executes on two CPUs,
      at most one CPU is between taking the lock and giving it back, no interrupt
      comes in on the way, nobody has panicked, and every thread is in exactly
      one place. */
  lemma NoThreadOnTwoCpus(states: seq<Sys>, actions: seq<Action>, n: nat, c: nat, d: nat)
    requires Run(states, actions) && Init(states[0]) && n < |states|
    requires c < |states[n].at| && d < |states[n].at| && c != d
    ensures Placed(states[n].s) && Shape(states[n])
    ensures states[n].exec[c] != states[n].exec[d]
    ensures !(Holding(states[n].at[c]) && Holding(states[n].at[d]))
    ensures !states[n].at[c].Panicked? && (states[n].at[c] != Outside ==> !states[n].irq[c])
  {
    RunKeepsInv(states, actions, n);
    hide Placed;
  }

  /** In every interleaving, context_switch resumes a saved context: one no CPU
      is executing, of a thread that is not dead, about to release the lock
      that this same CPU holds. */
  lemma SwitchResumesSaved(states: seq<Sys>, actions: seq<Action>, n: nat)
    requires Run(states, actions) && Init(states[0]) && n < |actions| && actions[n].event == Switch
    ensures var a, cpu := states[n], actions[n].cpu;
            && Shape(a) && cpu < |a.at| && a.at[cpu].Switching?
            && var next := a.at[cpu].next;
            && next in a.ctx && a.ctx[next].Saved? && (a.ctx[next].pc.Resumed? || a.ctx[next].pc.Fresh?)
            && (forall d: nat :: d < |a.exec| ==> a.exec[d] != next)
            && (next in a.s.place ==> a.s.place[next] == OnCpu(cpu))
            && a.holder == Some(cpu) && states[n + 1].holder == Some(cpu)
  {
    RunKeepsInv(states, actions, n);
    hide Holds, WaitsSound;
    var a, cpu := states[n], actions[n].cpu;
    assert Next(a, cpu, Switch, states[n + 1]);
    NextIsSaved(a, cpu);
  }

  /** In every interleaving, the lock is given back by the CPU that took it,
      by a thread that is alive, with owner_ already cleared; and that thread
      gets back the interrupt flag it asked with, on whichever CPU it is now. */
  lemma UnlockedByItsHolder(states: seq<Sys>, actions: seq<Action>, n: nat)
    requires Run(states, actions) && Init(states[0]) && n < |actions| && actions[n].event == Unlock
    ensures var a, cpu := states[n], actions[n].cpu;
            && Shape(a) && cpu < |a.at| && a.locked && a.holder == Some(cpu) && a.owner == None
            && (a.exec[cpu] in a.s.place ==> a.s.place[a.exec[cpu]] == OnCpu(cpu))
            && a.exec[cpu] == a.s.current[cpu]
            && !states[n + 1].locked && states[n + 1].holder == None
            && a.exec[cpu] in a.asked && cpu < |states[n + 1].irq| && states[n + 1].irq[cpu] == a.asked[a.exec[cpu]]
  {
    RunKeepsInv(states, actions, n);
    hide Holds, WaitsSound;
    assert Next(states[n], actions[n].cpu, Unlock, states[n + 1]);
  }

  /** Between two acquisitions there is a release: the lock is taken only when
      nobody holds it, and from then on the same CPU is the holder until it unlocks. */
  lemma {:induction false} HeldUntilUnlocked(states: seq<Sys>, actions: seq<Action>, n: nat, m: nat)
    requires Run(states, actions) && Init(states[0]) && n <= m < |states| && states[n].holder.Some?
    requires forall k :: n <= k < m ==> actions[k].event != Unlock
    ensures states[m].holder == states[n].holder
    decreases m - n
  {
    hide Inv, Init, Next;
    if n < m {
      HeldUntilUnlocked(states, actions, n, m - 1);
      RunKeepsInv(states, actions, m - 1);
      assert Next(states[m - 1], actions[m - 1].cpu, actions[m - 1].event, states[m]);
      HolderStays(states[m - 1], actions[m - 1].cpu, actions[m - 1].event, states[m]);
    }
  }

  lemma HolderStays(a: Sys, cpu: nat, e: Event, b: Sys)
    requires Inv(a) && Next(a, cpu, e, b) && e != Unlock && a.holder.Some?
    ensures b.holder == a.holder
  {
    hide Placed, Section;
  }
}
