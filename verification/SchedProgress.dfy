/**
 The scheduler lock is handed on across context switches, so what is held on one
 thread's stack is given back on another's. This is about that never getting
 stuck: from every state of every run of N CPUs the holder's own steps free the
 lock, and a CPU that waits then gets in.
 */
module SchedProgress {
  import opened Basics
  import opened SchedModel
  import opened SchedPlaced
  import opened SchedSystem

  /** The run goes on for a while, by steps of one CPU. */
  ghost predicate GoesOn(states: seq<Sys>, actions: seq<Action>, states': seq<Sys>, actions': seq<Action>, cpu: nat,
                         steps: nat)
  {
    && Run(states', actions') && |states| <= |states'| <= |states| + steps
    && states <= states' && actions <= actions'
    && forall k :: |actions| <= k < |actions'| ==> actions'[k].cpu == cpu
  }

  lemma OneMore(states: seq<Sys>, actions: seq<Action>, cpu: nat, e: Event, b: Sys)
    requires Run(states, actions) && Next(states[|states| - 1], cpu, e, b)
    ensures GoesOn(states, actions, states + [b], actions + [Action(cpu, e)], cpu, 1)
  {
    hide Next;
    var s, v := states + [b], actions + [Action(cpu, e)];
    forall k | 0 <= k < |v|
      ensures Next(s[k], v[k].cpu, v[k].event, s[k + 1])
    {
      if k < |actions| {
        assert Next(states[k], actions[k].cpu, actions[k].event, states[k + 1]);
      }
    }
  }

  /** What a CPU does next on its way in or out. */
  function Going(p: Pc, now: nat): Event {
    match p
    case Asking(_) => TestHeld
    case SawHeld(_) => TestOwner
    case Spinning(_) => Exchange
    case Claiming(_) => StoreOwner
    case Inside(_) => Work(now)
    case Switching(_) => Switch
    case Fresh => Start
    case Resumed => ClearOwner
    case Releasing => Unlock
    case _ => Ask(YieldCall)
  }

  /** How many steps the holder is from giving the lock back, at most. */
  function StepsLeft(p: Pc): nat {
    match p
    case Claiming(_) => 6
    case Inside(_) => 5
    case Switching(_) => 4
    case Fresh => 3
    case Resumed => 2
    case Releasing => 1
    case _ => 0
  }

  /** The call a CPU is about to work on is one that may be made. */
  predicate CanWork(a: Sys, cpu: nat)
    requires IsCpu(a.s, cpu) && cpu < |a.at|
  {
    var p := a.at[cpu];
    p.Claiming? || p.Inside? ==> Legal(a.s, cpu, p.call) && (p.call.AdoptCall? ==> p.call.t !in a.ctx)
  }

  /** One step of the holder towards the release. */
  ghost predicate Nearer(a: Sys, cpu: nat, b: Sys)
    requires cpu < |a.at|
  {
    && cpu < |b.at| && b.at == a.at[cpu := b.at[cpu]] && StepsLeft(b.at[cpu]) < StepsLeft(a.at[cpu])
    && IsCpu(b.s, cpu) && CanWork(b, cpu)
    && (if b.at[cpu] == Outside then !b.locked && b.holder == None else b.holder == Some(cpu))
  }

  lemma HolderWorks(a: Sys, cpu: nat, now: nat) returns (b: Sys)
    requires Inv(a) && a.holder == Some(cpu) && cpu < |a.at| && a.at[cpu].Inside? && CanWork(a, cpu)
    ensures Next(a, cpu, Work(now), b) && Nearer(a, cpu, b)
  {
    hide Placed, Section, Legal, Following, Locking, Contexts, Quiet, FlagsKept;
    var p := a.at[cpu];
    var o := Section(a.s, cpu, p.call, now);
    SectionKeeps(a.s, cpu, p.call, now);
    b := Goto(a, cpu, if o.next.Some? then Switching(o.next.value) else Resumed)
    .(s := o.s,
      ctx := if p.call.AdoptCall? then a.ctx[p.call.t := Saved(Fresh, true)] else a.ctx,
      asked := if p.call.AdoptCall? then a.asked[p.call.t := true] else a.asked);
  }

  lemma HolderSwitches(a: Sys, cpu: nat) returns (b: Sys)
    requires Inv(a) && a.holder == Some(cpu) && cpu < |a.at| && a.at[cpu].Switching?
    ensures Next(a, cpu, Switch, b) && Nearer(a, cpu, b)
  {
    hide Placed, Legal, Quiet, FlagsKept;
    PlacedCpus(a.s);
    NextIsSaved(a, cpu);
    var next := a.at[cpu].next;
    var target := a.ctx[next];
    b := Goto(a, cpu, target.pc)
    .(exec := a.exec[cpu := next], flags := a.flags[cpu := target.flags],
      ctx := a.ctx[a.exec[cpu] := Saved(Resumed, a.flags[cpu])][next := Live(cpu)]);
  }

  /** The holder can always take its next step. */
  lemma HolderMoves(a: Sys, cpu: nat, now: nat) returns (b: Sys)
    requires Inv(a) && a.holder == Some(cpu) && IsCpu(a.s, cpu) && cpu < |a.at| && CanWork(a, cpu)
    ensures StepsLeft(a.at[cpu]) > 0 && Next(a, cpu, Going(a.at[cpu], now), b) && Nearer(a, cpu, b)
  {
    hide Placed, Section, Legal, Following, Contexts, Quiet, FlagsKept, WorkStep, SwitchStep;
    var p := a.at[cpu];
    assert Holding(p);
    if p.Inside? {
      b := HolderWorks(a, cpu, now);
    } else if p.Switching? {
      b := HolderSwitches(a, cpu);
    } else if p.Claiming? {
      b := Goto(a, cpu, Inside(p.call)).(owner := Some(cpu));
    } else if p.Fresh? {
      b := Goto(a, cpu, Resumed).(flags := a.flags[cpu := true]);
    } else if p.Resumed? {
      b := Goto(a, cpu, Releasing).(owner := None);
    } else {
      b := Goto(a, cpu, Outside).(locked := false, holder := None,
                                  irq := a.irq[cpu := a.irq[cpu] || a.flags[cpu]]);
    }
  }

  /** In every run the lock comes free again by at most six steps of its
      holder, on whichever thread's stack the last of them is, and no other CPU
      is moved. */
  lemma {:induction false} LockIsFreed(states: seq<Sys>, actions: seq<Action>, cpu: nat, now: nat)
    returns (states': seq<Sys>, actions': seq<Action>)
    requires Run(states, actions) && Init(states[0]) && states[|states| - 1].holder == Some(cpu)
    requires var a := states[|states| - 1]; IsCpu(a.s, cpu) && cpu < |a.at| && CanWork(a, cpu)
    ensures StepsLeft(states[|states| - 1].at[cpu]) > 0
    ensures GoesOn(states, actions, states', actions', cpu, StepsLeft(states[|states| - 1].at[cpu]))
    ensures var a, b := states[|states| - 1], states'[|states'| - 1];
            !b.locked && b.holder == None && b.at == a.at[cpu := Outside]
    decreases StepsLeft(states[|states| - 1].at[cpu])
  {
    hide Inv, Init, Next, CanWork;
    var a := states[|states| - 1];
    RunKeepsInv(states, actions, |states| - 1);
    var b := HolderMoves(a, cpu, now);
    OneMore(states, actions, cpu, Going(a.at[cpu], now), b);
    states', actions' := states + [b], actions + [Action(cpu, Going(a.at[cpu], now))];
    if b.at[cpu] != Outside {
      states', actions' := LockIsFreed(states', actions', cpu, now);
    }
  }

  /** How many steps a CPU that waits is from a free lock. */
  function StepsAway(p: Pc): nat {
    match p
    case Asking(_) => 3
    case SawHeld(_) => 3
    case Spinning(_) => 2
    case Claiming(_) => 1
    case _ => 0
  }

  /** The CPU is waiting for the lock. */
  predicate Waiting(p: Pc) {
    p.Asking? || p.SawHeld? || p.Spinning?
  }

  /** While the lock is free, or just taken by it, a CPU that waits gets in. */
  lemma {:induction false} LockIsTaken(states: seq<Sys>, actions: seq<Action>, cpu: nat)
    returns (states': seq<Sys>, actions': seq<Action>)
    requires Run(states, actions) && Init(states[0]) && cpu < |states[|states| - 1].at|
    requires var a := states[|states| - 1]; (Waiting(a.at[cpu]) && !a.locked) || a.at[cpu].Claiming?
    ensures GoesOn(states, actions, states', actions', cpu, 3)
    ensures |states'| <= |states| + StepsAway(states[|states| - 1].at[cpu])
    ensures var a, b := states[|states| - 1], states'[|states'| - 1];
            && b.locked && b.holder == b.owner == Some(cpu)
            && b.at == a.at[cpu := Inside(a.at[cpu].call)] && b.s == a.s
    decreases StepsAway(states[|states| - 1].at[cpu])
  {
    hide Inv, Init, Next;
    var a := states[|states| - 1];
    RunKeepsInv(states, actions, |states| - 1);
    var b := WaiterMoves(a, cpu);
    OneMore(states, actions, cpu, Going(a.at[cpu], 0), b);
    states', actions' := states + [b], actions + [Action(cpu, Going(a.at[cpu], 0))];
    if !a.at[cpu].Claiming? {
      states', actions' := LockIsTaken(states', actions', cpu);
    }
  }

  lemma WaiterMoves(a: Sys, cpu: nat) returns (b: Sys)
    requires Inv(a) && cpu < |a.at| && ((Waiting(a.at[cpu]) && !a.locked) || a.at[cpu].Claiming?)
    ensures Next(a, cpu, Going(a.at[cpu], 0), b)
    ensures b.s == a.s && cpu < |b.at| && b.at == a.at[cpu := b.at[cpu]]
    ensures if a.at[cpu].Claiming?
            then b.locked && b.holder == b.owner == Some(cpu) && b.at[cpu] == Inside(a.at[cpu].call)
            else ((Waiting(b.at[cpu]) && !b.locked) || b.at[cpu].Claiming?) && b.at[cpu].call == a.at[cpu].call
                 && StepsAway(b.at[cpu]) < StepsAway(a.at[cpu])
  {
    hide Placed, Following, Contexts, Quiet, FlagsKept;
    var p := a.at[cpu];
    assert Holding(p) <==> a.holder == Some(cpu);
    if p.Asking? || p.SawHeld? {
      b := Goto(a, cpu, Spinning(p.call));
    } else if p.Spinning? {
      b := Goto(a, cpu, Claiming(p.call)).(locked := true, holder := Some(cpu));
    } else {
      b := Goto(a, cpu, Inside(p.call)).(owner := Some(cpu));
    }
  }

  /** Whoever holds the lock may make the call it has in hand. */
  predicate HolderCanWork(a: Sys) {
    a.holder.Some? ==> IsCpu(a.s, a.holder.value) && a.holder.value < |a.at| && CanWork(a, a.holder.value)
  }

  /** No state of any run is a dead end for a CPU that waits: it is inside, with
      the call it came for, at most nine steps later, if only the holder and then
      it go on. */
  lemma WaiterGetsIn(states: seq<Sys>, actions: seq<Action>, cpu: nat, now: nat)
    returns (states': seq<Sys>, actions': seq<Action>)
    requires Run(states, actions) && Init(states[0]) && cpu < |states[|states| - 1].at|
    requires Waiting(states[|states| - 1].at[cpu]) && HolderCanWork(states[|states| - 1])
    ensures Run(states', actions') && states <= states' && actions <= actions' && |states'| <= |states| + 9
    ensures var a, b := states[|states| - 1], states'[|states'| - 1];
            cpu < |b.at| && b.at[cpu] == Inside(a.at[cpu].call) && b.locked && b.holder == b.owner == Some(cpu)
  {
    hide Inv, Init, Next, CanWork;
    var a := states[|states| - 1];
    RunKeepsInv(states, actions, |states| - 1);
    LockedIsHeld(a);
    states', actions' := states, actions;
    if a.holder.Some? {
      states', actions' := LockIsFreed(states, actions, a.holder.value, now);
    }
    states', actions' := LockIsTaken(states', actions', cpu);
  }

  lemma LockedIsHeld(a: Sys)
    requires Inv(a)
    ensures a.locked == a.holder.Some?
    ensures forall c: nat :: c < |a.at| ==> (Holding(a.at[c]) <==> a.holder == Some(c))
  {
    hide Placed, Following, Contexts, Quiet, FlagsKept;
  }

  /** And any call can be made: from its own code a CPU is inside with it at most
      ten steps later. */
  lemma CallGetsIn(states: seq<Sys>, actions: seq<Action>, cpu: nat, call: Call, now: nat)
    returns (states': seq<Sys>, actions': seq<Action>)
    requires Run(states, actions) && Init(states[0]) && cpu < |states[|states| - 1].at|
    requires states[|states| - 1].at[cpu] == Outside && HolderCanWork(states[|states| - 1])
    ensures Run(states', actions') && states <= states' && actions <= actions' && |states'| <= |states| + 10
    ensures var b := states'[|states'| - 1];
            cpu < |b.at| && b.at[cpu] == Inside(call) && b.locked && b.holder == b.owner == Some(cpu)
  {
    hide Inv, Init, Next;
    var a := states[|states| - 1];
    RunKeepsInv(states, actions, |states| - 1);
    LockedIsHeld(a);
    var b := Asks(a, cpu, call);
    OneMore(states, actions, cpu, Ask(call), b);
    states', actions' := WaiterGetsIn(states + [b], actions + [Action(cpu, Ask(call))], cpu, now);
  }

  lemma Asks(a: Sys, cpu: nat, call: Call) returns (b: Sys)
    requires Inv(a) && cpu < |a.at| && a.at[cpu] == Outside
    ensures Next(a, cpu, Ask(call), b)
    ensures b.s == a.s && b.ctx == a.ctx && b.holder == a.holder && b.at == a.at[cpu := Asking(call)]
  {
    b := Goto(a, cpu, Asking(call)).(flags := a.flags[cpu := a.irq[cpu]], irq := a.irq[cpu := false],
                                     asked := a.asked[a.exec[cpu] := a.irq[cpu]]);
  }
}
