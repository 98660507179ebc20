/**
 The two interrupt-safe locks of include/eris/lock.hpp, one load or store at a
 time on N CPUs, for callers that may ask again while they hold the lock.
 */
module IrqLock {
  import opened Basics

  /** Where a CPU is in lock() or unlock(). `held`: it asks while it already
      has the lock. */
  datatype Pc =
    | Outside
    | Asking(held: bool)   // about to load locked_
    | SawHeld(held: bool)  // about to load owner_
    | Spinning(held: bool) // about to exchange locked_
    | Claiming             // about to store owner_
    | Inside
    | Releasing            // owner_ cleared, about to clear locked_
    | Panicked(held: bool)

  datatype Lock = Lock(locked: bool, owner: Option<nat>, holder: Option<nat>, at: seq<Pc>)

  datatype Event = Ask | TestHeld | TestOwner | Exchange | StoreOwner | ClearOwner | Unlock

  ghost predicate Next(a: Lock, c: nat, e: Event, b: Lock) {
    && c < |a.at|
    && var p := a.at[c];
       match e
       case Ask => (p.Outside? || p.Inside?) && b == a.(at := a.at[c := Asking(p.Inside?)])
       case TestHeld => p.Asking? && b == a.(at := a.at[c := if a.locked then SawHeld(p.held) else Spinning(p.held)])
       case TestOwner => p.SawHeld? && b == a.(at := a.at[c := if a.owner == Some(c) then Panicked(p.held)
                                                          else Spinning(p.held)])
       case Exchange => p.Spinning? && b == if a.locked then a
         else a.(locked := true, holder := Some(c), at := a.at[c := Claiming])
       case StoreOwner => p.Claiming? && b == a.(owner := Some(c), at := a.at[c := Inside])
       case ClearOwner => p.Inside? && b == a.(owner := None, at := a.at[c := Releasing])
       case Unlock => p.Releasing? && b == a.(locked := false, holder := None, at := a.at[c := Outside])
  }

  predicate Has(p: Pc) {
    p.Claiming? || p.Inside? || p.Releasing?
    || ((p.Asking? || p.SawHeld? || p.Spinning? || p.Panicked?) && p.held)
  }

  ghost predicate Inv(a: Lock) {
    && a.locked == a.holder.Some?
    && (forall c: nat :: c < |a.at| ==> (Has(a.at[c]) <==> a.holder == Some(c)))
    && (a.holder.Some? ==>
          && a.holder.value < |a.at|
          && (a.owner.Some? <==> !a.at[a.holder.value].Claiming? && !a.at[a.holder.value].Releasing?))
    && (a.owner.Some? ==> a.owner == a.holder)
    && (forall c: nat :: c < |a.at| ==> !(a.at[c].Spinning? && a.at[c].held) && !(a.at[c].Panicked? && !a.at[c].held))
  }

  ghost predicate Run(states: seq<Lock>, cpus: seq<nat>, events: seq<Event>) {
    && |states| == |cpus| + 1 == |events| + 1
    && states[0].at == seq(|states[0].at|, _ => Outside)
    && !states[0].locked && states[0].owner == None && states[0].holder == None
    && forall k :: 0 <= k < |cpus| ==> Next(states[k], cpus[k], events[k], states[k + 1])
  }

  lemma NextKeepsInv(a: Lock, c: nat, e: Event, b: Lock)
    requires Inv(a) && Next(a, c, e, b)
    ensures Inv(b)
  {
  }

  lemma {:induction false} RunKeepsInv(states: seq<Lock>, cpus: seq<nat>, events: seq<Event>, n: nat)
    requires Run(states, cpus, events) && n < |states|
    ensures Inv(states[n])
  {
    hide Next;
    if n > 0 {
      RunKeepsInv(states, cpus, events, n - 1);
      assert Next(states[n - 1], cpus[n - 1], events[n - 1], states[n]);
      NextKeepsInv(states[n - 1], cpus[n - 1], events[n - 1], states[n]);
    }
  }

  /** In every interleaving: two CPUs never both have the lock; a CPU that asks
      panics if and only if it has the lock already, so it neither panics by
      mistake nor waits for itself. */
  lemma PanicIffRecursive(states: seq<Lock>, cpus: seq<nat>, events: seq<Event>, n: nat)
    requires Run(states, cpus, events) && n < |cpus|
    ensures var a, b, c := states[n], states[n + 1], cpus[n];
            && c < |a.at| == |b.at|
            && (forall d: nat :: d < |a.at| && d != c && Has(a.at[c]) ==> !Has(a.at[d]))
            && (events[n] == TestHeld && Has(a.at[c]) ==> b.at[c].SawHeld?)
            && (events[n] == TestOwner ==> (b.at[c].Panicked? <==> a.holder == Some(c)))
            && (events[n] == Exchange ==> a.holder != Some(c))
            && (events[n] == Unlock ==> a.locked && a.holder == Some(c))
  {
    RunKeepsInv(states, cpus, events, n);
    assert Next(states[n], cpus[n], events[n], states[n + 1]);
  }

  // ------------------------------------------------------- nobody is stuck

  /** One run goes on as another, for a while. */
  ghost predicate GoesOn(states: seq<Lock>, cpus: seq<nat>, events: seq<Event>, states': seq<Lock>, cpus': seq<nat>,
                         events': seq<Event>, steps: nat)
  {
    && Run(states', cpus', events') && |states| <= |states'| <= |states| + steps
    && states <= states' && cpus <= cpus' && events <= events'
  }

  lemma OneMore(states: seq<Lock>, cpus: seq<nat>, events: seq<Event>, c: nat, e: Event, b: Lock)
    requires Run(states, cpus, events) && Next(states[|states| - 1], c, e, b)
    ensures GoesOn(states, cpus, events, states + [b], cpus + [c], events + [e], 1)
  {
    hide Next;
    var s, p, v := states + [b], cpus + [c], events + [e];
    forall k | 0 <= k < |p|
      ensures Next(s[k], p[k], v[k], s[k + 1])
    {
      if k < |cpus| {
        assert Next(states[k], cpus[k], events[k], states[k + 1]);
      }
    }
  }

  /** How many steps the holder is from giving the lock back. */
  function StepsLeft(p: Pc): nat {
    match p
    case Claiming => 3
    case Inside => 2
    case Releasing => 1
    case _ => 0
  }

  /** What a CPU does next on its way in or out. */
  function Going(p: Pc): Event {
    match p
    case Asking(_) => TestHeld
    case SawHeld(_) => TestOwner
    case Spinning(_) => Exchange
    case Claiming => StoreOwner
    case Inside => ClearOwner
    case Releasing => Unlock
    case _ => Ask
  }

  /** A holder that does not ask again gives the lock back by its own steps,
      whatever the others do not do. */
  lemma {:induction false} LockIsFreed(states: seq<Lock>, cpus: seq<nat>, events: seq<Event>, c: nat)
    returns (states': seq<Lock>, cpus': seq<nat>, events': seq<Event>)
    requires Run(states, cpus, events)
    requires var a := states[|states| - 1]; a.holder == Some(c) && c < |a.at| && StepsLeft(a.at[c]) > 0
    ensures GoesOn(states, cpus, events, states', cpus', events', StepsLeft(states[|states| - 1].at[c]))
    ensures var a, b := states[|states| - 1], states'[|states'| - 1];
            !b.locked && b.holder == None && b.owner == None && b.at == a.at[c := Outside]
    decreases StepsLeft(states[|states| - 1].at[c])
  {
    var a := states[|states| - 1];
    RunKeepsInv(states, cpus, events, |states| - 1);
    var p := a.at[c];
    var b :=
      if p.Claiming? then a.(owner := Some(c), at := a.at[c := Inside])
      else if p.Inside? then a.(owner := None, at := a.at[c := Releasing])
      else a.(locked := false, holder := None, at := a.at[c := Outside]);
    assert Next(a, c, Going(p), b);
    OneMore(states, cpus, events, c, Going(p), b);
    states', cpus', events' := states + [b], cpus + [c], events + [Going(p)];
    if StepsLeft(b.at[c]) > 0 {
      states', cpus', events' := LockIsFreed(states', cpus', events', c);
    }
  }

  /** How many steps a CPU is from a free lock. */
  function StepsAway(p: Pc): nat {
    match p
    case Outside => 5
    case Asking(_) => 4
    case SawHeld(_) => 3
    case Spinning(_) => 2
    case Claiming => 1
    case _ => 0
  }

  /** A CPU that runs alone while the lock is free, or its own, gets in. */
  lemma {:induction false} LockIsTaken(states: seq<Lock>, cpus: seq<nat>, events: seq<Event>, c: nat)
    returns (states': seq<Lock>, cpus': seq<nat>, events': seq<Event>)
    requires Run(states, cpus, events)
    requires var a := states[|states| - 1];
             c < |a.at| && !a.at[c].Panicked? && !a.at[c].Releasing?
               && (!a.locked || a.at[c].Claiming? || a.at[c].Inside?)
    ensures GoesOn(states, cpus, events, states', cpus', events', StepsAway(states[|states| - 1].at[c]))
    ensures var a, b := states[|states| - 1], states'[|states'| - 1];
            b.locked && b.holder == b.owner == Some(c) && b.at == a.at[c := Inside]
    decreases StepsAway(states[|states| - 1].at[c])
  {
    var a := states[|states| - 1];
    RunKeepsInv(states, cpus, events, |states| - 1);
    assert Has(a.at[c]) <==> a.holder == Some(c);
    var p := a.at[c];
    if p.Inside? {
      return states, cpus, events;
    }
    var b :=
      if p.Outside? then a.(at := a.at[c := Asking(false)])
      else if p.Asking? || p.SawHeld? then a.(at := a.at[c := Spinning(p.held)])
      else if p.Spinning? then a.(locked := true, holder := Some(c), at := a.at[c := Claiming])
      else a.(owner := Some(c), at := a.at[c := Inside]);
    assert Next(a, c, Going(p), b);
    OneMore(states, cpus, events, c, Going(p), b);
    states', cpus', events' := LockIsTaken(states + [b], cpus + [c], events + [Going(p)], c);
  }

  /** The holder is not asking for the lock again. */
  predicate NotAgain(a: Lock) {
    a.holder.Some? && a.holder.value < |a.at| ==> StepsLeft(a.at[a.holder.value]) > 0
  }

  /** No state of any run is a dead end: unless the holder asks again, and so
      panics, every CPU that wants the lock has it at most eight steps later if
      only the holder and it go on. */
  lemma EveryoneCanEnter(states: seq<Lock>, cpus: seq<nat>, events: seq<Event>, c: nat)
    returns (states': seq<Lock>, cpus': seq<nat>, events': seq<Event>)
    requires Run(states, cpus, events) && c < |states[|states| - 1].at|
    requires NotAgain(states[|states| - 1])
    ensures GoesOn(states, cpus, events, states', cpus', events', 8)
    ensures var b := states'[|states'| - 1]; c < |b.at| && b.at[c].Inside? && b.holder == b.owner == Some(c)
  {
    hide Next;
    var a := states[|states| - 1];
    RunKeepsInv(states, cpus, events, |states| - 1);
    states', cpus', events' := states, cpus, events;
    if a.holder.Some? && !(a.holder == Some(c) && (a.at[c].Claiming? || a.at[c].Inside?)) {
      states', cpus', events' := LockIsFreed(states, cpus, events, a.holder.value);
    }
    states', cpus', events' := LockIsTaken(states', cpus', events', c);
  }
}

module RecursiveLock {
  import opened Basics

  datatype Pc =
    | Idle                  // outside, or inside and running its own code
    | Asking                // about to load depth_
    | SawDeep               // about to load owner_
    | Deeper                // about to increment depth_
    | Spinning              // about to exchange locked_
    | Claiming              // about to store owner_
    | Starting              // about to set depth_ to one
    | Clearing              // depth_ reached zero, about to clear owner_
    | Releasing             // about to clear locked_

  /** `nest`: how many lock() calls of each CPU have returned and are not undone. */
  datatype Lock = Lock(locked: bool, owner: Option<nat>, depth: nat, holder: Option<nat>, at: seq<Pc>, nest: seq<nat>)

  datatype Event =
    | Ask | TestDepth | TestOwner | Deepen | Exchange | StoreOwner | StoreDepth | Leave | ClearOwner | Unlock

  ghost predicate Next(a: Lock, c: nat, e: Event, b: Lock) {
    && c < |a.at| == |a.nest|
    && var p := a.at[c];
       match e
       case Ask => p.Idle? && b == a.(at := a.at[c := Asking])
       case TestDepth => p.Asking? && b == a.(at := a.at[c := if a.depth > 0 then SawDeep else Spinning])
       case TestOwner => p.SawDeep? && b == a.(at := a.at[c := if a.owner == Some(c) then Deeper else Spinning])
       case Deepen => p.Deeper? && b == a.(depth := a.depth + 1, nest := a.nest[c := a.nest[c] + 1],
                                           at := a.at[c := Idle])
       case Exchange => p.Spinning? && b == if a.locked then a
         else a.(locked := true, holder := Some(c), at := a.at[c := Claiming])
       case StoreOwner => p.Claiming? && b == a.(owner := Some(c), at := a.at[c := Starting])
       case StoreDepth => p.Starting? && b == a.(depth := 1, nest := a.nest[c := 1], at := a.at[c := Idle])
       case Leave =>
         && p.Idle? && a.nest[c] > 0 && a.depth > 0
         && b == a.(depth := a.depth - 1, nest := a.nest[c := a.nest[c] - 1],
                    at := a.at[c := if a.depth == 1 then Clearing else Idle])
       case ClearOwner => p.Clearing? && b == a.(owner := None, at := a.at[c := Releasing])
       case Unlock => p.Releasing? && b == a.(locked := false, holder := None, at := a.at[c := Idle])
  }

  predicate Has(a: Lock, c: nat)
    requires c < |a.at| == |a.nest|
  {
    a.nest[c] > 0 || a.at[c].Claiming? || a.at[c].Starting? || a.at[c].Clearing? || a.at[c].Releasing?
  }

  ghost predicate Inv(a: Lock) {
    && |a.at| == |a.nest|
    && a.locked == a.holder.Some?
    && (forall c: nat :: c < |a.at| ==> (Has(a, c) <==> a.holder == Some(c)))
    && (a.holder.Some? ==>
          && a.holder.value < |a.at|
          && a.depth == a.nest[a.holder.value]
          && (a.owner.Some? <==> !a.at[a.holder.value].Claiming? && !a.at[a.holder.value].Releasing?))
    && (a.holder.None? ==> a.depth == 0)
    && (a.owner.Some? ==> a.owner == a.holder)
    && (forall c: nat :: c < |a.at| ==>
          && (a.at[c].Deeper? ==> a.nest[c] > 0)
          && (a.at[c].Spinning? || a.at[c].Claiming? || a.at[c].Starting? || a.at[c].Clearing? || a.at[c].Releasing? ==>
              a.nest[c] == 0))
  }

  ghost predicate Run(states: seq<Lock>, cpus: seq<nat>, events: seq<Event>) {
    && |states| == |cpus| + 1 == |events| + 1
    && states[0].at == seq(|states[0].at|, _ => Idle) && states[0].nest == seq(|states[0].at|, _ => 0)
    && !states[0].locked && states[0].owner == None && states[0].holder == None && states[0].depth == 0
    && forall k :: 0 <= k < |cpus| ==> Next(states[k], cpus[k], events[k], states[k + 1])
  }

  lemma NextKeepsInv(a: Lock, c: nat, e: Event, b: Lock)
    requires Inv(a) && Next(a, c, e, b)
    ensures Inv(b)
  {
    assert Has(a, c) <==> a.holder == Some(c);
  }

  lemma {:induction false} RunKeepsInv(states: seq<Lock>, cpus: seq<nat>, events: seq<Event>, n: nat)
    requires Run(states, cpus, events) && n < |states|
    ensures Inv(states[n])
  {
    hide Next;
    if n > 0 {
      RunKeepsInv(states, cpus, events, n - 1);
      assert Next(states[n - 1], cpus[n - 1], events[n - 1], states[n]);
      NextKeepsInv(states[n - 1], cpus[n - 1], events[n - 1], states[n]);
    }
  }

  /** In every interleaving: two CPUs are never inside at once, whatever their
      nesting; the unlocked read of depth_ and owner_ lets a CPU straight in if
      and only if it is inside already; and the lock is given back exactly when
      the nesting is back to zero. */
  lemma ReentersIffInside(states: seq<Lock>, cpus: seq<nat>, events: seq<Event>, n: nat)
    requires Run(states, cpus, events) && n < |cpus|
    ensures var a, b, c := states[n], states[n + 1], cpus[n];
            && c < |a.at| == |a.nest| && |b.at| == |b.nest| == |a.at|
            && (forall d: nat :: d < |a.at| && d != c && a.nest[c] > 0 ==> a.nest[d] == 0)
            && (a.nest[c] > 0 ==> a.depth == a.nest[c])
            && (events[n] == TestDepth && a.nest[c] > 0 ==> b.at[c].SawDeep?)
            && (events[n] == TestOwner ==> (b.at[c].Deeper? <==> a.nest[c] > 0))
            && (events[n] == Leave ==> (b.at[c].Clearing? <==> a.nest[c] == 1))
            && (events[n] == Unlock ==> a.locked && a.holder == Some(c) && a.nest[c] == 0)
  {
    RunKeepsInv(states, cpus, events, n);
    assert Next(states[n], cpus[n], events[n], states[n + 1]);
    assert forall d: nat :: d < |states[n].at| && states[n].nest[d] > 0 ==> Has(states[n], d);
  }

  // ------------------------------------------------------- nobody is stuck

  ghost predicate GoesOn(states: seq<Lock>, cpus: seq<nat>, events: seq<Event>, states': seq<Lock>, cpus': seq<nat>,
                         events': seq<Event>)
  {
    Run(states', cpus', events') && states <= states' && cpus <= cpus' && events <= events'
  }

  lemma OneMore(states: seq<Lock>, cpus: seq<nat>, events: seq<Event>, c: nat, e: Event, b: Lock)
    requires Run(states, cpus, events) && Next(states[|states| - 1], c, e, b)
    ensures GoesOn(states, cpus, events, states + [b], cpus + [c], events + [e])
  {
    hide Next;
    var s, p, v := states + [b], cpus + [c], events + [e];
    forall k | 0 <= k < |p|
      ensures Next(s[k], p[k], v[k], s[k + 1])
    {
      if k < |cpus| {
        assert Next(states[k], cpus[k], events[k], states[k + 1]);
      }
    }
  }

  function Going(p: Pc): Event {
    match p
    case Idle => Leave
    case Asking => TestDepth
    case SawDeep => TestOwner
    case Deeper => Deepen
    case Spinning => Exchange
    case Claiming => StoreOwner
    case Starting => StoreDepth
    case Clearing => ClearOwner
    case Releasing => Unlock
  }

  /** How many steps the holder is from giving the lock back. */
  function StepsLeft(p: Pc, nest: nat): nat {
    match p
    case Idle => nest + 2
    case Asking => nest + 6
    case SawDeep => nest + 5
    case Deeper => nest + 4
    case Spinning => 0
    case Claiming => 5
    case Starting => 4
    case Clearing => 2
    case Releasing => 1
  }

  /** The holder comes out again by its own steps, however deep it is nested. */
  lemma {:induction false} LockIsFreed(states: seq<Lock>, cpus: seq<nat>, events: seq<Event>, c: nat)
    returns (states': seq<Lock>, cpus': seq<nat>, events': seq<Event>)
    requires Run(states, cpus, events) && states[|states| - 1].holder == Some(c)
    requires c < |states[|states| - 1].at| == |states[|states| - 1].nest|
    ensures GoesOn(states, cpus, events, states', cpus', events')
    ensures |states'| <= |states| + StepsLeft(states[|states| - 1].at[c], states[|states| - 1].nest[c])
    ensures var a, b := states[|states| - 1], states'[|states'| - 1];
            && !b.locked && b.holder == None && b.owner == None && b.depth == 0
            && b.at == a.at[c := Idle] && b.nest == a.nest[c := 0]
    decreases StepsLeft(states[|states| - 1].at[c], states[|states| - 1].nest[c])
  {
    var a := states[|states| - 1];
    RunKeepsInv(states, cpus, events, |states| - 1);
    assert Has(a, c);
    var p := a.at[c];
    var b :=
      if p.Asking? then a.(at := a.at[c := SawDeep])
      else if p.SawDeep? then a.(at := a.at[c := Deeper])
      else if p.Deeper? then a.(depth := a.depth + 1, nest := a.nest[c := a.nest[c] + 1], at := a.at[c := Idle])
      else if p.Claiming? then a.(owner := Some(c), at := a.at[c := Starting])
      else if p.Starting? then a.(depth := 1, nest := a.nest[c := 1], at := a.at[c := Idle])
      else if p.Clearing? then a.(owner := None, at := a.at[c := Releasing])
      else if p.Releasing? then a.(locked := false, holder := None, at := a.at[c := Idle])
      else a.(depth := a.depth - 1, nest := a.nest[c := a.nest[c] - 1],
              at := a.at[c := if a.nest[c] == 1 then Clearing else Idle]);
    assert Next(a, c, Going(p), b);
    OneMore(states, cpus, events, c, Going(p), b);
    states', cpus', events' := states + [b], cpus + [c], events + [Going(p)];
    if b.holder.Some? {
      states', cpus', events' := LockIsFreed(states', cpus', events', c);
    }
  }

  /** How many steps a CPU is from a free lock. */
  function StepsAway(p: Pc): nat {
    match p
    case Asking => 5
    case SawDeep => 5
    case Spinning => 4
    case Claiming => 3
    case Starting => 2
    case _ => 6
  }

  /** A CPU that runs alone while the lock is free gets in. */
  lemma {:induction false} LockIsTaken(states: seq<Lock>, cpus: seq<nat>, events: seq<Event>, c: nat)
    returns (states': seq<Lock>, cpus': seq<nat>, events': seq<Event>)
    requires Run(states, cpus, events)
    requires var a := states[|states| - 1];
             c < |a.at| == |a.nest| && (!a.locked || a.at[c].Claiming? || a.at[c].Starting?)
    ensures GoesOn(states, cpus, events, states', cpus', events')
    ensures var a, b := states[|states| - 1], states'[|states'| - 1];
            && b.locked && b.holder == b.owner == Some(c) && b.depth == 1
            && b.at == a.at[c := Idle] && b.nest == a.nest[c := 1]
    decreases StepsAway(states[|states| - 1].at[c])
  {
    var a := states[|states| - 1];
    RunKeepsInv(states, cpus, events, |states| - 1);
    assert Has(a, c) <==> a.holder == Some(c);
    var p := a.at[c];
    var b :=
      if p.Idle? then a.(at := a.at[c := Asking])
      else if p.Asking? || p.SawDeep? then a.(at := a.at[c := Spinning])
      else if p.Spinning? then a.(locked := true, holder := Some(c), at := a.at[c := Claiming])
      else if p.Claiming? then a.(owner := Some(c), at := a.at[c := Starting])
      else a.(depth := 1, nest := a.nest[c := 1], at := a.at[c := Idle]);
    var e := if p.Idle? then Ask else Going(p);
    assert Next(a, c, e, b);
    OneMore(states, cpus, events, c, e, b);
    states', cpus', events' := states + [b], cpus + [c], events + [e];
    if !p.Starting? {
      states', cpus', events' := LockIsTaken(states', cpus', events', c);
    }
  }

  /** No state of any run is a dead end: every CPU can have the lock, once its
      holder has undone its calls, and is then nested once. */
  lemma EveryoneCanEnter(states: seq<Lock>, cpus: seq<nat>, events: seq<Event>, c: nat)
    returns (states': seq<Lock>, cpus': seq<nat>, events': seq<Event>)
    requires Run(states, cpus, events) && c < |states[|states| - 1].at|
    ensures GoesOn(states, cpus, events, states', cpus', events')
    ensures var b := states'[|states'| - 1];
            c < |b.at| == |b.nest| && b.nest[c] == 1 && b.holder == b.owner == Some(c) && b.depth == 1
  {
    hide Next;
    var a := states[|states| - 1];
    RunKeepsInv(states, cpus, events, |states| - 1);
    states', cpus', events' := states, cpus, events;
    if a.holder.Some? {
      states', cpus', events' := LockIsFreed(states, cpus, events, a.holder.value);
    }
    states', cpus', events' := LockIsTaken(states', cpus', events', c);
  }
}
