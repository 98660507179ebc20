/**
 Order and time in every run of SchedSystem: the run queue is first in, first
 out across all CPUs, and nobody wakes before the deadline stored for them.
 */
module SchedOrder {
  import opened Basics
  import opened SchedModel
  import opened SchedPlaced
  import opened SchedSystem

  /** Whom one step takes from the run queue. */
  function Dequeued(a: Sys, action: Action): seq<Tid> {
    if action.event.Work? && action.cpu < |a.at| && a.at[action.cpu].Inside? && IsCpu(a.s, action.cpu)
       && Legal(a.s, action.cpu, a.at[action.cpu].call) then
      TakenBy(a.s, action.cpu, a.at[action.cpu].call, action.event.now)
    else []
  }

  function TakenBy(s: Sched, cpu: nat, call: Call, now: nat): seq<Tid>
    requires IsCpu(s, cpu) && Legal(s, cpu, call)
  {
    var next := Section(s, cpu, call, now).next;
    if next.None? || next.value == s.idle[cpu] then [] else [next.value]
  }

  function Dequeues(states: seq<Sys>, actions: seq<Action>, n: nat, m: nat): seq<Tid>
    requires n <= m <= |actions| && |actions| < |states|
    decreases m - n
  {
    if n == m then [] else Dequeues(states, actions, n, m - 1) + Dequeued(states[m - 1], actions[m - 1])
  }

  lemma {:induction false} EnqueueAllAppends(s: Sched, ts: seq<Tid>)
    ensures s.run <= EnqueueAll(s, ts).run
    ensures EnqueueAll(s, ts).sleepers == s.sleepers && EnqueueAll(s, ts).wakeAt == s.wakeAt
  {
    EnqueueAllIs(s, ts);
  }

  lemma SectionKeepsOrder(s: Sched, cpu: nat, call: Call, now: nat)
    requires Placed(s) && IsCpu(s, cpu) && Legal(s, cpu, call)
    ensures s.run <= TakenBy(s, cpu, call, now) + Section(s, cpu, call, now).s.run
  {
    hide Holds, WaitsSound, WakeExpired, Placed, EnqueueAll;
    match call
    case YieldCall =>
      WakeExpiredPlaced(s, now);
      FrontIsNotIdle(WakeExpired(s, now), cpu);
    case WakeAllCall(w) =>
      EnqueueAllAppends(s.(waits := s.waits[w := []]), s.waits[w]);
    case _ =>
      FrontIsNotIdle(s, cpu);
  }

  lemma FrontIsNotIdle(s: Sched, cpu: nat)
    requires Placed(s) && IsCpu(s, cpu)
    ensures s.run != [] ==> s.run[0] != s.idle[cpu]
  {
  }

  lemma StepKeepsOrder(a: Sys, action: Action, b: Sys)
    requires Inv(a) && Next(a, action.cpu, action.event, b)
    ensures a.s.run <= Dequeued(a, action) + b.s.run
  {
    hide Placed, Section, Following, Locking, Contexts, Quiet;
    if action.event.Work? {
      SectionKeepsOrder(a.s, action.cpu, a.at[action.cpu].call, action.event.now);
    }
  }

  /** Across all CPUs and all calls, what was queued leaves in order before
      anything queued later. */
  lemma {:induction false} QueueOrder(states: seq<Sys>, actions: seq<Action>, n: nat, m: nat)
    requires Run(states, actions) && Init(states[0]) && n <= m < |states|
    ensures states[n].s.run <= Dequeues(states, actions, n, m) + states[m].s.run
    decreases m - n
  {
    hide Inv, Init, Next, Dequeued;
    if n < m {
      QueueOrder(states, actions, n, m - 1);
      RunKeepsInv(states, actions, m - 1);
      assert Next(states[m - 1], actions[m - 1].cpu, actions[m - 1].event, states[m]);
      StepKeepsOrder(states[m - 1], actions[m - 1], states[m]);
      Chain(states[n].s.run, Dequeues(states, actions, n, m - 1), states[m - 1].s.run,
            Dequeued(states[m - 1], actions[m - 1]), states[m].s.run);
    }
  }

  lemma Chain(q0: seq<Tid>, d0: seq<Tid>, q1: seq<Tid>, d1: seq<Tid>, q2: seq<Tid>)
    requires q0 <= d0 + q1 && q1 <= d1 + q2
    ensures q0 <= (d0 + d1) + q2
  {
    assert (d0 + d1) + q2 == d0 + (d1 + q2);
    assert d0 + q1 <= d0 + (d1 + q2);
  }

  /** A thread at position p of the run queue is returned by exactly the
      (p+1)-th later dequeue, and moves up one place with each one before. */
  lemma NthDequeue(states: seq<Sys>, actions: seq<Action>, n: nat, m: nat, p: nat)
    requires Run(states, actions) && Init(states[0]) && n <= m < |states| && p < |states[n].s.run|
    ensures var t, out := states[n].s.run[p], Dequeues(states, actions, n, m);
            if |out| <= p then p - |out| < |states[m].s.run| && states[m].s.run[p - |out|] == t && t !in out
            else out[p] == t && forall j :: 0 <= j < p ==> out[j] != t
  {
    hide Inv, Init, Next;
    QueueOrder(states, actions, n, m);
    RunKeepsInv(states, actions, n);
    RunIsNoDup(states[n]);
    PrefixAt(states[n].s.run, Dequeues(states, actions, n, m), states[m].s.run, p);
  }

  lemma PrefixAt(q: seq<Tid>, out: seq<Tid>, q': seq<Tid>, p: nat)
    requires NoDup(q) && q <= out + q' && p < |q|
    ensures if |out| <= p then p - |out| < |q'| && q'[p - |out|] == q[p] && q[p] !in out
            else out[p] == q[p] && forall j :: 0 <= j < p ==> out[j] != q[p]
  {
    assert forall j :: 0 <= j < |q| ==> (out + q')[j] == q[j];
    assert forall j :: 0 <= j < |q| && j < |out| ==> out[j] == q[j];
  }

  lemma RunIsNoDup(a: Sys)
    requires Inv(a)
    ensures NoDup(a.s.run)
  {
  }

  // ------------------------------------------------------------- sleepers

  /** t sleeps, to be woken at d. */
  predicate Asleep(s: Sched, t: Tid, d: nat) {
    t in s.sleepers && t in s.wakeAt && s.wakeAt[t] == d
  }

  lemma SectionLeavesAsleep(s: Sched, cpu: nat, call: Call, now: nat, t: Tid, d: nat)
    requires Placed(s) && IsCpu(s, cpu) && Legal(s, cpu, call)
    requires Asleep(s, t, d) && call != WakeCall(t) && (call.YieldCall? ==> now < d)
    ensures Asleep(Section(s, cpu, call, now).s, t, d)
  {
    hide WaitsSound, WakeExpired, EnqueueAll;
    match call
    case YieldCall =>
      WakeExpiredPlaced(s, now);
      ExpiredIs(s.sleepers, s.wakeAt, now);
    case WakeAllCall(w) =>
      EnqueueAllAppends(s.(waits := s.waits[w := []]), s.waits[w]);
    case WakeCall(u) =>
      WithoutIs(s.sleepers, u);
    case _ =>
  }

  lemma StepLeavesAsleep(a: Sys, action: Action, b: Sys, t: Tid, d: nat)
    requires Inv(a) && Next(a, action.cpu, action.event, b) && Asleep(a.s, t, d)
    requires Leaves(a, action, t, d)
    ensures Asleep(b.s, t, d)
  {
    hide Placed, Section, Following, Locking, Contexts, Quiet, Asleep;
    if action.event.Work? {
      SectionLeavesAsleep(a.s, action.cpu, a.at[action.cpu].call, action.event.now, t, d);
    }
  }

  /** In every run a sleeper stays asleep until somebody wakes it by name or a
      yield reads a clock that has reached its deadline. */
  lemma {:induction false} AsleepUntilDeadline(states: seq<Sys>, actions: seq<Action>, n: nat, m: nat, t: Tid, d: nat)
    requires Run(states, actions) && Init(states[0]) && n <= m < |states| && Asleep(states[n].s, t, d)
    requires forall k :: n <= k < m ==> Leaves(states[k], actions[k], t, d)
    ensures Asleep(states[m].s, t, d)
    decreases m - n
  {
    hide Inv, Init, Next, Asleep;
    if n < m {
      AsleepUntilDeadline(states, actions, n, m - 1, t, d);
      RunKeepsInv(states, actions, m - 1);
      assert Leaves(states[m - 1], actions[m - 1], t, d);
      assert Next(states[m - 1], actions[m - 1].cpu, actions[m - 1].event, states[m]);
      StepLeavesAsleep(states[m - 1], actions[m - 1], states[m], t, d);
    }
  }

  predicate Leaves(a: Sys, action: Action, t: Tid, d: nat) {
    action.event.Work? && action.cpu < |a.at| ==>
      && a.at[action.cpu] != Inside(WakeCall(t))
      && (a.at[action.cpu] == Inside(YieldCall) ==> action.event.now < d)
  }

  /** After a yield that read `now`, nobody sleeps whose deadline has passed. */
  lemma YieldWakesAllDue(s: Sched, cpu: nat, now: nat)
    requires Placed(s) && IsCpu(s, cpu)
    ensures forall t :: t in Yield(s, cpu, now).s.sleepers ==> t in s.wakeAt && s.wakeAt[t] > now
    ensures forall t :: t in s.sleepers && s.wakeAt[t] <= now ==>
              var o := Yield(s, cpu, now); t in o.s.run || o.next == Some(t)
  {
    WakeExpiredPlaced(s, now);
    ExpiredIs(s.sleepers, s.wakeAt, now);
    hide WaitsSound, CpusSound, WakeExpired, EnqueueAll;
  }

  /** The deadline is as far away as asked for, unless the sum wraps. */
  lemma DeadlineIsLateEnough(now: nat, ns: nat)
    requires now < U64 && ns < U64
    ensures Deadline(now, ns) >= now + ns <==> now + ns < U64
  {
    if now + ns >= U64 {
      assert now + ns == (now + ns - U64) + U64;
    }
  }

  /** The longest sleep there is ends before it began. */
  lemma DeadlineWrapsExample()
    ensures Deadline(10, U64 - 1) == 9
  {
    assert 10 + (U64 - 1) == 9 + U64;
  }
}
