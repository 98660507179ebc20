/**
 kernel/sched/scheduler.cpp as values: the queues as sequences, and each
 critical section under the scheduler lock as one function of the state.
 Threads, wait queues and CPUs are numbers.
 */
module SchedModel {
  import opened Basics

  type Tid = nat
  type Wid = nat

  datatype ThreadState = Ready | Running | Sleeping | Blocked | Dead

  /** Where an adopted thread is. */
  datatype Place = InRun | InSleepers | InWait(w: Wid) | OnCpu(cpu: nat) | Gone

  /** The state_ a thread has in each place. */
  function StateIn(p: Place): ThreadState {
    match p
    case InRun => Ready
    case InSleepers => Sleeping
    case InWait(_) => Blocked
    case OnCpu(_) => Running
    case Gone => Dead
  }

  /** The scheduler's globals and the thread fields it owns. The keys of
      `place` are the adopted threads; idle threads are not among them. */
  datatype Sched = Sched(
    run: seq<Tid>,
    sleepers: seq<Tid>,
    waits: map<Wid, seq<Tid>>,
    place: map<Tid, Place>,
    wakeAt: map<Tid, nat>,
    current: seq<Tid>,
    idle: seq<Tid>,
    alive: nat)

  // ------------------------------------------------------------ operations

  function Enqueue(s: Sched, t: Tid): Sched {
    s.(run := s.run + [t], place := s.place[t := InRun])
  }

  function EnqueueAll(s: Sched, ts: seq<Tid>): Sched
    decreases |ts|
  {
    if ts == [] then s else EnqueueAll(Enqueue(s, ts[0]), ts[1..])
  }

  lemma {:induction false} CpusUntouched(s: Sched, ts: seq<Tid>)
    ensures EnqueueAll(s, ts).current == s.current && EnqueueAll(s, ts).idle == s.idle
    decreases |ts|
  {
    if ts != [] {
      CpusUntouched(Enqueue(s, ts[0]), ts[1..]);
    }
  }

  /** Those whose deadline has passed, in list order. */
  function Expired(ts: seq<Tid>, wakeAt: map<Tid, nat>, now: nat): seq<Tid> {
    if ts == [] then []
    else
      var t, rest := ts[0], Expired(ts[1..], wakeAt, now);
      if t in wakeAt && wakeAt[t] <= now then [t] + rest else rest
  }

  /** The others: the loop pushes each at the front of the new list. */
  function Remaining(ts: seq<Tid>, wakeAt: map<Tid, nat>, now: nat): seq<Tid> {
    if ts == [] then []
    else
      var t, rest := ts[0], Remaining(ts[1..], wakeAt, now);
      if t in wakeAt && wakeAt[t] <= now then rest else rest + [t]
  }

  function WakeExpired(s: Sched, now: nat): Sched {
    EnqueueAll(s.(sleepers := Remaining(s.sleepers, s.wakeAt, now)), Expired(s.sleepers, s.wakeAt, now))
  }

  /** set_current. */
  function SetCurrent(s: Sched, cpu: nat, t: Tid): Sched
    requires IsCpu(s, cpu)
  {
    s.(current := s.current[cpu := t], place := if t in s.place then s.place[t := OnCpu(cpu)] else s.place)
  }

  predicate IsCpu(s: Sched, cpu: nat) {
    cpu < |s.current| && cpu < |s.idle|
  }

  /** What a critical section leaves: the new state, and whom to switch to. */
  datatype Outcome = Outcome(s: Sched, next: Option<Tid>)

  function Yield(s: Sched, cpu: nat, now: nat): Outcome
    requires IsCpu(s, cpu)
  {
    CpusUntouched(s.(sleepers := Remaining(s.sleepers, s.wakeAt, now)), Expired(s.sleepers, s.wakeAt, now));
    var s1 := WakeExpired(s, now);
    if s1.run == [] then Outcome(s1, None)
    else
      var next := s1.run[0];
      var s2 := s1.(run := s1.run[1..]);
      var s3 := if s.current[cpu] != s.idle[cpu] then Enqueue(s2, s.current[cpu]) else s2;
      Outcome(SetCurrent(s3, cpu, next), Some(next))
  }

  /** Dequeue or fall back to the idle thread: the tail of sleep, wait and exit. */
  function SwitchAway(s: Sched, cpu: nat): Outcome
    requires IsCpu(s, cpu)
  {
    if s.run == [] then Outcome(SetCurrent(s, cpu, s.idle[cpu]), Some(s.idle[cpu]))
    else Outcome(SetCurrent(s.(run := s.run[1..]), cpu, s.run[0]), Some(s.run[0]))
  }

  function Sleep(s: Sched, cpu: nat, deadline: nat): Outcome
    requires IsCpu(s, cpu)
  {
    var self := s.current[cpu];
    SwitchAway(s.(sleepers := [self] + s.sleepers, place := s.place[self := InSleepers],
                  wakeAt := s.wakeAt[self := deadline]), cpu)
  }

  function Exit(s: Sched, cpu: nat): Outcome
    requires IsCpu(s, cpu) && s.alive > 0
  {
    SwitchAway(s.(place := s.place[s.current[cpu] := Gone], alive := s.alive - 1), cpu)
  }

  function Wait(s: Sched, cpu: nat, w: Wid): Outcome
    requires IsCpu(s, cpu) && w in s.waits
  {
    var self := s.current[cpu];
    SwitchAway(s.(waits := s.waits[w := [self] + s.waits[w]], place := s.place[self := InWait(w)]), cpu)
  }

  function Without(ts: seq<Tid>, t: Tid): seq<Tid> {
    if ts == [] then [] else if ts[0] == t then ts[1..] else [ts[0]] + Without(ts[1..], t)
  }

  /** Thread::wake of a thread that is not in a wait queue. */
  function Wake(s: Sched, t: Tid): Sched
    requires t in s.place && StateIn(s.place[t]) != Blocked
  {
    if StateIn(s.place[t]) == Sleeping then Enqueue(s.(sleepers := Without(s.sleepers, t)), t) else s
  }

  function WakeOne(s: Sched, w: Wid): Sched
    requires w in s.waits
  {
    if s.waits[w] == [] then s
    else Enqueue(s.(waits := s.waits[w := s.waits[w][1..]]), s.waits[w][0])
  }

  function WakeAll(s: Sched, w: Wid): Sched
    requires w in s.waits
  {
    EnqueueAll(s.(waits := s.waits[w := []]), s.waits[w])
  }

  /** adopt. */
  function Adopt(s: Sched, t: Tid): Sched {
    Enqueue(s.(alive := s.alive + 1), t)
  }

  // ----------------------------------------------------- everyone has a place

  ghost predicate NoDup(ts: seq<Tid>) {
    forall i, j :: 0 <= i < j < |ts| ==> ts[i] != ts[j]
  }

  /** The list holds exactly the threads whose place it is, each once. */
  ghost predicate Holds(ts: seq<Tid>, place: map<Tid, Place>, p: Place) {
    && NoDup(ts)
    && (forall t :: t in ts ==> t in place && place[t] == p)
    && (forall t :: t in place && place[t] == p ==> t in ts)
  }

  ghost predicate CpusSound(s: Sched) {
    && |s.current| == |s.idle|
    && (forall c: nat :: c < |s.idle| ==> s.idle[c] !in s.place)
    && NoDup(s.idle)
    && (forall c: nat :: c < |s.current| ==>
        s.current[c] == s.idle[c] || (s.current[c] in s.place && s.place[s.current[c]] == OnCpu(c)))
    && (forall t :: t in s.place && s.place[t].OnCpu? ==>
        s.place[t].cpu < |s.current| && s.current[s.place[t].cpu] == t)
  }

  ghost predicate WaitsSound(s: Sched) {
    && (forall w :: w in s.waits ==> Holds(s.waits[w], s.place, InWait(w)))
    && (forall t :: t in s.place && s.place[t].InWait? ==> s.place[t].w in s.waits)
  }

  /** Every adopted thread is in exactly one place and there once: the run
      queue, the sleepers, one wait queue, one CPU, or nowhere once it is
      dead; and `threads_alive` counts those that are not dead. */
  ghost predicate Placed(s: Sched) {
    && Holds(s.run, s.place, InRun)
    && Holds(s.sleepers, s.place, InSleepers)
    && (forall t :: t in s.sleepers ==> t in s.wakeAt)
    && WaitsSound(s) && CpusSound(s)
    && s.alive == |Living(s.place)|
  }

  ghost function Living(place: map<Tid, Place>): set<Tid> {
    set t | t in place && place[t] != Gone
  }
}
