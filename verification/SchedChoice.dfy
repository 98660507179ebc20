/**
 What each call of the scheduler does, thread by thread: whom the CPU goes to,
 where every thread is afterwards, and who stands where in the run queue. With
 it, nobody in the run queue is passed over in any run.
 */
module SchedChoice {
  import opened Basics
  import opened SchedModel
  import opened SchedPlaced
  import opened SchedSystem
  import opened SchedOrder

  /** t sleeps and its deadline has come. */
  predicate Due(s: Sched, t: Tid, now: nat) {
    t in s.sleepers && t in s.wakeAt && s.wakeAt[t] <= now
  }

  ghost predicate SomebodyDue(s: Sched, now: nat) {
    exists t :: Due(s, t, now)
  }

  /** t is due, and nobody before it in the list of sleepers is. */
  ghost predicate FirstDue(s: Sched, t: Tid, now: nat) {
    exists i: nat :: i < |s.sleepers| && s.sleepers[i] == t && Due(s, t, now)
                     && forall j: nat :: j < i ==> !Due(s, s.sleepers[j], now)
  }

  /** The caller leaves its CPU, whatever happens. */
  predicate Leaving(call: Call) {
    call.SleepCall? || call.ExitCall? || call.WaitCall?
  }

  /** Whom the CPU goes to: the front of the queue, for a yield failing that the
      first sleeper due, and for a caller that leaves in any case somebody. */
  ghost predicate Chosen(s: Sched, cpu: nat, call: Call, now: nat, next: Option<Tid>)
    requires IsCpu(s, cpu)
  {
    if call.YieldCall? then
      if s.run != [] then next == Some(s.run[0])
      else if SomebodyDue(s, now) then next.Some? && FirstDue(s, next.value, now)
      else next == None
    else if Leaving(call) then next == Some(if s.run != [] then s.run[0] else s.idle[cpu])
    else next == None
  }

  /** Where thread t is after the call. */
  function Fate(s: Sched, cpu: nat, call: Call, now: nat, next: Option<Tid>, t: Tid): Place
    requires IsCpu(s, cpu) && t in s.place
  {
    var self := s.current[cpu];
    if next == Some(t) then OnCpu(cpu)
    else
      match call
      case YieldCall => if Due(s, t, now) || (t == self && next.Some?) then InRun else s.place[t]
      case SleepCall(_) => if t == self then InSleepers else s.place[t]
      case ExitCall => if t == self then Gone else s.place[t]
      case WaitCall(w) => if t == self then InWait(w) else s.place[t]
      case WakeCall(u) => if t == u && s.place[t] == InSleepers then InRun else s.place[t]
      case WakeOneCall(w) => if w in s.waits && s.waits[w] != [] && t == s.waits[w][0] then InRun else s.place[t]
      case WakeAllCall(w) => if s.place[t] == InWait(w) then InRun else s.place[t]
      case AdoptCall(_) => s.place[t]
  }

  /** Those who waited in the queue stand first and in their order, without the
      one who was taken; who joins stands behind them, a thread that yields last. */
  ghost predicate InTurn(s: Sched, cpu: nat, call: Call, o: Outcome)
    requires IsCpu(s, cpu)
  {
    && (if o.next.Some? && s.run != [] then s.run[1..] else s.run) <= o.s.run
    && (call.YieldCall? && o.next.Some? && s.current[cpu] != s.idle[cpu] ==>
          o.s.run != [] && o.s.run[|o.s.run| - 1] == s.current[cpu])
    && (call.WakeAllCall? && call.w in s.waits ==> o.s.run == s.run + s.waits[call.w])
  }

  /** The wait queues: a waiter joins at the head, and the head is woken first. */
  predicate Waiters(s: Sched, cpu: nat, call: Call, waits: map<Wid, seq<Tid>>)
    requires IsCpu(s, cpu)
  {
    && waits.Keys == s.waits.Keys
    && forall w :: w in s.waits ==>
         waits[w] == if call == WaitCall(w) then [s.current[cpu]] + s.waits[w]
                     else if call == WakeOneCall(w) && s.waits[w] != [] then s.waits[w][1..]
                     else if call == WakeAllCall(w) then []
                     else s.waits[w]
  }

  /** a stands before b. */
  ghost predicate Before(q: seq<Tid>, a: Tid, b: Tid) {
    exists x, y :: 0 <= x < y < |q| && q[x] == a && q[y] == b
  }

  /** The list of sleepers: who goes to sleep is first; who is woken leaves the
      others in order; a yield turns the order of those it leaves asleep around, and
      queues those it wakes in the order of the list. */
  ghost predicate Sleepers(s: Sched, cpu: nat, call: Call, now: nat, o: Outcome)
    requires IsCpu(s, cpu)
  {
    && (call.SleepCall? ==> o.s.sleepers == [s.current[cpu]] + s.sleepers)
    && (call.WaitCall? || call.ExitCall? || call.WakeOneCall? || call.WakeAllCall? || call.AdoptCall? ==>
          o.s.sleepers == s.sleepers)
    && (forall i, j :: 0 <= i < j < |s.sleepers| ==>
          SleepersKept(s, s.sleepers[i], s.sleepers[j], call, now, o))
  }

  ghost predicate SleepersKept(s: Sched, a: Tid, b: Tid, call: Call, now: nat, o: Outcome) {
    && (call.WakeCall? && call.t != a && call.t != b ==> Before(o.s.sleepers, a, b))
    && (call.YieldCall? && !Due(s, a, now) && !Due(s, b, now) ==> Before(o.s.sleepers, b, a))
    && (call.YieldCall? && Due(s, a, now) && Due(s, b, now) ==>
          Before((if o.next.Some? then [o.next.value] else []) + o.s.run, a, b))
  }

  /** Every thread is where it ought to be. */
  ghost predicate Places(s: Sched, cpu: nat, call: Call, now: nat, o: Outcome)
    requires IsCpu(s, cpu)
  {
    && (forall t :: t in o.s.place <==> t in s.place || call == AdoptCall(t))
    && (forall t :: t in o.s.place ==>
          o.s.place[t] == if t in s.place then Fate(s, cpu, call, now, o.next, t) else InRun)
  }

  /** All of it. Together with everyone being in one place (SchedPlaced) this
      determines all lists. */
  ghost predicate Does(s: Sched, cpu: nat, call: Call, now: nat, o: Outcome)
    requires IsCpu(s, cpu)
  {
    && Chosen(s, cpu, call, now, o.next)
    && Places(s, cpu, call, now, o)
    && InTurn(s, cpu, call, o) && Waiters(s, cpu, call, o.s.waits)
    && o.s.current == (if o.next.Some? then s.current[cpu := o.next.value] else s.current) && o.s.idle == s.idle
    && o.s.wakeAt == (if call.SleepCall? then s.wakeAt[s.current[cpu] := (now + call.ns) % 0x1_0000_0000_0000_0000]
                      else s.wakeAt)
    && Sleepers(s, cpu, call, now, o)
  }

  /** Every critical section does what Does says. */
  lemma SectionDoes(s: Sched, cpu: nat, call: Call, now: nat)
    requires Placed(s) && IsCpu(s, cpu) && Legal(s, cpu, call)
    ensures Does(s, cpu, call, now, Section(s, cpu, call, now))
  {
    hide Does, Placed;
    if call.YieldCall? {
      YieldDoes(s, cpu, now);
    } else if Leaving(call) {
      LeavingDoes(s, cpu, call, now);
    } else {
      WakingDoes(s, cpu, call, now);
    }
  }

  /** Who is known to have a place: the caller, and the front of the queue. */
  lemma Known(s: Sched, cpu: nat)
    requires Placed(s) && IsCpu(s, cpu)
    ensures s.idle[cpu] !in s.place
    ensures s.current[cpu] != s.idle[cpu] ==> s.current[cpu] in s.place && s.place[s.current[cpu]] == OnCpu(cpu)
    ensures s.run != [] ==> s.run[0] in s.place && s.place[s.run[0]] == InRun
    ensures forall w :: w in s.waits ==> Holds(s.waits[w], s.place, InWait(w))
  {
  }

  lemma LeavingDoes(s: Sched, cpu: nat, call: Call, now: nat)
    requires Placed(s) && IsCpu(s, cpu) && Legal(s, cpu, call) && Leaving(call)
    ensures Does(s, cpu, call, now, Section(s, cpu, call, now))
  {
    hide Placed, Chosen, Places, InTurn, Waiters, SleepersKept;
    LeavingPlaces(s, cpu, call, now);
    LeavingChosen(s, cpu, call, now);
    assert forall a, b :: SleepersKept(s, a, b, call, now, Section(s, cpu, call, now)) by {
      NotSwept(s, call, now, Section(s, cpu, call, now));
    }
  }

  lemma NotSwept(s: Sched, call: Call, now: nat, o: Outcome)
    requires !call.WakeCall? && !call.YieldCall?
    ensures forall a, b :: SleepersKept(s, a, b, call, now, o)
  {
  }

  lemma LeavingChosen(s: Sched, cpu: nat, call: Call, now: nat)
    requires IsCpu(s, cpu) && Legal(s, cpu, call) && Leaving(call)
    ensures var o := Section(s, cpu, call, now);
            Chosen(s, cpu, call, now, o.next) && InTurn(s, cpu, call, o) && Waiters(s, cpu, call, o.s.waits)
  {
  }

  lemma LeavingPlaces(s: Sched, cpu: nat, call: Call, now: nat)
    requires Placed(s) && IsCpu(s, cpu) && Legal(s, cpu, call) && Leaving(call)
    ensures Places(s, cpu, call, now, Section(s, cpu, call, now))
  {
    hide Placed, Holds;
    Known(s, cpu);
  }

  lemma WakingDoes(s: Sched, cpu: nat, call: Call, now: nat)
    requires Placed(s) && IsCpu(s, cpu) && Legal(s, cpu, call) && !Leaving(call) && !call.YieldCall?
    ensures Does(s, cpu, call, now, Section(s, cpu, call, now))
  {
    hide Placed, EnqueueAll, Places, SleepersKept;
    if call.WakeAllCall? {
      EnqueueAllIs(s.(waits := s.waits[call.w := []]), s.waits[call.w]);
    }
    WakingPlaces(s, cpu, call, now);
    if call.WakeCall? {
      forall i, j | 0 <= i < j < |s.sleepers|
        ensures SleepersKept(s, s.sleepers[i], s.sleepers[j], call, now, Section(s, cpu, call, now))
      {
        WakeKeepsOrder(s, cpu, call.t, now, i, j);
      }
    } else {
      NotSwept(s, call, now, Section(s, cpu, call, now));
    }
  }

  lemma WakeKeepsOrder(s: Sched, cpu: nat, u: Tid, now: nat, i: nat, j: nat)
    requires IsCpu(s, cpu) && Legal(s, cpu, WakeCall(u)) && i < j < |s.sleepers|
    ensures SleepersKept(s, s.sleepers[i], s.sleepers[j], WakeCall(u), now, Outcome(Wake(s, u), None))
  {
    if u != s.sleepers[i] && u != s.sleepers[j] {
      WithoutKeepsOrder(s.sleepers, u, i, j);
      assert s.sleepers[i] == s.sleepers[i] && s.sleepers[j] == s.sleepers[j];
    }
  }

  lemma {:induction false} WithoutKeepsOrder(ts: seq<Tid>, u: Tid, i: nat, j: nat)
    requires i < j < |ts| && ts[i] != u && ts[j] != u
    ensures Before(ts, ts[i], ts[j]) && Before(Without(ts, u), ts[i], ts[j])
    decreases |ts|
  {
    var q := Without(ts, u);
    if ts[0] == u {
      assert q[i - 1] == ts[i] && q[j - 1] == ts[j];
    } else if i > 0 {
      WithoutKeepsOrder(ts[1..], u, i - 1, j - 1);
      var x, y :| 0 <= x < y < |Without(ts[1..], u)| && Without(ts[1..], u)[x] == ts[i]
        && Without(ts[1..], u)[y] == ts[j];
      assert q[x + 1] == ts[i] && q[y + 1] == ts[j];
    } else {
      var y := WithoutHas(ts[1..], u, j - 1);
      assert q[0] == ts[0] && q[y + 1] == ts[j];
    }
  }

  lemma {:induction false} WithoutHas(ts: seq<Tid>, u: Tid, j: nat) returns (y: nat)
    requires j < |ts| && ts[j] != u
    ensures y < |Without(ts, u)| && Without(ts, u)[y] == ts[j]
    decreases |ts|
  {
    if ts[0] == u {
      y := j - 1;
    } else if j == 0 {
      y := 0;
    } else {
      y := WithoutHas(ts[1..], u, j - 1);
      y := y + 1;
    }
  }

  lemma WakingPlaces(s: Sched, cpu: nat, call: Call, now: nat)
    requires Placed(s) && IsCpu(s, cpu) && Legal(s, cpu, call) && !Leaving(call) && !call.YieldCall?
    ensures Places(s, cpu, call, now, Section(s, cpu, call, now))
  {
    hide Placed, EnqueueAll, NoDup;
    Known(s, cpu);
    if call.WakeAllCall? {
      EnqueueAllIs(s.(waits := s.waits[call.w := []]), s.waits[call.w]);
    }
  }

  lemma YieldDoes(s: Sched, cpu: nat, now: nat)
    requires Placed(s) && IsCpu(s, cpu)
    ensures Does(s, cpu, YieldCall, now, Yield(s, cpu, now))
  {
    hide Placed, WakeExpired, Chosen, Places, InTurn, Holds, NoDup, Moved, Expired, Remaining, SleepersKept;
    ExpiredMove(s, now);
    YieldChosen(s, cpu, now);
    YieldPlaces(s, cpu, now);
    forall i, j | 0 <= i < j < |s.sleepers|
      ensures SleepersKept(s, s.sleepers[i], s.sleepers[j], YieldCall, now, Yield(s, cpu, now))
    {
      YieldSweeps(s, cpu, now, i, j);
    }
  }

  lemma YieldSweeps(s: Sched, cpu: nat, now: nat, i: nat, j: nat)
    requires Placed(s) && IsCpu(s, cpu) && i < j < |s.sleepers|
    ensures SleepersKept(s, s.sleepers[i], s.sleepers[j], YieldCall, now, Yield(s, cpu, now))
  {
    hide Placed, WakeExpired, Holds, NoDup, Moved, Expired, Remaining, Before;
    ExpiredMove(s, now);
    SweepOrders(s.sleepers, s.wakeAt, now, i, j);
    var a, b, expired, o := s.sleepers[i], s.sleepers[j], Expired(s.sleepers, s.wakeAt, now), Yield(s, cpu, now);
    if Due(s, a, now) && Due(s, b, now) {
      BeforeMore(s.run, expired, if s.current[cpu] != s.idle[cpu] then [s.current[cpu]] else [], a, b);
      var q := s.run + expired;
      assert q == [q[0]] + q[1..];
      assert (if o.next.Some? then [o.next.value] else []) + o.s.run ==
             q + if s.current[cpu] != s.idle[cpu] then [s.current[cpu]] else [];
    }
  }

  lemma BeforeMore(p: seq<Tid>, q: seq<Tid>, r: seq<Tid>, a: Tid, b: Tid)
    requires Before(q, a, b)
    ensures Before(p + q + r, a, b) && p + q != []
  {
    var x, y :| 0 <= x < y < |q| && q[x] == a && q[y] == b;
    assert (p + q + r)[|p| + x] == a && (p + q + r)[|p| + y] == b;
  }

  predicate IsDue(wakeAt: map<Tid, nat>, t: Tid, now: nat) {
    t in wakeAt && wakeAt[t] <= now
  }

  /** The sweep takes those due in order, and turns the others around. */
  lemma {:induction false} SweepOrders(ts: seq<Tid>, wakeAt: map<Tid, nat>, now: nat, i: nat, j: nat)
    requires i < j < |ts|
    ensures IsDue(wakeAt, ts[i], now) && IsDue(wakeAt, ts[j], now) ==> Before(Expired(ts, wakeAt, now), ts[i], ts[j])
    ensures !IsDue(wakeAt, ts[i], now) && !IsDue(wakeAt, ts[j], now) ==>
              Before(Remaining(ts, wakeAt, now), ts[j], ts[i])
    decreases |ts|
  {
    var e, r := Expired(ts[1..], wakeAt, now), Remaining(ts[1..], wakeAt, now);
    if i > 0 {
      SweepOrders(ts[1..], wakeAt, now, i - 1, j - 1);
      if Before(e, ts[i], ts[j]) {
        BeforeMore([ts[0]], e, [], ts[i], ts[j]);
        assert [ts[0]] + e + [] == [ts[0]] + e;
      }
      if Before(r, ts[j], ts[i]) {
        BeforeMore([], r, [ts[0]], ts[j], ts[i]);
        assert [] + r + [ts[0]] == r + [ts[0]];
      }
    } else {
      SweepHas(ts[1..], wakeAt, now, j - 1);
      if ts[j] in e {
        var y :| 0 <= y < |e| && e[y] == ts[j];
        assert ([ts[0]] + e)[0] == ts[0] && ([ts[0]] + e)[y + 1] == ts[j];
      }
      if ts[j] in r {
        var y :| 0 <= y < |r| && r[y] == ts[j];
        assert (r + [ts[0]])[|r|] == ts[0] && (r + [ts[0]])[y] == ts[j];
      }
    }
  }

  lemma SweepHas(ts: seq<Tid>, wakeAt: map<Tid, nat>, now: nat, j: nat)
    requires j < |ts|
    ensures if IsDue(wakeAt, ts[j], now) then ts[j] in Expired(ts, wakeAt, now) else ts[j] in Remaining(ts, wakeAt, now)
  {
    ExpiredIs(ts, wakeAt, now);
  }

  lemma YieldChosen(s: Sched, cpu: nat, now: nat)
    requires Placed(s) && IsCpu(s, cpu)
    ensures var o := Yield(s, cpu, now); Chosen(s, cpu, YieldCall, now, o.next) && InTurn(s, cpu, YieldCall, o)
  {
    hide Placed, WakeExpired, Expired, Remaining, SomebodyDue, FirstDue;
    ExpiredMove(s, now);
    WhoIsDue(s, now);
  }

  lemma WhoIsDue(s: Sched, now: nat)
    ensures var expired := Expired(s.sleepers, s.wakeAt, now);
            if expired == [] then !SomebodyDue(s, now) else SomebodyDue(s, now) && FirstDue(s, expired[0], now)
  {
    hide Expired, Remaining;
    var expired := Expired(s.sleepers, s.wakeAt, now);
    ExpiredIs(s.sleepers, s.wakeAt, now);
    if expired != [] {
      assert expired[0] in expired;
      assert Due(s, expired[0], now);
      FirstExpired(s.sleepers, s.wakeAt, now);
    } else {
      forall t
        ensures !Due(s, t, now)
      {
        assert t !in expired;
      }
    }
  }

  lemma YieldPlaces(s: Sched, cpu: nat, now: nat)
    requires Placed(s) && IsCpu(s, cpu)
    ensures Places(s, cpu, YieldCall, now, Yield(s, cpu, now))
  {
    hide Placed, WakeExpired, Yield, Fate;
    forall t
      ensures t in Yield(s, cpu, now).s.place <==> t in s.place
      ensures t in s.place ==>
                Yield(s, cpu, now).s.place[t] == Fate(s, cpu, YieldCall, now, Yield(s, cpu, now).next, t)
    {
      YieldPlaceOf(s, cpu, now, t);
    }
  }

  lemma YieldPlaceOf(s: Sched, cpu: nat, now: nat, t: Tid)
    requires Placed(s) && IsCpu(s, cpu)
    ensures var o := Yield(s, cpu, now);
            && (t in o.s.place <==> t in s.place)
            && (t in s.place ==> o.s.place[t] == Fate(s, cpu, YieldCall, now, o.next, t))
  {
    hide Placed, WakeExpired, Expired, Remaining, Holds, NoDup;
    ExpiredMove(s, now);
    ExpiredIs(s.sleepers, s.wakeAt, now);
    Known(s, cpu);
  }

  /** The sweep finds the sleepers due in the order of the list. */
  lemma {:induction false} FirstExpired(ts: seq<Tid>, wakeAt: map<Tid, nat>, now: nat)
    ensures var expired := Expired(ts, wakeAt, now);
            expired != [] ==>
              exists i: nat :: i < |ts| && ts[i] == expired[0]
                               && forall j: nat :: j < i ==> ts[j] !in wakeAt || wakeAt[ts[j]] > now
  {
    if ts != [] && !(ts[0] in wakeAt && wakeAt[ts[0]] <= now) && Expired(ts, wakeAt, now) != [] {
      FirstExpired(ts[1..], wakeAt, now);
      var i: nat :| i < |ts[1..]| && ts[1..][i] == Expired(ts, wakeAt, now)[0]
                    && forall j: nat :: j < i ==> ts[1..][j] !in wakeAt || wakeAt[ts[1..][j]] > now;
      assert ts[i + 1] == ts[1..][i];
      forall j: nat | j < i + 1
        ensures ts[j] !in wakeAt || wakeAt[ts[j]] > now
      {
        assert j > 0 ==> ts[j] == ts[1..][j - 1];
      }
    }
  }

  // ------------------------------------------------------ nobody is passed over

  /** The step is one in which a thread gives its CPU away, or offers it. */
  predicate IsTurn(a: Sys, action: Action) {
    action.event.Work? && action.cpu < |a.at| && a.at[action.cpu].Inside?
    && (a.at[action.cpu].call.YieldCall? || Leaving(a.at[action.cpu].call))
  }

  function Turns(states: seq<Sys>, actions: seq<Action>, n: nat, m: nat): nat
    requires n <= m <= |actions| && |actions| < |states|
    decreases m - n
  {
    if n == m then 0
    else Turns(states, actions, n, m - 1) + if IsTurn(states[m - 1], actions[m - 1]) then 1 else 0
  }

  /** The step makes t current on its CPU. */
  predicate MadeCurrent(action: Action, b: Sys, t: Tid) {
    action.event.Work? && action.cpu < |b.s.current| && b.s.current[action.cpu] == t
  }

  /** Whoever is taken from the queue becomes current, and with somebody in the
      queue each turn takes the front. */
  lemma TurnTakes(a: Sys, action: Action, b: Sys)
    requires Inv(a) && Next(a, action.cpu, action.event, b)
    ensures |Dequeued(a, action)| <= 1
    ensures Dequeued(a, action) != [] ==> MadeCurrent(action, b, Dequeued(a, action)[0])
    ensures IsTurn(a, action) && a.s.run != [] ==> Dequeued(a, action) == [a.s.run[0]]
  {
    hide Placed, Section, Following, Locking, Contexts, Quiet, Places, InTurn, Waiters, FlagsKept;
    if action.event.Work? {
      SectionDoes(a.s, action.cpu, a.at[action.cpu].call, action.event.now);
      FrontIsNotIdle(a.s, action.cpu);
    }
  }

  lemma {:induction false} EnoughTurns(states: seq<Sys>, actions: seq<Action>, n: nat, m: nat, p: nat)
    requires Run(states, actions) && Init(states[0]) && n <= m < |states| && p < |states[n].s.run|
    ensures |Dequeues(states, actions, n, m)| > p
            || |Dequeues(states, actions, n, m)| >= Turns(states, actions, n, m)
    decreases m - n
  {
    hide Inv, Init, Next, Dequeued, IsTurn;
    if n < m {
      EnoughTurns(states, actions, n, m - 1, p);
      NthDequeue(states, actions, n, m - 1, p);
      RunKeepsInv(states, actions, m - 1);
      assert Next(states[m - 1], actions[m - 1].cpu, actions[m - 1].event, states[m]);
      TurnTakes(states[m - 1], actions[m - 1], states[m]);
    }
  }

  /** The step that took the p-th. */
  lemma {:induction false} WhichStep(states: seq<Sys>, actions: seq<Action>, n: nat, m: nat, p: nat) returns (k: nat)
    requires Run(states, actions) && Init(states[0]) && n <= m < |states| && p < |Dequeues(states, actions, n, m)|
    ensures n <= k < m && Dequeued(states[k], actions[k]) == [Dequeues(states, actions, n, m)[p]]
    decreases m - n
  {
    hide Inv, Init, Next, Dequeued;
    RunKeepsInv(states, actions, m - 1);
    assert Next(states[m - 1], actions[m - 1].cpu, actions[m - 1].event, states[m]);
    TurnTakes(states[m - 1], actions[m - 1], states[m]);
    if p < |Dequeues(states, actions, n, m - 1)| {
      k := WhichStep(states, actions, n, m - 1, p);
    } else {
      k := m - 1;
    }
  }

  /** In every run of N CPUs: a thread with p others before it in the run queue
      is made current by the time the CPUs have given away, or offered, p + 1
      turns, whoever else is spawned, woken or yields meanwhile. */
  lemma NobodyPassedOver(states: seq<Sys>, actions: seq<Action>, n: nat, m: nat, p: nat)
    requires Run(states, actions) && Init(states[0]) && n <= m < |states| && p < |states[n].s.run|
    requires Turns(states, actions, n, m) > p
    ensures exists k :: n <= k < m && MadeCurrent(actions[k], states[k + 1], states[n].s.run[p])
  {
    hide Inv, Init, Next, Dequeued;
    EnoughTurns(states, actions, n, m, p);
    NthDequeue(states, actions, n, m, p);
    var k := WhichStep(states, actions, n, m, p);
    RunKeepsInv(states, actions, k);
    assert Next(states[k], actions[k].cpu, actions[k].event, states[k + 1]);
    TurnTakes(states[k], actions[k], states[k + 1]);
    assert MadeCurrent(actions[k], states[k + 1], states[n].s.run[p]);
  }
}
