/** Every critical section of the scheduler keeps every thread in its place. */
module SchedPlaced {
  import opened SchedModel

  // --------------------------------------------------------------- lists

  lemma {:induction false} ExpiredIs(ts: seq<Tid>, wakeAt: map<Tid, nat>, now: nat)
    ensures forall t :: t in Expired(ts, wakeAt, now) <==> t in ts && t in wakeAt && wakeAt[t] <= now
    ensures forall t :: t in Remaining(ts, wakeAt, now) <==> t in ts && !(t in wakeAt && wakeAt[t] <= now)
    ensures NoDup(ts) ==> NoDup(Expired(ts, wakeAt, now)) && NoDup(Remaining(ts, wakeAt, now))
  {
    if ts != [] {
      ExpiredIs(ts[1..], wakeAt, now);
      assert forall t :: t in ts <==> t == ts[0] || t in ts[1..];
      if NoDup(ts) {
        assert ts[0] !in ts[1..];
      }
    }
  }

  lemma {:induction false} EnqueueAllIs(s: Sched, ts: seq<Tid>)
    ensures var r := EnqueueAll(s, ts);
            && r == s.(run := s.run + ts, place := r.place)
            && (forall t :: t in r.place <==> t in s.place || t in ts)
            && forall t :: t in r.place ==> r.place[t] == if t in ts then InRun else s.place[t]
    decreases |ts|
  {
    if ts == [] {
      assert s.run + ts == s.run;
    } else {
      EnqueueAllIs(Enqueue(s, ts[0]), ts[1..]);
      assert s.run + [ts[0]] + ts[1..] == s.run + ts;
      assert forall t :: t in ts <==> t == ts[0] || t in ts[1..];
    }
  }

  lemma {:induction false} WithoutIs(ts: seq<Tid>, t: Tid)
    requires NoDup(ts)
    ensures NoDup(Without(ts, t))
    ensures forall u :: u in Without(ts, t) <==> u in ts && u != t
  {
    if ts != [] {
      assert forall u :: u in ts <==> u == ts[0] || u in ts[1..];
      if ts[0] == t {
        assert t !in ts[1..];
      } else {
        WithoutIs(ts[1..], t);
        assert ts[0] !in ts[1..];
      }
    }
  }

  lemma NoDupAppend(a: seq<Tid>, b: seq<Tid>)
    requires NoDup(a) && NoDup(b) && forall t :: t in a ==> t !in b
    ensures NoDup(a + b)
  {
    forall i, j | 0 <= i < j < |a + b|
      ensures (a + b)[i] != (a + b)[j]
    {
      if i < |a| <= j {
        assert a[i] in a && b[j - |a|] in b;
      }
    }
  }

  /** Threads ts have moved to the run queue, the others stayed. */
  ghost predicate Moved(place: map<Tid, Place>, place': map<Tid, Place>, ts: seq<Tid>) {
    && place'.Keys == place.Keys
    && (forall t :: t in ts ==> t in place)
    && (forall t :: t in place ==> place'[t] == if t in ts then InRun else place[t])
  }

  /** Threads ts, all living, move from list p to the end of the run queue. */
  lemma MoveToRun(run: seq<Tid>, ts: seq<Tid>, place: map<Tid, Place>, place': map<Tid, Place>)
    requires Holds(run, place, InRun) && NoDup(ts)
    requires Moved(place, place', ts) && forall t :: t in ts ==> place[t] != InRun
    ensures Holds(run + ts, place', InRun)
  {
    NoDupAppend(run, ts);
  }

  // ---------------------------------------------------------- operations

  /** Placed, but for one CPU whose current thread has already been moved to
      a list or has died. */
  ghost predicate LeftCpu(s: Sched, cpu: nat) {
    && IsCpu(s, cpu) && |s.current| == |s.idle|
    && Holds(s.run, s.place, InRun)
    && Holds(s.sleepers, s.place, InSleepers)
    && (forall t :: t in s.sleepers ==> t in s.wakeAt)
    && WaitsSound(s)
    && (forall c: nat :: c < |s.idle| ==> s.idle[c] !in s.place)
    && NoDup(s.idle)
    && (forall c: nat :: c < |s.current| && c != cpu ==>
          s.current[c] == s.idle[c] || (s.current[c] in s.place && s.place[s.current[c]] == OnCpu(c)))
    && (forall t :: t in s.place && s.place[t].OnCpu? ==>
          s.place[t].cpu != cpu && s.place[t].cpu < |s.current| && s.current[s.place[t].cpu] == t)
    && s.alive == |Living(s.place)|
  }

  // How one thread's move shows in a list.

  lemma OthersHold(ts: seq<Tid>, place: map<Tid, Place>, p: Place, t: Tid, q: Place)
    requires Holds(ts, place, p) && (t in place ==> place[t] != p) && q != p
    ensures Holds(ts, place[t := q], p)
  {
  }

  lemma JoinsHold(ts: seq<Tid>, place: map<Tid, Place>, p: Place, t: Tid)
    requires Holds(ts, place, p) && (t in place ==> place[t] != p)
    ensures Holds(ts + [t], place[t := p], p) && Holds([t] + ts, place[t := p], p)
  {
    NoDupAppend(ts, [t]);
    NoDupAppend([t], ts);
  }

  lemma FirstLeaves(ts: seq<Tid>, place: map<Tid, Place>, p: Place, q: Place)
    requires Holds(ts, place, p) && ts != [] && q != p
    ensures ts[0] in place && place[ts[0]] == p && Holds(ts[1..], place[ts[0] := q], p)
  {
    assert forall t :: t in ts <==> t == ts[0] || t in ts[1..];
  }

  lemma OneLeaves(ts: seq<Tid>, place: map<Tid, Place>, p: Place, t: Tid, q: Place)
    requires Holds(ts, place, p) && t in ts && q != p
    ensures Holds(Without(ts, t), place[t := q], p)
  {
    WithoutIs(ts, t);
  }

  /** A thread outside the wait queues moves elsewhere outside them. */
  lemma WaitsStay(s: Sched, s': Sched, t: Tid, q: Place)
    requires WaitsSound(s) && s'.waits == s.waits && s'.place == s.place[t := q]
    requires (t in s.place ==> !s.place[t].InWait?) && !q.InWait?
    ensures WaitsSound(s')
  {
    hide Holds;
    forall w | w in s'.waits
      ensures Holds(s'.waits[w], s'.place, InWait(w))
    {
      OthersHold(s.waits[w], s.place, InWait(w), t, q);
    }
  }

  /** One wait queue changes and the thread that joined or left it with it. */
  lemma OneWaitChanges(s: Sched, s': Sched, t: Tid, q: Place, w: Wid)
    requires WaitsSound(s) && w in s.waits && w in s'.waits && s'.waits == s.waits[w := s'.waits[w]]
             && s'.place == s.place[t := q]
    requires Holds(s'.waits[w], s'.place, InWait(w))
    requires (t in s.place && s.place[t].InWait? ==> s.place[t] == InWait(w)) && (q.InWait? ==> q == InWait(w))
    ensures WaitsSound(s')
  {
    hide Holds;
    forall v | v in s'.waits && v != w
      ensures Holds(s'.waits[v], s'.place, InWait(v))
    {
      OthersHold(s.waits[v], s.place, InWait(v), t, q);
    }
  }

  lemma MoveKeepsLiving(place: map<Tid, Place>, t: Tid, q: Place)
    requires t in place && place[t] != Gone && q != Gone
    ensures Living(place[t := q]) == Living(place)
  {
  }

  lemma IdlePlaced(s: Sched, cpu: nat)
    requires LeftCpu(s, cpu)
    ensures Placed(SetCurrent(s, cpu, s.idle[cpu]))
  {
    hide Holds;
  }

  lemma FirstPlaced(s: Sched, cpu: nat)
    requires LeftCpu(s, cpu) && s.run != []
    ensures Placed(SetCurrent(s.(run := s.run[1..]), cpu, s.run[0]))
  {
    hide Holds;
    var next := s.run[0];
    FirstLeaves(s.run, s.place, InRun, OnCpu(cpu));
    OthersHold(s.sleepers, s.place, InSleepers, next, OnCpu(cpu));
    WaitsStay(s, SetCurrent(s.(run := s.run[1..]), cpu, next), next, OnCpu(cpu));
    MoveKeepsLiving(s.place, next, OnCpu(cpu));
  }

  lemma SwitchAwayPlaced(s: Sched, cpu: nat)
    requires LeftCpu(s, cpu)
    ensures Placed(SwitchAway(s, cpu).s)
  {
    if s.run == [] {
      IdlePlaced(s, cpu);
    } else {
      FirstPlaced(s, cpu);
    }
  }

  /** The running thread has moved to place q: to a list, or out. */
  lemma SelfLeft(s: Sched, cpu: nat, r: Sched, q: Place)
    requires Placed(s) && IsCpu(s, cpu) && s.current[cpu] != s.idle[cpu] && !q.OnCpu?
    requires r.current == s.current && r.idle == s.idle && r.place == s.place[s.current[cpu] := q]
    requires Holds(r.run, r.place, InRun) && Holds(r.sleepers, r.place, InSleepers) && WaitsSound(r)
    requires (forall t :: t in r.sleepers ==> t in r.wakeAt) && r.alive == |Living(r.place)|
    ensures LeftCpu(r, cpu)
  {
    hide Holds, WaitsSound;
  }

  /** A whole list moves to the run queue: the other lists do not notice. */
  lemma OthersHoldAll(ts: seq<Tid>, place: map<Tid, Place>, place': map<Tid, Place>, p: Place, moved: seq<Tid>)
    requires Holds(ts, place, p) && p != InRun && Moved(place, place', moved)
    requires forall t :: t in moved ==> place[t] != p
    ensures Holds(ts, place', p)
  {
  }

  /** Nor do the CPUs, nor the count of the living. */
  lemma CpusStay(s: Sched, r: Sched, moved: seq<Tid>)
    requires CpusSound(s) && r.current == s.current && r.idle == s.idle && Moved(s.place, r.place, moved)
    requires forall t :: t in moved ==> s.place[t].InSleepers? || s.place[t].InWait?
    ensures CpusSound(r) && Living(r.place) == Living(s.place)
  {
  }

  lemma ExpiredMove(s: Sched, now: nat)
    requires Placed(s)
    ensures var expired, r := Expired(s.sleepers, s.wakeAt, now), WakeExpired(s, now);
            && r == s.(run := s.run + expired, sleepers := Remaining(s.sleepers, s.wakeAt, now), place := r.place)
            && Moved(s.place, r.place, expired) && NoDup(expired)
            && (forall t :: t in expired ==> s.place[t] == InSleepers)
            && (forall t :: t in r.sleepers ==> t in s.sleepers)
            && Holds(r.sleepers, r.place, InSleepers)
  {
    ExpiredIs(s.sleepers, s.wakeAt, now);
    EnqueueAllIs(s.(sleepers := Remaining(s.sleepers, s.wakeAt, now)), Expired(s.sleepers, s.wakeAt, now));
  }

  lemma WakeExpiredPlaced(s: Sched, now: nat)
    requires Placed(s)
    ensures Placed(WakeExpired(s, now))
    ensures WakeExpired(s, now) == s.(run := s.run + Expired(s.sleepers, s.wakeAt, now),
                                      sleepers := Remaining(s.sleepers, s.wakeAt, now),
                                      place := WakeExpired(s, now).place)
    ensures WakeExpired(s, now).place.Keys == s.place.Keys
  {
    hide Holds, WakeExpired, CpusSound;
    ExpiredMove(s, now);
    var expired, r := Expired(s.sleepers, s.wakeAt, now), WakeExpired(s, now);
    MoveToRun(s.run, expired, s.place, r.place);
    CpusStay(s, r, expired);
    forall w | w in r.waits
      ensures Holds(r.waits[w], r.place, InWait(w))
    {
      OthersHoldAll(s.waits[w], s.place, r.place, InWait(w), expired);
    }
  }

  lemma YieldPlaced(s: Sched, cpu: nat, now: nat)
    requires Placed(s) && IsCpu(s, cpu)
    ensures Placed(Yield(s, cpu, now).s)
  {
    hide Holds, WaitsSound, WakeExpired;
    WakeExpiredPlaced(s, now);
    var s1 := WakeExpired(s, now);
    if s1.run != [] {
      var self := s.current[cpu];
      if self == s.idle[cpu] {
        FirstPlaced(s1, cpu);
      } else {
        var s2 := Enqueue(s1, self);
        JoinsHold(s1.run, s1.place, InRun, self);
        OthersHold(s1.sleepers, s1.place, InSleepers, self, InRun);
        WaitsStay(s1, s2, self, InRun);
        MoveKeepsLiving(s1.place, self, InRun);
        SelfLeft(s1, cpu, s2, InRun);
        FirstPlaced(s2, cpu);
        assert s2.run[1..] == s1.run[1..] + [self];
      }
    }
  }

  lemma SleepPlaced(s: Sched, cpu: nat, deadline: nat)
    requires Placed(s) && IsCpu(s, cpu) && s.current[cpu] != s.idle[cpu]
    ensures Placed(Sleep(s, cpu, deadline).s)
  {
    hide Holds, WaitsSound;
    var self := s.current[cpu];
    var r := s.(sleepers := [self] + s.sleepers, place := s.place[self := InSleepers],
                wakeAt := s.wakeAt[self := deadline]);
    JoinsHold(s.sleepers, s.place, InSleepers, self);
    OthersHold(s.run, s.place, InRun, self, InSleepers);
    WaitsStay(s, r, self, InSleepers);
    MoveKeepsLiving(s.place, self, InSleepers);
    SelfLeft(s, cpu, r, InSleepers);
    SwitchAwayPlaced(r, cpu);
  }

  lemma WaitPlaced(s: Sched, cpu: nat, w: Wid)
    requires Placed(s) && IsCpu(s, cpu) && s.current[cpu] != s.idle[cpu] && w in s.waits
    ensures Placed(Wait(s, cpu, w).s)
  {
    hide Holds;
    var self := s.current[cpu];
    var r := s.(waits := s.waits[w := [self] + s.waits[w]], place := s.place[self := InWait(w)]);
    JoinsHold(s.waits[w], s.place, InWait(w), self);
    OthersHold(s.run, s.place, InRun, self, InWait(w));
    OthersHold(s.sleepers, s.place, InSleepers, self, InWait(w));
    OneWaitChanges(s, r, self, InWait(w), w);
    MoveKeepsLiving(s.place, self, InWait(w));
    SelfLeft(s, cpu, r, InWait(w));
    SwitchAwayPlaced(r, cpu);
  }

  lemma ExitPlaced(s: Sched, cpu: nat)
    requires Placed(s) && IsCpu(s, cpu) && s.current[cpu] != s.idle[cpu]
    ensures s.alive > 0 && Placed(Exit(s, cpu).s)
  {
    hide Holds, WaitsSound;
    var self := s.current[cpu];
    assert self in Living(s.place);
    var r := s.(place := s.place[self := Gone], alive := s.alive - 1);
    assert Living(r.place) == Living(s.place) - {self};
    OthersHold(s.run, s.place, InRun, self, Gone);
    OthersHold(s.sleepers, s.place, InSleepers, self, Gone);
    WaitsStay(s, r, self, Gone);
    SelfLeft(s, cpu, r, Gone);
    SwitchAwayPlaced(r, cpu);
  }

  lemma WakePlaced(s: Sched, t: Tid)
    requires Placed(s) && t in s.place && StateIn(s.place[t]) != Blocked
    ensures Placed(Wake(s, t))
  {
    if StateIn(s.place[t]) == Sleeping {
      hide WaitsSound;
      var r := Wake(s, t);
      WithoutIs(s.sleepers, t);
      OneLeaves(s.sleepers, s.place, InSleepers, t, InRun);
      JoinsHold(s.run, s.place, InRun, t);
      WaitsStay(s, r, t, InRun);
      MoveKeepsLiving(s.place, t, InRun);
    }
  }

  lemma WakeOnePlaced(s: Sched, w: Wid)
    requires Placed(s) && w in s.waits
    ensures Placed(WakeOne(s, w))
  {
    hide Holds;
    if s.waits[w] != [] {
      var t, r := s.waits[w][0], WakeOne(s, w);
      FirstLeaves(s.waits[w], s.place, InWait(w), InRun);
      JoinsHold(s.run, s.place, InRun, t);
      OthersHold(s.sleepers, s.place, InSleepers, t, InRun);
      OneWaitChanges(s, r, t, InRun, w);
      MoveKeepsLiving(s.place, t, InRun);
    }
  }

  lemma WaitersMove(s: Sched, w: Wid)
    requires Placed(s) && w in s.waits
    ensures var ts, r := s.waits[w], WakeAll(s, w);
            && r == s.(run := s.run + ts, waits := s.waits[w := []], place := r.place)
            && Moved(s.place, r.place, ts) && NoDup(ts)
            && (forall t :: t in ts ==> s.place[t] == InWait(w))
            && Holds(r.waits[w], r.place, InWait(w))
  {
    assert Holds(s.waits[w], s.place, InWait(w));
    EnqueueAllIs(s.(waits := s.waits[w := []]), s.waits[w]);
  }

  lemma WakeAllPlaced(s: Sched, w: Wid)
    requires Placed(s) && w in s.waits
    ensures Placed(WakeAll(s, w))
    ensures WakeAll(s, w).place.Keys == s.place.Keys
  {
    hide Holds, WakeAll, CpusSound;
    WaitersMove(s, w);
    var ts, r := s.waits[w], WakeAll(s, w);
    MoveToRun(s.run, ts, s.place, r.place);
    CpusStay(s, r, ts);
    OthersHoldAll(s.sleepers, s.place, r.place, InSleepers, ts);
    forall v | v in r.waits
      ensures Holds(r.waits[v], r.place, InWait(v))
    {
      if v != w {
        OthersHoldAll(s.waits[v], s.place, r.place, InWait(v), ts);
      }
    }
  }

  lemma AdoptPlaced(s: Sched, t: Tid)
    requires Placed(s) && t !in s.place && t !in s.idle
    ensures Placed(Adopt(s, t))
  {
    hide Holds, WaitsSound;
    var r := Adopt(s, t);
    JoinsHold(s.run, s.place, InRun, t);
    OthersHold(s.sleepers, s.place, InSleepers, t, InRun);
    WaitsStay(s, r, t, InRun);
    assert Living(r.place) == Living(s.place) + {t};
  }
}
