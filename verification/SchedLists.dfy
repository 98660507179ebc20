/**
 kernel/sched/scheduler.cpp as it updates memory: threads are numbers and each
 field of a thread is a map, so that the one link field, shared by the run
 queue, the sleepers and every wait queue, is shared here too. Every operation
 is proved to take memory that holds a state to memory that holds the state
 SchedModel gives.
 */
module SchedLists {
  import opened Basics
  import opened SchedModel
  import opened SchedPlaced
  import opened SchedMemory

  class Scheduler {
    var queueNext: map<Tid, Option<Tid>>
    var state: map<Tid, ThreadState>
    var wakeAt: map<Tid, nat>
    var runHead: Option<Tid>
    var runTail: Option<Tid>
    var sleepers: Option<Tid>
    var heads: map<Wid, Option<Tid>>
    var current: seq<Tid>
    var alive: nat
    const idle: seq<Tid>
    ghost var s: Sched

    ghost function Memory(): Mem
      reads this
    {
      Mem(queueNext, state, wakeAt, runHead, runTail, sleepers, heads, current, alive)
    }

    ghost predicate Holding()
      reads this
    {
      Represents(Memory(), s) && s.idle == idle
    }

    /** Whenever the lock is free: every thread in exactly one place. */
    ghost predicate Valid()
      reads this
    {
      Holding() && Placed(s)
    }

    /** Every CPU on its idle thread, all queues empty. */
    constructor (idle: seq<Tid>, queues: set<Wid>)
      requires NoDup(idle)
      ensures Valid() && this.idle == idle
      ensures s == Sched([], [], map w | w in queues :: [], map[], map[], idle, idle, 0)
    {
      this.idle := idle;
      queueNext, state, wakeAt := map[], map[], map[];
      runHead, runTail, sleepers := None, None, None;
      heads := map w | w in queues :: None;
      current, alive := idle, 0;
      s := Sched([], [], map w | w in queues :: [], map[], map[], idle, idle, 0);
      new;
      assert Living(s.place) == {};
    }

    // --------------------------------------------------------- primitives

    method Enqueue(t: Tid)
      requires runTail.Some? ==> runTail.value in queueNext
      modifies this`queueNext, this`state, this`runHead, this`runTail
      ensures Memory() == Append(old(Memory()), t)
    {
      queueNext := queueNext[t := None];
      state := state[t := Ready];
      if runTail.None? {
        runHead := Some(t);
        runTail := Some(t);
        return;
      }
      queueNext := queueNext[runTail.value := Some(t)];
      runTail := Some(t);
    }

    method Dequeue() returns (thread: Option<Tid>)
      requires Holding()
      modifies this`queueNext, this`runHead, this`runTail, this`s
      ensures Holding()
      ensures thread == (if old(s).run == [] then None else Some(old(s).run[0]))
      ensures s == if old(s).run == [] then old(s) else old(s).(run := old(s).run[1..])
      ensures thread.Some? ==> Loose(s, thread.value)
    {
      hide Represents;
      HeadKnown(Memory(), s);
      thread := runHead;
      if thread.None? {
        return;
      }
      TakeFirstRepresents(Memory(), s);
      runHead := queueNext[thread.value];
      if runHead.None? {
        runTail := None;
      }
      queueNext := queueNext[thread.value := None];
      s := s.(run := s.run[1..]);
    }

    method ParkSleeperAt(t: Tid, deadline: nat)
      requires Holding() && Loose(s, t)
      modifies this`queueNext, this`state, this`wakeAt, this`sleepers, this`s
      ensures Holding() && s == Parked(old(s), t, deadline)
    {
      hide Represents, Loose;
      ParkRepresents(Memory(), s, t, deadline);
      wakeAt := wakeAt[t := deadline];
      state := state[t := Sleeping];
      queueNext := queueNext[t := sleepers];
      sleepers := Some(t);
      s := Parked(s, t, deadline);
    }

    method BlockOn(w: Wid, t: Tid)
      requires Holding() && Loose(s, t) && w in s.waits
      modifies this`queueNext, this`state, this`heads, this`s
      ensures Holding() && s == BlockedOn(old(s), w, t)
    {
      hide Represents, Loose;
      BlockRepresents(Memory(), s, w, t);
      state := state[t := Blocked];
      queueNext := queueNext[t := heads[w]];
      heads := heads[w := Some(t)];
      s := BlockedOn(s, w, t);
    }

    method TakeFrom(w: Wid) returns (thread: Option<Tid>)
      requires Holding() && w in s.waits
      modifies this`queueNext, this`heads, this`s
      ensures Holding()
      ensures thread == (if old(s).waits[w] == [] then None else Some(old(s).waits[w][0]))
      ensures s == if old(s).waits[w] == [] then old(s) else WaiterTaken(old(s), w)
      ensures thread.Some? ==> Loose(s, thread.value)
    {
      hide Represents;
      WaiterKnown(Memory(), s, w);
      thread := heads[w];
      if thread.None? {
        return;
      }
      TakeWaiterRepresents(Memory(), s, w);
      heads := heads[w := queueNext[thread.value]];
      queueNext := queueNext[thread.value := None];
      s := WaiterTaken(s, w);
    }

    method SetCurrent(cpu: nat, t: Tid)
      requires Holding() && IsCpu(s, cpu) && Loose(s, t)
      modifies this`current, this`state, this`s
      ensures Holding() && s == SchedModel.SetCurrent(old(s), cpu, t)
    {
      hide Represents, Loose;
      InstallRepresents(Memory(), s, cpu, t);
      current := current[cpu := t];
      state := state[t := Running];
      s := SchedModel.SetCurrent(s, cpu, t);
    }

    method MarkDead(t: Tid)
      requires Holding() && Loose(s, t) && t in s.place && s.alive > 0
      modifies this`state, this`alive, this`s
      ensures Holding() && s == old(s).(place := old(s).place[t := Gone], alive := old(s).alive - 1)
    {
      hide Represents, Loose;
      KillRepresents(Memory(), s, t);
      state := state[t := Dead];
      alive := alive - 1;
      s := s.(place := s.place[t := Gone], alive := s.alive - 1);
    }

    /** enqueue, of a thread that is in no list. */
    method EnqueueLoose(t: Tid)
      requires Holding() && Loose(s, t)
      modifies this`queueNext, this`state, this`runHead, this`runTail, this`s
      ensures Holding() && s == SchedModel.Enqueue(old(s), t)
    {
      hide Represents, Loose;
      AppendRepresents(Memory(), s, t);
      TailKnown(Memory(), s);
      Enqueue(t);
      s := SchedModel.Enqueue(s, t);
    }

    // -------------------------------------------------------------- loops

    method WakeExpiredSleepers(now: nat)
      requires Holding() && forall t :: t in s.sleepers ==> t in s.wakeAt
      modifies this`queueNext, this`state, this`runHead, this`runTail, this`sleepers, this`s
      ensures Holding() && s == WakeExpired(old(s), now)
    {
      hide Represents, Append;
      var remaining: Option<Tid> := None;
      ghost var kept: seq<Tid> := [];
      assert Remaining(s.sleepers, s.wakeAt, now) + kept == Remaining(s.sleepers, s.wakeAt, now);
      while sleepers.Some?
        invariant Sifting(Memory(), s, remaining, kept) && s.idle == idle
        invariant s.wakeAt == old(s).wakeAt && forall t :: t in s.sleepers ==> t in s.wakeAt
        invariant Finish(s, kept, now) == WakeExpired(old(s), now)
        decreases |s.sleepers|
      {
        SleeperKnown(Memory(), s);
        FinishStep(s, kept, now);
        var thread := sleepers.value;
        ghost var m := Memory();
        sleepers := queueNext[thread];
        if wakeAt[thread] <= now {
          WakeFirst(m, s, remaining, kept);
          TailKnown(m, s);
          Enqueue(thread);
          s := SchedModel.Enqueue(s.(sleepers := s.sleepers[1..]), thread);
        } else {
          PutAside(m, s, remaining, kept);
          queueNext := queueNext[thread := remaining];
          remaining := Some(thread);
          s, kept := s.(sleepers := s.sleepers[1..]), [thread] + kept;
        }
      }
      NoSleeper(Memory(), s);
      SiftingEnds(Memory(), s, remaining, kept);
      sleepers := remaining;
      s := s.(sleepers := kept);
    }

    /** Thread** link: `before` is the thread whose link it is, or None for `sleepers`. */
    method DetachFromSleepers(t: Tid)
      requires Holding()
      modifies this`queueNext, this`sleepers, this`s
      ensures Holding() && s == old(s).(sleepers := Without(old(s).sleepers, t))
      ensures t in old(s).sleepers ==> Loose(s, t)
      ensures t !in old(s).sleepers ==> Memory() == old(Memory())
    {
      hide Represents, Loose;
      ghost var i := 0;
      var before: Option<Tid> := None;
      var link := sleepers;
      SleeperAt(Memory(), s, 0);
      while link.Some?
        invariant Holding() && s == old(s) && Memory() == old(Memory())
        invariant i <= |s.sleepers| && link == Nth(s.sleepers, i)
        invariant i < |s.sleepers| ==> before == Before(s.sleepers, i)
        invariant forall k :: 0 <= k < i ==> s.sleepers[k] != t
        decreases |s.sleepers| - i
      {
        SleeperAt(Memory(), s, i);
        if link.value == t {
          DetachRepresents(Memory(), s, i);
          match before {
            case None => sleepers := queueNext[t];
            case Some(b) => queueNext := queueNext[b := queueNext[t]];
          }
          s := s.(sleepers := Without(s.sleepers, t));
          return;
        }
        before := link;
        link := queueNext[link.value];
        i := i + 1;
        if i < |s.sleepers| {
          SleeperAt(Memory(), s, i);
        }
      }
      WithoutNobody(s.sleepers, t);
    }

    // ------------------------------------------------------ critical sections

    method SwitchAway(cpu: nat) returns (next: Tid)
      requires Holding() && IsCpu(s, cpu) && s.idle[cpu] !in s.place
      modifies this`queueNext, this`runHead, this`runTail, this`current, this`state, this`s
      ensures Holding() && s == SchedModel.SwitchAway(old(s), cpu).s
              && Some(next) == SchedModel.SwitchAway(old(s), cpu).next
    {
      hide Represents, Loose;
      var taken := Dequeue();
      if taken.None? {
        next := idle[cpu];
        IdleIsLoose(Memory(), s, cpu);
      } else {
        next := taken.value;
      }
      SetCurrent(cpu, next);
    }

    method Yield(cpu: nat, now: nat) returns (next: Option<Tid>)
      requires Valid() && IsCpu(s, cpu)
      modifies this
      ensures Valid() && s == SchedModel.Yield(old(s), cpu, now).s && next == SchedModel.Yield(old(s), cpu, now).next
    {
      hide Represents, Loose, Placed, WakeExpired;
      ghost var before := s;
      YieldPlaced(s, cpu, now);
      SleepersTimed(s);
      WakeExpiredPlaced(s, now);
      WakeExpiredSleepers(now);
      CpuKnown(Memory(), s, cpu);
      next := Dequeue();
      if next.None? {
        return;
      }
      CurrentFields(Memory(), s);
      var self := current[cpu];
      if self != idle[cpu] {
        SelfIsLoose(before, WakeExpired(before, now), cpu);
        EnqueueLoose(self);
      }
      SetCurrent(cpu, next.value);
    }

    method Sleep(cpu: nat, deadline: nat) returns (next: Tid)
      requires Valid() && IsCpu(s, cpu) && s.current[cpu] != s.idle[cpu]
      modifies this
      ensures Valid() && s == SchedModel.Sleep(old(s), cpu, deadline).s
              && Some(next) == SchedModel.Sleep(old(s), cpu, deadline).next
    {
      hide Represents, Loose, Placed;
      SleepPlaced(s, cpu, deadline);
      RunningIsLoose(Memory(), s, cpu);
      var self := current[cpu];
      ParkSleeperAt(self, deadline);
      next := SwitchAway(cpu);
    }

    method Exit(cpu: nat) returns (next: Tid)
      requires Valid() && IsCpu(s, cpu) && s.current[cpu] != s.idle[cpu]
      modifies this
      ensures old(s).alive > 0
      ensures Valid() && s == SchedModel.Exit(old(s), cpu).s && Some(next) == SchedModel.Exit(old(s), cpu).next
    {
      hide Represents, Loose, Placed;
      ExitPlaced(s, cpu);
      RunningIsLoose(Memory(), s, cpu);
      var self := current[cpu];
      MarkDead(self);
      next := SwitchAway(cpu);
    }

    method Wait(cpu: nat, w: Wid) returns (next: Tid)
      requires Valid() && IsCpu(s, cpu) && s.current[cpu] != s.idle[cpu] && w in s.waits
      modifies this
      ensures Valid() && s == SchedModel.Wait(old(s), cpu, w).s && Some(next) == SchedModel.Wait(old(s), cpu, w).next
    {
      hide Represents, Loose, Placed;
      WaitPlaced(s, cpu, w);
      RunningIsLoose(Memory(), s, cpu);
      var self := current[cpu];
      BlockOn(w, self);
      next := SwitchAway(cpu);
    }

    method WakeOne(w: Wid)
      requires Valid() && w in s.waits
      modifies this
      ensures Valid() && s == SchedModel.WakeOne(old(s), w)
    {
      hide Represents, Loose, Placed;
      WakeOnePlaced(s, w);
      var thread := TakeFrom(w);
      if thread.Some? {
        EnqueueLoose(thread.value);
      }
    }

    method WakeAll(w: Wid)
      requires Valid() && w in s.waits
      modifies this
      ensures Valid() && s == SchedModel.WakeAll(old(s), w)
    {
      hide Represents, Loose, Placed;
      WakeAllPlaced(s, w);
      WakeAllTaken(s, w);
      var thread := TakeFrom(w);
      ghost var left := if old(s).waits[w] == [] then [] else old(s).waits[w][1..];
      while thread.Some?
        invariant Holding() && w in s.waits && left == s.waits[w]
        invariant thread.Some? ==> Loose(s, thread.value)
        invariant thread.Some? ==>
                  EnqueueAll(s.(waits := s.waits[w := []]), [thread.value] + left) == SchedModel.WakeAll(old(s), w)
        invariant thread.None? ==> s == SchedModel.WakeAll(old(s), w)
        decreases if thread.Some? then |left| + 1 else 0
      {
        WakeAllStep(s, w, thread.value);
        EnqueueLoose(thread.value);
        WakeAllTaken(s, w);
        thread := TakeFrom(w);
        left := if left == [] then [] else left[1..];
      }
    }

    method Adopt(t: Tid)
      requires Valid() && t !in s.place && t !in s.idle
      modifies this
      ensures Valid() && s == SchedModel.Adopt(old(s), t)
    {
      hide Represents, Loose, Placed;
      AdoptPlaced(s, t);
      NewIsLoose(Memory(), s, t);
      alive := alive + 1;
      s := s.(alive := s.alive + 1);
      EnqueueLoose(t);
    }

    /** Thread::wake. A blocked thread is put in the run queue without being
        taken from its wait queue. */
    method Wake(t: Tid)
      requires Valid() && t in s.place
      modifies this
      ensures StateIn(old(s).place[t]) != Blocked ==> Valid() && s == SchedModel.Wake(old(s), t)
      ensures StateIn(old(s).place[t]) == Blocked ==> Memory() == Append(old(Memory()), t)
    {
      hide Represents, Loose, Placed;
      StateKnown(Memory(), s, t);
      SleeperListed(s, t);
      if state[t] == Blocked || state[t] == Sleeping {
        if StateIn(s.place[t]) != Blocked {
          WakePlaced(s, t);
        }
        DetachFromSleepers(t);
        TailKnown(Memory(), s);
        if StateIn(old(s).place[t]) != Blocked {
          AppendRepresents(Memory(), s, t);
        }
        Enqueue(t);
        s := SchedModel.Enqueue(s, t);
      }
    }
  }

  // ------------------------------------------------------------- small facts

  lemma HeadKnown(m: Mem, s: Sched)
    requires Represents(m, s)
    ensures m.runHead == Nth(s.run, 0)
  {
  }

  lemma WaiterKnown(m: Mem, s: Sched, w: Wid)
    requires Represents(m, s) && w in s.waits
    ensures w in m.heads && m.heads[w] == Nth(s.waits[w], 0)
  {
  }

  lemma TailKnown(m: Mem, s: Sched)
    requires Represents(m, s)
    ensures m.runTail.Some? ==> m.runTail.value in m.next
  {
  }

  lemma SleeperKnown(m: Mem, s: Sched)
    requires Represents(m, s) && m.sleepers.Some?
    ensures s.sleepers != [] && m.sleepers.value == s.sleepers[0] && s.sleepers[0] in m.next
    ensures s.sleepers[0] in s.wakeAt ==>
            s.sleepers[0] in m.wakeAt && m.wakeAt[s.sleepers[0]] == s.wakeAt[s.sleepers[0]]
  {
  }

  lemma NoSleeper(m: Mem, s: Sched)
    requires Represents(m, s) && m.sleepers.None?
    ensures s.sleepers == []
  {
  }

  lemma SleeperAt(m: Mem, s: Sched, i: nat)
    requires Represents(m, s)
    ensures m.sleepers == Nth(s.sleepers, 0)
    ensures i < |s.sleepers| ==> s.sleepers[i] in m.next && m.next[s.sleepers[i]] == Nth(s.sleepers, i + 1)
  {
  }

  lemma StateKnown(m: Mem, s: Sched, t: Tid)
    requires Represents(m, s) && t in s.place
    ensures t in m.state && m.state[t] == StateIn(s.place[t])
  {
  }

  lemma CurrentFields(m: Mem, s: Sched)
    requires Represents(m, s)
    ensures m.current == s.current
  {
  }

  lemma IdleIsLoose(m: Mem, s: Sched, cpu: nat)
    requires Represents(m, s) && IsCpu(s, cpu) && s.idle[cpu] !in s.place
    ensures Loose(s, s.idle[cpu])
  {
    OutsideIsLoose(s, s.idle[cpu]);
  }

  lemma NewIsLoose(m: Mem, s: Sched, t: Tid)
    requires Represents(m, s) && t !in s.place
    ensures Loose(s.(alive := s.alive + 1), t) && Represents(m.(alive := m.alive + 1), s.(alive := s.alive + 1))
  {
    OutsideIsLoose(s, t);
    hide Chain;
  }

  lemma CpuKnown(m: Mem, s: Sched, cpu: nat)
    requires Represents(m, s) && Placed(s) && IsCpu(s, cpu)
    ensures m.current == s.current && s.idle[cpu] !in s.place
  {
  }

  lemma RunningIsLoose(m: Mem, s: Sched, cpu: nat)
    requires Represents(m, s) && Placed(s) && IsCpu(s, cpu) && s.current[cpu] != s.idle[cpu]
    ensures m.current == s.current && s.current[cpu] in s.place && s.place[s.current[cpu]] == OnCpu(cpu)
            && Loose(s, s.current[cpu])
    ensures s.idle[cpu] !in s.place
  {
    OutsideIsLoose(s, s.current[cpu]);
  }

  /** The yielding thread is in no list, and not the one that was dequeued. */
  lemma SelfIsLoose(before: Sched, s: Sched, cpu: nat)
    requires Placed(s) && IsCpu(s, cpu) && s.current == before.current && s.idle == before.idle
             && s.current[cpu] != s.idle[cpu] && s.run != []
    ensures Loose(s.(run := s.run[1..]), s.current[cpu])
    ensures Loose(s.(run := s.run[1..]), s.run[0]) ==> Loose(Enqueue(s.(run := s.run[1..]), s.current[cpu]), s.run[0])
  {
    PlacedIsApart(s);
    OutsideIsLoose(s, s.current[cpu]);
    assert s.place[s.run[0]] == InRun;
  }

  lemma SleepersTimed(s: Sched)
    requires Placed(s)
    ensures forall t :: t in s.sleepers ==> t in s.wakeAt
  {
  }

  /** What the loop will have made once it has gone through the sleepers. */
  ghost function Finish(s: Sched, kept: seq<Tid>, now: nat): Sched {
    EnqueueAll(s.(sleepers := Remaining(s.sleepers, s.wakeAt, now) + kept), Expired(s.sleepers, s.wakeAt, now))
  }

  lemma FinishStep(s: Sched, kept: seq<Tid>, now: nat)
    requires s.sleepers != [] && s.sleepers[0] in s.wakeAt
    ensures var t, r := s.sleepers[0], s.(sleepers := s.sleepers[1..]);
            Finish(s, kept, now) == if s.wakeAt[t] <= now then Finish(Enqueue(r, t), kept, now)
              else Finish(r, [t] + kept, now)
  {
    var t, rest := s.sleepers[0], s.sleepers[1..];
    if s.wakeAt[t] <= now {
      assert Expired(s.sleepers, s.wakeAt, now) == [t] + Expired(rest, s.wakeAt, now);
      assert ([t] + Expired(rest, s.wakeAt, now))[1..] == Expired(rest, s.wakeAt, now);
    } else {
      assert Remaining(rest, s.wakeAt, now) + [t] + kept == Remaining(rest, s.wakeAt, now) + ([t] + kept);
    }
  }

  lemma SleeperListed(s: Sched, t: Tid)
    requires Placed(s) && t in s.place
    ensures t in s.sleepers <==> StateIn(s.place[t]) == Sleeping
  {
  }

  lemma WakeAllTaken(s: Sched, w: Wid)
    requires w in s.waits
    ensures s.waits[w] == [] ==> SchedModel.WakeAll(s, w) == s
    ensures s.waits[w] != [] ==>
              var r := WaiterTaken(s, w);
              r.(waits := r.waits[w := []]) == s.(waits := s.waits[w := []])
                && [s.waits[w][0]] + s.waits[w][1..] == s.waits[w]
  {
    if s.waits[w] == [] {
      assert s.waits[w := []] == s.waits;
    } else {
      var r := WaiterTaken(s, w);
      assert r.waits[w := []] == s.waits[w := []];
    }
  }

  lemma WakeAllStep(s: Sched, w: Wid, t: Tid)
    requires w in s.waits
    ensures EnqueueAll(s.(waits := s.waits[w := []]), [t] + s.waits[w]) ==
            EnqueueAll(Enqueue(s, t).(waits := s.waits[w := []]), s.waits[w])
    ensures s.waits[w] == [] ==> EnqueueAll(Enqueue(s, t).(waits := s.waits[w := []]), s.waits[w]) == Enqueue(s, t)
    ensures s.waits[w] != [] ==> s.waits[w] == [s.waits[w][0]] + s.waits[w][1..]
  {
    assert ([t] + s.waits[w])[1..] == s.waits[w];
    if s.waits[w] == [] {
      assert s.waits[w := []] == s.waits;
    }
  }
}
