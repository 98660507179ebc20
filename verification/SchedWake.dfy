/**
 Thread::wake and the wait queues: when the run queue and the wait queues stay
 apart, and what is left when they do not.
 */
module SchedWake {
  import opened Basics
  import opened SchedModel
  import opened SchedMemory

  /** No thread is on the run queue and on a wait queue, following the links. */
  ghost predicate QueuesApart(m: Mem) {
    forall w, ts, us :: w in m.heads && Chain(m.next, m.runHead, ts) && Chain(m.next, m.heads[w], us) ==>
      forall t :: t in ts ==> t !in us
  }

  /** What wake leaves, from memory that holds `s`: the contract of SchedLists.Scheduler.Wake. */
  ghost predicate Woken(m: Mem, s: Sched, t: Tid, m': Mem)
    requires t in s.place
  {
    if StateIn(s.place[t]) == Blocked then m' == Append(m, t) else Represents(m', Wake(s, t))
  }

  lemma {:induction false} SameNth(next: map<Tid, Option<Tid>>, head: Option<Tid>, ts: seq<Tid>, us: seq<Tid>, i: nat)
    requires Chain(next, head, ts) && Chain(next, head, us) && i <= |ts| && i <= |us|
    ensures Nth(ts, i) == Nth(us, i)
  {
    if i > 0 {
      SameNth(next, head, ts, us, i - 1);
      assert next[ts[i - 1]] == Nth(ts, i) && next[us[i - 1]] == Nth(us, i);
    }
  }

  /** The links lead to one list only. */
  lemma ChainUnique(next: map<Tid, Option<Tid>>, head: Option<Tid>, ts: seq<Tid>, us: seq<Tid>)
    requires Chain(next, head, ts) && Chain(next, head, us)
    ensures ts == us
  {
    forall i | 0 <= i <= |ts| && i <= |us|
      ensures Nth(ts, i) == Nth(us, i)
    {
      SameNth(next, head, ts, us, i);
    }
    assert Nth(ts, |ts|) == None && Nth(us, |us|) == None;
    assert |ts| == |us|;
    forall i | 0 <= i < |ts|
      ensures ts[i] == us[i]
    {
      assert Nth(ts, i) == Nth(us, i);
    }
  }

  lemma RepresentedApart(m: Mem, s: Sched)
    requires Represents(m, s)
    ensures QueuesApart(m)
  {
    forall w, ts, us | w in m.heads && Chain(m.next, m.runHead, ts) && Chain(m.next, m.heads[w], us)
      ensures forall t :: t in ts ==> t !in us
    {
      ChainUnique(m.next, m.runHead, ts, s.run);
      ChainUnique(m.next, m.heads[w], us, s.waits[w]);
      assert Marked(s.waits[w], s.place, InWait(w));
    }
  }

  /** Cutting a chain behind one of its threads. */
  lemma ChainCut(next: map<Tid, Option<Tid>>, next': map<Tid, Option<Tid>>, head: Option<Tid>, ts: seq<Tid>, k: nat,
                 u: Tid)
    requires Chain(next, head, ts) && NoDup(ts) && k < |ts| && u !in ts[..k] && Relinked(next, next', ts[k], u)
    requires ts[k] in next' && next'[ts[k]] == None
    ensures Chain(next', head, ts[..k + 1])
  {
    var cut := ts[..k + 1];
    forall i: nat | i < |cut|
      ensures cut[i] in next' && next'[cut[i]] == Nth(cut, i + 1)
    {
      if i < k {
        assert cut[i] == ts[..k][i];
      }
    }
  }

  lemma WaitingAt(s: Sched, t: Tid) returns (k: nat)
    requires Placed(s) && t in s.place && s.place[t].InWait?
    ensures s.place[t].w in s.waits && k < |s.waits[s.place[t].w]| && s.waits[s.place[t].w][k] == t
  {
    var w := s.place[t].w;
    assert Holds(s.waits[w], s.place, InWait(w));
    k :| 0 <= k < |s.waits[w]| && s.waits[w][k] == t;
  }

  lemma RunAppended(m: Mem, s: Sched, t: Tid)
    requires Represents(m, s) && t in s.place && s.place[t].InWait?
    ensures Chain(Append(m, t).next, Append(m, t).runHead, s.run + [t]) && Last(s.run, t) in Append(m, t).next
    ensures t in Append(m, t).next && Append(m, t).next[t] == None
            && Relinked(m.next, Append(m, t).next, t, Last(s.run, t))
  {
    NotHere(s.run, s.place, InRun, t);
    ChainAppend(m.next, m.runHead, s.run, t);
    TailIsLast(m, s, t);
  }

  lemma LastIsNotBefore(m: Mem, s: Sched, w: Wid, k: nat)
    requires Represents(m, s) && w in s.waits && k < |s.waits[w]|
    ensures w in m.heads && Chain(m.next, m.heads[w], s.waits[w]) && NoDup(s.waits[w])
    ensures Last(s.run, s.waits[w][k]) !in s.waits[w][..k]
  {
    assert Marked(s.waits[w], s.place, InWait(w));
    if s.run != [] {
      assert s.place[s.run[|s.run| - 1]] == InRun;
    }
  }

  lemma HeadsStay(m: Mem, t: Tid)
    ensures Append(m, t).heads == m.heads
  {
  }

  /** wake of a blocked thread: it is queued to run and still waits, and every
      thread that had waited behind it is no longer on the queue. */
  lemma BlockedWakeLosesWaiters(m: Mem, s: Sched, t: Tid, k: nat)
    requires Represents(m, s) && t in s.place && s.place[t].InWait?
    requires s.place[t].w in s.waits && k < |s.waits[s.place[t].w]| && s.waits[s.place[t].w][k] == t
    ensures var w, m' := s.place[t].w, Append(m, t);
            && Chain(m'.next, m'.runHead, s.run + [t])
            && w in m'.heads && Chain(m'.next, m'.heads[w], s.waits[w][..k + 1])
  {
    var w, last := s.place[t].w, Last(s.run, t);
    RunAppended(m, s, t);
    LastIsNotBefore(m, s, w, k);
    hide Chain, Represents, Last, NoDup, Append;
    ChainCut(m.next, Append(m, t).next, m.heads[w], s.waits[w], k, last);
    assert Append(m, t).heads == m.heads by { HeadsStay(m, t); }
  }

  /** The queues stay apart if and only if the thread is not blocked. */
  lemma WakeKeepsApartIffNotBlocked(m: Mem, s: Sched, t: Tid, m': Mem)
    requires Represents(m, s) && Placed(s) && t in s.place && Woken(m, s, t, m')
    ensures QueuesApart(m') <==> StateIn(s.place[t]) != Blocked
  {
    hide Represents, Placed, Chain;
    if StateIn(s.place[t]) != Blocked {
      RepresentedApart(m', Wake(s, t));
    } else {
      var k := WaitingAt(s, t);
      BlockedWakeLosesWaiters(m, s, t, k);
      var w := s.place[t].w;
      assert t in s.run + [t] && t in s.waits[w][..k + 1];
    }
  }

  /** One blocked thread is enough. */
  lemma BlockedWakeExample()
    ensures var s := Sched([], [], map[0 := [7]], map[7 := InWait(0)], map[], [1], [1], 1);
            var m := Mem(map[7 := None], map[7 := Blocked], map[], None, None, None, map[0 := Some(7)], [1], 1);
            Represents(m, s) && Chain(Append(m, 7).next, Append(m, 7).runHead, [7])
              && Chain(Append(m, 7).next, Append(m, 7).heads[0], [7])
  {
  }
}
