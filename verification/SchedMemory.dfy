/**
 The scheduler's globals and the link fields of its threads as values, and the
 pointer operations of kernel/sched/scheduler.cpp on them. One link per thread
 serves the run queue, the sleepers and every wait queue.
 */
module SchedMemory {
  import opened Basics
  import opened SchedModel
  import opened SchedPlaced

  datatype Mem = Mem(
    next: map<Tid, Option<Tid>>,    // queue_next_
    state: map<Tid, ThreadState>,   // state_
    wakeAt: map<Tid, nat>,          // wake_at_
    runHead: Option<Tid>,
    runTail: Option<Tid>,
    sleepers: Option<Tid>,
    heads: map<Wid, Option<Tid>>,   // WaitQueue::head_
    current: seq<Tid>,
    alive: nat)

  // ------------------------------------------------------------- primitives

  /** enqueue. */
  function Append(m: Mem, t: Tid): Mem {
    var linked := m.(next := m.next[t := None], state := m.state[t := Ready], runTail := Some(t));
    if m.runTail.None? then linked.(runHead := Some(t))
    else linked.(next := linked.next[m.runTail.value := Some(t)])
  }

  /** dequeue, when there is somebody. */
  function TakeFirst(m: Mem, t: Tid): Mem
    requires t in m.next
  {
    m.(runHead := m.next[t], runTail := if m.next[t].None? then None else m.runTail, next := m.next[t := None])
  }

  /** park_sleeper_at. */
  function Park(m: Mem, t: Tid, deadline: nat): Mem {
    m.(wakeAt := m.wakeAt[t := deadline], state := m.state[t := Sleeping], next := m.next[t := m.sleepers],
       sleepers := Some(t))
  }

  /** block_on. */
  function Block(m: Mem, w: Wid, t: Tid): Mem
    requires w in m.heads
  {
    m.(state := m.state[t := Blocked], next := m.next[t := m.heads[w]], heads := m.heads[w := Some(t)])
  }

  /** take_from, when there is somebody. */
  function TakeWaiter(m: Mem, w: Wid, t: Tid): Mem
    requires w in m.heads && t in m.next
  {
    m.(heads := m.heads[w := m.next[t]], next := m.next[t := None])
  }

  /** set_current. */
  function Install(m: Mem, cpu: nat, t: Tid): Mem
    requires cpu < |m.current|
  {
    m.(current := m.current[cpu := t], state := m.state[t := Running])
  }

  /** mark_dead. */
  function Kill(m: Mem, t: Tid): Mem
    requires m.alive > 0
  {
    m.(state := m.state[t := Dead], alive := m.alive - 1)
  }

  // ------------------------------------------------ memory that holds a state

  function Nth(ts: seq<Tid>, i: nat): Option<Tid> {
    if i < |ts| then Some(ts[i]) else None
  }

  /** Following the links from `head` visits exactly `ts` and ends. */
  ghost predicate Chain(next: map<Tid, Option<Tid>>, head: Option<Tid>, ts: seq<Tid>) {
    && head == Nth(ts, 0)
    && forall i: nat :: i < |ts| ==> ts[i] in next && next[ts[i]] == Nth(ts, i + 1)
  }

  /** No thread twice, and each is marked as being here. */
  ghost predicate Marked(ts: seq<Tid>, place: map<Tid, Place>, p: Place) {
    NoDup(ts) && forall t :: t in ts ==> t in place && place[t] == p
  }

  ghost predicate Apart(s: Sched) {
    && Marked(s.run, s.place, InRun)
    && Marked(s.sleepers, s.place, InSleepers)
    && forall w :: w in s.waits ==> Marked(s.waits[w], s.place, InWait(w))
  }

  /** In no list. */
  ghost predicate Loose(s: Sched, t: Tid) {
    t !in s.run && t !in s.sleepers && forall w :: w in s.waits ==> t !in s.waits[w]
  }

  ghost predicate Queues(m: Mem, s: Sched) {
    && Chain(m.next, m.runHead, s.run)
    && m.runTail == (if s.run == [] then None else Some(s.run[|s.run| - 1]))
    && Chain(m.next, m.sleepers, s.sleepers)
    && (forall w :: w in s.waits <==> w in m.heads)
    && (forall w :: w in s.waits ==> Chain(m.next, m.heads[w], s.waits[w]))
  }

  ghost predicate Fields(m: Mem, s: Sched) {
    && m.current == s.current && m.alive == s.alive
    && (forall t :: t in s.place ==> t in m.next && t in m.state && m.state[t] == StateIn(s.place[t]))
    && (forall t :: t in s.wakeAt ==> t in m.wakeAt && m.wakeAt[t] == s.wakeAt[t])
  }

  /** The memory holds this state, even between two statements of an operation. */
  ghost predicate Represents(m: Mem, s: Sched) {
    Apart(s) && Queues(m, s) && Fields(m, s)
  }

  lemma PlacedIsApart(s: Sched)
    requires Placed(s)
    ensures Apart(s)
  {
    forall w | w in s.waits
      ensures Marked(s.waits[w], s.place, InWait(w))
    {
      assert Holds(s.waits[w], s.place, InWait(w));
    }
  }

  /** A loose thread joins one list, or none. */
  lemma ApartJoin(s: Sched, s': Sched, t: Tid, q: Place)
    requires Apart(s) && Loose(s, t) && s'.place == s.place[t := q]
    requires s'.run == s.run || (q == InRun && s'.run == s.run + [t])
    requires s'.sleepers == s.sleepers || (q == InSleepers && s'.sleepers == [t] + s.sleepers)
    requires forall w :: w in s'.waits ==>
             w in s.waits && (s'.waits[w] == s.waits[w] || (q == InWait(w) && s'.waits[w] == [t] + s.waits[w]))
    ensures Apart(s')
  {
    hide Marked;
    MarkedJoin(s.run, s.place, InRun, t, q);
    MarkedJoin(s.sleepers, s.place, InSleepers, t, q);
    forall w | w in s'.waits
      ensures Marked(s'.waits[w], s'.place, InWait(w))
    {
      MarkedJoin(s.waits[w], s.place, InWait(w), t, q);
    }
  }

  lemma MarkedJoin(ts: seq<Tid>, place: map<Tid, Place>, p: Place, t: Tid, q: Place)
    requires Marked(ts, place, p) && t !in ts
    ensures Marked(ts, place[t := q], p)
    ensures p == q ==> Marked(ts + [t], place[t := q], p) && Marked([t] + ts, place[t := q], p)
  {
  }

  lemma MarkedRest(ts: seq<Tid>, place: map<Tid, Place>, p: Place)
    requires Marked(ts, place, p) && ts != []
    ensures Marked(ts[1..], place, p) && ts[0] !in ts[1..]
  {
  }

  /** Whoever is marked as being elsewhere is not in this list. */
  lemma NotHere(ts: seq<Tid>, place: map<Tid, Place>, p: Place, t: Tid)
    requires Marked(ts, place, p) && t in place && place[t] != p
    ensures t !in ts
  {
  }

  /** The first of the run queue is in no other list. */
  lemma FirstLoose(s: Sched)
    requires Apart(s) && s.run != []
    ensures s.run[0] in s.place && s.place[s.run[0]] == InRun
    ensures Loose(s.(run := s.run[1..]), s.run[0]) && Apart(s.(run := s.run[1..]))
  {
    var t := s.run[0];
    assert t in s.place && s.place[t] == InRun;
    MarkedRest(s.run, s.place, InRun);
    hide Marked;
    NotHere(s.sleepers, s.place, InSleepers, t);
    forall w | w in s.waits
      ensures t !in s.waits[w]
    {
      NotHere(s.waits[w], s.place, InWait(w), t);
    }
  }

  lemma WaiterLoose(s: Sched, w: Wid)
    requires Apart(s) && w in s.waits && s.waits[w] != []
    ensures s.waits[w][0] in s.place && s.place[s.waits[w][0]] == InWait(w)
    ensures var r := s.(waits := s.waits[w := s.waits[w][1..]]);
            Loose(r, s.waits[w][0]) && Apart(r)
  {
    var t := s.waits[w][0];
    assert t in s.place && s.place[t] == InWait(w);
    MarkedRest(s.waits[w], s.place, InWait(w));
    hide Marked;
    NotHere(s.run, s.place, InRun, t);
    NotHere(s.sleepers, s.place, InSleepers, t);
    forall v | v in s.waits && v != w
      ensures t !in s.waits[v]
    {
      NotHere(s.waits[v], s.place, InWait(v), t);
    }
  }

  /** A thread that was put where `q` says. */
  lemma FieldsJoin(m: Mem, m': Mem, s: Sched, s': Sched, t: Tid, q: Place)
    requires Fields(m, s) && s'.place == s.place[t := q] && m'.state == m.state[t := StateIn(q)]
    requires t in m'.next && forall u :: u in m.next ==> u in m'.next
    requires m'.current == s'.current && m'.alive == s'.alive
    requires forall u :: u in s'.wakeAt ==> u in m'.wakeAt && m'.wakeAt[u] == s'.wakeAt[u]
    ensures Fields(m', s')
  {
  }

  // ------------------------------------------------------- chains under update

  lemma ChainAppend(next: map<Tid, Option<Tid>>, head: Option<Tid>, ts: seq<Tid>, t: Tid)
    requires Chain(next, head, ts) && NoDup(ts) && t !in ts
    ensures ts == [] ==> Chain(next[t := None], Some(t), ts + [t])
    ensures ts != [] ==> Chain(next[t := None][ts[|ts| - 1] := Some(t)], head, ts + [t])
  {
  }

  lemma ChainRest(next: map<Tid, Option<Tid>>, head: Option<Tid>, ts: seq<Tid>, link: Option<Tid>)
    requires Chain(next, head, ts) && ts != [] && NoDup(ts)
    ensures ts[0] in next && Chain(next[ts[0] := link], next[ts[0]], ts[1..])
  {
    assert forall i: nat :: i < |ts[1..]| ==> ts[1..][i] == ts[i + 1];
  }

  lemma ChainPush(next: map<Tid, Option<Tid>>, head: Option<Tid>, ts: seq<Tid>, t: Tid)
    requires Chain(next, head, ts) && t !in ts
    ensures Chain(next[t := head], Some(t), [t] + ts)
  {
    assert forall i: nat :: 0 < i < |[t] + ts| ==> ([t] + ts)[i] == ts[i - 1];
  }

  /** Only `t` and `u` are relinked. */
  ghost predicate Relinked(next: map<Tid, Option<Tid>>, next': map<Tid, Option<Tid>>, t: Tid, u: Tid) {
    forall v :: v in next ==> v in next' && (v != t && v != u ==> next'[v] == next[v])
  }

  lemma QueueStays(next: map<Tid, Option<Tid>>, next': map<Tid, Option<Tid>>, head: Option<Tid>, ts: seq<Tid>, t: Tid,
                   u: Tid)
    requires Chain(next, head, ts) && t !in ts && u !in ts && Relinked(next, next', t, u)
    ensures Chain(next', head, ts)
  {
  }

  lemma SleepersStay(m: Mem, m': Mem, s: Sched, t: Tid, u: Tid)
    requires Queues(m, s) && t !in s.sleepers && u !in s.sleepers && Relinked(m.next, m'.next, t, u)
    ensures Chain(m'.next, m.sleepers, s.sleepers)
  {
    QueueStays(m.next, m'.next, m.sleepers, s.sleepers, t, u);
  }

  lemma RunStays(m: Mem, m': Mem, s: Sched, t: Tid)
    requires Queues(m, s) && t !in s.run && Relinked(m.next, m'.next, t, t)
    ensures Chain(m'.next, m.runHead, s.run)
  {
    QueueStays(m.next, m'.next, m.runHead, s.run, t, t);
  }

  lemma OtherWaitsStay(m: Mem, m': Mem, s: Sched, t: Tid, u: Tid)
    requires Queues(m, s) && Relinked(m.next, m'.next, t, u)
    ensures forall w :: w in s.waits && t !in s.waits[w] && u !in s.waits[w] ==> Chain(m'.next, m.heads[w], s.waits[w])
  {
    forall w | w in s.waits && t !in s.waits[w] && u !in s.waits[w]
      ensures Chain(m'.next, m.heads[w], s.waits[w])
    {
      QueueStays(m.next, m'.next, m.heads[w], s.waits[w], t, u);
    }
  }

  // --------------------------------------------- the primitives, represented

  function Last(ts: seq<Tid>, t: Tid): Tid {
    if ts == [] then t else ts[|ts| - 1]
  }

  lemma LastElsewhere(s: Sched, t: Tid)
    requires Apart(s) && Loose(s, t)
    ensures Last(s.run, t) !in s.sleepers && forall w :: w in s.waits ==> Last(s.run, t) !in s.waits[w]
  {
    var last := Last(s.run, t);
    if s.run != [] {
      assert last in s.place && s.place[last] == InRun;
      hide Marked;
      NotHere(s.sleepers, s.place, InSleepers, last);
      forall w | w in s.waits
        ensures last !in s.waits[w]
      {
        NotHere(s.waits[w], s.place, InWait(w), last);
      }
    }
  }

  lemma AppendQueues(m: Mem, s: Sched, t: Tid)
    requires Apart(s) && Queues(m, s) && Loose(s, t)
    ensures Queues(Append(m, t), Enqueue(s, t))
  {
    var m', last := Append(m, t), Last(s.run, t);
    assert NoDup(s.run);
    ChainAppend(m.next, m.runHead, s.run, t);
    hide Chain, Apart;
    LastElsewhere(s, t);
    SleepersStay(m, m', s, t, last);
    OtherWaitsStay(m, m', s, t, last);
  }

  /** enqueue of a thread that is in no list. */
  lemma AppendRepresents(m: Mem, s: Sched, t: Tid)
    requires Represents(m, s) && Loose(s, t)
    ensures Represents(Append(m, t), Enqueue(s, t))
  {
    hide Queues, Apart, Fields, Loose;
    ApartJoin(s, Enqueue(s, t), t, InRun);
    AppendQueues(m, s, t);
    SameFields(m, s);
    FieldsJoin(m, Append(m, t), s, Enqueue(s, t), t, InRun);
  }

  lemma SameFields(m: Mem, s: Sched)
    requires Fields(m, s)
    ensures m.current == s.current && m.alive == s.alive
    ensures forall t :: t in s.wakeAt ==> t in m.wakeAt && m.wakeAt[t] == s.wakeAt[t]
  {
  }

  lemma TakeFirstQueues(m: Mem, s: Sched)
    requires Queues(m, s) && s.run != [] && NoDup(s.run) && Loose(s.(run := s.run[1..]), s.run[0])
    ensures m.runHead == Some(s.run[0]) && s.run[0] in m.next
    ensures Queues(TakeFirst(m, s.run[0]), s.(run := s.run[1..]))
  {
    var t := s.run[0];
    ChainRest(m.next, m.runHead, s.run, None);
    var m' := TakeFirst(m, t);
    assert m.next[t] == Nth(s.run, 1);
    hide Chain;
    SleepersStay(m, m', s, t, t);
    OtherWaitsStay(m, m', s, t, t);
  }

  /** dequeue: the thread it returns is left in no list. */
  lemma TakeFirstRepresents(m: Mem, s: Sched)
    requires Represents(m, s) && s.run != []
    ensures m.runHead == Some(s.run[0]) && s.run[0] in m.next && Loose(s.(run := s.run[1..]), s.run[0])
    ensures Represents(TakeFirst(m, s.run[0]), s.(run := s.run[1..]))
  {
    FirstLoose(s);
    TakeFirstQueues(m, s);
    hide Queues, Apart;
  }

  function Parked(s: Sched, t: Tid, deadline: nat): Sched {
    s.(sleepers := [t] + s.sleepers, place := s.place[t := InSleepers], wakeAt := s.wakeAt[t := deadline])
  }

  lemma ParkQueues(m: Mem, s: Sched, t: Tid, deadline: nat)
    requires Queues(m, s) && Loose(s, t)
    ensures Queues(Park(m, t, deadline), Parked(s, t, deadline))
  {
    ChainPush(m.next, m.sleepers, s.sleepers, t);
    hide Chain;
    var m' := Park(m, t, deadline);
    RunStays(m, m', s, t);
    OtherWaitsStay(m, m', s, t, t);
  }

  /** park_sleeper_at of a thread that is in no list. */
  lemma ParkRepresents(m: Mem, s: Sched, t: Tid, deadline: nat)
    requires Represents(m, s) && Loose(s, t)
    ensures Represents(Park(m, t, deadline), Parked(s, t, deadline))
  {
    hide Queues, Apart, Fields, Loose;
    ApartJoin(s, Parked(s, t, deadline), t, InSleepers);
    ParkQueues(m, s, t, deadline);
    SameFields(m, s);
    FieldsJoin(m, Park(m, t, deadline), s, Parked(s, t, deadline), t, InSleepers);
  }

  function BlockedOn(s: Sched, w: Wid, t: Tid): Sched
    requires w in s.waits
  {
    s.(waits := s.waits[w := [t] + s.waits[w]], place := s.place[t := InWait(w)])
  }

  lemma BlockQueues(m: Mem, s: Sched, w: Wid, t: Tid)
    requires Queues(m, s) && Loose(s, t) && w in s.waits
    ensures w in m.heads && Queues(Block(m, w, t), BlockedOn(s, w, t))
  {
    ChainPush(m.next, m.heads[w], s.waits[w], t);
    hide Chain;
    var m' := Block(m, w, t);
    RunStays(m, m', s, t);
    SleepersStay(m, m', s, t, t);
    OtherWaitsStay(m, m', s, t, t);
  }

  /** block_on of a thread that is in no list. */
  lemma BlockRepresents(m: Mem, s: Sched, w: Wid, t: Tid)
    requires Represents(m, s) && Loose(s, t) && w in s.waits
    ensures w in m.heads && Represents(Block(m, w, t), BlockedOn(s, w, t))
  {
    hide Queues, Apart, Fields, Loose;
    BlockQueues(m, s, w, t);
    ApartJoin(s, BlockedOn(s, w, t), t, InWait(w));
    SameFields(m, s);
    FieldsJoin(m, Block(m, w, t), s, BlockedOn(s, w, t), t, InWait(w));
  }

  function WaiterTaken(s: Sched, w: Wid): Sched
    requires w in s.waits && s.waits[w] != []
  {
    s.(waits := s.waits[w := s.waits[w][1..]])
  }

  lemma TakeWaiterQueues(m: Mem, s: Sched, w: Wid)
    requires Queues(m, s) && w in s.waits && s.waits[w] != [] && NoDup(s.waits[w])
             && Loose(WaiterTaken(s, w), s.waits[w][0])
    ensures w in m.heads && m.heads[w] == Some(s.waits[w][0]) && s.waits[w][0] in m.next
    ensures Queues(TakeWaiter(m, w, s.waits[w][0]), WaiterTaken(s, w))
  {
    ChainRest(m.next, m.heads[w], s.waits[w], None);
    var m', t := TakeWaiter(m, w, s.waits[w][0]), s.waits[w][0];
    hide Chain;
    RunStays(m, m', s, t);
    SleepersStay(m, m', s, t, t);
    OtherWaitsStay(m, m', s, t, t);
    assert forall v :: v in s.waits && v != w ==> WaiterTaken(s, w).waits[v] == s.waits[v];
  }

  /** take_from: the thread it returns is left in no list. */
  lemma TakeWaiterRepresents(m: Mem, s: Sched, w: Wid)
    requires Represents(m, s) && w in s.waits && s.waits[w] != []
    ensures w in m.heads && m.heads[w] == Some(s.waits[w][0]) && s.waits[w][0] in m.next
    ensures Loose(WaiterTaken(s, w), s.waits[w][0])
    ensures Represents(TakeWaiter(m, w, s.waits[w][0]), WaiterTaken(s, w))
  {
    WaiterLoose(s, w);
    TakeWaiterQueues(m, s, w);
    hide Queues, Apart;
  }

  /** set_current of a thread that is in no list. */
  lemma InstallRepresents(m: Mem, s: Sched, cpu: nat, t: Tid)
    requires Represents(m, s) && IsCpu(s, cpu) && Loose(s, t)
    ensures cpu < |m.current| && Represents(Install(m, cpu, t), SetCurrent(s, cpu, t))
  {
    hide Queues, Apart, Chain, Loose;
    if t in s.place {
      ApartJoin(s, SetCurrent(s, cpu, t), t, OnCpu(cpu));
    }
    assert Queues(Install(m, cpu, t), SetCurrent(s, cpu, t)) by { SameQueues(m, s, Install(m, cpu, t),
          SetCurrent(s, cpu, t)); }
    SameApart(s, SetCurrent(s, cpu, t));
  }

  lemma SameQueues(m: Mem, s: Sched, m': Mem, s': Sched)
    requires Queues(m, s)
    requires m'.next == m.next && m'.runHead == m.runHead && m'.runTail == m.runTail && m'.sleepers == m.sleepers
             && m'.heads == m.heads
    requires s'.run == s.run && s'.sleepers == s.sleepers && s'.waits == s.waits
    ensures Queues(m', s')
  {
  }

  lemma SameApart(s: Sched, s': Sched)
    requires Apart(s) && s'.run == s.run && s'.sleepers == s.sleepers && s'.waits == s.waits
    requires s'.place == s.place || Apart(s')
    ensures Apart(s')
  {
  }

  /** *link = thread->queue_next_, where `link` is `sleepers` or a link field. */
  function Unlink(m: Mem, before: Option<Tid>, t: Tid): Mem
    requires t in m.next
  {
    match before
    case None => m.(sleepers := m.next[t])
    case Some(b) => m.(next := m.next[b := m.next[t]])
  }

  lemma {:induction false} WithoutNth(ts: seq<Tid>, i: nat)
    requires i < |ts| && NoDup(ts)
    ensures Without(ts, ts[i]) == NthRemoved(ts, i)
    decreases |ts|
  {
    if i > 0 {
      var rest := ts[1..];
      assert NoDup(rest) && rest[i - 1] == ts[i];
      WithoutNth(rest, i - 1);
      assert Without(ts, ts[i]) == [ts[0]] + NthRemoved(rest, i - 1);
    }
  }

  lemma {:induction false} WithoutNobody(ts: seq<Tid>, t: Tid)
    requires t !in ts
    ensures Without(ts, t) == ts
    decreases |ts|
  {
    if ts != [] {
      WithoutNobody(ts[1..], t);
    }
  }

  function NthRemoved(ts: seq<Tid>, i: nat): (rest: seq<Tid>)
    requires i < |ts|
    ensures |rest| == |ts| - 1
    ensures forall k: nat :: k < |rest| ==> rest[k] == if k < i then ts[k] else ts[k + 1]
  {
    ts[..i] + ts[i + 1..]
  }

  /** The link that leads to the i-th sleeper: `sleepers` itself, or the field of the one before. */
  function Before(ts: seq<Tid>, i: nat): Option<Tid>
    requires i < |ts|
  {
    if i == 0 then None else Some(ts[i - 1])
  }

  lemma UnlinkChain(m: Mem, ts: seq<Tid>, i: nat)
    requires Chain(m.next, m.sleepers, ts) && NoDup(ts) && i < |ts|
    ensures ts[i] in m.next
    ensures var m' := Unlink(m, Before(ts, i), ts[i]);
            Chain(m'.next, m'.sleepers, NthRemoved(ts, i))
  {
    hide NthRemoved, Chain, NoDup;
    LinkAt(m.next, m.sleepers, ts, i);
    LinkAt(m.next, m.sleepers, ts, 0);
    var m', rest := Unlink(m, Before(ts, i), ts[i]), NthRemoved(ts, i);
    RemovedAt(ts, i, 0);
    forall k: nat | k < |rest|
      ensures rest[k] in m'.next && m'.next[rest[k]] == Nth(rest, k + 1)
    {
      UnlinkLink(m, ts, i, k);
    }
    ChainOf(m'.next, rest);
  }

  lemma ChainOf(next: map<Tid, Option<Tid>>, ts: seq<Tid>)
    requires forall k: nat :: k < |ts| ==> ts[k] in next && next[ts[k]] == Nth(ts, k + 1)
    ensures Chain(next, Nth(ts, 0), ts)
  {
  }

  lemma LinkAt(next: map<Tid, Option<Tid>>, head: Option<Tid>, ts: seq<Tid>, i: nat)
    requires Chain(next, head, ts) && i < |ts|
    ensures head == Nth(ts, 0) && ts[i] in next && next[ts[i]] == Nth(ts, i + 1)
  {
  }

  lemma RemovedAt(ts: seq<Tid>, i: nat, k: nat)
    requires i < |ts|
    ensures |NthRemoved(ts, i)| == |ts| - 1
    ensures k < |ts| - 1 ==> NthRemoved(ts, i)[k] == if k < i then ts[k] else ts[k + 1]
  {
  }

  lemma TwoDiffer(ts: seq<Tid>, i: nat, j: nat)
    requires NoDup(ts) && i < |ts| && j < |ts| && i != j
    ensures ts[i] != ts[j]
  {
  }

  lemma UnlinkLink(m: Mem, ts: seq<Tid>, i: nat, k: nat)
    requires Chain(m.next, m.sleepers, ts) && NoDup(ts) && i < |ts| && k < |ts| - 1 && ts[i] in m.next
    ensures |NthRemoved(ts, i)| == |ts| - 1
    ensures var m', rest := Unlink(m, Before(ts, i), ts[i]), NthRemoved(ts, i);
            rest[k] in m'.next && m'.next[rest[k]] == Nth(rest, k + 1)
  {
    hide NthRemoved, Chain, NoDup;
    var j := if k < i then k else k + 1;
    RemovedAt(ts, i, k);
    RemovedAt(ts, i, k + 1);
    LinkAt(m.next, m.sleepers, ts, j);
    LinkAt(m.next, m.sleepers, ts, i);
    if i > 0 && j != i - 1 {
      TwoDiffer(ts, j, i - 1);
    }
  }

  lemma SleeperElsewhere(s: Sched, t: Tid)
    requires Apart(s) && t in s.sleepers
    ensures t in s.place && s.place[t] == InSleepers && t !in s.run && forall w :: w in s.waits ==> t !in s.waits[w]
  {
    NotHere(s.run, s.place, InRun, t);
    forall w | w in s.waits
      ensures t !in s.waits[w]
    {
      NotHere(s.waits[w], s.place, InWait(w), t);
    }
  }

  lemma DetachedApart(s: Sched, t: Tid)
    requires Apart(s) && t in s.sleepers
    ensures Apart(s.(sleepers := Without(s.sleepers, t))) && Loose(s.(sleepers := Without(s.sleepers, t)), t)
  {
    SleeperElsewhere(s, t);
    WithoutIs(s.sleepers, t);
  }

  lemma DetachQueues(m: Mem, s: Sched, i: nat, b: Tid)
    requires Queues(m, s) && i < |s.sleepers| && NoDup(s.sleepers)
    requires b == (if i == 0 then s.sleepers[i] else s.sleepers[i - 1])
    requires b !in s.run && forall w :: w in s.waits ==> b !in s.waits[w]
    ensures s.sleepers[i] in m.next
    ensures Queues(Unlink(m, Before(s.sleepers, i), s.sleepers[i]), s.(sleepers := Without(s.sleepers, s.sleepers[i])))
  {
    UnlinkChain(m, s.sleepers, i);
    WithoutNth(s.sleepers, i);
    hide Chain, NoDup, Without, NthRemoved;
    var m' := Unlink(m, Before(s.sleepers, i), s.sleepers[i]);
    assert Relinked(m.next, m'.next, b, b);
    hide Relinked;
    RunStays(m, m', s, b);
    OtherWaitsStay(m, m', s, b, b);
  }

  /** detach_from_sleepers of a sleeper: it is left in no list. */
  lemma DetachRepresents(m: Mem, s: Sched, i: nat)
    requires Represents(m, s) && i < |s.sleepers|
    ensures s.sleepers[i] in m.next
    ensures var s' := s.(sleepers := Without(s.sleepers, s.sleepers[i]));
            Represents(Unlink(m, Before(s.sleepers, i), s.sleepers[i]), s') && Loose(s', s.sleepers[i])
  {
    var b := if i == 0 then s.sleepers[i] else s.sleepers[i - 1];
    SleeperElsewhere(s, b);
    DetachQueues(m, s, i, b);
    DetachedApart(s, s.sleepers[i]);
    hide Queues, Apart, Loose;
  }

  /** mark_dead of a thread that is in no list. */
  lemma KillRepresents(m: Mem, s: Sched, t: Tid)
    requires Represents(m, s) && Loose(s, t) && s.alive > 0 && t in s.place
    ensures m.alive > 0 && Represents(Kill(m, t), s.(place := s.place[t := Gone], alive := s.alive - 1))
  {
    hide Queues, Apart, Loose, Fields;
    SameFields(m, s);
    var s' := s.(place := s.place[t := Gone], alive := s.alive - 1);
    ApartJoin(s, s', t, Gone);
    SameQueues(m, s, Kill(m, t), s');
    assert t in m.next by { Known(m, s, t); }
    FieldsJoin(m, Kill(m, t), s, s', t, Gone);
  }

  lemma Known(m: Mem, s: Sched, t: Tid)
    requires Fields(m, s) && t in s.place
    ensures t in m.next && t in m.state && m.state[t] == StateIn(s.place[t])
  {
  }

  /** A running, dead, idle or unknown thread is in no list. */
  lemma OutsideIsLoose(s: Sched, t: Tid)
    requires Apart(s) && (t in s.place ==> s.place[t].OnCpu? || s.place[t] == Gone)
    ensures Loose(s, t)
  {
    forall w | w in s.waits
      ensures t !in s.waits[w]
    {
      assert Marked(s.waits[w], s.place, InWait(w));
    }
  }

  // -------------------------------------------- wake_expired_sleepers' loop

  lemma FirstSleeper(m: Mem, s: Sched)
    requires Represents(m, s) && s.sleepers != []
    ensures var t, r := s.sleepers[0], s.(sleepers := s.sleepers[1..]);
            && m.sleepers == Some(t) && t in m.next && t in s.place && s.place[t] == InSleepers
            && Loose(r, t) && Represents(m.(sleepers := m.next[t]), r)
  {
    hide Chain, Marked;
    SleeperElsewhere(s, s.sleepers[0]);
    MarkedRest(s.sleepers, s.place, InSleepers);
    ChainTail(m.next, m.sleepers, s.sleepers);
  }

  lemma ChainTail(next: map<Tid, Option<Tid>>, head: Option<Tid>, ts: seq<Tid>)
    requires Chain(next, head, ts) && ts != []
    ensures head == Some(ts[0]) && ts[0] in next && Chain(next, next[ts[0]], ts[1..])
  {
    assert forall i: nat :: i < |ts[1..]| ==> ts[1..][i] == ts[i + 1];
  }

  /** The rest of the list represents `s`, those put aside hang on `aside`. */
  ghost predicate Sifting(m: Mem, s: Sched, aside: Option<Tid>, kept: seq<Tid>) {
    && Represents(m, s) && Chain(m.next, aside, kept) && Marked(kept, s.place, InSleepers)
    && forall t :: t in kept ==> t !in s.sleepers
  }

  /** The link of a loose thread does not matter. */
  lemma RelinkLoose(m: Mem, s: Sched, t: Tid, link: Option<Tid>)
    requires Represents(m, s) && Loose(s, t)
    ensures Represents(m.(next := m.next[t := link]), s)
  {
    hide Chain, Apart, Fields;
    var m' := m.(next := m.next[t := link]);
    SleepersStay(m, m', s, t, t);
    RunStays(m, m', s, t);
    OtherWaitsStay(m, m', s, t, t);
    MoreLinks(m, m', s);
  }

  /** thread->queue_next_ = remaining. */
  lemma PutAside(m: Mem, s: Sched, aside: Option<Tid>, kept: seq<Tid>)
    requires Sifting(m, s, aside, kept) && s.sleepers != []
    ensures var t := s.sleepers[0];
            && t in m.next
            && Sifting(m.(sleepers := m.next[t], next := m.next[t := aside]), s.(sleepers := s.sleepers[1..]), Some(t),
                       [t] + kept)
  {
    var t, r := s.sleepers[0], s.(sleepers := s.sleepers[1..]);
    FirstSleeper(m, s);
    ChainPush(m.next, aside, kept, t);
    MarkedJoin(kept, s.place, InSleepers, t, InSleepers);
    assert s.place[t := InSleepers] == s.place;
    hide Chain, Marked, Represents;
    RelinkLoose(m.(sleepers := m.next[t]), r, t, aside);
  }

  lemma MoreLinks(m: Mem, m': Mem, s: Sched)
    requires Fields(m, s) && m' == m.(next := m'.next) && forall t :: t in m.next ==> t in m'.next
    ensures Fields(m', s)
  {
  }

  /** enqueue(thread) of an expired sleeper. */
  lemma WakeFirst(m: Mem, s: Sched, aside: Option<Tid>, kept: seq<Tid>)
    requires Sifting(m, s, aside, kept) && s.sleepers != []
    ensures var t := s.sleepers[0];
            && t in m.next
            && Sifting(Append(m.(sleepers := m.next[t]), t), Enqueue(s.(sleepers := s.sleepers[1..]), t), aside, kept)
  {
    var t, r := s.sleepers[0], s.(sleepers := s.sleepers[1..]);
    var m1 := m.(sleepers := m.next[t]);
    FirstSleeper(m, s);
    var last := Last(r.run, t);
    assert last !in kept by {
      assert t !in kept;
      assert r.run != [] ==> s.place[last] == InRun;
    }
    assert Marked(kept, s.place[t := InRun], InSleepers);
    hide Chain, Apart, Marked, Queues, Fields, Loose;
    AppendRepresents(m1, r, t);
    assert Relinked(m.next, Append(m1, t).next, t, last) by { TailIsLast(m1, r, t); }
    QueueStays(m.next, Append(m1, t).next, aside, kept, t, last);
  }

  lemma TailIsLast(m: Mem, s: Sched, t: Tid)
    requires Queues(m, s)
    ensures Relinked(m.next, Append(m, t).next, t, Last(s.run, t))
  {
    hide Chain;
  }

  /** sleepers = remaining. */
  lemma SiftingEnds(m: Mem, s: Sched, aside: Option<Tid>, kept: seq<Tid>)
    requires Sifting(m, s, aside, kept) && s.sleepers == []
    ensures Represents(m.(sleepers := aside), s.(sleepers := kept))
  {
  }
}
