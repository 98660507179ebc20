/**
 The frame bitmap of kernel/mm/page_alloc.cpp seen as a sequence of booleans
 (true: the frame is used), and what every run of the allocator keeps.
 */
module FrameBits {

  const PAGE_SIZE: nat := 4096
  const MANAGED_LIMIT: nat := 0x4000_0000
  const MANAGED_PAGES: nat := 262144

  function CountUsed(bits: seq<bool>): nat {
    if |bits| == 0 then 0
    else CountUsed(bits[..|bits| - 1]) + (if bits[|bits| - 1] then 1 else 0)
  }

  lemma {:induction false} CountUpdate(bits: seq<bool>, i: nat, v: bool)
    requires i < |bits|
    ensures CountUsed(bits[i := v]) == CountUsed(bits) - (if bits[i] then 1 else 0) + (if v then 1 else 0)
  {
    var n := |bits| - 1;
    if i == n {
      assert bits[i := v][..n] == bits[..n];
    } else {
      CountUpdate(bits[..n], i, v);
      assert bits[i := v][..n] == bits[..n][i := v];
    }
  }

  lemma {:induction false} CountAllUsed(bits: seq<bool>)
    requires forall i :: 0 <= i < |bits| ==> bits[i]
    ensures CountUsed(bits) == |bits|
  {
    if |bits| > 0 {
      CountAllUsed(bits[..|bits| - 1]);
    }
  }

  lemma {:induction false} CountNoneUsed(bits: seq<bool>)
    requires forall i :: 0 <= i < |bits| ==> !bits[i]
    ensures CountUsed(bits) == 0
  {
    if |bits| > 0 {
      CountNoneUsed(bits[..|bits| - 1]);
    }
  }

  /** Frames first, first+1, ..., last-1 set to v; everything else kept. */
  function Fill(bits: seq<bool>, first: nat, last: nat, v: bool): (r: seq<bool>)
    ensures |r| == |bits|
    ensures forall i :: 0 <= i < |bits| ==> r[i] == if first <= i < last then v else bits[i]
  {
    seq(|bits|, i requires 0 <= i < |bits| => if first <= i < last then v else bits[i])
  }

  lemma FillEmpty(bits: seq<bool>, first: nat, last: nat, v: bool)
    requires last <= first || |bits| <= first
    ensures Fill(bits, first, last, v) == bits
  {
  }

  lemma FillStep(bits: seq<bool>, first: nat, i: nat, v: bool)
    requires first <= i
    ensures Fill(bits, first, i + 1, v) ==
            if i < |bits| then Fill(bits, first, i, v)[i := v] else Fill(bits, first, i, v)
  {
  }

  lemma FillBeyond(bits: seq<bool>, first: nat, last: nat, last': nat, v: bool)
    requires |bits| <= last && |bits| <= last'
    ensures Fill(bits, first, last, v) == Fill(bits, first, last', v)
  {
  }

  /** No used frame has become free. */
  ghost predicate Grows(bits: seq<bool>, bits': seq<bool>) {
    |bits'| == |bits| && forall i :: 0 <= i < |bits| && bits[i] ==> bits'[i]
  }

  ghost predicate FreeRun(bits: seq<bool>, first: nat, count: nat) {
    first + count <= |bits| && forall j :: first <= j < first + count ==> !bits[j]
  }

  ghost predicate LowestRun(bits: seq<bool>, first: nat, count: nat) {
    FreeRun(bits, first, count) && forall f: nat :: f < first ==> !FreeRun(bits, f, count)
  }

  ghost predicate NoRun(bits: seq<bool>, count: nat) {
    forall f: nat :: !FreeRun(bits, f, count)
  }

  /** A used frame inside the window [f, f+count) rules the window out. */
  lemma UsedBlocksRun(bits: seq<bool>, j: nat, count: nat, f: nat)
    requires j < |bits| && bits[j] && f <= j < f + count
    ensures !FreeRun(bits, f, count)
  {
  }

  // -------------------------------------------------------------- whole runs

  /** What a caller of the allocator can do. `Return` gives back exactly one live
      allocation; `Release` is any other free_pages call, of frames first .. last-1. */
  datatype Event =
    | Allocate(count: nat, address: nat)
    | Return(first: nat, count: nat)
    | Release(first: nat, last: nat)

  datatype Ledger = Ledger(bits: seq<bool>, live: set<(nat, nat)>, reserved: set<nat>)

  ghost predicate Disjoint(a: (nat, nat), b: (nat, nat)) {
    a.0 + a.1 <= b.0 || b.0 + b.1 <= a.0
  }

  /** Live allocations are used, pairwise disjoint and clear of the reserved frames. */
  ghost predicate Sound(s: Ledger) {
    && |s.bits| == MANAGED_PAGES
    && 0 in s.reserved
    && (forall i :: i in s.reserved ==> i < MANAGED_PAGES && s.bits[i])
    && (forall a :: a in s.live ==> a.1 > 0 && a.0 + a.1 <= MANAGED_PAGES)
    && (forall a, j :: a in s.live && a.0 <= j < a.0 + a.1 ==> s.bits[j] && j !in s.reserved)
    && (forall a, b :: a in s.live && b in s.live && a != b ==> Disjoint(a, b))
  }

  /** The effect of one allocator call on the ledger. */
  ghost predicate Next(s: Ledger, e: Event, s': Ledger) {
    s'.reserved == s.reserved &&
    match e
    case Allocate(count, address) =>
      if count == 0 || NoRun(s.bits, count) then address == 0 && s' == s
      else
        && address % PAGE_SIZE == 0
        && var first := address / PAGE_SIZE;
        && LowestRun(s.bits, first, count)
        && s'.bits == Fill(s.bits, first, first + count, true)
        && s'.live == s.live + {(first, count)}
    case Return(first, count) =>
      && (first, count) in s.live
      && s'.bits == Fill(s.bits, first, first + count, false)
      && s'.live == s.live - {(first, count)}
    case Release(first, last) =>
      && s'.bits == Fill(s.bits, first, last, false)
      && s'.live == s.live
  }

  /** The frames first .. last-1 belong to nobody: none is reserved, and none is
      part of a live allocation. */
  ghost predicate Nobodys(s: Ledger, first: nat, last: nat) {
    && (forall i :: i in s.reserved ==> !(first <= i < last))
    && (forall a :: a in s.live ==> last <= first || a.0 + a.1 <= first || last <= a.0)
  }

  /** free_pages checks nothing: an unmatched call keeps the ledger sound if and
      only if it frees nobody's frames. Freeing twice is harmless exactly as long
      as the frames have not been handed out again. */
  lemma ReleaseSoundIff(s: Ledger, first: nat, last: nat, s': Ledger)
    requires Sound(s) && Next(s, Release(first, last), s')
    ensures Sound(s') <==> Nobodys(s, first, last)
  {
    if Sound(s') {
      forall i | i in s.reserved
        ensures !(first <= i < last)
      {
        assert s'.bits[i];
      }
      forall a | a in s.live
        ensures last <= first || a.0 + a.1 <= first || last <= a.0
      {
        var j := if a.0 < first then first else a.0;
        assert a.0 <= j < a.0 + a.1 ==> s'.bits[j];
      }
    }
  }

  ghost predicate Careful(s: Ledger, e: Event) {
    e.Release? ==> Nobodys(s, e.first, e.last)
  }

  /** Each call keeps the ledger sound, and address zero means failure exactly. */
  lemma NextKeepsSound(s: Ledger, e: Event, s': Ledger)
    requires Sound(s) && Next(s, e, s')
    ensures Sound(s') <==> Careful(s, e)
    ensures e.Allocate? ==> (e.address == 0 <==> e.count == 0 || NoRun(s.bits, e.count))
  {
    match e
    case Allocate(count, address) =>
      if count != 0 && !NoRun(s.bits, count) {
        var first := address / PAGE_SIZE;
        forall a | a in s.live
          ensures Disjoint(a, (first, count))
        {
          var j := if a.0 < first then first else a.0;
          assert a.0 <= j < a.0 + a.1 ==> s.bits[j];
          assert first <= j < first + count ==> !s.bits[j];
        }
      }
    case Return(first, count) =>
      forall a, j | a in s'.live && a.0 <= j < a.0 + a.1
        ensures s'.bits[j]
      {
        assert Disjoint(a, (first, count));
      }
    case Release(first, last) =>
      ReleaseSoundIff(s, first, last, s');
  }

  ghost predicate Run(states: seq<Ledger>, events: seq<Event>) {
    && |states| == |events| + 1
    && forall k :: 0 <= k < |events| ==> Next(states[k], events[k], states[k + 1])
  }

  /** Over every run: live allocations stay pairwise disjoint, used, and away
      from the reserved frames, up to the first call that frees somebody's frames. */
  lemma {:induction false} RunKeepsSound(states: seq<Ledger>, events: seq<Event>, n: nat)
    requires Run(states, events) && Sound(states[0]) && n < |states|
    requires forall k :: 0 <= k < n ==> Careful(states[k], events[k])
    ensures Sound(states[n])
    ensures n < |events| ==> (Sound(states[n + 1]) <==> Careful(states[n], events[n]))
  {
    hide Sound, Careful, Next;
    if n > 0 {
      RunKeepsSound(states, events, n - 1);
    }
    if n < |events| {
      assert Next(states[n], events[n], states[n + 1]);
      NextKeepsSound(states[n], events[n], states[n + 1]);
    }
  }

  // --------------------------------------------------------- no frame is lost

  ghost predicate Covered(live: set<(nat, nat)>, i: nat) {
    exists a :: a in live && a.0 <= i < a.0 + a.1
  }

  /** A frame is used exactly if it is reserved or part of a live allocation. */
  ghost predicate Exact(s: Ledger) {
    forall i: nat :: i < |s.bits| ==> (s.bits[i] <==> i in s.reserved || Covered(s.live, i))
  }

  lemma NextKeepsExact(s: Ledger, e: Event, s': Ledger)
    requires Sound(s) && Exact(s) && Next(s, e, s') && Careful(s, e)
    ensures Exact(s')
  {
    forall i: nat | i < |s'.bits|
      ensures s'.bits[i] <==> i in s'.reserved || Covered(s'.live, i)
    {
      match e
      case Allocate(count, address) =>
        if count != 0 && !NoRun(s.bits, count) {
          CoveredMore(s.live, (address / PAGE_SIZE, count), i);
        }
      case Return(first, count) =>
        CoveredLess(s, (first, count), i);
      case Release(first, last) =>
        if first <= i < last {
          NobodysAreFree(s, first, last, i);
        }
    }
  }

  lemma NobodysAreFree(s: Ledger, first: nat, last: nat, i: nat)
    requires Nobodys(s, first, last) && first <= i < last
    ensures i !in s.reserved && !Covered(s.live, i)
  {
  }

  lemma CoveredMore(live: set<(nat, nat)>, a: (nat, nat), i: nat)
    ensures Covered(live + {a}, i) <==> Covered(live, i) || a.0 <= i < a.0 + a.1
  {
    if Covered(live, i) {
      var b :| b in live && b.0 <= i < b.0 + b.1;
      assert b in live + {a};
    }
    assert a in live + {a};
  }

  lemma CoveredLess(s: Ledger, a: (nat, nat), i: nat)
    requires Sound(s) && a in s.live
    ensures Covered(s.live - {a}, i) <==> Covered(s.live, i) && !(a.0 <= i < a.0 + a.1)
    ensures a.0 <= i < a.0 + a.1 ==> i !in s.reserved
  {
    if Covered(s.live, i) && !(a.0 <= i < a.0 + a.1) {
      var b :| b in s.live && b.0 <= i < b.0 + b.1;
      assert b in s.live - {a};
    }
  }

  /** In every careful run a frame is used exactly as long as somebody has it: with
      the same allocations live, the same frames are free. */
  lemma {:induction false} RunLosesNothing(states: seq<Ledger>, events: seq<Event>, n: nat)
    requires Run(states, events) && Sound(states[0]) && Exact(states[0]) && n < |states|
    requires forall k :: 0 <= k < n ==> Careful(states[k], events[k])
    ensures Exact(states[n]) && states[n].reserved == states[0].reserved
    ensures states[n].live == states[0].live ==> states[n].bits == states[0].bits
  {
    hide Sound, Careful;
    if n > 0 {
      RunLosesNothing(states, events, n - 1);
      RunKeepsSound(states, events, n - 1);
      assert Next(states[n - 1], events[n - 1], states[n]);
      hide Exact;
      NextKeepsExact(states[n - 1], events[n - 1], states[n]);
    }
    NextKeepsSize(states, events, n);
    SameBits(states[0], states[n]);
  }

  lemma {:induction false} NextKeepsSize(states: seq<Ledger>, events: seq<Event>, n: nat)
    requires Run(states, events) && n < |states|
    ensures |states[n].bits| == |states[0].bits|
  {
    if n > 0 {
      NextKeepsSize(states, events, n - 1);
      assert Next(states[n - 1], events[n - 1], states[n]);
    }
  }

  lemma SameBits(s: Ledger, s': Ledger)
    requires Exact(s) && Exact(s') && |s.bits| == |s'.bits| && s.reserved == s'.reserved
    ensures s.live == s'.live ==> s.bits == s'.bits
  {
  }

  /** The frames of the first MiB, which init reserves, and nothing else in use. */
  const LOW_FRAMES: set<nat> := set i: nat | i < 256

  function AtBoot(): (bits: seq<bool>)
    ensures |bits| == MANAGED_PAGES && forall i :: 0 <= i < MANAGED_PAGES ==> bits[i] == (i < 256)
  {
    seq(MANAGED_PAGES, i => i < 256)
  }

  /** The first free frame is allocated, returned, given to somebody else, and freed
      by the first owner again: the second owner's frame is up for allocation. */
  lemma StaleFreeExample()
    ensures var bits := AtBoot();
            var empty := Ledger(bits, {}, LOW_FRAMES);
            var taken := Ledger(bits[256 := true], {(256, 1)}, LOW_FRAMES);
            var stale := Ledger(bits, {(256, 1)}, LOW_FRAMES);
            && Sound(empty)
            && Run([empty, taken, empty, taken, stale],
                   [Allocate(1, 256 * PAGE_SIZE), Return(256, 1), Allocate(1, 256 * PAGE_SIZE), Release(256, 257)])
            && !Sound(stale)
  {
    hide AtBoot;
    var bits := AtBoot();
    var taken, stale := Ledger(bits[256 := true], {(256, 1)}, LOW_FRAMES), Ledger(bits, {(256, 1)}, LOW_FRAMES);
    assert FreeRun(bits, 256, 1);
    forall f: nat | f < 256
      ensures !FreeRun(bits, f, 1)
    {
      assert bits[f];
    }
    assert Fill(bits, 256, 257, true) == taken.bits;
    assert Fill(taken.bits, 256, 257, false) == bits;
    assert (256, 1) in stale.live && !stale.bits[256];
  }
}
