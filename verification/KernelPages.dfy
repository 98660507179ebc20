/**
 Putting frames behind kernel addresses, page by page: the loops of grow in
 kernel/mm/heap.cpp and allocate_image in kernel/module/loader.cpp.
 */
module KernelPages {
  import opened Basics
  import opened FrameBits
  import opened PageWalk
  import opened PageOpen
  import opened PageTables
  import H = HeapModel
  import Heap

  const DATA_FLAGS := PageFlags(true, false, true, false, false)

  /** At most one frame is free: what is left when a table could not be had for
      a frame that is given back. */
  ghost predicate Scarce(bits: seq<bool>) {
    forall i, j :: 0 <= i < |bits| && 0 <= j < |bits| && !bits[i] && !bits[j] ==> i == j
  }

  lemma NoneIsScarce(bits: seq<bool>)
    requires NoRun(bits, 1)
    ensures forall i :: 0 <= i < |bits| ==> bits[i]
  {
    forall i | 0 <= i < |bits|
      ensures bits[i]
    {
      assert !FreeRun(bits, i, 1);
    }
  }

  /** A page of data: readable and writable, not executable, cached, not global. */
  function DataPage(frame: nat): Mapping {
    Mapping(frame, true, true, false, false, Access(true, false))
  }

  /** The frames behind the pages first .. first+|frames|-1 of the kernel. */
  ghost predicate Backed(mem: Tables, mem': Tables, roots: map<nat, nat>, first: nat, frames: seq<nat>) {
    forall s, v: nat :: s in roots && v < VPN_LIMIT ==>
      Look(mem', roots[s], v) ==
      if first <= v < first + |frames| && Sees(s, KERNEL, v)
      then Some(DataPage(frames[v - first]))
      else Look(mem, roots[s], v)
  }

  function SetOf(frames: seq<nat>): set<nat> {
    set f | f in frames
  }

  /** The frames are different, and were nobody's. */
  ghost predicate AllNew(claimed: set<nat>, claimed': set<nat>, frames: seq<nat>) {
    && (forall i :: 0 <= i < |frames| ==> frames[i] !in claimed)
    && (forall i, j :: 0 <= i < j < |frames| ==> frames[i] != frames[j])
    && claimed' == claimed + SetOf(frames)
  }

  /** free_page for a frame that was taken. */
  method Unclaim(pt: PageTables, frame: nat)
    requires pt.Valid() && frame in pt.claimed
    modifies pt`claimed, pt.allocator, pt.allocator.bitmap
    ensures pt.Valid() && pt.claimed == old(pt.claimed) - {frame}
    ensures pt.allocator.bits == Fill(old(pt.allocator.bits), frame / PAGE, frame / PAGE + 1, false)
  {
    hide Inv, AllHeld, Nested, FramesHeld, Fill;
    FrameManaged(pt.own, pt.claimed, pt.allocator.bits, frame);
    OneFreed(pt.own, pt.claimed, pt.allocator.bits, frame);
    HeldLess(pt.outside, pt.own, pt.claimed, pt.allocator.bits, frame);
    pt.allocator.FreePages(frame, 1);
    pt.claimed := pt.claimed - {frame};
  }

  lemma FrameManaged(own: map<nat, Owner>, claimed: set<nat>, bits: seq<bool>, frame: nat)
    requires FramesHeld(own, claimed, bits) && frame in claimed && |bits| == MANAGED_PAGES
    ensures frame / PAGE < MANAGED_PAGES
  {
  }

  lemma OneFreed(own: map<nat, Owner>, claimed: set<nat>, bits: seq<bool>, frame: nat)
    requires FramesHeld(own, claimed, bits) && frame in claimed
    ensures FramesHeld(own, claimed - {frame}, Fill(bits, frame / PAGE, frame / PAGE + 1, false))
    ensures frame > 0 && frame % PAGE == 0 && frame / PAGE < |bits| && frame !in own
    ensures Fill(bits, frame / PAGE, frame / PAGE + 1, false)[0] == bits[0]
    ensures Fill(bits, frame / PAGE, frame / PAGE + 1, false) == bits[frame / PAGE := false]
  {
    forall f | f in own || (f in claimed && f != frame)
      ensures f / PAGE != frame / PAGE
    {
      assert f == f / PAGE * PAGE && frame == frame / PAGE * PAGE;
    }
  }

  /** One turn of the loops: a new frame for one page, or the frame given back. */
  method MapFresh(pt: PageTables, v: nat) returns (ok: bool, ghost frame: nat)
    requires pt.Valid() && KERNEL in pt.roots && v < VPN_LIMIT
    modifies pt, pt.allocator, pt.allocator.bitmap
    ensures pt.Valid() && pt.roots == old(pt.roots)
    ensures ok ==> frame !in old(pt.claimed) && pt.claimed == old(pt.claimed) + {frame}
    ensures ok ==> Backed(old(pt.mem), pt.mem, pt.roots, v, [frame])
    ensures !ok ==>
            Scarce(pt.allocator.bits) && SameView(old(pt.mem), pt.mem, pt.roots) && pt.claimed == old(pt.claimed)
  {
    hide Inv, AllHeld, Nested, Mapped, RangeEffect, RightsAfter, Look, Backed, SameView, HugeAt, Touched, Scarce,
         FramesHeld;
    ghost var mem0 := pt.mem;
    var page := pt.ClaimPage();
    frame := page;
    if page == 0 {
      ScarceFromNone(pt.allocator.bits, 0);
      NothingChanged(pt.mem, pt.roots);
      return false, 0;
    }
    FrameFits(pt.own, pt.claimed, pt.allocator.bits, page);
    OnePage(v);
    ghost var done;
    ok, done := pt.Map(KERNEL, v * PAGE, page, PAGE, DATA_FLAGS);
    if ok {
      MappedIsBacked(mem0, pt.mem, pt.roots, v, page);
    } else {
      NothingMapped(mem0, pt.mem, pt.roots, v, page);
      ScarceFromNone(pt.allocator.bits, page / PAGE);
      Unclaim(pt, page);
    }
  }

  lemma ScarceFromNone(bits: seq<bool>, i: nat)
    requires NoRun(bits, 1)
    ensures Scarce(bits) && Scarce(Fill(bits, i, i + 1, false))
  {
    NoneIsScarce(bits);
  }

  lemma NothingChanged(mem: Tables, roots: map<nat, nat>)
    ensures SameView(mem, mem, roots)
  {
  }

  lemma FrameFits(own: map<nat, Owner>, claimed: set<nat>, bits: seq<bool>, frame: nat)
    requires FramesHeld(own, claimed, bits) && frame in claimed && |bits| == MANAGED_PAGES
    ensures PageAddress(frame) == frame
  {
  }

  lemma OnePage(v: nat)
    ensures v * PAGE / PAGE == v && PagesFor(PAGE) == 1
  {
  }

  lemma MappedIsBacked(mem: Tables, mem': Tables, roots: map<nat, nat>, v: nat, frame: nat)
    requires Mapped(mem, mem', roots, KERNEL, v, 1, frame, DATA_FLAGS) && PageAddress(frame) == frame
    ensures Backed(mem, mem', roots, v, [frame])
  {
    hide Look;
  }

  lemma NothingMapped(mem: Tables, mem': Tables, roots: map<nat, nat>, v: nat, frame: nat)
    requires Mapped(mem, mem', roots, KERNEL, v, 0, frame, DATA_FLAGS)
    ensures SameView(mem, mem', roots)
  {
    hide Look;
  }

  /** The loop: `got` pages are backed by new frames; fewer than asked for only
      when the frames have run out. What was mapped stays mapped. */
  method Commit(pt: PageTables, first: nat, count: nat) returns (got: nat, ghost frames: seq<nat>)
    requires pt.Valid() && KERNEL in pt.roots && first + count <= VPN_LIMIT
    modifies pt, pt.allocator, pt.allocator.bitmap
    ensures pt.Valid() && pt.roots == old(pt.roots)
    ensures got == |frames| <= count && (got < count ==> Scarce(pt.allocator.bits))
    ensures Backed(old(pt.mem), pt.mem, pt.roots, first, frames) && AllNew(old(pt.claimed), pt.claimed, frames)
  {
    hide Inv, AllHeld, Look, Backed, SameView, Scarce, AllNew;
    frames := [];
    NoneBacked(pt.mem, pt.roots, first, pt.claimed);
    got := 0;
    while got < count
      invariant pt.Valid() && pt.roots == old(pt.roots) && got == |frames| <= count
      invariant Backed(old(pt.mem), pt.mem, pt.roots, first, frames) && AllNew(old(pt.claimed), pt.claimed, frames)
    {
      ghost var mem1, claimed1 := pt.mem, pt.claimed;
      var ok;
      ghost var frame;
      ok, frame := MapFresh(pt, first + got);
      if !ok {
        StillBacked(old(pt.mem), mem1, pt.mem, pt.roots, first, frames);
        return;
      }
      OneMoreBacked(old(pt.mem), mem1, pt.mem, pt.roots, first, frames, frame);
      OneMoreNew(old(pt.claimed), claimed1, pt.claimed, frames, frame);
      frames := frames + [frame];
      got := got + 1;
    }
  }

  lemma NoneBacked(mem: Tables, roots: map<nat, nat>, first: nat, claimed: set<nat>)
    ensures Backed(mem, mem, roots, first, []) && AllNew(claimed, claimed, [])
  {
  }

  lemma StillBacked(mem0: Tables, mem1: Tables, mem2: Tables, roots: map<nat, nat>, first: nat, frames: seq<nat>)
    requires Backed(mem0, mem1, roots, first, frames) && SameView(mem1, mem2, roots)
    ensures Backed(mem0, mem2, roots, first, frames)
  {
    hide Look;
  }

  lemma OneMoreBacked(mem0: Tables, mem1: Tables, mem2: Tables, roots: map<nat, nat>, first: nat, frames: seq<nat>,
                      frame: nat)
    requires Backed(mem0, mem1, roots, first, frames) && Backed(mem1, mem2, roots, first + |frames|, [frame])
    ensures Backed(mem0, mem2, roots, first, frames + [frame])
  {
    hide Look;
  }

  lemma OneMoreNew(claimed0: set<nat>, claimed1: set<nat>, claimed2: set<nat>, frames: seq<nat>, frame: nat)
    requires AllNew(claimed0, claimed1, frames) && frame !in claimed1 && claimed2 == claimed1 + {frame}
    ensures AllNew(claimed0, claimed2, frames + [frame])
  {
    var more := frames + [frame];
    assert forall i :: 0 <= i < |frames| ==> frames[i] in claimed1;
    assert SetOf(more) == SetOf(frames) + {frame};
  }

  // ------------------------------------------------------------- the heap

  /** grow over the page tables: the heap grows exactly when its reservation and
      the frames allow, and then the new part is backed by frames of its own. */
  method GrowHeap(pt: PageTables, heap: Heap.KernelHeap, wanted: nat) returns (ok: bool, ghost frames: seq<nat>)
    requires pt.Valid() && KERNEL in pt.roots && heap.Valid()
    requires heap.base % PAGE == 0 && heap.base + H.RESERVED <= VPN_LIMIT * PAGE
    modifies pt, pt.allocator, pt.allocator.bitmap, heap
    ensures pt.Valid() && heap.Valid() && pt.roots == old(pt.roots)
    ensures heap.Value() == if ok then H.Grown(old(heap.Value()), heap.base, wanted) else old(heap.Value())
    ensures !ok ==> old(heap.committed) + H.Step(wanted) > H.RESERVED || Scarce(pt.allocator.bits)
    ensures ok ==> |frames| * PAGE == H.Step(wanted)
    ensures Backed(old(pt.mem), pt.mem, pt.roots, (heap.base + old(heap.committed)) / PAGE, frames)
    ensures AllNew(old(pt.claimed), pt.claimed, frames)
  {
    hide Inv, AllHeld, Backed, AllNew, Scarce, H.Sound, H.Grown, H.Step;
    frames := [];
    NoneBacked(pt.mem, pt.roots, (heap.base + heap.committed) / PAGE, pt.claimed);
    var step := H.Step(wanted);
    if heap.committed + step > H.RESERVED {
      ok := heap.Grow(wanted, 0);
      return;
    }
    StepPages(heap.base, heap.committed, step);
    var got;
    got, frames := Commit(pt, (heap.base + heap.committed) / PAGE, step / PAGE);
    ok := heap.Grow(wanted, got);
  }

  lemma StepPages(base: nat, committed: nat, step: nat)
    requires base % PAGE == 0 && base + H.RESERVED <= VPN_LIMIT * PAGE && committed + step <= H.RESERVED
             && step % H.GROWTH == 0
    ensures (base + committed) / PAGE + step / PAGE <= VPN_LIMIT && step / PAGE * PAGE == step
  {
    Heap.StepInPages(step, step / H.GROWTH);
  }
}
