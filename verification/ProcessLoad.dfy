/**
 ProcessTable::load and map_stack of kernel/proc/process.cpp, over the page
 tables, the frame allocator and the bytes of the frames it hands out. The ELF
 structures are taken as decoded records; the bytes of the image are bytes.
 */
module ProcessLoad {
  import opened Basics
  import opened FrameBits
  import opened PageWalk
  import opened PageUser
  import opened PageOpen
  import opened PageTables
  import opened AddressSpaces
  import opened ProcessModel

  ghost predicate ShownPage(mem: Tables, root: nat, ram: map<nat, seq<bv8>>, claimed: set<nat>, v: nat, p: PageView) {
    && USER_VPN <= v < VPN_LIMIT && |p.bytes| == PAGE
    && Look(mem, root, v) == Some(MappingOf(p.frame, p.flags, FULL)) && UserMay(mem, root, v)
    && p.frame in claimed && p.frame in ram && ram[p.frame] == p.bytes
  }

  /** The bytes of physical memory, frame by frame: what the kernel reaches through
      its direct map. There is one for all processes. */
  class FrameBytes {
    var bytes: map<nat, seq<bv8>>

    constructor ()
      ensures bytes == map[]
    {
      bytes := map[];
    }
  }

  /** The page tables and the frames show this view of the space. */
  ghost predicate Shown(mem: Tables, root: nat, ram: map<nat, seq<bv8>>, claimed: set<nat>, view: View) {
    && (forall v :: v in view ==> ShownPage(mem, root, ram, claimed, v, view[v]))
    && (forall v, w :: v in view && w in view && v != w ==> view[v].frame != view[w].frame)
  }

  /** Between the two states nothing but the space's own branch was edited: all
      other translations are as before, and so are the rights of ring 3 to the
      other processes' pages. */
  ghost predicate Beside(mem: Tables, mem': Tables, roots: map<nat, nat>, space: nat) {
    && (forall s, v: nat :: s in roots && v < VPN_LIMIT && (s != space || v < USER_VPN) ==>
          Look(mem', roots[s], v) == Look(mem, roots[s], v))
    && BranchKept(mem, mem', roots)
    && (forall s, v: nat :: s in roots && s != space && USER_VPN <= v < VPN_LIMIT ==>
          UserMay(mem', roots[s], v) == UserMay(mem, roots[s], v))
  }

  /** Frames the space has gained had not been taken by anybody. */
  ghost predicate NewFrames(view: View, view': View, claimed: set<nat>) {
    forall v :: v in view' ==> view'[v].frame !in claimed || (v in view && view'[v].frame == view[v].frame)
  }

  /** Of the frames that had been taken only those of the view have other bytes. */
  ghost predicate BytesKept(ram: map<nat, seq<bv8>>, ram': map<nat, seq<bv8>>, claimed: set<nat>, view: View) {
    forall f :: f in claimed && f in ram && (forall v :: v in view ==> view[v].frame != f) ==>
           f in ram' && ram'[f] == ram[f]
  }

  ghost predicate Private(mem: Tables, ram: map<nat, seq<bv8>>, claimed: set<nat>, view: View, mem': Tables,
                          ram': map<nat, seq<bv8>>, claimed': set<nat>, view': View, roots: map<nat, nat>, space: nat) {
    && Beside(mem, mem', roots, space) && claimed <= claimed' && NewFrames(view, view', claimed)
    && BytesKept(ram, ram', claimed, view)
  }

  class ProcessImage {
    const pt: PageTables
    const memory: FrameBytes
    const space: nat
    /** Where the program starts. */
    const entry: nat
    var pageCount: nat
    var brk: nat
    ghost var view: View

    ghost predicate Valid()
      reads this, memory, pt, pt.allocator, pt.allocator.bitmap
    {
      && pt.Valid() && space in pt.roots && space != KERNEL
      && Shown(pt.mem, pt.roots[space], memory.bytes, pt.claimed, view) && pageCount == |view|
    }

    /** A space of its own, with nothing in it yet. */
    constructor (pt: PageTables, memory: FrameBytes, space: nat, entry: nat)
      requires pt.Valid() && space in pt.roots && space != KERNEL
      ensures this.pt == pt && this.memory == memory && this.space == space && this.entry == entry
      ensures Valid() && view == map[] && pageCount == 0 && brk == 0
    {
      this.pt, this.memory, this.space, this.entry := pt, memory, space, entry;
      pageCount, brk, view := 0, 0, map[];
    }

    /** alloc_page, memset and map for one page that is not there yet. */
    method MapPage(v: nat, flags: PageFlags) returns (ok: bool)
      requires Valid() && v !in view && USER_VPN <= v < VPN_LIMIT && flags.user
      modifies this, memory, pt, pt.allocator, pt.allocator.bitmap
      ensures Valid() && brk == old(brk)
      ensures pt.roots == old(pt.roots)
      ensures Private(old(pt.mem), old(memory.bytes), old(pt.claimed), old(view), pt.mem, memory.bytes, pt.claimed,
                      view,
                      pt.roots, space)
      ensures !ok ==> pt.Exhausted() && view == old(view)
      ensures ok ==> Added(old(view), view, v, 1, flags) && pageCount == old(pageCount) + 1
    {
      hide Inv, AllHeld, Shown, Added, Private, Beside;
      ghost var mem0, ram0, claimed0 := pt.mem, memory.bytes, pt.claimed;
      var frame := pt.ClaimPage();
      MoreClaimed(mem0, pt.roots[space], ram0, claimed0, pt.claimed, view);
      if frame == 0 {
        NothingElse(pt.mem, ram0, claimed0, pt.claimed, view, pt.roots, space);
        return false;
      }
      ghost var view0 := view;
      NotShown(mem0, pt.roots[space], ram0, claimed0, view, frame);
      ok := PutPage(v, flags, frame);
      FrameKept(mem0, ram0, claimed0, view0, pt.mem, pt.claimed, pt.roots, space, frame);
      if ok {
        FrameAdded(mem0, ram0, claimed0, view0, pt.mem, pt.claimed, pt.roots, space, v,
                   PageView(frame, flags, Zeros()));
        OneAdded(view0, v, PageView(frame, flags, Zeros()));
      }
    }

    /** memset and map, for a frame that is in no page of the space. */
    method PutPage(v: nat, flags: PageFlags, frame: nat) returns (ok: bool)
      requires Valid() && v !in view && USER_VPN <= v < VPN_LIMIT && flags.user
      requires frame in pt.claimed && forall w :: w in view ==> view[w].frame != frame
      modifies this, memory, pt, pt.allocator, pt.allocator.bitmap
      ensures Valid() && brk == old(brk) && pt.roots == old(pt.roots) && pt.claimed == old(pt.claimed)
      ensures Beside(old(pt.mem), pt.mem, pt.roots, space) && memory.bytes == old(memory.bytes)[frame := Zeros()]
      ensures !ok ==> pt.Exhausted() && view == old(view)
      ensures ok ==> view == old(view)[v := PageView(frame, flags, Zeros())] && pageCount == old(pageCount) + 1
    {
      hide Inv, AllHeld, Nested, Shown, RangeEffect, Rights, SmallRights, Mapped, Beside, HugeAt, UserMay, Look,
           Touched;
      ghost var mem0, bits0 := pt.mem, pt.allocator.bits;
      FrameAddress(pt.own, pt.claimed, pt.allocator.bits, frame);
      FreshFrame(pt.mem, pt.roots[space], memory.bytes, pt.claimed, view, frame);
      memory.bytes := memory.bytes[frame := Zeros()];
      PageAligned(v);
      ghost var done: nat;
      ok, done := pt.Map(space, v * PAGE, frame, PAGE, flags);
      MapBeside(mem0, bits0, pt.mem, pt.allocator.bits, pt.roots, space, v, done, frame, flags,
                if ok then Kept else GaveUp(true));
      if !ok {
        NothingMapped(mem0, pt.mem, pt.roots, space, v, frame, flags, memory.bytes, pt.claimed, view);
        return;
      }
      PageMapped(mem0, pt.mem, pt.roots, space, v, frame, flags, memory.bytes, pt.claimed, view);
      view := view[v := PageView(frame, flags, Zeros())];
      pageCount := pageCount + 1;
    }

    /** The page loop of load and of map_stack. */
    method MapPages(first: nat, count: nat, flags: PageFlags) returns (ok: bool)
      requires Valid() && USER_VPN <= first && first + count <= VPN_LIMIT && flags.user
      requires Absent(view, first, count)
      modifies this, memory, pt, pt.allocator, pt.allocator.bitmap
      ensures Valid() && brk == old(brk)
      ensures pt.roots == old(pt.roots)
      ensures Private(old(pt.mem), old(memory.bytes), old(pt.claimed), old(view), pt.mem, memory.bytes, pt.claimed,
                      view,
                      pt.roots, space)
      ensures !ok ==> pt.Exhausted()
      ensures ok ==> Added(old(view), view, first, count, flags) && pageCount == old(pageCount) + count
    {
      hide Inv, AllHeld, Shown, Added, Valid, Private;
      ghost var before := view;
      NothingAdded(view, first, flags);
      NothingElse(pt.mem, memory.bytes, pt.claimed, pt.claimed, view, pt.roots, space);
      var page := 0;
      while page < count
        invariant page <= count && Valid() && brk == old(brk) && pageCount == old(pageCount) + page
        invariant Added(before, view, first, page, flags) && pt.roots == old(pt.roots)
        invariant Private(old(pt.mem), old(memory.bytes), old(pt.claimed), before, pt.mem, memory.bytes, pt.claimed,
                          view, pt.roots, space)
      {
        ghost var middle, mem1, ram1, claimed1 := view, pt.mem, memory.bytes, pt.claimed;
        AddedKeys(before, view, first, page, flags);
        ok := MapPage(first + page, flags);
        PrivateTwice(old(pt.mem), old(memory.bytes), old(pt.claimed), before, mem1, ram1, claimed1, middle, pt.mem,
                     memory.bytes, pt.claimed, view, pt.roots, space);
        if !ok {
          return;
        }
        AddedOneMore(before, middle, view, first, page, flags);
        page := page + 1;
      }
      ok := true;
    }

    /** One byte of the image, through the direct map. Its page is there, so
        the check for an address that does not translate never stops the copy. */
    method StoreByte(a: nat, b: bv8) returns (ok: bool)
      requires Valid() && a / PAGE in view
      modifies this`view, memory
      ensures Valid() && ok && |old(view)[a / PAGE].bytes| == PAGE && view == Put(old(view), a, b)
      ensures BytesKept(old(memory.bytes), memory.bytes, pt.claimed, old(view))
    {
      hide Inv, AllHeld, Shown;
      PageShown(pt.mem, pt.roots[space], memory.bytes, pt.claimed, view, a / PAGE);
      var physical := pt.Translate(space, a);
      ghost var frame := view[a / PAGE].frame;
      FrameOffset(pt.own, pt.claimed, pt.allocator.bits, frame, a % PAGE);
      if physical == 0 {
        return false;
      }
      BytePut(pt.mem, pt.roots[space], memory.bytes, pt.claimed, view, a, b);
      var base := physical / PAGE * PAGE;
      memory.bytes := memory.bytes[base := memory.bytes[base][physical % PAGE := b]];
      view := Put(view, a, b);
      ok := true;
    }

    method CopyFile(seg: Segment, image: seq<bv8>) returns (ok: bool)
      requires Valid() && WellFormed(seg, image) && Loads(seg)
      requires forall v :: FirstPage(seg) <= v < FirstPage(seg) + PageCount(seg) ==> v in view
      modifies this`view, memory
      ensures Valid() && ok && Copied(old(view), view, seg, image, seg.fileSize)
      ensures BytesKept(old(memory.bytes), memory.bytes, pt.claimed, old(view))
    {
      hide Inv, AllHeld, Shown, Copied, Valid, BytesKept;
      ghost var before := view;
      NothingCopied(view, seg, image);
      NothingStored(memory.bytes, pt.claimed, view);
      var offset := 0;
      while offset < seg.fileSize
        invariant offset <= seg.fileSize && Valid() && Copied(before, view, seg, image, offset)
        invariant BytesKept(old(memory.bytes), memory.bytes, pt.claimed, before)
      {
        OnItsPages(seg, offset);
        CopiedKeys(before, view, seg, image, offset);
        ghost var middle, ram1 := view, memory.bytes;
        SameFrames(before, view, seg, image, offset);
        ok := StoreByte(seg.va + offset, image[seg.offset + offset]);
        if !ok {
          return;
        }
        BytesKeptTwice(old(memory.bytes), ram1, memory.bytes, pt.claimed, before, middle);
        CopyOneMore(before, middle, seg, image, offset);
        offset := offset + 1;
      }
      ok := true;
    }

    /** protect, whose result load does not look at: on pages that are there it
        cannot fail, even with no frame left. */
    method ProtectPages(first: nat, count: nat, flags: PageFlags)
      requires Valid() && USER_VPN <= first && first + count <= VPN_LIMIT && flags.user
      requires forall v :: first <= v < first + count ==> v in view
      modifies this`view, pt, pt.allocator, pt.allocator.bitmap
      ensures Valid() && view == Reflag(old(view), first, count, flags)
      ensures pt.roots == old(pt.roots)
      ensures Private(old(pt.mem), old(memory.bytes), old(pt.claimed), old(view), pt.mem, memory.bytes, pt.claimed,
                      view,
                      pt.roots, space)
    {
      hide Inv, AllHeld, Nested, Shown, Private, RangeEffect, Rights, SmallRights, Protected, Beside, HugeAt, UserMay,
           Look;
      ghost var mem0, bits0, claimed0 := pt.mem, pt.allocator.bits, pt.claimed;
      WholePages(first, count);
      forall v | first <= v < first + count
        ensures Look(pt.mem, pt.roots[space], v).Some? && !HugeAt(pt.mem, pt.roots[space], v)
      {
        PageShown(pt.mem, pt.roots[space], memory.bytes, pt.claimed, view, v);
        OwnPage(space, v);
        NoHuge(pt.mem, pt.own, pt.roots, space, v);
      }
      var ok, done, last := pt.Protect(space, first * PAGE, count * PAGE, flags);
      assert ok && done == count;
      ProtectBeside(mem0, bits0, pt.mem, pt.allocator.bits, pt.roots, space, first, count, flags);
      PagesProtected(mem0, pt.mem, pt.roots, space, first, count, flags, memory.bytes, pt.claimed, view);
      FramesReflagged(mem0, memory.bytes, claimed0, view, pt.mem, pt.roots, space, first, count, flags);
      view := Reflag(view, first, count, flags);
    }

    method RaiseBrk(end: nat)
      requires Valid()
      modifies this`brk
      ensures Valid() && brk == Larger(old(brk), end)
    {
      hide Inv, AllHeld, Shown;
      if end > brk {
        brk := end;
      }
    }

    /** map_stack. */
    method MapStack() returns (ok: bool)
      requires Valid() && Absent(view, STACK_FIRST, STACK_PAGES)
      modifies this, memory, pt, pt.allocator, pt.allocator.bitmap
      ensures Valid() && (!ok ==> pt.Exhausted()) && brk == old(brk)
      ensures pt.roots == old(pt.roots)
      ensures Private(old(pt.mem), old(memory.bytes), old(pt.claimed), old(view), pt.mem, memory.bytes, pt.claimed,
                      view,
                      pt.roots, space)
      ensures ok ==>
              StackIn(view) && Grown(old(view), view, STACK_FIRST, STACK_PAGES)
                && pageCount == old(pageCount) + STACK_PAGES
    {
      hide Inv, AllHeld, Shown, Valid, Absent, Private;
      ok := MapPages(STACK_FIRST, STACK_PAGES, STACK_FLAGS);
    }

    /** The loop of load over the program headers. */
    method LoadSegments(segs: seq<Segment>, image: seq<bv8>) returns (ok: bool)
      requires Valid() && SegmentsApart(segs) && AllWellFormed(segs, image) && view == map[] && pageCount == 0
               && brk == 0
      modifies this, memory, pt, pt.allocator, pt.allocator.bitmap
      ensures Valid()
      ensures pt.roots == old(pt.roots)
      ensures Private(old(pt.mem), old(memory.bytes), old(pt.claimed), old(view), pt.mem, memory.bytes, pt.claimed,
                      view,
                      pt.roots, space)
      ensures ok ==> IsBreak(segs, |segs|, brk)
      ensures ok ==> Progress(view, segs, image, |segs|) && pageCount == TotalPages(segs, |segs|)
      ensures ok ==> forall i :: 0 <= i < |segs| && Loads(segs[i]) ==> segs[i].va >= USER_BASE
      ensures !ok ==> pt.Exhausted() || exists i :: 0 <= i < |segs| && Loads(segs[i]) && segs[i].va < USER_BASE
    {
      hide Inv, AllHeld, Shown, Valid, SegmentIn, Grown, Progress, SegmentsApart, Private;
      NothingLoaded(segs, image);
      NothingElse(pt.mem, memory.bytes, pt.claimed, pt.claimed, view, pt.roots, space);
      var i := 0;
      while i < |segs|
        invariant i <= |segs| && Valid() && Progress(view, segs, image, i) && pageCount == TotalPages(segs, i)
        invariant forall k :: 0 <= k < i && Loads(segs[k]) ==> segs[k].va >= USER_BASE
        invariant pt.roots == old(pt.roots) && IsBreak(segs, i, brk)
        invariant Private(old(pt.mem), old(memory.bytes), old(pt.claimed), old(view), pt.mem, memory.bytes, pt.claimed,
                          view, pt.roots, space)
      {
        var seg := segs[i];
        ProgressSkips(view, segs, image, i);
        if Loads(seg) {
          ghost var before, mem1, ram1, claimed1 := view, pt.mem, memory.bytes, pt.claimed;
          ok := LoadSegment(seg, image);
          PrivateTwice(old(pt.mem), old(memory.bytes), old(pt.claimed), old(view), mem1, ram1, claimed1, before, pt.mem,
                       memory.bytes, pt.claimed, view, pt.roots, space);
          if !ok {
            return;
          }
          ProgressMade(before, view, segs, image, i);
        }
        i := i + 1;
      }
      ok := true;
    }

    /** One turn of load's loop, for a segment that is to be loaded. */
    method LoadSegment(seg: Segment, image: seq<bv8>) returns (ok: bool)
      requires Valid() && WellFormed(seg, image) && Loads(seg) && Absent(view, FirstPage(seg), PageCount(seg))
      modifies this, memory, pt, pt.allocator, pt.allocator.bitmap
      ensures Valid()
      ensures pt.roots == old(pt.roots)
      ensures Private(old(pt.mem), old(memory.bytes), old(pt.claimed), old(view), pt.mem, memory.bytes, pt.claimed,
                      view,
                      pt.roots, space)
      ensures ok ==> seg.va >= USER_BASE && SegmentIn(view, seg, image) && pageCount == old(pageCount) + PageCount(seg)
      ensures ok ==>
              Grown(old(view), view, FirstPage(seg), PageCount(seg)) && brk == Larger(old(brk), seg.va + seg.memorySize)
      ensures !ok ==> seg.va < USER_BASE || pt.Exhausted()
    {
      hide Inv, AllHeld, Shown, Added, Copied, Valid, SegmentIn, Grown, Private, BytesKept;
      if seg.va < USER_BASE {
        NothingElse(pt.mem, memory.bytes, pt.claimed, pt.claimed, view, pt.roots, space);
        return false;
      }
      ghost var view0, mem0, ram0, claimed0 := view, pt.mem, memory.bytes, pt.claimed;
      var first, pages := seg.va / PAGE, (seg.memorySize + seg.va % PAGE + PAGE - 1) / PAGE;
      UserPages(seg);
      ok := MapPages(first, pages, LoadFlags(seg));
      if !ok {
        return;
      }
      ghost var view1, ram1, claimed1 := view, memory.bytes, pt.claimed;
      AddedKeys(view0, view1, first, pages, LoadFlags(seg));
      ok := CopyFile(seg, image);
      ghost var view2, mem2, ram2 := view, pt.mem, memory.bytes;
      SegmentMade(view0, view1, view2, seg, image);
      CopiedKeys(view1, view2, seg, image, seg.fileSize);
      FramesCopied(mem0, ram0, claimed0, view0, mem2, ram1, claimed1, view1, ram2, view2, pt.roots, space, seg, image);
      RaiseBrk(seg.va + seg.memorySize);
      if !seg.write {
        ProtectPages(first, pages, FinalFlags(seg));
        PrivateTwice(mem0, ram0, claimed0, view0, mem2, ram2, claimed1, view2, pt.mem, memory.bytes, pt.claimed, view,
                     pt.roots, space);
      }
    }
  }

  /** The segments that are loaded do not share a page, with each other or with the stack. */
  ghost predicate SegmentsApart(segs: seq<Segment>) {
    && (forall i, j :: 0 <= i < j < |segs| && Loads(segs[i]) && Loads(segs[j]) ==>
          PagesApart(FirstPage(segs[i]), PageCount(segs[i]), FirstPage(segs[j]), PageCount(segs[j])))
    && (forall i :: 0 <= i < |segs| && Loads(segs[i]) ==>
          PagesApart(FirstPage(segs[i]), PageCount(segs[i]), STACK_FIRST, STACK_PAGES))
  }

  ghost predicate AllWellFormed(segs: seq<Segment>, image: seq<bv8>) {
    forall i :: 0 <= i < |segs| && Loads(segs[i]) ==> WellFormed(segs[i], image)
  }

  /** The first n segments are in place and nothing of the others is there. */
  ghost predicate Progress(view: View, segs: seq<Segment>, image: seq<bv8>, n: nat) {
    && AllWellFormed(segs, image)
    && (forall i :: 0 <= i < n <= |segs| && Loads(segs[i]) ==> SegmentIn(view, segs[i], image))
    && (forall i :: n <= i < |segs| && Loads(segs[i]) ==> Absent(view, FirstPage(segs[i]), PageCount(segs[i])))
    && Absent(view, STACK_FIRST, STACK_PAGES)
  }

  /** The pages of the first n segments. */
  function TotalPages(segs: seq<Segment>, n: nat): nat
    requires n <= |segs|
  {
    if n == 0 then 0 else TotalPages(segs, n - 1) + if Loads(segs[n - 1]) then PageCount(segs[n - 1]) else 0
  }

  /** The break is the highest end of the first n segments that are loaded. */
  ghost predicate IsBreak(segs: seq<Segment>, n: nat, brk: nat)
    requires n <= |segs|
  {
    && (forall i :: 0 <= i < n && Loads(segs[i]) ==> segs[i].va + segs[i].memorySize <= brk)
    && (brk == 0 || exists i :: 0 <= i < n && Loads(segs[i]) && segs[i].va + segs[i].memorySize == brk)
  }

  function Larger(a: nat, b: nat): nat {
    if b > a then b else a
  }

  /** None of the pages is there. */
  ghost predicate Absent(view: View, first: nat, count: nat) {
    forall v :: first <= v < first + count ==> v !in view
  }

  /** The pages were added and all others are as before. */
  ghost predicate Grown(view: View, view': View, first: nat, count: nat) {
    && KeptOutside(view, view', first, count)
    && forall v :: v in view' <==> v in view || first <= v < first + count
  }

  /** What the loader takes for granted about a segment: its file part lies in
      the image and is no longer than its memory, which ends below 2^48. */
  predicate WellFormed(seg: Segment, image: seq<bv8>) {
    && seg.fileSize <= seg.memorySize && seg.offset + seg.fileSize <= |image|
    && FirstPage(seg) + PageCount(seg) <= VPN_LIMIT
  }

  lemma MoreClaimed(mem: Tables, root: nat, ram: map<nat, seq<bv8>>, claimed: set<nat>, claimed': set<nat>, view: View)
    requires Shown(mem, root, ram, claimed, view) && claimed <= claimed'
    ensures Shown(mem, root, ram, claimed', view)
  {
  }

  lemma FrameAddress(own: map<nat, Owner>, claimed: set<nat>, bits: seq<bool>, frame: nat)
    requires FramesHeld(own, claimed, bits) && frame in claimed && |bits| == MANAGED_PAGES
    ensures PageAddress(frame) == frame
  {
  }

  lemma FreshFrame(mem: Tables, root: nat, ram: map<nat, seq<bv8>>, claimed: set<nat>, view: View, frame: nat)
    requires Shown(mem, root, ram, claimed, view) && forall v :: v in view ==> view[v].frame != frame
    ensures Shown(mem, root, ram[frame := Zeros()], claimed, view)
  {
  }

  lemma NotShown(mem: Tables, root: nat, ram: map<nat, seq<bv8>>, claimed: set<nat>, view: View, frame: nat)
    requires Shown(mem, root, ram, claimed, view) && frame !in claimed
    ensures forall v :: v in view ==> view[v].frame != frame
  {
  }

  lemma OneAdded(view: View, v: nat, p: PageView)
    requires v !in view && p.bytes == Zeros()
    ensures Added(view, view[v := p], v, 1, p.flags)
  {
  }

  lemma PageAligned(v: nat)
    ensures v * PAGE / PAGE == v && PagesFor(PAGE) == 1
  {
  }

  lemma NothingMapped(mem: Tables, mem': Tables, roots: map<nat, nat>, space: nat, v: nat, frame: nat, flags: PageFlags,
                      ram: map<nat, seq<bv8>>, claimed: set<nat>, view: View)
    requires space in roots && space != KERNEL && Mapped(mem, mem', roots, space, v, 0, frame, flags)
    requires SmallRights(mem, mem', roots, space, v, 0, true)
    requires Shown(mem, roots[space], ram, claimed, view)
    ensures Shown(mem', roots[space], ram, claimed, view)
  {
    hide Look, UserMay;
    forall w: nat | USER_VPN <= w < VPN_LIMIT
      ensures Small(space, w)
    {
      OwnPage(space, w);
    }
  }

  lemma PageMapped(mem: Tables, mem': Tables, roots: map<nat, nat>, space: nat, v: nat, frame: nat, flags: PageFlags,
                   ram: map<nat, seq<bv8>>, claimed: set<nat>, view: View)
    requires space in roots && space != KERNEL && v !in view && USER_VPN <= v < VPN_LIMIT
    requires Mapped(mem, mem', roots, space, v, 1, frame, flags) && PageAddress(frame) == frame
    requires SmallRights(mem, mem', roots, space, v, 1, true)
    requires Shown(mem, roots[space], ram, claimed, view) && frame in claimed && frame in ram && ram[frame] == Zeros()
    requires forall w :: w in view ==> view[w].frame != frame
    ensures Shown(mem', roots[space], ram, claimed, view[v := PageView(frame, flags, Zeros())])
  {
    hide Look, UserMay;
    forall w: nat | USER_VPN <= w < VPN_LIMIT
      ensures Small(space, w) && Sees(space, space, w)
    {
      OwnPage(space, w);
    }
  }

  lemma MapBeside(mem: Tables, bits: seq<bool>, mem': Tables, bits': seq<bool>, roots: map<nat, nat>, space: nat,
                  first: nat, done: nat, frame: nat, flags: PageFlags, last: Change)
    requires space in roots && space != KERNEL && USER_VPN <= first && first + done <= VPN_LIMIT
    requires Mapped(mem, mem', roots, space, first, done, frame, flags)
    requires RangeEffect(mem, bits, mem', bits', roots, space, first, done, true, last)
    requires SmallRights(mem, mem', roots, space, first, done, true)
    ensures Beside(mem, mem', roots, space)
  {
    hide UserMay, RangeGates;
    forall s, v: nat | s in roots && v < VPN_LIMIT && (s != space || v < USER_VPN)
      ensures Look(mem', roots[s], v) == Look(mem, roots[s], v)
      ensures USER_VPN <= v ==> UserMay(mem', roots[s], v) == UserMay(mem, roots[s], v)
    {
      TopPrefix(v);
      assert USER_VPN <= v ==> Small(s, v) && !Sees(s, space, v);
    }
  }

  lemma ProtectBeside(mem: Tables, bits: seq<bool>, mem': Tables, bits': seq<bool>, roots: map<nat, nat>, space: nat,
                      first: nat, done: nat, flags: PageFlags)
    requires space in roots && space != KERNEL && USER_VPN <= first && first + done <= VPN_LIMIT
    requires Protected(mem, mem', roots, space, first, done, flags)
    requires RangeEffect(mem, bits, mem', bits', roots, space, first, done, true, Kept)
    requires SmallRights(mem, mem', roots, space, first, done, true)
    ensures Beside(mem, mem', roots, space)
  {
    hide UserMay, RangeGates;
    forall s, v: nat | s in roots && v < VPN_LIMIT && (s != space || v < USER_VPN)
      ensures Look(mem', roots[s], v) == Look(mem, roots[s], v)
      ensures USER_VPN <= v ==> UserMay(mem', roots[s], v) == UserMay(mem, roots[s], v)
    {
      TopPrefix(v);
      assert USER_VPN <= v ==> Small(s, v) && !Sees(s, space, v);
    }
  }

  lemma NothingElse(mem: Tables, ram: map<nat, seq<bv8>>, claimed: set<nat>, claimed': set<nat>, view: View,
                    roots: map<nat, nat>, space: nat)
    requires claimed <= claimed'
    ensures Private(mem, ram, claimed, view, mem, ram, claimed', view, roots, space)
  {
  }

  lemma FrameKept(mem: Tables, ram: map<nat, seq<bv8>>, claimed: set<nat>, view: View, mem': Tables, claimed': set<nat>,
                  roots: map<nat, nat>, space: nat, frame: nat)
    requires Beside(mem, mem', roots, space) && claimed <= claimed' && frame !in claimed
    ensures Private(mem, ram, claimed, view, mem', ram[frame := Zeros()], claimed', view, roots, space)
  {
    hide Beside;
  }

  lemma FrameAdded(mem: Tables, ram: map<nat, seq<bv8>>, claimed: set<nat>, view: View, mem': Tables,
                   claimed': set<nat>, roots: map<nat, nat>, space: nat, v: nat, p: PageView)
    requires Beside(mem, mem', roots, space) && claimed <= claimed' && p.frame !in claimed
    ensures Private(mem, ram, claimed, view, mem', ram[p.frame := Zeros()], claimed', view[v := p], roots, space)
  {
    hide Beside;
  }

  lemma FramesReflagged(mem: Tables, ram: map<nat, seq<bv8>>, claimed: set<nat>, view: View, mem': Tables,
                        roots: map<nat, nat>, space: nat, first: nat, count: nat, flags: PageFlags)
    requires Beside(mem, mem', roots, space)
    ensures Private(mem, ram, claimed, view, mem', ram, claimed, Reflag(view, first, count, flags), roots, space)
  {
    hide Beside;
  }

  lemma FramesCopied(mem: Tables, ram: map<nat, seq<bv8>>, claimed: set<nat>, view: View, mem': Tables,
                     ram1: map<nat, seq<bv8>>, claimed': set<nat>, view1: View, ram2: map<nat, seq<bv8>>, view2: View,
                     roots: map<nat, nat>, space: nat, seg: Segment, image: seq<bv8>)
    requires Private(mem, ram, claimed, view, mem', ram1, claimed', view1, roots, space)
    requires WellFormed(seg, image) && Copied(view1, view2, seg, image, seg.fileSize)
    requires BytesKept(ram1, ram2, claimed', view1)
    ensures Private(mem, ram, claimed, view, mem', ram2, claimed', view2, roots, space)
  {
    hide Beside, ByteAt;
    BytesStillKept(ram, ram1, ram2, claimed, claimed', view, view1);
  }

  lemma PrivateTwice(mem0: Tables, ram0: map<nat, seq<bv8>>, claimed0: set<nat>, view0: View, mem1: Tables,
                     ram1: map<nat, seq<bv8>>, claimed1: set<nat>, view1: View, mem2: Tables, ram2: map<nat, seq<bv8>>,
                     claimed2: set<nat>, view2: View, roots: map<nat, nat>, space: nat)
    requires Private(mem0, ram0, claimed0, view0, mem1, ram1, claimed1, view1, roots, space)
    requires Private(mem1, ram1, claimed1, view1, mem2, ram2, claimed2, view2, roots, space)
    ensures Private(mem0, ram0, claimed0, view0, mem2, ram2, claimed2, view2, roots, space)
  {
    hide Look, UserMay;
    BytesStillKept(ram0, ram1, ram2, claimed0, claimed1, view0, view1);
    hide BytesKept;
  }

  /** A frame that had been taken before and is in no page of the space then is in
      none later. */
  lemma BytesStillKept(ram0: map<nat, seq<bv8>>, ram1: map<nat, seq<bv8>>, ram2: map<nat, seq<bv8>>, claimed0: set<nat>,
                       claimed1: set<nat>, view0: View, view1: View)
    requires BytesKept(ram0, ram1, claimed0, view0) && BytesKept(ram1, ram2, claimed1, view1)
    requires claimed0 <= claimed1 && NewFrames(view0, view1, claimed0)
    ensures BytesKept(ram0, ram2, claimed0, view0)
  {
  }

  lemma NothingStored(ram: map<nat, seq<bv8>>, claimed: set<nat>, view: View)
    ensures BytesKept(ram, ram, claimed, view)
  {
  }

  lemma BytesKeptTwice(ram0: map<nat, seq<bv8>>, ram1: map<nat, seq<bv8>>, ram2: map<nat, seq<bv8>>, claimed: set<nat>,
                       view0: View, view1: View)
    requires BytesKept(ram0, ram1, claimed, view0) && BytesKept(ram1, ram2, claimed, view1)
    requires forall v :: v in view1 ==> v in view0 && view1[v].frame == view0[v].frame
    ensures BytesKept(ram0, ram2, claimed, view0)
  {
  }

  lemma SameFrames(view: View, view': View, seg: Segment, image: seq<bv8>, n: nat)
    requires seg.offset + n <= |image| && Copied(view, view', seg, image, n)
    ensures forall v :: v in view' ==> v in view && view'[v].frame == view[v].frame
  {
  }

  lemma NothingAdded(view: View, first: nat, flags: PageFlags)
    ensures Added(view, view, first, 0, flags)
  {
  }

  lemma AddedKeys(view: View, view': View, first: nat, count: nat, flags: PageFlags)
    requires Added(view, view', first, count, flags)
    ensures forall v :: v in view' <==> v in view || first <= v < first + count
  {
  }

  lemma AddedOneMore(a: View, b: View, c: View, first: nat, count: nat, flags: PageFlags)
    requires Added(a, b, first, count, flags) && Added(b, c, first + count, 1, flags)
    ensures Added(a, c, first, count + 1, flags)
  {
  }

  lemma PageShown(mem: Tables, root: nat, ram: map<nat, seq<bv8>>, claimed: set<nat>, view: View, v: nat)
    requires Shown(mem, root, ram, claimed, view) && v in view
    ensures USER_VPN <= v < VPN_LIMIT && |view[v].bytes| == PAGE
    ensures Look(mem, root, v) == Some(MappingOf(view[v].frame, view[v].flags, FULL))
    ensures view[v].frame in claimed && view[v].frame in ram && ram[view[v].frame] == view[v].bytes
  {
  }

  lemma FrameOffset(own: map<nat, Owner>, claimed: set<nat>, bits: seq<bool>, frame: nat, offset: nat)
    requires FramesHeld(own, claimed, bits) && frame in claimed && offset < PAGE
    ensures frame + offset > 0 && (frame + offset) / PAGE * PAGE == frame && (frame + offset) % PAGE == offset
  {
  }

  lemma BytePut(mem: Tables, root: nat, ram: map<nat, seq<bv8>>, claimed: set<nat>, view: View, a: nat, b: bv8)
    requires Shown(mem, root, ram, claimed, view) && a / PAGE in view
    ensures var f := view[a / PAGE].frame;
            && |view[a / PAGE].bytes| == PAGE && f in ram && |ram[f]| == PAGE
            && Shown(mem, root, ram[f := ram[f][a % PAGE := b]], claimed, Put(view, a, b))
              && |Put(view, a, b)| == |view|
  {
    hide Look, UserMay, MappingOf;
    assert Put(view, a, b).Keys == view.Keys;
    var p, f := a / PAGE, view[a / PAGE].frame;
    assert ShownPage(mem, root, ram, claimed, p, view[p]);
    var ram' := ram[f := ram[f][a % PAGE := b]];
    forall v | v in view
      ensures ShownPage(mem, root, ram', claimed, v, Put(view, a, b)[v])
    {
      assert ShownPage(mem, root, ram, claimed, v, view[v]);
      assert v != p ==> view[v].frame != f;
    }
  }

  lemma NothingCopied(view: View, seg: Segment, image: seq<bv8>)
    requires seg.offset <= |image|
    ensures Copied(view, view, seg, image, 0)
  {
  }

  lemma CopiedKeys(view: View, view': View, seg: Segment, image: seq<bv8>, n: nat)
    requires seg.offset + n <= |image| && Copied(view, view', seg, image, n)
    ensures view'.Keys == view.Keys
  {
  }

  lemma WholePages(first: nat, count: nat)
    ensures first * PAGE / PAGE == first && PagesFor(count * PAGE) == count
  {
  }

  lemma OwnPage(space: nat, v: nat)
    requires space != KERNEL && USER_VPN <= v < VPN_LIMIT
    ensures SpaceAt(space, v) != KERNEL
  {
    TopPrefix(v);
  }

  lemma PagesProtected(mem: Tables, mem': Tables, roots: map<nat, nat>, space: nat, first: nat, count: nat,
                       flags: PageFlags,
                       ram: map<nat, seq<bv8>>, claimed: set<nat>, view: View)
    requires space in roots && space != KERNEL && Shown(mem, roots[space], ram, claimed, view)
    requires Protected(mem, mem', roots, space, first, count, flags)
    requires SmallRights(mem, mem', roots, space, first, count, true)
    ensures Shown(mem', roots[space], ram, claimed, Reflag(view, first, count, flags))
            && |Reflag(view, first, count, flags)| == |view|
  {
    hide Look, UserMay;
    forall w: nat | USER_VPN <= w < VPN_LIMIT
      ensures Small(space, w) && Sees(space, space, w)
    {
      OwnPage(space, w);
    }
    assert Reflag(view, first, count, flags).Keys == view.Keys;
  }

  lemma UserPages(seg: Segment)
    requires seg.va >= USER_BASE
    ensures FirstPage(seg) >= USER_VPN
  {
  }

  lemma SegmentMade(view0: View, view1: View, view2: View, seg: Segment, image: seq<bv8>)
    requires WellFormed(seg, image)
    requires Added(view0, view1, FirstPage(seg), PageCount(seg), LoadFlags(seg))
             && Copied(view1, view2, seg, image, seg.fileSize)
    ensures var view3 := Reflag(view2, FirstPage(seg), PageCount(seg), FinalFlags(seg));
            && SegmentIn(view3, seg, image) && Grown(view0, view3, FirstPage(seg), PageCount(seg))
            && (seg.write ==> SegmentIn(view2, seg, image) && Grown(view0, view2, FirstPage(seg), PageCount(seg)))
  {
    SegmentBuilt(view0, view1, view2, seg, image);
    hide SegmentIn, KeptOutside;
  }

  lemma NothingLoaded(segs: seq<Segment>, image: seq<bv8>)
    requires AllWellFormed(segs, image)
    ensures Progress(map[], segs, image, 0)
  {
  }

  lemma ProgressSkips(view: View, segs: seq<Segment>, image: seq<bv8>, i: nat)
    requires Progress(view, segs, image, i) && i < |segs|
    ensures !Loads(segs[i]) ==> Progress(view, segs, image, i + 1)
    ensures Loads(segs[i]) ==> WellFormed(segs[i], image) && Absent(view, FirstPage(segs[i]), PageCount(segs[i]))
  {
  }

  lemma ProgressMade(view: View, view': View, segs: seq<Segment>, image: seq<bv8>, i: nat)
    requires SegmentsApart(segs) && Progress(view, segs, image, i) && i < |segs| && Loads(segs[i])
             && WellFormed(segs[i], image)
    requires SegmentIn(view', segs[i], image) && Grown(view, view', FirstPage(segs[i]), PageCount(segs[i]))
    ensures Progress(view', segs, image, i + 1)
  {
    hide SegmentIn, KeptOutside;
    forall k | 0 <= k < i && Loads(segs[k])
      ensures SegmentIn(view', segs[k], image)
    {
      SegmentKept(view, view', FirstPage(segs[i]), PageCount(segs[i]), segs[k], image);
    }
    forall k | i + 1 <= k < |segs| && Loads(segs[k])
      ensures Absent(view', FirstPage(segs[k]), PageCount(segs[k]))
    {
      assert PagesApart(FirstPage(segs[i]), PageCount(segs[i]), FirstPage(segs[k]), PageCount(segs[k]));
    }
  }

  // -------------------------------------------------------------- whole load

  datatype ElfHeader = ElfHeader(ident: seq<bv8>, machine: nat, kind: nat, entry: nat)

  const ELF_HEADER_SIZE := 64

  /** The checks at the top of load. */
  predicate HeaderAccepted(h: ElfHeader, image: seq<bv8>) {
    |image| >= ELF_HEADER_SIZE && h.ident == [0x7F, 0x45, 0x4C, 0x46] && h.machine == 62 && h.kind == 2
  }

  /** What was there before the load, seen from every space there was. */
  ghost predicate OthersKept(s: State, s': State) {
    && s.roots.Keys <= s'.roots.Keys
    && (forall q, v: nat :: q in s.roots && v < VPN_LIMIT ==> SeenAt(s', q, v) == SeenAt(s, q, v))
  }

  /** load and map_stack: on success the space shows every segment as its header
      asks and a zeroed stack, in frames nobody had. Whatever happens, the other
      spaces keep every translation and every right, the frames that had been
      taken keep their bytes, and a failure has one of two reasons. */
  method LoadProcess(pt: PageTables, memory: FrameBytes, space: nat, h: ElfHeader, segs: seq<Segment>, image: seq<bv8>)
    returns (ok: bool, process: ProcessImage?)
    requires pt.Valid() && space !in pt.roots && Good(State(pt.mem, pt.own, pt.roots))
    requires HeaderAccepted(h, image) ==> SegmentsApart(segs) && AllWellFormed(segs, image)
    modifies memory, pt, pt.allocator, pt.allocator.bitmap
    ensures pt.Valid() && Good(State(pt.mem, pt.own, pt.roots)) && old(pt.claimed) <= pt.claimed
    ensures OthersKept(State(old(pt.mem), old(pt.own), old(pt.roots)), State(pt.mem, pt.own, pt.roots))
    ensures BytesKept(old(memory.bytes), memory.bytes, old(pt.claimed), map[])
    ensures !HeaderAccepted(h, image) ==> !ok && pt.mem == old(pt.mem) && pt.roots == old(pt.roots)
    // A 64-bit header, the ELF magic, machine EM_X86_64, type ET_EXEC.
    ensures HeaderAccepted(h, image) <==>
              |image| >= 64 && h.ident == [0x7F, 0x45, 0x4C, 0x46] && h.machine == 62 && h.kind == 2
    ensures !ok && HeaderAccepted(h, image) ==>
              pt.Exhausted() || exists i :: 0 <= i < |segs| && Loads(segs[i]) && segs[i].va < USER_BASE
    ensures ok ==> process != null && fresh(process) && process.pt == pt && process.memory == memory
                   && process.space == space && process.Valid()
    ensures ok ==>
              && (forall i :: 0 <= i < |segs| && Loads(segs[i]) ==>
                  WellFormed(segs[i], image) && SegmentIn(process.view, segs[i], image))
              && StackIn(process.view) && process.pageCount == TotalPages(segs, |segs|) + STACK_PAGES
              && IsBreak(segs, |segs|, process.brk) && process.entry == h.entry
              && forall v :: v in process.view ==> process.view[v].frame !in old(pt.claimed)
    // The same, as the program will find it through the page tables.
    ensures ok ==>
              && (forall i :: 0 <= i < |segs| && Loads(segs[i]) ==>
                  SegmentFound(pt.mem, pt.roots[space], memory.bytes, segs[i], image))
              && StackFound(pt.mem, pt.roots[space], memory.bytes)
  {
    hide SegmentFound, StackFound, StackIn, ShownPage;
    hide Inv, AllHeld, Shown, Progress, Grown, SegmentIn, SegmentsApart, Step, Good, Private, OthersKept, IsBreak;
    ghost var s0 := State(pt.mem, pt.own, pt.roots);
    NoOthers(s0);
    if !HeaderAccepted(h, image) {
      return false, null;
    }
    ok := NewSpace(pt, space);
    if !ok {
      return false, null;
    }
    ghost var s1, ram1, claimed1 := State(pt.mem, pt.own, pt.roots), memory.bytes, pt.claimed;
    NewSpaceThere(s0, space, s1);
    process := new ProcessImage(pt, memory, space, h.entry);
    ok := process.LoadSegments(segs, image);
    ghost var s2, ram2, claimed2 := State(pt.mem, pt.own, pt.roots), memory.bytes, pt.claimed;
    LoadedBeside(s0, s1, s2, ram1, claimed1, ram2, claimed2, map[], process.view, space);
    if !ok {
      return;
    }
    ghost var loaded := process.view;
    ProgressDone(loaded, segs, image);
    ok := process.MapStack();
    ghost var s3 := State(pt.mem, pt.own, pt.roots);
    PrivateTwice(s1.mem, ram1, claimed1, map[], s2.mem, ram2, claimed2, loaded, pt.mem, memory.bytes, pt.claimed,
                 process.view, pt.roots, space);
    LoadedBeside(s0, s1, s3, ram1, claimed1, memory.bytes, pt.claimed, map[], process.view, space);
    if ok {
      StackAdded(loaded, process.view, segs, image);
      StackIsFound(pt.mem, pt.roots[space], memory.bytes, pt.claimed, process.view);
      forall i | 0 <= i < |segs| && Loads(segs[i])
        ensures SegmentFound(pt.mem, pt.roots[space], memory.bytes, segs[i], image)
      {
        SegmentIsFound(pt.mem, pt.roots[space], memory.bytes, pt.claimed, process.view, segs[i], image);
      }
    }
  }

  lemma NoOthers(s: State)
    ensures OthersKept(s, s)
  {
  }

  /** Loading into a new space leaves the spaces before it alone. */
  lemma LoadedBeside(s0: State, s1: State, s2: State, ram: map<nat, seq<bv8>>, claimed: set<nat>,
                     ram': map<nat, seq<bv8>>, claimed': set<nat>, view: View, view': View, space: nat)
    requires Good(s0) && Step(s0, NewSpaceOp(space), s1)
    requires Inv(s2.mem, s2.own, s2.roots) && s2.roots == s1.roots
    requires Private(s1.mem, ram, claimed, view, s2.mem, ram', claimed', view', s1.roots, space)
    ensures Good(s2) && OthersKept(s0, s2) && claimed <= claimed' && BytesKept(ram, ram', claimed, view)
    ensures view == map[] ==> forall v :: v in view' ==> view'[v].frame !in claimed
  {
    StepKeepsGood(s0, NewSpaceOp(space), s1);
    forall q, v: nat | q in s0.roots && v < USER_VPN
      ensures q in s2.roots && !UserMay(s0.mem, s0.roots[q], v) && !UserMay(s2.mem, s2.roots[q], v)
    {
      assert q in s0.roots.Keys;
      SharedBranch(s0, q, v);
      SharedBranch(s2, q, v);
    }
    hide Inv, AllHeld, Look, UserMay, BytesKept;
    forall q, v: nat | q in s0.roots && v < VPN_LIMIT
      ensures q in s2.roots && SeenAt(s2, q, v) == SeenAt(s0, q, v)
    {
      assert q in s0.roots.Keys;
      assert SeenAt(s1, q, v) == SeenAt(s0, q, v);
    }
  }

  // --------------------------------------------- what the program will see

  /** What ring 3 finds at an address: a byte, and what it may do with it. */
  ghost predicate Finds(mem: Tables, root: nat, ram: map<nat, seq<bv8>>, a: nat, b: bv8, write: bool, execute: bool) {
    var m := Look(mem, root, a / PAGE);
    && m.Some? && m.value.frame in ram && a % PAGE < |ram[m.value.frame]| && ram[m.value.frame][a % PAGE] == b
    && m.value.access == Access(write, execute) && UserMay(mem, root, a / PAGE)
  }

  /** The segment, address by address: the bytes of the file, then zeros, with the
      rights its header names. */
  ghost predicate SegmentFound(mem: Tables, root: nat, ram: map<nat, seq<bv8>>, seg: Segment, image: seq<bv8>)
    requires WellFormed(seg, image)
  {
    forall a: nat :: seg.va <= a < seg.va + seg.memorySize ==> FindsPartOf(mem, root, ram, seg, image, a)
  }

  ghost predicate FindsPartOf(mem: Tables, root: nat, ram: map<nat, seq<bv8>>, seg: Segment, image: seq<bv8>, a: nat)
    requires WellFormed(seg, image) && seg.va <= a < seg.va + seg.memorySize
  {
    Finds(mem, root, ram, a, if a - seg.va < seg.fileSize then image[seg.offset + (a - seg.va)] else 0, seg.write,
          seg.execute)
  }

  /** 64 KiB of zeros below the top of the stack, to be written and not executed. */
  ghost predicate StackFound(mem: Tables, root: nat, ram: map<nat, seq<bv8>>) {
    forall a: nat :: 0x80_4000_0000 - 0x1_0000 <= a < 0x80_4000_0000 ==> Finds(mem, root, ram, a, 0, true, false)
  }

  lemma SegmentIsFound(mem: Tables, root: nat, ram: map<nat, seq<bv8>>, claimed: set<nat>, view: View, seg: Segment,
                       image: seq<bv8>)
    requires Shown(mem, root, ram, claimed, view) && WellFormed(seg, image) && Loads(seg)
    requires SegmentIn(view, seg, image)
    ensures SegmentFound(mem, root, ram, seg, image)
  {
    hide Look, UserMay;
    forall a: nat | seg.va <= a < seg.va + seg.memorySize
      ensures FindsPartOf(mem, root, ram, seg, image, a)
    {
      OnItsPages(seg, a - seg.va);
      assert SegmentByte(view, seg, a - seg.va) == Some(Expected(seg, image, a - seg.va));
      assert ShownPage(mem, root, ram, claimed, a / PAGE, view[a / PAGE]);
    }
  }

  lemma StackIsFound(mem: Tables, root: nat, ram: map<nat, seq<bv8>>, claimed: set<nat>, view: View)
    requires Shown(mem, root, ram, claimed, view) && StackIn(view)
    ensures StackFound(mem, root, ram)
  {
    hide Look, UserMay;
    forall a: nat | 0x80_4000_0000 - 0x1_0000 <= a < 0x80_4000_0000
      ensures Finds(mem, root, ram, a, 0, true, false)
    {
      assert STACK_FIRST <= a / PAGE < STACK_FIRST + STACK_PAGES;
      assert ShownPage(mem, root, ram, claimed, a / PAGE, view[a / PAGE]);
    }
  }

  // ------------------------------------------------------- two programs

  /** A program that is loaded stays as it is while another is loaded into the same
      memory, byte for byte and right for right, and the two share no frame. */
  method LoadBeside(other: ProcessImage, space: nat, h: ElfHeader, segs: seq<Segment>, image: seq<bv8>)
    returns (ok: bool, process: ProcessImage?)
    requires other.Valid() && space !in other.pt.roots && Good(State(other.pt.mem, other.pt.own, other.pt.roots))
    requires HeaderAccepted(h, image) ==> SegmentsApart(segs) && AllWellFormed(segs, image)
    modifies other.memory, other.pt, other.pt.allocator, other.pt.allocator.bitmap
    ensures other.Valid() && Good(State(other.pt.mem, other.pt.own, other.pt.roots))
    ensures !ok ==> !HeaderAccepted(h, image) || other.pt.Exhausted()
                    || exists i :: 0 <= i < |segs| && Loads(segs[i]) && segs[i].va < USER_BASE
    ensures ok ==> process != null && process.pt == other.pt && process.memory == other.memory
                   && process.space == space && process.Valid()
    ensures ok ==> forall i :: 0 <= i < |segs| && Loads(segs[i]) ==>
              WellFormed(segs[i], image) && SegmentIn(process.view, segs[i], image)
    ensures ok ==> forall v, w :: v in process.view && w in other.view ==> process.view[v].frame != other.view[w].frame
  {
    hide Inv, AllHeld, Good, OthersKept, Shown;
    ghost var pt := other.pt;
    ghost var s0, ram0, claimed0 := State(pt.mem, pt.own, pt.roots), other.memory.bytes, pt.claimed;
    ok, process := LoadProcess(other.pt, other.memory, space, h, segs, image);
    StillShown(s0, State(pt.mem, pt.own, pt.roots), other.space, ram0, other.memory.bytes, claimed0, pt.claimed,
               other.view);
  }

  lemma StillShown(s: State, s': State, q: nat, ram: map<nat, seq<bv8>>, ram': map<nat, seq<bv8>>, claimed: set<nat>,
                   claimed': set<nat>, view: View)
    requires q in s.roots && OthersKept(s, s') && claimed <= claimed' && BytesKept(ram, ram', claimed, map[])
    requires Shown(s.mem, s.roots[q], ram, claimed, view)
    ensures q in s'.roots && Shown(s'.mem, s'.roots[q], ram', claimed', view)
    ensures forall v :: v in view ==> view[v].frame in claimed
  {
    hide Look, UserMay, MappingOf;
    forall v | v in view
      ensures ShownPage(s'.mem, s'.roots[q], ram', claimed', v, view[v])
    {
      assert ShownPage(s.mem, s.roots[q], ram, claimed, v, view[v]);
      assert SeenAt(s', q, v) == SeenAt(s, q, v);
    }
  }

  lemma NewSpaceThere(s: State, space: nat, s': State)
    requires Good(s) && Step(s, NewSpaceOp(space), s')
    ensures space in s'.roots && space != KERNEL
  {
  }

  lemma ProgressDone(view: View, segs: seq<Segment>, image: seq<bv8>)
    requires Progress(view, segs, image, |segs|)
    ensures Absent(view, STACK_FIRST, STACK_PAGES)
  {
  }

  lemma StackAdded(view: View, view': View, segs: seq<Segment>, image: seq<bv8>)
    requires SegmentsApart(segs) && Progress(view, segs, image, |segs|) && Grown(view, view', STACK_FIRST, STACK_PAGES)
    ensures forall i :: 0 <= i < |segs| && Loads(segs[i]) ==>
            WellFormed(segs[i], image) && SegmentIn(view', segs[i], image)
  {
    hide SegmentIn, KeptOutside;
    forall i | 0 <= i < |segs| && Loads(segs[i])
      ensures WellFormed(segs[i], image) && SegmentIn(view', segs[i], image)
    {
      SegmentKept(view, view', STACK_FIRST, STACK_PAGES, segs[i], image);
    }
  }
}
