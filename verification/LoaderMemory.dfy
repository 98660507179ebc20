/**
 The memory of a module image (kernel/module/loader.cpp): reserved, backed by
 frames, and at the end protected section by section.
 */
module LoaderMemory {
  import opened Basics
  import opened FrameBits
  import opened PageWalk
  import opened PageOpen
  import opened PageTables
  import opened KernelPages
  import L = Loader
  import P = LoaderProtect
  import V = Vmalloc
  import D = Devices

  /** allocate_image: a window of whole pages, each backed by a frame of its own.
      On failure the range is free again, and the pages reached stay mapped in it. */
  method AllocateImage(pt: PageTables, area: V.VmallocArea, pages: nat)
    returns (base: nat, ghost a: nat, ghost frames: seq<nat>)
    requires pt.Valid() && area.Valid() && KERNEL in pt.roots && pages * PAGE <= V.U64 - 2 * PAGE
    modifies pt, pt.allocator, pt.allocator.bitmap, area
    ensures pt.Valid() && area.Valid() && pt.roots == old(pt.roots)
    ensures AllNew(old(pt.claimed), pt.claimed, frames)
    ensures base != 0 ==>
              && base == V.BASE + a * PAGE && |frames| == pages
              && D.Reserved(old(area.ranges), old(area.tag), area.ranges, area.tag, a, pages + 1)
              && a !in old(area.live) && area.live == old(area.live)[a := pages + 1]
              && Backed(old(pt.mem), pt.mem, pt.roots, D.FIRST + a, frames) && D.FIRST + a + pages <= VPN_LIMIT
    ensures base == 0 ==>
              && area.tag == old(area.tag) && area.live == old(area.live)
              && var i := V.FirstLarge(old(area.ranges), pages + 1);
                 if i == |old(area.ranges)| then pt.mem == old(pt.mem)
                 else Scarce(pt.allocator.bits) && |frames| < pages
                      && Backed(old(pt.mem), pt.mem, pt.roots, D.FIRST + old(area.ranges)[i].first, frames)
  {
    hide Inv, AllHeld, V.Inv, Backed, AllNew, Scarce, V.Cut, V.Give, V.Released, V.Retag, V.Tagged, V.Leaks;
    frames := [];
    NoneBacked(pt.mem, pt.roots, 0, pt.claimed);
    PagesWanted(pages);
    base := area.Reserve(pages * PAGE);
    if base == 0 {
      return 0, 0, [];
    }
    ghost var i := V.FirstLarge(old(area.ranges), pages + 1);
    a := old(area.ranges)[i].first;
    D.WindowInArea(area.ranges, area.tag, area.live, a);
    assert base / PAGE == D.FIRST + a && (base - V.BASE) / PAGE == a;
    var got;
    got, frames := Commit(pt, base / PAGE, pages);
    if got < pages {
      V.ReleaseUndoesReserve(old(area.ranges), old(area.tag), old(area.live), i, pages + 1);
      area.Release(base, pages * PAGE);
      base := 0;
    }
  }

  lemma PagesWanted(pages: nat)
    requires pages * PAGE <= V.U64 - 2 * PAGE
    ensures V.Wanted(pages * PAGE) / PAGE == pages + 1
  {
    D.SpanFits(pages * PAGE);
    D.PageMultiple(V.RoundUp(pages * PAGE), pages, 0);
  }

  /** The frame behind page v of an image at a, with the rights of its section. */
  ghost predicate PageRight(mem: Tables, root: nat, sections: seq<L.Section>, base: nat, frames: seq<nat>, i: nat,
                            v: nat)
    requires i < |sections|
  {
    base / PAGE <= v < base / PAGE + |frames|
    && Look(mem, root, v) == Some(P.SectionPage(frames[v - base / PAGE], sections[i]))
  }

  /** The memory of an image from allocate_image to apply_protections: every page
      of every section leads to a new frame, with exactly the rights of that
      section, whatever frames are left when the protections are applied. */
  method PlaceImage(pt: PageTables, area: V.VmallocArea, sections: seq<L.Section>)
    returns (base: nat, ghost a: nat, ghost frames: seq<nat>)
    requires pt.Valid() && area.Valid() && KERNEL in pt.roots && |sections| <= L.MAX_SECTIONS
    requires L.Cursor(sections, |sections|) <= V.U64 - 2 * PAGE
    modifies pt, pt.allocator, pt.allocator.bitmap, area
    ensures pt.Valid() && area.Valid() && pt.roots == old(pt.roots)
    ensures AllNew(old(pt.claimed), pt.claimed, frames)
    ensures base == 0 ==>
              && area.tag == old(area.tag) && area.live == old(area.live)
              && var total := L.Cursor(sections, |sections|);
                 total == 0 || V.FirstLarge(old(area.ranges), total / PAGE + 1) == |old(area.ranges)|
                   || Scarce(pt.allocator.bits)
    ensures base != 0 ==>
              && base == V.BASE + a * PAGE && |frames| * PAGE == L.Cursor(sections, |sections|)
              && D.Reserved(old(area.ranges), old(area.tag), area.ranges, area.tag, a, |frames| + 1)
              && a !in old(area.live) && area.live == old(area.live)[a := |frames| + 1]
              && Holds(old(pt.mem), pt.mem, pt.roots, D.FIRST + a, frames) && D.FIRST + a + |frames| <= VPN_LIMIT
              && forall i, v: nat :: 0 <= i < |sections| && P.OwnsPage(sections, base, i, v) ==>
                   PageRight(pt.mem, pt.roots[KERNEL], sections, base, frames, i, v)
  {
    hide Inv, AllHeld, V.Inv, Backed, AllNew, Scarce, P.ProtectedUpTo, P.ImageMapped, P.OwnsPage, PageRight, D.Reserved,
         L.Cursor, Holds;
    var total := L.TotalSize(sections);
    L.CursorAligned(sections, |sections|);
    if total == 0 {
      frames := [];
      NoneBacked(pt.mem, pt.roots, 0, pt.claimed);
      return 0, 0, frames;
    }
    ghost var mem0 := pt.mem;
    base, a, frames := AllocateImage(pt, area, total / PAGE);
    if base == 0 {
      return;
    }
    ghost var mem1 := pt.mem;
    ImageIsMapped(mem0, mem1, pt.roots, sections, base, a, frames);
    var placements := seq(|sections|, i requires 0 <= i < |sections| => L.PlacementOf(sections, base, i));
    P.ApplyProtections(pt, sections, base, placements);
    forall i, v: nat | 0 <= i < |sections| && P.OwnsPage(sections, base, i, v)
      ensures PageRight(pt.mem, pt.roots[KERNEL], sections, base, frames, i, v)
    {
      RightAt(mem0, mem1, pt.mem, pt.roots, sections, base, a, frames, i, v);
    }
    ImageHolds(mem0, mem1, pt.mem, pt.roots, sections, base, a, frames);
  }

  /** The pages from first lead to these frames, in whatever way; all others are
      as before. */
  ghost predicate Holds(mem: Tables, mem': Tables, roots: map<nat, nat>, first: nat, frames: seq<nat>) {
    forall s, v: nat :: s in roots && v < VPN_LIMIT ==>
      if first <= v < first + |frames| && Sees(s, KERNEL, v)
      then Look(mem', roots[s], v).Some? && Look(mem', roots[s], v).value.frame == frames[v - first]
      else Look(mem', roots[s], v) == Look(mem, roots[s], v)
  }

  /** The protections move no frame, and touch no page outside the image. */
  lemma ImageHolds(mem0: Tables, mem1: Tables, mem2: Tables, roots: map<nat, nat>, sections: seq<L.Section>, base: nat,
                   a: nat, frames: seq<nat>)
    requires base % PAGE == 0 && base / PAGE == D.FIRST + a && |frames| * PAGE == L.Cursor(sections, |sections|)
    requires Backed(mem0, mem1, roots, D.FIRST + a, frames)
    requires P.ProtectedUpTo(mem1, mem2, roots, sections, base, |sections|)
    ensures Holds(mem0, mem2, roots, D.FIRST + a, frames)
  {
    hide Look, L.Cursor;
    forall v: nat
      ensures P.SectionAt(sections, base, |sections|, v).Some? ==> D.FIRST + a <= v < D.FIRST + a + |frames|
    {
      var owner := P.SectionAt(sections, base, |sections|, v);
      if owner.Some? {
        P.PageToByte(sections, base, owner.value, v);
        L.CursorGrows(sections, owner.value, |sections|);
        assert base == PAGE * (D.FIRST + a);
      }
    }
    hide P.SectionAt;
  }

  // ------------------------------------------------------- release_image

  /** The frames of an image are its own, and behind its pages. */
  ghost predicate Holding(mem: Tables, root: nat, claimed: set<nat>, first: nat, frames: seq<nat>) {
    && (forall i :: 0 <= i < |frames| ==> frames[i] in claimed)
    && (forall i, j :: 0 <= i < j < |frames| ==> frames[i] != frames[j])
    && (forall i: nat :: i < |frames| ==>
          Look(mem, root, first + i).Some? && Look(mem, root, first + i).value.frame == frames[i])
  }

  /** release_image, for an image in a reservation of its own. It does not look at
      what unmap returns, and need not: above the direct map a mapped page is taken
      down even with no frame left. */
  method ReleaseImage(pt: PageTables, area: V.VmallocArea, base: nat, pages: nat, ghost frames: seq<nat>)
    requires pt.Valid() && area.Valid() && KERNEL in pt.roots && pages == |frames|
    requires base != 0 ==>
               && base >= V.BASE && (base - V.BASE) % PAGE == 0 && (base - V.BASE) / PAGE in area.live
               && area.live[(base - V.BASE) / PAGE] == |frames| + 1
               && Holding(pt.mem, pt.roots[KERNEL], pt.claimed, base / PAGE, frames)
    modifies pt, pt.allocator, pt.allocator.bitmap, area
    ensures pt.Valid() && area.Valid() && pt.roots == old(pt.roots)
    ensures base == 0 ==> pt.mem == old(pt.mem) && pt.claimed == old(pt.claimed)
                          && area.tag == old(area.tag) && area.live == old(area.live)
    ensures base != 0 ==>
              var a := (base - V.BASE) / PAGE;
              && Unmapped(old(pt.mem), pt.mem, pt.roots, KERNEL, D.FIRST + a, |frames|)
              && pt.claimed == old(pt.claimed) - SetOf(frames)
              && area.live == old(area.live) - {a}
              && area.tag == V.Released(old(area.ranges), old(area.tag), old(area.live), a, |frames| + 1)
  {
    hide Inv, AllHeld, Nested, V.Inv, Holding, Unmapped, V.Released, V.Give, V.Tagged, Look;
    if base == 0 {
      return;
    }
    ghost var a := (base - V.BASE) / PAGE;
    D.WindowInArea(area.ranges, area.tag, area.live, a);
    assert base == V.BASE + a * PAGE;
    NothingTaken(pt.mem, pt.roots, D.FIRST + a, pt.claimed, frames);
    var i := 0;
    while i < pages
      invariant i <= pages && pt.Valid() && pt.roots == old(pt.roots)
      invariant area.ranges == old(area.ranges) && area.tag == old(area.tag) && area.live == old(area.live)
      invariant area.Valid()
      invariant Unmapped(old(pt.mem), pt.mem, pt.roots, KERNEL, D.FIRST + a, i)
      invariant pt.claimed == old(pt.claimed) - SetOf(frames[..i])
    {
      ghost var mem1, claimed1 := pt.mem, pt.claimed;
      NextHeld(old(pt.mem), mem1, pt.roots, old(pt.claimed), claimed1, D.FIRST + a, frames, i);
      TakePage(pt, base + i * PAGE, frames[i]);
      OneMoreTaken(old(pt.mem), mem1, pt.mem, pt.roots, D.FIRST + a, old(pt.claimed), claimed1, frames, i);
      i := i + 1;
    }
    assert frames[..i] == frames;
    PagesWanted(pages);
    area.Release(base, pages * PAGE);
  }

  /** One turn of the loop of release_image. */
  method TakePage(pt: PageTables, page: nat, ghost frame: nat)
    requires pt.Valid() && KERNEL in pt.roots && page % PAGE == 0 && DIRECT_PAGES <= page / PAGE < VPN_LIMIT
    requires Look(pt.mem, pt.roots[KERNEL], page / PAGE).Some?
    requires Look(pt.mem, pt.roots[KERNEL], page / PAGE).value.frame == frame && frame in pt.claimed
    modifies pt, pt.allocator, pt.allocator.bitmap
    ensures pt.Valid() && pt.roots == old(pt.roots) && pt.claimed == old(pt.claimed) - {frame}
    ensures Unmapped(old(pt.mem), pt.mem, pt.roots, KERNEL, page / PAGE, 1)
  {
    hide Inv, AllHeld, Nested, Unmapped, RangeEffect, RightsAfter, Look, HugeAt;
    var physical := pt.Translate(KERNEL, page);
    ClaimedFrame(pt.own, pt.claimed, pt.allocator.bits, frame);
    NoHuge(pt.mem, pt.own, pt.roots, KERNEL, page / PAGE);
    var ok, done := pt.Unmap(KERNEL, page, PAGE);
    assert ok;
    if physical != 0 {
      Unclaim(pt, physical / PAGE * PAGE);
    }
  }

  lemma ClaimedFrame(own: map<nat, Owner>, claimed: set<nat>, bits: seq<bool>, frame: nat)
    requires FramesHeld(own, claimed, bits) && frame in claimed
    ensures frame != 0 && frame / PAGE * PAGE == frame
  {
  }

  lemma NothingTaken(mem: Tables, roots: map<nat, nat>, first: nat, claimed: set<nat>, frames: seq<nat>)
    ensures Unmapped(mem, mem, roots, KERNEL, first, 0) && claimed - SetOf(frames[..0]) == claimed
  {
    hide Look;
  }

  /** The pages whose turn has not come are as they were. */
  lemma NextHeld(mem: Tables, mem1: Tables, roots: map<nat, nat>, claimed: set<nat>, claimed1: set<nat>, first: nat,
                 frames: seq<nat>, i: nat)
    requires KERNEL in roots && i < |frames| && first + |frames| <= VPN_LIMIT
    requires Holding(mem, roots[KERNEL], claimed, first, frames) && Unmapped(mem, mem1, roots, KERNEL, first, i)
    requires claimed1 == claimed - SetOf(frames[..i])
    ensures frames[i] in claimed1 && Look(mem1, roots[KERNEL], first + i).Some?
    ensures Look(mem1, roots[KERNEL], first + i).value.frame == frames[i]
  {
    hide Look;
    assert Look(mem1, roots[KERNEL], first + i) == Look(mem, roots[KERNEL], first + i);
    assert frames[i] !in frames[..i];
  }

  lemma OneMoreTaken(mem: Tables, mem1: Tables, mem2: Tables, roots: map<nat, nat>, first: nat, claimed: set<nat>,
                     claimed1: set<nat>, frames: seq<nat>, i: nat)
    requires i < |frames| && claimed1 == claimed - SetOf(frames[..i])
    requires Unmapped(mem, mem1, roots, KERNEL, first, i) && Unmapped(mem1, mem2, roots, KERNEL, first + i, 1)
    ensures Unmapped(mem, mem2, roots, KERNEL, first, i + 1)
    ensures claimed1 - {frames[i]} == claimed - SetOf(frames[..i + 1])
  {
    hide Look;
    assert frames[..i + 1] == frames[..i] + [frames[i]];
  }

  // ------------------------------------------------------- the round trip

  /** An image that is placed and released at once, as one without a descriptor is,
      leaves no trace: every translation, the frames taken and the area are as
      before. It is not placed only for want of space or frames. */
  method PlaceAndRelease(pt: PageTables, area: V.VmallocArea, sections: seq<L.Section>) returns (placed: bool)
    requires pt.Valid() && area.Valid() && KERNEL in pt.roots && |sections| <= L.MAX_SECTIONS
    requires L.Cursor(sections, |sections|) <= V.U64 - 2 * PAGE
    requires D.Clean(pt.mem, pt.roots[KERNEL], area.tag)
    modifies pt, pt.allocator, pt.allocator.bitmap, area
    ensures pt.Valid() && area.Valid() && pt.roots == old(pt.roots)
    ensures area.tag == old(area.tag) && area.live == old(area.live)
    ensures placed ==> SameView(old(pt.mem), pt.mem, pt.roots) && pt.claimed == old(pt.claimed)
    // Of the frames only those of new tables are still in use.
    ensures placed ==> OnlyTables(old(pt.allocator.bits), pt.allocator.bits, pt.own)
    ensures !placed ==>
              var total := L.Cursor(sections, |sections|);
              total == 0 || V.FirstLarge(old(area.ranges), total / PAGE + 1) == |old(area.ranges)|
                || Scarce(pt.allocator.bits)
  {
    hide Inv, AllHeld, Nested, V.Inv, AllNew, Holds, Holding, Unmapped, Scarce, D.Reserved, D.Clean, PageRight,
         P.OwnsPage,
         L.Cursor, Look, SameView, V.Released, V.FirstLarge;
    var base;
    ghost var a, frames;
    base, a, frames := PlaceImage(pt, area, sections);
    if base == 0 {
      return false;
    }
    ghost var mem1, claimed1, tag1, ranges1, live1 := pt.mem, pt.claimed, area.tag, area.ranges, area.live;
    HoldsItsOwn(old(pt.mem), mem1, pt.roots, old(pt.claimed), pt.claimed, D.FIRST + a, frames);
    L.CursorAligned(sections, |sections|);
    assert (base - V.BASE) / PAGE == a && base / PAGE == D.FIRST + a;
    ReleaseImage(pt, area, base, L.Cursor(sections, |sections|) / PAGE, frames);
    WindowWasEmpty(old(pt.mem), pt.roots, old(area.ranges), old(area.tag), ranges1, tag1, a, |frames|);
    ViewRestored(old(pt.mem), old(pt.own), mem1, pt.mem, pt.roots, a, frames);
    FramesReturned(old(pt.claimed), claimed1, frames);
    NothingKept(pt.outside, old(pt.own), pt.own, pt.claimed, old(pt.allocator.bits), pt.allocator.bits);
    AreaRestored(old(area.ranges), old(area.tag), old(area.live), ranges1, tag1, live1, a, |frames|);
    return true;
  }

  ghost predicate OnlyTables(bits: seq<bool>, bits': seq<bool>, own': map<nat, Owner>) {
    |bits'| == |bits| && forall i: nat :: i < |bits| && bits'[i] ==> bits[i] || i * PAGE in own'
  }

  lemma NothingKept(outside: set<nat>, own: map<nat, Owner>, own': map<nat, Owner>, claimed: set<nat>, bits: seq<bool>,
                    bits': seq<bool>)
    requires AllHeld(outside, own, claimed, bits) && AllHeld(outside, own', claimed, bits') && |bits'| == |bits|
    ensures OnlyTables(bits, bits', own')
  {
  }

  lemma HoldsItsOwn(mem: Tables, mem': Tables, roots: map<nat, nat>, claimed: set<nat>, claimed': set<nat>, first: nat,
                    frames: seq<nat>)
    requires KERNEL in roots && first + |frames| <= VPN_LIMIT
    requires Holds(mem, mem', roots, first, frames) && AllNew(claimed, claimed', frames)
    ensures Holding(mem', roots[KERNEL], claimed', first, frames)
  {
    hide Look;
  }

  lemma WindowWasEmpty(mem: Tables, roots: map<nat, nat>, rs: seq<V.Range>, tag: seq<V.Tag>, rs': seq<V.Range>,
                       tag': seq<V.Tag>, a: nat, n: nat)
    requires KERNEL in roots && D.Clean(mem, roots[KERNEL], tag) && D.Reserved(rs, tag, rs', tag', a, n + 1)
    ensures D.Gone(mem, roots[KERNEL], a, n)
  {
    hide Look;
    assert V.Tagged(tag, a, n + 1, V.Free);
    forall v: nat | D.FIRST + a <= v < D.FIRST + a + n
      ensures Look(mem, roots[KERNEL], v) == None
    {
      assert tag[v - D.FIRST] == V.Free;
    }
  }

  lemma ViewRestored(mem0: Tables, own0: map<nat, Owner>, mem1: Tables, mem2: Tables, roots: map<nat, nat>, a: nat,
                     frames: seq<nat>)
    requires Inv(mem0, own0, roots) && Holds(mem0, mem1, roots, D.FIRST + a, frames)
    requires Unmapped(mem1, mem2, roots, KERNEL, D.FIRST + a, |frames|) && D.Gone(mem0, roots[KERNEL], a, |frames|)
    ensures SameView(mem0, mem2, roots)
  {
    hide Look;
    forall s, v: nat | s in roots && v < VPN_LIMIT
      ensures Look(mem2, roots[s], v) == Look(mem0, roots[s], v)
    {
      if Sees(s, KERNEL, v) {
        SeersAgree(mem0, own0, roots, s, KERNEL, v);
      }
    }
  }

  lemma FramesReturned(claimed: set<nat>, claimed': set<nat>, frames: seq<nat>)
    requires AllNew(claimed, claimed', frames)
    ensures claimed' - SetOf(frames) == claimed
  {
  }

  lemma AreaRestored(rs: seq<V.Range>, tag: seq<V.Tag>, live: map<nat, nat>, rs': seq<V.Range>, tag': seq<V.Tag>,
                     live': map<nat, nat>, a: nat, n: nat)
    requires V.Inv(rs, tag, live) && a !in live && live' == live[a := n + 1]
    requires D.Reserved(rs, tag, rs', tag', a, n + 1)
    ensures V.Released(rs', tag', live', a, n + 1) == tag && live' - {a} == live
  {
    V.ReleaseUndoesReserve(rs, tag, live, V.FirstLarge(rs, n + 1), n + 1);
  }

  lemma ImageIsMapped(mem0: Tables, mem1: Tables, roots: map<nat, nat>, sections: seq<L.Section>, base: nat, a: nat,
                      frames: seq<nat>)
    requires KERNEL in roots && base == V.BASE + a * PAGE && |frames| * PAGE == L.Cursor(sections, |sections|)
    requires Backed(mem0, mem1, roots, D.FIRST + a, frames) && D.FIRST + a + |frames| <= VPN_LIMIT
    ensures P.ImageMapped(mem1, roots[KERNEL], sections, base)
    ensures base % PAGE == 0 && DIRECT_LIMIT <= base && base / PAGE == D.FIRST + a
    ensures base + L.Cursor(sections, |sections|) <= VPN_LIMIT * PAGE
  {
    hide Look;
    assert base == PAGE * (D.FIRST + a);
    forall v: nat | base <= v * PAGE < base + L.Cursor(sections, |sections|)
      ensures Look(mem1, roots[KERNEL], v).Some?
    {
      assert D.FIRST + a <= v < D.FIRST + a + |frames|;
    }
  }

  lemma RightAt(mem0: Tables, mem1: Tables, mem2: Tables, roots: map<nat, nat>, sections: seq<L.Section>, base: nat,
                a: nat,
                frames: seq<nat>, i: nat, v: nat)
    requires KERNEL in roots && base % PAGE == 0 && base / PAGE == D.FIRST + a && i < |sections|
             && P.OwnsPage(sections, base, i, v)
    requires |frames| * PAGE == L.Cursor(sections, |sections|) && D.FIRST + a + |frames| <= VPN_LIMIT
    requires Backed(mem0, mem1, roots, D.FIRST + a, frames) && P.ImageMapped(mem1, roots[KERNEL], sections, base)
    requires P.ProtectedUpTo(mem1, mem2, roots, sections, base, |sections|)
    ensures PageRight(mem2, roots[KERNEL], sections, base, frames, i, v)
  {
    P.PageToByte(sections, base, i, v);
    L.CursorGrows(sections, i, |sections|);
    hide Look, P.ProtectedUpTo, P.ImageMapped, L.Cursor;
    assert base == PAGE * (D.FIRST + a) && D.FIRST + a <= v < D.FIRST + a + |frames|;
    P.PageHasItsRights(mem1, mem2, roots, sections, base, i, v);
  }
}
