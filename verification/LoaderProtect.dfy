/**
 apply_protections of kernel/module/loader.cpp over the page tables: the rights
 every page of a loaded image ends with.
 */
module LoaderProtect {
  import opened Basics
  import opened PageWalk
  import opened PageOpen
  import opened PageTables
  import L = Loader

  /** The bits apply_protections asks for. */
  function FlagsOf(s: L.Section): PageFlags {
    PageFlags(s.write, false, !s.execute, false, false)
  }

  /** A page of a section, and what may be done with it. */
  function SectionPage(frame: nat, s: L.Section): Mapping {
    Mapping(frame, s.write, !s.execute, false, false, Access(s.write, s.execute))
  }

  function FirstPage(sections: seq<L.Section>, base: nat, i: nat): nat
    requires i < |sections|
  {
    (base + L.Cursor(sections, i)) / PAGE
  }

  /** Page v belongs to section i of the image. */
  predicate OwnsPage(sections: seq<L.Section>, base: nat, i: nat, v: nat)
    requires i < |sections|
  {
    L.IsPlaced(sections[i]) && FirstPage(sections, base, i) <= v < FirstPage(sections, base, i) + L.Pages(sections[i])
  }

  /** The last of the first n sections to own page v. */
  function SectionAt(sections: seq<L.Section>, base: nat, n: nat, v: nat): (r: Option<nat>)
    requires n <= |sections|
    ensures r.Some? ==> r.value < n && OwnsPage(sections, base, r.value, v)
    ensures r.None? ==> forall i :: 0 <= i < n ==> !OwnsPage(sections, base, i, v)
  {
    if n == 0 then None else if OwnsPage(sections, base, n - 1, v) then Some(n - 1)
       else SectionAt(sections, base, n - 1, v)
  }

  /** No page has two owners, so the order of the calls does not matter. */
  lemma OneOwner(sections: seq<L.Section>, base: nat, i: nat, j: nat, v: nat)
    requires base % PAGE == 0 && i < |sections| && j < |sections| && OwnsPage(sections, base, i, v)
             && OwnsPage(sections, base, j, v)
    ensures i == j
  {
    PageToByte(sections, base, i, v);
    PageToByte(sections, base, j, v);
    L.SectionsApart(sections, i, j, v * PAGE - base);
  }

  lemma PageToByte(sections: seq<L.Section>, base: nat, i: nat, v: nat)
    requires base % PAGE == 0 && i < |sections| && OwnsPage(sections, base, i, v)
    ensures v * PAGE >= base && L.Owns(sections, i, v * PAGE - base)
  {
    L.CursorAligned(sections, i);
    var b, c, n := base / PAGE, L.Cursor(sections, i) / PAGE, L.Pages(sections[i]);
    assert base + L.Cursor(sections, i) == PAGE * (b + c);
    assert b + c <= v < b + c + n;
  }

  /** Every page shows what it showed, with the rights of the section that owns
      it among the first n. */
  ghost predicate ProtectedUpTo(mem: Tables, mem': Tables, roots: map<nat, nat>, sections: seq<L.Section>, base: nat,
                                n: nat)
    requires n <= |sections|
  {
    forall s, v: nat :: s in roots && v < VPN_LIMIT ==>
           Look(mem', roots[s], v) == Rights(mem, roots[s], s, sections, base, n, v)
  }

  function Rights(mem: Tables, root: nat, s: nat, sections: seq<L.Section>, base: nat, n: nat, v: nat): Option<Mapping>
    requires n <= |sections|
  {
    var owner := SectionAt(sections, base, n, v);
    if owner.Some? && Sees(s, KERNEL, v) && Look(mem, root, v).Some?
    then Some(MappingOf(Look(mem, root, v).value.frame, FlagsOf(sections[owner.value]), FULL))
    else Look(mem, root, v)
  }

  /** Every page of the image is mapped in the kernel's space. */
  ghost predicate ImageMapped(mem: Tables, root: nat, sections: seq<L.Section>, base: nat) {
    forall v: nat :: base <= v * PAGE < base + L.Cursor(sections, |sections|) ==> Look(mem, root, v).Some?
  }

  /** apply_protections. The code does not look at what protect returns, and
      need not: above the direct map a mapped page is never split, so with the
      image in place no call can fail, even with no frame left. */
  method ApplyProtections(pt: PageTables, sections: seq<L.Section>, base: nat, placements: seq<L.Placement>)
    requires |placements| == |sections|
    requires forall i :: 0 <= i < |sections| ==> placements[i] == L.PlacementOf(sections, base, i)
    requires pt.Valid() && KERNEL in pt.roots && |sections| <= L.MAX_SECTIONS
    requires base % PAGE == 0 && DIRECT_LIMIT <= base && base + L.Cursor(sections, |sections|) <= VPN_LIMIT * PAGE
    requires ImageMapped(pt.mem, pt.roots[KERNEL], sections, base)
    modifies pt, pt.allocator, pt.allocator.bitmap
    ensures pt.Valid() && pt.roots == old(pt.roots) && pt.claimed == old(pt.claimed)
    ensures ProtectedUpTo(old(pt.mem), pt.mem, pt.roots, sections, base, |sections|)
  {
    hide Inv, AllHeld, ProtectedUpTo, Protected, RangeEffect, RightsAfter, ImageMapped, Look, HugeAt, Nested;
    NothingProtected(pt.mem, pt.roots, sections, base);
    var i := 0;
    while i < |sections| && i < L.MAX_SECTIONS
      invariant i <= |sections| && pt.Valid() && pt.roots == old(pt.roots) && pt.claimed == old(pt.claimed)
      invariant ProtectedUpTo(old(pt.mem), pt.mem, pt.roots, sections, base, i)
    {
      var s := sections[i];
      if L.IsPlaced(s) {
        RangeAllowed(sections, base, i);
        var pages := L.Pages(s);
        ghost var mem1 := pt.mem;
        ghost var first := FirstPage(sections, base, i);
        forall v: nat | first <= v < first + pages
          ensures Look(mem1, pt.roots[KERNEL], v).Some? && !HugeAt(mem1, pt.roots[KERNEL], v)
        {
          StillMapped(old(pt.mem), mem1, pt.own, pt.roots, sections, base, i, v);
        }
        ghost var done, last;
        var ok;
        var flags := PageFlags(placements[i].writable, false, !placements[i].executable, false, false);
        ok, done, last := pt.Protect(KERNEL, placements[i].address / PAGE * PAGE, pages * PAGE, flags);
        assert ok;
        OneMoreProtected(old(pt.mem), mem1, pt.mem, pt.roots, sections, base, i);
      } else {
        OneSkipped(old(pt.mem), pt.mem, pt.roots, sections, base, i);
      }
      i := i + 1;
    }
  }

  /** The pages of a section are mapped, in 4 KiB pages, when its turn comes. */
  lemma StillMapped(mem0: Tables, mem1: Tables, own: map<nat, Owner>, roots: map<nat, nat>, sections: seq<L.Section>,
                    base: nat, i: nat, v: nat)
    requires Inv(mem1, own, roots) && base % PAGE == 0 && DIRECT_LIMIT <= base
    requires base + L.Cursor(sections, |sections|) <= VPN_LIMIT * PAGE
    requires ImageMapped(mem0, roots[KERNEL], sections, base) && i < |sections| && OwnsPage(sections, base, i, v)
    requires ProtectedUpTo(mem0, mem1, roots, sections, base, i)
    ensures Look(mem1, roots[KERNEL], v).Some? && !HugeAt(mem1, roots[KERNEL], v)
  {
    PageToByte(sections, base, i, v);
    L.CursorGrows(sections, i, |sections|);
    assert Look(mem0, roots[KERNEL], v).Some?;
    NoHuge(mem1, own, roots, KERNEL, v);
    hide Look, Inv;
    assert Look(mem1, roots[KERNEL], v) == Rights(mem0, roots[KERNEL], KERNEL, sections, base, i, v);
  }

  lemma NothingProtected(mem: Tables, roots: map<nat, nat>, sections: seq<L.Section>, base: nat)
    ensures ProtectedUpTo(mem, mem, roots, sections, base, 0)
  {
  }

  lemma RangeAllowed(sections: seq<L.Section>, base: nat, i: nat)
    requires base % PAGE == 0 && i < |sections| && L.IsPlaced(sections[i])
             && base + L.Cursor(sections, |sections|) <= VPN_LIMIT * PAGE
    ensures FirstPage(sections, base, i) + L.Pages(sections[i]) <= VPN_LIMIT
    ensures FirstPage(sections, base, i) * PAGE / PAGE == FirstPage(sections, base, i)
    ensures PagesFor(L.Pages(sections[i]) * PAGE) == L.Pages(sections[i])
  {
    L.CursorGrows(sections, i, |sections|);
    L.CursorAligned(sections, i);
    var b, c, n := base / PAGE, L.Cursor(sections, i) / PAGE, L.Pages(sections[i]);
    assert base + L.Cursor(sections, i) == PAGE * (b + c);
    assert PAGE * (b + c + n) <= PAGE * VPN_LIMIT;
  }

  lemma OneMoreProtected(mem0: Tables, mem1: Tables, mem2: Tables, roots: map<nat, nat>, sections: seq<L.Section>,
                         base: nat, i: nat)
    requires i < |sections| && L.IsPlaced(sections[i]) && ProtectedUpTo(mem0, mem1, roots, sections, base, i)
    requires Protected(mem1, mem2, roots, KERNEL, FirstPage(sections, base, i), L.Pages(sections[i]),
                       FlagsOf(sections[i]))
    ensures ProtectedUpTo(mem0, mem2, roots, sections, base, i + 1)
  {
    hide Look;
    forall v: nat
      ensures SectionAt(sections, base, i + 1, v) == if OwnsPage(sections, base, i, v) then Some(i)
              else SectionAt(sections, base, i, v)
    {
    }
  }

  lemma OneSkipped(mem0: Tables, mem1: Tables, roots: map<nat, nat>, sections: seq<L.Section>, base: nat, i: nat)
    requires i < |sections| && !L.IsPlaced(sections[i]) && ProtectedUpTo(mem0, mem1, roots, sections, base, i)
    ensures ProtectedUpTo(mem0, mem1, roots, sections, base, i + 1)
  {
    hide Look;
    forall s, v: nat | s in roots && v < VPN_LIMIT
      ensures Rights(mem0, roots[s], s, sections, base, i + 1, v) == Rights(mem0, roots[s], s, sections, base, i, v)
    {
    }
  }

  /** Each page of a loaded image ends with exactly the rights of its own section:
      it can be written if that can, executed if that can, and keeps its frame. */
  lemma PageHasItsRights(mem: Tables, mem': Tables, roots: map<nat, nat>, sections: seq<L.Section>, base: nat, i: nat,
                         v: nat)
    requires base % PAGE == 0 && i < |sections| && OwnsPage(sections, base, i, v) && v < VPN_LIMIT && KERNEL in roots
    requires ProtectedUpTo(mem, mem', roots, sections, base, |sections|)
             && ImageMapped(mem, roots[KERNEL], sections, base)
    ensures Look(mem, roots[KERNEL], v).Some?
    ensures Look(mem', roots[KERNEL], v) == Some(SectionPage(Look(mem, roots[KERNEL], v).value.frame, sections[i]))
  {
    PageToByte(sections, base, i, v);
    L.CursorGrows(sections, i, |sections|);
    var owner := SectionAt(sections, base, |sections|, v);
    OneOwner(sections, base, owner.value, i, v);
    hide Look;
  }
}
