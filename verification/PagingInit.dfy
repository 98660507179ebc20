/** paging_init: the kernel's first tables, and the rights of its image. */
module PagingInit {
  import opened Basics
  import opened FrameBits
  import opened PageWalk
  import opened PageOpen
  import opened PageTables

  const DIRECT_BITS := PageFlags(true, false, true, false, false)

  /** The symbols the linker script leaves behind, all on page boundaries. */
  datatype Layout = Layout(image: nat, text: nat, textEnd: nat, rodata: nat, rodataEnd: nat, data: nat, dataEnd: nat)

  predicate Aligned(l: Layout) {
    && l.image % PAGE == 0 && l.text % PAGE == 0 && l.textEnd % PAGE == 0 && l.rodata % PAGE == 0
    && l.rodataEnd % PAGE == 0 && l.data % PAGE == 0 && l.dataEnd % PAGE == 0
    && l.image <= l.text <= l.textEnd <= l.rodata <= l.rodataEnd <= l.data <= l.dataEnd <= DIRECT_LIMIT
  }

  /** The rights a page of the identity map ends with. */
  function WantedBits(l: Layout, v: nat): PageFlags {
    if l.image / PAGE <= v < l.text / PAGE then PageFlags(false, false, true, false, false)
    else if l.text / PAGE <= v < l.textEnd / PAGE then NO_BITS
    else if l.rodata / PAGE <= v < l.rodataEnd / PAGE then PageFlags(false, false, true, false, false)
    else DIRECT_BITS
  }

  /** What the processor may do with a page of the identity map: execute the code,
      write the data and what is outside the image, and only read the rest of it. */
  function WantedAccess(l: Layout, v: nat): Access {
    var code := l.text / PAGE <= v < l.textEnd / PAGE;
    var constant := l.image / PAGE <= v < l.text / PAGE || l.rodata / PAGE <= v < l.rodataEnd / PAGE;
    Access(!code && !constant, code)
  }

  /** No page of any space can be both written and executed. */
  ghost predicate WriteXorExecute(mem: Tables, roots: map<nat, nat>) {
    forall s, v: nat :: s in roots && v < VPN_LIMIT ==> Safe(Look(mem, roots[s], v))
  }

  predicate Safe(m: Option<Mapping>) {
    m.Some? ==> !(m.value.access.write && m.value.access.execute)
  }

  /** Flags that are not Write without NoExecute. */
  predicate SafeFlags(flags: PageFlags) { flags.write ==> flags.noExecute }

  /** Every mapped page of the kernel leads to the frame of the same number. */
  ghost predicate Identity(mem: Tables, roots: map<nat, nat>) {
    && KERNEL in roots
    && forall v: nat :: v < VPN_LIMIT && Look(mem, roots[KERNEL], v).Some? ==>
         v < DIRECT_PAGES && Look(mem, roots[KERNEL], v).value.frame == v * PAGE
  }

  lemma MapKeepsSafe(mem: Tables, mem': Tables, roots: map<nat, nat>, space: nat, first: nat, done: nat, frame: nat,
                     flags: PageFlags)
    requires WriteXorExecute(mem, roots) && SafeFlags(flags)
    requires Mapped(mem, mem', roots, space, first, done, frame, flags)
    ensures WriteXorExecute(mem', roots)
  {
  }

  lemma IdentityFrame(address: nat, v: nat)
    requires address % PAGE == 0 && address / PAGE <= v < DIRECT_PAGES
    ensures PageAddress(address + (v - address / PAGE) * PAGE) == v * PAGE
  {
  }

  lemma MapKeepsIdentity(mem: Tables, mem': Tables, roots: map<nat, nat>, address: nat, done: nat, flags: PageFlags)
    requires Identity(mem, roots) && address % PAGE == 0 && address / PAGE + done <= DIRECT_PAGES
    requires Mapped(mem, mem', roots, KERNEL, address / PAGE, done, address, flags)
    ensures Identity(mem', roots)
  {
    forall v: nat | v < VPN_LIMIT && Look(mem', roots[KERNEL], v).Some?
      ensures v < DIRECT_PAGES && Look(mem', roots[KERNEL], v).value.frame == v * PAGE
    {
      if address / PAGE <= v < address / PAGE + done {
        IdentityFrame(address, v);
      }
    }
  }

  // ------------------------------------------------------ the direct map

  function OneEntry(e: Pte): (t: seq<Pte>)
    ensures |t| == ENTRIES
  {
    EmptyTable()[0 := e]
  }

  function DirectEntry(i: nat): Pte { Pte(i * HUGE_PAGE, true, true, DIRECT_BITS) }

  function DirectTable(): (t: seq<Pte>)
    ensures |t| == ENTRIES && forall i :: 0 <= i < ENTRIES ==> t[i] == DirectEntry(i)
  {
    seq(ENTRIES, i requires 0 <= i => DirectEntry(i))
  }

  function FirstOwners(p4: nat, p3: nat, p2: nat): map<nat, Owner> {
    map[p4 := Owner(KERNEL, 3, 0, 0), p3 := Owner(KERNEL, 2, 0, p4), p2 := Owner(KERNEL, 1, 0, p3)]
  }

  lemma DirectTablesGood(mem: Tables, p4: nat, p3: nat, p2: nat)
    requires p4 != p3 && p3 != p2 && p2 != p4
    requires p3 % PAGE == 0 && p2 % PAGE == 0 && p3 < PHYS_LIMIT && p2 < PHYS_LIMIT
    requires p4 in mem && p3 in mem && p2 in mem
    requires mem[p4] == OneEntry(TableEntry(p3)) && mem[p3] == OneEntry(TableEntry(p2)) && mem[p2] == DirectTable()
    ensures Inv(mem, FirstOwners(p4, p3, p2), map[KERNEL := p4])
    ensures Entry(mem, p4, 0) == TableEntry(p3)
  {
    var own := FirstOwners(p4, p3, p2);
    forall f, i: nat | f in own && i < ENTRIES
      ensures GoodEntry(own, map[KERNEL := p4], f, i, Entry(mem, f, i))
    {
    }
  }

  lemma DirectLook(mem: Tables, p4: nat, p3: nat, p2: nat, v: nat)
    requires p4 in mem && p3 in mem && p2 in mem && v < VPN_LIMIT
    requires mem[p4] == OneEntry(TableEntry(p3)) && mem[p3] == OneEntry(TableEntry(p2)) && mem[p2] == DirectTable()
    ensures Look(mem, p4, v) == if v < DIRECT_PAGES then Some(MappingOf(v * PAGE, DIRECT_BITS, FULL)) else None
  {
    TopPrefix(v);
    var i3, i2, i1 := Index(v, 3), Index(v, 2), Index(v, 1);
    assert v / 512 == Prefix(v, 1) && v / 512 / 512 == Prefix(v, 2);
    assert i3 == 0 && i2 == 0 <==> v < DIRECT_PAGES;
    if v < DIRECT_PAGES {
      assert i1 == v / 512;
      assert Entry(mem, p2, i1) == DirectEntry(i1);
      assert i1 * HUGE_PAGE + v % ENTRIES * PAGE == v * PAGE;
      assert Walk(mem, p2, v, 1, FULL) == Some(MappingOf(v * PAGE, DIRECT_BITS, FULL));
      assert Walk(mem, p3, v, 2, FULL) == Walk(mem, p2, v, 1, FULL);
    } else if i3 == 0 {
      assert Entry(mem, p3, i2) == ABSENT;
      assert Walk(mem, p3, v, 2, FULL) == None;
    }
  }

  /** The four map calls over the image, in order. */
  datatype Segment = Segment(start: nat, end: nat, flags: PageFlags)

  function SegmentOf(l: Layout, k: nat): Segment
    requires k < 4
  {
    if k == 0 then Segment(l.image, l.text, PageFlags(false, false, true, false, false))
    else if k == 1 then Segment(l.text, l.textEnd, NO_BITS)
    else if k == 2 then Segment(l.rodata, l.rodataEnd, PageFlags(false, false, true, false, false))
    else Segment(l.data, l.dataEnd, DIRECT_BITS)
  }

  /** The rights of a page after the first k calls. */
  function Stage(l: Layout, k: nat, v: nat): PageFlags
    requires k <= 4
  {
    if k == 0 then DIRECT_BITS
    else
      var g := SegmentOf(l, k - 1);
      if g.start / PAGE <= v < g.end / PAGE then g.flags else Stage(l, k - 1, v)
  }

  lemma StageFour(l: Layout, v: nat)
    requires Aligned(l)
    ensures Stage(l, 4, v) == WantedBits(l, v)
  {
    assert Stage(l, 1, v) == if l.image / PAGE <= v < l.text / PAGE then SegmentOf(l, 0).flags else DIRECT_BITS;
    assert Stage(l, 2, v) == if l.text / PAGE <= v < l.textEnd / PAGE then NO_BITS else Stage(l, 1, v);
    assert Stage(l, 3, v) == if l.rodata / PAGE <= v < l.rodataEnd / PAGE then SegmentOf(l, 2).flags
           else Stage(l, 2, v);
  }

  /** What the kernel's map shows after k calls. */
  ghost predicate ShowsImage(mem: Tables, roots: map<nat, nat>, l: Layout, k: nat)
    requires k <= 4
  {
    && KERNEL in roots
    && forall v: nat :: v < VPN_LIMIT ==>
         Look(mem, roots[KERNEL], v) == if v < DIRECT_PAGES then Some(MappingOf(v * PAGE, Stage(l, k, v), FULL))
           else None
  }

  lemma DirectShown(mem: Tables, p4: nat, p3: nat, p2: nat, l: Layout)
    requires p4 in mem && p3 in mem && p2 in mem
    requires mem[p4] == OneEntry(TableEntry(p3)) && mem[p3] == OneEntry(TableEntry(p2)) && mem[p2] == DirectTable()
    ensures ShowsImage(mem, map[KERNEL := p4], l, 0)
  {
    forall v: nat | v < VPN_LIMIT
      ensures Look(mem, p4, v) == if v < DIRECT_PAGES then Some(MappingOf(v * PAGE, DIRECT_BITS, FULL)) else None
    {
      DirectLook(mem, p4, p3, p2, v);
    }
  }

  /** Identity map, nothing both writable and executable, first branch closed
      to ring 3, and, while every table could be had, the intended rights. */
  ghost predicate Going(mem: Tables, roots: map<nat, nat>, l: Layout, k: nat, complete: bool)
    requires k <= 4
  {
    && roots.Keys == {KERNEL}
    && Identity(mem, roots)
    && WriteXorExecute(mem, roots)
    && Entry(mem, roots[KERNEL], 0).present && !Entry(mem, roots[KERNEL], 0).bits.user
    && (complete ==> ShowsImage(mem, roots, l, k))
  }

  lemma GoingStarts(mem: Tables, roots: map<nat, nat>, l: Layout)
    requires roots.Keys == {KERNEL} && ShowsImage(mem, roots, l, 0)
    requires Entry(mem, roots[KERNEL], 0).present && !Entry(mem, roots[KERNEL], 0).bits.user
    ensures Going(mem, roots, l, 0, true)
  {
    forall s, v: nat | s in roots && v < VPN_LIMIT
      ensures Safe(Look(mem, roots[s], v))
    {
      assert s in roots.Keys;
    }
  }

  lemma GoingOn(mem: Tables, mem': Tables, roots: map<nat, nat>, l: Layout, k: nat, complete: bool, done: nat)
    requires k < 4 && Aligned(l) && Going(mem, roots, l, k, complete)
    requires var g := SegmentOf(l, k);
             && done <= PagesFor(g.end - g.start) && BranchKept(mem, mem', roots)
             && Mapped(mem, mem', roots, KERNEL, g.start / PAGE, done, g.start, g.flags)
    ensures var g := SegmentOf(l, k);
            Going(mem', roots, l, k + 1, complete && done == PagesFor(g.end - g.start))
  {
    var g := SegmentOf(l, k);
    assert PagesFor(g.end - g.start) == g.end / PAGE - g.start / PAGE;
    MapKeepsIdentity(mem, mem', roots, g.start, done, g.flags);
    MapKeepsSafe(mem, mem', roots, KERNEL, g.start / PAGE, done, g.start, g.flags);
    if complete && done == PagesFor(g.end - g.start) {
      SegmentShown(mem, mem', roots, l, k);
    }
  }

  lemma SegmentShown(mem: Tables, mem': Tables, roots: map<nat, nat>, l: Layout, k: nat)
    requires k < 4 && Aligned(l) && ShowsImage(mem, roots, l, k)
    requires var g := SegmentOf(l, k);
             Mapped(mem, mem', roots, KERNEL, g.start / PAGE, PagesFor(g.end - g.start), g.start, g.flags)
    ensures ShowsImage(mem', roots, l, k + 1)
  {
    var g := SegmentOf(l, k);
    assert PagesFor(g.end - g.start) == g.end / PAGE - g.start / PAGE;
    forall v: nat | v < VPN_LIMIT
      ensures Look(mem', roots[KERNEL], v) == if v < DIRECT_PAGES
              then Some(MappingOf(v * PAGE, Stage(l, k + 1, v), FULL)) else None
    {
      if g.start / PAGE <= v < g.end / PAGE {
        IdentityFrame(g.start, v);
      }
    }
  }

  /** The three allocate_table calls; zero where one fails. */
  method AllocateThree(pt: PageTables) returns (p4: nat, p3: nat, p2: nat)
    requires pt.Ready() && pt.Accounted() && pt.mem == map[] && pt.own == map[] && pt.roots == map[]
    modifies pt, pt.allocator, pt.allocator.bitmap
    ensures p4 == 0 || p3 == 0 || p2 == 0 ==> pt.Exhausted()
    ensures p4 != 0 && p3 != 0 && p2 != 0 ==>
              && pt.Ready() && pt.Accounted() && pt.own == FirstOwners(p4, p3, p2) && pt.mem.Keys == {p4, p3, p2}
              && p4 != p3 && p3 != p2 && p2 != p4
              && p3 % PAGE == 0 && p2 % PAGE == 0 && p3 / PAGE < MANAGED_PAGES && p2 / PAGE < MANAGED_PAGES
  {
    hide FramesHeld, AllHeld;
    p3, p2 := 0, 0;
    ghost var bits := pt.allocator.bits;
    p4 := pt.AllocateTable();
    if p4 == 0 {
      return;
    }
    OneMoreTable(pt.own, pt.claimed, pt.allocator.bits, p4, Owner(KERNEL, 3, 0, 0));
    HeldMore(pt.outside, pt.own, pt.claimed, bits, p4, Owner(KERNEL, 3, 0, 0));
    pt.own := map[p4 := Owner(KERNEL, 3, 0, 0)];
    bits := pt.allocator.bits;
    p3 := pt.AllocateTable();
    if p3 == 0 {
      return;
    }
    OneMoreTable(pt.own, pt.claimed, pt.allocator.bits, p3, Owner(KERNEL, 2, 0, p4));
    HeldMore(pt.outside, pt.own, pt.claimed, bits, p3, Owner(KERNEL, 2, 0, p4));
    pt.own := pt.own[p3 := Owner(KERNEL, 2, 0, p4)];
    bits := pt.allocator.bits;
    p2 := pt.AllocateTable();
    if p2 == 0 {
      return;
    }
    OneMoreTable(pt.own, pt.claimed, pt.allocator.bits, p2, Owner(KERNEL, 1, 0, p3));
    HeldMore(pt.outside, pt.own, pt.claimed, bits, p2, Owner(KERNEL, 1, 0, p3));
    pt.own := pt.own[p2 := Owner(KERNEL, 1, 0, p3)];
  }

  /** The three tables and the loop over the directory. */
  method BuildDirectMap(pt: PageTables, ghost l: Layout) returns (ok: bool)
    requires pt.Ready() && pt.Accounted() && pt.mem == map[] && pt.own == map[] && pt.roots == map[]
    modifies pt, pt.allocator, pt.allocator.bitmap
    ensures !ok ==> pt.Exhausted()
    ensures ok ==> pt.Valid() && pt.roots.Keys == {KERNEL}
    ensures ok ==> Entry(pt.mem, pt.roots[KERNEL], 0).present && !Entry(pt.mem, pt.roots[KERNEL], 0).bits.user
    ensures ok ==> ShowsImage(pt.mem, pt.roots, l, 0) && AllHuge(pt.mem, pt.roots[KERNEL])
    ensures ok ==> OpenPages(pt.mem, pt.roots[KERNEL], 0, 0)
  {
    hide Inv, AllHeld, Nested, UserMay, Walk, ShowsImage, FramesHeld, DirectTable, AllHuge;
    var p4, p3, p2 := AllocateThree(pt);
    if p4 == 0 || p3 == 0 || p2 == 0 {
      return false;
    }
    var directory := FillDirectory();
    pt.roots := map[KERNEL := p4];
    pt.mem := pt.mem[p4 := OneEntry(TableEntry(p3))][p3 := OneEntry(TableEntry(p2))][p2 := directory];
    DirectTablesGood(pt.mem, p4, p3, p2);
    DirectShown(pt.mem, p4, p3, p2, l);
    DirectHuge(pt.mem, p4, p3, p2);
    DirectClosed(pt.mem, p4, p3, p2);
    NoneOpen(pt.mem, pt.own, pt.roots);
    return true;
  }

  /** The direct map consists of 2 MiB pages. */
  ghost predicate AllHuge(mem: Tables, root: nat) {
    forall v: nat :: v < DIRECT_PAGES ==> HugeAt(mem, root, v)
  }

  lemma DirectHuge(mem: Tables, p4: nat, p3: nat, p2: nat)
    requires p4 in mem && p3 in mem && p2 in mem
    requires mem[p4] == OneEntry(TableEntry(p3)) && mem[p3] == OneEntry(TableEntry(p2)) && mem[p2] == DirectTable()
    ensures AllHuge(mem, p4)
  {
    forall v: nat | v < DIRECT_PAGES
      ensures HugeAt(mem, p4, v)
    {
      assert Prefix(v, 1) == v / ENTRIES;
      assert Prefix(v, 2) == Prefix(v, 1) / ENTRIES;
      assert Index(v, 2) == 0 && Index(v, 3) == 0;
      assert TableAt(mem, p4, v, 2) == Some(p3);
      assert TableAt(mem, p4, v, 1) == Some(p2);
      assert Entry(mem, p2, Index(v, 1)) == DirectEntry(Index(v, 1));
    }
  }

  lemma DirectClosed(mem: Tables, p4: nat, p3: nat, p2: nat)
    requires mem.Keys == {p4, p3, p2}
    requires mem[p4] == OneEntry(TableEntry(p3)) && mem[p3] == OneEntry(TableEntry(p2)) && mem[p2] == DirectTable()
    ensures forall f, i: nat :: !IsOpen(Entry(mem, f, i))
  {
    forall f, i: nat
      ensures !IsOpen(Entry(mem, f, i))
    {
      if f in mem.Keys {
        assert f == p4 || f == p3 || f == p2;
      }
    }
  }

  /** Ring 3 may use the pages from one number up to another, and no others. */
  ghost predicate OpenPages(mem: Tables, root: nat, from: nat, end: nat) {
    forall v: nat :: v < VPN_LIMIT ==> (UserMay(mem, root, v) <==> from <= v < end)
  }

  /** On the direct map: a single page mapped for ring 3 stays closed to it. Two
      neighbours mapped in one call are open, and with them the 510 pages around
      them that nobody asked for. */
  method SplitExample(pt: PageTables, ghost l: Layout) returns (ok: bool)
    requires pt.Ready() && pt.Accounted() && pt.mem == map[] && pt.own == map[] && pt.roots == map[]
    modifies pt, pt.allocator, pt.allocator.bitmap
    ensures ok ==> KERNEL in pt.roots && OpenPages(pt.mem, pt.roots[KERNEL], 0x400, 0x600)
    ensures !ok ==> pt.Exhausted()
  {
    hide Inv, AllHeld, Nested, ShowsImage, RangeEffect, Mapped, AllHuge, OpenPages, SmallRights, Rights, Touched, Look,
         UserMay;
    ok := BuildDirectMap(pt, l);
    if !ok {
      return;
    }
    var flags := PageFlags(true, true, true, false, false);
    ghost var mem0, own0, bits0 := pt.mem, pt.own, pt.allocator.bits;
    ghost var done: nat;
    ok, done := pt.Map(KERNEL, 0x20_0000, 0x20_0000, PAGE, flags);
    if !ok {
      return;
    }
    OnePageOpensNone(mem0, own0, bits0, pt.mem, pt.allocator.bits, pt.roots);
    ghost var mem1, own1 := pt.mem, pt.own;
    ok, done := pt.Map(KERNEL, 0x40_0000, 0x40_0000, 2 * PAGE, flags);
    if !ok {
      return;
    }
    TwoPagesOpenAll(mem1, own1, pt.mem, pt.roots);
  }

  lemma OnePageOpensNone(mem: Tables, own: map<nat, Owner>, bits: seq<bool>, mem': Tables, bits': seq<bool>,
                         roots: map<nat, nat>)
    requires Inv(mem, own, roots) && Nested(mem, roots) && KERNEL in roots && AllHuge(mem, roots[KERNEL])
    requires OpenPages(mem, roots[KERNEL], 0, 0) && Rights(mem, mem', roots, KERNEL, 0x200, 1, true, Kept)
    requires RangeEffect(mem, bits, mem', bits', roots, KERNEL, 0x200, 1, true, Kept)
    ensures OpenPages(mem', roots[KERNEL], 0, 0)
    ensures forall v: nat :: 0x400 <= v < 0x600 ==> HugeAt(mem', roots[KERNEL], v)
  {
    hide Inv, AllHeld, Nested, Rights, RangeEffect, UserMay, HugeAt;
    forall v: nat | v < VPN_LIMIT
      ensures !UserMay(mem', roots[KERNEL], v)
      ensures 0x400 <= v < 0x600 ==> HugeAt(mem', roots[KERNEL], v)
    {
      OpenedIff(mem, own, mem', roots, KERNEL, 0x200, 1, v);
      HugeBefore(mem, bits, mem', bits', roots, KERNEL, 0x200, 1, true, v);
      if Touched(0x200, 1, v) {
        assert Region(0x200) == 1;
        assert v < DIRECT_PAGES;
      }
    }
  }

  lemma TwoPagesOpenAll(mem: Tables, own: map<nat, Owner>, mem': Tables, roots: map<nat, nat>)
    requires Inv(mem, own, roots) && Nested(mem, roots) && KERNEL in roots && OpenPages(mem, roots[KERNEL], 0, 0)
    requires forall v: nat :: 0x400 <= v < 0x600 ==> HugeAt(mem, roots[KERNEL], v)
    requires Rights(mem, mem', roots, KERNEL, 0x400, 2, true, Kept)
    ensures OpenPages(mem', roots[KERNEL], 0x400, 0x600)
  {
    hide Inv, AllHeld, Nested, Rights, UserMay, HugeAt;
    assert Region(0x400) == 2 && Region(0x400 + 1) == 2;
    forall v: nat | v < VPN_LIMIT
      ensures UserMay(mem', roots[KERNEL], v) <==> 0x400 <= v < 0x600
    {
      OpenedIff(mem, own, mem', roots, KERNEL, 0x400, 2, v);
      assert Region(v) == 2 <==> 0x400 <= v < 0x600;
      assert 0x400 <= v < 0x600 ==> Touched(0x400, 2, v) && Twice(0x400, 2, v);
    }
  }

  method FillDirectory() returns (directory: seq<Pte>)
    ensures directory == DirectTable()
  {
    directory := EmptyTable();
    var i := 0;
    while i < ENTRIES
      invariant 0 <= i <= ENTRIES && |directory| == ENTRIES
      invariant forall j :: 0 <= j < i ==> directory[j] == DirectEntry(j)
    {
      var frame := i * HUGE_PAGE;
      if frame >= DIRECT_LIMIT {
        break;
      }
      directory := directory[i := Pte(frame, true, true, DIRECT_BITS)];
      i := i + 1;
    }
  }

  /** One of the map calls of paging_init; its result is not looked at. */
  method MapSegment(pt: PageTables, l: Layout, k: nat, ghost complete: bool) returns (ghost complete': bool)
    requires k < 4 && Aligned(l) && pt.Valid() && Going(pt.mem, pt.roots, l, k, complete)
    requires !complete ==> pt.Exhausted()
    modifies pt, pt.allocator, pt.allocator.bitmap
    ensures pt.Valid() && Going(pt.mem, pt.roots, l, k + 1, complete')
    ensures !complete' ==> pt.Exhausted()
  {
    hide Inv, AllHeld, Walk, Mapped;
    var g := SegmentOf(l, k);
    var ok, done := pt.Map(KERNEL, g.start, g.start, g.end - g.start, g.flags);
    GoingOn(old(pt.mem), pt.mem, pt.roots, l, k, complete, done);
    complete' := complete && done == PagesFor(g.end - g.start);
    if !complete {
      StillExhausted(old(pt.allocator.bits), pt.allocator.bits);
    }
  }

  /** What is shown once the stack guards are holes. */
  ghost predicate ShowsKernel(mem: Tables, roots: map<nat, nat>, l: Layout, guards: seq<nat>) {
    && KERNEL in roots
    && forall v: nat :: v < VPN_LIMIT ==>
         Look(mem, roots[KERNEL], v) ==
         if v < DIRECT_PAGES && !IsGuard(guards, v) then Some(MappingOf(v * PAGE, WantedBits(l, v), FULL)) else None
  }

  /** Every page of the first gigabyte but the guards leads to the frame of its own
      number, with the access it ought to have; nothing else is mapped. */
  ghost predicate KernelAccess(mem: Tables, roots: map<nat, nat>, l: Layout, guards: seq<nat>) {
    && KERNEL in roots
    && forall v: nat :: v < VPN_LIMIT ==>
         var m := Look(mem, roots[KERNEL], v);
         if v < DIRECT_PAGES && !IsGuard(guards, v)
         then m.Some? && m.value.frame == v * PAGE && m.value.access == WantedAccess(l, v)
         else m == None
  }

  lemma AccessIsWanted(mem: Tables, roots: map<nat, nat>, l: Layout, guards: seq<nat>)
    requires Aligned(l) && ShowsKernel(mem, roots, l, guards)
    ensures KernelAccess(mem, roots, l, guards)
  {
    hide Look, IsGuard;
    forall v: nat | v < VPN_LIMIT && v < DIRECT_PAGES && !IsGuard(guards, v)
      ensures Look(mem, roots[KERNEL], v).Some? && Look(mem, roots[KERNEL], v).value.frame == v * PAGE
      ensures Look(mem, roots[KERNEL], v).value.access == WantedAccess(l, v)
    {
      assert Look(mem, roots[KERNEL], v) == Some(MappingOf(v * PAGE, WantedBits(l, v), FULL));
    }
  }

  ghost predicate IsGuard(guards: seq<nat>, v: nat) {
    exists k :: 0 <= k < |guards| && guards[k] / PAGE == v
  }

  /** paging_init up to the activation, and unmap_stack_guards. False stands
      for the panic. `complete` tells whether every table could be had. */
  method PagingInit(pt: PageTables, l: Layout, guards: seq<nat>) returns (ok: bool, ghost complete: bool)
    requires pt.Ready() && pt.Accounted() && pt.mem == map[] && pt.own == map[] && pt.roots == map[]
    requires Aligned(l) && forall k :: 0 <= k < |guards| ==> guards[k] < DIRECT_LIMIT
    modifies pt, pt.allocator, pt.allocator.bitmap
    ensures !ok || !complete ==> pt.Exhausted()
    ensures ok ==> pt.Valid() && pt.roots.Keys == {KERNEL}
    ensures ok ==> Identity(pt.mem, pt.roots) && WriteXorExecute(pt.mem, pt.roots)
    ensures ok ==> Entry(pt.mem, pt.roots[KERNEL], 0).present && !Entry(pt.mem, pt.roots[KERNEL], 0).bits.user
    ensures ok && complete ==> ShowsKernel(pt.mem, pt.roots, l, guards) && KernelAccess(pt.mem, pt.roots, l, guards)
  {
    hide Inv, AllHeld, Walk, Mapped, Unmapped;
    complete := false;
    ok := BuildDirectMap(pt, l);
    if !ok {
      return;
    }
    complete := MapImage(pt, l);
    complete := UnmapGuards(pt, l, guards, complete);
    if complete {
      AccessIsWanted(pt.mem, pt.roots, l, guards);
    }
  }

  method MapImage(pt: PageTables, l: Layout) returns (ghost complete: bool)
    requires pt.Valid() && pt.roots.Keys == {KERNEL} && Aligned(l)
    requires ShowsImage(pt.mem, pt.roots, l, 0)
    requires Entry(pt.mem, pt.roots[KERNEL], 0).present && !Entry(pt.mem, pt.roots[KERNEL], 0).bits.user
    modifies pt, pt.allocator, pt.allocator.bitmap
    ensures pt.Valid() && Going(pt.mem, pt.roots, l, 4, complete)
    ensures !complete ==> pt.Exhausted()
  {
    hide Inv, AllHeld, Walk, Going, ShowsImage;
    GoingStarts(pt.mem, pt.roots, l);
    complete := true;
    ghost var c := MapSegment(pt, l, 0, complete);
    c := MapSegment(pt, l, 1, c);
    c := MapSegment(pt, l, 2, c);
    c := MapSegment(pt, l, 3, c);
    complete := c;
  }

  lemma StillExhausted(bits: seq<bool>, bits': seq<bool>)
    requires Grows(bits, bits') && NoRun(bits, 1)
    ensures NoRun(bits', 1)
  {
    forall f: nat
      ensures !FreeRun(bits', f, 1)
    {
      assert !FreeRun(bits, f, 1);
    }
  }

  lemma GuardGone(mem: Tables, mem': Tables, roots: map<nat, nat>, l: Layout, guards: seq<nat>, done: nat)
    requires roots.Keys == {KERNEL} && |guards| > 0
    requires Unmapped(mem, mem', roots, KERNEL, guards[|guards| - 1] / PAGE, done) && done <= 1
    ensures Identity(mem, roots) ==> Identity(mem', roots)
    ensures WriteXorExecute(mem, roots) ==> WriteXorExecute(mem', roots)
    ensures done == 1 && ShowsKernel(mem, roots, l, guards[..|guards| - 1]) ==> ShowsKernel(mem', roots, l, guards)
  {
    var n := |guards| - 1;
    if done == 1 && ShowsKernel(mem, roots, l, guards[..n]) {
      forall v: nat | v < VPN_LIMIT
        ensures Look(mem', roots[KERNEL], v) ==
                if v < DIRECT_PAGES && !IsGuard(guards, v) then Some(MappingOf(v * PAGE, WantedBits(l, v), FULL))
                   else None
      {
        if IsGuard(guards[..n], v) {
          var k :| 0 <= k < n && guards[..n][k] / PAGE == v;
          assert guards[k] / PAGE == v;
        }
        if IsGuard(guards, v) && v != guards[n] / PAGE {
          var k :| 0 <= k < |guards| && guards[k] / PAGE == v;
          assert guards[..n][k] / PAGE == v;
        }
        assert v == guards[n] / PAGE ==> IsGuard(guards, v);
      }
    }
  }

  method UnmapGuards(pt: PageTables, l: Layout, guards: seq<nat>, ghost started: bool) returns (ghost complete: bool)
    requires pt.Valid() && Aligned(l) && Going(pt.mem, pt.roots, l, 4, started)
    requires forall k :: 0 <= k < |guards| ==> guards[k] < DIRECT_LIMIT
    requires !started ==> pt.Exhausted()
    modifies pt, pt.allocator, pt.allocator.bitmap
    ensures pt.Valid() && pt.roots == old(pt.roots)
    ensures !complete ==> pt.Exhausted()
    ensures Identity(pt.mem, pt.roots) && WriteXorExecute(pt.mem, pt.roots)
    ensures Entry(pt.mem, pt.roots[KERNEL], 0) == old(Entry(pt.mem, pt.roots[KERNEL], 0))
    ensures complete ==> ShowsKernel(pt.mem, pt.roots, l, guards)
  {
    hide Inv, AllHeld, Walk, Identity, WriteXorExecute, Unmapped;
    complete := started;
    if complete {
      NoGuards(pt.mem, pt.roots, l);
    }
    var k := 0;
    while k < |guards|
      invariant 0 <= k <= |guards|
      invariant pt.Valid() && pt.roots == old(pt.roots)
      invariant !complete ==> pt.Exhausted()
      invariant Identity(pt.mem, pt.roots) && WriteXorExecute(pt.mem, pt.roots)
      invariant Entry(pt.mem, pt.roots[KERNEL], 0) == old(Entry(pt.mem, pt.roots[KERNEL], 0))
      invariant complete ==> ShowsKernel(pt.mem, pt.roots, l, guards[..k])
    {
      ghost var mem1, bits1 := pt.mem, pt.allocator.bits;
      var ok, done := pt.Unmap(KERNEL, guards[k], PAGE);
      assert guards[..k + 1][..k] == guards[..k];
      GuardGone(mem1, pt.mem, pt.roots, l, guards[..k + 1], done);
      if !complete {
        StillExhausted(bits1, pt.allocator.bits);
      }
      complete := complete && ok;
      k := k + 1;
    }
    assert guards[..k] == guards;
  }

  lemma NoGuards(mem: Tables, roots: map<nat, nat>, l: Layout)
    requires Aligned(l) && ShowsImage(mem, roots, l, 4)
    ensures ShowsKernel(mem, roots, l, [])
  {
    forall v: nat | v < VPN_LIMIT
      ensures !IsGuard([], v) && Stage(l, 4, v) == WantedBits(l, v)
    {
      StageFour(l, v);
    }
  }
}
