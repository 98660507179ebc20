/**
 map_device and unmap_device of kernel/mm/vmalloc.cpp: a window of reserved
 virtual space in front of a device, over the page tables and the range list.
 */
module Devices {
  import opened Basics
  import opened PageWalk
  import opened PageOpen
  import opened PageTables
  import V = Vmalloc

  const DEVICE_FLAGS := PageFlags(true, false, true, false, true)

  /** The page number of the first page of the area. */
  const FIRST: nat := 0x4_0000

  /** The page boundary at or below an address. */
  function PageOf(address: nat): nat {
    address - address % PAGE
  }

  /** What map_device maps for a device at this address. */
  function MapSpan(address: nat, length: nat): nat {
    V.RoundUp(length + address % PAGE)
  }

  /** What unmap_device unmaps: it rounds the length alone. */
  function UnmapSpan(length: nat): nat {
    V.RoundUp(length)
  }

  lemma SpanFits(length: nat)
    requires length <= V.U64 - 2 * PAGE
    ensures var span := V.RoundUp(length);
            && length <= span < length + PAGE && span % PAGE == 0 && span < V.U64 - PAGE
            && V.Wanted(span) / PAGE == span / PAGE + 1 && PagesFor(span) == span / PAGE
  {
    V.RoundUpExact(length);
    V.RoundUpMultiple(length);
    var span := V.RoundUp(length);
    V.RoundUpExact(span);
    var k := span / PAGE;
    assert span == PAGE * k;
    assert V.RoundUp(span) == span by {
      var j := V.RoundUp(span) / PAGE;
      assert V.RoundUp(span) == PAGE * j && PAGE * k <= PAGE * j < PAGE * (k + 1);
    }
  }

  /** The reservation lies inside the area, so the window is kernel space. */
  lemma WindowInArea(rs: seq<V.Range>, tag: seq<V.Tag>, live: map<nat, nat>, a: nat)
    requires V.Inv(rs, tag, live) && a in live
    ensures a + live[a] <= V.AREA
  {
    assert V.Tagged(tag, a, live[a], V.Held(a));
  }

  /** The window is reserved, holds n pages and a guard page, and leads to the frames. */
  ghost predicate WindowMade(live: map<nat, nat>, live': map<nat, nat>, mem: Tables, mem': Tables, roots: map<nat, nat>,
                             a: nat, n: nat, frame: nat) {
    a !in live && live' == live[a := n + 1] && Mapped(mem, mem', roots, KERNEL, FIRST + a, n, frame, DEVICE_FLAGS)
  }

  /** The window could not be made: the area is as before, and there was no room,
      or the frames ran out after some pages, which stay mapped in free space. */
  ghost predicate WindowFailed(rs: seq<V.Range>, mem: Tables, mem': Tables, roots: map<nat, nat>, n: nat, done: nat,
                               frame: nat) {
    var i := V.FirstLarge(rs, n + 1);
    if i == |rs| then mem' == mem
    else done < n && Mapped(mem, mem', roots, KERNEL, FIRST + rs[i].first, done, frame, DEVICE_FLAGS)
  }

  method MapWindow(tables: PageTables, area: V.VmallocArea, aligned: nat, span: nat, ghost n: nat)
    returns (window: nat, ghost a: nat, ghost done: nat)
    requires tables.Valid() && area.Valid() && KERNEL in tables.roots
    requires V.Wanted(span) / PAGE == n + 1 && PagesFor(span) == n
    modifies tables, tables.allocator, tables.allocator.bitmap, area
    ensures tables.Valid() && area.Valid() && tables.roots == old(tables.roots)
    ensures window == 0 ==> area.live == old(area.live) && area.tag == old(area.tag)
    ensures window == 0 ==> WindowFailed(old(area.ranges), old(tables.mem), tables.mem, tables.roots, n, done, aligned)
    ensures window == 0 ==> V.FirstLarge(old(area.ranges), n + 1) == |old(area.ranges)| || tables.Exhausted()
    ensures window != 0 ==> window == V.BASE + a * PAGE
    ensures window != 0 ==> WindowMade(old(area.live), area.live, old(tables.mem), tables.mem, tables.roots, a, n,
                                       aligned)
    ensures window != 0 ==> Reserved(old(area.ranges), old(area.tag), area.ranges, area.tag, a, n + 1)
    ensures window != 0 ==> Windowed(old(tables.mem), tables.mem, tables.roots, a, n, aligned)
  {
    hide V.Inv, V.Give, V.Released, V.Retag, Inv, AllHeld, Nested, Mapped, RangeEffect, RightsAfter, V.Tagged, V.Cut,
         V.Leaks,
         Windowed, Reaches;
    window := area.Reserve(span);
    if window == 0 {
      return 0, 0, 0;
    }
    ghost var i := V.FirstLarge(old(area.ranges), n + 1);
    a := old(area.ranges)[i].first;
    WindowInArea(area.ranges, area.tag, area.live, a);
    assert window / PAGE == FIRST + a && (window - V.BASE) / PAGE == a;
    var ok;
    ok, done := tables.Map(KERNEL, window, aligned, span, DEVICE_FLAGS);
    if !ok {
      V.ReleaseUndoesReserve(old(area.ranges), old(area.tag), old(area.live), i, n + 1);
      area.Release(window, span);
      return 0, 0, done;
    }
    MadeWindowed(old(tables.mem), tables.mem, tables.roots, a, n, aligned);
  }

  /** The pages of the window lie in the kernel's part, are closed to ring 3, and
      lead to the device if that ends below 2^52. */
  ghost predicate Windowed(mem: Tables, mem': Tables, roots: map<nat, nat>, a: nat, n: nat, frame: nat) {
    && KERNEL in roots && FIRST + a + n <= VPN_LIMIT
    && SmallRights(mem, mem', roots, KERNEL, FIRST + a, n, false)
    && Reaches(mem', roots, KERNEL, FIRST + a, n, frame, DEVICE_FLAGS)
  }

  lemma MadeWindowed(mem: Tables, mem': Tables, roots: map<nat, nat>, a: nat, n: nat, frame: nat)
    requires KERNEL in roots && FIRST + a + n <= VPN_LIMIT
    requires RightsAfter(mem, mem', roots, KERNEL, FIRST + a, n, false, Kept)
    requires Reaches(mem', roots, KERNEL, FIRST + a, n, frame, DEVICE_FLAGS)
    ensures Windowed(mem, mem', roots, a, n, frame)
  {
    hide Reaches, SmallRights, Rights, Shuts;
  }

  /** The window is the device, byte for byte: it can be read and written, not
      executed, is not cached, and ring 3 cannot use it. */
  ghost predicate ShowsDevice(mem: Tables, root: nat, window: nat, address: nat, length: nat) {
    forall x: nat :: window <= x < window + length ==> ShowsByte(mem, root, window, address, x)
  }

  ghost predicate ShowsByte(mem: Tables, root: nat, window: nat, address: nat, x: nat) {
    var m := Look(mem, root, x / PAGE);
    && m.Some? && m.value.frame + x % PAGE == address + (x - window)
    && m.value.access == Access(true, false) && m.value.noCache && !m.value.global
    && !UserMay(mem, root, x / PAGE)
  }

  lemma EndsBelow(address: nat, length: nat, n: nat)
    requires length + address % PAGE <= n * PAGE < length + address % PAGE + PAGE && address + length <= PHYS_LIMIT
    ensures PageOf(address) + n * PAGE <= PHYS_LIMIT
  {
    var q, m := address / PAGE, PHYS_LIMIT / PAGE;
    assert PageOf(address) == PAGE * q && PHYS_LIMIT == PAGE * m;
    assert PAGE * (q + n) < PAGE * (m + 1);
  }

  lemma WindowShows(mem: Tables, mem': Tables, roots: map<nat, nat>, a: nat, n: nat, address: nat, length: nat)
    requires Windowed(mem, mem', roots, a, n, PageOf(address))
    requires n == MapSpan(address, length) / PAGE && length + address % PAGE <= V.U64 - 2 * PAGE
    requires address + length <= PHYS_LIMIT
    ensures ShowsDevice(mem', roots[KERNEL], V.BASE + a * PAGE + address % PAGE, address, length)
  {
    hide Look, UserMay, V.RoundUp;
    SpanFits(length + address % PAGE);
    EndsBelow(address, length, n);
    var window := V.BASE + a * PAGE + address % PAGE;
    forall x: nat | window <= x < window + length
      ensures ShowsByte(mem', roots[KERNEL], window, address, x)
    {
      var i := address % PAGE + (x - window);
      assert x == PAGE * (FIRST + a + i / PAGE) + i % PAGE;
      assert x / PAGE == FIRST + a + i / PAGE && x % PAGE == i % PAGE;
      assert Sees(KERNEL, KERNEL, x / PAGE);
    }
  }

  /** The n pages at a were cut from the free range that is first to have room. */
  ghost predicate Reserved(rs: seq<V.Range>, tag: seq<V.Tag>, rs': seq<V.Range>, tag': seq<V.Tag>, a: nat, n: nat) {
    var i := V.FirstLarge(rs, n);
    i < |rs| && a == rs[i].first && rs' == V.Cut(rs, i, n) && tag' == V.Retag(tag, a, n, V.Held(a))
      && V.Tagged(tag, a, n, V.Free)
  }

  method MapDevice(tables: PageTables, area: V.VmallocArea, address: nat, length: nat)
    returns (window: nat, ghost a: nat, ghost done: nat)
    requires tables.Valid() && area.Valid() && KERNEL in tables.roots
    requires length + address % PAGE <= V.U64 - 2 * PAGE
    modifies tables, tables.allocator, tables.allocator.bitmap, area
    ensures tables.Valid() && area.Valid() && tables.roots == old(tables.roots)
    ensures var n := MapSpan(address, length) / PAGE;
            && (window == 0 ==>
                  && area.live == old(area.live) && area.tag == old(area.tag)
                  && WindowFailed(old(area.ranges), old(tables.mem), tables.mem, tables.roots, n, done, PageOf(address))
                  && (V.FirstLarge(old(area.ranges), n + 1) == |old(area.ranges)| || tables.Exhausted()))
            && (window != 0 ==>
                  && window == V.BASE + a * PAGE + address % PAGE
                  && WindowMade(old(area.live), area.live, old(tables.mem), tables.mem, tables.roots, a, n,
                                PageOf(address))
                  && Reserved(old(area.ranges), old(area.tag), area.ranges, area.tag, a, n + 1))
    // A device that ends below 2^52 is what the window shows, byte for byte.
    ensures window != 0 && address + length <= PHYS_LIMIT ==>
              ShowsDevice(tables.mem, tables.roots[KERNEL], window, address, length)
  {
    hide V.Inv, Inv, AllHeld, WindowMade, WindowFailed, V.Tagged, V.FirstLarge, Reserved, Windowed, ShowsDevice;
    var offset := address % PAGE;
    var aligned := address - offset;
    var span := V.RoundUp(length + offset);
    SpanFits(length + offset);
    window, a, done := MapWindow(tables, area, aligned, span, span / PAGE);
    if window != 0 {
      if address + length <= PHYS_LIMIT {
        WindowShows(old(tables.mem), tables.mem, tables.roots, a, span / PAGE, address, length);
      }
      window := window + offset;
    }
  }

  /** unmap_device, which does not look at what unmap returns: it can only fail
      at a page that was not mapped. The range is given back in any case. */
  method UnmapDevice(tables: PageTables, area: V.VmallocArea, window: nat, length: nat)
    returns (ok: bool, ghost done: nat)
    requires tables.Valid() && area.Valid() && KERNEL in tables.roots && length <= V.U64 - 2 * PAGE
    requires window != 0 ==>
               && window >= V.BASE && (window - V.BASE) / PAGE in area.live
               && UnmapSpan(length) / PAGE < area.live[(window - V.BASE) / PAGE]
    modifies tables, tables.allocator, tables.allocator.bitmap, area
    ensures tables.Valid() && area.Valid() && tables.roots == old(tables.roots)
    ensures window == 0 ==> area.live == old(area.live) && tables.mem == old(tables.mem)
    ensures window != 0 ==>
              var a, k := (window - V.BASE) / PAGE, UnmapSpan(length) / PAGE;
              && area.live == old(area.live) - {a} && area.ranges == V.Give(old(area.ranges), a, k + 1)
              && area.tag == V.Released(old(area.ranges), old(area.tag), old(area.live), a, k + 1)
              && Unmapped(old(tables.mem), tables.mem, tables.roots, KERNEL, FIRST + a, done)
              && (ok ==> done == k)
              && (!ok ==>
                  done < k && tables.Exhausted() && Look(old(tables.mem), tables.roots[KERNEL], FIRST + a + done) ==
                    None)
  {
    hide V.Inv, V.Give, V.Released, V.Retag, Inv, AllHeld, Nested, Unmapped, RangeEffect, RightsAfter, V.Tagged, HugeAt,
         Look;
    if window == 0 {
      return true, 0;
    }
    var address := window / PAGE * PAGE;
    var span := V.RoundUp(length);
    SpanFits(length);
    ghost var a := (window - V.BASE) / PAGE;
    assert address / PAGE == FIRST + a && address == V.BASE + a * PAGE;
    WindowInArea(area.ranges, area.tag, area.live, a);
    ok, done := tables.Unmap(KERNEL, address, span);
    if !ok {
      NoHuge(old(tables.mem), old(tables.own), tables.roots, KERNEL, FIRST + a + done);
    }
    area.Release(address, span);
  }

  // --------------------------------------------------------- the round trip

  /** The device starts on a page, or its last page has room for the offset. */
  predicate Fitting(address: nat, length: nat) {
    address % PAGE == 0 || (length % PAGE != 0 && length % PAGE + address % PAGE <= PAGE)
  }

  /** Both calls round to the same span if and only if the device starts on a
      page, or its last page has room for the offset. */
  lemma SpansAgree(address: nat, length: nat)
    requires length + address % PAGE <= V.U64 - 2 * PAGE
    ensures MapSpan(address, length) == UnmapSpan(length) <==> Fitting(address, length)
  {
    var offset := address % PAGE;
    SpanFits(length);
    SpanFits(length + offset);
    var q, r := length / PAGE, length % PAGE;
    assert length == PAGE * q + r;
    PageMultiple(V.RoundUp(length), q, r);
    if r + offset <= PAGE {
      PageMultiple(V.RoundUp(length + offset), q, r + offset);
    } else {
      PageMultiple(V.RoundUp(length + offset), q + 1, r + offset - PAGE);
    }
  }

  /** One page of registers in the middle of a page: two pages are mapped and
      one is taken down. */
  lemma SpansDifferExample()
    ensures MapSpan(0xFEB0_0800, PAGE) == 2 * PAGE && UnmapSpan(PAGE) == PAGE
  {
    assert 0xFEB0_0800 % PAGE == 0x800;
    assert (PAGE + 0x800 + PAGE - 1) % V.U64 == 0x27FF;
  }

  lemma PageMultiple(s: nat, q: nat, r: nat)
    requires s % PAGE == 0 && PAGE * q + r <= s < PAGE * q + r + PAGE && r <= PAGE
    ensures s == if r == 0 then PAGE * q else PAGE * (q + 1)
  {
    var k := s / PAGE;
    assert s == PAGE * k;
  }

  /** Pages of the area that are free are not mapped. */
  ghost predicate Clean(mem: Tables, root: nat, tag: seq<V.Tag>) {
    forall p: nat :: p < |tag| && tag[p] == V.Free ==> Look(mem, root, FIRST + p) == None
  }

  /** Nothing of the n pages at a is mapped. */
  ghost predicate Gone(mem: Tables, root: nat, a: nat, n: nat) {
    forall v: nat :: FIRST + a <= v < FIRST + a + n ==> Look(mem, root, v) == None
  }

  /** No page has been lost to both lists. */
  ghost predicate NoneLost(tag: seq<V.Tag>, tag': seq<V.Tag>) {
    forall p :: 0 <= p < |tag| && p < |tag'| && tag'[p] == V.Lost ==> tag[p] == V.Lost
  }

  /** map_device and then unmap_device with the same length. The unmap cannot
      fail, even with no frame left. Nothing of the window stays mapped, no page
      is lost, and the tables and the area are as if nothing had happened, if and
      only if the two roundings agree. */
  method RoundTrip(tables: PageTables, area: V.VmallocArea, address: nat, length: nat)
    returns (window: nat, ok: bool, ghost a: nat)
    requires tables.Valid() && area.Valid() && KERNEL in tables.roots
    requires length + address % PAGE <= V.U64 - 2 * PAGE
    requires Clean(tables.mem, tables.roots[KERNEL], area.tag)
    modifies tables, tables.allocator, tables.allocator.bitmap, area
    ensures tables.Valid() && area.Valid() && tables.roots == old(tables.roots) && area.live == old(area.live)
    ensures window == 0 ==>
              || V.FirstLarge(old(area.ranges), MapSpan(address, length) / PAGE + 1) == |old(area.ranges)|
              || tables.Exhausted()
    ensures window != 0 ==> ok
    ensures window != 0 ==>
              (Gone(tables.mem, tables.roots[KERNEL], a, MapSpan(address, length) / PAGE + 1) <==>
               Fitting(address, length))
    ensures window != 0 ==> (NoneLost(old(area.tag), area.tag) <==> Fitting(address, length))
    ensures window != 0 ==> (SameView(old(tables.mem), tables.mem, tables.roots) && area.tag == old(area.tag) <==>
                             Fitting(address, length))
  {
    hide V.Inv, Inv, AllHeld, WindowMade, WindowFailed, Reserved, Clean, Gone, NoneLost, Look, Unmapped, V.Released,
         V.Give;
    ghost var done0, done;
    window, a, done0 := MapDevice(tables, area, address, length);
    if window == 0 {
      return 0, true, 0;
    }
    ghost var mem1, ranges1, tag1, live1 := tables.mem, area.ranges, area.tag, area.live;
    ghost var n, k := MapSpan(address, length) / PAGE, UnmapSpan(length) / PAGE;
    SpanOrder(address, length);
    WindowHeld(old(area.live), live1, old(tables.mem), mem1, tables.roots, a, n, PageOf(address));
    WindowInArea(ranges1, tag1, live1, a);
    assert (window - V.BASE) / PAGE == a;
    ok, done := UnmapDevice(tables, area, window, length);
    WindowMapped(old(area.live), live1, old(tables.mem), mem1, tables.roots, a, n, PageOf(address));
    assert ok;
    SpansAgree(address, length);
    WholeSpans(address, length);
    RoundTripTables(old(area.live), live1, old(area.tag), old(area.ranges), ranges1, tag1, old(tables.mem),
                    old(tables.own), mem1,
                    tables.mem, tables.roots, a, n, k, PageOf(address));
    RoundTripArea(old(area.ranges), old(area.tag), old(area.live), ranges1, tag1, live1, a, n, k);
  }

  lemma WholeSpans(address: nat, length: nat)
    ensures MapSpan(address, length) / PAGE == UnmapSpan(length) / PAGE <==>
            MapSpan(address, length) == UnmapSpan(length)
  {
    var m, u := MapSpan(address, length), UnmapSpan(length);
    assert m == m / PAGE * PAGE && u == u / PAGE * PAGE;
  }

  lemma SpanOrder(address: nat, length: nat)
    requires length + address % PAGE <= V.U64 - 2 * PAGE
    ensures UnmapSpan(length) / PAGE <= MapSpan(address, length) / PAGE
  {
    V.RoundUpExact(length);
    V.RoundUpExact(length + address % PAGE);
    var m, u := MapSpan(address, length), UnmapSpan(length);
    assert m == PAGE * (m / PAGE) && u == PAGE * (u / PAGE) && u < length + PAGE <= m + PAGE;
  }

  lemma WindowHeld(live: map<nat, nat>, live': map<nat, nat>, mem: Tables, mem': Tables, roots: map<nat, nat>, a: nat,
                   n: nat, frame: nat)
    requires WindowMade(live, live', mem, mem', roots, a, n, frame)
    ensures a in live' && live'[a] == n + 1 && live' - {a} == live
  {
  }

  lemma WindowMapped(live: map<nat, nat>, live': map<nat, nat>, mem: Tables, mem': Tables, roots: map<nat, nat>, a: nat,
                     n: nat, frame: nat)
    requires WindowMade(live, live', mem, mem', roots, a, n, frame) && KERNEL in roots && FIRST + a + n <= VPN_LIMIT
    ensures forall v: nat :: FIRST + a <= v < FIRST + a + n ==> Look(mem', roots[KERNEL], v).Some?
  {
    hide Look;
  }

  /** What the two calls do to the tables. */
  lemma RoundTripTables(live: map<nat, nat>, live': map<nat, nat>, tag: seq<V.Tag>, rs: seq<V.Range>, rs': seq<V.Range>,
                        tag': seq<V.Tag>,
                        mem0: Tables, own0: map<nat, Owner>, mem1: Tables, mem2: Tables, roots: map<nat, nat>,
                        a: nat, n: nat, k: nat, frame: nat)
    requires Inv(mem0, own0, roots) && FIRST + a + n + 1 <= VPN_LIMIT && k <= n && Clean(mem0, roots[KERNEL], tag)
    requires Reserved(rs, tag, rs', tag', a, n + 1)
    requires WindowMade(live, live', mem0, mem1, roots, a, n, frame)
             && Unmapped(mem1, mem2, roots, KERNEL, FIRST + a, k)
    ensures Gone(mem2, roots[KERNEL], a, n + 1) <==> k == n
    ensures SameView(mem0, mem2, roots) <==> k == n
  {
    hide Look;
    assert V.Tagged(tag, a, n + 1, V.Free);
    forall v: nat | FIRST + a <= v < FIRST + a + n + 1
      ensures Look(mem0, roots[KERNEL], v) == None
    {
      assert tag[v - FIRST] == V.Free;
    }
    if k < n {
      var v := FIRST + a + k;
      assert Look(mem1, roots[KERNEL], v).Some?;
      assert Look(mem2, roots[KERNEL], v).Some? && Look(mem0, roots[KERNEL], v) == None;
    } else {
      RoundTripView(mem0, own0, mem1, mem2, roots, a, n, frame);
    }
  }

  lemma RoundTripView(mem0: Tables, own0: map<nat, Owner>, mem1: Tables, mem2: Tables, roots: map<nat, nat>, a: nat,
                      n: nat, frame: nat)
    requires Inv(mem0, own0, roots) && FIRST + a + n <= VPN_LIMIT
    requires Mapped(mem0, mem1, roots, KERNEL, FIRST + a, n, frame, DEVICE_FLAGS)
             && Unmapped(mem1, mem2, roots, KERNEL, FIRST + a, n)
    requires Gone(mem0, roots[KERNEL], a, n)
    ensures SameView(mem0, mem2, roots)
  {
    hide Look;
    forall s, v: nat | s in roots && v < VPN_LIMIT
      ensures Look(mem2, roots[s], v) == Look(mem0, roots[s], v)
    {
      if Sees(s, KERNEL, v) {
        SeersAgree(mem0, own0, roots, s, KERNEL, v);
      }
    }
  }

  /** What the two calls do to the area. */
  lemma RoundTripArea(rs: seq<V.Range>, tag: seq<V.Tag>, live: map<nat, nat>, rs': seq<V.Range>, tag': seq<V.Tag>,
                      live': map<nat, nat>,
                      a: nat, n: nat, k: nat)
    requires V.Inv(rs, tag, live) && V.Inv(rs', tag', live') && a !in live && live' == live[a := n + 1] && k <= n
    requires Reserved(rs, tag, rs', tag', a, n + 1)
    ensures NoneLost(tag, V.Released(rs', tag', live', a, k + 1)) <==> k == n
    ensures V.Released(rs', tag', live', a, k + 1) == tag <==> k == n
  {
    V.ReleaseUndoesReserve(rs, tag, live, V.FirstLarge(rs, n + 1), n + 1);
    V.ReleaseConserves(rs', tag', live', a, k + 1);
    if k < n {
      assert tag[a + n] == V.Free && V.Released(rs', tag', live', a, k + 1)[a + n] == V.Lost;
    }
    hide V.Inv, V.Leaks, V.Cut;
  }
}
