/**
 kernel/module/loader.cpp: where the sections of an object go, what is copied
 and relocated there, and the rights each page ends with. The ELF structures
 are taken as decoded records.
 */
module Loader {
  import opened Basics
  import opened Relocation

  const PAGE: nat := 4096
  const MAX_SECTIONS: nat := 64

  datatype Symbol = Undefined(exported: Option<nat>) | InSection(section: nat, value: nat)

  datatype Rela = Rela(kind: Kind, offset: nat, symbol: nat, addend: int)

  /** The entries of a relocation section, with the section they apply to. */
  datatype RelaTable = RelaTable(target: nat, entries: seq<Rela>, symbols: seq<Symbol>)

  datatype Section = Section(alloc: bool, write: bool, execute: bool, nobits: bool, size: nat, offset: nat,
                             rela: Option<RelaTable>)

  datatype Placement = Placement(address: nat, executable: bool, writable: bool)

  const NOWHERE := Placement(0, false, false)

  predicate IsPlaced(s: Section) {
    s.alloc && s.size != 0
  }

  function Pages(s: Section): nat {
    (s.size + PAGE - 1) / PAGE
  }

  /** The bytes of memory the first n sections take. */
  function Cursor(sections: seq<Section>, n: nat): nat
    requires n <= |sections|
  {
    if n == 0 then 0 else Cursor(sections, n - 1) + if IsPlaced(sections[n - 1]) then Pages(sections[n - 1]) * PAGE
       else 0
  }

  function PlacementOf(sections: seq<Section>, base: nat, i: nat): Placement
    requires i < |sections|
  {
    if IsPlaced(sections[i]) then Placement(base + Cursor(sections, i), sections[i].execute, sections[i].write)
       else NOWHERE
  }

  // ---------------------------------------------------------------- layout

  lemma RoomForIt(s: Section)
    ensures s.size <= Pages(s) * PAGE < s.size + PAGE
  {
  }

  lemma {:induction false} CursorGrows(sections: seq<Section>, i: nat, j: nat)
    requires i < j <= |sections|
    ensures Cursor(sections, i) + (if IsPlaced(sections[i]) then Pages(sections[i]) * PAGE else 0)
            <= Cursor(sections, j)
    decreases j - i
  {
    if i + 1 < j {
      CursorGrows(sections, i, j - 1);
    }
  }

  lemma {:induction false} CursorAligned(sections: seq<Section>, n: nat)
    requires n <= |sections|
    ensures Cursor(sections, n) % PAGE == 0
  {
    if n > 0 {
      CursorAligned(sections, n - 1);
      var c, p := Cursor(sections, n - 1) / PAGE, Pages(sections[n - 1]);
      assert Cursor(sections, n - 1) + p * PAGE == PAGE * (c + p);
    }
  }

  /** Byte x of the image belongs to section i. */
  predicate Owns(sections: seq<Section>, i: nat, x: nat)
    requires i < |sections|
  {
    IsPlaced(sections[i]) && Cursor(sections, i) <= x < Cursor(sections, i) + Pages(sections[i]) * PAGE
  }

  /** Sections lie apart, on pages of their own. */
  lemma SectionsApart(sections: seq<Section>, i: nat, j: nat, x: nat)
    requires i < |sections| && j < |sections| && Owns(sections, i, x) && Owns(sections, j, x)
    ensures i == j
  {
    if i < j {
      CursorGrows(sections, i, j);
    } else if j < i {
      CursorGrows(sections, j, i);
    }
  }

  /** They fill the image: every byte of it belongs to one. */
  lemma {:induction false} OwnerOf(sections: seq<Section>, n: nat, x: nat) returns (i: nat)
    requires n <= |sections| && x < Cursor(sections, n)
    ensures i < n && Owns(sections, i, x)
  {
    if x < Cursor(sections, n - 1) {
      i := OwnerOf(sections, n - 1, x);
    } else {
      i := n - 1;
    }
  }

  /** The two loops of module_load_image over the sections. */
  method TotalSize(sections: seq<Section>) returns (total: nat)
    ensures total == Cursor(sections, |sections|)
  {
    total := 0;
    var i := 0;
    while i < |sections|
      invariant i <= |sections| && total == Cursor(sections, i)
    {
      if IsPlaced(sections[i]) {
        total := total + Pages(sections[i]) * PAGE;
      }
      i := i + 1;
    }
  }

  // --------------------------------------------------------------- contents

  ghost predicate InImage(sections: seq<Section>, image: seq<Byte>) {
    forall i :: 0 <= i < |sections| && IsPlaced(sections[i]) && !sections[i].nobits ==>
           sections[i].offset + sections[i].size <= |image|
  }

  function Contents(s: Section, image: seq<Byte>): (b: seq<Byte>)
    requires !s.nobits ==> s.offset + s.size <= |image|
    ensures |b| == s.size
  {
    if s.nobits then seq(s.size, _ => 0) else image[s.offset..s.offset + s.size]
  }

  // ------------------------------------------------------------ relocations

  /** A relocation with its symbol looked up. */
  datatype Pending = Pending(kind: Kind, symbol: Option<nat>, addend: int, place: nat)

  /** symbol_address. */
  function Resolve(symbols: seq<Symbol>, placements: seq<Placement>, index: nat): Option<nat> {
    if index >= |symbols| then None
    else
      match symbols[index]
      case Undefined(exported) => exported
      case InSection(s, value) =>
        if s >= MAX_SECTIONS then None
        else Some(((if s < |placements| then placements[s].address else 0) + value) % U64)
  }

  function PendingOf(table: RelaTable, placements: seq<Placement>, k: nat): Pending
    requires k < |table.entries| && table.target < |placements|
  {
    var r := table.entries[k];
    Pending(r.kind, Resolve(table.symbols, placements, r.symbol), r.addend,
            (placements[table.target].address + r.offset) % U64)
  }

  /** The first k relocations of one table. */
  function TablePending(table: RelaTable, placements: seq<Placement>, k: nat): seq<Pending>
    requires k <= |table.entries| && table.target < |placements|
  {
    if k == 0 then [] else TablePending(table, placements, k - 1) + [PendingOf(table, placements, k - 1)]
  }

  /** This section's relocations are applied. */
  predicate Relocates(sections: seq<Section>, i: nat)
    requires i < |sections|
  {
    sections[i].rela.Some? && sections[i].rela.value.target < |sections|
      && sections[sections[i].rela.value.target].alloc
  }

  /** The relocations of the first n sections, in order. */
  function AllPending(sections: seq<Section>, placements: seq<Placement>, n: nat): seq<Pending>
    requires n <= |sections| == |placements|
  {
    if n == 0 then []
    else
      var before := AllPending(sections, placements, n - 1);
      if Relocates(sections, n - 1) then
        before + TablePending(sections[n - 1].rela.value, placements, |sections[n - 1].rela.value.entries|)
      else before
  }

  /** The store a relocation asks for, or nothing if it is refused. */
  function SiteOf(p: Pending, base: nat): Option<Site> {
    if p.symbol.None? then None
    else
      match Field(p.kind, p.symbol.value, p.addend, p.place)
      case None => None
      case Some(bytes) => Some(Site(if p.place >= base then p.place - base else 0, bytes))
  }

  /** All stores, if none is refused. */
  function SitesOf(ps: seq<Pending>, base: nat): (r: Option<seq<Site>>)
    ensures r.Some? ==> |r.value| == |ps| && forall k :: 0 <= k < |ps| ==> SiteOf(ps[k], base) == Some(r.value[k])
    ensures r.None? ==> exists k :: 0 <= k < |ps| && SiteOf(ps[k], base) == None
    decreases |ps|
  {
    if ps == [] then Some([])
    else
      var last := |ps| - 1;
      var before := SitesOf(ps[..last], base);
      if before.None? then None
      else if SiteOf(ps[last], base).None? then None
      else Some(before.value + [SiteOf(ps[last], base).value])
  }

  /** Every store lies inside the image. */
  ghost predicate PlacesInside(ps: seq<Pending>, base: nat, size: nat) {
    forall k :: 0 <= k < |ps| ==> base <= ps[k].place && (SiteOf(ps[k], base).Some? ==>
                                                          InBounds(SiteOf(ps[k], base).value, size))
  }

  class LoadedImage {
    const base: nat
    var placements: seq<Placement>
    var memory: seq<Byte>

    constructor (base: nat, memory: seq<Byte>, sections: seq<Section>)
      ensures this.base == base && this.memory == memory && placements == seq(|sections|, _ => NOWHERE)
    {
      this.base := base;
      this.memory := memory;
      placements := seq(|sections|, _ => NOWHERE);
    }

    /** Placement and copy, section by section. */
    method PlaceSections(sections: seq<Section>, image: seq<Byte>)
      requires |placements| == |sections| && placements == seq(|sections|, _ => NOWHERE)
      requires |memory| == Cursor(sections, |sections|) && InImage(sections, image)
      modifies this
      ensures |placements| == |sections| && |memory| == |old(memory)|
      ensures forall i :: 0 <= i < |sections| ==> placements[i] == PlacementOf(sections, base, i)
      ensures forall i :: 0 <= i < |sections| && sections[i].alloc && sections[i].size != 0 ==>
                placements[i] == Placement(base + Cursor(sections, i), sections[i].execute, sections[i].write)
      ensures forall i :: 0 <= i < |sections| && IsPlaced(sections[i]) ==> HoldsSection(memory, sections, image, i)
    {
      var cursor, i := 0, 0;
      while i < |sections|
        invariant i <= |sections| == |placements| && cursor == Cursor(sections, i) && |memory| == |old(memory)|
        invariant forall k :: 0 <= k < i ==> placements[k] == PlacementOf(sections, base, k)
        invariant forall k :: i <= k < |sections| ==> placements[k] == NOWHERE
        invariant forall k :: 0 <= k < i && IsPlaced(sections[k]) ==> HoldsSection(memory, sections, image, k)
      {
        var s := sections[i];
        if IsPlaced(s) {
          SectionInside(sections, i);
          ghost var before := memory;
          placements := placements[i := Placement(base + cursor, s.execute, s.write)];
          memory := Store(memory, Site(cursor, Contents(s, image)));
          OthersHold(before, sections, image, i);
          cursor := cursor + Pages(s) * PAGE;
        }
        i := i + 1;
      }
    }

    /** apply_relocations. */
    method ApplyRelocations(sections: seq<Section>) returns (ok: bool)
      requires |placements| == |sections| && PlacesInside(AllPending(sections, placements, |sections|), base, |memory|)
      modifies this`memory
      ensures var sites := SitesOf(AllPending(sections, placements, |sections|), base);
              && (ok <==> sites.Some?)
              && (ok ==> AllInBounds(sites.value, |old(memory)|) && memory == StoreAll(old(memory), sites.value))
    {
      hide SitesOf, AllPending, PlacesInside, StoreAll, AllInBounds, TablePending;
      ghost var all := AllPending(sections, placements, |sections|);
      var i := 0;
      NoStores(memory, sections, placements, base);
      while i < |sections|
        invariant i <= |sections| && |memory| == |old(memory)|
                  && Stored(old(memory), memory, AllPending(sections, placements, i), base)
      {
        PendingPrefix(sections, placements, i);
        if Relocates(sections, i) {
          ok := ApplyTable(sections[i].rela.value, AllPending(sections, placements, i), old(memory), all);
          if !ok {
            return;
          }
        }
        i := i + 1;
      }
      ok := true;
    }

    /** The inner loop: one table, after `before` has been applied. */
    method ApplyTable(table: RelaTable, ghost before: seq<Pending>, ghost start: seq<Byte>, ghost all: seq<Pending>)
      returns (ok: bool)
      requires table.target < |placements| && Stored(start, memory, before, base)
      requires before + TablePending(table, placements, |table.entries|) <= all && PlacesInside(all, base, |memory|)
      modifies this`memory
      ensures ok ==> |memory| == |start| && Stored(start, memory,
                                                   before + TablePending(table, placements, |table.entries|), base)
      ensures !ok ==> SitesOf(all, base).None?
    {
      hide SitesOf, Stored, PlacesInside;
      var k := 0;
      assert before + TablePending(table, placements, 0) == before;
      StoredSize(start, memory, before, base);
      while k < |table.entries|
        invariant k <= |table.entries| && |memory| == |start|
        invariant Stored(start, memory, before + TablePending(table, placements, k), base)
      {
        var p := PendingOf(table, placements, k);
        PendingAt(table, placements, before, all, k);
        OneRelocation(start, memory, before + TablePending(table, placements, k), p, all, base);
        var site := SiteOf(p, base);
        if site.None? {
          return false;
        }
        memory := Store(memory, site.value);
        assert before + TablePending(table, placements, k) + [p] == before + TablePending(table, placements, k + 1);
        k := k + 1;
      }
      ok := true;
    }
  }

  /** The bytes of section i are in place. */
  ghost predicate HoldsSection(memory: seq<Byte>, sections: seq<Section>, image: seq<Byte>, i: nat)
    requires i < |sections|
  {
    && (!sections[i].nobits ==> sections[i].offset + sections[i].size <= |image|)
    && Cursor(sections, i) + sections[i].size <= |memory|
    && memory[Cursor(sections, i)..Cursor(sections, i) + sections[i].size] == Contents(sections[i], image)
  }

  lemma SectionInside(sections: seq<Section>, i: nat)
    requires i < |sections| && IsPlaced(sections[i])
    ensures Cursor(sections, i) + sections[i].size <= Cursor(sections, |sections|)
  {
    CursorGrows(sections, i, |sections|);
    RoomForIt(sections[i]);
  }

  lemma StoreKeepsSlice(memory: seq<Byte>, site: Site, a: nat, b: nat)
    requires InBounds(site, |memory|) && a <= b <= site.at
    ensures Store(memory, site)[a..b] == memory[a..b]
    ensures Store(memory, site)[site.at..site.at + |site.bytes|] == site.bytes
  {
  }

  /** Storing section i keeps the earlier ones and holds it. */
  lemma OthersHold(memory: seq<Byte>, sections: seq<Section>, image: seq<Byte>, i: nat)
    requires i < |sections| && IsPlaced(sections[i]) && InImage(sections, image)
             && |memory| == Cursor(sections, |sections|)
    requires Cursor(sections, i) + sections[i].size <= |memory|
    requires forall k :: 0 <= k < i && IsPlaced(sections[k]) ==> HoldsSection(memory, sections, image, k)
    ensures var m := Store(memory, Site(Cursor(sections, i), Contents(sections[i], image)));
            forall k :: 0 <= k <= i && IsPlaced(sections[k]) ==> HoldsSection(m, sections, image, k)
  {
    var site := Site(Cursor(sections, i), Contents(sections[i], image));
    var m := Store(memory, site);
    StoreKeepsSlice(memory, site, 0, 0);
    assert HoldsSection(m, sections, image, i);
    hide Store, Contents, Cursor, HoldsSection;
    forall k | 0 <= k < i && IsPlaced(sections[k])
      ensures HoldsSection(m, sections, image, k)
    {
      OneHolds(memory, sections, image, i, k, site);
    }
  }

  lemma OneHolds(memory: seq<Byte>, sections: seq<Section>, image: seq<Byte>, i: nat, k: nat, site: Site)
    requires k < i < |sections| && IsPlaced(sections[k]) && InBounds(site, |memory|) && site.at == Cursor(sections, i)
    requires HoldsSection(memory, sections, image, k)
    ensures HoldsSection(Store(memory, site), sections, image, k)
  {
    hide Store, Contents, Cursor;
    CursorGrows(sections, k, i);
    RoomForIt(sections[k]);
    StoreKeepsSlice(memory, site, Cursor(sections, k), Cursor(sections, k) + sections[k].size);
  }

  // --------------------------------------------------- the relocation loops

  /** Memory is what the stores of these relocations make of it. */
  ghost predicate Stored(start: seq<Byte>, memory: seq<Byte>, ps: seq<Pending>, base: nat) {
    var sites := SitesOf(ps, base);
    sites.Some? && AllInBounds(sites.value, |start|) && memory == StoreAll(start, sites.value)
  }

  lemma NoStores(memory: seq<Byte>, sections: seq<Section>, placements: seq<Placement>, base: nat)
    requires |sections| == |placements|
    ensures Stored(memory, memory, AllPending(sections, placements, 0), base)
  {
  }

  lemma StoredSize(start: seq<Byte>, memory: seq<Byte>, ps: seq<Pending>, base: nat)
    requires Stored(start, memory, ps, base)
    ensures |memory| == |start|
  {
  }

  lemma {:induction false} PendingGrows(sections: seq<Section>, placements: seq<Placement>, i: nat, j: nat)
    requires i <= j <= |sections| == |placements|
    ensures AllPending(sections, placements, i) <= AllPending(sections, placements, j)
    decreases j - i
  {
    if i < j {
      PendingGrows(sections, placements, i, j - 1);
    }
  }

  lemma PendingPrefix(sections: seq<Section>, placements: seq<Placement>, i: nat)
    requires i < |sections| == |placements|
    ensures AllPending(sections, placements, i + 1) <= AllPending(sections, placements, |sections|)
    ensures AllPending(sections, placements, i + 1)
            == if Relocates(sections, i)
               then AllPending(sections, placements, i) + TablePending(sections[i].rela.value, placements,
                     |sections[i].rela.value.entries|)
               else AllPending(sections, placements, i)
  {
    PendingGrows(sections, placements, i + 1, |sections|);
  }

  lemma {:induction false} TableGrows(table: RelaTable, placements: seq<Placement>, k: nat, n: nat)
    requires k <= n <= |table.entries| && table.target < |placements|
    ensures TablePending(table, placements, k) <= TablePending(table, placements, n)
    decreases n - k
  {
    if k < n {
      TableGrows(table, placements, k, n - 1);
    }
  }

  lemma Shorter(a: seq<Pending>, b: seq<Pending>, c: seq<Pending>, all: seq<Pending>)
    requires b <= c && a + c <= all
    ensures a + b <= all
  {
    assert a + b <= a + c;
  }

  lemma PendingAt(table: RelaTable, placements: seq<Placement>, before: seq<Pending>, all: seq<Pending>, k: nat)
    requires k < |table.entries| && table.target < |placements|
    requires before + TablePending(table, placements, |table.entries|) <= all
    ensures before + TablePending(table, placements, k) + [PendingOf(table, placements, k)] <= all
  {
    hide TablePending, PendingOf;
    var now, next, p := TablePending(table, placements, k), TablePending(table, placements, k + 1),
      PendingOf(table, placements, k);
    TableStep(table, placements, k);
    TableGrows(table, placements, k + 1, |table.entries|);
    Shorter(before, next, TablePending(table, placements, |table.entries|), all);
    assert before + now + [p] == before + (now + [p]);
  }

  lemma TableStep(table: RelaTable, placements: seq<Placement>, k: nat)
    requires k < |table.entries| && table.target < |placements|
    ensures TablePending(table, placements, k + 1)
            == TablePending(table, placements, k) + [PendingOf(table, placements, k)]
  {
  }

  lemma OneRelocation(start: seq<Byte>, memory: seq<Byte>, done: seq<Pending>, p: Pending, all: seq<Pending>, base: nat)
    requires Stored(start, memory, done, base) && done + [p] <= all && PlacesInside(all, base, |memory|)
    ensures SiteOf(p, base).None? ==> SitesOf(all, base).None?
    ensures SiteOf(p, base).Some? ==>
            InBounds(SiteOf(p, base).value, |memory|) && Stored(start, Store(memory, SiteOf(p, base).value), done + [p],
                                                                base)
  {
    assert all[|done|] == (done + [p])[|done|] == p;
    if SiteOf(p, base).Some? {
      var sites := SitesOf(done, base).value;
      assert (done + [p])[..|done|] == done;
      assert SitesOf(done + [p], base) == Some(sites + [SiteOf(p, base).value]);
      assert (sites + [SiteOf(p, base).value])[..|sites|] == sites;
    }
  }

  lemma RelocatedSlice(start: seq<Byte>, memory: seq<Byte>, ps: seq<Pending>, base: nat, k: nat)
    requires Stored(start, memory, ps, base) && SitesApart(SitesOf(ps, base).value) && k < |ps|
    ensures var site := SiteOf(ps[k], base);
            && site.Some? && |memory| == |start| && InBounds(site.value, |memory|)
            && memory[site.value.at..site.value.at + |site.value.bytes|] == site.value.bytes
  {
    var sites := SitesOf(ps, base).value;
    assert InBounds(sites[k], |start|);
    forall x | sites[k].at <= x < sites[k].at + |sites[k].bytes|
      ensures memory[x] == sites[k].bytes[x - sites[k].at]
    {
      StoreAllAt(start, sites, x);
    }
  }

  /** The field of relocation p, read back the way the code that uses it does, is
      S + A or S + A - P modulo 2^64. R_X86_64_32, read zero-extended, is the lower
      half of it, and the whole of it exactly when that is below 2^31. */
  ghost predicate HoldsTarget(memory: seq<Byte>, p: Pending, base: nat) {
    && p.symbol.Some? && !p.kind.Unknown? && base <= p.place
    && var at, target := p.place - base, Target(p.kind, p.symbol.value, p.addend, p.place);
    var width := if Wide(p.kind) then 8 else 4;
    && at + width <= |memory|
    && var read := Decode(memory[at..at + width]);
       if Wide(p.kind) then read == Wrap(target)
       else if p.kind.Abs32? then read == Wrap(target) % U32 && (read == Wrap(target) <==> Wrap(target) < HALF32)
       else Wrap(SignExtend(read)) == Wrap(target)
  }

  /** After apply_relocations succeeds on sites that do not overlap, every
      field holds its target, whatever other relocations were applied. */
  lemma FieldsHoldTargets(start: seq<Byte>, memory: seq<Byte>, ps: seq<Pending>, base: nat, k: nat)
    requires Stored(start, memory, ps, base) && SitesApart(SitesOf(ps, base).value) && k < |ps| && base <= ps[k].place
    ensures HoldsTarget(memory, ps[k], base)
  {
    hide Stored, SitesOf, SitesApart, HoldsTarget, SiteOf;
    RelocatedSlice(start, memory, ps, base, k);
    FieldRead(memory, ps[k], base);
  }

  lemma FieldRead(memory: seq<Byte>, p: Pending, base: nat)
    requires base <= p.place && SiteOf(p, base).Some? && InBounds(SiteOf(p, base).value, |memory|)
    requires var s := SiteOf(p, base).value; memory[s.at..s.at + |s.bytes|] == s.bytes
    ensures HoldsTarget(memory, p, base)
  {
    var f := Field(p.kind, p.symbol.value, p.addend, p.place);
    assert f.Some? && SiteOf(p, base).value == Site(p.place - base, f.value);
    assert !p.kind.Unknown?;
    hide Field, Decode, SiteOf, Wrap, SignExtend;
    if Wide(p.kind) {
      WideField(p.kind, p.symbol.value, p.addend, p.place);
    } else if p.kind.Abs32? {
      Abs32ZeroExtends(p.symbol.value, p.addend, p.place);
    } else {
      NarrowField(p.kind, p.symbol.value, p.addend, p.place);
    }
  }

  /** Bytes outside the sites are as they were copied. */
  lemma OtherBytesKept(start: seq<Byte>, memory: seq<Byte>, ps: seq<Pending>, base: nat, x: nat)
    requires Stored(start, memory, ps, base) && SitesApart(SitesOf(ps, base).value) && x < |start|
    requires forall s :: s in SitesOf(ps, base).value ==> !(s.at <= x < s.at + |s.bytes|)
    ensures |memory| == |start| && memory[x] == start[x]
  {
    StoreAllAt(start, SitesOf(ps, base).value, x);
  }
}
