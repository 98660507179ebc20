/**
 From the object file to memory: what placing and relocating an image
 (kernel/module/loader.cpp) leaves, said of the sections, symbols and relocation
 entries of the object alone (System V AMD64 psABI, section 4.4.1).
 */
module LoaderObject {
  import opened Basics
  import opened Relocation
  import opened Loader

  /** Entry k of the relocation section i is one that counts: the section it
      applies to is there, and is loaded. */
  predicate IsEntry(sections: seq<Section>, i: nat, k: nat) {
    i < |sections| && sections[i].rela.Some?
    && var table := sections[i].rela.value;
       table.target < |sections| && sections[table.target].alloc && k < |table.entries|
  }

  function EntryOf(sections: seq<Section>, i: nat, k: nat): Rela
    requires IsEntry(sections, i, k)
  {
    sections[i].rela.value.entries[k]
  }

  /** Where a section is: behind those before it, or nowhere. */
  function Start(sections: seq<Section>, base: nat, q: nat): nat {
    if q < |sections| && sections[q].alloc && sections[q].size != 0 then base + Cursor(sections, q) else 0
  }

  /** S: where the symbol's section is and its value, or what exports it. */
  function SymbolOf(sections: seq<Section>, base: nat, i: nat, k: nat): Option<nat>
    requires IsEntry(sections, i, k)
  {
    var symbols, index := sections[i].rela.value.symbols, EntryOf(sections, i, k).symbol;
    if index >= |symbols| then None
    else
      match symbols[index]
      case Undefined(exported) => exported
      case InSection(q, value) => if q < 64 then Some(Start(sections, base, q) + value) else None
  }

  /** P: the place of the field. */
  function PlaceOf(sections: seq<Section>, base: nat, i: nat, k: nat): nat
    requires IsEntry(sections, i, k)
  {
    Start(sections, base, sections[i].rela.value.target) + EntryOf(sections, i, k).offset
  }

  /** S + A, or S + A - P for the relative kinds. */
  function ValueOf(sections: seq<Section>, base: nat, i: nat, k: nat): int
    requires IsEntry(sections, i, k) && SymbolOf(sections, base, i, k).Some?
  {
    var r, s := EntryOf(sections, i, k), SymbolOf(sections, base, i, k).value;
    match r.kind
    case Pc32 => s + r.addend - PlaceOf(sections, base, i, k)
    case Plt32 => s + r.addend - PlaceOf(sections, base, i, k)
    case Pc64 => s + r.addend - PlaceOf(sections, base, i, k)
    case _ => s + r.addend
  }

  function Width(kind: Kind): nat {
    match kind
    case Abs64 => 8
    case Pc64 => 8
    case Unknown => 0
    case _ => 4
  }

  /** The value, as a signed 64-bit number, fits the field. */
  predicate Representable(kind: Kind, value: int) {
    match kind
    case Abs64 => true
    case Pc64 => true
    case Unknown => false
    case _ => value % U64 < 0x8000_0000 || value % U64 >= U64 - 0x8000_0000
  }

  /** The entry can be applied. */
  predicate Applies(sections: seq<Section>, base: nat, i: nat, k: nat)
    requires IsEntry(sections, i, k)
  {
    SymbolOf(sections, base, i, k).Some?
    && Representable(EntryOf(sections, i, k).kind, ValueOf(sections, base, i, k))
  }

  /** The field of the entry reads as its value, modulo 2^64; that of R_X86_64_32,
      which is read zero-extended, modulo 2^32. */
  ghost predicate FieldReads(memory: seq<Byte>, sections: seq<Section>, base: nat, i: nat, k: nat)
    requires IsEntry(sections, i, k)
  {
    && Applies(sections, base, i, k) && base <= PlaceOf(sections, base, i, k)
    && var kind, value := EntryOf(sections, i, k).kind, ValueOf(sections, base, i, k);
       var at := PlaceOf(sections, base, i, k) - base;
       && at + Width(kind) <= |memory|
       && var read := Decode(memory[at..at + Width(kind)]);
          match kind
          case Abs64 => read == value % U64
          case Pc64 => read == value % U64
          case Abs32 => read == value % U64 % U32
          case _ => SignExtend(read) % U64 == value % U64
  }

  /** Every field lies inside the image. */
  ghost predicate FieldsInside(sections: seq<Section>, base: nat, size: nat) {
    forall i: nat, k: nat :: IsEntry(sections, i, k) ==> FieldInside(sections, base, size, i, k)
  }

  predicate FieldInside(sections: seq<Section>, base: nat, size: nat, i: nat, k: nat)
    requires IsEntry(sections, i, k)
  {
    base <= PlaceOf(sections, base, i, k)
    && PlaceOf(sections, base, i, k) + Width(EntryOf(sections, i, k).kind) <= base + size
  }

  /** No two fields overlap. */
  ghost predicate FieldsApart(sections: seq<Section>, base: nat) {
    forall i: nat, k: nat, j: nat, l: nat ::
      IsEntry(sections, i, k) && IsEntry(sections, j, l) && (i != j || k != l) ==> Apart(sections, base, i, k, j, l)
  }

  predicate Apart(sections: seq<Section>, base: nat, i: nat, k: nat, j: nat, l: nat)
    requires IsEntry(sections, i, k) && IsEntry(sections, j, l)
  {
    var p, q := PlaceOf(sections, base, i, k), PlaceOf(sections, base, j, l);
    p + Width(EntryOf(sections, i, k).kind) <= q || q + Width(EntryOf(sections, j, l).kind) <= p
  }

  /** Byte x of the image is in no field. */
  ghost predicate InNoField(sections: seq<Section>, base: nat, x: nat) {
    forall i: nat, k: nat :: IsEntry(sections, i, k) ==>
      !(PlaceOf(sections, base, i, k) <= base + x
        < PlaceOf(sections, base, i, k) + Width(EntryOf(sections, i, k).kind))
  }

  // ------------------------------------------------- entries and their stores

  /** The placements are those of the layout. */
  ghost predicate LaidOut(sections: seq<Section>, base: nat, placements: seq<Placement>) {
    |placements| == |sections| && forall q :: 0 <= q < |sections| ==> placements[q] == PlacementOf(sections, base, q)
  }

  /** Adding modulo 2^64 does not notice whole multiples. */
  lemma WrapAdds(a: int, b: int)
    ensures (a % U64 + b) % U64 == (a + b) % U64
  {
    assert a == a / U64 * U64 + a % U64;
  }

  /** What the loader makes of an entry is what the object says. */
  lemma PendingIs(sections: seq<Section>, base: nat, placements: seq<Placement>, i: nat, k: nat)
    requires LaidOut(sections, base, placements) && IsEntry(sections, i, k) && |sections| <= MAX_SECTIONS
    requires PlaceOf(sections, base, i, k) < U64
    ensures var p, r := PendingOf(sections[i].rela.value, placements, k), EntryOf(sections, i, k);
            var s := SymbolOf(sections, base, i, k);
            && p.kind == r.kind && p.addend == r.addend && p.place == PlaceOf(sections, base, i, k)
            && (p.symbol.Some? <==> s.Some?) && (s.Some? ==> p.symbol.value % U64 == s.value % U64)
  {
  }

  /** The store of an entry, and when there is one. */
  lemma SiteIs(sections: seq<Section>, base: nat, placements: seq<Placement>, i: nat, k: nat)
    requires LaidOut(sections, base, placements) && IsEntry(sections, i, k) && |sections| <= MAX_SECTIONS
    requires base <= PlaceOf(sections, base, i, k) < U64
    ensures var site := SiteOf(PendingOf(sections[i].rela.value, placements, k), base);
            && (site.Some? <==> Applies(sections, base, i, k))
            && (site.Some? ==> site.value.at == PlaceOf(sections, base, i, k) - base
                               && |site.value.bytes| == Width(EntryOf(sections, i, k).kind))
  {
    hide Start, PendingOf, Encode;
    PendingIs(sections, base, placements, i, k);
    var p := PendingOf(sections[i].rela.value, placements, k);
    if p.symbol.Some? {
      SameTarget(sections, base, i, k, p);
      FieldIff(p.kind, p.symbol.value, p.addend, p.place, ValueOf(sections, base, i, k));
    }
  }

  lemma SameTarget(sections: seq<Section>, base: nat, i: nat, k: nat, p: Pending)
    requires IsEntry(sections, i, k) && SymbolOf(sections, base, i, k).Some? && p.symbol.Some?
    requires p.kind == EntryOf(sections, i, k).kind && p.addend == EntryOf(sections, i, k).addend
    requires p.place == PlaceOf(sections, base, i, k)
    requires p.symbol.value % U64 == SymbolOf(sections, base, i, k).value % U64
    ensures Wrap(Target(p.kind, p.symbol.value, p.addend, p.place)) == Wrap(ValueOf(sections, base, i, k))
  {
    var s := SymbolOf(sections, base, i, k).value;
    WrapAdds(p.symbol.value, p.addend);
    WrapAdds(s, p.addend);
    WrapAdds(p.symbol.value, p.addend - p.place);
    WrapAdds(s, p.addend - p.place);
  }

  lemma FieldIff(kind: Kind, symbol: nat, addend: int, place: nat, value: int)
    requires Wrap(Target(kind, symbol, addend, place)) == Wrap(value)
    ensures var f := Field(kind, symbol, addend, place);
            (f.Some? <==> Representable(kind, value)) && (f.Some? ==> |f.value| == Width(kind))
  {
    hide Encode;
    var w := Wrap(value);
    assert Signed(w) == if w < HALF64 then w else w - U64;
  }

  /** An entry that was applied reads as its value. */
  lemma ReadsValue(memory: seq<Byte>, sections: seq<Section>, base: nat, placements: seq<Placement>, i: nat, k: nat)
    requires LaidOut(sections, base, placements) && IsEntry(sections, i, k) && |sections| <= MAX_SECTIONS
    requires base <= PlaceOf(sections, base, i, k) < U64
    requires HoldsTarget(memory, PendingOf(sections[i].rela.value, placements, k), base)
    requires Applies(sections, base, i, k)
    ensures FieldReads(memory, sections, base, i, k)
  {
    hide Start, PendingOf, Decode, SignExtend;
    PendingIs(sections, base, placements, i, k);
    SameTarget(sections, base, i, k, PendingOf(sections[i].rela.value, placements, k));
  }

  // --------------------------------------------------------- the list of all

  /** Where entry k of section i is in the list of all. */
  function Position(sections: seq<Section>, placements: seq<Placement>, i: nat, k: nat): nat
    requires i <= |sections| == |placements|
  {
    |AllPending(sections, placements, i)| + k
  }

  lemma {:induction false} TableAt(table: RelaTable, placements: seq<Placement>, n: nat, k: nat)
    requires k < n <= |table.entries| && table.target < |placements|
    ensures |TablePending(table, placements, n)| == n
            && TablePending(table, placements, n)[k] == PendingOf(table, placements, k)
  {
    TableSize(table, placements, n - 1);
    if k < n - 1 {
      TableAt(table, placements, n - 1, k);
    }
  }

  lemma {:induction false} TableSize(table: RelaTable, placements: seq<Placement>, n: nat)
    requires n <= |table.entries| && table.target < |placements|
    ensures |TablePending(table, placements, n)| == n
  {
    if n > 0 {
      TableSize(table, placements, n - 1);
    }
  }

  lemma EntryListed(sections: seq<Section>, placements: seq<Placement>, i: nat, k: nat)
    requires |sections| == |placements| && IsEntry(sections, i, k)
    ensures var j, all := Position(sections, placements, i, k), AllPending(sections, placements, |sections|);
            j < |all| && all[j] == PendingOf(sections[i].rela.value, placements, k)
    ensures Position(sections, placements, i, k) < |AllPending(sections, placements, i + 1)|
  {
    var table := sections[i].rela.value;
    TableAt(table, placements, |table.entries|, k);
    PendingPrefix(sections, placements, i);
    hide AllPending, TablePending, PendingOf;
    assert Relocates(sections, i);
  }

  /** Everything in the list is an entry. */
  lemma {:induction false} ListedEntry(sections: seq<Section>, placements: seq<Placement>, n: nat, j: nat)
    returns (i: nat, k: nat)
    requires n <= |sections| == |placements| && j < |AllPending(sections, placements, n)|
    ensures i < n && IsEntry(sections, i, k) && j == Position(sections, placements, i, k)
  {
    if j < |AllPending(sections, placements, n - 1)| {
      i, k := ListedEntry(sections, placements, n - 1, j);
    } else {
      i, k := n - 1, j - |AllPending(sections, placements, n - 1)|;
      TableSize(sections[i].rela.value, placements, |sections[i].rela.value.entries|);
    }
  }

  // -------------------------------------------------------------- the theorem

  ghost predicate AllApply(sections: seq<Section>, base: nat) {
    forall i: nat, k: nat :: IsEntry(sections, i, k) ==> Applies(sections, base, i, k)
  }

  /** What is known of an entry in the list. */
  lemma ListedSite(sections: seq<Section>, base: nat, size: nat, placements: seq<Placement>, j: nat)
    returns (i: nat, k: nat)
    requires LaidOut(sections, base, placements) && |sections| <= MAX_SECTIONS && base + size < U64
    requires FieldsInside(sections, base, size) && j < |AllPending(sections, placements, |sections|)|
    ensures IsEntry(sections, i, k) && j == Position(sections, placements, i, k)
    ensures var p := AllPending(sections, placements, |sections|)[j];
            var site := SiteOf(p, base);
            && p == PendingOf(sections[i].rela.value, placements, k) && base <= p.place
            && FieldInside(sections, base, size, i, k)
            && (site.Some? <==> Applies(sections, base, i, k))
            && (site.Some? ==> site.value.at == PlaceOf(sections, base, i, k) - base
                               && |site.value.bytes| == Width(EntryOf(sections, i, k).kind))
  {
    hide AllPending, PendingOf, SiteOf, Applies, Start;
    i, k := ListedEntry(sections, placements, |sections|, j);
    EntryListed(sections, placements, i, k);
    assert FieldInside(sections, base, size, i, k);
    SiteIs(sections, base, placements, i, k);
    PendingIs(sections, base, placements, i, k);
  }

  /** The precondition and the outcome of apply_relocations, said of the object. */
  lemma OutcomeIs(sections: seq<Section>, base: nat, size: nat, placements: seq<Placement>)
    requires LaidOut(sections, base, placements) && |sections| <= MAX_SECTIONS && base + size < U64
    requires FieldsInside(sections, base, size)
    ensures var all := AllPending(sections, placements, |sections|);
            PlacesInside(all, base, size) && (SitesOf(all, base).Some? <==> AllApply(sections, base))
  {
    hide AllPending, SiteOf, Applies, PendingOf, SitesOf, Start, FieldsInside;
    var all := AllPending(sections, placements, |sections|);
    forall j | 0 <= j < |all|
      ensures base <= all[j].place
      ensures SiteOf(all[j], base).Some? ==> InBounds(SiteOf(all[j], base).value, size)
      ensures AllApply(sections, base) ==> SiteOf(all[j], base).Some?
    {
      var i, k := ListedSite(sections, base, size, placements, j);
    }
    if SitesOf(all, base).Some? {
      forall i: nat, k: nat | IsEntry(sections, i, k)
        ensures Applies(sections, base, i, k)
      {
        ListedApplies(sections, base, size, placements, i, k);
      }
    }
  }

  lemma ListedApplies(sections: seq<Section>, base: nat, size: nat, placements: seq<Placement>, i: nat, k: nat)
    requires LaidOut(sections, base, placements) && |sections| <= MAX_SECTIONS && base + size < U64
    requires FieldsInside(sections, base, size) && IsEntry(sections, i, k)
    requires SitesOf(AllPending(sections, placements, |sections|), base).Some?
    ensures Applies(sections, base, i, k)
  {
    hide AllPending, SiteOf, Applies, PendingOf, SitesOf, Start;
    EntryListed(sections, placements, i, k);
    assert FieldInside(sections, base, size, i, k);
    SiteIs(sections, base, placements, i, k);
  }

  /** Fields apart make stores apart. */
  lemma StoresApart(sections: seq<Section>, base: nat, size: nat, placements: seq<Placement>)
    requires LaidOut(sections, base, placements) && |sections| <= MAX_SECTIONS && base + size < U64
    requires FieldsInside(sections, base, size) && FieldsApart(sections, base)
    requires SitesOf(AllPending(sections, placements, |sections|), base).Some?
    ensures SitesApart(SitesOf(AllPending(sections, placements, |sections|), base).value)
  {
    hide AllPending, SiteOf, Applies, PendingOf, SitesOf, Start, FieldsInside;
    var all := AllPending(sections, placements, |sections|);
    var sites := SitesOf(all, base).value;
    forall j, l | 0 <= j < l < |sites|
      ensures sites[j].at + |sites[j].bytes| <= sites[l].at || sites[l].at + |sites[l].bytes| <= sites[j].at
    {
      var i, k := ListedSite(sections, base, size, placements, j);
      var i', k' := ListedSite(sections, base, size, placements, l);
      assert Apart(sections, base, i, k, i', k');
    }
  }

  /** After a success on fields apart, every field reads as its value ... */
  lemma FieldsRead(start: seq<Byte>, memory: seq<Byte>, sections: seq<Section>, base: nat, placements: seq<Placement>,
                   i: nat, k: nat)
    requires LaidOut(sections, base, placements) && |sections| <= MAX_SECTIONS && base + |start| < U64
    requires FieldsInside(sections, base, |start|) && FieldsApart(sections, base) && IsEntry(sections, i, k)
    requires Stored(start, memory, AllPending(sections, placements, |sections|), base)
    ensures FieldReads(memory, sections, base, i, k)
  {
    hide AllPending, SiteOf, Applies, PendingOf, SitesOf, Start, Stored, HoldsTarget, FieldReads;
    var all, j := AllPending(sections, placements, |sections|), Position(sections, placements, i, k);
    StoredSites(start, memory, all, base);
    StoresApart(sections, base, |start|, placements);
    EntryListed(sections, placements, i, k);
    assert FieldInside(sections, base, |start|, i, k);
    PendingIs(sections, base, placements, i, k);
    ListedApplies(sections, base, |start|, placements, i, k);
    FieldsHoldTargets(start, memory, all, base, j);
    ReadsValue(memory, sections, base, placements, i, k);
  }

  lemma StoredSites(start: seq<Byte>, memory: seq<Byte>, ps: seq<Pending>, base: nat)
    requires Stored(start, memory, ps, base)
    ensures SitesOf(ps, base).Some?
  {
  }

  /** ... and every other byte is as it was copied. */
  lemma OthersRead(start: seq<Byte>, memory: seq<Byte>, sections: seq<Section>, base: nat, placements: seq<Placement>,
                   x: nat)
    requires LaidOut(sections, base, placements) && |sections| <= MAX_SECTIONS && base + |start| < U64
    requires FieldsInside(sections, base, |start|) && FieldsApart(sections, base) && InNoField(sections, base, x)
    requires Stored(start, memory, AllPending(sections, placements, |sections|), base) && x < |start|
    ensures |memory| == |start| && memory[x] == start[x]
  {
    hide AllPending, SiteOf, Applies, PendingOf, SitesOf, Start, Stored;
    var all := AllPending(sections, placements, |sections|);
    StoredSites(start, memory, all, base);
    StoresApart(sections, base, |start|, placements);
    var sites := SitesOf(all, base).value;
    forall s | s in sites
      ensures !(s.at <= x < s.at + |s.bytes|)
    {
      var j :| 0 <= j < |sites| && sites[j] == s;
      var i, k := ListedSite(sections, base, |start|, placements, j);
    }
    OtherBytesKept(start, memory, all, base, x);
  }

  /** Byte x of section q, as the object has it. */
  ghost predicate Copied(memory: seq<Byte>, sections: seq<Section>, image: seq<Byte>, q: nat, x: nat)
    requires q < |sections| && x < sections[q].size
  {
    && Cursor(sections, q) + x < |memory| && (!sections[q].nobits ==> sections[q].offset + x < |image|)
    && memory[Cursor(sections, q) + x] == if sections[q].nobits then 0 else image[sections[q].offset + x]
  }

  /** Every loaded byte outside the fields is the object's. */
  ghost predicate RestCopied(memory: seq<Byte>, sections: seq<Section>, base: nat, image: seq<Byte>) {
    forall q: nat, x: nat :: q < |sections| && sections[q].alloc && x < sections[q].size
                             && InNoField(sections, base, Cursor(sections, q) + x) ==>
      Copied(memory, sections, image, q, x)
  }

  /** The part of module_load_image between the allocation and the protections:
      it succeeds if and only if every relocation entry that counts has a symbol
      and a value that fits; and then every field reads as S + A or S + A - P and
      every other byte is the object's. */
  method BuildImage(loaded: LoadedImage, sections: seq<Section>, image: seq<Byte>) returns (ok: bool)
    requires |sections| <= MAX_SECTIONS && loaded.placements == seq(|sections|, _ => NOWHERE)
    requires |loaded.memory| == Cursor(sections, |sections|) && InImage(sections, image)
    requires loaded.base + |loaded.memory| < U64 && FieldsInside(sections, loaded.base, |loaded.memory|)
    modifies loaded
    ensures ok <==> AllApply(sections, loaded.base)
    ensures ok && FieldsApart(sections, loaded.base) ==>
              && (forall i: nat, k: nat :: IsEntry(sections, i, k) ==>
                    FieldReads(loaded.memory, sections, loaded.base, i, k))
              && RestCopied(loaded.memory, sections, loaded.base, image)
  {
    hide AllPending, PlacesInside, SitesOf, StoreAll, FieldsInside, FieldsApart, FieldReads, RestCopied, HoldsSection,
         AllApply, InImage, Cursor, PlacementOf;
    loaded.PlaceSections(sections, image);
    ghost var start, placements, base := loaded.memory, loaded.placements, loaded.base;
    OutcomeIs(sections, base, |start|, placements);
    ok := loaded.ApplyRelocations(sections);
    if ok && FieldsApart(sections, base) {
      assert Stored(start, loaded.memory, AllPending(sections, placements, |sections|), base);
      forall i: nat, k: nat | IsEntry(sections, i, k)
        ensures FieldReads(loaded.memory, sections, base, i, k)
      {
        FieldsRead(start, loaded.memory, sections, base, placements, i, k);
      }
      RestIsCopied(start, loaded.memory, sections, base, placements, image);
    }
  }

  lemma RestIsCopied(start: seq<Byte>, memory: seq<Byte>, sections: seq<Section>, base: nat,
                     placements: seq<Placement>, image: seq<Byte>)
    requires LaidOut(sections, base, placements) && |sections| <= MAX_SECTIONS && base + |start| < U64
    requires FieldsInside(sections, base, |start|) && FieldsApart(sections, base)
    requires Stored(start, memory, AllPending(sections, placements, |sections|), base)
    requires forall q :: 0 <= q < |sections| && IsPlaced(sections[q]) ==> HoldsSection(start, sections, image, q)
    ensures RestCopied(memory, sections, base, image)
  {
    hide AllPending, Stored, FieldsInside, FieldsApart, InNoField, Cursor, LaidOut;
    forall q: nat, x: nat | q < |sections| && sections[q].alloc && x < sections[q].size
                            && InNoField(sections, base, Cursor(sections, q) + x)
      ensures Copied(memory, sections, image, q, x)
    {
      HeldByte(start, sections, image, q, x);
      OthersRead(start, memory, sections, base, placements, Cursor(sections, q) + x);
    }
  }

  lemma HeldByte(memory: seq<Byte>, sections: seq<Section>, image: seq<Byte>, q: nat, x: nat)
    requires q < |sections| && x < sections[q].size && HoldsSection(memory, sections, image, q)
    ensures Copied(memory, sections, image, q, x)
  {
    var c, size := Cursor(sections, q), sections[q].size;
    assert memory[c + x] == memory[c..c + size][x];
  }
}
