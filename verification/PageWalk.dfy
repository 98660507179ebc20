/**
 Four-level page tables as they lie in physical frames, and the walk the
 processor makes through them (Intel SDM Vol. 3A, sections 4.5 and 4.6).

 Tables are values here: a map from the physical address of a frame to its 512
 entries. `Owner` names the one place of the tree a table frame serves, so that
 being a tree needs no recursion: every table has one parent slot and one
 virtual prefix.
 */
module PageWalk {
  import opened Basics

  const ENTRIES: nat := 512
  const PAGE: nat := 4096
  const HUGE_PAGE: nat := 0x20_0000
  /** Page numbers of 48-bit virtual addresses. */
  const VPN_LIMIT: nat := 0x10_0000_0000
  /** Physical addresses fit pte_address_mask. */
  const PHYS_LIMIT: nat := 0x10_0000_0000_0000
  /** First page number outside top-level entry zero: 2^39 / 4096. */
  const USER_VPN: nat := 0x800_0000

  /** PageFlags, and equally the permission bits of an entry. */
  datatype PageFlags = PageFlags(write: bool, user: bool, noExecute: bool, global: bool, noCache: bool)

  datatype Pte = Pte(frame: nat, present: bool, huge: bool, bits: PageFlags)

  const NO_BITS := PageFlags(false, false, false, false, false)
  const ABSENT := Pte(0, false, false, NO_BITS)

  type Tables = map<nat, seq<Pte>>

  function EmptyTable(): (t: seq<Pte>)
    ensures |t| == ENTRIES && forall i :: 0 <= i < ENTRIES ==> t[i] == ABSENT
  {
    seq(ENTRIES, _ => ABSENT)
  }

  /** What table_for and split_huge_page store for a lower table. */
  function TableEntry(frame: nat): Pte {
    Pte(frame, true, false, PageFlags(true, false, false, false, false))
  }

  function LeafEntry(frame: nat, bits: PageFlags): Pte {
    Pte(frame, true, false, bits)
  }

  function WithUser(e: Pte): Pte { e.(bits := e.bits.(user := true)) }

  /** (physical address) & pte_address_mask. */
  function PageAddress(address: nat): (r: nat)
    ensures r % PAGE == 0 && r < PHYS_LIMIT
  {
    address / PAGE % 0x100_0000_0000 * PAGE
  }

  /** The mask keeps bits 12 to 51: what is lost is the offset in the page, and
      whole multiples of 2^52. */
  lemma MaskKeeps(address: nat)
    ensures PageAddress(address) <= address % PHYS_LIMIT < PageAddress(address) + PAGE
    ensures address < PHYS_LIMIT ==> PageAddress(address) == address - address % PAGE
  {
    var q, r := address / PHYS_LIMIT, address % PHYS_LIMIT;
    assert address / PAGE == q * 0x100_0000_0000 + r / PAGE;
  }

  /** The 512 entries split_huge_page fills in for a 2 MiB entry. */
  function SplitTable(e: Pte): (t: seq<Pte>)
    ensures |t| == ENTRIES
    ensures forall i :: 0 <= i < ENTRIES ==> t[i] == LeafEntry(e.frame + i * PAGE, e.bits)
  {
    seq(ENTRIES, i requires 0 <= i => LeafEntry(e.frame + i * PAGE, e.bits))
  }

  /** The page number with its `level` lowest table indices dropped. */
  function Prefix(vpn: nat, level: nat): nat {
    if level == 0 then vpn else Prefix(vpn, level - 1) / ENTRIES
  }

  /** index_of: nine bits a level. */
  function Index(vpn: nat, level: nat): (i: nat)
    ensures i < ENTRIES
    ensures Prefix(vpn, level) == ENTRIES * Prefix(vpn, level + 1) + i
  {
    Prefix(vpn, level) % ENTRIES
  }

  lemma TopPrefix(vpn: nat)
    requires vpn < VPN_LIMIT
    ensures Prefix(vpn, 4) == 0
    ensures Prefix(vpn, 3) == Index(vpn, 3)
    ensures Index(vpn, 3) == 0 <==> vpn < USER_VPN
  {
    assert Prefix(vpn, 1) == vpn / 512;
    assert Prefix(vpn, 2) == Prefix(vpn, 1) / 512;
    assert Prefix(vpn, 3) == Prefix(vpn, 2) / 512;
  }

  function Entry(mem: Tables, frame: nat, i: nat): Pte {
    if frame in mem && i < |mem[frame]| then mem[frame][i] else ABSENT
  }

  function SetEntry(mem: Tables, frame: nat, i: nat, e: Pte): (mem': Tables)
    requires frame in mem && i < |mem[frame]|
    ensures mem'.Keys == mem.Keys
    ensures forall g, j: nat :: Entry(mem', g, j) == if g == frame && j == i then e else Entry(mem, g, j)
    ensures forall g :: g in mem ==> |mem'[g]| == |mem[g]|
  {
    mem[frame := mem[frame][i := e]]
  }

  // ------------------------------------------------------------- the walk

  /** Rights accumulated from the entries above: each level can only take away. */
  datatype Access = Access(write: bool, execute: bool)
  const FULL := Access(true, true)

  function Narrow(acc: Access, bits: PageFlags): Access {
    Access(acc.write && bits.write, acc.execute && !bits.noExecute)
  }

  /** Where a page leads: the frame, the leaf's own bits (all but the user
      bit), and the write and execute rights over the whole path. */
  datatype Mapping = Mapping(frame: nat, write: bool, noExecute: bool, global: bool, noCache: bool, access: Access)

  function MappingOf(frame: nat, bits: PageFlags, acc: Access): Mapping {
    Mapping(frame, bits.write, bits.noExecute, bits.global, bits.noCache, Narrow(acc, bits))
  }

  /** The processor's walk, from a table of the given level down. */
  function Walk(mem: Tables, frame: nat, vpn: nat, level: nat, acc: Access): Option<Mapping>
    decreases level
  {
    var e := Entry(mem, frame, Index(vpn, level));
    if !e.present then None
    else if level == 0 then Some(MappingOf(e.frame, e.bits, acc))
    else if e.huge then Some(MappingOf(e.frame + vpn % ENTRIES * PAGE, e.bits, acc))
    else Walk(mem, e.frame, vpn, level - 1, Narrow(acc, e.bits))
  }

  function Look(mem: Tables, root: nat, vpn: nat): Option<Mapping> {
    Walk(mem, root, vpn, 3, FULL)
  }

  /** Whether ring 3 may use the page: every entry of the path has the user bit. */
  function UserWalk(mem: Tables, frame: nat, vpn: nat, level: nat): bool
    decreases level
  {
    var e := Entry(mem, frame, Index(vpn, level));
    && e.present && e.bits.user
    && (level == 0 || e.huge || UserWalk(mem, e.frame, vpn, level - 1))
  }

  function UserMay(mem: Tables, root: nat, vpn: nat): bool {
    UserWalk(mem, root, vpn, 3)
  }

  /** The table of the given level the walk of a page goes through. */
  function TableAt(mem: Tables, root: nat, vpn: nat, level: nat): Option<nat>
    decreases 3 - level
  {
    if level >= 3 then Some(root)
    else match TableAt(mem, root, vpn, level + 1)
      case None => None
      case Some(f) =>
        var e := Entry(mem, f, Index(vpn, level + 1));
        if e.present && !e.huge then Some(e.frame) else None
  }

  // ------------------------------------------------------------- the tree

  /** The place a table frame has in the forest of address spaces. */
  datatype Owner = Owner(space: nat, level: nat, prefix: nat, parent: nat)

  const KERNEL: nat := 0

  /** The space whose tables serve a page: all pages under top-level entry
      zero are the kernel's, in every space. */
  function SpaceAt(space: nat, vpn: nat): nat {
    if Prefix(vpn, 3) == 0 then KERNEL else space
  }

  function ChildSpace(o: Owner, i: nat): nat {
    if o.level == 3 && i == 0 then KERNEL else o.space
  }

  function ChildParent(roots: map<nat, nat>, f: nat, o: Owner, i: nat): nat {
    if o.level == 3 && i == 0 && KERNEL in roots then roots[KERNEL] else f
  }

  ghost predicate GoodEntry(own: map<nat, Owner>, roots: map<nat, nat>, f: nat, i: nat, e: Pte)
    requires f in own
  {
    var o := own[f];
    && (e.present ==> e.frame % PAGE == 0 && e.frame < PHYS_LIMIT)
    && (e.huge ==> e.present && o.level == 1 && e.frame + HUGE_PAGE <= PHYS_LIMIT && o.space == KERNEL && o.prefix == 0)
    && (o.level > 0 && e.present && !e.huge ==>
          && e.bits.write && !e.bits.noExecute
          && e.frame in own
          && own[e.frame].space == ChildSpace(o, i)
          && own[e.frame].level == o.level - 1
          && own[e.frame].prefix == ENTRIES * o.prefix + i
          && own[e.frame].parent == ChildParent(roots, f, o, i))
  }

  ghost predicate GoodRoots(mem: Tables, own: map<nat, Owner>, roots: map<nat, nat>) {
    && KERNEL in roots
    && (forall s :: s in roots ==> roots[s] in own && own[roots[s]].level == 3 && own[roots[s]].prefix == 0
                                   && own[roots[s]].space == s)
    && (forall s :: s in roots ==> Entry(mem, roots[s], 0) == Entry(mem, roots[KERNEL], 0))
    && (forall s :: s in roots && s != KERNEL ==> Entry(mem, roots[KERNEL], 0).present)
    && (forall f :: f in own && own[f].level == 3 ==> own[f].space in roots && roots[own[f].space] == f)
  }

  /** The tables form a tree a space, grafted together at top-level entry zero. */
  ghost predicate Inv(mem: Tables, own: map<nat, Owner>, roots: map<nat, nat>) {
    && own.Keys <= mem.Keys
    && (forall f :: f in own ==> |mem[f]| == ENTRIES && own[f].level <= 3)
    && GoodRoots(mem, own, roots)
    && (forall f, i: nat :: f in own && i < ENTRIES ==> GoodEntry(own, roots, f, i, Entry(mem, f, i)))
  }

  /** Every table is referenced from one slot only; the kernel's first branch
      from slot zero of each top-level table. */
  lemma OneParentSlot(mem: Tables, own: map<nat, Owner>, roots: map<nat, nat>, f: nat, i: nat, g: nat, j: nat)
    requires Inv(mem, own, roots)
    requires f in own && i < ENTRIES && g in own && j < ENTRIES
    requires own[f].level > 0 && Entry(mem, f, i).present && !Entry(mem, f, i).huge
    requires own[g].level > 0 && Entry(mem, g, j).present && !Entry(mem, g, j).huge
    requires Entry(mem, f, i).frame == Entry(mem, g, j).frame
    ensures i == j && own[f].level == own[g].level
    ensures f == g || (i == 0 && own[f].level == 3)
  {
    assert GoodEntry(own, roots, f, i, Entry(mem, f, i));
    assert GoodEntry(own, roots, g, j, Entry(mem, g, j));
    assert i == own[Entry(mem, f, i).frame].prefix % ENTRIES;
    assert j == own[Entry(mem, g, j).frame].prefix % ENTRIES;
  }

  /** Table f is where the walk of vpn in the given space stands at a level. */
  ghost predicate Serves(own: map<nat, Owner>, f: nat, space: nat, vpn: nat, level: nat) {
    && f in own && own[f].level == level
    && own[f].prefix == Prefix(vpn, level + 1)
    && own[f].space == if level == 3 then space else SpaceAt(space, vpn)
  }

  lemma RootServes(mem: Tables, own: map<nat, Owner>, roots: map<nat, nat>, space: nat, vpn: nat)
    requires Inv(mem, own, roots) && space in roots && vpn < VPN_LIMIT
    ensures Serves(own, roots[space], space, vpn, 3)
  {
    TopPrefix(vpn);
  }

  lemma ChildServes(mem: Tables, own: map<nat, Owner>, roots: map<nat, nat>, f: nat, space: nat, vpn: nat, level: nat)
    requires Inv(mem, own, roots) && vpn < VPN_LIMIT
    requires 0 < level <= 3 && Serves(own, f, space, vpn, level)
    requires Entry(mem, f, Index(vpn, level)).present && !Entry(mem, f, Index(vpn, level)).huge
    ensures Serves(own, Entry(mem, f, Index(vpn, level)).frame, space, vpn, level - 1)
    ensures Entry(mem, f, Index(vpn, level)).bits.write && !Entry(mem, f, Index(vpn, level)).bits.noExecute
  {
    var i := Index(vpn, level);
    assert GoodEntry(own, roots, f, i, Entry(mem, f, i));
    TopPrefix(vpn);
  }

  lemma {:induction false} TableAtServes(mem: Tables, own: map<nat, Owner>, roots: map<nat, nat>, space: nat, vpn: nat,
                                         level: nat)
    requires Inv(mem, own, roots) && space in roots && vpn < VPN_LIMIT && level <= 3
    requires TableAt(mem, roots[space], vpn, level).Some?
    ensures Serves(own, TableAt(mem, roots[space], vpn, level).value, space, vpn, level)
    decreases 3 - level
  {
    if level == 3 {
      RootServes(mem, own, roots, space, vpn);
    } else {
      TableAtServes(mem, own, roots, space, vpn, level + 1);
      ChildServes(mem, own, roots, TableAt(mem, roots[space], vpn, level + 1).value, space, vpn, level + 1);
    }
  }

  /** A walk goes on from the table it passes, with all rights left. */
  lemma {:induction false} WalkFromTable(mem: Tables, own: map<nat, Owner>, roots: map<nat, nat>, space: nat, vpn: nat,
                                         level: nat)
    requires Inv(mem, own, roots) && space in roots && vpn < VPN_LIMIT && level <= 3
    requires TableAt(mem, roots[space], vpn, level).Some?
    ensures Look(mem, roots[space], vpn) == Walk(mem, TableAt(mem, roots[space], vpn, level).value, vpn, level, FULL)
    decreases 3 - level
  {
    if level < 3 {
      WalkFromTable(mem, own, roots, space, vpn, level + 1);
      TableAtServes(mem, own, roots, space, vpn, level + 1);
      ChildServes(mem, own, roots, TableAt(mem, roots[space], vpn, level + 1).value, space, vpn, level + 1);
    }
  }

  // ------------------------------------------------- changing one table

  /** mem' differs from mem, as far as known tables go, at most in table t. */
  ghost predicate ChangesOnly(mem: Tables, mem': Tables, own: map<nat, Owner>, t: nat) {
    forall f, i: nat :: f in own && f != t ==> Entry(mem', f, i) == Entry(mem, f, i)
  }

  /** If a changed table still answers a page the same way, so does every
      table above it; tables that are not above it are not affected at all. */
  lemma {:induction false} WalkFrame(mem: Tables, mem': Tables, own: map<nat, Owner>, roots: map<nat, nat>, t: nat,
                                     f: nat, space: nat, vpn: nat, level: nat, acc: Access)
    requires Inv(mem, own, roots) && vpn < VPN_LIMIT && level <= 3
    requires t in own && ChangesOnly(mem, mem', own, t)
    requires Serves(own, f, space, vpn, level)
    requires Serves(own, t, space, vpn, own[t].level) ==>
               forall a :: Walk(mem', t, vpn, own[t].level, a) == Walk(mem, t, vpn, own[t].level, a)
    ensures Walk(mem', f, vpn, level, acc) == Walk(mem, f, vpn, level, acc)
    decreases level
  {
    if f != t {
      var e := Entry(mem, f, Index(vpn, level));
      assert Entry(mem', f, Index(vpn, level)) == e;
      if e.present && level > 0 && !e.huge {
        ChildServes(mem, own, roots, f, space, vpn, level);
        WalkFrame(mem, mem', own, roots, t, e.frame, space, vpn, level - 1, Narrow(acc, e.bits));
      }
    }
  }

  /** Below the changed table nothing changes. */
  lemma {:induction false} WalkBelow(mem: Tables, mem': Tables, own: map<nat, Owner>, roots: map<nat, nat>, t: nat,
                                     f: nat, space: nat, vpn: nat, level: nat, acc: Access)
    requires Inv(mem, own, roots) && vpn < VPN_LIMIT && level <= 3
    requires t in own && ChangesOnly(mem, mem', own, t)
    requires Serves(own, f, space, vpn, level) && level < own[t].level
    ensures Walk(mem', f, vpn, level, acc) == Walk(mem, f, vpn, level, acc)
    decreases level
  {
    var e := Entry(mem, f, Index(vpn, level));
    assert Entry(mem', f, Index(vpn, level)) == e;
    if e.present && level > 0 && !e.huge {
      ChildServes(mem, own, roots, f, space, vpn, level);
      WalkBelow(mem, mem', own, roots, t, e.frame, space, vpn, level - 1, Narrow(acc, e.bits));
    }
  }

  /** Every page of every space is mapped alike, with the same rights. */
  ghost predicate SameView(mem: Tables, mem': Tables, roots: map<nat, nat>) {
    forall s, vpn: nat :: s in roots && vpn < VPN_LIMIT ==> Look(mem', roots[s], vpn) == Look(mem, roots[s], vpn)
  }

  /** One slot of table t changed, and the slot answers as before. */
  lemma SlotChange(mem: Tables, mem': Tables, own: map<nat, Owner>, roots: map<nat, nat>, t: nat, i: nat)
    requires Inv(mem, own, roots) && t in own && i < ENTRIES
    requires ChangesOnly(mem, mem', own, t)
    requires forall j: nat :: j != i ==> Entry(mem', t, j) == Entry(mem, t, j)
    requires forall space, vpn: nat, a ::
               (space in roots && vpn < VPN_LIMIT && Serves(own, t, space, vpn, own[t].level)
                && Index(vpn, own[t].level) == i) ==>
               Walk(mem', t, vpn, own[t].level, a) == Walk(mem, t, vpn, own[t].level, a)
    ensures SameView(mem, mem', roots)
  {
    forall s, vpn: nat | s in roots && vpn < VPN_LIMIT
      ensures Look(mem', roots[s], vpn) == Look(mem, roots[s], vpn)
    {
      RootServes(mem, own, roots, s, vpn);
      if Serves(own, t, s, vpn, own[t].level) {
        forall a
          ensures Walk(mem', t, vpn, own[t].level, a) == Walk(mem, t, vpn, own[t].level, a)
        {
          if Index(vpn, own[t].level) != i {
            OtherSlot(mem, mem', own, roots, t, i, s, vpn, a);
          }
        }
      }
      WalkFrame(mem, mem', own, roots, t, roots[s], s, vpn, 3, FULL);
    }
  }

  lemma OtherSlot(mem: Tables, mem': Tables, own: map<nat, Owner>, roots: map<nat, nat>, t: nat, i: nat,
                  space: nat, vpn: nat, acc: Access)
    requires Inv(mem, own, roots) && t in own && vpn < VPN_LIMIT
    requires ChangesOnly(mem, mem', own, t)
    requires forall j: nat :: j != i ==> Entry(mem', t, j) == Entry(mem, t, j)
    requires Serves(own, t, space, vpn, own[t].level) && Index(vpn, own[t].level) != i
    ensures Walk(mem', t, vpn, own[t].level, acc) == Walk(mem, t, vpn, own[t].level, acc)
  {
    var level := own[t].level;
    var e := Entry(mem, t, Index(vpn, level));
    if e.present && level > 0 && !e.huge {
      ChildServes(mem, own, roots, t, space, vpn, level);
      WalkBelow(mem, mem', own, roots, t, e.frame, space, vpn, level - 1, Narrow(acc, e.bits));
    }
  }

  // ------------------------------------------- the steps of table_for

  function ChildOwner(own: map<nat, Owner>, roots: map<nat, nat>, t: nat, i: nat): Owner
    requires t in own && own[t].level > 0
  {
    Owner(ChildSpace(own[t], i), own[t].level - 1, ENTRIES * own[t].prefix + i, ChildParent(roots, t, own[t], i))
  }

  /** Slot zero of a top-level table may only change while no process shares it. */
  ghost predicate MayChangeSlot(own: map<nat, Owner>, roots: map<nat, nat>, t: nat, i: nat)
    requires t in own
  {
    own[t].level == 3 && i == 0 ==> roots.Keys == {KERNEL}
  }

  /** A new slot value that is good keeps the whole tree good. */
  lemma SetKeepsInv(mem: Tables, own: map<nat, Owner>, roots: map<nat, nat>, t: nat, i: nat, e: Pte)
    requires Inv(mem, own, roots) && t in own && i < ENTRIES
    requires GoodEntry(own, roots, t, i, e) && MayChangeSlot(own, roots, t, i)
    ensures Inv(SetEntry(mem, t, i, e), own, roots)
  {
    var mem' := SetEntry(mem, t, i, e);
    forall s | s in roots
      ensures Entry(mem', roots[s], 0) == Entry(mem', roots[KERNEL], 0)
      ensures s != KERNEL ==> Entry(mem', roots[KERNEL], 0).present
    {
      if t == roots[s] && i == 0 {
        assert s in roots.Keys;
      }
      if t == roots[KERNEL] && i == 0 {
        assert s in roots.Keys;
      }
    }
  }

  /** A table frame enters the tree below a slot of t. */
  lemma AdoptKeepsInv(mem: Tables, own: map<nat, Owner>, roots: map<nat, nat>, t: nat, i: nat, next: nat)
    requires Inv(mem, own, roots) && t in own && i < ENTRIES && own[t].level > 0
    requires next !in own && next in mem && |mem[next]| == ENTRIES
    requires forall j: nat :: j < ENTRIES ==> var e := mem[next][j];
               GoodEntry(own[next := ChildOwner(own, roots, t, i)], roots, next, j, e)
    ensures Inv(mem, own[next := ChildOwner(own, roots, t, i)], roots)
  {
    var own' := own[next := ChildOwner(own, roots, t, i)];
    forall f, j: nat | f in own' && j < ENTRIES
      ensures GoodEntry(own', roots, f, j, Entry(mem, f, j))
    {
      if f != next {
        assert GoodEntry(own, roots, f, j, Entry(mem, f, j));
      }
    }
  }

  /** An absent slot is absent in every space that has it. */
  lemma AbsentSlotIsPrivate(mem: Tables, own: map<nat, Owner>, roots: map<nat, nat>, t: nat, i: nat)
    requires Inv(mem, own, roots) && t in own && !Entry(mem, t, i).present
    ensures MayChangeSlot(own, roots, t, i)
  {
    if own[t].level == 3 && i == 0 {
      forall s | s in roots
        ensures s == KERNEL
      {
      }
    }
  }

  /** Linking a zeroed table into an absent slot changes no mapping. */
  lemma LinkTable(mem: Tables, own: map<nat, Owner>, roots: map<nat, nat>, t: nat, i: nat, next: nat)
    requires Inv(mem, own, roots) && t in own && i < ENTRIES && own[t].level > 0
    requires !Entry(mem, t, i).present
    requires next !in own && next in mem && mem[next] == EmptyTable() && next % PAGE == 0 && next < PHYS_LIMIT
    ensures var mem' := SetEntry(mem, t, i, TableEntry(next));
            Inv(mem', own[next := ChildOwner(own, roots, t, i)], roots) && SameView(mem, mem', roots)
  {
    var own' := own[next := ChildOwner(own, roots, t, i)];
    var mem' := SetEntry(mem, t, i, TableEntry(next));
    AdoptKeepsInv(mem, own, roots, t, i, next);
    AbsentSlotIsPrivate(mem, own, roots, t, i);
    SetKeepsInv(mem, own', roots, t, i, TableEntry(next));
    var level := own[t].level;
    forall space, vpn: nat, a | space in roots && vpn < VPN_LIMIT && Serves(own, t, space, vpn, level)
           && Index(vpn, level) == i
      ensures Walk(mem', t, vpn, level, a) == Walk(mem, t, vpn, level, a)
    {
      assert Entry(mem', next, Index(vpn, level - 1)) == ABSENT;
    }
    SlotChange(mem, mem', own, roots, t, i);
  }

  /** Marking an entry for ring 3 changes no mapping, write or execute right. */
  lemma MarkUser(mem: Tables, own: map<nat, Owner>, roots: map<nat, nat>, t: nat, i: nat)
    requires Inv(mem, own, roots) && t in own && i < ENTRIES && own[t].level > 0
    requires Entry(mem, t, i).present && MayChangeSlot(own, roots, t, i)
    ensures var mem' := SetEntry(mem, t, i, WithUser(Entry(mem, t, i)));
            Inv(mem', own, roots) && SameView(mem, mem', roots)
  {
    var e := Entry(mem, t, i);
    var mem' := SetEntry(mem, t, i, WithUser(e));
    assert GoodEntry(own, roots, t, i, e);
    SetKeepsInv(mem, own, roots, t, i, WithUser(e));
    var level := own[t].level;
    forall space, vpn: nat, a | space in roots && vpn < VPN_LIMIT && Serves(own, t, space, vpn, level)
           && Index(vpn, level) == i
      ensures Walk(mem', t, vpn, level, a) == Walk(mem, t, vpn, level, a)
    {
      if !e.huge {
        ChildServes(mem, own, roots, t, space, vpn, level);
        WalkBelow(mem, mem', own, roots, t, e.frame, space, vpn, level - 1, Narrow(a, e.bits));
      }
    }
    SlotChange(mem, mem', own, roots, t, i);
  }

  /** Splitting a 2 MiB page preserves the meaning of all 512 pages in it. */
  lemma SplitHuge(mem: Tables, own: map<nat, Owner>, roots: map<nat, nat>, t: nat, i: nat, next: nat)
    requires Inv(mem, own, roots) && t in own && i < ENTRIES
    requires Entry(mem, t, i).huge
    requires next !in own && next in mem && mem[next] == SplitTable(Entry(mem, t, i))
    requires next % PAGE == 0 && next < PHYS_LIMIT
    ensures own[t].level == 1
    ensures var mem' := SetEntry(mem, t, i, TableEntry(next));
            Inv(mem', own[next := ChildOwner(own, roots, t, i)], roots) && SameView(mem, mem', roots)
  {
    assert GoodEntry(own, roots, t, i, Entry(mem, t, i));
    var own' := own[next := ChildOwner(own, roots, t, i)];
    var mem' := SetEntry(mem, t, i, TableEntry(next));
    AdoptKeepsInv(mem, own, roots, t, i, next);
    SetKeepsInv(mem, own', roots, t, i, TableEntry(next));
    forall space, vpn: nat, a | space in roots && vpn < VPN_LIMIT && Serves(own, t, space, vpn, 1) && Index(vpn, 1) == i
      ensures Walk(mem', t, vpn, 1, a) == Walk(mem, t, vpn, 1, a)
    {
      SplitWalk(mem, t, i, next, vpn, a);
    }
    hide Walk, SplitTable;
    SlotChange(mem, mem', own, roots, t, i);
  }

  lemma SplitWalk(mem: Tables, t: nat, i: nat, next: nat, vpn: nat, a: Access)
    requires t in mem && i < |mem[t]| && next in mem && next != t && Index(vpn, 1) == i
    requires Entry(mem, t, i).huge && Entry(mem, t, i).present && mem[next] == SplitTable(Entry(mem, t, i))
    ensures Walk(SetEntry(mem, t, i, TableEntry(next)), t, vpn, 1, a) == Walk(mem, t, vpn, 1, a)
  {
    var e, mem' := Entry(mem, t, i), SetEntry(mem, t, i, TableEntry(next));
    assert Index(vpn, 0) == vpn % ENTRIES;
    assert Entry(mem', next, vpn % ENTRIES) == LeafEntry(e.frame + vpn % ENTRIES * PAGE, e.bits);
    assert Walk(mem', next, vpn, 0, a) == Some(MappingOf(e.frame + vpn % ENTRIES * PAGE, e.bits, a));
  }

  /** Changing a slot of a table leaves the path down to that table alone. */
  lemma {:induction false} PathStays(mem: Tables, mem': Tables, own: map<nat, Owner>, roots: map<nat, nat>, t: nat,
                                     space: nat, vpn: nat, level: nat)
    requires Inv(mem, own, roots) && space in roots && vpn < VPN_LIMIT && level <= 3
    requires t in own && own[t].level <= level && ChangesOnly(mem, mem', own, t)
    requires TableAt(mem, roots[space], vpn, level).Some?
    ensures TableAt(mem', roots[space], vpn, level) == TableAt(mem, roots[space], vpn, level)
    decreases 3 - level
  {
    if level < 3 {
      PathStays(mem, mem', own, roots, t, space, vpn, level + 1);
      TableAtServes(mem, own, roots, space, vpn, level + 1);
    }
  }

  // --------------------------------------------------- writing a leaf

  /** Spaces s and space read page vpn through the same tables. */
  predicate Sees(s: nat, space: nat, vpn: nat) {
    SpaceAt(s, vpn) == SpaceAt(space, vpn)
  }

  /** Low pages are looked up identically from every top-level table. */
  lemma LowPagesShared(mem: Tables, own: map<nat, Owner>, roots: map<nat, nat>, s: nat, vpn: nat)
    requires Inv(mem, own, roots) && s in roots && vpn < USER_VPN
    ensures Look(mem, roots[s], vpn) == Look(mem, roots[KERNEL], vpn)
    ensures UserMay(mem, roots[s], vpn) == UserMay(mem, roots[KERNEL], vpn)
  {
    TopPrefix(vpn);
    assert Entry(mem, roots[s], 0) == Entry(mem, roots[KERNEL], 0);
  }

  /** One page, in the spaces that see it, has a new mapping; no other has. */
  ghost predicate PageSet(mem: Tables, mem': Tables, roots: map<nat, nat>, space: nat, vpn: nat, m: Option<Mapping>) {
    forall s, v: nat :: s in roots && v < VPN_LIMIT ==>
      Look(mem', roots[s], v) == if v == vpn && Sees(s, space, vpn) then m else Look(mem, roots[s], v)
  }

  /** Spaces that see a page through the same tables agree on it. */
  lemma SeersAgree(mem: Tables, own: map<nat, Owner>, roots: map<nat, nat>, s: nat, space: nat, vpn: nat)
    requires Inv(mem, own, roots) && s in roots && space in roots && vpn < VPN_LIMIT && Sees(s, space, vpn)
    ensures Look(mem, roots[s], vpn) == Look(mem, roots[space], vpn)
  {
    TopPrefix(vpn);
    if s != space {
      LowPagesShared(mem, own, roots, s, vpn);
      LowPagesShared(mem, own, roots, space, vpn);
    }
  }

  lemma OffsetInHugePage(address: nat)
    ensures address % HUGE_PAGE == address / PAGE % ENTRIES * PAGE + address % PAGE
  {
  }

  function LeafMapping(e: Pte): Option<Mapping> {
    if e.present then Some(MappingOf(e.frame, e.bits, FULL)) else None
  }

  lemma LeafLook(mem: Tables, own: map<nat, Owner>, roots: map<nat, nat>, space: nat, vpn: nat, t: nat)
    requires Inv(mem, own, roots) && space in roots && vpn < VPN_LIMIT
    requires TableAt(mem, roots[space], vpn, 0) == Some(t)
    ensures Serves(own, t, space, vpn, 0)
    ensures Look(mem, roots[space], vpn) == LeafMapping(Entry(mem, t, Index(vpn, 0)))
    ensures var e := Entry(mem, t, Index(vpn, 0)); e.present ==> e.frame % PAGE == 0 && e.frame < PHYS_LIMIT
  {
    TableAtServes(mem, own, roots, space, vpn, 0);
    assert GoodEntry(own, roots, t, Index(vpn, 0), Entry(mem, t, Index(vpn, 0)));
    WalkFromTable(mem, own, roots, space, vpn, 0);
  }

  /** Writing the last-level slot of a page sets that page, in the spaces that
      see it, and no other page of any space. */
  lemma WriteLeaf(mem: Tables, own: map<nat, Owner>, roots: map<nat, nat>, space: nat, vpn: nat, t: nat, e: Pte)
    requires Inv(mem, own, roots) && space in roots && vpn < VPN_LIMIT
    requires TableAt(mem, roots[space], vpn, 0) == Some(t)
    requires !e.huge && (e.present ==> e.frame % PAGE == 0 && e.frame < PHYS_LIMIT)
    ensures t in own && own[t].level == 0
    ensures var mem' := SetEntry(mem, t, Index(vpn, 0), e);
            Inv(mem', own, roots) && PageSet(mem, mem', roots, space, vpn, LeafMapping(e))
  {
    LeafLook(mem, own, roots, space, vpn, t);
    var i := Index(vpn, 0);
    var mem' := SetEntry(mem, t, i, e);
    SetKeepsInv(mem, own, roots, t, i, e);
    PathStays(mem, mem', own, roots, t, space, vpn, 0);
    LeafLook(mem', own, roots, space, vpn, t);
    forall s, v: nat | s in roots && v < VPN_LIMIT
      ensures Look(mem', roots[s], v) ==
              if v == vpn && Sees(s, space, vpn) then LeafMapping(e) else Look(mem, roots[s], v)
    {
      if v == vpn && Sees(s, space, vpn) {
        TopPrefix(vpn);
        if s != space {
          LowPagesShared(mem', own, roots, s, vpn);
          LowPagesShared(mem', own, roots, space, vpn);
        }
      } else {
        RootServes(mem, own, roots, s, v);
        if Serves(own, t, s, v, 0) {
          assert Index(v, 0) != i;
          forall a
            ensures Walk(mem', t, v, 0, a) == Walk(mem, t, v, 0, a)
          {
          }
        }
        WalkFrame(mem, mem', own, roots, t, roots[s], s, v, 3, FULL);
      }
    }
  }
}
