/**
 What ring 3 may use, page by page, and how every single store changes it. Two
 entries decide: the page's own, and the one of the page directory above it.
 The entries further up follow the one of the page directory.
 */
module PageOpen {
  import opened Basics
  import opened PageWalk
  import opened PageUser

  /** The pages under one entry of a page directory. */
  function Region(vpn: nat): nat {
    vpn / ENTRIES
  }

  /** The entry of the page directory the walk of a page passes. */
  function DirectoryEntry(mem: Tables, root: nat, vpn: nat): Pte {
    match TableAt(mem, root, vpn, 1)
    case None => ABSENT
    case Some(t) => Entry(mem, t, Index(vpn, 1))
  }

  /** The last-level entry of a page. */
  function PageEntry(mem: Tables, root: nat, vpn: nat): Pte {
    match TableAt(mem, root, vpn, 0)
    case None => ABSENT
    case Some(t) => Entry(mem, t, Index(vpn, 0))
  }

  predicate IsOpen(e: Pte) {
    e.present && e.bits.user
  }

  /** The page lies in a 2 MiB page. */
  predicate HugeAt(mem: Tables, root: nat, vpn: nat) {
    DirectoryEntry(mem, root, vpn).huge
  }

  /** Whether a page lies in a 2 MiB page, whether the entry of its page directory
      is open to ring 3, and whether its own entry is. */
  datatype Gate = Gate(huge: bool, marked: bool, leaf: bool)

  function GateAt(mem: Tables, root: nat, vpn: nat): Gate {
    Gate(HugeAt(mem, root, vpn), IsOpen(DirectoryEntry(mem, root, vpn)), IsOpen(PageEntry(mem, root, vpn)))
  }

  predicate Lets(g: Gate) {
    g.marked && (g.huge || g.leaf)
  }

  /** The direct map is the only place of 2 MiB pages. */
  const DIRECT_PAGES: nat := 0x4_0000

  predicate Small(space: nat, vpn: nat) {
    SpaceAt(space, vpn) != KERNEL || DIRECT_PAGES <= vpn
  }

  /** Above an open entry of a page directory all entries are open, and outside
      the direct map an open page is under one. */
  ghost predicate Nested(mem: Tables, roots: map<nat, nat>) {
    && (forall s, v: nat :: s in roots && v < VPN_LIMIT && GateAt(mem, roots[s], v).marked ==>
          UserPath(mem, roots[s], v, 1))
    && (forall s, v: nat :: s in roots && v < VPN_LIMIT && Small(s, v) && GateAt(mem, roots[s], v).leaf ==>
          GateAt(mem, roots[s], v).marked)
  }

  /** Tables without a mark for ring 3 are in order, and open nothing. */
  lemma NoneOpen(mem: Tables, own: map<nat, Owner>, roots: map<nat, nat>)
    requires Inv(mem, own, roots) && forall f, i: nat :: !IsOpen(Entry(mem, f, i))
    ensures Nested(mem, roots)
    ensures forall s, v: nat :: s in roots && v < VPN_LIMIT ==> !UserMay(mem, roots[s], v)
  {
    forall s, v: nat | s in roots && v < VPN_LIMIT
      ensures !UserMay(mem, roots[s], v)
    {
      GateDecides(mem, own, roots, s, v);
    }
  }

  /** The gate says what the walk says. */
  lemma GateDecides(mem: Tables, own: map<nat, Owner>, roots: map<nat, nat>, s: nat, v: nat)
    requires Inv(mem, own, roots) && Nested(mem, roots) && s in roots && v < VPN_LIMIT
    ensures UserMay(mem, roots[s], v) == Lets(GateAt(mem, roots[s], v))
  {
    var root := roots[s];
    if TableAt(mem, root, v, 1).None? {
      NoDirectory(mem, own, roots, s, v);
    } else {
      var t := TableAt(mem, root, v, 1).value;
      UserFromTable(mem, root, v, 1);
      EntryOnPath(mem, own, roots, s, v, 1, t);
      if Entry(mem, t, Index(v, 1)).present && !Entry(mem, t, Index(v, 1)).huge {
        assert TableAt(mem, root, v, 0) == Some(Entry(mem, t, Index(v, 1)).frame);
      }
    }
  }

  /** Ring 3 may not use a page that has no page directory. */
  lemma NoDirectory(mem: Tables, own: map<nat, Owner>, roots: map<nat, nat>, s: nat, v: nat)
    requires Inv(mem, own, roots) && s in roots && v < VPN_LIMIT && TableAt(mem, roots[s], v, 1).None?
    ensures !UserMay(mem, roots[s], v) && TableAt(mem, roots[s], v, 0).None?
  {
    var level := if TableAt(mem, roots[s], v, 2).None? then 3 else 2;
    var t := TableAt(mem, roots[s], v, level).value;
    EntryOnPath(mem, own, roots, s, v, level, t);
    UserFromTable(mem, roots[s], v, level);
  }

  /** On a path only the page directory holds 2 MiB pages. */
  lemma EntryOnPath(mem: Tables, own: map<nat, Owner>, roots: map<nat, nat>, space: nat, vpn: nat, level: nat, t: nat)
    requires Inv(mem, own, roots) && space in roots && vpn < VPN_LIMIT && 1 <= level <= 3
    requires TableAt(mem, roots[space], vpn, level) == Some(t)
    ensures Entry(mem, t, Index(vpn, level)).huge ==> level == 1 && Entry(mem, t, Index(vpn, level)).present
    ensures level == 1 ==> HugeAt(mem, roots[space], vpn) == Entry(mem, t, Index(vpn, level)).huge
    ensures !Entry(mem, t, Index(vpn, level)).present ==> Look(mem, roots[space], vpn) == None
  {
    TableAtServes(mem, own, roots, space, vpn, level);
    assert GoodEntry(own, roots, t, Index(vpn, level), Entry(mem, t, Index(vpn, level)));
    WalkFromTable(mem, own, roots, space, vpn, level);
  }

  /** 2 MiB pages occur in the direct map only. */
  lemma NoHuge(mem: Tables, own: map<nat, Owner>, roots: map<nat, nat>, space: nat, vpn: nat)
    requires Inv(mem, own, roots) && space in roots && vpn < VPN_LIMIT && Small(space, vpn)
    ensures !HugeAt(mem, roots[space], vpn)
  {
    if TableAt(mem, roots[space], vpn, 1).Some? {
      TableAtServes(mem, own, roots, space, vpn, 1);
      var t := TableAt(mem, roots[space], vpn, 1).value;
      assert GoodEntry(own, roots, t, Index(vpn, 1), Entry(mem, t, Index(vpn, 1)));
      assert Prefix(vpn, 1) == vpn / ENTRIES;
      assert Prefix(vpn, 2) == Prefix(vpn, 1) / ENTRIES;
    }
  }

  // ------------------------------------------------------------- regions

  lemma RegionIsPrefix(vpn: nat)
    ensures Prefix(vpn, 1) == Region(vpn)
  {
  }

  /** Pages of one region are walked alike down to the page directory. */
  lemma {:induction false} RegionPath(mem: Tables, root: nat, v: nat, vpn: nat, level: nat)
    requires Region(v) == Region(vpn) && 1 <= level
    ensures TableAt(mem, root, v, level) == TableAt(mem, root, vpn, level)
    ensures UserPath(mem, root, v, level) == UserPath(mem, root, vpn, level)
    ensures Prefix(v, level) == Prefix(vpn, level) && Index(v, level) == Index(vpn, level)
    decreases 3 - level
  {
    RegionPrefix(v, vpn, level);
    if level < 3 {
      RegionPath(mem, root, v, vpn, level + 1);
    }
  }

  lemma {:induction false} RegionPrefix(v: nat, vpn: nat, level: nat)
    requires Region(v) == Region(vpn) && 1 <= level
    ensures Prefix(v, level) == Prefix(vpn, level)
  {
    if level == 1 {
      RegionIsPrefix(v);
      RegionIsPrefix(vpn);
    } else {
      RegionPrefix(v, vpn, level - 1);
    }
  }

  /** Low pages are walked alike from every top-level table. */
  lemma {:induction false} LowPath(mem: Tables, own: map<nat, Owner>, roots: map<nat, nat>, s: nat, v: nat, level: nat)
    requires Inv(mem, own, roots) && s in roots && v < USER_VPN && level <= 2
    ensures TableAt(mem, roots[s], v, level) == TableAt(mem, roots[KERNEL], v, level)
    ensures UserPath(mem, roots[s], v, level) == UserPath(mem, roots[KERNEL], v, level)
    decreases 3 - level
  {
    TopPrefix(v);
    assert Entry(mem, roots[s], 0) == Entry(mem, roots[KERNEL], 0);
    if level < 2 {
      LowPath(mem, own, roots, s, v, level + 1);
    } else {
      assert TableAt(mem, roots[s], v, 3) == Some(roots[s]);
      assert TableAt(mem, roots[KERNEL], v, 3) == Some(roots[KERNEL]);
    }
  }

  lemma SeersPath(mem: Tables, own: map<nat, Owner>, roots: map<nat, nat>, s: nat, space: nat, v: nat, level: nat)
    requires Inv(mem, own, roots) && s in roots && space in roots && v < VPN_LIMIT && level <= 2 && Sees(s, space, v)
    ensures TableAt(mem, roots[s], v, level) == TableAt(mem, roots[space], v, level)
    ensures UserPath(mem, roots[s], v, level) == UserPath(mem, roots[space], v, level)
  {
    TopPrefix(v);
    if s != space {
      LowPath(mem, own, roots, s, v, level);
      LowPath(mem, own, roots, space, v, level);
    }
  }

  /** Spaces that see a page through the same tables have the same gate. */
  lemma SeersGate(mem: Tables, own: map<nat, Owner>, roots: map<nat, nat>, s: nat, space: nat, v: nat)
    requires Inv(mem, own, roots) && s in roots && space in roots && v < VPN_LIMIT && Sees(s, space, v)
    ensures GateAt(mem, roots[s], v) == GateAt(mem, roots[space], v)
  {
    SeersPath(mem, own, roots, s, space, v, 1);
    SeersPath(mem, own, roots, s, space, v, 0);
  }

  /** Page v of space s is under the same entry of a page directory as vpn of space. */
  predicate Near(s: nat, space: nat, v: nat, vpn: nat) {
    Sees(s, space, v) && Region(v) == Region(vpn)
  }

  /** The walk of v passes slot i of table t. */
  predicate Through(mem: Tables, root: nat, v: nat, level: nat, t: nat, i: nat) {
    TableAt(mem, root, v, level) == Some(t) && Index(v, level) == i
  }

  /** The pages through one slot of a page directory are the near ones. */
  lemma NearIsThrough(mem: Tables, own: map<nat, Owner>, roots: map<nat, nat>, space: nat, vpn: nat, t: nat,
                      s: nat, v: nat)
    requires Inv(mem, own, roots) && space in roots && s in roots && v < VPN_LIMIT && vpn < VPN_LIMIT
    requires TableAt(mem, roots[space], vpn, 1) == Some(t)
    ensures Through(mem, roots[s], v, 1, t, Index(vpn, 1)) <==> Near(s, space, v, vpn)
    ensures Near(s, space, v, vpn) ==> UserPath(mem, roots[s], v, 1) == UserPath(mem, roots[space], vpn, 1)
  {
    TableAtServes(mem, own, roots, space, vpn, 1);
    if Near(s, space, v, vpn) {
      SeersPath(mem, own, roots, s, space, v, 1);
      RegionPath(mem, roots[space], v, vpn, 1);
    }
    if Through(mem, roots[s], v, 1, t, Index(vpn, 1)) {
      TableAtServes(mem, own, roots, s, v, 1);
      RegionIsPrefix(v);
      RegionIsPrefix(vpn);
      RegionPrefix(v, vpn, 3);
    }
  }

  /** The page through one slot of a last-level table is one page. */
  lemma LeafIsThrough(mem: Tables, own: map<nat, Owner>, roots: map<nat, nat>, space: nat, vpn: nat, t: nat,
                      s: nat, v: nat)
    requires Inv(mem, own, roots) && space in roots && s in roots && v < VPN_LIMIT && vpn < VPN_LIMIT
    requires TableAt(mem, roots[space], vpn, 0) == Some(t)
    ensures Through(mem, roots[s], v, 0, t, Index(vpn, 0)) <==> v == vpn && Sees(s, space, v)
  {
    TableAtServes(mem, own, roots, space, vpn, 0);
    if v == vpn && Sees(s, space, v) {
      SeersPath(mem, own, roots, s, space, v, 0);
    }
    if Through(mem, roots[s], v, 0, t, Index(vpn, 0)) {
      TableAtServes(mem, own, roots, s, v, 0);
      assert Prefix(v, 0) == Prefix(vpn, 0);
    }
  }

  // ------------------------------------------------------ one slot changed

  /** A page that does not pass the changed slot is walked as before. */
  lemma {:induction false} PathSame(mem: Tables, mem': Tables, own: map<nat, Owner>, roots: map<nat, nat>, t: nat,
                                    i: nat, space: nat, v: nat, level: nat)
    requires Inv(mem, own, roots) && space in roots && v < VPN_LIMIT && level <= 3
    requires t in own && ChangesOnly(mem, mem', own, t)
    requires forall j: nat :: j != i ==> Entry(mem', t, j) == Entry(mem, t, j)
    requires !Through(mem, roots[space], v, own[t].level, t, i)
    ensures TableAt(mem', roots[space], v, level) == TableAt(mem, roots[space], v, level)
    ensures UserPath(mem', roots[space], v, level) == UserPath(mem, roots[space], v, level)
    ensures var f := TableAt(mem, roots[space], v, level);
            f.Some? ==> Entry(mem', f.value, Index(v, level)) == Entry(mem, f.value, Index(v, level))
    decreases 3 - level
  {
    if level < 3 {
      PathSame(mem, mem', own, roots, t, i, space, v, level + 1);
    }
    if TableAt(mem, roots[space], v, level).Some? {
      TableAtServes(mem, own, roots, space, v, level);
    }
  }

  /** Down to the changed table every page is walked as before. */
  lemma {:induction false} PathAbove(mem: Tables, mem': Tables, own: map<nat, Owner>, roots: map<nat, nat>, t: nat,
                                     space: nat, v: nat, level: nat)
    requires Inv(mem, own, roots) && space in roots && v < VPN_LIMIT && level <= 3
    requires t in own && own[t].level <= level && ChangesOnly(mem, mem', own, t)
    ensures TableAt(mem', roots[space], v, level) == TableAt(mem, roots[space], v, level)
    ensures UserPath(mem', roots[space], v, level) == UserPath(mem, roots[space], v, level)
    decreases 3 - level
  {
    if level < 3 {
      PathAbove(mem, mem', own, roots, t, space, v, level + 1);
      if TableAt(mem, roots[space], v, level + 1).Some? {
        TableAtServes(mem, own, roots, space, v, level + 1);
      }
    }
  }

  /** Nothing but user bits changed: every page is walked as before, and open paths stay open. */
  lemma {:induction false} PathMarked(mem: Tables, mem': Tables, root: nat, v: nat, level: nat)
    requires forall f, j: nat ::
               Entry(mem', f, j) == Entry(mem, f, j) || Entry(mem', f, j) == WithUser(Entry(mem, f, j))
    ensures TableAt(mem', root, v, level) == TableAt(mem, root, v, level)
    ensures UserPath(mem, root, v, level) ==> UserPath(mem', root, v, level)
    decreases 3 - level
  {
    if level < 3 {
      PathMarked(mem, mem', root, v, level + 1);
    }
  }

  /** Tables of other levels are other tables. */
  lemma NotThere(mem: Tables, own: map<nat, Owner>, roots: map<nat, nat>, t: nat, level: nat, space: nat, v: nat)
    requires Inv(mem, own, roots) && space in roots && v < VPN_LIMIT && t in own && own[t].level == level
    ensures level != 0 ==> TableAt(mem, roots[space], v, 0) != Some(t)
    ensures level != 1 ==> TableAt(mem, roots[space], v, 1) != Some(t)
  {
    if TableAt(mem, roots[space], v, 0).Some? {
      TableAtServes(mem, own, roots, space, v, 0);
    }
    if TableAt(mem, roots[space], v, 1).Some? {
      TableAtServes(mem, own, roots, space, v, 1);
    }
  }

  /** A page outside the changed slot is what it was. */
  lemma AsBefore(mem: Tables, mem': Tables, own: map<nat, Owner>, roots: map<nat, nat>, t: nat, i: nat, s: nat, v: nat)
    requires Inv(mem, own, roots) && s in roots && v < VPN_LIMIT
    requires t in own && ChangesOnly(mem, mem', own, t)
    requires forall j: nat :: j != i ==> Entry(mem', t, j) == Entry(mem, t, j)
    requires !Through(mem, roots[s], v, own[t].level, t, i)
    ensures GateAt(mem', roots[s], v) == GateAt(mem, roots[s], v)
    ensures UserPath(mem', roots[s], v, 1) == UserPath(mem, roots[s], v, 1)
  {
    PathSame(mem, mem', own, roots, t, i, s, v, 0);
    PathSame(mem, mem', own, roots, t, i, s, v, 1);
  }

  // -------------------------------------------------- the kinds of change

  /** What a store, or the turn of a page, does to the gates of the near pages. */
  datatype Change =
    | Kept
    | Marked               // the entry of the page directory is marked for ring 3
    | SplitUp              // a 2 MiB page becomes 512 small ones
    | Stored(open: bool)   // the page's own entry is stored
    | Reached(user: bool)  // table_for reached the last-level table
    | Stopped(user: bool)  // table_for gave up on the way
    | Turned(user: bool)   // table_for, then the store of an entry

  function Apply(c: Change, g: Gate, self: bool): Gate {
    match c
    case Kept => g
    case Marked => g.(marked := true)
    case SplitUp => Gate(false, false, g.marked)
    case Stored(open) => if self then g.(leaf := open) else g
    case Reached(user) => if g.huge then Gate(false, false, user || g.marked) else g.(marked := user || g.marked)
    case Stopped(user) => g.(marked := g.marked || (user && g.huge))
    case Turned(user) =>
      if g.huge then Gate(false, false, if self then user else user || g.marked)
      else g.(marked := user || g.marked, leaf := if self then user else g.leaf)
  }

  /** The gates of all pages of all spaces, before and after. */
  ghost predicate Changed(mem: Tables, mem': Tables, roots: map<nat, nat>, space: nat, vpn: nat, c: Change) {
    forall s, v: nat :: s in roots && v < VPN_LIMIT ==>
      GateAt(mem', roots[s], v) == if Near(s, space, v, vpn) then Apply(c, GateAt(mem, roots[s], v), v == vpn)
                                   else GateAt(mem, roots[s], v)
  }

  lemma NothingChanged(mem: Tables, roots: map<nat, nat>, space: nat, vpn: nat)
    ensures Changed(mem, mem, roots, space, vpn, Kept)
  {
  }

  /** Near pages lie in the same 2 MiB page, or in none. */
  lemma NearHuge(mem: Tables, own: map<nat, Owner>, roots: map<nat, nat>, space: nat, vpn: nat, s: nat, v: nat)
    requires Inv(mem, own, roots) && space in roots && s in roots && vpn < VPN_LIMIT && v < VPN_LIMIT
    requires Near(s, space, v, vpn)
    ensures GateAt(mem, roots[s], v).huge == GateAt(mem, roots[space], vpn).huge
    ensures GateAt(mem, roots[s], v).marked == GateAt(mem, roots[space], vpn).marked
  {
    SeersPath(mem, own, roots, s, space, v, 1);
    RegionPath(mem, roots[space], v, vpn, 1);
  }

  /** One change after another makes a third, for pages in a 2 MiB page or not. */
  lemma Combine(mem0: Tables, own0: map<nat, Owner>, mem1: Tables, mem2: Tables, roots: map<nat, nat>,
                space: nat, vpn: nat, c1: Change, c2: Change, c: Change)
    requires Inv(mem0, own0, roots) && space in roots && vpn < VPN_LIMIT
    requires Changed(mem0, mem1, roots, space, vpn, c1) && Changed(mem1, mem2, roots, space, vpn, c2)
    requires forall g: Gate, self: bool :: g.huge == HugeAt(mem0, roots[space], vpn) ==>
               Apply(c2, Apply(c1, g, self), self) == Apply(c, g, self)
    ensures Changed(mem0, mem2, roots, space, vpn, c)
  {
    forall s, v: nat | s in roots && v < VPN_LIMIT
      ensures GateAt(mem2, roots[s], v) == if Near(s, space, v, vpn) then Apply(c, GateAt(mem0, roots[s], v), v == vpn)
                                           else GateAt(mem0, roots[s], v)
    {
      if Near(s, space, v, vpn) {
        NearHuge(mem0, own0, roots, space, vpn, s, v);
        assert Apply(c2, Apply(c1, GateAt(mem0, roots[s], v), v == vpn), v == vpn)
            == Apply(c, GateAt(mem0, roots[s], v), v == vpn);
      }
    }
  }

  /** A change is another one, for pages in a 2 MiB page or not. */
  lemma Rename(mem0: Tables, own0: map<nat, Owner>, mem1: Tables, roots: map<nat, nat>, space: nat, vpn: nat,
               c1: Change, c: Change)
    requires Inv(mem0, own0, roots) && space in roots && vpn < VPN_LIMIT && Changed(mem0, mem1, roots, space, vpn, c1)
    requires forall g: Gate, self: bool :: g.huge == HugeAt(mem0, roots[space], vpn) ==>
               Apply(c1, g, self) == Apply(c, g, self)
    ensures Changed(mem0, mem1, roots, space, vpn, c)
  {
    hide GateAt, Near;
    NothingChanged(mem1, roots, space, vpn);
    assert forall g: Gate, self: bool :: g.huge == HugeAt(mem0, roots[space], vpn) ==>
        Apply(Kept, Apply(c1, g, self), self) == Apply(c, g, self);
    Combine(mem0, own0, mem1, mem1, roots, space, vpn, c1, Kept, c);
  }

  // ------------------------------------------------------- single stores

  /** Below an absent slot there are no tables. */
  lemma {:induction false} AbsentBelow(mem: Tables, own: map<nat, Owner>, roots: map<nat, nat>, t: nat, i: nat,
                                       space: nat, v: nat, level: nat)
    requires Inv(mem, own, roots) && space in roots && t in own && i < ENTRIES && level < own[t].level
    requires !Entry(mem, t, i).present && Through(mem, roots[space], v, own[t].level, t, i)
    ensures TableAt(mem, roots[space], v, level) == None
    ensures forall l: nat :: level <= l < own[t].level ==> TableAt(mem, roots[space], v, l) == None
    decreases own[t].level - level
  {
    if level + 1 < own[t].level {
      AbsentBelow(mem, own, roots, t, i, space, v, level + 1);
    }
  }

  /** Below a slot that was absent there is an empty table now: all gates shut. */
  lemma EmptyBelow(mem: Tables, mem': Tables, own: map<nat, Owner>, roots: map<nat, nat>, t: nat, i: nat, next: nat,
                   s: nat, v: nat)
    requires Inv(mem, own, roots) && s in roots && t in own && i < ENTRIES && own[t].level > 0 && v < VPN_LIMIT
    requires !Entry(mem, t, i).present && next !in own
    requires mem' == SetEntry(mem[next := EmptyTable()], t, i, TableEntry(next))
    requires Through(mem, roots[s], v, own[t].level, t, i)
    ensures GateAt(mem, roots[s], v) == Gate(false, false, false) == GateAt(mem', roots[s], v)
  {
    var level := own[t].level;
    assert GoodEntry(own, roots, t, i, Entry(mem, t, i));
    AbsentBelow(mem, own, roots, t, i, s, v, 0);
    PathAbove(mem, mem', own, roots, t, s, v, level);
    assert TableAt(mem', roots[s], v, level - 1) == Some(next);
    assert Entry(mem', next, Index(v, level - 1)) == ABSENT;
    if level == 3 {
      assert TableAt(mem', roots[s], v, 1) == None;
    }
  }

  lemma SlotThere(mem: Tables, own: map<nat, Owner>, roots: map<nat, nat>, space: nat, vpn: nat, level: nat, t: nat)
    requires Inv(mem, own, roots) && space in roots && vpn < VPN_LIMIT && level <= 3
    requires TableAt(mem, roots[space], vpn, level) == Some(t)
    ensures t in mem && Index(vpn, level) < |mem[t]| && t in own && own[t].level == level
  {
    TableAtServes(mem, own, roots, space, vpn, level);
  }

  /** Linking an empty table into an absent slot changes no gate. */
  lemma LinkGates(mem: Tables, mem': Tables, own: map<nat, Owner>, roots: map<nat, nat>, t: nat, i: nat, next: nat,
                  space: nat, vpn: nat)
    requires Inv(mem, own, roots) && Nested(mem, roots) && t in own && i < ENTRIES && own[t].level > 0
    requires !Entry(mem, t, i).present && next !in own
    requires mem' == SetEntry(mem[next := EmptyTable()], t, i, TableEntry(next))
    ensures Changed(mem, mem', roots, space, vpn, Kept) && Nested(mem', roots)
  {
    forall s, v: nat | s in roots && v < VPN_LIMIT
      ensures GateAt(mem', roots[s], v) == GateAt(mem, roots[s], v)
      ensures GateAt(mem', roots[s], v).marked ==> UserPath(mem', roots[s], v, 1)
    {
      if Through(mem, roots[s], v, own[t].level, t, i) {
        EmptyBelow(mem, mem', own, roots, t, i, next, s, v);
      } else {
        AsBefore(mem, mem', own, roots, t, i, s, v);
      }
    }
    hide GateAt;
  }

  /** Marking a slot on an open path: the gates of the near pages, if the slot is
      one of a page directory. */
  lemma MarkGates(mem: Tables, own: map<nat, Owner>, roots: map<nat, nat>, t: nat, level: nat, space: nat, vpn: nat)
    requires Inv(mem, own, roots) && Nested(mem, roots) && space in roots && vpn < VPN_LIMIT && 1 <= level <= 3
    requires TableAt(mem, roots[space], vpn, level) == Some(t) && Entry(mem, t, Index(vpn, level)).present
    requires UserPath(mem, roots[space], vpn, level)
    ensures t in mem && Index(vpn, level) < |mem[t]|
    ensures var mem' := SetEntry(mem, t, Index(vpn, level), WithUser(Entry(mem, t, Index(vpn, level))));
            Changed(mem, mem', roots, space, vpn, if level == 1 then Marked else Kept) && Nested(mem', roots)
  {
    hide Inv, GateAt, UserPath, TableAt, Near, SetEntry, Index;
    SlotThere(mem, own, roots, space, vpn, level, t);
    var i := Index(vpn, level);
    var mem' := SetEntry(mem, t, i, WithUser(Entry(mem, t, i)));
    forall s, v: nat | s in roots && v < VPN_LIMIT
      ensures GateAt(mem', roots[s], v) == if level == 1 && Near(s, space, v, vpn)
              then GateAt(mem, roots[s], v).(marked := true)
                                           else GateAt(mem, roots[s], v)
      ensures GateAt(mem', roots[s], v).marked ==> UserPath(mem', roots[s], v, 1)
    {
      MarkGateAt(mem, mem', own, roots, t, level, space, vpn, s, v);
    }
  }

  lemma MarkGateAt(mem: Tables, mem': Tables, own: map<nat, Owner>, roots: map<nat, nat>, t: nat, level: nat,
                   space: nat, vpn: nat, s: nat, v: nat)
    requires Inv(mem, own, roots) && Nested(mem, roots) && space in roots && vpn < VPN_LIMIT && 1 <= level <= 3
    requires s in roots && v < VPN_LIMIT
    requires TableAt(mem, roots[space], vpn, level) == Some(t) && t in own && own[t].level == level
    requires Entry(mem, t, Index(vpn, level)).present && UserPath(mem, roots[space], vpn, level)
    requires mem' == SetEntry(mem, t, Index(vpn, level), WithUser(Entry(mem, t, Index(vpn, level))))
    ensures GateAt(mem', roots[s], v) == if level == 1 && Near(s, space, v, vpn)
            then GateAt(mem, roots[s], v).(marked := true)
                                         else GateAt(mem, roots[s], v)
    ensures GateAt(mem', roots[s], v).marked ==> UserPath(mem', roots[s], v, 1)
  {
    hide Near, Inv, UserPath, TableAt, Index;
    var i := Index(vpn, level);
    if level == 1 {
      NearIsThrough(mem, own, roots, space, vpn, t, s, v);
    }
    if Through(mem, roots[s], v, level, t, i) {
      PathMarked(mem, mem', roots[s], v, 1);
      PathMarked(mem, mem', roots[s], v, 0);
      NotThere(mem, own, roots, t, level, s, v);
    } else {
      AsBefore(mem, mem', own, roots, t, i, s, v);
    }
  }

  /** Splitting the 2 MiB page in slot i of a page directory: the small pages keep
      the mark of the large one, and the directory entry loses it. */
  lemma SplitGateAt(mem: Tables, mem': Tables, own: map<nat, Owner>, roots: map<nat, nat>, t: nat, i: nat, next: nat,
                    s: nat, v: nat)
    requires Inv(mem, own, roots) && s in roots && v < VPN_LIMIT && t in own && own[t].level == 1 && i < ENTRIES
    requires Entry(mem, t, i).huge && next !in own
    requires mem' == SetEntry(mem[next := SplitTable(Entry(mem, t, i))], t, i, TableEntry(next))
    ensures GateAt(mem', roots[s], v) == if Through(mem, roots[s], v, 1, t, i)
            then Apply(SplitUp, GateAt(mem, roots[s], v), false)
                                         else GateAt(mem, roots[s], v)
    ensures UserPath(mem', roots[s], v, 1) == UserPath(mem, roots[s], v, 1)
    ensures Through(mem, roots[s], v, 1, t, i) ==> !Small(s, v) && GateAt(mem, roots[s], v).huge
  {
    hide UserPath;
    var e := Entry(mem, t, i);
    assert GoodEntry(own, roots, t, i, e);
    if Through(mem, roots[s], v, 1, t, i) {
      if Small(s, v) {
        NoHuge(mem, own, roots, s, v);
      }
      PathAbove(mem, mem', own, roots, t, s, v, 1);
      assert TableAt(mem', roots[s], v, 0) == Some(next);
      assert Entry(mem', next, Index(v, 0)) == LeafEntry(e.frame + Index(v, 0) * PAGE, e.bits);
    } else {
      AsBefore(mem, mem', own, roots, t, i, s, v);
    }
  }

  lemma SplitNested(mem: Tables, mem': Tables, own: map<nat, Owner>, roots: map<nat, nat>, t: nat, i: nat, next: nat)
    requires Inv(mem, own, roots) && Nested(mem, roots) && t in own && own[t].level == 1 && i < ENTRIES
    requires Entry(mem, t, i).huge && next !in own
    requires mem' == SetEntry(mem[next := SplitTable(Entry(mem, t, i))], t, i, TableEntry(next))
    ensures Nested(mem', roots)
  {
    forall s, v: nat | s in roots && v < VPN_LIMIT
      ensures GateAt(mem', roots[s], v).marked ==> UserPath(mem', roots[s], v, 1)
      ensures Small(s, v) && GateAt(mem', roots[s], v).leaf ==> GateAt(mem', roots[s], v).marked
    {
      SplitGateAt(mem, mem', own, roots, t, i, next, s, v);
    }
    hide GateAt;
  }

  lemma SplitGates(mem: Tables, mem': Tables, own: map<nat, Owner>, roots: map<nat, nat>, t: nat, next: nat,
                   space: nat, vpn: nat)
    requires Inv(mem, own, roots) && space in roots && vpn < VPN_LIMIT && next !in own
    requires TableAt(mem, roots[space], vpn, 1) == Some(t) && Entry(mem, t, Index(vpn, 1)).huge && t in mem
             && Index(vpn, 1) < |mem[t]| && next != t
    requires mem' == SetEntry(mem[next := SplitTable(Entry(mem, t, Index(vpn, 1)))], t, Index(vpn, 1), TableEntry(next))
    ensures Changed(mem, mem', roots, space, vpn, SplitUp)
  {
    TableAtServes(mem, own, roots, space, vpn, 1);
    forall s, v: nat | s in roots && v < VPN_LIMIT
      ensures GateAt(mem', roots[s], v) == if Near(s, space, v, vpn)
              then Apply(SplitUp, GateAt(mem, roots[s], v), v == vpn)
                                           else GateAt(mem, roots[s], v)
    {
      NearIsThrough(mem, own, roots, space, vpn, t, s, v);
      SplitGateAt(mem, mem', own, roots, t, Index(vpn, 1), next, s, v);
    }
  }

  /** Storing a last-level entry changes the gate of that page. */
  lemma StoreGates(mem: Tables, own: map<nat, Owner>, roots: map<nat, nat>, t: nat, space: nat, vpn: nat, e: Pte)
    requires Inv(mem, own, roots) && Nested(mem, roots) && space in roots && vpn < VPN_LIMIT
    requires TableAt(mem, roots[space], vpn, 0) == Some(t)
    requires IsOpen(e) && Small(space, vpn) ==> GateAt(mem, roots[space], vpn).marked
    ensures t in mem && Index(vpn, 0) < |mem[t]|
    ensures var mem' := SetEntry(mem, t, Index(vpn, 0), e);
            Changed(mem, mem', roots, space, vpn, Stored(IsOpen(e))) && Nested(mem', roots)
  {
    hide Inv, GateAt, UserPath, TableAt, SetEntry, Index, Region;
    SlotThere(mem, own, roots, space, vpn, 0, t);
    var i := Index(vpn, 0);
    var mem' := SetEntry(mem, t, i, e);
    forall s, v: nat | s in roots && v < VPN_LIMIT
      ensures GateAt(mem', roots[s], v) == if v == vpn && Sees(s, space, v)
              then GateAt(mem, roots[s], v).(leaf := IsOpen(e))
                                           else GateAt(mem, roots[s], v)
      ensures UserPath(mem', roots[s], v, 1) == UserPath(mem, roots[s], v, 1)
      ensures v == vpn && Sees(s, space, v) ==> GateAt(mem, roots[s], v) == GateAt(mem, roots[space], vpn)
      ensures v == vpn && Sees(s, space, v) && Small(s, v) ==> Small(space, v)
    {
      StoreGateAt(mem, mem', own, roots, t, space, vpn, e, s, v);
    }
  }

  lemma StoreGateAt(mem: Tables, mem': Tables, own: map<nat, Owner>, roots: map<nat, nat>, t: nat, space: nat,
                    vpn: nat, e: Pte, s: nat, v: nat)
    requires Inv(mem, own, roots) && space in roots && vpn < VPN_LIMIT && s in roots && v < VPN_LIMIT
    requires TableAt(mem, roots[space], vpn, 0) == Some(t) && t in own && own[t].level == 0
    requires mem' == SetEntry(mem, t, Index(vpn, 0), e)
    ensures GateAt(mem', roots[s], v) == if v == vpn && Sees(s, space, v)
            then GateAt(mem, roots[s], v).(leaf := IsOpen(e))
                                         else GateAt(mem, roots[s], v)
    ensures UserPath(mem', roots[s], v, 1) == UserPath(mem, roots[s], v, 1)
    ensures v == vpn && Sees(s, space, v) ==> GateAt(mem, roots[s], v) == GateAt(mem, roots[space], vpn)
    ensures v == vpn && Sees(s, space, v) && Small(s, v) ==> Small(space, v)
  {
    LeafIsThrough(mem, own, roots, space, vpn, t, s, v);
    if v == vpn && Sees(s, space, v) {
      SeersGate(mem, own, roots, s, space, v);
      PathAbove(mem, mem', own, roots, t, s, v, 1);
      PathAbove(mem, mem', own, roots, t, s, v, 0);
      NotThere(mem, own, roots, t, 0, s, v);
    } else {
      AsBefore(mem, mem', own, roots, t, Index(vpn, 0), s, v);
    }
  }

  // ------------------------------------------------------ a range of pages

  /** A page of the range lies in the region of v. */
  ghost predicate Touched(first: nat, done: nat, v: nat) {
    exists w: nat :: first <= w < first + done && Region(w) == Region(v)
  }

  /** Two pages of the range lie in the region of v. */
  ghost predicate Twice(first: nat, done: nat, v: nat) {
    exists w: nat :: first <= w < first + done - 1 && Region(w) == Region(v) && Region(w + 1) == Region(v)
  }

  /** The gate of page v after the turns of the pages first .. first+done-1, each
      of which set the page open or shut. Of a 2 MiB page the first turn makes 512
      pages, shut all together, that carry its mark and the new one; the second
      turn marks the new directory entry, and with it opens them all. */
  ghost function RangeGate(g: Gate, user: bool, v: nat, first: nat, done: nat): Gate {
    if !Touched(first, done, v) then g
    else Gate(false,
              if g.huge then user && Twice(first, done, v) else user || g.marked,
              if first <= v < first + done then user else if g.huge then user || g.marked else g.leaf)
  }

  /** What table_for leaves at a page it could not reach. */
  function GaveUp(user: bool): Change {
    if user then Stopped(true) else Kept
  }

  /** What an operation that stopped at the page behind the range left there. */
  ghost function EndGate(g: Gate, user: bool, v: nat, first: nat, done: nat, last: Change): Gate {
    var r := RangeGate(g, user, v, first, done);
    if Region(v) == Region(first + done) then Apply(last, r, false) else r
  }

  /** All gates of all spaces, before and after an operation on a range. */
  ghost predicate RangeGates(mem: Tables, mem': Tables, roots: map<nat, nat>, space: nat, first: nat, done: nat,
                             user: bool, last: Change) {
    forall s, v: nat :: s in roots && v < VPN_LIMIT ==>
      GateAt(mem', roots[s], v) == if Sees(s, space, v)
        then EndGate(GateAt(mem, roots[s], v), user, v, first, done, last)
                                   else GateAt(mem, roots[s], v)
  }

  lemma EmptyRange(mem: Tables, roots: map<nat, nat>, space: nat, first: nat, user: bool)
    ensures RangeGates(mem, mem, roots, space, first, 0, user, Kept)
  {
  }

  lemma TouchedOneMore(first: nat, done: nat, v: nat)
    ensures Touched(first, done + 1, v) <==> Touched(first, done, v) || Region(v) == Region(first + done)
    ensures Region(v) == Region(first + done) ==> (Twice(first, done + 1, v) <==> Touched(first, done, v))
    ensures Region(v) != Region(first + done) ==> (Twice(first, done + 1, v) <==> Twice(first, done, v))
  {
    if Touched(first, done, v) {
      var w: nat :| first <= w < first + done && Region(w) == Region(v);
      assert first <= w < first + (done + 1);
      if Region(v) == Region(first + done) {
        assert Region(first + done - 1) == Region(v);
        assert Region((first + done - 1) + 1) == Region(v);
      }
    }
    assert first <= first + done < first + (done + 1);
    if Twice(first, done, v) {
      var w: nat :| first <= w < first + done - 1 && Region(w) == Region(v) && Region(w + 1) == Region(v);
      assert first <= w < first + (done + 1) - 1;
    }
    if Twice(first, done + 1, v) {
      var w: nat :| first <= w < first + (done + 1) - 1 && Region(w) == Region(v) && Region(w + 1) == Region(v);
      assert first <= w < first + done;
    }
  }

  lemma InRange(first: nat, done: nat, v: nat)
    requires first <= v < first + done
    ensures Touched(first, done, v)
  {
    assert Region(v) == v / ENTRIES;
  }

  /** One more page's turn. */
  lemma TurnOneMore(g: Gate, user: bool, v: nat, first: nat, done: nat)
    requires g.huge ==> !g.leaf
    ensures var r := RangeGate(g, user, v, first, done);
            RangeGate(g, user, v, first, done + 1) ==
            if Region(v) == Region(first + done) then Apply(Turned(user), r, v == first + done) else r
  {
    TouchedOneMore(first, done, v);
    if first <= v < first + done {
      InRange(first, done, v);
    }
    hide Touched, Twice;
  }

  lemma GatesOneMore(mem0: Tables, own0: map<nat, Owner>, mem1: Tables, mem2: Tables, roots: map<nat, nat>, space: nat,
                     first: nat, done: nat, user: bool, vpn: nat)
    requires Inv(mem0, own0, roots) && vpn == first + done < VPN_LIMIT
    requires RangeGates(mem0, mem1, roots, space, first, done, user, Kept)
    requires Changed(mem1, mem2, roots, space, vpn, Turned(user))
    ensures RangeGates(mem0, mem2, roots, space, first, done + 1, user, Kept)
  {
    hide GateAt, RangeGate, Inv, Region, Sees;
    forall s, v: nat | s in roots && v < VPN_LIMIT
      ensures GateAt(mem2, roots[s], v) ==
              if Sees(s, space, v) then EndGate(GateAt(mem0, roots[s], v), user, v, first, done + 1, Kept)
              else GateAt(mem0, roots[s], v)
    {
      HugeHasNoLeaf(mem0, own0, roots, s, v);
      TurnOneMore(GateAt(mem0, roots[s], v), user, v, first, done);
    }
  }

  lemma HugeHasNoLeaf(mem: Tables, own: map<nat, Owner>, roots: map<nat, nat>, s: nat, v: nat)
    requires Inv(mem, own, roots) && s in roots && v < VPN_LIMIT
    ensures GateAt(mem, roots[s], v).huge ==> !GateAt(mem, roots[s], v).leaf
  {
  }

  /** The turn that failed. */
  lemma GatesStopped(mem0: Tables, mem1: Tables, mem2: Tables, roots: map<nat, nat>, space: nat,
                     first: nat, done: nat, user: bool, vpn: nat, last: Change)
    requires vpn == first + done < VPN_LIMIT && (last == Kept || last.Stopped? || last.Reached?)
    requires RangeGates(mem0, mem1, roots, space, first, done, user, Kept)
    requires Changed(mem1, mem2, roots, space, vpn, last)
    ensures RangeGates(mem0, mem2, roots, space, first, done, user, last)
  {
    hide GateAt, RangeGate;
  }

  // ----------------------------------------------- what ring 3 gets from it

  /** A page that ring 3 may use is mapped. */
  lemma {:induction false} UserIsMapped(mem: Tables, f: nat, v: nat, level: nat, acc: Access)
    requires UserWalk(mem, f, v, level)
    ensures Walk(mem, f, v, level, acc).Some?
    decreases level
  {
    var e := Entry(mem, f, Index(v, level));
    if level > 0 && !e.huge {
      UserIsMapped(mem, e.frame, v, level - 1, Narrow(acc, e.bits));
    }
  }

  /** A page table_for gave up on is open exactly when it lies in a 2 MiB page. */
  lemma StoppedRight(mem: Tables, own: map<nat, Owner>, mem': Tables, own': map<nat, Owner>, roots: map<nat, nat>,
                     space: nat, vpn: nat)
    requires Inv(mem, own, roots) && Nested(mem, roots) && Inv(mem', own', roots) && Nested(mem', roots)
    requires space in roots && vpn < VPN_LIMIT && Changed(mem, mem', roots, space, vpn, Stopped(true))
    requires Look(mem, roots[space], vpn) == None || HugeAt(mem, roots[space], vpn)
    ensures UserMay(mem', roots[space], vpn) <==> HugeAt(mem, roots[space], vpn)
  {
    GateDecides(mem, own, roots, space, vpn);
    GateDecides(mem', own', roots, space, vpn);
    if UserMay(mem, roots[space], vpn) {
      UserIsMapped(mem, roots[space], vpn, 3, FULL);
    }
    hide Inv, Nested, UserMay, Look;
    assert Near(space, space, vpn, vpn);
  }

  /** A page outside the direct map whose last-level table was reached is under
      an open entry. */
  lemma ReachedMarked(mem: Tables, own: map<nat, Owner>, mem': Tables, roots: map<nat, nat>, space: nat, vpn: nat)
    requires Inv(mem, own, roots) && space in roots && vpn < VPN_LIMIT && Small(space, vpn)
    requires Changed(mem, mem', roots, space, vpn, Reached(true))
    ensures GateAt(mem', roots[space], vpn).marked
  {
    NoHuge(mem, own, roots, space, vpn);
    hide Inv;
    assert Near(space, space, vpn, vpn);
  }

  /** Who may use a page, after an operation on a range. */
  ghost predicate Rights(mem: Tables, mem': Tables, roots: map<nat, nat>, space: nat, first: nat, done: nat,
                         user: bool, last: Change) {
    forall s, v: nat :: s in roots && v < VPN_LIMIT ==>
      UserMay(mem', roots[s], v) ==
      if Sees(s, space, v) then Lets(EndGate(GateAt(mem, roots[s], v), user, v, first, done, last))
      else UserMay(mem, roots[s], v)
  }

  lemma GatesAreRights(mem: Tables, own: map<nat, Owner>, mem': Tables, own': map<nat, Owner>, roots: map<nat, nat>,
                       space: nat, first: nat, done: nat, user: bool, last: Change)
    requires Inv(mem, own, roots) && Nested(mem, roots) && Inv(mem', own', roots) && Nested(mem', roots)
    requires RangeGates(mem, mem', roots, space, first, done, user, last)
    ensures Rights(mem, mem', roots, space, first, done, user, last)
  {
    hide Inv, Nested, GateAt, EndGate, Lets, UserMay, Sees;
    forall s, v: nat | s in roots && v < VPN_LIMIT
      ensures UserMay(mem', roots[s], v) ==
              if Sees(s, space, v) then Lets(EndGate(GateAt(mem, roots[s], v), user, v, first, done, last))
              else UserMay(mem, roots[s], v)
    {
      GateDecides(mem, own, roots, s, v);
      GateDecides(mem', own', roots, s, v);
    }
  }

  /** What a finished operation for ring 3 opens. Outside the 2 MiB regions it
      touches, nothing changes. In one that was a 2 MiB page, all pages are open
      if two of them were in the range, and all are shut if only one was. In
      another, the pages of the range are open, and those that were waiting for
      their directory entry. */
  lemma OpenedIff(mem: Tables, own: map<nat, Owner>, mem': Tables, roots: map<nat, nat>, space: nat, first: nat,
                  done: nat, v: nat)
    requires Inv(mem, own, roots) && Nested(mem, roots) && space in roots && v < VPN_LIMIT
    requires Rights(mem, mem', roots, space, first, done, true, Kept)
    ensures UserMay(mem', roots[space], v) <==>
              if !Touched(first, done, v) then UserMay(mem, roots[space], v)
              else if HugeAt(mem, roots[space], v) then Twice(first, done, v)
              else first <= v < first + done || IsOpen(PageEntry(mem, roots[space], v))
  {
    GateDecides(mem, own, roots, space, v);
    hide Inv, Nested, UserMay, Touched, Twice;
    assert Sees(space, space, v);
  }

  /** What an operation that is not for ring 3 shuts: the range, and the other
      pages of the 2 MiB pages it splits. It opens nothing. */
  lemma ShutIff(mem: Tables, own: map<nat, Owner>, mem': Tables, roots: map<nat, nat>, space: nat, first: nat,
                done: nat, s: nat, v: nat)
    requires Inv(mem, own, roots) && Nested(mem, roots) && s in roots && v < VPN_LIMIT
    requires Rights(mem, mem', roots, space, first, done, false, Kept)
    ensures UserMay(mem', roots[s], v) <==>
              && UserMay(mem, roots[s], v)
              && !(Sees(s, space, v) && (first <= v < first + done
                                         || (Touched(first, done, v) && HugeAt(mem, roots[s], v))))
  {
    GateDecides(mem, own, roots, s, v);
    if first <= v < first + done {
      InRange(first, done, v);
    }
    hide Inv, Nested, UserMay, Touched, Twice;
  }

  /** No page of any space was opened, and the range is shut. */
  ghost predicate Shuts(mem: Tables, mem': Tables, roots: map<nat, nat>, space: nat, first: nat, done: nat) {
    && (forall s, v: nat :: s in roots && v < VPN_LIMIT && UserMay(mem', roots[s], v) ==> UserMay(mem, roots[s], v))
    && (forall s, v: nat :: s in roots && v < VPN_LIMIT && first <= v < first + done && Sees(s, space, v) ==>
          !UserMay(mem', roots[s], v))
  }

  lemma RightsShut(mem: Tables, own: map<nat, Owner>, mem': Tables, roots: map<nat, nat>, space: nat, first: nat,
                   done: nat)
    requires Inv(mem, own, roots) && Nested(mem, roots) && Rights(mem, mem', roots, space, first, done, false, Kept)
    ensures Shuts(mem, mem', roots, space, first, done)
  {
    hide Inv, Nested, UserMay, Rights, Sees, Touched, HugeAt;
    forall s, v: nat | s in roots && v < VPN_LIMIT
      ensures UserMay(mem', roots[s], v) ==> UserMay(mem, roots[s], v)
      ensures first <= v < first + done && Sees(s, space, v) ==> !UserMay(mem', roots[s], v)
    {
      ShutIff(mem, own, mem', roots, space, first, done, s, v);
    }
  }

  /** Outside the direct map the last operation on a page decides, and no
      operation changes the right to another page. */
  ghost predicate SmallRights(mem: Tables, mem': Tables, roots: map<nat, nat>, space: nat, first: nat, done: nat,
                              user: bool) {
    forall s, v: nat :: s in roots && v < VPN_LIMIT && Small(s, v) ==>
      UserMay(mem', roots[s], v) ==
      if first <= v < first + done && Sees(s, space, v) then user else UserMay(mem, roots[s], v)
  }

  lemma SmallRightsAt(mem: Tables, own: map<nat, Owner>, mem': Tables, roots: map<nat, nat>, space: nat, first: nat,
                      done: nat, user: bool, last: Change, s: nat, v: nat)
    requires Inv(mem, own, roots) && Nested(mem, roots) && s in roots && v < VPN_LIMIT && Small(s, v)
    requires Rights(mem, mem', roots, space, first, done, user, last)
    requires last == Kept || last == GaveUp(user) || last == Reached(user)
    ensures UserMay(mem', roots[s], v) ==
            if first <= v < first + done && Sees(s, space, v) then user else UserMay(mem, roots[s], v)
  {
    GateDecides(mem, own, roots, s, v);
    NoHuge(mem, own, roots, s, v);
    if first <= v < first + done {
      InRange(first, done, v);
    }
    assert GateAt(mem, roots[s], v).leaf ==> GateAt(mem, roots[s], v).marked;
    hide Inv, Nested, UserMay, Touched, Twice, Small;
  }

  lemma RightsAreSmall(mem: Tables, own: map<nat, Owner>, mem': Tables, roots: map<nat, nat>, space: nat, first: nat,
                       done: nat, user: bool, last: Change)
    requires Inv(mem, own, roots) && Nested(mem, roots) && Rights(mem, mem', roots, space, first, done, user, last)
    requires last == Kept || last == GaveUp(user) || last == Reached(user)
    ensures SmallRights(mem, mem', roots, space, first, done, user)
  {
    hide Inv, Nested, UserMay, Rights, Small, Sees;
    forall s, v: nat | s in roots && v < VPN_LIMIT && Small(s, v)
      ensures UserMay(mem', roots[s], v) ==
              if first <= v < first + done && Sees(s, space, v) then user else UserMay(mem, roots[s], v)
    {
      SmallRightsAt(mem, own, mem', roots, space, first, done, user, last, s, v);
    }
  }
}
