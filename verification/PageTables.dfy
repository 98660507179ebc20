/** kernel/mm/paging.cpp: the operations that edit the page tables in place. */
module PageTables {
  import opened Basics
  import opened FrameBits
  import opened PageAlloc
  import opened PageWalk
  import opened PageUser
  import opened PageOpen

  const DIRECT_LIMIT: nat := 0x4000_0000

  /** Which pages of which space an operation may touch: a process edits its
      own branch, and once processes share the kernel's first branch no kernel
      page in it is marked for ring 3. */
  ghost predicate Allowed(roots: map<nat, nat>, space: nat, first: nat, count: nat, user: bool) {
    && space in roots
    && first + count <= VPN_LIMIT
    && (space != KERNEL ==> USER_VPN <= first)
    && (space == KERNEL ==> USER_VPN <= first || !user || roots.Keys == {KERNEL})
  }

  /** Pages first .. first+done-1 of a space now lead to a run of frames. */
  ghost predicate Mapped(mem: Tables, mem': Tables, roots: map<nat, nat>, space: nat,
                         first: nat, done: nat, frame: nat, flags: PageFlags) {
    forall s, v: nat :: s in roots && v < VPN_LIMIT ==>
      Look(mem', roots[s], v) ==
      if first <= v < first + done && Sees(s, space, v)
      then Some(MappingOf(PageAddress(frame + (v - first) * PAGE), flags, FULL))
      else Look(mem, roots[s], v)
  }

  /** The pages lead to consecutive frames, with the rights and attributes the flags
      name, whatever the bits of the tables above. */
  ghost predicate LeadsTo(mem: Tables, root: nat, first: nat, done: nat, frame: nat, flags: PageFlags) {
    forall v: nat :: first <= v < first + done ==> PageLeads(Look(mem, root, v), frame + (v - first) * PAGE, flags)
  }

  /** Frames below 2^52 are reached as they are. */
  ghost predicate Reaches(mem: Tables, roots: map<nat, nat>, space: nat, first: nat, done: nat, frame: nat,
                          flags: PageFlags) {
    space in roots && (frame + done * PAGE <= PHYS_LIMIT ==>
                         LeadsTo(mem, roots[space], first, done, frame - frame % PAGE, flags))
  }

  predicate PageLeads(m: Option<Mapping>, frame: nat, flags: PageFlags) {
    && m.Some? && m.value.frame == frame
    && m.value.access.write == flags.write && m.value.access.execute == !flags.noExecute
    && m.value.global == flags.global && m.value.noCache == flags.noCache
  }

  lemma MappedReaches(mem: Tables, mem': Tables, roots: map<nat, nat>, space: nat, first: nat, done: nat, frame: nat,
                      flags: PageFlags)
    requires Mapped(mem, mem', roots, space, first, done, frame, flags) && space in roots && first + done <= VPN_LIMIT
    ensures Reaches(mem', roots, space, first, done, frame, flags)
  {
    hide Mapped, LeadsTo;
    if frame + done * PAGE <= PHYS_LIMIT {
      MappedLeads(mem, mem', roots, space, first, done, frame, flags);
    }
  }

  lemma MappedLeads(mem: Tables, mem': Tables, roots: map<nat, nat>, space: nat, first: nat, done: nat, frame: nat,
                    flags: PageFlags)
    requires Mapped(mem, mem', roots, space, first, done, frame, flags) && space in roots && first + done <= VPN_LIMIT
    requires frame + done * PAGE <= PHYS_LIMIT
    ensures LeadsTo(mem', roots[space], first, done, frame - frame % PAGE, flags)
  {
    hide Look, PageAddress, MappingOf, PageLeads;
    forall v: nat | first <= v < first + done
      ensures PageLeads(Look(mem', roots[space], v), frame - frame % PAGE + (v - first) * PAGE, flags)
    {
      assert Sees(space, space, v);
      FlagsLead(frame, v - first, flags);
    }
  }

  lemma FlagsLead(frame: nat, k: nat, flags: PageFlags)
    requires frame + k * PAGE < PHYS_LIMIT
    ensures PageLeads(Some(MappingOf(PageAddress(frame + k * PAGE), flags, FULL)), frame - frame % PAGE + k * PAGE,
                      flags)
  {
    MaskKeeps(frame + k * PAGE);
  }

  /** The pages keep their frames, and have the rights the flags name. */
  ghost predicate StillReaches(mem: Tables, mem': Tables, roots: map<nat, nat>, space: nat, first: nat, done: nat,
                               flags: PageFlags) {
    space in roots && forall v: nat :: first <= v < first + done ==>
      Look(mem, roots[space], v).Some?
      && PageLeads(Look(mem', roots[space], v), Look(mem, roots[space], v).value.frame, flags)
  }

  lemma ProtectedLeads(mem: Tables, mem': Tables, roots: map<nat, nat>, space: nat, first: nat, done: nat,
                       flags: PageFlags)
    requires Protected(mem, mem', roots, space, first, done, flags) && AllMapped(mem, roots, space, first, done)
    requires first + done <= VPN_LIMIT
    ensures StillReaches(mem, mem', roots, space, first, done, flags)
  {
    hide Look;
    forall v: nat | first <= v < first + done
      ensures Look(mem, roots[space], v).Some?
      ensures PageLeads(Look(mem', roots[space], v), Look(mem, roots[space], v).value.frame, flags)
    {
      assert Sees(space, space, v);
    }
  }

  ghost predicate Unmapped(mem: Tables, mem': Tables, roots: map<nat, nat>, space: nat, first: nat, done: nat) {
    forall s, v: nat :: s in roots && v < VPN_LIMIT ==>
      Look(mem', roots[s], v) ==
      if first <= v < first + done && Sees(s, space, v) then None else Look(mem, roots[s], v)
  }

  /** The pages keep their frames and take the new rights. */
  ghost predicate Protected(mem: Tables, mem': Tables, roots: map<nat, nat>, space: nat,
                            first: nat, done: nat, flags: PageFlags) {
    forall s, v: nat :: s in roots && v < VPN_LIMIT ==>
      Look(mem', roots[s], v) ==
      if first <= v < first + done && Sees(s, space, v) && Look(mem, roots[s], v).Some?
      then Some(MappingOf(Look(mem, roots[s], v).value.frame, flags, FULL))
      else Look(mem, roots[s], v)
  }

  /** The kernel's first top-level entry, once there, is as it was. */
  ghost predicate BranchKept(mem: Tables, mem': Tables, roots: map<nat, nat>) {
    KERNEL in roots && Entry(mem, roots[KERNEL], 0).present ==>
      Entry(mem', roots[KERNEL], 0) == Entry(mem, roots[KERNEL], 0)
  }

  /** What building tables on a path leaves alone: every mapping, the frames in
      use, and the branch processes share. */
  ghost predicate Harmless(mem: Tables, bits: seq<bool>, mem': Tables, bits': seq<bool>, roots: map<nat, nat>,
                           lowUser: bool) {
    && SameView(mem, mem', roots)
    && Grows(bits, bits')
    && (!lowUser ==> BranchKept(mem, mem', roots))
  }

  lemma HarmlessTwice(mem0: Tables, bits0: seq<bool>, mem1: Tables, bits1: seq<bool>, mem2: Tables, bits2: seq<bool>,
                      roots: map<nat, nat>, lowUser: bool)
    requires Harmless(mem0, bits0, mem1, bits1, roots, lowUser) && Harmless(mem1, bits1, mem2, bits2, roots, lowUser)
    ensures Harmless(mem0, bits0, mem2, bits2, roots, lowUser)
  {
  }

  lemma HarmlessNothing(mem: Tables, bits: seq<bool>, roots: map<nat, nat>, lowUser: bool)
    ensures Harmless(mem, bits, mem, bits, roots, lowUser)
  {
  }

  lemma HarmlessMore(mem: Tables, bits: seq<bool>, mem': Tables, bits': seq<bool>, roots: map<nat, nat>, lowUser: bool)
    requires Harmless(mem, bits, mem', bits', roots, false)
    ensures Harmless(mem, bits, mem', bits', roots, lowUser)
  {
  }

  lemma SameLook(mem: Tables, bits: seq<bool>, mem': Tables, bits': seq<bool>, roots: map<nat, nat>, lowUser: bool,
                 space: nat, vpn: nat)
    requires Harmless(mem, bits, mem', bits', roots, lowUser) && space in roots && vpn < VPN_LIMIT
    ensures Look(mem', roots[space], vpn) == Look(mem, roots[space], vpn)
  {
    hide Look;
  }

  /** A page whose turn failed: nothing was mapped, and the gates near it say how
      far the turn came. */
  ghost predicate Unset(mem: Tables, bits: seq<bool>, mem': Tables, bits': seq<bool>, roots: map<nat, nat>,
                        space: nat, vpn: nat, user: bool, last: Change) {
    && space in roots
    && Harmless(mem, bits, mem', bits', roots, user && vpn < USER_VPN)
    && Changed(mem, mem', roots, space, vpn, last)
  }

  /** What one page's turn leaves behind besides the mapping of the page. */
  ghost predicate PageEffect(mem: Tables, bits: seq<bool>, mem': Tables, bits': seq<bool>, roots: map<nat, nat>,
                             space: nat, vpn: nat, user: bool) {
    && space in roots
    && Grows(bits, bits')
    && (!(user && vpn < USER_VPN) ==> BranchKept(mem, mem', roots))
    && Changed(mem, mem', roots, space, vpn, Turned(user))
  }

  /** What an operation on pages first .. first+done-1 of a space leaves behind
      besides the mappings: no frame is given up, the shared branch is kept, and
      the gates of all pages of all spaces are what the turns made of them. */
  ghost predicate RangeEffect(mem: Tables, bits: seq<bool>, mem': Tables, bits': seq<bool>, roots: map<nat, nat>,
                              space: nat, first: nat, done: nat, user: bool, last: Change) {
    && space in roots
    && Grows(bits, bits')
    && (!(user && first < USER_VPN) ==> BranchKept(mem, mem', roots))
    && RangeGates(mem, mem', roots, space, first, done, user, last)
  }

  /** What ring 3 may use after an operation on a range: page by page; outside the
      direct map; and after an operation that is not for ring 3. */
  ghost predicate RightsAfter(mem: Tables, mem': Tables, roots: map<nat, nat>, space: nat, first: nat, done: nat,
                              user: bool, last: Change) {
    && Rights(mem, mem', roots, space, first, done, user, last)
    && SmallRights(mem, mem', roots, space, first, done, user)
    && (!user ==> last == Kept && Shuts(mem, mem', roots, space, first, done))
  }

  lemma EffectIsRights(mem: Tables, own: map<nat, Owner>, bits: seq<bool>, mem': Tables, own': map<nat, Owner>,
                       bits': seq<bool>, roots: map<nat, nat>, space: nat, first: nat, done: nat, user: bool,
                       last: Change)
    requires Inv(mem, own, roots) && Nested(mem, roots) && Inv(mem', own', roots) && Nested(mem', roots)
    requires RangeEffect(mem, bits, mem', bits', roots, space, first, done, user, last)
    requires last == Kept || (user && (last == Stopped(true) || last == Reached(true)))
    ensures RightsAfter(mem, mem', roots, space, first, done, user, last)
  {
    hide Inv, Nested, RangeGates, Rights, SmallRights, Shuts;
    GatesAreRights(mem, own, mem', own', roots, space, first, done, user, last);
    RightsAreSmall(mem, own, mem', roots, space, first, done, user, last);
    if !user {
      RightsShut(mem, own, mem', roots, space, first, done);
    }
  }

  lemma NoEffect(mem: Tables, bits: seq<bool>, roots: map<nat, nat>, space: nat, first: nat, user: bool)
    requires space in roots
    ensures RangeEffect(mem, bits, mem, bits, roots, space, first, 0, user, Kept)
  {
    EmptyRange(mem, roots, space, first, user);
  }

  /** Of the 2 MiB pages those are left that no page of the range lies in. */
  lemma HugeBefore(mem0: Tables, bits0: seq<bool>, mem1: Tables, bits1: seq<bool>,
                   roots: map<nat, nat>, space: nat, first: nat, done: nat, user: bool, v: nat)
    requires RangeEffect(mem0, bits0, mem1, bits1, roots, space, first, done, user, Kept) && v < VPN_LIMIT
    ensures HugeAt(mem1, roots[space], v) == (HugeAt(mem0, roots[space], v) && !Touched(first, done, v))
  {
    hide HugeAt, Touched, Twice;
    assert GateAt(mem1, roots[space], v) == EndGate(GateAt(mem0, roots[space], v), user, v, first, done, Kept);
  }

  lemma EffectOneMore(mem0: Tables, own0: map<nat, Owner>, bits0: seq<bool>, mem1: Tables, bits1: seq<bool>,
                      mem2: Tables, bits2: seq<bool>, roots: map<nat, nat>, space: nat, first: nat, done: nat,
                      user: bool, vpn: nat)
    requires Inv(mem0, own0, roots)
    requires RangeEffect(mem0, bits0, mem1, bits1, roots, space, first, done, user, Kept)
    requires vpn == first + done < VPN_LIMIT && (space != KERNEL ==> USER_VPN <= first)
    requires PageEffect(mem1, bits1, mem2, bits2, roots, space, vpn, user)
    ensures RangeEffect(mem0, bits0, mem2, bits2, roots, space, first, done + 1, user, Kept)
  {
    hide Inv, RangeGates, Changed;
    GatesOneMore(mem0, own0, mem1, mem2, roots, space, first, done, user, vpn);
  }

  lemma StoreEffect(mem0: Tables, own0: map<nat, Owner>, bits0: seq<bool>, mem1: Tables, bits1: seq<bool>, mem2: Tables,
                    roots: map<nat, nat>, space: nat, vpn: nat, user: bool)
    requires Inv(mem0, own0, roots)
    requires Harmless(mem0, bits0, mem1, bits1, roots, user && vpn < USER_VPN) && Allowed(roots, space, vpn, 1, user)
    requires BranchKept(mem1, mem2, roots)
    requires Changed(mem0, mem1, roots, space, vpn, Reached(user))
    requires Changed(mem1, mem2, roots, space, vpn, Stored(user))
    ensures PageEffect(mem0, bits0, mem2, bits1, roots, space, vpn, user)
  {
    hide Inv, Changed, SameView;
    Combine(mem0, own0, mem1, mem2, roots, space, vpn, Reached(user), Stored(user), Turned(user));
  }

  lemma EffectOfFailure(mem0: Tables, bits0: seq<bool>, mem1: Tables, bits1: seq<bool>, mem2: Tables, bits2: seq<bool>,
                        roots: map<nat, nat>, space: nat, first: nat, done: nat, user: bool, vpn: nat, last: Change)
    requires RangeEffect(mem0, bits0, mem1, bits1, roots, space, first, done, user, Kept)
    requires vpn == first + done < VPN_LIMIT && (space != KERNEL ==> USER_VPN <= first)
    requires Unset(mem1, bits1, mem2, bits2, roots, space, vpn, user, last)
    requires last == Kept || last.Stopped? || last.Reached?
    ensures RangeEffect(mem0, bits0, mem2, bits2, roots, space, first, done, user, last)
  {
    hide RangeGates, Changed, SameView;
    GatesStopped(mem0, mem1, mem2, roots, space, first, done, user, vpn, last);
  }

  /** The walk of a page goes through this table at this level. */
  ghost predicate OnPath(mem: Tables, root: nat, vpn: nat, level: nat, table: nat) {
    TableAt(mem, root, vpn, level) == Some(table)
  }

  function PagesFor(length: nat): nat { (length + PAGE - 1) / PAGE }

  ghost predicate FramesHeld(own: map<nat, Owner>, claimed: set<nat>, bits: seq<bool>) {
    && (forall f :: f in own ==> f > 0 && f % PAGE == 0 && f / PAGE < |bits| && bits[f / PAGE])
    && (forall f :: f in claimed ==> f > 0 && f % PAGE == 0 && f / PAGE < |bits| && bits[f / PAGE] && f !in own)
  }

  /** Every used frame is a table, was taken for something else, or was in use
      before: none is lost. */
  ghost predicate AllHeld(outside: set<nat>, own: map<nat, Owner>, claimed: set<nat>, bits: seq<bool>) {
    && (forall i: nat :: i < |bits| ==> (bits[i] <==> i in outside || i * PAGE in own || i * PAGE in claimed))
    && (forall i: nat :: i in outside ==> i * PAGE !in own && i * PAGE !in claimed)
  }

  lemma HeldMore(outside: set<nat>, own: map<nat, Owner>, claimed: set<nat>, bits: seq<bool>, f: nat, o: Owner)
    requires AllHeld(outside, own, claimed, bits) && f % PAGE == 0 && f / PAGE < |bits| && !bits[f / PAGE]
    ensures AllHeld(outside, own[f := o], claimed, bits[f / PAGE := true])
    ensures AllHeld(outside, own, claimed + {f}, bits[f / PAGE := true])
  {
    assert f == f / PAGE * PAGE;
  }

  lemma HeldLess(outside: set<nat>, own: map<nat, Owner>, claimed: set<nat>, bits: seq<bool>, f: nat)
    requires AllHeld(outside, own, claimed, bits) && f % PAGE == 0 && f / PAGE < |bits| && f in claimed && f !in own
    ensures AllHeld(outside, own, claimed - {f}, bits[f / PAGE := false])
  {
    assert f == f / PAGE * PAGE;
  }

  lemma OneMoreTable(own: map<nat, Owner>, claimed: set<nat>, bits: seq<bool>, f: nat, o: Owner)
    requires FramesHeld(own, claimed, bits) && f > 0 && f % PAGE == 0 && f / PAGE < |bits| && bits[f / PAGE]
             && f !in claimed
    ensures FramesHeld(own[f := o], claimed, bits)
  {
  }

  class PageTables {
    const allocator: FrameAllocator
    var mem: Tables
    /** The root_ of every address space; KERNEL is the kernel's. */
    var roots: map<nat, nat>
    /** The place of every table frame in the forest. */
    ghost var own: map<nat, Owner>
    /** The frames taken for something other than a table. */
    ghost var claimed: set<nat>
    /** The frames that were in use before. */
    ghost const outside: set<nat>

    /** Before paging_init: no table, no space. */
    constructor (allocator: FrameAllocator)
      requires allocator.Valid() && allocator.bits[0]
      ensures this.allocator == allocator && mem == map[] && roots == map[] && own == map[] && claimed == {} && Ready()
      ensures Accounted() && outside == set i: nat | i < |allocator.bits| && allocator.bits[i]
    {
      this.allocator := allocator;
      mem, roots, own, claimed := map[], map[], map[], {};
      outside := set i: nat | i < |allocator.bits| && allocator.bits[i];
    }

    /** No used frame is lost. */
    ghost predicate Accounted()
      reads this, allocator
    {
      AllHeld(outside, own, claimed, allocator.bits)
    }

    /** The allocator works, keeps frame zero, and counts the tables. */
    ghost predicate Ready()
      reads this, allocator, allocator.bitmap
    {
      && allocator.Valid()
      && allocator.bits[0]
      && TablesAllocated()
    }

    ghost predicate Valid()
      reads this, allocator, allocator.bitmap
    {
      Ready() && Accounted() && Inv(mem, own, roots) && Nested(mem, roots)
    }

    /** Every table lies in a frame the allocator counts as used, and in none
        that was taken for something else. */
    ghost predicate TablesAllocated()
      requires allocator.Valid()
      reads this, allocator, allocator.bitmap
    {
      FramesHeld(own, claimed, allocator.bits)
    }

    /** No frame is left: the only way an operation runs out of memory. */
    ghost predicate Exhausted()
      reads this, allocator
    {
      NoRun(allocator.bits, 1)
    }

    /** allocate_table: a frame no table uses, with all its entries absent. */
    method AllocateTable() returns (frame: nat)
      requires Ready()
      modifies this, allocator, allocator.bitmap
      ensures Ready() && own == old(own) && roots == old(roots) && claimed == old(claimed)
      ensures frame == 0 ==> Exhausted() && mem == old(mem)
      ensures frame != 0 ==> frame !in own && frame !in claimed && mem == old(mem)[frame := EmptyTable()]
      ensures frame != 0 ==> frame % PAGE == 0 && frame / PAGE < MANAGED_PAGES && !old(allocator.bits)[frame / PAGE]
      ensures allocator.bits == if frame == 0 then old(allocator.bits) else old(allocator.bits)[frame / PAGE := true]
      ensures Grows(old(allocator.bits), allocator.bits)
    {
      ghost var before := allocator.bits;
      ghost var found: bool;
      frame, found := allocator.AllocPages(1);
      if frame == 0 {
        return;
      }
      mem := mem[frame := EmptyTable()];
      assert FreeRun(before, frame / PAGE, 1);
      assert !before[frame / PAGE];
      assert allocator.bits == before[frame / PAGE := true];
      assert frame !in own;
    }

    /** alloc_page for a frame that will hold data. */
    method ClaimPage() returns (frame: nat)
      requires Valid()
      modifies this`claimed, allocator, allocator.bitmap
      ensures Valid() && Grows(old(allocator.bits), allocator.bits)
      ensures frame == 0 ==> Exhausted() && claimed == old(claimed)
      ensures frame != 0 ==> frame !in old(claimed) && frame !in own && claimed == old(claimed) + {frame}
    {
      hide Inv, AllHeld;
      ghost var before := allocator.bits;
      ghost var found: bool;
      frame, found := allocator.AllocPages(1);
      if frame == 0 {
        return;
      }
      assert FreeRun(before, frame / PAGE, 1);
      assert !before[frame / PAGE];
      assert allocator.bits == before[frame / PAGE := true];
      HeldMore(outside, own, claimed, before, frame, Owner(KERNEL, 0, 0, 0));
      claimed := claimed + {frame};
    }

    /** The loop that copies a 2 MiB entry into 512 small ones. */
    static method FillSplit(entry: Pte) returns (filled: seq<Pte>)
      ensures filled == SplitTable(entry)
    {
      filled := EmptyTable();
      var k := 0;
      while k < ENTRIES
        invariant 0 <= k <= ENTRIES && |filled| == ENTRIES
        invariant forall j :: 0 <= j < k ==> filled[j] == LeafEntry(entry.frame + j * PAGE, entry.bits)
      {
        filled := filled[k := LeafEntry(entry.frame + k * PAGE, entry.bits)];
        k := k + 1;
      }
    }

    /** split_huge_page, on slot i of a page directory. */
    method SplitHugePage(directory: nat, i: nat) returns (ok: bool, ghost made: nat)
      requires Valid() && directory in own && own[directory].level == 1 && i < ENTRIES && Entry(mem, directory, i).huge
      modifies this, allocator, allocator.bitmap
      ensures Valid() && roots == old(roots) && claimed == old(claimed)
      ensures Harmless(old(mem), old(allocator.bits), mem, allocator.bits, roots, false)
      ensures !ok ==> Exhausted() && mem == old(mem)
      ensures ok ==> made !in old(own) && made != directory && directory in old(mem) && i < |old(mem)[directory]|
      ensures ok ==> mem == SetEntry(old(mem)[made := SplitTable(Entry(old(mem), directory, i))], directory, i,
                                     TableEntry(made))
      ensures ok ==> ChangesOnly(old(mem), mem, old(own), directory) && Entry(mem, directory, i) == TableEntry(made)
    {
      hide Inv, AllHeld, Nested, FramesHeld;
      ghost var mem0 := mem;
      var entry := Entry(mem, directory, i);
      var table := AllocateTable();
      if table == 0 {
        return false, 0;
      }
      OneMoreTable(own, claimed, allocator.bits, table, ChildOwner(own, roots, directory, i));
      HeldMore(outside, own, claimed, old(allocator.bits), table, ChildOwner(own, roots, directory, i));
      SplitStep(mem0, own, roots, directory, i, table);
      var filled := FillSplit(entry);
      assert mem[table := filled] == mem0[table := SplitTable(entry)];
      mem := SetEntry(mem[table := filled], directory, i, TableEntry(table));
      SplitNested(mem0, mem, own, roots, directory, i, table);
      own := own[table := ChildOwner(own, roots, directory, i)];
      return true, table;
    }

    /** table_for: walks to the last-level table of a page, building and
        splitting on the way. No mapping of any page changes, on any path. */
    method TableFor(space: nat, vpn: nat, create: bool, user: bool) returns (table: nat)
      requires Valid() && Allowed(roots, space, vpn, 1, user)
      modifies this, allocator, allocator.bitmap
      ensures Valid() && roots == old(roots) && claimed == old(claimed)
      ensures Harmless(old(mem), old(allocator.bits), mem, allocator.bits, roots, user && vpn < USER_VPN)
      ensures table != 0 ==> OnPath(mem, roots[space], vpn, 0, table)
      // What it does to the gates of all pages of all spaces.
      ensures Changed(old(mem), mem, roots, space, vpn, if table != 0 then Reached(user) else Stopped(user))
      // It fails at a page that was not mapped or had to be split, for want of a frame if it may build.
      ensures table == 0 && create ==> Exhausted()
      ensures table == 0 ==> Look(old(mem), roots[space], vpn) == None || HugeAt(old(mem), roots[space], vpn)
      // The path is open to ring 3 exactly when no 2 MiB page had to be split ...
      ensures user && table != 0 ==> UserPath(mem, roots[space], vpn, 1)
      ensures user && table != 0 ==> (UserPath(mem, roots[space], vpn, 0) <==> !HugeAt(old(mem), roots[space], vpn))
      // ... and a split that fails leaves the page open although nothing was mapped.
      ensures user && table == 0 ==> (UserMay(mem, roots[space], vpn) <==> HugeAt(old(mem), roots[space], vpn))
    {
      hide Inv, AllHeld, Nested, Harmless, Changed, Look, UserMay, HugeAt;
      HarmlessNothing(mem, allocator.bits, roots, user && vpn < USER_VPN);
      NothingChanged(mem, roots, space, vpn);
      table := roots[space];
      var level := 3;
      while level >= 1
        invariant 0 <= level <= 3
        invariant Valid() && roots == old(roots) && claimed == old(claimed)
        invariant Harmless(old(mem), old(allocator.bits), mem, allocator.bits, roots, user && vpn < USER_VPN)
        invariant Changed(old(mem), mem, roots, space, vpn, if level == 0 then Reached(user) else Kept)
        invariant OnPath(mem, roots[space], vpn, level, table)
        invariant level < 3 ==> table != 0
        invariant user ==> UserPath(mem, roots[space], vpn, if level == 0 then 1 else level)
        invariant user && level == 0 ==> (UserPath(mem, roots[space], vpn, 0) <==> !HugeAt(old(mem), roots[space], vpn))
      {
        ghost var mem1, bits1 := mem, allocator.bits;
        var below := level - 1;
        HugeKept(old(mem), mem1, roots, space, vpn);
        SameLook(old(mem), old(allocator.bits), mem1, bits1, roots, user && vpn < USER_VPN, space, vpn);
        table := Descend(space, vpn, level, below, table, create, user);
        HarmlessTwice(old(mem), old(allocator.bits), mem1, bits1, mem, allocator.bits, roots, user && vpn < USER_VPN);
        ghost var c := Walked(level, table, user);
        Combine(old(mem), old(own), mem1, mem, roots, space, vpn, Kept, c, c);
        if table == 0 {
          if user {
            StoppedRight(old(mem), old(own), mem, own, roots, space, vpn);
          }
          return;
        }
        level := below;
      }
      assert level == 0;
    }

    /** One turn of the loop of table_for: from a table to the one below. */
    method Descend(space: nat, vpn: nat, level: nat, below: nat, table: nat, create: bool, user: bool)
      returns (next: nat)
      requires Valid() && Allowed(roots, space, vpn, 1, user) && 1 <= level <= 3 && level == below + 1
      requires OnPath(mem, roots[space], vpn, level, table)
      requires user ==> UserPath(mem, roots[space], vpn, level)
      modifies this, allocator, allocator.bitmap
      ensures Valid() && roots == old(roots) && claimed == old(claimed)
      ensures Harmless(old(mem), old(allocator.bits), mem, allocator.bits, roots, user && vpn < USER_VPN)
      ensures Changed(old(mem), mem, roots, space, vpn, Walked(level, next, user))
      ensures next != 0 ==> OnPath(mem, roots[space], vpn, below, next)
      ensures next == 0 && create ==> Exhausted()
      ensures next == 0 ==> Look(old(mem), roots[space], vpn) == None || HugeAt(old(mem), roots[space], vpn)
      ensures user && next != 0 ==> UserPath(mem, roots[space], vpn, level)
      ensures user && next != 0 ==>
                (UserPath(mem, roots[space], vpn, below) <==> !(level == 1 && HugeAt(old(mem), roots[space], vpn)))
    {
      hide Inv, AllHeld, Nested, Harmless, Changed, Look, UserPath, HugeAt, TableAt, Index, NoRun, Grows;
      var i := Index(vpn, level);
      ghost var low := user && vpn < USER_VPN;
      HarmlessNothing(mem, allocator.bits, roots, low);
      NothingChanged(mem, roots, space, vpn);
      EntryOnPath(mem, own, roots, space, vpn, level, table);
      HugeIsMapped(mem, own, roots, space, vpn);
      ghost var c1 := Kept;
      if !Entry(mem, table, i).present {
        if !create {
          Rename(old(mem), old(own), mem, roots, space, vpn, Kept, Stopped(user));
          return 0;
        }
        var ok := LinkNewTable(space, vpn, level, table);
        HarmlessMore(old(mem), old(allocator.bits), mem, allocator.bits, roots, low);
        if !ok {
          Rename(old(mem), old(own), mem, roots, space, vpn, Kept, Stopped(user));
          return 0;
        }
      }
      ghost var mem1, bits1 := mem, allocator.bits;
      if user {
        SetUserBit(space, vpn, level, table);
        HarmlessTwice(old(mem), old(allocator.bits), mem1, bits1, mem, allocator.bits, roots, low);
        c1 := if level == 1 then Marked else Kept;
        Combine(old(mem), old(own), mem1, mem, roots, space, vpn, Kept, c1, c1);
      }
      ghost var mem2, bits2 := mem, allocator.bits;
      if level == 1 && Entry(mem, table, i).huge {
        if !create {
          Rename(old(mem), old(own), mem, roots, space, vpn, c1, Stopped(user));
          return 0;
        }
        var ok := SplitOnPath(space, vpn, table);
        HarmlessMore(mem2, bits2, mem, allocator.bits, roots, low);
        HarmlessTwice(old(mem), old(allocator.bits), mem2, bits2, mem, allocator.bits, roots, low);
        if !ok {
          Rename(old(mem), old(own), mem, roots, space, vpn, c1, Stopped(user));
          return 0;
        }
        Combine(old(mem), old(own), mem2, mem, roots, space, vpn, c1, SplitUp, Reached(user));
      } else if level == 1 {
        Rename(old(mem), old(own), mem, roots, space, vpn, c1, Reached(user));
      }
      next := Entry(mem, table, i).frame;
      NextTable(mem, own, roots, space, vpn, level, below, table);
      assert next > 0;
    }

    /** The huge-page branch of table_for. */
    method SplitOnPath(space: nat, vpn: nat, table: nat) returns (ok: bool)
      requires Valid() && Allowed(roots, space, vpn, 1, false)
      requires OnPath(mem, roots[space], vpn, 1, table)
      requires Entry(mem, table, Index(vpn, 1)).huge
      modifies this, allocator, allocator.bitmap
      ensures Valid() && roots == old(roots) && claimed == old(claimed)
      ensures Harmless(old(mem), old(allocator.bits), mem, allocator.bits, roots, false)
      ensures !ok ==> Exhausted() && mem == old(mem)
      ensures ok ==> OnPath(mem, roots[space], vpn, 1, table)
      ensures ok ==> Entry(mem, table, Index(vpn, 1)) == TableEntry(Entry(mem, table, Index(vpn, 1)).frame)
      ensures UserPath(mem, roots[space], vpn, 1) == UserPath(old(mem), roots[space], vpn, 1)
      ensures ok ==> Changed(old(mem), mem, roots, space, vpn, SplitUp)
    {
      hide Inv, AllHeld, Nested, Changed;
      TableAtServes(mem, own, roots, space, vpn, 1);
      ghost var mem0, own0 := mem, own;
      ghost var made;
      ok, made := SplitHugePage(table, Index(vpn, 1));
      if ok {
        SplitGates(mem0, mem, own0, roots, table, made, space, vpn);
        PathStays(mem0, mem, own0, roots, table, space, vpn, 1);
        UserPathStays(mem0, mem, own0, roots, table, space, vpn, 1);
      }
    }

    /** The missing-entry branch of table_for. */
    method LinkNewTable(space: nat, vpn: nat, level: nat, table: nat) returns (ok: bool)
      requires Valid() && Allowed(roots, space, vpn, 1, false) && 1 <= level <= 3
      requires OnPath(mem, roots[space], vpn, level, table)
      requires !Entry(mem, table, Index(vpn, level)).present
      modifies this, allocator, allocator.bitmap
      ensures Valid() && roots == old(roots) && claimed == old(claimed)
      ensures Harmless(old(mem), old(allocator.bits), mem, allocator.bits, roots, false)
      ensures !ok ==> Exhausted() && mem == old(mem)
      ensures ok ==> OnPath(mem, roots[space], vpn, level, table)
      ensures ok ==> Entry(mem, table, Index(vpn, level)) == TableEntry(Entry(mem, table, Index(vpn, level)).frame)
      ensures UserPath(mem, roots[space], vpn, level) == UserPath(old(mem), roots[space], vpn, level)
      ensures Changed(old(mem), mem, roots, space, vpn, Kept)
    {
      hide Inv, AllHeld, Nested, FramesHeld, Changed;
      ghost var mem0 := mem;
      NothingChanged(mem, roots, space, vpn);
      var i := Index(vpn, level);
      var next := AllocateTable();
      if next == 0 {
        return false;
      }
      LinkStep(mem0, own, roots, space, vpn, level, table, next);
      OneMoreTable(own, claimed, allocator.bits, next, ChildOwner(own, roots, table, i));
      HeldMore(outside, own, claimed, old(allocator.bits), next, ChildOwner(own, roots, table, i));
      mem := SetEntry(mem, table, i, TableEntry(next));
      LinkGates(mem0, mem, own, roots, table, i, next, space, vpn);
      own := own[next := ChildOwner(own, roots, table, i)];
      return true;
    }

    /** The `entry |= pte_user` of table_for. */
    method SetUserBit(space: nat, vpn: nat, level: nat, table: nat)
      requires Valid() && Allowed(roots, space, vpn, 1, true) && 1 <= level <= 3
      requires OnPath(mem, roots[space], vpn, level, table) && UserPath(mem, roots[space], vpn, level)
      requires Entry(mem, table, Index(vpn, level)).present
      modifies this
      ensures Valid() && roots == old(roots) && claimed == old(claimed) && own == old(own)
      ensures Harmless(old(mem), allocator.bits, mem, allocator.bits, roots, vpn < USER_VPN)
      ensures OnPath(mem, roots[space], vpn, level, table) && UserPath(mem, roots[space], vpn, level)
      ensures Entry(mem, table, Index(vpn, level)) == WithUser(old(Entry(mem, table, Index(vpn, level))))
      ensures Changed(old(mem), mem, roots, space, vpn, if level == 1 then Marked else Kept)
    {
      hide Inv, AllHeld, Nested, Changed;
      UserStep(mem, own, roots, space, vpn, level, table);
      MarkGates(mem, own, roots, table, level, space, vpn);
      var i := Index(vpn, level);
      mem := SetEntry(mem, table, i, WithUser(Entry(mem, table, i)));
    }

    /** The store into the last-level table that ends each page's turn. */
    method StoreLeaf(space: nat, vpn: nat, table: nat, entry: Pte, ghost before: Tables)
      requires Valid() && space in roots && vpn < VPN_LIMIT
      requires OnPath(mem, roots[space], vpn, 0, table) && SameView(before, mem, roots)
      requires !entry.huge && (entry.present ==> entry.frame % PAGE == 0 && entry.frame < PHYS_LIMIT)
      requires IsOpen(entry) && Small(space, vpn) ==> GateAt(mem, roots[space], vpn).marked
      modifies this
      ensures Valid() && roots == old(roots) && claimed == old(claimed) && own == old(own)
      ensures PageSet(before, mem, roots, space, vpn, LeafMapping(entry))
      ensures BranchKept(old(mem), mem, roots)
      ensures Changed(old(mem), mem, roots, space, vpn, Stored(IsOpen(entry)))
    {
      hide Inv, AllHeld, Nested, Changed;
      LeafStep(mem, own, roots, space, vpn, table, entry);
      StoreGates(mem, own, roots, table, space, vpn, entry);
      mem := SetEntry(mem, table, Index(vpn, 0), entry);
    }

    /** One page's turn in map and unmap. */
    method SetPage(space: nat, vpn: nat, entry: Pte, user: bool) returns (ok: bool)
      requires Valid() && Allowed(roots, space, vpn, 1, user)
      requires !entry.huge && (entry.present ==> entry.frame % PAGE == 0 && entry.frame < PHYS_LIMIT)
      requires user == IsOpen(entry)
      modifies this, allocator, allocator.bitmap
      ensures Valid() && roots == old(roots) && claimed == old(claimed)
      ensures ok ==> PageSet(old(mem), mem, roots, space, vpn, LeafMapping(entry))
      ensures ok ==> PageEffect(old(mem), old(allocator.bits), mem, allocator.bits, roots, space, vpn, user)
      ensures !ok ==> Exhausted() && Unset(old(mem), old(allocator.bits), mem, allocator.bits, roots, space, vpn, user,
                                           GaveUp(user))
      ensures !ok ==> Look(old(mem), roots[space], vpn) == None || HugeAt(old(mem), roots[space], vpn)
      ensures !ok && user ==> (UserMay(mem, roots[space], vpn) <==> HugeAt(old(mem), roots[space], vpn))
    {
      hide Inv, AllHeld, Nested, Changed, UserMay, PageEffect, HugeAt, GateAt, Small;
      var table := TableFor(space, vpn, true, user);
      if table == 0 {
        Rename(old(mem), old(own), mem, roots, space, vpn, Stopped(user), GaveUp(user));
        return false;
      }
      if user && Small(space, vpn) {
        ReachedMarked(old(mem), old(own), mem, roots, space, vpn);
      }
      ghost var mem1 := mem;
      StoreLeaf(space, vpn, table, entry, old(mem));
      StoreEffect(old(mem), old(own), old(allocator.bits), mem1, allocator.bits, mem, roots, space, vpn, user);
      return true;
    }

    /** map: on success every page of the range leads to its frame with exactly
        the asked bits; in any case no other page leads anywhere else. For ring 3
        it opens the range, and in the direct map more or less than that; asked
        for the kernel, it opens nothing and shuts the range. */
    method Map(space: nat, address: nat, frame: nat, length: nat, flags: PageFlags) returns (ok: bool, ghost done: nat)
      requires Valid() && Allowed(roots, space, address / PAGE, PagesFor(length), flags.user)
      modifies this, allocator, allocator.bitmap
      ensures Valid() && roots == old(roots) && claimed == old(claimed)
      ensures done <= PagesFor(length)
      ensures Mapped(old(mem), mem, roots, space, address / PAGE, done, frame, flags)
      ensures Reaches(mem, roots, space, address / PAGE, done, frame, flags)
      ensures ok ==> done == PagesFor(length)
      ensures !ok ==> Exhausted() && done < PagesFor(length)
      ensures !ok ==>
              Look(old(mem), roots[space], address / PAGE + done) == None
                || HugeAt(old(mem), roots[space], address / PAGE + done)
      ensures !ok && flags.user ==>
                (UserMay(mem, roots[space], address / PAGE + done) <==>
                 HugeAt(old(mem), roots[space], address / PAGE + done)
                   && !Touched(address / PAGE, done, address / PAGE + done))
      ensures RangeEffect(old(mem), old(allocator.bits), mem, allocator.bits, roots, space, address / PAGE, done,
                          flags.user, if ok then Kept else GaveUp(flags.user))
      ensures RightsAfter(old(mem), mem, roots, space, address / PAGE, done, flags.user,
                          if ok then Kept else GaveUp(flags.user))
    {
      hide UserMay, Touched;
      hide Inv, AllHeld, Nested, Mapped, Reaches, RangeEffect, RightsAfter, PageSet, PageEffect, Unset, HugeAt, Look;
      MapNone(mem, roots, space, address / PAGE, frame, flags);
      ghost var first := address / PAGE;
      var offset := 0;
      done := 0;
      NoEffect(mem, allocator.bits, roots, space, first, flags.user);
      while offset < length
        invariant offset == done * PAGE && done <= PagesFor(length)
        invariant Valid() && roots == old(roots) && claimed == old(claimed)
        invariant Mapped(old(mem), mem, roots, space, first, done, frame, flags)
        invariant RangeEffect(old(mem), old(allocator.bits), mem, allocator.bits, roots, space, first, done, flags.user,
                              Kept)
        decreases length - offset
      {
        var vpn := (address + offset) / PAGE;
        PageOfOffset(address, offset, done, length);
        ghost var mem1, bits1 := mem, allocator.bits;
        var entry := LeafEntry(PageAddress(frame + offset), flags);
        ok := SetPage(space, vpn, entry, flags.user);
        if !ok {
          MapFailed(old(mem), old(allocator.bits), mem1, bits1, mem, allocator.bits, roots, space, first, done, frame,
                    flags, vpn);
          HugeBefore(old(mem), old(allocator.bits), mem1, bits1, roots, space, first, done, flags.user, vpn);
          EffectOfFailure(old(mem), old(allocator.bits), mem1, bits1, mem, allocator.bits, roots, space, first, done,
                          flags.user, vpn, GaveUp(flags.user));
          EffectIsRights(old(mem), old(own), old(allocator.bits), mem, own, allocator.bits, roots, space, first, done,
                         flags.user, GaveUp(flags.user));
          MappedReaches(old(mem), mem, roots, space, first, done, frame, flags);
          return;
        }
        MapOneMore(old(mem), mem1, mem, roots, space, first, done, frame, flags, offset, vpn, entry);
        EffectOneMore(old(mem), old(own), old(allocator.bits), mem1, bits1, mem, allocator.bits, roots, space, first,
                      done, flags.user, vpn);
        done := done + 1;
        offset := offset + PAGE;
      }
      EffectIsRights(old(mem), old(own), old(allocator.bits), mem, own, allocator.bits, roots, space, first, done,
                     flags.user, Kept);
      MappedReaches(old(mem), mem, roots, space, first, done, frame, flags);
      ok := true;
    }

    /** unmap: on success no page of the range is mapped; no other mapping changes. */
    method Unmap(space: nat, address: nat, length: nat) returns (ok: bool, ghost done: nat)
      requires Valid() && Allowed(roots, space, address / PAGE, PagesFor(length), false)
      modifies this, allocator, allocator.bitmap
      ensures Valid() && roots == old(roots) && claimed == old(claimed)
      ensures done <= PagesFor(length)
      ensures Unmapped(old(mem), mem, roots, space, address / PAGE, done)
      ensures ok ==> done == PagesFor(length)
      ensures !ok ==> Exhausted() && done < PagesFor(length)
      ensures !ok ==>
              Look(old(mem), roots[space], address / PAGE + done) == None
                || HugeAt(old(mem), roots[space], address / PAGE + done)
      ensures RangeEffect(old(mem), old(allocator.bits), mem, allocator.bits, roots, space, address / PAGE, done, false,
                          Kept)
      ensures RightsAfter(old(mem), mem, roots, space, address / PAGE, done, false, Kept)
    {
      hide Inv, AllHeld, Nested, RangeEffect, RightsAfter, PageEffect, Changed, HugeAt, UserMay;
      ghost var first := address / PAGE;
      var offset := 0;
      done := 0;
      NoEffect(mem, allocator.bits, roots, space, first, false);
      while offset < length
        invariant offset == done * PAGE && done <= PagesFor(length)
        invariant Valid() && roots == old(roots) && claimed == old(claimed)
        invariant Unmapped(old(mem), mem, roots, space, first, done)
        invariant RangeEffect(old(mem), old(allocator.bits), mem, allocator.bits, roots, space, first, done, false,
                              Kept)
        decreases length - offset
      {
        var vpn := (address + offset) / PAGE;
        PageOfOffset(address, offset, done, length);
        ghost var mem1, bits1 := mem, allocator.bits;
        ok := SetPage(space, vpn, ABSENT, false);
        if !ok {
          HugeBefore(old(mem), old(allocator.bits), mem1, bits1, roots, space, first, done, false, vpn);
          EffectOfFailure(old(mem), old(allocator.bits), mem1, bits1, mem, allocator.bits, roots, space, first, done,
                          false, vpn, Kept);
          EffectIsRights(old(mem), old(own), old(allocator.bits), mem, own, allocator.bits, roots, space, first, done,
                         false, Kept);
          return;
        }
        EffectOneMore(old(mem), old(own), old(allocator.bits), mem1, bits1, mem, allocator.bits, roots, space, first,
                      done, false, vpn);
        done := done + 1;
        offset := offset + PAGE;
      }
      EffectIsRights(old(mem), old(own), old(allocator.bits), mem, own, allocator.bits, roots, space, first, done,
                     false,
                     Kept);
      ok := true;
    }

    /** One page's turn in protect. */
    method ProtectPage(space: nat, vpn: nat, flags: PageFlags) returns (ok: bool, ghost last: Change)
      requires Valid() && Allowed(roots, space, vpn, 1, flags.user)
      modifies this, allocator, allocator.bitmap
      ensures Valid() && roots == old(roots) && claimed == old(claimed)
      ensures !ok ==> Unset(old(mem), old(allocator.bits), mem, allocator.bits, roots, space, vpn, flags.user, last)
      ensures !ok ==> Look(old(mem), roots[space], vpn) == None || (Exhausted() && HugeAt(old(mem), roots[space], vpn))
      ensures StoppedAt(last, ok, flags.user)
      ensures ok ==> Look(old(mem), roots[space], vpn).Some?
      ensures ok ==> PageSet(old(mem), mem, roots, space, vpn,
                             LeafMapping(LeafEntry(Look(old(mem), roots[space], vpn).value.frame, flags)))
      ensures ok ==> PageEffect(old(mem), old(allocator.bits), mem, allocator.bits, roots, space, vpn, flags.user)
    {
      hide Inv, AllHeld, Nested, Changed, UserMay, PageEffect, HugeAt, GateAt, Small;
      var table := TableFor(space, vpn, true, flags.user);
      if table == 0 {
        Rename(old(mem), old(own), mem, roots, space, vpn, Stopped(flags.user), GaveUp(flags.user));
        return false, GaveUp(flags.user);
      }
      LeafLook(mem, own, roots, space, vpn, table);
      assert Look(mem, roots[space], vpn) == Look(old(mem), roots[space], vpn);
      var entry := Entry(mem, table, Index(vpn, 0));
      if !entry.present {
        HugeIsMapped(old(mem), old(own), roots, space, vpn);
        last := if flags.user then Reached(true) else Kept;
        Rename(old(mem), old(own), mem, roots, space, vpn, Reached(flags.user), last);
        return false, last;
      }
      if flags.user && Small(space, vpn) {
        ReachedMarked(old(mem), old(own), mem, roots, space, vpn);
      }
      ghost var mem1 := mem;
      StoreLeaf(space, vpn, table, LeafEntry(entry.frame, flags), old(mem));
      StoreEffect(old(mem), old(own), old(allocator.bits), mem1, allocator.bits, mem, roots, space, vpn, flags.user);
      return true, Kept;
    }

    /** protect: pages keep their frames whether it succeeds or fails; it
        stops at the first page that is not mapped, or cannot be split. */
    method Protect(space: nat, address: nat, length: nat, flags: PageFlags)
      returns (ok: bool, ghost done: nat, ghost last: Change)
      requires Valid() && Allowed(roots, space, address / PAGE, PagesFor(length), flags.user)
      modifies this, allocator, allocator.bitmap
      ensures Valid() && roots == old(roots) && claimed == old(claimed)
      ensures done <= PagesFor(length)
      ensures Protected(old(mem), mem, roots, space, address / PAGE, done, flags)
      ensures StillReaches(old(mem), mem, roots, space, address / PAGE, done, flags)
      ensures ok ==> done == PagesFor(length)
      ensures !ok ==> done < PagesFor(length)
      ensures !ok ==> Look(old(mem), roots[space], address / PAGE + done) == None
                      || (Exhausted() && HugeAt(old(mem), roots[space], address / PAGE + done))
      ensures StoppedAt(last, ok, flags.user)
      ensures RangeEffect(old(mem), old(allocator.bits), mem, allocator.bits, roots, space, address / PAGE, done,
                          flags.user, last)
      ensures RightsAfter(old(mem), mem, roots, space, address / PAGE, done, flags.user, last)
    {
      hide Inv, AllHeld, Nested, StillReaches, RangeEffect, RightsAfter, PageEffect, Unset, HugeAt, Look, UserMay;
      ghost var first := address / PAGE;
      var offset := 0;
      done := 0;
      NoEffect(mem, allocator.bits, roots, space, first, flags.user);
      while offset < length
        invariant offset == done * PAGE && done <= PagesFor(length)
        invariant Valid() && roots == old(roots) && claimed == old(claimed)
        invariant Protected(old(mem), mem, roots, space, first, done, flags)
        invariant AllMapped(old(mem), roots, space, first, done)
        invariant RangeEffect(old(mem), old(allocator.bits), mem, allocator.bits, roots, space, first, done, flags.user,
                              Kept)
        decreases length - offset
      {
        var vpn := (address + offset) / PAGE;
        PageOfOffset(address, offset, done, length);
        ghost var mem1, bits1 := mem, allocator.bits;
        assert Look(mem1, roots[space], vpn) == Look(old(mem), roots[space], vpn);
        ok, last := ProtectPage(space, vpn, flags);
        if !ok {
          ProtectFailed(old(mem), mem1, bits1, mem, allocator.bits, roots, space, first, done, flags, vpn, last);
          HugeBefore(old(mem), old(allocator.bits), mem1, bits1, roots, space, first, done, flags.user, vpn);
          EffectOfFailure(old(mem), old(allocator.bits), mem1, bits1, mem, allocator.bits, roots, space, first, done,
                          flags.user, vpn, last);
          EffectIsRights(old(mem), old(own), old(allocator.bits), mem, own, allocator.bits, roots, space, first, done,
                         flags.user, last);
          ProtectedLeads(old(mem), mem, roots, space, first, done, flags);
          return;
        }
        ProtectOneMore(old(mem), old(own), mem1, mem, roots, space, first, done, flags, vpn,
                       LeafEntry(Look(mem1, roots[space], vpn).value.frame, flags));
        EffectOneMore(old(mem), old(own), old(allocator.bits), mem1, bits1, mem, allocator.bits, roots, space, first,
                      done, flags.user, vpn);
        done := done + 1;
        offset := offset + PAGE;
      }
      EffectIsRights(old(mem), old(own), old(allocator.bits), mem, own, allocator.bits, roots, space, first, done,
                     flags.user, Kept);
      ProtectedLeads(old(mem), mem, roots, space, first, done, flags);
      ok, last := true, Kept;
    }

    /** translate, as the loop it is. Zero is also what a page mapped to
        frame zero gives at offset zero. */
    method Translate(space: nat, address: nat) returns (physical: nat)
      requires Valid() && space in roots && address / PAGE < VPN_LIMIT
      ensures var m := Look(mem, roots[space], address / PAGE);
              physical == if m.Some? then m.value.frame + address % PAGE else 0
    {
      hide Inv, AllHeld;
      var vpn := address / PAGE;
      var table := roots[space];
      var level := 3;
      while level >= 1
        invariant 0 <= level <= 3
        invariant OnPath(mem, roots[space], vpn, level, table)
      {
        WalkFromTable(mem, own, roots, space, vpn, level);
        TableAtServes(mem, own, roots, space, vpn, level);
        var entry := Entry(mem, table, Index(vpn, level));
        if !entry.present {
          return 0;
        }
        if entry.huge {
          OffsetInHugePage(address);
          return entry.frame + address % HUGE_PAGE;
        }
        table := entry.frame;
        level := level - 1;
      }
      LeafLook(mem, own, roots, space, vpn, table);
      var entry := Entry(mem, table, Index(vpn, 0));
      if !entry.present {
        return 0;
      }
      return entry.frame + address % PAGE;
    }
  }

  /** A page in a 2 MiB page is mapped. */
  lemma HugeIsMapped(mem: Tables, own: map<nat, Owner>, roots: map<nat, nat>, space: nat, vpn: nat)
    requires Inv(mem, own, roots) && space in roots && vpn < VPN_LIMIT
    ensures HugeAt(mem, roots[space], vpn) ==> Look(mem, roots[space], vpn).Some?
  {
    if HugeAt(mem, roots[space], vpn) {
      EntryOnPath(mem, own, roots, space, vpn, 1, TableAt(mem, roots[space], vpn, 1).value);
      WalkFromTable(mem, own, roots, space, vpn, 1);
    }
  }

  /** What one turn of the loop of table_for does to the gates. */
  function Walked(level: nat, next: nat, user: bool): Change {
    if next == 0 then Stopped(user) else if level == 1 then Reached(user) else Kept
  }

  /** How a turn of protect ends: an operation for ring 3 may stop on the way to
      the page's last-level table, or there, at a page that is not mapped. */
  predicate StoppedAt(last: Change, ok: bool, user: bool) {
    if ok || !user then last == Kept else last == Stopped(true) || last == Reached(true)
  }

  lemma HugeKept(mem: Tables, mem': Tables, roots: map<nat, nat>, space: nat, vpn: nat)
    requires space in roots && vpn < VPN_LIMIT && Changed(mem, mem', roots, space, vpn, Kept)
    ensures HugeAt(mem', roots[space], vpn) == HugeAt(mem, roots[space], vpn)
  {
    hide HugeAt;
    assert GateAt(mem', roots[space], vpn) == GateAt(mem, roots[space], vpn);
  }

  /** A present entry that is not a 2 MiB page leads the path one level down. */
  lemma NextTable(mem: Tables, own: map<nat, Owner>, roots: map<nat, nat>, space: nat, vpn: nat, level: nat, below: nat,
                  t: nat)
    requires Inv(mem, own, roots) && space in roots && vpn < VPN_LIMIT && 1 <= level <= 3 && level == below + 1
    requires OnPath(mem, roots[space], vpn, level, t)
    requires Entry(mem, t, Index(vpn, level)).present
    requires level == 1 ==> !Entry(mem, t, Index(vpn, level)).huge
    ensures OnPath(mem, roots[space], vpn, below, Entry(mem, t, Index(vpn, level)).frame)
    ensures Entry(mem, t, Index(vpn, level)).frame in own
    ensures UserPath(mem, roots[space], vpn, below) ==
            (UserPath(mem, roots[space], vpn, level) && Entry(mem, t, Index(vpn, level)).bits.user)
  {
    TableAtServes(mem, own, roots, space, vpn, level);
    assert GoodEntry(own, roots, t, Index(vpn, level), Entry(mem, t, Index(vpn, level)));
  }

  /** The whole effect of the missing-entry branch of table_for. */
  lemma LinkStep(mem: Tables, own: map<nat, Owner>, roots: map<nat, nat>, space: nat, vpn: nat, level: nat, t: nat,
                 next: nat)
    requires Inv(mem, own, roots) && space in roots && vpn < VPN_LIMIT && 1 <= level <= 3
    requires OnPath(mem, roots[space], vpn, level, t) && !Entry(mem, t, Index(vpn, level)).present
    requires next !in own && next % PAGE == 0 && next < PHYS_LIMIT
    ensures t in own && own[t].level > 0 && t in mem && Index(vpn, level) < |mem[t]| && next != t
    ensures var mem' := SetEntry(mem[next := EmptyTable()], t, Index(vpn, level), TableEntry(next));
            && Inv(mem', own[next := ChildOwner(own, roots, t, Index(vpn, level))], roots)
            && SameView(mem, mem', roots) && BranchKept(mem, mem', roots)
            && OnPath(mem', roots[space], vpn, level, t)
            && UserPath(mem', roots[space], vpn, level) == UserPath(mem, roots[space], vpn, level)
            && Entry(mem', t, Index(vpn, level)) == TableEntry(next)
  {
    TableAtServes(mem, own, roots, space, vpn, level);
    var i := Index(vpn, level);
    var mem1 := mem[next := EmptyTable()];
    FreshTable(mem, mem1, own, roots, next);
    LinkTable(mem1, own, roots, t, i, next);
    var mem' := SetEntry(mem1, t, i, TableEntry(next));
    PathStays(mem, mem', own, roots, t, space, vpn, level);
    UserPathStays(mem, mem', own, roots, t, space, vpn, level);
  }

  /** The whole effect of marking one entry of a path for ring 3. */
  lemma UserStep(mem: Tables, own: map<nat, Owner>, roots: map<nat, nat>, space: nat, vpn: nat, level: nat, t: nat)
    requires Inv(mem, own, roots) && Allowed(roots, space, vpn, 1, true) && 1 <= level <= 3
    requires OnPath(mem, roots[space], vpn, level, t) && Entry(mem, t, Index(vpn, level)).present
    ensures t in mem && Index(vpn, level) < |mem[t]|
    ensures var e := Entry(mem, t, Index(vpn, level));
            var mem' := SetEntry(mem, t, Index(vpn, level), WithUser(e));
            && Inv(mem', own, roots)
            && SameView(mem, mem', roots) && (USER_VPN <= vpn ==> BranchKept(mem, mem', roots))
           
            && OnPath(mem', roots[space], vpn, level, t)
            && UserPath(mem', roots[space], vpn, level) == UserPath(mem, roots[space], vpn, level)
            && Entry(mem', t, Index(vpn, level)) == WithUser(e)
  {
    TableAtServes(mem, own, roots, space, vpn, level);
    TopPrefix(vpn);
    var i := Index(vpn, level);
    MarkUser(mem, own, roots, t, i);
    var mem' := SetEntry(mem, t, i, WithUser(Entry(mem, t, i)));
    PathStays(mem, mem', own, roots, t, space, vpn, level);
    UserPathStays(mem, mem', own, roots, t, space, vpn, level);
  }

  /** The whole effect of split_huge_page, in the tree. */
  lemma SplitStep(mem: Tables, own: map<nat, Owner>, roots: map<nat, nat>, t: nat, i: nat, next: nat)
    requires Inv(mem, own, roots) && t in own && i < ENTRIES && Entry(mem, t, i).huge
    requires next !in own && next % PAGE == 0 && next < PHYS_LIMIT
    ensures own[t].level == 1 && t in mem && i < |mem[t]| && next != t
    ensures var mem' := SetEntry(mem[next := SplitTable(Entry(mem, t, i))], t, i, TableEntry(next));
            && Inv(mem', own[next := ChildOwner(own, roots, t, i)], roots)
            && SameView(mem, mem', roots) && BranchKept(mem, mem', roots)
            && ChangesOnly(mem, mem', own, t)
            && Entry(mem', t, i) == TableEntry(next)
  {
    assert GoodEntry(own, roots, t, i, Entry(mem, t, i));
    var mem1 := mem[next := SplitTable(Entry(mem, t, i))];
    FreshTable(mem, mem1, own, roots, next);
    SplitHuge(mem1, own, roots, t, i, next);
    var mem' := SetEntry(mem1, t, i, TableEntry(next));
  }

  /** The whole effect of storing a last-level entry. */
  lemma LeafStep(mem: Tables, own: map<nat, Owner>, roots: map<nat, nat>, space: nat, vpn: nat, t: nat, e: Pte)
    requires Inv(mem, own, roots) && space in roots && vpn < VPN_LIMIT
    requires OnPath(mem, roots[space], vpn, 0, t)
    requires !e.huge && (e.present ==> e.frame % PAGE == 0 && e.frame < PHYS_LIMIT)
    ensures t in mem && Index(vpn, 0) < |mem[t]|
    ensures var mem' := SetEntry(mem, t, Index(vpn, 0), e);
            && Inv(mem', own, roots) && PageSet(mem, mem', roots, space, vpn, LeafMapping(e))
            && BranchKept(mem, mem', roots)
  {
    LeafLook(mem, own, roots, space, vpn, t);
    WriteLeaf(mem, own, roots, space, vpn, t, e);
    var mem' := SetEntry(mem, t, Index(vpn, 0), e);
  }

  lemma MapNone(mem: Tables, roots: map<nat, nat>, space: nat, first: nat, frame: nat, flags: PageFlags)
    ensures Mapped(mem, mem, roots, space, first, 0, frame, flags)
    ensures Protected(mem, mem, roots, space, first, 0, flags)
    ensures Unmapped(mem, mem, roots, space, first, 0)
  {
  }

  /** A page that could not be reached leaves the mappings as they were. */
  lemma MapFailed(mem0: Tables, bits0: seq<bool>, mem1: Tables, bits1: seq<bool>, mem2: Tables, bits2: seq<bool>,
                  roots: map<nat, nat>, space: nat, first: nat, done: nat, frame: nat, flags: PageFlags, vpn: nat)
    requires Mapped(mem0, mem1, roots, space, first, done, frame, flags) && vpn == first + done < VPN_LIMIT
    requires Unset(mem1, bits1, mem2, bits2, roots, space, vpn, flags.user, GaveUp(flags.user))
    ensures Mapped(mem0, mem2, roots, space, first, done, frame, flags)
    ensures Look(mem1, roots[space], vpn) == Look(mem0, roots[space], vpn)
  {
  }

  lemma MapOneMore(mem0: Tables, mem1: Tables, mem2: Tables, roots: map<nat, nat>, space: nat,
                   first: nat, done: nat, frame: nat, flags: PageFlags, offset: nat, vpn: nat, entry: Pte)
    requires Mapped(mem0, mem1, roots, space, first, done, frame, flags)
    requires vpn == first + done && offset == done * PAGE && entry == LeafEntry(PageAddress(frame + offset), flags)
    requires PageSet(mem1, mem2, roots, space, vpn, LeafMapping(entry))
    ensures Mapped(mem0, mem2, roots, space, first, done + 1, frame, flags)
  {
  }

  ghost predicate AllMapped(mem: Tables, roots: map<nat, nat>, space: nat, first: nat, done: nat) {
    space in roots && forall v: nat :: first <= v < first + done ==> Look(mem, roots[space], v).Some?
  }

  lemma ProtectOneMore(mem0: Tables, own0: map<nat, Owner>, mem1: Tables, mem2: Tables, roots: map<nat, nat>,
                       space: nat, first: nat, done: nat, flags: PageFlags, vpn: nat, entry: Pte)
    requires Inv(mem0, own0, roots) && space in roots && vpn == first + done < VPN_LIMIT
    requires Protected(mem0, mem1, roots, space, first, done, flags)
    requires Look(mem0, roots[space], vpn).Some?
    requires entry == LeafEntry(Look(mem0, roots[space], vpn).value.frame, flags)
    requires PageSet(mem1, mem2, roots, space, vpn, LeafMapping(entry))
    requires AllMapped(mem0, roots, space, first, done)
    ensures Protected(mem0, mem2, roots, space, first, done + 1, flags)
    ensures AllMapped(mem0, roots, space, first, done + 1)
  {
    forall s, v: nat | s in roots && v < VPN_LIMIT
      ensures Look(mem2, roots[s], v) ==
              if first <= v < first + done + 1 && Sees(s, space, v) && Look(mem0, roots[s], v).Some?
              then Some(MappingOf(Look(mem0, roots[s], v).value.frame, flags, FULL))
              else Look(mem0, roots[s], v)
    {
      if v == first + done && Sees(s, space, v) {
        SeersAgree(mem0, own0, roots, s, space, v);
      }
    }
  }

  lemma ProtectFailed(mem0: Tables, mem1: Tables, bits1: seq<bool>, mem2: Tables, bits2: seq<bool>,
                      roots: map<nat, nat>, space: nat, first: nat, done: nat, flags: PageFlags, vpn: nat, last: Change)
    requires Protected(mem0, mem1, roots, space, first, done, flags)
    requires Unset(mem1, bits1, mem2, bits2, roots, space, vpn, flags.user, last)
    ensures Protected(mem0, mem2, roots, space, first, done, flags)
  {
  }

  /** Pages visited by a loop that advances by whole pages. */
  lemma PageOfOffset(address: nat, offset: nat, k: nat, length: nat)
    requires offset == k * PAGE
    ensures (address + offset) / PAGE == address / PAGE + k
    ensures offset < length <==> k < PagesFor(length)
  {
  }

  /** Filling a frame that is no table yet changes nothing. */
  lemma FreshTable(mem: Tables, mem': Tables, own: map<nat, Owner>, roots: map<nat, nat>, frame: nat)
    requires Inv(mem, own, roots) && frame !in own && mem'.Keys >= mem.Keys
    requires forall f :: f in own ==> mem'[f] == mem[f]
    ensures Inv(mem', own, roots) && SameView(mem, mem', roots)
  {
    forall f, i: nat | f in own && i < ENTRIES
      ensures GoodEntry(own, roots, f, i, Entry(mem', f, i))
    {
      assert GoodEntry(own, roots, f, i, Entry(mem, f, i));
    }
    forall s, vpn: nat | s in roots && vpn < VPN_LIMIT
      ensures Look(mem', roots[s], vpn) == Look(mem, roots[s], vpn)
    {
      RootServes(mem, own, roots, s, vpn);
      WalkSame(mem, mem', own, roots, roots[s], s, vpn, 3, FULL);
    }
  }

  lemma {:induction false} WalkSame(mem: Tables, mem': Tables, own: map<nat, Owner>, roots: map<nat, nat>,
                                    f: nat, space: nat, vpn: nat, level: nat, acc: Access)
    requires Inv(mem, own, roots) && vpn < VPN_LIMIT && level <= 3
    requires forall g, i: nat :: g in own ==> Entry(mem', g, i) == Entry(mem, g, i)
    requires Serves(own, f, space, vpn, level)
    ensures Walk(mem', f, vpn, level, acc) == Walk(mem, f, vpn, level, acc)
    decreases level
  {
    var e := Entry(mem, f, Index(vpn, level));
    if e.present && level > 0 && !e.huge {
      ChildServes(mem, own, roots, f, space, vpn, level);
      WalkSame(mem, mem', own, roots, e.frame, space, vpn, level - 1, Narrow(acc, e.bits));
    }
  }
}
