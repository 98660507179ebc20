/**
 Kernel and process address spaces over whole runs: every process shares the
 kernel's first top-level entry (kernel/proc/process.cpp) and owns a branch
 above it, and no operation reaches across.
 */
module AddressSpaces {
  import opened Basics
  import opened FrameBits
  import opened PageWalk
  import opened PageUser
  import opened PageOpen
  import opened PageTables
  import opened PagingInit

  datatype State = State(mem: Tables, own: map<nat, Owner>, roots: map<nat, nat>)

  /** What happens to a space; `done` is the number of pages reached. */
  datatype Op =
    | MapOp(space: nat, first: nat, done: nat, frame: nat, flags: PageFlags)
    | UnmapOp(space: nat, first: nat, done: nat)
    | ProtectOp(space: nat, first: nat, done: nat, flags: PageFlags)
    | NewSpaceOp(space: nat)

  /** The kernel works below 2^39 without the user bit, a process above it. */
  ghost predicate Within(roots: map<nat, nat>, space: nat, first: nat, done: nat, user: bool) {
    && space in roots && first + done <= VPN_LIMIT
    && if space == KERNEL then !user && first + done <= USER_VPN else USER_VPN <= first
  }

  /** Tables in order, and the branch all spaces share closed to ring 3. */
  ghost predicate Good(s: State) {
    && Inv(s.mem, s.own, s.roots)
    && Entry(s.mem, s.roots[KERNEL], 0).present
    && !Entry(s.mem, s.roots[KERNEL], 0).bits.user
  }

  function At(s: State, space: nat, v: nat): Option<Mapping>
    requires space in s.roots
  {
    Look(s.mem, s.roots[space], v)
  }

  /** What a page is to its space: where it leads, and whether ring 3 may use it. */
  datatype Seen = Seen(mapping: Option<Mapping>, open: bool)

  const NOTHING := Seen(None, false)

  function SeenAt(s: State, space: nat, v: nat): Seen
    requires space in s.roots
  {
    Seen(At(s, space, v), UserMay(s.mem, s.roots[space], v))
  }

  ghost predicate Step(s: State, op: Op, s': State) {
    && Inv(s'.mem, s'.own, s'.roots)
    && BranchKept(s.mem, s'.mem, s.roots)
    && match op
       case MapOp(space, first, done, frame, flags) =>
         && Within(s.roots, space, first, done, flags.user) && s'.roots == s.roots
         && Mapped(s.mem, s'.mem, s.roots, space, first, done, frame, flags)
         && SmallRights(s.mem, s'.mem, s.roots, space, first, done, flags.user)
       case UnmapOp(space, first, done) =>
         && Within(s.roots, space, first, done, false) && s'.roots == s.roots
         && Unmapped(s.mem, s'.mem, s.roots, space, first, done)
         && SmallRights(s.mem, s'.mem, s.roots, space, first, done, false)
       case ProtectOp(space, first, done, flags) =>
         && Within(s.roots, space, first, done, flags.user) && s'.roots == s.roots
         && Protected(s.mem, s'.mem, s.roots, space, first, done, flags)
         && SmallRights(s.mem, s'.mem, s.roots, space, first, done, flags.user)
       case NewSpaceOp(space) =>
         && space !in s.roots && s'.roots.Keys == s.roots.Keys + {space}
         && KERNEL in s.roots && s'.roots[KERNEL] == s.roots[KERNEL]
         && (forall q, v: nat :: q in s.roots && v < VPN_LIMIT ==> SeenAt(s', q, v) == SeenAt(s, q, v))
         && (forall v: nat :: USER_VPN <= v < VPN_LIMIT ==> SeenAt(s', space, v) == NOTHING)
  }

  // ------------------------------------------------------------ one step

  lemma StepKeepsGood(s: State, op: Op, s': State)
    requires Good(s) && Step(s, op, s')
    ensures Good(s') && s.roots.Keys <= s'.roots.Keys
  {
  }

  /** Below 2^39 every space shows what the kernel shows, and ring 3 sees nothing. */
  lemma SharedBranch(s: State, space: nat, v: nat)
    requires Good(s) && space in s.roots && v < USER_VPN
    ensures At(s, space, v) == At(s, KERNEL, v)
    ensures !UserMay(s.mem, s.roots[space], v)
  {
    LowPagesShared(s.mem, s.own, s.roots, space, v);
    KernelPagesClosed(s.mem, s.own, s.roots, space, v);
  }

  /** An operation on one space leaves another as it is: a process operation
      changes no other space anywhere, a kernel operation no page above 2^39. */
  lemma StepIsolates(s: State, op: Op, s': State, q: nat, v: nat)
    requires Good(s) && Step(s, op, s') && q in s.roots && v < VPN_LIMIT
    requires q != op.space && (op.space == KERNEL ==> USER_VPN <= v)
    ensures q in s'.roots && SeenAt(s', q, v) == SeenAt(s, q, v)
  {
    StepKeepsGood(s, op, s');
    TopPrefix(v);
    if v < USER_VPN {
      assert q in s'.roots.Keys;
      SharedBranch(s, q, v);
      SharedBranch(s', q, v);
    }
    hide UserMay, Look, Inv;
    assert q in s.roots.Keys;
    match op
    case MapOp(space, first, done, frame, flags) =>
      assert first <= v < first + done && Sees(q, space, v) ==> SpaceAt(q, v) == q;
    case UnmapOp(space, first, done) =>
      assert first <= v < first + done && Sees(q, space, v) ==> SpaceAt(q, v) == q;
    case ProtectOp(space, first, done, flags) =>
      assert first <= v < first + done && Sees(q, space, v) ==> SpaceAt(q, v) == q;
    case NewSpaceOp(space) =>
      assert s'.roots.Keys == s.roots.Keys + {space};
  }

  /** A page that is not in the range of an operation keeps its mapping in the
      operation's own space too. */
  lemma StepOutsideRange(s: State, op: Op, s': State, v: nat)
    requires Good(s) && Step(s, op, s') && !op.NewSpaceOp? && v < VPN_LIMIT
    requires !(op.first <= v < op.first + op.done)
    ensures At(s', op.space, v) == At(s, op.space, v)
  {
  }

  /** What an operation makes of a page of its own space. */
  lemma StepHere(s: State, op: Op, s': State, v: nat)
    requires Good(s) && Step(s, op, s') && v < VPN_LIMIT && op.space in s'.roots && SpaceAt(op.space, v) == op.space
    ensures op.space in s.roots || op.NewSpaceOp?
    ensures SeenAt(s', op.space, v) ==
            Replay(op, op.space, v, if op.space in s.roots then SeenAt(s, op.space, v) else NOTHING)
  {
    TopPrefix(v);
    StepKeepsGood(s, op, s');
    if v < USER_VPN {
      SharedBranch(s, KERNEL, v);
      SharedBranch(s', KERNEL, v);
    }
    hide UserMay, Look, Inv, MappingOf, PageAddress, BranchKept;
    assert Sees(op.space, op.space, v);
  }

  // ----------------------------------------------------------- whole runs

  ghost predicate Run(states: seq<State>, ops: seq<Op>) {
    && |states| == |ops| + 1
    && forall k :: 0 <= k < |ops| ==> Step(states[k], ops[k], states[k + 1])
  }

  lemma {:induction false} RunKeepsGood(states: seq<State>, ops: seq<Op>, n: nat)
    requires Run(states, ops) && Good(states[0]) && n < |states|
    ensures Good(states[n])
    ensures states[0].roots.Keys <= states[n].roots.Keys
  {
    hide Step, Good;
    if n > 0 {
      RunKeepsGood(states, ops, n - 1);
      assert Step(states[n - 1], ops[n - 1], states[n]);
      StepKeepsGood(states[n - 1], ops[n - 1], states[n]);
    }
  }

  /** In every run, at every moment, each address below 2^39 translates
      identically in the kernel and in every process, with the same rights,
      and is out of reach of ring 3. */
  lemma KernelSharedInEveryRun(states: seq<State>, ops: seq<Op>, n: nat, space: nat, v: nat)
    requires Run(states, ops) && Good(states[0]) && n < |states|
    requires space in states[n].roots && v < USER_VPN
    ensures KERNEL in states[n].roots && At(states[n], space, v) == At(states[n], KERNEL, v)
    ensures !UserMay(states[n].mem, states[n].roots[space], v)
  {
    RunKeepsGood(states, ops, n);
    SharedBranch(states[n], space, v);
  }

  /** In every run, whatever other processes and the kernel do, a process's
      own pages change only by its own operations; and the kernel's pages
      only by the kernel's. */
  lemma {:induction false} IsolationInEveryRun(states: seq<State>, ops: seq<Op>, n: nat, q: nat, v: nat)
    requires Run(states, ops) && Good(states[0]) && n < |states|
    requires q in states[0].roots && v < VPN_LIMIT
    requires forall k :: 0 <= k < n ==> ops[k].space != q && (ops[k].space == KERNEL ==> USER_VPN <= v)
    ensures q in states[n].roots && SeenAt(states[n], q, v) == SeenAt(states[0], q, v)
  {
    hide Step, Good, Look, UserMay;
    if n > 0 {
      IsolationInEveryRun(states, ops, n - 1, q, v);
      RunKeepsGood(states, ops, n - 1);
      assert Step(states[n - 1], ops[n - 1], states[n]);
      StepIsolates(states[n - 1], ops[n - 1], states[n], q, v);
    }
  }

  // ------------------------------------------------- runs, page by page

  /** What an operation makes of page v of the space that owns it. */
  function Replay(op: Op, owner: nat, v: nat, was: Seen): Seen {
    if op.space != owner then was
    else match op
      case MapOp(_, first, done, frame, flags) =>
        if first <= v < first + done
        then Seen(Some(MappingOf(PageAddress(frame + (v - first) * PAGE), flags, FULL)), flags.user) else was
      case UnmapOp(_, first, done) => if first <= v < first + done then NOTHING else was
      case ProtectOp(_, first, done, flags) =>
        if first <= v < first + done
        then Seen(if was.mapping.Some? then Some(MappingOf(was.mapping.value.frame, flags, FULL)) else None, flags.user)
        else was
      case NewSpaceOp(_) => NOTHING
  }

  /** The page after the first n operations, each replayed on this page alone. */
  function Replays(s: State, ops: seq<Op>, n: nat, owner: nat, v: nat): Seen
    requires n <= |ops|
  {
    if n == 0 then (if owner in s.roots then SeenAt(s, owner, v) else NOTHING)
    else Replay(ops[n - 1], owner, v, Replays(s, ops, n - 1, owner, v))
  }

  /** A step does to a page of the space that owns it what Replay says. */
  lemma StepReplays(s: State, op: Op, s': State, owner: nat, v: nat)
    requires Good(s) && Step(s, op, s') && v < VPN_LIMIT && owner in s'.roots && SpaceAt(owner, v) == owner
    ensures owner in s.roots || op == NewSpaceOp(owner)
    ensures SeenAt(s', owner, v) == Replay(op, owner, v, if owner in s.roots then SeenAt(s, owner, v) else NOTHING)
  {
    TopPrefix(v);
    StepKeepsGood(s, op, s');
    assert owner in s'.roots.Keys;
    if v < USER_VPN {
      SharedBranch(s, KERNEL, v);
      SharedBranch(s', KERNEL, v);
    }
    if owner != op.space {
      assert owner in s.roots.Keys;
      StepIsolates(s, op, s', owner, v);
    } else {
      StepHere(s, op, s', v);
    }
  }

  /** In every run, at every moment, every page of every space leads where the
      operations on the space that owns it have put it, and is open to ring 3
      exactly if the last of them that reached it asked for that. */
  lemma {:induction false} EveryRunReplays(states: seq<State>, ops: seq<Op>, n: nat, q: nat, v: nat)
    requires Run(states, ops) && Good(states[0]) && n < |states|
    requires q in states[n].roots && v < VPN_LIMIT
    ensures SeenAt(states[n], q, v) == Replays(states[0], ops, n, SpaceAt(q, v), v)
  {
    RunKeepsGood(states, ops, n);
    TopPrefix(v);
    if v < USER_VPN {
      SharedBranch(states[n], q, v);
      SharedBranch(states[n], KERNEL, v);
    }
    OwnerReplays(states, ops, n, SpaceAt(q, v), v);
  }

  lemma {:induction false} OwnerReplays(states: seq<State>, ops: seq<Op>, n: nat, owner: nat, v: nat)
    requires Run(states, ops) && Good(states[0]) && n < |states|
    requires owner in states[n].roots && v < VPN_LIMIT && SpaceAt(owner, v) == owner
    ensures SeenAt(states[n], owner, v) == Replays(states[0], ops, n, owner, v)
  {
    hide Step, Good, SeenAt;
    if n > 0 {
      RunKeepsGood(states, ops, n - 1);
      assert Step(states[n - 1], ops[n - 1], states[n]);
      StepReplays(states[n - 1], ops[n - 1], states[n], owner, v);
      if owner in states[n - 1].roots {
        OwnerReplays(states, ops, n - 1, owner, v);
      }
    }
  }

  /** No page of the kernel's branch is both writable and executable. */
  ghost predicate KernelSafe(s: State) {
    KERNEL in s.roots && forall v: nat :: v < USER_VPN ==> Safe(At(s, KERNEL, v))
  }

  ghost predicate SafeOp(op: Op) {
    op.space == KERNEL ==>
      (op.MapOp? ==> SafeFlags(op.flags)) && (op.ProtectOp? ==> SafeFlags(op.flags))
  }

  lemma StepKeepsKernelSafe(s: State, op: Op, s': State)
    requires Good(s) && KernelSafe(s) && Step(s, op, s') && SafeOp(op)
    ensures KernelSafe(s')
  {
    StepKeepsGood(s, op, s');
    forall v: nat | v < USER_VPN
      ensures Safe(At(s', KERNEL, v))
    {
      assert Safe(At(s, KERNEL, v));
      if op.space != KERNEL {
        StepIsolates(s, op, s', KERNEL, v);
      } else if !(op.first <= v < op.first + op.done) {
        StepOutsideRange(s, op, s', v);
      }
    }
  }

  /** Write xor execute over every run: as long as no kernel map or protect
      asks for Write without NoExecute, no kernel page is ever both, through
      any number of splits and whatever the processes do. */
  lemma {:induction false} WriteXorExecuteInEveryRun(states: seq<State>, ops: seq<Op>, n: nat)
    requires Run(states, ops) && Good(states[0]) && KernelSafe(states[0]) && n < |states|
    requires forall k :: 0 <= k < n ==> SafeOp(ops[k])
    ensures KernelSafe(states[n])
  {
    hide Step, Good, KernelSafe, SafeOp;
    if n > 0 {
      WriteXorExecuteInEveryRun(states, ops, n - 1);
      RunKeepsGood(states, ops, n - 1);
      assert Step(states[n - 1], ops[n - 1], states[n]);
      StepKeepsKernelSafe(states[n - 1], ops[n - 1], states[n]);
    }
  }

  // --------------------------------------------- the trampoline window

  /** The exception: the page an application processor starts on is writable
      and executable until it is retired; all other kernel pages stay safe. */
  ghost predicate SafeExcept(s: State, page: nat) {
    KERNEL in s.roots && forall v: nat :: v < USER_VPN && v != page ==> Safe(At(s, KERNEL, v))
  }

  lemma TrampolineWindow(s: State, op: Op, s': State, page: nat)
    requires Good(s) && Step(s, op, s') && op.ProtectOp? && op.space == KERNEL
    requires op.first == page && op.done == 1 && page < USER_VPN
    ensures KernelSafe(s) ==> SafeExcept(s', page)
    ensures SafeExcept(s, page) && SafeFlags(op.flags) ==> KernelSafe(s')
  {
    forall v: nat | v < USER_VPN
      ensures v != page ==> At(s', KERNEL, v) == At(s, KERNEL, v)
    {
      if v != page {
        StepOutsideRange(s, op, s', v);
      }
    }
  }

  // --------------------------------------------------- a new process space

  function NewRoot(mem: Tables, roots: map<nat, nat>): (t: seq<Pte>)
    requires KERNEL in roots
    ensures |t| == ENTRIES
  {
    EmptyTable()[0 := Entry(mem, roots[KERNEL], 0)]
  }

  /** A zeroed top-level table with the kernel's first entry joins the forest. */
  lemma AdoptSpace(s: State, p: nat, root: nat)
    requires Good(s) && Nested(s.mem, s.roots) && p !in s.roots && root !in s.own
    ensures s.roots[KERNEL] != root
    ensures var s' := State(s.mem[root := NewRoot(s.mem, s.roots)], s.own[root := Owner(p, 3, 0, 0)],
                            s.roots[p := root]);
            Step(s, NewSpaceOp(p), s') && Nested(s'.mem, s'.roots)
  {
    var mem' := s.mem[root := NewRoot(s.mem, s.roots)];
    AdoptGood(s, p, root);
    AdoptNested(s, p, root);
    FreshTable(s.mem, mem', s.own, s.roots, root);
    AdoptedEmpty(s, root, mem');
    forall q, v: nat | q in s.roots && v < VPN_LIMIT
      ensures UserMay(mem', s.roots[q], v) == UserMay(s.mem, s.roots[q], v)
    {
      RootServes(s.mem, s.own, s.roots, q, v);
      UserSame(s.mem, mem', s.own, s.roots, s.roots[q], q, v, 3);
    }
    hide Inv, Nested, Look, UserMay;
  }

  /** The tables of the other spaces are walked as before. */
  lemma {:induction false} TableSame(mem: Tables, mem': Tables, own: map<nat, Owner>, roots: map<nat, nat>, space: nat,
                                     v: nat, level: nat)
    requires Inv(mem, own, roots) && space in roots && v < VPN_LIMIT && level <= 3
    requires forall f, i: nat :: f in own ==> Entry(mem', f, i) == Entry(mem, f, i)
    ensures TableAt(mem', roots[space], v, level) == TableAt(mem, roots[space], v, level)
    ensures UserPath(mem', roots[space], v, level) == UserPath(mem, roots[space], v, level)
    ensures TableAt(mem, roots[space], v, level).Some? ==> TableAt(mem, roots[space], v, level).value in own
    decreases 3 - level
  {
    if level < 3 {
      TableSame(mem, mem', own, roots, space, v, level + 1);
    }
    if TableAt(mem, roots[space], v, level).Some? {
      TableAtServes(mem, own, roots, space, v, level);
    }
  }

  lemma AdoptNested(s: State, p: nat, root: nat)
    requires Good(s) && Nested(s.mem, s.roots) && p !in s.roots && root !in s.own
    ensures Nested(s.mem[root := NewRoot(s.mem, s.roots)], s.roots[p := root])
  {
    var mem' := s.mem[root := NewRoot(s.mem, s.roots)];
    var roots' := s.roots[p := root];
    forall q, v: nat | q in s.roots && v < VPN_LIMIT
      ensures GateAt(mem', s.roots[q], v) == GateAt(s.mem, s.roots[q], v)
      ensures UserPath(mem', s.roots[q], v, 1) == UserPath(s.mem, s.roots[q], v, 1)
    {
      TableSame(s.mem, mem', s.own, s.roots, q, v, 0);
      TableSame(s.mem, mem', s.own, s.roots, q, v, 1);
    }
    forall v: nat | v < VPN_LIMIT
      ensures if v < USER_VPN then GateAt(mem', root, v) == GateAt(mem', s.roots[KERNEL], v)
                                   && UserPath(mem', root, v, 1) == UserPath(mem', s.roots[KERNEL], v, 1)
              else GateAt(mem', root, v) == Gate(false, false, false)
    {
      AdoptedGate(s, p, root, v);
    }
    hide Inv, GateAt, UserPath;
    forall q, v: nat | q in roots' && v < VPN_LIMIT
      ensures GateAt(mem', roots'[q], v).marked ==> UserPath(mem', roots'[q], v, 1)
      ensures Small(q, v) && GateAt(mem', roots'[q], v).leaf ==> GateAt(mem', roots'[q], v).marked
    {
      TopPrefix(v);
      var o := if q == p && v < USER_VPN then KERNEL else q;
      assert o in s.roots ==> (GateAt(s.mem, s.roots[o], v).marked ==> UserPath(s.mem, s.roots[o], v, 1));
    }
  }

  lemma AdoptedGate(s: State, p: nat, root: nat, v: nat)
    requires Good(s) && p !in s.roots && root !in s.own && v < VPN_LIMIT
    ensures var mem' := s.mem[root := NewRoot(s.mem, s.roots)];
            if v < USER_VPN then GateAt(mem', root, v) == GateAt(mem', s.roots[KERNEL], v)
                                 && UserPath(mem', root, v, 1) == UserPath(mem', s.roots[KERNEL], v, 1)
            else GateAt(mem', root, v) == Gate(false, false, false)
  {
    var mem' := s.mem[root := NewRoot(s.mem, s.roots)];
    var own' := s.own[root := Owner(p, 3, 0, 0)];
    var roots' := s.roots[p := root];
    AdoptGood(s, p, root);
    TopPrefix(v);
    if v < USER_VPN {
      SeersGate(mem', own', roots', p, KERNEL, v);
      SeersPath(mem', own', roots', p, KERNEL, v, 1);
    } else {
      assert Entry(mem', root, Index(v, 3)) == ABSENT;
      assert TableAt(mem', root, v, 3) == Some(root);
      assert TableAt(mem', root, v, 2) == None;
    }
  }

  lemma AdoptGood(s: State, p: nat, root: nat)
    requires Good(s) && p !in s.roots && root !in s.own
    ensures Inv(s.mem[root := NewRoot(s.mem, s.roots)], s.own[root := Owner(p, 3, 0, 0)], s.roots[p := root])
  {
    hide Walk, UserWalk;
    var mem' := s.mem[root := NewRoot(s.mem, s.roots)];
    var own' := s.own[root := Owner(p, 3, 0, 0)];
    var roots' := s.roots[p := root];
    forall f, i: nat | f in own' && i < ENTRIES
      ensures GoodEntry(own', roots', f, i, Entry(mem', f, i))
    {
      if f == root {
        assert GoodEntry(s.own, s.roots, s.roots[KERNEL], 0, Entry(s.mem, s.roots[KERNEL], 0));
      } else {
        assert GoodEntry(s.own, s.roots, f, i, Entry(s.mem, f, i));
      }
    }
  }

  lemma AdoptedEmpty(s: State, root: nat, mem': Tables)
    requires KERNEL in s.roots && mem' == s.mem[root := NewRoot(s.mem, s.roots)]
    ensures forall v: nat :: USER_VPN <= v < VPN_LIMIT ==> Look(mem', root, v) == None && !UserMay(mem', root, v)
  {
    forall v: nat | USER_VPN <= v < VPN_LIMIT
      ensures Look(mem', root, v) == None && !UserMay(mem', root, v)
    {
      TopPrefix(v);
      assert Entry(mem', root, Index(v, 3)) == ABSENT;
    }
  }

  lemma {:induction false} UserSame(mem: Tables, mem': Tables, own: map<nat, Owner>, roots: map<nat, nat>,
                                    f: nat, space: nat, vpn: nat, level: nat)
    requires Inv(mem, own, roots) && vpn < VPN_LIMIT && level <= 3
    requires forall g, i: nat :: g in own ==> Entry(mem', g, i) == Entry(mem, g, i)
    requires Serves(own, f, space, vpn, level)
    ensures UserWalk(mem', f, vpn, level) == UserWalk(mem, f, vpn, level)
    decreases level
  {
    var e := Entry(mem, f, Index(vpn, level));
    if e.present && level > 0 && !e.huge {
      ChildServes(mem, own, roots, f, space, vpn, level);
      UserSame(mem, mem', own, roots, e.frame, space, vpn, level - 1);
    }
  }

  /** The first half of ProcessTable::load: a root of its own for a process. */
  method NewSpace(pt: PageTables, p: nat) returns (ok: bool)
    requires pt.Valid() && p !in pt.roots && Good(State(pt.mem, pt.own, pt.roots))
    modifies pt, pt.allocator, pt.allocator.bitmap
    ensures pt.Valid() && Grows(old(pt.allocator.bits), pt.allocator.bits) && pt.claimed == old(pt.claimed)
    ensures !ok ==> pt.Exhausted() && pt.mem == old(pt.mem) && pt.roots == old(pt.roots) && pt.own == old(pt.own)
    ensures ok ==> Step(State(old(pt.mem), old(pt.own), old(pt.roots)), NewSpaceOp(p), State(pt.mem, pt.own, pt.roots))
  {
    hide Inv, AllHeld, Nested, Walk;
    var root := pt.AllocateTable();
    if root == 0 {
      return false;
    }
    AdoptSpace(State(old(pt.mem), pt.own, pt.roots), p, root);
    HeldMore(pt.outside, pt.own, pt.claimed, old(pt.allocator.bits), root, Owner(p, 3, 0, 0));
    var first := Entry(pt.mem, pt.roots[KERNEL], 0);
    pt.mem := pt.mem[root := EmptyTable()[0 := first]];
    assert pt.mem == old(pt.mem)[root := NewRoot(old(pt.mem), pt.roots)];
    pt.own := pt.own[root := Owner(p, 3, 0, 0)];
    pt.roots := pt.roots[p := root];
    return true;
  }

  // ------------------------------------------- the operations are the steps

  /** map, whether it succeeds or stops on the way, is a step of a run. */
  method MapIn(pt: PageTables, space: nat, address: nat, frame: nat, length: nat, flags: PageFlags)
    returns (ok: bool, ghost done: nat)
    requires pt.Valid() && Within(pt.roots, space, address / PAGE, PagesFor(length), flags.user)
    modifies pt, pt.allocator, pt.allocator.bitmap
    ensures pt.Valid() && (if ok then done == PagesFor(length) else pt.Exhausted() && done < PagesFor(length))
    ensures Step(State(old(pt.mem), old(pt.own), old(pt.roots)), MapOp(space, address / PAGE, done, frame, flags),
                 State(pt.mem, pt.own, pt.roots))
  {
    hide Inv, AllHeld, Nested, Walk, Mapped, SmallRights;
    ok, done := pt.Map(space, address, frame, length, flags);
  }

  method UnmapIn(pt: PageTables, space: nat, address: nat, length: nat) returns (ok: bool, ghost done: nat)
    requires pt.Valid() && Within(pt.roots, space, address / PAGE, PagesFor(length), false)
    modifies pt, pt.allocator, pt.allocator.bitmap
    ensures pt.Valid() && (if ok then done == PagesFor(length) else pt.Exhausted() && done < PagesFor(length))
    ensures Step(State(old(pt.mem), old(pt.own), old(pt.roots)), UnmapOp(space, address / PAGE, done),
                 State(pt.mem, pt.own, pt.roots))
  {
    hide Inv, AllHeld, Nested, Walk, Unmapped, SmallRights;
    ok, done := pt.Unmap(space, address, length);
  }

  method ProtectIn(pt: PageTables, space: nat, address: nat, length: nat, flags: PageFlags)
    returns (ok: bool, ghost done: nat)
    requires pt.Valid() && Within(pt.roots, space, address / PAGE, PagesFor(length), flags.user)
    modifies pt, pt.allocator, pt.allocator.bitmap
    ensures pt.Valid() && (if ok then done == PagesFor(length) else done < PagesFor(length))
    ensures Step(State(old(pt.mem), old(pt.own), old(pt.roots)), ProtectOp(space, address / PAGE, done, flags),
                 State(pt.mem, pt.own, pt.roots))
  {
    hide Inv, AllHeld, Nested, Walk, Protected, SmallRights;
    ghost var last;
    ok, done, last := pt.Protect(space, address, length, flags);
  }
}
