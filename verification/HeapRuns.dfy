/**
 Whole runs of kmalloc and kfree: what is true of every heap they can reach.
 */
module HeapRuns {
  import opened Basics
  import opened HeapModel

  datatype Op = MallocOp(size: nat, frames: nat) | FreeOp(ptr: nat)

  /** The heap, and the size asked for of every pointer not yet freed. */
  datatype Ledger = Ledger(heap: Heap, live: map<nat, nat>)

  /** kfree is for null or a pointer that is live. */
  ghost predicate Next(a: Ledger, base: nat, op: Op, b: Ledger) {
    match op
    case MallocOp(size, frames) =>
      var (h, p) := Malloc(a.heap, base, size, frames);
      b == Ledger(h, if p.Some? then a.live[p.value := size] else a.live)
    case FreeOp(ptr) =>
      (ptr == 0 || ptr in a.live) && b == Ledger(Free(a.heap, ptr), a.live - {ptr})
  }

  ghost predicate Inv(a: Ledger, base: nat) {
    && Sound(a.heap, base)
    && (forall b :: b in Live(a.heap.blocks) ==> b.addr + HEADER in a.live && Holds(b, a.live[b.addr + HEADER]))
    && (forall p :: p in a.live ==> HasBlock(a.heap.blocks, p))
  }

  /** The block is as large as asked for, and less than a header and two lines larger. */
  predicate Holds(b: Block, size: nat) {
    size <= b.size < AlignUp(size) + HEADER + ALIGNMENT
  }

  ghost predicate HasBlock(bs: seq<Block>, p: nat) {
    exists b :: b in Live(bs) && b.addr + HEADER == p
  }

  lemma NowHas(bs: seq<Block>, b: Block)
    requires b in Live(bs)
    ensures HasBlock(bs, b.addr + HEADER)
  {
  }

  lemma StillHas(bs: seq<Block>, cs: seq<Block>, p: nat)
    requires HasBlock(bs, p) && Live(bs) <= Live(cs)
    ensures HasBlock(cs, p)
  {
  }

  lemma StillHasOther(bs: seq<Block>, cs: seq<Block>, gone: Block, p: nat)
    requires HasBlock(bs, p) && Live(cs) == Live(bs) - {gone} && gone.addr + HEADER != p
    ensures HasBlock(cs, p)
  {
    hide Live;
    var b := BlockBehind(bs, p);
    assert b in Live(cs);
  }

  lemma BlockBehind(bs: seq<Block>, p: nat) returns (b: Block)
    requires HasBlock(bs, p)
    ensures b in Live(bs) && b.addr + HEADER == p
  {
    hide Live;
    b :| b in Live(bs) && b.addr + HEADER == p;
  }

  lemma LiveIsBlock(bs: seq<Block>, b: Block)
    requires b in Live(bs)
    ensures b in bs
  {
  }

  lemma LiveBlockOf(a: Ledger, base: nat, p: nat) returns (b: Block)
    requires Inv(a, base) && p in a.live
    ensures Sound(a.heap, base) && b in Live(a.heap.blocks) && b in a.heap.blocks && b.addr + HEADER == p
            && a.live[p] <= b.size
  {
    hide Sound, Live, HasBlock;
    b := BlockBehind(a.heap.blocks, p);
    LiveIsBlock(a.heap.blocks, b);
  }

  lemma OneLiveBlock(h: Heap, base: nat, b: Block, c: Block)
    requires Sound(h, base) && b in Live(h.blocks) && c in Live(h.blocks) && b.addr == c.addr
    ensures b == c
  {
    var i :| 0 <= i < |h.blocks| && h.blocks[i] == b;
    var j :| 0 <= j < |h.blocks| && h.blocks[j] == c;
    OneBlockPerAddress(h.blocks, base, base + h.committed, i, j);
  }

  lemma GivenBlock(bs: seq<Block>, cs: seq<Block>, p: nat, size: nat) returns (b: Block)
    requires Gave(bs, cs, p, size)
    ensures NewBlock(bs, cs, p, size, b)
  {
    b :| NewBlock(bs, cs, p, size, b);
  }

  lemma MallocKeepsInv(a: Ledger, base: nat, size: nat, frames: nat, b: Ledger)
    requires Inv(a, base) && Next(a, base, MallocOp(size, frames), b)
    ensures Inv(b, base)
  {
    hide Sound, Live, Malloc, HasBlock, AlignUp, Lowest, BehindAll, SomeFit, Gave, CanGrow, Step;
    MallocSound(a.heap, base, size, frames);
    var (h, p) := Malloc(a.heap, base, size, frames);
    if p.Some? {
      var made := GivenBlock(a.heap.blocks, h.blocks, p.value, size);
      forall c | c in Live(a.heap.blocks)
        ensures c.addr + HEADER != p.value
      {
        if c.addr == made.addr {
          OneLiveBlock(h, base, c, made);
        }
      }
      forall q | q in b.live
        ensures HasBlock(h.blocks, q)
      {
        if q != p.value {
          StillHas(a.heap.blocks, h.blocks, q);
        } else {
          NowHas(h.blocks, made);
        }
      }
    }
  }

  lemma FreeKeepsInv(a: Ledger, base: nat, ptr: nat, b: Ledger)
    requires Inv(a, base) && Next(a, base, FreeOp(ptr), b)
    ensures Inv(b, base)
  {
    hide Sound, Live, HasBlock;
    if ptr in a.live {
      hide Free;
      var gone := LiveBlockOf(a, base, ptr);
      FreeSound(a.heap, base, ptr, gone);
      hide Inv;
      FreedKeepsInv(a, base, ptr, gone, b);
    } else {
      assert a.live - {ptr} == a.live;
    }
  }

  lemma FreedKeepsInv(a: Ledger, base: nat, ptr: nat, gone: Block, b: Ledger)
    requires Inv(a, base) && gone in Live(a.heap.blocks) && gone.addr + HEADER == ptr
    requires Sound(b.heap, base) && Live(b.heap.blocks) == Live(a.heap.blocks) - {gone} && b.live == a.live - {ptr}
    ensures Inv(b, base)
  {
    hide Sound, Live, HasBlock;
    forall c | c in Live(b.heap.blocks)
      ensures c.addr + HEADER in b.live && Holds(c, b.live[c.addr + HEADER])
    {
      if c.addr == gone.addr {
        OneLiveBlock(a.heap, base, c, gone);
      }
    }
    forall q | q in b.live
      ensures HasBlock(b.heap.blocks, q)
    {
      StillHasOther(a.heap.blocks, b.heap.blocks, gone, q);
    }
  }

  ghost predicate Run(states: seq<Ledger>, base: nat, ops: seq<Op>) {
    && |states| == |ops| + 1
    && states[0] == Ledger(Heap([], 0), map[]) && base % ALIGNMENT == 0
    && forall k :: 0 <= k < |ops| ==> Next(states[k], base, ops[k], states[k + 1])
  }

  /** After any sequence of kmalloc, growth and kfree the blocks tile the
      committed range, are coalesced, and are live exactly for live pointers. */
  lemma {:induction false} RunKeepsInv(states: seq<Ledger>, base: nat, ops: seq<Op>, n: nat)
    requires Run(states, base, ops) && n < |states|
    ensures Inv(states[n], base)
  {
    if n > 0 {
      hide Inv, Next;
      RunKeepsInv(states, base, ops, n - 1);
      assert Next(states[n - 1], base, ops[n - 1], states[n]);
      match ops[n - 1]
      case MallocOp(size, frames) => MallocKeepsInv(states[n - 1], base, size, frames, states[n]);
      case FreeOp(ptr) => FreeKeepsInv(states[n - 1], base, ptr, states[n]);
    }
  }

  lemma BlocksDisjoint(h: Heap, base: nat, b: Block, c: Block)
    requires Sound(h, base) && b in h.blocks && c in h.blocks && b != c
    ensures base <= b.addr && End(b) <= base + h.committed && (End(b) <= c.addr || End(c) <= b.addr)
  {
    var i :| 0 <= i < |h.blocks| && h.blocks[i] == b;
    var j :| 0 <= j < |h.blocks| && h.blocks[j] == c;
    Increasing(h.blocks, base, base + h.committed, i, i);
    if i < j {
      Increasing(h.blocks, base, base + h.committed, i, j);
    } else {
      Increasing(h.blocks, base, base + h.committed, j, i);
    }
  }

  /** What two live pointers give access to does not overlap, lies inside the
      committed range and clear of every header. */
  lemma LivePayloadsDisjoint(states: seq<Ledger>, base: nat, ops: seq<Op>, n: nat, p: nat, q: nat)
    requires Run(states, base, ops) && n < |states| && p in states[n].live && q in states[n].live && p != q
    ensures base <= p - HEADER && p + states[n].live[p] <= base + states[n].heap.committed
    ensures p + states[n].live[p] <= q - HEADER || q + states[n].live[q] <= p - HEADER
  {
    hide Run, Sound, Inv;
    RunKeepsInv(states, base, ops, n);
    var b := LiveBlockOf(states[n], base, p);
    var c := LiveBlockOf(states[n], base, q);
    BlocksDisjoint(states[n].heap, base, b, c);
  }

  /** Freeing everything, in whatever order, leaves one free block. */
  lemma AllFreedIsOneBlock(states: seq<Ledger>, base: nat, ops: seq<Op>, n: nat)
    requires Run(states, base, ops) && n < |states| && states[n].live == map[] && states[n].heap.committed > 0
    ensures var h := states[n].heap;
            |h.blocks| == 1 && h.blocks[0].free && h.blocks[0].addr == base && h.blocks[0].size == h.committed - HEADER
  {
    RunKeepsInv(states, base, ops, n);
    EmptyIsOneBlock(states[n].heap.blocks, base, base + states[n].heap.committed);
  }

  /** Two runs that end with the same blocks in use, and have grown as far, end
      with the same heap: the free blocks do not depend on the order of events. */
  lemma OrderDoesNotMatter(s: seq<Ledger>, ops: seq<Op>, s': seq<Ledger>, ops': seq<Op>, base: nat, n: nat, m: nat)
    requires Run(s, base, ops) && n < |s| && Run(s', base, ops') && m < |s'|
    requires Live(s[n].heap.blocks) == Live(s'[m].heap.blocks) && s[n].heap.committed == s'[m].heap.committed
    ensures s[n].heap == s'[m].heap
  {
    RunKeepsInv(s, base, ops, n);
    RunKeepsInv(s', base, ops', m);
    hide Run, Live;
    Canonical(s[n].heap.blocks, s'[m].heap.blocks, base, base + s[n].heap.committed);
  }
}
