/**
 kernel/mm/heap.cpp over its block headers in memory: a doubly linked list of
 headers, each found at the address its neighbours hold. Addresses are numbers
 and memory is a map from the address of a header to the header; stale headers
 stay where they were.
 */
module Heap {
  import opened Basics
  import opened HeapModel

  datatype Header = Header(size: nat, free: bool, next: Option<nat>, prev: Option<nat>)

  function NextOf(bs: seq<Block>, i: nat): Option<nat> {
    if i + 1 < |bs| then Some(bs[i + 1].addr) else None
  }

  function PrevOf(bs: seq<Block>, i: nat): Option<nat> {
    if 0 < i <= |bs| then Some(bs[i - 1].addr) else None
  }

  function LastOf(bs: seq<Block>): Option<nat> {
    PrevOf(bs, |bs|)
  }

  function HeaderOf(bs: seq<Block>, i: nat): Header
    requires i < |bs|
  {
    Header(bs[i].size, bs[i].free, NextOf(bs, i), PrevOf(bs, i))
  }

  /** The headers in memory are those of the list, linked both ways. */
  ghost predicate Linked(hs: map<nat, Header>, bs: seq<Block>) {
    forall i :: 0 <= i < |bs| ==> bs[i].addr in hs && hs[bs[i].addr] == HeaderOf(bs, i)
  }

  ghost predicate Distinct(bs: seq<Block>) {
    forall i, j :: 0 <= i < j < |bs| ==> bs[i].addr != bs[j].addr
  }

  lemma TilesDistinct(bs: seq<Block>, base: nat, end: nat)
    requires Tiles(bs, base, end)
    ensures Distinct(bs)
  {
    forall i, j | 0 <= i < j < |bs|
      ensures bs[i].addr != bs[j].addr
    {
      Increasing(bs, base, end, i, j);
    }
  }

  // ------------------------------------------------------ memory updates

  /** The stores of split. */
  function SplitHeaders(hs: map<nat, Header>, a: nat, size: nat): map<nat, Header>
    requires a in hs && hs[a].size >= size + HEADER && (hs[a].next.Some? ==> hs[a].next.value in hs)
  {
    var made := a + HEADER + size;
    var hs1 := hs[made := Header(hs[a].size - size - HEADER, true, hs[a].next, Some(a))];
    var hs2 := if hs[a].next.Some? then hs1[hs[a].next.value := hs1[hs[a].next.value].(prev := Some(made))] else hs1;
    hs2[a := hs2[a].(next := Some(made), size := size)]
  }

  /** The stores of merge when `a` swallows the block `v` behind it. */
  function FuseHeaders(hs: map<nat, Header>, a: nat, v: nat): map<nat, Header>
    requires a in hs && v in hs && (hs[v].next.Some? ==> hs[v].next.value in hs)
  {
    var hs1 := hs[a := hs[a].(size := hs[a].size + HEADER + hs[v].size, next := hs[v].next)];
    if hs[v].next.Some? then hs1[hs[v].next.value := hs1[hs[v].next.value].(prev := Some(a))] else hs1
  }

  /** Where the headers next to block i are. */
  lemma Around(hs: map<nat, Header>, bs: seq<Block>, i: nat)
    requires Linked(hs, bs) && i < |bs|
    ensures bs[i].addr in hs && hs[bs[i].addr] == HeaderOf(bs, i)
    ensures i + 1 < |bs| ==> bs[i + 1].addr in hs && hs[bs[i + 1].addr] == HeaderOf(bs, i + 1)
    ensures hs[bs[i].addr].next.Some? ==> hs[bs[i].addr].next.value in hs
  {
  }

  lemma Apart(bs: seq<Block>, i: nat, j: nat)
    requires Distinct(bs) && i < |bs| && j < |bs| && i != j
    ensures bs[i].addr != bs[j].addr
  {
  }

  /** One block of a split list. */
  lemma SplitNth(bs: seq<Block>, i: nat, size: nat, k: nat)
    requires i < |bs| && size + HEADER + ALIGNMENT <= bs[i].size && k <= |bs|
    ensures var cs := SplitAt(bs, i, size);
            && |cs| == |bs| + 1
            && (k < i ==> cs[k] == bs[k])
            && (k == i ==> cs[k] == bs[i].(size := size))
            && (k == i + 1 ==> cs[k] == Block(bs[i].addr + HEADER + size, bs[i].size - size - HEADER, true))
            && (k > i + 1 ==> cs[k] == bs[k - 1])
  {
  }

  lemma SplitLinkedBefore(hs: map<nat, Header>, bs: seq<Block>, i: nat, size: nat, k: nat)
    requires Linked(hs, bs) && i < |bs| && size + HEADER + ALIGNMENT <= bs[i].size && Distinct(SplitAt(bs, i, size))
             && k < i
    requires bs[i].addr in hs && hs[bs[i].addr].size == bs[i].size
             && (hs[bs[i].addr].next.Some? ==> hs[bs[i].addr].next.value in hs)
    ensures var cs, hs' := SplitAt(bs, i, size), SplitHeaders(hs, bs[i].addr, size);
            k < |cs| && cs[k].addr in hs' && hs'[cs[k].addr] == HeaderOf(cs, k)
  {
    hide SplitAt, Linked, Distinct;
    var cs := SplitAt(bs, i, size);
    Around(hs, bs, k);
    Around(hs, bs, i);
    SplitNth(bs, i, size, k);
    SplitNth(bs, i, size, k + 1);
    SplitNth(bs, i, size, i);
    SplitNth(bs, i, size, i + 1);
    if k > 0 { SplitNth(bs, i, size, k - 1); }
    Apart(cs, k, i);
    Apart(cs, k, i + 1);
    if i + 1 < |bs| {
      SplitNth(bs, i, size, i + 2);
      Apart(cs, k, i + 2);
    }
  }

  lemma SplitLinkedAfter(hs: map<nat, Header>, bs: seq<Block>, i: nat, size: nat, k: nat)
    requires Linked(hs, bs) && i < |bs| && size + HEADER + ALIGNMENT <= bs[i].size && Distinct(SplitAt(bs, i, size))
             && i + 2 < k <= |bs|
    requires bs[i].addr in hs && hs[bs[i].addr].size == bs[i].size
             && (hs[bs[i].addr].next.Some? ==> hs[bs[i].addr].next.value in hs)
    ensures var cs, hs' := SplitAt(bs, i, size), SplitHeaders(hs, bs[i].addr, size);
            k < |cs| && cs[k].addr in hs' && hs'[cs[k].addr] == HeaderOf(cs, k)
  {
    hide SplitAt, Linked, Distinct;
    var cs := SplitAt(bs, i, size);
    Around(hs, bs, k - 1);
    Around(hs, bs, i);
    SplitNth(bs, i, size, k);
    SplitNth(bs, i, size, k - 1);
    if k < |bs| { SplitNth(bs, i, size, k + 1); }
    SplitNth(bs, i, size, i);
    SplitNth(bs, i, size, i + 1);
    SplitNth(bs, i, size, i + 2);
    Apart(cs, k, i);
    Apart(cs, k, i + 1);
    Apart(cs, k, i + 2);
  }

  lemma SplitLinkedInside(hs: map<nat, Header>, bs: seq<Block>, i: nat, size: nat, k: nat)
    requires Linked(hs, bs) && i < |bs| && size + HEADER + ALIGNMENT <= bs[i].size && Distinct(SplitAt(bs, i, size))
             && i <= k <= i + 2 && k <= |bs|
    requires bs[i].addr in hs && hs[bs[i].addr].size == bs[i].size
             && (hs[bs[i].addr].next.Some? ==> hs[bs[i].addr].next.value in hs)
    ensures var cs, hs' := SplitAt(bs, i, size), SplitHeaders(hs, bs[i].addr, size);
            k < |cs| && cs[k].addr in hs' && hs'[cs[k].addr] == HeaderOf(cs, k)
  {
    hide SplitAt, Linked, Distinct;
    var cs := SplitAt(bs, i, size);
    Around(hs, bs, i);
    if i > 0 { SplitNth(bs, i, size, i - 1); }
    SplitNth(bs, i, size, i);
    SplitNth(bs, i, size, i + 1);
    Apart(cs, i, i + 1);
    if i + 1 < |bs| {
      SplitNth(bs, i, size, i + 2);
      Apart(cs, i, i + 2);
      Apart(cs, i + 1, i + 2);
      if i + 2 < |bs| { SplitNth(bs, i, size, i + 3); }
    }
  }

  lemma SplitLinked(hs: map<nat, Header>, bs: seq<Block>, i: nat, size: nat)
    requires Linked(hs, bs) && i < |bs| && size + HEADER + ALIGNMENT <= bs[i].size && Distinct(SplitAt(bs, i, size))
    ensures var a := bs[i].addr;
            && a in hs && hs[a].size == bs[i].size && (hs[a].next.Some? ==> hs[a].next.value in hs)
            && Linked(SplitHeaders(hs, a, size), SplitAt(bs, i, size))
  {
    Around(hs, bs, i);
    SplitShape(bs, i, size);
    var a, cs := bs[i].addr, SplitAt(bs, i, size);
    hide SplitAt, Distinct, HeaderOf, SplitHeaders;
    var hs' := SplitHeaders(hs, a, size);
    forall k | 0 <= k < |cs|
      ensures cs[k].addr in hs' && hs'[cs[k].addr] == HeaderOf(cs, k)
    {
      if k < i {
        SplitLinkedBefore(hs, bs, i, size, k);
      } else if k <= i + 2 {
        SplitLinkedInside(hs, bs, i, size, k);
      } else {
        SplitLinkedAfter(hs, bs, i, size, k);
      }
    }
  }

  /** One block of a fused list. */
  lemma FuseNth(bs: seq<Block>, i: nat, k: nat)
    requires i + 1 < |bs| && k < |bs| - 1
    ensures var cs := Fuse(bs, i);
            && |cs| == |bs| - 1
            && (k < i ==> cs[k] == bs[k])
            && (k == i ==> cs[k] == bs[i].(size := bs[i].size + HEADER + bs[i + 1].size))
            && (k > i ==> cs[k] == bs[k + 1])
  {
  }

  lemma FuseLinkedAt(hs: map<nat, Header>, bs: seq<Block>, i: nat, k: nat)
    requires Linked(hs, bs) && Distinct(bs) && i + 1 < |bs| && k < |bs| - 1
    requires var v := bs[i + 1].addr; bs[i].addr in hs && v in hs && (hs[v].next.Some? ==> hs[v].next.value in hs)
    ensures var cs, hs' := Fuse(bs, i), FuseHeaders(hs, bs[i].addr, bs[i + 1].addr);
            k < |cs| && cs[k].addr in hs' && hs'[cs[k].addr] == HeaderOf(cs, k)
  {
    hide Fuse, Linked, Distinct;
    FuseNth(bs, i, k);
    if k > 0 { FuseNth(bs, i, k - 1); }
    if k + 2 < |bs| { FuseNth(bs, i, k + 1); }
    Around(hs, bs, i);
    Around(hs, bs, i + 1);
    var j := if k <= i then k else k + 1;
    Around(hs, bs, j);
    if j != i {
      Apart(bs, j, i);
    }
    if i + 2 < |bs| && j != i + 2 {
      Apart(bs, j, i + 2);
    }
  }

  lemma FuseLinked(hs: map<nat, Header>, bs: seq<Block>, i: nat)
    requires Linked(hs, bs) && Distinct(bs) && i + 1 < |bs|
    ensures var a, v := bs[i].addr, bs[i + 1].addr;
            && a in hs && v in hs && hs[a].next == Some(v) && hs[v].prev == Some(a)
              && (hs[v].next.Some? ==> hs[v].next.value in hs)
            && Linked(FuseHeaders(hs, a, v), Fuse(bs, i))
  {
    Around(hs, bs, i);
    Around(hs, bs, i + 1);
    FuseShape(bs, i);
    var cs := Fuse(bs, i);
    hide Fuse, Distinct, FuseHeaders;
    forall k | 0 <= k < |cs|
      ensures var hs' := FuseHeaders(hs, bs[i].addr, bs[i + 1].addr);
              cs[k].addr in hs' && hs'[cs[k].addr] == HeaderOf(cs, k)
    {
      FuseLinkedAt(hs, bs, i, k);
    }
  }

  lemma MarkLinked(hs: map<nat, Header>, bs: seq<Block>, i: nat, free: bool)
    requires Linked(hs, bs) && Distinct(bs) && i < |bs|
    ensures bs[i].addr in hs && hs[bs[i].addr] == HeaderOf(bs, i)
    ensures Linked(hs[bs[i].addr := hs[bs[i].addr].(free := free)], bs[i := bs[i].(free := free)])
  {
    var cs, hs' := bs[i := bs[i].(free := free)], hs[bs[i].addr := hs[bs[i].addr].(free := free)];
    forall k | 0 <= k < |cs|
      ensures cs[k].addr in hs' && hs'[cs[k].addr] == HeaderOf(cs, k)
    {
      assert hs[bs[k].addr] == HeaderOf(bs, k);
      assert k != i ==> bs[k].addr != bs[i].addr;
    }
  }

  lemma AppendLinked(hs: map<nat, Header>, bs: seq<Block>, b: Block)
    requires Linked(hs, bs) && Distinct(bs + [b])
    ensures var hs1 := hs[b.addr := Header(b.size, b.free, None, LastOf(bs))];
            && (bs != [] ==> LastOf(bs).value in hs1)
            && Linked(if bs == [] then hs1 else hs1[LastOf(bs).value := hs1[LastOf(bs).value].(next := Some(b.addr))],
                      bs + [b])
  {
    var cs := bs + [b];
    var hs1 := hs[b.addr := Header(b.size, b.free, None, LastOf(bs))];
    assert forall k :: 0 <= k < |bs| ==> cs[k].addr != cs[|bs|].addr;
    var hs' := if bs == [] then hs1 else hs1[LastOf(bs).value := hs1[LastOf(bs).value].(next := Some(b.addr))];
    forall k | 0 <= k < |cs|
      ensures cs[k].addr in hs' && hs'[cs[k].addr] == HeaderOf(cs, k)
    {
      if k < |bs| {
        assert hs[bs[k].addr] == HeaderOf(bs, k);
        assert k < |bs| - 1 ==> cs[k].addr != cs[|bs| - 1].addr;
      }
    }
  }

  lemma FuseDistinct(bs: seq<Block>, i: nat)
    requires Distinct(bs) && i + 1 < |bs|
    ensures Distinct(Fuse(bs, i))
  {
    var cs := Fuse(bs, i);
    forall k, l | 0 <= k < l < |cs|
      ensures cs[k].addr != cs[l].addr
    {
      FuseNth(bs, i, k);
      FuseNth(bs, i, l);
      Apart(bs, if k <= i then k else k + 1, if l <= i then l else l + 1);
    }
  }

  lemma SplitEnds(bs: seq<Block>, i: nat, size: nat)
    requires i < |bs| && size + HEADER + ALIGNMENT <= bs[i].size
    ensures var cs := SplitAt(bs, i, size);
            && cs != [] && cs[0].addr == bs[0].addr
            && LastOf(cs) == if i + 1 < |bs| then LastOf(bs) else Some(bs[i].addr + HEADER + size)
  {
    SplitNth(bs, i, size, 0);
    SplitNth(bs, i, size, |bs|);
  }

  lemma FuseEnds(bs: seq<Block>, i: nat)
    requires i + 1 < |bs|
    ensures var cs := Fuse(bs, i);
            && cs != [] && cs[0].addr == bs[0].addr
            && LastOf(cs) == if i + 2 < |bs| then LastOf(bs) else Some(bs[i].addr)
  {
    FuseNth(bs, i, 0);
    FuseNth(bs, i, |bs| - 2);
  }

  lemma MarkDistinct(bs: seq<Block>, i: nat, free: bool)
    requires Distinct(bs) && i < |bs|
    ensures Distinct(bs[i := bs[i].(free := free)])
  {
  }

  // ------------------------------------------------------- lists in memory

  datatype List = List(headers: map<nat, Header>, head: Option<nat>, tail: Option<nat>)

  /** The list in memory is `bs`. */
  ghost predicate Holds(l: List, bs: seq<Block>) {
    && Linked(l.headers, bs) && Distinct(bs)
    && l.head == (if bs == [] then None else Some(bs[0].addr)) && l.tail == LastOf(bs)
  }

  function SplitList(l: List, a: nat, size: nat): List
    requires a in l.headers && l.headers[a].size >= size + HEADER
             && (l.headers[a].next.Some? ==> l.headers[a].next.value in l.headers)
  {
    List(SplitHeaders(l.headers, a, size), l.head, if l.headers[a].next.Some? then l.tail else Some(a + HEADER + size))
  }

  function FuseList(l: List, a: nat, v: nat): List
    requires a in l.headers && v in l.headers && (l.headers[v].next.Some? ==> l.headers[v].next.value in l.headers)
  {
    List(FuseHeaders(l.headers, a, v), l.head, if l.headers[v].next.Some? then l.tail else Some(a))
  }

  function AppendList(l: List, b: Block): List
    requires l.tail.Some? ==> l.tail.value in l.headers
  {
    var hs1 := l.headers[b.addr := Header(b.size, b.free, None, l.tail)];
    List(if l.tail.None? then hs1 else hs1[l.tail.value := hs1[l.tail.value].(next := Some(b.addr))],
         if l.head.None? then Some(b.addr) else l.head, Some(b.addr))
  }

  lemma HeaderAt(l: List, bs: seq<Block>, i: nat)
    requires Holds(l, bs) && i < |bs|
    ensures bs[i].addr in l.headers && l.headers[bs[i].addr] == HeaderOf(bs, i)
    ensures l.headers[bs[i].addr].next.Some? ==> l.headers[bs[i].addr].next.value in l.headers
    ensures l.head.Some? && l.tail.Some?
  {
    Around(l.headers, bs, i);
  }

  lemma SplitHolds(l: List, bs: seq<Block>, i: nat, size: nat)
    requires Holds(l, bs) && i < |bs| && size + HEADER + ALIGNMENT <= bs[i].size && Distinct(SplitAt(bs, i, size))
    ensures var a := bs[i].addr;
            && a in l.headers && l.headers[a].size == bs[i].size
              && (l.headers[a].next.Some? ==> l.headers[a].next.value in l.headers)
            && Holds(SplitList(l, a, size), SplitAt(bs, i, size))
  {
    hide SplitAt, SplitHeaders, Linked, Distinct;
    SplitLinked(l.headers, bs, i, size);
    SplitEnds(bs, i, size);
    Around(l.headers, bs, i);
  }

  lemma FuseHolds(l: List, bs: seq<Block>, i: nat)
    requires Holds(l, bs) && i + 1 < |bs|
    ensures var a, v := bs[i].addr, bs[i + 1].addr;
            && a in l.headers && v in l.headers && (l.headers[v].next.Some? ==> l.headers[v].next.value in l.headers)
            && Holds(FuseList(l, a, v), Fuse(bs, i))
  {
    hide Fuse, FuseHeaders, Linked, Distinct;
    FuseLinked(l.headers, bs, i);
    FuseDistinct(bs, i);
    FuseEnds(bs, i);
    Around(l.headers, bs, i + 1);
  }

  lemma MarkHolds(l: List, bs: seq<Block>, i: nat, free: bool)
    requires Holds(l, bs) && i < |bs|
    ensures bs[i].addr in l.headers && l.headers[bs[i].addr] == HeaderOf(bs, i)
    ensures Holds(l.(headers := l.headers[bs[i].addr := l.headers[bs[i].addr].(free := free)]),
                  bs[i := bs[i].(free := free)])
  {
    hide Linked, Distinct;
    MarkLinked(l.headers, bs, i, free);
    MarkDistinct(bs, i, free);
  }

  lemma AppendHolds(l: List, bs: seq<Block>, b: Block)
    requires Holds(l, bs) && Distinct(bs + [b])
    ensures l.tail.Some? ==> l.tail.value in l.headers
    ensures Holds(AppendList(l, b), bs + [b])
  {
    if bs != [] {
      Around(l.headers, bs, |bs| - 1);
    }
    AppendLinked(l.headers, bs, b);
    hide Linked, Distinct;
  }

  /** ptr is the payload of a block of the list. */
  ghost predicate IsBlock(bs: seq<Block>, ptr: nat) {
    exists b :: b in bs && b.addr + HEADER == ptr
  }

  class KernelHeap {
    const base: nat
    var headers: map<nat, Header>
    var head: Option<nat>
    var tail: Option<nat>
    var committed: nat
    var used: nat
    ghost var blocks: seq<Block>

    ghost function Memory(): List
      reads this
    {
      List(headers, head, tail)
    }

    ghost function Value(): HeapModel.Heap
      reads this
    {
      HeapModel.Heap(blocks, committed)
    }

    ghost predicate Valid()
      reads this
    {
      Holds(Memory(), blocks) && Sound(Value(), base) && used == LiveSize(blocks)
    }

    constructor (base: nat)
      requires base % ALIGNMENT == 0
      ensures Valid() && blocks == [] && committed == 0 && this.base == base
    {
      this.base := base;
      headers, head, tail, committed, used, blocks := map[], None, None, 0, 0, [];
    }

    method Split(block: nat, size: nat, ghost i: nat)
      requires Holds(Memory(), blocks) && i < |blocks| && block == blocks[i].addr && size <= blocks[i].size
      requires Distinct(SplitAt(blocks, i, size))
      modifies this`headers, this`tail, this`blocks
      ensures Holds(Memory(), blocks) && blocks == SplitAt(old(blocks), i, size)
    {
      hide Holds, Distinct;
      HeaderAt(Memory(), blocks, i);
      var remaining := headers[block].size - size;
      if remaining < HEADER + ALIGNMENT {
        return;
      }
      SplitHolds(Memory(), blocks, i, size);
      blocks := SplitAt(blocks, i, size);
      hide SplitAt, HeaderOf;
      var next := block + HEADER + size;
      var after := headers[block].next;
      headers := headers[next := Header(remaining - HEADER, true, after, Some(block))];
      if after.Some? {
        headers := headers[after.value := headers[after.value].(prev := Some(next))];
      } else {
        tail := Some(next);
      }
      headers := headers[block := headers[block].(next := Some(next), size := size)];
    }

    /** The block behind `block` becomes part of it. */
    method Absorb(block: nat, victim: nat, ghost i: nat)
      requires Holds(Memory(), blocks) && i + 1 < |blocks| && block == blocks[i].addr && victim == blocks[i + 1].addr
      modifies this`headers, this`tail, this`blocks
      ensures Holds(Memory(), blocks) && blocks == Fuse(old(blocks), i)
      ensures FreeMarksKept(old(headers), headers)
    {
      hide Holds, Fuse;
      FuseHolds(Memory(), blocks, i);
      blocks := Fuse(blocks, i);
      var after := headers[victim].next;
      headers := headers[block := headers[block].(size := headers[block].size + HEADER + headers[victim].size,
                                                  next := after)];
      if after.Some? {
        headers := headers[after.value := headers[after.value].(prev := Some(block))];
      } else {
        tail := Some(block);
      }
    }

    method MergeBlock(block: nat, ghost i: nat)
      requires Holds(Memory(), blocks) && i < |blocks| && block == blocks[i].addr
      modifies this`headers, this`tail, this`blocks
      ensures Holds(Memory(), blocks) && blocks == Merge(old(blocks), i)
      ensures FreeMarksKept(old(headers), headers)
    {
      hide Holds, Fuse;
      HeaderAt(Memory(), blocks, i);
      if i + 1 < |blocks| {
        HeaderAt(Memory(), blocks, i + 1);
        FuseNth(blocks, i, i);
      }
      if headers[block].next.Some? && headers[headers[block].next.value].free {
        Absorb(block, headers[block].next.value, i);
      }
      HeaderAt(Memory(), blocks, i);
      if i > 0 {
        HeaderAt(Memory(), blocks, i - 1);
      }
      if headers[block].prev.Some? && headers[headers[block].prev.value].free {
        Absorb(headers[block].prev.value, block, i - 1);
      }
    }

    /** `frames`: how many pages alloc_page and map will provide. */
    method Grow(wanted: nat, frames: nat) returns (ok: bool)
      requires Valid()
      modifies this`headers, this`head, this`tail, this`blocks, this`committed
      ensures Valid() && ok == CanGrow(old(Value()), wanted, frames)
      ensures Value() == if ok then Grown(old(Value()), base, wanted) else old(Value())
    {
      hide Holds, Sound, LiveSize, Grown;
      var step := GROWTH;
      while step < wanted + HEADER
        invariant step % GROWTH == 0 && step >= GROWTH && (step == GROWTH || step - GROWTH < wanted + HEADER)
        invariant StepFrom(step, wanted) == Step(wanted)
        decreases wanted + HEADER - step
      {
        step := step + GROWTH;
      }
      if committed + step > RESERVED {
        return false;
      }
      var offset, page := 0, 0;
      while offset < step
        invariant offset == page * PAGE && page <= frames && offset < step + PAGE
        decreases step - offset
      {
        if page == frames {
          return false;
        }
        offset, page := offset + PAGE, page + 1;
      }
      WholePages(step, page);
      AddBlock(step, wanted);
      ok := true;
    }

    method AddBlock(step: nat, ghost wanted: nat)
      requires Valid() && step == Step(wanted) && committed + step <= RESERVED
      modifies this`headers, this`head, this`tail, this`blocks, this`committed
      ensures Valid() && Value() == Grown(old(Value()), base, wanted)
    {
      hide Sound, LiveSize, Step, Holds, Distinct, Merge;
      GrownSound(Value(), base, wanted);
      var where := base + committed;
      ghost var b, i := Block(where, step - HEADER, true), |blocks|;
      ExtendedDistinct(Value(), base, wanted, b);
      AppendHolds(Memory(), blocks, b);
      headers := headers[where := Header(step - HEADER, true, None, tail)];
      if tail.Some? {
        headers := headers[tail.value := headers[tail.value].(next := Some(where))];
      }
      tail := Some(where);
      if head.None? {
        head := Some(where);
      }
      committed := committed + step;
      blocks := blocks + [b];
      MergeBlock(where, i);
    }

    /** The search loop of kmalloc. */
    method Find(wanted: nat) returns (found: Option<nat>)
      requires Holds(Memory(), blocks)
      ensures var i := FirstFit(blocks, wanted); found == if i < |blocks| then Some(blocks[i].addr) else None
    {
      found := head;
      ghost var k := 0;
      hide Linked, Distinct;
      while found.Some?
        invariant k <= |blocks| && found == (if k < |blocks| then Some(blocks[k].addr) else None)
        invariant forall j :: 0 <= j < k ==> !(blocks[j].free && blocks[j].size >= wanted)
        decreases |blocks| - k
      {
        HeaderAt(Memory(), blocks, k);
        if headers[found.value].free && headers[found.value].size >= wanted {
          return;
        }
        found := headers[found.value].next;
        k := k + 1;
      }
    }

    method TakeBlock(block: nat, wanted: nat) returns (ptr: Option<nat>)
      requires Valid() && 0 < wanted && wanted % ALIGNMENT == 0
      requires FirstFit(blocks, wanted) < |blocks| && block == blocks[FirstFit(blocks, wanted)].addr
      modifies this`headers, this`tail, this`blocks, this`used
      ensures Valid() && (Value(), ptr) == TakeFit(old(Value()), wanted)
    {
      hide Holds, Sound, LiveSize, SplitAt, FirstFit, Distinct, Gave;
      ghost var i := FirstFit(blocks, wanted);
      TakeFitSound(Value(), base, wanted);
      SplitDistinct(Value(), base, i, wanted);
      TakeUsed(Value(), base, i, wanted);
      Split(block, wanted, i);
      MarkHolds(Memory(), blocks, i, false);
      headers := headers[block := headers[block].(free := false)];
      blocks := blocks[i := blocks[i].(free := false)];
      used := used + headers[block].size;
      ptr := Some(block + HEADER);
    }

    method Kmalloc(size: nat, frames: nat) returns (ptr: Option<nat>)
      requires Valid()
      modifies this
      ensures Valid() && (Value(), ptr) == Malloc(old(Value()), base, size, frames)
    {
      hide Holds, Sound, FirstFit, Grown, Step, LiveSize, TakeFit, AlignUp, Live;
      if size == 0 || size > RESERVED {
        return None;
      }
      var wanted := AlignUp(size);
      var attempt := 0;
      while attempt < 2
        invariant 0 <= attempt <= 1 && Valid()
        invariant Value() == if attempt == 0 then old(Value()) else Grown(old(Value()), base, wanted)
        invariant attempt == 1 ==>
                  FirstFit(old(blocks), wanted) == |old(blocks)| && CanGrow(old(Value()), wanted, frames)
        invariant attempt == 1 ==> FirstFit(blocks, wanted) < |blocks|
        decreases 2 - attempt
      {
        var found := Find(wanted);
        if found.Some? {
          ptr := TakeBlock(found.value, wanted);
          return;
        }
        var ok := Grow(wanted, frames);
        if !ok {
          return None;
        }
        GrownSound(old(Value()), base, wanted);
        attempt := attempt + 1;
      }
      assert false;
    }

    method ReleaseBlock(block: nat, ghost i: nat)
      requires Valid() && i < |blocks| && block == blocks[i].addr && !blocks[i].free
      modifies this`headers, this`tail, this`blocks, this`used
      ensures Valid() && blocks == Release(old(blocks), i)
      ensures block in headers && headers[block].free
    {
      hide Holds, Sound, LiveSize, Merge;
      ReleaseSound(Value(), base, i);
      MarkHolds(Memory(), blocks, i, true);
      headers := headers[block := headers[block].(free := true)];
      used := used - headers[block].size;
      blocks := blocks[i := blocks[i].(free := true)];
      MergeBlock(block, i);
    }

    /** kfree of null, of a block, or of one that was merged away and whose
        header is still what the merge left. */
    method Kfree(ptr: nat)
      requires Valid() && (ptr == 0 || IsBlock(blocks, ptr) || StaleHeader(headers, ptr))
      modifies this
      ensures Valid() && Value() == Free(old(Value()), ptr)
      ensures ptr != 0 ==> StaleHeader(headers, ptr)
    {
      hide Holds, Sound, LiveSize, IndexOf, Release, IsBlock;
      if ptr == 0 {
        return;
      }
      if IsBlock(blocks, ptr) {
        BlockAt(blocks, ptr);
        HeaderAt(Memory(), blocks, IndexOf(blocks, ptr - HEADER));
      }
      var block := ptr - HEADER;
      if headers[block].free {
        NotLive(Memory(), blocks, block);
        return;
      }
      ReleaseBlock(block, IndexOf(blocks, block));
    }

    /** A second kfree of the same pointer does nothing, whether the block is
        still there or was merged into the one before. */
    method FreeTwice(ptr: nat)
      requires Valid() && IsBlock(blocks, ptr)
      modifies this
      ensures Valid() && Value() == Free(old(Value()), ptr)
    {
      hide Holds, Sound, LiveSize, IsBlock, StaleHeader, Free;
      BlockAt(blocks, ptr);
      Kfree(ptr);
      NothingToFree(headers, Memory(), blocks, committed, ptr);
      Kfree(ptr);
    }
  }

  /** There is a header in front of the pointer that says the block is free. */
  ghost predicate StaleHeader(hs: map<nat, Header>, ptr: nat) {
    ptr >= HEADER && ptr - HEADER in hs && hs[ptr - HEADER].free
  }

  /** No header was lost, and none changed whether its block is free. */
  ghost predicate FreeMarksKept(hs: map<nat, Header>, hs': map<nat, Header>) {
    forall a :: a in hs ==> a in hs' && hs'[a].free == hs[a].free
  }

  /** A header that says free is not that of a live block. */
  lemma NotLive(l: List, bs: seq<Block>, a: nat)
    requires Holds(l, bs) && a in l.headers && l.headers[a].free
    ensures var i := IndexOf(bs, a); i < |bs| ==> bs[i].free
  {
  }

  lemma NothingToFree(hs: map<nat, Header>, l: List, bs: seq<Block>, committed: nat, ptr: nat)
    requires Holds(l, bs) && l.headers == hs && StaleHeader(hs, ptr)
    ensures Free(HeapModel.Heap(bs, committed), ptr) == HeapModel.Heap(bs, committed)
  {
    NotLive(l, bs, ptr - HEADER);
  }

  lemma ReleaseSound(h: HeapModel.Heap, base: nat, i: nat)
    requires Sound(h, base) && i < |h.blocks| && !h.blocks[i].free
    ensures Sound(h.(blocks := Release(h.blocks, i)), base)
    ensures h.blocks[i].size <= LiveSize(h.blocks) && LiveSize(Release(h.blocks, i)) ==
            LiveSize(h.blocks) - h.blocks[i].size
  {
    hide Good, LiveSize, Live;
    ReleaseGood(h.blocks, base, base + h.committed, i);
    ReleaseSomething(h.blocks, i);
    hide Release;
  }

  lemma BlockAt(bs: seq<Block>, ptr: nat)
    requires IsBlock(bs, ptr)
    ensures ptr >= HEADER
    ensures var i := IndexOf(bs, ptr - HEADER);
            i < |bs|
  {
  }

  lemma ExtendedDistinct(h: HeapModel.Heap, base: nat, wanted: nat, b: Block)
    requires Sound(h, base) && b == Block(base + h.committed, Step(wanted) - HEADER, true)
    ensures Distinct(h.blocks + [b])
  {
    hide Step;
    AppendedDistinct(h.blocks, base, base + h.committed, b);
  }

  lemma AppendedDistinct(bs: seq<Block>, base: nat, end: nat, b: Block)
    requires Tiles(bs, base, end) && b.addr == end
    ensures Distinct(bs + [b])
  {
    TilesDistinct(bs + [b], base, End(b));
  }

  lemma SplitDistinct(h: HeapModel.Heap, base: nat, i: nat, wanted: nat)
    requires Sound(h, base) && i < |h.blocks| && wanted <= h.blocks[i].size
    ensures Distinct(SplitAt(h.blocks, i, wanted))
  {
    if h.blocks[i].size - wanted >= HEADER + ALIGNMENT {
      SplitTiles(h.blocks, base, base + h.committed, i, wanted);
    }
    TilesDistinct(SplitAt(h.blocks, i, wanted), base, base + h.committed);
  }

  lemma TakeUsed(h: HeapModel.Heap, base: nat, i: nat, wanted: nat)
    requires Sound(h, base) && i < |h.blocks| && h.blocks[i].free && 0 < wanted <= h.blocks[i].size
             && wanted % ALIGNMENT == 0
    ensures i < |SplitAt(h.blocks, i, wanted)|
    ensures LiveSize(Take(h.blocks, i, wanted)) == LiveSize(h.blocks) + SplitAt(h.blocks, i, wanted)[i].size
    ensures SplitAt(h.blocks, i, wanted)[i].addr == h.blocks[i].addr
  {
    TakeGood(h.blocks, base, base + h.committed, i, wanted);
  }

  lemma WholePages(step: nat, page: nat)
    requires step % GROWTH == 0 && page * PAGE >= step && page * PAGE < step + PAGE
    ensures page * PAGE == step
  {
    StepInPages(step, step / GROWTH);
    OnePage(512 * (step / GROWTH), page, step);
  }

  lemma StepInPages(step: nat, k: nat)
    requires step % GROWTH == 0 && k == step / GROWTH
    ensures step == PAGE * (512 * k)
  {
  }

  lemma OnePage(q: nat, page: nat, step: nat)
    requires step == PAGE * q && PAGE * q <= page * PAGE < PAGE * q + PAGE
    ensures page * PAGE == step
  {
  }
}
