/**
 The block list of kernel/mm/heap.cpp as a sequence, and what its operations
 keep: the list tiles the committed range, is coalesced, and is determined by
 the live blocks alone.
 */
module HeapModel {
  import opened Basics

  const HEADER := 32
  const ALIGNMENT := 16
  const RESERVED := 0x400_0000
  const GROWTH := 0x20_0000
  const PAGE := 4096

  datatype Block = Block(addr: nat, size: nat, free: bool)

  function End(b: Block): nat {
    b.addr + HEADER + b.size
  }

  // ------------------------------------------------------------ operations

  function AlignUp(n: nat): (r: nat)
    ensures r % ALIGNMENT == 0 && n <= r < n + ALIGNMENT
  {
    (n + ALIGNMENT - 1) / ALIGNMENT * ALIGNMENT
  }

  /** split: give away the tail of block i unless it is too small. */
  function SplitAt(bs: seq<Block>, i: nat, size: nat): seq<Block>
    requires i < |bs| && size <= bs[i].size
  {
    var b := bs[i];
    if b.size - size < HEADER + ALIGNMENT then bs
    else bs[..i] + [b.(size := size), Block(b.addr + HEADER + size, b.size - size - HEADER, true)] + bs[i + 1..]
  }

  /** Blocks i and i + 1 made one. */
  function Fuse(bs: seq<Block>, i: nat): seq<Block>
    requires i + 1 < |bs|
  {
    bs[..i] + [bs[i].(size := bs[i].size + HEADER + bs[i + 1].size)] + bs[i + 2..]
  }

  function MergeNext(bs: seq<Block>, i: nat): seq<Block>
    requires i < |bs|
  {
    if i + 1 < |bs| && bs[i + 1].free then Fuse(bs, i) else bs
  }

  function MergePrev(bs: seq<Block>, i: nat): seq<Block>
    requires i < |bs|
  {
    if i > 0 && bs[i - 1].free then Fuse(bs, i - 1) else bs
  }

  /** merge. */
  function Merge(bs: seq<Block>, i: nat): seq<Block>
    requires i < |bs|
  {
    MergePrev(MergeNext(bs, i), i)
  }

  /** The first block that is free and large enough. */
  function FirstFit(bs: seq<Block>, wanted: nat): (i: nat)
    ensures i <= |bs|
    ensures i < |bs| ==> bs[i].free && bs[i].size >= wanted
    ensures forall k :: 0 <= k < i ==> !(bs[k].free && bs[k].size >= wanted)
  {
    if bs == [] then 0
    else if bs[0].free && bs[0].size >= wanted then 0
    else 1 + FirstFit(bs[1..], wanted)
  }

  /** What kmalloc does to the block it found. */
  function Take(bs: seq<Block>, i: nat, wanted: nat): seq<Block>
    requires i < |bs| && wanted <= bs[i].size
  {
    var cut := SplitAt(bs, i, wanted);
    cut[i := cut[i].(free := false)]
  }

  /** What kfree does to a block in use. */
  function Release(bs: seq<Block>, i: nat): seq<Block>
    requires i < |bs|
  {
    Merge(bs[i := bs[i].(free := true)], i)
  }

  /** The growth step for a request. */
  function Step(wanted: nat): (step: nat)
    ensures step % GROWTH == 0 && step >= GROWTH && step >= wanted + HEADER
    ensures step == GROWTH || step - GROWTH < wanted + HEADER
  {
    StepFrom(GROWTH, wanted)
  }

  function StepFrom(step: nat, wanted: nat): (r: nat)
    requires step % GROWTH == 0 && step >= GROWTH && (step == GROWTH || step - GROWTH < wanted + HEADER)
    ensures r % GROWTH == 0 && r >= GROWTH && r >= wanted + HEADER
    ensures r == GROWTH || r - GROWTH < wanted + HEADER
    decreases wanted + HEADER - step
  {
    if step < wanted + HEADER then StepFrom(step + GROWTH, wanted) else step
  }

  /** grow, once its pages are mapped. */
  function Extend(bs: seq<Block>, where: nat, step: nat): seq<Block>
    requires step >= HEADER
  {
    Merge(bs + [Block(where, step - HEADER, true)], |bs|)
  }

  // ------------------------------------------------------------- invariant

  ghost predicate Tiles(bs: seq<Block>, base: nat, end: nat) {
    && (bs == [] ==> base == end)
    && (bs != [] ==> bs[0].addr == base && End(bs[|bs| - 1]) == end)
    && (forall i :: 0 <= i < |bs| - 1 ==> bs[i + 1].addr == End(bs[i]))
  }

  predicate Sized(b: Block) {
    b.size > 0 && b.size % ALIGNMENT == 0 && b.addr % ALIGNMENT == 0
  }

  ghost predicate AllSized(bs: seq<Block>) {
    forall i :: 0 <= i < |bs| ==> Sized(bs[i])
  }

  ghost predicate Coalesced(bs: seq<Block>) {
    forall i :: 0 <= i < |bs| - 1 ==> !(bs[i].free && bs[i + 1].free)
  }

  /** Coalesced but for the neighbours of block k. */
  ghost predicate CoalescedAround(bs: seq<Block>, k: int) {
    forall i :: 0 <= i < |bs| - 1 && i != k && i + 1 != k ==> !(bs[i].free && bs[i + 1].free)
  }

  ghost predicate Good(bs: seq<Block>, base: nat, end: nat) {
    Tiles(bs, base, end) && AllSized(bs) && Coalesced(bs)
  }

  ghost function Live(bs: seq<Block>): set<Block> {
    set b | b in bs && !b.free
  }

  /** The bytes in use. */
  function LiveSize(bs: seq<Block>): nat {
    if bs == [] then 0 else LiveSize(bs[1..]) + if bs[0].free then 0 else bs[0].size
  }

  lemma {:induction false} LiveSizeAppend(a: seq<Block>, b: seq<Block>)
    ensures LiveSize(a + b) == LiveSize(a) + LiveSize(b)
  {
    if a == [] {
      assert a + b == b;
    } else {
      LiveSizeAppend(a[1..], b);
      assert (a + b)[1..] == a[1..] + b;
    }
  }

  /** Replacing the stretch `m` of a list by `m'`. */
  lemma LiveSizeReplace(a: seq<Block>, m: seq<Block>, m': seq<Block>, b: seq<Block>)
    ensures LiveSize(a + m' + b) == LiveSize(a + m + b) - LiveSize(m) + LiveSize(m')
  {
    LiveSizeAppend(a + m, b);
    LiveSizeAppend(a, m);
    LiveSizeAppend(a + m', b);
    LiveSizeAppend(a, m');
  }

  lemma LiveSizeUpdate(bs: seq<Block>, i: nat, b: Block)
    requires i < |bs|
    ensures LiveSize(bs[i := b])
            == LiveSize(bs) - (if bs[i].free then 0 else bs[i].size) + (if b.free then 0 else b.size)
  {
    LiveSizeReplace(bs[..i], [bs[i]], [b], bs[i + 1..]);
    assert bs[..i] + [bs[i]] + bs[i + 1..] == bs;
    assert bs[..i] + [b] + bs[i + 1..] == bs[i := b];
  }

  // ------------------------------------------------- order of the addresses

  lemma {:induction false} Increasing(bs: seq<Block>, base: nat, end: nat, i: nat, j: nat)
    requires Tiles(bs, base, end) && i <= j < |bs|
    ensures i < j ==> End(bs[i]) <= bs[j].addr
    ensures base <= bs[i].addr && End(bs[j]) <= end
    decreases j - i, j
  {
    if i < j {
      Increasing(bs, base, end, i, j - 1);
      LastEnds(bs, base, end, j);
    } else {
      if i > 0 {
        Increasing(bs, base, end, i - 1, i - 1);
      }
      LastEnds(bs, base, end, j);
    }
  }

  lemma {:induction false} LastEnds(bs: seq<Block>, base: nat, end: nat, j: nat)
    requires Tiles(bs, base, end) && j < |bs|
    ensures End(bs[j]) <= end
    decreases |bs| - j
  {
    if j + 1 < |bs| {
      LastEnds(bs, base, end, j + 1);
    }
  }

  lemma OneBlockPerAddress(bs: seq<Block>, base: nat, end: nat, i: nat, j: nat)
    requires Tiles(bs, base, end) && i < |bs| && j < |bs| && bs[i].addr == bs[j].addr
    ensures i == j
  {
    if i < j {
      Increasing(bs, base, end, i, j);
    } else if j < i {
      Increasing(bs, base, end, j, i);
    }
  }

  // ------------------------------------------------------ each operation

  /** Everything a heap operation must keep when the stretch between two
      blocks is cut differently. */
  ghost predicate Recut(bs: seq<Block>, cs: seq<Block>, base: nat, end: nat) {
    Tiles(cs, base, end) && AllSized(cs) && LiveSize(cs) == LiveSize(bs) && Live(cs) == Live(bs)
  }

  lemma FuseShape(bs: seq<Block>, i: nat)
    requires i + 1 < |bs|
    ensures |Fuse(bs, i)| == |bs| - 1
    ensures forall k :: 0 <= k < |bs| - 1 ==>
              Fuse(bs, i)[k] == if k < i then bs[k] else if k == i
                then bs[i].(size := bs[i].size + HEADER + bs[i + 1].size) else bs[k + 1]
  {
  }

  lemma FuseTiles(bs: seq<Block>, base: nat, end: nat, i: nat)
    requires Tiles(bs, base, end) && AllSized(bs) && i + 1 < |bs|
    ensures Tiles(Fuse(bs, i), base, end) && AllSized(Fuse(bs, i))
  {
    FuseShape(bs, i);
    hide Fuse;
  }

  lemma FuseLive(bs: seq<Block>, i: nat)
    requires i + 1 < |bs| && bs[i].free && bs[i + 1].free
    ensures LiveSize(Fuse(bs, i)) == LiveSize(bs) && Live(Fuse(bs, i)) == Live(bs)
  {
    var f := bs[i].(size := bs[i].size + HEADER + bs[i + 1].size);
    assert bs == bs[..i] + [bs[i], bs[i + 1]] + bs[i + 2..];
    LiveSizeReplace(bs[..i], [bs[i], bs[i + 1]], [f], bs[i + 2..]);
    assert LiveSize([bs[i], bs[i + 1]]) == 0;
    FuseShape(bs, i);
    forall b | b in bs && !b.free
      ensures b in Fuse(bs, i)
    {
      var k :| 0 <= k < |bs| && bs[k] == b;
      assert b == Fuse(bs, i)[if k < i then k else k - 1];
    }
  }

  lemma FuseRecuts(bs: seq<Block>, base: nat, end: nat, i: nat)
    requires Tiles(bs, base, end) && AllSized(bs) && i + 1 < |bs| && bs[i].free && bs[i + 1].free
    ensures Recut(bs, Fuse(bs, i), base, end)
  {
    FuseTiles(bs, base, end, i);
    FuseLive(bs, i);
  }

  lemma MergeNextGood(bs: seq<Block>, base: nat, end: nat, i: nat)
    requires Tiles(bs, base, end) && AllSized(bs) && i < |bs| && bs[i].free && CoalescedAround(bs, i)
    ensures var cs := MergeNext(bs, i);
            Recut(bs, cs, base, end) && i < |cs| && cs[i].free && CoalescedAround(cs, i)
              && (i + 1 < |cs| ==> !cs[i + 1].free)
  {
    if i + 1 < |bs| && bs[i + 1].free {
      FuseShape(bs, i);
      FuseRecuts(bs, base, end, i);
      hide Fuse, Recut, Tiles, AllSized;
      assert i + 2 < |bs| ==> !(bs[i + 1].free && bs[i + 2].free);
    }
  }

  lemma MergePrevGood(bs: seq<Block>, base: nat, end: nat, i: nat)
    requires Tiles(bs, base, end) && AllSized(bs) && i < |bs| && bs[i].free && CoalescedAround(bs, i)
    requires i + 1 < |bs| ==> !bs[i + 1].free
    ensures Good(MergePrev(bs, i), base, end) && Recut(bs, MergePrev(bs, i), base, end)
  {
    if i > 0 && bs[i - 1].free {
      FuseShape(bs, i - 1);
      FuseRecuts(bs, base, end, i - 1);
      hide Fuse, Tiles, AllSized;
      assert forall k :: 0 <= k < i - 1 ==> !(bs[k].free && bs[k + 1].free);
    }
  }

  /** merge of a free block whose neighbours may be free leaves none so. */
  lemma MergeGood(bs: seq<Block>, base: nat, end: nat, i: nat)
    requires Tiles(bs, base, end) && AllSized(bs) && i < |bs| && bs[i].free && CoalescedAround(bs, i)
    ensures Good(Merge(bs, i), base, end) && Recut(bs, Merge(bs, i), base, end)
  {
    hide Tiles, AllSized, Live, LiveSize, CoalescedAround, MergePrev;
    MergeNextGood(bs, base, end, i);
    MergePrevGood(MergeNext(bs, i), base, end, i);
  }

  /** Marking block i changes the live blocks by that block alone. */
  lemma MarkLive(bs: seq<Block>, base: nat, end: nat, i: nat, b: Block)
    requires Tiles(bs, base, end) && i < |bs| && b.addr == bs[i].addr && b.free != bs[i].free
    ensures Live(bs[i := b]) == if b.free then Live(bs) - {bs[i]} else Live(bs) + {b}
    ensures b !in Live(bs)
  {
    var cs := bs[i := b];
    forall k | 0 <= k < |bs| && k != i
      ensures cs[k] == bs[k] && bs[k] != bs[i] && bs[k] != b
    {
      if bs[k].addr == bs[i].addr { OneBlockPerAddress(bs, base, end, i, k); }
    }
    forall x | x in Live(bs) && x != bs[i]
      ensures x in Live(cs)
    {
      var k :| 0 <= k < |bs| && bs[k] == x;
      assert cs[k] == x;
    }
    forall x | x in Live(cs) && x != b
      ensures x in Live(bs) && x != bs[i]
    {
      var k :| 0 <= k < |cs| && cs[k] == x;
      assert bs[k] == x;
    }
    assert b in cs by { assert cs[i] == b; }
  }

  lemma FreedAround(bs: seq<Block>, base: nat, end: nat, i: nat)
    requires Good(bs, base, end) && i < |bs|
    ensures var cs := bs[i := bs[i].(free := true)];
            Tiles(cs, base, end) && AllSized(cs) && CoalescedAround(cs, i)
  {
  }

  lemma ReleaseGood(bs: seq<Block>, base: nat, end: nat, i: nat)
    requires Good(bs, base, end) && i < |bs| && !bs[i].free
    ensures Good(Release(bs, i), base, end)
    ensures Live(Release(bs, i)) == Live(bs) - {bs[i]} && LiveSize(Release(bs, i)) == LiveSize(bs) - bs[i].size
  {
    var cs := bs[i := bs[i].(free := true)];
    hide LiveSize, Live, Merge;
    FreedAround(bs, base, end, i);
    LiveSizeUpdate(bs, i, cs[i]);
    MarkLive(bs, base, end, i, cs[i]);
    hide Tiles, AllSized, Coalesced, CoalescedAround;
    MergeGood(cs, base, end, i);
  }

  lemma SplitShape(bs: seq<Block>, i: nat, size: nat)
    requires i < |bs| && size + HEADER + ALIGNMENT <= bs[i].size
    ensures var cs, b := SplitAt(bs, i, size), bs[i];
            && |cs| == |bs| + 1
            && forall k :: 0 <= k < |cs| ==>
                 cs[k] == if k < i then bs[k] else if k == i then b.(size := size)
                          else if k == i + 1 then Block(b.addr + HEADER + size, b.size - size - HEADER, true)
                                  else bs[k - 1]
  {
  }

  lemma HalvesSized(b: Block, size: nat)
    requires Sized(b) && 0 < size && size % ALIGNMENT == 0 && size + HEADER + ALIGNMENT <= b.size
    ensures Sized(b.(size := size)) && Sized(Block(b.addr + HEADER + size, b.size - size - HEADER, true))
  {
  }

  lemma SplitTiles(bs: seq<Block>, base: nat, end: nat, i: nat, size: nat)
    requires Tiles(bs, base, end) && i < |bs| && size + HEADER + ALIGNMENT <= bs[i].size
    ensures Tiles(SplitAt(bs, i, size), base, end)
  {
    var cs := SplitAt(bs, i, size);
    SplitShape(bs, i, size);
    hide SplitAt;
    forall k | 0 <= k < |cs| - 1
      ensures cs[k + 1].addr == End(cs[k])
    {
      if k > i {
        assert bs[k - 1 + 1].addr == End(bs[k - 1]);
      }
    }
  }

  lemma SplitSized(bs: seq<Block>, i: nat, size: nat)
    requires AllSized(bs) && i < |bs| && 0 < size && size % ALIGNMENT == 0 && size + HEADER + ALIGNMENT <= bs[i].size
    ensures AllSized(SplitAt(bs, i, size))
  {
    SplitShape(bs, i, size);
    HalvesSized(bs[i], size);
    hide SplitAt, Sized;
  }

  /** Cutting a free block in two keeps the tiling and the live blocks; only
      the two halves may now both be free. */
  lemma SplitRecuts(bs: seq<Block>, base: nat, end: nat, i: nat, size: nat)
    requires Good(bs, base, end) && i < |bs| && bs[i].free && 0 < size && size % ALIGNMENT == 0
    requires size + HEADER + ALIGNMENT <= bs[i].size
    ensures var cs := SplitAt(bs, i, size);
            Recut(bs, cs, base, end) && |cs| == |bs| + 1 && cs[i] == Block(bs[i].addr, size, true)
              && CoalescedAround(cs, i)
  {
    var cs := SplitAt(bs, i, size);
    SplitTiles(bs, base, end, i, size);
    SplitSized(bs, i, size);
    SplitShape(bs, i, size);
    hide SplitAt, Tiles, AllSized;
    FuseShape(cs, i);
    assert Fuse(cs, i) == bs;
    FuseLive(cs, i);
  }

  /** What kmalloc gives: the block at i, in use, at least as large as asked
      and less than a header and a line larger. */
  lemma TakeGood(bs: seq<Block>, base: nat, end: nat, i: nat, wanted: nat)
    requires Good(bs, base, end) && i < |bs| && bs[i].free && 0 < wanted <= bs[i].size && wanted % ALIGNMENT == 0
    ensures var cs := Take(bs, i, wanted);
            && Good(cs, base, end) && i < |cs| && cs[i].addr == bs[i].addr && !cs[i].free
            && wanted <= cs[i].size < wanted + HEADER + ALIGNMENT
            && Live(cs) == Live(bs) + {cs[i]} && cs[i] !in Live(bs)
            && LiveSize(cs) == LiveSize(bs) + cs[i].size
  {
    var cut := SplitAt(bs, i, wanted);
    if bs[i].size - wanted >= HEADER + ALIGNMENT {
      SplitRecuts(bs, base, end, i, wanted);
    }
    hide SplitAt, Live, LiveSize;
    LiveSizeUpdate(cut, i, cut[i].(free := false));
    MarkLive(cut, base, end, i, cut[i].(free := false));
  }

  lemma AppendedAround(bs: seq<Block>, base: nat, end: nat, last: Block)
    requires Good(bs, base, end) && last.addr == end && Sized(last)
    ensures var ds := bs + [last];
            Tiles(ds, base, End(last)) && AllSized(ds) && CoalescedAround(ds, |bs|)
  {
  }

  /** A block appended after the last one: the heap grows and the request fits. */
  lemma ExtendGood(bs: seq<Block>, base: nat, end: nat, step: nat, wanted: nat)
    requires Good(bs, base, end) && end % ALIGNMENT == 0 && step % ALIGNMENT == 0 && step >= HEADER + ALIGNMENT
             && step >= wanted + HEADER
    ensures var cs := Extend(bs, end, step);
            && Good(cs, base, end + step) && Live(cs) == Live(bs) && LiveSize(cs) == LiveSize(bs)
            && cs != [] && cs[|cs| - 1].free && cs[|cs| - 1].size >= wanted
            && FirstFit(cs, wanted) < |cs|
  {
    var last := Block(end, step - HEADER, true);
    var ds := bs + [last];
    LiveSizeAppend(bs, [last]);
    assert Live(ds) == Live(bs);
    AppendedAround(bs, base, end, last);
    hide Tiles, AllSized, Coalesced, CoalescedAround, Live, LiveSize;
    MergeGood(ds, base, end + step, |bs|);
    var cs := Merge(ds, |bs|);
    if |bs| > 0 && bs[|bs| - 1].free {
      FuseShape(ds, |bs| - 1);
    }
    assert cs[|cs| - 1].free && cs[|cs| - 1].size >= wanted;
  }

  // --------------------------------------------------------- canonical form

  /** The lists agree block by block as long as their live blocks do. */
  lemma {:induction false} SamePrefix(bs: seq<Block>, cs: seq<Block>, base: nat, end: nat, k: nat)
    requires Good(bs, base, end) && Good(cs, base, end) && Live(bs) == Live(cs) && k <= |bs|
    ensures k <= |cs| && bs[..k] == cs[..k]
  {
    if k > 0 {
      SamePrefix(bs, cs, base, end, k - 1);
      SameStart(bs, cs, base, end, k - 1);
      if !bs[k - 1].free {
        LiveAt(cs, bs, base, end, k - 1);
      } else if !cs[k - 1].free {
        LiveAt(bs, cs, base, end, k - 1);
      } else {
        SameFree(bs, cs, base, end, k - 1);
      }
    }
  }

  /** After the same blocks, the next one starts at the same address. */
  lemma SameStart(bs: seq<Block>, cs: seq<Block>, base: nat, end: nat, k: nat)
    requires Good(bs, base, end) && Good(cs, base, end) && k < |bs| && k <= |cs| && bs[..k] == cs[..k]
    ensures k < |cs| && bs[k].addr == cs[k].addr
  {
    if k > 0 {
      assert bs[k - 1] == bs[..k][k - 1] == cs[..k][k - 1] == cs[k - 1];
      Increasing(bs, base, end, k, k);
    } else {
      Increasing(bs, base, end, 0, 0);
    }
  }

  /** A block of `cs` in use at the start of bs[k] is bs[k] itself. */
  lemma LiveAt(bs: seq<Block>, cs: seq<Block>, base: nat, end: nat, k: nat)
    requires Good(bs, base, end) && Good(cs, base, end) && Live(bs) == Live(cs)
    requires k < |bs| && k < |cs| && bs[k].addr == cs[k].addr && !cs[k].free
    ensures bs[k] == cs[k]
  {
    assert cs[k] in Live(bs);
    var j :| 0 <= j < |bs| && bs[j] == cs[k];
    OneBlockPerAddress(bs, base, end, j, k);
  }

  /** Two free blocks that start together end together: each ends at the next
      block in use, or at the end of the heap. */
  lemma SameFree(bs: seq<Block>, cs: seq<Block>, base: nat, end: nat, k: nat)
    requires Good(bs, base, end) && Good(cs, base, end) && Live(bs) == Live(cs)
    requires k < |bs| && k < |cs| && bs[k].addr == cs[k].addr && bs[k].free && cs[k].free
    ensures bs[k] == cs[k]
  {
    NotLonger(bs, cs, base, end, k);
    NotLonger(cs, bs, base, end, k);
  }

  lemma NotLonger(bs: seq<Block>, cs: seq<Block>, base: nat, end: nat, k: nat)
    requires Good(bs, base, end) && Good(cs, base, end) && Live(bs) == Live(cs)
    requires k < |bs| && k < |cs| && bs[k].addr == cs[k].addr && bs[k].free && cs[k].free
    ensures End(bs[k]) <= End(cs[k])
  {
    if k + 1 < |cs| {
      assert !cs[k + 1].free && cs[k + 1] in Live(bs);
      var j :| 0 <= j < |bs| && bs[j] == cs[k + 1];
      if j < k {
        Increasing(bs, base, end, j, k);
      } else if j > k {
        Increasing(bs, base, end, k, j);
      }
    } else {
      Increasing(bs, base, end, k, k);
    }
  }

  /** The whole list is determined by the blocks in use. */
  lemma Canonical(bs: seq<Block>, cs: seq<Block>, base: nat, end: nat)
    requires Good(bs, base, end) && Good(cs, base, end) && Live(bs) == Live(cs)
    ensures bs == cs
  {
    SamePrefix(bs, cs, base, end, |bs|);
    SamePrefix(cs, bs, base, end, |cs|);
    assert bs[..|bs|] == bs && cs[..|cs|] == cs;
  }

  lemma SomeLive(bs: seq<Block>)
    requires Coalesced(bs)
    ensures |bs| > 1 ==> Live(bs) != {}
    ensures bs != [] && !bs[0].free ==> Live(bs) != {}
  {
    assert bs != [] && !bs[0].free ==> bs[0] in Live(bs);
    if |bs| > 1 {
      assert !(bs[0].free && bs[0 + 1].free);
      assert (if bs[0].free then bs[1] else bs[0]) in Live(bs);
    }
  }

  /** With nothing in use the heap is one free block. */
  lemma EmptyIsOneBlock(bs: seq<Block>, base: nat, end: nat)
    requires Good(bs, base, end) && Live(bs) == {} && bs != []
    ensures |bs| == 1 && bs[0].free && bs[0].addr == base && bs[0].size == end - base - HEADER
  {
    SomeLive(bs);
  }

  // ----------------------------------------------- kmalloc and kfree, as values

  datatype Heap = Heap(blocks: seq<Block>, committed: nat)

  /** `frames`: how many pages alloc_page and map can still provide. */
  predicate CanGrow(h: Heap, wanted: nat, frames: nat) {
    h.committed + Step(wanted) <= RESERVED && frames * PAGE >= Step(wanted)
  }

  function Grown(h: Heap, base: nat, wanted: nat): Heap {
    Heap(Extend(h.blocks, base + h.committed, Step(wanted)), h.committed + Step(wanted))
  }

  function TakeFit(h: Heap, wanted: nat): (Heap, Option<nat>) {
    var i := FirstFit(h.blocks, wanted);
    if i < |h.blocks| then (h.(blocks := Take(h.blocks, i, wanted)), Some(h.blocks[i].addr + HEADER)) else (h, None)
  }

  /** kmalloc: first fit, and once more after growing. */
  function Malloc(h: Heap, base: nat, size: nat, frames: nat): (Heap, Option<nat>) {
    var wanted := AlignUp(size);
    if size == 0 || size > RESERVED then (h, None)
    else if FirstFit(h.blocks, wanted) < |h.blocks| then TakeFit(h, wanted)
    else if !CanGrow(h, wanted, frames) then (h, None)
    else TakeFit(Grown(h, base, wanted), wanted)
  }

  function IndexOf(bs: seq<Block>, addr: nat): (i: nat)
    ensures i <= |bs| && (i < |bs| ==> bs[i].addr == addr)
    ensures forall k :: 0 <= k < i ==> bs[k].addr != addr
  {
    if bs == [] then 0 else if bs[0].addr == addr then 0 else 1 + IndexOf(bs[1..], addr)
  }

  /** kfree: nothing for null or a block that is free already. */
  function Free(h: Heap, ptr: nat): Heap {
    if ptr < HEADER then h
    else
      var i := IndexOf(h.blocks, ptr - HEADER);
      if i < |h.blocks| && !h.blocks[i].free then h.(blocks := Release(h.blocks, i)) else h
  }

  ghost predicate Sound(h: Heap, base: nat) {
    && Good(h.blocks, base, base + h.committed) && base % ALIGNMENT == 0
    && h.committed % GROWTH == 0 && h.committed <= RESERVED && (h.committed > 0 ==> h.blocks != [])
  }

  lemma GrownSound(h: Heap, base: nat, wanted: nat)
    requires Sound(h, base) && h.committed + Step(wanted) <= RESERVED
    ensures Sound(Grown(h, base, wanted), base) && Live(Grown(h, base, wanted).blocks) == Live(h.blocks)
    ensures FirstFit(Grown(h, base, wanted).blocks, wanted) < |Grown(h, base, wanted).blocks|
    ensures LiveSize(Grown(h, base, wanted).blocks) == LiveSize(h.blocks)
  {
    var step := Step(wanted);
    hide Good, Live, FirstFit, Extend, Step;
    WholeSteps(base, h.committed, step);
    ExtendGood(h.blocks, base, base + h.committed, step, wanted);
    assert base + h.committed + step == base + (h.committed + step);
  }

  lemma WholeSteps(base: nat, committed: nat, step: nat)
    requires base % ALIGNMENT == 0 && committed % GROWTH == 0 && step % GROWTH == 0
    ensures (committed + step) % GROWTH == 0 && step % ALIGNMENT == 0 && (base + committed) % ALIGNMENT == 0
  {
    var c, k, b := committed / GROWTH, step / GROWTH, base / ALIGNMENT;
    assert committed + step == GROWTH * (c + k);
    assert step == ALIGNMENT * (GROWTH / ALIGNMENT * k);
    assert base + committed == ALIGNMENT * (b + GROWTH / ALIGNMENT * c);
  }

  lemma TakeFitSound(h: Heap, base: nat, wanted: nat)
    requires Sound(h, base) && 0 < wanted && wanted % ALIGNMENT == 0 && FirstFit(h.blocks, wanted) < |h.blocks|
    ensures var (h', p) := TakeFit(h, wanted);
            && Sound(h', base) && p.Some? && h'.committed == h.committed
            && Gave(h.blocks, h'.blocks, p.value, wanted)
            && Lowest(h.blocks, h'.blocks, p.value, wanted)
  {
    var i := FirstFit(h.blocks, wanted);
    hide Good, Live, FirstFit, Take;
    TakeGood(h.blocks, base, base + h.committed, i, wanted);
    var cs := Take(h.blocks, i, wanted);
    assert cs[i] in cs;
    Aligned(wanted);
    assert NewBlock(h.blocks, cs, h.blocks[i].addr + HEADER, wanted, cs[i]);
    TakesLowest(h.blocks, base, base + h.committed, wanted);
  }

  lemma Aligned(n: nat)
    requires n % ALIGNMENT == 0
    ensures AlignUp(n) == n
  {
  }

  /** b is new, holds the size asked for, and less than a header and two lines more. */
  ghost predicate NewBlock(bs: seq<Block>, cs: seq<Block>, p: nat, size: nat, b: Block) {
    && b.addr + HEADER == p && !b.free && b !in Live(bs) && Live(cs) == Live(bs) + {b} && b in cs
    && size <= b.size < AlignUp(size) + HEADER + ALIGNMENT
    && LiveSize(cs) == LiveSize(bs) + b.size
  }

  predicate Fits(c: Block, wanted: nat) {
    c.free && c.size >= wanted
  }

  /** The pointer is into the lowest free block that is large enough, which is cut
      to size unless what is left would be too small for a block. */
  ghost predicate Lowest(bs: seq<Block>, cs: seq<Block>, p: nat, wanted: nat) {
    exists c :: c in bs && Fits(c, wanted) && IsLowest(bs, c, wanted) && CutFrom(c, cs, p, wanted)
  }

  ghost predicate IsLowest(bs: seq<Block>, c: Block, wanted: nat) {
    forall d :: d in bs && Fits(d, wanted) ==> c.addr <= d.addr
  }

  predicate CutFrom(c: Block, cs: seq<Block>, p: nat, wanted: nat) {
    && p == c.addr + HEADER && c.size >= wanted
    && Block(c.addr, if c.size - wanted >= HEADER + ALIGNMENT then wanted else c.size, false) in cs
  }

  lemma TakesLowest(bs: seq<Block>, base: nat, end: nat, wanted: nat)
    requires Good(bs, base, end) && FirstFit(bs, wanted) < |bs|
    ensures var i := FirstFit(bs, wanted); Lowest(bs, Take(bs, i, wanted), bs[i].addr + HEADER, wanted)
  {
    hide Take, FirstFit, Good;
    var i := FirstFit(bs, wanted);
    TakenBlock(bs, i, wanted);
    FirstIsLowest(bs, base, end, wanted);
    assert bs[i] in bs && Fits(bs[i], wanted);
  }

  lemma TakenBlock(bs: seq<Block>, i: nat, wanted: nat)
    requires i < |bs| && wanted <= bs[i].size
    ensures CutFrom(bs[i], Take(bs, i, wanted), bs[i].addr + HEADER, wanted)
  {
    var c, cs := bs[i], Take(bs, i, wanted);
    assert cs[i] == Block(c.addr, if c.size - wanted >= HEADER + ALIGNMENT then wanted else c.size, false);
  }

  lemma FirstIsLowest(bs: seq<Block>, base: nat, end: nat, wanted: nat)
    requires Good(bs, base, end) && FirstFit(bs, wanted) < |bs|
    ensures IsLowest(bs, bs[FirstFit(bs, wanted)], wanted)
  {
    hide FirstFit;
    var i := FirstFit(bs, wanted);
    forall d | d in bs && Fits(d, wanted)
      ensures bs[i].addr <= d.addr
    {
      var j :| 0 <= j < |bs| && bs[j] == d;
      Increasing(bs, base, end, i, j);
    }
  }

  /** One more block is in use, at p, large enough; the others are as they were. */
  ghost predicate Gave(bs: seq<Block>, cs: seq<Block>, p: nat, size: nat) {
    exists b :: NewBlock(bs, cs, p, size, b)
  }

  /** kmalloc keeps the heap sound; it gives a new block of the size asked for, cut
      from the lowest free block that fits, of the heap as it is if there is one
      and otherwise of the heap grown; and null exactly when the size is refused or
      nothing fits and the heap cannot grow. */
  lemma MallocSound(h: Heap, base: nat, size: nat, frames: nat)
    requires Sound(h, base)
    ensures var (h', p) := Malloc(h, base, size, frames);
            && Sound(h', base)
            && (p.None? ==> h' == h)
            && (p.Some? ==> Gave(h.blocks, h'.blocks, p.value, size))
            && (p.Some? ==>
                  if SomeFit(h.blocks, AlignUp(size))
                  then h'.committed == h.committed && Lowest(h.blocks, h'.blocks, p.value, AlignUp(size))
                  else h'.committed == h.committed + Step(AlignUp(size)) && BehindAll(h.blocks, p.value))
            && (p.None? <==> size == 0 || size > RESERVED
                             || (!SomeFit(h.blocks, AlignUp(size)) && !CanGrow(h, AlignUp(size), frames)))
  {
    var wanted := AlignUp(size);
    if size != 0 && size <= RESERVED {
      hide Sound, Live, FirstFit, Gave, TakeFit, Grown, SomeFit, Lowest, BehindAll;
      FirstFitFinds(h.blocks, wanted);
      if FirstFit(h.blocks, wanted) < |h.blocks| {
        TakeFitSound(h, base, wanted);
        GaveLess(h.blocks, TakeFit(h, wanted).0.blocks, TakeFit(h, wanted).1.value, wanted, size);
      } else if CanGrow(h, wanted, frames) {
        GrownSound(h, base, wanted);
        var g := Grown(h, base, wanted);
        TakeFitSound(g, base, wanted);
        GaveLess(g.blocks, TakeFit(g, wanted).0.blocks, TakeFit(g, wanted).1.value, wanted, size);
        GrownGave(h, base, wanted, TakeFit(g, wanted).0.blocks, TakeFit(g, wanted).1.value, size);
        GrownIsBehind(h, base, wanted);
      }
    }
  }

  ghost predicate SomeFit(bs: seq<Block>, wanted: nat) {
    exists c :: c in bs && Fits(c, wanted)
  }

  lemma FirstFitFinds(bs: seq<Block>, wanted: nat)
    ensures FirstFit(bs, wanted) < |bs| <==> SomeFit(bs, wanted)
  {
    var i := FirstFit(bs, wanted);
    if i < |bs| {
      assert bs[i] in bs && Fits(bs[i], wanted);
    }
  }

  /** Every block in use is below. */
  ghost predicate BehindAll(bs: seq<Block>, p: nat) {
    forall c :: c in Live(bs) ==> End(c) + HEADER <= p
  }

  /** Growing adds a block, or makes the last one larger. */
  lemma ExtendShape(bs: seq<Block>, where: nat, step: nat)
    requires step >= HEADER
    ensures var cs, joins := Extend(bs, where, step), bs != [] && bs[|bs| - 1].free;
            && |cs| == (if joins then |bs| else |bs| + 1) && (forall k :: 0 <= k < |cs| - 1 ==> cs[k] == bs[k])
            && cs[|cs| - 1].addr == if joins then bs[|bs| - 1].addr else where
  {
  }

  /** What a heap that had no room gives after growing is in the new part, or in
      the free block before it. */
  lemma GrownIsBehind(h: Heap, base: nat, wanted: nat)
    requires Sound(h, base) && 0 < wanted && FirstFit(h.blocks, wanted) == |h.blocks|
    requires h.committed + Step(wanted) <= RESERVED
    ensures var (h', p) := TakeFit(Grown(h, base, wanted), wanted); p.Some? && BehindAll(h.blocks, p.value)
  {
    hide Take, Extend, FirstFit, Step, Good, Live;
    var bs, cs := h.blocks, Grown(h, base, wanted).blocks;
    GrownSound(h, base, wanted);
    ExtendShape(bs, base + h.committed, Step(wanted));
    assert FirstFit(cs, wanted) == |cs| - 1;
    AllBelow(bs, base, base + h.committed);
  }

  /** Blocks in use end before a free last block, and before the end. */
  lemma AllBelow(bs: seq<Block>, base: nat, end: nat)
    requires Good(bs, base, end)
    ensures forall c :: c in Live(bs) ==>
              End(c) <= if bs != [] && bs[|bs| - 1].free then bs[|bs| - 1].addr else end
  {
    forall c | c in Live(bs)
      ensures End(c) <= if bs != [] && bs[|bs| - 1].free then bs[|bs| - 1].addr else end
    {
      var j :| 0 <= j < |bs| && bs[j] == c;
      Increasing(bs, base, end, j, |bs| - 1);
      Increasing(bs, base, end, j, j);
    }
  }

  lemma GaveLess(bs: seq<Block>, cs: seq<Block>, p: nat, wanted: nat, size: nat)
    requires Gave(bs, cs, p, wanted) && wanted == AlignUp(size)
    ensures Gave(bs, cs, p, size)
  {
    var b :| NewBlock(bs, cs, p, wanted, b);
    Aligned(wanted);
    assert NewBlock(bs, cs, p, size, b);
  }

  lemma GrownGave(h: Heap, base: nat, wanted: nat, cs: seq<Block>, p: nat, size: nat)
    requires Sound(h, base) && h.committed + Step(wanted) <= RESERVED
             && Gave(Grown(h, base, wanted).blocks, cs, p, size)
    ensures Gave(h.blocks, cs, p, size)
  {
    hide Grown, Sound, Live, LiveSize, Step;
    var g := Grown(h, base, wanted);
    var b :| NewBlock(g.blocks, cs, p, size, b);
    GrownSound(h, base, wanted);
    assert NewBlock(h.blocks, cs, p, size, b);
  }

  /** kfree of a pointer in use takes that block, and only it, out of use. */
  lemma FreeSound(h: Heap, base: nat, ptr: nat, b: Block)
    requires Sound(h, base) && b in Live(h.blocks) && b.addr + HEADER == ptr
    ensures Sound(Free(h, ptr), base) && Free(h, ptr).committed == h.committed
    ensures Live(Free(h, ptr).blocks) == Live(h.blocks) - {b}
            && LiveSize(Free(h, ptr).blocks) == LiveSize(h.blocks) - b.size
  {
    var k :| 0 <= k < |h.blocks| && h.blocks[k] == b;
    var i := IndexOf(h.blocks, ptr - HEADER);
    OneBlockPerAddress(h.blocks, base, base + h.committed, i, k);
    hide Tiles, AllSized, Coalesced, Live, LiveSize, IndexOf;
    ReleaseGood(h.blocks, base, base + h.committed, i);
    ReleaseSomething(h.blocks, i);
    hide Release;
  }

  lemma ReleaseSomething(bs: seq<Block>, i: nat)
    requires i < |bs|
    ensures Release(bs, i) != []
  {
  }

  /** kfree right after a kmalloc that did not grow the heap restores it. */
  lemma FreeUndoesMalloc(h: Heap, base: nat, size: nat, frames: nat)
    requires Sound(h, base) && Malloc(h, base, size, frames).1.Some?
             && Malloc(h, base, size, frames).0.committed == h.committed
    ensures var (h', p) := Malloc(h, base, size, frames);
            Free(h', p.value) == h
  {
    MallocSound(h, base, size, frames);
    var (h', p) := Malloc(h, base, size, frames);
    var b :| NewBlock(h.blocks, h'.blocks, p.value, size, b);
    assert b in Live(h'.blocks);
    hide Malloc, Free, Live;
    FreeSound(h', base, p.value, b);
    assert Live(Free(h', p.value).blocks) == Live(h.blocks);
    Canonical(Free(h', p.value).blocks, h.blocks, base, base + h.committed);
  }
}
