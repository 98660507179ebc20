/** kernel/mm/page_alloc.cpp: the physical frame allocator over its byte bitmap. */
module PageAlloc {
  import opened FrameBits

  /** 1u << k, on a byte. */
  function Mask(k: nat): bv8
    requires k < 8
  {
    if k == 0 then 1 else if k == 1 then 2 else if k == 2 then 4 else if k == 3 then 8
    else if k == 4 then 16 else if k == 5 then 32 else if k == 6 then 64 else 128
  }

  predicate BitOf(b: bv8, k: nat)
    requires k < 8
  {
    b & Mask(k) != 0
  }

  lemma SetOneBit(b: bv8, k: nat, j: nat)
    requires k < 8 && j < 8
    ensures BitOf(b | Mask(k), j) == (j == k || BitOf(b, j))
  {
  }

  lemma ClearOneBit(b: bv8, k: nat, j: nat)
    requires k < 8 && j < 8
    ensures BitOf(b & !Mask(k), j) == (j != k && BitOf(b, j))
  {
  }

  /** One entry of the boot loader's memory map, and a byte range to keep away from. */
  datatype MapEntry = MapEntry(address: nat, length: nat, available: bool)
  datatype ByteRange = ByteRange(start: nat, end: nat)

  const WORD: nat := 0x1_0000_0000_0000_0000

  function FirstTouched(r: ByteRange): nat { r.start / PAGE_SIZE }
  /** The sum is one of 64 bits. */
  function PastTouched(r: ByteRange): nat { (r.end + PAGE_SIZE - 1) % WORD / PAGE_SIZE }

  /** The frames mark_range_used takes for a byte range. */
  predicate Touches(r: ByteRange, i: nat) {
    FirstTouched(r) <= i < PastTouched(r)
  }

  /** Every frame holding a byte of the range is touched, and a non-empty
      range touches no other; one that ends within a page of 2^64 touches none. */
  lemma TouchesIsOverlap(r: ByteRange, i: nat)
    ensures r.start < r.end && r.end + PAGE_SIZE <= WORD ==>
              (Touches(r, i) <==> r.start < (i + 1) * PAGE_SIZE && i * PAGE_SIZE < r.end)
    ensures WORD < r.end + PAGE_SIZE && r.end < WORD ==> !Touches(r, i)
  {
  }

  /** The whole frame lies inside the part of the entry below the limit. The
      end of an entry is computed in 64 bits. */
  predicate Inside(e: MapEntry, i: nat) {
    && e.available
    && e.address <= i * PAGE_SIZE
    && (i + 1) * PAGE_SIZE <= (e.address + e.length) % WORD
    && (i + 1) * PAGE_SIZE <= MANAGED_LIMIT
  }

  class FrameAllocator {
    const bitmap: array<bv8>
    var usedPages: nat
    /** The abstract bitmap, one boolean a frame. */
    ghost var bits: seq<bool>

    /** The zero-initialised globals: nothing used yet. */
    constructor ()
      ensures Valid() && fresh(bitmap)
      ensures forall i: nat :: i < MANAGED_PAGES ==> !bits[i]
    {
      bitmap := new bv8[MANAGED_PAGES / 8](_ => 0);
      bits := seq(MANAGED_PAGES, _ => false);
      usedPages := 0;
      new;
      CountNoneUsed(bits);
    }

    ghost predicate Valid()
      reads this, bitmap
    {
      && bitmap.Length == MANAGED_PAGES / 8
      && |bits| == MANAGED_PAGES
      && usedPages == CountUsed(bits)
      && Mirrors()
    }

    ghost predicate Mirrors()
      requires bitmap.Length == MANAGED_PAGES / 8
      requires |bits| == MANAGED_PAGES
      reads this, bitmap
    {
      forall i: nat :: i < MANAGED_PAGES ==> bits[i] == BitOf(bitmap[i / 8], i % 8)
    }

    predicate TestBit(index: nat): (r: bool)
      requires Valid() && index < MANAGED_PAGES
      reads this, bitmap
      ensures r == bits[index]
    {
      BitOf(bitmap[index / 8], index % 8)
    }

    method SetBit(index: nat)
      requires Valid() && index < MANAGED_PAGES && !bits[index]
      modifies this, bitmap
      ensures Valid() && bits == old(bits)[index := true]
    {
      CountUpdate(bits, index, true);
      var was := bitmap[index / 8];
      bitmap[index / 8] := was | Mask(index % 8);
      usedPages := usedPages + 1;
      bits := bits[index := true];
      forall i: nat | i < MANAGED_PAGES
        ensures bits[i] == BitOf(bitmap[i / 8], i % 8)
      {
        if i / 8 == index / 8 {
          SetOneBit(was, index % 8, i % 8);
        }
      }
    }

    method ClearBit(index: nat)
      requires Valid() && index < MANAGED_PAGES && bits[index]
      modifies this, bitmap
      ensures Valid() && bits == old(bits)[index := false]
    {
      CountUpdate(bits, index, false);
      var was := bitmap[index / 8];
      bitmap[index / 8] := was & !Mask(index % 8);
      usedPages := usedPages - 1;
      bits := bits[index := false];
      forall i: nat | i < MANAGED_PAGES
        ensures bits[i] == BitOf(bitmap[i / 8], i % 8)
      {
        if i / 8 == index / 8 {
          ClearOneBit(was, index % 8, i % 8);
        }
      }
    }

    method MarkUsed(index: nat)
      requires Valid()
      modifies this, bitmap
      ensures Valid()
      ensures bits == if index < MANAGED_PAGES then old(bits)[index := true] else old(bits)
    {
      if index < MANAGED_PAGES && !TestBit(index) {
        SetBit(index);
      }
    }

    method MarkRangeUsed(start: nat, end: nat)
      requires Valid()
      modifies this, bitmap
      ensures Valid()
      ensures bits == Fill(old(bits), FirstTouched(ByteRange(start, end)), PastTouched(ByteRange(start, end)), true)
    {
      var first := start / PAGE_SIZE;
      var last := (end + PAGE_SIZE - 1) % WORD / PAGE_SIZE;
      FillEmpty(bits, first, first, true);
      FillEmpty(bits, first, if last < first then last else first, true);
      var i := first;
      while i < last
        invariant first <= i && (i <= last || i == first)
        invariant Valid()
        invariant bits == Fill(old(bits), first, i, true)
      {
        FillStep(old(bits), first, i, true);
        MarkUsed(i);
        i := i + 1;
      }
      if last < first {
        FillEmpty(old(bits), first, last, true);
      }
    }

    method ReleaseRange(first: nat, last: nat)
      requires Valid()
      modifies this, bitmap
      ensures Valid() && bits == Fill(old(bits), first, last, false)
    {
      FillEmpty(bits, first, first, false);
      var i := first;
      while i < last && i < MANAGED_PAGES
        invariant first <= i && (i <= last || i == first)
        invariant i <= MANAGED_PAGES || i == first
        invariant Valid()
        invariant bits == Fill(old(bits), first, i, false)
      {
        FillStep(old(bits), first, i, false);
        if TestBit(i) {
          ClearBit(i);
        }
        i := i + 1;
      }
      if last <= first || MANAGED_PAGES <= first {
        FillEmpty(old(bits), first, last, false);
        FillEmpty(old(bits), first, i, false);
      } else if i < last {
        FillBeyond(old(bits), first, i, last, false);
      }
    }

    method MarkRangeFree(start: nat, end: nat)
      requires Valid()
      modifies this, bitmap
      ensures Valid()
      ensures bits == Fill(old(bits), (start + PAGE_SIZE - 1) / PAGE_SIZE, end / PAGE_SIZE, false)
    {
      ReleaseRange((start + PAGE_SIZE - 1) / PAGE_SIZE, end / PAGE_SIZE);
    }

    method FreePages(page: nat, count: nat)
      requires Valid()
      modifies this, bitmap
      ensures Valid()
      ensures bits == Fill(old(bits), page / PAGE_SIZE, (page / PAGE_SIZE + count) % WORD, false)
    {
      ReleaseRange(page / PAGE_SIZE, (page / PAGE_SIZE + count) % WORD);
    }

    /** The inner loop of alloc_pages, over the run it has found. */
    method MarkRun(first: nat, last: nat)
      requires Valid() && first <= last < MANAGED_PAGES
      modifies this, bitmap
      ensures Valid() && bits == Fill(old(bits), first, last + 1, true)
    {
      FillEmpty(bits, first, first, true);
      var j := first;
      while j <= last
        invariant first <= j <= last + 1
        invariant Valid()
        invariant bits == Fill(old(bits), first, j, true)
      {
        FillStep(old(bits), first, j, true);
        MarkUsed(j);
        j := j + 1;
      }
    }

    /** The lowest run of `count` free frames, or zero when there is none. Zero
        also stands for a run that starts at frame zero. */
    method AllocPages(count: nat) returns (address: nat, ghost found: bool)
      requires Valid()
      modifies this, bitmap
      ensures Valid()
      ensures found <==> count > 0 && !NoRun(old(bits), count)
      ensures !found ==> address == 0 && bits == old(bits)
      ensures found ==> address % PAGE_SIZE == 0
      ensures found ==> LowestRun(old(bits), address / PAGE_SIZE, count)
      ensures found ==> bits == Fill(old(bits), address / PAGE_SIZE, address / PAGE_SIZE + count, true)
    {
      address, found := 0, false;
      if count == 0 {
        return;
      }
      var run := 0;
      var i := 0;
      while i < MANAGED_PAGES
        invariant 0 <= run < count && run <= i <= MANAGED_PAGES
        invariant Valid() && bits == old(bits)
        invariant forall j: nat :: i - run <= j < i ==> !bits[j]
        invariant run < i ==> bits[i - run - 1]
        invariant forall f: nat :: f + count <= i ==> !FreeRun(bits, f, count)
      {
        if TestBit(i) {
          forall f: nat | f + count <= i + 1
            ensures !FreeRun(bits, f, count)
          {
            if f + count == i + 1 {
              UsedBlocksRun(bits, i, count, f);
            }
          }
          run := 0;
          i := i + 1;
          continue;
        }
        run := run + 1;
        if run < count {
          forall f: nat | f + count <= i + 1
            ensures !FreeRun(bits, f, count)
          {
            if f + count == i + 1 {
              UsedBlocksRun(bits, i - run, count, f);
            }
          }
          i := i + 1;
          continue;
        }
        var first := i + 1 - count;
        MarkRun(first, i);
        address := first * PAGE_SIZE;
        found := true;
        assert FreeRun(old(bits), first, count);
        return;
      }
    }

    /** page_alloc_init: everything starts used, the available entries are
        opened, and the reserved ranges are closed again. */
    method Init(entries: seq<MapEntry>, reserved: seq<ByteRange>)
      requires bitmap.Length == MANAGED_PAGES / 8
      requires forall k :: 0 <= k < |entries| ==> entries[k].address < WORD && entries[k].length < WORD
      modifies this, bitmap
      ensures Valid()
      ensures forall i: nat :: i < MANAGED_PAGES ==>
                (!bits[i] <==> && (exists k :: 0 <= k < |entries| && Inside(entries[k], i))
                               && (forall k :: 0 <= k < |reserved| ==> !Touches(reserved[k], i)))
    {
      FillAllUsed();
      var k := 0;
      while k < |entries|
        invariant 0 <= k <= |entries|
        invariant Valid()
        invariant forall i: nat :: i < MANAGED_PAGES ==>
                    (!bits[i] <==> exists m :: 0 <= m < k && Inside(entries[m], i))
      {
        ghost var before := bits;
        OpenEntry(entries[k]);
        forall i: nat | i < MANAGED_PAGES
          ensures !bits[i] <==> exists m :: 0 <= m < k + 1 && Inside(entries[m], i)
        {
          if !bits[i] && before[i] {
            assert Inside(entries[k], i);
          }
        }
        k := k + 1;
      }
      ghost var open := bits;
      k := 0;
      while k < |reserved|
        invariant 0 <= k <= |reserved|
        invariant Valid()
        invariant forall i: nat :: i < MANAGED_PAGES ==>
                    (!bits[i] <==> !open[i] && forall m :: 0 <= m < k ==> !Touches(reserved[m], i))
      {
        MarkRangeUsed(reserved[k].start, reserved[k].end);
        assert forall i: nat :: Touches(reserved[k], i) <==> FirstTouched(reserved[k]) <= i < PastTouched(reserved[k]);
        k := k + 1;
      }
    }

    method FillAllUsed()
      requires bitmap.Length == MANAGED_PAGES / 8
      modifies this, bitmap
      ensures Valid() && forall i: nat :: i < MANAGED_PAGES ==> bits[i]
    {
      var k := 0;
      while k < bitmap.Length
        invariant 0 <= k <= bitmap.Length
        invariant forall m :: 0 <= m < k ==> bitmap[m] == 0xFF
      {
        bitmap[k] := 0xFF;
        k := k + 1;
      }
      bits := seq(MANAGED_PAGES, i => true);
      CountAllUsed(bits);
      usedPages := MANAGED_PAGES;
    }

    method OpenEntry(entry: MapEntry)
      requires Valid()
      requires entry.address < WORD && entry.length < WORD
      modifies this, bitmap
      ensures Valid()
      ensures forall i: nat :: i < MANAGED_PAGES ==> bits[i] == (old(bits[i]) && !Inside(entry, i))
    {
      if entry.available {
        var start := entry.address;
        var end := (entry.address + entry.length) % WORD;
        if start < MANAGED_LIMIT {
          MarkRangeFree(start, if end < MANAGED_LIMIT then end else MANAGED_LIMIT);
        }
      }
    }
  }

  // ------------------------------------------------- the calls as ledger steps

  predicate IsReserved(reserved: seq<ByteRange>, i: nat) {
    exists k :: 0 <= k < |reserved| && Touches(reserved[k], i)
  }

  /** The frames a list of byte ranges keeps from the allocator. */
  function ReservedFrames(reserved: seq<ByteRange>): set<nat> {
    set i: nat | i < MANAGED_PAGES && IsReserved(reserved, i)
  }

  /** page_alloc_init with the ranges it always closes: the first ledger is sound. */
  method PageAllocInit(a: FrameAllocator, entries: seq<MapEntry>, kernelEnd: nat, boot: seq<ByteRange>)
    requires a.bitmap.Length == MANAGED_PAGES / 8
    requires forall k :: 0 <= k < |entries| ==> entries[k].address < WORD && entries[k].length < WORD
    modifies a, a.bitmap
    ensures a.Valid()
    ensures Sound(Ledger(a.bits, {}, ReservedFrames([ByteRange(0, 0x10_0000), ByteRange(0x10_0000, kernelEnd)] + boot)))
    ensures Sound(Ledger(a.bits, {}, UsedFrames(a.bits))) && Exact(Ledger(a.bits, {}, UsedFrames(a.bits)))
  {
    var reserved := [ByteRange(0, 0x10_0000), ByteRange(0x10_0000, kernelEnd)] + boot;
    a.Init(entries, reserved);
    assert Touches(reserved[0], 0);
  }

  ghost function UsedFrames(bits: seq<bool>): set<nat> {
    set i: nat | i < |bits| && bits[i]
  }

  /** alloc_pages is a step, for whoever keeps the ledger. */
  method Allocate(a: FrameAllocator, ghost s: Ledger, count: nat) returns (address: nat, ghost s': Ledger)
    requires a.Valid() && Sound(s) && s.bits == a.bits
    modifies a, a.bitmap
    ensures a.Valid() && s'.bits == a.bits
    ensures Next(s, Event.Allocate(count, address), s') && Sound(s')
  {
    hide Sound;
    ghost var found;
    address, found := a.AllocPages(count);
    s' := if found then Ledger(a.bits, s.live + {(address / PAGE_SIZE, count)}, s.reserved) else s;
    NextKeepsSound(s, Event.Allocate(count, address), s');
  }

  /** free_pages is a step: the return of a live allocation, or a release. */
  method Free(a: FrameAllocator, ghost s: Ledger, page: nat, count: nat) returns (ghost e: Event, ghost s': Ledger)
    requires a.Valid() && Sound(s) && s.bits == a.bits
    modifies a, a.bitmap
    ensures a.Valid() && s'.bits == a.bits
    ensures e == if (page / PAGE_SIZE, count) in s.live then Return(page / PAGE_SIZE, count)
                 else Release(page / PAGE_SIZE, (page / PAGE_SIZE + count) % WORD)
    ensures Next(s, e, s') && (Sound(s') <==> Careful(s, e))
  {
    ghost var first := page / PAGE_SIZE;
    a.FreePages(page, count);
    if (first, count) in s.live {
      e, s' := Return(first, count), Ledger(a.bits, s.live - {(first, count)}, s.reserved);
    } else {
      e, s' := Release(first, (first + count) % WORD), Ledger(a.bits, s.live, s.reserved);
    }
    hide Sound, Careful;
    NextKeepsSound(s, e, s');
  }
}
