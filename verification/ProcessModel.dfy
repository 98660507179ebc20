/**
 What a process sees of its own branch: for each page a frame, the bits of its
 entry and the bytes in the frame; and what loading an executable must leave there.
 */
module ProcessModel {
  import opened Basics
  import opened PageWalk

  datatype PageView = PageView(frame: nat, flags: PageFlags, bytes: seq<bv8>)

  type View = map<nat, PageView>

  /** The fields of a program header that the loader uses. */
  datatype Segment = Segment(load: bool, write: bool, execute: bool, offset: nat, va: nat, fileSize: nat,
                             memorySize: nat)

  const USER_BASE: nat := 0x80_0000_0000
  const STACK_TOP: nat := USER_BASE + 0x4000_0000
  const STACK_PAGES: nat := 16
  const STACK_FIRST: nat := STACK_TOP / PAGE - STACK_PAGES

  function FirstPage(seg: Segment): nat {
    seg.va / PAGE
  }

  function PageCount(seg: Segment): nat {
    (seg.memorySize + seg.va % PAGE + PAGE - 1) / PAGE
  }

  /** The pages of a segment are those that hold a byte of it. */
  lemma PagesAreExact(seg: Segment, v: nat)
    requires Loads(seg)
    ensures FirstPage(seg) <= v < FirstPage(seg) + PageCount(seg) <==>
            v * PAGE < seg.va + seg.memorySize && seg.va < (v + 1) * PAGE
  {
    var q, r := seg.va / PAGE, seg.va % PAGE;
    var n := PageCount(seg);
    assert seg.va == PAGE * q + r;
    assert PAGE * n <= seg.memorySize + r + PAGE - 1 < PAGE * n + PAGE;
    if v < q {
      assert PAGE * (v + 1) <= PAGE * q;
    } else if v >= q + n {
      assert PAGE * (q + n) <= PAGE * v;
    } else {
      assert PAGE * (q + 1) <= PAGE * (v + 1) && PAGE * v <= PAGE * (q + n - 1);
    }
  }

  predicate Loads(seg: Segment) {
    seg.load && seg.memorySize != 0
  }

  /** The bits while the image is copied, and those that stay. */
  function LoadFlags(seg: Segment): PageFlags {
    PageFlags(true, true, !seg.execute, false, false)
  }

  function FinalFlags(seg: Segment): PageFlags {
    PageFlags(seg.write, true, !seg.execute, false, false)
  }

  const STACK_FLAGS := PageFlags(true, true, true, false, false)

  /** The byte at an address, if its page is there. */
  function ByteAt(view: View, a: nat): Option<bv8> {
    if a / PAGE in view && a % PAGE < |view[a / PAGE].bytes| then Some(view[a / PAGE].bytes[a % PAGE]) else None
  }

  /** Byte k of the segment: from the file, then zero. */
  function Expected(seg: Segment, image: seq<bv8>, k: nat): bv8
    requires seg.fileSize <= seg.memorySize && seg.offset + seg.fileSize <= |image| && k < seg.memorySize
  {
    if k < seg.fileSize then image[seg.offset + k] else 0
  }

  function SegmentByte(view: View, seg: Segment, k: nat): Option<bv8> {
    ByteAt(view, seg.va + k)
  }

  ghost predicate SegmentIn(view: View, seg: Segment, image: seq<bv8>)
    requires seg.fileSize <= seg.memorySize && seg.offset + seg.fileSize <= |image|
  {
    && (forall v :: FirstPage(seg) <= v < FirstPage(seg) + PageCount(seg) ==>
        v in view && view[v].flags == FinalFlags(seg))
    && (forall k: nat :: k < seg.memorySize ==> SegmentByte(view, seg, k) == Some(Expected(seg, image, k)))
  }

  ghost predicate StackIn(view: View) {
    forall v :: STACK_FIRST <= v < STACK_FIRST + STACK_PAGES ==>
           v in view && view[v].flags == STACK_FLAGS && view[v].bytes == Zeros()
  }

  function Zeros(): (z: seq<bv8>)
    ensures |z| == PAGE && forall i :: 0 <= i < PAGE ==> z[i] == 0
  {
    seq(PAGE, _ => 0)
  }

  // --------------------------------------------------------- changes of view

  /** Pages outside [first, first + count) are as before. */
  ghost predicate KeptOutside(view: View, view': View, first: nat, count: nat) {
    forall v :: v in view && !(first <= v < first + count) ==> v in view' && view'[v] == view[v]
  }

  /** The pages [first, first + count) are new, zeroed, with these bits. */
  ghost predicate Added(view: View, view': View, first: nat, count: nat, flags: PageFlags) {
    && (forall v :: v in view' <==> v in view || first <= v < first + count)
    && KeptOutside(view, view', first, count)
    && forall v :: first <= v < first + count ==> v in view' && view'[v].flags == flags && view'[v].bytes == Zeros()
  }

  function Put(view: View, a: nat, b: bv8): View
    requires a / PAGE in view && |view[a / PAGE].bytes| == PAGE
  {
    var p := view[a / PAGE];
    view[a / PAGE := p.(bytes := p.bytes[a % PAGE := b])]
  }

  lemma PutByte(view: View, a: nat, b: bv8, x: nat)
    requires a / PAGE in view && |view[a / PAGE].bytes| == PAGE
    ensures ByteAt(Put(view, a, b), x) == if x == a then Some(b) else ByteAt(view, x)
  {
    if x / PAGE == a / PAGE && x % PAGE == a % PAGE {
      assert x == x / PAGE * PAGE + x % PAGE == a;
    }
  }

  /** The first n bytes of the segment's file part have been copied. */
  ghost predicate Copied(view: View, view': View, seg: Segment, image: seq<bv8>, n: nat)
    requires seg.offset + n <= |image|
  {
    && view'.Keys == view.Keys
    && (forall v :: v in view ==>
        view'[v].flags == view[v].flags && view'[v].frame == view[v].frame && |view'[v].bytes| == |view[v].bytes|)
    && (forall v :: v in view && !(FirstPage(seg) <= v < FirstPage(seg) + PageCount(seg)) ==> view'[v] == view[v])
    && (forall a: nat :: ByteAt(view', a) == if seg.va <= a < seg.va + n then Some(image[seg.offset + a - seg.va])
        else ByteAt(view, a))
  }

  /** Byte k of the segment lies on one of its pages. */
  lemma OnItsPages(seg: Segment, k: nat)
    requires k < seg.memorySize
    ensures FirstPage(seg) <= (seg.va + k) / PAGE < FirstPage(seg) + PageCount(seg)
  {
    var q, r := seg.va / PAGE, seg.va % PAGE;
    assert seg.va + k == PAGE * q + (r + k);
    assert (seg.va + k) / PAGE == q + (r + k) / PAGE;
    var c := PageCount(seg);
    assert c * PAGE + PAGE > seg.memorySize + r + PAGE - 1;
    assert (r + k) / PAGE < c;
  }

  lemma CopyOneMore(view: View, view': View, seg: Segment, image: seq<bv8>, n: nat)
    requires n < seg.memorySize && seg.offset + n < |image| && Copied(view, view', seg, image, n)
    requires (seg.va + n) / PAGE in view' && |view'[(seg.va + n) / PAGE].bytes| == PAGE
    ensures Copied(view, Put(view', seg.va + n, image[seg.offset + n]), seg, image, n + 1)
  {
    var view2 := Put(view', seg.va + n, image[seg.offset + n]);
    OnItsPages(seg, n);
    forall a: nat
      ensures ByteAt(view2, a) == if seg.va <= a < seg.va + n + 1 then Some(image[seg.offset + a - seg.va])
              else ByteAt(view, a)
    {
      PutByte(view', seg.va + n, image[seg.offset + n], a);
    }
  }

  function Reflag(view: View, first: nat, count: nat, flags: PageFlags): View {
    map v | v in view :: if first <= v < first + count then view[v].(flags := flags) else view[v]
  }

  lemma ReflagBytes(view: View, first: nat, count: nat, flags: PageFlags, a: nat)
    ensures ByteAt(Reflag(view, first, count, flags), a) == ByteAt(view, a)
  {
  }

  /** Zeroed pages, the copy and the final bits make the segment. */
  lemma SegmentBuilt(view0: View, view1: View, view2: View, seg: Segment, image: seq<bv8>)
    requires seg.fileSize <= seg.memorySize && seg.offset + seg.fileSize <= |image|
    requires Added(view0, view1, FirstPage(seg), PageCount(seg), LoadFlags(seg))
             && Copied(view1, view2, seg, image, seg.fileSize)
    ensures SegmentIn(Reflag(view2, FirstPage(seg), PageCount(seg), FinalFlags(seg)), seg, image)
    ensures KeptOutside(view0, Reflag(view2, FirstPage(seg), PageCount(seg), FinalFlags(seg)), FirstPage(seg),
                        PageCount(seg))
    ensures seg.write ==> SegmentIn(view2, seg, image) && KeptOutside(view0, view2, FirstPage(seg), PageCount(seg))
  {
    var view3 := Reflag(view2, FirstPage(seg), PageCount(seg), FinalFlags(seg));
    forall k: nat | k < seg.memorySize
      ensures SegmentByte(view2, seg, k) == Some(Expected(seg, image, k))
              && SegmentByte(view3, seg, k) == SegmentByte(view2, seg, k)
    {
      CopiedByte(view0, view1, view2, seg, image, k);
      ReflagBytes(view2, FirstPage(seg), PageCount(seg), FinalFlags(seg), seg.va + k);
    }
    hide ByteAt, SegmentByte, PageCount, FirstPage;
  }

  lemma CopiedByte(view0: View, view1: View, view2: View, seg: Segment, image: seq<bv8>, k: nat)
    requires seg.fileSize <= seg.memorySize && seg.offset + seg.fileSize <= |image| && k < seg.memorySize
    requires Added(view0, view1, FirstPage(seg), PageCount(seg), LoadFlags(seg))
             && Copied(view1, view2, seg, image, seg.fileSize)
    ensures SegmentByte(view2, seg, k) == Some(Expected(seg, image, k))
  {
    OnItsPages(seg, k);
    assert ByteAt(view1, seg.va + k) == Some(0);
  }

  ghost predicate PagesApart(first: nat, count: nat, first': nat, count': nat) {
    first + count <= first' || first' + count' <= first
  }

  /** A change to other pages leaves a loaded segment as it is. */
  lemma SegmentKept(view: View, view': View, first: nat, count: nat, seg: Segment, image: seq<bv8>)
    requires seg.fileSize <= seg.memorySize && seg.offset + seg.fileSize <= |image|
    requires SegmentIn(view, seg, image) && KeptOutside(view, view', first, count)
             && PagesApart(first, count, FirstPage(seg), PageCount(seg))
    ensures SegmentIn(view', seg, image)
  {
    forall k: nat | k < seg.memorySize
      ensures SegmentByte(view', seg, k) == SegmentByte(view, seg, k)
    {
      OnItsPages(seg, k);
    }
  }
}
