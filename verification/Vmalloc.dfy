/**
 kernel/mm/vmalloc.cpp: the ranges of free virtual space between 1 and 2 GiB.
 Every range is a whole number of pages, so ranges are kept in pages counted
 from the start of the area; lengths and addresses at the interface are bytes.
 */
module Vmalloc {

  const PAGE := 4096
  const U64 := 0x1_0000_0000_0000_0000
  const BASE := 0x4000_0000
  const AREA := 0x4_0000           // pages in the area
  const MAX_RANGES := 64

  datatype Range = Range(first: nat, pages: nat)

  /** Who a page of the area belongs to. Held(a): the reservation that starts at
      page a, guard page included. Lost: nobody, and never handed out again. */
  datatype Tag = Free | Held(a: nat) | Lost

  // ----------------------------------------------------------- arithmetic

  /** round_up, in 64 bits. */
  function RoundUp(length: nat): (r: nat)
    ensures r % PAGE == 0
  {
    (length + PAGE - 1) % U64 / PAGE * PAGE
  }

  /** What a reservation of this length takes, guard page included, in 64 bits. */
  function Wanted(length: nat): nat {
    (RoundUp(length) + PAGE) % U64
  }

  lemma RoundUpExact(length: nat)
    requires length < U64
    ensures length + PAGE - 1 < U64 ==> length <= RoundUp(length) < length + PAGE
    ensures length + PAGE - 1 >= U64 ==> RoundUp(length) == 0
  {
    if length + PAGE - 1 < U64 {
      assert (length + PAGE - 1) % U64 == length + PAGE - 1;
    } else {
      assert (length + PAGE - 1) % U64 == length + PAGE - 1 - U64;
    }
  }

  lemma WantedIsWhole(length: nat)
    ensures Wanted(length) % PAGE == 0
  {
    var r := RoundUp(length) / PAGE + 1;
    assert RoundUp(length) + PAGE == PAGE * r;
    var q := PAGE * r / U64;
    assert PAGE * r == U64 * q + Wanted(length);
    assert Wanted(length) == PAGE * (r - U64 / PAGE * q);
  }

  /** A reservation holds the bytes asked for and a guard page behind them if
      and only if the two roundings do not wrap. */
  lemma ReservationFits(length: nat)
    requires length < U64
    ensures Wanted(length) >= length + PAGE <==> length <= U64 - 2 * PAGE
  {
    RoundUpExact(length);
    var r := RoundUp(length);
    if length <= U64 - 2 * PAGE {
      RoundUpMultiple(length);
      assert r + PAGE < U64 || r + PAGE == U64;
    } else if length + PAGE - 1 < U64 {
      RoundUpMultiple(length);
      assert r == U64 - PAGE;
    }
  }

  /** One byte short of 2^64 gets the guard page alone, and one page short of it
      gets nothing. */
  lemma ReservationWrapsExample()
    ensures Wanted(U64 - 1) == PAGE && Wanted(U64 - PAGE) == 0
  {
    RoundUpExact(U64 - 1);
    assert (U64 - PAGE + PAGE - 1) % U64 == U64 - 1;
    assert RoundUp(U64 - PAGE) == U64 - PAGE;
  }

  lemma RoundUpMultiple(length: nat)
    requires length + PAGE - 1 < U64
    ensures length <= U64 - 2 * PAGE ==> RoundUp(length) + PAGE < U64
    ensures length > U64 - 2 * PAGE ==> RoundUp(length) == U64 - PAGE
  {
    RoundUpExact(length);
    var k, last := RoundUp(length) / PAGE, U64 / PAGE;
    assert RoundUp(length) == PAGE * k && U64 == PAGE * last;
    if length <= U64 - 2 * PAGE {
      assert PAGE * k < PAGE * (last - 1);
      assert k < last - 1;
    } else {
      assert PAGE * k > PAGE * (last - 2) && PAGE * k < PAGE * last;
      assert last - 2 < k < last;
    }
  }

  // ---------------------------------------------------------------- ranges

  predicate In(r: Range, p: int) {
    r.first <= p < r.first + r.pages
  }

  /** The page is in one of the free ranges. */
  ghost predicate Listed(rs: seq<Range>, p: int) {
    exists i :: 0 <= i < |rs| && In(rs[i], p)
  }

  predicate Apart(r: Range, q: Range) {
    r.first + r.pages <= q.first || q.first + q.pages <= r.first
  }

  /** Ranges are not empty, lie in the area and do not overlap. */
  ghost predicate WellFormed(rs: seq<Range>) {
    && (forall i :: 0 <= i < |rs| ==> rs[i].pages > 0 && rs[i].first + rs[i].pages <= AREA)
    && (forall i, j :: 0 <= i < j < |rs| ==> Apart(rs[i], rs[j]))
  }

  /** The first range with room. */
  function FirstLarge(rs: seq<Range>, w: nat): (i: nat)
    ensures i <= |rs| && (i < |rs| ==> rs[i].pages >= w)
    ensures forall k :: 0 <= k < i ==> rs[k].pages < w
  {
    if rs == [] then 0 else if rs[0].pages >= w then 0 else 1 + FirstLarge(rs[1..], w)
  }

  /** What vmalloc_reserve does to the range it found. */
  function Cut(rs: seq<Range>, i: nat, w: nat): seq<Range>
    requires i < |rs| && rs[i].pages >= w
  {
    var left := Range(rs[i].first + w, rs[i].pages - w);
    if left.pages == 0 then rs[i := rs[|rs| - 1]][..|rs| - 1] else rs[i := left]
  }

  /** Range i borders on the pages [a, a + n). */
  predicate Borders(r: Range, a: nat, n: nat) {
    r.first == a + n || r.first + r.pages == a
  }

  function FirstBorder(rs: seq<Range>, a: nat, n: nat): (i: nat)
    ensures i <= |rs| && (i < |rs| ==> Borders(rs[i], a, n))
    ensures forall k :: 0 <= k < i ==> !Borders(rs[k], a, n)
  {
    if rs == [] then 0 else if Borders(rs[0], a, n) then 0 else 1 + FirstBorder(rs[1..], a, n)
  }

  /** What vmalloc_release does: join the first neighbour, or a new range, or nothing. */
  function Give(rs: seq<Range>, a: nat, n: nat): seq<Range> {
    var i := FirstBorder(rs, a, n);
    if i < |rs| then rs[i := if rs[i].first == a + n then Range(a, rs[i].pages + n)
                        else Range(rs[i].first, rs[i].pages + n)]
    else if |rs| < MAX_RANGES then rs + [Range(a, n)]
    else rs
  }

  /** The pages are dropped: the table is full and no range borders on them. */
  predicate Leaks(rs: seq<Range>, a: nat, n: nat) {
    FirstBorder(rs, a, n) == |rs| >= MAX_RANGES
  }

  lemma OneRange(rs: seq<Range>, i: nat, j: nat, p: int)
    requires WellFormed(rs) && i < |rs| && j < |rs| && In(rs[i], p) && In(rs[j], p)
    ensures i == j
  {
  }

  lemma CutWellFormed(rs: seq<Range>, i: nat, w: nat)
    requires WellFormed(rs) && i < |rs| && rs[i].pages >= w
    ensures WellFormed(Cut(rs, i, w))
  {
    var cs := Cut(rs, i, w);
    forall j, k | 0 <= j < k < |cs|
      ensures Apart(cs[j], cs[k])
    {
      var j' := if j == i && rs[i].pages == w then |rs| - 1 else j;
      var k' := if k == i && rs[i].pages == w then |rs| - 1 else k;
      assert j' < k' ==> Apart(rs[j'], rs[k']);
      assert k' < j' ==> Apart(rs[k'], rs[j']);
    }
  }

  /** After a cut the free pages are those before, without the pages taken. */
  lemma CutLists(rs: seq<Range>, i: nat, w: nat, p: int)
    requires WellFormed(rs) && i < |rs| && rs[i].pages >= w
    ensures Listed(Cut(rs, i, w), p) <==> Listed(rs, p) && !(rs[i].first <= p < rs[i].first + w)
  {
    var cs, last := Cut(rs, i, w), |rs| - 1;
    if Listed(cs, p) {
      var j :| 0 <= j < |cs| && In(cs[j], p);
      var k := if j == i && rs[i].pages == w then last else j;
      assert In(rs[k], p);
      if In(rs[i], p) {
        OneRange(rs, k, i, p);
      }
    }
    if Listed(rs, p) && !(rs[i].first <= p < rs[i].first + w) {
      var k :| 0 <= k < |rs| && In(rs[k], p);
      if rs[i].pages == w {
        assert In(cs[if k == last then i else k], p);
      } else {
        assert In(cs[k], p);
      }
    }
  }

  /** The pages are in no free range. */
  ghost predicate Unlisted(rs: seq<Range>, a: nat, n: nat) {
    forall i :: 0 <= i < |rs| ==> Apart(rs[i], Range(a, n))
  }

  /** vmalloc_release checks nothing: the ranges stay apart if and only if none
      of the pages was free, or they are dropped. */
  lemma GiveWellFormed(rs: seq<Range>, a: nat, n: nat)
    requires WellFormed(rs) && n > 0 && a + n <= AREA
    ensures WellFormed(Give(rs, a, n)) <==> Unlisted(rs, a, n) || Leaks(rs, a, n)
  {
    var gs, i := Give(rs, a, n), FirstBorder(rs, a, n);
    if WellFormed(gs) && !Leaks(rs, a, n) {
      var j := if i < |rs| then i else |rs|;
      forall k | 0 <= k < |rs|
        ensures Apart(rs[k], Range(a, n))
      {
        if k != j {
          assert gs[k] == rs[k] && (if k < j then Apart(gs[k], gs[j]) else Apart(gs[j], gs[k]));
        }
      }
    }
  }

  /** Two pages released from an area that is free as a whole are in it twice. */
  lemma ReleaseFreeExample()
    ensures WellFormed([Range(0, AREA)]) && !WellFormed(Give([Range(0, AREA)], 5, 2))
  {
    var gs := Give([Range(0, AREA)], 5, 2);
    assert gs == [Range(0, AREA), Range(5, 2)];
    assert !Apart(gs[0], gs[1]);
  }

  lemma GiveLists(rs: seq<Range>, a: nat, n: nat, p: int)
    requires WellFormed(rs) && n > 0 && Unlisted(rs, a, n)
    ensures Listed(Give(rs, a, n), p) <==> Listed(rs, p) || (!Leaks(rs, a, n) && a <= p < a + n)
  {
    var gs, i := Give(rs, a, n), FirstBorder(rs, a, n);
    if Listed(rs, p) {
      var k :| 0 <= k < |rs| && In(rs[k], p);
      assert In(gs[k], p);
    }
    if !Leaks(rs, a, n) && a <= p < a + n {
      assert In(gs[if i < |rs| then i else |rs|], p);
    }
    if Listed(gs, p) {
      var k :| 0 <= k < |gs| && In(gs[k], p);
      assert (k < |rs| && In(rs[k], p)) || a <= p < a + n;
    }
  }

  // ------------------------------------------------------------- invariant

  /** Every page of the area is in exactly one free range, in exactly one live
      reservation, or lost. */
  ghost predicate Inv(rs: seq<Range>, tag: seq<Tag>, live: map<nat, nat>) {
    && WellFormed(rs) && |rs| <= MAX_RANGES && |tag| == AREA
    && (forall p :: 0 <= p < AREA ==> (tag[p] == Free <==> Listed(rs, p)))
    && (forall a :: a in live ==> live[a] > 0 && Tagged(tag, a, live[a], Held(a)))
    && (forall p :: 0 <= p < AREA && tag[p].Held? ==> tag[p].a in live && tag[p].a <= p < tag[p].a + live[tag[p].a])
  }

  /** The pages [a, a + n) are in the area and have this tag. */
  ghost predicate Tagged(tag: seq<Tag>, a: nat, n: nat, t: Tag) {
    a + n <= |tag| && forall p :: a <= p < a + n ==> tag[p] == t
  }

  /** The pages [a, a + n) get a new tag. */
  ghost function Retag(tag: seq<Tag>, a: nat, n: nat, t: Tag): (r: seq<Tag>)
    ensures |r| == |tag|
    ensures forall p :: 0 <= p < |tag| ==> r[p] == if a <= p < a + n then t else tag[p]
  {
    seq(|tag|, p requires 0 <= p < |tag| => if a <= p < a + n then t else tag[p])
  }

  lemma RetagSelf(tag: seq<Tag>, a: nat, n: nat, t: Tag)
    requires a + n <= |tag|
    ensures Tagged(Retag(tag, a, n, t), a, n, t)
  {
  }

  lemma TagAt(tag: seq<Tag>, a: nat, n: nat, t: Tag, p: nat)
    requires Tagged(tag, a, n, t) && p < |tag|
    ensures a <= p < a + n ==> tag[p] == t
  {
  }

  /** Stretches with different tags do not meet. */
  lemma RetagOther(tag: seq<Tag>, a: nat, n: nat, was: Tag, t: Tag, b: nat, m: nat, u: Tag)
    requires Tagged(tag, a, n, was) && Tagged(tag, b, m, u) && u != was
    ensures Tagged(Retag(tag, a, n, t), b, m, u)
  {
    forall p | b <= p < b + m
      ensures Retag(tag, a, n, t)[p] == u
    {
      TagAt(tag, a, n, was, p);
      TagAt(tag, b, m, u, p);
    }
  }

  lemma PartTagged(tag: seq<Tag>, a: nat, n: nat, t: Tag, m: nat)
    requires Tagged(tag, a, n, t) && m <= n
    ensures Tagged(tag, a, m, t)
  {
  }

  lemma RetagBehind(tag: seq<Tag>, a: nat, n: nat, t: Tag, m: nat, u: Tag)
    requires Tagged(tag, a, n, t) && m <= n
    ensures Tagged(Retag(tag, a, m, u), a + m, n - m, t)
  {
  }

  lemma ReserveKeepsInv(rs: seq<Range>, tag: seq<Tag>, live: map<nat, nat>, i: nat, w: nat)
    requires Inv(rs, tag, live) && i < |rs| && rs[i].pages >= w > 0
    ensures var a := rs[i].first;
            && a !in live && Tagged(tag, a, w, Free)
            && Inv(Cut(rs, i, w), Retag(tag, a, w, Held(a)), live[a := w])
  {
    var a := rs[i].first;
    forall p | a <= p < a + w
      ensures 0 <= p < AREA && tag[p] == Free
    {
      assert In(rs[i], p);
    }
    forall b | b in live
      ensures b < AREA && tag[b] == Held(b)
    {
      assert Tagged(tag, b, live[b], Held(b));
    }
    CutWellFormed(rs, i, w);
    forall p | 0 <= p < AREA
      ensures Listed(Cut(rs, i, w), p) <==> tag[p] == Free && !(a <= p < a + w)
    {
      CutLists(rs, i, w, p);
    }
    var tag', live' := Retag(tag, a, w, Held(a)), live[a := w];
    forall b | b in live'
      ensures live'[b] > 0 && Tagged(tag', b, live'[b], Held(b))
    {
      if b == a {
        RetagSelf(tag, a, w, Held(a));
      } else {
        RetagOther(tag, a, w, Free, Held(a), b, live[b], Held(b));
      }
    }
    assert |Cut(rs, i, w)| <= |rs|;
    hide WellFormed, Cut, Listed;
  }

  lemma HeldIsUnlisted(rs: seq<Range>, tag: seq<Tag>, live: map<nat, nat>, a: nat, n: nat)
    requires Inv(rs, tag, live) && a in live && 0 < n <= live[a]
    ensures Unlisted(rs, a, n)
  {
    assert Tagged(tag, a, live[a], Held(a));
    forall i | 0 <= i < |rs|
      ensures Apart(rs[i], Range(a, n))
    {
      var p := if rs[i].first >= a then rs[i].first else a;
      assert a <= p < a + n ==> !Listed(rs, p);
      assert In(rs[i], p) ==> Listed(rs, p);
    }
  }

  /** Releasing the first n pages of a reservation of `live[a]` pages: they are
      free again, or lost if the table leaks them; any pages behind are lost. */
  ghost function Released(rs: seq<Range>, tag: seq<Tag>, live: map<nat, nat>, a: nat, n: nat): seq<Tag>
    requires a in live && n <= live[a]
  {
    Retag(Retag(tag, a, n, if Leaks(rs, a, n) then Lost else Free), a + n, live[a] - n, Lost)
  }

  lemma ReleaseKeepsInv(rs: seq<Range>, tag: seq<Tag>, live: map<nat, nat>, a: nat, n: nat)
    requires Inv(rs, tag, live) && a in live && 0 < n <= live[a]
    ensures Inv(Give(rs, a, n), Released(rs, tag, live, a, n), live - {a})
  {
    HeldIsUnlisted(rs, tag, live, a, n);
    assert Tagged(tag, a, live[a], Held(a));
    GiveWellFormed(rs, a, n);
    var tag' := Released(rs, tag, live, a, n);
    forall p | 0 <= p < AREA
      ensures tag'[p] == Free <==> Listed(Give(rs, a, n), p)
    {
      GiveLists(rs, a, n, p);
      assert a <= p < a + live[a] ==> tag[p] == Held(a);
    }
    forall b | b in live && b != a
      ensures Tagged(tag', b, live[b], Held(b))
    {
      PartTagged(tag, a, live[a], Held(a), n);
      var first := Retag(tag, a, n, if Leaks(rs, a, n) then Lost else Free);
      RetagOther(tag, a, n, Held(a), if Leaks(rs, a, n) then Lost else Free, b, live[b], Held(b));
      RetagBehind(tag, a, live[a], Held(a), n, if Leaks(rs, a, n) then Lost else Free);
      RetagOther(first, a + n, live[a] - n, Held(a), Lost, b, live[b], Held(b));
    }
    assert |Give(rs, a, n)| <= MAX_RANGES;
    hide WellFormed, Give, Listed, Unlisted;
  }

  // ------------------------------------------------------------ the class

  class VmallocArea {
    var ranges: seq<Range>
    ghost var tag: seq<Tag>
    ghost var live: map<nat, nat>

    ghost predicate Valid()
      reads this
    {
      Inv(ranges, tag, live)
    }

    constructor ()
      ensures Valid() && ranges == [Range(0, AREA)] && live == map[]
    {
      ranges := [Range(0, AREA)];
      tag := seq(AREA, _ => Free);
      live := map[];
      new;
      assert forall p :: 0 <= p < AREA ==> In(ranges[0], p);
    }

    method TakeFrom(i: nat, w: nat) returns (address: nat)
      requires Valid() && i < |ranges| && ranges[i].pages >= w
      modifies this
      ensures Valid() && ranges == Cut(old(ranges), i, w)
      ensures var a := old(ranges)[i].first;
              && address == BASE + a * PAGE
              && (w == 0 ==> ranges == old(ranges) && tag == old(tag) && live == old(live))
              && (w > 0 ==>
                  a !in old(live) && live == old(live)[a := w] && tag == Retag(old(tag), a, w, Held(a))
                    && Tagged(old(tag), a, w, Free))
    {
      hide Inv, Tagged, Retag;
      var a := ranges[i].first;
      if w > 0 {
        ReserveKeepsInv(ranges, tag, live, i, w);
        tag, live := Retag(tag, a, w, Held(a)), live[a := w];
      } else {
        NothingCut(ranges, tag, live, i);
      }
      var left := Range(ranges[i].first + w, ranges[i].pages - w);
      if left.pages == 0 {
        ranges := ranges[i := ranges[|ranges| - 1]][..|ranges| - 1];
      } else {
        ranges := ranges[i := left];
      }
      address := BASE + a * PAGE;
    }

    /** vmalloc_reserve: first fit; null exactly when no range has room. */
    method Reserve(length: nat) returns (address: nat)
      requires Valid()
      modifies this
      ensures Valid()
      ensures var w, i := Wanted(length) / PAGE, FirstLarge(old(ranges), Wanted(length) / PAGE);
              && (i == |old(ranges)| ==> address == 0 && ranges == old(ranges) && tag == old(tag) && live == old(live))
              && (i < |old(ranges)| ==>
                    var a := old(ranges)[i].first;
                    && address == BASE + a * PAGE && ranges == Cut(old(ranges), i, w)
                    && (w == 0 ==> ranges == old(ranges) && tag == old(tag) && live == old(live))
                    && (w > 0 ==> a !in old(live) && live == old(live)[a := w] && tag == Retag(old(tag), a, w, Held(a))
                                  && Tagged(old(tag), a, w, Free)))
    {
      hide Inv, Tagged, Retag, Cut;
      WantedIsWhole(length);
      var w := Wanted(length) / PAGE;
      var i := 0;
      while i < |ranges|
        invariant ranges == old(ranges) && tag == old(tag) && live == old(live)
        invariant i <= |ranges| && forall k :: 0 <= k < i ==> ranges[k].pages < w
      {
        if ranges[i].pages >= w {
          address := TakeFrom(i, w);
          return;
        }
        i := i + 1;
      }
      address := 0;
    }

    /** vmalloc_release. Of a reservation, or of the first part of one, it keeps
        the area in order; of anything else, exactly when nothing of it was free. */
    method Release(address: nat, length: nat)
      requires Valid() && address >= BASE && (address - BASE) % PAGE == 0
      modifies this
      ensures var a, n := (address - BASE) / PAGE, Wanted(length) / PAGE;
              && ranges == Give(old(ranges), a, n)
              && if a in old(live) && 0 < n <= old(live)[a] then
                   Valid() && live == old(live) - {a} && tag == Released(old(ranges), old(tag), old(live), a, n)
                 else
                   && live == old(live) && tag == old(tag)
                   && (n > 0 && a + n <= AREA ==>
                         (WellFormed(ranges) <==> Unlisted(old(ranges), a, n) || Leaks(old(ranges), a, n)))
    {
      hide Inv, WellFormed, Unlisted;
      var a, n := (address - BASE) / PAGE, Wanted(length) / PAGE;
      if a in live && 0 < n <= live[a] {
        ReleaseKeepsInv(ranges, tag, live, a, n);
        tag, live := Released(ranges, tag, live, a, n), live - {a};
      } else if n > 0 && a + n <= AREA {
        InvRanges(ranges, tag, live);
        GiveWellFormed(ranges, a, n);
      }
      var i := 0;
      while i < |ranges|
        invariant i <= |ranges| && ranges == old(ranges) && forall k :: 0 <= k < i ==> !Borders(ranges[k], a, n)
      {
        if ranges[i].first == a + n {
          ranges := ranges[i := Range(a, ranges[i].pages + n)];
          return;
        }
        if ranges[i].first + ranges[i].pages == a {
          ranges := ranges[i := Range(ranges[i].first, ranges[i].pages + n)];
          return;
        }
        i := i + 1;
      }
      if |ranges| < MAX_RANGES {
        ranges := ranges + [Range(a, n)];
      }
    }
  }

  lemma InvRanges(rs: seq<Range>, tag: seq<Tag>, live: map<nat, nat>)
    requires Inv(rs, tag, live)
    ensures WellFormed(rs)
  {
  }

  lemma NothingCut(rs: seq<Range>, tag: seq<Tag>, live: map<nat, nat>, i: nat)
    requires Inv(rs, tag, live) && i < |rs|
    ensures rs[i].pages > 0 && Cut(rs, i, 0) == rs
  {
  }

  // ------------------------------------------------------- what it amounts to

  /** Two live reservations never share a page, and between the usable part of
      the lower one and the higher one lies its guard page. */
  lemma GuardPageBetween(rs: seq<Range>, tag: seq<Tag>, live: map<nat, nat>, a: nat, b: nat)
    requires Inv(rs, tag, live) && a in live && b in live && a < b
    ensures a + live[a] <= b && tag[a + live[a] - 1] == Held(a) && !Listed(rs, a + live[a] - 1)
  {
    assert Tagged(tag, b, live[b], Held(b)) && Tagged(tag, a, live[a], Held(a));
    assert tag[b] == Held(b);
  }

  /** Releasing exactly what was reserved loses no page, unless the table is full. */
  lemma ReleaseConserves(rs: seq<Range>, tag: seq<Tag>, live: map<nat, nat>, a: nat, n: nat)
    requires Inv(rs, tag, live) && a in live && 0 < n <= live[a]
    ensures (forall p :: 0 <= p < AREA && Released(rs, tag, live, a, n)[p] == Lost ==> tag[p] == Lost)
            <==> n == live[a] && !Leaks(rs, a, n)
  {
    var tag' := Released(rs, tag, live, a, n);
    assert Tagged(tag, a, live[a], Held(a));
    assert tag[a] == Held(a);
    if n < live[a] {
      assert tag[a + n] == Held(a) && tag'[a + n] == Lost;
    } else if Leaks(rs, a, n) {
      assert tag'[a] == Lost;
    }
    hide Inv, Leaks;
  }

  /** Giving back at once what was just reserved puts every page back: the cut
      left a neighbour, or room in the table. */
  lemma ReleaseUndoesReserve(rs: seq<Range>, tag: seq<Tag>, live: map<nat, nat>, i: nat, w: nat)
    requires Inv(rs, tag, live) && i < |rs| && rs[i].pages >= w > 0
    ensures var a := rs[i].first;
            && !Leaks(Cut(rs, i, w), a, w)
            && Released(Cut(rs, i, w), Retag(tag, a, w, Held(a)), live[a := w], a, w) == tag
            && live[a := w] - {a} == live
  {
    ReserveKeepsInv(rs, tag, live, i, w);
    var a, cs := rs[i].first, Cut(rs, i, w);
    if rs[i].pages > w {
      assert Borders(cs[i], a, w);
    }
    assert Tagged(tag, a, w, Free);
    hide Inv, Cut, WellFormed, Listed;
  }
}
