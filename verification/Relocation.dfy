/**
 The relocation arithmetic of kernel/module/loader.cpp (System V AMD64 psABI,
 section 4.4.1, Relocation Types) and the little-endian fields it fills in.
 */
module Relocation {
  import opened Basics

  const U32: nat := 0x1_0000_0000
  const U64: nat := 0x1_0000_0000_0000_0000
  const HALF32: int := 0x8000_0000
  const HALF64: nat := 0x8000_0000_0000_0000

  // ------------------------------------------------------- little endian

  function Power(n: nat): (p: nat)
    ensures p > 0
  {
    if n == 0 then 1 else 256 * Power(n - 1)
  }

  function Encode(v: nat, n: nat): (b: seq<Byte>)
    ensures |b| == n
    decreases n
  {
    if n == 0 then [] else [v % 256] + Encode(v / 256, n - 1)
  }

  function Decode(b: seq<Byte>): nat {
    if b == [] then 0 else b[0] + 256 * Decode(b[1..])
  }

  /** What is stored is what is read back, up to the width of the field. */
  lemma {:induction false} DecodeEncode(v: nat, n: nat)
    requires v < Power(n)
    ensures Decode(Encode(v, n)) == v
    decreases n
  {
    if n > 0 {
      assert Encode(v, n)[1..] == Encode(v / 256, n - 1);
      DecodeEncode(v / 256, n - 1);
    }
  }

  lemma Widths()
    ensures Power(4) == U32 && Power(8) == U64
  {
    assert Power(2) == 0x1_0000;
    assert Power(4) == 256 * (256 * Power(2));
    assert Power(6) == 256 * (256 * Power(4));
    assert Power(8) == 256 * (256 * Power(6));
  }

  // ----------------------------------------------------------- arithmetic

  /** 64-bit wrap-around. */
  function Wrap(v: int): nat {
    v % U64
  }

  function Signed(w: nat): int {
    if w < HALF64 then w else w - U64
  }

  /** How the processor reads a 32-bit field in a 64-bit operation. */
  function SignExtend(x: nat): int {
    if x < HALF32 then x else x - U32
  }

  datatype Kind = Abs64 | Pc32 | Plt32 | Abs32 | Abs32S | Pc64 | Unknown

  /** The bytes to store, or nothing if the value does not fit. */
  function Field(kind: Kind, symbol: nat, addend: int, place: nat): Option<seq<Byte>> {
    match kind
    case Abs64 => Some(Encode(Wrap(symbol + addend), 8))
    case Pc64 => Some(Encode(Wrap(symbol + addend - place), 8))
    case Pc32 => Narrow(Signed(Wrap(symbol + addend - place)))
    case Plt32 => Narrow(Signed(Wrap(symbol + addend - place)))
    case Abs32 => Narrow(Signed(Wrap(symbol + addend)))
    case Abs32S => Narrow(Signed(Wrap(symbol + addend)))
    case Unknown => None
  }

  function Narrow(value: int): Option<seq<Byte>> {
    if -HALF32 <= value < HALF32 then Some(Encode(value % U32, 4)) else None
  }

  /** S + A - P for the relative kinds, S + A for the others. */
  function Target(kind: Kind, symbol: nat, addend: int, place: nat): int {
    if kind.Pc32? || kind.Plt32? || kind.Pc64? then symbol + addend - place else symbol + addend
  }

  predicate Wide(kind: Kind) {
    kind.Abs64? || kind.Pc64?
  }

  lemma NarrowRoundTrip(value: int)
    requires -HALF32 <= value < HALF32
    ensures SignExtend(Decode(Encode(value % U32, 4))) == value
  {
    Widths();
    DecodeEncode(value % U32, 4);
    if value < 0 {
      assert value % U32 == value + U32;
    }
  }

  /** A 64-bit field holds the target modulo 2^64. */
  lemma WideField(kind: Kind, symbol: nat, addend: int, place: nat)
    requires Wide(kind)
    ensures var f := Field(kind, symbol, addend, place);
            f.Some? && |f.value| == 8 && Decode(f.value) == Wrap(Target(kind, symbol, addend, place))
  {
    Widths();
    DecodeEncode(Wrap(Target(kind, symbol, addend, place)), 8);
  }

  /** A 32-bit field, sign-extended, is the target modulo 2^64; and it is refused
      exactly when no 32-bit field would be. That is what the ABI asks of all the
      narrow kinds but R_X86_64_32, which is read zero-extended. */
  lemma NarrowField(kind: Kind, symbol: nat, addend: int, place: nat)
    requires !Wide(kind) && !kind.Unknown?
    ensures var f, t := Field(kind, symbol, addend, place), Target(kind, symbol, addend, place);
            && (f.Some? ==> |f.value| == 4 && Wrap(SignExtend(Decode(f.value))) == Wrap(t))
            && (f.Some? <==> exists x: nat :: x < U32 && Wrap(SignExtend(x)) == Wrap(t))
  {
    var t := Target(kind, symbol, addend, place);
    var value := Signed(Wrap(t));
    assert Wrap(value) == Wrap(t) by {
      if Wrap(t) >= HALF64 { assert value % U64 == value + U64; }
    }
    if -HALF32 <= value < HALF32 {
      NarrowRoundTrip(value);
      Widths();
      DecodeEncode(value % U32, 4);
      assert value % U32 < U32;
    } else {
      forall x: nat | x < U32
        ensures Wrap(SignExtend(x)) != Wrap(t)
      {
        var y := SignExtend(x);
        assert -HALF32 <= y < HALF32;
        assert Wrap(y) == if y < 0 then y + U64 else y;
      }
    }
  }

  /** What the ABI asks of R_X86_64_32: a field that zero-extends to the value,
      and a refusal exactly for values that have none. */
  predicate Abs32Meets(symbol: nat, addend: int, place: nat) {
    var f, w := Field(Abs32, symbol, addend, place), Wrap(symbol + addend);
    (f.Some? <==> w < U32) && (f.Some? ==> Decode(f.value) == w)
  }

  /** R_X86_64_32 is checked as if it were read sign-extended. Its field is the
      value if and only if that is below 2^31; and the ABI is met if and only if
      the value is not from 2^31 up to 2^32, where it is refused though it fits,
      nor negative above -2^31, where it is accepted though it does not. */
  lemma Abs32ZeroExtends(symbol: nat, addend: int, place: nat)
    ensures var f, w := Field(Abs32, symbol, addend, place), Wrap(symbol + addend);
            && (f.Some? && Decode(f.value) == w <==> w < HALF32)
            && (f.Some? ==> |f.value| == 4 && Decode(f.value) == w % U32)
            && (Abs32Meets(symbol, addend, place) <==> w < HALF32 || U32 <= w < U64 - HALF32)
  {
    var w := Wrap(symbol + addend);
    var value := Signed(w);
    Widths();
    DecodeEncode(value % U32, 4);
    if value < 0 {
      assert w == value + U64 && U64 == U32 * U32;
      assert value % U32 == w % U32;
      if -HALF32 <= value {
        assert value % U32 == value + U32;
      }
    }
  }

  /** A symbol at zero with an addend of minus one is accepted, and reads as
      2^32 - 1. */
  lemma Abs32NegativeExample()
    ensures var f := Field(Abs32, 0, -1, 0);
            f.Some? && Decode(f.value) == U32 - 1 && Wrap(-1) == U64 - 1
  {
    Widths();
    assert Signed(Wrap(-1)) == -1;
    assert -1 % U32 == U32 - 1;
    DecodeEncode(U32 - 1, 4);
  }

  /** A symbol at 2^31 is refused, though four bytes hold it. */
  lemma Abs32RefusedExample()
    ensures Field(Abs32, HALF32, 0, 0).None? && Decode(Encode(HALF32, 4)) == Wrap(HALF32)
  {
    Widths();
    DecodeEncode(HALF32, 4);
  }

  // ------------------------------------------------------------ the stores

  /** A field and where it goes. */
  datatype Site = Site(at: nat, bytes: seq<Byte>)

  ghost predicate InBounds(s: Site, size: nat) {
    s.at + |s.bytes| <= size
  }

  ghost predicate SitesApart(sites: seq<Site>) {
    forall i, j :: 0 <= i < j < |sites| ==>
      sites[i].at + |sites[i].bytes| <= sites[j].at || sites[j].at + |sites[j].bytes| <= sites[i].at
  }

  function Store(memory: seq<Byte>, s: Site): (m: seq<Byte>)
    requires s.at + |s.bytes| <= |memory|
    ensures |m| == |memory|
  {
    memory[..s.at] + s.bytes + memory[s.at + |s.bytes|..]
  }

  ghost predicate AllInBounds(sites: seq<Site>, size: nat) {
    forall i :: 0 <= i < |sites| ==> InBounds(sites[i], size)
  }

  ghost function StoreAll(memory: seq<Byte>, sites: seq<Site>): (m: seq<Byte>)
    requires AllInBounds(sites, |memory|)
    ensures |m| == |memory|
    decreases |sites|
  {
    if sites == [] then memory
    else
      var before := StoreAll(memory, sites[..|sites| - 1]);
      assert InBounds(sites[|sites| - 1], |memory|);
      Store(before, sites[|sites| - 1])
  }

  lemma StoreAt(memory: seq<Byte>, s: Site, k: nat)
    requires InBounds(s, |memory|) && k < |memory|
    ensures Store(memory, s)[k] == if s.at <= k < s.at + |s.bytes| then s.bytes[k - s.at] else memory[k]
  {
  }

  /** After all stores every site holds its own field, whatever the order, and
      every byte outside the sites is as it was. */
  lemma {:induction false} StoreAllAt(memory: seq<Byte>, sites: seq<Site>, k: nat)
    requires AllInBounds(sites, |memory|) && SitesApart(sites) && k < |memory|
    ensures forall i :: 0 <= i < |sites| && sites[i].at <= k < sites[i].at + |sites[i].bytes| ==>
              StoreAll(memory, sites)[k] == sites[i].bytes[k - sites[i].at]
    ensures (forall i :: 0 <= i < |sites| ==> !(sites[i].at <= k < sites[i].at + |sites[i].bytes|)) ==>
              StoreAll(memory, sites)[k] == memory[k]
    decreases |sites|
  {
    if sites != [] {
      var rest, last := sites[..|sites| - 1], sites[|sites| - 1];
      assert InBounds(last, |memory|);
      assert forall i :: 0 <= i < |rest| ==> rest[i] == sites[i];
      StoreAllAt(memory, rest, k);
      StoreAt(StoreAll(memory, rest), last, k);
    }
  }
}
