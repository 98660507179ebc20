/**
 The 64-bit words behind `PageWalk.Pte`. Each bit expression of
 kernel/mm/paging.cpp acts on the fields of an entry exactly as the entry
 operations of the model do.
 */
module PteBits {
  import opened PageWalk

  const PRESENT: bv64 := 0x1
  const WRITE: bv64 := 0x2
  const USER: bv64 := 0x4
  const WRITE_THROUGH: bv64 := 0x8
  const NO_CACHE: bv64 := 0x10
  const HUGE: bv64 := 0x80
  const GLOBAL: bv64 := 0x100
  const NO_EXECUTE: bv64 := 0x8000_0000_0000_0000
  const ADDRESS: bv64 := 0x000F_FFFF_FFFF_F000

  /** encode. */
  function Encode(flags: PageFlags): bv64 {
    PRESENT
    | (if flags.write then WRITE else 0)
    | (if flags.user then USER else 0)
    | (if flags.noExecute then NO_EXECUTE else 0)
    | (if flags.global then GLOBAL else 0)
    | (if flags.noCache then NO_CACHE | WRITE_THROUGH else 0)
  }

  function FlagsOf(word: bv64): PageFlags {
    PageFlags(word & WRITE != 0, word & USER != 0, word & NO_EXECUTE != 0, word & GLOBAL != 0, word & NO_CACHE != 0)
  }

  /** A word stands for an entry with the given physical address. */
  predicate Stands(word: bv64, address: bv64, present: bool, huge: bool, bits: PageFlags) {
    && word & ADDRESS == address
    && (word & PRESENT != 0) == present
    && (word & HUGE != 0) == huge
    && FlagsOf(word) == bits
    && (word & WRITE_THROUGH != 0) == bits.noCache
  }

  /** Where the processor looks (Intel SDM Vol. 3A, section 4.5): bit 0 for present,
      1 for write, 2 for user, 3 and 4 for the cache, 7 for a large page, 8 for
      global, 63 for no-execute, 12 to 51 for the address. */
  lemma StandsInBits(word: bv64, address: bv64, present: bool, huge: bool, bits: PageFlags)
    requires Stands(word, address, present, huge, bits)
    ensures (word & 0x1 != 0) == present && (word & 0x2 != 0) == bits.write && (word & 0x4 != 0) == bits.user
    ensures (word & 0x8 != 0) == (word & 0x10 != 0) == bits.noCache
    ensures (word & 0x80 != 0) == huge && (word & 0x100 != 0) == bits.global
    ensures (word & 0x8000_0000_0000_0000 != 0) == bits.noExecute && word & 0x000F_FFFF_FFFF_F000 == address
  {
  }

  lemma EncodeFields(flags: PageFlags)
    ensures Stands(Encode(flags), 0, true, false, flags)
  {
    var w: bv64 := if flags.write then WRITE else 0;
    var u: bv64 := if flags.user then USER else 0;
    var x: bv64 := if flags.noExecute then NO_EXECUTE else 0;
    var g: bv64 := if flags.global then GLOBAL else 0;
    var c: bv64 := if flags.noCache then NO_CACHE | WRITE_THROUGH else 0;
    SumFields(w, u, x, g, c);
  }

  lemma SumFields(w: bv64, u: bv64, x: bv64, g: bv64, c: bv64)
    requires w & WRITE == w && u & USER == u && x & NO_EXECUTE == x && g & GLOBAL == g
             && c & (NO_CACHE | WRITE_THROUGH) == c
    ensures var word := PRESENT | w | u | x | g | c;
            && word & ADDRESS == 0 && word & PRESENT != 0 && word & HUGE == 0
            && word & WRITE == w && word & USER == u && word & NO_EXECUTE == x && word & GLOBAL == g
            && word & NO_CACHE == c & NO_CACHE && word & WRITE_THROUGH == c & WRITE_THROUGH
  {
  }

  /** Address bits and flag bits do not disturb each other. */
  lemma JoinFields(physical: bv64, low: bv64, present: bool, huge: bool, bits: PageFlags)
    requires Stands(low, 0, present, huge, bits)
    ensures Stands((physical & ADDRESS) | low, physical & ADDRESS, present, huge, bits)
  {
    AddressJoins(physical, low);
    FlagJoins(physical, low, PRESENT);
    FlagJoins(physical, low, HUGE);
    FlagJoins(physical, low, WRITE);
    FlagJoins(physical, low, USER);
    FlagJoins(physical, low, NO_EXECUTE);
    FlagJoins(physical, low, GLOBAL);
    FlagJoins(physical, low, NO_CACHE);
    FlagJoins(physical, low, WRITE_THROUGH);
  }

  lemma AddressJoins(physical: bv64, low: bv64)
    requires low & ADDRESS == 0
    ensures ((physical & ADDRESS) | low) & ADDRESS == physical & ADDRESS
  {
  }

  lemma FlagJoins(physical: bv64, low: bv64, flag: bv64)
    requires flag & ADDRESS == 0
    ensures ((physical & ADDRESS) | low) & flag == low & flag
  {
  }

  /** map: `((frame + offset) & mask) | encode(flags)` is LeafEntry. */
  lemma MapWord(physical: bv64, flags: PageFlags)
    ensures Stands((physical & ADDRESS) | Encode(flags), physical & ADDRESS, true, false, flags)
  {
    EncodeFields(flags);
    JoinFields(physical, Encode(flags), true, false, flags);
  }

  /** protect: `(entry & mask) | encode(flags)` keeps the address, takes the flags. */
  lemma ProtectWord(word: bv64, address: bv64, present: bool, huge: bool, bits: PageFlags, flags: PageFlags)
    requires Stands(word, address, present, huge, bits)
    ensures Stands((word & ADDRESS) | Encode(flags), address, true, false, flags)
  {
    MapWord(word, flags);
  }

  /** table_for: `frame | present | write` is TableEntry. */
  lemma TableWord(frame: bv64)
    requires frame & ADDRESS == frame
    ensures Stands(frame | PRESENT | WRITE, frame, true, false, TableEntry(0).bits)
  {
  }

  /** table_for: `entry |= pte_user` is WithUser. */
  lemma UserWord(word: bv64, address: bv64, present: bool, huge: bool, bits: PageFlags)
    requires Stands(word, address, present, huge, bits)
    ensures Stands(word | USER, address, present, huge, bits.(user := true))
  {
  }

  /** split_huge_page: `(base + i * page_size) | (entry & ~(mask | huge))` is
      entry i of SplitTable, while the 2 MiB page lies below 2^52. */
  lemma SplitWord(word: bv64, base: bv64, bits: PageFlags, i: bv64)
    requires Stands(word, base, true, true, bits)
    requires i < 512 && base <= 0x000F_FFFF_FFE0_0000
    ensures Stands((base + i * 4096) | (word & !(ADDRESS | HUGE)), base + i * 4096, true, false, bits)
  {
    var page := base + i * 4096;
    assert page & ADDRESS == page;
  }

  /** paging_init: a direct-map entry. */
  lemma DirectWord(frame: bv64)
    requires frame & ADDRESS == frame
    ensures Stands(frame | PRESENT | WRITE | HUGE | NO_EXECUTE, frame, true, true,
                   PageFlags(true, false, true, false, false))
  {
  }
}
