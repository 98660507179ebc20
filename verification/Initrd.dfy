/**
 kernel/initrd.cpp: walking a ustar archive ("ustar Interchange Format", pax
 utility, IEEE Std 1003.1). A header is 512 bytes: the name first, in a field of
 100 bytes, the mode as octal digits at 100, the size as octal digits at 124, the
 type at 156; the data follows, padded to a block.
 */
module Initrd {
  import opened Basics

  const BLOCK: nat := 512
  const MODE_AT: nat := 100
  const MODE_DIGITS: nat := 7
  const SIZE_AT: nat := 124
  const SIZE_LENGTH: nat := 12
  const TYPE_AT: nat := 156
  const DIGITS: nat := 11

  // ------------------------------------------------------------------ octal

  predicate IsDigit(b: Byte) {
    48 <= b <= 55
  }

  /** parse_octal, from a value already read. */
  function Parse(value: nat, text: seq<Byte>): nat
    decreases |text|
  {
    if text == [] || !IsDigit(text[0]) then value else Parse(value * 8 + (text[0] - 48), text[1..])
  }

  method ParseOctal(text: seq<Byte>) returns (value: nat)
    ensures value == Parse(0, text)
  {
    value := 0;
    var i := 0;
    while i < |text| && IsDigit(text[i])
      invariant i <= |text| && Parse(value, text[i..]) == Parse(0, text)
    {
      assert text[i..][1..] == text[i + 1..];
      value := value * 8 + (text[i] - 48);
      i := i + 1;
    }
  }

  function Power8(n: nat): nat {
    if n == 0 then 1 else 8 * Power8(n - 1)
  }

  /** n in w octal digits. */
  function Octal(n: nat, w: nat): (t: seq<Byte>)
    ensures |t| == w
    decreases w
  {
    if w == 0 then [] else Octal(n / 8, w - 1) + [48 + n % 8]
  }

  /** Parsing inverts printing, and goes on with what follows the digits. */
  lemma {:induction false} ParseInvertsPrint(n: nat, w: nat, rest: seq<Byte>)
    requires n < Power8(w)
    ensures Parse(0, Octal(n, w) + rest) == Parse(n, rest)
    decreases w
  {
    if w == 0 {
      assert Octal(n, w) + rest == rest;
    } else {
      var more := [48 + n % 8] + rest;
      assert Octal(n, w) + rest == Octal(n / 8, w - 1) + more;
      ParseInvertsPrint(n / 8, w - 1, more);
      assert more[1..] == rest;
    }
  }

  // ------------------------------------------------------------------- walk

  function RoundToBlock(n: nat): (r: nat)
    ensures n <= r < n + BLOCK && r % BLOCK == 0
  {
    (n + BLOCK - 1) / BLOCK * BLOCK
  }

  /** entry_at: the size of the entry at an offset, if there is one. */
  function EntryAt(archive: seq<Byte>, at: nat): (size: Option<nat>)
    ensures size.Some? ==> at + BLOCK + size.value <= |archive|
  {
    if at + BLOCK > |archive| || archive[at] == 0 then None
    else
      var size := Parse(0, archive[at + SIZE_AT..at + SIZE_AT + SIZE_LENGTH]);
      if at + BLOCK + size <= |archive| then Some(size) else None
  }

  predicate IsRegular(archive: seq<Byte>, at: nat)
    requires at + BLOCK <= |archive|
  {
    archive[at + TYPE_AT] == 48 || archive[at + TYPE_AT] == 0
  }

  /** A file found: where its header is, and its size. */
  datatype Found = Found(header: nat, size: nat)

  /** The regular files from an offset on. The walk ends on every archive. */
  function Regulars(archive: seq<Byte>, at: nat): seq<Found>
    decreases if at <= |archive| then |archive| - at else 0
  {
    var size := EntryAt(archive, at);
    if size.None? then []
    else
      var rest := Regulars(archive, at + BLOCK + RoundToBlock(size.value));
      if IsRegular(archive, at) then [Found(at, size.value)] + rest else rest
  }

  lemma RegularsStep(archive: seq<Byte>, at: nat)
    ensures EntryAt(archive, at).None? ==> Regulars(archive, at) == []
    ensures EntryAt(archive, at).Some? ==>
              var size := EntryAt(archive, at).value;
              var rest := Regulars(archive, at + BLOCK + RoundToBlock(size));
              Regulars(archive, at) == if IsRegular(archive, at) then [Found(at, size)] + rest else rest
  {
  }

  /** The loop of initrd_init. */
  method CountFiles(archive: seq<Byte>) returns (count: nat)
    ensures count == |Regulars(archive, 0)|
  {
    hide Regulars;
    count := 0;
    var at := 0;
    var size := EntryAt(archive, at);
    while size.Some?
      invariant size == EntryAt(archive, at) && count + |Regulars(archive, at)| == |Regulars(archive, 0)|
      decreases if at <= |archive| then |archive| - at else 0
    {
      RegularsStep(archive, at);
      if IsRegular(archive, at) {
        count := count + 1;
      }
      at := at + BLOCK + RoundToBlock(size.value);
      size := EntryAt(archive, at);
    }
    RegularsStep(archive, at);
  }

  /** initrd_data_at: the index-th regular file, null exactly past the last one. */
  method DataAt(archive: seq<Byte>, index: nat) returns (found: Option<Found>)
    ensures found == if index < |Regulars(archive, 0)| then Some(Regulars(archive, 0)[index]) else None
  {
    hide Regulars, EntryAt;
    ghost var before: seq<Found> := [];
    var at, seen := 0, 0;
    var size := EntryAt(archive, at);
    assert before + Regulars(archive, at) == Regulars(archive, 0);
    while size.Some?
      invariant size == EntryAt(archive, at) && seen == |before| <= index
                && before + Regulars(archive, at) == Regulars(archive, 0)
      decreases if at <= |archive| then |archive| - at else 0
    {
      var next := at + BLOCK + RoundToBlock(size.value);
      RegularsStep(archive, at);
      if IsRegular(archive, at) {
        if seen == index {
          return Some(Found(at, size.value));
        }
        assert before + Regulars(archive, at) == (before + [Found(at, size.value)]) + Regulars(archive, next);
        before := before + [Found(at, size.value)];
        seen := seen + 1;
      }
      at := next;
      size := EntryAt(archive, at);
    }
    RegularsStep(archive, at);
    found := None;
  }

  // ------------------------------------------------------------------ names

  /** The text is at the offset, byte for byte. */
  predicate TextAt(archive: seq<Byte>, at: nat, text: seq<Byte>) {
    at + |text| <= |archive| && forall x :: at <= x < at + |text| ==> archive[x] == text[x - at]
  }

  ghost predicate NoZero(text: seq<Byte>) {
    forall k :: 0 <= k < |text| ==> text[k] != 0
  }

  /** The C string at the offset is s: its bytes, then a zero. */
  ghost predicate StringAt(archive: seq<Byte>, at: nat, s: seq<Byte>) {
    TextAt(archive, at, s) && NoZero(s) && at + |s| < |archive| && archive[at + |s|] == 0
  }

  lemma OneString(archive: seq<Byte>, at: nat, s: seq<Byte>, t: seq<Byte>)
    requires StringAt(archive, at, s) && StringAt(archive, at, t)
    ensures s == t
  {
    assert forall x :: at <= x < at + |s| ==> archive[x] != 0;
    assert forall x :: at <= x < at + |t| ==> archive[x] != 0;
    assert |s| == |t|;
    forall k | 0 <= k < |s|
      ensures s[k] == t[k]
    {
      assert archive[at + k] == s[at + k - at];
    }
  }

  const SLASH: Byte := 47
  const DOT_KO: seq<Byte> := [46, 107, 111]

  /** s[i..] is what follows the last slash. */
  ghost predicate BaseFrom(s: seq<Byte>, i: nat) {
    i <= |s| && (forall x :: i <= x < |s| ==> s[x] != SLASH) && (i > 0 ==> s[i - 1] == SLASH)
  }

  lemma OneBase(s: seq<Byte>, i: nat, j: nat)
    requires BaseFrom(s, i) && BaseFrom(s, j)
    ensures i == j
  {
  }

  /** The name without its directories. */
  function BaseName(s: seq<Byte>): (b: seq<Byte>)
    ensures |b| <= |s| && b == s[|s| - |b|..] && BaseFrom(s, |s| - |b|)
    decreases |s|
  {
    if s == [] || s[|s| - 1] == SLASH then []
    else
      var b := BaseName(s[..|s| - 1]) + [s[|s| - 1]];
      b
  }

  /** The files a lookup finds: by base name, with or without ".ko". */
  predicate Matches(stored: seq<Byte>, wanted: seq<Byte>) {
    BaseName(stored) == wanted || BaseName(stored) == wanted + DOT_KO
  }

  /** The path leads to the file of this name, in whatever directory. */
  ghost predicate LeadsTo(path: seq<Byte>, file: seq<Byte>) {
    exists i: nat :: i <= |path| && path[i..] == file && (i == 0 || path[i - 1] == SLASH)
  }

  ghost predicate NoSlash(text: seq<Byte>) {
    forall k :: 0 <= k < |text| ==> text[k] != SLASH
  }

  /** What matches: a path that leads to a file of the name, or of the name and
      ".ko", the name being one without directories. */
  lemma MatchesIff(stored: seq<Byte>, wanted: seq<Byte>)
    ensures Matches(stored, wanted) <==>
            NoSlash(wanted) && (LeadsTo(stored, wanted) || LeadsTo(stored, wanted + [46, 107, 111]))
  {
    hide BaseName, LeadsTo, NoSlash;
    BaseIff(stored, wanted);
    BaseIff(stored, wanted + DOT_KO);
    NoSlashAdded(wanted);
  }

  lemma NoSlashAdded(text: seq<Byte>)
    ensures NoSlash(text + DOT_KO) <==> NoSlash(text)
  {
    assert forall k :: 0 <= k < |text| ==> (text + DOT_KO)[k] == text[k];
  }

  lemma BaseIff(stored: seq<Byte>, file: seq<Byte>)
    ensures BaseName(stored) == file <==> NoSlash(file) && LeadsTo(stored, file)
  {
    hide BaseName, LeadsTo, NoSlash, BaseFrom;
    BaseLeads(stored);
    if NoSlash(file) && LeadsTo(stored, file) {
      LeadsToBase(stored, file);
    }
  }

  lemma BaseLeads(stored: seq<Byte>)
    ensures NoSlash(BaseName(stored)) && LeadsTo(stored, BaseName(stored))
  {
    hide BaseName;
    var b := BaseName(stored);
    var i := |stored| - |b|;
    assert stored[i..] == b;
  }

  lemma LeadsToBase(stored: seq<Byte>, file: seq<Byte>)
    requires NoSlash(file) && LeadsTo(stored, file)
    ensures BaseName(stored) == file
  {
    hide BaseName;
    var i: nat :| i <= |stored| && stored[i..] == file && (i == 0 || stored[i - 1] == SLASH);
    assert forall x :: i <= x < |stored| ==> stored[x] == file[x - i];
    OneBase(stored, i, |stored| - |BaseName(stored)|);
  }

  /** name_matches, on the bytes of a header whose name is `stored`. */
  method NameMatches(archive: seq<Byte>, at: nat, wanted: seq<Byte>, ghost stored: seq<Byte>) returns (same: bool)
    requires StringAt(archive, at, stored) && NoZero(wanted)
    ensures same <==> Matches(stored, wanted)
  {
    hide TextAt, NoZero, BaseName;
    var base, p := at, at;
    while archive[p] != 0
      invariant at <= base <= p <= at + |stored|
      invariant (forall x :: base <= x < p ==> archive[x] != SLASH) && (base > at ==> archive[base - 1] == SLASH)
      decreases at + |stored| - p
    {
      if archive[p] == SLASH {
        base := p + 1;
      }
      p := p + 1;
    }
    NameEnds(archive, at, stored, base, p);
    Comparisons(archive, base, stored[base - at..], wanted);
    if !TextAt(archive, base, wanted) {
      return false;
    }
    var rest := base + |wanted|;
    same := TextAt(archive, rest, [0]) || TextAt(archive, rest, DOT_KO + [0]);
  }

  lemma NameEnds(archive: seq<Byte>, at: nat, stored: seq<Byte>, base: nat, p: nat)
    requires StringAt(archive, at, stored) && at <= base <= p <= at + |stored| && archive[p] == 0
    requires (forall x :: base <= x < p ==> archive[x] != SLASH) && (base > at ==> archive[base - 1] == SLASH)
    ensures p == at + |stored| && stored[base - at..] == BaseName(stored)
            && StringAt(archive, base, stored[base - at..])
  {
    hide StringAt, BaseFrom, BaseName;
    StringStops(archive, at, stored, p);
    StringSlashes(archive, at, stored, base);
    StringSuffix(archive, at, stored, base - at);
    OneBase(stored, base - at, |stored| - |BaseName(stored)|);
  }

  lemma StringStops(archive: seq<Byte>, at: nat, s: seq<Byte>, p: nat)
    requires StringAt(archive, at, s) && at <= p <= at + |s| && archive[p] == 0
    ensures p == at + |s|
  {
  }

  lemma StringSlashes(archive: seq<Byte>, at: nat, s: seq<Byte>, base: nat)
    requires StringAt(archive, at, s) && at <= base <= at + |s|
    requires (forall x :: base <= x < at + |s| ==> archive[x] != SLASH) && (base > at ==> archive[base - 1] == SLASH)
    ensures BaseFrom(s, base - at)
  {
    forall k | base - at <= k < |s|
      ensures s[k] != SLASH
    {
      assert archive[at + k] == s[at + k - at];
    }
    assert base > at ==> archive[base - 1] == s[base - 1 - at];
  }

  lemma StringSuffix(archive: seq<Byte>, at: nat, s: seq<Byte>, i: nat)
    requires StringAt(archive, at, s) && i <= |s|
    ensures StringAt(archive, at + i, s[i..])
  {
    forall x | at + i <= x < at + |s|
      ensures archive[x] == s[i..][x - (at + i)]
    {
      assert archive[x] == s[x - at];
    }
  }

  /** What the two comparisons with the bytes say about the name. */
  lemma Comparisons(archive: seq<Byte>, base: nat, name: seq<Byte>, wanted: seq<Byte>)
    requires StringAt(archive, base, name) && NoZero(wanted)
    ensures TextAt(archive, base, wanted) && TextAt(archive, base + |wanted|, [0]) <==> name == wanted
    ensures TextAt(archive, base, wanted) && TextAt(archive, base + |wanted|, DOT_KO + [0]) <==> name == wanted + DOT_KO
  {
    WholeName(archive, base, name, wanted);
    WholeName(archive, base, name, wanted + DOT_KO);
    SplitText(archive, base, wanted, [0]);
    SplitText(archive, base, wanted, DOT_KO + [0]);
    assert wanted + (DOT_KO + [0]) == (wanted + DOT_KO) + [0];
  }

  lemma SplitText(archive: seq<Byte>, base: nat, a: seq<Byte>, b: seq<Byte>)
    ensures TextAt(archive, base, a + b) <==> TextAt(archive, base, a) && TextAt(archive, base + |a|, b)
  {
    if TextAt(archive, base, a + b) {
      forall x | base <= x < base + |a|
        ensures archive[x] == a[x - base]
      {
        assert archive[x] == (a + b)[x - base];
      }
      forall x | base + |a| <= x < base + |a| + |b|
        ensures archive[x] == b[x - (base + |a|)]
      {
        assert archive[x] == (a + b)[x - base];
      }
    }
  }

  lemma WholeName(archive: seq<Byte>, base: nat, name: seq<Byte>, text: seq<Byte>)
    requires StringAt(archive, base, name) && NoZero(text)
    ensures TextAt(archive, base, text + [0]) <==> name == text
  {
    SplitText(archive, base, text, [0]);
    if TextAt(archive, base, text + [0]) {
      assert archive[base + |text|] == [0][base + |text| - (base + |text|)];
      OneString(archive, base, name, text);
    }
  }

  /** There is a zero byte at or behind the offset. */
  ghost predicate Ends(archive: seq<Byte>, at: nat) {
    exists z :: at <= z < |archive| && archive[z] == 0
  }

  /** The C string at an offset. */
  function NameAt(archive: seq<Byte>, at: nat): seq<Byte>
    decreases |archive| - at
  {
    if at >= |archive| || archive[at] == 0 then [] else [archive[at]] + NameAt(archive, at + 1)
  }

  lemma {:induction false} NameAtIs(archive: seq<Byte>, at: nat)
    requires Ends(archive, at)
    ensures StringAt(archive, at, NameAt(archive, at))
    decreases |archive| - at
  {
    if archive[at] != 0 {
      var z :| at <= z < |archive| && archive[z] == 0;
      assert at + 1 <= z;
      NameAtIs(archive, at + 1);
      var rest := NameAt(archive, at + 1);
      forall x | at <= x < at + 1 + |rest|
        ensures archive[x] == ([archive[at]] + rest)[x - at]
      {
        assert x > at ==> archive[x] == rest[x - (at + 1)];
      }
    }
  }

  lemma StringIsName(archive: seq<Byte>, at: nat, s: seq<Byte>)
    requires StringAt(archive, at, s)
    ensures Ends(archive, at) && NameAt(archive, at) == s
  {
    assert archive[at + |s|] == 0;
    NameAtIs(archive, at);
    OneString(archive, at, s, NameAt(archive, at));
  }

  /** The name of every file ends inside the archive. */
  ghost predicate Terminated(archive: seq<Byte>, found: seq<Found>) {
    forall f :: f in found ==> Ends(archive, f.header)
  }

  function FirstTrue(hits: seq<bool>): (i: nat)
    ensures i <= |hits| && (i < |hits| ==> hits[i]) && forall k :: 0 <= k < i ==> !hits[k]
  {
    if hits == [] || hits[0] then 0 else 1 + FirstTrue(hits[1..])
  }

  /** Which of the files match. */
  function Hits(archive: seq<Byte>, found: seq<Found>, wanted: seq<Byte>): (hits: seq<bool>)
    ensures |hits| == |found| && forall k :: 0 <= k < |found| ==>
            hits[k] == Matches(NameAt(archive, found[k].header), wanted)
  {
    seq(|found|, k requires 0 <= k < |found| => Matches(NameAt(archive, found[k].header), wanted))
  }

  /** The index of the first file whose name matches, or the length. */
  function FirstMatch(archive: seq<Byte>, found: seq<Found>, wanted: seq<Byte>): nat {
    FirstTrue(Hits(archive, found, wanted))
  }

  lemma FirstMatchFrom(archive: seq<Byte>, found: seq<Found>, wanted: seq<Byte>)
    requires found != []
    ensures Matches(NameAt(archive, found[0].header), wanted) ==> FirstMatch(archive, found, wanted) == 0
    ensures !Matches(NameAt(archive, found[0].header), wanted) ==>
              FirstMatch(archive, found, wanted) == 1 + FirstMatch(archive, found[1..], wanted)
  {
    hide Matches;
    assert Hits(archive, found, wanted)[1..] == Hits(archive, found[1..], wanted);
  }

  /** initrd_find: the first regular file that matches, null if none does. */
  method FindFile(archive: seq<Byte>, wanted: seq<Byte>) returns (found: Option<Found>)
    requires NoZero(wanted) && Terminated(archive, Regulars(archive, 0))
    ensures var i := FirstMatch(archive, Regulars(archive, 0), wanted);
            found == if i < |Regulars(archive, 0)| then Some(Regulars(archive, 0)[i]) else None
  {
    hide Regulars, EntryAt, Matches, StringAt, FirstMatch, Ends, NameAt;
    ghost var all, seen := Regulars(archive, 0), 0;
    var at := 0;
    var size := EntryAt(archive, at);
    while size.Some?
      invariant size == EntryAt(archive, at) && seen <= |all| && Regulars(archive, at) == all[seen..]
      invariant FirstMatch(archive, all, wanted) == seen + FirstMatch(archive, Regulars(archive, at), wanted)
      decreases if at <= |archive| then |archive| - at else 0
    {
      RegularsStep(archive, at);
      if IsRegular(archive, at) {
        assert all[seen..][0] == all[seen] && all[seen] in all && all[seen..][1..] == all[seen + 1..];
        FirstMatchFrom(archive, all[seen..], wanted);
        NameAtIs(archive, at);
        var same := NameMatches(archive, at, wanted, NameAt(archive, at));
        if same {
          return Some(Found(at, size.value));
        }
        seen := seen + 1;
      }
      at := at + BLOCK + RoundToBlock(size.value);
      size := EntryAt(archive, at);
    }
    RegularsStep(archive, at);
    found := None;
  }

  // ------------------------------------------------------------ round trip

  /** What is packed: a name, the digits of the mode, a type byte and the data. */
  datatype File = File(name: seq<Byte>, mode: seq<Byte>, kind: Byte, data: seq<Byte>)

  /** A name that fits its field, and a mode. */
  ghost predicate Named(f: File) {
    && 0 < |f.name| <= MODE_AT && NoZero(f.name)
    && |f.mode| == MODE_DIGITS && forall k :: 0 <= k < MODE_DIGITS ==> IsDigit(f.mode[k])
  }

  /** The C string that starts at the name: a name that fills its field has no zero
      behind it, and runs on into the mode. */
  function StoredName(f: File): seq<Byte> {
    if |f.name| < MODE_AT then f.name else f.name + f.mode
  }

  /** What a lookup must ask for to be given this file. */
  predicate Answers(f: File, wanted: seq<Byte>) {
    if |f.name| < MODE_AT then Matches(f.name, wanted) else wanted == BaseName(f.name) + f.mode
  }

  lemma StoredMatches(f: File, wanted: seq<Byte>)
    requires Named(f)
    ensures Matches(StoredName(f), wanted) <==> Answers(f, wanted)
  {
    if |f.name| == MODE_AT {
      BaseBehind(f.name, f.mode);
      assert BaseName(StoredName(f)) == BaseName(f.name) + f.mode;
      var b, w := BaseName(f.name) + f.mode, wanted + DOT_KO;
      assert b[|b| - 1] == f.mode[MODE_DIGITS - 1];
      assert w[|w| - 1] == 111;
    }
  }

  /** Behind a name without a slash the base name goes on. */
  lemma BaseBehind(s: seq<Byte>, t: seq<Byte>)
    requires forall k :: 0 <= k < |t| ==> t[k] != SLASH
    ensures BaseName(s + t) == BaseName(s) + t
  {
    var b := BaseName(s);
    assert (s + t)[|s| - |b|..] == b + t;
    OneBase(s + t, |s| - |b|, |s + t| - |BaseName(s + t)|);
  }

  /** A file can be found under its own base name if and only if its name is
      shorter than the field. */
  lemma FoundByNameIff(f: File)
    requires Named(f)
    ensures Matches(StoredName(f), BaseName(f.name)) <==> |f.name| < MODE_AT
  {
    StoredMatches(f, BaseName(f.name));
  }

  /** A hundred letters: the file answers to its name and its mode, not to its name. */
  lemma LongNameExample()
    ensures var f := File(seq(100, _ => 97), [48, 48, 48, 48, 54, 52, 52], 48, []);
            && Packable(f) && BaseName(f.name) == f.name
            && !Answers(f, f.name) && Answers(f, f.name + [48, 48, 48, 48, 54, 52, 52])
  {
    var name: seq<Byte> := seq(100, _ => 97);
    OneBase(name, 0, |name| - |BaseName(name)|);
    assert 0 < Power8(DIGITS);
  }

  predicate Regular(f: File) {
    f.kind == 48 || f.kind == 0
  }

  /** The header at an offset describes the file; the fields the reader does
      not look at may hold anything. */
  ghost predicate HeaderOf(archive: seq<Byte>, at: nat, f: File) {
    && at + BLOCK <= |archive|
    && Named(f) && StringAt(archive, at, StoredName(f))
    && |f.data| < Power8(DIGITS) && TextAt(archive, at + SIZE_AT, Octal(|f.data|, DIGITS) + [0])
    && archive[at + TYPE_AT] == f.kind
  }

  /** From this offset on the archive is a packing of these files. */
  ghost predicate Packs(archive: seq<Byte>, at: nat, files: seq<File>)
    decreases |files|
  {
    if files == [] then at + BLOCK > |archive| || archive[at] == 0
    else
      && at + BLOCK + |files[0].data| <= |archive| && HeaderOf(archive, at, files[0])
        && TextAt(archive, at + BLOCK, files[0].data)
      && Packs(archive, at + BLOCK + RoundToBlock(|files[0].data|), files[1..])
  }

  lemma PackedEntry(archive: seq<Byte>, at: nat, f: File)
    requires HeaderOf(archive, at, f) && at + BLOCK + |f.data| <= |archive|
    ensures EntryAt(archive, at) == Some(|f.data|)
  {
    var text := archive[at + SIZE_AT..at + SIZE_AT + SIZE_LENGTH];
    var printed := Octal(|f.data|, DIGITS) + [0];
    forall k | 0 <= k < SIZE_LENGTH
      ensures text[k] == printed[k]
    {
      assert archive[at + SIZE_AT + k] == printed[at + SIZE_AT + k - (at + SIZE_AT)];
    }
    assert text == printed;
    ParseInvertsPrint(|f.data|, DIGITS, [0]);
    assert archive[at] == StoredName(f)[at - at];
  }

  function RegularFiles(files: seq<File>): seq<File> {
    if files == [] then [] else if Regular(files[0]) then [files[0]] + RegularFiles(files[1..])
       else RegularFiles(files[1..])
  }

  /** The walker found this file: its name, and its exact bytes. */
  ghost predicate IsFile(archive: seq<Byte>, found: Found, f: File) {
    && Named(f) && StringAt(archive, found.header, StoredName(f))
    && found.size == |f.data| && TextAt(archive, found.header + BLOCK, f.data)
  }

  /** File by file, in order. */
  ghost predicate Unpacked(archive: seq<Byte>, found: seq<Found>, files: seq<File>) {
    |found| == |files| && forall i :: 0 <= i < |files| ==> IsFile(archive, found[i], files[i])
  }

  /** Unpacking inverts packing: the i-th regular file the walker finds is the
      i-th regular file packed, and there are no others. */
  lemma {:induction false} WalkInvertsPack(archive: seq<Byte>, at: nat, files: seq<File>)
    requires Packs(archive, at, files)
    ensures Unpacked(archive, Regulars(archive, at), RegularFiles(files))
    decreases |files|
  {
    hide Regulars, TextAt, HeaderOf, EntryAt, Unpacked;
    RegularsStep(archive, at);
    if files == [] {
      NoEntry(archive, at);
      NothingUnpacked(archive);
      return;
    }
    var f := files[0];
    var next := at + BLOCK + RoundToBlock(|f.data|);
    PackedEntry(archive, at, f);
    PackedHeader(archive, at, f);
    WalkInvertsPack(archive, next, files[1..]);
    Prepend(archive, at, f, Regulars(archive, next), RegularFiles(files[1..]));
  }

  lemma NoEntry(archive: seq<Byte>, at: nat)
    requires at + BLOCK > |archive| || archive[at] == 0
    ensures EntryAt(archive, at).None?
  {
  }

  lemma PackedHeader(archive: seq<Byte>, at: nat, f: File)
    requires HeaderOf(archive, at, f) && TextAt(archive, at + BLOCK, f.data)
    ensures IsFile(archive, Found(at, |f.data|), f) && at + BLOCK <= |archive|
            && (IsRegular(archive, at) <==> Regular(f))
  {
    hide Octal, Power8, StringAt, TextAt, Named;
  }

  lemma NothingUnpacked(archive: seq<Byte>)
    ensures Unpacked(archive, [], [])
  {
  }

  lemma Prepend(archive: seq<Byte>, at: nat, f: File, rest: seq<Found>, left: seq<File>)
    requires Unpacked(archive, rest, left) && IsFile(archive, Found(at, |f.data|), f)
    ensures Unpacked(archive, [Found(at, |f.data|)] + rest, [f] + left)
  {
    hide IsFile;
  }

  /** Which of the files packed match. */
  function FileHits(files: seq<File>, wanted: seq<Byte>): (hits: seq<bool>)
    ensures |hits| == |files| && forall k :: 0 <= k < |files| ==> hits[k] == Answers(files[k], wanted)
  {
    seq(|files|, k requires 0 <= k < |files| => Answers(files[k], wanted))
  }

  /** In a packed archive names end, and the first match is the first regular
      file packed that answers to the name, if any: whose base name is the name or
      the name and ".ko", unless it fills its field. */
  lemma FindInvertsPack(archive: seq<Byte>, files: seq<File>, wanted: seq<Byte>)
    requires Packs(archive, 0, files)
    ensures Terminated(archive, Regulars(archive, 0)) && |Regulars(archive, 0)| == |RegularFiles(files)|
    ensures FirstMatch(archive, Regulars(archive, 0), wanted) == FirstTrue(FileHits(RegularFiles(files), wanted))
    ensures forall k :: 0 <= k < |RegularFiles(files)| ==> IsFile(archive, Regulars(archive, 0)[k],
                                                                  RegularFiles(files)[k])
  {
    hide Packs, Regulars, Matches, StringAt, TextAt, RegularFiles, Ends, NameAt, Named, Answers, StoredName;
    WalkInvertsPack(archive, 0, files);
    var found, packed := Regulars(archive, 0), RegularFiles(files);
    forall k | 0 <= k < |found|
      ensures Ends(archive, found[k].header) && NameAt(archive, found[k].header) == StoredName(packed[k])
      ensures Matches(StoredName(packed[k]), wanted) <==> Answers(packed[k], wanted)
    {
      assert IsFile(archive, found[k], packed[k]);
      StringIsName(archive, found[k].header, StoredName(packed[k]));
      StoredMatches(packed[k], wanted);
    }
    assert Hits(archive, found, wanted) == FileHits(packed, wanted);
  }

  // ------------------------------------------------------------ the packer

  function Nothing(n: nat): (z: seq<Byte>)
    ensures |z| == n && forall k :: 0 <= k < n ==> z[k] == 0
  {
    seq(n, _ => 0)
  }

  /** What ustar can hold: a name that fits its field, and eleven digits of size. */
  ghost predicate Packable(f: File) {
    Named(f) && |f.data| < Power8(DIGITS)
  }

  ghost predicate AllPackable(files: seq<File>) {
    forall k :: 0 <= k < |files| ==> Packable(files[k])
  }

  /** The size field and what follows it in a header. */
  function SizeAndType(f: File): (h: seq<Byte>)
    ensures |h| == BLOCK - SIZE_AT
  {
    (Octal(|f.data|, DIGITS) + [0])
    + (Nothing(TYPE_AT - SIZE_AT - SIZE_LENGTH) + ([f.kind] + Nothing(BLOCK - TYPE_AT - 1)))
  }

  /** The mode field and what follows it up to the size. */
  function ModeAndIds(f: File): (h: seq<Byte>)
    ensures |f.mode| == MODE_DIGITS ==> |h| == SIZE_AT - MODE_AT
  {
    f.mode + ([0] + Nothing(SIZE_AT - MODE_AT - MODE_DIGITS - 1))
  }

  /** A header: name, mode, size and type, and zeros in the other fields. */
  function Header(f: File): (h: seq<Byte>)
    requires |f.name| <= MODE_AT && |f.mode| == MODE_DIGITS
    ensures |h| == BLOCK
  {
    f.name + (Nothing(MODE_AT - |f.name|) + (ModeAndIds(f) + SizeAndType(f)))
  }

  function Padding(f: File): seq<Byte> {
    Nothing(RoundToBlock(|f.data|) - |f.data|)
  }

  /** The archive of a list of files: each padded to a block, and two empty blocks. */
  ghost function Pack(files: seq<File>): seq<Byte>
    requires AllPackable(files)
  {
    if files == [] then Nothing(2 * BLOCK)
    else Header(files[0]) + (files[0].data + (Padding(files[0]) + Pack(files[1..])))
  }

  /** Every list of files that ustar can hold has an archive. */
  lemma PackPacks(files: seq<File>)
    requires AllPackable(files)
    ensures Packs(Pack(files), 0, files)
  {
    PacksBehind([], files);
    assert [] + Pack(files) == Pack(files);
  }

  lemma {:induction false} PacksBehind(prefix: seq<Byte>, files: seq<File>)
    requires AllPackable(files)
    ensures Packs(prefix + Pack(files), |prefix|, files)
    decreases |files|
  {
    hide HeaderOf, TextAt, RoundToBlock, Header, Padding;
    if files != [] {
      var f, rest := files[0], files[1..];
      assert Packable(f);
      var next := prefix + Header(f) + f.data + Padding(f);
      PacksBehind(next, rest);
      Regroup(prefix, Header(f), f.data, Padding(f), Pack(rest));
      OnePacked(prefix, f, Pack(rest));
    } else {
      assert (prefix + Nothing(2 * BLOCK))[|prefix|] == 0;
    }
  }

  lemma Regroup(a: seq<Byte>, b: seq<Byte>, c: seq<Byte>, d: seq<Byte>, e: seq<Byte>)
    ensures a + (b + (c + (d + e))) == a + b + c + d + e
  {
  }

  /** A packed file, wherever it lies. */
  lemma OnePacked(prefix: seq<Byte>, f: File, rest: seq<Byte>)
    requires Packable(f)
    ensures var archive := prefix + (Header(f) + (f.data + (Padding(f) + rest)));
            && |prefix| + BLOCK + |f.data| <= |archive| && HeaderOf(archive, |prefix|, f)
            && TextAt(archive, |prefix| + BLOCK, f.data)
    ensures |Padding(f)| == RoundToBlock(|f.data|) - |f.data|
  {
    hide HeaderOf, TextAt, Header;
    var behind := Padding(f) + rest;
    var archive := prefix + (Header(f) + (f.data + behind));
    Within(prefix, Header(f), f.data + behind);
    HeaderThere(archive, |prefix|, f);
    assert archive == (prefix + Header(f)) + (f.data + behind);
    Within(prefix + Header(f), f.data, behind);
  }

  lemma Within(a: seq<Byte>, b: seq<Byte>, c: seq<Byte>)
    ensures TextAt(a + (b + c), |a|, b)
  {
  }

  lemma HeaderThere(archive: seq<Byte>, at: nat, f: File)
    requires Packable(f) && TextAt(archive, at, Header(f))
    ensures HeaderOf(archive, at, f)
  {
    hide TextAt, SizeAndType, ModeAndIds, Power8;
    var gap, behind := Nothing(MODE_AT - |f.name|), ModeAndIds(f) + SizeAndType(f);
    SplitText(archive, at, f.name, gap + behind);
    SplitText(archive, at + |f.name|, gap, behind);
    assert at + |f.name| + |gap| == at + MODE_AT;
    SplitText(archive, at + MODE_AT, ModeAndIds(f), SizeAndType(f));
    assert at + MODE_AT + |ModeAndIds(f)| == at + SIZE_AT;
    FieldsThere(archive, at, f);
    StoredThere(archive, at, f);
  }

  /** The name, as a C string, ends behind its last byte or behind the mode. */
  lemma StoredThere(archive: seq<Byte>, at: nat, f: File)
    requires Named(f) && TextAt(archive, at, f.name) && TextAt(archive, at + MODE_AT, ModeAndIds(f))
    requires TextAt(archive, at + |f.name|, Nothing(MODE_AT - |f.name|))
    ensures StringAt(archive, at, StoredName(f))
  {
    hide TextAt;
    if |f.name| < MODE_AT {
      FirstByte(archive, at + |f.name|, Nothing(MODE_AT - |f.name|));
    } else {
      var behind := [0] + Nothing(SIZE_AT - MODE_AT - MODE_DIGITS - 1);
      SplitText(archive, at + MODE_AT, f.mode, behind);
      SplitText(archive, at, f.name, f.mode);
      FirstByte(archive, at + MODE_AT + MODE_DIGITS, behind);
    }
  }

  lemma FieldsThere(archive: seq<Byte>, at: nat, f: File)
    requires TextAt(archive, at + SIZE_AT, SizeAndType(f))
    ensures at + BLOCK <= |archive| && archive[at + TYPE_AT] == f.kind
    ensures TextAt(archive, at + SIZE_AT, Octal(|f.data|, DIGITS) + [0])
  {
    hide Octal;
    TextInside(archive, at + SIZE_AT, SizeAndType(f));
    hide TextAt;
    var size, gap := Octal(|f.data|, DIGITS) + [0], Nothing(TYPE_AT - SIZE_AT - SIZE_LENGTH);
    var tail := [f.kind] + Nothing(BLOCK - TYPE_AT - 1);
    SplitText(archive, at + SIZE_AT, size, gap + tail);
    assert at + SIZE_AT + |size| == at + SIZE_AT + SIZE_LENGTH;
    SplitText(archive, at + SIZE_AT + SIZE_LENGTH, gap, tail);
    assert at + SIZE_AT + SIZE_LENGTH + |gap| == at + TYPE_AT;
    FirstByte(archive, at + TYPE_AT, tail);
  }

  lemma TextInside(archive: seq<Byte>, at: nat, text: seq<Byte>)
    requires TextAt(archive, at, text)
    ensures at + |text| <= |archive|
  {
  }

  lemma FirstByte(archive: seq<Byte>, at: nat, text: seq<Byte>)
    requires TextAt(archive, at, text) && text != []
    ensures at < |archive| && archive[at] == text[0]
  {
    assert archive[at] == text[at - at];
  }

  /** initrd_find in the archive of any list of files: null exactly when no
      regular file answers to the name, and otherwise the first that does, byte
      for byte. */
  method FindPacked(archive: seq<Byte>, ghost files: seq<File>, wanted: seq<Byte>) returns (found: Option<Found>)
    requires AllPackable(files) && archive == Pack(files) && NoZero(wanted)
    ensures found.None? <==> forall f :: f in RegularFiles(files) ==> !Answers(f, wanted)
    ensures found.Some? ==>
              var i := FirstTrue(FileHits(RegularFiles(files), wanted));
              i < |RegularFiles(files)| && IsFile(archive, found.value, RegularFiles(files)[i])
  {
    hide Packs, Regulars, Answers, RegularFiles, IsFile, Pack, Terminated, FirstMatch, Packable, NoZero;
    PackPacks(files);
    FindInvertsPack(archive, files, wanted);
    found := FindFile(archive, wanted);
    NoneIsNone(RegularFiles(files), wanted);
  }

  lemma NoneIsNone(files: seq<File>, wanted: seq<Byte>)
    ensures FirstTrue(FileHits(files, wanted)) == |files| <==> forall f :: f in files ==> !Answers(f, wanted)
  {
    hide Answers;
    var i := FirstTrue(FileHits(files, wanted));
    if i < |files| {
      assert files[i] in files && Answers(files[i], wanted);
    }
  }
}
