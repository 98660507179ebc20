/**
 Reading a file: BlockDevice::read_bytes of kernel/block/block.cpp and
 Ext2Inode::block_for and read of kernel/fs/ext2.cpp. A device is what each of
 its sectors reads as, or an error. `frames` is the number of free page frames
 when a call starts: every routine takes one for its buffer and gives it back.
 */
module Ext2 {
  import opened Basics
  import opened Relocation

  const SECTOR: nat := 512
  const PAGE: nat := 4096

  type Disk = nat -> Option<seq<Byte>>

  ghost predicate Sectors(disk: Disk) {
    forall s :: disk(s).Some? ==> |disk(s).value| == SECTOR
  }

  /** The byte at an address of the device, if its sector can be read. */
  function DiskByte(disk: Disk, x: nat): Option<Byte> {
    var s := disk(x / SECTOR);
    if s.Some? && x % SECTOR < |s.value| then Some(s.value[x % SECTOR]) else None
  }

  ghost predicate Readable(disk: Disk, x: nat, n: nat) {
    forall k: nat :: x <= k < x + n ==> DiskByte(disk, k).Some?
  }

  /** The bytes are those of the device from x on. */
  ghost predicate BytesOf(disk: Disk, x: nat, out: seq<Byte>) {
    forall k: nat :: x <= k < x + |out| ==> DiskByte(disk, k) == Some(out[k - x])
  }

  /** One sector's share of a read. */
  lemma SectorBytes(disk: Disk, x: nat, chunk: nat)
    requires Sectors(disk) && x % SECTOR + chunk <= SECTOR && chunk > 0
    ensures disk(x / SECTOR).None? ==> DiskByte(disk, x).None?
    ensures disk(x / SECTOR).Some? ==> BytesOf(disk, x, disk(x / SECTOR).value[x % SECTOR..x % SECTOR + chunk])
  {
    var s, r := x / SECTOR, x % SECTOR;
    forall k: nat | x <= k < x + chunk
      ensures k / SECTOR == s && k % SECTOR == r + (k - x)
    {
      assert k == SECTOR * s + (r + (k - x));
    }
  }

  /** read_bytes: all the bytes, or failure exactly when some sector they lie in
      cannot be read or there is no frame for the bounce buffer. */
  method ReadBytes(disk: Disk, offset: nat, length: nat, frames: nat) returns (ok: bool, out: seq<Byte>)
    requires Sectors(disk)
    ensures ok <==> frames > 0 && Readable(disk, offset, length)
    ensures ok ==> |out| == length && BytesOf(disk, offset, out)
  {
    out := [];
    if frames == 0 {
      return false, out;
    }
    var left := length;
    while left > 0
      invariant left >= 0 && |out| + left == length && BytesOf(disk, offset, out)
      decreases left
    {
      hide BytesOf;
      var x := offset + |out|;
      var inside := x % SECTOR;
      var chunk := if left < SECTOR - inside then left else SECTOR - inside;
      SectorBytes(disk, x, chunk);
      var bounce := disk(x / SECTOR);
      if bounce.None? {
        return false, out;
      }
      BytesJoin(disk, offset, out, bounce.value[inside..inside + chunk]);
      out := out + bounce.value[inside..inside + chunk];
      left := left - chunk;
    }
    ok := true;
  }

  lemma BytesJoin(disk: Disk, x: nat, a: seq<Byte>, b: seq<Byte>)
    requires BytesOf(disk, x, a) && BytesOf(disk, x + |a|, b)
    ensures BytesOf(disk, x, a + b)
  {
  }

  // ------------------------------------------------------------------ ext2

  datatype Fs = Fs(disk: Disk, blockSize: nat)

  /** The fields of the on-disk inode that a read uses. */
  datatype Inode = Inode(size: nat, direct: seq<nat>, indirect: nat)

  /** Block sizes are 1024 shifted left, and a block fits the scratch frame. */
  ghost predicate Mounted(fs: Fs) {
    Sectors(fs.disk) && (fs.blockSize == 1024 || fs.blockSize == 2048 || fs.blockSize == 4096)
  }

  ghost predicate OnDisk(inode: Inode) {
    |inode.direct| == 12
  }

  /** What read_block gives: the whole block, or nothing. */
  ghost function BlockData(fs: Fs, block: nat, frames: nat): (d: Option<seq<Byte>>)
    ensures d.Some? ==> |d.value| == fs.blockSize && BytesOf(fs.disk, block * fs.blockSize, d.value)
    ensures d.Some? <==> frames > 0 && Readable(fs.disk, block * fs.blockSize, fs.blockSize)
  {
    if frames > 0 && Readable(fs.disk, block * fs.blockSize, fs.blockSize) then
      Some(seq(fs.blockSize, k requires 0 <= k < fs.blockSize => DiskByte(fs.disk, block * fs.blockSize + k).value))
    else None
  }

  lemma SameBytes(disk: Disk, x: nat, a: seq<Byte>, b: seq<Byte>)
    requires |a| == |b| && BytesOf(disk, x, a) && BytesOf(disk, x, b)
    ensures a == b
  {
    forall i | 0 <= i < |a|
      ensures a[i] == b[i]
    {
      assert DiskByte(disk, x + i) == Some(a[x + i - x]);
      assert DiskByte(disk, x + i) == Some(b[x + i - x]);
    }
  }

  method ReadBlock(fs: Fs, block: nat, frames: nat) returns (data: Option<seq<Byte>>)
    requires Mounted(fs)
    ensures data == BlockData(fs, block, frames)
  {
    var ok, out := ReadBytes(fs.disk, block * fs.blockSize, fs.blockSize, frames);
    if !ok {
      return None;
    }
    SameBytes(fs.disk, block * fs.blockSize, out, BlockData(fs, block, frames).value);
    data := Some(out);
  }

  /** Entry i of a table of 32-bit little-endian numbers. */
  function Entry(table: seq<Byte>, i: nat): nat
    requires 4 * i + 4 <= |table|
  {
    Decode(table[4 * i..4 * i + 4])
  }

  /** The disk block of a block of the file; zero for a hole, past the single
      indirect table, or when the table cannot be read. */
  ghost function BlockOf(fs: Fs, inode: Inode, index: nat, frames: nat): nat
    requires Mounted(fs) && OnDisk(inode)
  {
    if index < 12 then inode.direct[index]
    else if index - 12 >= fs.blockSize / 4 || inode.indirect == 0 || frames == 0 then 0
    else
      var table := BlockData(fs, inode.indirect, frames - 1);
      if table.None? then 0 else Entry(table.value, index - 12)
  }

  method BlockFor(fs: Fs, inode: Inode, index: nat, frames: nat) returns (block: nat)
    requires Mounted(fs) && OnDisk(inode)
    ensures block == BlockOf(fs, inode, index, frames)
  {
    if index < 12 {
      return inode.direct[index];
    }
    var perBlock, i := fs.blockSize / 4, index - 12;
    if i >= perBlock || inode.indirect == 0 || frames == 0 {
      return 0;
    }
    var table := ReadBlock(fs, inode.indirect, frames - 1);
    block := 0;
    if table.Some? {
      block := Entry(table.value, i);
    }
  }

  /** The abstract file: byte x, unless it is past the end, in a hole or unreadable. */
  ghost function FileByte(fs: Fs, inode: Inode, x: nat, frames: nat): Option<Byte>
    requires Mounted(fs) && OnDisk(inode)
  {
    var block := BlockOf(fs, inode, x / fs.blockSize, frames);
    if x >= inode.size || block == 0 then None
    else
      var data := BlockData(fs, block, frames);
      if data.None? then None else Some(data.value[x % fs.blockSize])
  }

  /** The bytes from x on, up to n of them or the first that is not there. */
  ghost function Stretch(fs: Fs, inode: Inode, x: nat, n: nat, frames: nat): (r: seq<Byte>)
    requires Mounted(fs) && OnDisk(inode)
    ensures |r| <= n
    decreases n
  {
    if n == 0 || FileByte(fs, inode, x, frames).None? then []
    else [FileByte(fs, inode, x, frames).value] + Stretch(fs, inode, x + 1, n - 1, frames)
  }

  /** A stretch is exactly the bytes of the file, and stops only for a reason. */
  lemma {:induction false} StretchIs(fs: Fs, inode: Inode, x: nat, n: nat, frames: nat, k: nat)
    requires Mounted(fs) && OnDisk(inode)
    ensures var r := Stretch(fs, inode, x, n, frames);
            && (k < |r| ==> FileByte(fs, inode, x + k, frames) == Some(r[k]))
            && (|r| < n ==> FileByte(fs, inode, x + |r|, frames).None?)
    decreases n
  {
    hide FileByte, Mounted;
    if n > 0 && FileByte(fs, inode, x, frames).Some? && k > 0 {
      StretchIs(fs, inode, x + 1, n - 1, frames, k - 1);
    } else if n > 0 && FileByte(fs, inode, x, frames).Some? {
      StretchIs(fs, inode, x + 1, n - 1, frames, 0);
    }
  }

  /** One read of a + b bytes is a read of a bytes followed by one of b bytes
      where it ended; if the first comes up short, so does the whole. */
  lemma {:induction false} ReadsConcatenate(fs: Fs, inode: Inode, x: nat, a: nat, b: nat, frames: nat)
    requires Mounted(fs) && OnDisk(inode)
    ensures var first := Stretch(fs, inode, x, a, frames);
            Stretch(fs, inode, x, a + b, frames) ==
            if |first| == a then first + Stretch(fs, inode, x + a, b, frames) else first
    decreases a
  {
    hide FileByte, Mounted;
    if a > 0 && FileByte(fs, inode, x, frames).Some? {
      ReadsConcatenate(fs, inode, x + 1, a - 1, b, frames);
    }
  }

  /** With two frames or more the file does not depend on memory. */
  lemma FramesDoNotMatter(fs: Fs, inode: Inode, x: nat, frames: nat)
    requires Mounted(fs) && OnDisk(inode) && frames >= 2
    ensures FileByte(fs, inode, x, frames) == FileByte(fs, inode, x, 2)
  {
    assert BlockOf(fs, inode, x / fs.blockSize, frames) == BlockOf(fs, inode, x / fs.blockSize, 2);
  }

  // ------------------------------------------------ the file, from the disk

  /** Four bytes, least significant first. */
  function Number(a: nat, b: nat, c: nat, d: nat): nat {
    a + 0x100 * b + 0x1_0000 * c + 0x100_0000 * d
  }

  /** The 32-bit number in the four bytes at x. */
  function DiskNumber(disk: Disk, x: nat): Option<nat> {
    var a, b, c, d := DiskByte(disk, x), DiskByte(disk, x + 1), DiskByte(disk, x + 2), DiskByte(disk, x + 3);
    if a.Some? && b.Some? && c.Some? && d.Some?
    then Some(Number(a.value, b.value, c.value, d.value)) else None
  }

  /** The block that holds byte x: the inode names the first twelve, and the block
      behind `indirect`, if all of it can be read, those after. */
  ghost function HoldingBlock(fs: Fs, inode: Inode, x: nat): Option<nat>
    requires Mounted(fs) && OnDisk(inode)
  {
    var i := x / fs.blockSize;
    if i < 12 then Some(inode.direct[i])
    else if inode.indirect == 0 || i >= 12 + fs.blockSize / 4 then None
    else if !Readable(fs.disk, inode.indirect * fs.blockSize, fs.blockSize) then None
    else DiskNumber(fs.disk, inode.indirect * fs.blockSize + 4 * (i - 12))
  }

  /** Byte x of a file is a byte of the disk: in the block that holds it, at its
      place there, if it is before the end, not in a hole, and the block can be
      read. An indirect block takes a second frame. */
  lemma FileIsOnDisk(fs: Fs, inode: Inode, x: nat, frames: nat)
    requires Mounted(fs) && OnDisk(inode)
    ensures var block := HoldingBlock(fs, inode, x);
            FileByte(fs, inode, x, frames) ==
            if x < inode.size && block.Some? && block.value != 0
               && Readable(fs.disk, block.value * fs.blockSize, fs.blockSize)
               && frames > (if x / fs.blockSize < 12 then 0 else 1)
            then DiskByte(fs.disk, block.value * fs.blockSize + x % fs.blockSize) else None
  {
    hide BlockOf, HoldingBlock;
    HoldingIs(fs, inode, x, frames);
    var block := BlockOf(fs, inode, x / fs.blockSize, frames);
    var data := BlockData(fs, block, frames);
    if data.Some? {
      var at := block * fs.blockSize + x % fs.blockSize;
      assert DiskByte(fs.disk, at) == Some(data.value[at - block * fs.blockSize]);
    }
  }

  lemma HoldingIs(fs: Fs, inode: Inode, x: nat, frames: nat)
    requires Mounted(fs) && OnDisk(inode)
    ensures var block, found := HoldingBlock(fs, inode, x), BlockOf(fs, inode, x / fs.blockSize, frames);
            if x / fs.blockSize < 12 || frames > 1 then found == if block.Some? then block.value else 0
            else found == 0
  {
    var i := x / fs.blockSize;
    if 12 <= i < 12 + fs.blockSize / 4 && frames > 1
       && Readable(fs.disk, inode.indirect * fs.blockSize, fs.blockSize) {
      var table := BlockData(fs, inode.indirect, frames - 1).value;
      EntryIs(fs.disk, inode.indirect * fs.blockSize, table, i - 12);
    }
  }

  lemma EntryIs(disk: Disk, x: nat, table: seq<Byte>, i: nat)
    requires BytesOf(disk, x, table) && 4 * i + 4 <= |table|
    ensures DiskNumber(disk, x + 4 * i) == Some(Entry(table, i))
  {
    var e := table[4 * i..4 * i + 4];
    forall k: nat | k < 4
      ensures DiskByte(disk, x + 4 * i + k) == Some(e[k])
    {
      var y := x + 4 * i + k;
      assert DiskByte(disk, y) == Some(table[y - x]);
    }
    FourBytes(e);
  }

  lemma FourBytes(e: seq<Byte>)
    requires |e| == 4
    ensures Decode(e) == Number(e[0], e[1], e[2], e[3])
  {
    var b: nat, c: nat, d: nat := e[1], e[2], e[3];
    assert Decode(e[1..][1..][1..]) == d;
    assert Decode(e[1..][1..]) == c + 256 * d;
    assert Decode(e[1..]) == b + 256 * (c + 256 * d);
  }

  ghost predicate FileBytes(fs: Fs, inode: Inode, x: nat, out: seq<Byte>, frames: nat)
    requires Mounted(fs) && OnDisk(inode)
  {
    forall k: nat :: x <= k < x + |out| ==> FileByte(fs, inode, k, frames) == Some(out[k - x])
  }

  lemma {:induction false} StretchFrom(fs: Fs, inode: Inode, x: nat, out: seq<Byte>, m: nat, frames: nat)
    requires Mounted(fs) && OnDisk(inode) && FileBytes(fs, inode, x, out, frames)
    ensures Stretch(fs, inode, x, |out| + m, frames) == out + Stretch(fs, inode, x + |out|, m, frames)
    decreases |out|
  {
    hide FileByte, Mounted;
    if out == [] {
      assert [] + Stretch(fs, inode, x, m, frames) == Stretch(fs, inode, x, m, frames);
    } else {
      assert FileByte(fs, inode, x, frames) == Some(out[x - x]);
      StretchFrom(fs, inode, x + 1, out[1..], m, frames);
      assert out == [out[0]] + out[1..];
    }
  }

  /** One block's share of a read. */
  lemma BlockBytes(fs: Fs, inode: Inode, x: nat, chunk: nat, frames: nat)
    requires Mounted(fs) && OnDisk(inode) && chunk > 0 && x % fs.blockSize + chunk <= fs.blockSize
             && x + chunk <= inode.size
    ensures var block := BlockOf(fs, inode, x / fs.blockSize, frames);
            && (block == 0 || BlockData(fs, block, frames).None? ==> FileByte(fs, inode, x, frames).None?)
            && (block != 0 && BlockData(fs, block, frames).Some? ==>
                  var data := BlockData(fs, block, frames).value;
                  FileBytes(fs, inode, x, data[x % fs.blockSize..x % fs.blockSize + chunk], frames))
  {
    var bs := fs.blockSize;
    forall k: nat | x <= k < x + chunk
      ensures k / bs == x / bs && k % bs == x % bs + (k - x)
    {
      SameBlock(x, k, bs);
    }
  }

  lemma SameBlock(x: nat, k: nat, bs: nat)
    requires (bs == 1024 || bs == 2048 || bs == 4096) && x <= k && x % bs + (k - x) < bs
    ensures k / bs == x / bs && k % bs == x % bs + (k - x)
  {
    if bs == 1024 {
      assert k / 1024 == x / 1024;
    } else if bs == 2048 {
      assert k / 2048 == x / 2048;
    } else {
      assert k / 4096 == x / 4096;
    }
  }

  lemma FileBytesJoin(fs: Fs, inode: Inode, x: nat, a: seq<Byte>, b: seq<Byte>, frames: nat)
    requires Mounted(fs) && OnDisk(inode) && FileBytes(fs, inode, x, a, frames)
             && FileBytes(fs, inode, x + |a|, b, frames)
    ensures FileBytes(fs, inode, x, a + b, frames)
  {
  }

  /** One turn of the loop: the next bytes of the block x lies in, or none. */
  method ReadChunk(fs: Fs, inode: Inode, x: nat, wanted: nat, frames: nat) returns (bytes: seq<Byte>)
    requires Mounted(fs) && OnDisk(inode) && 0 < wanted && x + wanted <= inode.size
    ensures |bytes| <= wanted && FileBytes(fs, inode, x, bytes, frames)
    ensures bytes == [] ==> FileByte(fs, inode, x, frames).None?
  {
    hide FileByte, FileBytes, BlockOf, BlockData;
    var inside := x % fs.blockSize;
    var chunk := if wanted < fs.blockSize - inside then wanted else fs.blockSize - inside;
    BlockBytes(fs, inode, x, chunk, frames);
    NoBytes(fs, inode, x, frames);
    var block := BlockFor(fs, inode, x / fs.blockSize, frames);
    if block == 0 {
      return [];
    }
    var scratch := ReadBlock(fs, block, frames);
    if scratch.None? {
      return [];
    }
    bytes := scratch.value[inside..inside + chunk];
  }

  /** Ext2Inode::read gives precisely the bytes of the file from the offset up
      to the first of: the length, the end of the file, a hole, an error. */
  method Read(fs: Fs, inode: Inode, offset: nat, length: nat, frames: nat) returns (count: int, out: seq<Byte>)
    requires Mounted(fs) && OnDisk(inode)
    ensures offset < inode.size && frames == 0 ==> count == -1
    ensures offset >= inode.size ==> count == 0 && out == []
    ensures offset < inode.size && frames > 0 ==>
            count == |out| && out == Stretch(fs, inode, offset, length, frames - 1)
  {
    hide FileByte, Stretch, FileBytes, Mounted;
    out := [];
    if offset >= inode.size {
      return 0, out;
    }
    var available := inode.size - offset;
    var wanted := if length > available then available else length;
    if frames == 0 {
      return -1, out;
    }
    NoBytes(fs, inode, offset, frames - 1);
    while |out| < wanted
      invariant |out| <= wanted && FileBytes(fs, inode, offset, out, frames - 1)
      decreases wanted - |out|
    {
      var bytes := ReadChunk(fs, inode, offset + |out|, wanted - |out|, frames - 1);
      if bytes == [] {
        StopsHere(fs, inode, offset, out, length, frames - 1);
        return |out|, out;
      }
      FileBytesJoin(fs, inode, offset, out, bytes, frames - 1);
      out := out + bytes;
    }
    EndsHere(fs, inode, offset, out, length, frames - 1);
    count := |out|;
  }

  lemma NoBytes(fs: Fs, inode: Inode, x: nat, frames: nat)
    requires Mounted(fs) && OnDisk(inode)
    ensures FileBytes(fs, inode, x, [], frames)
  {
  }

  lemma StopsHere(fs: Fs, inode: Inode, x: nat, out: seq<Byte>, length: nat, frames: nat)
    requires Mounted(fs) && OnDisk(inode) && FileBytes(fs, inode, x, out, frames) && |out| <= length
    requires FileByte(fs, inode, x + |out|, frames).None?
    ensures Stretch(fs, inode, x, length, frames) == out
  {
    hide FileByte, Mounted;
    StretchFrom(fs, inode, x, out, length - |out|, frames);
    assert Stretch(fs, inode, x + |out|, length - |out|, frames) == [];
  }

  lemma EndsHere(fs: Fs, inode: Inode, x: nat, out: seq<Byte>, length: nat, frames: nat)
    requires Mounted(fs) && OnDisk(inode) && FileBytes(fs, inode, x, out, frames) && x < inode.size
    requires |out| == if length > inode.size - x then inode.size - x else length
    ensures Stretch(fs, inode, x, length, frames) == out
  {
    hide Mounted;
    if |out| == length {
      StretchFrom(fs, inode, x, out, 0, frames);
    } else {
      StopsHere(fs, inode, x, out, length, frames);
    }
  }
}
