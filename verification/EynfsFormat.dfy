/** The two formatters: devtools/create_partitioned_disk.py and the kernel's
    syscall_installer_format_eynfs_partition, over one partition's sectors. */
module EynfsFormat {
  import opened Bytes
  import opened EynfsSector
  import opened EynfsLayout

  const MAGIC: u32 := 0x45594E46
  const VERSION: u32 := 11
  const WORD: nat := 0x1_0000_0000

  function BitmapBlocks(n: nat): (r: nat) {
    CeilDiv(CeilDiv(n, 8), 512)
  }

  function RootBlock(n: nat): nat {
    2 + BitmapBlocks(n)
  }

  lemma LayoutFits(n: nat)
    ensures n <= 8 * (512 * BitmapBlocks(n))
    ensures BitmapBlocks(n) <= n / 4096 + 1
    ensures 4 <= n ==> RootBlock(n) < n
  {
  }

  // ----- the superblock -----

  function Superblock(total: u32, root: u32, bitmap: u32, names: u32): Sector {
    Le32(MAGIC) + Le32(VERSION) + Le32(512) + Le32(total) + Le32(root) + Le32(bitmap) + Le32(names) + Zeros(484)
  }

  function RootField(s: Sector): u32 {
    FromLe32(s[16..20])
  }

  function TotalField(s: Sector): u32 {
    FromLe32(s[12..16])
  }

  function BitmapField(s: Sector): u32 {
    FromLe32(s[20..24])
  }

  function NamesField(s: Sector): u32 {
    FromLe32(s[24..28])
  }

  /** The superblock reads back field by field, behind its magic number, version and block size. */
  lemma {:induction false} SuperblockFields(total: u32, root: u32, bitmap: u32, names: u32)
    ensures var s := Superblock(total, root, bitmap, names);
      && FromLe32(s[0..4]) == MAGIC && FromLe32(s[4..8]) == VERSION && FromLe32(s[8..12]) == 512
      && TotalField(s) == total && RootField(s) == root
      && BitmapField(s) == bitmap && NamesField(s) == names
  {
    var s := Superblock(total, root, bitmap, names);
    var m, v, z := Le32(MAGIC), Le32(VERSION), Le32(512);
    var t, r, b, n := Le32(total), Le32(root), Le32(bitmap), Le32(names);
    assert s[0..4] == m && s[4..8] == v && s[8..12] == z;
    assert s[12..16] == t && s[16..20] == r && s[20..24] == b && s[24..28] == n;
    Le32RoundTrip(MAGIC);
    Le32RoundTrip(VERSION);
    Le32RoundTrip(512);
    Le32RoundTrip(total);
    Le32RoundTrip(root);
    Le32RoundTrip(bitmap);
    Le32RoundTrip(names);
  }

  // ----- the bitmap -----

  /** `bm` with bits 0..k-1 set. */
  function MarkUpTo(bm: seq<byte>, k: nat): (r: seq<byte>)
    requires k <= 8 * |bm|
    ensures |r| == |bm|
    decreases k
  {
    if k == 0 then bm else MarkBit(MarkUpTo(bm, k - 1), k - 1)
  }

  lemma {:induction false} MarkUpToBits(bm: seq<byte>, k: nat, j: nat)
    requires k <= 8 * |bm| && j < 8 * |bm|
    ensures BitSet(MarkUpTo(bm, k), j) <==> BitSet(bm, j) || j < k
  {
    if k > 0 {
      MarkUpToBits(bm, k - 1, j);
    }
  }

  lemma {:induction false} NoBits(k: nat)
    ensures !BitOf(0, k)
  {
    if k > 0 {
      NoBits(k - 1);
    }
  }

  /** The reserved bitmap of an `n`-block volume: exactly bits 0..root. */
  function Reserved(n: nat): (r: seq<byte>)
    requires 4 <= n
    ensures |r| == 512 * BitmapBlocks(n)
  {
    LayoutFits(n);
    MarkUpTo(Zeros(512 * BitmapBlocks(n)), RootBlock(n) + 1)
  }

  lemma ReservedBits(n: nat, j: nat)
    requires 4 <= n && j < 8 * (512 * BitmapBlocks(n))
    ensures BitSet(Reserved(n), j) <==> j <= RootBlock(n)
  {
    LayoutFits(n);
    MarkUpToBits(Zeros(512 * BitmapBlocks(n)), RootBlock(n) + 1, j);
    NoBits(j % 8);
  }

  function SectorOf(bm: seq<byte>, i: nat): Sector
    requires 512 * i + 512 <= |bm|
  {
    bm[512 * i..512 * i + 512]
  }

  ghost predicate BitmapAt(disk: Disk, n: nat, i: nat)
    requires 4 <= n && i < BitmapBlocks(n) && 1 + i < |disk|
  {
    disk[1 + i] == SectorOf(Reserved(n), i)
  }

  /** What an empty volume of `n` blocks must look like, sector by sector. */
  ghost predicate Formatted(disk: Disk, n: nat) {
    && 4 <= n < WORD && RootBlock(n) < |disk|
    && disk[0] == Superblock(n, RootBlock(n), 1, RootBlock(n) - 1)
    && (forall i :: 0 <= i < BitmapBlocks(n) ==> BitmapAt(disk, n, i))
    && disk[RootBlock(n) - 1] == Zeros(512)
    && disk[RootBlock(n)] == Zeros(512)
  }

  /** Two formatted volumes of the same size agree on every sector the format defines. */
  lemma FormattedAgree(d: Disk, d': Disk, n: nat)
    requires Formatted(d, n) && Formatted(d', n)
    ensures d[..RootBlock(n) + 1] == d'[..RootBlock(n) + 1]
  {
    forall i | 0 <= i <= RootBlock(n) ensures d[i] == d'[i] {
      if 1 <= i < RootBlock(n) - 1 {
        assert BitmapAt(d, n, i - 1) && BitmapAt(d', n, i - 1);
      }
    }
  }

  // ----- the host formatter -----

  /** `create_eynfs_bitmap` over `range(0, root + 1)`. */
  method CreateBitmap(n: nat) returns (bm: seq<byte>)
    requires 4 <= n
    ensures bm == Reserved(n)
  {
    LayoutFits(n);
    bm := Zeros(512 * BitmapBlocks(n));
    for block := 0 to RootBlock(n) + 1
      invariant |bm| == 512 * BitmapBlocks(n)
      invariant bm == MarkUpTo(Zeros(512 * BitmapBlocks(n)), block)
    {
      bm := MarkBit(bm, block);
    }
  }

  function Sectors(bytes: seq<byte>): (r: Disk)
    requires |bytes| % 512 == 0
    ensures |r| == |bytes| / 512 && forall i :: 0 <= i < |r| ==> r[i] == SectorOf(bytes, i)
  {
    if bytes == [] then [] else
      var rest := Sectors(bytes[512..]);
      assert forall i :: 0 <= i < |rest| ==> SectorOf(bytes[512..], i) == SectorOf(bytes, i + 1);
      [bytes[..512]] + rest
  }

  /** `f.seek(at * 512); f.write(bytes)` for a whole number of sectors. */
  function WriteSectors(disk: Disk, at: nat, bytes: seq<byte>): (r: Disk)
    requires |bytes| % 512 == 0 && at + |bytes| / 512 <= |disk|
    ensures |r| == |disk|
    ensures forall b :: 0 <= b < |disk| && !(at <= b < at + |bytes| / 512) ==> r[b] == disk[b]
    ensures forall b :: at <= b < at + |bytes| / 512 ==> r[b] == SectorOf(bytes, b - at)
  {
    disk[..at] + Sectors(bytes) + disk[at + |bytes| / 512..]
  }

  /** `f.seek(at * 512); f.read(count * 512)`. */
  function ReadSectors(disk: Disk, at: nat, count: nat): (r: seq<byte>)
    requires at + count <= |disk|
    ensures |r| == 512 * count
    ensures forall i :: 0 <= i < count ==> SectorOf(r, i) == disk[at + i]
  {
    var r := seq(512 * count, j requires 0 <= j < 512 * count => disk[at + j / 512][j % 512]);
    assert forall i :: 0 <= i < count ==> SectorOf(r, i) == disk[at + i] by {
      forall i | 0 <= i < count ensures SectorOf(r, i) == disk[at + i] {
        forall k | 0 <= k < 512 ensures SectorOf(r, i)[k] == disk[at + i][k] {
          assert (512 * i + k) / 512 == i && (512 * i + k) % 512 == k;
        }
      }
    }
    r
  }

  /** Bytes are determined by their sectors. */
  lemma SameSectors(x: seq<byte>, y: seq<byte>, count: nat)
    requires |x| == |y| == 512 * count
    requires forall i :: 0 <= i < count ==> SectorOf(x, i) == SectorOf(y, i)
    ensures x == y
  {
    forall j | 0 <= j < |x| ensures x[j] == y[j] {
      assert SectorOf(x, j / 512)[j % 512] == SectorOf(y, j / 512)[j % 512];
      assert 512 * (j / 512) + j % 512 == j;
    }
  }

  lemma WholeSectors(bm: seq<byte>, k: nat)
    requires |bm| == 512 * k
    ensures |bm| % 512 == 0 && |bm| / 512 == k
  {
  }

  /** The EYNFS part of `create_partitioned_disk`, on a zeroed image. */
  method FormatHost(n: nat) returns (disk: Disk)
    requires 4 <= n < WORD
    ensures |disk| == n && Formatted(disk, n)
    ensures forall b :: RootBlock(n) < b < n ==> disk[b] == Zeros(512)
  {
    LayoutFits(n);
    disk := Blank(n, RootBlock(n));
    var bm := CreateBitmap(n);
    WholeSectors(bm, BitmapBlocks(n));
    ghost var blank := disk;
    disk := WriteSectors(disk, 1, bm);
    HostFormatted(blank, disk, n, bm);
  }

  /** Zeros behind the superblock. */
  method Blank(n: nat, root: nat) returns (disk: Disk)
    requires 4 <= n < WORD && 0 < root < n
    ensures |disk| == n && disk[0] == Superblock(n, root, 1, root - 1)
    ensures forall b :: 0 < b < n ==> disk[b] == Zeros(512)
  {
    disk := seq(n, i => Zeros(512));
    disk := disk[0 := Superblock(n, root, 1, root - 1)];
  }

  lemma {:induction false} HostFormatted(blank: Disk, disk: Disk, n: nat, bm: seq<byte>)
    requires 4 <= n < WORD && RootBlock(n) < n && |blank| == n && bm == Reserved(n)
    requires blank[0] == Superblock(n, RootBlock(n), 1, RootBlock(n) - 1)
    requires forall b :: 0 < b < n ==> blank[b] == Zeros(512)
    requires |bm| % 512 == 0 && |bm| / 512 == BitmapBlocks(n) && 1 + BitmapBlocks(n) <= n
    requires disk == WriteSectors(blank, 1, bm)
    ensures Formatted(disk, n) && forall b :: RootBlock(n) < b < n ==> disk[b] == Zeros(512)
  {
    forall i | 0 <= i < BitmapBlocks(n) ensures BitmapAt(disk, n, i) {
      assert disk[1 + i] == SectorOf(bm, i);
    }
  }

  // ----- the kernel formatter -----

  /** One bitmap sector as the kernel builds it: scan every reserved block, keep the bits that fall here. */
  method BitmapSector(n: nat, b: nat) returns (sector: Sector)
    requires 4 <= n && b < BitmapBlocks(n)
    ensures sector == SectorOf(Reserved(n), b)
  {
    LayoutFits(n);
    ghost var z := Zeros(512 * BitmapBlocks(n));
    assert SectorOf(z, b) == Zeros(512);
    sector := ScanReserved(z, RootBlock(n) + 1, b);
  }

  /** The scan itself: `last` reserved blocks, over a cleared sector. */
  method ScanReserved(ghost z: seq<byte>, last: nat, b: nat) returns (sector: Sector)
    requires last <= 8 * |z| && 512 * b + 512 <= |z| && SectorOf(z, b) == Zeros(512)
    ensures sector == SectorOf(MarkUpTo(z, last), b)
  {
    sector := Zeros(512);
    for reserved := 0 to last
      invariant sector == SectorOf(MarkUpTo(z, reserved), b)
    {
      SectorMarkUpTo(z, reserved, b);
      if reserved / 8 / 512 == b {
        sector := MarkSector(sector, reserved, b);
      }
    }
  }

  lemma SectorMarkUpTo(z: seq<byte>, k: nat, b: nat)
    requires k < 8 * |z| && 512 * b + 512 <= |z|
    ensures SectorOf(MarkUpTo(z, k + 1), b) == MarkSector(SectorOf(MarkUpTo(z, k), b), k, b)
  {
    SectorMark(MarkUpTo(z, k), k, b);
  }

  lemma SectorMark(bm: seq<byte>, r: nat, b: nat)
    requires r / 8 < |bm| && 512 * b + 512 <= |bm|
    ensures SectorOf(MarkBit(bm, r), b) == MarkSector(SectorOf(bm, b), r, b)
  {
    var q := r / 8;
    assert q == 512 * (q / 512) + q % 512;
    Pow2Of8();
    OrBitFits(bm[q], r % 8, 8);
  }

  /** What bit `r` of the whole bitmap does to bitmap sector `b`. */
  function MarkSector(s: Sector, r: nat, b: nat): Sector {
    if r / 8 / 512 == b then
      Pow2Of8();
      OrBitFits(s[r / 8 % 512], r % 8, 8);
      s[r / 8 % 512 := OrBit(s[r / 8 % 512], r % 8)]
    else s
  }

  /** 32-bit `(n + 7u) / 8u` and `(bytes + 511u) / 512u`. */
  function KernelBitmapBlocks(n: u32): nat {
    ((n + 7) % WORD / 8 + 511) / 512
  }

  /** The wrap in `n + 7u` is the only way the kernel's layout can differ. */
  lemma KernelLayout(n: u32)
    ensures n + 7 < WORD ==> KernelBitmapBlocks(n) == BitmapBlocks(n)
    ensures n + 7 >= WORD ==> KernelBitmapBlocks(n) == 0
    ensures n >= 8 ==> 2 + KernelBitmapBlocks(n) < n
  {
    LayoutFits(n);
  }

  /** `syscall_installer_format_eynfs_partition` on the `n` sectors of one partition
      (`empty` is `part->type == PART_TYPE_EMPTY`; failing sector writes are not modelled). */
  method FormatKernel(old_: Disk, n: u32, empty: bool) returns (r: Option<Disk>)
    requires |old_| == n
    ensures r.Some? <==> !empty && n >= 8
    ensures r.Some? ==> |r.value| == n && (Formatted(r.value, n) <==> n + 7 < WORD)
    ensures r.Some? ==> forall b :: 2 + KernelBitmapBlocks(n) < b < n ==> r.value[b] == old_[b]
  {
    if empty || n < 8 {
      return None;
    }
    KernelLayout(n);
    LayoutFits(n);
    var blocks := KernelBitmapBlocks(n);
    var root := 2 + blocks;
    var disk := old_[0 := Superblock(n, root, 1, root - 1)];
    disk := WriteBitmap(disk, n, blocks);
    ghost var was := disk;
    disk := disk[root - 1 := Zeros(512)];
    disk := disk[root := Zeros(512)];
    KernelFormatted(was, disk, n, blocks);
    r := Some(disk);
  }

  /** The loop over bitmap sectors, shared bound `blocks` included. */
  method WriteBitmap(start: Disk, n: nat, blocks: nat) returns (disk: Disk)
    requires 4 <= n && (blocks == 0 || blocks == BitmapBlocks(n)) && blocks < |start|
    ensures |disk| == |start|
    ensures forall j :: 0 <= j < blocks ==> BitmapAt(disk, n, j)
    ensures forall b :: 0 <= b < |start| && !(1 <= b <= blocks) ==> disk[b] == start[b]
  {
    disk := start;
    for i := 0 to blocks
      invariant |disk| == |start|
      invariant forall j :: 0 <= j < i ==> BitmapAt(disk, n, j)
      invariant forall b :: 0 <= b < |start| && !(1 <= b <= i) ==> disk[b] == start[b]
    {
      var sector := BitmapSector(n, i);
      ghost var was := disk;
      disk := disk[1 + i := sector];
      assert forall j :: 0 <= j < i ==> BitmapAt(was, n, j) ==> BitmapAt(disk, n, j);
    }
  }

  /** Superblocks that agree name the same root. */
  lemma {:induction false} SuperblockRoot(n: u32, r: u32, m: u32, r': u32, m': u32)
    ensures Superblock(n, r, 1, m) == Superblock(n, r', 1, m') ==> r == r'
  {
    SuperblockFields(n, r, 1, m);
    SuperblockFields(n, r', 1, m');
  }

  lemma {:induction false} KernelFormatted(was: Disk, disk: Disk, n: u32, k: nat)
    requires n >= 8 && k == KernelBitmapBlocks(n) && 2 + k < n && |was| == n
    requires was[0] == Superblock(n, 2 + k, 1, 1 + k)
    requires n + 7 < WORD ==> k == BitmapBlocks(n) && forall j :: 0 <= j < k ==> BitmapAt(was, n, j)
    requires disk == was[1 + k := Zeros(512)][2 + k := Zeros(512)]
    ensures Formatted(disk, n) <==> n + 7 < WORD
  {
    KernelLayout(n);
    LayoutFits(n);
    SuperblockRoot(n, 2 + k, 1 + k, RootBlock(n), RootBlock(n) - 1);
    if n + 7 < WORD {
      forall j | 0 <= j < k ensures BitmapAt(disk, n, j) {
        assert BitmapAt(was, n, j);
      }
    }
  }

  /** A size at which the kernel and the host disagree: the largest 32-bit sector count. */
  lemma KernelWraps()
    ensures KernelBitmapBlocks(0xFFFF_FFFF) == 0 && BitmapBlocks(0xFFFF_FFFF) == 0x10_0000
  {
  }
}
