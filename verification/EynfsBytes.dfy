/** The image byte by byte: where each field of a block stands and what number its bytes make. */
module EynfsBytes {
  import opened Bytes
  import opened EynfsSector
  import opened EynfsLayout
  import opened EynfsTree
  import opened EynfsFormat
  import opened EynfsBuilder

  // ----- words and bits -----

  lemma WordBytes(b: seq<byte>, at: nat)
    requires at + 4 <= |b|
    ensures FromLe32(b[at..at + 4]) == b[at] as int + 256 * b[at + 1] as int
      + 65536 * b[at + 2] as int + 16777216 * b[at + 3] as int
  {
    var w := b[at..at + 4];
    assert w[0] == b[at] && w[1] == b[at + 1] && w[2] == b[at + 2] && w[3] == b[at + 3];
  }

  /** Block `n` is bit `n % 8` of byte `n / 8`, counted from the low end. */
  lemma {:induction false} BitPlace(bm: seq<byte>, n: nat)
    requires n / 8 < |bm|
    ensures var x := bm[n / 8]; BitSet(bm, n) <==>
      match n % 8 {
        case 0 => x % 2 == 1
        case 1 => x / 2 % 2 == 1
        case 2 => x / 4 % 2 == 1
        case 3 => x / 8 % 2 == 1
        case 4 => x / 16 % 2 == 1
        case 5 => x / 32 % 2 == 1
        case 6 => x / 64 % 2 == 1
        case _ => x / 128 == 1
      }
  {
    BitPlaces(bm[n / 8], n % 8);
  }

  lemma {:induction false} BitPlaces(x: byte, k: nat)
    requires k < 8
    ensures BitOf(x, k) <==>
      match k {
        case 0 => x % 2 == 1
        case 1 => x / 2 % 2 == 1
        case 2 => x / 4 % 2 == 1
        case 3 => x / 8 % 2 == 1
        case 4 => x / 16 % 2 == 1
        case 5 => x / 32 % 2 == 1
        case 6 => x / 64 % 2 == 1
        case _ => x / 128 == 1
      }
  {
    var x1, x2, x3, x4, x5, x6, x7 := x / 2, x / 4, x / 8, x / 16, x / 32, x / 64, x / 128;
    assert x1 / 2 == x2 && x2 / 2 == x3 && x3 / 2 == x4 && x4 / 2 == x5 && x5 / 2 == x6 && x6 / 2 == x7;
    Shift(x, k);
    if k >= 1 { Shift(x1, k - 1); }
    if k >= 2 { Shift(x2, k - 2); }
    if k >= 3 { Shift(x3, k - 3); }
    if k >= 4 { Shift(x4, k - 4); }
    if k >= 5 { Shift(x5, k - 5); }
    if k >= 6 { Shift(x6, k - 6); }
    if k >= 7 { Shift(x7, k - 7); }
  }

  lemma {:induction false} Shift(x: nat, k: nat)
    ensures BitOf(x, k) <==> if k == 0 then x % 2 == 1 else BitOf(x / 2, k - 1)
  {
  }

  // ----- directory entries -----

  /** The 52 bytes of an entry as they are read. */
  lemma {:induction false} DecodedBytes(b: seq<byte>, e: Dirent)
    requires |b| == 52 && e == DecodeEntry(b)
    ensures |e.name| <= 32 && forall j :: 0 <= j < |e.name| ==> b[j] == e.name[j] != 0
    ensures |e.name| < 32 ==> b[|e.name|] == 0
    ensures b[32] == e.kind && forall j :: 0 <= j < 3 ==> b[33 + j] == e.misc[j]
    ensures b[36] as int + 256 * b[37] as int + 65536 * b[38] as int + 16777216 * b[39] as int == e.size
    ensures b[40] as int + 256 * b[41] as int + 65536 * b[42] as int + 16777216 * b[43] as int == e.first
    ensures forall j :: 0 <= j < 8 ==> b[44 + j] == e.extra[j]
  {
    var raw := b[..32];
    assert e.name == CStr(raw) == raw[..|e.name|];
    forall j | 0 <= j < |e.name| ensures b[j] == e.name[j] != 0 {
      assert raw[j] == b[j] && e.name[j] in e.name;
    }
    WordBytes(b, 36);
    WordBytes(b, 40);
  }

  /** The 52 bytes of an entry as they are written: the name, NULs up to byte 32, the type, three
      bytes, the size, the first block, eight bytes. */
  lemma {:induction false} EncodedBytes(e: Dirent, b: seq<byte>)
    requires HostName(e.name) && b == EncodeEntry(e)
    ensures |b| == 52 && (forall j :: 0 <= j < |e.name| ==> b[j] == e.name[j])
    ensures forall j :: |e.name| <= j < 32 ==> b[j] == 0
    ensures b[32] == e.kind && forall j :: 0 <= j < 3 ==> b[33 + j] == e.misc[j]
    ensures b[36] as int + 256 * b[37] as int + 65536 * b[38] as int + 16777216 * b[39] as int == e.size
    ensures b[40] as int + 256 * b[41] as int + 65536 * b[42] as int + 16777216 * b[43] as int == e.first
    ensures forall j :: 0 <= j < 8 ==> b[44 + j] == e.extra[j]
  {
    EntryRoundTrip(e);
    DecodedBytes(b, e);
    var field := NameField(e.name);
    forall j | 0 <= j < 32 ensures b[j] == field[j] {}
  }

  /** Entry `k` of a stored directory stands in block `k / 9` of its chain, from byte
      `4 + 52 * (k % 9)` on. */
  lemma {:induction false} StoredEntryBytes(disk: Disk, d: DirRec, k: nat)
    requires DirOnDisk(disk, d) && k < |d.entries|
    ensures k / 9 < |d.blocks| && d.blocks[k / 9] < |disk|
    ensures var s, at, e := disk[d.blocks[k / 9]], 4 + 52 * (k % 9), d.entries[k];
      && |e.name| <= 32 && (forall j :: 0 <= j < |e.name| ==> s[at + j] == e.name[j] != 0)
      && (|e.name| < 32 ==> s[at + |e.name|] == 0)
      && s[at + 32] == e.kind && (forall j :: 0 <= j < 3 ==> s[at + 33 + j] == e.misc[j])
      && s[at + 36] as int + 256 * s[at + 37] as int
        + 65536 * s[at + 38] as int + 16777216 * s[at + 39] as int == e.size
      && s[at + 40] as int + 256 * s[at + 41] as int
        + 65536 * s[at + 42] as int + 16777216 * s[at + 43] as int == e.first
      && (forall j :: 0 <= j < 8 ==> s[at + 44 + j] == e.extra[j])
  {
    assert 9 * (k / 9) + k % 9 == k && SlotAt(disk, d, k / 9, k % 9);
    var s, at := disk[d.blocks[k / 9]], 4 + 52 * (k % 9);
    var b := SlotBytes(s, k % 9);
    DecodedBytes(b, d.entries[k]);
    SliceBytes(s, at, b);
  }

  lemma {:induction false} SliceBytes(s: seq<byte>, at: nat, b: seq<byte>)
    requires at + |b| <= |s| && b == s[at..at + |b|]
    ensures forall j :: 0 <= j < |b| ==> b[j] == s[at + j]
  {
  }

  /** Behind the last entry of a directory every slot starts with a zero byte. */
  lemma {:induction false} FreeSlotBytes(disk: Disk, d: DirRec, k: nat)
    requires DirOnDisk(disk, d) && |d.entries| <= k < 9 * |d.blocks|
    ensures d.blocks[k / 9] < |disk| && disk[d.blocks[k / 9]][4 + 52 * (k % 9)] == 0
  {
    assert 9 * (k / 9) + k % 9 == k && SlotAt(disk, d, k / 9, k % 9);
    var s, at := disk[d.blocks[k / 9]], 4 + 52 * (k % 9);
    SliceBytes(s, at, SlotBytes(s, k % 9));
  }

  // ----- chains and contents -----

  /** A block's first four bytes make the number of the next block of its chain, or zero. */
  lemma {:induction false} ChainBytes(disk: Disk, blocks: seq<nat>, i: nat)
    requires Chain(disk, blocks) && i < |blocks|
    ensures 0 < blocks[i] < |disk|
    ensures var s := disk[blocks[i]];
      s[0] as int + 256 * s[1] as int
        + 65536 * s[2] as int + 16777216 * s[3] as int == if i + 1 < |blocks| then blocks[i + 1] else 0
  {
    assert LinkOk(disk, blocks, i);
    var s := disk[blocks[i]];
    assert s[..4] == s[0..0 + 4];
    WordBytes(s, 0);
  }

  /** Byte `n` of a file stands in block `n / 508` of its chain, at byte `4 + n % 508`. */
  lemma {:induction false} ContentByte(disk: Disk, f: FileRec, n: nat)
    requires FileOnDisk(disk, f) && n < |f.data|
    ensures n / 508 < |f.blocks| && f.blocks[n / 508] < |disk|
    ensures disk[f.blocks[n / 508]][4 + n % 508] == f.data[n]
  {
    var i := n / 508;
    assert ChunkAt(disk, f, i);
    var s, c := disk[f.blocks[i]], Chunk(f.data, i);
    SliceBytes(s, 4, c);
    SliceBytes(f.data, 508 * i, c);
    assert c[n % 508] == f.data[n];
  }

  // ----- a finished image -----

  /** The entry of every child on the copier's image: type byte 1 with the file's size and first
      block, or type byte 2 with size 0 and the directory's first block; the rest is zero. */
  lemma {:induction false} ImageEntryBytes(disk: Disk, root: nat, fs: Fs, owner: map<nat, Owner>, p: Path, k: nat)
    requires Image(disk, root, fs, owner) && AllPlain(fs) && p in fs.dirs && k < |fs.dirs[p].entries|
    ensures var d := fs.dirs[p];
      k / 9 < |d.blocks| && d.blocks[k / 9] < |disk|
    ensures var d := fs.dirs[p]; var s, at, n := disk[d.blocks[k / 9]], 4 + 52 * (k % 9), d.entries[k].name;
      var q := p + [n];
      var size := s[at + 36] as int + 256 * s[at + 37] as int
        + 65536 * s[at + 38] as int + 16777216 * s[at + 39] as int;
      var first := s[at + 40] as int + 256 * s[at + 41] as int
        + 65536 * s[at + 42] as int + 16777216 * s[at + 43] as int;
      && 1 <= |n| <= 31 && (forall j :: 0 <= j < |n| ==> s[at + j] == n[j]) && s[at + |n|] == 0
      && (q in fs.files ==>
            && s[at + 32] == 1 && size == |fs.files[q].data|
            && first == if fs.files[q].blocks == [] then 0 else fs.files[q].blocks[0])
      && (q !in fs.files ==>
            q in fs.dirs && s[at + 32] == 2 && size == 0 && fs.dirs[q].blocks != [] && first == fs.dirs[q].blocks[0])
      && (forall x :: at + 33 <= x < at + 36 || at + 44 <= x < at + 52 ==> s[x] == 0)
  {
    var d := fs.dirs[p];
    var e := d.entries[k];
    assert DirOnDisk(disk, d) && EntryOk(fs, p, e) && Plain(e);
    StoredEntryBytes(disk, d, k);
    var s, at, q := disk[d.blocks[k / 9]], 4 + 52 * (k % 9), p + [e.name];
    SpareBytes(s, at, e);
    if q in fs.dirs { assert DirOnDisk(disk, fs.dirs[q]); }
  }

  lemma {:induction false} SpareBytes(s: Sector, at: nat, e: Dirent)
    requires at + 52 <= 512 && Plain(e)
    requires forall j :: 0 <= j < 3 ==> s[at + 33 + j] == e.misc[j]
    requires forall j :: 0 <= j < 8 ==> s[at + 44 + j] == e.extra[j]
    ensures forall x :: at + 33 <= x < at + 36 || at + 44 <= x < at + 52 ==> s[x] == 0
  {
    forall x | at + 33 <= x < at + 36 || at + 44 <= x < at + 52 ensures s[x] == 0 {
      if x < at + 36 {
        var j := x - at - 33;
        assert s[at + 33 + j] == e.misc[j];
      } else {
        var j := x - at - 44;
        assert s[at + 44 + j] == e.extra[j];
      }
    }
  }

  // ----- a formatted volume -----

  /** `FNYE`, version 11, blocks of 512 bytes, then four numbers, all low byte first. */
  lemma {:induction false} SuperblockBytes(s: Sector, total: u32, root: u32, bitmap: u32, names: u32)
    requires s == Superblock(total, root, bitmap, names)
    ensures s[0] == 0x46 && s[1] == 0x4E && s[2] == 0x59 && s[3] == 0x45
    ensures s[4] == 11 && s[5] == 0 && s[6] == 0 && s[7] == 0
    ensures s[8] == 0 && s[9] == 2 && s[10] == 0 && s[11] == 0
    ensures s[12] as int + 256 * s[13] as int + 65536 * s[14] as int + 16777216 * s[15] as int == total
    ensures s[16] as int + 256 * s[17] as int + 65536 * s[18] as int + 16777216 * s[19] as int == root
    ensures s[20] as int + 256 * s[21] as int + 65536 * s[22] as int + 16777216 * s[23] as int == bitmap
    ensures s[24] as int + 256 * s[25] as int + 65536 * s[26] as int + 16777216 * s[27] as int == names
  {
    SuperblockFields(total, root, bitmap, names);
    WordBytes(s, 12);
    WordBytes(s, 16);
    WordBytes(s, 20);
    WordBytes(s, 24);
    FirstTwelve(s, Le32(MAGIC), Le32(VERSION), Le32(512), s[12..]);
  }

  lemma {:induction false} FirstTwelve(s: seq<byte>, a: seq<byte>, b: seq<byte>, c: seq<byte>, rest: seq<byte>)
    requires |a| == 4 && |b| == 4 && |c| == 4 && s == a + b + c + rest
    ensures forall j :: 0 <= j < 4 ==> s[j] == a[j] && s[4 + j] == b[j] && s[8 + j] == c[j]
  {
  }

  /** Superblock, then `k` blocks of bitmap with 4096 bits each, just enough for `n` blocks, then the
      name table, then the root directory. */
  lemma {:induction false} VolumeLayout(n: nat, k: nat)
    requires n > 0 && RootBlock(n) == k + 2
    ensures 4096 * (k - 1) < n <= 4096 * k
  {
  }

  /** An empty volume, byte by byte: the superblock's numbers, bits 0 to root set and no others, the
      name table and the root directory zero. */
  lemma {:induction false} VolumeBytes(image: Disk, n: nat, k: nat)
    requires Formatted(image, n) && RootBlock(n) == k + 2
    ensures var s := image[0];
      && s[12] as int + 256 * s[13] as int + 65536 * s[14] as int + 16777216 * s[15] as int == n
      && s[16] as int + 256 * s[17] as int + 65536 * s[18] as int + 16777216 * s[19] as int == k + 2
      && s[20] as int + 256 * s[21] as int + 65536 * s[22] as int + 16777216 * s[23] as int == 1
      && s[24] as int + 256 * s[25] as int + 65536 * s[26] as int + 16777216 * s[27] as int == k + 1
    ensures var names, dir := image[k + 1], image[k + 2];
      forall j :: 0 <= j < 512 ==> names[j] == 0 && dir[j] == 0
  {
    SuperblockBytes(image[0], n, k + 2, 1, k + 1);
  }

  lemma {:induction false} VolumeBit(image: Disk, n: nat, b: nat)
    requires Formatted(image, n) && b < 4096 * (RootBlock(n) - 2)
    ensures b / 4096 < RootBlock(n) - 2
    ensures BitSet(image[1 + b / 4096], b % 4096) <==> b <= RootBlock(n)
  {
    var i := b / 4096;
    assert BitmapAt(image, n, i);
    SectorBit(Reserved(n), b);
    ReservedBits(n, b);
  }

  /** After a copy the marked blocks have no gap: they are those up to the root and, counting the root,
      as many after it as the copy took. */
  lemma {:induction false} CopiedBit(disk: Disk, root: nat, owner: map<nat, Owner>, b: nat)
    requires 2 <= root && root - 2 < |disk|
    requires BitmapOk(ReadSectors(disk, 1, root - 2), |disk|, root, owner) && Dense(owner, root, 0) && root in owner
    requires b < |disk|
    ensures b / 4096 < root - 2
    ensures BitSet(disk[1 + b / 4096], b % 4096) <==> b < root + |owner|
  {
    assert Placed(owner, root, b);
    SectorBit(ReadSectors(disk, 1, root - 2), b);
  }

  lemma {:induction false} SectorBit(bm: seq<byte>, b: nat)
    requires 512 * (b / 4096) + 512 <= |bm|
    ensures BitSet(bm, b) <==> BitSet(SectorOf(bm, b / 4096), b % 4096)
  {
    assert b / 8 == 512 * (b / 4096) + b % 4096 / 8 && b % 4096 % 8 == b % 8;
  }
}
