/** The two independent readers: the GRUB module (grub-module-src/eynfs.c) and the
    host extractor (devtools/extract_from_eynfs.py). Both follow next pointers until
    zero, so they end only on zero-terminated chains; the ghost `chain` names it. */
module EynfsReaders {
  import opened Bytes
  import opened EynfsSector
  import opened EynfsLayout
  import opened EynfsTree

  const SLASH: byte := 47
  const COMP_MAX: nat := 127

  datatype Error = NotFound | NotDirectory | NotRegular
  datatype Result<+T> = Ok(value: T) | Err(error: Error)

  // ----- names -----

  /** A character of a NUL-terminated string, terminator included. */
  function CharAt(s: seq<byte>, i: nat): byte
    requires i <= |s|
  {
    if i < |s| then s[i] else 0
  }

  lemma CharsDiffer(raw: seq<byte>, name: Name, i: nat)
    requires i < |raw| && i < |name| && raw[i] != name[i]
    ensures CStr(raw) != name
  {
  }

  /** `eynfs_name_eq`, character by character. */
  method NameEq(raw: seq<byte>, name: Name) returns (eq: bool)
    requires |raw| == NAME_MAX && 0 !in name
    ensures eq <==> CStr(raw) == name
  {
    var i := 0;
    while i < NAME_MAX
      invariant 0 <= i <= NAME_MAX && i <= |name|
      invariant raw[..i] == name[..i]
    {
      var c, n := raw[i], CharAt(name, i);
      if n == 0 {
        if c == 0 { CStrUnique(raw, name); }
        return c == 0;
      }
      if c == 0 {
        CStrUnique(raw, name[..i]);
        return false;
      }
      if n != c {
        CharsDiffer(raw, name, i);
        return false;
      }
      i := i + 1;
    }
    eq := CharAt(name, i) == 0;
    if eq {
      CStrUnique(raw, name);
    }
  }

  // ----- directories -----

  ghost predicate InRange(disk: Disk, blocks: seq<nat>) {
    forall i :: 0 <= i < |blocks| ==> blocks[i] < |disk|
  }

  /** Slot number `k` of a chain: block `k / 9`, position `k % 9`. */
  function SlotSector(disk: Disk, blocks: seq<nat>, k: nat): Sector
    requires k < 9 * |blocks| && InRange(disk, blocks)
  {
    disk[blocks[k / 9]]
  }

  lemma SlotNumber(disk: Disk, d: DirRec, k: nat)
    requires DirOnDisk(disk, d) && k < 9 * |d.blocks|
    ensures SlotIs(SlotSector(disk, d.blocks, k), k % 9, d.entries, k)
  {
    assert SlotAt(disk, d, k / 9, k % 9);
    assert 9 * (k / 9) + k % 9 == k;
  }

  /** The first used slot at or after `k` whose name is `name`. */
  function FindFrom(disk: Disk, blocks: seq<nat>, k: nat, name: Name): Option<Dirent>
    requires InRange(disk, blocks) && k <= 9 * |blocks|
    decreases 9 * |blocks| - k
  {
    if k == 9 * |blocks| then None
    else
      var s := SlotSector(disk, blocks, k);
      if !SlotFree(s, k % 9) && SlotEntry(s, k % 9).name == name then Some(SlotEntry(s, k % 9))
      else FindFrom(disk, blocks, k + 1, name)
  }

  /** The inner loop of `eynfs_find_in_dir`: nine slots of one sector. */
  method FindInSector(disk: Disk, sector: Sector, name: Name, ghost chain: seq<nat>, ghost b: nat)
    returns (r: Option<Dirent>)
    requires 0 !in name && InRange(disk, chain) && b < |chain| && sector == disk[chain[b]]
    ensures r.Some? ==> FindFrom(disk, chain, 9 * b, name) == r
    ensures r.None? ==> FindFrom(disk, chain, 9 * b, name) == FindFrom(disk, chain, 9 * b + 9, name)
  {
    for i := 0 to 9
      invariant FindFrom(disk, chain, 9 * b, name) == FindFrom(disk, chain, 9 * b + i, name)
    {
      assert (9 * b + i) / 9 == b && (9 * b + i) % 9 == i;
      if SlotBytes(sector, i)[0] != 0 {
        var eq := NameEq(SlotBytes(sector, i)[..32], name);
        if eq {
          return Some(SlotEntry(sector, i));
        }
      }
    }
    r := None;
  }

  /** `eynfs_find_in_dir`. */
  method FindInDir(disk: Disk, dir: nat, name: Name, ghost chain: seq<nat>) returns (r: Option<Dirent>)
    requires 0 !in name && Chain(disk, chain) && dir == FirstOf(chain)
    ensures r == FindFrom(disk, chain, 0, name)
  {
    var block := dir;
    ghost var b := 0;
    while block != 0
      invariant 0 <= b <= |chain| && block == (if b < |chain| then chain[b] else 0)
      invariant FindFrom(disk, chain, 0, name) == FindFrom(disk, chain, 9 * b, name)
      decreases |chain| - b
    {
      var sector := disk[block];
      assert LinkOk(disk, chain, b);
      r := FindInSector(disk, sector, name, chain, b);
      if r.Some? {
        return;
      }
      block := NextOf(sector);
      b := b + 1;
    }
    r := None;
  }

  /** The entry of that name, if the directory has one. */
  ghost function EntryNamed(es: seq<Dirent>, name: Name): Option<Dirent> {
    if exists k :: 0 <= k < |es| && es[k].name == name
    then var k :| 0 <= k < |es| && es[k].name == name; Some(es[k])
    else None
  }

  /** Searching a stored directory finds exactly its entry of that name. */
  lemma {:induction false} FindStored(disk: Disk, d: DirRec, name: Name, m: nat)
    requires DirOnDisk(disk, d) && NamesDistinct(d.entries) && m <= 9 * |d.blocks|
    requires forall k :: 0 <= k < m && k < |d.entries| ==> d.entries[k].name != name
    ensures FindFrom(disk, d.blocks, m, name) == EntryNamed(d.entries, name)
    decreases 9 * |d.blocks| - m
  {
    if m < 9 * |d.blocks| {
      SlotNumber(disk, d, m);
      if m < |d.entries| && d.entries[m].name == name {
        assert forall k :: 0 <= k < |d.entries| && d.entries[k].name == name ==> k == m;
      } else {
        FindStored(disk, d, name, m + 1);
      }
    }
  }

  /** Of several entries of one name, the search finds the first: the others are never reached. */
  lemma {:induction false} FindFirst(disk: Disk, d: DirRec, name: Name, m: nat, k: nat)
    requires DirOnDisk(disk, d) && m <= k < |d.entries| && d.entries[k].name == name
    requires forall j :: m <= j < k ==> d.entries[j].name != name
    ensures m <= 9 * |d.blocks| && FindFrom(disk, d.blocks, m, name) == Some(d.entries[k])
    decreases k - m
  {
    SlotNumber(disk, d, m);
    if m < k { FindFirst(disk, d, name, m + 1, k); }
  }

  /** A second entry of a name leaves every search as it was. */
  lemma {:induction false} SecondUnreached(disk: Disk, d: DirRec, i: nat, j: nat)
    requires DirOnDisk(disk, d) && i < j < |d.entries| && d.entries[i].name == d.entries[j].name
    requires forall k :: 0 <= k < i ==> d.entries[k].name != d.entries[j].name
    ensures FindFrom(disk, d.blocks, 0, d.entries[j].name) == Some(d.entries[i])
  {
    FindFirst(disk, d, d.entries[j].name, 0, i);
  }

  // ----- files -----

  /** `eynfs_read`: skip whole blocks, then copy. */
  method GrubRead(disk: Disk, first: nat, size: nat, offset: nat, len: nat, ghost f: FileRec) returns (buf: seq<byte>)
    requires FileOnDisk(disk, f) && first == FirstOf(f.blocks) && size == |f.data|
    ensures buf == if offset >= size then [] else f.data[offset..Min(offset + len, size)]
  {
    if offset >= size {
      return [];
    }
    var want := if len > size - offset then size - offset else len;
    var block, start := first, offset;
    ghost var i := 0;
    while block != 0 && start >= 508
      invariant 0 <= i <= |f.blocks| && block == (if i < |f.blocks| then f.blocks[i] else 0)
      invariant start + 508 * i == offset && start >= 0
      decreases |f.blocks| - i
    {
      assert LinkOk(disk, f.blocks, i);
      block := NextOf(disk[block]);
      start := start - 508;
      i := i + 1;
    }
    buf := CopyOut(disk, block, start, want, f, i, offset);
  }

  /** The copying loop of `eynfs_read`. */
  method CopyOut(disk: Disk, block0: nat, start0: nat, want: nat, ghost f: FileRec, ghost i0: nat, ghost offset: nat)
    returns (buf: seq<byte>)
    requires FileOnDisk(disk, f) && i0 <= |f.blocks| && block0 == (if i0 < |f.blocks| then f.blocks[i0] else 0)
    requires offset == start0 + 508 * i0 && (block0 != 0 ==> start0 < 508) && offset + want <= |f.data|
    ensures buf == f.data[offset..offset + want]
  {
    var block, start, remaining := block0, start0, want;
    ghost var i := i0;
    buf := [];
    while block != 0 && remaining > 0
      invariant i0 <= i <= |f.blocks| && block == (if i < |f.blocks| then f.blocks[i] else 0)
      invariant 0 <= start && 0 <= remaining && |buf| + remaining == want
      invariant buf == f.data[offset..offset + |buf|]
      invariant remaining > 0 ==> offset + |buf| == start + 508 * i && (block != 0 ==> start < 508)
      decreases |f.blocks| - i
    {
      assert LinkOk(disk, f.blocks, i) && ChunkAt(disk, f, i);
      var sector := disk[block];
      var avail := 508 - start;
      var take := if remaining < avail then remaining else avail;
      ChunkSlice(sector, f.data, i, start, take);
      buf := buf + sector[4 + start..4 + start + take];
      remaining := remaining - take;
      block := NextOf(sector);
      start := 0;
      i := i + 1;
    }
  }

  /** Payload bytes of block `i` are bytes of the file. */
  lemma ChunkSlice(s: Sector, data: seq<byte>, i: nat, start: nat, take: nat)
    requires HoldsChunk(s, data, i) && start + take <= 508 && 508 * i + start + take <= |data|
    ensures s[4 + start..4 + start + take] == data[508 * i + start..508 * i + start + take]
  {
    var c := Chunk(data, i);
    assert start + take <= |c|;
    var p := s[4..4 + |c|];
    assert p[start..start + take] == c[start..start + take];
    SliceOfSlice(s, 4, 4 + |c|, start, start + take);
    SliceOfSlice(data, 508 * i, 508 * i + |c|, start, start + take);
  }

  lemma SliceOfSlice<T>(s: seq<T>, lo: nat, hi: nat, a: nat, b: nat)
    requires lo <= hi <= |s| && a <= b <= hi - lo
    ensures s[lo..hi][a..b] == s[lo + a..lo + b]
  {
    var x, y := s[lo..hi][a..b], s[lo + a..lo + b];
    assert |x| == |y|;
    forall k | 0 <= k < |x| ensures x[k] == y[k] {
      assert x[k] == s[lo..hi][a + k] == s[lo + (a + k)];
    }
  }

  /** `extract_file`: the whole-file reader. */
  method ExtractFile(disk: Disk, first: nat, size0: nat, ghost f: FileRec) returns (out: seq<byte>)
    requires size0 == |f.data| && (size0 > 0 ==> FileOnDisk(disk, f) && first == FirstOf(f.blocks))
    ensures out == f.data
  {
    var size, block := size0, first;
    ghost var i := 0;
    out := [];
    while size > 0 && block != 0
      invariant 0 <= i <= |f.blocks|
      invariant size0 > 0 ==> block == (if i < |f.blocks| then f.blocks[i] else 0)
      invariant 0 <= size && |out| + size == |f.data|
      invariant out == f.data[..|out|]
      invariant size > 0 ==> |out| == 508 * i
      decreases |f.blocks| - i
    {
      assert LinkOk(disk, f.blocks, i) && ChunkAt(disk, f, i);
      var data := disk[block];
      var take := Min(size, 508);
      ChunkSlice(data, f.data, i, 0, take);
      out := out + data[4..4 + take];
      size := size - take;
      block := NextOf(data);
      i := i + 1;
    }
  }
}
