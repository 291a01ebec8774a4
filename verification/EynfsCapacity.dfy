/** devtools/build_installer_ramdisk.py: partition sizing, and why the copy never runs out. */
module EynfsCapacity {
  import opened Bytes
  import opened EynfsLayout
  import opened EynfsSource
  import opened EynfsWalk
  import opened EynfsFormat
  import opened EynfsPaths
  import opened EynfsReaders

  // ----- statistics of a tree -----

  function FilesBytes(files: seq<File>): nat
    decreases |files|
  {
    if files == [] then 0 else |files[0].data| + FilesBytes(files[1..])
  }

  /** Bytes of all files of a tree. */
  function TreeBytes(t: Tree): nat
    decreases t, 0
  {
    FilesBytes(t.files) + SubsBytes(t.subs)
  }

  function SubsBytes(subs: seq<Sub>): nat
    decreases subs
  {
    if subs == [] then 0 else TreeBytes(subs[0].tree) + SubsBytes(subs[1..])
  }

  /** Number of files of a tree. */
  function FileCount(t: Tree): nat
    decreases t, 0
  {
    |t.files| + SubsFileCount(t.subs)
  }

  function SubsFileCount(subs: seq<Sub>): nat
    decreases subs
  {
    if subs == [] then 0 else FileCount(subs[0].tree) + SubsFileCount(subs[1..])
  }

  /** Number of proper subdirectories of a tree. */
  function DirCount(t: Tree): nat
    decreases t, 0
  {
    SubsDirCount(t.subs)
  }

  function SubsDirCount(subs: seq<Sub>): nat
    decreases subs
  {
    if subs == [] then 0 else 1 + DirCount(subs[0].tree) + SubsDirCount(subs[1..])
  }

  // What `compute_tree_stats` adds up over the steps of a walk.

  function WalkBytes(vs: seq<Visit>): nat
    decreases |vs|
  {
    if vs == [] then 0 else FilesBytes(vs[0].files) + WalkBytes(vs[1..])
  }

  function WalkFiles(vs: seq<Visit>): nat
    decreases |vs|
  {
    if vs == [] then 0 else |vs[0].files| + WalkFiles(vs[1..])
  }

  function WalkDirs(vs: seq<Visit>): nat
    decreases |vs|
  {
    if vs == [] then 0 else |vs[0].dirs| + WalkDirs(vs[1..])
  }

  lemma {:induction false} WalkConcat(a: seq<Visit>, b: seq<Visit>)
    ensures WalkBytes(a + b) == WalkBytes(a) + WalkBytes(b)
    ensures WalkFiles(a + b) == WalkFiles(a) + WalkFiles(b)
    ensures WalkDirs(a + b) == WalkDirs(a) + WalkDirs(b)
    decreases |a|
  {
    if a == [] {
      assert a + b == b;
    } else {
      assert (a + b)[1..] == a[1..] + b;
      WalkConcat(a[1..], b);
    }
  }

  /** The walk counts every byte, every file and every subdirectory exactly once. */
  lemma {:induction false} StatsOfWalk(t: Tree, p: Path)
    ensures WalkBytes(Walk(t, p)) == TreeBytes(t)
    ensures WalkFiles(Walk(t, p)) == FileCount(t)
    ensures WalkDirs(Walk(t, p)) == DirCount(t)
    decreases t, 0
  {
    StatsOfSubs(t.subs, p);
    assert Walk(t, p)[1..] == WalkSubs(t.subs, p);
  }

  lemma {:induction false} StatsOfSubs(subs: seq<Sub>, p: Path)
    ensures WalkBytes(WalkSubs(subs, p)) == SubsBytes(subs)
    ensures WalkFiles(WalkSubs(subs, p)) == SubsFileCount(subs)
    ensures |subs| + WalkDirs(WalkSubs(subs, p)) == SubsDirCount(subs)
    decreases subs
  {
    if subs != [] {
      var q := p + [subs[0].name];
      StatsOfWalk(subs[0].tree, q);
      StatsOfSubs(subs[1..], p);
      WalkConcat(Walk(subs[0].tree, q), WalkSubs(subs[1..], p));
    }
  }

  /** `compute_tree_stats`. */
  method ComputeTreeStats(vs: seq<Visit>) returns (totalBytes: nat, fileCount: nat, dirCount: nat)
    ensures totalBytes == WalkBytes(vs) && fileCount == WalkFiles(vs) && dirCount == WalkDirs(vs)
  {
    totalBytes, fileCount, dirCount := 0, 0, 0;
    for i := 0 to |vs|
      invariant totalBytes + WalkBytes(vs[i..]) == WalkBytes(vs)
      invariant fileCount + WalkFiles(vs[i..]) == WalkFiles(vs)
      invariant dirCount + WalkDirs(vs[i..]) == WalkDirs(vs)
    {
      var files := vs[i].files;
      ghost var b0, f0 := totalBytes, fileCount;
      dirCount := dirCount + |vs[i].dirs|;
      for j := 0 to |files|
        invariant fileCount == f0 + j
        invariant totalBytes + FilesBytes(files[j..]) == b0 + FilesBytes(files)
      {
        fileCount := fileCount + 1;
        totalBytes := totalBytes + |files[j].data|;
        assert files[j..][1..] == files[j + 1..];
      }
      assert vs[i..][1..] == vs[i + 1..];
    }
  }

  // ----- the sizing arithmetic -----

  const MIN_SECTORS: nat := 6144

  /** `int((total_bytes + metadata_overhead) * 1.10)`, the factor taken as 11/10. */
  function RequiredBytes(bytes: nat, files: nat, dirs: nat): nat {
    (bytes + files * 1024 + dirs * 1024 + 768 * 1024) * 11 / 10
  }

  /** `part1_sectors` of `pick_partition_sizes` with the default environment. */
  function PartSectors(bytes: nat, files: nat, dirs: nat): (r: nat)
    ensures r >= MIN_SECTORS
  {
    var need := (RequiredBytes(bytes, files, dirs) + 511) / 512;
    if need < MIN_SECTORS then MIN_SECTORS else need
  }

  lemma {:induction false} FilesBound(files: seq<File>)
    ensures 508 * FilesCost(files) <= FilesBytes(files) + 507 * |files|
    decreases |files|
  {
    if files != [] {
      FilesBound(files[1..]);
      assert 508 * FileBlocks(files[0]) <= |files[0].data| + 507;
    }
  }

  /** Data blocks cost at most 507 wasted bytes a file, directory blocks one ninth a name plus one. */
  lemma {:induction false} TreeBound(t: Tree)
    ensures 4572 * Total(t) <= 9 * TreeBytes(t) + 5071 * FileCount(t) + 5080 * DirCount(t) + 4572
    decreases t, 0
  {
    var m := |t.files| + |t.subs|;
    assert 9 * DirBlocks(m) <= m + 9;
    FilesBound(t.files);
    SubsBound(t.subs);
  }

  lemma {:induction false} SubsBound(subs: seq<Sub>)
    ensures 4572 * SubsTotal(subs) + 508 * |subs| <=
      9 * SubsBytes(subs) + 5071 * SubsFileCount(subs) + 5080 * SubsDirCount(subs)
    decreases subs
  {
    if subs != [] {
      TreeBound(subs[0].tree);
      SubsBound(subs[1..]);
    }
  }

  /** The chosen size covers superblock, bitmap, name table and every block the copy takes. */
  lemma Fits(blocks: nat, bytes: nat, files: nat, dirs: nat)
    requires 4572 * blocks <= 9 * bytes + 5071 * files + 5080 * dirs + 4572
    ensures blocks + RootBlock(PartSectors(bytes, files, dirs)) <= PartSectors(bytes, files, dirs)
  {
    var n := PartSectors(bytes, files, dirs);
    var x := bytes + files * 1024 + dirs * 1024 + 768 * 1024;
    var req := x * 11 / 10;
    assert 11 * x <= 10 * req + 9;
    assert req <= 512 * n;
    LayoutFits(n);
    var q := n / 4096;
    assert RootBlock(n) <= q + 3 && 4096 * q <= n;
  }

  /** `part1_sectors` for a staged tree. */
  function SectorsFor(t: Tree): nat {
    PartSectors(TreeBytes(t), FileCount(t), DirCount(t))
  }

  /** Any staged tree fits the partition chosen for it. */
  lemma TreeFits(t: Tree)
    ensures Total(t) + RootBlock(SectorsFor(t)) <= SectorsFor(t)
  {
    TreeBound(t);
    Fits(Total(t), TreeBytes(t), FileCount(t), DirCount(t));
  }

  /** `pick_partition_sizes` for the EYNFS partition, over the walk of the staged tree. */
  method PickPartitionSize(t: Tree) returns (sectors: nat)
    ensures sectors == SectorsFor(t)
  {
    StatsOfWalk(t, []);
    var b, f, d := ComputeTreeStats(Walk(t, []));
    var overhead := f * 1024 + d * 1024 + 768 * 1024;
    var required := (b + overhead) * 11 / 10;
    sectors := if (required + 511) / 512 < MIN_SECTORS then MIN_SECTORS else (required + 511) / 512;
  }

  /** Stage, size, format, copy, read back: with the default headroom the copy never raises
      "No free blocks", and every path of the tree reads back exactly. */
  method BuildThenRead(t: Tree, path: seq<byte>, offset: nat, len: nat) returns (r: Option<Result<seq<byte>>>)
    requires ValidTree(t) && 0 !in path
    ensures r.None? <==> SectorsFor(t) >= 0x1_0000_0000
    ensures r.Some? ==> (r.value.Ok? <==> Components(path, 0) in TreeFiles(t, []))
    ensures r.Some? && r.value.Ok? ==>
      Some(r.value.value) == ReadSpec(TreeFiles(t, []), Components(path, 0), offset, len)
  {
    TreeFits(t);
    var n := PickPartitionSize(t);
    if n >= 0x1_0000_0000 {
      return None;
    }
    var image := FormatHost(n);
    var ok, res := CopyThenGrubRead(image, t, path, offset, len);
    assert ok;
    r := Some(res);
  }

  /** The size is the least number of sectors, 6144 or more, that holds a tenth more than the tree's
      bytes, a kilobyte for every file and directory, and 768 kilobytes. */
  lemma {:induction false} SizeIsLeast(bytes: nat, files: nat, dirs: nat, n: nat)
    requires n == PartSectors(bytes, files, dirs)
    ensures var need := bytes + 1024 * files + 1024 * dirs + 786432;
      && n >= 6144 && 11 * need < 5120 * n + 10
      && (n > 6144 ==> 5120 * (n - 1) < 11 * need)
  {
    var need := bytes + 1024 * files + 1024 * dirs + 786432;
    var req := need * 11 / 10;
    assert req == RequiredBytes(bytes, files, dirs);
    assert 10 * req <= 11 * need < 10 * req + 10;
    assert 512 * ((req + 511) / 512) >= req && 512 * ((req + 511) / 512) < req + 512;
  }
}
