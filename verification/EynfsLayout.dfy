/** What it means for a disk to hold a file tree: block chains, ownership of
    blocks, and directory entries, with the lemmas that each write keeps them. */
module EynfsLayout {
  import opened Bytes
  import opened EynfsSector

  type Path = seq<Name>
  type Disk = seq<Sector>

  datatype DirRec = DirRec(blocks: seq<nat>, entries: seq<Dirent>)
  datatype FileRec = FileRec(blocks: seq<nat>, data: seq<byte>)

  /** Every directory and file on the image, with the blocks that hold it. */
  datatype Fs = Fs(dirs: map<Path, DirRec>, files: map<Path, FileRec>)

  /** Which chain a block belongs to, and where in it. */
  datatype Owner = DirBlock(path: Path, idx: nat) | FileBlock(path: Path, idx: nat)

  // ----- chains -----

  function LinkAfter(blocks: seq<nat>, i: nat): nat {
    if i + 1 < |blocks| then blocks[i + 1] else 0
  }

  ghost predicate LinkOk(disk: Disk, blocks: seq<nat>, i: nat)
    requires i < |blocks|
  {
    blocks[i] < |disk| && NextOf(disk[blocks[i]]) == LinkAfter(blocks, i)
  }

  /** `blocks` is a zero-terminated chain of in-range blocks. */
  ghost predicate Chain(disk: Disk, blocks: seq<nat>) {
    && (forall i :: 0 <= i < |blocks| ==> 0 < blocks[i] < |disk|)
    && (forall i :: 0 <= i < |blocks| ==> LinkOk(disk, blocks, i))
  }

  /** The block number a directory entry stores for a chain. */
  function FirstOf(blocks: seq<nat>): nat {
    if blocks == [] then 0 else blocks[0]
  }

  // ----- directories and files -----

  /** Slot `j` of a block holds entry number `k`, or is free when there is none. */
  ghost predicate SlotIs(s: Sector, j: nat, entries: seq<Dirent>, k: nat)
    requires j < PER_BLOCK
  {
    if k < |entries| then !SlotFree(s, j) && SlotEntry(s, j) == entries[k] else SlotFree(s, j)
  }

  ghost predicate SlotAt(disk: Disk, d: DirRec, i: nat, j: nat)
    requires i < |d.blocks| && d.blocks[i] < |disk| && j < PER_BLOCK
  {
    SlotIs(disk[d.blocks[i]], j, d.entries, 9 * i + j)
  }

  ghost predicate DirOnDisk(disk: Disk, d: DirRec) {
    && Chain(disk, d.blocks)
    && 1 <= |d.blocks| && |d.entries| <= 9 * |d.blocks|
    && forall i, j :: 0 <= i < |d.blocks| && 0 <= j < PER_BLOCK ==> SlotAt(disk, d, i, j)
  }

  /** The bytes that block `i` of a file carries. */
  function Chunk(data: seq<byte>, i: nat): (r: seq<byte>)
    requires 508 * i <= |data|
    ensures |r| <= PAYLOAD
  {
    data[508 * i..Min(508 * i + 508, |data|)]
  }

  ghost predicate HoldsChunk(s: Sector, data: seq<byte>, i: nat) {
    508 * i <= |data| && s[4..4 + |Chunk(data, i)|] == Chunk(data, i)
  }

  ghost predicate ChunkAt(disk: Disk, f: FileRec, i: nat)
    requires i < |f.blocks| && f.blocks[i] < |disk|
  {
    HoldsChunk(disk[f.blocks[i]], f.data, i)
  }

  ghost predicate FileOnDisk(disk: Disk, f: FileRec) {
    && Chain(disk, f.blocks)
    && |f.blocks| == CeilDiv(|f.data|, 508)
    && forall i :: 0 <= i < |f.blocks| ==> ChunkAt(disk, f, i)
  }

  // ----- ownership -----

  ghost predicate OwnsDir(owner: map<nat, Owner>, p: Path, d: DirRec) {
    forall i :: 0 <= i < |d.blocks| ==> d.blocks[i] in owner && owner[d.blocks[i]] == DirBlock(p, i)
  }

  ghost predicate OwnsFile(owner: map<nat, Owner>, p: Path, f: FileRec) {
    forall i :: 0 <= i < |f.blocks| ==> f.blocks[i] in owner && owner[f.blocks[i]] == FileBlock(p, i)
  }

  /** An owned block really is in the chain its owner names, so nothing is leaked. */
  ghost predicate InUse(fs: Fs, b: nat, o: Owner) {
    match o
    case DirBlock(p, i) => p in fs.dirs && i < |fs.dirs[p].blocks| && fs.dirs[p].blocks[i] == b
    case FileBlock(p, i) => p in fs.files && i < |fs.files[p].blocks| && fs.files[p].blocks[i] == b
  }

  ghost predicate Owned(fs: Fs, owner: map<nat, Owner>) {
    && (forall p {:trigger OwnsDir(owner, p, fs.dirs[p])} :: p in fs.dirs ==> OwnsDir(owner, p, fs.dirs[p]))
    && (forall p {:trigger OwnsFile(owner, p, fs.files[p])} :: p in fs.files ==> OwnsFile(owner, p, fs.files[p]))
    && (forall b {:trigger InUse(fs, b, owner[b])} :: b in owner ==> InUse(fs, b, owner[b]))
  }

  /** The storage invariant: all chains well formed, disjoint, above the
      reserved area, and accounted for block by block. */
  ghost predicate Core(disk: Disk, root: nat, fs: Fs, owner: map<nat, Owner>) {
    && 0 < root < |disk| < 0x1_0000_0000
    && (forall p {:trigger DirOnDisk(disk, fs.dirs[p])} :: p in fs.dirs ==> DirOnDisk(disk, fs.dirs[p]))
    && (forall p {:trigger FileOnDisk(disk, fs.files[p])} :: p in fs.files ==> FileOnDisk(disk, fs.files[p]))
    && Owned(fs, owner)
    && (forall b :: b in owner ==> root <= b < |disk|)
    && [] in fs.dirs && FirstOf(fs.dirs[[]].blocks) == root
  }

  // ----- frame lemmas -----

  ghost predicate SameOn(disk: Disk, disk': Disk, blocks: seq<nat>) {
    && |disk'| == |disk|
    && forall i :: 0 <= i < |blocks| && blocks[i] < |disk| ==> disk'[blocks[i]] == disk[blocks[i]]
  }

  lemma ChainFrame(disk: Disk, disk': Disk, blocks: seq<nat>)
    requires Chain(disk, blocks) && SameOn(disk, disk', blocks)
    ensures Chain(disk', blocks)
  {
    forall i | 0 <= i < |blocks| ensures LinkOk(disk', blocks, i) {
      assert LinkOk(disk, blocks, i);
    }
  }

  lemma DirFrame(disk: Disk, disk': Disk, d: DirRec)
    requires DirOnDisk(disk, d) && SameOn(disk, disk', d.blocks)
    ensures DirOnDisk(disk', d)
  {
    ChainFrame(disk, disk', d.blocks);
    forall i, j | 0 <= i < |d.blocks| && 0 <= j < PER_BLOCK
      ensures SlotAt(disk', d, i, j)
    {
      assert SlotAt(disk, d, i, j);
    }
  }

  lemma FileFrame(disk: Disk, disk': Disk, f: FileRec)
    requires FileOnDisk(disk, f) && SameOn(disk, disk', f.blocks)
    ensures FileOnDisk(disk', f)
  {
    ChainFrame(disk, disk', f.blocks);
    forall i | 0 <= i < |f.blocks|
      ensures ChunkAt(disk', f, i)
    {
      assert ChunkAt(disk, f, i);
    }
  }

  /** A block that belongs to nobody, or to somebody else, is in none of these chains. */
  lemma OtherDirUntouched(
    disk: Disk, disk': Disk, root: nat, fs: Fs, owner: map<nat, Owner>, p: Path, touched: set<nat>)
    requires Core(disk, root, fs, owner) && p in fs.dirs
    requires |disk'| == |disk| && forall b :: 0 <= b < |disk| && b !in touched ==> disk'[b] == disk[b]
    requires forall b :: b in touched ==> b !in owner || owner[b].FileBlock? || owner[b].path != p
    ensures DirOnDisk(disk', fs.dirs[p])
  {
    assert OwnsDir(owner, p, fs.dirs[p]);
    DirFrame(disk, disk', fs.dirs[p]);
  }

  lemma OtherFileUntouched(
    disk: Disk, disk': Disk, root: nat, fs: Fs, owner: map<nat, Owner>, p: Path, touched: set<nat>)
    requires Core(disk, root, fs, owner) && p in fs.files
    requires |disk'| == |disk| && forall b :: 0 <= b < |disk| && b !in touched ==> disk'[b] == disk[b]
    requires forall b :: b in touched ==> b !in owner || owner[b].DirBlock? || owner[b].path != p
    ensures FileOnDisk(disk', fs.files[p])
  {
    assert OwnsFile(owner, p, fs.files[p]);
    FileFrame(disk, disk', fs.files[p]);
  }

  // ----- growing a file -----

  function DataSector(chunk: seq<byte>): (s: Sector)
    requires |chunk| <= PAYLOAD
    ensures NextOf(s) == 0 && s[4..4 + |chunk|] == chunk
  {
    Splice(Zeros(512), 4, chunk)
  }

  function Relink(disk: Disk, prev: nat, b: nat): (r: Disk)
    requires prev < |disk| && b < 0x1_0000_0000
    ensures |r| == |disk|
  {
    if prev == 0 then disk else disk[prev := SetNext(disk[prev], b)]
  }

  function PutFileBlock(disk: Disk, prev: nat, b: nat, chunk: seq<byte>): (r: Disk)
    requires prev < |disk| && b < |disk| < 0x1_0000_0000 && |chunk| <= PAYLOAD
    ensures |r| == |disk|
  {
    Relink(disk, prev, b)[b := DataSector(chunk)]
  }

  function LastOf(blocks: seq<nat>): nat {
    if blocks == [] then 0 else blocks[|blocks| - 1]
  }

  function GrowFile(f: FileRec, b: nat, chunk: seq<byte>): FileRec {
    FileRec(f.blocks + [b], f.data + chunk)
  }

  /** Linking the tail to a zero-terminated block extends the chain by that block. */
  lemma RelinkedChain(disk: Disk, blocks: seq<nat>, b: nat, s: Sector)
    requires Chain(disk, blocks) && 0 < b < |disk| < 0x1_0000_0000 && b !in blocks && NextOf(s) == 0
    requires forall i, j :: 0 <= i < j < |blocks| ==> blocks[i] != blocks[j]
    ensures Chain(Relink(disk, LastOf(blocks), b)[b := s], blocks + [b])
  {
    var disk', blocks' := Relink(disk, LastOf(blocks), b)[b := s], blocks + [b];
    forall i | 0 <= i < |blocks'| ensures LinkOk(disk', blocks', i) {
      if i < |blocks| {
        assert LinkOk(disk, blocks, i);
        SetNextEffect(disk[blocks[i]], b);
      }
    }
  }

  lemma ChunkOfLonger(data: seq<byte>, more: seq<byte>, i: nat)
    requires 508 * i + 508 <= |data|
    ensures Chunk(data + more, i) == Chunk(data, i) && |Chunk(data, i)| == PAYLOAD
  {
  }

  /** The grown file's own chain. */
  lemma GrownFileOnDisk(disk: Disk, f: FileRec, b: nat, chunk: seq<byte>)
    requires FileOnDisk(disk, f) && |f.data| == 508 * |f.blocks|
    requires 0 < b < |disk| < 0x1_0000_0000 && b !in f.blocks && 0 < |chunk| <= PAYLOAD
    requires forall i, j :: 0 <= i < j < |f.blocks| ==> f.blocks[i] != f.blocks[j]
    ensures FileOnDisk(PutFileBlock(disk, LastOf(f.blocks), b, chunk), GrowFile(f, b, chunk))
  {
    var prev := LastOf(f.blocks);
    var disk' := PutFileBlock(disk, prev, b, chunk);
    var f' := GrowFile(f, b, chunk);
    var n := |f.blocks|;
    RelinkedChain(disk, f.blocks, b, DataSector(chunk));
    if n > 0 { SetNextEffect(disk[prev], b); }
    forall i | 0 <= i < n + 1
      ensures ChunkAt(disk', f', i)
    {
      if i < n {
        assert ChunkAt(disk, f, i);
        ChunkOfLonger(f.data, chunk, i);
        assert disk'[f.blocks[i]][4..] == disk[f.blocks[i]][4..];
        assert disk'[f.blocks[i]][4..512] == disk[f.blocks[i]][4..512];
      } else {
        assert Chunk(f'.data, n) == chunk;
      }
    }
  }

  function WithFile(fs: Fs, q: Path, f: FileRec): Fs {
    fs.(files := fs.files[q := f])
  }

  function WithDir(fs: Fs, p: Path, d: DirRec): Fs {
    fs.(dirs := fs.dirs[p := d])
  }

  lemma BlocksDistinct(disk: Disk, root: nat, fs: Fs, owner: map<nat, Owner>)
    requires Core(disk, root, fs, owner)
    ensures forall p, i, j :: p in fs.files && 0 <= i < j < |fs.files[p].blocks| ==>
      fs.files[p].blocks[i] != fs.files[p].blocks[j]
    ensures forall p, i, j :: p in fs.dirs && 0 <= i < j < |fs.dirs[p].blocks| ==>
      fs.dirs[p].blocks[i] != fs.dirs[p].blocks[j]
  {
    forall p, i, j | p in fs.files && 0 <= i < j < |fs.files[p].blocks|
      ensures fs.files[p].blocks[i] != fs.files[p].blocks[j]
    {
      assert OwnsFile(owner, p, fs.files[p]);
    }
    forall p, i, j | p in fs.dirs && 0 <= i < j < |fs.dirs[p].blocks|
      ensures fs.dirs[p].blocks[i] != fs.dirs[p].blocks[j]
    {
      assert OwnsDir(owner, p, fs.dirs[p]);
    }
  }

  /** Chains of different files and directories share no block. */
  lemma ChainsDisjoint(disk: Disk, root: nat, fs: Fs, owner: map<nat, Owner>, p: Path, q: Path)
    requires Core(disk, root, fs, owner)
    ensures p in fs.files && q in fs.files && p != q ==>
      forall i, j :: 0 <= i < |fs.files[p].blocks| && 0 <= j < |fs.files[q].blocks| ==>
        fs.files[p].blocks[i] != fs.files[q].blocks[j]
    ensures p in fs.dirs && q in fs.dirs && p != q ==>
      forall i, j :: 0 <= i < |fs.dirs[p].blocks| && 0 <= j < |fs.dirs[q].blocks| ==>
        fs.dirs[p].blocks[i] != fs.dirs[q].blocks[j]
    ensures p in fs.dirs && q in fs.files ==>
      forall i, j :: 0 <= i < |fs.dirs[p].blocks| && 0 <= j < |fs.files[q].blocks| ==>
        fs.dirs[p].blocks[i] != fs.files[q].blocks[j]
  {
    if p in fs.files { assert OwnsFile(owner, p, fs.files[p]); }
    if q in fs.files { assert OwnsFile(owner, q, fs.files[q]); }
    if p in fs.dirs { assert OwnsDir(owner, p, fs.dirs[p]); }
    if q in fs.dirs { assert OwnsDir(owner, q, fs.dirs[q]); }
  }

  /** Rewriting one directory, through its own or unowned blocks, disturbs nothing else. */
  lemma DirStep(disk: Disk, disk': Disk, root: nat, fs: Fs, owner: map<nat, Owner>, owner': map<nat, Owner>,
                p: Path, d': DirRec, touched: set<nat>)
    requires Core(disk, root, fs, owner)
    requires |disk'| == |disk| && forall b :: 0 <= b < |disk| && b !in touched ==> disk'[b] == disk[b]
    requires forall b :: b in touched ==> b !in owner || (owner[b].DirBlock? && owner[b].path == p)
    requires DirOnDisk(disk', d') && Owned(WithDir(fs, p, d'), owner')
    requires forall b :: b in owner' ==> root <= b < |disk|
    requires p == [] ==> FirstOf(d'.blocks) == root
    ensures Core(disk', root, WithDir(fs, p, d'), owner')
  {
    var fs' := WithDir(fs, p, d');
    forall x | x in fs'.dirs ensures DirOnDisk(disk', fs'.dirs[x]) {
      if x != p { OtherDirUntouched(disk, disk', root, fs, owner, x, touched); }
    }
    forall x | x in fs'.files ensures FileOnDisk(disk', fs'.files[x]) {
      OtherFileUntouched(disk, disk', root, fs, owner, x, touched);
    }
  }

  lemma FileStep(disk: Disk, disk': Disk, root: nat, fs: Fs, owner: map<nat, Owner>, owner': map<nat, Owner>,
                 q: Path, f': FileRec, touched: set<nat>)
    requires Core(disk, root, fs, owner)
    requires |disk'| == |disk| && forall b :: 0 <= b < |disk| && b !in touched ==> disk'[b] == disk[b]
    requires forall b :: b in touched ==> b !in owner || (owner[b].FileBlock? && owner[b].path == q)
    requires FileOnDisk(disk', f') && Owned(WithFile(fs, q, f'), owner')
    requires forall b :: b in owner' ==> root <= b < |disk|
    ensures Core(disk', root, WithFile(fs, q, f'), owner')
  {
    var fs' := WithFile(fs, q, f');
    forall x | x in fs'.dirs ensures DirOnDisk(disk', fs'.dirs[x]) {
      OtherDirUntouched(disk, disk', root, fs, owner, x, touched);
    }
    forall x | x in fs'.files ensures FileOnDisk(disk', fs'.files[x]) {
      if x != q { OtherFileUntouched(disk, disk', root, fs, owner, x, touched); }
    }
  }

  /** Handing an unowned block to a directory, new or old, keeps the books balanced. */
  lemma NewOwnerOfDir(fs: Fs, owner: map<nat, Owner>, p: Path, b: nat, d': DirRec)
    requires Owned(fs, owner) && b !in owner
    requires d'.blocks == (if p in fs.dirs then fs.dirs[p].blocks else []) + [b]
    ensures Owned(WithDir(fs, p, d'), owner[b := DirBlock(p, |d'.blocks| - 1)])
  {
    var fs', owner' := WithDir(fs, p, d'), owner[b := DirBlock(p, |d'.blocks| - 1)];
    forall x | x in fs'.dirs ensures OwnsDir(owner', x, fs'.dirs[x]) {
      if x in fs.dirs { assert OwnsDir(owner, x, fs.dirs[x]); }
    }
    forall x | x in fs'.files ensures OwnsFile(owner', x, fs'.files[x]) {
      assert OwnsFile(owner, x, fs.files[x]);
    }
    forall x | x in owner' ensures InUse(fs', x, owner'[x]) {
      if x != b { assert InUse(fs, x, owner[x]); }
    }
  }

  lemma SameOwnerOfDir(fs: Fs, owner: map<nat, Owner>, p: Path, d': DirRec)
    requires Owned(fs, owner) && p in fs.dirs && d'.blocks == fs.dirs[p].blocks
    ensures Owned(WithDir(fs, p, d'), owner)
  {
    var fs' := WithDir(fs, p, d');
    forall x | x in fs'.dirs ensures OwnsDir(owner, x, fs'.dirs[x]) {
      assert OwnsDir(owner, x, fs.dirs[x]);
    }
    forall x | x in owner ensures InUse(fs', x, owner[x]) {
      assert InUse(fs, x, owner[x]);
    }
  }

  lemma NewOwnerOfFile(fs: Fs, owner: map<nat, Owner>, q: Path, b: nat, chunk: seq<byte>)
    requires Owned(fs, owner) && q in fs.files && b !in owner
    ensures Owned(WithFile(fs, q, GrowFile(fs.files[q], b, chunk)), owner[b := FileBlock(q, |fs.files[q].blocks|)])
  {
    var fs', owner' := WithFile(fs, q, GrowFile(fs.files[q], b, chunk)), owner[b := FileBlock(q, |fs.files[q].blocks|)];
    forall p | p in fs'.dirs ensures OwnsDir(owner', p, fs'.dirs[p]) {
      assert OwnsDir(owner, p, fs.dirs[p]);
    }
    forall p | p in fs'.files ensures OwnsFile(owner', p, fs'.files[p]) {
      assert p in fs.files && OwnsFile(owner, p, fs.files[p]);
    }
    forall x | x in owner' ensures InUse(fs', x, owner'[x]) {
      if x != b { assert InUse(fs, x, owner[x]); }
    }
  }

  lemma GrowFileKeepsCore(disk: Disk, root: nat, fs: Fs, owner: map<nat, Owner>, q: Path, b: nat, chunk: seq<byte>)
    requires Core(disk, root, fs, owner) && q in fs.files
    requires |fs.files[q].data| == 508 * |fs.files[q].blocks|
    requires root < b < |disk| && b !in owner && 0 < |chunk| <= PAYLOAD
    ensures LastOf(fs.files[q].blocks) < |disk|
    ensures Core(PutFileBlock(disk, LastOf(fs.files[q].blocks), b, chunk), root,
                 WithFile(fs, q, GrowFile(fs.files[q], b, chunk)), owner[b := FileBlock(q, |fs.files[q].blocks|)])
  {
    var f := fs.files[q];
    assert FileOnDisk(disk, f) && OwnsFile(owner, q, f);
    var prev := LastOf(f.blocks);
    var disk' := PutFileBlock(disk, prev, b, chunk);
    BlocksDistinct(disk, root, fs, owner);
    GrownFileOnDisk(disk, f, b, chunk);
    NewOwnerOfFile(fs, owner, q, b, chunk);
    FileStep(disk, disk', root, fs, owner, owner[b := FileBlock(q, |f.blocks|)], q, GrowFile(f, b, chunk), {prev, b});
  }

  lemma NewFileKeepsCore(disk: Disk, root: nat, fs: Fs, owner: map<nat, Owner>, q: Path)
    requires Core(disk, root, fs, owner) && q !in fs.files
    ensures Core(disk, root, WithFile(fs, q, FileRec([], [])), owner)
  {
    var fs' := WithFile(fs, q, FileRec([], []));
    forall p | p in fs'.files ensures OwnsFile(owner, p, fs'.files[p]) {
      if p != q { assert OwnsFile(owner, p, fs.files[p]); }
    }
    forall b | b in owner ensures InUse(fs', b, owner[b]) {
      assert InUse(fs, b, owner[b]);
    }
  }

  // ----- making and growing directories -----

  lemma ZeroSectorFree(j: nat)
    requires j < PER_BLOCK
    ensures SlotFree(Zeros(512), j) && NextOf(Zeros(512)) == 0
  {
  }

  lemma EmptyDirOnDisk(disk: Disk, b: nat)
    requires 0 < b < |disk|
    ensures DirOnDisk(disk[b := Zeros(512)], DirRec([b], []))
  {
    var disk', d := disk[b := Zeros(512)], DirRec([b], []);
    forall i, j | 0 <= i < 1 && 0 <= j < PER_BLOCK ensures SlotAt(disk', d, i, j) {
      ZeroSectorFree(j);
    }
    ZeroSectorFree(0);
    assert LinkOk(disk', d.blocks, 0);
  }

  lemma NewDirKeepsCore(disk: Disk, root: nat, fs: Fs, owner: map<nat, Owner>, p: Path, b: nat)
    requires Core(disk, root, fs, owner) && p !in fs.dirs
    requires root < b < |disk| && b !in owner
    ensures Core(disk[b := Zeros(512)], root, WithDir(fs, p, DirRec([b], [])), owner[b := DirBlock(p, 0)])
  {
    var disk', d := disk[b := Zeros(512)], DirRec([b], []);
    EmptyDirOnDisk(disk, b);
    NewOwnerOfDir(fs, owner, p, b, d);
    DirStep(disk, disk', root, fs, owner, owner[b := DirBlock(p, 0)], p, d, {b});
  }

  /** `_alloc_dir_entry_slot`, growth part: link the tail to a zeroed block. */
  function PutDirBlock(disk: Disk, prev: nat, b: nat): (r: Disk)
    requires prev < |disk| && b < |disk| < 0x1_0000_0000
    ensures |r| == |disk|
  {
    Relink(disk, prev, b)[b := Zeros(512)]
  }

  function GrowDir(d: DirRec, b: nat): DirRec {
    d.(blocks := d.blocks + [b])
  }

  lemma GrownDirOnDisk(disk: Disk, d: DirRec, b: nat)
    requires DirOnDisk(disk, d)
    requires 0 < b < |disk| < 0x1_0000_0000 && b !in d.blocks
    requires forall i, j :: 0 <= i < j < |d.blocks| ==> d.blocks[i] != d.blocks[j]
    ensures DirOnDisk(PutDirBlock(disk, LastOf(d.blocks), b), GrowDir(d, b))
  {
    var n := |d.blocks|;
    var prev := LastOf(d.blocks);
    var disk' := PutDirBlock(disk, prev, b);
    var d' := GrowDir(d, b);
    ZeroSectorFree(0);
    RelinkedChain(disk, d.blocks, b, Zeros(512));
    forall i, j | 0 <= i < n + 1 && 0 <= j < PER_BLOCK ensures SlotAt(disk', d', i, j) {
      ZeroSectorFree(j);
      if i < n {
        assert SlotAt(disk, d, i, j);
        SetNextKeepsSlot(disk[d.blocks[i]], b, j);
      }
    }
  }

  lemma GrowDirKeepsCore(disk: Disk, root: nat, fs: Fs, owner: map<nat, Owner>, p: Path, b: nat)
    requires Core(disk, root, fs, owner) && p in fs.dirs
    requires root < b < |disk| && b !in owner
    ensures LastOf(fs.dirs[p].blocks) < |disk|
    ensures Core(PutDirBlock(disk, LastOf(fs.dirs[p].blocks), b), root,
                 WithDir(fs, p, GrowDir(fs.dirs[p], b)), owner[b := DirBlock(p, |fs.dirs[p].blocks|)])
  {
    var d := fs.dirs[p];
    assert DirOnDisk(disk, d) && OwnsDir(owner, p, d);
    var prev := LastOf(d.blocks);
    var disk' := PutDirBlock(disk, prev, b);
    BlocksDistinct(disk, root, fs, owner);
    GrownDirOnDisk(disk, d, b);
    NewOwnerOfDir(fs, owner, p, b, GrowDir(d, b));
    DirStep(disk, disk', root, fs, owner, owner[b := DirBlock(p, |d.blocks|)], p, GrowDir(d, b), {prev, b});
  }

  // ----- writing an entry -----

  /** `update_dir_entry` on the next free slot of a directory. */
  function PutEntry(disk: Disk, d: DirRec, e: Dirent): (r: Disk)
    requires |d.entries| < 9 * |d.blocks|
    requires d.blocks[|d.entries| / 9] < |disk|
    ensures |r| == |disk|
  {
    var k := |d.entries|;
    var b := d.blocks[k / 9];
    disk[b := SetSlot(disk[b], k % 9, EncodeEntry(e))]
  }

  function AddEntry(d: DirRec, e: Dirent): DirRec {
    d.(entries := d.entries + [e])
  }

  lemma AddedEntryOnDisk(disk: Disk, d: DirRec, e: Dirent)
    requires DirOnDisk(disk, d) && |d.entries| < 9 * |d.blocks| && HostName(e.name)
    requires forall i, j :: 0 <= i < j < |d.blocks| ==> d.blocks[i] != d.blocks[j]
    ensures DirOnDisk(PutEntry(disk, d, e), AddEntry(d, e))
  {
    var k := |d.entries|;
    var disk', d' := PutEntry(disk, d, e), AddEntry(d, e);
    var b := d.blocks[k / 9];
    SetSlotHolds(disk[b], k % 9, e);
    SetSlotEffect(disk[b], k % 9, EncodeEntry(e), 0);
    forall i | 0 <= i < |d.blocks| ensures LinkOk(disk', d.blocks, i) {
      assert LinkOk(disk, d.blocks, i);
    }
    forall i, j | 0 <= i < |d.blocks| && 0 <= j < PER_BLOCK ensures SlotAt(disk', d', i, j) {
      assert SlotAt(disk, d, i, j);
      if i == k / 9 {
        SetSlotEffect(disk[b], k % 9, EncodeEntry(e), j);
      }
    }
  }

  lemma AddEntryKeepsCore(disk: Disk, root: nat, fs: Fs, owner: map<nat, Owner>, p: Path, e: Dirent)
    requires Core(disk, root, fs, owner) && p in fs.dirs
    requires |fs.dirs[p].entries| < 9 * |fs.dirs[p].blocks| && HostName(e.name)
    ensures 0 < fs.dirs[p].blocks[|fs.dirs[p].entries| / 9] < |disk|
    ensures Core(PutEntry(disk, fs.dirs[p], e), root, WithDir(fs, p, AddEntry(fs.dirs[p], e)), owner)
  {
    var d := fs.dirs[p];
    assert DirOnDisk(disk, d) && OwnsDir(owner, p, d);
    var b := d.blocks[|d.entries| / 9];
    var disk' := PutEntry(disk, d, e);
    BlocksDistinct(disk, root, fs, owner);
    AddedEntryOnDisk(disk, d, e);
    SameOwnerOfDir(fs, owner, p, AddEntry(d, e));
    DirStep(disk, disk', root, fs, owner, owner, p, AddEntry(d, e), {b});
  }
}
