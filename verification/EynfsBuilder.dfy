/** devtools/copy_testdir_to_eynfs.py: the bitmap allocator and the tree copier. */
module EynfsBuilder {
  import opened Bytes
  import opened EynfsSector
  import opened EynfsLayout
  import opened EynfsTree
  import opened EynfsSource
  import opened EynfsDirState
  import opened EynfsFormat

  function FreshFs(root: nat): Fs {
    Fs(map[[] := DirRec([root], [])], map[])
  }

  /** A formatted volume is an empty tree with only the root directory owned. */
  lemma {:induction false} FreshImage(image: Disk)
    requires Formatted(image, |image|)
    ensures var n, root := |image|, RootBlock(|image|);
      && TotalField(image[0]) == n && RootField(image[0]) == root
      && Core(image, root, FreshFs(root), map[root := DirBlock([], 0)])
      && DirOnDisk(image, DirRec([root], []))
      && Linked(FreshFs(root), {})
      && BitmapOk(ReadSectors(image, 1, BitmapBlocks(n)), n, root, map[root := DirBlock([], 0)])
  {
    var root := RootBlock(|image|);
    FreshFields(image, root);
    FreshBitmap(image, root, map[root := DirBlock([], 0)]);
    FreshCore(image, root);
  }

  lemma {:induction false} FreshFields(image: Disk, root: nat)
    requires Formatted(image, |image|) && root == RootBlock(|image|)
    ensures TotalField(image[0]) == |image| && RootField(image[0]) == root
  {
    SuperblockFields(|image|, root, 1, root - 1);
  }

  lemma {:induction false} FreshBitmap(image: Disk, root: nat, owner: map<nat, Owner>)
    requires Formatted(image, |image|) && root == RootBlock(|image|) && owner.Keys == {root}
    ensures BitmapOk(ReadSectors(image, 1, BitmapBlocks(|image|)), |image|, root, owner)
  {
    var n := |image|;
    LayoutFits(n);
    var bm := ReadSectors(image, 1, BitmapBlocks(n));
    forall i | 0 <= i < BitmapBlocks(n) ensures SectorOf(bm, i) == SectorOf(Reserved(n), i) {
      assert BitmapAt(image, n, i);
    }
    SameSectors(bm, Reserved(n), BitmapBlocks(n));
    forall b | 0 <= b < n ensures BitSet(bm, b) <==> b <= root {
      ReservedBits(n, b);
    }
  }

  lemma FreshCore(image: Disk, root: nat)
    requires 0 < root < |image| < 0x1_0000_0000 && image[root] == Zeros(512)
    ensures Core(image, root, FreshFs(root), map[root := DirBlock([], 0)])
    ensures DirOnDisk(image, DirRec([root], []))
  {
    EmptyDirOnDisk(image, root);
    assert image[root := Zeros(512)] == image;
  }

  lemma FlushKeepsCore(disk: Disk, root: nat, fs: Fs, owner: map<nat, Owner>, bm: seq<byte>)
    requires Core(disk, root, fs, owner) && 2 <= root && |bm| == 512 * (root - 2)
    ensures Core(WriteSectors(disk, 1, bm), root, fs, owner)
  {
    var disk' := WriteSectors(disk, 1, bm);
    var touched := Above(1, root - 1);
    forall p | p in fs.dirs ensures DirOnDisk(disk', fs.dirs[p]) {
      OtherDirUntouched(disk, disk', root, fs, owner, p, touched);
    }
    forall p | p in fs.files ensures FileOnDisk(disk', fs.files[p]) {
      OtherFileUntouched(disk, disk', root, fs, owner, p, touched);
    }
  }

  // ----- bitmap and ownership -----

  /** The bitmap marks exactly the reserved blocks and the owned ones. */
  ghost predicate BitmapOk(bm: seq<byte>, n: nat, root: nat, owner: map<nat, Owner>) {
    && 2 <= root && |bm| == 512 * (root - 2) && n <= 8 * |bm|
    && forall b {:trigger BitSet(bm, b)} :: 0 <= b < n ==> (BitSet(bm, b) <==> b <= root || b in owner)
  }

  /** The bitmap sectors of the disk hold the bitmap. */
  ghost predicate BitmapStored(disk: Disk, bm: seq<byte>, root: nat) {
    && 2 <= root <= |disk| && |bm| == 512 * (root - 2)
    && forall j {:trigger SectorOf(bm, j)} :: 0 <= j < root - 2 ==> disk[1 + j] == SectorOf(bm, j)
  }

  lemma BitmapReads(disk: Disk, bm: seq<byte>, root: nat)
    requires BitmapStored(disk, bm, root)
    ensures ReadSectors(disk, 1, root - 2) == bm
  {
    SameSectors(ReadSectors(disk, 1, root - 2), bm, root - 2);
  }

  lemma BitmapLoaded(disk: Disk, root: nat)
    requires 2 <= root <= |disk|
    ensures BitmapStored(disk, ReadSectors(disk, 1, root - 2), root)
  {
  }

  /** A write above the bitmap leaves it stored. */
  lemma StillStored(disk: Disk, bm: seq<byte>, root: nat, b: nat, s: Sector)
    requires BitmapStored(disk, bm, root) && root <= b < |disk|
    ensures BitmapStored(disk[b := s], bm, root)
  {
  }

  ghost function Above(lo: nat, hi: nat): (r: set<nat>)
    requires lo <= hi
    ensures |r| == hi - lo && forall b :: b in r <==> lo <= b < hi
    decreases hi
  {
    if lo == hi then {} else Above(lo, hi - 1) + {hi - 1}
  }

  /** Running out of free bits is the same as owning every block from the root up. */
  lemma FullIffCount(bm: seq<byte>, n: nat, root: nat, owner: map<nat, Owner>)
    requires BitmapOk(bm, n, root, owner) && root < n
    requires root in owner && forall b :: b in owner ==> root <= b < n
    ensures |owner| <= n - root
    ensures (forall b :: 0 <= b < n ==> BitSet(bm, b)) <==> |owner| == n - root
  {
    var above := Above(root, n);
    assert owner.Keys <= above;
    Subset(owner.Keys, above);
    if forall b :: 0 <= b < n ==> BitSet(bm, b) {
      forall b | b in above ensures b in owner.Keys {
        assert BitSet(bm, b);
      }
      assert above == owner.Keys;
    }
    if |owner| == n - root {
      assert owner.Keys == above;
    }
  }

  lemma OwnedRange(disk: Disk, root: nat, fs: Fs, owner: map<nat, Owner>)
    requires Core(disk, root, fs, owner)
    ensures root in owner && forall b :: b in owner ==> root <= b < |disk|
  {
    assert DirOnDisk(disk, fs.dirs[[]]);
    assert OwnsDir(owner, [], fs.dirs[[]]);
  }

  lemma {:induction false} Subset<T>(a: set<T>, b: set<T>)
    requires a <= b
    ensures |a| <= |b| && (|a| == |b| ==> a == b)
  {
    if a != {} {
      var x :| x in a;
      Subset(a - {x}, b - {x});
    }
  }

  // ----- blocks are taken in order -----

  ghost predicate Placed(owner: map<nat, Owner>, root: nat, b: nat) {
    b in owner <==> root <= b < root + |owner|
  }

  /** The owned blocks follow one another from the root on; the search starts behind them or at 0. */
  ghost predicate Dense(owner: map<nat, Owner>, root: nat, hint: nat) {
    && (hint == 0 || hint == root + |owner|)
    && forall b {:trigger Placed(owner, root, b)} :: 0 <= b ==> Placed(owner, root, b)
  }

  lemma {:induction false} DenseRoot(root: nat, o: Owner)
    ensures Dense(map[root := o], root, 0)
  {
  }

  /** The search finds the block right behind the owned ones. */
  lemma {:induction false} TakesNext(
    bm: seq<byte>, n: nat, root: nat, owner: map<nat, Owner>, hint: nat, r: nat, o: Owner, hint': nat)
    requires BitmapOk(bm, n, root, owner) && Dense(owner, root, hint) && root in owner && |owner| < n - root
    requires r < n && !BitSet(bm, r) && (hint' == 0 || hint' == r + 1)
    requires hint <= r ==> forall b :: hint <= b < r ==> BitSet(bm, b)
    requires r < hint ==> forall b :: 0 <= b < n && (b < r || hint <= b) ==> BitSet(bm, b)
    ensures r == root + |owner| && Dense(owner[r := o], root, hint')
  {
    var next := root + |owner|;
    assert Placed(owner, root, next) && Placed(owner, root, r);
    assert !BitSet(bm, next);
    var owner' := owner[r := o];
    assert owner'.Keys == owner.Keys + {r};
    forall b | 0 <= b ensures Placed(owner', root, b) {
      assert Placed(owner, root, b);
    }
  }

  lemma MarkKeepsBitmap(bm: seq<byte>, n: nat, root: nat, owner: map<nat, Owner>, b: nat, o: Owner)
    requires BitmapOk(bm, n, root, owner) && b < n && !BitSet(bm, b)
    ensures root < b && b !in owner
    ensures BitmapOk(MarkBit(bm, b), n, root, owner[b := o])
  {
  }

  function NextHint(i: nat, total: nat): nat {
    if i + 1 >= total then 0 else i + 1
  }

  /** What a reader of the source tree would find: file contents, and entry counts per directory. */
  ghost function Contents(fs: Fs): map<Path, seq<byte>> {
    map q | q in fs.files :: fs.files[q].data
  }

  ghost function Counts(fs: Fs): map<Path, nat> {
    map p | p in fs.dirs :: |fs.dirs[p].entries|
  }

  datatype DirResult = Made(block: nat) | Existing(block: nat) | Clash | Failed

  /** `_new_empty_dir_state`. */
  function NewDirState(b: nat): DirState {
    DirState([b], Range(0, 9), 9, map[])
  }

  /** The cache of the root directory of an empty volume. */
  method LoadRoot(image: Disk, root: nat) returns (st: DirState)
    requires DirOnDisk(image, DirRec([root], []))
    ensures StatesOk(map[[] := st], FreshFs(root))
  {
    st := LoadDirState(image, root, [root]);
    EmptyCache(image, root, st);
    ghost var states: map<Path, DirState> := map[[] := st];
    assert StateOk(states[[]], FreshFs(root).dirs[[]]);
  }

  lemma FreshSummary(root: nat)
    ensures Counts(FreshFs(root)) == FRESH.counts && Contents(FreshFs(root)) == FRESH.contents
    ensures FreshFs(root).dirs.Keys == {[]}
  {
  }

  class Builder {
    var disk: Disk
    var bitmap: seq<byte>
    var hint: nat
    var dirty: bool
    var dirStates: map<Path, DirState>
    const root: nat
    const super: Sector

    ghost var fs: Fs
    ghost var owner: map<nat, Owner>

    ghost predicate Valid()
      reads this
    {
      Stored() && StatesOk(dirStates, fs) && AllPlain(fs)
    }

    /** Disk and bitmap are sound, and the bitmap is on the disk unless it is marked dirty. */
    ghost predicate Stored()
      reads this
    {
      && Core(disk, root, fs, owner)
      && BitmapOk(bitmap, |disk|, root, owner)
      && hint < |disk| && Dense(owner, root, hint) && disk[0] == super
      && (dirty || BitmapStored(disk, bitmap, root))
    }

    lemma CountBound()
      requires Valid()
      ensures root in owner && |owner| <= |disk| - root
    {
      OwnedRange(disk, root, fs, owner);
      FullIffCount(bitmap, |disk|, root, owner);
    }

    /** `FreeBlockAllocator.alloc`: next fit from the hint, wrapping once. */
    method Alloc() returns (r: Option<nat>)
      requires 0 < |disk| <= 8 * |bitmap| && hint < |disk|
      modifies `bitmap, `hint, `dirty
      ensures hint < |disk|
      ensures r.None? ==>
        bitmap == old(bitmap) && dirty == old(dirty) && hint == old(hint)
        && forall b :: 0 <= b < |disk| ==> BitSet(bitmap, b)
      ensures r.Some? ==>
        r.value < |disk| && !BitSet(old(bitmap), r.value) && bitmap == MarkBit(old(bitmap), r.value) && dirty
      ensures r.Some? ==> hint == if r.value + 1 == |disk| then 0 else r.value + 1
      ensures r.Some? && old(hint) <= r.value ==> forall b :: old(hint) <= b < r.value ==> BitSet(old(bitmap), b)
      ensures r.Some? && r.value < old(hint) ==>
        forall b :: 0 <= b < |disk| && (b < r.value || old(hint) <= b) ==> BitSet(old(bitmap), b)
    {
      var total, start := |disk|, hint;
      for i := start to total
        invariant bitmap == old(bitmap) && dirty == old(dirty) && hint == start
        invariant forall b :: start <= b < i ==> BitSet(bitmap, b)
      {
        if !BitSet(bitmap, i) {
          MarkUsed(i);
          hint := NextHint(i, total);
          return Some(i);
        }
      }
      for i := 0 to start
        invariant bitmap == old(bitmap) && dirty == old(dirty) && hint == start
        invariant forall b :: 0 <= b < i || start <= b < total ==> BitSet(bitmap, b)
      {
        if !BitSet(bitmap, i) {
          MarkUsed(i);
          hint := NextHint(i, total);
          return Some(i);
        }
      }
      return None;
    }

    method MarkUsed(b: nat)
      requires b / 8 < |bitmap|
      modifies `bitmap, `dirty
      ensures bitmap == MarkBit(old(bitmap), b) && dirty
    {
      bitmap := MarkBit(bitmap, b);
      dirty := true;
    }

    /** Take one block for the chain `o`; the disk is not yet touched. */
    method Take(ghost o: Owner) returns (r: Option<nat>)
      requires Valid()
      modifies `bitmap, `hint, `dirty
      ensures hint < |disk|
      ensures |owner| <= |disk| - root && (r.None? <==> |owner| == |disk| - root)
      ensures r.Some? ==> root < r.value == root + |owner| < |disk| && r.value !in owner && dirty
      ensures r.Some? ==> BitmapOk(bitmap, |disk|, root, owner[r.value := o])
      ensures r.Some? ==> Dense(owner[r.value := o], root, hint)
      ensures r.None? ==> Valid()
    {
      OwnedRange(disk, root, fs, owner);
      FullIffCount(bitmap, |disk|, root, owner);
      ghost var bm, from := bitmap, hint;
      r := Alloc();
      if r.Some? {
        TakesNext(bm, |disk|, root, owner, from, r.value, o, hint);
        MarkKeepsBitmap(bm, |disk|, root, owner, r.value, o);
      }
    }

    /** The disk part of one round of the write loop: a fresh block, linked after `prev`, holding `chunk`. */
    method LinkFileBlock(q: Path, prev: nat, chunk: seq<byte>) returns (r: Option<nat>)
      requires Valid() && q in fs.files && 0 < |chunk| <= PAYLOAD
      requires |fs.files[q].data| == 508 * |fs.files[q].blocks| && prev == LastOf(fs.files[q].blocks)
      modifies this
      ensures old(|owner|) <= |disk| - root && (r.None? <==> old(|owner|) == |disk| - root)
      ensures |disk| == old(|disk|) && dirStates == old(dirStates)
      ensures r.Some? ==> Stored() && r.value > 0 && |owner| == old(|owner|) + 1
      ensures r.Some? ==> fs == WithFile(old(fs), q, GrowFile(old(fs).files[q], r.value, chunk))
    {
      ghost var o := FileBlock(q, |fs.files[q].blocks|);
      r := Take(o);
      if r.Some? {
        var b := r.value;
        GrowFileKeepsCore(disk, root, fs, owner, q, b, chunk);
        if prev != 0 {
          disk := disk[prev := SetNext(disk[prev], b)];
        }
        disk := disk[b := DataSector(chunk)];
        assert disk == PutFileBlock(old(disk), prev, b, chunk) && disk[0] == super;
        fs := WithFile(fs, q, GrowFile(fs.files[q], b, chunk));
        owner := owner[b := o];
      }
    }

    /** One round of the write loop. */
    method AppendBlock(q: Path, prev: nat, chunk: seq<byte>) returns (r: Option<nat>)
      requires Valid() && q in fs.files && 0 < |chunk| <= PAYLOAD
      requires |fs.files[q].data| == 508 * |fs.files[q].blocks| && prev == LastOf(fs.files[q].blocks)
      modifies this
      ensures old(|owner|) <= |disk| - root && (r.None? <==> old(|owner|) == |disk| - root)
      ensures |disk| == old(|disk|) && dirStates == old(dirStates)
      ensures r.Some? ==> Valid() && r.value > 0 && |owner| == old(|owner|) + 1
      ensures r.Some? ==> fs == WithFile(old(fs), q, GrowFile(old(fs).files[q], r.value, chunk))
    {
      r := LinkFileBlock(q, prev, chunk);
      if r.Some? {
        DirsStay(dirStates, old(fs), q, GrowFile(old(fs).files[q], r.value, chunk));
      }
    }

    /** A file begins without blocks. */
    ghost method StartFile(q: Path)
      requires Valid() && q !in fs.files
      modifies `fs
      ensures Valid() && |owner| <= |disk| - root && fs == WithFile(old(fs), q, FileRec([], []))
    {
      NewFileKeepsCore(disk, root, fs, owner, q);
      CountBound();
      fs := WithFile(fs, q, FileRec([], []));
    }

    /** The next chunk of the file, and what the loop keeps of it: the block before and the first one. */
    method PutChunk(
      q: Path, data: seq<byte>, done: nat, prev: nat, first: nat, ghost base: Fs, ghost f: FileRec)
      returns (ok: bool, prev': nat, first': nat, ghost f': FileRec)
      requires Valid() && fs == WithFile(base, q, f)
      requires done < |data| && StreamOk(f, data, done, prev, first)
      modifies this
      ensures |disk| == old(|disk|) && dirStates == old(dirStates)
      ensures ok <==> old(|owner|) != |disk| - root
      ensures old(|owner|) <= |disk| - root
      ensures !ok ==> |f.blocks| < CeilDiv(|data|, 508)
      ensures ok ==> Valid() && fs == WithFile(base, q, f')
      ensures ok ==> |owner| == old(|owner|) + 1 && |f'.blocks| == |f.blocks| + 1
      ensures ok ==> StreamOk(f', data, done + Min(508, |data| - done), prev', first')
    {
      var len := Min(508, |data| - done);
      var chunk := data[done..done + len];
      f' := f;
      var r := AppendBlock(q, prev, chunk);
      if r.None? {
        StreamUnfinished(f, data, done, prev, first);
        return false, 0, 0, f;
      }
      StreamStep(f, data, done, prev, first, r.value, len);
      WithFileTwice(base, q, f, GrowFile(f, r.value, chunk));
      ok, f', prev' := true, GrowFile(f, r.value, chunk), r.value;
      first' := if first == 0 then r.value else first;
    }

    /** `_write_file_data_from_path`: stream the bytes into a fresh chain. */
    method WriteFileData(q: Path, data: seq<byte>) returns (ok: bool, first: nat)
      requires Valid() && q !in fs.files
      modifies this
      ensures ok <==> old(|owner|) + CeilDiv(|data|, 508) <= |disk| - root
      ensures |disk| == old(|disk|) && dirStates == old(dirStates)
      ensures ok ==> Valid() && |owner| == old(|owner|) + CeilDiv(|data|, 508)
      ensures ok ==> q in fs.files && fs == WithFile(old(fs), q, fs.files[q])
      ensures ok ==> fs.files[q].data == data && first == FirstOf(fs.files[q].blocks)
    {
      StartFile(q);
      first := 0;
      var prev, done := 0, 0;
      ghost var f := FileRec([], []);
      while done < |data|
        invariant Valid() && |disk| == old(|disk|) && dirStates == old(dirStates)
        invariant fs == WithFile(old(fs), q, f)
        invariant StreamOk(f, data, done, prev, first)
        invariant |owner| == old(|owner|) + |f.blocks| <= |disk| - root
      {
        ok, prev, first, f := PutChunk(q, data, done, prev, first, old(fs), f);
        if !ok {
          return false, 0;
        }
        done := done + Min(508, |data| - done);
      }
      assert data[..done] == data;
      ok := true;
    }

    /** The disk part of directory growth: a zeroed block linked behind the last one. */
    method LinkDirBlock(p: Path, last: nat) returns (r: Option<nat>)
      requires Valid() && p in fs.dirs && |fs.dirs[p].blocks| >= 1 && last == LastOf(fs.dirs[p].blocks) != 0
      modifies this
      ensures |disk| == old(|disk|) && dirStates == old(dirStates)
      ensures old(|owner|) <= |disk| - root && (r.None? <==> old(|owner|) == |disk| - root)
      ensures r.Some? ==> Stored() && |owner| == old(|owner|) + 1
      ensures r.Some? ==> fs == WithDir(old(fs), p, GrowDir(old(fs).dirs[p], r.value))
    {
      ghost var o := DirBlock(p, |fs.dirs[p].blocks|);
      r := Take(o);
      if r.Some? {
        var b := r.value;
        GrowDirKeepsCore(disk, root, fs, owner, p, b);
        disk := disk[last := SetNext(disk[last], b)];
        disk := disk[b := Zeros(512)];
        fs := WithDir(fs, p, GrowDir(fs.dirs[p], b));
        owner := owner[b := o];
      }
    }

    /** `_alloc_dir_entry_slot`, growth part: a new block, with nine free slots in the cache. */
    method AppendDirBlock(p: Path) returns (r: Option<nat>)
      requires Valid() && p in dirStates && dirStates[p].freeSlots == []
      modifies this
      ensures |disk| == old(|disk|)
      ensures old(|owner|) <= |disk| - root && (r.None? <==> old(|owner|) == |disk| - root)
      ensures r.Some? ==> Stored() && |owner| == old(|owner|) + 1
      ensures r.Some? ==> fs == WithDir(old(fs), p, GrowDir(old(fs).dirs[p], r.value))
      ensures r.Some? ==> dirStates == old(dirStates)[p := Grown(old(dirStates[p]), fs.dirs[p])]
    {
      StateFacts(p);
      var st := dirStates[p];
      r := LinkDirBlock(p, st.blocks[|st.blocks| - 1]);
      if r.Some? {
        var blocks, total := st.blocks + [r.value], st.totalSlots;
        dirStates := dirStates[p := DirState(blocks, Range(total, total + 9), total + 9, st.names)];
      }
    }

    /** Growth, with what the cache then says of the directory. */
    method GrowCached(p: Path) returns (ok: bool)
      requires Valid() && p in dirStates && dirStates[p].freeSlots == []
      modifies this
      ensures |disk| == old(|disk|)
      ensures old(|owner|) <= |disk| - root && (ok <==> old(|owner|) != |disk| - root)
      ensures ok ==> Stored() && |owner| == old(|owner|) + 1
      ensures ok ==> p in fs.dirs && fs == WithDir(old(fs), p, fs.dirs[p])
      ensures ok ==> fs.dirs[p].entries == old(fs).dirs[p].entries
      ensures ok ==> FirstOf(fs.dirs[p].blocks) == FirstOf(old(fs).dirs[p].blocks)
      ensures ok ==> |fs.dirs[p].blocks| == DirBlocks(|fs.dirs[p].entries| + 1)
      ensures ok ==> dirStates == old(dirStates)[p := Ready(old(dirStates[p]), fs.dirs[p])]
    {
      StateFacts(p);
      var r := AppendDirBlock(p);
      ok := r.Some?;
    }

    /** `_alloc_dir_entry_slot`: the next free slot, growing the directory when it is full. */
    method AllocSlot(p: Path) returns (ok: bool, block: nat, idx: nat, slot: nat)
      requires Valid() && p in dirStates
      modifies this
      ensures |disk| == old(|disk|)
      ensures ok <==> old(|owner|) + Growth(old(|fs.dirs[p].entries|)) <= |disk| - root
      ensures ok ==> Stored()
      ensures ok ==> |owner| == old(|owner|) + Growth(old(|fs.dirs[p].entries|))
      ensures ok ==>
        p in fs.dirs && fs == WithDir(old(fs), p, fs.dirs[p]) && fs.dirs[p].entries == old(fs).dirs[p].entries
      ensures ok ==> FirstOf(fs.dirs[p].blocks) == FirstOf(old(fs).dirs[p].blocks)
      ensures ok ==> |fs.dirs[p].blocks| == DirBlocks(slot + 1)
      ensures ok ==>
        slot == |fs.dirs[p].entries| < 9 * |fs.dirs[p].blocks| && idx == slot % 9 &&
        block == fs.dirs[p].blocks[slot / 9]
      ensures ok ==> dirStates == old(dirStates)[p := Popped(old(dirStates[p]), fs.dirs[p])]
    {
      CountBound();
      StateFacts(p);
      ghost var m := |fs.dirs[p].entries|;
      ok := true;
      if dirStates[p].freeSlots == [] {
        ok := GrowCached(p);
      } else {
        SameDir(fs, p);
      }
      if !ok {
        return false, 0, 0, 0;
      }
      assert dirStates == old(dirStates)[p := Ready(old(dirStates[p]), fs.dirs[p])];
      var st := dirStates[p];
      slot := st.freeSlots[0];
      block, idx := st.blocks[slot / 9], slot % 9;
      dirStates := dirStates[p := st.(freeSlots := st.freeSlots[1..])];
      PopFront(m, 9 * |st.blocks|);
      ok := true;
    }

    /** The tail that `add_dir` and `add_file` share: take a slot, write the entry, remember it. */
    method EnterChild(p: Path, name: Name, kind: byte, size: nat, first: u32) returns (ok: bool)
      requires Valid() && p in dirStates && HostName(name) && name !in dirStates[p].names
      modifies this
      ensures |disk| == old(|disk|)
      ensures ok <==>
        && Utf8(name) && size < 0x1_0000_0000
        && old(|owner|) + Growth(old(|fs.dirs[p].entries|)) <= |disk| - root
      ensures ok ==> Valid() && |owner| == old(|owner|) + Growth(old(|fs.dirs[p].entries|))
      ensures ok ==> p in fs.dirs && fs == WithDir(old(fs), p, fs.dirs[p])
      ensures ok ==> fs.dirs[p].entries == old(fs).dirs[p].entries + [NewEntry(name, kind, size, first)]
      ensures ok ==> FirstOf(fs.dirs[p].blocks) == FirstOf(old(fs).dirs[p].blocks)
      ensures ok ==> dirStates.Keys == old(dirStates).Keys
    {
      ghost var fs0, states0 := fs, dirStates;
      var block, idx, slot;
      ok, block, idx, slot := AllocSlot(p);
      if !ok {
        return;
      }
      var field := EncodeName(name);
      if field.None? || size >= 0x1_0000_0000 {
        return false;
      }
      PutNew(p, NewEntry(name, kind, size, first), block, idx, slot, fs0, states0);
    }

    /** Write the entry into the slot just taken, and remember it. */
    method PutNew(
      p: Path, e: Dirent, block: nat, idx: nat, slot: nat,
      ghost fs0: Fs, ghost states0: map<Path, DirState>)
      requires Stored() && HostName(e.name)
      requires p in fs.dirs && p in fs0.dirs && fs == WithDir(fs0, p, fs.dirs[p])
      requires AllPlain(fs0) && Plain(e)
      requires slot == |fs.dirs[p].entries| < 9 * |fs.dirs[p].blocks| && |fs.dirs[p].blocks| == DirBlocks(slot + 1)
      requires idx == slot % 9 && block == fs.dirs[p].blocks[slot / 9]
      requires fs.dirs[p].entries == fs0.dirs[p].entries
      requires StatesOk(states0, fs0) && p in states0 && e.name !in states0[p].names
      requires dirStates == states0[p := Popped(states0[p], fs.dirs[p])]
      modifies this
      ensures Valid() && |disk| == old(|disk|) && owner == old(owner)
      ensures fs == WithDir(fs0, p, AddEntry(old(fs).dirs[p], e))
      ensures dirStates.Keys == states0.Keys
    {
      ghost var d := fs.dirs[p];
      AddEntryKeepsCore(disk, root, fs, owner, p, e);
      SlotAbove(p, slot);
      if !dirty { StillStored(disk, bitmap, root, block, SetSlot(disk[block], idx, EncodeEntry(e))); }
      disk := disk[block := SetSlot(disk[block], idx, EncodeEntry(e))];
      fs := WithDir(fs, p, AddEntry(d, e));
      var st := dirStates[p];
      dirStates := dirStates[p := st.(names := st.names[e.name := Known(e.kind, e.first, slot)])];
      EnteredStates(states0, fs0, p, d, e);
      EnteredPlain(fs0, p, d, e);
      PutTwice(states0, p, st, dirStates[p]);
      WithDirTwice(fs0, p, d, AddEntry(d, e));
    }

    /** Directory blocks lie above the bitmap. */
    lemma SlotAbove(p: Path, slot: nat)
      requires Stored() && p in fs.dirs && slot < 9 * |fs.dirs[p].blocks|
      ensures root <= fs.dirs[p].blocks[slot / 9] < |disk|
    {
      OwnedRange(disk, root, fs, owner);
      assert DirOnDisk(disk, fs.dirs[p]) && OwnsDir(owner, p, fs.dirs[p]);
    }

    /** Open a freshly formatted volume: read the bitmap, load the root directory. */
    constructor (image: Disk)
      requires Formatted(image, |image|)
      ensures Follows(FRESH) && disk == image && root == RootBlock(|image|) && super == image[0]
      ensures hint == 0 && !dirty && owner == map[root := DirBlock([], 0)] && RootOnly(this)
    {
      FreshImage(image);
      var r := RootField(image[0]);
      var st := LoadRoot(image, r);
      FreshSummary(r);
      disk, root, super := image, r, image[0];
      bitmap := ReadSectors(image, 1, CeilDiv(CeilDiv(TotalField(image[0]), 8), 512));
      hint, dirty := 0, false;
      dirStates := map[[] := st];
      fs := FreshFs(r);
      owner := map[r := DirBlock([], 0)];
      new;
      BitmapLoaded(image, r);
      DenseRoot(r, DirBlock([], 0));
    }

    /** `FreeBlockAllocator.flush`: the bitmap goes back to its sectors, no chain is touched. */
    method Flush()
      requires Valid()
      modifies `disk, `dirty
      ensures Valid() && !dirty && |disk| == old(|disk|)
      ensures ReadSectors(disk, 1, root - 2) == bitmap
      ensures forall b :: 0 <= b < |disk| && !(1 <= b < root - 1) ==> disk[b] == old(disk)[b]
    {
      if dirty {
        FlushKeepsCore(disk, root, fs, owner, bitmap);
        disk := WriteSectors(disk, 1, bitmap);
        dirty := false;
      }
      BitmapReads(disk, bitmap, root);
    }

    /** After the last flush the disk alone holds everything. */
    method Finish(ghost pl: Plan)
      requires Follows(pl)
      modifies `disk, `dirty
      ensures |disk| == old(|disk|) && disk[0] == super && Image(disk, root, fs, owner) && root <= |disk|
      ensures BitmapOk(ReadSectors(disk, 1, root - 2), |disk|, root, owner)
      ensures AllPlain(fs) && Dense(owner, root, 0) && |owner| == 1 + pl.used
      ensures Contents(fs) == pl.contents && Counts(fs) == pl.counts
    {
      Flush();
      DenseAnywhere(owner, root, hint);
    }

    /** The image holds what the plan says, and has used the blocks it says. */
    ghost predicate Follows(pl: Plan)
      reads this
    {
      && Valid() && Linked(fs, {})
      && dirStates.Keys == fs.dirs.Keys
      && Counts(fs) == pl.counts && Contents(fs) == pl.contents
      && |owner| == 1 + pl.used
    }

    method CopyFile(p: Path, f: File, ghost pl: Plan) returns (ok: bool)
      requires Follows(pl) && p in pl.counts && FileNew(pl, p, f)
      modifies this
      ensures |disk| == old(|disk|)
      ensures ok <==> Accepted(f) && 1 + PlanFile(pl, p, f).used <= |disk| - root
      ensures ok ==> Follows(PlanFile(pl, p, f))
    {
      PlannedDir(pl, p);
      ok := AddFile(p, f.name, f.data);
      NextFile(pl, p, f);
    }

    /** A planned directory is stored and cached, with the planned number of entries. */
    lemma PlannedDir(pl: Plan, p: Path)
      requires Follows(pl) && p in pl.counts
      ensures p in fs.dirs && p in dirStates && |fs.dirs[p].entries| == CountAt(pl, p)
      ensures forall q :: (q in pl.counts <==> q in fs.dirs) && (q in pl.contents <==> q in fs.files)
    {
      SummaryKeys(fs);
    }

    method CopyFiles(p: Path, files: seq<File>, ghost pl: Plan) returns (ok: bool)
      requires Follows(pl) && p in pl.counts && FilesNew(pl, p, files)
      modifies this
      ensures |disk| == old(|disk|)
      ensures ok <==> FilesAccepted(files) && 1 + PlanFiles(pl, p, files).used <= |disk| - root
      ensures ok ==> Follows(PlanFiles(pl, p, files))
    {
      ghost var now := pl;
      CountBound();
      for k := 0 to |files|
        invariant |disk| == old(|disk|)
        invariant Follows(now) && p in now.counts && FilesNew(now, p, files[k..])
        invariant FilesAccepted(files) <==> FilesAccepted(files[k..])
        invariant PlanFiles(now, p, files[k..]) == PlanFiles(pl, p, files)
        invariant 1 + now.used <= |disk| - root
      {
        assert files[k..][0] == files[k] && files[k..][1..] == files[k + 1..];
        ok := CopyFile(p, files[k], now);
        now := PlanFile(now, p, files[k]);
        assert PlanFiles(now, p, files[k + 1..]).used >= now.used;
        if !ok {
          return;
        }
        CountBound();
      }
      ok := true;
    }

    /** `_copy_tree_to_eynfs` over the steps of one or more walks. */
    method CopyTree(vs: seq<Visit>, ghost pl: Plan) returns (ok: bool)
      requires Follows(pl) && VisitsNew(pl, Replaced(vs))
      modifies this
      ensures |disk| == old(|disk|)
      ensures ok <==>
        VisitsAccepted(pl, Replaced(vs)) && 1 + PlanAll(pl, Replaced(vs)).used <= |disk| - root
      ensures ok ==> Follows(PlanAll(pl, Replaced(vs)))
    {
      ghost var now, us := pl, Replaced(vs);
      CountBound();
      for i := 0 to |vs|
        invariant |disk| == old(|disk|)
        invariant Follows(now) && VisitsNew(now, us[i..])
        invariant VisitsAccepted(pl, us) <==> VisitsAccepted(now, us[i..])
        invariant PlanAll(now, us[i..]) == PlanAll(pl, us)
        invariant 1 + now.used <= |disk| - root
      {
        assert us[i..][0] == us[i] && us[i..][1..] == us[i + 1..];
        ghost var next := PlanVisit(now, us[i]);
        assert PlanAll(next, us[i + 1..]).used >= next.used;
        ok := CopyVisit(Landed(vs[i].path), vs[i].files, now, us[i]);
        if !ok {
          return;
        }
        now := next;
        CountBound();
      }
      ok := true;
    }

    /** One step of the walk: the directory, then its files. */
    method CopyVisit(p: Path, files: seq<File>, ghost pl: Plan, ghost v: Visit) returns (ok: bool)
      requires Follows(pl) && v.path == p && v.files == files && (p in pl.counts || Whole(p))
      requires DirAccepted(pl, p) ==> FilesNew(PlanDir(pl, p), p, files)
      modifies this
      ensures |disk| == old(|disk|)
      ensures ok <==>
        DirAccepted(pl, p) && FilesAccepted(files) && 1 + PlanVisit(pl, v).used <= |disk| - root
      ensures ok ==> Follows(PlanVisit(pl, v))
    {
      assert PlanVisit(pl, v).used >= PlanDir(pl, p).used;
      ok := EnsureDir(p, pl);
      if ok { ok := CopyFiles(p, files, PlanDir(pl, p)); }
    }

    /** The directory part of one walk step: known paths are left alone. */
    method EnsureDir(p: Path, ghost pl: Plan) returns (ok: bool)
      requires Follows(pl) && (p in pl.counts || Whole(p))
      modifies this
      ensures |disk| == old(|disk|)
      ensures ok <==> DirAccepted(pl, p) && 1 + PlanDir(pl, p).used <= |disk| - root
      ensures ok ==> Follows(PlanDir(pl, p)) && p in PlanDir(pl, p).counts
    {
      CountBound();
      SummaryKeys(fs);
      if p in dirStates {
        return true;
      }
      if Parent(p) !in dirStates {
        return false;
      }
      ok := MakeKnown(p, Parent(p), Base(p), pl);
    }

    /** Add a directory under a known one and give it an empty cache. */
    method MakeKnown(p: Path, up: Path, name: Name, ghost pl: Plan) returns (ok: bool)
      requires Follows(pl) && p !in pl.counts
      requires p != [] && up == Parent(p) && name == Base(p) && up in pl.counts && HostName(name)
      modifies this
      ensures |disk| == old(|disk|)
      ensures ok <==> DirAccepted(pl, p) && 1 + PlanDir(pl, p).used <= |disk| - root
      ensures ok ==> Follows(PlanDir(pl, p)) && p in PlanDir(pl, p).counts
    {
      PlannedDir(pl, up);
      assert up + [name] == p;
      var r := AddDir(up, name);
      ok := r.Made?;
      if ok {
        CacheNew(p, r.block);
        NextDir(pl, p);
      }
    }

    /** The cache of a directory just made. */
    method CacheNew(p: Path, b: nat)
      requires Valid() && p in fs.dirs && fs.dirs[p] == DirRec([b], []) && p !in dirStates
      modifies `dirStates
      ensures Valid() && dirStates.Keys == old(dirStates).Keys + {p}
    {
      StateOfNew(p, b);
      dirStates := dirStates[p := NewDirState(b)];
    }

    lemma StateOfNew(p: Path, b: nat)
      requires Valid() && p in fs.dirs && fs.dirs[p] == DirRec([b], []) && p !in dirStates
      ensures StatesOk(dirStates[p := NewDirState(b)], fs)
    {
      var states' := dirStates[p := NewDirState(b)];
      forall x | x in states' ensures StateOk(states'[x], fs.dirs[x]) {
        if x != p { assert StateOk(dirStates[x], fs.dirs[x]); }
      }
    }

    /** A name that stands for no stored child is in no cache and no entry. */
    lemma FreshName(p: Path, name: Name)
      requires Valid() && Linked(fs, {}) && p in dirStates
      ensures (name in dirStates[p].names) <==> HasEntry(fs, p, name)
      ensures name in dirStates[p].names ==> p + [name] in fs.dirs || p + [name] in fs.files
      ensures name in dirStates[p].names ==> (dirStates[p].names[name].kind == TYPE_DIR <==> p + [name] in fs.dirs)
    {
      assert StateOk(dirStates[p], fs.dirs[p]);
      if name in dirStates[p].names {
        var v := dirStates[p].names[name];
        assert EntryOk(fs, p, fs.dirs[p].entries[v.slot]);
      }
    }

    /** `add_file`: data blocks first, then the directory slot. */
    method AddFile(p: Path, name: Name, data: seq<byte>) returns (ok: bool)
      requires Valid() && Linked(fs, {}) && p in dirStates && HostName(name)
      requires p + [name] !in fs.dirs && p + [name] !in fs.files
      modifies this
      ensures |disk| == old(|disk|)
      ensures ok <==>
        && Accepted(File(name, data))
        && old(|owner|) + CeilDiv(|data|, 508) + Growth(old(|fs.dirs[p].entries|)) <= |disk| - root
      ensures ok ==> Valid() && Linked(fs, {})
      ensures ok ==> dirStates.Keys == old(dirStates).Keys && fs.dirs.Keys == old(fs).dirs.Keys
      ensures ok ==> |owner| == old(|owner|) + CeilDiv(|data|, 508) + Growth(old(|fs.dirs[p].entries|))
      ensures ok ==> Contents(fs) == Contents(old(fs))[p + [name] := data]
      ensures ok ==> Counts(fs) == Counts(old(fs))[p := old(|fs.dirs[p].entries|) + 1]
    {
      ghost var fs0 := fs;
      var q := p + [name];
      PathOf(p, name);
      FreshName(p, name);
      var first;
      ok, first := WriteFileData(q, data);
      if !ok {
        return;
      }
      ghost var fs1 := fs;
      PendingFileKeepsLinked(fs0, q, fs.files[q]);
      FirstFits(q);
      ok := EnterChild(p, name, TYPE_FILE, |data|, first);
      if ok {
        EnterKeepsLinked(fs1, q, NewEntry(name, TYPE_FILE, |data|, first), fs.dirs[p]);
        FileSummary(fs0, p, q, fs1.files[q], fs.dirs[p]);
      }
    }

    lemma FirstFits(q: Path)
      requires Valid()
      ensures q in fs.files ==> FirstOf(fs.files[q].blocks) < 0x1_0000_0000
      ensures q in fs.dirs ==> FirstOf(fs.dirs[q].blocks) < 0x1_0000_0000
    {
      if q in fs.files { assert FileOnDisk(disk, fs.files[q]); }
      if q in fs.dirs { assert DirOnDisk(disk, fs.dirs[q]); }
    }

    /** `add_dir`: an existing directory is reused, an existing file is an error. */
    method AddDir(p: Path, name: Name) returns (r: DirResult)
      requires Valid() && Linked(fs, {}) && p in dirStates && HostName(name)
      modifies this
      ensures |disk| == old(|disk|)
      ensures r.Clash? <==> p + [name] in old(fs).files
      ensures r.Existing? <==> p + [name] in old(fs).dirs
      ensures r.Existing? || r.Clash? ==> Valid() && fs == old(fs) && dirStates == old(dirStates) && owner == old(owner)
      ensures r.Existing? ==> r.block == FirstOf(fs.dirs[p + [name]].blocks)
      ensures r.Made? ==> Valid() && Linked(fs, {})
      ensures r.Made? ==> dirStates.Keys == old(dirStates).Keys && fs.dirs.Keys == old(fs).dirs.Keys + {p + [name]}
      ensures r.Made? ==> p + [name] in fs.dirs && fs.dirs[p + [name]] == DirRec([r.block], [])
      ensures r.Made? ==> |owner| == old(|owner|) + 1 + Growth(old(|fs.dirs[p].entries|))
      ensures r.Made? ==> Contents(fs) == Contents(old(fs))
      ensures r.Made? ==> Counts(fs) == Counts(old(fs))[p := old(|fs.dirs[p].entries|) + 1][p + [name] := 0]
      ensures r.Failed? ==>
        !Utf8(name) || old(|owner|) + 1 + Growth(old(|fs.dirs[p].entries|)) > |disk| - root
      ensures r.Made? ==> Utf8(name) && |owner| <= |disk| - root
    {
      ghost var fs0 := fs;
      var q := p + [name];
      PathOf(p, name);
      FreshName(p, name);
      if q in fs.dirs || q in fs.files {
        StoredHasEntry(q);
      }
      if name in dirStates[p].names {
        var known := dirStates[p].names[name];
        if known.kind == TYPE_DIR {
          ExistingFirst(p, name);
        }
        return if known.kind == TYPE_DIR then Existing(known.first) else Clash;
      }
      var r0 := MakeDir(q);
      if r0.None? {
        return Failed;
      }
      var b := r0.value;
      ghost var fs1 := fs;
      PendingDirKeepsLinked(fs0, q, DirRec([b], []));
      var ok := EnterChild(p, name, TYPE_DIR, 0, b);
      if !ok {
        return Failed;
      }
      EnterKeepsLinked(fs1, q, NewEntry(name, TYPE_DIR, 0, b), fs.dirs[p]);
      DirSummary(fs0, p, q, DirRec([b], []), fs.dirs[p]);
      CountBound();
      r := Made(b);
    }

    /** The block part of `add_dir`: allocate and zero. */
    method MakeDir(q: Path) returns (r: Option<nat>)
      requires Valid() && q !in fs.dirs
      modifies this
      ensures |disk| == old(|disk|) && dirStates == old(dirStates)
      ensures old(|owner|) <= |disk| - root && (r.None? <==> old(|owner|) == |disk| - root)
      ensures r.Some? ==> Valid() && |owner| == old(|owner|) + 1 && r.value < 0x1_0000_0000
      ensures r.Some? ==> fs == WithDir(old(fs), q, DirRec([r.value], []))
    {
      r := Take(DirBlock(q, 0));
      if r.Some? {
        var b := r.value;
        NewDirKeepsCore(disk, root, fs, owner, q, b);
        StatesStay(dirStates, fs, q, DirRec([b], []));
        EmptyPlain(fs, q, b);
        disk := disk[b := Zeros(512)];
        fs := WithDir(fs, q, DirRec([b], []));
        owner := owner[b := DirBlock(q, 0)];
      }
    }

    lemma StoredHasEntry(q: Path)
      requires Valid() && Linked(fs, {}) && q != [] && (q in fs.dirs || q in fs.files)
      ensures HasEntry(fs, Parent(q), Base(q))
    {
    }

    lemma ExistingFirst(p: Path, name: Name)
      requires Valid() && Linked(fs, {}) && p in dirStates && name in dirStates[p].names && p + [name] in fs.dirs
      ensures dirStates[p].names[name].first == FirstOf(fs.dirs[p + [name]].blocks)
    {
      assert StateOk(dirStates[p], fs.dirs[p]);
      assert EntryOk(fs, p, fs.dirs[p].entries[dirStates[p].names[name].slot]);
    }

    lemma StateFacts(p: Path)
      requires Valid() && p in dirStates
      ensures p in fs.dirs && StateOk(dirStates[p], fs.dirs[p]) && DirOnDisk(disk, fs.dirs[p])
      ensures |fs.dirs[p].blocks| >= 1 && LastOf(fs.dirs[p].blocks) != 0
      ensures Growth(|fs.dirs[p].entries|) == 1 <==> dirStates[p].freeSlots == []
    {
      assert StateOk(dirStates[p], fs.dirs[p]) && DirOnDisk(disk, fs.dirs[p]);
    }
  }

  function Grown(st: DirState, d: DirRec): DirState {
    DirState(d.blocks, Range(st.totalSlots, st.totalSlots + 9), 9 * |d.blocks|, st.names)
  }

  /** The caches agree with the tree again once the entry is written. */
  lemma EnteredStates(states: map<Path, DirState>, fs: Fs, p: Path, d: DirRec, e: Dirent)
    requires StatesOk(states, fs) && p in states && e.name !in states[p].names
    requires d.entries == fs.dirs[p].entries && |d.entries| < 9 * |d.blocks| && |d.blocks| == DirBlocks(|d.entries| + 1)
    ensures var st := Popped(states[p], d);
      StatesOk(
        states[p := st.(names := st.names[e.name := Known(e.kind, e.first, |d.entries|)])],
        WithDir(fs, p, AddEntry(d, e)))
  {
    assert StateOk(states[p], fs.dirs[p]);
    var st := Popped(states[p], d);
    var st' := st.(names := st.names[e.name := Known(e.kind, e.first, |d.entries|)]);
    var states', fs' := states[p := st'], WithDir(fs, p, AddEntry(d, e));
    assert StateOk(st', AddEntry(d, e));
    forall x | x in states' ensures StateOk(states'[x], fs'.dirs[x]) {
      if x != p { assert StateOk(states[x], fs.dirs[x]); }
    }
  }

  /** No entry of any directory has anything in its spare fields. */
  ghost predicate AllPlain(fs: Fs) {
    forall p, k {:trigger Plain(fs.dirs[p].entries[k])} ::
      p in fs.dirs && 0 <= k < |fs.dirs[p].entries| ==> Plain(fs.dirs[p].entries[k])
  }

  lemma {:induction false} EnteredPlain(fs: Fs, p: Path, d: DirRec, e: Dirent)
    requires AllPlain(fs) && p in fs.dirs && Plain(e) && d.entries == fs.dirs[p].entries
    ensures AllPlain(WithDir(fs, p, AddEntry(d, e)))
  {
    var fs' := WithDir(fs, p, AddEntry(d, e));
    forall q, k | q in fs'.dirs && 0 <= k < |fs'.dirs[q].entries| ensures Plain(fs'.dirs[q].entries[k]) {
      if q != p || k < |d.entries| { assert Plain(fs.dirs[q].entries[k]); }
    }
  }

  lemma {:induction false} EmptyPlain(fs: Fs, q: Path, b: nat)
    requires AllPlain(fs)
    ensures AllPlain(WithDir(fs, q, DirRec([b], [])))
  {
    var fs' := WithDir(fs, q, DirRec([b], []));
    forall p, k | p in fs'.dirs && 0 <= k < |fs'.dirs[p].entries| ensures Plain(fs'.dirs[p].entries[k]) {
      assert Plain(fs.dirs[p].entries[k]);
    }
  }

  lemma StatesStay(states: map<Path, DirState>, fs: Fs, q: Path, d: DirRec)
    requires StatesOk(states, fs) && q !in fs.dirs
    ensures StatesOk(states, WithDir(fs, q, d))
  {
    var fs' := WithDir(fs, q, d);
    forall x | x in states ensures StateOk(states[x], fs'.dirs[x]) {
      assert StateOk(states[x], fs.dirs[x]);
    }
  }

  lemma FileSummary(fs: Fs, p: Path, q: Path, f: FileRec, d: DirRec)
    requires p in fs.dirs && |d.entries| == |fs.dirs[p].entries| + 1
    ensures Contents(WithDir(WithFile(fs, q, f), p, d)) == Contents(fs)[q := f.data]
    ensures Counts(WithDir(WithFile(fs, q, f), p, d)) == Counts(fs)[p := |fs.dirs[p].entries| + 1]
    ensures WithDir(WithFile(fs, q, f), p, d).dirs.Keys == fs.dirs.Keys
  {
  }

  lemma DirSummary(fs: Fs, p: Path, q: Path, d0: DirRec, d: DirRec)
    requires p in fs.dirs && p != q && |d.entries| == |fs.dirs[p].entries| + 1 && d0.entries == []
    ensures Contents(WithDir(WithDir(fs, q, d0), p, d)) == Contents(fs)
    ensures Counts(WithDir(WithDir(fs, q, d0), p, d)) == Counts(fs)[p := |fs.dirs[p].entries| + 1][q := 0]
    ensures WithDir(WithDir(fs, q, d0), p, d).dirs.Keys == fs.dirs.Keys + {q}
  {
  }

  lemma {:induction false} NextFile(pl: Plan, p: Path, f: File)
    ensures PlanFile(pl, p, f).counts == pl.counts[p := CountAt(pl, p) + 1]
    ensures PlanFile(pl, p, f).contents == pl.contents[p + [f.name] := f.data]
    ensures PlanFile(pl, p, f).used == pl.used + CeilDiv(|f.data|, 508) + Growth(CountAt(pl, p))
  {
  }

  lemma {:induction false} NextDir(pl: Plan, p: Path)
    requires p != [] && p !in pl.counts
    ensures PlanDir(pl, p).counts == pl.counts[Parent(p) := CountAt(pl, Parent(p)) + 1][p := 0]
    ensures PlanDir(pl, p).contents == pl.contents
    ensures PlanDir(pl, p).used == pl.used + 1 + Growth(CountAt(pl, Parent(p)))
  {
  }

  lemma SummaryKeys(fs: Fs)
    ensures Counts(fs).Keys == fs.dirs.Keys && Contents(fs).Keys == fs.files.Keys
  {
  }

  lemma PopFront(lo: nat, hi: nat)
    requires lo < hi
    ensures Range(lo, hi)[0] == lo && Range(lo, hi)[1..] == Range(lo + 1, hi)
  {
  }

  /** The cache of a directory with room. */
  function Ready(st: DirState, d: DirRec): DirState
    requires |d.entries| <= 9 * |d.blocks|
  {
    DirState(d.blocks, Range(|d.entries|, 9 * |d.blocks|), 9 * |d.blocks|, st.names)
  }

  /** A change to a file is none to the directories. */
  lemma DirsStay(states: map<Path, DirState>, fs: Fs, q: Path, f: FileRec)
    requires StatesOk(states, fs) && AllPlain(fs)
    ensures StatesOk(states, WithFile(fs, q, f)) && AllPlain(WithFile(fs, q, f))
  {
  }

  lemma SameDir(fs: Fs, p: Path)
    requires p in fs.dirs
    ensures fs == WithDir(fs, p, fs.dirs[p])
  {
  }

  /** The cache of a directory whose next slot has been handed out but not written. */
  function Popped(st: DirState, d: DirRec): DirState
    requires |d.entries| < 9 * |d.blocks|
  {
    DirState(d.blocks, Range(|d.entries| + 1, 9 * |d.blocks|), 9 * |d.blocks|, st.names)
  }

  lemma PutTwice<K, V>(m: map<K, V>, k: K, a: V, b: V)
    ensures m[k := a][k := b] == m[k := b]
  {
  }

  lemma WithDirTwice(fs: Fs, p: Path, d: DirRec, d': DirRec)
    ensures WithDir(WithDir(fs, p, d), p, d') == WithDir(fs, p, d')
  {
  }

  lemma WithFileTwice(fs: Fs, q: Path, f: FileRec, f': FileRec)
    ensures WithFile(WithFile(fs, q, f), q, f') == WithFile(fs, q, f')
  {
  }

  /** How far `_write_file_data_from_path` has got. */
  ghost predicate StreamOk(f: FileRec, data: seq<byte>, done: nat, prev: nat, first: nat) {
    && done <= |data| && f.data == data[..done]
    && |f.blocks| == CeilDiv(done, 508)
    && (done < |data| ==> done == 508 * |f.blocks|)
    && prev == LastOf(f.blocks) && first == FirstOf(f.blocks)
    && (f.blocks != [] ==> first > 0)
  }

  lemma StreamUnfinished(f: FileRec, data: seq<byte>, done: nat, prev: nat, first: nat)
    requires StreamOk(f, data, done, prev, first) && done < |data|
    ensures |f.blocks| < CeilDiv(|data|, 508)
  {
  }

  lemma StreamStep(f: FileRec, data: seq<byte>, done: nat, prev: nat, first: nat, b: nat, len: nat)
    requires StreamOk(f, data, done, prev, first) && done < |data| && len == Min(508, |data| - done) && b > 0
    ensures StreamOk(GrowFile(f, b, data[done..done + len]), data, done + len, b, if first == 0 then b else first)
  {
    assert data[..done] + data[done..done + len] == data[..done + len];
  }

  // ----- whole runs -----

  /** Everything a reader may rely on about an image. */
  ghost predicate Image(disk: Disk, root: nat, fs: Fs, owner: map<nat, Owner>) {
    Core(disk, root, fs, owner) && Linked(fs, {})
  }

  /** Format-to-flush: copy the walked source into a freshly formatted volume. */
  method CopyImage(image: Disk, vs: seq<Visit>)
    returns (ok: bool, disk: Disk, ghost fs: Fs, ghost owner: map<nat, Owner>)
    requires Formatted(image, |image|) && VisitsNew(FRESH, Replaced(vs))
    ensures ok <==>
      && VisitsAccepted(FRESH, Replaced(vs))
      && 1 + PlanAll(FRESH, Replaced(vs)).used <= |image| - RootBlock(|image|)
    ensures ok ==> |disk| == |image| && disk[0] == image[0] && Image(disk, RootBlock(|image|), fs, owner)
    ensures ok ==> BitmapOk(ReadSectors(disk, 1, RootBlock(|image|) - 2), |disk|, RootBlock(|image|), owner)
    ensures ok ==> AllPlain(fs) && Dense(owner, RootBlock(|image|), 0)
    ensures ok ==> Contents(fs) == PlanAll(FRESH, Replaced(vs)).contents
    ensures ok ==> Counts(fs) == PlanAll(FRESH, Replaced(vs)).counts
    ensures ok ==> |owner| == 1 + PlanAll(FRESH, Replaced(vs)).used
  {
    var b := new Builder(image);
    fs, owner := b.fs, b.owner;
    ok := b.CopyTree(vs, FRESH);
    if ok {
      b.Finish(PlanAll(FRESH, Replaced(vs)));
      fs, owner := b.fs, b.owner;
    }
    disk := b.disk;
  }

  lemma DenseAnywhere(owner: map<nat, Owner>, root: nat, hint: nat)
    requires Dense(owner, root, hint)
    ensures Dense(owner, root, 0)
  {
  }

  /** Only the root directory's block, and the reserved ones before it, are marked. */
  ghost predicate RootOnly(b: Builder)
    reads b
  {
    && b.hint == 0 && b.root < |b.disk| <= 8 * |b.bitmap|
    && BitmapOk(b.bitmap, |b.disk|, b.root, map[b.root := DirBlock([], 0)])
  }

  /** On an empty volume the allocator starts right after the root directory, never at block 0. */
  method FirstAllocation(b: Builder) returns (r: Option<nat>)
    requires RootOnly(b)
    modifies b
    ensures r == if b.root + 1 < |old(b.disk)| then Some(b.root + 1) else None
  {
    ghost var bm := b.bitmap;
    r := b.Alloc();
    FirstFree(bm, |b.disk|, b.root, DirBlock([], 0), r);
  }

  lemma FirstFree(bm: seq<byte>, n: nat, root: nat, o: Owner, r: Option<nat>)
    requires BitmapOk(bm, n, root, map[root := o]) && root < n
    requires r.None? ==> forall b :: 0 <= b < n ==> BitSet(bm, b)
    requires r.Some? ==> r.value < n && !BitSet(bm, r.value) && forall b :: 0 <= b < r.value ==> BitSet(bm, b)
    ensures r == if root + 1 < n then Some(root + 1) else None
  {
    assert BitSet(bm, root);
    if root + 1 < n {
      assert !BitSet(bm, root + 1);
    }
  }
}
