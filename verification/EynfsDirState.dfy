/** The per-directory cache of the copier (`dir_state`) and the scan that loads it. */
module EynfsDirState {
  import opened Bytes
  import opened EynfsSector
  import opened EynfsLayout
  import opened EynfsTree
  import opened EynfsSource

  /** The mutable cache the tool keeps per directory (`dir_state`). */
  datatype DirState = DirState(
    blocks: seq<nat>,
    freeSlots: seq<nat>,
    totalSlots: nat,
    names: map<Name, Known>)
  datatype Known = Known(kind: byte, first: nat, slot: nat)

  function Range(lo: nat, hi: nat): (r: seq<nat>)
    requires lo <= hi
    ensures |r| == hi - lo && forall i :: 0 <= i < |r| ==> r[i] == lo + i
  {
    seq(hi - lo, i => lo + i)
  }

  ghost predicate KnownOk(st: DirState, d: DirRec) {
    && (forall k :: 0 <= k < |d.entries| ==> d.entries[k].name in st.names && st.names[d.entries[k].name].slot == k)
    && (forall n :: n in st.names ==>
          var v := st.names[n];
          v.slot < |d.entries| && d.entries[v.slot].name == n && d.entries[v.slot].kind == v.kind &&
            d.entries[v.slot].first == v.first)
  }

  ghost predicate StateOk(st: DirState, d: DirRec) {
    && st.blocks == d.blocks
    && |d.blocks| == DirBlocks(|d.entries|)
    && st.totalSlots == 9 * |d.blocks|
    && st.freeSlots == Range(|d.entries|, 9 * |d.blocks|)
    && KnownOk(st, d)
  }

  ghost predicate StatesOk(states: map<Path, DirState>, fs: Fs) {
    && states.Keys <= fs.dirs.Keys
    && forall p {:trigger StateOk(states[p], fs.dirs[p])} :: p in states ==> StateOk(states[p], fs.dirs[p])
  }

  // ----- loading a cache from the disk -----

  datatype Scanned = Scanned(free: seq<nat>, names: map<Name, Known>)

  /** A used slot is remembered under its name, unless the name does not decode. */
  function ScanSlot(sc: Scanned, s: Sector, j: nat, k: nat): Scanned
    requires j < PER_BLOCK
  {
    if SlotFree(s, j) then Scanned(sc.free + [k], sc.names)
    else
      var e := SlotEntry(s, j);
      if Utf8(e.name) then Scanned(sc.free, sc.names[e.name := Known(e.kind, e.first, k)]) else sc
  }

  /** The first `n` slots of one block, numbered from `slot0`. */
  function BlockScan(sc: Scanned, data: Sector, n: nat, slot0: nat): Scanned
    requires n <= PER_BLOCK
    decreases n, slot0
  {
    if n == 0 then sc else ScanSlot(BlockScan(sc, data, n - 1, slot0), data, n - 1, slot0 + n - 1)
  }

  /** What a scan of the first `k` blocks of a chain collects. */
  function Scan(disk: Disk, blocks: seq<nat>, k: nat): Scanned
    requires k <= |blocks| && forall i :: 0 <= i < |blocks| ==> blocks[i] < |disk|
  {
    if k == 0 then Scanned([], map[])
    else BlockScan(Scan(disk, blocks, k - 1), disk[blocks[k - 1]], PER_BLOCK, 9 * (k - 1))
  }

  /** `_load_dir_state`: walk the chain once. It ends because the chain does. */
  method LoadDirState(disk: Disk, start: nat, ghost chain: seq<nat>) returns (st: DirState)
    requires Chain(disk, chain) && start == FirstOf(chain)
    ensures st.blocks == chain && st.totalSlots == 9 * |chain|
    ensures Scanned(st.freeSlots, st.names) == Scan(disk, chain, |chain|)
  {
    var blocks, free, names, slot := [], [], map[], 0;
    var block := start;
    while block != 0
      invariant |blocks| <= |chain| && forall i :: 0 <= i < |blocks| ==> blocks[i] == chain[i]
      invariant block == if |blocks| < |chain| then chain[|blocks|] else 0
      invariant slot == 9 * |blocks|
      invariant Scanned(free, names) == Scan(disk, chain, |blocks|)
      decreases |chain| - |blocks|
    {
      assert LinkOk(disk, chain, |blocks|);
      free, names, slot := ScanNext(disk, chain, |blocks|, disk[block], free, names, slot);
      blocks, block := blocks + [block], NextOf(disk[block]);
    }
    st := DirState(blocks, free, slot, names);
  }

  /** One more block of the chain. */
  method ScanNext(
    disk: Disk, ghost chain: seq<nat>, ghost k: nat, data: Sector,
    free0: seq<nat>, names0: map<Name, Known>, slot0: nat)
    returns (free: seq<nat>, names: map<Name, Known>, slot: nat)
    requires forall i :: 0 <= i < |chain| ==> chain[i] < |disk|
    requires k < |chain| && data == disk[chain[k]] && slot0 == 9 * k
    requires Scanned(free0, names0) == Scan(disk, chain, k)
    ensures slot == 9 * (k + 1) && Scanned(free, names) == Scan(disk, chain, k + 1)
  {
    free, names, slot := ScanBlock(data, free0, names0, slot0);
  }

  /** The inner loop: nine slots of one block. */
  method ScanBlock(data: Sector, free0: seq<nat>, names0: map<Name, Known>, slot0: nat)
    returns (free: seq<nat>, names: map<Name, Known>, slot: nat)
    ensures slot == slot0 + 9
    ensures Scanned(free, names) == BlockScan(Scanned(free0, names0), data, PER_BLOCK, slot0)
  {
    free, names, slot := free0, names0, slot0;
    for i := 0 to 9
      invariant slot == slot0 + i
      invariant Scanned(free, names) == BlockScan(Scanned(free0, names0), data, i, slot0)
    {
      free, names := ScanOne(data, i, free, names, slot);
      slot := slot + 1;
    }
  }

  /** One slot: free, or an entry to remember if its name decodes. */
  method ScanOne(data: Sector, i: nat, free0: seq<nat>, names0: map<Name, Known>, slot: nat)
      returns (free: seq<nat>, names: map<Name, Known>)
    requires i < PER_BLOCK
    ensures Scanned(free, names) == ScanSlot(Scanned(free0, names0), data, i, slot)
  {
    free, names := free0, names0;
    if SlotFree(data, i) {
      free := free + [slot];
    } else {
      var e := SlotEntry(data, i);
      if Utf8(e.name) { names := names[e.name := Known(e.kind, e.first, slot)]; }
    }
  }

  /** `names` records those of the first `m` entries whose names decode, each under its slot. */
  ghost predicate NamesOk(names: map<Name, Known>, es: seq<Dirent>, m: nat) {
    && (forall k :: 0 <= k < m && k < |es| && Utf8(es[k].name) ==> es[k].name in names)
    && (forall n :: n in names ==> var v := names[n];
          && Utf8(n) && v.slot < m && v.slot < |es|
          && v == Known(es[v.slot].kind, es[v.slot].first, v.slot) && es[v.slot].name == n)
  }

  lemma {:induction false} ScanStep(sc: Scanned, s: Sector, j: nat, es: seq<Dirent>, k: nat, k1: nat)
    requires j < PER_BLOCK && SlotIs(s, j, es, k) && NamesDistinct(es) && k1 == k + 1
    requires Met(sc, es, k)
    ensures Met(ScanSlot(sc, s, j, k), es, k1)
  {
    if k < |es| {
      assert forall i :: 0 <= i < k ==> es[i].name != es[k].name;
    }
  }

  /** The scan has met the first `m` slots of a directory with these entries. */
  ghost predicate Met(sc: Scanned, es: seq<Dirent>, m: nat) {
    sc.free == FreeAbove(|es|, m) && NamesOk(sc.names, es, m)
  }

  lemma {:induction false} BlockScanOfDir(
    disk: Disk, d: DirRec, sc: Scanned, k: nat, n: nat, slot0: nat, m: nat)
    requires DirOnDisk(disk, d) && NamesDistinct(d.entries) && k < |d.blocks| && n <= PER_BLOCK
    requires slot0 == 9 * k && m == slot0 + n && Met(sc, d.entries, slot0)
    ensures Met(BlockScan(sc, disk[d.blocks[k]], n, slot0), d.entries, m)
  {
    if n > 0 {
      var data, j := disk[d.blocks[k]], n - 1;
      var sc1 := BlockScan(sc, data, j, slot0);
      BlockScanOfDir(disk, d, sc, k, j, slot0, m - 1);
      SlotMet(disk, d, sc1, k, j, m - 1, m);
      ScanOneMore(sc, data, n, slot0, sc1, m - 1);
    }
  }

  lemma {:induction false} ScanOneMore(sc: Scanned, data: Sector, n: nat, slot0: nat, sc1: Scanned, at: nat)
    requires 0 < n <= PER_BLOCK && sc1 == BlockScan(sc, data, n - 1, slot0) && at == slot0 + n - 1
    ensures BlockScan(sc, data, n, slot0) == ScanSlot(sc1, data, n - 1, at)
  {
  }

  lemma {:induction false} SlotMet(disk: Disk, d: DirRec, sc: Scanned, k: nat, j: nat, m: nat, m1: nat)
    requires DirOnDisk(disk, d) && NamesDistinct(d.entries) && k < |d.blocks| && j < PER_BLOCK
    requires m == 9 * k + j && m1 == m + 1 && Met(sc, d.entries, m)
    ensures Met(ScanSlot(sc, disk[d.blocks[k]], j, m), d.entries, m1)
  {
    assert SlotAt(disk, d, k, j);
    ScanStep(sc, disk[d.blocks[k]], j, d.entries, m, m1);
  }

  /** Scanning a stored directory yields its entries by name and the slots above them. */
  lemma {:induction false} ScanOfDir(disk: Disk, d: DirRec, k: nat)
    requires DirOnDisk(disk, d) && NamesDistinct(d.entries) && k <= |d.blocks|
    ensures Met(Scan(disk, d.blocks, k), d.entries, 9 * k)
  {
    if k > 0 {
      ScanOfDir(disk, d, k - 1);
      BlockScanOfDir(disk, d, Scan(disk, d.blocks, k - 1), k - 1, PER_BLOCK, 9 * (k - 1), 9 * k);
    }
  }

  /** The slots from `lo` up among the first `m`. */
  function FreeAbove(lo: nat, m: nat): seq<nat> {
    if m <= lo then [] else Range(lo, m)
  }

  /** The cached names that decode. */
  function Decodable(names: map<Name, Known>): map<Name, Known> {
    map n | n in names && Utf8(n) :: names[n]
  }

  /** The cache the copier keeps is the one a fresh scan of the disk would give, up to names that
      do not decode. */
  lemma CacheIsScan(disk: Disk, d: DirRec, st: DirState)
    requires DirOnDisk(disk, d) && NamesDistinct(d.entries) && StateOk(st, d)
    ensures Scan(disk, d.blocks, |d.blocks|) == Scanned(st.freeSlots, Decodable(st.names))
  {
    var m := 9 * |d.blocks|;
    var sc := Scan(disk, d.blocks, |d.blocks|);
    ScanOfDir(disk, d, |d.blocks|);
    forall n | n in st.names && Utf8(n) ensures n in sc.names {
      assert d.entries[st.names[n].slot].name == n;
    }
    forall n | n in sc.names ensures n in st.names && sc.names[n] == st.names[n] {
      assert d.entries[sc.names[n].slot].name == n;
    }
    assert sc.names == Decodable(st.names);
    if m == |d.entries| {
      assert Range(m, m) == [];
    }
  }

  /** The cache of an empty one-block directory is what a scan of a zeroed block gives. */
  lemma EmptyCache(disk: Disk, b: nat, st: DirState)
    requires DirOnDisk(disk, DirRec([b], []))
    requires st.blocks == [b] && st.totalSlots == 9 && Scanned(st.freeSlots, st.names) == Scan(disk, [b], 1)
    ensures StateOk(st, DirRec([b], []))
  {
    ScanOfDir(disk, DirRec([b], []), 1);
  }
}
