/** Path resolution on an image, and the write-then-read theorems for whole trees. */
module EynfsPaths {
  import opened Bytes
  import opened EynfsSector
  import opened EynfsLayout
  import opened EynfsTree
  import opened EynfsSource
  import opened EynfsWalk
  import opened EynfsFormat
  import opened EynfsBuilder
  import opened EynfsReaders

  // ----- splitting a path -----

  function Skip(path: seq<byte>, p: nat): (r: nat)
    requires p <= |path|
    ensures p <= r <= |path| && (r < |path| ==> path[r] != SLASH)
    decreases |path| - p
  {
    if p < |path| && path[p] == SLASH then Skip(path, p + 1) else p
  }

  /** End of the run of at most `n` non-slash bytes from `p`. */
  function Take(path: seq<byte>, p: nat, n: nat): (r: nat)
    requires p <= |path|
    ensures p <= r <= |path| && r <= p + n
    ensures r < p + n && r < |path| ==> path[r] == SLASH
    ensures p < |path| && path[p] != SLASH && n > 0 ==> p < r
    decreases n
  {
    if p < |path| && path[p] != SLASH && n > 0 then Take(path, p + 1, n - 1) else p
  }

  /** The components of a path: maximal runs of non-slash bytes. */
  function Components(path: seq<byte>, p: nat): Path
    requires p <= |path|
    decreases |path| - p
  {
    var a := Skip(path, p);
    if a == |path| then [] else
      var b := Take(path, a, |path|);
      [path[a..b]] + Components(path, b)
  }

  /** What GRUB's 128-byte component buffer makes of a path. */
  function Pieces(path: seq<byte>, p: nat): Path
    requires p <= |path|
    decreases |path| - p
  {
    var a := Skip(path, p);
    if a == |path| then [] else
      var b := Take(path, a, COMP_MAX);
      [path[a..b]] + Pieces(path, b)
  }

  // ----- resolving -----

  function Resolve(fs: Fs, cur: Path, comps: Path): Result<Path>
    decreases |comps|
  {
    if comps == [] then Ok(cur)
    else
      var q := cur + [comps[0]];
      if q in fs.dirs then Resolve(fs, q, comps[1..])
      else if q !in fs.files then Err(NotFound)
      else if |comps| == 1 then Ok(q)
      else Err(NotDirectory)
  }

  ghost predicate Stored(fs: Fs, q: Path) {
    q in fs.dirs || q in fs.files
  }

  /** A directory entry that tells the truth about the object stored at `q`. */
  ghost predicate Describes(fs: Fs, q: Path, e: Dirent) {
    && Stored(fs, q)
    && (q in fs.dirs ==> e.kind == TYPE_DIR && e.first == FirstOf(fs.dirs[q].blocks))
    && (q !in fs.dirs ==> e.kind == TYPE_FILE && e.size == |fs.files[q].data| && e.first == FirstOf(fs.files[q].blocks))
  }

  lemma StoredName(fs: Fs, p: Path, n: Name)
    requires Linked(fs, {}) && Stored(fs, p + [n])
    ensures p in fs.dirs && ValidName(n) && HasEntry(fs, p, n)
  {
    PathOf(p, n);
    assert HasEntry(fs, Parent(p + [n]), Base(p + [n]));
    var k :| 0 <= k < |fs.dirs[p].entries| && fs.dirs[p].entries[k].name == n;
    assert EntryOk(fs, p, fs.dirs[p].entries[k]);
  }

  /** The entry of a name, if any, describes the child of that name. */
  lemma EntryDescribes(fs: Fs, p: Path, n: Name)
    requires Linked(fs, {}) && p in fs.dirs
    ensures EntryNamed(fs.dirs[p].entries, n).Some? <==> Stored(fs, p + [n])
    ensures EntryNamed(fs.dirs[p].entries, n).Some? ==> Describes(fs, p + [n], EntryNamed(fs.dirs[p].entries, n).value)
  {
    var es := fs.dirs[p].entries;
    if Stored(fs, p + [n]) {
      StoredName(fs, p, n);
    }
    if exists k :: 0 <= k < |es| && es[k].name == n {
      forall k | 0 <= k < |es| && es[k].name == n ensures Describes(fs, p + [n], es[k]) {
        assert EntryOk(fs, p, es[k]);
      }
    }
  }

  /** Every proper prefix of a stored path is a directory. */
  lemma {:induction false} PrefixIsDir(fs: Fs, q: Path, k: nat)
    requires Linked(fs, {}) && Stored(fs, q) && k < |q|
    ensures q[..k] in fs.dirs
    decreases |q|
  {
    assert q == Parent(q) + [Base(q)];
    StoredName(fs, Parent(q), Base(q));
    if k < |q| - 1 {
      PrefixIsDir(fs, Parent(q), k);
      assert Parent(q)[..k] == q[..k];
    }
  }

  /** Resolution succeeds exactly on stored paths, and fails on a file used as a directory
      with NotDirectory, otherwise with NotFound. */
  lemma {:induction false} ResolveExact(fs: Fs, cur: Path, comps: Path)
    requires Linked(fs, {}) && cur in fs.dirs
    ensures Resolve(fs, cur, comps).Ok? <==> Stored(fs, cur + comps)
    ensures Resolve(fs, cur, comps).Ok? ==> Resolve(fs, cur, comps).value == cur + comps
    ensures Resolve(fs, cur, comps) == Err(NotDirectory) <==>
      exists k :: |cur| <= k < |cur + comps| && (cur + comps)[..k] in fs.files
    ensures Resolve(fs, cur, comps) != Err(NotRegular)
    decreases |comps|
  {
    if comps == [] {
      assert cur + comps == cur;
    } else {
      var q := cur + [comps[0]];
      var full := cur + comps;
      assert q + comps[1..] == full;
      assert full[..|cur|] == cur && full[..|cur| + 1] == q;
      if q in fs.dirs {
        ResolveExact(fs, q, comps[1..]);
        assert cur !in fs.files;
        forall k | |cur| <= k < |full| && full[..k] in fs.files ensures |q| <= k {
        }
      } else {
        if Stored(fs, full) && |comps| > 1 {
          PrefixIsDir(fs, full, |cur| + 1);
        }
        forall k | |cur| <= k < |full| && full[..k] in fs.files ensures q in fs.files && |comps| > 1 {
          if k > |cur| + 1 {
            assert full[..k][..|cur| + 1] == q;
            PrefixIsDir(fs, full[..k], |cur| + 1);
          }
        }
        if |comps| == 1 { assert full == q; }
      }
    }
  }

  lemma {:induction false} TakeLimit(path: seq<byte>, p: nat, n: nat, m: nat)
    requires p <= |path| && n <= m
    ensures Take(path, p, n) == Min(Take(path, p, m), p + n)
    decreases n
  {
    if p < |path| && path[p] != SLASH && n > 0 {
      TakeLimit(path, p + 1, n - 1, m - 1);
    }
  }

  /** The 127-byte limit never changes an answer: no stored name is that long. */
  lemma {:induction false} PiecesResolve(fs: Fs, cur: Path, path: seq<byte>, p: nat)
    requires Linked(fs, {}) && p <= |path|
    ensures Resolve(fs, cur, Pieces(path, p)) == Resolve(fs, cur, Components(path, p))
    decreases |path| - p
  {
    var a := Skip(path, p);
    if a < |path| {
      var b, c := Take(path, a, COMP_MAX), Take(path, a, |path|);
      var n, m := path[a..b], path[a..c];
      if |path| >= COMP_MAX {
        TakeLimit(path, a, COMP_MAX, |path|);
      } else {
        TakeLimit(path, a, |path|, COMP_MAX);
      }
      if b == c {
        if cur + [n] in fs.dirs { PiecesResolve(fs, cur + [n], path, b); }
        assert ([n] + Pieces(path, b))[1..] == Pieces(path, b);
        assert ([n] + Components(path, b))[1..] == Components(path, b);
        PiecesSingle(path, b);
      } else {
        if Stored(fs, cur + [n]) { StoredName(fs, cur, n); }
        if Stored(fs, cur + [m]) { StoredName(fs, cur, m); }
      }
    }
  }

  lemma PiecesSingle(path: seq<byte>, p: nat)
    requires p <= |path|
    ensures Pieces(path, p) == [] <==> Components(path, p) == []
  {
  }

  // ----- eynfs_traverse_path -----

  /** Skip slashes: the `while (path[p] == '/')` loops. */
  method SkipSlashes(path: seq<byte>, p0: nat) returns (p: nat)
    requires p0 <= |path|
    ensures p == Skip(path, p0)
  {
    p := p0;
    while p < |path| && path[p] == SLASH
      invariant p0 <= p <= |path| && Skip(path, p0) == Skip(path, p)
    {
      p := p + 1;
    }
  }

  /** Collect one component into the 128-byte buffer. */
  method TakeComponent(path: seq<byte>, p0: nat) returns (comp: Name, p: nat)
    requires p0 <= |path|
    ensures p == Take(path, p0, COMP_MAX) && comp == path[p0..p]
  {
    p, comp := p0, [];
    while p < |path| && path[p] != SLASH && |comp| + 1 < 128
      invariant p0 <= p <= |path| && comp == path[p0..p] && |comp| <= COMP_MAX
      invariant Take(path, p0, COMP_MAX) == Take(path, p, COMP_MAX - |comp|)
    {
      comp := comp + [path[p]];
      p := p + 1;
    }
  }

  /** `eynfs_traverse_path` from the root of an image. */
  method Traverse(disk: Disk, root: nat, path: seq<byte>, ghost fs: Fs, ghost owner: map<nat, Owner>)
    returns (r: Result<Dirent>)
    requires Image(disk, root, fs, owner) && 0 !in path
    ensures r.Ok? ==>
      Resolve(fs, [], Pieces(path, 0)).Ok? && Describes(fs, Resolve(fs, [], Pieces(path, 0)).value, r.value)
    ensures r.Err? ==> Resolve(fs, [], Pieces(path, 0)) == Err(r.error)
  {
    var p := SkipSlashes(path, 0);
    if p == |path| {
      return Ok(NewEntry([], TYPE_DIR, 0, root));
    }
    var dir := root;
    ghost var cur: Path := [];
    SkipTwice(path, 0);
    while true
      invariant p < |path| && path[p] != SLASH
      invariant cur in fs.dirs && dir == FirstOf(fs.dirs[cur].blocks)
      invariant Resolve(fs, [], Pieces(path, 0)) == Resolve(fs, cur, Pieces(path, p))
      decreases |path| - p
    {
      var comp, b := TakeComponent(path, p);
      assert Skip(path, p) == p;
      assert Pieces(path, p) == [comp] + Pieces(path, b);
      var e := LookIn(disk, root, dir, comp, cur, fs, owner);
      if e.None? {
        return Err(NotFound);
      }
      assert ([comp] + Pieces(path, b))[1..] == Pieces(path, b);
      SkipTwice(path, b);
      p := SkipSlashes(path, b);
      if p == |path| {
        return Ok(e.value);
      }
      if e.value.kind != TYPE_DIR {
        return Err(NotDirectory);
      }
      dir := e.value.first;
      cur := cur + [comp];
    }
  }

  lemma SkipTwice(path: seq<byte>, p: nat)
    requires p <= |path|
    ensures Skip(path, Skip(path, p)) == Skip(path, p)
    ensures Pieces(path, Skip(path, p)) == Pieces(path, p)
    ensures Skip(path, p) == |path| <==> Pieces(path, p) == []
  {
  }

  /** One directory search, in terms of what is stored. */
  method LookIn(
    disk: Disk, root: nat, dir: nat, name: Name, ghost cur: Path, ghost fs: Fs, ghost owner: map<nat, Owner>)
    returns (r: Option<Dirent>)
    requires Image(disk, root, fs, owner) && 0 !in name
    requires cur in fs.dirs && dir == FirstOf(fs.dirs[cur].blocks)
    ensures r.Some? <==> Stored(fs, cur + [name])
    ensures r.Some? ==> Describes(fs, cur + [name], r.value)
    ensures r.Some? ==> (r.value.kind == TYPE_DIR <==> cur + [name] in fs.dirs)
  {
    assert DirOnDisk(disk, fs.dirs[cur]) && NamesDistinct(fs.dirs[cur].entries);
    r := FindInDir(disk, dir, name, fs.dirs[cur].blocks);
    FindStored(disk, fs.dirs[cur], name, 0);
    EntryDescribes(fs, cur, name);
  }

  // ----- open and read -----

  /** What a read of `[offset, offset + len)` of a stored path must give. */
  function ReadSpec(files: map<Path, seq<byte>>, q: Path, offset: nat, len: nat): Option<seq<byte>> {
    if q !in files then None
    else if offset >= |files[q]| then Some([])
    else Some(files[q][offset..Min(offset + len, |files[q]|)])
  }

  /** A read fails exactly without a file. Byte `k` of the answer is byte `offset + k` of the file, it has
      at most `len` bytes, and fewer only if it reaches the end. */
  lemma {:induction false} ReadBytes(files: map<Path, seq<byte>>, q: Path, offset: nat, len: nat, k: nat)
    ensures var r := ReadSpec(files, q, offset, len);
      && (r.None? <==> q !in files)
      && (r.Some? ==>
            && |r.value| <= len && (|r.value| < len ==> offset + |r.value| >= |files[q]|)
            && (k < |r.value| ==> offset + k < |files[q]| && r.value[k] == files[q][offset + k]))
  {
  }

  /** `eynfs_open` then `eynfs_read` at an offset: exactly the slice of the file stored at that
      path, and an error exactly when no file is stored there. */
  method GrubOpenRead(disk: Disk, path: seq<byte>, offset: nat, len: nat, ghost fs: Fs, ghost owner: map<nat, Owner>)
    returns (r: Result<seq<byte>>)
    requires |disk| > 0 && Image(disk, RootField(disk[0]), fs, owner) && 0 !in path
    ensures var q := Components(path, 0);
      && (r.Ok? ==> ReadSpec(Contents(fs), q, offset, len) == Some(r.value))
      && (r.Err? ==> ReadSpec(Contents(fs), q, offset, len) == None)
      && (r == Err(NotRegular) <==> q in fs.dirs)
      && (r == Err(NotDirectory) <==> exists k :: 0 <= k < |q| && q[..k] in fs.files)
  {
    ghost var q := Components(path, 0);
    PiecesResolve(fs, [], path, 0);
    ResolveExact(fs, [], q);
    assert [] + q == q;
    var e := Traverse(disk, RootField(disk[0]), path, fs, owner);
    if e.Err? {
      return Err(e.error);
    }
    if e.value.kind != TYPE_FILE {
      return Err(NotRegular);
    }
    assert FileOnDisk(disk, fs.files[q]);
    var buf := GrubRead(disk, e.value.first, e.value.size, offset, len, fs.files[q]);
    r := Ok(buf);
  }

  // ----- the host extractor -----

  predicate AllDecode(es: seq<Dirent>) {
    forall k :: 0 <= k < |es| ==> Utf8(es[k].name)
  }

  /** `read_dir_table`: every used slot in chain order; it raises on the first name that is not UTF-8. */
  method ReadDirTable(disk: Disk, start: nat, ghost d: DirRec) returns (r: Option<seq<Dirent>>)
    requires DirOnDisk(disk, d) && start == FirstOf(d.blocks)
    ensures r == if AllDecode(d.entries) then Some(d.entries) else None
  {
    var entries := [];
    var block := start;
    ghost var b := 0;
    while block != 0
      invariant 0 <= b <= |d.blocks| && block == (if b < |d.blocks| then d.blocks[b] else 0)
      invariant entries == d.entries[..Min(9 * b, |d.entries|)] && AllDecode(entries)
      decreases |d.blocks| - b
    {
      var data := disk[block];
      assert LinkOk(disk, d.blocks, b);
      for i := 0 to 9
        invariant entries == d.entries[..Min(9 * b + i, |d.entries|)] && AllDecode(entries)
      {
        assert SlotAt(disk, d, b, i);
        if !SlotFree(data, i) {
          if !Utf8(SlotEntry(data, i).name) {
            assert d.entries[9 * b + i] == SlotEntry(data, i);
            return None;
          }
          entries := entries + [SlotEntry(data, i)];
        }
      }
      block := NextOf(data);
      b := b + 1;
    }
    assert entries == d.entries;
    r := Some(entries);
  }

  lemma RootDecodes(fs: Fs)
    requires Linked(fs, {}) && [] in fs.dirs
    ensures AllDecode(fs.dirs[[]].entries)
  {
    forall k | 0 <= k < |fs.dirs[[]].entries| ensures Utf8(fs.dirs[[]].entries[k].name) {
      assert EntryOk(fs, [], fs.dirs[[]].entries[k]);
    }
  }

  /** `main` of the extractor: the first root entry of that name, read whole. It does not look at
      the entry's type: a directory has size 0 and comes out empty. */
  method ExtractFromRoot(disk: Disk, name: Name, ghost fs: Fs, ghost owner: map<nat, Owner>)
    returns (r: Option<seq<byte>>)
    requires |disk| > 0 && Image(disk, RootField(disk[0]), fs, owner)
    ensures r ==
      if [name] in fs.files then Some(fs.files[[name]].data)
      else if [name] in fs.dirs then Some([])
      else None
  {
    assert DirOnDisk(disk, fs.dirs[[]]) && NamesDistinct(fs.dirs[[]].entries);
    var table := ReadDirTable(disk, RootField(disk[0]), fs.dirs[[]]);
    RootDecodes(fs);
    var entries := table.value;
    EntryDescribes(fs, [], name);
    assert [] + [name] == [name];
    for i := 0 to |entries|
      invariant forall k :: 0 <= k < i ==> entries[k].name != name
    {
      if entries[i].name == name {
        ghost var f := RootEntry(disk, entries[i], fs, i);
        var out := ExtractFile(disk, entries[i].first, entries[i].size, f);
        return Some(out);
      }
    }
    r := None;
  }

  /** What an entry of the root stands for: a stored file, or a directory of size 0. */
  lemma RootEntry(disk: Disk, e: Dirent, fs: Fs, i: nat) returns (f: FileRec)
    requires Linked(fs, {}) && [] in fs.dirs && i < |fs.dirs[[]].entries| && e == fs.dirs[[]].entries[i]
    requires forall q {:trigger FileOnDisk(disk, fs.files[q])} :: q in fs.files ==> FileOnDisk(disk, fs.files[q])
    ensures [e.name] in fs.files ==> [e.name] !in fs.dirs && f == fs.files[[e.name]]
    ensures [e.name] !in fs.files ==> [e.name] in fs.dirs && e.size == 0
    ensures e.size > 0 ==> FileOnDisk(disk, f) && e.first == FirstOf(f.blocks)
    ensures e.size == |f.data|
  {
    assert EntryOk(fs, [], e);
    assert [] + [e.name] == [e.name];
    f := if [e.name] in fs.files then fs.files[[e.name]] else FileRec([], []);
  }

  // ----- the round trip -----

  /** Copy the steps of a walk onto a fresh volume, then read any path at any offset through GRUB. */
  method CopyThenRead(image: Disk, vs: seq<Visit>, path: seq<byte>, offset: nat, len: nat)
    returns (ok: bool, r: Result<seq<byte>>)
    requires Formatted(image, |image|) && VisitsNew(FRESH, Replaced(vs)) && 0 !in path
    ensures ok <==>
      && VisitsAccepted(FRESH, Replaced(vs))
      && 1 + PlanAll(FRESH, Replaced(vs)).used <= |image| - RootBlock(|image|)
    ensures ok ==> (r.Ok? <==> Components(path, 0) in PlanAll(FRESH, Replaced(vs)).contents)
    ensures ok && r.Ok? ==>
      Some(r.value) == ReadSpec(PlanAll(FRESH, Replaced(vs)).contents, Components(path, 0), offset, len)
    ensures ok ==> (r == Err(NotRegular) <==> Components(path, 0) in PlanAll(FRESH, Replaced(vs)).counts)
  {
    var disk;
    ghost var fs, owner;
    ok, disk, fs, owner := CopyImage(image, vs);
    r := Err(NotFound);
    if ok {
      ImageRoot(image);
      SummaryKeys(fs);
      r := GrubOpenRead(disk, path, offset, len, fs, owner);
    }
  }

  /** Copy a host tree onto a fresh volume, then read any path at any offset through GRUB:
      the result is the slice of the host file, for every valid tree that fits. */
  method CopyThenGrubRead(image: Disk, t: Tree, path: seq<byte>, offset: nat, len: nat)
    returns (ok: bool, r: Result<seq<byte>>)
    requires Formatted(image, |image|) && ValidTree(t) && 0 !in path
    ensures ok <==> Total(t) <= |image| - RootBlock(|image|)
    ensures ok ==> (r.Ok? <==> Components(path, 0) in TreeFiles(t, []))
    ensures ok && r.Ok? ==> Some(r.value) == ReadSpec(TreeFiles(t, []), Components(path, 0), offset, len)
    ensures ok ==> (r == Err(NotRegular) <==> Components(path, 0) in TreeDirs(t, []))
  {
    WalkFromRoot(t);
    WalkAccepted(t);
    ok, r := CopyThenRead(image, Walk(t, []), path, offset, len);
  }

  /** The same image read by the extractor: whole root files come back byte for byte, and a
      directory in the root as an empty file. */
  method CopyThenExtract(image: Disk, t: Tree, name: Name) returns (ok: bool, r: Option<seq<byte>>)
    requires Formatted(image, |image|) && ValidTree(t)
    ensures ok <==> Total(t) <= |image| - RootBlock(|image|)
    ensures ok && [name] in TreeFiles(t, []) ==> r == Some(TreeFiles(t, [])[[name]])
    ensures ok && [name] !in TreeFiles(t, []) ==> r == if [name] in TreeDirs(t, []) then Some([]) else None
  {
    WalkFromRoot(t);
    WalkAccepted(t);
    var disk;
    ghost var fs, owner;
    ok, disk, fs, owner := CopyImage(image, Walk(t, []));
    r := None;
    if ok {
      ImageRoot(image);
      SummaryKeys(fs);
      r := ExtractFromRoot(disk, name, fs, owner);
    }
  }

  lemma ImageRoot(image: Disk)
    requires Formatted(image, |image|)
    ensures RootField(image[0]) == RootBlock(|image|)
  {
    SuperblockFields(|image|, RootBlock(|image|), 1, RootBlock(|image|) - 1);
  }

  // ----- components, by slashes -----

  /** The three equations of a path's components: slashes are skipped, a component goes up to the next
      slash or the end, and there is nothing behind the end. */
  lemma {:induction false} SlashSkipped(path: seq<byte>, p: nat)
    requires p < |path| && path[p] == 47
    ensures Components(path, p) == Components(path, p + 1)
  {
  }

  lemma {:induction false} ComponentTaken(path: seq<byte>, p: nat, b: nat)
    requires p < b <= |path| && (forall k :: p <= k < b ==> path[k] != 47) && (b == |path| || path[b] == 47)
    ensures Components(path, p) == [path[p..b]] + Components(path, b)
  {
    TakeTo(path, p, b, |path|);
  }

  lemma {:induction false} TakeTo(path: seq<byte>, p: nat, b: nat, n: nat)
    requires p <= b <= |path| && (forall k :: p <= k < b ==> path[k] != 47) && (b == |path| || path[b] == 47)
    requires n >= b - p
    ensures Take(path, p, n) == b
    decreases b - p
  {
    if p < b { TakeTo(path, p + 1, b, n - 1); }
  }

  lemma {:induction false} NothingBehind(path: seq<byte>)
    ensures Components(path, |path|) == []
  {
  }

  /** Names with a slash before each. */
  function Joined(names: Path): seq<byte> {
    if names == [] then [] else [47] + names[0] + Joined(names[1..])
  }

  /** Joining names and taking the path apart gives the names. */
  lemma {:induction false} JoinedComponents(names: Path, path: seq<byte>, p: nat)
    requires forall k :: 0 <= k < |names| ==> names[k] != [] && 47 !in names[k]
    requires p <= |path| && path[p..] == Joined(names)
    ensures Components(path, p) == names
    decreases |names|
  {
    if names == [] {
      NothingBehind(path);
    } else {
      var n, rest := names[0], Joined(names[1..]);
      var b := p + 1 + |n|;
      FrontOf(path, p, n, rest);
      RestStarts(path, b, names[1..]);
      OneName(path, p, n, b);
      JoinedComponents(names[1..], path, b);
    }
  }

  lemma {:induction false} RestStarts(path: seq<byte>, b: nat, names: Path)
    requires b <= |path| && path[b..] == Joined(names)
    ensures b == |path| || path[b] == 47
  {
    if names != [] { assert path[b..][0] == 47; }
  }

  lemma {:induction false} OneName(path: seq<byte>, p: nat, n: seq<byte>, b: nat)
    requires p < |path| && path[p] == 47 && n != [] && 47 !in n
    requires p + 1 + |n| == b <= |path| && (forall k :: p + 1 <= k < b ==> path[k] == n[k - p - 1])
    requires b == |path| || path[b] == 47
    ensures Components(path, p) == [n] + Components(path, b)
  {
    SlashSkipped(path, p);
    ComponentTaken(path, p + 1, b);
    assert path[p + 1..b] == n;
  }

  lemma {:induction false} FrontOf(path: seq<byte>, p: nat, n: seq<byte>, rest: seq<byte>)
    requires p <= |path| && path[p..] == [47] + n + rest
    ensures p + 1 + |n| <= |path| && path[p] == 47 && path[p + 1..p + 1 + |n|] == n && path[p + 1 + |n|..] == rest
    ensures forall k :: p + 1 <= k < p + 1 + |n| ==> path[k] == n[k - p - 1]
  {
    assert path[p] == path[p..][0];
    forall k | p + 1 <= k < p + 1 + |n| ensures path[k] == n[k - p - 1] { assert path[k] == path[p..][k - p]; }
  }
}
