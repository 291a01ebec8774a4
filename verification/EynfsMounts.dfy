/** Several host trees copied one after the other, each under its own destination: directories
    that exist already are merged into. */
module EynfsMounts {
  import opened Bytes
  import opened EynfsSector
  import opened EynfsLayout
  import opened EynfsTree
  import opened EynfsSource
  import opened EynfsWalk
  import opened EynfsFormat
  import opened EynfsReaders
  import opened EynfsPaths

  /** One call of the tree copier: a host tree and the path it goes under. */
  datatype Mount = Mount(at: Path, tree: Tree)

  function MountWalk(ms: seq<Mount>): seq<Visit>
    decreases |ms|
  {
    if ms == [] then [] else Walk(ms[0].tree, ms[0].at) + MountWalk(ms[1..])
  }

  /** Every file of every tree, under its destination. */
  function MountFiles(ms: seq<Mount>): map<Path, seq<byte>>
    decreases |ms|
  {
    if ms == [] then map[] else TreeFiles(ms[0].tree, ms[0].at) + MountFiles(ms[1..])
  }

  function MountDirs(ms: seq<Mount>): set<Path>
    decreases |ms|
  {
    if ms == [] then {} else TreeDirs(ms[0].tree, ms[0].at) + MountDirs(ms[1..])
  }

  /** No destination holds a backslash; each exists or is a new child of an existing directory; no file's path is taken
      and no directory's path is a file's. Directories may exist already. */
  ghost predicate MountsOk(ms: seq<Mount>, dirs: set<Path>, files: set<Path>)
    decreases |ms|
  {
    ms == [] || (
      var p, t := ms[0].at, ms[0].tree;
      && ValidTree(t) && Landed(p) == p
      && (p in dirs || (p != [] && Parent(p) in dirs && ValidName(Base(p))))
      && TreeFiles(t, p).Keys !! dirs + files
      && TreeDirs(t, p) !! files
      && MountsOk(ms[1..], dirs + TreeDirs(t, p), files + TreeFiles(t, p).Keys))
  }

  // ----- where the paths of a tree lie -----

  lemma {:induction false} FilesBelow(files: seq<File>, p: Path, x: Path) returns (i: nat)
    requires x in FilesAt(files, p)
    ensures i < |files| && x == p + [files[i].name]
    decreases |files|
  {
    if x in FilesAt(files[1..], p) {
      var j := FilesBelow(files[1..], p, x);
      i := j + 1;
    } else {
      i := 0;
    }
  }

  lemma {:induction false} TreeBelow(t: Tree, p: Path, x: Path)
    requires x in TreeFiles(t, p) || x in TreeDirs(t, p)
    ensures Below(x, p) && (x in TreeFiles(t, p) ==> x != p)
    decreases t, 0
  {
    if x in SubsFiles(t.subs, p) || x in SubsDirs(t.subs, p) {
      var i := SubsBelow(t.subs, p, x);
      BelowSub(p, t.subs[i].name, x);
    } else if x != p {
      var i := FilesBelow(t.files, p, x);
    }
    if x in FilesAt(t.files, p) {
      var i := FilesBelow(t.files, p, x);
    }
  }

  lemma {:induction false} SubsBelow(subs: seq<Sub>, p: Path, x: Path) returns (i: nat)
    requires x in SubsFiles(subs, p) || x in SubsDirs(subs, p)
    ensures i < |subs| && Below(x, p + [subs[i].name])
    ensures x in SubsFiles(subs, p) ==> |x| > |p| + 1
    decreases subs
  {
    var q, t := p + [subs[0].name], subs[0].tree;
    if x in TreeFiles(t, q) || x in TreeDirs(t, q) {
      TreeBelow(t, q, x);
      i := 0;
      if x in SubsFiles(subs[1..], p) { var j := SubsBelow(subs[1..], p, x); }
    } else {
      var j := SubsBelow(subs[1..], p, x);
      i := j + 1;
    }
  }

  // ----- one tree into a plan -----

  /** The plan has room for these files, and for these directories, new or not. */
  ghost predicate Open(pl: Plan, files: map<Path, seq<byte>>, dirs: set<Path>) {
    && (forall q :: q in files ==> q !in pl.counts && q !in pl.contents)
    && (forall q :: q in dirs ==> q !in pl.contents)
  }

  lemma {:induction false} FilesMerge(files: seq<File>, subs: seq<Sub>, p: Path, pl: Plan)
    requires ValidFiles(files, subs) && p in pl.counts
    requires Open(pl, FilesAt(files, p), {})
    ensures FilesOk(pl, p, files)
    decreases |files|
  {
    if files != [] {
      var f := files[0];
      var pl1 := PlanFile(pl, p, f);
      assert p + [f.name] in FilesAt(files, p);
      forall q | q in FilesAt(files[1..], p) ensures q !in pl1.counts && q !in pl1.contents {
        var i := FilesBelow(files[1..], p, q);
        assert q in FilesAt(files, p) && q[|p|] == files[1..][i].name != f.name;
      }
      FilesMerge(files[1..], subs, p, pl1);
    }
  }

  /** The directory itself and its files, entered. */
  lemma {:induction false} VisitMerge(t: Tree, p: Path, pl: Plan) returns (pl1: Plan)
    requires ValidTree(t) && DirOk(pl, p) && Open(pl, TreeFiles(t, p), TreeDirs(t, p))
    ensures var v := Visit(p, SubNames(t.subs), t.files);
      SourceOk(pl, [v]) && pl1 == PlanAll(pl, [v])
    ensures pl1.contents == pl.contents + FilesAt(t.files, p) && pl1.counts.Keys == pl.counts.Keys + {p}
  {
    var v := Visit(p, SubNames(t.subs), t.files);
    var pl0 := PlanDir(pl, p);
    DirEntered(pl, p);
    forall q | q in FilesAt(t.files, p) ensures q !in pl0.counts && q !in pl0.contents {
      var i := FilesBelow(t.files, p, q);
      assert q in TreeFiles(t, p);
    }
    FilesMerge(t.files, t.subs, p, pl0);
    FilesContents(t.files, p, pl0);
    FilesCounts(t.files, p, pl0);
    pl1 := PlanVisit(pl, v);
    assert [v][1..] == [] && PlanAll(pl1, []) == pl1;
  }

  lemma {:induction false} DirEntered(pl: Plan, p: Path)
    requires DirOk(pl, p)
    ensures p in PlanDir(pl, p).counts && PlanDir(pl, p).counts.Keys == pl.counts.Keys + {p}
    ensures PlanDir(pl, p).contents == pl.contents
  {
  }

  /** After a directory's files the plan still has room for its subdirectories. */
  lemma {:induction false} RoomForSubs(t: Tree, p: Path, pl: Plan, pl1: Plan)
    requires ValidTree(t) && Open(pl, TreeFiles(t, p), TreeDirs(t, p))
    requires pl1.contents == pl.contents + FilesAt(t.files, p) && pl1.counts.Keys == pl.counts.Keys + {p}
    ensures Open(pl1, SubsFiles(t.subs, p), SubsDirs(t.subs, p))
  {
    forall q | q in SubsFiles(t.subs, p) ensures q !in pl1.counts && q !in pl1.contents {
      var i := SubsBelow(t.subs, p, q);
      assert q in TreeFiles(t, p);
      if q in FilesAt(t.files, p) { var j := FilesBelow(t.files, p, q); }
    }
    forall q | q in SubsDirs(t.subs, p) ensures q !in pl1.contents {
      var i := SubsBelow(t.subs, p, q);
      assert q in TreeDirs(t, p);
      if q in FilesAt(t.files, p) {
        var j := FilesBelow(t.files, p, q);
        NamesApart(t.files, t.subs, j, i);
        SiblingsApart(p, t.subs[i].name, t.files[j].name, q);
      }
    }
  }

  lemma {:induction false} NamesApart(files: seq<File>, subs: seq<Sub>, j: nat, i: nat)
    requires ValidFiles(files, subs) && j < |files| && i < |subs|
    ensures files[j].name != subs[i].name
    decreases j
  {
    if j > 0 { NamesApart(files[1..], subs, j - 1, i); }
  }

  /** A walk into a plan with room for it is well formed and adds exactly the tree. */
  lemma {:induction false} TreeMerge(t: Tree, p: Path, pl: Plan)
    requires ValidTree(t) && DirOk(pl, p) && Open(pl, TreeFiles(t, p), TreeDirs(t, p))
    ensures SourceOk(pl, Walk(t, p))
    ensures PlanAll(pl, Walk(t, p)).contents == pl.contents + TreeFiles(t, p)
    ensures PlanAll(pl, Walk(t, p)).counts.Keys == pl.counts.Keys + TreeDirs(t, p)
    decreases t, 0
  {
    var pl1 := VisitMerge(t, p, pl);
    RoomForSubs(t, p, pl, pl1);
    SubsMerge(t.subs, p, pl1);
    PlanAllConcat(pl, [Visit(p, SubNames(t.subs), t.files)], WalkSubs(t.subs, p));
    MapAssoc(pl.contents, FilesAt(t.files, p), SubsFiles(t.subs, p));
    SetAssoc(pl.counts.Keys, {p}, SubsDirs(t.subs, p));
  }

  lemma SetAssoc<K>(a: set<K>, b: set<K>, c: set<K>)
    ensures (a + b) + c == a + (b + c)
  {
  }

  lemma {:induction false} SubsMerge(subs: seq<Sub>, p: Path, pl: Plan)
    requires ValidSubs(subs) && p in pl.counts && Open(pl, SubsFiles(subs, p), SubsDirs(subs, p))
    ensures SourceOk(pl, WalkSubs(subs, p))
    ensures PlanAll(pl, WalkSubs(subs, p)).contents == pl.contents + SubsFiles(subs, p)
    ensures PlanAll(pl, WalkSubs(subs, p)).counts.Keys == pl.counts.Keys + SubsDirs(subs, p)
    decreases subs
  {
    if subs != [] {
      var q, t := p + [subs[0].name], subs[0].tree;
      ChildOk(subs, p, pl);
      TreeMerge(t, q, pl);
      var pl2 := PlanAll(pl, Walk(t, q));
      RoomForRest(subs, p, pl, pl2);
      SubsMerge(subs[1..], p, pl2);
      PlanAllConcat(pl, Walk(t, q), WalkSubs(subs[1..], p));
      MapAssoc(pl.contents, TreeFiles(t, q), SubsFiles(subs[1..], p));
      SetAssoc(pl.counts.Keys, TreeDirs(t, q), SubsDirs(subs[1..], p));
    }
  }

  lemma {:induction false} ChildOk(subs: seq<Sub>, p: Path, pl: Plan)
    requires subs != [] && ValidSubs(subs) && p in pl.counts && Open(pl, SubsFiles(subs, p), SubsDirs(subs, p))
    ensures var q, t := p + [subs[0].name], subs[0].tree;
      DirOk(pl, q) && Open(pl, TreeFiles(t, q), TreeDirs(t, q))
  {
    var q, t := p + [subs[0].name], subs[0].tree;
    PathOf(p, subs[0].name);
    RootListed(t, q);
    assert q in SubsDirs(subs, p);
    forall x | x in TreeFiles(t, q) ensures x in SubsFiles(subs, p) {}
  }

  /** A subtree takes no path of its later siblings. */
  lemma {:induction false} RoomForRest(subs: seq<Sub>, p: Path, pl: Plan, pl2: Plan)
    requires subs != [] && ValidSubs(subs) && Open(pl, SubsFiles(subs, p), SubsDirs(subs, p))
    requires var q, t := p + [subs[0].name], subs[0].tree;
      pl2.contents == pl.contents + TreeFiles(t, q) && pl2.counts.Keys == pl.counts.Keys + TreeDirs(t, q)
    ensures Open(pl2, SubsFiles(subs[1..], p), SubsDirs(subs[1..], p))
  {
    forall x | x in SubsFiles(subs[1..], p) || x in SubsDirs(subs[1..], p)
      ensures x !in TreeFiles(subs[0].tree, p + [subs[0].name])
      ensures x !in TreeDirs(subs[0].tree, p + [subs[0].name])
    {
      NotInFirst(subs, p, x);
    }
  }

  lemma {:induction false} NotInFirst(subs: seq<Sub>, p: Path, x: Path)
    requires subs != [] && ValidSubs(subs) && (x in SubsFiles(subs[1..], p) || x in SubsDirs(subs[1..], p))
    ensures x !in TreeFiles(subs[0].tree, p + [subs[0].name])
    ensures x !in TreeDirs(subs[0].tree, p + [subs[0].name])
  {
    var q, t := p + [subs[0].name], subs[0].tree;
    var i := SubsBelow(subs[1..], p, x);
    if x in TreeFiles(t, q) || x in TreeDirs(t, q) {
      TreeBelow(t, q, x);
      SiblingsApart(p, subs[0].name, subs[i + 1].name, x);
    }
  }

  // ----- several trees -----

  /** All the walks together are one well-formed source that stores exactly all the trees. */
  lemma {:induction false} MountsStored(ms: seq<Mount>, pl: Plan)
    requires MountsOk(ms, pl.counts.Keys, pl.contents.Keys)
    ensures SourceOk(pl, MountWalk(ms))
    ensures PlanAll(pl, MountWalk(ms)).contents == pl.contents + MountFiles(ms)
    ensures PlanAll(pl, MountWalk(ms)).counts.Keys == pl.counts.Keys + MountDirs(ms)
    decreases |ms|
  {
    if ms != [] {
      var p, t := ms[0].at, ms[0].tree;
      RootListed(t, p);
      TreeMerge(t, p, pl);
      var pl1 := PlanAll(pl, Walk(t, p));
      MountsStored(ms[1..], pl1);
      PlanAllConcat(pl, Walk(t, p), MountWalk(ms[1..]));
      MapAssoc(pl.contents, TreeFiles(t, p), MountFiles(ms[1..]));
      SetAssoc(pl.counts.Keys, TreeDirs(t, p), MountDirs(ms[1..]));
    }
  }

  lemma {:induction false} MountsLand(ms: seq<Mount>, dirs: set<Path>, files: set<Path>)
    requires MountsOk(ms, dirs, files)
    ensures LandsAsSaid(MountWalk(ms))
    decreases |ms|
  {
    if ms != [] {
      var p, t := ms[0].at, ms[0].tree;
      WalkLands(t, p);
      MountsLand(ms[1..], dirs + TreeDirs(t, p), files + TreeFiles(t, p).Keys);
    }
  }

  /** The copier's `main`: every tree in turn onto a fresh volume, one flush at the end; then any
      path is read at any offset through GRUB. */
  method CopyMountsThenGrubRead(image: Disk, ms: seq<Mount>, path: seq<byte>, offset: nat, len: nat)
    returns (ok: bool, r: Result<seq<byte>>)
    requires Formatted(image, |image|) && MountsOk(ms, {[]}, {}) && 0 !in path
    ensures ok <==> 1 + PlanAll(FRESH, MountWalk(ms)).used <= |image| - RootBlock(|image|)
    ensures ok ==> (r.Ok? <==> Components(path, 0) in MountFiles(ms))
    ensures ok && r.Ok? ==> Some(r.value) == ReadSpec(MountFiles(ms), Components(path, 0), offset, len)
    ensures ok ==> (r == Err(NotRegular) <==> Components(path, 0) in {[]} + MountDirs(ms))
  {
    FreshPaths();
    MountsStored(ms, FRESH);
    MountsLand(ms, {[]}, {});
    NothingReplaced(MountWalk(ms));
    SourceAccepted(FRESH, MountWalk(ms));
    assert map[] + MountFiles(ms) == MountFiles(ms);
    ok, r := CopyThenRead(image, MountWalk(ms), path, offset, len);
  }

  lemma FreshPaths()
    ensures FRESH.counts.Keys == {[]} && FRESH.contents.Keys == {} && FRESH.contents == map[]
  {
  }
}
