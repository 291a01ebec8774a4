/** Which host trees the copier stores: the ones whose names are UTF-8 of at most 31 bytes and whose
    directory names hold no backslash. */
module EynfsNames {
  import opened Bytes
  import opened EynfsSector
  import opened EynfsLayout
  import opened EynfsTree
  import opened EynfsSource
  import opened EynfsWalk
  import opened EynfsFormat
  import opened EynfsBuilder
  import opened EynfsMounts

  // ----- what a host directory may hold -----

  /** Any name, as long as it is not empty and holds neither NUL nor '/'. */
  predicate AnyName(n: Name) {
    n != [] && 0 !in n && '/' as int !in n
  }

  ghost predicate HostFiles(files: seq<File>, subs: seq<Sub>)
    decreases |files|
  {
    files == [] || (
      && AnyName(files[0].name)
      && (forall i :: 0 <= i < |files| - 1 ==> files[1..][i].name != files[0].name)
      && (forall i :: 0 <= i < |subs| ==> subs[i].name != files[0].name)
      && HostFiles(files[1..], subs))
  }

  /** Any names and sizes a host file system allows, names distinct within a directory. */
  ghost predicate HostTree(t: Tree)
    decreases t, 0
  {
    HostFiles(t.files, t.subs) && HostSubs(t.subs)
  }

  ghost predicate HostSubs(subs: seq<Sub>)
    decreases subs
  {
    subs == [] || (
      && AnyName(subs[0].name) && HostTree(subs[0].tree)
      && (forall i :: 1 <= i < |subs| ==> subs[i].name != subs[0].name)
      && HostSubs(subs[1..]))
  }

  predicate Clean(n: Name) {
    Utf8(n) && BACKSLASH !in n
  }

  predicate Short(n: Name) {
    |n| <= 31
  }

  predicate FilesPortable(files: seq<File>)
    decreases |files|
  {
    files == [] || (Accepted(files[0]) && Short(files[0].name) && FilesPortable(files[1..]))
  }

  /** Something to check before copying: names and their lengths, backslashes in directory names, sizes. */
  predicate Portable(t: Tree)
    decreases t, 0
  {
    FilesPortable(t.files) && PortableSubs(t.subs)
  }

  predicate PortableSubs(subs: seq<Sub>)
    decreases subs
  {
    subs == [] || (
      && Clean(subs[0].name) && Short(subs[0].name)
      && Portable(subs[0].tree) && PortableSubs(subs[1..]))
  }

  lemma {:induction false} ValidFilesIff(files: seq<File>, subs: seq<Sub>)
    ensures ValidFiles(files, subs) <==> HostFiles(files, subs) && FilesPortable(files)
    decreases |files|
  {
    if files != [] { ValidFilesIff(files[1..], subs); }
  }

  lemma {:induction false} ValidIff(t: Tree)
    ensures ValidTree(t) <==> HostTree(t) && Portable(t)
    decreases t, 0
  {
    ValidFilesIff(t.files, t.subs);
    ValidSubsIff(t.subs);
  }

  lemma {:induction false} ValidSubsIff(subs: seq<Sub>)
    ensures ValidSubs(subs) <==> HostSubs(subs) && PortableSubs(subs)
    decreases subs
  {
    if subs != [] {
      ValidIff(subs[0].tree);
      ValidSubsIff(subs[1..]);
    }
  }

  // ----- what an accepted copy tells about the names -----

  ghost predicate AllFilesAccepted(vs: seq<Visit>) {
    forall i :: 0 <= i < |vs| ==> FilesAccepted(vs[i].files)
  }

  ghost predicate CleanKeys(dirs: set<Path>) {
    forall q :: q in dirs && q != [] ==> Clean(Base(q))
  }

  /** The copier's path table holds only names it encoded, and no backslash. */
  lemma {:induction false} AcceptedClean(pl: Plan, us: seq<Visit>)
    requires VisitsAccepted(pl, us) && CleanKeys(pl.counts.Keys)
    requires forall i, k :: 0 <= i < |us| && 0 <= k < |us[i].path| ==> BACKSLASH !in us[i].path[k]
    ensures AllFilesAccepted(us) && CleanKeys(PlanAll(pl, us).counts.Keys)
    decreases |us|
  {
    if us != [] {
      var p, files := us[0].path, us[0].files;
      var pl1 := PlanDir(pl, p);
      if p !in pl.counts {
        assert Base(p) == p[|p| - 1];
      }
      assert p in pl1.counts && CleanKeys(pl1.counts.Keys);
      FilesCounts(files, p, pl1);
      AcceptedClean(PlanVisit(pl, us[0]), us[1..]);
      forall i | 0 <= i < |us| ensures FilesAccepted(us[i].files) {
        if i > 0 { assert us[i] == us[1..][i - 1]; }
      }
    }
  }

  /** The last names of these paths are short. */
  ghost predicate ShortBases(paths: set<Path>, p: Path) {
    forall q :: q in paths && q != p && q != [] ==> Short(Base(q))
  }

  lemma {:induction false} FilesShort(files: seq<File>, p: Path)
    requires FilesAccepted(files) && ShortBases(FilesAt(files, p).Keys, p)
    ensures FilesPortable(files)
    decreases |files|
  {
    if files != [] {
      PathOf(p, files[0].name);
      assert p + [files[0].name] in FilesAt(files, p) && p + [files[0].name] != p;
      FilesShort(files[1..], p);
    }
  }

  lemma {:induction false} PortableWalk(t: Tree, p: Path)
    requires AllFilesAccepted(Walk(t, p))
    requires ShortBases(TreeFiles(t, p).Keys, p) && ShortBases(TreeDirs(t, p), p)
    requires forall q :: q in TreeDirs(t, p) && q != p ==> q != [] && Clean(Base(q))
    ensures Portable(t)
    decreases t, 0
  {
    var vs := Walk(t, p);
    assert vs[0].files == t.files;
    forall i | 0 <= i < |WalkSubs(t.subs, p)| ensures FilesAccepted(WalkSubs(t.subs, p)[i].files) {
      assert vs[i + 1] == WalkSubs(t.subs, p)[i];
    }
    FilesShort(t.files, p);
    forall q | q in SubsDirs(t.subs, p) ensures q != [] && q != p && Clean(Base(q)) && Short(Base(q)) {
      var i := SubsBelow(t.subs, p, q);
    }
    forall q | q in SubsFiles(t.subs, p) ensures q != [] && q != p && Short(Base(q)) {
      var i := SubsBelow(t.subs, p, q);
      assert q in TreeFiles(t, p);
    }
    PortableSubsWalk(t.subs, p);
  }

  lemma {:induction false} PortableSubsWalk(subs: seq<Sub>, p: Path)
    requires AllFilesAccepted(WalkSubs(subs, p))
    requires forall q :: q in SubsDirs(subs, p) ==> q != [] && Clean(Base(q)) && Short(Base(q))
    requires forall q :: q in SubsFiles(subs, p) ==> q != [] && Short(Base(q))
    ensures PortableSubs(subs)
    decreases subs
  {
    if subs != [] {
      var q, t := p + [subs[0].name], subs[0].tree;
      var a, b := Walk(t, q), WalkSubs(subs[1..], p);
      assert WalkSubs(subs, p) == a + b;
      AcceptedParts(a, b);
      PathOf(p, subs[0].name);
      RootListed(t, q);
      forall x | x in TreeFiles(t, q) || x in SubsFiles(subs[1..], p) ensures x in SubsFiles(subs, p) {}
      PortableWalk(t, q);
      PortableSubsWalk(subs[1..], p);
    }
  }

  lemma {:induction false} AcceptedParts(a: seq<Visit>, b: seq<Visit>)
    requires AllFilesAccepted(a + b)
    ensures AllFilesAccepted(a) && AllFilesAccepted(b)
  {
    forall i | 0 <= i < |a| ensures FilesAccepted(a[i].files) { assert (a + b)[i] == a[i]; }
    forall i | 0 <= i < |b| ensures FilesAccepted(b[i].files) { assert (a + b)[|a| + i] == b[i]; }
  }

  // ----- the condition is exact -----

  /** The last names of these paths come back from their fields. */
  ghost predicate NamesReadBack(paths: set<Path>) {
    forall q :: q in paths && q != [] ==> CStr(NameField(Base(q))) == Base(q)
  }

  /** The walk goes through, its plan holds exactly the tree, and every name can be read back. */
  ghost predicate Stores(t: Tree) {
    var us := Replaced(Walk(t, []));
    var pl := PlanAll(FRESH, us);
    && VisitsAccepted(FRESH, us)
    && pl.contents == TreeFiles(t, []) && pl.counts.Keys == TreeDirs(t, [])
    && NamesReadBack(pl.contents.Keys) && NamesReadBack(pl.counts.Keys)
  }

  /** Of all trees a host may have, the copier stores exactly the portable ones. */
  lemma {:induction false} StoresIff(t: Tree)
    requires HostTree(t)
    ensures Stores(t) <==> Portable(t)
  {
    ValidIff(t);
    if Portable(t) {
      WalkFromRoot(t);
      WalkAccepted(t);
      ReadBack(t);
    }
    if Stores(t) { StoredIsPortable(t); }
  }

  lemma {:induction false} ReadBack(t: Tree)
    requires ValidTree(t)
    ensures NamesReadBack(TreeFiles(t, []).Keys) && NamesReadBack(TreeDirs(t, []))
  {
    forall q | (q in TreeFiles(t, []) || q in TreeDirs(t, [])) && q != [] ensures CStr(NameField(Base(q))) == Base(q) {
      TreeNames(t, [], q);
      FieldKeepsName(Base(q));
    }
  }

  /** Every path of a valid tree ends in a valid name. */
  lemma {:induction false} TreeNames(t: Tree, p: Path, x: Path)
    requires ValidTree(t) && x != p && (x in TreeFiles(t, p) || x in TreeDirs(t, p))
    ensures x != [] && HostName(Base(x))
    decreases t, 0
  {
    if x in FilesAt(t.files, p) {
      var i := FilesBelow(t.files, p, x);
      PathOf(p, t.files[i].name);
      FileNames(t.files, t.subs, i);
    } else {
      SubsNames(t.subs, p, x);
    }
  }

  lemma {:induction false} FileNames(files: seq<File>, subs: seq<Sub>, i: nat)
    requires ValidFiles(files, subs) && i < |files|
    ensures HostName(files[i].name)
    decreases i
  {
    if i > 0 { FileNames(files[1..], subs, i - 1); }
  }

  lemma {:induction false} SubsNames(subs: seq<Sub>, p: Path, x: Path)
    requires ValidSubs(subs) && (x in SubsFiles(subs, p) || x in SubsDirs(subs, p))
    ensures x != [] && HostName(Base(x))
    decreases subs
  {
    var q, t := p + [subs[0].name], subs[0].tree;
    if x in TreeFiles(t, q) || x in TreeDirs(t, q) {
      if x == q { PathOf(p, subs[0].name); } else { TreeNames(t, q, x); }
    } else {
      SubsNames(subs[1..], p, x);
    }
  }

  lemma {:induction false} StoredIsPortable(t: Tree)
    requires Stores(t)
    ensures Portable(t)
  {
    var vs := Walk(t, []);
    var us := Replaced(vs);
    FreshPaths();
    AcceptedClean(FRESH, us);
    forall i | 0 <= i < |vs| ensures FilesAccepted(vs[i].files) { assert us[i].files == vs[i].files; }
    forall q | (q in TreeFiles(t, []) || q in TreeDirs(t, [])) && q != [] ensures Short(Base(q)) {
      FieldKeepsName(Base(q));
    }
    PortableWalk(t, []);
  }

  /** The same of the image: on a volume with room, the copy succeeds and holds exactly the tree if
      and only if the tree is portable. */
  method CopyHostTree(image: Disk, t: Tree) returns (ok: bool, disk: Disk, ghost fs: Fs, ghost owner: map<nat, Owner>)
    requires Formatted(image, |image|) && HostTree(t) && VisitsNew(FRESH, Replaced(Walk(t, [])))
    requires 1 + PlanAll(FRESH, Replaced(Walk(t, []))).used <= |image| - RootBlock(|image|)
    ensures ok ==> Image(disk, RootBlock(|image|), fs, owner)
    ensures Portable(t) <==>
      ok && Contents(fs) == TreeFiles(t, []) && fs.dirs.Keys == TreeDirs(t, [])
  {
    StoresIff(t);
    ok, disk, fs, owner := CopyImage(image, Walk(t, []));
    SummaryKeys(fs);
    if ok { ImageNames(fs); }
  }

  /** What an image holds can be read back under its names. */
  lemma {:induction false} ImageNames(fs: Fs)
    requires Linked(fs, {})
    ensures NamesReadBack(fs.files.Keys) && NamesReadBack(fs.dirs.Keys)
  {
    forall q | (q in fs.files || q in fs.dirs) && q != [] ensures CStr(NameField(Base(q))) == Base(q) {
      assert HasEntry(fs, Parent(q), Base(q));
      var k :| 0 <= k < |fs.dirs[Parent(q)].entries| && fs.dirs[Parent(q)].entries[k].name == Base(q);
      assert EntryOk(fs, Parent(q), fs.dirs[Parent(q)].entries[k]);
      FieldKeepsName(Base(q));
    }
  }

  // ----- inputs on which it fails -----

  /** One file whose name is 32 bytes long: it is stored under the first 31. */
  lemma {:induction false} LongNameInput(t: Tree, n: Name)
    requires |n| == 32 && AnyName(n) && Utf8(n) && t == Tree([File(n, [])], [])
    ensures HostTree(t) && !Stores(t)
    ensures EncodeName(n).Some? && CStr(EncodeName(n).value) == n[..31]
  {
    assert t.files[1..] == [];
    StoresIff(t);
    assert !Short(t.files[0].name);
    CStrUnique(NameField(n), n[..31]);
  }

  /** One file whose name is the byte 0xFF. */
  lemma {:induction false} NotUtf8Input(t: Tree)
    requires t == Tree([File([0xFF], [])], [])
    ensures HostTree(t) && VisitsNew(FRESH, Replaced(Walk(t, [])))
    ensures !VisitsAccepted(FRESH, Replaced(Walk(t, [])))
  {
    var us := Replaced(Walk(t, []));
    assert us[0].path == [] && us[0].files == t.files;
    assert !Accepted(t.files[0]);
  }

  /** A directory `a\b` with a file in it: its parent, `a`, is unknown. */
  lemma {:induction false} BackslashInput(t: Tree, n: Name, f: File)
    requires n == [97, 92, 98] && f == File([102], [7]) && t == Tree([], [Sub(n, Tree([f], []))])
    ensures HostTree(t) && VisitsNew(FRESH, Replaced(Walk(t, [])))
    ensures !VisitsAccepted(FRESH, Replaced(Walk(t, [])))
  {
    var us := Replaced(Walk(t, []));
    HostOne(t.subs, n, f);
    WalkOfOne(t, n, f);
    SplitAt(n);
    LandedOne(n);
    assert us[0].path == [] && us[1].path == [[97], [98]];
    var rest := us[1..];
    assert PlanVisit(FRESH, us[0]) == FRESH && rest[0] == us[1];
    assert Parent(us[1].path) == [[97]];
  }

  /** With an `a` beside it the file goes to `a/b`, and is not where the host has it. */
  lemma {:induction false} BackslashMerged(t: Tree, n: Name, f: File)
    requires n == [97, 92, 98] && f == File([102], [7])
    requires t == Tree([], [Sub([97], Tree([], [])), Sub(n, Tree([f], []))])
    ensures HostTree(t) && VisitsNew(FRESH, Replaced(Walk(t, [])))
    ensures VisitsAccepted(FRESH, Replaced(Walk(t, [])))
    ensures [n, [102]] in TreeFiles(t, [])
    ensures PlanAll(FRESH, Replaced(Walk(t, []))).contents == map[[[97], [98], [102]] := [7]]
  {
    var x, y: Name := [97], [98];
    HostMerged(t, x, n, f);
    FilesOfTwo(t, n, f);
    LandMerged(t, x, y, n, f);
    MergedPlan(Replaced(Walk(t, [])), x, y, f);
    assert [x, y] + [f.name] == [x, y, f.name];
  }

  lemma {:induction false} HostMerged(t: Tree, x: Name, n: Name, f: File)
    requires HostName(x) && HostName(n) && HostName(f.name) && x != n
    requires t == Tree([], [Sub(x, Tree([], [])), Sub(n, Tree([f], []))])
    ensures HostTree(t)
  {
    var rest := t.subs[1..];
    HostOne(rest, n, f);
    assert t.subs[1] == rest[0];
  }

  lemma {:induction false} LandMerged(t: Tree, x: Name, y: Name, n: Name, f: File)
    requires x == [97] && y == [98] && n == [97, 92, 98]
    requires t == Tree([], [Sub(x, Tree([], [])), Sub(n, Tree([f], []))])
    ensures var us := Replaced(Walk(t, []));
      && |us| == 3 && us[0].path == [] && us[1].path == [x] && us[2].path == [x, y]
      && us[0].files == [] && us[1].files == [] && us[2].files == [f]
  {
    WalkOfTwo(t, x, n, f);
    SplitAt(n);
    LandedOne(n);
    LandedOne(x);
  }

  /** Two nested directories and a file in the inner one, visited one after the other. */
  lemma {:induction false} MergedPlan(us: seq<Visit>, x: Name, y: Name, f: File)
    requires |us| == 3 && us[0].path == [] && us[1].path == [x] && us[2].path == [x, y]
    requires us[0].files == [] && us[1].files == [] && us[2].files == [f]
    requires ValidName(x) && ValidName(y) && HostName(f.name) && Accepted(f)
    ensures VisitsNew(FRESH, us) && VisitsAccepted(FRESH, us)
    ensures PlanAll(FRESH, us).contents == map[[x, y] + [f.name] := f.data]
  {
    var p, q := us[1].path, us[2].path;
    assert Parent(p) == [] && Base(p) == x && Parent(q) == p && Base(q) == y;
    var pl1 := PlanDir(FRESH, p);
    var pl2 := PlanDir(pl1, q);
    assert DirAccepted(FRESH, p) && DirAccepted(pl1, q);
    OneFile(pl2, q, f);
    assert q + [f.name] != p && q + [f.name] != q && q + [f.name] != [];
    var tail, last := us[1..], us[2..];
    assert tail[0] == us[1] && tail[1..] == last && last[0] == us[2];
    LastVisit(pl1, last, pl2, q, f);
  }

  lemma {:induction false} LastVisit(pl: Plan, last: seq<Visit>, pl1: Plan, q: Path, f: File)
    requires |last| == 1 && last[0].path == q && last[0].files == [f]
    requires DirAccepted(pl, q) && Whole(q) && pl1 == PlanDir(pl, q) && FileNew(pl1, q, f) && Accepted(f)
    ensures VisitsNew(pl, last) && VisitsAccepted(pl, last) && PlanAll(pl, last) == PlanFile(pl1, q, f)
  {
    OneFile(pl1, q, f);
    var pl2 := PlanFile(pl1, q, f);
    assert PlanVisit(pl, last[0]) == pl2;
    var none := last[1..];
    assert none == [] && PlanAll(pl2, none) == pl2 && VisitsNew(pl2, none) && VisitsAccepted(pl2, none);
  }

  lemma {:induction false} HostOne(subs: seq<Sub>, n: Name, f: File)
    requires AnyName(n) && AnyName(f.name) && subs == [Sub(n, Tree([f], []))]
    ensures HostSubs(subs)
  {
    var t := subs[0].tree;
    assert t.files[1..] == [] && HostFiles(t.files, t.subs) && HostSubs(t.subs);
    assert HostTree(t);
    assert subs[1..] == [] && HostSubs([]);
  }

  lemma {:induction false} OneFile(pl: Plan, p: Path, f: File)
    ensures PlanFiles(pl, p, [f]) == PlanFile(pl, p, f)
    ensures FileNew(pl, p, f) ==> FilesNew(pl, p, [f])
    ensures FilesAccepted([f]) <==> Accepted(f)
  {
    assert [f][1..] == [];
  }

  lemma {:induction false} FilesOfTwo(t: Tree, n: Name, f: File)
    requires t.subs == [Sub([97], Tree([], [])), Sub(n, Tree([f], []))]
    ensures [n, f.name] in TreeFiles(t, [])
  {
    assert t.subs[1..][0] == Sub(n, Tree([f], []));
    assert [] + [n] == [n] && [n] + [f.name] == [n, f.name];
    assert [n, f.name] in FilesAt([f], [n]);
    assert [n, f.name] in SubsFiles(t.subs[1..], []);
  }

  lemma {:induction false} WalkOfOne(t: Tree, n: Name, f: File)
    requires t == Tree([], [Sub(n, Tree([f], []))])
    ensures Walk(t, []) == [Visit([], [n], []), Visit([n], [], [f])]
  {
    assert t.subs[1..] == [] && [] + [n] == [n];
    assert WalkSubs(t.subs, []) == Walk(Tree([f], []), [n]) + WalkSubs([], []);
    assert SubNames(t.subs) == [n];
  }

  lemma {:induction false} WalkOfTwo(t: Tree, m: Name, n: Name, f: File)
    requires t == Tree([], [Sub(m, Tree([], [])), Sub(n, Tree([f], []))])
    ensures Walk(t, []) == [Visit([], [m, n], []), Visit([m], [], []), Visit([n], [], [f])]
  {
    WalkOfOne(Tree([], t.subs[1..]), n, f);
    assert Walk(Tree([], t.subs[1..]), [])[1..] == WalkSubs(t.subs[1..], []);
    assert [] + [m] == [m] && SubNames(t.subs) == [m, n];
    assert WalkSubs(t.subs, []) == Walk(Tree([], []), [m]) + WalkSubs(t.subs[1..], []);
  }

  lemma {:induction false} LandedOne(n: Name)
    ensures Landed([n]) == SplitName(n)
  {
    assert [n][1..] == [];
  }

  lemma {:induction false} SplitAt(n: Name)
    requires n == [97, 92, 98]
    ensures SplitName(n) == [[97], [98]]
  {
    var tail, last := n[1..], n[2..];
    assert last[0] == 98 && last[1..] == [] && [98] + [] == [98] && SplitName(last) == [[98]];
    assert tail[0] == 92 && tail[1..] == last && SplitName(tail) == [[], [98]];
    assert [97] + [] == [97];
  }
}
