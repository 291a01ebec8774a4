/** `os.walk` over a host tree: the visits it yields form a well-formed source,
    and the copy's plan holds exactly the tree, at a cost in closed form. */
module EynfsWalk {
  import opened Bytes
  import opened EynfsSector
  import opened EynfsLayout
  import opened EynfsTree
  import opened EynfsSource

  // ----- trees -----

  function SubNames(subs: seq<Sub>): (r: seq<Name>)
    ensures |r| == |subs| && forall i :: 0 <= i < |subs| ==> r[i] == subs[i].name
  {
    seq(|subs|, i requires 0 <= i < |subs| => subs[i].name)
  }

  /** Top-down walk, directories in the order given. */
  function Walk(t: Tree, p: Path): seq<Visit>
    decreases t, 0
  {
    [Visit(p, SubNames(t.subs), t.files)] + WalkSubs(t.subs, p)
  }

  function WalkSubs(subs: seq<Sub>, p: Path): seq<Visit>
    decreases subs
  {
    if subs == [] then [] else Walk(subs[0].tree, p + [subs[0].name]) + WalkSubs(subs[1..], p)
  }

  ghost predicate FreshFile(f: File, others: seq<File>, subs: seq<Sub>) {
    && ValidName(f.name) && |f.data| < 0x1_0000_0000
    && (forall i :: 0 <= i < |others| ==> others[i].name != f.name)
    && (forall i :: 0 <= i < |subs| ==> subs[i].name != f.name)
  }

  ghost predicate ValidFiles(files: seq<File>, subs: seq<Sub>) {
    files == [] || (FreshFile(files[0], files[1..], subs) && ValidFiles(files[1..], subs))
  }

  /** Names are valid and pairwise distinct in every directory, directory names hold no backslash,
      and sizes fit 32 bits. */
  ghost predicate ValidTree(t: Tree)
    decreases t, 0
  {
    ValidFiles(t.files, t.subs) && ValidSubs(t.subs)
  }

  ghost predicate ValidSubs(subs: seq<Sub>)
    decreases subs
  {
    subs == [] || (
      && ValidName(subs[0].name) && BACKSLASH !in subs[0].name && ValidTree(subs[0].tree)
      && (forall i :: 1 <= i < |subs| ==> subs[i].name != subs[0].name)
      && ValidSubs(subs[1..]))
  }

  // ----- cost -----

  function FilesCost(files: seq<File>): nat {
    if files == [] then 0 else FileBlocks(files[0]) + FilesCost(files[1..])
  }

  /** Blocks of a whole tree: every file's data, and for every directory one
      block per nine entries, at least one. */
  function Total(t: Tree): (r: nat)
    ensures r >= 1
    decreases t, 0
  {
    DirBlocks(|t.files| + |t.subs|) + FilesCost(t.files) + SubsTotal(t.subs)
  }

  function SubsTotal(subs: seq<Sub>): nat
    decreases subs
  {
    if subs == [] then 0 else Total(subs[0].tree) + SubsTotal(subs[1..])
  }

  // ----- contents -----

  function FilesAt(files: seq<File>, p: Path): map<Path, seq<byte>> {
    if files == [] then map[] else map[p + [files[0].name] := files[0].data] + FilesAt(files[1..], p)
  }

  /** Every file of the tree, by full path. */
  function TreeFiles(t: Tree, p: Path): map<Path, seq<byte>>
    decreases t, 0
  {
    FilesAt(t.files, p) + SubsFiles(t.subs, p)
  }

  function SubsFiles(subs: seq<Sub>, p: Path): map<Path, seq<byte>>
    decreases subs
  {
    if subs == [] then map[] else TreeFiles(subs[0].tree, p + [subs[0].name]) + SubsFiles(subs[1..], p)
  }

  /** Every directory of the tree, by full path, itself included. */
  function TreeDirs(t: Tree, p: Path): set<Path>
    decreases t, 0
  {
    {p} + SubsDirs(t.subs, p)
  }

  function SubsDirs(subs: seq<Sub>, p: Path): set<Path>
    decreases subs
  {
    if subs == [] then {} else TreeDirs(subs[0].tree, p + [subs[0].name]) + SubsDirs(subs[1..], p)
  }

  // ----- plans over walks -----

  predicate Below(q: Path, p: Path) {
    |p| <= |q| && q[..|p|] == p
  }

  ghost predicate Known(pl: Plan, q: Path) {
    q in pl.counts || q in pl.contents
  }

  /** Nothing is stored at or under the child `n` of `p`. */
  ghost predicate Avail(pl: Plan, p: Path, n: Name) {
    forall q :: Known(pl, q) ==> !Below(q, p + [n])
  }

  /** From `pl` to `pl'` only paths under `p` were added. */
  ghost predicate OnlyBelow(pl: Plan, pl': Plan, p: Path) {
    forall q :: Known(pl', q) ==> Known(pl, q) || Below(q, p)
  }

  lemma {:induction false} PlanAllConcat(pl: Plan, a: seq<Visit>, b: seq<Visit>)
    ensures PlanAll(pl, a + b) == PlanAll(PlanAll(pl, a), b)
    ensures SourceOk(pl, a) && SourceOk(PlanAll(pl, a), b) ==> SourceOk(pl, a + b)
    decreases |a|
  {
    if a == [] {
      assert a + b == b;
    } else {
      assert (a + b)[1..] == a[1..] + b && (a + b)[0] == a[0];
      PlanAllConcat(PlanVisit(pl, a[0]), a[1..], b);
    }
  }

  lemma SiblingsApart(p: Path, n: Name, m: Name, q: Path)
    requires n != m && Below(q, p + [n])
    ensures !Below(q, p + [m]) && Below(q, p) && q != p
  {
    assert q[..|p| + 1][|p|] == n;
    assert q[..|p|] == q[..|p| + 1][..|p|];
  }

  /** The growth of a directory that gets `k` more names. */
  function GrowthSum(m: nat, k: nat): nat
    decreases k
  {
    if k == 0 then 0 else Growth(m) + GrowthSum(m + 1, k - 1)
  }

  /** One block per nine names, counted name by name. */
  lemma {:induction false} GrowthTotal(m: nat, k: nat)
    ensures DirBlocks(m) + GrowthSum(m, k) == DirBlocks(m + k)
    decreases k
  {
    if k > 0 {
      GrowthTotal(m + 1, k - 1);
      assert DirBlocks(m) + Growth(m) == DirBlocks(m + 1);
    }
  }

  lemma {:induction false} GrowthSumSplit(m: nat, j: nat, k: nat)
    ensures GrowthSum(m, j + k) == GrowthSum(m, j) + GrowthSum(m + j, k)
    decreases j
  {
    if j > 0 {
      GrowthSumSplit(m + 1, j - 1, k);
    }
  }

  // What entering a directory's files adds to the plan.

  lemma {:induction false} FilesCounts(files: seq<File>, p: Path, pl: Plan)
    requires p in pl.counts
    ensures PlanFiles(pl, p, files).counts == pl.counts[p := pl.counts[p] + |files|]
    decreases |files|
  {
    if files != [] {
      FilesCounts(files[1..], p, PlanFile(pl, p, files[0]));
    }
  }

  lemma {:induction false} FilesUsed(files: seq<File>, p: Path, pl: Plan)
    requires p in pl.counts
    ensures PlanFiles(pl, p, files).used == pl.used + FilesCost(files) + GrowthSum(pl.counts[p], |files|)
    decreases |files|
  {
    if files != [] {
      var pl1 := PlanFile(pl, p, files[0]);
      FilesUsed(files[1..], p, pl1);
      assert pl1.counts[p] == pl.counts[p] + 1;
      assert GrowthSum(pl.counts[p], |files|) == Growth(pl.counts[p]) + GrowthSum(pl.counts[p] + 1, |files| - 1);
    }
  }

  lemma PutFirst<K, V>(m: map<K, V>, k: K, v: V, rest: map<K, V>)
    ensures m[k := v] + rest == m + (map[k := v] + rest)
  {
  }

  lemma {:induction false} FilesContents(files: seq<File>, p: Path, pl: Plan)
    ensures PlanFiles(pl, p, files).contents == pl.contents + FilesAt(files, p)
    decreases |files|
  {
    if files != [] {
      FilesContents(files[1..], p, PlanFile(pl, p, files[0]));
      PutFirst(pl.contents, p + [files[0].name], files[0].data, FilesAt(files[1..], p));
    }
  }

  lemma FileKeepsAvail(pl: Plan, p: Path, f: File, n: Name)
    requires p in pl.counts && Avail(pl, p, n) && n != f.name
    ensures Avail(PlanFile(pl, p, f), p, n)
  {
    var pl' := PlanFile(pl, p, f);
    var q := p + [f.name];
    assert Below(q, q);
    SiblingsApart(p, f.name, n, q);
    forall x | Known(pl', x) ensures !Below(x, p + [n]) {
      assert Known(pl, x) || x == q;
    }
  }

  ghost predicate AllAvail(pl: Plan, p: Path, files: seq<File>, subs: seq<Sub>) {
    && (forall i :: 0 <= i < |files| ==> Avail(pl, p, files[i].name))
    && (forall i :: 0 <= i < |subs| ==> Avail(pl, p, subs[i].name))
  }

  lemma {:induction false} FilesPlan(files: seq<File>, subs: seq<Sub>, p: Path, pl: Plan)
    requires ValidFiles(files, subs) && p in pl.counts && AllAvail(pl, p, files, subs)
    ensures FilesOk(pl, p, files)
    ensures OnlyBelow(pl, PlanFiles(pl, p, files), p) && AllAvail(PlanFiles(pl, p, files), p, [], subs)
    decreases |files|
  {
    if files != [] {
      var f := files[0];
      var pl1 := PlanFile(pl, p, f);
      assert Below(p + [f.name], p + [f.name]) && Below(p + [f.name], p);
      forall i | 0 <= i < |subs| ensures Avail(pl1, p, subs[i].name) {
        FileKeepsAvail(pl, p, f, subs[i].name);
      }
      forall i | 0 <= i < |files| - 1 ensures Avail(pl1, p, files[1..][i].name) {
        assert files[1..][i] == files[i + 1];
        FileKeepsAvail(pl, p, f, files[1..][i].name);
      }
      FilesPlan(files[1..], subs, p, pl1);
    }
  }

  /** Adding paths under one child leaves its siblings available. */
  lemma SubKeepsAvail(pl: Plan, pl': Plan, p: Path, n: Name, m: Name)
    requires OnlyBelow(pl, pl', p + [n]) && Avail(pl, p, m) && n != m
    ensures Avail(pl', p, m)
  {
    forall q | Known(pl', q) ensures !Below(q, p + [m]) {
      if !Known(pl, q) { SiblingsApart(p, n, m, q); }
    }
  }

  lemma BelowSub(p: Path, n: Name, q: Path)
    requires Below(q, p + [n])
    ensures Below(q, p)
  {
    assert q[..|p|] == q[..|p| + 1][..|p|];
  }

  /** Counts outside the subtree at `p` stay as they are. */
  ghost predicate CountsKept(pl: Plan, pl': Plan, p: Path) {
    forall q :: q in pl.counts && !Below(q, p) ==> q in pl'.counts && pl'.counts[q] == pl.counts[q]
  }

  ghost predicate TreeReady(t: Tree, p: Path, pl: Plan) {
    ValidTree(t) && p in pl.counts && pl.counts[p] == 0 && AllAvail(pl, p, t.files, t.subs)
  }

  ghost predicate SubsReady(subs: seq<Sub>, p: Path, pl: Plan) {
    ValidSubs(subs) && p in pl.counts && AllAvail(pl, p, [], subs)
  }

  /** Making a directory twice is making it once. */
  lemma EnterOnce(pl: Plan, t: Tree, q: Path)
    requires DirOk(pl, q)
    ensures PlanAll(pl, Walk(t, q)) == PlanAll(PlanDir(pl, q), Walk(t, q))
    ensures SourceOk(PlanDir(pl, q), Walk(t, q)) ==> SourceOk(pl, Walk(t, q))
  {
    var v := Walk(t, q)[0];
    assert PlanDir(PlanDir(pl, q), q) == PlanDir(pl, q);
    assert PlanVisit(pl, v) == PlanVisit(PlanDir(pl, q), v);
  }

  /** Entering a new subdirectory leaves it empty and itself ready for its tree. */
  lemma SubEntered(subs: seq<Sub>, p: Path, pl: Plan)
    requires SubsReady(subs, p, pl) && subs != []
    ensures var q := p + [subs[0].name]; var pl1 := PlanDir(pl, q);
      && DirOk(pl, q) && q !in pl.counts
      && TreeReady(subs[0].tree, q, pl1)
      && p in pl1.counts && pl1.counts[p] == pl.counts[p] + 1
      && OnlyBelow(pl, pl1, q)
  {
    var n, t := subs[0].name, subs[0].tree;
    var q := p + [n];
    PathOf(p, n);
    var pl1 := PlanDir(pl, q);
    assert Avail(pl, p, n) && Below(q, q);
    forall m ensures Avail(pl1, q, m) {
      forall x | Known(pl1, x) ensures !Below(x, q + [m]) {
        if Below(x, q + [m]) {
          BelowSub(q, m, x);
        }
      }
    }
  }

  /** With the first subtree done the remaining siblings are still ready. */
  lemma SubDone(subs: seq<Sub>, p: Path, pl: Plan, pl1: Plan, pl2: Plan)
    requires SubsReady(subs, p, pl) && subs != []
    requires var q := p + [subs[0].name]; OnlyBelow(pl, pl1, q) && OnlyBelow(pl1, pl2, q) && CountsKept(pl1, pl2, q)
    requires p in pl1.counts && pl1.counts[p] == pl.counts[p] + 1
    ensures SubsReady(subs[1..], p, pl2) && pl2.counts[p] == pl.counts[p] + 1
  {
    var n := subs[0].name;
    forall i | 0 <= i < |subs| - 1 ensures Avail(pl2, p, subs[1..][i].name) {
      assert subs[1..][i] == subs[i + 1];
      SubKeepsAvail(pl, pl1, p, n, subs[i + 1].name);
      SubKeepsAvail(pl1, pl2, p, n, subs[i + 1].name);
    }
    assert !Below(p, p + [n]);
  }

  // Well-formedness of the walk.

  /** The first visit of a walk enters the directory's files; the rest is its subdirectories. */
  lemma TreeStep(t: Tree, p: Path, pl: Plan) returns (pl1: Plan)
    requires TreeReady(t, p, pl)
    ensures pl1 == PlanFiles(pl, p, t.files)
    ensures SubsReady(t.subs, p, pl1) && pl1.counts == pl.counts[p := |t.files|]
    ensures PlanAll(pl, Walk(t, p)) == PlanAll(pl1, WalkSubs(t.subs, p))
    ensures SourceOk(pl1, WalkSubs(t.subs, p)) ==> SourceOk(pl, Walk(t, p))
    ensures OnlyBelow(pl, pl1, p)
  {
    var v := Visit(p, SubNames(t.subs), t.files);
    pl1 := PlanFiles(pl, p, t.files);
    FilesCounts(t.files, p, pl);
    FilesPlan(t.files, t.subs, p, pl);
    PlanAllConcat(pl, [v], WalkSubs(t.subs, p));
    assert PlanAll(pl, [v]) == pl1 && SourceOk(pl, [v]);
  }

  lemma {:induction false} TreeOk(t: Tree, p: Path, pl: Plan)
    requires TreeReady(t, p, pl)
    ensures SourceOk(pl, Walk(t, p))
    ensures OnlyBelow(pl, PlanAll(pl, Walk(t, p)), p) && CountsKept(pl, PlanAll(pl, Walk(t, p)), p)
    decreases t, 0
  {
    var pl1 := TreeStep(t, p, pl);
    SubsOk(t.subs, p, pl1);
    assert Below(p, p);
  }

  lemma {:induction false} SubsOk(subs: seq<Sub>, p: Path, pl: Plan)
    requires SubsReady(subs, p, pl)
    ensures SourceOk(pl, WalkSubs(subs, p))
    ensures OnlyBelow(pl, PlanAll(pl, WalkSubs(subs, p)), p) && CountsKept(pl, PlanAll(pl, WalkSubs(subs, p)), p)
    decreases subs
  {
    if subs != [] {
      var q := p + [subs[0].name];
      var pl2 := SubStep(subs, p, pl);
      SubsOk(subs[1..], p, pl2);
      PlanAllConcat(pl, Walk(subs[0].tree, q), WalkSubs(subs[1..], p));
    }
  }

  /** One subdirectory of the walk, as the induction over siblings needs it. */
  lemma {:induction false} SubStep(subs: seq<Sub>, p: Path, pl: Plan) returns (pl2: Plan)
    requires SubsReady(subs, p, pl) && subs != []
    ensures var q, t := p + [subs[0].name], subs[0].tree;
      && DirOk(pl, q) && q !in pl.counts && TreeReady(t, q, PlanDir(pl, q))
      && pl2 == PlanAll(pl, Walk(t, q)) == PlanAll(PlanDir(pl, q), Walk(t, q))
      && SourceOk(pl, Walk(t, q))
      && SubsReady(subs[1..], p, pl2) && pl2.counts[p] == pl.counts[p] + 1
      && OnlyBelow(pl, pl2, p) && CountsKept(pl, pl2, p)
    decreases subs, 0
  {
    var q, t := p + [subs[0].name], subs[0].tree;
    SubEntered(subs, p, pl);
    var pl1 := PlanDir(pl, q);
    TreeOk(t, q, pl1);
    EnterOnce(pl, t, q);
    pl2 := PlanAll(pl1, Walk(t, q));
    SubDone(subs, p, pl, pl1, pl2);
    forall x | Known(pl2, x) ensures Known(pl, x) || Below(x, p) {
      if Below(x, q) { BelowSub(p, subs[0].name, x); }
    }
    forall x | x in pl.counts && !Below(x, p) ensures x in pl2.counts && pl2.counts[x] == pl.counts[x] {
      if Below(x, q) { BelowSub(p, subs[0].name, x); }
      assert x in pl1.counts && pl1.counts[x] == pl.counts[x];
    }
  }

  // What the whole walk costs and stores.

  lemma {:induction false} TreeUsed(t: Tree, p: Path, pl: Plan)
    requires TreeReady(t, p, pl)
    ensures PlanAll(pl, Walk(t, p)).used == pl.used + Total(t) - 1
    decreases t, 0
  {
    var pl1 := TreeStep(t, p, pl);
    FilesUsed(t.files, p, pl);
    SubsUsed(t.subs, p, pl1);
    DirCost(|t.files|, |t.subs|);
  }

  /** Names entered one by one, files then subdirectories, cost what the directory ends up with. */
  lemma {:induction false} DirCost(files: nat, subs: nat)
    ensures GrowthSum(0, files) + GrowthSum(files, subs) == DirBlocks(files + subs) - 1
  {
    GrowthTotal(0, files + subs);
    GrowthSumSplit(0, files, subs);
  }

  lemma {:induction false} SubsUsed(subs: seq<Sub>, p: Path, pl: Plan)
    requires SubsReady(subs, p, pl)
    ensures PlanAll(pl, WalkSubs(subs, p)).used == pl.used + SubsTotal(subs) + GrowthSum(pl.counts[p], |subs|)
    decreases subs
  {
    if subs != [] {
      var q := p + [subs[0].name];
      var pl2 := SubStep(subs, p, pl);
      PathOf(p, subs[0].name);
      TreeUsed(subs[0].tree, q, PlanDir(pl, q));
      SubsUsed(subs[1..], p, pl2);
      PlanAllConcat(pl, Walk(subs[0].tree, q), WalkSubs(subs[1..], p));
    }
  }

  lemma {:induction false} TreeStored(t: Tree, p: Path, pl: Plan)
    requires TreeReady(t, p, pl)
    ensures PlanAll(pl, Walk(t, p)).contents == pl.contents + TreeFiles(t, p)
    ensures PlanAll(pl, Walk(t, p)).counts.Keys == pl.counts.Keys + TreeDirs(t, p)
    decreases t, 0
  {
    var pl1 := TreeStep(t, p, pl);
    FilesContents(t.files, p, pl);
    SubsStored(t.subs, p, pl1);
    MapAssoc(pl.contents, FilesAt(t.files, p), SubsFiles(t.subs, p));
    assert pl1.counts.Keys == pl.counts.Keys + {p};
  }

  lemma MapAssoc<K, V>(a: map<K, V>, b: map<K, V>, c: map<K, V>)
    ensures (a + b) + c == a + (b + c)
  {
  }

  lemma {:induction false} SubsStored(subs: seq<Sub>, p: Path, pl: Plan)
    requires SubsReady(subs, p, pl)
    ensures PlanAll(pl, WalkSubs(subs, p)).contents == pl.contents + SubsFiles(subs, p)
    ensures PlanAll(pl, WalkSubs(subs, p)).counts.Keys == pl.counts.Keys + SubsDirs(subs, p)
    decreases subs
  {
    if subs != [] {
      var q, t := p + [subs[0].name], subs[0].tree;
      var pl2 := SubStep(subs, p, pl);
      SubStored(subs, p, pl, pl2);
      SubsStored(subs[1..], p, pl2);
      PlanAllConcat(pl, Walk(t, q), WalkSubs(subs[1..], p));
      MapAssoc(pl.contents, TreeFiles(t, q), SubsFiles(subs[1..], p));
    }
  }

  lemma {:induction false} SubStored(subs: seq<Sub>, p: Path, pl: Plan, pl2: Plan)
    requires SubsReady(subs, p, pl) && subs != []
    requires var q, t := p + [subs[0].name], subs[0].tree;
      q !in pl.counts && TreeReady(t, q, PlanDir(pl, q)) && pl2 == PlanAll(PlanDir(pl, q), Walk(t, q))
    ensures var q, t := p + [subs[0].name], subs[0].tree;
      pl2.contents == pl.contents + TreeFiles(t, q) && pl2.counts.Keys == pl.counts.Keys + TreeDirs(t, q)
    decreases subs, 0
  {
    var q, t := p + [subs[0].name], subs[0].tree;
    PathOf(p, subs[0].name);
    TreeStored(t, q, PlanDir(pl, q));
    RootListed(t, q);
    assert PlanDir(pl, q).counts.Keys == pl.counts.Keys + {q};
  }

  lemma RootListed(t: Tree, q: Path)
    ensures q in TreeDirs(t, q)
  {
  }

  /** A valid host tree, walked from the top, is a well-formed source; copying it stores
      exactly its files and directories and uses exactly `Total(t)` blocks. */
  lemma WalkFromRoot(t: Tree)
    requires ValidTree(t)
    ensures SourceOk(FRESH, Walk(t, []))
    ensures var pl := PlanAll(FRESH, Walk(t, []));
      && 1 + pl.used == Total(t)
      && pl.contents == TreeFiles(t, []) && pl.counts.Keys == TreeDirs(t, [])
  {
    assert AllAvail(FRESH, [], t.files, t.subs);
    TreeOk(t, [], FRESH);
    TreeUsed(t, [], FRESH);
    TreeStored(t, [], FRESH);
    assert [] in TreeDirs(t, []);
  }

  // ----- what the copier makes of the paths of a walk -----

  /** Every path of the walk lands where it says. */
  ghost predicate LandsAsSaid(vs: seq<Visit>) {
    forall i :: 0 <= i < |vs| ==> Landed(vs[i].path) == vs[i].path
  }

  lemma {:induction false} LandedChild(p: Path, n: Name)
    ensures Landed(p + [n]) == Landed(p) + SplitName(n)
    decreases |p|
  {
    if p == [] {
      assert [n][1..] == [] && SplitName(n) + [] == SplitName(n) && [] + SplitName(n) == SplitName(n);
    } else {
      LandedChild(p[1..], n);
      assert (p + [n])[1..] == p[1..] + [n];
      assert SplitName(p[0]) + (Landed(p[1..]) + SplitName(n)) == (SplitName(p[0]) + Landed(p[1..])) + SplitName(n);
    }
  }

  lemma {:induction false} WalkLands(t: Tree, p: Path)
    requires ValidTree(t) && Landed(p) == p
    ensures LandsAsSaid(Walk(t, p))
    decreases t, 0
  {
    SubsLand(t.subs, p);
  }

  lemma {:induction false} SubsLand(subs: seq<Sub>, p: Path)
    requires ValidSubs(subs) && Landed(p) == p
    ensures LandsAsSaid(WalkSubs(subs, p))
    decreases subs
  {
    if subs != [] {
      LandedChild(p, subs[0].name);
      WalkLands(subs[0].tree, p + [subs[0].name]);
      SubsLand(subs[1..], p);
    }
  }

  lemma {:induction false} NothingReplaced(vs: seq<Visit>)
    requires LandsAsSaid(vs)
    ensures Replaced(vs) == vs
  {
  }

  /** On the walk of a valid tree the copier raises on nothing and replaces nothing. */
  lemma {:induction false} WalkAccepted(t: Tree)
    requires ValidTree(t)
    ensures Replaced(Walk(t, [])) == Walk(t, [])
    ensures VisitsNew(FRESH, Walk(t, [])) && VisitsAccepted(FRESH, Walk(t, []))
  {
    WalkFromRoot(t);
    SourceAccepted(FRESH, Walk(t, []));
    WalkLands(t, []);
    NothingReplaced(Walk(t, []));
  }
}
