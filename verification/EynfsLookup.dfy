/** A host tree looked up name by name, against the map of all its files. */
module EynfsLookup {
  import opened Bytes
  import opened EynfsSector
  import opened EynfsLayout
  import opened EynfsSource
  import opened EynfsWalk
  import opened EynfsMounts
  import opened EynfsCapacity

  function FileNamed(files: seq<File>, n: Name): Option<seq<byte>> {
    if files == [] then None else if files[0].name == n then Some(files[0].data) else FileNamed(files[1..], n)
  }

  function SubNamed(subs: seq<Sub>, n: Name): Option<Tree> {
    if subs == [] then None else if subs[0].name == n then Some(subs[0].tree) else SubNamed(subs[1..], n)
  }

  /** The file at a path: by name in the directory the path leads to. */
  function FileAt(t: Tree, q: Path): Option<seq<byte>>
    decreases |q|
  {
    if q == [] then None
    else if |q| == 1 then FileNamed(t.files, q[0])
    else if SubNamed(t.subs, q[0]).Some? then FileAt(SubNamed(t.subs, q[0]).value, q[1..])
    else None
  }

  predicate DirAt(t: Tree, q: Path)
    decreases |q|
  {
    q == [] || (SubNamed(t.subs, q[0]).Some? && DirAt(SubNamed(t.subs, q[0]).value, q[1..]))
  }

  lemma {:induction false} FilesLookup(files: seq<File>, subs: seq<Sub>, p: Path, n: Name)
    requires ValidFiles(files, subs)
    ensures p + [n] in FilesAt(files, p) <==> FileNamed(files, n).Some?
    ensures FileNamed(files, n).Some? ==> FilesAt(files, p)[p + [n]] == FileNamed(files, n).value
    decreases |files|
  {
    if files != [] {
      FilesLookup(files[1..], subs, p, n);
      LastName(p, files[0].name, n);
      if files[0].name == n && p + [n] in FilesAt(files[1..], p) {
        var i := FilesBelow(files[1..], p, p + [n]);
        LastName(p, files[1..][i].name, n);
      }
    }
  }

  lemma LastName(p: Path, m: Name, n: Name)
    ensures p + [m] == p + [n] <==> m == n
  {
    assert (p + [m])[|p|] == m && (p + [n])[|p|] == n;
  }

  /** What the tree's maps hold below a destination is what looking up finds. */
  lemma {:induction false} TreeLookup(t: Tree, p: Path, q: Path)
    requires ValidTree(t)
    ensures p + q in TreeFiles(t, p) <==> FileAt(t, q).Some?
    ensures FileAt(t, q).Some? ==> TreeFiles(t, p)[p + q] == FileAt(t, q).value
    ensures p + q in TreeDirs(t, p) <==> DirAt(t, q)
    decreases t, 0
  {
    var x := p + q;
    if q == [] {
      assert x == p;
      if x in TreeFiles(t, p) { TreeBelow(t, p, x); }
    } else {
      var n := q[0];
      assert q == [n] + q[1..] && x == (p + [n]) + q[1..] && x != p;
      SubsLookup(t.subs, p, q);
      if |q| == 1 {
        assert q[1..] == [] && x == p + [n];
        FilesLookup(t.files, t.subs, p, n);
        if x in SubsFiles(t.subs, p) { var i := SubsBelow(t.subs, p, x); }
      } else if x in FilesAt(t.files, p) {
        var i := FilesBelow(t.files, p, x);
      }
    }
  }

  lemma {:induction false} SubsLookup(subs: seq<Sub>, p: Path, q: Path)
    requires ValidSubs(subs) && q != []
    ensures var sub := SubNamed(subs, q[0]);
      && (p + q in SubsFiles(subs, p) <==> sub.Some? && FileAt(sub.value, q[1..]).Some?)
      && (sub.Some? && FileAt(sub.value, q[1..]).Some? ==> SubsFiles(subs, p)[p + q] == FileAt(sub.value, q[1..]).value)
      && (p + q in SubsDirs(subs, p) <==> sub.Some? && DirAt(sub.value, q[1..]))
    decreases subs
  {
    if subs != [] {
      var x, m, t := p + q, subs[0].name, subs[0].tree;
      SubsLookup(subs[1..], p, q);
      assert x == (p + [q[0]]) + q[1..];
      if m == q[0] {
        TreeLookup(t, p + [m], q[1..]);
        if x in SubsFiles(subs[1..], p) || x in SubsDirs(subs[1..], p) {
          NotInFirst(subs, p, x);
          var i := SubsBelow(subs[1..], p, x);
          assert subs[1..][i] == subs[i + 1];
          ChildOf(p, subs[1..][i].name, q[0], q[1..]);
        }
      } else if x in TreeFiles(t, p + [m]) || x in TreeDirs(t, p + [m]) {
        TreeBelow(t, p + [m], x);
        ChildOf(p, m, q[0], q[1..]);
      }
    }
  }

  /** A path below two children of a directory is below the same one. */
  lemma ChildOf(p: Path, m: Name, n: Name, rest: Path)
    requires Below((p + [n]) + rest, p + [m])
    ensures m == n
  {
    assert ((p + [n]) + rest)[|p|] == n && (p + [m])[|p|] == m;
    assert ((p + [n]) + rest)[..|p| + 1][|p|] == n;
  }

  /** The files and directories of a walk from the root are those one finds by looking up. */
  lemma {:induction false} RootLookup(t: Tree, q: Path)
    requires ValidTree(t)
    ensures q in TreeFiles(t, []) <==> FileAt(t, q).Some?
    ensures FileAt(t, q).Some? ==> TreeFiles(t, [])[q] == FileAt(t, q).value
    ensures q in TreeDirs(t, []) <==> DirAt(t, q)
  {
    TreeLookup(t, [], q);
    assert [] + q == q;
  }

  // ----- several trees -----

  /** A file of one of the trees is found under that tree's destination. */
  lemma {:induction false} MountHolds(
    ms: seq<Mount>, dirs: set<Path>, files: set<Path>, i: nat, q: Path)
    requires MountsOk(ms, dirs, files) && i < |ms|
    ensures FileAt(ms[i].tree, q).Some? ==>
      ms[i].at + q in MountFiles(ms) && MountFiles(ms)[ms[i].at + q] == FileAt(ms[i].tree, q).value
    ensures DirAt(ms[i].tree, q) ==> ms[i].at + q in MountDirs(ms)
    decreases |ms|
  {
    var p, t, x := ms[0].at, ms[0].tree, ms[i].at + q;
    if i == 0 {
      TreeLookup(t, p, q);
      if x in MountFiles(ms[1..]) { NotTaken(ms[1..], dirs + TreeDirs(t, p), files + TreeFiles(t, p).Keys, x); }
    } else {
      MountHolds(ms[1..], dirs + TreeDirs(t, p), files + TreeFiles(t, p).Keys, i - 1, q);
    }
  }

  /** No later tree brings a file whose path is taken. */
  lemma {:induction false} NotTaken(ms: seq<Mount>, dirs: set<Path>, files: set<Path>, x: Path)
    requires MountsOk(ms, dirs, files) && x in MountFiles(ms)
    ensures x !in files
    decreases |ms|
  {
    var p, t := ms[0].at, ms[0].tree;
    if x !in TreeFiles(t, p) {
      NotTaken(ms[1..], dirs + TreeDirs(t, p), files + TreeFiles(t, p).Keys, x);
    }
  }

  /** What is found is a file, or a directory, of one of the trees. */
  lemma {:induction false} MountFrom(ms: seq<Mount>, dirs: set<Path>, files: set<Path>, x: Path)
    returns (i: nat, q: Path)
    requires MountsOk(ms, dirs, files) && (x in MountFiles(ms) || x in MountDirs(ms))
    ensures i < |ms| && x == ms[i].at + q
    ensures x in MountFiles(ms) ==> FileAt(ms[i].tree, q) == Some(MountFiles(ms)[x])
    ensures x !in MountFiles(ms) ==> DirAt(ms[i].tree, q)
    decreases |ms|
  {
    var p, t := ms[0].at, ms[0].tree;
    var dirs', files' := dirs + TreeDirs(t, p), files + TreeFiles(t, p).Keys;
    if x in MountFiles(ms[1..]) || (x !in TreeFiles(t, p) && x !in TreeDirs(t, p)) {
      i, q := MountFrom(ms[1..], dirs', files', x);
      i := i + 1;
    } else {
      TreeBelow(t, p, x);
      i, q := 0, x[|p|..];
      assert x == p + q;
      TreeLookup(t, p, q);
    }
  }

  // ----- what a tree's totals count -----

  /** Bytes of all the files of a map. */
  ghost function AllBytes(m: map<Path, seq<byte>>): nat
    decreases |m|
  {
    if m == map[] then 0 else var k :| k in m; |m[k]| + AllBytes(m - {k})
  }

  lemma {:induction false} BytesWithout(m: map<Path, seq<byte>>, k: Path)
    requires k in m
    ensures AllBytes(m) == |m[k]| + AllBytes(m - {k})
    decreases |m|
  {
    var j :| j in m && AllBytes(m) == |m[j]| + AllBytes(m - {j});
    if j != k {
      BytesWithout(m - {j}, k);
      BytesWithout(m - {k}, j);
      assert m - {j} - {k} == m - {k} - {j};
    }
  }

  lemma {:induction false} BytesJoin(a: map<Path, seq<byte>>, b: map<Path, seq<byte>>)
    requires a.Keys !! b.Keys
    ensures AllBytes(a + b) == AllBytes(a) + AllBytes(b) && |a + b| == |a| + |b|
    decreases |a|
  {
    assert (a + b).Keys == a.Keys + b.Keys;
    if a == map[] {
      assert a + b == b;
    } else {
      var k :| k in a;
      BytesJoin(a - {k}, b);
      KeyMoved(a, b, k);
      OneLess(a, k);
      OneLess(a + b, k);
      BytesWithout(a, k);
      BytesWithout(a + b, k);
    }
  }

  lemma {:induction false} KeyMoved(a: map<Path, seq<byte>>, b: map<Path, seq<byte>>, k: Path)
    requires k in a && k !in b
    ensures (a + b) - {k} == (a - {k}) + b && (a + b)[k] == a[k]
  {
  }

  lemma {:induction false} OneLess(m: map<Path, seq<byte>>, k: Path)
    requires k in m
    ensures |m - {k}| == |m| - 1
  {
    assert (m - {k}).Keys == m.Keys - {k} && |m.Keys - {k}| == |m.Keys| - 1;
    assert |m| == |m.Keys| && |m - {k}| == |(m - {k}).Keys|;
  }

  lemma {:induction false} FilesTotals(files: seq<File>, subs: seq<Sub>, p: Path)
    requires ValidFiles(files, subs)
    ensures |FilesAt(files, p)| == |files| && AllBytes(FilesAt(files, p)) == FilesBytes(files)
    decreases |files|
  {
    if files != [] {
      var n, rest := files[0].name, FilesAt(files[1..], p);
      var one := map[p + [n] := files[0].data];
      if p + [n] in rest {
        var i := FilesBelow(files[1..], p, p + [n]);
        assert files[1..][i] == files[i + 1];
        LastName(p, files[i + 1].name, n);
      }
      FilesTotals(files[1..], subs, p);
      BytesJoin(one, rest);
      BytesWithout(one, p + [n]);
      assert one - {p + [n]} == map[];
    }
  }

  /** The totals of a tree count each file, each byte and each directory below the tree's root once. */
  lemma {:induction false} TreeTotals(t: Tree, p: Path)
    requires ValidTree(t)
    ensures |TreeFiles(t, p)| == FileCount(t) && AllBytes(TreeFiles(t, p)) == TreeBytes(t)
    ensures |TreeDirs(t, p)| == 1 + DirCount(t)
    decreases t, 0
  {
    FilesTotals(t.files, t.subs, p);
    SubsTotals(t.subs, p);
    forall x | x in FilesAt(t.files, p) ensures x !in SubsFiles(t.subs, p) {
      var i := FilesBelow(t.files, p, x);
      if x in SubsFiles(t.subs, p) { var j := SubsBelow(t.subs, p, x); }
    }
    BytesJoin(FilesAt(t.files, p), SubsFiles(t.subs, p));
    if p in SubsDirs(t.subs, p) { var i := SubsBelow(t.subs, p, p); }
  }

  lemma {:induction false} SubsTotals(subs: seq<Sub>, p: Path)
    requires ValidSubs(subs)
    ensures |SubsFiles(subs, p)| == SubsFileCount(subs) && AllBytes(SubsFiles(subs, p)) == SubsBytes(subs)
    ensures |SubsDirs(subs, p)| == SubsDirCount(subs)
    decreases subs
  {
    if subs != [] {
      var q := p + [subs[0].name];
      TreeTotals(subs[0].tree, q);
      SubsTotals(subs[1..], p);
      var fs, ds := TreeFiles(subs[0].tree, q), TreeDirs(subs[0].tree, q);
      forall x | x in fs || x in ds ensures x !in SubsFiles(subs[1..], p) && x !in SubsDirs(subs[1..], p) {
        TreeBelow(subs[0].tree, q, x);
        if x in SubsFiles(subs[1..], p) || x in SubsDirs(subs[1..], p) { NotInFirst(subs, p, x); }
      }
      BytesJoin(fs, SubsFiles(subs[1..], p));
    }
  }
}
