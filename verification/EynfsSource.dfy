/** The source side of a copy: what `os.walk` yields for a directory tree, and
    what the finished image has to contain and to cost in blocks. */
module EynfsSource {
  import opened Bytes
  import opened EynfsSector
  import opened EynfsLayout
  import opened EynfsTree

  datatype File = File(name: Name, data: seq<byte>)

  /** One step of `os.walk`: a directory, its subdirectory names, its files. */
  datatype Visit = Visit(path: Path, dirs: seq<Name>, files: seq<File>)

  /** A directory as it lies on the host. */
  datatype Tree = Tree(files: seq<File>, subs: seq<Sub>)
  datatype Sub = Sub(name: Name, tree: Tree)

  /** Blocks that entering one more name costs a directory with `m` entries. */
  function Growth(m: nat): nat {
    if m > 0 && m % 9 == 0 then 1 else 0
  }

  /** A directory has as many blocks as its entries need, and at least one. */
  function DirBlocks(m: nat): (r: nat)
    ensures r >= 1 && m <= 9 * r
  {
    if m == 0 then 1 else CeilDiv(m, 9)
  }

  function FileBlocks(f: File): nat {
    CeilDiv(|f.data|, 508)
  }

  /** Where a copy stands: entries per directory, bytes per file, blocks used beyond the root's first. */
  datatype Plan = Plan(counts: map<Path, nat>, contents: map<Path, seq<byte>>, used: nat)

  const FRESH: Plan := Plan(map[[] := 0], map[], 0)

  function CountAt(pl: Plan, p: Path): nat {
    if p in pl.counts then pl.counts[p] else 0
  }

  function PlanFile(pl: Plan, p: Path, f: File): Plan {
    var m := CountAt(pl, p);
    Plan(pl.counts[p := m + 1], pl.contents[p + [f.name] := f.data], pl.used + FileBlocks(f) + Growth(m))
  }

  function PlanFiles(pl: Plan, p: Path, files: seq<File>): (r: Plan)
    ensures r.used >= pl.used
    decreases |files|
  {
    if files == [] then pl else PlanFiles(PlanFile(pl, p, files[0]), p, files[1..])
  }

  function PlanDir(pl: Plan, p: Path): Plan {
    if p == [] || p in pl.counts then pl
    else
      var m := CountAt(pl, Parent(p));
      Plan(pl.counts[Parent(p) := m + 1][p := 0], pl.contents, pl.used + 1 + Growth(m))
  }

  function PlanVisit(pl: Plan, v: Visit): (r: Plan)
    ensures r.used >= pl.used
  {
    PlanFiles(PlanDir(pl, v.path), v.path, v.files)
  }

  function PlanAll(pl: Plan, vs: seq<Visit>): (r: Plan)
    ensures r.used >= pl.used
    decreases |vs|
  {
    if vs == [] then pl else PlanAll(PlanVisit(pl, vs[0]), vs[1..])
  }

  // ----- well-formed sources -----

  /** What the encoder and the entry's size field take. */
  predicate Accepted(f: File) {
    Utf8(f.name) && |f.data| < 0x1_0000_0000
  }

  ghost predicate FileNew(pl: Plan, p: Path, f: File) {
    HostName(f.name) && p + [f.name] !in pl.counts && p + [f.name] !in pl.contents
  }

  ghost predicate FileOk(pl: Plan, p: Path, f: File) {
    FileNew(pl, p, f) && Accepted(f)
  }

  ghost predicate FilesOk(pl: Plan, p: Path, files: seq<File>)
    decreases |files|
  {
    files == [] || (FileOk(pl, p, files[0]) && FilesOk(PlanFile(pl, p, files[0]), p, files[1..]))
  }

  ghost predicate DirOk(pl: Plan, p: Path) {
    p in pl.counts || (p != [] && Parent(p) in pl.counts && p !in pl.contents && ValidName(Base(p)))
  }

  /** Parents come before children and no path is given twice. */
  ghost predicate SourceOk(pl: Plan, vs: seq<Visit>)
    decreases |vs|
  {
    vs == [] || (
      && DirOk(pl, vs[0].path)
      && FilesOk(PlanDir(pl, vs[0].path), vs[0].path, vs[0].files)
      && SourceOk(PlanVisit(pl, vs[0]), vs[1..]))
  }

  // ----- sources the copier may give up on -----

  const BACKSLASH: byte := 92

  /** `name.replace('\\', '/')`, as the pieces between the slashes. */
  function SplitName(n: Name): (r: seq<Name>)
    ensures |r| >= 1 && forall i :: 0 <= i < |r| ==> BACKSLASH !in r[i]
    ensures BACKSLASH !in n ==> r == [n]
  {
    if n == [] then [[]]
    else
      var r := SplitName(n[1..]);
      assert BACKSLASH !in n ==> BACKSLASH !in n[1..] && n == [n[0]] + n[1..];
      if n[0] == BACKSLASH then [[]] + r else r[0 := [n[0]] + r[0]]
  }

  /** Where the copier puts the directory at `p`: every backslash of a name separates two names. */
  function Landed(p: Path): (r: Path)
    ensures forall i :: 0 <= i < |r| ==> BACKSLASH !in r[i]
  {
    if p == [] then [] else SplitName(p[0]) + Landed(p[1..])
  }

  function Replaced(vs: seq<Visit>): (r: seq<Visit>)
    ensures |r| == |vs|
    ensures forall i :: 0 <= i < |vs| ==> r[i] == vs[i].(path := Landed(vs[i].path))
  {
    seq(|vs|, i requires 0 <= i < |vs| => vs[i].(path := Landed(vs[i].path)))
  }

  predicate Whole(p: Path) {
    forall i :: 0 <= i < |p| ==> HostName(p[i])
  }

  /** The directory is known already, or can be made: its parent is known, no file is in its
      place, and its name can be encoded. */
  predicate DirAccepted(pl: Plan, p: Path) {
    p in pl.counts || (p != [] && Parent(p) in pl.counts && p !in pl.contents && Utf8(Base(p)))
  }

  predicate FilesAccepted(files: seq<File>)
    decreases |files|
  {
    files == [] || (Accepted(files[0]) && FilesAccepted(files[1..]))
  }

  /** The copier raises on no name, size, missing parent or clash. */
  predicate VisitsAccepted(pl: Plan, vs: seq<Visit>)
    decreases |vs|
  {
    vs == [] || (
      && DirAccepted(pl, vs[0].path)
      && FilesAccepted(vs[0].files)
      && VisitsAccepted(PlanVisit(pl, vs[0]), vs[1..]))
  }

  ghost predicate FilesNew(pl: Plan, p: Path, files: seq<File>)
    decreases |files|
  {
    files == [] || (
      && FileNew(pl, p, files[0])
      && (Accepted(files[0]) ==> FilesNew(PlanFile(pl, p, files[0]), p, files[1..])))
  }

  /** Up to the point where the copier gives up, no file path is taken already and no piece of a
      new directory's path is empty. */
  ghost predicate VisitsNew(pl: Plan, vs: seq<Visit>)
    decreases |vs|
  {
    vs == [] || (
      var p, files := vs[0].path, vs[0].files;
      && (p in pl.counts || Whole(p))
      && (DirAccepted(pl, p) ==>
            && FilesNew(PlanDir(pl, p), p, files)
            && (FilesAccepted(files) ==> VisitsNew(PlanVisit(pl, vs[0]), vs[1..]))))
  }

  ghost predicate AllWhole(pl: Plan) {
    forall p :: p in pl.counts ==> Whole(p)
  }

  lemma {:induction false} FilesOkAccepted(pl: Plan, p: Path, files: seq<File>)
    requires FilesOk(pl, p, files)
    ensures FilesNew(pl, p, files) && FilesAccepted(files)
    decreases |files|
  {
    if files != [] { FilesOkAccepted(PlanFile(pl, p, files[0]), p, files[1..]); }
  }

  lemma {:induction false} FilesKeepWhole(pl: Plan, p: Path, files: seq<File>)
    requires AllWhole(pl) && p in pl.counts
    ensures AllWhole(PlanFiles(pl, p, files))
    decreases |files|
  {
    if files != [] { FilesKeepWhole(PlanFile(pl, p, files[0]), p, files[1..]); }
  }

  /** On a well-formed source the copier raises on nothing. */
  lemma {:induction false} SourceAccepted(pl: Plan, vs: seq<Visit>)
    requires SourceOk(pl, vs) && AllWhole(pl)
    ensures VisitsNew(pl, vs) && VisitsAccepted(pl, vs)
    decreases |vs|
  {
    if vs != [] {
      var p, files := vs[0].path, vs[0].files;
      var pl1 := PlanDir(pl, p);
      NewDirWhole(pl, p);
      FilesOkAccepted(pl1, p, files);
      FilesKeepWhole(pl1, p, files);
      SourceAccepted(PlanVisit(pl, vs[0]), vs[1..]);
    }
  }

  lemma {:induction false} NewDirWhole(pl: Plan, p: Path)
    requires DirOk(pl, p) && AllWhole(pl)
    ensures Whole(p) && p in PlanDir(pl, p).counts && AllWhole(PlanDir(pl, p))
  {
    if p !in pl.counts {
      assert p == Parent(p) + [Base(p)];
    }
  }
}
