/** Directory entries against the tree they describe: every entry names a real
    child, every child has exactly one entry. */
module EynfsTree {
  import opened EynfsSector
  import opened EynfsLayout

  function Parent(p: Path): Path
    requires p != []
  {
    p[..|p| - 1]
  }

  function Base(p: Path): Name
    requires p != []
  {
    p[|p| - 1]
  }

  ghost predicate EntryOk(fs: Fs, p: Path, e: Dirent) {
    var q := p + [e.name];
    && ValidName(e.name)
    && (q in fs.dirs ==> e.kind == TYPE_DIR && e.size == 0 && e.first == FirstOf(fs.dirs[q].blocks))
    && (q !in fs.dirs ==>
          && q in fs.files && e.kind == TYPE_FILE
          && e.size == |fs.files[q].data| && e.first == FirstOf(fs.files[q].blocks))
  }

  ghost predicate HasEntry(fs: Fs, p: Path, name: Name) {
    p in fs.dirs && exists k :: 0 <= k < |fs.dirs[p].entries| && fs.dirs[p].entries[k].name == name
  }

  ghost predicate NamesDistinct(es: seq<Dirent>) {
    forall j, k :: 0 <= j < k < |es| ==> es[j].name != es[k].name
  }

  /** Entries and tree agree, except that the paths in `pending` are stored but not yet entered. */
  ghost predicate Linked(fs: Fs, pending: set<Path>) {
    && fs.dirs.Keys !! fs.files.Keys
    && (forall p, k {:trigger EntryOk(fs, p, fs.dirs[p].entries[k])} ::
          p in fs.dirs && 0 <= k < |fs.dirs[p].entries| ==> EntryOk(fs, p, fs.dirs[p].entries[k]))
    && (forall p {:trigger NamesDistinct(fs.dirs[p].entries)} :: p in fs.dirs ==> NamesDistinct(fs.dirs[p].entries))
    && (forall p {:trigger HasEntry(fs, Parent(p), Base(p))} ::
          (p in fs.dirs || p in fs.files) && p != [] && p !in pending ==> HasEntry(fs, Parent(p), Base(p)))
    && (forall p :: p in pending ==> p != [] && !HasEntry(fs, Parent(p), Base(p)))
  }

  lemma PathOf(p: Path, n: Name)
    ensures p + [n] != [] && Parent(p + [n]) == p && Base(p + [n]) == n
  {
  }

  /** Changing what is stored at a path with no entry leaves every entry right. */
  lemma PendingFileKeepsLinked(fs: Fs, q: Path, f: FileRec)
    requires Linked(fs, {q}) || (Linked(fs, {}) && q !in fs.files && q != [] && !HasEntry(fs, Parent(q), Base(q)))
    requires q !in fs.dirs
    ensures Linked(WithFile(fs, q, f), {q})
  {
    var fs' := WithFile(fs, q, f);
    forall p, k | p in fs'.dirs && 0 <= k < |fs'.dirs[p].entries|
      ensures EntryOk(fs', p, fs'.dirs[p].entries[k])
    {
      var e := fs.dirs[p].entries[k];
      assert EntryOk(fs, p, e);
      PathOf(p, e.name);
    }
    forall p | (p in fs'.dirs || p in fs'.files) && p != [] && p !in {q}
      ensures HasEntry(fs', Parent(p), Base(p))
    {
      assert HasEntry(fs, Parent(p), Base(p));
    }
  }

  lemma PendingDirKeepsLinked(fs: Fs, q: Path, d: DirRec)
    requires Linked(fs, {}) && q !in fs.dirs && q !in fs.files && q != [] && !HasEntry(fs, Parent(q), Base(q))
    requires d.entries == [] && Parent(q) in fs.dirs
    ensures Linked(WithDir(fs, q, d), {q})
  {
    var fs' := WithDir(fs, q, d);
    forall p, k | p in fs'.dirs && 0 <= k < |fs'.dirs[p].entries|
      ensures EntryOk(fs', p, fs'.dirs[p].entries[k])
    {
      var e := fs.dirs[p].entries[k];
      assert EntryOk(fs, p, e);
      PathOf(p, e.name);
    }
    forall p | (p in fs'.dirs || p in fs'.files) && p != [] && p !in {q}
      ensures HasEntry(fs', Parent(p), Base(p))
    {
      assert HasEntry(fs, Parent(p), Base(p));
    }
    assert Parent(q) != q;
  }

  /** Entering the pending child completes the tree again, whether or not the
      directory had to grow by a block to hold the entry. */
  lemma EnterKeepsLinked(fs: Fs, q: Path, e: Dirent, d': DirRec)
    requires Linked(fs, {q}) && Parent(q) in fs.dirs && (q in fs.dirs || q in fs.files)
    requires e.name == Base(q) && EntryOk(fs, Parent(q), e)
    requires d'.entries == fs.dirs[Parent(q)].entries + [e] && FirstOf(d'.blocks) == FirstOf(fs.dirs[Parent(q)].blocks)
    ensures Linked(WithDir(fs, Parent(q), d'), {})
  {
    var p := Parent(q);
    assert p + [e.name] == q;
    var es := fs.dirs[p].entries;
    var fs' := WithDir(fs, p, d');
    forall x, k | x in fs'.dirs && 0 <= k < |fs'.dirs[x].entries|
      ensures EntryOk(fs', x, fs'.dirs[x].entries[k])
    {
      if x == p && k == |es| {
      } else {
        assert EntryOk(fs, x, fs.dirs[x].entries[k]);
      }
    }
    forall x | x in fs'.dirs ensures NamesDistinct(fs'.dirs[x].entries) {
      assert NamesDistinct(fs.dirs[x].entries);
      assert !HasEntry(fs, p, e.name);
    }
    forall x | (x in fs'.dirs || x in fs'.files) && x != []
      ensures HasEntry(fs', Parent(x), Base(x))
    {
      if x == q {
        assert fs'.dirs[p].entries[|es|].name == e.name;
      } else {
        assert HasEntry(fs, Parent(x), Base(x));
        var k :| 0 <= k < |fs.dirs[Parent(x)].entries| && fs.dirs[Parent(x)].entries[k].name == Base(x);
        assert fs'.dirs[Parent(x)].entries[k].name == Base(x);
      }
    }
  }
}
