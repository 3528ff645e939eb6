/** filesystem.go: the directory tree over a torrent's file list. */
module Tree {
  /** A path by its components; every file path starts with the root component ".". */
  type Path = seq<string>

  const ROOT: Path := ["."]

  datatype Entry = Entry(name: string, dir: bool)

  function Parent(p: Path): Path
    requires p != []
  {
    p[..|p| - 1]
  }

  function Base(p: Path): string
    requires p != []
  {
    p[|p| - 1]
  }

  /** mapped holds the files by path, tree the listings of the directories. */
  datatype FS = FS(mapped: set<Path>, tree: map<Path, seq<Entry>>)

  // ----- what the loops build -----------------------------------------------

  /** The entry of directory d on the way to file f. */
  function Toward(d: Path, f: Path): Entry
    requires d < f
  {
    Entry(f[|d|], |d| + 1 < |f|)
  }

  /** File j has been entered into directory d, once files before i are done and file i down to depth k. */
  predicate Entered(files: seq<Path>, i: int, k: int, j: int, d: Path) {
    && 0 <= j < |files| && d != [] && d < files[j]
    && (j < i || (j == i && k < |d|))
  }

  /** Exactly the directories entered so far are there, each listing exactly its entries so far. */
  ghost predicate Built(tree: map<Path, seq<Entry>>, files: seq<Path>, i: int, k: int) {
    && (forall d :: d in tree <==> exists j :: Entered(files, i, k, j, d))
    && (forall d, e :: d in tree ==>
          (e in tree[d] <==> exists j :: Entered(files, i, k, j, d) && e == Toward(d, files[j])))
  }

  /** One round of the inner loop: directory d gets the entry met on the way up. */
  lemma BuiltStep(tree: map<Path, seq<Entry>>, files: seq<Path>, i: nat, k: nat, listing: seq<Entry>)
    requires i < |files| && 0 < k < |files[i]| && Built(tree, files, i, k)
    requires var d, e := files[i][..k], Toward(files[i][..k], files[i]);
             listing == if d in tree then tree[d] + [e] else [e]
    ensures Built(tree[files[i][..k] := listing], files, i, k - 1)
  {
    var f, at, k1 := files[i], files[i][..k], k - 1;
    var tree' := tree[at := listing];
    assert Entered(files, i, k1, i, at);
    forall j, d ensures Entered(files, i, k1, j, d) <==> Entered(files, i, k, j, d) || (j == i && d == at) {
      if j == i && |d| == k && d < f {
        assert d == at;
      }
    }
    forall d ensures d in tree' <==> exists j :: Entered(files, i, k1, j, d) {
      if d != at && d in tree {
        var j :| Entered(files, i, k, j, d);
        assert Entered(files, i, k1, j, d);
      }
    }
    forall d, e | d in tree'
      ensures e in tree'[d] <==> exists j :: Entered(files, i, k1, j, d) && e == Toward(d, files[j])
    {
      if d != at {
        assert d in tree;
        if j :| Entered(files, i, k, j, d) && e == Toward(d, files[j]) {
          assert Entered(files, i, k1, j, d);
        }
      } else {
        if at in tree && e in tree[at] {
          var j :| Entered(files, i, k, j, at) && e == Toward(at, files[j]);
          assert Entered(files, i, k1, j, at);
        }
        if j :| Entered(files, i, k1, j, at) && e == Toward(at, files[j]) {
          assert j == i || (Entered(files, i, k, j, at) && at in tree);
        }
      }
    }
  }

  /** The tree of a file list: its directories are the files' proper ancestors, its listings their children. */
  ghost predicate IsTree(fs: FS, files: seq<Path>) {
    && (forall p :: p in fs.mapped <==> p in files)
    && (forall d :: d in fs.tree <==> d != [] && exists f :: f in files && d < f)
    && (forall d, e :: d in fs.tree ==> (e in fs.tree[d] <==> exists f :: f in files && d < f && e == Toward(d, f)))
  }

  lemma BuiltIsTree(fs: FS, files: seq<Path>)
    requires (forall p :: p in fs.mapped <==> p in files) && Built(fs.tree, files, |files|, 0)
    ensures IsTree(fs, files)
  {
    forall d ensures d in fs.tree <==> d != [] && exists f :: f in files && d < f {
      if f :| d != [] && f in files && d < f {
        var j :| 0 <= j < |files| && files[j] == f;
        assert Entered(files, |files|, 0, j, d);
      }
      if d in fs.tree {
        var j :| Entered(files, |files|, 0, j, d);
        assert files[j] in files;
      }
    }
    forall d, e | d in fs.tree
      ensures e in fs.tree[d] <==> exists f :: f in files && d < f && e == Toward(d, f)
    {
      if f :| f in files && d < f && e == Toward(d, f) {
        var j :| 0 <= j < |files| && files[j] == f;
        assert Entered(files, |files|, 0, j, d);
      }
      if e in fs.tree[d] {
        var j :| Entered(files, |files|, 0, j, d) && e == Toward(d, files[j]);
        assert files[j] in files;
      }
    }
  }

  /** For each file: every ancestor, from its directory up, gets the entry just below it. */
  method NewFS(files: seq<Path>) returns (fs: FS)
    requires forall f :: f in files ==> f != []
    ensures IsTree(fs, files)
  {
    var mapped: set<Path>, tree: map<Path, seq<Entry>> := {}, map[];
    var i := 0;
    while i < |files|
      invariant 0 <= i <= |files|
      invariant forall p :: p in mapped <==> p in files[..i]
      invariant Built(tree, files, i, if i < |files| then |files[i]| - 1 else 0)
    {
      var fn := files[i];
      assert fn in files;
      mapped := mapped + {fn};
      var prev := Entry(Base(fn), false);
      var d := Parent(fn);
      while d != []
        invariant d < fn && d == fn[..|d|]
        invariant prev == Toward(d, fn)
        invariant Built(tree, files, i, |d|)
        decreases |d|
      {
        var n := [prev];
        if d in tree {
          n := tree[d] + n;
        }
        BuiltStep(tree, files, i, |d|, n);
        tree := tree[d := n];
        prev := Entry(Base(d), true);
        d := Parent(d);
      }
      NextFile(tree, files, i);
      i := i + 1;
    }
    assert files[..i] == files;
    fs := FS(mapped, tree);
    BuiltIsTree(fs, files);
  }

  lemma NextFile(tree: map<Path, seq<Entry>>, files: seq<Path>, i: nat)
    requires i < |files| && Built(tree, files, i, 0)
    ensures Built(tree, files, i + 1, if i + 1 < |files| then |files[i + 1]| - 1 else 0)
  {
    var i1, k := i + 1, if i + 1 < |files| then |files[i + 1]| - 1 else 0;
    forall j, d ensures Entered(files, i, 0, j, d) <==> Entered(files, i1, k, j, d) {}
    forall d ensures d in tree <==> exists j :: Entered(files, i1, k, j, d) {
      if j :| Entered(files, i1, k, j, d) {
        assert Entered(files, i, 0, j, d);
      }
    }
    forall d, e | d in tree
      ensures e in tree[d] <==> exists j :: Entered(files, i1, k, j, d) && e == Toward(d, files[j])
    {
      if j :| Entered(files, i1, k, j, d) && e == Toward(d, files[j]) {
        assert Entered(files, i, 0, j, d);
      }
    }
  }

  /** Each directory lists exactly the next components of the files below it, one as a directory if a file lies
      deeper, and as a file if a file ends there. */
  lemma ListingIs(fs: FS, files: seq<Path>, d: Path, name: string)
    requires IsTree(fs, files) && d in fs.tree
    ensures Entry(name, true) in fs.tree[d] <==> exists f :: f in files && d + [name] < f
    ensures Entry(name, false) in fs.tree[d] <==> d + [name] in files
  {
    if f :| f in files && d < f && Entry(name, true) == Toward(d, f) {
      assert f[..|d| + 1] == d + [name];
    }
    if f :| f in files && d + [name] < f {
      assert (d + [name])[|d|] == name && f[..|d|] == d;
      assert Entry(name, true) == Toward(d, f);
    }
    if f :| f in files && d < f && Entry(name, false) == Toward(d, f) {
      assert f == d + [name];
    }
    if d + [name] in files {
      assert d < d + [name] && Entry(name, false) == Toward(d, d + [name]);
    }
  }

  /** A listed directory is one of the tree, a listed file one of the files. */
  lemma ListedThere(fs: FS, files: seq<Path>, d: Path, e: Entry)
    requires IsTree(fs, files) && d in fs.tree && e in fs.tree[d]
    ensures if e.dir then d + [e.name] in fs.tree else d + [e.name] in fs.mapped
  {
    ListingIs(fs, files, d, e.name);
    assert e == Entry(e.name, e.dir);
  }

  // ----- following names ----------------------------------------------------

  datatype Opened = OpenFile(path: Path) | OpenDir(entries: seq<Entry>) | NotFound

  /** FS.Open: below the root first, then the name as it is, for the root itself. */
  function Open(fs: FS, name: Path): Opened {
    var rooted := ROOT + name;
    if rooted in fs.mapped then OpenFile(rooted)
    else if rooted in fs.tree then OpenDir(fs.tree[rooted])
    else if name in fs.tree then OpenDir(fs.tree[name])
    else NotFound
  }

  predicate Lists(o: Opened, name: string) {
    o.OpenDir? && exists e :: e in o.entries && e.name == name
  }

  /** name can be reached from "." by opening directories and following names they list. */
  predicate Reached(fs: FS, name: Path)
    decreases |name|
  {
    if name == [] then false
    else if name == ROOT then true
    else if |name| == 1 then Lists(Open(fs, ROOT), name[0])
    else Parent(name) != ROOT && Reached(fs, Parent(name)) && Lists(Open(fs, Parent(name)), Base(name))
  }

  /** A file path below the root: "." first, and nowhere else. */
  predicate Below(f: Path) {
    2 <= |f| && f[0] == "." && forall i :: 1 <= i < |f| ==> f[i] != "."
  }

  ghost predicate PrefixFree(files: seq<Path>) {
    forall f, g :: f in files && g in files ==> !(f < g)
  }

  /** No file stands in the way of name: none is a proper prefix of it. */
  ghost predicate Clear(files: seq<Path>, name: Path) {
    forall f :: f in files ==> !(f < ROOT + name)
  }

  /** What a directory lists: the next components of the files below it. */
  lemma ListsIs(fs: FS, files: seq<Path>, d: Path, name: string)
    requires IsTree(fs, files) && d in fs.tree
    ensures (exists e :: e in fs.tree[d] && e.name == name) <==> exists f :: f in files && d + [name] <= f
  {
    if e :| e in fs.tree[d] && e.name == name {
      var f :| f in files && d < f && e == Toward(d, f);
      assert f[..|d| + 1] == d + [name];
    }
    if f :| f in files && d + [name] <= f {
      assert (d + [name])[|d|] == name && f[..|d|] == d;
      assert Toward(d, f).name == name && Toward(d, f) in fs.tree[d];
    }
  }

  /** Opening the root lists what lies directly below it. */
  lemma RootLists(fs: FS, files: seq<Path>, x: string)
    requires IsTree(fs, files) && (forall f :: f in files ==> Below(f)) && x != "."
    ensures Lists(Open(fs, ROOT), x) <==> exists f :: f in files && ROOT + [x] <= f
  {
    var dots := ROOT + ROOT;
    assert dots[1] == ".";
    assert dots !in fs.mapped;
    assert dots !in fs.tree;
    assert forall f :: f in files && ROOT + [x] <= f ==> ROOT < f;
    if ROOT in fs.tree {
      ListsIs(fs, files, ROOT, x);
    }
  }

  /** Opening any other name lists what lies directly below it, unless a file has that name. */
  lemma NameLists(fs: FS, files: seq<Path>, name: Path, x: string)
    requires IsTree(fs, files) && (forall f :: f in files ==> Below(f)) && name != [] && name[0] != "."
    ensures Lists(Open(fs, name), x) <==> ROOT + name !in files && exists f :: f in files && ROOT + name + [x] <= f
  {
    var rooted := ROOT + name;
    assert name !in fs.tree;
    if rooted !in files {
      assert forall f :: f in files && rooted + [x] <= f ==> rooted < f;
      if rooted in fs.tree {
        ListsIs(fs, files, rooted, x);
      }
    }
  }

  lemma ClearStep(files: seq<Path>, name: Path)
    requires 2 <= |name|
    ensures Clear(files, name) <==> Clear(files, Parent(name)) && ROOT + Parent(name) !in files
  {
    var p := ROOT + Parent(name);
    assert ROOT + name == p + [Base(name)];
    forall f | f in files ensures f < ROOT + name <==> f < p || f == p {
      assert f < ROOT + name ==> f <= p;
    }
  }

  /** Following names from "." reaches exactly the ancestors of files, and files, behind no other file. */
  lemma {:induction false} ReachedExactly(fs: FS, files: seq<Path>, name: Path)
    requires IsTree(fs, files) && (forall f :: f in files ==> Below(f)) && name != [] && name[0] != "."
    ensures Reached(fs, name) <==> Clear(files, name) && exists f :: f in files && ROOT + name <= f
    decreases |name|
  {
    if |name| == 1 {
      assert name == [name[0]];
      RootLists(fs, files, name[0]);
    } else {
      var above := Parent(name);
      assert ROOT + above + [Base(name)] == ROOT + name;
      ReachedExactly(fs, files, above);
      NameLists(fs, files, above, Base(name));
      ClearStep(files, name);
      if f :| f in files && ROOT + name <= f {
        assert ROOT + above <= f;
      }
    }
  }

  /** The name, relative to the root, of a file path. */
  function Name(f: Path): Path {
    if f == [] then [] else f[1..]
  }

  /** The walk from "." reaches the file with this path: its names lead there, and opening it gives it. */
  predicate WalkFinds(fs: FS, f: Path) {
    f != [] && Reached(fs, Name(f)) && Open(fs, Name(f)) == OpenFile(f)
  }

  /** The walk finds every file exactly when no file path is a prefix of another; it never finds anything else. */
  lemma WalkFindsExactly(fs: FS, files: seq<Path>)
    requires IsTree(fs, files) && forall f :: f in files ==> Below(f)
    ensures (forall f :: f in files ==> WalkFinds(fs, f)) <==> PrefixFree(files)
    ensures forall f: Path :: WalkFinds(fs, f) ==> f in files
  {
    hide Reached, IsTree, Below;
    forall f | f in files ensures WalkFinds(fs, f) <==> Clear(files, Name(f)) {
      FoundExactly(fs, files, f);
    }
    forall f: Path | WalkFinds(fs, f) ensures f in files {
      assert IsTree(fs, files) ==> f in files by { OnlyFiles(fs, files, f); }
    }
    if forall f :: f in files ==> WalkFinds(fs, f) {
      forall f, g | f in files && g in files ensures !(f < g) {
        assert WalkFinds(fs, g) && Clear(files, Name(g));
        RootedAgain(files, g);
      }
    }
    if PrefixFree(files) {
      forall g | g in files ensures WalkFinds(fs, g) {
        RootedAgain(files, g);
      }
    }
  }

  lemma RootedAgain(files: seq<Path>, f: Path)
    requires f in files && forall g :: g in files ==> Below(g)
    ensures ROOT + Name(f) == f
  {
  }

  lemma OnlyFiles(fs: FS, files: seq<Path>, f: Path)
    requires IsTree(fs, files) && WalkFinds(fs, f)
    ensures f in files
  {
  }

  lemma FoundExactly(fs: FS, files: seq<Path>, f: Path)
    requires IsTree(fs, files) && (forall g :: g in files ==> Below(g)) && f in files
    ensures WalkFinds(fs, f) <==> Clear(files, Name(f))
  {
    RootedAgain(files, f);
    ReachedExactly(fs, files, Name(f));
  }
}
