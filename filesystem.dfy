/** A read-only snapshot of the filesystem the program looks at, and the
    symlink-following step that the walker and the tree renderer share. */
module FileSystem {
  import opened Text
  import opened Utf8

  /** One os.DirEntry as os.ReadDir reports it: isDir is the entry's own
      type (false for a symbolic link, whatever it points to). */
  datatype Entry = Entry(name: string, isDir: bool, isSymlink: bool)

  /** What os.Stat reports, following links. */
  datatype Info = Info(isDir: bool, size: int)

  /** Each map answers one system call; a path that is not a key is an error
      of that call.
      listing   os.ReadDir
      resolve   filepath.EvalSymlinks (the canonical path)
      stat      os.Stat
      data      os.ReadFile
      links     os.Readlink
      errorText the text of the error os.ReadDir reports */
  datatype FS = FS(
    listing: map<string, seq<Entry>>,
    resolve: map<string, string>,
    stat: map<string, Info>,
    data: map<string, seq<byte>>,
    links: map<string, string>,
    errorText: string)
  {
    /** A directory that can be listed also has a canonical path. */
    predicate Valid() {
      forall d :: d in listing ==> d in resolve
    }

    /** The canonical paths; a walk descends into each at most once. */
    function Canon(): set<string> {
      resolve.Values
    }

    /** The entries of a listable directory, none otherwise. */
    function Entries(path: string): seq<Entry> {
      if path in listing then listing[path] else []
    }

    /** Whether a walk that reaches path can still list it. */
    function Live(path: string): nat {
      if path in listing then 1 else 0
    }
  }

  /** Where a child entry leads and whether it is descended into. */
  datatype Child = Child(phys: string, isDir: bool)

  /** A symbolic link whose target resolves and stats as a directory is
      followed: the child becomes that target and counts as a directory.
      Every other entry is its joined path with its own type. */
  function Follow(fs: FS, parent: string, e: Entry): Child {
    var p := Join(parent, e.name);
    if e.isSymlink && p in fs.resolve && fs.resolve[p] in fs.stat && fs.stat[fs.resolve[p]].isDir
    then Child(fs.resolve[p], true)
    else Child(p, e.isDir)
  }

  /** Only a symbolic link is ever redirected, and only to a canonical path
      that stats as a directory; an entry that is not a link keeps its joined
      path and its own type. */
  lemma FollowShape(fs: FS, parent: string, e: Entry)
    ensures var c := Follow(fs, parent, e);
            (!e.isSymlink ==> c == Child(Join(parent, e.name), e.isDir)) &&
            (c.phys != Join(parent, e.name) ==>
               e.isSymlink && c.isDir && Join(parent, e.name) in fs.resolve &&
               c.phys == fs.resolve[Join(parent, e.name)] &&
               c.phys in fs.stat && fs.stat[c.phys].isDir) &&
            (c.isDir && !e.isDir ==> e.isSymlink && c.phys in fs.stat && fs.stat[c.phys].isDir)
  {
  }

  lemma {:induction false} SubsetCard(a: set<string>, b: set<string>)
    requires a <= b
    ensures |a| <= |b|
    decreases |b|
  {
    if a != {} {
      var x :| x in a;
      SubsetCard(a - {x}, b - {x});
    }
  }

  lemma ProperSubsetCard(a: set<string>, b: set<string>)
    requires a < b
    ensures |a| < |b|
  {
    var y :| y in b && y !in a;
    SubsetCard(a, b - {y});
  }

  /** A set that only grows leaves no more of c uncovered. */
  lemma UncoveredShrinks(c: set<string>, a: set<string>, b: set<string>)
    requires a <= b
    ensures |c - b| <= |c - a|
  {
    SubsetCard(c - b, c - a);
  }

  /** Covering one more member of c strictly shrinks what is left. */
  lemma UncoveredShrinksStrictly(c: set<string>, a: set<string>, b: set<string>, x: string)
    requires a <= b && x in c && x !in b
    ensures |c - (b + {x})| < |c - a|
  {
    assert x in c - a && x !in c - (b + {x});
    ProperSubsetCard(c - (b + {x}), c - a);
  }
}
