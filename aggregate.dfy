/** processDirs: the document. A "Project Structure" section with one tree
    per input directory, then a "File Contents" section filled by walking
    each directory with a callback that prunes, passes over, or serializes
    each entry. */
module Aggregate {
  import opened Wrappers
  import opened Text
  import opened Utf8
  import opened FileSystem
  import opened Filter
  import opened Classify
  import opened WalkModel
  import opened Walker
  import opened Output
  import opened Content
  import opened Tree

  /** What the callback does with an entry: nothing, prune it (SkipDir), or
      hand it to processFile. */
  datatype Action = Pass | Prune | Process

  /** The walker's view of an action: processFile never fails, so only
      pruning differs from carrying on. */
  function ToSignal(a: Action): (s: Signal)
    ensures s != Fail
    ensures s == SkipDir <==> a == Prune
  {
    if a == Prune then SkipDir else Proceed
  }

  /** The callback's path below the root: "." stands for the root. */
  function RelSlash(rel: string): string {
    if rel == "." then "" else rel
  }

  /** An entry the content pass leaves out: the output file itself, junk,
      a hard-filtered path below the root, or a soft-filtered path. */
  predicate Excluded(cfg: Config, absOut: string, soft: seq<string>, hard: seq<string>,
                     rel: string, phys: string, e: Entry) {
    phys == absOut || IsJunk(cfg, e.name) ||
    (RelSlash(rel) != "" && CheckFilter(RelSlash(rel), hard).0) ||
    CheckFilter(RelSlash(rel), soft).0
  }

  /** The callback's cascade, given its test for "is a directory". */
  function Judge(cfg: Config, absOut: string, soft: seq<string>, hard: seq<string>,
                 rel: string, phys: string, e: Entry, isDir: bool): Action {
    var skip := if isDir then Prune else Pass;
    if phys == absOut then skip
    else if IsJunk(cfg, e.name) then skip
    else
      var relSlash := RelSlash(rel);
      if relSlash != "" && CheckFilter(relSlash, hard).0 then skip
      else if CheckFilter(relSlash, soft).0 then skip
      else if isDir then Pass
      else if IsAsset(cfg, e.name) then Pass
      else Process
  }

  /** The cascade, both ways: an entry is pruned exactly when it is a
      directory and excluded, and serialized exactly when it is neither
      excluded, a directory, nor an asset. */
  lemma JudgeIff(cfg: Config, absOut: string, soft: seq<string>, hard: seq<string>,
                 rel: string, phys: string, e: Entry, isDir: bool)
    ensures Judge(cfg, absOut, soft, hard, rel, phys, e, isDir) == Prune <==>
              isDir && Excluded(cfg, absOut, soft, hard, rel, phys, e)
    ensures Judge(cfg, absOut, soft, hard, rel, phys, e, isDir) == Process <==>
              !Excluded(cfg, absOut, soft, hard, rel, phys, e) && !isDir && !IsAsset(cfg, e.name)
  {
  }

  /** The callback as the program writes it: "is a directory" is the
      entry's own type, false for every symbolic link. */
  function DecideAsWritten(cfg: Config, absOut: string, soft: seq<string>, hard: seq<string>,
                           rel: string, phys: string, e: Entry): Action {
    Judge(cfg, absOut, soft, hard, rel, phys, e, e.isDir)
  }

  /** An entry leads to a directory: it is one, or it is a link whose path
      as the walker reports it stats as one. */
  predicate LeadsToDir(fs: FS, phys: string, e: Entry) {
    e.isDir || (e.isSymlink && phys in fs.stat && fs.stat[phys].isDir)
  }

  /** The callback with the directory test the walker itself uses, so that
      a link followed to a directory is pruned like a directory. */
  function Decide(fs: FS, cfg: Config, absOut: string, soft: seq<string>, hard: seq<string>,
                  rel: string, phys: string, e: Entry): Action {
    Judge(cfg, absOut, soft, hard, rel, phys, e, LeadsToDir(fs, phys, e))
  }

  function CallbackAsWritten(cfg: Config, absOut: string, soft: seq<string>, hard: seq<string>)
    : (string, string, Entry) -> Signal
  {
    (rel, phys, e) => ToSignal(DecideAsWritten(cfg, absOut, soft, hard, rel, phys, e))
  }

  function Callback(fs: FS, cfg: Config, absOut: string, soft: seq<string>, hard: seq<string>)
    : (string, string, Entry) -> Signal
  {
    (rel, phys, e) => ToSignal(Decide(fs, cfg, absOut, soft, hard, rel, phys, e))
  }

  /** The content pass's walk stops early only at a directory it cannot
      list: the callback never reports an error. */
  lemma WalkFailsOnlyUnlisted(fs: FS, cfg: Config, absOut: string, soft: seq<string>, hard: seq<string>,
                              root: string, visits: seq<Visit>, popped: seq<Node>,
                              pushed: seq<Node>, parent: seq<nat>, slot: seq<nat>)
    requires WalkOutcome(fs, Callback(fs, cfg, absOut, soft, hard), root, false, visits,
                         popped, pushed, parent, slot) == true
    ensures popped[|popped| - 1].phys !in fs.listing
  {
    var fn := Callback(fs, cfg, absOut, soft, hard);
    if popped[|popped| - 1].phys in fs.listing {
      assert false;
    }
  }

  /** Every directory the content pass descends into is reached through an
      entry that is not excluded: nothing pruned, by name or by filter, is
      ever entered, through a link or otherwise. */
  lemma NothingExcludedIsEntered(fs: FS, cfg: Config, absOut: string, soft: seq<string>, hard: seq<string>,
                                 par: Node, i: nat, node: Node)
    requires PushedFor(fs, Callback(fs, cfg, absOut, soft, hard), par, i, node)
    ensures !Excluded(cfg, absOut, soft, hard, node.rel, node.phys, fs.listing[par.phys][i])
  {
    var e := fs.listing[par.phys][i];
    var c := Follow(fs, par.phys, e);
    assert node.phys == c.phys;
    FollowShape(fs, par.phys, e);
    assert LeadsToDir(fs, c.phys, e);
    JudgeIff(cfg, absOut, soft, hard, node.rel, node.phys, e, true);
  }

  /** The counterexample's filesystem: /r holds a link node_modules to the
      directory /t, which holds the file a.js. */
  function LinkFS(): FS {
    FS(map["/r" := [Entry("node_modules", false, true)], "/t" := [Entry("a.js", false, false)]],
       map["/r" := "/r", "/r/node_modules" := "/t", "/t" := "/t"],
       map["/t" := Info(true, 0)], map[], map[], "")
  }

  /** The link's name is junk, so the tree hides it. */
  lemma JunkLinkHidden()
    ensures IsJunk(Default, "node_modules")
    ensures !Visible(Default, [], "", Entry("node_modules", false, true))
  {
    assert "node_modules" in Default.ignoredDirs;
    assert "node_modules"[..1] == "n";
  }

  /** The callback as written lets the walk push the link's target. */
  lemma JunkLinkFollowed()
    ensures PushedFor(LinkFS(), CallbackAsWritten(Default, "/out.md", [], []), Node("/r", ""), 0,
                      Node("/t", "node_modules"))
  {
    assert Join("/r", "node_modules") == "/r/node_modules";
    assert "node_modules"[..1] == "n";
  }

  /** a.js is neither junk nor an asset under the defaults. */
  lemma PlainNotJunk()
    ensures !IsJunk(Default, "a.js")
  {
    assert "a.js"[..1] == "a";
    assert "a.js" !in Default.ignoredFiles && "a.js" !in Default.ignoredDirs;
  }

  lemma PlainNotAsset()
    ensures !IsAsset(Default, "a.js")
  {
    PlainExt();
  }

  /** The extension of a.js, lower-cased, is .js. */
  lemma PlainExt()
    ensures LowerExt("a.js") == ".js"
  {
    assert "a.js"[..3] == "a.j" && "a.j"[..2] == "a.";
    assert Ext("a.") == ".";
    assert Ext("a.j") == ".j";
    assert Ext("a.js") == ".js";
    var lower := ToLower(".js");
    assert lower[0] == '.' && lower[1] == 'j' && lower[2] == 's';
  }

  /** The callback as written hands the file below the link to processFile. */
  lemma JunkFileProcessed()
    ensures DecideAsWritten(Default, "/out.md", [], [], "node_modules/a.js", "/t/a.js",
                            Entry("a.js", false, false)) == Process
  {
    var e := Entry("a.js", false, false);
    NoFiringRuleKeeps("node_modules/a.js", []);
    PlainNotJunk();
    PlainNotAsset();
    JudgeIff(Default, "/out.md", [], [], "node_modules/a.js", "/t/a.js", e, false);
  }

  /** The walk of the content pass, as the source writes it, descends into a
      junk-named link to a directory (here node_modules) and serializes the
      files below it, although the tree hides that link. */
  lemma JunkLinkEnteredAsWritten()
    ensures IsJunk(Default, "node_modules") &&
            !Visible(Default, [], "", Entry("node_modules", false, true)) &&
            PushedFor(LinkFS(), CallbackAsWritten(Default, "/out.md", [], []), Node("/r", ""), 0,
                      Node("/t", "node_modules")) &&
            DecideAsWritten(Default, "/out.md", [], [], "node_modules/a.js", "/t/a.js",
                            Entry("a.js", false, false)) == Process
  {
    JunkLinkHidden();
    JunkLinkFollowed();
    JunkFileProcessed();
  }

  /** The model uses Decide, under which the same link is pruned. */
  lemma JunkLinkPruned()
    ensures Decide(LinkFS(), Default, "/out.md", [], [], "node_modules", "/t",
                   Entry("node_modules", false, true)) == Prune
  {
    assert "node_modules" in Default.ignoredDirs;
    assert "node_modules"[..1] == "n";
  }

  /** The bytes the callback's processFile call adds for one visit. */
  function VisitBytes(fs: FS, cfg: Config, gbk: seq<byte> -> Option<seq<byte>>, absOut: string,
                      soft: seq<string>, hard: seq<string>, v: Visit): seq<byte>
  {
    if Decide(fs, cfg, absOut, soft, hard, v.rel, v.phys, v.entry) == Process
    then Emission(Serialize(fs, cfg, gbk, v.phys)) else []
  }

  /** The bytes the callback's processFile calls add, in visit order. */
  function ContentBytes(fs: FS, cfg: Config, gbk: seq<byte> -> Option<seq<byte>>, absOut: string,
                        soft: seq<string>, hard: seq<string>, vs: seq<Visit>): seq<byte>
  {
    if vs == [] then []
    else ContentBytes(fs, cfg, gbk, absOut, soft, hard, vs[..|vs| - 1]) +
         VisitBytes(fs, cfg, gbk, absOut, soft, hard, vs[|vs| - 1])
  }

  lemma ContentStep(fs: FS, cfg: Config, gbk: seq<byte> -> Option<seq<byte>>, absOut: string,
                    soft: seq<string>, hard: seq<string>, vs: seq<Visit>, j: nat)
    requires j < |vs|
    ensures ContentBytes(fs, cfg, gbk, absOut, soft, hard, vs[..j + 1]) ==
            ContentBytes(fs, cfg, gbk, absOut, soft, hard, vs[..j]) + VisitBytes(fs, cfg, gbk, absOut, soft, hard, vs[j])
  {
    assert vs[..j + 1][..j] == vs[..j];
  }

  /** The content pass only ever adds well-formed UTF-8. */
  lemma {:induction false} ContentValid(fs: FS, cfg: Config, gbk: seq<byte> -> Option<seq<byte>>, absOut: string,
                                        soft: seq<string>, hard: seq<string>, vs: seq<Visit>)
    ensures Valid(ContentBytes(fs, cfg, gbk, absOut, soft, hard, vs))
  {
    if vs != [] {
      var v := vs[|vs| - 1];
      ContentValid(fs, cfg, gbk, absOut, soft, hard, vs[..|vs| - 1]);
      ValidConcat(ContentBytes(fs, cfg, gbk, absOut, soft, hard, vs[..|vs| - 1]),
                  VisitBytes(fs, cfg, gbk, absOut, soft, hard, v));
    }
  }

  /** The structure lines of an input directory without an absolute path. */
  function AbsErrorLines(dir: string, absError: string): seq<byte> {
    Encode(dir + "/\n") + Encode("Error generating tree: " + absError + "\n")
  }

  /** The structure lines of an input directory with absolute path absDir:
      its base name, its tree, an error line when it cannot be listed, and
      a blank line. */
  function RootTree(fs: FS, cfg: Config, hard: seq<string>, dir: string, absDir: string): seq<byte>
    requires fs.Valid()
  {
    var r := RenderDir(fs, cfg, hard, Node(absDir, ""), "", {});
    Encode(Base(absDir) + "/\n") + Encode(r.text) + TreeTail(dir, fs.errorText, r.ok)
  }

  /** What follows a root's tree: an error line when it could not be
      listed, then a blank line. */
  function TreeTail(dir: string, errorText: string, ok: bool): seq<byte> {
    (if ok then [] else Encode("Error generating tree for " + dir + ": " + errorText + "\n")) +
    Encode("\n")
  }

  /** The lines of the structure section for one input directory. */
  function TreeSection(fs: FS, cfg: Config, hard: seq<string>, abs: string -> Option<string>,
                       absError: string, dir: string): seq<byte>
    requires fs.Valid()
  {
    match abs(dir)
    case None => AbsErrorLines(dir, absError)
    case Some(absDir) => RootTree(fs, cfg, hard, dir, absDir)
  }

  /** The structure sections of all input directories, in order. */
  function Structure(fs: FS, cfg: Config, hard: seq<string>, abs: string -> Option<string>,
                     absError: string, dirs: seq<string>): seq<byte>
    requires fs.Valid()
  {
    if dirs == [] then []
    else Structure(fs, cfg, hard, abs, absError, dirs[..|dirs| - 1]) +
         TreeSection(fs, cfg, hard, abs, absError, dirs[|dirs| - 1])
  }

  /** One directory's structure lines are well-formed UTF-8. */
  lemma TreeSectionValid(fs: FS, cfg: Config, hard: seq<string>, abs: string -> Option<string>,
                         absError: string, dir: string)
    requires fs.Valid()
    ensures Valid(TreeSection(fs, cfg, hard, abs, absError, dir))
  {
    match abs(dir) {
      case None =>
        EncodeValid(dir + "/\n");
        EncodeValid("Error generating tree: " + absError + "\n");
        ValidConcat(Encode(dir + "/\n"), Encode("Error generating tree: " + absError + "\n"));
      case Some(absDir) =>
        var r := RenderDir(fs, cfg, hard, Node(absDir, ""), "", {});
        var head := Encode(Base(absDir) + "/\n") + Encode(r.text);
        var failure := if r.ok then [] else Encode("Error generating tree for " + dir + ": " + fs.errorText + "\n");
        EncodeValid(Base(absDir) + "/\n");
        EncodeValid(r.text);
        EncodeValid("Error generating tree for " + dir + ": " + fs.errorText + "\n");
        EncodeValid("\n");
        ValidConcat(Encode(Base(absDir) + "/\n"), Encode(r.text));
        ValidConcat(failure, Encode("\n"));
        ValidConcat(head, TreeTail(dir, fs.errorText, r.ok));
    }
  }

  /** The structure section is well-formed UTF-8. */
  lemma {:induction false} StructureValid(fs: FS, cfg: Config, hard: seq<string>, abs: string -> Option<string>,
                                          absError: string, dirs: seq<string>)
    requires fs.Valid()
    ensures Valid(Structure(fs, cfg, hard, abs, absError, dirs))
  {
    if dirs != [] {
      StructureValid(fs, cfg, hard, abs, absError, dirs[..|dirs| - 1]);
      TreeSectionValid(fs, cfg, hard, abs, absError, dirs[|dirs| - 1]);
      ValidConcat(Structure(fs, cfg, hard, abs, absError, dirs[..|dirs| - 1]),
                  TreeSection(fs, cfg, hard, abs, absError, dirs[|dirs| - 1]));
    }
  }

  /** What the walk of one input directory produced: nothing when its
      absolute path could not be taken, otherwise the outcome of a walk of
      that path with the content callback. */
  predicate Walked(fs: FS, cfg: Config, absOut: string, soft: seq<string>, hard: seq<string>,
                   abs: string -> Option<string>, dir: string, ok: bool, visits: seq<Visit>)
    requires fs.Valid()
  {
    match abs(dir)
    case None => visits == []
    case Some(root) => WalkedFrom(fs, cfg, absOut, soft, hard, root, ok, visits)
  }

  /** ok and visits are what the walk from root with the content callback
      reports. */
  predicate WalkedFrom(fs: FS, cfg: Config, absOut: string, soft: seq<string>, hard: seq<string>,
                       root: string, ok: bool, visits: seq<Visit>)
    requires fs.Valid()
  {
    (ok, visits) == RunWalk(fs, Callback(fs, cfg, absOut, soft, hard), [Node(root, "")], {}, [])
  }

  /** The error processDirs returns: the one of the last directory that
      failed, whether its absolute path or its walk failed. */
  function LastError(abs: string -> Option<string>, absError: string, walkError: string,
                     dirs: seq<string>, oks: seq<bool>): (r: Option<string>)
    requires |oks| == |dirs|
    ensures r == None <==> forall k :: 0 <= k < |dirs| ==> abs(dirs[k]).Some? && oks[k]
  {
    if dirs == [] then None
    else if abs(dirs[|dirs| - 1]).None? then Some(absError)
    else if !oks[|dirs| - 1] then Some(walkError)
    else
      var r := LastError(abs, absError, walkError, dirs[..|dirs| - 1], oks[..|dirs| - 1]);
      assert forall k :: 0 <= k < |dirs| - 1 ==> dirs[..|dirs| - 1][k] == dirs[k] && oks[..|dirs| - 1][k] == oks[k];
      r
  }

  /** The contents of all walks, in input order. */
  function AllContent(fs: FS, cfg: Config, gbk: seq<byte> -> Option<seq<byte>>, absOut: string,
                      soft: seq<string>, hard: seq<string>, walks: seq<seq<Visit>>): seq<byte>
  {
    if walks == [] then []
    else AllContent(fs, cfg, gbk, absOut, soft, hard, walks[..|walks| - 1]) +
         ContentBytes(fs, cfg, gbk, absOut, soft, hard, walks[|walks| - 1])
  }

  /** The fixed text that opens the document, closes the structure section
      and opens the contents. */
  const StructureHead := "# Project Structure\n\n"
  const TreeFence := "```text\n"
  const TreeClose := "```\n\n"
  const Rule := "---\n\n"
  const ContentsHead := "# File Contents\n\n"

  /** The bytes before the structure lines. */
  function Preamble(): (r: seq<byte>)
    ensures Valid(r)
  {
    EncodeValid(StructureHead);
    EncodeValid(TreeFence);
    ValidConcat(Encode(StructureHead), Encode(TreeFence));
    Encode(StructureHead) + Encode(TreeFence)
  }

  /** The bytes between the structure lines and the file contents. */
  function Interlude(): (r: seq<byte>)
    ensures Valid(r)
  {
    EncodeValid(TreeClose);
    EncodeValid(Rule);
    EncodeValid(ContentsHead);
    ValidConcat(Encode(TreeClose), Encode(Rule));
    ValidConcat(Encode(TreeClose) + Encode(Rule), Encode(ContentsHead));
    Encode(TreeClose) + Encode(Rule) + Encode(ContentsHead)
  }

  /** The first half of the document: its heading and the trees. */
  function StructurePart(fs: FS, cfg: Config, hard: seq<string>, abs: string -> Option<string>,
                         absError: string, dirs: seq<string>): seq<byte>
    requires fs.Valid()
  {
    Preamble() + Structure(fs, cfg, hard, abs, absError, dirs)
  }

  /** The second half: the end of the trees, the contents heading and the
      file blocks. */
  function ContentsPart(fs: FS, cfg: Config, gbk: seq<byte> -> Option<seq<byte>>, absOut: string,
                        soft: seq<string>, hard: seq<string>, walks: seq<seq<Visit>>): seq<byte>
  {
    Interlude() + AllContent(fs, cfg, gbk, absOut, soft, hard, walks)
  }

  /** The whole document for the given walks. */
  function Document(fs: FS, cfg: Config, gbk: seq<byte> -> Option<seq<byte>>, abs: string -> Option<string>,
                    absError: string, dirs: seq<string>, absOut: string, soft: seq<string>, hard: seq<string>,
                    walks: seq<seq<Visit>>): seq<byte>
    requires fs.Valid()
  {
    StructurePart(fs, cfg, hard, abs, absError, dirs) + ContentsPart(fs, cfg, gbk, absOut, soft, hard, walks)
  }

  /** The whole document is well-formed UTF-8. */
  lemma DocumentValid(fs: FS, cfg: Config, gbk: seq<byte> -> Option<seq<byte>>, abs: string -> Option<string>,
                      absError: string, dirs: seq<string>, absOut: string, soft: seq<string>, hard: seq<string>,
                      walks: seq<seq<Visit>>)
    requires fs.Valid()
    ensures Valid(Document(fs, cfg, gbk, abs, absError, dirs, absOut, soft, hard, walks))
  {
    StructureValid(fs, cfg, hard, abs, absError, dirs);
    AllContentValid(fs, cfg, gbk, absOut, soft, hard, walks);
    ValidConcat(Preamble(), Structure(fs, cfg, hard, abs, absError, dirs));
    ValidConcat(Interlude(), AllContent(fs, cfg, gbk, absOut, soft, hard, walks));
    ValidConcat(StructurePart(fs, cfg, hard, abs, absError, dirs),
                ContentsPart(fs, cfg, gbk, absOut, soft, hard, walks));
  }

  lemma {:induction false} AllContentValid(fs: FS, cfg: Config, gbk: seq<byte> -> Option<seq<byte>>, absOut: string,
                                           soft: seq<string>, hard: seq<string>, walks: seq<seq<Visit>>)
    ensures Valid(AllContent(fs, cfg, gbk, absOut, soft, hard, walks))
  {
    if walks != [] {
      AllContentValid(fs, cfg, gbk, absOut, soft, hard, walks[..|walks| - 1]);
      ContentValid(fs, cfg, gbk, absOut, soft, hard, walks[|walks| - 1]);
      ValidConcat(AllContent(fs, cfg, gbk, absOut, soft, hard, walks[..|walks| - 1]),
                  ContentBytes(fs, cfg, gbk, absOut, soft, hard, walks[|walks| - 1]));
    }
  }

  /** The body of processDirs' first loop: the structure lines of one
      input directory. */
  method WriteTreeSection(w: Writer, fs: FS, cfg: Config, hard: seq<string>,
                          abs: string -> Option<string>, absError: string, dir: string)
    requires fs.Valid()
    modifies w
    ensures w.bytes == old(w.bytes) + TreeSection(fs, cfg, hard, abs, absError, dir)
  {
    var absDir := abs(dir);
    if absDir.None? {
      WriteAbsError(w, dir, absError);
    } else {
      WriteRootTree(w, fs, cfg, hard, dir, absDir.value);
    }
  }

  method WriteAbsError(w: Writer, dir: string, absError: string)
    modifies w
    ensures w.bytes == old(w.bytes) + AbsErrorLines(dir, absError)
  {
    ghost var start := w.bytes;
    w.WriteString(dir + "/\n");
    w.WriteString("Error generating tree: " + absError + "\n");
    Associative(start, Encode(dir + "/\n"), Encode("Error generating tree: " + absError + "\n"));
  }

  method WriteRootTree(w: Writer, fs: FS, cfg: Config, hard: seq<string>, dir: string, absDir: string)
    requires fs.Valid()
    modifies w
    ensures w.bytes == old(w.bytes) + RootTree(fs, cfg, hard, dir, absDir)
  {
    ghost var start := w.bytes;
    w.WriteString(Base(absDir) + "/\n");
    var ok, _ := WriteTree(w, fs, cfg, hard, Node(absDir, ""), "", {});
    WriteTreeTail(w, dir, fs.errorText, ok);
    ghost var r := RenderDir(fs, cfg, hard, Node(absDir, ""), "", {});
    Associative(start, Encode(Base(absDir) + "/\n"), Encode(r.text));
    Associative(start, Encode(Base(absDir) + "/\n") + Encode(r.text), TreeTail(dir, fs.errorText, r.ok));
  }

  method WriteTreeTail(w: Writer, dir: string, errorText: string, ok: bool)
    modifies w
    ensures w.bytes == old(w.bytes) + TreeTail(dir, errorText, ok)
  {
    ghost var start := w.bytes;
    ghost var failure: seq<byte> := [];
    if !ok {
      failure := Encode("Error generating tree for " + dir + ": " + errorText + "\n");
      w.WriteString("Error generating tree for " + dir + ": " + errorText + "\n");
    }
    w.WriteString("\n");
    Associative(start, failure, Encode("\n"));
  }

  /** The walk of one input directory with the content callback; each
      entry the callback hands to processFile is serialized, in visit
      order. */
  method WalkContents(w: Writer, fs: FS, cfg: Config, gbk: seq<byte> -> Option<seq<byte>>,
                      absOut: string, soft: seq<string>, hard: seq<string>, root: string)
    returns (ok: bool, visits: seq<Visit>)
    requires fs.Valid()
    modifies w
    ensures WalkedFrom(fs, cfg, absOut, soft, hard, root, ok, visits)
    ensures w.bytes == old(w.bytes) + ContentBytes(fs, cfg, gbk, absOut, soft, hard, visits)
  {
    var fn := Callback(fs, cfg, absOut, soft, hard);
    ghost var popped, pushed, parent, slot;
    ok, visits, popped, pushed, parent, slot := Walk(fs, root, fn);
    ghost var walkStart := w.bytes;
    var j := 0;
    while j < |visits|
      invariant 0 <= j <= |visits|
      invariant w.bytes == walkStart + ContentBytes(fs, cfg, gbk, absOut, soft, hard, visits[..j])
    {
      ghost var before := w.bytes;
      var v := visits[j];
      if Decide(fs, cfg, absOut, soft, hard, v.rel, v.phys, v.entry) == Process {
        ProcessFile(w, fs, cfg, gbk, v.phys);
      }
      ContentStep(fs, cfg, gbk, absOut, soft, hard, visits, j);
      Associative(walkStart, ContentBytes(fs, cfg, gbk, absOut, soft, hard, visits[..j]),
                  VisitBytes(fs, cfg, gbk, absOut, soft, hard, v));
      j := j + 1;
    }
    assert visits[..j] == visits;
  }

  lemma StructureStep(fs: FS, cfg: Config, hard: seq<string>, abs: string -> Option<string>,
                      absError: string, dirs: seq<string>, k: nat)
    requires fs.Valid() && k < |dirs|
    ensures Structure(fs, cfg, hard, abs, absError, dirs[..k + 1]) ==
            Structure(fs, cfg, hard, abs, absError, dirs[..k]) + TreeSection(fs, cfg, hard, abs, absError, dirs[k])
  {
    assert dirs[..k + 1][..k] == dirs[..k];
  }

  lemma AllContentStep(fs: FS, cfg: Config, gbk: seq<byte> -> Option<seq<byte>>, absOut: string,
                       soft: seq<string>, hard: seq<string>, walks: seq<seq<Visit>>, visits: seq<Visit>)
    ensures AllContent(fs, cfg, gbk, absOut, soft, hard, walks + [visits]) ==
            AllContent(fs, cfg, gbk, absOut, soft, hard, walks) + ContentBytes(fs, cfg, gbk, absOut, soft, hard, visits)
  {
    assert (walks + [visits])[..|walks|] == walks;
  }

  lemma LastErrorStep(abs: string -> Option<string>, absError: string, walkError: string,
                      dirs: seq<string>, oks: seq<bool>, k: nat, ok: bool)
    requires k < |dirs| && |oks| == k
    ensures LastError(abs, absError, walkError, dirs[..k + 1], oks + [ok]) ==
            if abs(dirs[k]).None? then Some(absError)
            else if !ok then Some(walkError)
            else LastError(abs, absError, walkError, dirs[..k], oks)
  {
    assert dirs[..k + 1][..k] == dirs[..k];
    assert (oks + [ok])[..k] == oks;
  }

  /** One walk per input directory, each what Walked says it is. */
  predicate AllWalked(fs: FS, cfg: Config, absOut: string, soft: seq<string>, hard: seq<string>,
                      abs: string -> Option<string>, dirs: seq<string>, oks: seq<bool>,
                      walks: seq<seq<Visit>>)
    requires fs.Valid()
  {
    |oks| == |dirs| && |walks| == |dirs| &&
    forall k :: 0 <= k < |dirs| ==> Walked(fs, cfg, absOut, soft, hard, abs, dirs[k], oks[k], walks[k])
  }

  /** Appending one more directory's walk keeps every walk matching its
      directory. */
  lemma WalkedStep(fs: FS, cfg: Config, absOut: string, soft: seq<string>, hard: seq<string>,
                   abs: string -> Option<string>, dirs: seq<string>, oks: seq<bool>, walks: seq<seq<Visit>>,
                   k: nat, ok: bool, visits: seq<Visit>)
    requires fs.Valid() && k < |dirs|
    requires AllWalked(fs, cfg, absOut, soft, hard, abs, dirs[..k], oks, walks)
    requires Walked(fs, cfg, absOut, soft, hard, abs, dirs[k], ok, visits)
    ensures AllWalked(fs, cfg, absOut, soft, hard, abs, dirs[..k + 1], oks + [ok], walks + [visits])
  {
    forall j | 0 <= j < k + 1
      ensures Walked(fs, cfg, absOut, soft, hard, abs, dirs[..k + 1][j], (oks + [ok])[j], (walks + [visits])[j])
    {
      if j < k {
        assert dirs[..k + 1][j] == dirs[..k][j];
        assert (oks + [ok])[j] == oks[j] && (walks + [visits])[j] == walks[j];
      } else {
        assert dirs[..k + 1][j] == dirs[k];
        assert (oks + [ok])[j] == ok && (walks + [visits])[j] == visits;
      }
    }
  }

  /** processDirs' first loop: the structure lines of every input
      directory, in input order. */
  method WriteStructure(w: Writer, fs: FS, cfg: Config, hard: seq<string>,
                        abs: string -> Option<string>, absError: string, dirs: seq<string>)
    requires fs.Valid()
    modifies w
    ensures w.bytes == old(w.bytes) + Structure(fs, cfg, hard, abs, absError, dirs)
  {
    ghost var treeStart := w.bytes;
    var k := 0;
    while k < |dirs|
      invariant 0 <= k <= |dirs|
      invariant w.bytes == treeStart + Structure(fs, cfg, hard, abs, absError, dirs[..k])
    {
      WriteTreeSection(w, fs, cfg, hard, abs, absError, dirs[k]);
      StructureStep(fs, cfg, hard, abs, absError, dirs, k);
      Associative(treeStart, Structure(fs, cfg, hard, abs, absError, dirs[..k]),
                  TreeSection(fs, cfg, hard, abs, absError, dirs[k]));
      k := k + 1;
    }
    assert dirs[..k] == dirs;
  }

  /** The body of processDirs' second loop: the contents of one input
      directory; a directory without an absolute form is walked not at
      all. */
  method WriteDirContents(w: Writer, fs: FS, cfg: Config, gbk: seq<byte> -> Option<seq<byte>>,
                          abs: string -> Option<string>, absOut: string, soft: seq<string>, hard: seq<string>,
                          dir: string)
    returns (ok: bool, visits: seq<Visit>)
    requires fs.Valid()
    modifies w
    ensures Walked(fs, cfg, absOut, soft, hard, abs, dir, ok, visits)
    ensures abs(dir).None? ==> ok
    ensures w.bytes == old(w.bytes) + ContentBytes(fs, cfg, gbk, absOut, soft, hard, visits)
  {
    var absDir := abs(dir);
    if absDir.None? {
      ok, visits := true, [];
    } else {
      ok, visits := WalkContents(w, fs, cfg, gbk, absOut, soft, hard, absDir.value);
    }
  }

  /** processDirs' second loop: the contents of every input directory, in
      input order, and the error of the last one that failed. */
  method WriteContents(w: Writer, fs: FS, cfg: Config, gbk: seq<byte> -> Option<seq<byte>>,
                       abs: string -> Option<string>, absError: string,
                       dirs: seq<string>, absOut: string, soft: seq<string>, hard: seq<string>)
    returns (err: Option<string>, ghost oks: seq<bool>, ghost walks: seq<seq<Visit>>)
    requires fs.Valid()
    modifies w
    ensures AllWalked(fs, cfg, absOut, soft, hard, abs, dirs, oks, walks)
    ensures w.bytes == old(w.bytes) + AllContent(fs, cfg, gbk, absOut, soft, hard, walks)
    ensures err == LastError(abs, absError, fs.errorText, dirs, oks)
  {
    ghost var contentStart := w.bytes;
    oks, walks := [], [];
    err := None;
    var k := 0;
    while k < |dirs|
      invariant 0 <= k <= |dirs| && |oks| == k && |walks| == k
      invariant AllWalked(fs, cfg, absOut, soft, hard, abs, dirs[..k], oks, walks)
      invariant w.bytes == contentStart + AllContent(fs, cfg, gbk, absOut, soft, hard, walks)
      invariant err == LastError(abs, absError, fs.errorText, dirs[..k], oks)
    {
      var ok, visits := WriteDirContents(w, fs, cfg, gbk, abs, absOut, soft, hard, dirs[k]);
      if abs(dirs[k]).None? {
        err := Some(absError);
      } else if !ok {
        err := Some(fs.errorText);
      }
      LastErrorStep(abs, absError, fs.errorText, dirs, oks, k, ok);
      WalkedStep(fs, cfg, absOut, soft, hard, abs, dirs, oks, walks, k, ok, visits);
      AllContentStep(fs, cfg, gbk, absOut, soft, hard, walks, visits);
      Associative(contentStart, AllContent(fs, cfg, gbk, absOut, soft, hard, walks),
                  ContentBytes(fs, cfg, gbk, absOut, soft, hard, visits));
      oks, walks := oks + [ok], walks + [visits];
      k := k + 1;
    }
    assert dirs[..k] == dirs;
  }

  method WritePreamble(w: Writer)
    modifies w
    ensures w.bytes == old(w.bytes) + Preamble()
  {
    ghost var start := w.bytes;
    w.WriteString(StructureHead);
    w.WriteString(TreeFence);
    Associative(start, Encode(StructureHead), Encode(TreeFence));
  }

  method WriteInterlude(w: Writer)
    modifies w
    ensures w.bytes == old(w.bytes) + Interlude()
  {
    ghost var start := w.bytes;
    w.WriteString(TreeClose);
    w.WriteString(Rule);
    Associative(start, Encode(TreeClose), Encode(Rule));
    w.WriteString(ContentsHead);
    Associative(start, Encode(TreeClose) + Encode(Rule), Encode(ContentsHead));
  }

  /** The heading and the trees. */
  method WriteStructurePart(w: Writer, fs: FS, cfg: Config, hard: seq<string>,
                            abs: string -> Option<string>, absError: string, dirs: seq<string>)
    requires fs.Valid()
    modifies w
    ensures w.bytes == old(w.bytes) + StructurePart(fs, cfg, hard, abs, absError, dirs)
  {
    ghost var start := w.bytes;
    WritePreamble(w);
    WriteStructure(w, fs, cfg, hard, abs, absError, dirs);
    Associative(start, Preamble(), Structure(fs, cfg, hard, abs, absError, dirs));
  }

  /** The end of the trees, the contents heading and the file blocks. */
  method WriteContentsPart(w: Writer, fs: FS, cfg: Config, gbk: seq<byte> -> Option<seq<byte>>,
                           abs: string -> Option<string>, absError: string,
                           dirs: seq<string>, absOut: string, soft: seq<string>, hard: seq<string>)
    returns (err: Option<string>, ghost oks: seq<bool>, ghost walks: seq<seq<Visit>>)
    requires fs.Valid()
    modifies w
    ensures AllWalked(fs, cfg, absOut, soft, hard, abs, dirs, oks, walks)
    ensures w.bytes == old(w.bytes) + ContentsPart(fs, cfg, gbk, absOut, soft, hard, walks)
    ensures err == LastError(abs, absError, fs.errorText, dirs, oks)
  {
    ghost var start := w.bytes;
    WriteInterlude(w);
    err, oks, walks := WriteContents(w, fs, cfg, gbk, abs, absError, dirs, absOut, soft, hard);
    Associative(start, Interlude(), AllContent(fs, cfg, gbk, absOut, soft, hard, walks));
  }

  /** The document for an output path with an absolute form. */
  method WriteDocument(w: Writer, fs: FS, cfg: Config, gbk: seq<byte> -> Option<seq<byte>>,
                       abs: string -> Option<string>, absError: string,
                       dirs: seq<string>, soft: seq<string>, hard: seq<string>, absOut: string)
    returns (err: Option<string>, ghost oks: seq<bool>, ghost walks: seq<seq<Visit>>)
    requires fs.Valid()
    modifies w
    ensures AllWalked(fs, cfg, absOut, soft, hard, abs, dirs, oks, walks)
    ensures w.bytes == old(w.bytes) + Document(fs, cfg, gbk, abs, absError, dirs, absOut, soft, hard, walks)
    ensures err == LastError(abs, absError, fs.errorText, dirs, oks)
  {
    ghost var start := w.bytes;
    WriteStructurePart(w, fs, cfg, hard, abs, absError, dirs);
    err, oks, walks := WriteContentsPart(w, fs, cfg, gbk, abs, absError, dirs, absOut, soft, hard);
    Associative(start, StructurePart(fs, cfg, hard, abs, absError, dirs),
                ContentsPart(fs, cfg, gbk, absOut, soft, hard, walks));
  }

  /** processDirs: the structure section, then the contents of every input
      directory; it gives up before writing anything when the output path
      has no absolute form. err is the error of the last directory that
      failed. The callback's processFile calls are made after each walk, in
      visit order: the walk itself writes nothing, so the bytes are the
      same. */
  method ProcessDirs(w: Writer, fs: FS, cfg: Config, gbk: seq<byte> -> Option<seq<byte>>,
                     abs: string -> Option<string>, absError: string,
                     dirs: seq<string>, soft: seq<string>, hard: seq<string>, finalOutPath: string)
    returns (err: Option<string>, ghost oks: seq<bool>, ghost walks: seq<seq<Visit>>)
    requires fs.Valid()
    modifies w
    ensures abs(finalOutPath).None? ==> err == Some(absError) && w.bytes == old(w.bytes)
    ensures abs(finalOutPath).Some? ==>
              var absOut := abs(finalOutPath).value;
              AllWalked(fs, cfg, absOut, soft, hard, abs, dirs, oks, walks) &&
              w.bytes == old(w.bytes) + Document(fs, cfg, gbk, abs, absError, dirs, absOut, soft, hard, walks) &&
              err == LastError(abs, absError, fs.errorText, dirs, oks)
  {
    oks, walks := [], [];
    var absOutPath := abs(finalOutPath);
    if absOutPath.None? {
      return Some(absError), oks, walks;
    }
    err, oks, walks := WriteDocument(w, fs, cfg, gbk, abs, absError, dirs, soft, hard, absOutPath.value);
  }
}
