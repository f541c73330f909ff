/** The name of the output document: the common ancestor of the input
    directories and the file name built from it. Paths are cleaned
    absolute paths, written as their sequence of segments ("/a/b" is
    ["a", "b"], the root "/" is []). */
module Naming {
  import opened Wrappers
  import opened Text

  type Path = seq<string>

  /** A segment of a cleaned path: non-empty, no separator, neither "."
      nor "..". */
  predicate CleanSegment(s: string) {
    s != "" && '/' !in s && s != "." && s != ".."
  }

  predicate Clean(p: Path) {
    forall i :: 0 <= i < |p| ==> CleanSegment(p[i])
  }

  /** The segments joined by '/'. */
  function JoinSlash(segs: seq<string>): string {
    if segs == [] then ""
    else if |segs| == 1 then segs[0]
    else segs[0] + "/" + JoinSlash(segs[1..])
  }

  /** A joined sequence starts with its first segment, followed by the end
      or by a separator. */
  lemma JoinSlashHead(segs: seq<string>)
    requires segs != []
    ensures HasPrefix(JoinSlash(segs), segs[0])
    ensures |segs| > 1 ==> |JoinSlash(segs)| > |segs[0]| && JoinSlash(segs)[|segs[0]|] == '/'
    ensures |segs| == 1 ==> JoinSlash(segs) == segs[0]
  {
    if |segs| > 1 {
      assert JoinSlash(segs) == segs[0] + "/" + JoinSlash(segs[1..]);
      assert (segs[0] + "/" + JoinSlash(segs[1..]))[..|segs[0]|] == segs[0];
    }
  }

  /* ---------- Path prefixes (hasPathPrefix) ---------- */

  /** prefix is an ancestor of path or path itself, segment by segment:
      what hasPathPrefix is meant to decide. */
  predicate HasPathPrefix(path: Path, prefix: Path) {
    |prefix| <= |path| && path[..|prefix|] == prefix
  }

  lemma PrefixTransitive(a: Path, b: Path, c: Path)
    requires HasPathPrefix(a, b) && HasPathPrefix(b, c)
    ensures HasPathPrefix(a, c)
  {
    assert a[..|c|] == a[..|b|][..|c|];
  }

  /** The longest common prefix of two paths. */
  function Lcp(a: Path, b: Path): (r: Path)
    ensures HasPathPrefix(a, r) && HasPathPrefix(b, r)
  {
    if a == [] || b == [] || a[0] != b[0] then []
    else
      var rest := Lcp(a[1..], b[1..]);
      assert a == [a[0]] + a[1..] && b == [b[0]] + b[1..];
      [a[0]] + rest
  }

  /** Every common prefix of a and b is a prefix of Lcp(a, b). */
  lemma {:induction false} LcpGreatest(a: Path, b: Path, q: Path)
    requires HasPathPrefix(a, q) && HasPathPrefix(b, q)
    ensures HasPathPrefix(Lcp(a, b), q)
  {
    if q != [] {
      assert a[0] == q[0] && b[0] == q[0];
      assert a[1..][..|q| - 1] == q[1..] && b[1..][..|q| - 1] == q[1..];
      LcpGreatest(a[1..], b[1..], q[1..]);
      assert Lcp(a, b) == [a[0]] + Lcp(a[1..], b[1..]);
    }
  }

  /** filepath.Rel(base, target) for two cleaned absolute paths: one ".."
      per segment of base below the common prefix, then the rest of
      target; "." when the two are equal. */
  function Rel(base: Path, target: Path): string {
    var c := |Lcp(base, target)|;
    if c == |base| && c == |target| then "."
    else JoinSlash(seq(|base| - c, _ => "..") + target[c..])
  }

  /** hasPathPrefix as the source writes it: the relative path must be "."
      or must not start with "..". */
  predicate HasPathPrefixAsWritten(path: Path, prefix: Path) {
    var rel := Rel(prefix, path);
    rel == "." || !HasPrefix(rel, "..")
  }

  /** The test as written accepts exactly the segment prefixes whose next
      segment of path does not itself start with "..": a directory named
      "..x" under prefix is taken for a way out of prefix. */
  lemma AsWrittenIff(path: Path, prefix: Path)
    requires Clean(path)
    ensures HasPathPrefixAsWritten(path, prefix) <==>
              HasPathPrefix(path, prefix) && (|path| == |prefix| || !HasPrefix(path[|prefix|], ".."))
  {
    var c := |Lcp(prefix, path)|;
    var segs := seq(|prefix| - c, _ => "..") + path[c..];
    if HasPathPrefix(path, prefix) {
      LcpGreatest(prefix, path, prefix);
      assert c == |prefix|;
      if |path| > |prefix| {
        assert segs == path[|prefix|..] && segs[0] == path[|prefix|];
        JoinSlashHead(segs);
        assert CleanSegment(path[|prefix|]);
      }
    } else {
      assert Lcp(prefix, path) == prefix[..c];
      assert segs[0] == "..";
      JoinSlashHead(segs);
      assert JoinSlash(segs)[..2] == ".." by {
        assert JoinSlash(segs)[..2] == JoinSlash(segs)[..|segs[0]|];
      }
    }
  }

  /** A sibling whose name starts with "..": "/a/..x" lies under "/a", yet
      the test as written says it does not. */
  lemma DotDotNameRejected()
    ensures HasPathPrefix(["a", "..x"], ["a"])
    ensures !HasPathPrefixAsWritten(["a", "..x"], ["a"])
  {
    assert CleanSegment("..x") by { assert "..x"[1] != '/'; }
    assert Clean(["a", "..x"]);
    AsWrittenIff(["a", "..x"], ["a"]);
    assert ["a", "..x"][1][..2] == "..";
  }

  /* ---------- Common ancestor (findCommonAncestor) ---------- */

  /** The longest prefix shared by all paths. */
  function CommonPrefix(paths: seq<Path>): (r: Path)
    requires paths != []
    ensures forall i :: 0 <= i < |paths| ==> HasPathPrefix(paths[i], r)
  {
    if |paths| == 1 then paths[0]
    else
      var init := CommonPrefix(paths[..|paths| - 1]);
      var r := Lcp(init, paths[|paths| - 1]);
      assert forall i :: 0 <= i < |paths| - 1 ==> paths[..|paths| - 1][i] == paths[i];
      forall i | 0 <= i < |paths| - 1
        ensures HasPathPrefix(paths[i], r)
      {
        PrefixTransitive(paths[i], init, r);
      }
      r
  }

  /** Every prefix shared by all paths is a prefix of CommonPrefix. */
  lemma {:induction false} CommonPrefixGreatest(paths: seq<Path>, q: Path)
    requires paths != []
    requires forall i :: 0 <= i < |paths| ==> HasPathPrefix(paths[i], q)
    ensures HasPathPrefix(CommonPrefix(paths), q)
  {
    if |paths| > 1 {
      var init := paths[..|paths| - 1];
      assert forall i :: 0 <= i < |init| ==> init[i] == paths[i];
      CommonPrefixGreatest(init, q);
      LcpGreatest(CommonPrefix(init), paths[|paths| - 1], q);
    }
  }

  /** What findCommonAncestor returns: nothing ("") for no paths, and
      otherwise the deepest directory holding every path. */
  function CommonAncestor(paths: seq<Path>): (r: Option<Path>)
    ensures r.None? <==> paths == []
  {
    if paths == [] then None else Some(CommonPrefix(paths))
  }

  /** findCommonAncestor: start from the first path and, for each further
      path, climb to the parent until the path lies under it. With a
      segment-wise prefix test the root lies above every path, so the
      source's "no parent left" exit is never taken. */
  method FindCommonAncestor(paths: seq<Path>) returns (r: Option<Path>)
    ensures r == CommonAncestor(paths)
  {
    if |paths| == 0 {
      return None;
    }
    var common := paths[0];
    var i := 1;
    while i < |paths|
      invariant 1 <= i <= |paths|
      invariant common == CommonPrefix(paths[..i])
    {
      var p := paths[i];
      ghost var before := common;
      while !HasPathPrefix(p, common)
        invariant HasPathPrefix(before, common)
        invariant HasPathPrefix(common, Lcp(before, p))
        decreases |common|
      {
        assert |Lcp(before, p)| < |common|;
        common := common[..|common| - 1];
      }
      LcpGreatest(before, p, common);
      assert paths[..i + 1][..i] == paths[..i];
      i := i + 1;
    }
    assert paths[..i] == paths;
    return Some(common);
  }

  /** findCommonAncestor with hasPathPrefix as written: climbing from
      common until path passes the test, or giving up ("") at the root. */
  function ClimbAsWritten(common: Path, path: Path): Option<Path>
    decreases |common|
  {
    if HasPathPrefixAsWritten(path, common) then Some(common)
    else if common == [] then None
    else ClimbAsWritten(common[..|common| - 1], path)
  }

  function CommonAncestorAsWritten(paths: seq<Path>): (r: Option<Path>)
    ensures r.Some? ==> paths != []
  {
    if paths == [] then None
    else if |paths| == 1 then Some(paths[0])
    else match CommonAncestorAsWritten(paths[..|paths| - 1])
      case None => None
      case Some(common) => ClimbAsWritten(common, paths[|paths| - 1])
  }

  /** "/a/b" and "/a/..x": the search as written climbs past "/a" to the
      root, so the document is named after no directory at all. */
  lemma DotDotSiblingAsWritten()
    ensures CommonAncestorAsWritten([["a", "b"], ["a", "..x"]]) == Some([])
    ensures CommonAncestor([["a", "b"], ["a", "..x"]]) == Some(["a"])
    ensures OutputFileName([["a", "b"], ["a", "..x"]]) == "a_context.md"
  {
    var paths: seq<Path> := [["a", "b"], ["a", "..x"]];
    assert paths[..1] == [["a", "b"]];
    DotDotNameRejected();
    assert !HasPathPrefix(["a", "..x"], ["a", "b"]);
    assert Clean(["a", "..x"]) by { assert CleanSegment("..x") by { assert "..x"[1] != '/'; } }
    AsWrittenIff(["a", "..x"], ["a", "b"]);
    AsWrittenIff(["a", "..x"], []);
    assert ["a", "..x"][0] == "a";
    assert ClimbAsWritten(["a", "b"], ["a", "..x"]) == ClimbAsWritten(["a"], ["a", "..x"]);
    assert ["a"][..0] == [];
    assert ClimbAsWritten(["a"], ["a", "..x"]) == ClimbAsWritten([], ["a", "..x"]);
    CommonPrefixGreatest(paths, ["a"]);
    assert CommonPrefix(paths) == Lcp(["a", "b"], ["a", "..x"]);
    assert !HasPathPrefix(["a", "..x"], ["a", "b"]);
  }

  /* ---------- Output file name (buildOutputFileName) ---------- */

  const Suffix := "_context.md"
  const MergedBase := "merged_project"

  /** filepath.Base of a cleaned absolute path. */
  function BaseOf(p: Path): string {
    if p == [] then "/" else p[|p| - 1]
  }

  /** buildOutputFileName: one directory names the document after itself;
      several after their common ancestor, or "merged_project" when that
      is the root or there is none. */
  function OutputFileName(absDirs: seq<Path>): (r: string)
    ensures HasSuffix(r, Suffix)
  {
    if |absDirs| == 1 then BaseOf(absDirs[0]) + Suffix
    else
      var common := CommonAncestor(absDirs);
      var base := if common.None? || common.value == [] then MergedBase else BaseOf(common.value);
      (if base == "" then MergedBase else base) + Suffix
  }

  /** Several directories inside one parent d (and not all under a deeper
      one) give the document d's name. */
  lemma SharedParentNamesDocument(absDirs: seq<Path>, parent: Path)
    requires |absDirs| >= 2 && Clean(parent) && parent != []
    requires forall i :: 0 <= i < |absDirs| ==> HasPathPrefix(absDirs[i], parent)
    requires exists i, j :: 0 <= i < |absDirs| && 0 <= j < |absDirs| &&
               |absDirs[i]| > |parent| && |absDirs[j]| > |parent| &&
               absDirs[i][|parent|] != absDirs[j][|parent|]
    ensures OutputFileName(absDirs) == parent[|parent| - 1] + Suffix
  {
    var i, j :| 0 <= i < |absDirs| && 0 <= j < |absDirs| &&
                |absDirs[i]| > |parent| && |absDirs[j]| > |parent| &&
                absDirs[i][|parent|] != absDirs[j][|parent|];
    CommonPrefixGreatest(absDirs, parent);
    var c := CommonPrefix(absDirs);
    assert HasPathPrefix(absDirs[i], c) && HasPathPrefix(absDirs[j], c);
    assert c == parent;
  }

  /** Directories with no common segment at all give the merged name. */
  lemma DisjointRootsMerged(absDirs: seq<Path>, i: nat, j: nat)
    requires i < |absDirs| && j < |absDirs| && |absDirs| >= 2
    requires absDirs[i] != [] && absDirs[j] != [] && absDirs[i][0] != absDirs[j][0]
    ensures OutputFileName(absDirs) == MergedBase + Suffix
  {
    var c := CommonPrefix(absDirs);
    assert HasPathPrefix(absDirs[i], c) && HasPathPrefix(absDirs[j], c);
  }
}
