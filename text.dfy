/** String helpers with the meaning the Go standard library gives them
    (package strings and package path/filepath on a Unix build, where the
    path separator is '/'). */
module Text {

  predicate HasPrefix(s: string, p: string) {
    |p| <= |s| && s[..|p|] == p
  }

  predicate HasSuffix(s: string, p: string) {
    |p| <= |s| && s[|s| - |p|..] == p
  }

  /** strings.TrimPrefix: removes one leading occurrence of p, if present. */
  function TrimPrefix(s: string, p: string): (r: string)
    ensures HasPrefix(s, p) ==> p + r == s
    ensures !HasPrefix(s, p) ==> r == s
  {
    if HasPrefix(s, p) then s[|p|..] else s
  }

  /** strings.TrimSuffix: removes one trailing occurrence of p, if present. */
  function TrimSuffix(s: string, p: string): (r: string)
    ensures HasSuffix(s, p) ==> r + p == s
    ensures !HasSuffix(s, p) ==> r == s
  {
    if HasSuffix(s, p) then s[..|s| - |p|] else s
  }

  /** strings.ReplaceAll(s, "\\", "/"). */
  function ReplaceBackslashes(s: string): (r: string)
    ensures |r| == |s|
    ensures forall i :: 0 <= i < |s| ==> r[i] == (if s[i] == '\\' then '/' else s[i])
    ensures '\\' !in r
  {
    if s == [] then [] else [if s[0] == '\\' then '/' else s[0]] + ReplaceBackslashes(s[1..])
  }

  function LowerChar(c: char): char {
    if 'A' <= c <= 'Z' then (c as int + 32) as char else c
  }

  /** strings.ToLower, restricted to the ASCII letters. */
  function ToLower(s: string): (r: string)
    ensures |r| == |s|
    ensures forall i :: 0 <= i < |s| ==> r[i] == LowerChar(s[i])
  {
    if s == [] then [] else [LowerChar(s[0])] + ToLower(s[1..])
  }

  /** filepath.Ext: the suffix of the last path element that starts at its
      last '.', or "" when that element has no '.'. */
  function Ext(path: string): (r: string)
    ensures HasSuffix(path, r)
    ensures r != [] ==> r[0] == '.' && forall k :: 1 <= k < |r| ==> r[k] != '.' && r[k] != '/'
    ensures r == [] ==> forall k :: 0 <= k < |path| && path[k] == '.' ==> '/' in path[k..]
    decreases |path|
  {
    if path == [] then []
    else
      var c := path[|path| - 1];
      if c == '/' then []
      else if c == '.' then ['.']
      else
        var e := Ext(path[..|path| - 1]);
        assert path[..|path| - 1] + [c] == path;
        if e == [] then [] else e + [c]
  }

  /** The characters after the last '/' of p (all of p when it has none). */
  function LastSegment(p: string): (r: string)
    ensures HasSuffix(p, r) && '/' !in r
    ensures |r| < |p| ==> p[|p| - |r| - 1] == '/'
    decreases |p|
  {
    if p == [] || p[|p| - 1] == '/' then []
    else
      var r := LastSegment(p[..|p| - 1]) + [p[|p| - 1]];
      assert p[..|p| - 1] + [p[|p| - 1]] == p;
      r
  }

  function StripTrailingSlashes(p: string): (r: string)
    ensures HasPrefix(p, r)
    ensures r == [] || r[|r| - 1] != '/'
    decreases |p|
  {
    if p != [] && p[|p| - 1] == '/' then StripTrailingSlashes(p[..|p| - 1]) else p
  }

  /** filepath.Base: "." for the empty path, "/" for a path of slashes only,
      and otherwise the last element once trailing slashes are dropped. */
  function Base(p: string): (r: string)
    ensures r != []
    ensures p != [] && p[|p| - 1] != '/' ==> r == LastSegment(p)
  {
    if p == [] then "."
    else
      var q := StripTrailingSlashes(p);
      if q == [] then "/" else LastSegment(q)
  }

  /** filepath.Join(dir, name) for a cleaned dir and a single-element name
      (what os.ReadDir returns: no '/', never "." or ".."). */
  function Join(dir: string, name: string): string {
    if dir == [] then name
    else if dir[|dir| - 1] == '/' then dir + name
    else dir + "/" + name
  }

  /** The joined path starts with the directory and ends with the name. */
  lemma JoinShape(dir: string, name: string)
    ensures dir == [] ==> Join(dir, name) == name
    ensures dir != [] ==> HasPrefix(Join(dir, name), dir) && HasSuffix(Join(dir, name), name)
  {
  }

  /** unicode.IsSpace restricted to the Latin-1 range. */
  predicate IsSpace(c: char) {
    c == ' ' || c == '\t' || c == '\n' || c == '\r' || c == '\U{000B}' || c == '\U{000C}'
    || c == '\U{0085}' || c == '\U{00A0}'
  }

  function TrimLeadingSpace(s: string): (r: string)
    ensures HasSuffix(s, r)
    ensures r == [] || !IsSpace(r[0])
    ensures forall k :: 0 <= k < |s| - |r| ==> IsSpace(s[k])
  {
    if s != [] && IsSpace(s[0]) then TrimLeadingSpace(s[1..]) else s
  }

  function TrimTrailingSpace(s: string): (r: string)
    ensures HasPrefix(s, r)
    ensures r == [] || !IsSpace(r[|r| - 1])
    ensures forall k :: |r| <= k < |s| ==> IsSpace(s[k])
    decreases |s|
  {
    if s != [] && IsSpace(s[|s| - 1]) then TrimTrailingSpace(s[..|s| - 1]) else s
  }

  /** strings.TrimSpace. */
  function TrimSpace(s: string): (r: string)
    ensures r == [] || (!IsSpace(r[0]) && !IsSpace(r[|r| - 1]))
  {
    TrimTrailingSpace(TrimLeadingSpace(s))
  }

  /** strings.ContainsAny. */
  predicate ContainsAny(s: string, chars: string) {
    exists i :: 0 <= i < |s| && s[i] in chars
  }
}
