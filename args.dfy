/** The list-valued command-line flags and the pattern-file line filter:
    multiValue splits each value on white space, rawStringList keeps each
    value whole, leftover arguments are sorted into directories and
    patterns, and a pattern file keeps its trimmed, non-comment lines. */
module Args {
  import opened Text

  /* ---------- strings.Fields ---------- */

  /** A field: a non-empty run of non-space characters. */
  predicate IsField(s: string) {
    s != [] && forall k :: 0 <= k < |s| ==> !IsSpace(s[k])
  }

  /** The length of the run of non-space characters s starts with. */
  function RunLength(s: string): (n: nat)
    ensures n <= |s|
    ensures forall k :: 0 <= k < n ==> !IsSpace(s[k])
    ensures n == |s| || IsSpace(s[n])
  {
    if s == [] || IsSpace(s[0]) then 0 else 1 + RunLength(s[1..])
  }

  /** strings.Fields: the maximal runs of non-space characters, in order. */
  function Fields(s: string): (r: seq<string>)
    ensures forall i :: 0 <= i < |r| ==> IsField(r[i])
    decreases |s|
  {
    if s == [] then []
    else if IsSpace(s[0]) then Fields(s[1..])
    else
      var n := RunLength(s);
      [s[..n]] + Fields(s[n..])
  }

  /** The fields joined by single spaces. */
  function JoinSpace(xs: seq<string>): string {
    if xs == [] then ""
    else if |xs| == 1 then xs[0]
    else xs[0] + " " + JoinSpace(xs[1..])
  }

  lemma {:induction false} RunLengthOfField(x: string, rest: string)
    requires IsField(x)
    ensures RunLength(x + rest) == |x| + RunLength(rest)
    decreases |x|
  {
    assert (x + rest)[0] == x[0];
    if |x| == 1 {
      assert (x + rest)[1..] == rest;
    } else {
      assert (x + rest)[1..] == x[1..] + rest;
      RunLengthOfField(x[1..], rest);
    }
  }

  /** Splitting fields joined by spaces gives the fields back. */
  lemma {:induction false} FieldsOfJoin(xs: seq<string>)
    requires forall i :: 0 <= i < |xs| ==> IsField(xs[i])
    ensures Fields(JoinSpace(xs)) == xs
  {
    if xs == [] {
    } else if |xs| == 1 {
      RunLengthOfField(xs[0], "");
      assert xs[0] + "" == xs[0];
      assert xs[0][..|xs[0]|] == xs[0] && xs[0][|xs[0]|..] == "";
    } else {
      var s := xs[0] + " " + JoinSpace(xs[1..]);
      var tail := " " + JoinSpace(xs[1..]);
      assert s == xs[0] + tail;
      RunLengthOfField(xs[0], tail);
      assert RunLength(tail) == 0;
      assert s[0] == xs[0][0];
      assert s[..|xs[0]|] == xs[0] && s[|xs[0]|..] == tail;
      assert tail[1..] == JoinSpace(xs[1..]);
      FieldsOfJoin(xs[1..]);
      assert Fields(s) == [xs[0]] + Fields(tail);
      assert xs == [xs[0]] + xs[1..];
    }
  }

  /* ---------- The list-valued flags ---------- */

  /** multiValue: a flag given several times or with several values in
      one argument ("--filter '*.png *.jpg'"). */
  class MultiValue {
    var values: seq<string>

    /** Every stored value is one field. */
    ghost predicate Valid()
      reads this
    {
      forall i :: 0 <= i < |values| ==> IsField(values[i])
    }

    constructor()
      ensures values == [] && Valid()
    {
      values := [];
    }

    /** Set: appends the fields of s; an empty s adds nothing. */
    method Set(s: string)
      modifies this
      ensures values == old(values) + Fields(s)
      ensures old(Valid()) ==> Valid()
    {
      if s == "" {
        return;
      }
      values := values + Fields(s);
    }
  }

  /** rawStringList: the directory arguments, each kept whole (a name with
      spaces stays one directory). */
  class RawStringList {
    var values: seq<string>

    /** No stored value is empty. */
    ghost predicate Valid()
      reads this
    {
      forall i :: 0 <= i < |values| ==> values[i] != ""
    }

    constructor()
      ensures values == [] && Valid()
    {
      values := [];
    }

    /** Set: appends s unless it is empty. */
    method Set(s: string)
      modifies this
      ensures s == "" ==> values == old(values)
      ensures s != "" ==> values == old(values) + [s]
      ensures old(Valid()) ==> Valid()
    {
      if s == "" {
        return;
      }
      values := values + [s];
    }
  }

  /* ---------- Leftover arguments ---------- */

  /** An argument that is not a flag is a pattern when it is negated or
      holds a glob character. */
  predicate IsPatternArgument(arg: string) {
    HasPrefix(arg, "!") || ContainsAny(arg, "*?[]")
  }

  /** The directories among the leftover arguments, in order. */
  function DirArguments(args: seq<string>): (r: seq<string>)
    ensures forall i :: 0 <= i < |r| ==> r[i] != "" && !IsPatternArgument(r[i]) && r[i] in args
  {
    if args == [] then []
    else
      var last := args[|args| - 1];
      DirArguments(args[..|args| - 1]) + (if last == "" || IsPatternArgument(last) then [] else [last])
  }

  /** The patterns among the leftover arguments, split into fields. */
  function PatternArguments(args: seq<string>): (r: seq<string>)
    ensures forall i :: 0 <= i < |r| ==> IsField(r[i])
  {
    if args == [] then []
    else
      var last := args[|args| - 1];
      PatternArguments(args[..|args| - 1]) + (if IsPatternArgument(last) then Fields(last) else [])
  }

  /** Every non-empty argument that is not a pattern becomes a directory. */
  lemma {:induction false} EveryPlainArgumentIsDir(args: seq<string>, i: nat)
    requires i < |args| && args[i] != "" && !IsPatternArgument(args[i])
    ensures args[i] in DirArguments(args)
  {
    if i < |args| - 1 {
      assert args[..|args| - 1][i] == args[i];
      EveryPlainArgumentIsDir(args[..|args| - 1], i);
    }
  }

  /** The leftover loop of the command-line parser: patterns go to the
      soft filters, everything else to the directories. */
  method SortLeftover(leftover: seq<string>, dirs: RawStringList, soft: MultiValue)
    modifies dirs, soft
    ensures dirs.values == old(dirs.values) + DirArguments(leftover)
    ensures soft.values == old(soft.values) + PatternArguments(leftover)
  {
    var i := 0;
    while i < |leftover|
      invariant 0 <= i <= |leftover|
      invariant dirs.values == old(dirs.values) + DirArguments(leftover[..i])
      invariant soft.values == old(soft.values) + PatternArguments(leftover[..i])
    {
      var arg := leftover[i];
      assert leftover[..i + 1][..i] == leftover[..i];
      if IsPatternArgument(arg) {
        soft.Set(arg);
      } else {
        dirs.Set(arg);
      }
      i := i + 1;
    }
    assert leftover[..i] == leftover;
  }

  /* ---------- Pattern files (loadPatternsFromFile) ---------- */

  /** A line that carries a pattern: non-empty once trimmed and not a
      '#' comment. */
  predicate IsPatternLine(line: string) {
    var t := TrimSpace(line);
    t != "" && !HasPrefix(t, "#")
  }

  /** The patterns of a file: its pattern lines, trimmed, in order. */
  function PatternLines(lines: seq<string>): (r: seq<string>)
    ensures |r| <= |lines|
    ensures forall i :: 0 <= i < |r| ==>
              (r[i] != "" && !HasPrefix(r[i], "#") && !IsSpace(r[i][0]) && !IsSpace(r[i][|r[i]| - 1]))
  {
    if lines == [] then []
    else
      var last := lines[|lines| - 1];
      PatternLines(lines[..|lines| - 1]) + (if IsPatternLine(last) then [TrimSpace(last)] else [])
  }

  /** The scanner loop of loadPatternsFromFile. */
  method LoadPatterns(lines: seq<string>) returns (patterns: seq<string>)
    ensures patterns == PatternLines(lines)
  {
    patterns := [];
    var i := 0;
    while i < |lines|
      invariant 0 <= i <= |lines|
      invariant patterns == PatternLines(lines[..i])
    {
      var line := TrimSpace(lines[i]);
      assert lines[..i + 1][..i] == lines[..i];
      if line == "" {
        i := i + 1;
        continue;
      }
      if HasPrefix(line, "#") {
        i := i + 1;
        continue;
      }
      patterns := patterns + [line];
      i := i + 1;
    }
    assert lines[..i] == lines;
  }

  /** A trimmed string trims to itself. */
  lemma TrimSpaceFixed(s: string)
    requires s != [] && !IsSpace(s[0]) && !IsSpace(s[|s| - 1])
    ensures TrimSpace(s) == s
  {
  }

  /** Every pattern line is kept, trimmed. */
  lemma {:induction false} PatternLineKept(lines: seq<string>, i: nat)
    requires i < |lines| && IsPatternLine(lines[i])
    ensures TrimSpace(lines[i]) in PatternLines(lines)
  {
    if i < |lines| - 1 {
      assert lines[..|lines| - 1][i] == lines[i];
      PatternLineKept(lines[..|lines| - 1], i);
    }
  }

  /** Writing the loaded patterns back one per line and loading them again
      gives the same patterns. */
  lemma {:induction false} PatternLinesIdempotent(lines: seq<string>)
    ensures PatternLines(PatternLines(lines)) == PatternLines(lines)
  {
    if lines != [] {
      var init := PatternLines(lines[..|lines| - 1]);
      PatternLinesIdempotent(lines[..|lines| - 1]);
      var last := lines[|lines| - 1];
      if IsPatternLine(last) {
        var t := TrimSpace(last);
        TrimSpaceFixed(t);
        var r := init + [t];
        assert r[..|r| - 1] == init && r[|r| - 1] == t;
        assert IsPatternLine(t);
        assert PatternLines(r) == PatternLines(init) + [t];
      } else {
        assert PatternLines(lines) == init + [] == init;
      }
    }
  }
}
