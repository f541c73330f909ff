/** The filter engine: normalisation of raw patterns at load time and the
    first-match-wins evaluation of an ordered rule list against a
    slash-separated path relative to its root. */
module Filter {
  import opened Text
  import opened Glob

  /* ---------- Normalisation (normalizeFilters) ---------- */

  // One non-empty raw pattern as it is kept: backslashes become '/', and one
  // trailing '/' is dropped unless the pattern ends in "/*".
  function NormalizeRule(f: string): (r: string)
    ensures '\\' !in r
    ensures HasPrefix(ReplaceBackslashes(f), r)
    ensures HasSuffix(ReplaceBackslashes(f), "/*") ==> r == ReplaceBackslashes(f)
    ensures !HasSuffix(ReplaceBackslashes(f), "/*") ==>
              r + (if HasSuffix(ReplaceBackslashes(f), "/") then "/" else "") == ReplaceBackslashes(f)
  {
    var g := ReplaceBackslashes(f);
    if HasSuffix(g, "/*") then g else TrimSuffix(g, "/")
  }

  /** The result of normalizeFilters on a prefix of the input: empty patterns
      are dropped, the others normalised in order. */
  function Normalized(filters: seq<string>): (r: seq<string>)
    ensures |r| <= |filters|
    ensures forall k :: 0 <= k < |r| ==> '\\' !in r[k]
  {
    if filters == [] then []
    else
      var last := filters[|filters| - 1];
      Normalized(filters[..|filters| - 1]) + (if last == "" then [] else [NormalizeRule(last)])
  }

  /** Normalising a list is normalising its parts: the rules of a + b are
      those of a followed by those of b. */
  lemma {:induction false} NormalizedConcat(a: seq<string>, b: seq<string>)
    ensures Normalized(a + b) == Normalized(a) + Normalized(b)
    decreases |b|
  {
    if b == [] {
      assert a + b == a;
    } else {
      var c := b[..|b| - 1];
      assert (a + b)[..|a + b| - 1] == a + c;
      assert (a + b)[|a + b| - 1] == b[|b| - 1];
      NormalizedConcat(a, c);
    }
  }

  /** One raw pattern: dropped when empty, normalised otherwise. With
      NormalizedConcat this determines Normalized on every list. */
  lemma NormalizedSingle(f: string)
    ensures Normalized([f]) == (if f == "" then [] else [NormalizeRule(f)])
  {
    assert [f][..0] == [];
  }

  /** normalizeFilters. */
  method NormalizeFilters(filters: seq<string>) returns (out: seq<string>)
    ensures out == Normalized(filters)
  {
    out := [];
    var i := 0;
    while i < |filters|
      invariant 0 <= i <= |filters|
      invariant out == Normalized(filters[..i])
    {
      assert filters[..i + 1][..i] == filters[..i];
      var f := filters[i];
      if f != "" {
        out := out + [NormalizeRule(f)];
      }
      i := i + 1;
    }
    assert filters[..|filters|] == filters;
  }

  /* ---------- Evaluation (checkFilter) ---------- */

  predicate IsNegated(rule: string) {
    HasPrefix(rule, "!")
  }

  /** The rule text without its negation marker. */
  function CleanRule(rule: string): string {
    TrimPrefix(rule, "!")
  }

  // Whether a rule (already stripped of '!') matches a path, by its shape:
  // "P/*" matches what lies strictly under P; "R" or "R/" matches R and
  // what lies under it; otherwise a glob tried on the path and on its last
  // element.
  predicate RuleMatches(clean: string, full: string) {
    if HasSuffix(clean, "/*") then
      var parent := clean[..|clean| - 2];
      parent != "" && HasPrefix(full, parent + "/") && full != parent
    else
      var r := TrimSuffix(clean, "/");
      (r != "" && (full == r || HasPrefix(full, r + "/")))
      || GlobMatch(r, full) || GlobMatch(r, Base(full))
  }

  /** Whether a rule of the list takes part and matches (empty rules are skipped). */
  predicate Fires(rule: string, full: string) {
    rule != "" && RuleMatches(CleanRule(rule), full)
  }

  /** For each rule, whether it fires on the path. */
  function Firing(full: string, rules: seq<string>): (flags: seq<bool>)
    ensures |flags| == |rules|
    ensures forall k :: 0 <= k < |rules| ==> flags[k] == Fires(rules[k], full)
  {
    seq(|rules|, k requires 0 <= k < |rules| => Fires(rules[k], full))
  }

  /** The loop over the rules from the first on: the first rule whose flag
      is set decides, a negated one as "not matched". */
  function FirstVerdict(rules: seq<string>, flags: seq<bool>): (r: (bool, string))
    requires |flags| == |rules|
  {
    if rules == [] then (false, "")
    else if flags[0] then (!IsNegated(rules[0]), rules[0])
    else FirstVerdict(rules[1..], flags[1..])
  }

  /** checkFilter: whether the path is matched, and the rule that decided. */
  function CheckFilter(full: string, rules: seq<string>): (r: (bool, string))
  {
    if full == "" then (false, "") else FirstVerdict(rules, Firing(full, rules))
  }

  lemma {:induction false} FirstVerdictAt(rules: seq<string>, flags: seq<bool>, i: nat)
    requires |flags| == |rules| && i < |rules| && flags[i]
    requires forall j :: 0 <= j < i ==> !flags[j]
    ensures FirstVerdict(rules, flags) == (!IsNegated(rules[i]), rules[i])
  {
    if i > 0 {
      FirstVerdictAt(rules[1..], flags[1..], i - 1);
    }
  }

  lemma {:induction false} FirstVerdictNone(rules: seq<string>, flags: seq<bool>)
    requires |flags| == |rules|
    requires forall j :: 0 <= j < |rules| ==> !flags[j]
    ensures FirstVerdict(rules, flags) == (false, "")
  {
    if rules != [] {
      FirstVerdictNone(rules[1..], flags[1..]);
    }
  }

  lemma {:induction false} FirstVerdictSound(rules: seq<string>, flags: seq<bool>)
    requires |flags| == |rules|
    ensures var r := FirstVerdict(rules, flags);
            r == (false, "") ||
            exists i :: 0 <= i < |rules| && flags[i] && r == (!IsNegated(rules[i]), rules[i])
              && forall j :: 0 <= j < i ==> !flags[j]
  {
    if rules != [] && !flags[0] {
      FirstVerdictSound(rules[1..], flags[1..]);
      var r := FirstVerdict(rules[1..], flags[1..]);
      if r != (false, "") {
        var i :| 0 <= i < |rules| - 1 && flags[1..][i] && r == (!IsNegated(rules[1..][i]), rules[1..][i])
                 && forall j :: 0 <= j < i ==> !flags[1..][j];
        assert flags[i + 1] && forall j :: 0 <= j < i + 1 ==> !flags[j];
      }
    }
  }

  /** What checkFilter reports is either "no rule matched" or the first rule
      that fires, with "matched" exactly when that rule is not negated. */
  lemma CheckFilterOutcome(full: string, rules: seq<string>)
    ensures var r := CheckFilter(full, rules);
            r == (false, "") ||
            (full != "" &&
             exists i :: (0 <= i < |rules| && Fires(rules[i], full)
                          && r == (!IsNegated(rules[i]), rules[i])
                          && forall j :: 0 <= j < i ==> !Fires(rules[j], full)))
  {
    if full != "" {
      FirstVerdictSound(rules, Firing(full, rules));
    }
  }

  /** An empty path is never matched. */
  lemma EmptyPathNeverMatches(rules: seq<string>)
    ensures CheckFilter("", rules) == (false, "")
  {
  }

  /** The first rule that fires decides the outcome, whatever follows it. */
  lemma FirstFiringRuleDecides(full: string, rules: seq<string>, i: nat)
    requires full != "" && i < |rules| && Fires(rules[i], full)
    requires forall j :: 0 <= j < i ==> !Fires(rules[j], full)
    ensures CheckFilter(full, rules) == (!IsNegated(rules[i]), rules[i])
  {
    FirstVerdictAt(rules, Firing(full, rules), i);
  }

  /** When no rule fires the path is kept, and no rule is reported. */
  lemma NoFiringRuleKeeps(full: string, rules: seq<string>)
    requires forall j :: 0 <= j < |rules| ==> !Fires(rules[j], full)
    ensures CheckFilter(full, rules) == (false, "")
  {
    if full != "" {
      FirstVerdictNone(rules, Firing(full, rules));
    }
  }

  lemma {:induction false} VerdictOfPrefix(rules: seq<string>, flags: seq<bool>,
                                           more: seq<string>, moreFlags: seq<bool>, i: nat)
    requires |flags| == |rules| && |moreFlags| == |more| && i < |rules| && flags[i]
    ensures FirstVerdict(rules + more, flags + moreFlags) == FirstVerdict(rules, flags)
  {
    if !flags[0] {
      assert (rules + more)[1..] == rules[1..] + more;
      assert (flags + moreFlags)[1..] == flags[1..] + moreFlags;
      VerdictOfPrefix(rules[1..], flags[1..], more, moreFlags, i - 1);
    }
  }

  /** Rules after one that fires are never consulted. */
  lemma LaterRulesIgnored(full: string, rules: seq<string>, more: seq<string>, i: nat)
    requires i < |rules| && Fires(rules[i], full)
    ensures CheckFilter(full, rules + more) == CheckFilter(full, rules)
  {
    if full != "" {
      var f := Firing(full, rules);
      var g := Firing(full, more);
      var h := Firing(full, rules + more);
      forall k | 0 <= k < |rules + more|
        ensures h[k] == (f + g)[k]
      {
        if k < |rules| {
          assert (rules + more)[k] == rules[k];
        } else {
          assert (rules + more)[k] == more[k - |rules|];
        }
      }
      assert h == f + g;
      VerdictOfPrefix(rules, f, more, g, i);
    }
  }

  /* ---------- The three rule shapes ---------- */

  // "P/*" with a non-empty P matches exactly the paths under P/, so never P itself.
  lemma ContentsRuleShape(parent: string, full: string)
    requires parent != ""
    ensures RuleMatches(parent + "/*", full) <==> HasPrefix(full, parent + "/")
    ensures !RuleMatches(parent + "/*", parent)
  {
    var clean := parent + "/*";
    assert HasSuffix(clean, "/*");
    assert clean[..|clean| - 2] == parent;
  }

  /** Any other rule R (after its one trailing '/' is dropped) matches R
      itself and every path under R/. */
  lemma DirectoryRuleShape(clean: string, full: string)
    requires !HasSuffix(clean, "/*") && TrimSuffix(clean, "/") != ""
    requires full == TrimSuffix(clean, "/") || HasPrefix(full, TrimSuffix(clean, "/") + "/")
    ensures RuleMatches(clean, full)
  {
  }

  /** A rule without glob metacharacters matches exactly: the path R, the
      paths under R/, and the paths whose last element is R. */
  lemma LiteralRuleShape(clean: string, full: string)
    requires !HasSuffix(clean, "/*") && full != "" && full[|full| - 1] != '/'
    requires forall i :: 0 <= i < |clean| ==> !IsMeta(clean[i])
    ensures var r := TrimSuffix(clean, "/");
            RuleMatches(clean, full) <==>
              (r != "" && (full == r || HasPrefix(full, r + "/"))) || LastSegment(full) == r
  {
    var r := TrimSuffix(clean, "/");
    assert forall i :: 0 <= i < |r| ==> r[i] == clean[i];
    LiteralMatchesItself(r, full);
    LiteralMatchesItself(r, Base(full));
    if r == "" {
      assert LastSegment(full) != "";
    }
  }

  /** A rule "*" + T with literal T (such as "*.png") matches the paths whose
      last element ends in T, and besides those only the path spelled like
      the rule and what lies under it (the directory-prefix test runs on the
      rule text first). */
  lemma StarSuffixRuleShape(lit: string, full: string)
    requires lit != [] && '/' !in lit && forall i :: 0 <= i < |lit| ==> !IsMeta(lit[i])
    requires full != "" && full[|full| - 1] != '/'
    ensures RuleMatches("*" + lit, full) <==>
              full == "*" + lit || HasPrefix(full, "*" + lit + "/") || HasSuffixAt(LastSegment(full), lit)
  {
    var clean := "*" + lit;
    assert !HasSuffix(clean, "/*") by {
      assert clean[|clean| - 1] == lit[|lit| - 1];
    }
    assert !HasSuffix(clean, "/") by {
      assert clean[|clean| - 1] == lit[|lit| - 1];
    }
    assert TrimSuffix(clean, "/") == clean;
    var last := LastSegment(full);
    assert Base(full) == last;
    StarThenLiteral(lit, full);
    StarThenLiteral(lit, last);
    assert GlobMatch(clean, last) <==> HasSuffixAt(last, lit);
    if '/' !in full {
      assert last == full;
    } else {
      assert !GlobMatch(clean, full);
    }
  }
}
