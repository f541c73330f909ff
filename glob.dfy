/** Shell-pattern matching as Go's path.Match does it: `*` matches any run of
    characters other than '/', `?` any one character other than '/',
    `[...]` a character class (`^` negates, `lo-hi` ranges, `\` escapes),
    `\c` the character c. A malformed pattern matches nothing (path.Match
    reports ErrBadPattern, which the caller reads as no match).

    The pattern is first parsed into tokens, then split into chunks at the
    stars; a chunk that follows a star is placed at the leftmost position that
    matches and that choice is never revisited, as path.Match does. Names and
    patterns are sequences of characters: where path.Match steps a star over
    single bytes, this model steps over whole characters. */
module Glob {
  import opened Wrappers

  datatype Range = Range(lo: char, hi: char)

  datatype Token =
    | Lit(c: char)
    | AnyChar
    | Star
    | Class(negated: bool, ranges: seq<Range>)

  /** A run of non-star tokens, preceded by at least one star when star holds. */
  datatype Chunk = Chunk(star: bool, body: seq<Token>)

  /** The getEsc step of a class: one range end, possibly escaped. It must
      not be '-' or ']' and must be followed by more pattern text. */
  function RangeEnd(p: string): (r: Option<(char, string)>)
    ensures r.Some? ==> |r.value.1| < |p| && r.value.1 != []
  {
    if p == [] || p[0] == '-' || p[0] == ']' then None
    else if p[0] == '\\' then
      if |p| < 3 then None else Some((p[1], p[2..]))
    else if |p| < 2 then None
    else Some((p[0], p[1..]))
  }

  /** The ranges of a class up to its closing ']' (which may not come
      first), and the pattern text after it. */
  function ParseRanges(p: string, count: nat): (r: Option<(seq<Range>, string)>)
    ensures r.Some? ==> |r.value.1| < |p|
    decreases |p|
  {
    if p != [] && p[0] == ']' && count > 0 then Some(([], p[1..]))
    else match RangeEnd(p)
      case None => None
      case Some((lo, p1)) =>
        if p1[0] == '-' then
          match RangeEnd(p1[1..])
          case None => None
          case Some((hi, p2)) =>
            (match ParseRanges(p2, count + 1)
             case None => None
             case Some((rs, rest)) => Some(([Range(lo, hi)] + rs, rest)))
        else
          match ParseRanges(p1, count + 1)
          case None => None
          case Some((rs, rest)) => Some(([Range(lo, lo)] + rs, rest))
  }

  /** The pattern as tokens, or None when it is malformed. */
  function Parse(p: string): (r: Option<seq<Token>>)
    decreases |p|
  {
    if p == [] then Some([])
    else
      var head: Option<(Token, string)> :=
        if p[0] == '*' then Some((Star, p[1..]))
        else if p[0] == '?' then Some((AnyChar, p[1..]))
        else if p[0] == '\\' then (if |p| < 2 then None else Some((Lit(p[1]), p[2..])))
        else if p[0] == '[' then
          var neg := |p| > 1 && p[1] == '^';
          match ParseRanges(if neg then p[2..] else p[1..], 0)
          case None => None
          case Some((rs, rest)) => Some((Class(neg, rs), rest))
        else Some((Lit(p[0]), p[1..]));
      match head
      case None => None
      case Some((t, rest)) =>
        match Parse(rest)
        case None => None
        case Some(ts) => Some([t] + ts)
  }

  function DropStars(t: seq<Token>): (r: seq<Token>)
    ensures |r| <= |t|
    ensures r == [] || r[0] != Star
  {
    if t != [] && t[0] == Star then DropStars(t[1..]) else t
  }

  /** The tokens before the first star. */
  function UpToStar(t: seq<Token>): (r: nat)
    ensures r <= |t|
    ensures forall k :: 0 <= k < r ==> t[k] != Star
    ensures r < |t| ==> t[r] == Star
  {
    if t == [] || t[0] == Star then 0 else 1 + UpToStar(t[1..])
  }

  /** scanChunk, applied until the pattern is used up. */
  function Chunks(t: seq<Token>): (r: seq<Chunk>)
    ensures forall i, k :: 0 <= i < |r| && 0 <= k < |r[i].body| ==> r[i].body[k] != Star
    decreases |t|
  {
    if t == [] then []
    else
      var u := DropStars(t);
      var n := UpToStar(u);
      [Chunk(t[0] == Star, u[..n])] + Chunks(u[n..])
  }

  predicate InRanges(rs: seq<Range>, c: char) {
    exists i :: 0 <= i < |rs| && rs[i].lo <= c <= rs[i].hi
  }

  /** Whether one non-star token accepts the character c. */
  predicate Accepts(t: Token, c: char) {
    match t
    case Lit(x) => c == x
    case AnyChar => c != '/'
    case Star => false
    case Class(neg, rs) => InRanges(rs, c) != neg
  }

  /** matchChunk: each token takes one character; the rest of s on success. */
  function MatchChunk(body: seq<Token>, s: string): (r: Option<string>)
    ensures r.Some? ==> |body| <= |s| && r.value == s[|body|..]
    ensures r.Some? <==> |body| <= |s| && forall k :: 0 <= k < |body| ==> Accepts(body[k], s[k])
  {
    if body == [] then Some(s)
    else if s == [] || !Accepts(body[0], s[0]) then None
    else MatchChunk(body[1..], s[1..])
  }

  /** The loop of path.Match over the chunks of the pattern. */
  predicate MatchChunks(cs: seq<Chunk>, name: string)
    decreases |cs|, |name| + 1
  {
    if cs == [] then name == []
    else if cs[0].star && cs[0].body == [] then '/' !in name
    else
      var here := MatchChunk(cs[0].body, name);
      if here.Some? && (here.value == [] || |cs| > 1) then MatchChunks(cs[1..], here.value)
      else cs[0].star && SkipThenMatch(cs[0].body, cs[1..], name, 0)
  }

  /** A star before body: try body after skipping i + 1 characters, never
      skipping a '/'; the first position that works is committed to. */
  predicate SkipThenMatch(body: seq<Token>, rest: seq<Chunk>, name: string, i: nat)
    decreases |rest| + 1, |name| - i
  {
    if i >= |name| || name[i] == '/' then false
    else
      var there := MatchChunk(body, name[i + 1..]);
      if there.Some? && !(rest == [] && there.value != []) then MatchChunks(rest, there.value)
      else SkipThenMatch(body, rest, name, i + 1)
  }

  /** path.Match(pattern, name) with its error read as "no match". */
  predicate GlobMatch(pattern: string, name: string) {
    match Parse(pattern)
    case None => false
    case Some(t) => MatchChunks(Chunks(t), name)
  }

  predicate IsMeta(c: char) {
    c == '*' || c == '?' || c == '[' || c == '\\'
  }

  /** The tokens of a pattern that has no metacharacters. */
  function Lits(p: string): (r: seq<Token>)
    ensures |r| == |p| && forall k :: 0 <= k < |p| ==> r[k] == Lit(p[k])
  {
    if p == [] then [] else [Lit(p[0])] + Lits(p[1..])
  }

  /** A pattern without metacharacters parses to its own characters. */
  lemma {:induction false} ParseLiteral(p: string)
    requires forall i :: 0 <= i < |p| ==> !IsMeta(p[i])
    ensures Parse(p) == Some(Lits(p))
    decreases |p|
  {
    if p != [] {
      assert !IsMeta(p[0]);
      ParseLiteral(p[1..]);
    }
  }

  lemma {:induction false} LitsHaveNoStar(t: seq<Token>)
    requires forall k :: 0 <= k < |t| ==> t[k].Lit?
    ensures UpToStar(t) == |t|
  {
    if t != [] {
      LitsHaveNoStar(t[1..]);
    }
  }

  /** A pattern without metacharacters matches exactly the one name that is
      spelled the same. */
  lemma LiteralMatchesItself(p: string, name: string)
    requires forall i :: 0 <= i < |p| ==> !IsMeta(p[i])
    ensures GlobMatch(p, name) <==> name == p
  {
    ParseLiteral(p);
    var t := Lits(p);
    if p != [] {
      assert DropStars(t) == t;
      LitsHaveNoStar(t);
      assert t[0] == Lit(p[0]);
      assert t[..|t|] == t && t[|t|..] == [];
      assert Chunks(t) == [Chunk(false, t)] + Chunks([]);
      var here := MatchChunk(t, name);
      if name == p {
        assert name[|t|..] == [];
        assert here == Some([]);
        assert MatchChunks([Chunk(false, t)], name);
      } else if here.Some? {
        assert name[..|p|] == p;
        assert here.value != [];
      }
    }
  }

  lemma MatchLits(lit: string, s: string)
    ensures MatchChunk(Lits(lit), s) == Some([]) <==> s == lit
  {
    if s == lit {
      assert s[|lit|..] == [];
    }
  }

  /** After a star at position i, the literal tail is found iff it ends the
      name and no '/' lies between i and the end. */
  lemma {:induction false} SkipToLiteralTail(lit: string, name: string, i: nat)
    requires lit != [] && '/' !in lit
    requires i <= |name|
    ensures SkipThenMatch(Lits(lit), [], name, i) <==>
              (i < |name| - |lit| && HasSuffixAt(name, lit) && '/' !in name[i..])
    decreases |name| - i
  {
    if i < |name| && name[i] != '/' {
      MatchLits(lit, name[i + 1..]);
      var there := MatchChunk(Lits(lit), name[i + 1..]);
      if name[i + 1..] == lit {
        assert name[|name| - |lit|..] == lit;
        assert name[i..] == [name[i]] + lit;
      } else {
        if there.Some? {
          assert there.value != [];
        }
        SkipToLiteralTail(lit, name, i + 1);
        assert name[i..] == [name[i]] + name[i + 1..];
      }
    } else if i < |name| {
      assert name[i..][0] == '/';
    }
  }

  predicate HasSuffixAt(name: string, lit: string) {
    |lit| <= |name| && name[|name| - |lit|..] == lit
  }

  /** "*" followed by literal text (such as "*.png") matches exactly the
      names without '/' that end in that text. */
  lemma StarThenLiteral(lit: string, name: string)
    requires lit != [] && '/' !in lit
    requires forall i :: 0 <= i < |lit| ==> !IsMeta(lit[i])
    ensures GlobMatch("*" + lit, name) <==> '/' !in name && HasSuffixAt(name, lit)
  {
    var p := "*" + lit;
    ParseLiteral(lit);
    assert p[1..] == lit;
    assert Parse(p) == Some([Star] + Lits(lit));
    var t := [Star] + Lits(lit);
    assert t[1..] == Lits(lit);
    assert DropStars(t) == Lits(lit);
    LitsHaveNoStar(Lits(lit));
    var u := Lits(lit);
    assert u[..|u|] == u && u[|u|..] == [];
    assert Chunks(t) == [Chunk(true, u)] + Chunks([]);
    MatchLits(lit, name);
    SkipToLiteralTail(lit, name, 0);
    var cs := [Chunk(true, u)];
    assert cs[1..] == [];
    var here := MatchChunk(u, name);
    assert name[0..] == name;
    if name == lit {
      assert here == Some([]);
      assert MatchChunks(cs, name);
    } else {
      assert here.Some? ==> here.value != [];
      assert MatchChunks(cs, name) == SkipThenMatch(u, [], name, 0);
    }
  }
}
