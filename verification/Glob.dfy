/** The glob matcher of the access rules: a backtracking matcher with a memo of
    failed suffix pairs, proved equal to a definition by splitting the path into
    one piece per pattern token. A `char` stands for one byte. */
module Glob {
  import opened Wrappers

  const MAX_GLOB_LEN: nat := 8192

  datatype Token = Literal(c: char) | Star | StarStar | StarStarSlash

  /** The pattern read from the left: `**` + `/`, then `**`, then `*`, then one literal. */
  ghost function Tokens(pat: string): seq<Token>
    decreases |pat|
  {
    if pat == [] then []
    else if |pat| >= 3 && pat[..3] == "**/" then [StarStarSlash] + Tokens(pat[3..])
    else if |pat| >= 2 && pat[..2] == "**" then [StarStar] + Tokens(pat[2..])
    else if pat[0] == '*' then [Star] + Tokens(pat[1..])
    else [Literal(pat[0])] + Tokens(pat[1..])
  }

  ghost predicate EndsSegment(piece: string) {
    piece == [] || piece[|piece| - 1] == '/'
  }

  /** What a token may cover when `rest` is left for the tokens after it. */
  ghost predicate Covers(t: Token, piece: string, rest: string) {
    match t
    case Literal(c) => piece == [c]
    case Star => '/' !in piece
    case StarStarSlash => EndsSegment(piece)
    case StarStar => EndsSegment(piece) || rest == []
  }

  ghost predicate Match(toks: seq<Token>, s: string)
    decreases |toks|
  {
    if toks == [] then s == []
    else exists k :: 0 <= k <= |s| && Covers(toks[0], s[..k], s[k..]) && Match(toks[1..], s[k..])
  }

  // ----------------------------------------------------------------------
  // The split reading
  // ----------------------------------------------------------------------

  ghost function Concat(pieces: seq<string>): string {
    if pieces == [] then [] else pieces[0] + Concat(pieces[1..])
  }

  /** One piece per token, together the whole path, each covered by its token. */
  ghost predicate IsSplit(toks: seq<Token>, s: string, pieces: seq<string>) {
    && |pieces| == |toks|
    && Concat(pieces) == s
    && forall i :: 0 <= i < |toks| ==> Covers(toks[i], pieces[i], Concat(pieces[i + 1..]))
  }

  lemma {:induction false} MatchHasSplit(toks: seq<Token>, s: string) returns (pieces: seq<string>)
    requires Match(toks, s)
    ensures IsSplit(toks, s, pieces)
    decreases |toks|
  {
    hide Covers;
    if toks == [] {
      pieces := [];
    } else {
      var k :| 0 <= k <= |s| && Covers(toks[0], s[..k], s[k..]) && Match(toks[1..], s[k..]);
      var rest := MatchHasSplit(toks[1..], s[k..]);
      pieces := [s[..k]] + rest;
      assert pieces[1..] == rest && s[..k] + s[k..] == s;
      forall i | 0 <= i < |toks| ensures Covers(toks[i], pieces[i], Concat(pieces[i + 1..])) {
        if i > 0 {
          assert Covers(toks[1..][i - 1], rest[i - 1], Concat(rest[i..]));
          assert rest[i..] == pieces[i + 1..];
        }
      }
    }
  }

  lemma {:induction false} SplitMatches(toks: seq<Token>, s: string, pieces: seq<string>)
    requires IsSplit(toks, s, pieces)
    ensures Match(toks, s)
    decreases |toks|
  {
    hide Covers;
    if toks != [] {
      var p, rest := pieces[0], pieces[1..];
      var k := |p|;
      assert s == p + Concat(rest);
      assert s[..k] == p && s[k..] == Concat(rest);
      assert Covers(toks[0], pieces[0], Concat(pieces[0 + 1..]));
      forall i | 0 <= i < |toks| - 1 ensures Covers(toks[1..][i], rest[i], Concat(rest[i + 1..])) {
        assert Covers(toks[i + 1], pieces[i + 1], Concat(pieces[i + 2..]));
        assert rest[i + 1..] == pieces[i + 2..];
      }
      SplitMatches(toks[1..], Concat(rest), rest);
    }
  }

  /** Matching is exactly the existence of a split. */
  lemma MatchIffSplit(toks: seq<Token>, s: string)
    ensures Match(toks, s) <==> exists pieces :: IsSplit(toks, s, pieces)
  {
    if Match(toks, s) {
      var pieces := MatchHasSplit(toks, s);
    }
    if pieces :| IsSplit(toks, s, pieces) {
      SplitMatches(toks, s, pieces);
    }
  }

  // ----------------------------------------------------------------------
  // One token at a time
  // ----------------------------------------------------------------------

  lemma MatchAt(toks: seq<Token>, s: string, k: nat)
    requires toks != [] && k <= |s| && Covers(toks[0], s[..k], s[k..]) && Match(toks[1..], s[k..])
    ensures Match(toks, s)
  {
  }

  lemma MatchCut(toks: seq<Token>, s: string) returns (k: nat)
    requires toks != [] && Match(toks, s)
    ensures k <= |s| && Covers(toks[0], s[..k], s[k..]) && Match(toks[1..], s[k..])
  {
    k :| 0 <= k <= |s| && Covers(toks[0], s[..k], s[k..]) && Match(toks[1..], s[k..]);
  }

  /** Covering nothing at all. */
  lemma MatchEmpty(toks: seq<Token>, s: string)
    requires toks != [] && Match(toks[1..], s) && Covers(toks[0], [], s)
    ensures Match(toks, s)
  {
    assert s[..0] == [] && s[0..] == s;
    MatchAt(toks, s, 0);
  }

  lemma MatchNothing(s: string)
    ensures Match([], s) <==> s == []
  {
  }

  lemma LiteralStep(toks: seq<Token>, s: string)
    requires toks != [] && toks[0].Literal?
    ensures Match(toks, s) <==> s != [] && s[0] == toks[0].c && Match(toks[1..], s[1..])
  {
    if Match(toks, s) {
      var k :| 0 <= k <= |s| && Covers(toks[0], s[..k], s[k..]) && Match(toks[1..], s[k..]);
      assert k == 1 && s[..k][0] == s[0];
    }
    if s != [] && s[0] == toks[0].c && Match(toks[1..], s[1..]) {
      assert s[..1] == [s[0]];
      MatchAt(toks, s, 1);
    }
  }

  /** The tokens match what follows some separator. */
  ghost predicate AfterSlash(toks: seq<Token>, s: string) {
    exists i :: 0 <= i < |s| && s[i] == '/' && Match(toks, s[i + 1..])
  }

  /** The tokens match what follows some separator-free prefix. */
  ghost predicate AfterPlain(toks: seq<Token>, s: string) {
    exists k :: 0 <= k <= |s| && '/' !in s[..k] && Match(toks, s[k..])
  }

  /** One more leading segment does not hurt a leading `**` + `/`. */
  lemma SlashLonger(toks: seq<Token>, s: string, i: nat)
    requires toks != [] && toks[0] == StarStarSlash && i < |s| && s[i] == '/' && Match(toks, s[i + 1..])
    ensures Match(toks, s)
  {
    hide Match;
    var t := s[i + 1..];
    var k := MatchCut(toks, t);
    assert t[k..] == s[i + 1 + k..];
    assert s[..i + 1 + k] == s[..i + 1] + t[..k];
    MatchAt(toks, s, i + 1 + k);
  }

  lemma SlashCut(toks: seq<Token>, s: string)
    requires toks != [] && toks[0] == StarStarSlash && Match(toks, s)
    ensures Match(toks[1..], s) || AfterSlash(toks, s)
  {
    hide Match;
    var k := MatchCut(toks, s);
    if k > 0 {
      MatchEmpty(toks, s[k..]);
      assert s[..k][k - 1] == s[k - 1] && s[k - 1 + 1..] == s[k..];
    } else {
      assert s[0..] == s;
    }
  }

  /** `**` + `/` covers nothing, or a first segment and then again itself. */
  lemma SlashStep(toks: seq<Token>, s: string)
    requires toks != [] && toks[0] == StarStarSlash
    ensures Match(toks, s) <==> Match(toks[1..], s) || AfterSlash(toks, s)
  {
    hide Match;
    if Match(toks, s) { SlashCut(toks, s); }
    if Match(toks[1..], s) { MatchEmpty(toks, s); }
    if i :| 0 <= i < |s| && s[i] == '/' && Match(toks, s[i + 1..]) { SlashLonger(toks, s, i); }
  }

  lemma StarsStep(toks: seq<Token>, s: string)
    requires toks != [] && toks[0] == StarStar
    ensures Match(toks, s) <==>
            || Match(toks[1..], s)
            || AfterSlash(toks[1..], s)
            || Match(toks[1..], [])
  {
    hide Match;
    if Match(toks, s) {
      var k := MatchCut(toks, s);
      if k == 0 {
        assert s[0..] == s;
      } else if k == |s| {
        assert s[|s|..] == [];
      } else {
        assert s[..k][k - 1] == s[k - 1] == '/' && s[k - 1 + 1..] == s[k..];
      }
    }
    if Match(toks[1..], s) { MatchEmpty(toks, s); }
    if i :| 0 <= i < |s| && s[i] == '/' && Match(toks[1..], s[i + 1..]) {
      assert s[..i + 1][i] == '/';
      MatchAt(toks, s, i + 1);
    }
    if Match(toks[1..], []) {
      assert s[|s|..] == [];
      MatchAt(toks, s, |s|);
    }
  }

  lemma StarStep(toks: seq<Token>, s: string)
    requires toks != [] && toks[0] == Star
    ensures Match(toks, s) <==> AfterPlain(toks[1..], s)
  {
  }

  // ----------------------------------------------------------------------
  // The memoised matcher
  // ----------------------------------------------------------------------

  type Memo = set<(nat, nat)>

  ghost predicate Suffix(x: string, whole: string) {
    |x| <= |whole| && x == whole[|whole| - |x|..]
  }

  lemma SuffixOf(x: string, whole: string, k: nat)
    requires Suffix(x, whole) && k <= |x|
    ensures Suffix(x[k..], whole)
  {
  }

  /** The memo holds only lengths of suffix pairs that truly fail. */
  ghost predicate MemoOk(pattern: string, path: string, memo: Memo) {
    forall k :: k in memo ==>
      k.0 <= |pattern| && k.1 <= |path| && !Match(Tokens(pattern[|pattern| - k.0..]), path[|path| - k.1..])
  }

  ghost predicate Grown(memo: Memo, memo': Memo, p: nat, s: int) {
    memo <= memo' && forall k :: k in memo' ==> k in memo || (k.0 <= p && k.1 <= s)
  }

  /** Two stages of growth below a bound, neither reaching the corner itself. */
  lemma GrownTwice(a: Memo, b: Memo, c: Memo, p: nat, s: nat, p1: nat, s1: int, p2: nat, s2: int)
    requires Grown(a, b, p1, s1) && Grown(b, c, p2, s2) && p1 <= p && s1 <= s && p2 <= p && s2 <= s
    ensures Grown(a, c, p, s)
    ensures (p1 < p || s1 < s) && (p2 < p || s2 < s) && (p, s) in c ==> (p, s) in a
  {
  }

  lemma GrownSelf(a: Memo, p: nat, s: int)
    ensures Grown(a, a, p, s)
  {
  }

  /** Tries the suffixes that start after a separator, in order. */
  method TrySegments(pat: string, s: string, memo0: Memo, ghost pattern: string, ghost path: string, ghost whole: nat)
    returns (hit: bool, memo: Memo, ghost fails: nat)
    requires Suffix(pat, pattern) && Suffix(s, path) && MemoOk(pattern, path, memo0)
    requires |pat| + |s| <= whole
    ensures MemoOk(pattern, path, memo) && Grown(memo0, memo, |pat|, |s| - 1)
    ensures |memo| == |memo0| + fails
    ensures hit <==> AfterSlash(Tokens(pat), s)
    decreases whole, 0
  {
    memo, fails := memo0, 0;
    for i := 0 to |s|
      invariant MemoOk(pattern, path, memo) && Grown(memo0, memo, |pat|, |s| - 1)
      invariant |memo| == |memo0| + fails
      invariant forall j :: 0 <= j < i ==> !(s[j] == '/' && Match(Tokens(pat), s[j + 1..]))
    {
      if s[i] == '/' {
        SuffixOf(s, path, i + 1);
        ghost var more;
        hit, memo, more := Matches(pat, s[i + 1..], memo, pattern, path);
        fails := fails + more;
        if hit { return; }
      }
    }
    hit := false;
  }

  /** How many characters the first token of a pattern takes, and which token it is. */
  lemma FirstToken(pat: string)
    ensures pat == [] ==> Tokens(pat) == []
    ensures pat != [] ==>
      var n := if |pat| >= 3 && pat[..3] == "**/" then 3 else if |pat| >= 2 && pat[..2] == "**" then 2 else 1;
      var t := if n == 3 then StarStarSlash else if n == 2 then StarStar else if pat[0] == '*' then Star
          else Literal(pat[0]);
      |Tokens(pat)| > 0 && Tokens(pat)[0] == t && Tokens(pat)[1..] == Tokens(pat[n..])
  {
  }

  /** The body of the matcher, run when the memo has no entry. */
  method Evaluate(pat: string, s: string, memo0: Memo, ghost pattern: string, ghost path: string)
    returns (r: bool, memo: Memo, ghost fails: nat)
    requires Suffix(pat, pattern) && Suffix(s, path) && MemoOk(pattern, path, memo0)
    ensures MemoOk(pattern, path, memo) && Grown(memo0, memo, |pat|, |s|)
    ensures (|pat|, |s|) in memo ==> (|pat|, |s|) in memo0
    ensures |memo| == |memo0| + fails
    ensures r <==> Match(Tokens(pat), s)
    decreases |pat| + |s|, 1
  {
    hide Match, MemoOk, Suffix, Tokens, AfterSlash, AfterPlain, Grown;
    memo, fails := memo0, 0;
    ghost var toks := Tokens(pat);
    FirstToken(pat);
    GrownSelf(memo0, |pat|, |s|);
    if pat == [] {
      MatchNothing(s);
      return s == [], memo, 0;
    }
    if |pat| >= 3 && pat[..3] == "**/" {
      SuffixOf(pat, pattern, 3);
      SlashStep(toks, s);
      r, memo, fails := Matches(pat[3..], s, memo, pattern, path);
      GrownSelf(memo, |pat|, |s| - 1);
      GrownTwice(memo0, memo, memo, |pat|, |s|, |pat| - 3, |s|, |pat|, |s| - 1);
      if !r {
        ghost var mid := memo;
        ghost var more;
        r, memo, more := TrySegments(pat, s, memo, pattern, path, |pat| + |s|);
        fails := fails + more;
        GrownTwice(memo0, mid, memo, |pat|, |s|, |pat| - 3, |s|, |pat|, |s| - 1);
      }
    } else if |pat| >= 2 && pat[..2] == "**" {
      SuffixOf(pat, pattern, 2);
      SuffixOf(s, path, |s|);
      StarsStep(toks, s);
      r, memo, fails := EvaluateStars(pat[2..], s, memo, pattern, path, |pat| + |s|);
      GrownSelf(memo, |pat| - 2, |s|);
      GrownTwice(memo0, memo, memo, |pat|, |s|, |pat| - 2, |s|, |pat| - 2, |s|);
    } else if pat[0] == '*' {
      SuffixOf(pat, pattern, 1);
      StarStep(toks, s);
      r, memo, fails := TryPrefixes(pat[1..], s, memo, pattern, path, |pat| + |s|);
      GrownSelf(memo, |pat| - 1, |s|);
      GrownTwice(memo0, memo, memo, |pat|, |s|, |pat| - 1, |s|, |pat| - 1, |s|);
    } else {
      LiteralStep(toks, s);
      if s != [] && pat[0] == s[0] {
        SuffixOf(pat, pattern, 1);
        SuffixOf(s, path, 1);
        r, memo, fails := Matches(pat[1..], s[1..], memo, pattern, path);
        GrownSelf(memo, |pat| - 1, |s|);
        GrownTwice(memo0, memo, memo, |pat|, |s|, |pat| - 1, |s| - 1, |pat| - 1, |s|);
      } else {
        r := false;
      }
    }
  }

  /** What follows a `**`: here, after a separator, or at the end. */
  method EvaluateStars(
    rest: string, s: string, memo0: Memo, ghost pattern: string, ghost path: string, ghost whole: nat)
    returns (r: bool, memo: Memo, ghost fails: nat)
    requires Suffix(rest, pattern) && Suffix(s, path) && MemoOk(pattern, path, memo0) && |rest| + |s| < whole
    ensures MemoOk(pattern, path, memo) && Grown(memo0, memo, |rest|, |s|)
    ensures |memo| == |memo0| + fails
    ensures r <==> Match(Tokens(rest), s) || AfterSlash(Tokens(rest), s) || Match(Tokens(rest), [])
    decreases whole, 0
  {
    hide Match, MemoOk, Suffix, Tokens, AfterSlash, Grown;
    r, memo, fails := Matches(rest, s, memo0, pattern, path);
    if !r {
      ghost var mid := memo;
      ghost var more;
      r, memo, more := TrySegments(rest, s, memo, pattern, path, |rest| + |s|);
      fails := fails + more;
      GrownTwice(memo0, mid, memo, |rest|, |s|, |rest|, |s|, |rest|, |s| - 1);
      if !r {
        mid := memo;
        SuffixOf(s, path, |s|);
        assert s[|s|..] == [];
        r, memo, more := Matches(rest, s[|s|..], memo, pattern, path);
        fails := fails + more;
        GrownTwice(memo0, mid, memo, |rest|, |s|, |rest|, |s|, |rest|, 0);
      }
    }
  }

  /** Tries ever longer separator-free prefixes for a `*`. */
  method TryPrefixes(rest: string, s: string, memo0: Memo, ghost pattern: string, ghost path: string, ghost whole: nat)
    returns (hit: bool, memo: Memo, ghost fails: nat)
    requires Suffix(rest, pattern) && Suffix(s, path) && MemoOk(pattern, path, memo0)
    requires |rest| + |s| < whole
    ensures MemoOk(pattern, path, memo) && Grown(memo0, memo, |rest|, |s|)
    ensures |memo| == |memo0| + fails
    ensures hit <==> AfterPlain(Tokens(rest), s)
    decreases whole, 0
  {
    memo, fails := memo0, 0;
    var i := 0;
    while true
      invariant 0 <= i <= |s| && '/' !in s[..i]
      invariant MemoOk(pattern, path, memo) && Grown(memo0, memo, |rest|, |s|)
      invariant |memo| == |memo0| + fails
      invariant forall k :: 0 <= k < i ==> !Match(Tokens(rest), s[k..])
      decreases |s| - i
    {
      SuffixOf(s, path, i);
      ghost var more;
      hit, memo, more := Matches(rest, s[i..], memo, pattern, path);
      fails := fails + more;
      if hit { return; }
      if i == |s| || s[i] == '/' {
        assert forall k :: i < k <= |s| ==> s[..k][i] == '/';
        return;
      }
      assert s[..i + 1] == s[..i] + [s[i]];
      i := i + 1;
    }
  }

  /** Looks the pair of suffix lengths up, evaluates it otherwise, and remembers a failure. */
  method Matches(pat: string, s: string, memo0: Memo, ghost pattern: string, ghost path: string)
    returns (r: bool, memo: Memo, ghost fails: nat)
    requires Suffix(pat, pattern) && Suffix(s, path) && MemoOk(pattern, path, memo0)
    ensures MemoOk(pattern, path, memo) && Grown(memo0, memo, |pat|, |s|)
    ensures |memo| == |memo0| + fails
    ensures r <==> Match(Tokens(pat), s)
    decreases |pat| + |s|, 2
  {
    var key := (|pat|, |s|);
    if key in memo0 {
      return false, memo0, 0;
    }
    r, memo, fails := Evaluate(pat, s, memo0, pattern, path);
    if !r {
      memo, fails := memo + {key}, fails + 1;
    }
  }

  // ----------------------------------------------------------------------
  // The entry point
  // ----------------------------------------------------------------------

  ghost function Row(a: nat, n: nat): (r: set<(nat, nat)>)
    ensures forall b: nat :: b <= n ==> (a, b) in r
    ensures |r| <= n + 1
  {
    (if n == 0 then {} else Row(a, n - 1)) + {(a, n)}
  }

  /** Every pair of suffix lengths. */
  ghost function Grid(m: nat, n: nat): (r: set<(nat, nat)>)
    ensures forall a: nat, b: nat :: a <= m && b <= n ==> (a, b) in r
    ensures |r| <= (m + 1) * (n + 1)
  {
    if m == 0 then Row(0, n) else
      assert m * (n + 1) + (n + 1) == (m + 1) * (n + 1);
      Grid(m - 1, n) + Row(m, n)
  }

  /** What a pattern means: within the length limit, and some split of the path fits its tokens. */
  ghost predicate GlobMatch(pattern: string, path: string) {
    |pattern| <= MAX_GLOB_LEN && |path| <= MAX_GLOB_LEN && exists pieces :: IsSplit(Tokens(pattern), path, pieces)
  }

  /** Over-long inputs are refused; otherwise the answer is the split semantics, and
      no more suffix pairs are evaluated to failure than there are pairs. */
  method GlobMatches(pattern: string, path: string) returns (r: bool, ghost fails: nat)
    ensures r <==> GlobMatch(pattern, path)
    ensures fails <= (|pattern| + 1) * (|path| + 1)
  {
    if |pattern| > MAX_GLOB_LEN || |path| > MAX_GLOB_LEN {
      return false, 0;
    }
    var memo;
    r, memo, fails := Matches(pattern, path, {}, pattern, path);
    MatchIffSplit(Tokens(pattern), path);
    SubsetSize(memo, Grid(|pattern|, |path|));
  }

  // ----------------------------------------------------------------------
  // What patterns mean, in terms of the path alone
  // ----------------------------------------------------------------------

  /** Characters other than `*` stand for themselves. */
  lemma {:induction false} LiteralFirst(lit: string, pat: string, s: string)
    requires '*' !in lit
    ensures Match(Tokens(lit + pat), s) <==> lit <= s && Match(Tokens(pat), s[|lit|..])
  {
    hide Match, Tokens;
    if lit == [] {
      assert lit + pat == pat && s[0..] == s;
    } else {
      var whole, rest := lit + pat, lit[1..];
      assert whole[0] == lit[0] && lit[0] in lit && whole[1..] == rest + pat;
      FirstToken(whole);
      LiteralStep(Tokens(whole), s);
      if s != [] && s[0] == lit[0] {
        LiteralFirst(rest, pat, s[1..]);
        assert lit <= s <==> rest <= s[1..] by { assert lit == [lit[0]] + rest && s == [s[0]] + s[1..]; }
        if lit <= s { assert s[1..][|rest|..] == s[|lit|..]; }
      }
    }
  }

  ghost predicate Fits(pattern: string, path: string) {
    |pattern| <= MAX_GLOB_LEN && |path| <= MAX_GLOB_LEN
  }

  lemma MatchIs(pattern: string, path: string)
    ensures GlobMatch(pattern, path) <==> Fits(pattern, path) && Match(Tokens(pattern), path)
  {
    hide Match, Tokens, IsSplit;
    MatchIffSplit(Tokens(pattern), path);
  }

  /** A pattern without `*` matches itself and nothing else. */
  lemma LiteralLaw(lit: string, path: string)
    requires '*' !in lit && Fits(lit, path)
    ensures GlobMatch(lit, path) <==> path == lit
  {
    hide Match, Tokens, GlobMatch;
    MatchIs(lit, path);
    LiteralFirst(lit, "", path);
    assert lit + "" == lit;
    FirstToken("");
    if lit <= path {
      MatchNothing(path[|lit|..]);
      assert path == lit + path[|lit|..];
    }
  }

  /** A lone `*` stands for any part of one segment. */
  lemma StarLaw(before: string, after: string, path: string)
    requires '*' !in before && '*' !in after && Fits(before + "*" + after, path)
    ensures GlobMatch(before + "*" + after, path) <==>
            exists mid: string :: '/' !in mid && path == before + mid + after
  {
    hide Match, Tokens, GlobMatch;
    var pat := "*" + after;
    assert before + "*" + after == before + pat;
    MatchIs(before + pat, path);
    LiteralFirst(before, pat, path);
    StarTail(after);
    if before <= path {
      var s := path[|before|..];
      StarStep(Tokens(pat), s);
      if AfterPlain(Tokens(pat)[1..], s) {
        var k :| 0 <= k <= |s| && '/' !in s[..k] && Match(Tokens(pat)[1..], s[k..]);
        MatchesItself(after, s[k..]);
        assert path == before + s[..k] + after;
      }
    }
    if mid: string :| '/' !in mid && path == before + mid + after {
      var s, k := path[|before|..], |mid|;
      assert s == mid + after && s[..k] == mid && s[k..] == after;
      MatchesItself(after, after);
      assert AfterPlain(Tokens(pat)[1..], s);
      StarStep(Tokens(pat), s);
    }
  }

  lemma StarTail(after: string)
    requires '*' !in after
    ensures |Tokens("*" + after)| > 0 && Tokens("*" + after)[0] == Star && Tokens("*" + after)[1..] == Tokens(after)
  {
    hide Tokens;
    var pat := "*" + after;
    assert pat[1..] == after && pat[0] == '*';
    assert |pat| >= 2 ==> pat[1] in after && pat[..2][1] == pat[1] && "**"[1] == '*';
    assert |pat| >= 3 ==> pat[..3][1] == pat[1] && "**/"[1] == '*';
    FirstToken(pat);
  }

  lemma MatchesItself(lit: string, s: string)
    requires '*' !in lit
    ensures Match(Tokens(lit), s) <==> s == lit
  {
    hide Match, Tokens;
    LiteralFirst(lit, "", s);
    assert lit + "" == lit;
    FirstToken("");
    if lit <= s {
      MatchNothing(s[|lit|..]);
      assert s == lit + s[|lit|..];
    }
  }

  /** A trailing `**` stands for any rest, separators included. */
  lemma TrailingLaw(before: string, path: string)
    requires '*' !in before && Fits(before + "**", path)
    ensures GlobMatch(before + "**", path) <==> before <= path
  {
    hide Match, Tokens, GlobMatch;
    MatchIs(before + "**", path);
    LiteralFirst(before, "**", path);
    if before <= path {
      var s := path[|before|..];
      assert "**"[..2] == "**" && "**"[2..] == "";
      FirstToken("**");
      FirstToken("");
      StarsStep(Tokens("**"), s);
      MatchNothing([]);
    }
  }

  /** `**` + `/` stands for any number of whole segments, none included. */
  lemma SegmentsLaw(before: string, after: string, path: string)
    requires '*' !in before && '*' !in after && Fits(before + "**/" + after, path)
    ensures GlobMatch(before + "**/" + after, path) <==>
            path == before + after || exists front: string :: path == before + front + "/" + after
  {
    hide Match, Tokens, GlobMatch;
    var pat := "**/" + after;
    assert before + "**/" + after == before + pat;
    MatchIs(before + pat, path);
    LiteralFirst(before, pat, path);
    if before <= path {
      assert path == before + path[|before|..];
      SegmentsTail(after, path[|before|..]);
      if path == before + after { assert path[|before|..] == after; }
      if front: string :| path == before + front + "/" + after { assert path[|before|..] == front + "/" + after; }
      if front: string :| path[|before|..] == front + "/" + after { assert path == before + front + "/" + after; }
    }
  }

  lemma SegmentsTail(after: string, s: string)
    requires '*' !in after
    ensures Match(Tokens("**/" + after), s) <==> s == after || exists front: string :: s == front + "/" + after
  {
    hide Match, Tokens;
    var pat := "**/" + after;
    assert pat[..3] == "**/" && pat[3..] == after;
    FirstToken(pat);
    var toks := Tokens(pat);
    if Match(toks, s) {
      var k := MatchCut(toks, s);
      MatchesItself(after, s[k..]);
      if k > 0 {
        assert s[..k][k - 1] == s[k - 1] == '/';
        assert s == s[..k - 1] + "/" + after;
      } else {
        assert s[0..] == s;
      }
    }
    if s == after {
      MatchesItself(after, s);
      MatchEmpty(toks, s);
    }
    if front: string :| s == front + "/" + after {
      var k := |front| + 1;
      assert s[k..] == after && s[..k] == front + "/";
      MatchesItself(after, s[k..]);
      MatchAt(toks, s, k);
    }
  }
}
