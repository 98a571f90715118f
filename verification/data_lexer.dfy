/** The tokenizer of the literal-data language (main.py:4-21, 260-291).

    At each offset it first skips a run of blanks, newlines and `#` comments,
    then tries the patterns of the token-definition table in table order; the
    first pattern that matches wins, whether or not a later one would match a
    longer text. Each pattern is a hand-written matcher that returns the
    length of the text the regular expression would match there (0 for no
    match). */
module DataLexer {
  import opened Results
  import opened Decimal
  import opened DataTokens
  import opened DataPatterns

  /** No pattern matched at this offset. */
  datatype LexError = LexError(pos: nat)

  // ---------------------------------------------------------------------
  // Skipping: `(( |\t|\n)|\#.*)+`

  predicate IsSkipStart(c: char) {
    c == ' ' || c == '\t' || c == '\n' || c == '#'
  }

  /** The texts the skip pattern accepts, read by a two-state automaton:
      outside a comment only blanks, newlines and `#` may occur; inside a
      comment anything but a newline continues it. */
  predicate IsSkipText(t: string, inComment: bool)
    decreases |t|
  {
    if |t| == 0 then true
    else if inComment && t[0] != '\n' then IsSkipText(t[1..], true)
    else if t[0] == ' ' || t[0] == '\t' || t[0] == '\n' then IsSkipText(t[1..], false)
    else if t[0] == '#' then IsSkipText(t[1..], true)
    else false
  }

  lemma {:induction false} SkipTextInComment(t: string)
    requires IsSkipText(t, false)
    ensures IsSkipText(t, true)
    decreases |t|
  {
    if |t| > 0 && t[0] != '\n' {
      if t[0] == '#' {
      } else {
        SkipTextInComment(t[1..]);
      }
    }
  }

  /** The first newline at or after `i`, or the end of the text: where `.*` stops. */
  function LineEnd(s: string, i: nat): (j: nat)
    requires i <= |s|
    ensures i <= j <= |s|
    ensures forall k :: i <= k < j ==> s[k] != '\n'
    ensures j == |s| || s[j] == '\n'
    decreases |s| - i
  {
    if i == |s| || s[i] == '\n' then i else LineEnd(s, i + 1)
  }

  lemma {:induction false} CommentIsSkipText(s: string, i: nat, j: nat, k: nat)
    requires i <= j <= k <= |s|
    requires forall m :: i <= m < j ==> s[m] != '\n'
    requires IsSkipText(s[j..k], true)
    ensures IsSkipText(s[i..k], true)
    decreases j - i
  {
    if i < j {
      assert s[i..k][1..] == s[i + 1..k];
      CommentIsSkipText(s, i + 1, j, k);
    }
  }

  /** Where the skip pattern, matched greedily at `i`, ends. The skipped text
      is skip text, and the character after it cannot start more of it. */
  function SkipEnd(s: string, i: nat): (j: nat)
    requires i <= |s|
    ensures i <= j <= |s|
    ensures IsSkipText(s[i..j], false)
    ensures j == |s| || !IsSkipStart(s[j])
    decreases |s| - i
  {
    if i == |s| then i
    else if s[i] == ' ' || s[i] == '\t' || s[i] == '\n' then
      var j := SkipEnd(s, i + 1);
      assert s[i..j][1..] == s[i + 1..j];
      j
    else if s[i] == '#' then
      var e := LineEnd(s, i + 1);
      var j := SkipEnd(s, e);
      SkipTextInComment(s[e..j]);
      CommentIsSkipText(s, i + 1, e, j);
      assert s[i..j][1..] == s[i + 1..j];
      j
    else i
  }

  /** The skip pattern is greedy: no skip text starting at `i` ends after `SkipEnd(s, i)`. */
  lemma {:induction false} SkipEndIsLongest(s: string, i: nat, e: nat)
    requires i <= e <= |s|
    requires IsSkipText(s[i..e], false)
    ensures e <= SkipEnd(s, i)
    decreases e - i
  {
    if i < e {
      assert s[i..e][1..] == s[i + 1..e];
      if s[i] == '#' {
        CommentIsLongest(s, i + 1, e);
      } else {
        SkipEndIsLongest(s, i + 1, e);
      }
    }
  }

  /** Inside a comment the skip text runs at most to the end of the line and
      then on as skip text after the newline. */
  lemma {:induction false} CommentIsLongest(s: string, i: nat, e: nat)
    requires i <= e <= |s|
    requires IsSkipText(s[i..e], true)
    ensures e <= SkipEnd(s, LineEnd(s, i))
    decreases e - i
  {
    if i < e {
      assert s[i..e][1..] == s[i + 1..e];
      if s[i] == '\n' {
        SkipEndIsLongest(s, i + 1, e);
      } else {
        CommentIsLongest(s, i + 1, e);
      }
    }
  }

  /** `s[i..e]` is the text the skip pattern matches at `i`: skip text that
      no longer skip text extends. */
  predicate IsLongestSkip(s: string, i: nat, e: nat) {
    && i <= e <= |s|
    && IsSkipText(s[i..e], false)
    && forall e' :: e < e' <= |s| ==> !IsSkipText(s[i..e'], false)
  }

  lemma {:induction false} SkipEndIsLongestSkip(s: string, i: nat, e: nat)
    requires i <= |s|
    ensures IsLongestSkip(s, i, e) <==> e == SkipEnd(s, i)
  {
    forall e' | SkipEnd(s, i) < e' <= |s|
      ensures !IsSkipText(s[i..e'], false)
    {
      if IsSkipText(s[i..e'], false) {
        SkipEndIsLongest(s, i, e');
      }
    }
    if IsLongestSkip(s, i, e) {
      SkipEndIsLongest(s, i, e);
    }
  }

  // ---------------------------------------------------------------------
  // The first matching pattern

  /** The winning pattern at an offset and the length of its match. */
  datatype Hit = Hit(kind: TokenKind, len: nat)

  /** Tries the patterns of the table from position `r` on, in order. */
  function FirstMatchFrom(s: string, i: nat, r: nat): (h: Option<Hit>)
    requires i <= |s|
    requires r <= |Definitions|
    ensures h.Some? ==> 0 < h.value.len && i + h.value.len <= |s|
    decreases |Definitions| - r
  {
    if r == |Definitions| then None
    else
      var n := MatchLen(Definitions[r], s, i);
      if n > 0 then Some(Hit(Definitions[r], n)) else FirstMatchFrom(s, i, r + 1)
  }

  /** When `FirstMatchFrom` finds a pattern from position `r` on, it is the
      first one there whose matcher succeeds, with the matcher's length. */
  lemma {:induction false} FirstMatchFromIsFirst(s: string, i: nat, r: nat)
    requires i <= |s|
    requires r <= |Definitions|
    ensures var h := FirstMatchFrom(s, i, r);
      h.Some? ==>
        && r <= Rank(h.value.kind)
        && h.value.len == MatchLen(h.value.kind, s, i)
        && forall q :: r <= q < Rank(h.value.kind) ==> MatchLen(Definitions[q], s, i) == 0
    decreases |Definitions| - r
  {
    if r < |Definitions| {
      DefinitionsListEachKindOnce();
      assert Rank(Definitions[r]) == r;
      FirstMatchFromIsFirst(s, i, r + 1);
    }
  }

  /** When `FirstMatchFrom` finds nothing, every matcher from position `r` on fails. */
  lemma {:induction false} FirstMatchFromNone(s: string, i: nat, r: nat)
    requires i <= |s|
    requires r <= |Definitions|
    ensures FirstMatchFrom(s, i, r).None? ==>
      forall q :: r <= q < |Definitions| ==> MatchLen(Definitions[q], s, i) == 0
    decreases |Definitions| - r
  {
    if r < |Definitions| {
      FirstMatchFromNone(s, i, r + 1);
    }
  }

  /** The first pattern of the table that matches at `i`, with its match. */
  function FirstMatch(s: string, i: nat): Option<Hit>
    requires i <= |s|
  {
    FirstMatchFrom(s, i, 0)
  }

  /** The tokenizer's choice is the regular-expression semantics: the first
      pattern in table order that matches, with the text it matches; and
      when it finds none, no pattern matches at all. */
  lemma {:induction false} FirstMatchIsFirstLongest(s: string, i: nat)
    requires i <= |s|
    ensures var h := FirstMatch(s, i);
      && (h.Some? ==> FirstLongestAt(s, i, h.value.kind, i + h.value.len))
      && (h.None? ==> forall k, j: nat :: !MatchesAt(k, s, i, j))
  {
    var h := FirstMatch(s, i);
    FirstMatchFromIsFirst(s, i, 0);
    FirstMatchFromNone(s, i, 0);
    if h.Some? {
      var k := h.value.kind;
      NoMatchBefore(s, i, Rank(k));
      MatchLenIsMatch(k, s, i);
      forall j: nat | MatchesAt(k, s, i, j)
        ensures j <= i + h.value.len
      {
        MatchLenIsLongest(k, s, i, j);
      }
    } else {
      NoMatchBefore(s, i, |Definitions|);
    }
  }

  /** A pattern whose matcher returns 0 does not match at all. */
  lemma {:induction false} NoMatchBefore(s: string, i: nat, r: nat)
    requires i <= |s|
    requires r <= |Definitions|
    requires forall q :: 0 <= q < r ==> MatchLen(Definitions[q], s, i) == 0
    ensures forall k, j: nat :: Rank(k) < r ==> !MatchesAt(k, s, i, j)
  {
    forall k, j | Rank(k) < r
      ensures !MatchesAt(k, s, i, j)
    {
      assert MatchLen(Definitions[Rank(k)], s, i) == 0;
      MatchLenIsLongest(k, s, i, j);
    }
  }

  /** Regular-expression semantics of one step of the tokenizer: at `i`, `k`
      is the first kind of the table whose pattern matches, and `s[i..j]` is
      the text that pattern matches. */
  ghost predicate FirstLongestAt(s: string, i: nat, k: TokenKind, j: nat) {
    && MatchesAt(k, s, i, j)
    && (forall j': nat :: MatchesAt(k, s, i, j') ==> j' <= j)
    && (forall k', j': nat :: Rank(k') < Rank(k) ==> !MatchesAt(k', s, i, j'))
  }

  /** At most one kind and one end are the first longest match at an offset. */
  lemma {:induction false} FirstLongestIsUnique(s: string, i: nat, k: TokenKind, j: nat, k': TokenKind, j': nat)
    requires FirstLongestAt(s, i, k, j) && FirstLongestAt(s, i, k', j')
    ensures k == k' && j == j'
  {
    assert Rank(k) == Rank(k');
  }

  // ---------------------------------------------------------------------
  // The token stream

  /** No pattern of the table matches at `p`. */
  ghost predicate Stuck(s: string, p: nat) {
    p < |s| && forall k, j: nat :: !MatchesAt(k, s, p, j)
  }

  /** Where the scanner stands after producing `ts` (before skipping). */
  function End(ts: seq<Token>): nat {
    if |ts| == 0 then 0 else ts[|ts| - 1].loc
  }

  /** Token-by-token description of a scan of `s` from its start: each token
      follows the scan of the tokens before it. */
  ghost predicate Scans(s: string, ts: seq<Token>)
    decreases |ts|, 0
  {
    |ts| == 0 || Follows(s, ts[..|ts| - 1], ts[|ts| - 1])
  }

  /** `t` is the token scanned after `ts`: from where `ts` ends, the skip text
      takes the scanner to the start of `t`, and `t` is the first longest
      match there, taken verbatim, recording the offset just past its text. */
  ghost predicate Follows(s: string, ts: seq<Token>, t: Token)
    decreases |ts|, 1
  {
    var start := t.loc - |t.lexeme|;
    && Scans(s, ts)
    && 0 <= start
    && IsLongestSkip(s, End(ts), start)
    && FirstLongestAt(s, start, t.kind, t.loc)
    && t.lexeme == s[start..t.loc]
  }

  /** `ts` is the whole tokenization of `s`: only skip text follows it. */
  ghost predicate Lexes(s: string, ts: seq<Token>) {
    Scans(s, ts) && IsLongestSkip(s, End(ts), |s|)
  }

  /** After `ts` and the skip text after it, the scanner reaches `p`, where no
      pattern matches. */
  ghost predicate FailsAt(s: string, ts: seq<Token>, p: nat) {
    Scans(s, ts) && IsLongestSkip(s, End(ts), p) && Stuck(s, p)
  }

  /** A token that follows a scan extends it at the back. */
  lemma {:induction false} ScansExtend(s: string, ts: seq<Token>, t: Token)
    requires Follows(s, ts, t)
    ensures Scans(s, ts + [t]) && End(ts + [t]) == t.loc
  {
    assert (ts + [t])[..|ts|] == ts;
  }

  /** One pass over the table at `p`: the first pattern that matches, with
      its match, or `None` when no pattern matches at all. */
  method FirstPattern(s: string, p: nat) returns (h: Option<Hit>)
    requires p <= |s|
    ensures h.Some? ==> FirstLongestAt(s, p, h.value.kind, p + h.value.len)
    ensures h.None? ==> forall k, j: nat :: !MatchesAt(k, s, p, j)
  {
    h := FirstMatch(s, p);
    FirstMatchIsFirstLongest(s, p);
  }

  /** The token found at `p`, where the skip text after the scan `ts` ends,
      or `None` when no pattern matches there. */
  method NextToken(s: string, ghost ts: seq<Token>, p: nat) returns (t: Option<Token>)
    requires Scans(s, ts) && IsLongestSkip(s, End(ts), p) && p < |s|
    ensures t.Some? ==> Follows(s, ts, t.value) && p < t.value.loc <= |s|
    ensures t.None? ==> Stuck(s, p)
  {
    var h := FirstPattern(s, p);
    if h.None? {
      return None;
    }
    var n := h.value.len;
    t := Some(Token(h.value.kind, s[p..p + n], p + n));
    assert |t.value.lexeme| == n;
  }

  /** The tokenizer: repeatedly skip, stop at the end of the text, otherwise
      take the first pattern that matches and record its token; when none
      matches, fail at that offset. A final EOF token sits one past the end.
      The result is the tokenization `Lexes` describes, or the offset
      `FailsAt` describes; both are unique (`LexesIsUnique`, `FailureIsUnique`). */
  method Tokenize(s: string) returns (r: Result<seq<Token>, LexError>)
    ensures r.Ok? ==> && |r.value| > 0
                      && r.value[|r.value| - 1] == Token(EOF, "<EOF>", |s| + 1)
                      && Lexes(s, r.value[..|r.value| - 1])
    ensures r.Err? ==> exists ts :: FailsAt(s, ts, r.error.pos)
  {
    var toks: seq<Token> := [];
    var loc: nat := 0;
    while loc < |s|
      invariant loc <= |s|
      invariant Scans(s, toks) && End(toks) == loc
      decreases |s| - loc
    {
      var p := SkipEnd(s, loc);
      SkipEndIsLongestSkip(s, loc, p);
      if p >= |s| {
        loc := p;
        break;
      }
      var t := NextToken(s, toks, p);
      if t.None? {
        assert FailsAt(s, toks, p);
        return Err(LexError(p));
      }
      ScansExtend(s, toks, t.value);
      toks := toks + [t.value];
      loc := t.value.loc;
    }
    SkipEndIsLongestSkip(s, End(toks), |s|);
    r := Ok(toks + [Token(EOF, "<EOF>", loc + 1)]);
    assert r.value[..|r.value| - 1] == toks;
  }

  // ---------------------------------------------------------------------
  // Uniqueness of the tokenization

  lemma {:induction false} ScansPrefix(s: string, ts: seq<Token>, n: nat)
    requires Scans(s, ts)
    requires n <= |ts|
    ensures Scans(s, ts[..n])
    decreases |ts| - n
  {
    if n < |ts| {
      var init := ts[..|ts| - 1];
      ScansPrefix(s, init, n);
      assert init[..n] == ts[..n];
    } else {
      assert ts[..n] == ts;
    }
  }

  /** Each token of a scan follows the scan of the tokens before it. */
  lemma {:induction false} ScansAt(s: string, ts: seq<Token>, n: nat)
    requires Scans(s, ts)
    requires n < |ts|
    ensures Follows(s, ts[..n], ts[n]) && Scans(s, ts[..n])
  {
    var v := ts[..n + 1];
    ScansPrefix(s, ts, n + 1);
    assert v[..n] == ts[..n] && v[n] == ts[n];
  }

  /** After a given scan, one token at most can be scanned next. */
  lemma {:induction false} FollowsIsDetermined(s: string, ts: seq<Token>, t: Token, u: Token)
    requires Follows(s, ts, t) && Follows(s, ts, u)
    ensures t == u
  {
    var a, b := t.loc - |t.lexeme|, u.loc - |u.lexeme|;
    SkipEndIsLongestSkip(s, End(ts), a);
    SkipEndIsLongestSkip(s, End(ts), b);
    FirstLongestIsUnique(s, a, t.kind, t.loc, u.kind, u.loc);
  }

  /** Two scans with the same number of tokens are the same scan: each token
      is fixed by where the previous one ended. */
  lemma {:induction false} ScansAreDetermined(s: string, ts: seq<Token>, us: seq<Token>)
    requires Scans(s, ts) && Scans(s, us)
    requires |ts| == |us|
    ensures ts == us
    decreases |ts|
  {
    if |ts| > 0 {
      var n := |ts|;
      ScansAreDetermined(s, ts[..n - 1], us[..n - 1]);
      FollowsIsDetermined(s, ts[..n - 1], ts[n - 1], us[n - 1]);
      assert ts == ts[..n - 1] + [ts[n - 1]];
      assert us == us[..n - 1] + [us[n - 1]];
    }
  }

  /** When the scanner stands at `p` after the scan `ts`, a longer scan goes
      on with a token that follows `ts` and starts at `p`. */
  lemma {:induction false} NextTokenStart(s: string, ts: seq<Token>, p: nat, us: seq<Token>)
    requires Scans(s, ts) && IsLongestSkip(s, End(ts), p)
    requires Scans(s, us)
    ensures |us| > |ts| ==> Follows(s, ts, us[|ts|]) && us[|ts|].loc - |us[|ts|].lexeme| == p
  {
    if |us| > |ts| {
      var n := |ts|;
      ScansAt(s, us, n);
      ScansAreDetermined(s, ts, us[..n]);
      FollowsSpan(s, ts, us[n]);
      SkipEndIsLongestSkip(s, End(ts), p);
    }
  }

  /** ... and the pattern of that token's kind matches at `p`. */
  lemma {:induction false} NextTokenMatches(s: string, ts: seq<Token>, p: nat, us: seq<Token>)
    requires Scans(s, ts) && IsLongestSkip(s, End(ts), p)
    requires Scans(s, us)
    ensures |us| > |ts| ==> MatchesAt(us[|ts|].kind, s, p, us[|ts|].loc)
  {
    NextTokenStart(s, ts, p, us);
    if |us| > |ts| {
      FollowsMatch(s, ts, us[|ts|]);
    }
  }

  /** Once the scanner stands at the end of the text or at an offset where
      nothing matches, no scan has more tokens. */
  lemma {:induction false} NoTokenAfter(s: string, ts: seq<Token>, p: nat, us: seq<Token>)
    requires Scans(s, ts) && IsLongestSkip(s, End(ts), p)
    requires p == |s| || Stuck(s, p)
    requires Scans(s, us)
    ensures |us| <= |ts|
  {
    NextTokenMatches(s, ts, p, us);
  }

  /** A text has at most one tokenization. */
  lemma {:induction false} LexesIsUnique(s: string, ts: seq<Token>, us: seq<Token>)
    requires Lexes(s, ts) && Lexes(s, us)
    ensures ts == us
  {
    NoTokenAfter(s, ts, |s|, us);
    NoTokenAfter(s, us, |s|, ts);
    ScansAreDetermined(s, ts, us);
  }

  /** A text that fails fails at one offset, after one sequence of tokens. */
  lemma {:induction false} FailureIsUnique(s: string, ts: seq<Token>, p: nat, us: seq<Token>, q: nat)
    requires FailsAt(s, ts, p) && FailsAt(s, us, q)
    ensures ts == us && p == q
  {
    NoTokenAfter(s, ts, p, us);
    NoTokenAfter(s, us, q, ts);
    ScansAreDetermined(s, ts, us);
    SkipEndIsLongestSkip(s, End(ts), p);
    SkipEndIsLongestSkip(s, End(ts), q);
  }

  /** A text that has a tokenization does not fail: every scan that is not
      the whole tokenization stops where a pattern matches. */
  lemma {:induction false} LexesExcludesFailure(s: string, ts: seq<Token>, us: seq<Token>, p: nat)
    requires Lexes(s, ts)
    ensures !FailsAt(s, us, p)
  {
    if Scans(s, us) && IsLongestSkip(s, End(us), p) {
      NoTokenAfter(s, ts, |s|, us);
      ScansPrefix(s, ts, |us|);
      ScansAreDetermined(s, ts[..|us|], us);
      NextTokenMatches(s, us, p, ts);
      if |us| == |ts| {
        assert ts[..|us|] == ts;
        SkipEndIsLongestSkip(s, End(ts), p);
        SkipEndIsLongestSkip(s, End(ts), |s|);
      }
    }
  }

  // ---------------------------------------------------------------------
  // What the tokens look like

  /** Where one scanned token sits: it starts where the skip text after the
      previous token ends, and its text is taken verbatim from the input. */
  lemma {:induction false} FollowsSpan(s: string, ts: seq<Token>, t: Token)
    requires Follows(s, ts, t)
    ensures var a := t.loc - |t.lexeme|;
      && End(ts) <= a < t.loc <= |s|
      && a == SkipEnd(s, End(ts))
      && t.lexeme == s[a..t.loc]
  {
    var a := t.loc - |t.lexeme|;
    SkipEndIsLongestSkip(s, End(ts), a);
  }

  /** The pattern of a scanned token's kind matches its text. */
  lemma {:induction false} FollowsMatch(s: string, ts: seq<Token>, t: Token)
    requires Follows(s, ts, t)
    ensures MatchesAt(t.kind, s, t.loc - |t.lexeme|, t.loc)
  {
  }

  /** A scanned token is a lexeme of its kind, and never a blank run: the
      skip pattern has already eaten the blanks before it. */
  lemma {:induction false} FollowingIsWellFormed(s: string, ts: seq<Token>, t: Token)
    requires Follows(s, ts, t)
    ensures WellFormed(t) && t.kind != EMPTY_SPACE
  {
    FollowsSpan(s, ts, t);
  }

  /** Every scanned token is well formed and not a blank run. */
  lemma {:induction false} ScannedTokensAreWellFormed(s: string, ts: seq<Token>)
    requires Scans(s, ts)
    ensures forall t :: t in ts ==> WellFormed(t) && t.kind != EMPTY_SPACE
    decreases |ts|
  {
    if |ts| > 0 {
      var n := |ts|;
      var init := ts[..n - 1];
      ScannedTokensAreWellFormed(s, init);
      FollowingIsWellFormed(s, init, ts[n - 1]);
      assert ts == init + [ts[n - 1]];
    }
  }

  /** The scanned tokens lie within the text in order, each one starting at or
      after the end of the one before. */
  lemma {:induction false} ScannedTokensAreOrdered(s: string, ts: seq<Token>)
    requires Scans(s, ts)
    ensures End(ts) <= |s|
    ensures forall x :: 0 <= x < |ts| ==> 0 < |ts[x].lexeme| <= ts[x].loc <= End(ts)
    ensures forall x, y :: 0 <= x < y < |ts| ==> ts[x].loc <= ts[y].loc - |ts[y].lexeme|
    decreases |ts|
  {
    if |ts| > 0 {
      var n := |ts|;
      var init := ts[..n - 1];
      ScannedTokensAreOrdered(s, init);
      FollowsSpan(s, init, ts[n - 1]);
      assert forall x :: 0 <= x < n - 1 ==> ts[x] == init[x];
    }
  }
}
