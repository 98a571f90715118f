/** The `toJson` methods of the arithmetic syntax tree
    (src/Parser.java:142-177), and a reader that is their partner.

    A list is `[` kids `]`, an operator node is
    `{"tag":"` tag `","kids":[` kids `]}` and an integer is its decimal
    spelling, as `String.valueOf` writes it; kids are joined by commas. The
    tag is written between quotes but not escaped, so a tree reads back from
    its text whenever no tag holds a double quote, which every tag the parser
    builds satisfies. */
module ArithJson {
  import opened Results
  import opened Decimal
  import opened ArithLexer
  import opened ArithParser
  import Seqs

  // ---------------------------------------------------------------------
  // The writer

  const TagOpen: string := "{\"tag\":\""
  const KidsOpen: string := "\",\"kids\":["
  const OpClose: string := "]}"

  /** `String.valueOf(int)`: a minus sign for negative values, then the
      shortest digits. */
  function IntText(v: int): (r: string)
    ensures |r| > 0 && (r[0] == '-' || IsDigit(r[0]))
  {
    if v < 0 then "-" + NatToString(-v) else NatToString(v)
  }

  function ToJson(a: Ast): (r: string)
    ensures |r| > 0 && (r[0] == '[' || r[0] == '{' || r[0] == '-' || IsDigit(r[0]))
    decreases a, 1
  {
    match a
    case IntAst(v) => IntText(v)
    case ListAst(kids) => "[" + JoinJson(kids) + "]"
    case OpAst(tag, kids) => TagOpen + tag + KidsOpen + JoinJson(kids) + OpClose
  }

  /** `Collectors.joining(",")` over the kids' texts. */
  function JoinJson(kids: seq<Ast>): string
    decreases kids, 0
  {
    if |kids| == 0 then "" else ToJson(kids[0]) + CommaJson(kids[1..])
  }

  /** The kids after the first, each after a comma. */
  function CommaJson(ks: seq<Ast>): string
    decreases ks, 0
  {
    if |ks| == 0 then "" else "," + ToJson(ks[0]) + CommaJson(ks[1..])
  }

  // ---------------------------------------------------------------------
  // The reader

  /** The length of the text before the first double quote. */
  function QuoteFree(s: string): (n: nat)
    ensures n <= |s|
  {
    if |s| == 0 || s[0] == '"' then 0 else 1 + QuoteFree(s[1..])
  }

  predicate StartsWith(s: string, prefix: string) {
    |prefix| <= |s| && s[..|prefix|] == prefix
  }

  /** Reads one tree and returns the text after it. */
  function ReadAst(s: string): (r: Option<(Ast, string)>)
    ensures r.Some? ==> |r.value.1| < |s|
    decreases |s|, 2
  {
    if |s| > 0 && s[0] == '[' then ReadList(s)
    else if |s| > 0 && s[0] == '{' then ReadOp(s)
    else ReadInt(s)
  }

  function ReadList(s: string): (r: Option<(Ast, string)>)
    requires |s| > 0
    ensures r.Some? ==> |r.value.1| < |s|
    decreases |s|, 1
  {
    var (kids, rest) :- ReadKids(s[1..]);
    if |rest| > 0 && rest[0] == ']' then Some((ListAst(kids), rest[1..])) else None
  }

  function ReadOp(s: string): (r: Option<(Ast, string)>)
    ensures r.Some? ==> |r.value.1| < |s|
    decreases |s|, 1
  {
    if !StartsWith(s, TagOpen) then None
    else
      var t := s[|TagOpen|..];
      var tag := t[..QuoteFree(t)];
      var u := t[QuoteFree(t)..];
      if !StartsWith(u, KidsOpen) then None
      else
        var (kids, rest) :- ReadKids(u[|KidsOpen|..]);
        if StartsWith(rest, OpClose) then Some((OpAst(tag, kids), rest[|OpClose|..])) else None
  }

  /** An optional minus sign, then the longest run of digits. */
  function ReadInt(s: string): (r: Option<(Ast, string)>)
    ensures r.Some? ==> |r.value.1| < |s|
  {
    if |s| > 0 && s[0] == '-' then
      var n := DigitRun(s[1..]);
      DigitRunIsDigits(s[1..]);
      if n == 0 then None else Some((IntAst(-(DigitsValue(s[1..][..n]) as int)), s[1..][n..]))
    else
      var n := DigitRun(s);
      DigitRunIsDigits(s);
      if n == 0 then None else Some((IntAst(DigitsValue(s[..n])), s[n..]))
  }

  lemma {:induction false} DigitRunIsDigits(s: string)
    ensures AllDigits(s[..DigitRun(s)])
    decreases |s|
  {
    if DigitRun(s) > 0 {
      DigitRunIsDigits(s[1..]);
      assert forall i :: 0 < i < DigitRun(s) ==> s[..DigitRun(s)][i] == s[1..][..DigitRun(s[1..])][i - 1];
    }
  }

  /** Reads the kids of a list or an operator node, up to the closing
      bracket, which it leaves. */
  function ReadKids(s: string): (r: Option<(seq<Ast>, string)>)
    ensures r.Some? ==> |r.value.1| <= |s|
    decreases |s|, 3
  {
    if |s| > 0 && s[0] == ']' then Some(([], s))
    else
      var (k, rest) :- ReadAst(s);
      ReadMoreKids([k], rest)
  }

  function ReadMoreKids(kids: seq<Ast>, s: string): (r: Option<(seq<Ast>, string)>)
    ensures r.Some? ==> |r.value.1| <= |s|
    decreases |s|, 0
  {
    if |s| > 0 && s[0] == ',' then
      var (k, rest) :- ReadAst(s[1..]);
      ReadMoreKids(kids + [k], rest)
    else Some((kids, s))
  }

  // ---------------------------------------------------------------------
  // Reading back what was written

  /** No tag holds a double quote. */
  predicate Readable(a: Ast)
    decreases a
  {
    match a
    case IntAst(_) => true
    case ListAst(kids) => forall i :: 0 <= i < |kids| ==> Readable(kids[i])
    case OpAst(tag, kids) => '"' !in tag && forall i :: 0 <= i < |kids| ==> Readable(kids[i])
  }

  /** The trees the parser builds are readable. */
  lemma {:induction false} OperatorTagsAreReadable(a: Ast)
    requires OperatorTags(a)
    ensures Readable(a)
    decreases a
  {
    match a
    case IntAst(_) =>
    case ListAst(kids) =>
      forall i | 0 <= i < |kids|
        ensures Readable(kids[i])
      {
        OperatorTagsAreReadable(kids[i]);
      }
    case OpAst(tag, kids) =>
      forall i | 0 <= i < |kids|
        ensures Readable(kids[i])
      {
        OperatorTagsAreReadable(kids[i]);
      }
  }

  /** What `toJson` prints for a parsed program reads back as that program. */
  lemma {:induction false} ParsedJsonRoundTrip(ts: seq<Token>)
    requires Parse(ts).Ok?
    ensures ReadAst(ToJson(Parse(ts).value)) == Some((Parse(ts).value, ""))
  {
    var a := Parse(ts).value;
    OperatorTagsAreReadable(a);
    JsonRoundTrip(a, "");
    assert ToJson(a) + "" == ToJson(a);
  }

  /** What may follow a tree's text without being read into it. */
  predicate EndsTree(tail: string) {
    |tail| == 0 || !IsDigit(tail[0])
  }

  lemma {:induction false} DigitRunOfDigits(d: string, tail: string)
    requires AllDigits(d) && EndsTree(tail)
    ensures DigitRun(d + tail) == |d|
    decreases |d|
  {
    if |d| > 0 {
      assert (d + tail)[1..] == d[1..] + tail;
      DigitRunOfDigits(d[1..], tail);
    } else {
      assert d + tail == tail;
    }
  }

  lemma {:induction false} QuoteFreeOf(t: string, s: string)
    requires '"' !in t && |s| > 0 && s[0] == '"'
    ensures QuoteFree(t + s) == |t|
    decreases |t|
  {
    if |t| > 0 {
      assert (t + s)[1..] == t[1..] + s;
      QuoteFreeOf(t[1..], s);
    } else {
      assert t + s == s;
    }
  }

  /** The digits of a natural number read back as that number. */
  lemma {:induction false} NaturalRoundTrip(n: nat, tail: string)
    requires EndsTree(tail)
    ensures var s := NatToString(n) + tail;
      DigitRun(s) == |NatToString(n)| && s[..DigitRun(s)] == NatToString(n)
      && DigitsValue(s[..DigitRun(s)]) == n && s[DigitRun(s)..] == tail
  {
    var d := NatToString(n);
    DigitRunOfDigits(d, tail);
    DigitsValueOfNatToString(n);
    assert (d + tail)[..|d|] == d;
    assert (d + tail)[|d|..] == tail;
  }

  lemma {:induction false} IntRoundTrip(v: int, tail: string)
    requires EndsTree(tail)
    ensures ReadAst(IntText(v) + tail) == Some((IntAst(v), tail))
  {
    var s := IntText(v) + tail;
    assert ReadAst(s) == ReadInt(s);
    if v < 0 {
      ReadNegative(-v, tail);
    } else {
      ReadNatural(v, tail);
    }
  }

  lemma {:induction false} ReadNatural(n: nat, tail: string)
    requires EndsTree(tail)
    ensures ReadInt(NatToString(n) + tail) == Some((IntAst(n), tail))
  {
    var s := NatToString(n) + tail;
    assert s[0] != '-' by {
      assert s[0] == NatToString(n)[0];
    }
    NaturalRoundTrip(n, tail);
  }

  lemma {:induction false} ReadNegative(n: nat, tail: string)
    requires EndsTree(tail)
    ensures ReadInt("-" + NatToString(n) + tail) == Some((IntAst(-(n as int)), tail))
  {
    var s := "-" + NatToString(n) + tail;
    assert s[1..] == NatToString(n) + tail;
    NaturalRoundTrip(n, tail);
  }

  /** Reading back the text of a tree gives the tree, and stops where the
      text ends. */
  lemma {:induction false} JsonRoundTrip(a: Ast, tail: string)
    requires Readable(a) && EndsTree(tail)
    ensures ReadAst(ToJson(a) + tail) == Some((a, tail))
    decreases a, 2
  {
    match a
    case IntAst(v) =>
      IntRoundTrip(v, tail);
    case ListAst(kids) =>
      ListRoundTrip(kids, tail);
    case OpAst(tag, kids) =>
      OpRoundTrip(tag, kids, tail);
  }

  lemma {:induction false} ListRoundTrip(kids: seq<Ast>, tail: string)
    requires forall i :: 0 <= i < |kids| ==> Readable(kids[i])
    ensures ReadAst(ToJson(ListAst(kids)) + tail) == Some((ListAst(kids), tail))
    decreases kids, 2
  {
    var close := "]" + tail;
    var s := ToJson(ListAst(kids)) + tail;
    assert s == "[" + (JoinJson(kids) + close);
    assert s[1..] == JoinJson(kids) + close;
    KidsRoundTrip(kids, close);
    assert close[1..] == tail;
    assert ReadList(s) == Some((ListAst(kids), tail));
  }

  lemma {:induction false} OpRoundTrip(tag: string, kids: seq<Ast>, tail: string)
    requires '"' !in tag && forall i :: 0 <= i < |kids| ==> Readable(kids[i])
    ensures ReadAst(ToJson(OpAst(tag, kids)) + tail) == Some((OpAst(tag, kids), tail))
    decreases kids, 2
  {
    var close := OpClose + tail;
    var j := JoinJson(kids);
    var s := ToJson(OpAst(tag, kids)) + tail;
    assert s == TagOpen + (tag + (KidsOpen + (j + close)));
    assert ReadAst(s) == ReadOp(s);
    KidsRoundTrip(kids, close);
    OpStep(tag, kids, j, tail);
  }

  /** The kids' texts joined by commas read back as the kids, up to the
      closing bracket. */
  lemma {:induction false} KidsRoundTrip(kids: seq<Ast>, tail: string)
    requires forall i :: 0 <= i < |kids| ==> Readable(kids[i])
    requires |tail| > 0 && tail[0] == ']'
    ensures ReadKids(JoinJson(kids) + tail) == Some((kids, tail))
    decreases kids, 1
  {
    if |kids| == 0 {
      assert JoinJson(kids) + tail == tail;
    } else {
      var k, ks := kids[0], kids[1..];
      var more := CommaJson(ks) + tail;
      assert JoinJson(kids) + tail == ToJson(k) + more;
      CommaJsonStart(ks, tail);
      FirstKidStep(k, more);
      assert forall i :: 0 <= i < |ks| ==> ks[i] == kids[i + 1];
      MoreKidsRoundTrip([k], ks, tail);
      Seqs.HeadTail(kids);
    }
  }

  lemma {:induction false} CommaJsonStart(ks: seq<Ast>, tail: string)
    requires |tail| > 0 && tail[0] == ']'
    ensures var s := CommaJson(ks) + tail; |s| > 0 && (s[0] == ',' || s[0] == ']')
  {
    if |ks| == 0 {
      assert CommaJson(ks) + tail == tail;
    }
  }

  lemma {:induction false} MoreKidsRoundTrip(acc: seq<Ast>, ks: seq<Ast>, tail: string)
    requires forall i :: 0 <= i < |ks| ==> Readable(ks[i])
    requires |tail| > 0 && tail[0] == ']'
    ensures ReadMoreKids(acc, CommaJson(ks) + tail) == Some((acc + ks, tail))
    decreases ks, 1
  {
    if |ks| == 0 {
      assert CommaJson(ks) + tail == tail;
      assert acc + ks == acc;
    } else {
      var k, rest := ks[0], ks[1..];
      var more := CommaJson(rest) + tail;
      assert CommaJson(ks) + tail == "," + ToJson(k) + more;
      CommaJsonStart(rest, tail);
      MoreKidsStep(acc, k, more);
      assert ReadMoreKids(acc + [k], more) == Some((acc + [k] + rest, tail)) by {
        assert forall i :: 0 <= i < |rest| ==> rest[i] == ks[i + 1];
        MoreKidsRoundTrip(acc + [k], rest, tail);
      }
      assert acc + [k] + rest == acc + ks by {
        Seqs.HeadTail(ks);
        Seqs.Regroup2(acc, [k], rest);
      }
    }
  }

  /** One comma and one kid read by `ReadMoreKids`. */
  lemma {:induction false} MoreKidsStep(acc: seq<Ast>, k: Ast, more: string)
    requires Readable(k) && EndsTree(more)
    ensures ReadMoreKids(acc, "," + ToJson(k) + more) == ReadMoreKids(acc + [k], more)
    decreases k, 3
  {
    var s := "," + ToJson(k) + more;
    assert s[1..] == ToJson(k) + more;
    JsonRoundTrip(k, more);
  }

  /** The first kid read by `ReadKids`. */
  lemma {:induction false} FirstKidStep(k: Ast, more: string)
    requires Readable(k) && EndsTree(more)
    ensures ReadKids(ToJson(k) + more) == ReadMoreKids([k], more)
    decreases k, 3
  {
    JsonRoundTrip(k, more);
  }

  /** `ReadOp` on an operator node's text, whatever the kids' text is. */
  lemma {:induction false} OpStep(tag: string, kids: seq<Ast>, j: string, tail: string)
    requires '"' !in tag
    requires ReadKids(j + (OpClose + tail)) == Some((kids, OpClose + tail))
    ensures ReadOp(TagOpen + (tag + (KidsOpen + (j + (OpClose + tail))))) == Some((OpAst(tag, kids), tail))
  {
    var close := OpClose + tail;
    var u := KidsOpen + (j + close);
    var t := tag + u;
    var s := TagOpen + t;
    assert StartsWith(s, TagOpen) && s[|TagOpen|..] == t;
    assert QuoteFree(t) == |tag| && t[..|tag|] == tag && t[|tag|..] == u by {
      QuoteFreeOf(tag, u);
    }
    assert StartsWith(u, KidsOpen) && u[|KidsOpen|..] == j + close;
    assert StartsWith(close, OpClose) && close[|OpClose|..] == tail;
  }
}
