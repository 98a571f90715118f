/** Reading the serializer's tagged tree back, and what the serializer keeps
    and loses.

    The reader is the serializer's partner. It recovers every tree in which
    nothing was lost: no `None` items, integers spelled in their shortest
    form, booleans spelled `true` or `false`, and no keys (a key is written as
    an atom, main.py:234-239, so keys and atoms cannot be told apart). */
module DataJsonReader {
  import opened Results
  import opened Decimal
  import opened DataTokens
  import opened DataAst
  import opened DataJson
  import Seqs

  // ---------------------------------------------------------------------
  // The reader

  function Decode(j: Json): Option<Element>
    decreases j, 1
  {
    match j
    case JString(s) => Some(ValueLit(s))
    case JObject(ms) =>
      if |ms| == 2 && ms[0].0 == "%k" && ms[0].1.JString? && ms[1].0 == "%v" then
        DecodeTagged(ms[0].1.s, ms[1].1)
      else None
    case _ => None
  }

  function DecodeTagged(kind: string, v: Json): Option<Element>
    decreases v, 2
  {
    if kind == "list" && v.JArray? then
      var items :- DecodeItems(v.elems);
      Some(ListLit(items))
    else if kind == "tuple" && v.JArray? then
      var items :- DecodeItems(v.elems);
      Some(TupleLit(items))
    else if kind == "map" && v.JArray? then
      var pairs :- DecodePairs(v.elems);
      Some(MapLit(pairs))
    else if kind == "int" && v.JInt? && v.i >= 0 then Some(IntegerLit(NatToString(v.i)))
    else if kind == "atom" && v.JString? then Some(AtomLit(v.s))
    else if kind == "bool" && v.JBool? then Some(BooleanLit(if v.b then "true" else "false"))
    else None
  }

  function DecodeItems(js: seq<Json>): Option<seq<Lit>>
    decreases js, 0
  {
    if |js| == 0 then Some([])
    else
      var e :- Decode(js[0]);
      var more :- DecodeItems(js[1..]);
      Some([Node(e)] + more)
  }

  function DecodePair(j: Json): Option<KeyPair>
    decreases j, 0
  {
    if j.JArray? && |j.elems| == 2 then
      var k :- Decode(j.elems[0]);
      var v :- Decode(j.elems[1]);
      Some(KeyPair(Node(k), Node(v)))
    else None
  }

  function DecodePairs(js: seq<Json>): Option<seq<KeyPair>>
    decreases js, 0
  {
    if |js| == 0 then Some([])
    else
      var p :- DecodePair(js[0]);
      var more :- DecodePairs(js[1..]);
      Some([p] + more)
  }

  // ---------------------------------------------------------------------
  // The trees the serializer does not lose information about

  /** The shortest decimal spelling of a number. */
  predicate IsNumeral(t: string) {
    |t| > 0 && AllDigits(t) && (t[0] == '0' ==> |t| == 1)
  }

  predicate Canonical(e: Element)
    decreases e, 1
  {
    match e
    case ListLit(items) => forall i :: 0 <= i < |items| ==> CanonicalLit(items[i])
    case TupleLit(items) => forall i :: 0 <= i < |items| ==> CanonicalLit(items[i])
    case MapLit(pairs) => forall i :: 0 <= i < |pairs| ==> CanonicalPair(pairs[i])
    case IntegerLit(t) => IsNumeral(t)
    case AtomLit(_) => true
    case KeyLit(_) => false
    case BooleanLit(t) => t == "true" || t == "false"
    case ValueLit(_) => true
  }

  predicate CanonicalLit(l: Lit)
    decreases l, 0
  {
    l.Node? && Canonical(l.element)
  }

  predicate CanonicalPair(p: KeyPair)
    decreases p, 0
  {
    CanonicalLit(p.key) && CanonicalLit(p.value)
  }

  // ---------------------------------------------------------------------
  // Integers

  /** Without underscores, the digits are the text itself. */
  lemma {:induction false} DigitsOfDigits(s: string)
    requires AllDigits(s)
    ensures Digits(s) == s
    decreases |s|
  {
    if |s| > 0 {
      DigitsOfDigits(s[1..]);
    }
  }

  /** A shortest spelling is the spelling of its value. */
  lemma {:induction false} NatToStringOfNumeral(t: string)
    requires IsNumeral(t)
    ensures NatToString(DigitsValue(t)) == t
    decreases |t|
  {
    var v := DigitsValue(t);
    if |t| == 1 {
      assert t[..|t| - 1] == [];
      assert DigitsValue(t[..|t| - 1]) == 0;
      assert v == DigitValue(t[0]);
      assert [DigitChar(v)] == t;
    } else {
      var u := t[..|t| - 1];
      assert IsNumeral(u);
      NatToStringOfNumeral(u);
      PositiveValue(u);
      assert v / 10 == DigitsValue(u) && v % 10 == DigitValue(t[|t| - 1]);
      assert t == u + [t[|t| - 1]];
    }
  }

  lemma {:induction false} PositiveValue(t: string)
    requires IsNumeral(t) && t[0] != '0'
    ensures DigitsValue(t) > 0
    decreases |t|
  {
    if |t| > 1 {
      var u := t[..|t| - 1];
      assert u[0] == t[0];
      PositiveValue(u);
    }
  }

  /** `int()` reads the decimal spelling of `n` as `n`. */
  lemma {:induction false} IntValueOfNatToString(n: nat)
    ensures IntValue(NatToString(n)) == Some(n)
  {
    var t := NatToString(n);
    DigitsOfDigits(t);
    DigitsValueOfNatToString(n);
  }

  /** Leading zeros are ignored: `007` is 7 (main.py:225). */
  lemma {:induction false} LeadingZeroIsIgnored(t: string)
    requires IsIntegerLexeme(t)
    ensures IsIntegerLexeme("0" + t) && IntValue("0" + t) == IntValue(t)
  {
    var z := "0" + t;
    assert z[1..] == t;
    assert Digits(z) == "0" + Digits(t);
    LeadingZeros("0", Digits(t));
  }

  /** An underscore between two digit groups is ignored: `1_000` is 1000. */
  lemma {:induction false} UnderscoreIsIgnored(a: string, b: string)
    requires IsIntegerLexeme(a) && IsIntegerLexeme(b)
    ensures IsIntegerLexeme(a + "_" + b) && IsIntegerLexeme(a + b)
    ensures IntValue(a + "_" + b) == IntValue(a + b)
  {
    JoinedGroups(a, "_", b);
    JoinedGroups(a, "", b);
    assert a + "" + b == a + b;
    DigitsOfJoin(a, "_" + b);
    DigitsOfJoin(a, b);
    assert ("_" + b)[1..] == b;
    assert a + "_" + b == a + ("_" + b);
  }

  /** Two digit groups joined directly or by one underscore form an INTEGER
      lexeme. */
  lemma {:induction false} JoinedGroups(a: string, sep: string, b: string)
    requires IsIntegerLexeme(a) && IsIntegerLexeme(b)
    requires sep == "" || sep == "_"
    ensures IsIntegerLexeme(a + sep + b)
  {
    var s := a + sep + b;
    var m := |a| + |sep|;
    assert forall x :: 0 <= x < |a| ==> s[x] == a[x];
    assert forall x :: m <= x < |s| ==> s[x] == b[x - m];
    forall x, y | 0 <= x < |s| && 0 <= y < |s| && y == x + 1
      ensures IsDigit(s[x]) || IsDigit(s[y])
    {
      if x < |a| - 1 {
        assert IsDigit(a[x]) || IsDigit(a[y]);
      } else if x >= m {
        assert IsDigit(b[x - m]) || IsDigit(b[y - m]);
      }
    }
  }

  lemma {:induction false} DigitsOfJoin(a: string, b: string)
    requires forall i :: 0 <= i < |a| ==> IsDigit(a[i]) || a[i] == '_'
    requires forall i :: 0 <= i < |b| ==> IsDigit(b[i]) || b[i] == '_'
    ensures Digits(a + b) == Digits(a) + Digits(b)
    decreases |a|
  {
    if |a| > 0 {
      assert (a + b)[1..] == a[1..] + b;
      DigitsOfJoin(a[1..], b);
    } else {
      assert a + b == b;
    }
  }

  // ---------------------------------------------------------------------
  // Round trip

  /** Reading back the serialization of a canonical tree gives the tree. */
  lemma {:induction false} JsonRoundTrip(e: Element)
    requires Canonical(e)
    ensures ElementJson(e).Some? && Decode(ElementJson(e).value) == Some(e)
    decreases e, 2
  {
    match e
    case ListLit(items) =>
      ItemsJsonRoundTrip(items);
      var j := Tagged("list", JArray(ItemsJson(items).value));
      assert ElementJson(e) == Some(j);
      assert Decode(j) == DecodeTagged("list", JArray(ItemsJson(items).value));
    case TupleLit(items) =>
      ItemsJsonRoundTrip(items);
      var j := Tagged("tuple", JArray(ItemsJson(items).value));
      assert ElementJson(e) == Some(j);
      assert Decode(j) == DecodeTagged("tuple", JArray(ItemsJson(items).value));
    case MapLit(pairs) =>
      PairsJsonRoundTrip(pairs);
      var j := Tagged("map", JArray(PairsJson(pairs).value));
      assert ElementJson(e) == Some(j);
      assert Decode(j) == DecodeTagged("map", JArray(PairsJson(pairs).value));
    case _ =>
      PrimitiveJsonRoundTrip(e);
  }

  lemma {:induction false} PrimitiveJsonRoundTrip(e: Element)
    requires Canonical(e) && !IsContainer(e)
    ensures ElementJson(e).Some? && Decode(ElementJson(e).value) == Some(e)
  {
    match e
    case IntegerLit(t) =>
      DigitsOfDigits(t);
      NatToStringOfNumeral(t);
      DecodeOfTagged("int", JInt(DigitsValue(t)));
    case AtomLit(t) => DecodeOfTagged("atom", JString(t));
    case BooleanLit(t) => DecodeOfTagged("bool", JBool(BoolValue(t)));
    case ValueLit(t) =>
  }

  /** A tagged object is read by its tag. */
  lemma {:induction false} DecodeOfTagged(kind: string, v: Json)
    ensures Decode(Tagged(kind, v)) == DecodeTagged(kind, v)
  {
  }

  lemma {:induction false} ItemsJsonRoundTrip(items: seq<Lit>)
    requires forall i :: 0 <= i < |items| ==> CanonicalLit(items[i])
    ensures ItemsJson(items).Some? && DecodeItems(ItemsJson(items).value) == Some(items)
    decreases items, 1
  {
    if |items| > 0 {
      assert CanonicalLit(items[0]);
      LitJsonRoundTrip(items[0]);
      var rest := items[1..];
      assert forall i :: 0 <= i < |rest| ==> rest[i] == items[i + 1];
      ItemsJsonRoundTrip(rest);
      assert ItemsJson(items) == Some([LitJson(items[0]).value] + ItemsJson(rest).value);
      Seqs.HeadTail(items);
    }
  }

  lemma {:induction false} LitJsonRoundTrip(l: Lit)
    requires CanonicalLit(l)
    ensures LitJson(l).Some? && Decode(LitJson(l).value) == Some(l.element)
    decreases l, 0
  {
    JsonRoundTrip(l.element);
  }

  lemma {:induction false} PairJsonRoundTrip(p: KeyPair)
    requires CanonicalPair(p)
    ensures PairJson(p).Some? && DecodePair(PairJson(p).value) == Some(p)
    decreases p, 1
  {
    LitJsonRoundTrip(p.key);
    LitJsonRoundTrip(p.value);
  }

  lemma {:induction false} PairsJsonRoundTrip(pairs: seq<KeyPair>)
    requires forall i :: 0 <= i < |pairs| ==> CanonicalPair(pairs[i])
    ensures PairsJson(pairs).Some? && DecodePairs(PairsJson(pairs).value) == Some(pairs)
    decreases pairs, 1
  {
    if |pairs| > 0 {
      PairJsonRoundTrip(pairs[0]);
      var rest := pairs[1..];
      assert forall i :: 0 <= i < |rest| ==> rest[i] == pairs[i + 1];
      PairsJsonRoundTrip(rest);
      assert PairsJson(pairs) == Some([PairJson(pairs[0]).value] + PairsJson(rest).value);
      Seqs.HeadTail(pairs);
    }
  }
}
