/** The serializer of the literal-data language: the `as_json` methods
    (main.py:149-255) that turn the syntax tree into `{"%k": kind, "%v": value}`
    nodes.

    Python's `None` items are dropped from sentences, lists and tuples by the
    `if data_literal` filters. A bare token left by a doubled `::`, `=>=>` or
    `<EOF><EOF>` has no `as_json`, and neither has `None` in a key pair; the
    uncaught `AttributeError` is a failure here, as is an `int()` that
    raises. */
module DataJson {
  import opened Results
  import opened Decimal
  import opened DataTokens
  import opened DataAst

  /** The JSON values the serializer builds: Python ints, bools, strings,
      lists and dicts (dict members in insertion order). */
  datatype Json =
    | JInt(i: int)
    | JBool(b: bool)
    | JString(s: string)
    | JArray(elems: seq<Json>)
    | JObject(members: seq<(string, Json)>)

  /** `{"%k": kind, "%v": v}` */
  function Tagged(kind: string, v: Json): Json {
    JObject([("%k", JString(kind)), ("%v", v)])
  }

  // ---------------------------------------------------------------------
  // Primitive values

  /** The characters of `s` in the opposite order: Python's `s[-1::-1]`. */
  function Reverse(s: string): (r: string)
    ensures |r| == |s| && forall i :: 0 <= i < |s| ==> r[i] == s[|s| - 1 - i]
  {
    if |s| == 0 then [] else Reverse(s[1..]) + [s[0]]
  }

  /** The digits of `s` without its underscores. */
  function Digits(s: string): (r: string)
    requires forall i :: 0 <= i < |s| ==> IsDigit(s[i]) || s[i] == '_'
    ensures AllDigits(r) && |r| <= |s|
  {
    if |s| == 0 then []
    else if s[0] == '_' then Digits(s[1..])
    else [s[0]] + Digits(s[1..])
  }

  /** Python's `int()` on an INTEGER token's text (main.py:225): underscores
      between digits are ignored and leading zeros allowed. */
  function IntValue(text: string): (r: Option<nat>)
    ensures r.Some? <==> IsIntegerLexeme(text)
  {
    if IsIntegerLexeme(text) then Some(DigitsValue(Digits(text))) else None
  }

  /** `BooleanElement.as_json` (main.py:244-247). */
  function BoolValue(text: string): (b: bool)
    ensures b <==> text == "true"
  {
    text == "true"
  }

  // ---------------------------------------------------------------------
  // The serializer

  /** `as_json` of an element. */
  function ElementJson(e: Element): (r: Option<Json>)
    decreases e, 1
  {
    match e
    case ListLit(items) =>
      var js :- ItemsJson(items);
      Some(Tagged("list", JArray(js)))
    case TupleLit(items) =>
      var js :- ItemsJson(items);
      Some(Tagged("tuple", JArray(js)))
    case MapLit(pairs) =>
      var js :- PairsJson(pairs);
      Some(Tagged("map", JArray(js)))
    case IntegerLit(text) =>
      var n :- IntValue(text);
      Some(Tagged("int", JInt(n)))
    case AtomLit(text) => Some(Tagged("atom", JString(text)))
    case KeyLit(text) => Some(Tagged("atom", JString(Reverse(text))))
    case BooleanLit(text) => Some(Tagged("bool", JBool(BoolValue(text))))
    case ValueLit(text) => Some(JString(text))
  }

  /** `as_json` of a literal that is not filtered out: `None` and a bare token
      have none. */
  function LitJson(l: Lit): (r: Option<Json>)
    decreases l, 0
  {
    if l.Node? then ElementJson(l.element) else None
  }

  /** The items of a sentence, list or tuple, with `None` dropped
      (main.py:165, main.py:194, main.py:202). */
  function ItemsJson(items: seq<Lit>): (r: Option<seq<Json>>)
    decreases items, 0
  {
    if |items| == 0 then Some([])
    else if items[0].Nothing? then ItemsJson(items[1..])
    else
      var j :- LitJson(items[0]);
      var js :- ItemsJson(items[1..]);
      Some([j] + js)
  }

  /** `KeyPairElement.as_json` (main.py:254-255). */
  function PairJson(p: KeyPair): (r: Option<Json>)
    decreases p, 0
  {
    var k :- LitJson(p.key);
    var v :- LitJson(p.value);
    Some(JArray([k, v]))
  }

  /** The key pairs of a map, every one kept (main.py:210). */
  function PairsJson(pairs: seq<KeyPair>): (r: Option<seq<Json>>)
    decreases pairs, 0
  {
    if |pairs| == 0 then Some([])
    else
      var j :- PairJson(pairs[0]);
      var js :- PairsJson(pairs[1..]);
      Some([j] + js)
  }

  /** `LanguageElement.as_json`: the sentence's items as a JSON array. */
  function SentenceJson(ls: seq<Lit>): (r: Option<Json>)
    ensures r.Some? <==> ItemsJson(ls).Some?
  {
    var js :- ItemsJson(ls);
    Some(JArray(js))
  }

  // ---------------------------------------------------------------------
  // What the filters keep

  /** The literals the `if data_literal` filters keep: all but `None`, in
      order. */
  function Present(items: seq<Lit>): (r: seq<Lit>)
    ensures |r| <= |items|
    ensures forall i :: 0 <= i < |r| ==> !r[i].Nothing?
  {
    if |items| == 0 then []
    else if items[0].Nothing? then Present(items[1..])
    else [items[0]] + Present(items[1..])
  }

  /** The JSON of literals that are all kept, each one in turn. */
  function KeptJson(ls: seq<Lit>): Option<seq<Json>> {
    if |ls| == 0 then Some([])
    else
      var j :- LitJson(ls[0]);
      var js :- KeptJson(ls[1..]);
      Some([j] + js)
  }

  /** Serializing items is serializing the ones the filter keeps. */
  lemma {:induction false} ItemsJsonIsKeptJson(items: seq<Lit>)
    ensures ItemsJson(items) == KeptJson(Present(items))
  {
    if |items| > 0 {
      var rest := items[1..];
      ItemsJsonIsKeptJson(rest);
      if !items[0].Nothing? {
        var ps := Present(items);
        assert ps == [items[0]] + Present(rest);
        assert ps[0] == items[0] && ps[1..] == Present(rest);
      }
    }
  }

  /** Kept literals serialize one by one, in order; one failure fails all. */
  lemma {:induction false} KeptJsonKeepsOrder(ls: seq<Lit>)
    ensures KeptJson(ls).Some? <==> forall i :: 0 <= i < |ls| ==> LitJson(ls[i]).Some?
    ensures KeptJson(ls).Some? ==>
      && |KeptJson(ls).value| == |ls|
      && forall i :: 0 <= i < |ls| ==> KeptJson(ls).value[i] == LitJson(ls[i]).value
  {
    if |ls| > 0 {
      var rest := ls[1..];
      KeptJsonKeepsOrder(rest);
      assert forall i :: 0 < i < |ls| ==> ls[i] == rest[i - 1];
      if KeptJson(ls).Some? {
        var js := KeptJson(ls).value;
        assert js == [LitJson(ls[0]).value] + KeptJson(rest).value;
        assert forall i :: 0 < i < |ls| ==> js[i] == KeptJson(rest).value[i - 1];
      } else if LitJson(ls[0]).Some? {
        var i :| 0 <= i < |rest| && LitJson(rest[i]).None?;
        assert LitJson(ls[i + 1]).None?;
      }
    }
  }

  /** The items of a sentence, list or tuple serialize one by one, in order,
      with `None` dropped; it fails exactly when one kept item has no
      `as_json` or its `as_json` fails. */
  lemma {:induction false} ItemsJsonKeepsOrder(items: seq<Lit>)
    ensures ItemsJson(items).Some? <==>
      forall i :: 0 <= i < |Present(items)| ==> LitJson(Present(items)[i]).Some?
    ensures ItemsJson(items).Some? ==>
      && |ItemsJson(items).value| == |Present(items)|
      && forall i :: 0 <= i < |Present(items)| ==> ItemsJson(items).value[i] == LitJson(Present(items)[i]).value
  {
    ItemsJsonIsKeptJson(items);
    KeptJsonKeepsOrder(Present(items));
  }

  /** The key pairs of a map serialize one by one, in order, duplicates kept;
      it fails exactly when one pair's key or value cannot be serialized. */
  lemma {:induction false} PairsJsonKeepsOrder(pairs: seq<KeyPair>)
    ensures PairsJson(pairs).Some? <==> forall i :: 0 <= i < |pairs| ==> PairJson(pairs[i]).Some?
    ensures PairsJson(pairs).Some? ==>
      && |PairsJson(pairs).value| == |pairs|
      && forall i :: 0 <= i < |pairs| ==> PairsJson(pairs).value[i] == PairJson(pairs[i]).value
  {
    if |pairs| > 0 {
      var rest := pairs[1..];
      PairsJsonKeepsOrder(rest);
      assert forall i :: 0 < i < |pairs| ==> pairs[i] == rest[i - 1];
      if PairJson(pairs[0]).Some? && PairsJson(rest).Some? {
        var js := PairsJson(pairs).value;
        assert js == [PairJson(pairs[0]).value] + PairsJson(rest).value;
        assert forall i :: 0 < i < |pairs| ==> js[i] == PairsJson(rest).value[i - 1];
      } else if PairJson(pairs[0]).Some? {
        var i :| 0 <= i < |rest| && PairJson(rest[i]).None?;
        assert PairJson(pairs[i + 1]).None?;
      }
    }
  }

  /** A pair serializes as the two-element list of its key's and its
      value's serializations; `None` on either side is a failure. */
  lemma {:induction false} PairJsonShape(p: KeyPair)
    ensures PairJson(p).Some? <==> LitJson(p.key).Some? && LitJson(p.value).Some?
    ensures PairJson(p).Some? ==> PairJson(p).value == JArray([LitJson(p.key).value, LitJson(p.value).value])
    ensures p.key.Nothing? || p.value.Nothing? ==> PairJson(p).None?
  {
  }
}
