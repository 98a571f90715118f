/** The serialization of single primitive literals, and the one way keys and
    atoms meet in the output. */
module DataJsonExamples {
  import opened Results
  import opened Decimal
  import opened DataTokens
  import opened DataAst
  import opened DataJson
  import opened DataJsonReader

  /** Reversing twice gives the text back. */
  lemma {:induction false} ReverseIsInvolution(s: string)
    ensures Reverse(Reverse(s)) == s
  {
    var r := Reverse(s);
    assert forall i :: 0 <= i < |s| ==> Reverse(r)[i] == r[|s| - 1 - i] == s[i];
  }

  /** A key is written as the atom spelled backwards: the key `name:` and the
      atom `:eman` have the same serialization, and a key can be recovered
      from it only by reversing the text again. */
  lemma {:induction false} KeyIsReversedAtom(t: string)
    ensures ElementJson(KeyLit(t)) == ElementJson(AtomLit(Reverse(t)))
    ensures Decode(ElementJson(KeyLit(t)).value) == Some(AtomLit(Reverse(t)))
    ensures Reverse(Decode(ElementJson(KeyLit(t)).value).value.text) == t
  {
    var j := Tagged("atom", JString(Reverse(t)));
    assert ElementJson(KeyLit(t)) == Some(j);
    assert Decode(j) == DecodeTagged("atom", JString(Reverse(t)));
    ReverseIsInvolution(t);
  }

  lemma {:induction false} KeyExample()
    ensures ElementJson(KeyLit("name:")) == Some(Tagged("atom", JString(":eman")))
  {
    var r := Reverse("name:");
    assert r[0] == ':' && r[1] == 'e' && r[2] == 'm' && r[3] == 'a' && r[4] == 'n';
    assert r == ":eman";
  }

  /** An atom keeps its whole lexeme, colon included. */
  lemma {:induction false} AtomExample()
    ensures ElementJson(AtomLit(":foo")) == Some(Tagged("atom", JString(":foo")))
  {
  }

  /** A value is its raw lexeme, quotes included, with no tag. */
  lemma {:induction false} ValueExample()
    ensures ElementJson(ValueLit("'12'")) == Some(JString("'12'"))
  {
  }

  /** A boolean is true exactly when its lexeme is `true`. */
  lemma {:induction false} BooleanExample()
    ensures ElementJson(BooleanLit("true")) == Some(Tagged("bool", JBool(true)))
    ensures ElementJson(BooleanLit("false")) == Some(Tagged("bool", JBool(false)))
  {
  }

  /** `1_000` is the integer 1000. */
  lemma {:induction false} UnderscoreExample()
    ensures ElementJson(IntegerLit("1_000")) == Some(Tagged("int", JInt(1000)))
  {
    IntegerLexemes();
    UnderscoreIsIgnored("1", "000");
    assert "1" + "_" + "000" == "1_000";
    assert "1" + "000" == "1000";
    DigitsOfDigits("1000");
    assert DigitsValue("1000") == 1000 by {
      assert "1000"[..3] == "100" && "100"[..2] == "10" && "10"[..1] == "1" && "1"[..0] == "";
    }
  }

  /** `007` is the integer 7. */
  lemma {:induction false} LeadingZerosExample()
    ensures ElementJson(IntegerLit("007")) == Some(Tagged("int", JInt(7)))
  {
    IntegerLexemes();
    LeadingZeroIsIgnored("07");
    LeadingZeroIsIgnored("7");
    assert "0" + "07" == "007" && "0" + "7" == "07";
    DigitsOfDigits("7");
    assert DigitsValue("7") == 7 by {
      assert "7"[..0] == "";
    }
  }

  lemma {:induction false} IntegerLexemes()
    ensures IsIntegerLexeme("1") && IsIntegerLexeme("000") && IsIntegerLexeme("7")
  {
  }
}
