/** The text of the library's `InvalidCastException` for the two cases the
    repository's tests check. */
module CastMessages {
  import opened Text16
  import opened NativeValues

  /** `[]` read as `bool`. */
  lemma ArrayCastMessage()
    ensures CastMessage(Lit("Array"), BoolType) == Lit("Unable to cast value of type ") + Lit("Array to type 'Boolean'")
  {
    ArrayTail();
  }

  lemma ArrayTail()
    ensures Lit("Array") + Lit(" to type '") + Lit("Boolean") + Lit("'") == Lit("Array to type 'Boolean'")
  {
    Join4("Array", " to type '", "Boolean", "'");
    assert "Array" + " to type '" + "Boolean" + "'" == "Array to type 'Boolean'";
  }

  /** `{}` read as `double[]`. */
  lemma ObjectCastMessage()
    ensures CastMessage(Lit("Object"), ArrayType(DoubleType)) == Lit("Unable to cast value of type ") + Lit("Object to type 'Double[]'")
  {
    DoubleArrayName();
    ObjectTail();
  }

  lemma ObjectTail()
    ensures Lit("Object") + Lit(" to type '") + Lit("Double[]") + Lit("'") == Lit("Object to type 'Double[]'")
  {
    Join4("Object", " to type '", "Double[]", "'");
    assert "Object" + " to type '" + "Double[]" + "'" == "Object to type 'Double[]'";
  }

  /** Whether `t` has no apostrophe in it. */
  predicate NoQuote(t: Text) {
    forall i | 0 <= i < |t| :: t[i] != Unit('\'')
  }

  /** A message names its node tag and its target type unambiguously:
      for tags without an apostrophe, the first apostrophe after the
      prefix marks where the tag ends. */
  lemma {:induction false} MessageDeterminesPair(tag1: Text, t1: NativeType, tag2: Text, t2: NativeType)
    requires NoQuote(tag1) && NoQuote(tag2)
    requires CastMessage(tag1, t1) == CastMessage(tag2, t2)
    ensures tag1 == tag2 && TypeName(t1) == TypeName(t2)
  {
    var m := CastMessage(tag1, t1);
    if |tag1| < |tag2| {
      QuoteAt(tag1, t1);
      QuoteFree(tag2, t2, 38 + |tag1|);
    } else if |tag2| < |tag1| {
      QuoteAt(tag2, t2);
      QuoteFree(tag1, t1, 38 + |tag2|);
    } else {
      assert tag1 == m[29..29 + |tag1|] == tag2;
      assert TypeName(t1) == m[39 + |tag1|..|m| - 1] == TypeName(t2);
    }
  }

  /** The apostrophe opening the type name. */
  lemma QuoteAt(tag: Text, t: NativeType)
    ensures CastMessage(tag, t)[38 + |tag|] == Unit('\'')
  {
    var m := CastMessage(tag, t);
    assert m[38 + |tag|] == m[29 + |tag|..39 + |tag|][9];
  }

  /** No apostrophe between the prefix and the one opening the type name. */
  lemma QuoteFree(tag: Text, t: NativeType, k: int)
    requires NoQuote(tag) && 29 <= k < 38 + |tag|
    ensures CastMessage(tag, t)[k] != Unit('\'')
  {
    var m := CastMessage(tag, t);
    if k < 29 + |tag| {
      assert m[k] == m[29..29 + |tag|][k - 29];
    } else {
      assert m[k] == m[29 + |tag|..39 + |tag|][k - 29 - |tag|];
    }
  }

  lemma DoubleArrayName()
    ensures TypeName(ArrayType(DoubleType)) == Lit("Double[]")
  {
    LitConcat("Double", "[]");
  }

  lemma Join4(a: string, b: string, c: string, d: string)
    requires forall i | 0 <= i < |a| :: a[i] as int < 0x1_0000
    requires forall i | 0 <= i < |b| :: b[i] as int < 0x1_0000
    requires forall i | 0 <= i < |c| :: c[i] as int < 0x1_0000
    requires forall i | 0 <= i < |d| :: d[i] as int < 0x1_0000
    ensures Lit(a) + Lit(b) + Lit(c) + Lit(d) == Lit(a + b + c + d)
  {
    LitConcat(a, b);
    LitConcat(a + b, c);
    LitConcat(a + b + c, d);
  }
}
