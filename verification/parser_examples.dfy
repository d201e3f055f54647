/** The parser on inputs DynaJson's tests exercise, with the messages
    they expect, and the closer guard of `JsonParser.cs` as written. */
module ParserExamples {
  import opened Text16
  import opened Results
  import opened ParseErrors
  import opened JsonLexer
  import opened JsonTree
  import opened JsonGrammar
  import opened JsonParser

  lemma EmptyInput()
    ensures Parse([], DefaultMaxDepth) == Err(UnexpectedEnd(0))
  {
  }

  lemma EmptyInputMessage()
    ensures Message(UnexpectedEnd(0)) == Lit("Unexpected end at 0")
  {
  }

  lemma MisspelledNull()
    ensures Parse(Lit("nula"), DefaultMaxDepth) == Err(Expecting(Char(Unit('l')), 3))
  {
    var s := Lit("nula");
    var err := Expecting(Char(Unit('l')), 3);
    assert s[0] == Unit('n');
    NulaLiteral();
    assert SkipWhiteSpaces(s, 0) == 0;
    assert ParseScalar(s, 0) == Err(err);
    assert ValueStep(s, DefaultMaxDepth, 0, []) == Halt(Err(err), false);
    assert Run(s, DefaultMaxDepth, State(0, AtValue, [])) == (Err(err), false);
  }

  /** `nula` stops matching `null` at its last unit. */
  lemma NulaLiteral()
    ensures Literal(Lit("nula"), 0, Lit("null"), Null) == Err(Expecting(Char(Unit('l')), 3))
  {
    var s := Lit("nula");
    var w := Lit("null");
    assert s[1] == w[1] && s[2] == w[2] && Peek(s, 3) != w[3];
    var tail := w[1..];
    assert tail[1..] == w[2..] && tail[1..][1..] == w[3..];
    assert CheckToken(s, 3, w[3..]) == Err(Expecting(Char(w[3]), 3));
    assert CheckToken(s, 2, w[2..]) == CheckToken(s, 3, w[3..]);
    assert CheckToken(s, 1, tail) == CheckToken(s, 2, w[2..]);
  }

  lemma MisspelledNullMessage()
    ensures Message(Expecting(Char(Unit('l')), 3)) == Lit("Expecting 'l' at 3")
  {
  }

  /** The limit counts the containers already open when a new one starts:
      with a limit of 1 the inner array of `[[]]` is refused, and the message
      names the depth it would have had. */
  lemma NestingLimit()
    ensures Parse(Lit("[[]]"), 1) == Err(TooDeepNesting(1, 1))
  {
    var s := Lit("[[]]");
    assert s[0] == Unit('[') && s[1] == Unit('[');
  }

  lemma NestingLimitMessage()
    ensures Message(TooDeepNesting(1, 1)) == Lit("Too deep nesting 2 at 1")
  {
  }

  /** The guard as written lets a closer end a container of the other kind
      exactly when the intended guard refuses it. */
  lemma OverlayGuardAdmitsMismatch(open: seq<Frame>, c: Char16)
    requires c == Unit(']') || c == Unit('}')
    ensures ClosesAsWritten(open, c) && !Closes(open, c) <==>
      open != [] && (if c == Unit(']') then Top(open).ObjectFrame? else Top(open).ArrayFrame?)
  {
  }

  /** On `[}` the guard as written passes at position 1, inside the array. */
  lemma OverlayGuardOnMismatchedCloser()
    ensures var s := Lit("[}");
      && ValueStep(s, DefaultMaxDepth, 0, []) == Next(State(1, AtValue, [ArrayFrame([])]))
      && ClosesAsWritten([ArrayFrame([])], s[1]) && !Closes([ArrayFrame([])], s[1])
  {
  }

  /** With the intended guard a closer of the wrong kind is an unexpected
      character. */
  lemma MismatchedCloserRefused(s: Text, maxDepth: int, p: nat, open: seq<Frame>)
    requires p < |s| && open != []
    requires (s[p] == Unit(']') && Top(open).ObjectFrame?) || (s[p] == Unit('}') && Top(open).ArrayFrame?)
    ensures ValueStep(s, maxDepth, p, open) == Halt(Err(UnexpectedChar(s[p], p)), false)
  {
  }

  lemma MismatchedCloserExample()
    ensures Parse(Lit("[}"), DefaultMaxDepth) == Err(UnexpectedChar(Unit('}'), 1))
  {
    var s := Lit("[}");
    assert s[0] == Unit('[') && s[1] == Unit('}');
    assert ValueStep(s, DefaultMaxDepth, 0, []) == Next(State(1, AtValue, [ArrayFrame([])]));
    MismatchedCloserRefused(s, DefaultMaxDepth, 1, [ArrayFrame([])]);
  }

  /** A comma right before the closer is tolerated: `[0,]` is `[0]`. */
  lemma TrailingCommaExample()
    ensures Parse(Lit("[0,]"), DefaultMaxDepth) == Ok(Array([Number(0.0)]))
  {
    var s := Lit("[0,]");
    assert s[0] == Unit('[') && s[1] == Unit('0') && s[2] == Unit(',') && s[3] == Unit(']');
    TrailingCommaRun(s);
  }

  lemma TrailingCommaRun(s: Text)
    requires |s| == 4 && s[0] == Unit('[') && s[1] == Unit('0') && s[2] == Unit(',') && s[3] == Unit(']')
    ensures Parse(s, DefaultMaxDepth) == Ok(Array([Number(0.0)]))
  {
    var m := DefaultMaxDepth;
    var zero := Number(0.0);
    var here := [ArrayFrame([zero])];
    OneItemThenComma(s, m);
    assert SkipWhiteSpaces(s, 4) == 4;
    assert AfterValueStep(s, 4, Array([zero]), []) == Halt(Ok(Array([zero])), true);
    assert ValueStep(s, m, 3, here) == Next(State(4, AfterValue(Array([zero])), []));
  }

  /** A second comma is not a value: `[1,,]` fails at the second comma. */
  lemma DoubleCommaExample()
    ensures Parse(Lit("[1,,]"), DefaultMaxDepth) == Err(UnexpectedChar(Unit(','), 3))
  {
    var s := Lit("[1,,]");
    assert s[0] == Unit('[') && s[1] == Unit('1') && s[2] == Unit(',') && s[3] == Unit(',') && |s| == 5;
    DoubleCommaRun(s);
  }

  lemma DoubleCommaRun(s: Text)
    requires |s| == 5 && s[0] == Unit('[') && s[1] == Unit('1') && s[2] == Unit(',') && s[3] == Unit(',')
    ensures Parse(s, DefaultMaxDepth) == Err(UnexpectedChar(Unit(','), 3))
  {
    var m := DefaultMaxDepth;
    OneItemThenComma(s, m);
    assert ValueStep(s, m, 3, [ArrayFrame([Number(1.0)])]) == Halt(Err(UnexpectedChar(Unit(','), 3)), false);
  }

  /** `[d,` followed by a non-blank: the loop reaches position 3 with the
      one-digit number as the array's only item. */
  lemma OneItemThenComma(s: Text, m: int)
    requires |s| >= 4 && s[0] == Unit('[') && IsDigit(s[1]) && s[2] == Unit(',') && !IsWhiteSpace(s[3]) && m != 0
    ensures ParseWithBuffer(s, m) == Run(s, m, State(3, AtValue, [ArrayFrame([Number(DigitValue(s[1]) as real)])]))
  {
    var x := Number(DigitValue(s[1]) as real);
    OneItemRead(s, m);
    ItemCommaTaken(s, m, x);
    assert SkipWhiteSpaces(s, 0) == 0;
  }

  /** `[d` then `,`: the array opens and the digit is read as its first value. */
  lemma OneItemRead(s: Text, m: int)
    requires |s| >= 3 && s[0] == Unit('[') && IsDigit(s[1]) && s[2] == Unit(',') && m != 0
    ensures Run(s, m, State(0, AtValue, []))
         == Run(s, m, State(2, AfterValue(Number(DigitValue(s[1]) as real)), [ArrayFrame([])]))
  {
    var x := Number(DigitValue(s[1]) as real);
    var start := [ArrayFrame([])];
    OneDigitScalar(s);
    assert SkipWhiteSpaces(s, 1) == 1 && SkipWhiteSpaces(s, 2) == 2;
    assert ValueStep(s, m, 0, []) == Next(State(1, AtValue, start));
    assert ValueStep(s, m, 1, start) == Next(State(2, AfterValue(x), start));
  }

  /** The comma after the first item adds it to the array. */
  lemma ItemCommaTaken(s: Text, m: int, x: Json)
    requires |s| >= 4 && s[2] == Unit(',') && !IsWhiteSpace(s[3])
    ensures Run(s, m, State(2, AfterValue(x), [ArrayFrame([])]))
         == Run(s, m, State(3, AtValue, [ArrayFrame([x])]))
  {
    var start := [ArrayFrame([])];
    assert SkipWhiteSpaces(s, 3) == 3;
    assert start[..|start| - 1] == [] && [] + [x] == [x];
    assert WithTop(start, ArrayFrame([x])) == [ArrayFrame([x])];
    assert AfterValueStep(s, 2, x, start) == Next(State(3, AtValue, [ArrayFrame([x])]));
  }

  /** A single digit followed by a comma lexes as that digit's number. */
  lemma OneDigitScalar(s: Text)
    requires |s| >= 3 && IsDigit(s[1]) && s[2] == Unit(',')
    ensures ParseScalar(s, 1) == Ok((Number(DigitValue(s[1]) as real), 2))
  {
    assert DigitRun(s, 2) == 2 && DigitRun(s, 1) == 2;
    assert s[1..2] == [s[1]] && DigitsValue(s[1..2]) == DigitValue(s[1]);
    assert GetFraction(s, 2) == Ok((0.0, 2)) && GetExponent(s, 2) == Ok((0, 2));
  }

  /** A member name must be followed by a colon: `{"at",1}` fails at 5. */
  lemma MissingColonExample()
    ensures Parse(Lit("{\"at\",1}"), DefaultMaxDepth) == Err(Expecting(Char(Unit(':')), 5))
  {
    var s := Lit("{\"at\",1}");
    assert s[0] == Unit('{') && s[1] == Unit('"') && s[2] == Unit('a') && s[3] == Unit('t') && s[4] == Unit('"') && s[5] == Unit(',');
  }

  /** Only whitespace may follow the document's value: `1a` fails at 1. */
  lemma TrailingCharacterExample()
    ensures Parse(Lit("1a"), DefaultMaxDepth) == Err(UnexpectedChar(Unit('a'), 1))
  {
    var s := Lit("1a");
    assert s[0] == Unit('1') && s[1] == Unit('a');
  }

  /** A closer at top level is an unexpected character. */
  lemma StrayCloserExample()
    ensures Parse(Lit("]"), DefaultMaxDepth) == Err(UnexpectedChar(Unit(']'), 0))
  {
    var s := Lit("]");
    assert s[0] == Unit(']');
  }

  /** A raw control character inside a string is refused where it stands. */
  lemma RawControlExample()
    ensures Parse([Unit('"'), 0x08, Unit('"')], DefaultMaxDepth) == Err(UnexpectedChar(0x08, 1))
  {
  }

  /** Input that ends inside a string fails at its end: `"a` fails at 2. */
  lemma UnterminatedStringExample()
    ensures Parse(Lit("\"a"), DefaultMaxDepth) == Err(UnexpectedEnd(2))
  {
    var s := Lit("\"a");
    assert s[0] == Unit('"') && s[1] == Unit('a');
  }
}
