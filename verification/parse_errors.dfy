/** The parser's failures (`JsonParserException`) and their golden messages
    "<message> <item> at <position>". */
module ParseErrors {
  import opened Text16

  /** What an `Expecting` error names. */
  datatype Expected =
    | Char(c: Char16)        // "'c'"
    | Digit                  // "digit"
    | MemberName             // "string"
    | CommaOr(closer: Char16) // "',' or ']'" and "',' or '}'"

  /** Every failure carries the 0-based count of code units consumed. */
  datatype ParseError =
    | Expecting(what: Expected, pos: nat)
    | UnexpectedChar(ch: Char16, pos: nat)
    | UnexpectedEnd(pos: nat)
    | InvalidEscape(ch: Char16, pos: nat)
    | InvalidUnicodeEscape(ch: Char16, pos: nat)
    | TooDeepNesting(depth: nat, pos: nat)   // depth = open containers before the offending one

  function Quoted(c: Char16): Text {
    [Unit('\'')] + [c] + [Unit('\'')]
  }

  function ExpectedText(what: Expected): Text {
    match what
    case Char(c) => Quoted(c)
    case Digit => Lit("digit")
    case MemberName => Lit("string")
    case CommaOr(closer) => Quoted(Unit(',')) + Lit(" or ") + Quoted(closer)
  }

  /** `m` opens with `word` and a space. */
  predicate OpensWith(m: Text, word: Text) {
    |m| > |word| && m[..|word|] == word && m[|word|] == Unit(' ')
  }

  /** The exception's constructor: `$"{message} {item} at {position}"`. */
  function Render(message: Text, item: Text, pos: nat): (r: Text)
    ensures |r| == |message| + 1 + |item| + 4 + |DecimalText(pos)|
    ensures r[..|message|] == message
    ensures r[|message|] == Unit(' ') && OpensWith(r, message)
    ensures r[|message| + 1..|message| + 1 + |item|] == item
    ensures r[|r| - |DecimalText(pos)|..] == DecimalText(pos)
    ensures r[|r| - |DecimalText(pos)| - 4..|r| - |DecimalText(pos)|] == Lit(" at ")
  {
    message + [Unit(' ')] + item + Lit(" at ") + DecimalText(pos)
  }

  /** The leading words of the messages. */
  const ExpectingWord: Text := Lit("Expecting")
  const UnexpectedWord: Text := Lit("Unexpected")
  const InvalidWord: Text := Lit("Invalid")
  const TooDeepWord: Text := Lit("Too deep nesting")

  /** Every message ends with the position; one about the nesting limit
      names the depth the offending container would have had. */
  function Message(e: ParseError): (m: Text)
    ensures |m| > |DecimalText(e.pos)| && m[|m| - |DecimalText(e.pos)|..] == DecimalText(e.pos)
    ensures e.TooDeepNesting? ==> OpensWith(m, TooDeepWord)
  {
    match e
    case Expecting(what, pos) => Render(ExpectingWord, ExpectedText(what), pos)
    case UnexpectedChar(ch, pos) => Render(UnexpectedWord, Lit("character ") + Quoted(ch), pos)
    case UnexpectedEnd(pos) => Render(UnexpectedWord, Lit("end"), pos)
    case InvalidEscape(ch, pos) => Render(InvalidWord, Lit("escape character ") + Quoted(ch), pos)
    case InvalidUnicodeEscape(ch, pos) => Render(InvalidWord, Lit("unicode escape ") + Quoted(ch), pos)
    case TooDeepNesting(depth, pos) => NestingMessage(depth, pos)
  }

  /** Each kind of failure opens its message with its own word. */
  lemma MessageOpening(e: ParseError)
    ensures e.Expecting? ==> OpensWith(Message(e), ExpectingWord)
    ensures e.UnexpectedChar? || e.UnexpectedEnd? ==> OpensWith(Message(e), UnexpectedWord)
    ensures e.InvalidEscape? || e.InvalidUnicodeEscape? ==> OpensWith(Message(e), InvalidWord)
  {
    match e
    case Expecting(_, _) =>
    case UnexpectedChar(_, _) =>
    case UnexpectedEnd(_) =>
    case InvalidEscape(_, _) =>
    case InvalidUnicodeEscape(_, _) =>
    case TooDeepNesting(_, _) =>
  }

  /** The nesting-limit message names the depth after its leading words. */
  function NestingMessage(depth: nat, pos: nat): (m: Text)
    ensures |m| > |DecimalText(pos)| && m[|m| - |DecimalText(pos)|..] == DecimalText(pos)
    ensures OpensWith(m, TooDeepWord)
    ensures |m| >= |TooDeepWord| + 1 + |DecimalText(depth + 1)|
    ensures m[|TooDeepWord| + 1..|TooDeepWord| + 1 + |DecimalText(depth + 1)|] == DecimalText(depth + 1)
  {
    Render(TooDeepWord, DecimalText(depth + 1), pos)
  }
}
