/** The language the parser accepts, read as recursive descent. The parser
    itself walks it with an explicit stack (module `JsonParser`); this
    reading is the reference it is proved against. It keeps the source's
    leniencies: leading zeros, a trailing comma before `]` or `}`, and a
    member whose value is missing before `}` (`{"a":}` is `{}`). */
module JsonGrammar {
  import opened Text16
  import opened Results
  import opened ParseErrors
  import opened JsonLexer
  import opened JsonTree

  /** The nesting limit: a negative `maxDepth` never matches the count of
      open containers, so it sets no limit. */
  predicate DepthOk(depth: nat, maxDepth: int) {
    maxDepth < 0 || depth <= maxDepth
  }

  /** A value fits inside `depth` open containers and its dictionaries have
      distinct keys. */
  predicate Sound(v: Json, depth: nat, maxDepth: int) {
    DepthOk(depth + Depth(v), maxDepth) && WellFormed(v)
  }

  /** Array items collected inside `depth` open containers. */
  predicate ItemsSound(items: seq<Json>, depth: nat, maxDepth: int) {
    DepthOk(depth + ItemsDepth(items), maxDepth) && forall i | 0 <= i < |items| :: WellFormed(items[i])
  }

  /** Object members collected inside `depth` open containers. */
  predicate MembersSound(members: seq<Member>, depth: nat, maxDepth: int) {
    && DepthOk(depth + MembersDepth(members), maxDepth)
    && UniqueKeys(members) && forall i | 0 <= i < |members| :: WellFormed(members[i].value)
  }

  lemma ArraySound(items: seq<Json>, depth: nat, maxDepth: int)
    requires depth >= 1 && ItemsSound(items, depth, maxDepth)
    ensures Sound(Array(items), depth - 1, maxDepth)
  {
  }

  lemma ObjectSound(members: seq<Member>, depth: nat, maxDepth: int)
    requires depth >= 1 && MembersSound(members, depth, maxDepth)
    ensures Sound(Object(members), depth - 1, maxDepth)
  {
  }

  predicate StartsScalar(c: Char16) {
    IsDigit(c) || c == Unit('-') || c == Unit('n') || c == Unit('t') || c == Unit('f') || c == Unit('"')
  }

  /** A number, a literal or a string at `p`: the cases of the parser's
      switch that complete a value without opening a container. */
  function ParseScalar(s: Text, p: nat): (r: Result<(Json, nat), ParseError>)
    requires p <= |s| && StartsScalar(Peek(s, p))
    ensures r.Ok? ==> p < r.value.1 <= |s| && Depth(r.value.0) == 0 && WellFormed(r.value.0)
    ensures r.Ok? ==> match r.value.0
      case Number(_) =>
        && IsNumberLexeme(s[p..r.value.1])
        && forall e | r.value.1 < e <= |s| :: !NumberViable(s[p..e])
      case Null => s[p..r.value.1] == Lit("null")
      case True => s[p..r.value.1] == Lit("true")
      case False => s[p..r.value.1] == Lit("false")
      case String(t) => s[p] == Unit('"') && ScanString(s, p + 1, []) == Ok((t, r.value.1))
      case _ => false
    ensures r.Err? ==> p <= r.error.pos <= |s| && !r.error.TooDeepNesting?
  {
    var c := s[p];
    if c == Unit('n') then Literal(s, p, Lit("null"), Null)
    else if c == Unit('t') then Literal(s, p, Lit("true"), True)
    else if c == Unit('f') then Literal(s, p, Lit("false"), False)
    else if c == Unit('"') then
      match ScanString(s, p + 1, [])
      case Err(e) => Err(e)
      case Ok((t, q)) => Ok((String(t), q))
    else
      GetNumberLongest(s, p);
      match GetNumber(s, p)
      case Err(e) => Err(e)
      case Ok((x, q)) => Ok((Number(x), q))
  }

  /** `CheckToken` after the literal's first character. */
  function Literal(s: Text, p: nat, word: Text, v: Json): (r: Result<(Json, nat), ParseError>)
    requires p < |s| && |word| > 0 && s[p] == word[0]
    requires forall i | 0 <= i < |word| :: word[i] != 0
    ensures r.Ok? <==> p + |word| <= |s| && s[p..p + |word|] == word
    ensures r.Ok? ==> r.value == (v, p + |word|)
    ensures r.Err? ==> r.error.Expecting? && p < r.error.pos <= |s|
  {
    match CheckToken(s, p + 1, word[1..])
    case Err(e) => Err(e)
    case Ok(q) =>
      assert s[p..q] == [s[p]] + s[p + 1..q];
      Ok((v, q))
  }

  /** A value starting exactly at `p`, inside `depth` open containers.
      Closing brackets are not values: the callers handle them. */
  function ParseValue(s: Text, p: nat, depth: nat, maxDepth: int): (r: Result<(Json, nat), ParseError>)
    requires p <= |s| && DepthOk(depth, maxDepth)
    ensures r.Ok? ==> p < r.value.1 <= |s|
    ensures r.Ok? ==> Sound(r.value.0, depth, maxDepth)
    ensures r.Err? ==> p <= r.error.pos <= |s|
    ensures r.Err? && r.error.TooDeepNesting? ==> r.error.depth as int == maxDepth
    decreases |s| - p, 0
  {
    var c := Peek(s, p);
    if StartsScalar(c) then ParseScalar(s, p)
    else if c == Unit('[') || c == Unit('{') then
      if depth == maxDepth then Err(TooDeepNesting(depth, p))
      else if c == Unit('[') then ParseElements(s, SkipWhiteSpaces(s, p + 1), depth + 1, maxDepth, [])
      else ParseMembers(s, p + 1, depth + 1, maxDepth, [])
    else if p == |s| then Err(UnexpectedEnd(p))
    else Err(UnexpectedChar(c, p))
  }

  /** The rest of an array whose items so far are `items`, at a position
      where an item or `]` may appear. */
  function ParseElements(s: Text, p: nat, depth: nat, maxDepth: int, items: seq<Json>): (r: Result<(Json, nat), ParseError>)
    requires p <= |s| && depth >= 1
    requires ItemsSound(items, depth, maxDepth)
    ensures r.Ok? ==> p < r.value.1 <= |s|
    ensures r.Ok? ==> r.value.0.Array?
    ensures r.Ok? ==> Sound(r.value.0, depth - 1, maxDepth)
    ensures r.Err? ==> p <= r.error.pos <= |s|
    ensures r.Err? && r.error.TooDeepNesting? ==> r.error.depth as int == maxDepth
    decreases |s| - p, 1
  {
    ArraySound(items, depth, maxDepth);
    if Peek(s, p) == Unit(']') then Ok((Array(items), p + 1))
    else
      match ParseValue(s, p, depth, maxDepth)
      case Err(e) => Err(e)
      case Ok((v, q)) =>
        AppendItemSound(items, v, depth, maxDepth);
        AfterItem(s, q, depth, maxDepth, items + [v])
  }

  /** After an array item: `]` closes the array, `,` leads to the next item. */
  function AfterItem(s: Text, q: nat, depth: nat, maxDepth: int, items: seq<Json>): (r: Result<(Json, nat), ParseError>)
    requires q <= |s| && depth >= 1
    requires ItemsSound(items, depth, maxDepth)
    ensures r.Ok? ==> q < r.value.1 <= |s|
    ensures r.Ok? ==> r.value.0.Array?
    ensures r.Ok? ==> Sound(r.value.0, depth - 1, maxDepth)
    ensures r.Err? ==> q <= r.error.pos <= |s|
    ensures r.Err? && r.error.TooDeepNesting? ==> r.error.depth as int == maxDepth
    decreases |s| - q, 0
  {
    ArraySound(items, depth, maxDepth);
    var k := SkipWhiteSpaces(s, q);
    if Peek(s, k) == Unit(']') then Ok((Array(items), k + 1))
    else if Peek(s, k) != Unit(',') then Err(Expecting(CommaOr(Unit(']')), k))
    else ParseElements(s, SkipWhiteSpaces(s, k + 1), depth, maxDepth, items)
  }

  /** A member name and its colon, at a position where the name's quote
      stands: the name and the position after the colon and whitespace. */
  function ParseKey(s: Text, k: nat): (r: Result<(Text, nat), ParseError>)
    requires k < |s| && s[k] == Unit('"')
    ensures r.Ok? ==> k + 3 <= r.value.1 <= |s| && !IsWhiteSpace(Peek(s, r.value.1))
    ensures r.Ok? ==> ScanString(s, k + 1, []).Ok? && ScanString(s, k + 1, []).value.0 == r.value.0
    ensures r.Err? ==> k <= r.error.pos <= |s| && !r.error.TooDeepNesting?
  {
    match ScanString(s, k + 1, [])
    case Err(e) => Err(e)
    case Ok((key, q)) =>
      var colon := SkipWhiteSpaces(s, q);
      if Peek(s, colon) != Unit(':') then Err(Expecting(Char(Unit(':')), colon))
      else Ok((key, SkipWhiteSpaces(s, colon + 1)))
  }

  /** The rest of an object whose members so far are `members`, just after
      `{` or after a `,`: the parser's `GetKey` label. */
  function ParseMembers(s: Text, p: nat, depth: nat, maxDepth: int, members: seq<Member>): (r: Result<(Json, nat), ParseError>)
    requires p <= |s| && depth >= 1
    requires MembersSound(members, depth, maxDepth)
    ensures r.Ok? ==> p < r.value.1 <= |s|
    ensures r.Ok? ==> r.value.0.Object?
    ensures r.Ok? ==> Sound(r.value.0, depth - 1, maxDepth)
    ensures r.Err? ==> p <= r.error.pos <= |s|
    ensures r.Err? && r.error.TooDeepNesting? ==> r.error.depth as int == maxDepth
    decreases |s| - p, 1
  {
    ObjectSound(members, depth, maxDepth);
    var k := SkipWhiteSpaces(s, p);
    if Peek(s, k) == Unit('}') then Ok((Object(members), k + 1))
    else if Peek(s, k) != Unit('"') then Err(Expecting(MemberName, k))
    else
      match ParseKey(s, k)
      case Err(e) => Err(e)
      case Ok((key, at)) => MemberValue(s, at, depth, maxDepth, members, key)
  }

  /** After a member name's colon: the value, or `}` ending the object with
      the dangling name dropped. */
  function MemberValue(s: Text, p: nat, depth: nat, maxDepth: int, members: seq<Member>, key: Text): (r: Result<(Json, nat), ParseError>)
    requires p <= |s| && depth >= 1
    requires MembersSound(members, depth, maxDepth)
    ensures r.Ok? ==> p < r.value.1 <= |s|
    ensures r.Ok? ==> r.value.0.Object?
    ensures r.Ok? ==> Sound(r.value.0, depth - 1, maxDepth)
    ensures r.Err? ==> p <= r.error.pos <= |s|
    ensures r.Err? && r.error.TooDeepNesting? ==> r.error.depth as int == maxDepth
    decreases |s| - p, 1
  {
    ObjectSound(members, depth, maxDepth);
    if Peek(s, p) == Unit('}') then Ok((Object(members), p + 1))
    else
      match ParseValue(s, p, depth, maxDepth)
      case Err(e) => Err(e)
      case Ok((v, q)) =>
        AddKeepsShape(members, key, v, depth, maxDepth);
        AfterMember(s, q, depth, maxDepth, Add(members, key, v))
  }

  /** After a member's value: `}` closes the object, `,` leads to the next
      member name. */
  function AfterMember(s: Text, q: nat, depth: nat, maxDepth: int, members: seq<Member>): (r: Result<(Json, nat), ParseError>)
    requires q <= |s| && depth >= 1
    requires MembersSound(members, depth, maxDepth)
    ensures r.Ok? ==> q < r.value.1 <= |s|
    ensures r.Ok? ==> r.value.0.Object?
    ensures r.Ok? ==> Sound(r.value.0, depth - 1, maxDepth)
    ensures r.Err? ==> q <= r.error.pos <= |s|
    ensures r.Err? && r.error.TooDeepNesting? ==> r.error.depth as int == maxDepth
    decreases |s| - q, 0
  {
    ObjectSound(members, depth, maxDepth);
    var k := SkipWhiteSpaces(s, q);
    if Peek(s, k) == Unit('}') then Ok((Object(members), k + 1))
    else if Peek(s, k) != Unit(',') then Err(Expecting(CommaOr(Unit('}')), k))
    else ParseMembers(s, k + 1, depth, maxDepth, members)
  }

  lemma AppendItemSound(items: seq<Json>, v: Json, depth: nat, maxDepth: int)
    requires ItemsSound(items, depth, maxDepth) && Sound(v, depth, maxDepth)
    ensures ItemsSound(items + [v], depth, maxDepth)
  {
    ItemsDepthAppend(items, v);
  }

  lemma AddKeepsShape(members: seq<Member>, key: Text, v: Json, depth: nat, maxDepth: int)
    requires MembersSound(members, depth, maxDepth) && Sound(v, depth, maxDepth)
    ensures MembersSound(Add(members, key, v), depth, maxDepth)
  {
    MembersDepthAppend(members, Member(key, v));
  }

  /** A whole document: one value between optional whitespace. */
  function ParseDocument(s: Text, maxDepth: int): (r: Result<Json, ParseError>)
    ensures r.Ok? ==> DepthOk(Depth(r.value), maxDepth) && WellFormed(r.value)
    ensures r.Err? ==> r.error.pos <= |s|
    ensures r.Err? && r.error.TooDeepNesting? ==> r.error.depth as int == maxDepth
  {
    match ParseValue(s, SkipWhiteSpaces(s, 0), 0, maxDepth)
    case Err(e) => Err(e)
    case Ok((v, q)) =>
      var e := SkipWhiteSpaces(s, q);
      if e == |s| then Ok(v) else Err(UnexpectedChar(s[e], e))
  }
}
