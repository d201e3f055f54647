/** `JsonParser.ParseInternal`: one loop over the input with an explicit
    stack of open containers in place of recursion, so that the nesting
    depth is bounded by `maxDepth` and not by the call stack. */
module JsonParser {
  import opened Text16
  import opened Results
  import opened ParseErrors
  import opened JsonLexer
  import opened JsonTree
  import opened JsonGrammar

  /** The nesting limit `DynaJson.Parse` passes, `DynaJson.MaxDepth`. */
  const DefaultMaxDepth: int := 512

  /** An open container, the source's `Context`: an array under
      construction, or a dictionary with the key whose value is awaited. */
  datatype Frame =
    | ArrayFrame(items: seq<Json>)
    | ObjectFrame(members: seq<Member>, key: Text)

  /** Where the loop stands: at the switch on the next character, just after
      a completed value, or at the `GetKey` label. */
  datatype Phase = AtValue | AfterValue(value: Json) | AtKey

  /** `open` lists the open containers from the outermost; its length is
      `_stack.Count` and its last frame is the current `context`. */
  datatype State = State(pos: nat, phase: Phase, open: seq<Frame>)

  /** One turn of the loop either continues or leaves it. A result leaves
      with the pooled buffer returned only from the top-level check after a
      complete value; every other exit abandons it. */
  datatype Outcome =
    | Next(state: State)
    | Halt(result: Result<Json, ParseError>, bufferReturned: bool)

  function Top(open: seq<Frame>): Frame
    requires open != []
  {
    open[|open| - 1]
  }

  /** The stack with its current frame replaced. */
  function WithTop(open: seq<Frame>, f: Frame): (r: seq<Frame>)
    requires open != []
    ensures |r| == |open| && r != [] && Top(r) == f
  {
    open[..|open| - 1] + [f]
  }

  predicate Good(s: Text, st: State) {
    st.pos <= |s| && (st.phase.AtKey? ==> st.open != [] && Top(st.open).ObjectFrame?)
  }

  /** The closer may end the current container: `]` an array, `}` an object. */
  predicate Closes(open: seq<Frame>, closer: Char16): (b: bool)
    ensures closer == Unit(']') || closer == Unit('}') ==>
      (b <==> open != [] && (Top(open).ArrayFrame? <==> closer == Unit(']')))
  {
    && open != []
    && (closer == Unit(']') ==> Top(open).ArrayFrame?)
    && (closer == Unit('}') ==> Top(open).ObjectFrame?)
  }

  /** The closer guard as the source writes it, `context.Array == null` and
      `context.Dictionary == null`: both fields share one slot of the
      `Context` struct, so either test passes inside any open container. */
  predicate ClosesAsWritten(open: seq<Frame>, closer: Char16): (b: bool)
    ensures b <==> Closes(open, Unit(']')) || Closes(open, Unit('}'))
  {
    open != []
  }

  /** Every open container is ended by exactly one of the two closers. */
  lemma ClosersExclusive(open: seq<Frame>)
    requires open != []
    ensures Closes(open, Unit(']')) <==> !Closes(open, Unit('}'))
  {
  }

  function Rank(phase: Phase): nat {
    if phase.AtValue? then 0 else 1
  }

  /** The loop makes progress: it consumes input, or it moves on to the
      switch without consuming. */
  predicate Advances(st: State, next: State) {
    st.pos < next.pos || (st.pos == next.pos && Rank(next.phase) < Rank(st.phase))
  }

  /** The switch on the next character. */
  function ValueStep(s: Text, maxDepth: int, p: nat, open: seq<Frame>): (r: Outcome)
    requires p <= |s|
    ensures r.Next? ==> Good(s, r.state) && p < r.state.pos
    ensures r.Next? ==> |r.state.open| <= |open| + 1
    ensures r.Next? && |r.state.open| > |open| ==> |open| != maxDepth
    ensures r.Halt? ==> r.result.Err? && !r.bufferReturned
    ensures r.Halt? && r.result.error.TooDeepNesting? ==> r.result.error.depth == |open| && |open| == maxDepth
  {
    var c := Peek(s, p);
    if StartsScalar(c) then
      match ParseScalar(s, p)
      case Err(e) => Halt(Err(e), false)
      case Ok((v, q)) => Next(State(SkipWhiteSpaces(s, q), AfterValue(v), open))
    else if c == Unit('[') || c == Unit('{') then
      if |open| == maxDepth then Halt(Err(TooDeepNesting(|open|, p)), false)
      else if c == Unit('[') then Next(State(SkipWhiteSpaces(s, p + 1), AtValue, open + [ArrayFrame([])]))
      else Next(State(p + 1, AtKey, open + [ObjectFrame([], [])]))
    else if c == Unit(']') && Closes(open, c) then
      Next(State(SkipWhiteSpaces(s, p + 1), AfterValue(Array(Top(open).items)), open[..|open| - 1]))
    else if c == Unit('}') && Closes(open, c) then
      Next(State(SkipWhiteSpaces(s, p + 1), AfterValue(Object(Top(open).members)), open[..|open| - 1]))
    else if p == |s| then Halt(Err(UnexpectedEnd(p)), false)
    else Halt(Err(UnexpectedChar(c, p)), false)
  }

  /** After a completed value: the top-level check, or adding the value to
      the current container and reading the separator. */
  function AfterValueStep(s: Text, p: nat, v: Json, open: seq<Frame>): (r: Outcome)
    requires p <= |s|
    ensures r.Next? ==> Good(s, r.state) && p <= r.state.pos && !r.state.phase.AfterValue?
    ensures r.Next? ==> |r.state.open| == |open|
    ensures r.Halt? ==> (r.bufferReturned <==> open == [])
    ensures r.Halt? && r.result.Ok? ==> r.bufferReturned && r.result.value == v
    ensures r.Halt? && r.result.Err? ==> !r.result.error.TooDeepNesting?
  {
    if open == [] then
      Halt(if p == |s| then Ok(v) else Err(UnexpectedChar(s[p], p)), true)
    else
      match Top(open)
      case ArrayFrame(items) =>
        var top := WithTop(open, ArrayFrame(items + [v]));
        if Peek(s, p) == Unit(']') then Next(State(p, AtValue, top))
        else if Peek(s, p) != Unit(',') then Halt(Err(Expecting(CommaOr(Unit(']')), p)), false)
        else Next(State(SkipWhiteSpaces(s, p + 1), AtValue, top))
      case ObjectFrame(members, key) =>
        var top := WithTop(open, ObjectFrame(Add(members, key, v), key));
        if Peek(s, p) == Unit('}') then Next(State(p, AtValue, top))
        else if Peek(s, p) != Unit(',') then Halt(Err(Expecting(CommaOr(Unit('}')), p)), false)
        else Next(State(p + 1, AtKey, top))
  }

  /** The `GetKey` label: `}`, or a member name and its colon. */
  function KeyStep(s: Text, p: nat, open: seq<Frame>): (r: Outcome)
    requires p <= |s| && open != [] && Top(open).ObjectFrame?
    ensures r.Next? ==> Good(s, r.state) && p <= r.state.pos && r.state.phase.AtValue?
    ensures r.Next? ==> |r.state.open| == |open|
    ensures r.Halt? ==> r.result.Err? && !r.bufferReturned && !r.result.error.TooDeepNesting?
  {
    var k := SkipWhiteSpaces(s, p);
    if Peek(s, k) == Unit('}') then Next(State(k, AtValue, open))
    else if Peek(s, k) != Unit('"') then Halt(Err(Expecting(MemberName, k)), false)
    else
      match ParseKey(s, k)
      case Err(e) => Halt(Err(e), false)
      case Ok((key, at)) => Next(State(at, AtValue, WithTop(open, ObjectFrame(Top(open).members, key))))
  }

  /** One turn of the loop. */
  function Step(s: Text, maxDepth: int, st: State): (r: Outcome)
    requires Good(s, st)
    ensures r.Next? ==> Good(s, r.state) && Advances(st, r.state)
    ensures r.Next? && DepthOk(|st.open|, maxDepth) ==> DepthOk(|r.state.open|, maxDepth)
    ensures r.Halt? ==> (r.bufferReturned <==> st.phase.AfterValue? && st.open == [])
    ensures r.Halt? && r.result.Ok? ==> r.bufferReturned
    ensures r.Halt? && r.result.Err? && r.result.error.TooDeepNesting? ==>
      r.result.error.depth == |st.open| && |st.open| == maxDepth
  {
    match st.phase
    case AtValue => ValueStep(s, maxDepth, st.pos, st.open)
    case AfterValue(v) => AfterValueStep(s, st.pos, v, st.open)
    case AtKey => KeyStep(s, st.pos, st.open)
  }

  /** The loop from `st` until it leaves: the result and whether the pooled
      buffer went back to the pool. */
  function Run(s: Text, maxDepth: int, st: State): (r: (Result<Json, ParseError>, bool))
    requires Good(s, st)
    ensures r.0.Ok? ==> r.1
    ensures r.1 ==> r.0.Ok? || r.0.error.UnexpectedChar?
    ensures r.0.Err? && r.0.error.TooDeepNesting? && DepthOk(|st.open|, maxDepth) ==> r.0.error.depth as int == maxDepth
    decreases |s| - st.pos, Rank(st.phase)
  {
    match Step(s, maxDepth, st)
    case Next(next) => Run(s, maxDepth, next)
    case Halt(result, returned) => (result, returned)
  }


  // ---------------------------------------------------------------------
  // The loop computes what the recursive grammar describes: each lemma
  // takes the loop at the point where one grammar function starts, with
  // that function's container on top of the stack, and shows the loop
  // continues exactly as if the function's result had been produced in
  // one go.
  // ---------------------------------------------------------------------

  /** How the loop continues after a grammar function's result. */
  function Continue(s: Text, maxDepth: int, r: Result<(Json, nat), ParseError>, open: seq<Frame>): (Result<Json, ParseError>, bool)
    requires r.Ok? ==> r.value.1 <= |s|
  {
    match r
    case Err(e) => (Err(e), false)
    case Ok((v, q)) => Run(s, maxDepth, State(SkipWhiteSpaces(s, q), AfterValue(v), open))
  }

  /** At the switch, a character other than a closer of the current
      container starts a value. */
  lemma {:induction false} ValueSim(s: Text, maxDepth: int, p: nat, open: seq<Frame>)
    requires p <= |s| && DepthOk(|open|, maxDepth)
    requires !Closes(open, Peek(s, p)) || (Peek(s, p) != Unit(']') && Peek(s, p) != Unit('}'))
    ensures Run(s, maxDepth, State(p, AtValue, open)) == Continue(s, maxDepth, ParseValue(s, p, |open|, maxDepth), open)
    decreases |s| - p, 0
  {
    var c := Peek(s, p);
    if c == Unit('[') && |open| != maxDepth {
      var q := SkipWhiteSpaces(s, p + 1);
      ElementsSim(s, maxDepth, q, open, []);
      assert ParseValue(s, p, |open|, maxDepth) == ParseElements(s, q, |open| + 1, maxDepth, []);
    } else if c == Unit('{') && |open| != maxDepth {
      MembersSim(s, maxDepth, p + 1, open, [], []);
      assert ParseValue(s, p, |open|, maxDepth) == ParseMembers(s, p + 1, |open| + 1, maxDepth, []);
    }
  }

  /** Inside an array, where an item or `]` may stand. */
  lemma {:induction false} ElementsSim(s: Text, maxDepth: int, p: nat, open: seq<Frame>, items: seq<Json>)
    requires p <= |s| && ItemsSound(items, |open| + 1, maxDepth)
    ensures Run(s, maxDepth, State(p, AtValue, open + [ArrayFrame(items)]))
         == Continue(s, maxDepth, ParseElements(s, p, |open| + 1, maxDepth, items), open)
    decreases |s| - p, 1
  {
    var d := |open| + 1;
    var here := open + [ArrayFrame(items)];
    assert here[..|here| - 1] == open;
    if Peek(s, p) != Unit(']') {
      ValueSim(s, maxDepth, p, here);
      match ParseValue(s, p, d, maxDepth)
      case Err(_) =>
      case Ok((v, q)) =>
        AppendItemSound(items, v, d, maxDepth);
        AfterItemSim(s, maxDepth, q, open, items, v);
    }
  }

  /** Inside an array, after an item. */
  lemma {:induction false} AfterItemSim(s: Text, maxDepth: int, q: nat, open: seq<Frame>, items: seq<Json>, v: Json)
    requires q <= |s| && ItemsSound(items + [v], |open| + 1, maxDepth)
    ensures Run(s, maxDepth, State(SkipWhiteSpaces(s, q), AfterValue(v), open + [ArrayFrame(items)]))
         == Continue(s, maxDepth, AfterItem(s, q, |open| + 1, maxDepth, items + [v]), open)
    decreases |s| - q, 1
  {
    var k := SkipWhiteSpaces(s, q);
    if Peek(s, k) == Unit(']') || Peek(s, k) != Unit(',') {
      AfterItemEnds(s, maxDepth, q, open, items, v);
    } else {
      AfterItemComma(s, maxDepth, q, open, items, v);
    }
  }

  /** `]` or a stray character after an item. */
  lemma AfterItemEnds(s: Text, maxDepth: int, q: nat, open: seq<Frame>, items: seq<Json>, v: Json)
    requires q <= |s| && ItemsSound(items + [v], |open| + 1, maxDepth)
    requires var k := SkipWhiteSpaces(s, q); Peek(s, k) == Unit(']') || Peek(s, k) != Unit(',')
    ensures Run(s, maxDepth, State(SkipWhiteSpaces(s, q), AfterValue(v), open + [ArrayFrame(items)]))
         == Continue(s, maxDepth, AfterItem(s, q, |open| + 1, maxDepth, items + [v]), open)
  {
    var k := SkipWhiteSpaces(s, q);
    AfterItemStep(s, maxDepth, k, open, items, v);
    AfterItemCases(s, q, |open| + 1, maxDepth, items + [v]);
  }

  /** `,` after an item. */
  lemma {:induction false} AfterItemComma(s: Text, maxDepth: int, q: nat, open: seq<Frame>, items: seq<Json>, v: Json)
    requires q <= |s| && ItemsSound(items + [v], |open| + 1, maxDepth)
    requires var k := SkipWhiteSpaces(s, q); Peek(s, k) != Unit(']') && Peek(s, k) == Unit(',')
    ensures Run(s, maxDepth, State(SkipWhiteSpaces(s, q), AfterValue(v), open + [ArrayFrame(items)]))
         == Continue(s, maxDepth, AfterItem(s, q, |open| + 1, maxDepth, items + [v]), open)
    decreases |s| - q, 0
  {
    var k := SkipWhiteSpaces(s, q);
    assert k < |s| by { assert Peek(s, k) != 0; }
    var p := SkipWhiteSpaces(s, k + 1);
    ItemComma(s, maxDepth, q, p, open, items, v);
    ElementsSim(s, maxDepth, p, open, items + [v]);
  }

  /** `,` after an item: the loop and the grammar both go on at the next
      item, `p`, with the item appended. */
  lemma ItemComma(s: Text, maxDepth: int, q: nat, p: nat, open: seq<Frame>, items: seq<Json>, v: Json)
    requires q <= |s| && ItemsSound(items + [v], |open| + 1, maxDepth)
    requires var k := SkipWhiteSpaces(s, q); k < |s| && Peek(s, k) == Unit(',') && p == SkipWhiteSpaces(s, k + 1)
    ensures q < p <= |s|
    ensures Run(s, maxDepth, State(SkipWhiteSpaces(s, q), AfterValue(v), open + [ArrayFrame(items)]))
         == Run(s, maxDepth, State(p, AtValue, open + [ArrayFrame(items + [v])]))
    ensures AfterItem(s, q, |open| + 1, maxDepth, items + [v]) == ParseElements(s, p, |open| + 1, maxDepth, items + [v])
  {
    ItemCommaRun(s, maxDepth, SkipWhiteSpaces(s, q), p, open, items, v);
    ItemCommaGrammar(s, q, p, |open| + 1, maxDepth, items + [v]);
  }

  lemma ItemCommaRun(s: Text, maxDepth: int, k: nat, p: nat, open: seq<Frame>, items: seq<Json>, v: Json)
    requires k < |s| && Peek(s, k) == Unit(',') && p == SkipWhiteSpaces(s, k + 1)
    ensures Run(s, maxDepth, State(k, AfterValue(v), open + [ArrayFrame(items)]))
         == Run(s, maxDepth, State(p, AtValue, open + [ArrayFrame(items + [v])]))
  {
    AfterItemStep(s, maxDepth, k, open, items, v);
  }

  lemma ItemCommaGrammar(s: Text, q: nat, p: nat, d: nat, maxDepth: int, items: seq<Json>)
    requires q <= |s| && d >= 1 && ItemsSound(items, d, maxDepth)
    requires var k := SkipWhiteSpaces(s, q); k < |s| && Peek(s, k) == Unit(',') && p == SkipWhiteSpaces(s, k + 1)
    ensures AfterItem(s, q, d, maxDepth, items) == ParseElements(s, p, d, maxDepth, items)
  {
    AfterItemCases(s, q, d, maxDepth, items);
  }

  /** `AfterItem` by the character after the item. */
  lemma AfterItemCases(s: Text, q: nat, d: nat, maxDepth: int, items: seq<Json>)
    requires q <= |s| && d >= 1 && ItemsSound(items, d, maxDepth)
    ensures var k := SkipWhiteSpaces(s, q);
      AfterItem(s, q, d, maxDepth, items) ==
        if Peek(s, k) == Unit(']') then Ok((Array(items), k + 1))
        else if Peek(s, k) == Unit(',') then ParseElements(s, SkipWhiteSpaces(s, k + 1), d, maxDepth, items)
        else Err(Expecting(CommaOr(Unit(']')), k))
  {
  }

  /** After an array item: the loop appends it, then `]` closes the array
      and `,` leads to the next item. */
  lemma AfterItemStep(s: Text, maxDepth: int, k: nat, open: seq<Frame>, items: seq<Json>, v: Json)
    requires k <= |s|
    ensures var there := open + [ArrayFrame(items + [v])];
      Run(s, maxDepth, State(k, AfterValue(v), open + [ArrayFrame(items)])) ==
        if Peek(s, k) == Unit(']') then Run(s, maxDepth, State(SkipWhiteSpaces(s, k + 1), AfterValue(Array(items + [v])), open))
        else if Peek(s, k) == Unit(',') then Run(s, maxDepth, State(SkipWhiteSpaces(s, k + 1), AtValue, there))
        else (Err(Expecting(CommaOr(Unit(']')), k)), false)
  {
    var here := open + [ArrayFrame(items)];
    var there := open + [ArrayFrame(items + [v])];
    assert WithTop(here, ArrayFrame(items + [v])) == there;
    assert there[..|there| - 1] == open;
  }

  /** Inside an object, at the `GetKey` label. */
  lemma {:induction false} MembersSim(s: Text, maxDepth: int, p: nat, open: seq<Frame>, members: seq<Member>, key: Text)
    requires p <= |s| && MembersSound(members, |open| + 1, maxDepth)
    ensures Run(s, maxDepth, State(p, AtKey, open + [ObjectFrame(members, key)]))
         == Continue(s, maxDepth, ParseMembers(s, p, |open| + 1, maxDepth, members), open)
    decreases |s| - p, 1
  {
    var here := open + [ObjectFrame(members, key)];
    assert here[..|here| - 1] == open;
    var k := SkipWhiteSpaces(s, p);
    if Peek(s, k) != Unit('}') && Peek(s, k) == Unit('"') {
      match ParseKey(s, k)
      case Err(_) =>
      case Ok((name, at)) =>
        assert WithTop(here, ObjectFrame(members, name)) == open + [ObjectFrame(members, name)];
        MemberValueSim(s, maxDepth, at, open, members, name);
    }
  }

  /** Inside an object, after a member name's colon. */
  lemma {:induction false} MemberValueSim(s: Text, maxDepth: int, p: nat, open: seq<Frame>, members: seq<Member>, key: Text)
    requires p <= |s| && MembersSound(members, |open| + 1, maxDepth)
    ensures Run(s, maxDepth, State(p, AtValue, open + [ObjectFrame(members, key)]))
         == Continue(s, maxDepth, MemberValue(s, p, |open| + 1, maxDepth, members, key), open)
    decreases |s| - p, 1
  {
    var d := |open| + 1;
    var here := open + [ObjectFrame(members, key)];
    assert here[..|here| - 1] == open;
    if Peek(s, p) != Unit('}') {
      ValueSim(s, maxDepth, p, here);
      match ParseValue(s, p, d, maxDepth)
      case Err(_) =>
      case Ok((v, q)) =>
        AddKeepsShape(members, key, v, d, maxDepth);
        AfterMemberSim(s, maxDepth, q, open, members, key, v, Add(members, key, v));
    }
  }

  /** Inside an object, after a member's value. */
  lemma {:induction false} AfterMemberSim(s: Text, maxDepth: int, q: nat, open: seq<Frame>, members: seq<Member>, key: Text, v: Json, next: seq<Member>)
    requires q <= |s| && next == Add(members, key, v) && MembersSound(next, |open| + 1, maxDepth)
    ensures Run(s, maxDepth, State(SkipWhiteSpaces(s, q), AfterValue(v), open + [ObjectFrame(members, key)]))
         == Continue(s, maxDepth, AfterMember(s, q, |open| + 1, maxDepth, next), open)
    decreases |s| - q, 1
  {
    var k := SkipWhiteSpaces(s, q);
    if Peek(s, k) == Unit('}') || Peek(s, k) != Unit(',') {
      AfterMemberEnds(s, maxDepth, q, open, members, key, v, next);
    } else {
      AfterMemberComma(s, maxDepth, q, open, members, key, v, next);
    }
  }

  /** `}` or a stray character after a member's value. */
  lemma AfterMemberEnds(s: Text, maxDepth: int, q: nat, open: seq<Frame>, members: seq<Member>, key: Text, v: Json, next: seq<Member>)
    requires q <= |s| && next == Add(members, key, v) && MembersSound(next, |open| + 1, maxDepth)
    requires var k := SkipWhiteSpaces(s, q); Peek(s, k) == Unit('}') || Peek(s, k) != Unit(',')
    ensures Run(s, maxDepth, State(SkipWhiteSpaces(s, q), AfterValue(v), open + [ObjectFrame(members, key)]))
         == Continue(s, maxDepth, AfterMember(s, q, |open| + 1, maxDepth, next), open)
  {
    var k := SkipWhiteSpaces(s, q);
    AfterMemberStep(s, maxDepth, k, open, members, key, v, next);
    AfterMemberCases(s, q, |open| + 1, maxDepth, next);
  }

  /** `,` after a member's value. */
  lemma {:induction false} AfterMemberComma(s: Text, maxDepth: int, q: nat, open: seq<Frame>, members: seq<Member>, key: Text, v: Json, next: seq<Member>)
    requires q <= |s| && next == Add(members, key, v) && MembersSound(next, |open| + 1, maxDepth)
    requires var k := SkipWhiteSpaces(s, q); Peek(s, k) != Unit('}') && Peek(s, k) == Unit(',')
    ensures Run(s, maxDepth, State(SkipWhiteSpaces(s, q), AfterValue(v), open + [ObjectFrame(members, key)]))
         == Continue(s, maxDepth, AfterMember(s, q, |open| + 1, maxDepth, next), open)
    decreases |s| - q, 0
  {
    var k := SkipWhiteSpaces(s, q);
    assert k < |s| by { assert Peek(s, k) != 0; }
    MembersSim(s, maxDepth, k + 1, open, next, key);
    CommaJoin(s, maxDepth, q, k + 1, open, members, key, v, next);
  }

  /** The comma step joined to the simulation of the members after it. */
  lemma CommaJoin(s: Text, maxDepth: int, q: nat, p: nat, open: seq<Frame>, members: seq<Member>, key: Text, v: Json, next: seq<Member>)
    requires q <= |s| && next == Add(members, key, v) && MembersSound(next, |open| + 1, maxDepth)
    requires var k := SkipWhiteSpaces(s, q); k < |s| && Peek(s, k) == Unit(',') && p == k + 1
    requires Run(s, maxDepth, State(p, AtKey, open + [ObjectFrame(next, key)]))
          == Continue(s, maxDepth, ParseMembers(s, p, |open| + 1, maxDepth, next), open)
    ensures Run(s, maxDepth, State(SkipWhiteSpaces(s, q), AfterValue(v), open + [ObjectFrame(members, key)]))
         == Continue(s, maxDepth, AfterMember(s, q, |open| + 1, maxDepth, next), open)
  {
    MemberComma(s, maxDepth, q, p, open, members, key, v, next);
  }

  /** `,` after a member's value: the loop and the grammar both go on at
      the next key, `p`, with the member added. */
  lemma MemberComma(s: Text, maxDepth: int, q: nat, p: nat, open: seq<Frame>, members: seq<Member>, key: Text, v: Json, next: seq<Member>)
    requires q <= |s| && next == Add(members, key, v) && MembersSound(next, |open| + 1, maxDepth)
    requires var k := SkipWhiteSpaces(s, q); k < |s| && Peek(s, k) == Unit(',') && p == k + 1
    ensures Run(s, maxDepth, State(SkipWhiteSpaces(s, q), AfterValue(v), open + [ObjectFrame(members, key)]))
         == Run(s, maxDepth, State(p, AtKey, open + [ObjectFrame(next, key)]))
    ensures AfterMember(s, q, |open| + 1, maxDepth, next) == ParseMembers(s, p, |open| + 1, maxDepth, next)
  {
    MemberCommaRun(s, maxDepth, SkipWhiteSpaces(s, q), open, members, key, v, next);
    MemberCommaGrammar(s, q, p, |open| + 1, maxDepth, next);
  }

  lemma MemberCommaRun(s: Text, maxDepth: int, k: nat, open: seq<Frame>, members: seq<Member>, key: Text, v: Json, next: seq<Member>)
    requires k < |s| && Peek(s, k) == Unit(',') && next == Add(members, key, v)
    ensures Run(s, maxDepth, State(k, AfterValue(v), open + [ObjectFrame(members, key)]))
         == Run(s, maxDepth, State(k + 1, AtKey, open + [ObjectFrame(next, key)]))
  {
    MemberCommaStep(s, maxDepth, k, open, members, key, v, next);
  }

  lemma MemberCommaGrammar(s: Text, q: nat, p: nat, d: nat, maxDepth: int, members: seq<Member>)
    requires q <= |s| && d >= 1 && MembersSound(members, d, maxDepth)
    requires var k := SkipWhiteSpaces(s, q); k < |s| && Peek(s, k) == Unit(',') && p == k + 1
    ensures AfterMember(s, q, d, maxDepth, members) == ParseMembers(s, p, d, maxDepth, members)
  {
    AfterMemberCases(s, q, d, maxDepth, members);
  }

  /** `AfterMember` by the character after the value. */
  lemma AfterMemberCases(s: Text, q: nat, d: nat, maxDepth: int, members: seq<Member>)
    requires q <= |s| && d >= 1 && MembersSound(members, d, maxDepth)
    ensures var k := SkipWhiteSpaces(s, q);
      AfterMember(s, q, d, maxDepth, members) ==
        if Peek(s, k) == Unit('}') then Ok((Object(members), k + 1))
        else if Peek(s, k) == Unit(',') then ParseMembers(s, k + 1, d, maxDepth, members)
        else Err(Expecting(CommaOr(Unit('}')), k))
  {
  }

  /** After a member's value: the loop adds the member, then `}` closes the
      object and `,` leads back to `GetKey`. */
  lemma AfterMemberStep(s: Text, maxDepth: int, k: nat, open: seq<Frame>, members: seq<Member>, key: Text, v: Json, next: seq<Member>)
    requires k <= |s| && next == Add(members, key, v)
    ensures var there := open + [ObjectFrame(next, key)];
      Run(s, maxDepth, State(k, AfterValue(v), open + [ObjectFrame(members, key)])) ==
        if Peek(s, k) == Unit('}') then Run(s, maxDepth, State(SkipWhiteSpaces(s, k + 1), AfterValue(Object(next)), open))
        else if Peek(s, k) == Unit(',') then Run(s, maxDepth, State(k + 1, AtKey, there))
        else (Err(Expecting(CommaOr(Unit('}')), k)), false)
  {
    if Peek(s, k) == Unit('}') {
      MemberCloseStep(s, maxDepth, k, open, members, key, v, next);
    } else if Peek(s, k) == Unit(',') {
      MemberCommaStep(s, maxDepth, k, open, members, key, v, next);
    }
  }

  /** `}`: the member is added and the object returned to the frame below. */
  lemma MemberCloseStep(s: Text, maxDepth: int, k: nat, open: seq<Frame>, members: seq<Member>, key: Text, v: Json, next: seq<Member>)
    requires k <= |s| && next == Add(members, key, v) && Peek(s, k) == Unit('}')
    ensures Run(s, maxDepth, State(k, AfterValue(v), open + [ObjectFrame(members, key)]))
         == Run(s, maxDepth, State(SkipWhiteSpaces(s, k + 1), AfterValue(Object(next)), open))
  {
    MemberAdded(s, maxDepth, k, open, members, key, v, next);
    ObjectClosed(s, maxDepth, k, open, next, key);
  }

  /** `}` after a member's value: the member is added first. */
  lemma MemberAdded(s: Text, maxDepth: int, k: nat, open: seq<Frame>, members: seq<Member>, key: Text, v: Json, next: seq<Member>)
    requires k <= |s| && next == Add(members, key, v) && Peek(s, k) == Unit('}')
    ensures Run(s, maxDepth, State(k, AfterValue(v), open + [ObjectFrame(members, key)]))
         == Run(s, maxDepth, State(k, AtValue, open + [ObjectFrame(next, key)]))
  {
    var here := open + [ObjectFrame(members, key)];
    assert WithTop(here, ObjectFrame(next, key)) == open + [ObjectFrame(next, key)];
  }

  /** `}` in an object then returns the object to the frame below. */
  lemma ObjectClosed(s: Text, maxDepth: int, k: nat, open: seq<Frame>, members: seq<Member>, key: Text)
    requires k <= |s| && Peek(s, k) == Unit('}')
    ensures Run(s, maxDepth, State(k, AtValue, open + [ObjectFrame(members, key)]))
         == Run(s, maxDepth, State(SkipWhiteSpaces(s, k + 1), AfterValue(Object(members)), open))
  {
    var there := open + [ObjectFrame(members, key)];
    assert k < |s| by { assert Peek(s, k) != 0; }
    assert there[..|there| - 1] == open;
  }

  /** `,`: the member is added and the loop goes on at the next key. */
  lemma MemberCommaStep(s: Text, maxDepth: int, k: nat, open: seq<Frame>, members: seq<Member>, key: Text, v: Json, next: seq<Member>)
    requires k <= |s| && next == Add(members, key, v) && Peek(s, k) == Unit(',')
    ensures Run(s, maxDepth, State(k, AfterValue(v), open + [ObjectFrame(members, key)]))
         == Run(s, maxDepth, State(k + 1, AtKey, open + [ObjectFrame(next, key)]))
  {
    var here := open + [ObjectFrame(members, key)];
    assert WithTop(here, ObjectFrame(next, key)) == open + [ObjectFrame(next, key)];
  }

  // ---------------------------------------------------------------------
  // Entry
  // ---------------------------------------------------------------------

  /** `JsonParser.Parse`: skip leading whitespace and run the loop with no
      container open. It computes the recursive grammar's reading of the
      whole document, and it returns the pooled buffer exactly when a
      complete top-level value was read, whatever follows it. */
  function ParseWithBuffer(s: Text, maxDepth: int): (r: (Result<Json, ParseError>, bool))
    ensures r.0 == ParseDocument(s, maxDepth)
    ensures r.1 <==> ParseValue(s, SkipWhiteSpaces(s, 0), 0, maxDepth).Ok?
    ensures r.0.Ok? ==> r.1
  {
    ValueSim(s, maxDepth, SkipWhiteSpaces(s, 0), []);
    Run(s, maxDepth, State(SkipWhiteSpaces(s, 0), AtValue, []))
  }

  /** What the parser accepts is a tree within the nesting limit whose
      dictionaries have distinct keys; refusing for depth names the limit. */
  function Parse(s: Text, maxDepth: int): (r: Result<Json, ParseError>)
    ensures r == ParseDocument(s, maxDepth)
    ensures r.Ok? ==> DepthOk(Depth(r.value), maxDepth) && WellFormed(r.value)
    ensures r.Err? && r.error.TooDeepNesting? ==> r.error.depth as int == maxDepth
  {
    ParseWithBuffer(s, maxDepth).0
  }
}
