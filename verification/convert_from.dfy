/** `JsonObject.ConvertFrom`: turning a .NET value into a tree. Like
    `ConvertTo`, the source walks the value with one loop, a stack of
    enumerator contexts and `goto`s between the labels `Convert`, `Return`,
    `ArrayNext` and `ObjectNext`; `FromNative` below is the recursive
    reading, and the loop is shown to compute it. */
module ConvertFrom {
  import opened Results
  import opened Text16
  import opened JsonTree
  import opened NativeValues
  import opened ReflectiveOperation
  import opened Stacks
  import ConvertTo

  // ---------------------------------------------------------------------
  // Sizes, for termination only
  // ---------------------------------------------------------------------

  /** How much value there is to walk. A record counts for more than any
      default its missing properties read as: null, or for a
      `KeyValuePair` property the pair with nothing set, whose own
      properties default to null. */
  function Size(v: Native): nat {
    match v
    case ArrayValue(_, items) => 1 + ItemsSize(items)
    case ListValue(_, items) => 1 + ItemsSize(items)
    case SequenceValue(items) => 1 + ItemsSize(items)
    case DictionaryValue(entries) => 1 + EntriesSize(entries)
    case RecordValue(t, fields) => (if t.PairType? then 2 else 4) + FieldsSize(fields)
    case _ => 0
  }

  /** Room a getter's default needs in the measure: 2 for a
      `KeyValuePair` property, 0 for any other. */
  function GetterWeight(g: Getter): nat {
    if g.propertyType.PairType? then 2 else 0
  }

  function GettersWeight(getters: seq<Getter>): (w: nat)
    ensures w <= 2
    ensures forall i | 0 <= i < |getters| :: GetterWeight(getters[i]) <= w
    ensures w == 0 <==> forall i | 0 <= i < |getters| :: !getters[i].propertyType.PairType?
  {
    if getters == [] then 0
    else
      var rest := GettersWeight(getters[1..]);
      assert forall i | 1 <= i < |getters| :: getters[i] == getters[1..][i - 1];
      if GetterWeight(getters[0]) > rest then GetterWeight(getters[0]) else rest
  }

  function ItemsSize(items: seq<Native>): (n: nat)
    ensures forall i | 0 <= i < |items| :: Size(items[i]) < n
  {
    if items == [] then 0 else Size(items[0]) + 1 + ItemsSize(items[1..])
  }

  function FieldsSize(fields: seq<Field>): (n: nat)
    ensures forall i | 0 <= i < |fields| :: Size(fields[i].value) < n
  {
    if fields == [] then 0 else Size(fields[0].value) + 1 + FieldsSize(fields[1..])
  }

  function EntriesSize(entries: seq<Entry>): nat {
    if entries == [] then 0 else Size(entries[0].value) + 5 + EntriesSize(entries[1..])
  }

  // ---------------------------------------------------------------------
  // Rules shared by the loop and its recursive reading
  // ---------------------------------------------------------------------

  /** The values of type code `Object` that are `IEnumerable`. */
  predicate Enumerable(v: Native) {
    v.ArrayValue? || v.ListValue? || v.SequenceValue? || v.DictionaryValue?
  }

  /** A `KeyValuePair<string, object>` as enumerating a dictionary yields
      it: a struct with the read-only properties `Key` and `Value`. */
  function PairRecord(e: Entry): Native {
    RecordValue(PairType, [Field(Lit("Key"), StringValue(e.key)), Field(Lit("Value"), e.value)])
  }

  lemma PairSize(e: Entry)
    ensures Size(PairRecord(e)) == Size(e.value) + 4
  {
    var fs := PairRecord(e).fields;
    assert fs[1..] == [fs[1]];
    assert fs[1..][1..] == [];
    assert FieldsSize(fs[1..][1..]) == 0;
    assert FieldsSize(fs[1..]) == Size(e.value) + 1;
    assert FieldsSize(fs) == Size(e.value) + 2;
  }

  function PairRecords(entries: seq<Entry>): (r: seq<Native>)
    ensures |r| == |entries|
    ensures forall i | 0 <= i < |entries| :: r[i] == PairRecord(entries[i])
    ensures ItemsSize(r) == EntriesSize(entries)
  {
    if entries == [] then []
    else
      var rest := PairRecords(entries[1..]);
      var r := [PairRecord(entries[0])] + rest;
      assert r[1..] == rest;
      PairSize(entries[0]);
      r
  }

  /** What the enumerator of an enumerable value yields, in order; nothing
      for any other value. */
  function Elements(v: Native): (r: seq<Native>)
    ensures Enumerable(v) ==> ItemsSize(r) < Size(v)
  {
    match v
    case ArrayValue(_, items) => items
    case ListValue(_, items) => items
    case SequenceValue(items) => items
    case DictionaryValue(entries) => PairRecords(entries)
    case _ => []
  }

  /** The value a getter reads: the property's value if the instance holds
      one, else the property type's default. */
  function PropertyValue(fields: seq<Field>, g: Getter): (v: Native)
    ensures Size(v) < 1 + FieldsSize(fields) + GetterWeight(g)
    ensures ConvertTo.FieldIndex(fields, g.name).None? ==> v == Default(g.propertyType)
    ensures ConvertTo.FieldIndex(fields, g.name).Some? ==> v == fields[ConvertTo.FieldIndex(fields, g.name).value].value
  {
    match ConvertTo.FieldIndex(fields, g.name)
    case None => Default(g.propertyType)
    case Some(i) => fields[i].value
  }

  /** The arms of the type-code switch that need no enumerator: null and
      `DBNull` are Null, `bool` is True or False, every numeric type is a
      Number, `char`, `DateTime` and `string` are Strings, and a
      `JsonObject` gives its own node. */
  function ScalarNode(v: Native): (n: Json)
    requires !Enumerable(v) && !v.RecordValue?
    ensures v.WrappedValue? ==> n == v.node
    ensures !v.WrappedValue? ==> !n.Array? && !n.Object?
    ensures v.NullValue? || v.BoolValue? || v.DoubleValue? || v.StringValue? ==> ToValue(n) == v
    ensures v.IntValue? || v.FloatValue? || v.OtherNumber? || v.EnumValue? ==> n.Number?
  {
    match v
    case NullValue => Null
    case DbNullValue => Null
    case BoolValue(b) => if b then True else False
    case IntValue(i) => Number(i as real)
    case FloatValue(f) => Number(f)
    case DoubleValue(d) => Number(d)
    case OtherNumber(n) => Number(n)
    case EnumValue(_, i) => Number(i as real)
    case CharValue(c) => String([c])
    case DateTimeValue(text) => String(text)
    case StringValue(s) => String(s)
    case WrappedValue(node) => node
  }

  // ---------------------------------------------------------------------
  // The recursive reading
  // ---------------------------------------------------------------------

  /** What `Convert` yields for a value: an enumerable becomes an Array of
      its converted elements, any other object an Object filled by its
      getters, and the rest a scalar node. */
  function FromNative(r: Reflection, v: Native): (n: Json)
    ensures Enumerable(v) ==> n.Array? && |n.items| == |Elements(v)|
    ensures v.RecordValue? ==> n.Object? && UniqueKeys(n.members)
    ensures v.RecordValue? ==> forall p | p in Properties(r, v.recordType) :: p.name in Keys(n.members)
    decreases Size(v), 1
  {
    if Enumerable(v) then Array(FromItems(r, Elements(v)))
    else if v.RecordValue? then Object(GettersWalk(r, v.fields, CreateGetterList(Properties(r, v.recordType)), []))
    else ScalarNode(v)
  }

  function FromItems(r: Reflection, items: seq<Native>): (nodes: seq<Json>)
    ensures |nodes| == |items|
    decreases ItemsSize(items), 0
  {
    if items == [] then [] else [FromNative(r, items[0])] + FromItems(r, items[1..])
  }

  /** The node a getter stores for its property: the one the compiled
      getter writes, or, where it writes none, the conversion of the value
      it returns. */
  function StoredNode(r: Reflection, fields: seq<Field>, g: Getter): (n: Json)
    ensures n == FromNative(r, PropertyValue(fields, g))
    decreases 1 + FieldsSize(fields) + GetterWeight(g), 0
  {
    var (node, boxed) := InvokeGetter(g.kind, PropertyValue(fields, g));
    if !node.Null? then node else FromNative(r, boxed)
  }

  /** The getters' names, in order. */
  function Names(getters: seq<Getter>): (n: seq<Text>)
    ensures |n| == |getters|
    ensures forall i | 0 <= i < |getters| :: n[i] == getters[i].name
  {
    if getters == [] then [] else [getters[0].name] + Names(getters[1..])
  }

  /** The getters in order, each storing its node under its name with the
      dictionary's indexer. */
  function GettersWalk(r: Reflection, fields: seq<Field>, getters: seq<Getter>, dict: seq<Member>): (m: seq<Member>)
    ensures UniqueKeys(dict) ==> UniqueKeys(m)
    ensures forall k | k in Keys(dict) :: k in Keys(m)
    ensures forall i | 0 <= i < |getters| :: getters[i].name in Keys(m)
    ensures forall k | k in Keys(m) :: k in Keys(dict) || k in Names(getters)
    decreases 1 + FieldsSize(fields) + GettersWeight(getters), |getters|
  {
    if getters == [] then dict
    else
      var next := Set(dict, getters[0].name, StoredNode(r, fields, getters[0]));
      var m := GettersWalk(r, fields, getters[1..], next);
      KeysStep(dict, next, m, getters);
      m
  }

  /** One turn of the getter walk, for the keys: storing the first name
      and walking the rest keeps the earlier keys and adds only names. */
  lemma KeysStep(dict: seq<Member>, next: seq<Member>, m: seq<Member>, getters: seq<Getter>)
    requires getters != []
    requires Keys(next) == if getters[0].name in Keys(dict) then Keys(dict) else Keys(dict) + [getters[0].name]
    requires forall k | k in Keys(next) :: k in Keys(m)
    requires forall i | 0 <= i < |getters[1..]| :: getters[1..][i].name in Keys(m)
    requires forall k | k in Keys(m) :: k in Keys(next) || k in Names(getters[1..])
    ensures forall k | k in Keys(dict) :: k in Keys(m)
    ensures forall i | 0 <= i < |getters| :: getters[i].name in Keys(m)
    ensures forall k | k in Keys(m) :: k in Keys(dict) || k in Names(getters)
  {
    assert Names(getters) == [getters[0].name] + Names(getters[1..]);
    forall i | 1 <= i < |getters|
      ensures getters[i].name in Keys(m)
    {
      assert getters[i] == getters[1..][i - 1];
    }
  }

  // ---------------------------------------------------------------------
  // The loop
  // ---------------------------------------------------------------------

  /** An enumerator context: `ArrayEnumerator` with the elements still to
      come and the array built so far, or `GetterEnumerator` with the
      instance's values, the getters still to run, the dictionary built so
      far and the name whose value is being converted (set before it is
      read). */
  datatype Context =
    | ArrayContext(rest: seq<Native>, done: seq<Json>)
    | GetterContext(fields: seq<Field>, getters: seq<Getter>, dict: seq<Member>, name: Text)

  /** The label the loop is at: `Convert` with a value in hand, `Return`
      with a node, or the `...Next` label of the current context. */
  datatype Phase = Converting(value: Native) | Returning(node: Json) | Advancing

  /** `open` holds the stacked contexts from the bottom with the current
      one last. */
  datatype State = State(phase: Phase, open: seq<Context>)

  datatype Outcome = Next(state: State) | Halt(result: Json)

  predicate Good(st: State) {
    st.phase.Advancing? ==> st.open != []
  }

  /** The work left, as for `ConvertTo`. */
  function Cost(r: Reflection, v: Native): nat
    decreases Size(v), 1
  {
    if Enumerable(v) then ItemsCost(r, Elements(v)) + 3
    else if v.RecordValue? then GettersCost(r, v.fields, CreateGetterList(Properties(r, v.recordType))) + 3
    else 2
  }

  function ItemsCost(r: Reflection, items: seq<Native>): nat
    decreases ItemsSize(items), 0
  {
    if items == [] then 0 else Cost(r, items[0]) + 2 + ItemsCost(r, items[1..])
  }

  function GetterCost(r: Reflection, fields: seq<Field>, g: Getter): nat
    decreases 1 + FieldsSize(fields) + GetterWeight(g), 0
  {
    var (node, boxed) := InvokeGetter(g.kind, PropertyValue(fields, g));
    if !node.Null? then 1 else Cost(r, boxed) + 2
  }

  function GettersCost(r: Reflection, fields: seq<Field>, getters: seq<Getter>): nat
    decreases 1 + FieldsSize(fields) + GettersWeight(getters), |getters|
  {
    if getters == [] then 0 else GetterCost(r, fields, getters[0]) + GettersCost(r, fields, getters[1..])
  }

  function ContextCost(r: Reflection, c: Context): nat {
    match c
    case ArrayContext(rest, _) => ItemsCost(r, rest) + 2
    case GetterContext(fields, getters, _, _) => GettersCost(r, fields, getters) + 2
  }

  function ContextsCost(r: Reflection, open: seq<Context>): nat {
    if open == [] then 0 else ContextsCost(r, Below(open)) + ContextCost(r, Top(open))
  }

  function Work(r: Reflection, st: State): nat {
    ContextsCost(r, st.open) + match st.phase
      case Converting(v) => Cost(r, v)
      case Returning(_) => 1
      case Advancing => 0
  }

  lemma ContextsCostPush(r: Reflection, open: seq<Context>, c: Context)
    ensures ContextsCost(r, open + [c]) == ContextsCost(r, open) + ContextCost(r, c)
  {
    assert Below(open + [c]) == open;
  }

  /** The `Convert` label: an enumerable pushes an `ArrayEnumerator`, a
      record a `GetterEnumerator`, and the rest goes to `Return`. */
  function ConvertStep(r: Reflection, v: Native, open: seq<Context>): (o: Outcome)
    ensures o.Next? && Good(o.state) && Work(r, o.state) < Cost(r, v) + ContextsCost(r, open)
  {
    if Enumerable(v) then
      var c := ArrayContext(Elements(v), []);
      ContextsCostPush(r, open, c);
      Next(State(Advancing, open + [c]))
    else if v.RecordValue? then
      var c := GetterContext(v.fields, CreateGetterList(Properties(r, v.recordType)), [], []);
      ContextsCostPush(r, open, c);
      Next(State(Advancing, open + [c]))
    else Next(State(Returning(ScalarNode(v)), open))
  }

  /** The `Return` label: leave the loop with the stack empty, or hand the
      node to the current enumerator's `SetResult`. */
  function ReturnStep(r: Reflection, node: Json, open: seq<Context>): (o: Outcome)
    ensures o.Next? ==> Good(o.state) && Work(r, o.state) < 1 + ContextsCost(r, open)
    ensures o.Halt? <==> open == []
    ensures o.Halt? ==> o.result == node
  {
    if open == [] then Halt(node)
    else
      match Top(open)
      case ArrayContext(rest, done) =>
        var c := ArrayContext(rest, done + [node]);
        ContextsCostPush(r, Below(open), c);
        Next(State(Advancing, WithTop(open, c)))
      case GetterContext(fields, getters, dict, name) =>
        var c := GetterContext(fields, getters, Set(dict, name, node), name);
        ContextsCostPush(r, Below(open), c);
        Next(State(Advancing, WithTop(open, c)))
  }

  /** The `ArrayNext` and `ObjectNext` labels: the current enumerator's
      `TryNext`. A getter that writes its node stores it and moves on; one
      that writes none sends the value it returned to `Convert`. A finished
      enumerator is popped and its array or dictionary returned. */
  function AdvanceStep(r: Reflection, open: seq<Context>): (o: Outcome)
    requires open != []
    ensures o.Next? && Good(o.state) && Work(r, o.state) < ContextsCost(r, open)
  {
    match Top(open)
    case ArrayContext(rest, done) =>
      if rest == [] then Next(State(Returning(Array(done)), Below(open)))
      else
        var c := ArrayContext(rest[1..], done);
        ContextsCostPush(r, Below(open), c);
        Next(State(Converting(rest[0]), WithTop(open, c)))
    case GetterContext(fields, getters, dict, name) =>
      if getters == [] then Next(State(Returning(Object(dict)), Below(open)))
      else
        var g := getters[0];
        var (node, boxed) := InvokeGetter(g.kind, PropertyValue(fields, g));
        assert GettersCost(r, fields, getters) == GetterCost(r, fields, g) + GettersCost(r, fields, getters[1..]);
        if node.Null? then
          assert GetterCost(r, fields, g) == Cost(r, boxed) + 2;
          var c := GetterContext(fields, getters[1..], dict, g.name);
          ContextsCostPush(r, Below(open), c);
          Next(State(Converting(boxed), WithTop(open, c)))
        else
          var c := GetterContext(fields, getters[1..], Set(dict, g.name, node), g.name);
          ContextsCostPush(r, Below(open), c);
          Next(State(Advancing, WithTop(open, c)))
  }

  function Step(r: Reflection, st: State): (o: Outcome)
    requires Good(st)
    ensures o.Next? ==> Good(o.state) && Work(r, o.state) < Work(r, st)
  {
    match st.phase
    case Converting(v) => ConvertStep(r, v, st.open)
    case Returning(node) => ReturnStep(r, node, st.open)
    case Advancing => AdvanceStep(r, st.open)
  }

  function Run(r: Reflection, st: State): Json
    requires Good(st)
    decreases Work(r, st)
  {
    match Step(r, st)
    case Next(next) => Run(r, next)
    case Halt(result) => result
  }


  // ---------------------------------------------------------------------
  // The loop computes the recursive reading: each lemma takes the loop
  // where one recursive function starts, with that function's context on
  // top of the stack, and shows the loop goes on to `Return` exactly that
  // function's result.
  // ---------------------------------------------------------------------

  /** At the `Convert` label. */
  lemma {:induction false} FromSim(r: Reflection, v: Native, open: seq<Context>)
    ensures Run(r, State(Converting(v), open)) == Run(r, State(Returning(FromNative(r, v)), open))
    decreases Size(v), 1
  {
    if Enumerable(v) {
      ItemsSim(r, Elements(v), [], open);
      assert [] + FromItems(r, Elements(v)) == FromItems(r, Elements(v));
    } else if v.RecordValue? {
      GettersSim(r, v.fields, CreateGetterList(Properties(r, v.recordType)), [], [], open);
    }
  }

  /** At `ArrayNext`. */
  lemma {:induction false} ItemsSim(r: Reflection, rest: seq<Native>, done: seq<Json>, open: seq<Context>)
    ensures Run(r, State(Advancing, open + [ArrayContext(rest, done)]))
         == Run(r, State(Returning(Array(done + FromItems(r, rest))), open))
    decreases ItemsSize(rest), 0
  {
    if rest == [] {
      ItemsEnd(r, done, open);
    } else {
      var x := FromNative(r, rest[0]);
      ItemNext(r, rest, done, open);
      FromSim(r, rest[0], open + [ArrayContext(rest[1..], done)]);
      ItemReturned(r, rest[1..], done, x, open);
      ItemsSim(r, rest[1..], done + [x], open);
      ItemsAppend(r, rest, done);
    }
  }

  /** A finished `ArrayEnumerator` is popped and its array returned. */
  lemma ItemsEnd(r: Reflection, done: seq<Json>, open: seq<Context>)
    ensures Run(r, State(Advancing, open + [ArrayContext([], done)]))
         == Run(r, State(Returning(Array(done + FromItems(r, []))), open))
  {
    assert Below(open + [ArrayContext([], done)]) == open;
    assert done + [] == done;
  }

  /** `TryNext` on an `ArrayEnumerator` hands the next element to `Convert`. */
  lemma ItemNext(r: Reflection, rest: seq<Native>, done: seq<Json>, open: seq<Context>)
    requires rest != []
    ensures Run(r, State(Advancing, open + [ArrayContext(rest, done)]))
         == Run(r, State(Converting(rest[0]), open + [ArrayContext(rest[1..], done)]))
  {
    var here := open + [ArrayContext(rest, done)];
    assert WithTop(here, ArrayContext(rest[1..], done)) == open + [ArrayContext(rest[1..], done)];
  }

  lemma ItemsAppend(r: Reflection, rest: seq<Native>, done: seq<Json>)
    requires rest != []
    ensures done + [FromNative(r, rest[0])] + FromItems(r, rest[1..]) == done + FromItems(r, rest)
  {
    assert FromItems(r, rest) == [FromNative(r, rest[0])] + FromItems(r, rest[1..]);
  }

  /** `Return` into an `ArrayEnumerator` appends the node. */
  lemma ItemReturned(r: Reflection, rest: seq<Native>, done: seq<Json>, x: Json, open: seq<Context>)
    ensures Run(r, State(Returning(x), open + [ArrayContext(rest, done)]))
         == Run(r, State(Advancing, open + [ArrayContext(rest, done + [x])]))
  {
    var here := open + [ArrayContext(rest, done)];
    assert WithTop(here, ArrayContext(rest, done + [x])) == open + [ArrayContext(rest, done + [x])];
  }

  /** At `ObjectNext`. */
  lemma {:induction false} GettersSim(r: Reflection, fields: seq<Field>, getters: seq<Getter>, dict: seq<Member>, name: Text, open: seq<Context>)
    ensures Run(r, State(Advancing, open + [GetterContext(fields, getters, dict, name)]))
         == Run(r, State(Returning(Object(GettersWalk(r, fields, getters, dict))), open))
    decreases 1 + FieldsSize(fields) + GettersWeight(getters), |getters|
  {
    if getters == [] {
      assert Below(open + [GetterContext(fields, getters, dict, name)]) == open;
    } else {
      var g := getters[0];
      var (node, boxed) := InvokeGetter(g.kind, PropertyValue(fields, g));
      GetterAdvance(r, fields, getters, dict, name, open);
      if node.Null? {
        var there := open + [GetterContext(fields, getters[1..], dict, g.name)];
        FromSim(r, boxed, there);
        MemberReturned(r, fields, getters[1..], dict, g.name, FromNative(r, boxed), open);
        GettersSim(r, fields, getters[1..], Set(dict, g.name, FromNative(r, boxed)), g.name, open);
      } else {
        GettersSim(r, fields, getters[1..], Set(dict, g.name, node), g.name, open);
      }
    }
  }

  /** `ObjectNext` with a getter left runs it: a node it wrote is stored at
      once, otherwise its boxed value goes to `Convert`. */
  lemma GetterAdvance(r: Reflection, fields: seq<Field>, getters: seq<Getter>, dict: seq<Member>, name: Text, open: seq<Context>)
    requires getters != []
    ensures var g := getters[0];
      var (node, boxed) := InvokeGetter(g.kind, PropertyValue(fields, g));
      Run(r, State(Advancing, open + [GetterContext(fields, getters, dict, name)]))
      == if node.Null? then Run(r, State(Converting(boxed), open + [GetterContext(fields, getters[1..], dict, g.name)]))
         else Run(r, State(Advancing, open + [GetterContext(fields, getters[1..], Set(dict, g.name, node), g.name)]))
  {
    var here := open + [GetterContext(fields, getters, dict, name)];
    var g := getters[0];
    assert Below(here) == open;
    assert WithTop(here, GetterContext(fields, getters[1..], dict, g.name)) == open + [GetterContext(fields, getters[1..], dict, g.name)];
    var (node, boxed) := InvokeGetter(g.kind, PropertyValue(fields, g));
    assert WithTop(here, GetterContext(fields, getters[1..], Set(dict, g.name, node), g.name))
        == open + [GetterContext(fields, getters[1..], Set(dict, g.name, node), g.name)];
  }

  /** `Return` into a `GetterEnumerator` stores the node under the current
      name. */
  lemma MemberReturned(r: Reflection, fields: seq<Field>, getters: seq<Getter>, dict: seq<Member>, name: Text, x: Json, open: seq<Context>)
    ensures Run(r, State(Returning(x), open + [GetterContext(fields, getters, dict, name)]))
         == Run(r, State(Advancing, open + [GetterContext(fields, getters, Set(dict, name, x), name)]))
  {
    var here := open + [GetterContext(fields, getters, dict, name)];
    assert WithTop(here, GetterContext(fields, getters, Set(dict, name, x), name))
        == open + [GetterContext(fields, getters, Set(dict, name, x), name)];
  }

  // ---------------------------------------------------------------------
  // Entry
  // ---------------------------------------------------------------------

  /** `ConvertFrom.Convert`: the stack is emptied and the loop starts at
      the `Convert` label; it computes the recursive reading for every
      value. */
  function Convert(r: Reflection, v: Native): (n: Json)
    ensures n == FromNative(r, v)
  {
    FromSim(r, v, []);
    Run(r, State(Converting(v), []))
  }
}
