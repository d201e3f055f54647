/** `JsonObject.ConvertTo`: turning a tree into a value of a requested .NET
    type. The source walks the tree with one loop, a stack of enumerator
    contexts and `goto`s between the labels `Convert`, `Return` and the
    three `...Next` labels; `ConvertValue` below is the recursive reading
    of the same rules, and the loop is shown to compute it. */
module ConvertTo {
  import opened Text16
  import opened Results
  import opened JsonTree
  import opened NativeValues
  import opened ReflectiveOperation
  import opened Stacks

  // ---------------------------------------------------------------------
  // Rules shared by the loop and its recursive reading
  // ---------------------------------------------------------------------

  /** `ConvertToIEnumerable`: an array as the sequence of its items' loose
      values, an object as a `Dictionary<string, object>` of its members'
      loose values. A scalar has neither container, and reading one
      through it throws. */
  function ConvertToIEnumerable(node: Json): (r: Result<Native, ConvertError>)
    ensures node.Array? ==> r.Ok? && r.value.SequenceValue? && |r.value.items| == |node.items|
    ensures node.Array? ==> forall i | 0 <= i < |node.items| :: r.value.items[i] == ToValue(node.items[i])
    ensures node.Object? ==> r.Ok? && r.value.DictionaryValue? && |r.value.entries| == |node.members|
    ensures node.Object? ==> forall i | 0 <= i < |node.members| ::
      r.value.entries[i] == Entry(node.members[i].key, ToValue(node.members[i].value))
    ensures !node.Array? && !node.Object? ==> r == Err(NullReference)
  {
    match node
    case Array(items) =>
      Ok(SequenceValue(seq(|items|, i requires 0 <= i < |items| => ToValue(items[i]))))
    case Object(members) =>
      Ok(DictionaryValue(seq(|members|, i requires 0 <= i < |members| => Entry(members[i].key, ToValue(members[i].value)))))
    case _ => Err(NullReference)
  }

  /** The arms of the switch on a scalar node: the fast path when the
      target is the node's own type, `ChangeType(ToValue(node))` otherwise.
      A number goes to `double`, `int` and `float` by a cast. */
  function ConvertScalar(r: Reflection, node: Json, t: NativeType): (res: Result<Native, ConvertError>)
    requires !node.Array? && !node.Object?
    ensures res.Err? ==> res.error == ChangeTypeFailed(ToValue(node), t)
    ensures (t == BoolType && (node.True? || node.False?)) || (t == StringType && node.String?) || (t == DoubleType && node.Number?)
      ==> res == Ok(ToValue(node))
  {
    match node
    case True => if t == BoolType then Ok(BoolValue(true)) else ChangeType(r, ToValue(node), t)
    case False => if t == BoolType then Ok(BoolValue(false)) else ChangeType(r, ToValue(node), t)
    case String(s) => if t == StringType then Ok(StringValue(s)) else ChangeType(r, ToValue(node), t)
    case Number(n) =>
      if t == DoubleType then Ok(DoubleValue(n))
      else if t == IntType then Ok(IntValue(Truncate(n)))
      else if t == FloatType then Ok(FloatValue(n))
      else ChangeType(r, ToValue(node), t)
    case Null => ChangeType(r, ToValue(node), t)
  }

  /** Index of the first field of that name. */
  function FieldIndex(fields: seq<Field>, name: Text): (r: Option<nat>)
    ensures r.Some? ==> r.value < |fields| && fields[r.value].name == name
    ensures r.None? ==> forall i | 0 <= i < |fields| :: fields[i].name != name
  {
    if fields == [] then None
    else if fields[0].name == name then Some(0)
    else match FieldIndex(fields[1..], name)
      case None => None
      case Some(i) => Some(i + 1)
  }

  /** A setter's `Invoke` on the instance: the property takes the value.
      Only records have properties to set. */
  function SetField(instance: Native, name: Text, v: Native): (r: Native)
    ensures instance.RecordValue? ==> r.RecordValue? && r.recordType == instance.recordType
    ensures instance.RecordValue? ==> FieldIndex(r.fields, name).Some? && r.fields[FieldIndex(r.fields, name).value].value == v
    ensures !instance.RecordValue? ==> r == instance
  {
    match instance
    case RecordValue(t, fields) =>
      (match FieldIndex(fields, name)
       case None =>
         assert FieldIndex(fields + [Field(name, v)], name) == Some(|fields|) by {
           FieldIndexAppend(fields, Field(name, v), name);
         }
         RecordValue(t, fields + [Field(name, v)])
       case Some(i) =>
         assert FieldIndex(fields[i := Field(name, v)], name) == Some(i) by {
           FieldIndexReplace(fields, i, v);
         }
         RecordValue(t, fields[i := Field(name, v)]))
    case _ => instance
  }

  lemma {:induction false} FieldIndexAppend(fields: seq<Field>, f: Field, name: Text)
    requires FieldIndex(fields, name).None? && f.name == name
    ensures FieldIndex(fields + [f], name) == Some(|fields|)
    decreases |fields|
  {
    if fields != [] {
      assert (fields + [f])[1..] == fields[1..] + [f];
      FieldIndexAppend(fields[1..], f, name);
    }
  }

  lemma {:induction false} FieldIndexReplace(fields: seq<Field>, i: nat, v: Native)
    requires i < |fields| && FieldIndex(fields, fields[i].name) == Some(i)
    ensures FieldIndex(fields[i := Field(fields[i].name, v)], fields[i].name) == Some(i)
    decreases i
  {
    if i > 0 {
      assert fields[i := Field(fields[i].name, v)][1..] == fields[1..][i - 1 := Field(fields[i].name, v)];
      FieldIndexReplace(fields[1..], i - 1, v);
    }
  }

  // ---------------------------------------------------------------------
  // The recursive reading
  // ---------------------------------------------------------------------

  /** The library raises its own cast error in two places only: an array
      read as anything but `object`, an array type or a list type, and an
      object read as an array type. */
  predicate CastFits(e: ConvertError) {
    e.InvalidCast? ==>
      || (e.tag == Lit("Array") && e.target != ObjectType && !e.target.ArrayType? && !e.target.ListType?)
      || (e.tag == Lit("Object") && e.target.ArrayType?)
  }

  /** A `T[]` (or, for `list`, a `List<T>`) of element type `e` with `n` items. */
  predicate CollectionOf(v: Native, list: bool, e: NativeType, n: nat) {
    && (if list then v.ListValue? else v.ArrayValue?)
    && v.element == e && |v.items| == n
  }

  /** What `ConvertToObject` yields for a node and a target type: `object`
      takes the loose value; an array becomes a `T[]` or `List<T>` of its
      converted items and anything else is a cast error; an object becomes
      an instance filled through the setters, except that an array type is
      a cast error. */
  function ConvertValue(r: Reflection, node: Json, t: NativeType): (res: Result<Native, ConvertError>)
    ensures res.Err? ==> CastFits(res.error)
    ensures t == ObjectType ==> res == Ok(ToValue(node))
    ensures node.Array? && t != ObjectType && res.Ok? ==>
      (t.ArrayType? || t.ListType?) && CollectionOf(res.value, t.ListType?, t.element, |node.items|)
    ensures node.Object? && t.ClassType? && res.Ok? ==> res.value.RecordValue? && res.value.recordType == t
    decreases node, 1
  {
    if t == ObjectType then Ok(ToValue(node))
    else match node
      case Array(items) =>
        if t.ArrayType? || t.ListType? then ConvertItems(r, items, t.element, [], t.ListType?)
        else Err(InvalidCast(TagName(node), t))
      case Object(members) =>
        if t.ArrayType? then Err(InvalidCast(TagName(node), t))
        else
          (match ObjectCreator(r, t)
           case Err(e) => Err(e)
           case Ok(c) =>
             if c.setters.None? then Err(NullReference)
             else ApplySetters(r, members, c.setters.value, c.instance))
      case _ => ConvertScalar(r, node, t)
  }

  /** The collection of element type `e` holding `done` followed by the
      conversions of `items`, or the first item's error. */
  function ConvertItems(r: Reflection, items: seq<Json>, e: NativeType, done: seq<Native>, list: bool): (res: Result<Native, ConvertError>)
    ensures res.Err? ==> CastFits(res.error)
    ensures res.Ok? ==> CollectionOf(res.value, list, e, |done| + |items|) && res.value.items[..|done|] == done
    decreases items, 0
  {
    if items == [] then Ok(Collection(list, e, done))
    else
      match ConvertValue(r, items[0], e)
      case Err(x) => Err(x)
      case Ok(v) => ConvertItems(r, items[1..], e, done + [v], list)
  }

  function Collection(list: bool, e: NativeType, items: seq<Native>): Native {
    if list then ListValue(e, items) else ArrayValue(e, items)
  }

  /** The setters in order, each looking its name up in the dictionary: a
      missing name is skipped, a direct setter reads the node itself, and
      an `Invoke` setter takes the node converted to the property's type. */
  function ApplySetters(r: Reflection, members: seq<Member>, setters: seq<Setter>, instance: Native): (res: Result<Native, ConvertError>)
    ensures res.Err? ==> CastFits(res.error)
    ensures res.Ok? && instance.RecordValue? ==> res.value.RecordValue? && res.value.recordType == instance.recordType
    ensures res.Ok? && !instance.RecordValue? ==> res.value == instance
    ensures (forall i | 0 <= i < |setters| :: IndexOf(members, setters[i].name).None?) ==> res == Ok(instance)
    decreases members, |setters|
  {
    if setters == [] then Ok(instance)
    else
      var s := setters[0];
      match IndexOf(members, s.name)
      case None => ApplySetters(r, members, setters[1..], instance)
      case Some(i) =>
        var x := if s.kind.Invoke? then ConvertValue(r, members[i].value, s.propertyType) else DirectValue(r, s, members[i].value);
        match x
        case Err(e) => Err(e)
        case Ok(v) => ApplySetters(r, members, setters[1..], SetField(instance, s.name, v))
  }

  /** `ConvertTo.Convert` read recursively: `IEnumerable` and
      `Dictionary<string, object>` are handled before the loop. */
  function ConvertReference(r: Reflection, node: Json, t: NativeType): Result<Native, ConvertError> {
    if t == EnumerableType || t == LooseDictionaryType then ConvertToIEnumerable(node)
    else ConvertValue(r, node, t)
  }

  // ---------------------------------------------------------------------
  // The loop
  // ---------------------------------------------------------------------

  /** An enumerator context: `ArrayEnumerator` or `ListEnumerator` with the
      items still to come and the converted ones, or `SetterEnumerator` with
      the setters still to run, the instance and the setter whose value is
      being converted. */
  datatype Context =
    | ItemsContext(list: bool, element: NativeType, rest: seq<Json>, done: seq<Native>)
    | ObjectContext(members: seq<Member>, setters: seq<Setter>, instance: Native, current: Option<Setter>)

  /** The label the loop is at: `Convert` with the node and type in hand,
      `Return` with a result, or the `...Next` label of the current
      context. */
  datatype Phase = Converting(node: Json, target: NativeType) | Returning(value: Native) | Advancing

  /** `open` holds the stacked contexts from the bottom with the current
      one last; its length is the stack's count. */
  datatype State = State(phase: Phase, open: seq<Context>)

  datatype Outcome = Next(state: State) | Halt(result: Result<Native, ConvertError>)

  predicate Good(st: State) {
    st.phase.Advancing? ==> st.open != []
  }

  /** The work left: each pending node costs the steps converting it takes,
      and each context the steps to finish it. */
  function Cost(r: Reflection, node: Json, t: NativeType): nat
    decreases node, 1
  {
    if t == ObjectType then 2
    else match node
      case Array(items) => if t.ArrayType? || t.ListType? then ItemsCost(r, items, t.element) + 3 else 2
      case Object(members) =>
        if t.ArrayType? then 2
        else
          (match ObjectCreator(r, t)
           case Err(_) => 2
           case Ok(c) => if c.setters.None? then 2 else SettersCost(r, members, c.setters.value) + 3)
      case _ => 2
  }

  function ItemsCost(r: Reflection, items: seq<Json>, e: NativeType): nat
    decreases items, 0
  {
    if items == [] then 0 else Cost(r, items[0], e) + 2 + ItemsCost(r, items[1..], e)
  }

  function SettersCost(r: Reflection, members: seq<Member>, setters: seq<Setter>): nat
    decreases members, |setters|
  {
    if setters == [] then 0
    else
      var s := setters[0];
      var here := match IndexOf(members, s.name)
        case None => 1
        case Some(i) => if s.kind.Invoke? then Cost(r, members[i].value, s.propertyType) + 2 else 1;
      here + SettersCost(r, members, setters[1..])
  }

  function ContextCost(r: Reflection, c: Context): nat {
    match c
    case ItemsContext(_, e, rest, _) => ItemsCost(r, rest, e) + 2
    case ObjectContext(members, setters, _, _) => SettersCost(r, members, setters) + 2
  }

  function ContextsCost(r: Reflection, open: seq<Context>): nat {
    if open == [] then 0 else ContextsCost(r, Below(open)) + ContextCost(r, Top(open))
  }

  function Work(r: Reflection, st: State): nat {
    ContextsCost(r, st.open) + match st.phase
      case Converting(node, t) => Cost(r, node, t)
      case Returning(_) => 1
      case Advancing => 0
  }

  lemma ContextsCostPush(r: Reflection, open: seq<Context>, c: Context)
    ensures ContextsCost(r, open + [c]) == ContextsCost(r, open) + ContextCost(r, c)
  {
    assert Below(open + [c]) == open;
  }

  /** The `Convert` label. */
  function ConvertStep(r: Reflection, node: Json, t: NativeType, open: seq<Context>): (o: Outcome)
    ensures o.Next? ==> Good(o.state) && Work(r, o.state) < Cost(r, node, t) + ContextsCost(r, open)
  {
    if t == ObjectType then Next(State(Returning(ToValue(node)), open))
    else match node
      case Array(items) => StartArray(r, items, t, open)
      case Object(members) => StartObject(r, members, t, open)
      case _ =>
        match ConvertScalar(r, node, t)
        case Err(e) => Halt(Err(e))
        case Ok(v) => Next(State(Returning(v), open))
  }

  /** The `Array` arm: push an array or list enumerator. */
  function StartArray(r: Reflection, items: seq<Json>, t: NativeType, open: seq<Context>): (o: Outcome)
    requires t != ObjectType
    ensures o.Next? ==> Good(o.state) && Work(r, o.state) < Cost(r, Array(items), t) + ContextsCost(r, open)
  {
    if t.ArrayType? || t.ListType? then
      var c := ItemsContext(t.ListType?, t.element, items, []);
      assert Cost(r, Array(items), t) == ItemsCost(r, items, t.element) + 3;
      ContextsCostPush(r, open, c);
      Next(State(Advancing, open + [c]))
    else Halt(Err(InvalidCast(Lit("Array"), t)))
  }

  /** The `Object` arm: push a setter enumerator over a new instance. */
  function StartObject(r: Reflection, members: seq<Member>, t: NativeType, open: seq<Context>): (o: Outcome)
    requires t != ObjectType
    ensures o.Next? ==> Good(o.state) && Work(r, o.state) < Cost(r, Object(members), t) + ContextsCost(r, open)
  {
    if t.ArrayType? then Halt(Err(InvalidCast(Lit("Object"), t)))
    else
      match ObjectCreator(r, t)
      case Err(e) => Halt(Err(e))
      case Ok(cr) =>
        if cr.setters.None? then Halt(Err(NullReference))
        else
          ObjectContextCost(r, members, t, cr, open);
          Next(State(Advancing, open + [ObjectContext(members, cr.setters.value, cr.instance, None)]))
  }

  lemma ObjectContextCost(r: Reflection, members: seq<Member>, t: NativeType, cr: Creator, open: seq<Context>)
    requires t != ObjectType && !t.ArrayType? && ObjectCreator(r, t) == Ok(cr) && cr.setters.Some?
    ensures Work(r, State(Advancing, open + [ObjectContext(members, cr.setters.value, cr.instance, None)]))
          < Cost(r, Object(members), t) + ContextsCost(r, open)
  {
    assert Cost(r, Object(members), t) == SettersCost(r, members, cr.setters.value) + 3;
    ContextsCostPush(r, open, ObjectContext(members, cr.setters.value, cr.instance, None));
  }

  /** The `Return` label: leave the loop with no context open, or hand the
      result to the current enumerator's `SetResult`. */
  function ReturnStep(r: Reflection, v: Native, open: seq<Context>): (o: Outcome)
    ensures o.Next? ==> Good(o.state) && Work(r, o.state) < 1 + ContextsCost(r, open)
    ensures o.Halt? && open == [] ==> o.result == Ok(v)
  {
    if open == [] then Halt(Ok(v))
    else
      match Top(open)
      case ItemsContext(list, e, rest, done) =>
        var c := ItemsContext(list, e, rest, done + [v]);
        ContextsCostPush(r, Below(open), c);
        Next(State(Advancing, WithTop(open, c)))
      case ObjectContext(members, setters, instance, current) =>
        match current
        case None => Halt(Err(NullReference))
        case Some(s) =>
          var c := ObjectContext(members, setters, SetField(instance, s.name, v), current);
          ContextsCostPush(r, Below(open), c);
          Next(State(Advancing, WithTop(open, c)))
  }

  /** The `ArrayNext`, `ListNext` and `ObjectNext` labels: the current
      enumerator's `TryNext`, one setter at a time. A finished context is
      popped and its collection or instance returned. */
  function AdvanceStep(r: Reflection, open: seq<Context>): (o: Outcome)
    requires open != []
    ensures o.Next? ==> Good(o.state) && Work(r, o.state) < ContextsCost(r, open)
  {
    match Top(open)
    case ItemsContext(list, e, rest, done) =>
      if rest == [] then Next(State(Returning(Collection(list, e, done)), Below(open)))
      else
        var c := ItemsContext(list, e, rest[1..], done);
        ContextsCostPush(r, Below(open), c);
        Next(State(Converting(rest[0], e), WithTop(open, c)))
    case ObjectContext(members, setters, instance, current) =>
      if setters == [] then Next(State(Returning(instance), Below(open)))
      else
        var s := setters[0];
        match TryGetValue(members, s.name)
        case None =>
          var c := ObjectContext(members, setters[1..], instance, Some(s));
          ContextsCostPush(r, Below(open), c);
          Next(State(Advancing, WithTop(open, c)))
        case Some(node) =>
          if s.kind.Invoke? then
            var c := ObjectContext(members, setters[1..], instance, Some(s));
            ContextsCostPush(r, Below(open), c);
            Next(State(Converting(node, s.propertyType), WithTop(open, c)))
          else
            match DirectValue(r, s, node)
            case Err(e) => Halt(Err(e))
            case Ok(v) =>
              var c := ObjectContext(members, setters[1..], SetField(instance, s.name, v), Some(s));
              ContextsCostPush(r, Below(open), c);
              Next(State(Advancing, WithTop(open, c)))
  }

  function Step(r: Reflection, st: State): (o: Outcome)
    requires Good(st)
    ensures o.Next? ==> Good(o.state) && Work(r, o.state) < Work(r, st)
  {
    match st.phase
    case Converting(node, t) => ConvertStep(r, node, t, st.open)
    case Returning(v) => ReturnStep(r, v, st.open)
    case Advancing => AdvanceStep(r, st.open)
  }

  function Run(r: Reflection, st: State): Result<Native, ConvertError>
    requires Good(st)
    decreases Work(r, st)
  {
    match Step(r, st)
    case Next(next) => Run(r, next)
    case Halt(result) => result
  }



  // ---------------------------------------------------------------------
  // The loop computes the recursive reading: each lemma takes the loop
  // where one recursive function starts, with that function's context on
  // top of the stack, and shows the loop goes on as if the function's
  // result had been returned in one go.
  // ---------------------------------------------------------------------

  /** How the loop continues after a recursive function's result. */
  function Continue(r: Reflection, res: Result<Native, ConvertError>, open: seq<Context>): Result<Native, ConvertError> {
    match res
    case Err(e) => Err(e)
    case Ok(v) => Run(r, State(Returning(v), open))
  }

  /** At the `Convert` label. */
  lemma {:induction false} ConvertSim(r: Reflection, node: Json, t: NativeType, open: seq<Context>)
    ensures Run(r, State(Converting(node, t), open)) == Continue(r, ConvertValue(r, node, t), open)
    decreases node, 1
  {
    if t != ObjectType {
      match node
      case Array(items) =>
        if t.ArrayType? || t.ListType? {
          ArraySim(r, items, t, open);
        }
      case Object(members) =>
        if !t.ArrayType? {
          ObjectSim(r, members, t, open);
        }
      case _ =>
    }
  }

  /** An array read as `T[]` or `List<T>` pushes an enumerator over its items. */
  lemma {:induction false} ArraySim(r: Reflection, items: seq<Json>, t: NativeType, open: seq<Context>)
    requires t != ObjectType && (t.ArrayType? || t.ListType?)
    ensures Run(r, State(Converting(Array(items), t), open)) == Continue(r, ConvertValue(r, Array(items), t), open)
    decreases Array(items), 0
  {
    ItemsSim(r, t.ListType?, t.element, items, [], open);
  }

  /** An object read as anything but an array pushes a setter enumerator
      over a new instance, once one can be created. */
  lemma {:induction false} ObjectSim(r: Reflection, members: seq<Member>, t: NativeType, open: seq<Context>)
    requires t != ObjectType && !t.ArrayType?
    ensures Run(r, State(Converting(Object(members), t), open)) == Continue(r, ConvertValue(r, Object(members), t), open)
    decreases Object(members), 0
  {
    match ObjectCreator(r, t)
    case Err(_) =>
    case Ok(c) =>
      if c.setters.Some? {
        SettersSim(r, members, c.setters.value, c.instance, None, open);
      }
  }

  /** At `ArrayNext` or `ListNext`. */
  lemma {:induction false} ItemsSim(r: Reflection, list: bool, e: NativeType, rest: seq<Json>, done: seq<Native>, open: seq<Context>)
    ensures Run(r, State(Advancing, open + [ItemsContext(list, e, rest, done)]))
         == Continue(r, ConvertItems(r, rest, e, done, list), open)
    decreases rest, 0
  {
    var here := open + [ItemsContext(list, e, rest, done)];
    assert Below(here) == open;
    if rest != [] {
      var there := open + [ItemsContext(list, e, rest[1..], done)];
      assert WithTop(here, ItemsContext(list, e, rest[1..], done)) == there;
      ConvertSim(r, rest[0], e, there);
      match ConvertValue(r, rest[0], e)
      case Err(_) =>
      case Ok(v) =>
        ItemReturned(r, list, e, rest[1..], done, v, open);
        ItemsSim(r, list, e, rest[1..], done + [v], open);
    }
  }

  /** `Return` into an items context appends the result. */
  lemma ItemReturned(r: Reflection, list: bool, e: NativeType, rest: seq<Json>, done: seq<Native>, v: Native, open: seq<Context>)
    ensures Run(r, State(Returning(v), open + [ItemsContext(list, e, rest, done)]))
         == Run(r, State(Advancing, open + [ItemsContext(list, e, rest, done + [v])]))
  {
    var here := open + [ItemsContext(list, e, rest, done)];
    assert WithTop(here, ItemsContext(list, e, rest, done + [v])) == open + [ItemsContext(list, e, rest, done + [v])];
  }

  /** At `ObjectNext`. */
  lemma {:induction false} SettersSim(r: Reflection, members: seq<Member>, setters: seq<Setter>, instance: Native, current: Option<Setter>, open: seq<Context>)
    ensures Run(r, State(Advancing, open + [ObjectContext(members, setters, instance, current)]))
         == Continue(r, ApplySetters(r, members, setters, instance), open)
    decreases members, |setters|
  {
    var here := open + [ObjectContext(members, setters, instance, current)];
    assert Below(here) == open;
    if setters != [] {
      var s := setters[0];
      match IndexOf(members, s.name)
      case None =>
        SkippedSetter(r, members, setters, instance, current, open);
        SettersSim(r, members, setters[1..], instance, Some(s), open);
      case Some(i) =>
        var there := open + [ObjectContext(members, setters[1..], instance, Some(s))];
        assert WithTop(here, ObjectContext(members, setters[1..], instance, Some(s))) == there;
        if s.kind.Invoke? {
          ConvertSim(r, members[i].value, s.propertyType, there);
          match ConvertValue(r, members[i].value, s.propertyType)
          case Err(_) =>
          case Ok(v) =>
            MemberReturned(r, members, setters[1..], instance, s, v, open);
            SettersSim(r, members, setters[1..], SetField(instance, s.name, v), Some(s), open);
        } else {
          match DirectValue(r, s, members[i].value)
          case Err(_) =>
          case Ok(v) =>
            var next := ObjectContext(members, setters[1..], SetField(instance, s.name, v), Some(s));
            assert WithTop(here, next) == open + [next];
            SettersSim(r, members, setters[1..], SetField(instance, s.name, v), Some(s), open);
        }
    }
  }

  /** A setter whose name the dictionary lacks is passed over. */
  lemma SkippedSetter(r: Reflection, members: seq<Member>, setters: seq<Setter>, instance: Native, current: Option<Setter>, open: seq<Context>)
    requires setters != [] && IndexOf(members, setters[0].name).None?
    ensures Run(r, State(Advancing, open + [ObjectContext(members, setters, instance, current)]))
         == Run(r, State(Advancing, open + [ObjectContext(members, setters[1..], instance, Some(setters[0]))]))
  {
    var here := open + [ObjectContext(members, setters, instance, current)];
    assert WithTop(here, ObjectContext(members, setters[1..], instance, Some(setters[0])))
        == open + [ObjectContext(members, setters[1..], instance, Some(setters[0]))];
  }

  /** `Return` into an object context sets the current setter's property. */
  lemma MemberReturned(r: Reflection, members: seq<Member>, setters: seq<Setter>, instance: Native, s: Setter, v: Native, open: seq<Context>)
    ensures Run(r, State(Returning(v), open + [ObjectContext(members, setters, instance, Some(s))]))
         == Run(r, State(Advancing, open + [ObjectContext(members, setters, SetField(instance, s.name, v), Some(s))]))
  {
    var here := open + [ObjectContext(members, setters, instance, Some(s))];
    assert WithTop(here, ObjectContext(members, setters, SetField(instance, s.name, v), Some(s)))
        == open + [ObjectContext(members, setters, SetField(instance, s.name, v), Some(s))];
  }

  // ---------------------------------------------------------------------
  // Entry
  // ---------------------------------------------------------------------

  /** `ConvertTo.Convert`: `IEnumerable` and `Dictionary<string, object>`
      first, then the loop from the `Convert` label with no context open;
      it computes the recursive reading for every tree and type. */
  function Convert(r: Reflection, node: Json, t: NativeType): (res: Result<Native, ConvertError>)
    ensures res == ConvertReference(r, node, t)
  {
    if t == EnumerableType || t == LooseDictionaryType then ConvertToIEnumerable(node)
    else
      ConvertSim(r, node, t, []);
      Run(r, State(Converting(node, t), []))
  }
}
