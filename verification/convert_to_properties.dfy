/** What `ConvertTo` promises, stated on its recursive reading (which the
    loop computes, by the contract of `ConvertTo.Convert`). */
module ConvertToProperties {
  import opened Text16
  import opened Results
  import opened JsonTree
  import opened NativeValues
  import opened ReflectiveOperation
  import opened ConvertTo

  /** What one setter stores for the node under its name. */
  function RunSetter(r: Reflection, s: Setter, node: Json): Result<Native, ConvertError> {
    if s.kind.Invoke? then ConvertValue(r, node, s.propertyType) else DirectValue(r, s, node)
  }

  /** An array of element type `e`, or a list when `list` holds. */
  predicate IsCollection(v: Native, list: bool, e: NativeType) {
    if list then v.ListValue? && v.element == e else v.ArrayValue? && v.element == e
  }

  /** The value a record holds for a property, if one was set. */
  function FieldLookup(fields: seq<Field>, name: Text): Option<Native> {
    match FieldIndex(fields, name)
    case None => None
    case Some(i) => Some(fields[i].value)
  }

  // ---------------------------------------------------------------------
  // Collections
  // ---------------------------------------------------------------------

  /** `res` is what converting `items` after `done` should give: success
      exactly when every item converts, and then a collection holding
      `done` followed by the converted items, in order. */
  predicate ConvertsInOrder(r: Reflection, items: seq<Json>, e: NativeType, done: seq<Native>, list: bool, res: Result<Native, ConvertError>) {
    && (res.Ok? <==> forall i | 0 <= i < |items| :: ConvertValue(r, items[i], e).Ok?)
    && (res.Ok? ==> IsCollection(res.value, list, e) && |res.value.items| == |done| + |items|)
    && (res.Ok? ==> res.value.items[..|done|] == done)
    && (res.Ok? ==> forall i | 0 <= i < |items| :: ConvertValue(r, items[i], e) == Ok(res.value.items[|done| + i]))
  }

  /** Items convert one for one and in order: the conversion succeeds
      exactly when every item's does, and then holds the converted items
      after the ones already done. */
  lemma {:induction false} ItemsConvertInOrder(r: Reflection, items: seq<Json>, e: NativeType, done: seq<Native>, list: bool)
    ensures ConvertsInOrder(r, items, e, done, list, ConvertItems(r, items, e, done, list))
    decreases |items|
  {
    if items != [] {
      match ConvertValue(r, items[0], e)
      case Err(x) =>
        assert ConvertItems(r, items, e, done, list) == Err(x);
      case Ok(v) =>
        ItemsConvertInOrder(r, items[1..], e, done + [v], list);
        assert ConvertItems(r, items, e, done, list) == ConvertItems(r, items[1..], e, done + [v], list);
        ConsInOrder(r, items, e, done, list, v, ConvertItems(r, items[1..], e, done + [v], list));
    }
  }

  /** Converting the first item and then the rest in order is converting
      all of them in order. */
  lemma ConsInOrder(r: Reflection, items: seq<Json>, e: NativeType, done: seq<Native>, list: bool, v: Native, res: Result<Native, ConvertError>)
    requires items != [] && ConvertValue(r, items[0], e) == Ok(v)
    requires ConvertsInOrder(r, items[1..], e, done + [v], list, res)
    ensures ConvertsInOrder(r, items, e, done, list, res)
  {
    var tail := items[1..];
    forall i | 1 <= i < |items|
      ensures ConvertValue(r, items[i], e) == ConvertValue(r, tail[i - 1], e)
    {
      assert items[i] == tail[i - 1];
    }
    if res.Ok? {
      var out := res.value.items;
      assert out[..|done| + 1][..|done|] == out[..|done|];
      assert out[..|done| + 1][|done|] == out[|done|];
      forall i | 0 <= i < |items|
        ensures ConvertValue(r, items[i], e) == Ok(out[|done| + i])
      {
        if i > 0 {
          assert |done + [v]| + (i - 1) == |done| + i;
        }
      }
    }
  }

  /** A failed item conversion is the first failing item's error. */
  lemma {:induction false} ItemsFirstError(r: Reflection, items: seq<Json>, e: NativeType, done: seq<Native>, list: bool)
    ensures var res := ConvertItems(r, items, e, done, list);
      res.Err? ==> exists k | 0 <= k < |items| :: ConvertValue(r, items[k], e) == Err(res.error)
                     && forall j | 0 <= j < k :: ConvertValue(r, items[j], e).Ok?
    decreases |items|
  {
    if items != [] {
      var tail := items[1..];
      match ConvertValue(r, items[0], e)
      case Err(x) =>
        assert ConvertValue(r, items[0], e) == Err(x);
      case Ok(v) =>
        ItemsFirstError(r, tail, e, done + [v], list);
        var res := ConvertItems(r, items, e, done, list);
        assert res == ConvertItems(r, tail, e, done + [v], list);
        if res.Err? {
          var k :| 0 <= k < |tail| && ConvertValue(r, tail[k], e) == Err(res.error)
            && forall j | 0 <= j < k :: ConvertValue(r, tail[j], e).Ok?;
          assert items[k + 1] == tail[k];
          assert forall j | 1 <= j < k + 1 :: items[j] == tail[j - 1];
        }
    }
  }

  /** A JSON array converts to `T[]` or `List<T>` element by element, and
      to no other type but `object`. */
  lemma ArrayConversion(r: Reflection, items: seq<Json>, t: NativeType)
    requires t != ObjectType
    ensures var res := ConvertValue(r, Array(items), t);
      && (!t.ArrayType? && !t.ListType? ==> res == Err(InvalidCast(Lit("Array"), t)))
      && (t.ArrayType? || t.ListType? ==>
           && (res.Ok? <==> forall i | 0 <= i < |items| :: ConvertValue(r, items[i], t.element).Ok?)
           && (res.Ok? ==> IsCollection(res.value, t.ListType?, t.element) && |res.value.items| == |items|)
           && (res.Ok? ==> forall i | 0 <= i < |items| :: ConvertValue(r, items[i], t.element) == Ok(res.value.items[i])))
  {
    if t.ArrayType? || t.ListType? {
      ArrayToCollection(r, items, t);
    } else {
      ArrayCastError(r, items, t);
    }
  }

  lemma ArrayToCollection(r: Reflection, items: seq<Json>, t: NativeType)
    requires t.ArrayType? || t.ListType?
    ensures var res := ConvertValue(r, Array(items), t);
      && (res.Ok? <==> forall i | 0 <= i < |items| :: ConvertValue(r, items[i], t.element).Ok?)
      && (res.Ok? ==> IsCollection(res.value, t.ListType?, t.element) && |res.value.items| == |items|)
      && (res.Ok? ==> forall i | 0 <= i < |items| :: ConvertValue(r, items[i], t.element) == Ok(res.value.items[i]))
  {
    var res := ConvertValue(r, Array(items), t);
    ArrayIsItems(r, items, t);
    ItemsConvertInOrder(r, items, t.element, [], t.ListType?);
    FromStartInOrder(r, items, t.element, t.ListType?, res);
  }

  lemma ArrayIsItems(r: Reflection, items: seq<Json>, t: NativeType)
    requires t.ArrayType? || t.ListType?
    ensures ConvertValue(r, Array(items), t) == ConvertItems(r, items, t.element, [], t.ListType?)
  {
  }

  lemma FromStartInOrder(r: Reflection, items: seq<Json>, e: NativeType, list: bool, res: Result<Native, ConvertError>)
    requires ConvertsInOrder(r, items, e, [], list, res)
    ensures res.Ok? <==> forall i | 0 <= i < |items| :: ConvertValue(r, items[i], e).Ok?
    ensures res.Ok? ==> IsCollection(res.value, list, e) && |res.value.items| == |items|
    ensures res.Ok? ==> forall i | 0 <= i < |items| :: ConvertValue(r, items[i], e) == Ok(res.value.items[i])
  {
    if res.Ok? {
      forall i | 0 <= i < |items|
        ensures ConvertValue(r, items[i], e) == Ok(res.value.items[i])
      {
        var none: seq<Native> := [];
        assert ConvertValue(r, items[i], e) == Ok(res.value.items[|none| + i]);
      }
    }
  }

  lemma ArrayCastError(r: Reflection, items: seq<Json>, t: NativeType)
    requires t != ObjectType && !t.ArrayType? && !t.ListType?
    ensures ConvertValue(r, Array(items), t) == Err(InvalidCast(Lit("Array"), t))
  {
    assert TagName(Array(items)) == Lit("Array");
  }

  /** A JSON object never becomes an array, and a `List<T>` has no setter
      list to fill, so reading it fails. */
  lemma ObjectToCollection(r: Reflection, members: seq<Member>, e: NativeType)
    ensures ConvertValue(r, Object(members), ArrayType(e)) == Err(InvalidCast(Lit("Object"), ArrayType(e)))
    ensures ConvertValue(r, Object(members), ListType(e)) == Err(NullReference)
  {
  }

  /** A value type has no writable properties, so any JSON object converts
      to its default value. */
  lemma ObjectToValueType(r: Reflection, members: seq<Member>, t: NativeType)
    requires t.BoolType? || t.IntType? || t.FloatType? || t.DoubleType? || t.EnumType?
    ensures ConvertValue(r, Object(members), t) == Ok(Default(t))
  {
  }

  // ---------------------------------------------------------------------
  // Setters
  // ---------------------------------------------------------------------

  lemma {:induction false} FieldIndexAppendOther(fields: seq<Field>, f: Field, name: Text)
    requires f.name != name
    ensures FieldIndex(fields + [f], name) == FieldIndex(fields, name)
    decreases |fields|
  {
    if fields != [] {
      assert (fields + [f])[1..] == fields[1..] + [f];
      FieldIndexAppendOther(fields[1..], f, name);
    } else {
      assert fields + [f] == [f];
    }
  }

  lemma {:induction false} FieldIndexReplaceOther(fields: seq<Field>, i: nat, v: Native, name: Text)
    requires i < |fields| && fields[i].name != name
    ensures FieldIndex(fields[i := Field(fields[i].name, v)], name) == FieldIndex(fields, name)
    decreases i
  {
    if i > 0 {
      assert fields[i := Field(fields[i].name, v)][1..] == fields[1..][i - 1 := Field(fields[i].name, v)];
      FieldIndexReplaceOther(fields[1..], i - 1, v, name);
    }
  }

  /** Setting a property changes what that property reads and nothing
      else. */
  lemma SetFieldLookup(instance: Native, name: Text, v: Native, other: Text)
    requires instance.RecordValue?
    ensures FieldLookup(SetField(instance, name, v).fields, name) == Some(v)
    ensures other != name ==> FieldLookup(SetField(instance, name, v).fields, other) == FieldLookup(instance.fields, other)
  {
    if other != name {
      var fields := instance.fields;
      match FieldIndex(fields, name)
      case None =>
        FieldIndexAppendOther(fields, Field(name, v), other);
      case Some(i) =>
        FieldIndexReplaceOther(fields, i, v, other);
    }
  }

  /** What the setter loop promises of its result `res`, started from
      `instance`: it succeeds exactly when every setter whose name the
      dictionary holds succeeds; each such property then holds what its
      setter stored, and every other property keeps the value it had. */
  ghost predicate Fills(r: Reflection, members: seq<Member>, setters: seq<Setter>, instance: Native, res: Result<Native, ConvertError>)
    requires instance.RecordValue?
  {
    && (res.Ok? <==> forall j | 0 <= j < |setters| && TryGetValue(members, setters[j].name).Some? ::
          RunSetter(r, setters[j], TryGetValue(members, setters[j].name).value).Ok?)
    && (res.Ok? ==> res.value.RecordValue? && res.value.recordType == instance.recordType)
    && (res.Ok? ==> forall j | 0 <= j < |setters| && TryGetValue(members, setters[j].name).Some? ::
          Some(RunSetter(r, setters[j], TryGetValue(members, setters[j].name).value).value) == FieldLookup(res.value.fields, setters[j].name))
    && (res.Ok? ==> forall name | (forall j | 0 <= j < |setters| :: setters[j].name != name) ::
          FieldLookup(res.value.fields, name) == FieldLookup(instance.fields, name))
  }

  /** The setter loop with distinct property names fills the instance as
      `Fills` describes. */
  lemma {:induction false} SettersFill(r: Reflection, members: seq<Member>, setters: seq<Setter>, instance: Native)
    requires instance.RecordValue?
    requires forall a, b | 0 <= a < b < |setters| :: setters[a].name != setters[b].name
    ensures Fills(r, members, setters, instance, ApplySetters(r, members, setters, instance))
    decreases |setters|
  {
    if setters != [] {
      var s := setters[0];
      var rest := setters[1..];
      var res := ApplySetters(r, members, setters, instance);
      match IndexOf(members, s.name)
      case None =>
        SettersFill(r, members, rest, instance);
        assert res == ApplySetters(r, members, rest, instance);
        SkipFills(r, members, setters, instance, res);
      case Some(i) =>
        assert TryGetValue(members, s.name) == Some(members[i].value);
        match RunSetter(r, s, members[i].value)
        case Err(x) =>
          assert res == Err(x);
        case Ok(v) =>
          var next := SetField(instance, s.name, v);
          SettersFill(r, members, rest, next);
          assert res == ApplySetters(r, members, rest, next);
          SetFills(r, members, setters, instance, v, res);
    }
  }

  /** A setter whose name the dictionary lacks leaves the loop's promise
      for the remaining setters unchanged. */
  lemma SkipFills(r: Reflection, members: seq<Member>, setters: seq<Setter>, instance: Native, res: Result<Native, ConvertError>)
    requires instance.RecordValue? && setters != []
    requires TryGetValue(members, setters[0].name).None?
    requires Fills(r, members, setters[1..], instance, res)
    ensures Fills(r, members, setters, instance, res)
  {
    var rest := setters[1..];
    assert forall j | 1 <= j < |setters| :: setters[j] == rest[j - 1];
    if res.Ok? {
      forall name | (forall j | 0 <= j < |setters| :: setters[j].name != name)
        ensures FieldLookup(res.value.fields, name) == FieldLookup(instance.fields, name)
      {
        assert forall j | 0 <= j < |rest| :: rest[j].name != name;
      }
    }
  }

  /** A setter that stores `v` under its (fresh) name, followed by the
      remaining setters, keeps the loop's promise. */
  lemma SetFills(r: Reflection, members: seq<Member>, setters: seq<Setter>, instance: Native, v: Native, res: Result<Native, ConvertError>)
    requires instance.RecordValue? && setters != []
    requires forall a, b | 0 <= a < b < |setters| :: setters[a].name != setters[b].name
    requires TryGetValue(members, setters[0].name).Some?
    requires RunSetter(r, setters[0], TryGetValue(members, setters[0].name).value) == Ok(v)
    requires Fills(r, members, setters[1..], SetField(instance, setters[0].name, v), res)
    ensures Fills(r, members, setters, instance, res)
  {
    var s := setters[0];
    var rest := setters[1..];
    assert forall j | 1 <= j < |setters| :: setters[j] == rest[j - 1];
    if res.Ok? {
      SetFillsStored(r, members, setters, instance, v, res);
      SetFillsFrame(r, members, setters, instance, v, res);
    }
  }

  lemma SetFillsStored(r: Reflection, members: seq<Member>, setters: seq<Setter>, instance: Native, v: Native, res: Result<Native, ConvertError>)
    requires instance.RecordValue? && setters != [] && res.Ok?
    requires forall a, b | 0 <= a < b < |setters| :: setters[a].name != setters[b].name
    requires TryGetValue(members, setters[0].name).Some?
    requires RunSetter(r, setters[0], TryGetValue(members, setters[0].name).value) == Ok(v)
    requires Fills(r, members, setters[1..], SetField(instance, setters[0].name, v), res)
    ensures forall j | 0 <= j < |setters| && TryGetValue(members, setters[j].name).Some? ::
      Some(RunSetter(r, setters[j], TryGetValue(members, setters[j].name).value).value) == FieldLookup(res.value.fields, setters[j].name)
  {
    var s := setters[0];
    var rest := setters[1..];
    assert forall j | 0 <= j < |rest| :: rest[j].name != s.name;
    SetFieldLookup(instance, s.name, v, s.name);
    forall j | 0 <= j < |setters| && TryGetValue(members, setters[j].name).Some?
      ensures Some(RunSetter(r, setters[j], TryGetValue(members, setters[j].name).value).value) == FieldLookup(res.value.fields, setters[j].name)
    {
      if j > 0 {
        assert setters[j] == rest[j - 1];
      }
    }
  }

  lemma SetFillsFrame(r: Reflection, members: seq<Member>, setters: seq<Setter>, instance: Native, v: Native, res: Result<Native, ConvertError>)
    requires instance.RecordValue? && setters != [] && res.Ok?
    requires Fills(r, members, setters[1..], SetField(instance, setters[0].name, v), res)
    ensures forall name | (forall j | 0 <= j < |setters| :: setters[j].name != name) ::
      FieldLookup(res.value.fields, name) == FieldLookup(instance.fields, name)
  {
    var s := setters[0];
    var rest := setters[1..];
    forall name | (forall j | 0 <= j < |setters| :: setters[j].name != name)
      ensures FieldLookup(res.value.fields, name) == FieldLookup(instance.fields, name)
    {
      assert forall j | 0 <= j < |rest| :: rest[j].name != name;
      SetFieldLookup(instance, s.name, v, name);
    }
  }

  lemma {:induction false} IndexOfAppendAbsent(members: seq<Member>, m: Member, name: Text)
    requires m.key != name
    ensures IndexOf(members + [m], name) == IndexOf(members, name)
  {
    IndexOfExtension(members, m, name);
  }

  /** A member whose key no setter has is ignored: the instance is the same
      with or without it. */
  lemma {:induction false} UnknownKeyIgnored(r: Reflection, members: seq<Member>, m: Member, setters: seq<Setter>, instance: Native)
    requires forall j | 0 <= j < |setters| :: setters[j].name != m.key
    ensures ApplySetters(r, members + [m], setters, instance) == ApplySetters(r, members, setters, instance)
    decreases |setters|
  {
    if setters != [] {
      var s := setters[0];
      IndexOfAppendAbsent(members, m, s.name);
      match IndexOf(members, s.name)
      case None =>
        UnknownKeyIgnored(r, members, m, setters[1..], instance);
      case Some(i) =>
        assert (members + [m])[i] == members[i];
        var x := if s.kind.Invoke? then ConvertValue(r, members[i].value, s.propertyType) else DirectValue(r, s, members[i].value);
        match x
        case Err(_) =>
        case Ok(v) =>
          UnknownKeyIgnored(r, members, m, setters[1..], SetField(instance, s.name, v));
    }
  }

  /** The direct setters are a shortcut: on a scalar node, a setter for
      `bool`, `int`, `float`, `double` or `string` stores what converting
      the node to the property's type yields. */
  lemma DirectSetterAgrees(r: Reflection, name: Text, t: NativeType, node: Json)
    requires !node.Array? && !node.Object?
    requires !SetterKindOf(t).Invoke?
    ensures DirectValue(r, Setter(name, t, SetterKindOf(t)), node) == ConvertValue(r, node, t)
  {
  }

  // ---------------------------------------------------------------------
  // Examples from the repository's tests
  // ---------------------------------------------------------------------

  /** `[[0,1],[2,3]]` as `double[][]`. */
  lemma NestedArrayExample(r: Reflection)
    ensures ConvertValue(r, Array([Array([Number(0.0), Number(1.0)]), Array([Number(2.0), Number(3.0)])]), ArrayType(ArrayType(DoubleType)))
         == Ok(ArrayValue(ArrayType(DoubleType), [ArrayValue(DoubleType, [DoubleValue(0.0), DoubleValue(1.0)]),
                                                  ArrayValue(DoubleType, [DoubleValue(2.0), DoubleValue(3.0)])]))
  {
    var a := ArrayValue(DoubleType, [DoubleValue(0.0), DoubleValue(1.0)]);
    var b := ArrayValue(DoubleType, [DoubleValue(2.0), DoubleValue(3.0)]);
    PairArray(r, Number(0.0), Number(1.0), DoubleType, DoubleValue(0.0), DoubleValue(1.0));
    PairArray(r, Number(2.0), Number(3.0), DoubleType, DoubleValue(2.0), DoubleValue(3.0));
    PairArray(r, Array([Number(0.0), Number(1.0)]), Array([Number(2.0), Number(3.0)]), ArrayType(DoubleType), a, b);
  }

  lemma PairArray(r: Reflection, x: Json, y: Json, e: NativeType, u: Native, v: Native)
    requires ConvertValue(r, x, e) == Ok(u) && ConvertValue(r, y, e) == Ok(v)
    ensures ConvertValue(r, Array([x, y]), ArrayType(e)) == Ok(ArrayValue(e, [u, v]))
  {
    ArrayIsItems(r, [x, y], ArrayType(e));
    assert [x, y][1..] == [y] && [] + [u] == [u];
    assert ConvertItems(r, [x, y], e, [], false) == ConvertItems(r, [y], e, [u], false);
    assert [y][1..] == [] && [u] + [v] == [u, v];
    assert ConvertItems(r, [y], e, [u], false) == ConvertItems(r, [], e, [u, v], false);
  }

  /** `[]` as `bool` and `{}` as `double[]` are the library's cast errors. */
  lemma CastErrorExamples(r: Reflection)
    ensures ConvertValue(r, Array([]), BoolType) == Err(InvalidCast(Lit("Array"), BoolType))
    ensures ConvertValue(r, Object([]), ArrayType(DoubleType)) == Err(InvalidCast(Lit("Object"), ArrayType(DoubleType)))
  {
  }

  /** `{"S":"a"}` as a class whose one property `S` is a writable string. */
  lemma UserClassExample(r: Reflection)
    requires r.constructible(Lit("A")) && r.classProperties(Lit("A")) == [Property(Lit("S"), StringType, true)]
    ensures ConvertValue(r, Object([Member(Lit("S"), String(Lit("a")))]), ClassType(Lit("A")))
         == Ok(RecordValue(ClassType(Lit("A")), [Field(Lit("S"), StringValue(Lit("a")))]))
  {
    UserClassCreator(r);
    StringSetterExample(r);
  }

  lemma UserClassCreator(r: Reflection)
    requires r.constructible(Lit("A")) && r.classProperties(Lit("A")) == [Property(Lit("S"), StringType, true)]
    ensures ObjectCreator(r, ClassType(Lit("A")))
         == Ok(Creator(RecordValue(ClassType(Lit("A")), []), Some([Setter(Lit("S"), StringType, DirectString)]), None))
  {
    var props := [Property(Lit("S"), StringType, true)];
    assert CreateSetterList(props) == [Setter(Lit("S"), StringType, DirectString)] by {
      assert props[1..] == [];
    }
  }

  lemma StringSetterExample(r: Reflection)
    ensures var s := Setter(Lit("S"), StringType, DirectString);
      ApplySetters(r, [Member(Lit("S"), String(Lit("a")))], [s], RecordValue(ClassType(Lit("A")), []))
      == Ok(RecordValue(ClassType(Lit("A")), [Field(Lit("S"), StringValue(Lit("a")))]))
  {
    var s := Setter(Lit("S"), StringType, DirectString);
    var members := [Member(Lit("S"), String(Lit("a")))];
    var instance := RecordValue(ClassType(Lit("A")), []);
    assert IndexOf(members, Lit("S")) == Some(0);
    assert DirectValue(r, s, String(Lit("a"))) == Ok(StringValue(Lit("a")));
    assert [s][1..] == [];
    assert [] + [Field(Lit("S"), StringValue(Lit("a")))] == [Field(Lit("S"), StringValue(Lit("a")))];
  }

  /** `{"S":"a"}` as a class with no properties. */
  lemma EmptyClassExample(r: Reflection)
    requires r.constructible(Lit("Empty")) && r.classProperties(Lit("Empty")) == []
    ensures ConvertValue(r, Object([Member(Lit("S"), String(Lit("a")))]), ClassType(Lit("Empty")))
         == Ok(RecordValue(ClassType(Lit("Empty")), []))
  {
  }

  /** `[null]` as `object[]`. */
  lemma NullItemExample(r: Reflection)
    ensures ConvertValue(r, Array([Null]), ArrayType(ObjectType)) == Ok(ArrayValue(ObjectType, [NullValue]))
  {
    assert [Null][1..] == [] && [] + [NullValue] == [NullValue];
    assert ConvertItems(r, [Null], ObjectType, [], false) == ConvertItems(r, [], ObjectType, [NullValue], false);
  }

  /** `[0,1]` read through `IEnumerable`. */
  lemma EnumerableExample(r: Reflection)
    ensures ConvertReference(r, Array([Number(0.0), Number(1.0)]), EnumerableType) == Ok(SequenceValue([DoubleValue(0.0), DoubleValue(1.0)]))
  {
    var res := ConvertReference(r, Array([Number(0.0), Number(1.0)]), EnumerableType);
    assert res.value.items == [DoubleValue(0.0), DoubleValue(1.0)];
  }
}
