/** Converting from .NET and back: `ConvertFrom` followed by `ConvertTo`
    gives back the value for plain data, that is, values whose every part
    has a JSON counterpart that converts back to its own type. */
module RoundTrip {
  import opened Results
  import opened JsonTree
  import opened NativeValues
  import opened ReflectiveOperation
  import opened ConvertTo
  import CF = ConvertFrom
  import ConvertToProperties
  import ConvertFromProperties

  /** A class shape the setters can rebuild: the instance holds every
      property, in declaration order, every property is writable and no
      two share a name. */
  predicate PlainShape(props: seq<Property>, fields: seq<Field>) {
    && |fields| == |props|
    && (forall i | 0 <= i < |props| :: props[i].canWrite && fields[i].name == props[i].name)
    && (forall i, j | 0 <= i < j < |props| :: props[i].name != props[j].name)
  }

  /** `v` is plain data of type `t`: for `object` a primitive JSON can
      carry as itself or a `JsonObject` around a container; `bool`, `int`,
      `float`, `double` and non-null strings; arrays and lists of plain
      elements; and instances of constructible classes of plain shape
      whose properties hold plain values. */
  predicate Plain(r: Reflection, v: Native, t: NativeType)
    decreases CF.Size(v)
  {
    match t
    case ObjectType =>
      v.NullValue? || v.BoolValue? || v.DoubleValue? || v.StringValue? || (v.WrappedValue? && (v.node.Array? || v.node.Object?))
    case BoolType => v.BoolValue?
    case IntType => v.IntValue?
    case FloatType => v.FloatValue?
    case DoubleType => v.DoubleValue?
    case StringType => v.StringValue?
    case ArrayType(e) => v.ArrayValue? && v.element == e && forall i | 0 <= i < |v.items| :: Plain(r, v.items[i], e)
    case ListType(e) => v.ListValue? && v.element == e && forall i | 0 <= i < |v.items| :: Plain(r, v.items[i], e)
    case ClassType(name) =>
      && v.RecordValue? && v.recordType == t && r.constructible(name)
      && PlainShape(r.classProperties(name), v.fields)
      && forall i | 0 <= i < |v.fields| :: Plain(r, v.fields[i].value, r.classProperties(name)[i].propertyType)
    case _ => false
  }

  /** Convert from .NET to a tree, then convert the tree to the value's own
      type: the value comes back unchanged. */
  lemma {:induction false} PlainRoundTrip(r: Reflection, v: Native, t: NativeType)
    requires Plain(r, v, t)
    ensures ConvertValue(r, CF.FromNative(r, v), t) == Ok(v)
    decreases CF.Size(v), 2
  {
    match t
    case ArrayType(e) =>
      ItemsRoundTrip(r, v, t);
    case ListType(e) =>
      ItemsRoundTrip(r, v, t);
    case ClassType(name) =>
      FieldsRoundTrip(r, v, name);
    case _ =>
      ScalarRoundTrip(r, v, t);
  }

  /** Plain arrays and lists come back item by item. */
  lemma {:induction false} ItemsRoundTrip(r: Reflection, v: Native, t: NativeType)
    requires Plain(r, v, t) && (t.ArrayType? || t.ListType?)
    ensures ConvertValue(r, CF.FromNative(r, v), t) == Ok(v)
    decreases CF.Size(v), 1
  {
    ItemsComeBack(r, v, t);
    CollectionNode(r, v, t);
    CollectionRoundTrip(r, v.items, t.element, t.ListType?);
  }

  lemma {:induction false} ItemsComeBack(r: Reflection, v: Native, t: NativeType)
    requires Plain(r, v, t) && (t.ArrayType? || t.ListType?)
    ensures forall i | 0 <= i < |v.items| :: ConvertValue(r, CF.FromNative(r, v.items[i]), t.element) == Ok(v.items[i])
    decreases CF.Size(v), 0
  {
    forall i | 0 <= i < |v.items|
      ensures ConvertValue(r, CF.FromNative(r, v.items[i]), t.element) == Ok(v.items[i])
    {
      PlainRoundTrip(r, v.items[i], t.element);
    }
  }

  /** A plain array or list converts back through its items' nodes. */
  lemma CollectionNode(r: Reflection, v: Native, t: NativeType)
    requires Plain(r, v, t) && (t.ArrayType? || t.ListType?)
    ensures ConvertValue(r, CF.FromNative(r, v), t) == ConvertItems(r, CF.FromItems(r, v.items), t.element, [], t.ListType?)
    ensures Collection(t.ListType?, t.element, v.items) == v
  {
    assert CF.FromNative(r, v) == Array(CF.FromItems(r, v.items));
    ConvertToProperties.ArrayIsItems(r, CF.FromItems(r, v.items), t);
  }

  /** A plain class instance comes back field by field. */
  lemma {:induction false} FieldsRoundTrip(r: Reflection, v: Native, name: Text16.Text)
    requires Plain(r, v, ClassType(name))
    ensures ConvertValue(r, CF.FromNative(r, v), ClassType(name)) == Ok(v)
    decreases CF.Size(v), 0
  {
    var props := r.classProperties(name);
    forall i | 0 <= i < |v.fields|
      ensures ConvertToProperties.RunSetter(r, MakeSetter(props[i]), CF.FromNative(r, v.fields[i].value)) == Ok(v.fields[i].value)
    {
      if SetterKindOf(props[i].propertyType).Invoke? {
        PlainRoundTrip(r, v.fields[i].value, props[i].propertyType);
      } else {
        DirectRoundTrip(r, v.fields[i].value, MakeSetter(props[i]));
      }
    }
    RecordRoundTrip(r, name, v.fields);
  }

  /** Plain data of a type that is not a container comes back from its
      scalar node, or from the tree a `JsonObject` holds. */
  lemma ScalarRoundTrip(r: Reflection, v: Native, t: NativeType)
    requires Plain(r, v, t) && !t.ArrayType? && !t.ListType? && !t.ClassType?
    ensures ConvertValue(r, CF.FromNative(r, v), t) == Ok(v)
  {
    if t == IntType {
      TruncateInteger(v.i);
    }
  }

  /** A whole number survives the trip through a double and the cast back. */
  lemma TruncateInteger(i: int)
    ensures Truncate(i as real) == i
  {
  }

  /** A direct setter reads its plain value back from the node. */
  lemma DirectRoundTrip(r: Reflection, v: Native, s: Setter)
    requires s.kind == SetterKindOf(s.propertyType) && !s.kind.Invoke?
    requires Plain(r, v, s.propertyType)
    ensures ConvertToProperties.RunSetter(r, s, CF.FromNative(r, v)) == Ok(v)
  {
    if v.IntValue? {
      TruncateInteger(v.i);
    }
  }

  /** Elements that each come back give back the array or list. */
  lemma CollectionRoundTrip(r: Reflection, items: seq<Native>, e: NativeType, list: bool)
    requires forall i | 0 <= i < |items| :: ConvertValue(r, CF.FromNative(r, items[i]), e) == Ok(items[i])
    ensures ConvertItems(r, CF.FromItems(r, items), e, [], list) == Ok(Collection(list, e, items))
  {
    var nodes := CF.FromItems(r, items);
    ConvertFromProperties.FromItemsElementwise(r, items);
    ConvertToProperties.ItemsConvertInOrder(r, nodes, e, [], list);
    var res := ConvertItems(r, nodes, e, [], list);
    assert forall i | 0 <= i < |items| :: ConvertValue(r, nodes[i], e) == Ok(items[i]);
    assert res.value.items == items;
  }

  /** Properties that each come back give back the instance. */
  lemma RecordRoundTrip(r: Reflection, name: Text16.Text, fields: seq<Field>)
    requires r.constructible(name) && PlainShape(r.classProperties(name), fields)
    requires forall i | 0 <= i < |fields| ::
      ConvertToProperties.RunSetter(r, MakeSetter(r.classProperties(name)[i]), CF.FromNative(r, fields[i].value)) == Ok(fields[i].value)
    ensures ConvertValue(r, CF.FromNative(r, RecordValue(ClassType(name), fields)), ClassType(name))
         == Ok(RecordValue(ClassType(name), fields))
  {
    PlainRecordNode(r, name, fields);
    var node := CF.FromNative(r, RecordValue(ClassType(name), fields));
    ObjectToPlainRecord(r, name, node.members, fields);
  }

  /** A plain instance becomes an Object with one member per field, in
      order, under the field's name. */
  lemma PlainRecordNode(r: Reflection, name: Text16.Text, fields: seq<Field>)
    requires PlainShape(r.classProperties(name), fields)
    ensures var node := CF.FromNative(r, RecordValue(ClassType(name), fields));
      && node.Object?
      && |node.members| == |fields|
      && UniqueKeys(node.members)
      && forall i | 0 <= i < |fields| :: node.members[i] == Member(fields[i].name, CF.FromNative(r, fields[i].value))
  {
    var props := r.classProperties(name);
    assert Properties(r, ClassType(name)) == props;
    assert forall a, b | 0 <= a < b < |fields| :: fields[a].name != fields[b].name;
    var node := CF.FromNative(r, RecordValue(ClassType(name), fields));
    ConvertFromProperties.RecordToObject(r, ClassType(name), fields);
    forall i | 0 <= i < |fields|
      ensures node.members[i] == Member(fields[i].name, CF.FromNative(r, fields[i].value))
    {
      var g := MakeGetter(props[i]);
      assert g.name == fields[i].name;
      ConvertFromProperties.PropertyValueAt(fields, g, i);
    }
  }

  /** An Object whose members are the fields' nodes, in order, converts to
      the class through its setters. */
  lemma ObjectToPlainRecord(r: Reflection, name: Text16.Text, members: seq<Member>, fields: seq<Field>)
    requires r.constructible(name) && PlainShape(r.classProperties(name), fields)
    requires |members| == |fields| && UniqueKeys(members)
    requires forall i | 0 <= i < |fields| :: members[i].key == fields[i].name
    requires forall i | 0 <= i < |fields| ::
      ConvertToProperties.RunSetter(r, MakeSetter(r.classProperties(name)[i]), members[i].value) == Ok(fields[i].value)
    ensures ConvertValue(r, Object(members), ClassType(name)) == Ok(RecordValue(ClassType(name), fields))
  {
    var t := ClassType(name);
    var props := r.classProperties(name);
    var setters := CreateSetterList(props);
    ObjectUsesSetters(r, name, members);
    SettersFindMembers(r, name, members, fields);
    SettersRebuild(r, members, setters, t, fields, 0);
    assert setters[0..] == setters;
    assert fields[..0] == [];
  }

  /** An Object converts to a constructible class by running the class's
      setters on a fresh instance. */
  lemma ObjectUsesSetters(r: Reflection, name: Text16.Text, members: seq<Member>)
    requires r.constructible(name)
    ensures ConvertValue(r, Object(members), ClassType(name))
         == ApplySetters(r, members, CreateSetterList(r.classProperties(name)), RecordValue(ClassType(name), []))
  {
    var t := ClassType(name);
    var c := Creator(RecordValue(t, []), Some(CreateSetterList(r.classProperties(name))), None);
    ClassCreator(r, name);
    ObjectThroughCreator(r, members, t, c);
  }

  lemma ClassCreator(r: Reflection, name: Text16.Text)
    requires r.constructible(name)
    ensures ObjectCreator(r, ClassType(name))
         == Ok(Creator(RecordValue(ClassType(name), []), Some(CreateSetterList(r.classProperties(name))), None))
  {
    assert NewInstance(r, ClassType(name)) == Ok(RecordValue(ClassType(name), []));
    assert Properties(r, ClassType(name)) == r.classProperties(name);
  }

  lemma ObjectThroughCreator(r: Reflection, members: seq<Member>, t: NativeType, c: Creator)
    requires t != ObjectType && !t.ArrayType? && ObjectCreator(r, t) == Ok(c) && c.setters.Some?
    ensures ConvertValue(r, Object(members), t) == ApplySetters(r, members, c.setters.value, c.instance)
  {
  }

  /** In a plain class each setter belongs to the field at its position and
      finds the member at that position. */
  lemma SettersFindMembers(r: Reflection, name: Text16.Text, members: seq<Member>, fields: seq<Field>)
    requires PlainShape(r.classProperties(name), fields)
    requires |members| == |fields| && UniqueKeys(members)
    requires forall i | 0 <= i < |fields| :: members[i].key == fields[i].name
    ensures var setters := CreateSetterList(r.classProperties(name));
      && |setters| == |fields|
      && forall j | 0 <= j < |setters| ::
           && setters[j] == MakeSetter(r.classProperties(name)[j])
           && setters[j].name == fields[j].name
           && members[j].key == fields[j].name
  {
    var props := r.classProperties(name);
    AllWritableSetters(props);
  }

  /** In a dictionary without repeated keys each key is found where it is. */
  lemma IndexOfUnique(members: seq<Member>, i: nat)
    requires i < |members| && UniqueKeys(members)
    ensures IndexOf(members, members[i].key) == Some(i)
  {
    assert Keys(members)[i] == members[i].key;
  }

  /** The setters from the `k`-th on, each finding its member, rebuild the
      instance's properties from the `k`-th on. */
  lemma {:induction false} SettersRebuild(r: Reflection, members: seq<Member>, setters: seq<Setter>, t: NativeType, fields: seq<Field>, k: nat)
    requires k <= |fields| == |setters|
    requires forall i, j | 0 <= i < j < |fields| :: fields[i].name != fields[j].name
    requires |members| == |fields| && UniqueKeys(members)
    requires forall j | 0 <= j < |setters| ::
      && setters[j].name == fields[j].name
      && members[j].key == fields[j].name
      && ConvertToProperties.RunSetter(r, setters[j], members[j].value) == Ok(fields[j].value)
    ensures ApplySetters(r, members, setters[k..], RecordValue(t, fields[..k])) == Ok(RecordValue(t, fields))
    decreases |setters| - k
  {
    if k == |setters| {
      RebuildDone(r, members, setters, t, fields, k);
    } else {
      SetterRebuildsOne(r, members, setters, t, fields, k);
      SettersRebuild(r, members, setters, t, fields, k + 1);
    }
  }

  lemma RebuildDone(r: Reflection, members: seq<Member>, setters: seq<Setter>, t: NativeType, fields: seq<Field>, k: nat)
    requires k == |fields| == |setters|
    ensures ApplySetters(r, members, setters[k..], RecordValue(t, fields[..k])) == Ok(RecordValue(t, fields))
  {
    assert setters[k..] == [];
    assert fields[..k] == fields;
  }

  lemma SetterRebuildsOne(r: Reflection, members: seq<Member>, setters: seq<Setter>, t: NativeType, fields: seq<Field>, k: nat)
    requires k < |fields| == |setters|
    requires forall i | 0 <= i < k :: fields[i].name != fields[k].name
    requires setters[k].name == fields[k].name
    requires |members| == |fields| && UniqueKeys(members) && members[k].key == fields[k].name
    requires ConvertToProperties.RunSetter(r, setters[k], members[k].value) == Ok(fields[k].value)
    ensures ApplySetters(r, members, setters[k..], RecordValue(t, fields[..k]))
         == ApplySetters(r, members, setters[k + 1..], RecordValue(t, fields[..k + 1]))
  {
    IndexOfUnique(members, k);
    var ss := setters[k..];
    assert ss[0] == setters[k] && ss[1..] == setters[k + 1..];
    ApplySettersHead(r, members, ss, RecordValue(t, fields[..k]), k, fields[k].value);
    SetFieldAppends(t, fields, k);
  }

  /** Setting a property the instance does not hold yet appends it. */
  lemma SetFieldAppends(t: NativeType, fields: seq<Field>, k: nat)
    requires k < |fields|
    requires forall i | 0 <= i < k :: fields[i].name != fields[k].name
    ensures SetField(RecordValue(t, fields[..k]), fields[k].name, fields[k].value) == RecordValue(t, fields[..k + 1])
  {
    assert FieldIndex(fields[..k], fields[k].name).None?;
    assert fields[..k] + [Field(fields[k].name, fields[k].value)] == fields[..k + 1];
  }

  /** A setter that finds its member and converts it sets the property and
      hands over to the next setter. */
  lemma ApplySettersHead(r: Reflection, members: seq<Member>, ss: seq<Setter>, instance: Native, i: nat, v: Native)
    requires ss != [] && IndexOf(members, ss[0].name) == Some(i)
    requires ConvertToProperties.RunSetter(r, ss[0], members[i].value) == Ok(v)
    ensures ApplySetters(r, members, ss, instance) == ApplySetters(r, members, ss[1..], SetField(instance, ss[0].name, v))
  {
  }

  /** For `object`, the other direction holds for every tree: convert it to
      a loose .NET value, convert that back, and the tree comes back. */
  lemma LooseTreeRoundTrip(r: Reflection, node: Json)
    ensures ConvertValue(r, node, ObjectType).Ok?
    ensures CF.FromNative(r, ConvertValue(r, node, ObjectType).value) == node
  {
    ConvertFromProperties.LooseRoundTrip(r, node);
  }

  /** Converting an array to `IEnumerable` and the result back to a tree
      gives the array back. */
  lemma EnumerableArrayRoundTrip(r: Reflection, items: seq<Json>)
    ensures ConvertReference(r, Array(items), EnumerableType).Ok?
    ensures CF.FromNative(r, ConvertReference(r, Array(items), EnumerableType).value) == Array(items)
  {
    var v := ConvertReference(r, Array(items), EnumerableType).value;
    ConvertFromProperties.EnumerableToArray(r, v);
    forall i | 0 <= i < |items|
      ensures CF.FromNative(r, v.items[i]) == items[i]
    {
      ConvertFromProperties.LooseRoundTrip(r, items[i]);
    }
    assert CF.FromNative(r, v).items == items;
  }
}
