/** What `ConvertFrom` makes of each kind of value, stated on the recursive
    reading (which the loop computes, by the contract of `Convert`). */
module ConvertFromProperties {
  import opened Text16
  import opened JsonTree
  import opened NativeValues
  import opened ReflectiveOperation
  import opened ConvertFrom

  /** The nodes of a sequence of values are converted one by one, in order. */
  lemma {:induction false} FromItemsElementwise(r: Reflection, items: seq<Native>)
    ensures |FromItems(r, items)| == |items|
    ensures forall i | 0 <= i < |items| :: FromItems(r, items)[i] == FromNative(r, items[i])
    decreases |items|
  {
    if items != [] {
      FromItemsElementwise(r, items[1..]);
      assert forall i | 1 <= i < |items| :: items[i] == items[1..][i - 1];
    }
  }

  /** An array, a list or any other `IEnumerable` becomes an Array of its
      elements' nodes, in enumeration order. */
  lemma EnumerableToArray(r: Reflection, v: Native)
    requires v.ArrayValue? || v.ListValue? || v.SequenceValue?
    ensures FromNative(r, v).Array?
    ensures |FromNative(r, v).items| == |v.items|
    ensures forall i | 0 <= i < |v.items| :: FromNative(r, v).items[i] == FromNative(r, v.items[i])
  {
    FromItemsElementwise(r, v.items);
  }

  /** The typed getters are a fast path: the node a getter stores is the
      node the value it reads would convert to. */
  lemma GetterFastPathAgrees(r: Reflection, fields: seq<Field>, g: Getter)
    ensures StoredNode(r, fields, g) == FromNative(r, PropertyValue(fields, g))
  {
    var v := PropertyValue(fields, g);
    match (g.kind, v)
    case (GetBool, BoolValue(b)) =>
    case (GetNumber, IntValue(i)) =>
    case (GetNumber, FloatValue(f)) =>
    case (GetNumber, DoubleValue(d)) =>
    case (GetNumber, EnumValue(_, i)) =>
    case (GetString, NullValue) =>
    case (GetString, StringValue(s)) =>
    case _ =>
  }

  /** The member each getter contributes: its name and the node of the
      value it reads. */
  function GetterMembers(r: Reflection, fields: seq<Field>, getters: seq<Getter>): (m: seq<Member>)
    ensures |m| == |getters|
    ensures forall i | 0 <= i < |getters| :: m[i] == Member(getters[i].name, FromNative(r, PropertyValue(fields, getters[i])))
  {
    if getters == [] then []
    else
      var rest := GetterMembers(r, fields, getters[1..]);
      assert forall i | 1 <= i < |getters| :: getters[i] == getters[1..][i - 1];
      [Member(getters[0].name, FromNative(r, PropertyValue(fields, getters[0])))] + rest
  }

  /** Getters with distinct names, none already in the dictionary, append
      one member each, in getter order, holding the node of the value the
      getter reads. */
  lemma {:induction false} GettersWalkMembers(r: Reflection, fields: seq<Field>, getters: seq<Getter>, dict: seq<Member>)
    requires forall i, j | 0 <= i < j < |getters| :: getters[i].name != getters[j].name
    requires forall i | 0 <= i < |getters| :: getters[i].name !in Keys(dict)
    ensures GettersWalk(r, fields, getters, dict) == dict + GetterMembers(r, fields, getters)
    decreases |getters|
  {
    if getters != [] {
      var m := Member(getters[0].name, FromNative(r, PropertyValue(fields, getters[0])));
      var rest := getters[1..];
      WalkStep(r, fields, getters, dict);
      RestFresh(getters, dict, Keys(dict + [m]));
      GettersWalkMembers(r, fields, rest, dict + [m]);
      assert GetterMembers(r, fields, getters) == [m] + GetterMembers(r, fields, rest);
      AppendAssociates(dict, [m], GetterMembers(r, fields, rest));
    }
  }

  /** The getters after the first keep distinct names, none among the
      keys once the first is added. */
  lemma RestFresh(getters: seq<Getter>, dict: seq<Member>, keys: seq<Text>)
    requires getters != [] && keys == Keys(dict) + [getters[0].name]
    requires forall i, j | 0 <= i < j < |getters| :: getters[i].name != getters[j].name
    requires forall i | 0 <= i < |getters| :: getters[i].name !in Keys(dict)
    ensures forall i, j | 0 <= i < j < |getters[1..]| :: getters[1..][i].name != getters[1..][j].name
    ensures forall i | 0 <= i < |getters[1..]| :: getters[1..][i].name !in keys
  {
    assert forall i | 0 <= i < |getters[1..]| :: getters[1..][i] == getters[i + 1];
  }

  lemma AppendAssociates<T>(a: seq<T>, b: seq<T>, c: seq<T>)
    ensures a + b + c == a + (b + c)
  {
  }

  /** One getter of the walk: a name not yet in the dictionary is
      appended, with the node of the value the getter reads. */
  lemma WalkStep(r: Reflection, fields: seq<Field>, getters: seq<Getter>, dict: seq<Member>)
    requires getters != [] && getters[0].name !in Keys(dict)
    ensures var next := dict + [Member(getters[0].name, FromNative(r, PropertyValue(fields, getters[0])))];
      && GettersWalk(r, fields, getters, dict) == GettersWalk(r, fields, getters[1..], next)
      && Keys(next) == Keys(dict) + [getters[0].name]
  {
    var g := getters[0];
    GetterFastPathAgrees(r, fields, g);
    assert IndexOf(dict, g.name).None?;
  }

  /** A property's value is the instance's field of that name when the
      instance holds one; with distinct names that is the field at the
      property's own position. */
  lemma PropertyValueAt(fields: seq<Field>, g: Getter, i: nat)
    requires i < |fields| && fields[i].name == g.name
    requires forall a, b | 0 <= a < b < |fields| :: fields[a].name != fields[b].name
    ensures PropertyValue(fields, g) == fields[i].value
  {
  }

  /** Any other object becomes an Object with one member per property of
      its type, in declaration order, each holding the node of the
      property's value; a property the instance does not hold reads as its
      type's default, so a null reference becomes Null. */
  lemma RecordToObject(r: Reflection, t: NativeType, fields: seq<Field>)
    requires var props := Properties(r, t);
      forall i, j | 0 <= i < j < |props| :: props[i].name != props[j].name
    ensures var node := FromNative(r, RecordValue(t, fields)); var props := Properties(r, t);
      && node.Object?
      && |node.members| == |props|
      && (forall i | 0 <= i < |props| ::
            node.members[i] == Member(props[i].name, FromNative(r, PropertyValue(fields, MakeGetter(props[i])))))
      && UniqueKeys(node.members)
  {
    var props := Properties(r, t);
    var getters := CreateGetterList(props);
    RecordNode(r, t, fields);
    GettersOfProperties(props, getters);
    GettersWalkMembers(r, fields, getters, []);
    assert [] + GetterMembers(r, fields, getters) == GetterMembers(r, fields, getters);
    MembersOfProperties(r, fields, props, getters, GetterMembers(r, fields, getters));
  }

  lemma RecordNode(r: Reflection, t: NativeType, fields: seq<Field>)
    ensures FromNative(r, RecordValue(t, fields)) == Object(GettersWalk(r, fields, CreateGetterList(Properties(r, t)), []))
  {
  }

  lemma GettersOfProperties(props: seq<Property>, getters: seq<Getter>)
    requires getters == CreateGetterList(props)
    requires forall i, j | 0 <= i < j < |props| :: props[i].name != props[j].name
    ensures forall i, j | 0 <= i < j < |getters| :: getters[i].name != getters[j].name
    ensures forall i | 0 <= i < |getters| :: getters[i].name !in Keys([])
  {
    assert forall i | 0 <= i < |getters| :: getters[i].name == props[i].name;
  }

  /** The getters' members are the properties' names with their values'
      nodes. */
  lemma MembersOfProperties(r: Reflection, fields: seq<Field>, props: seq<Property>, getters: seq<Getter>, ms: seq<Member>)
    requires |getters| == |props| && forall i | 0 <= i < |props| :: getters[i] == MakeGetter(props[i])
    requires |ms| == |getters| && forall i | 0 <= i < |getters| :: ms[i] == Member(getters[i].name, FromNative(r, PropertyValue(fields, getters[i])))
    requires forall i, j | 0 <= i < j < |props| :: props[i].name != props[j].name
    ensures |ms| == |props|
    ensures forall i | 0 <= i < |props| :: ms[i] == Member(props[i].name, FromNative(r, PropertyValue(fields, MakeGetter(props[i]))))
    ensures UniqueKeys(ms)
  {
    assert forall i | 0 <= i < |ms| :: ms[i].key == props[i].name;
  }

  /** A `Dictionary<string, object>` is enumerated as key-value pairs, so
      it becomes an Array of `{"Key": ..., "Value": ...}` Objects, not an
      Object of its entries. */
  lemma DictionaryToPairs(r: Reflection, entries: seq<Entry>)
    ensures var node := FromNative(r, DictionaryValue(entries));
      && node.Array?
      && |node.items| == |entries|
      && forall i | 0 <= i < |entries| ::
           node.items[i] == Object([Member(Lit("Key"), String(entries[i].key)), Member(Lit("Value"), FromNative(r, entries[i].value))])
  {
    var pairs := PairRecords(entries);
    assert FromNative(r, DictionaryValue(entries)) == Array(FromItems(r, pairs));
    FromItemsElementwise(r, pairs);
    forall i | 0 <= i < |entries|
      ensures FromNative(r, pairs[i]) ==
        Object([Member(Lit("Key"), String(entries[i].key)), Member(Lit("Value"), FromNative(r, entries[i].value))])
    {
      PairToObject(r, entries[i]);
    }
  }

  lemma PairToObject(r: Reflection, e: Entry)
    ensures FromNative(r, PairRecord(e)) ==
      Object([Member(Lit("Key"), String(e.key)), Member(Lit("Value"), FromNative(r, e.value))])
  {
    PairMembers(r, e);
    var node := FromNative(r, PairRecord(e));
    assert FromNative(r, StringValue(e.key)) == String(e.key);
    assert node.members == [node.members[0], node.members[1]];
  }

  lemma PairMembers(r: Reflection, e: Entry)
    ensures var node := FromNative(r, PairRecord(e));
      && node.Object? && |node.members| == 2
      && node.members[0] == Member(Lit("Key"), FromNative(r, StringValue(e.key)))
      && node.members[1] == Member(Lit("Value"), FromNative(r, e.value))
  {
    var props := Properties(r, PairType);
    var fields := PairRecord(e).fields;
    RecordToObject(r, PairType, fields);
    PropertyValueAt(fields, MakeGetter(props[0]), 0);
    PropertyValueAt(fields, MakeGetter(props[1]), 1);
  }

  /** A `JsonObject` converts to the tree it holds. */
  lemma WrappedIsItsTree(r: Reflection, node: Json)
    ensures FromNative(r, WrappedValue(node)) == node
  {
  }

  /** Reading a tree as loose values and converting back gives the same
      tree: a scalar's primitive converts back to the scalar, and a
      container is wrapped as a `JsonObject`. */
  lemma LooseRoundTrip(r: Reflection, node: Json)
    ensures FromNative(r, ToValue(node)) == node
  {
  }
}
