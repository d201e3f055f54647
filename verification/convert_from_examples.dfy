/** Concrete conversions of .NET values into trees, each run through the
    `ConvertFrom` loop itself. The trees are the ones DynaJson's serializer
    tests print; the printing is not part of this model. */
module ConvertFromExamples {
  import opened Text16
  import opened Results
  import opened JsonTree
  import opened NativeValues
  import opened ConvertFrom
  import ConvertFromProperties
  import ConvertTo
  import RoundTrip
  import ReflectiveOperation

  /** `new object[] {null, DBNull.Value}` is `[null,null]`. */
  lemma NullsExample(r: Reflection)
    ensures Convert(r, ArrayValue(ObjectType, [NullValue, DbNullValue])) == Array([Null, Null])
  {
    var v := ArrayValue(ObjectType, [NullValue, DbNullValue]);
    assert FromNative(r, NullValue) == Null;
    assert FromNative(r, DbNullValue) == Null;
    ConvertFromProperties.EnumerableToArray(r, v);
    assert FromNative(r, v).items == [Null, Null];
  }

  /** `new[] {0, 1}` is `[0,1]`. */
  lemma IntArrayExample(r: Reflection)
    ensures Convert(r, ArrayValue(IntType, [IntValue(0), IntValue(1)])) == Array([Number(0.0), Number(1.0)])
  {
    IntArrayNode(r);
  }

  lemma IntArrayNode(r: Reflection)
    ensures FromNative(r, ArrayValue(IntType, [IntValue(0), IntValue(1)])) == Array([Number(0.0), Number(1.0)])
  {
    var v := ArrayValue(IntType, [IntValue(0), IntValue(1)]);
    ConvertFromProperties.EnumerableToArray(r, v);
    assert FromNative(r, v).items == [Number(0.0), Number(1.0)];
  }

  /** `[0,1]` converted to `double[]` is the array `{0d, 1d}`. */
  lemma DoubleArrayBackExample(r: Reflection)
    ensures ConvertTo.ConvertValue(r, Array([Number(0.0), Number(1.0)]), ArrayType(DoubleType))
         == Ok(ArrayValue(DoubleType, [DoubleValue(0.0), DoubleValue(1.0)]))
  {
    var v := ArrayValue(DoubleType, [DoubleValue(0.0), DoubleValue(1.0)]);
    ConvertFromProperties.EnumerableToArray(r, v);
    assert FromNative(r, v).items == [Number(0.0), Number(1.0)];
    assert RoundTrip.Plain(r, v, ArrayType(DoubleType));
    RoundTrip.PlainRoundTrip(r, v, ArrayType(DoubleType));
  }

  /** The anonymous object `new {a = 0, b = false}`, whose two properties
      are read-only, is `{"a":0,"b":false}`; `anon` is the name the compiler
      gives its class. */
  lemma AnonymousObjectExample(r: Reflection, anon: Text)
    requires r.classProperties(anon) == [Property(Lit("a"), IntType, false), Property(Lit("b"), BoolType, false)]
    ensures Convert(r, RecordValue(ClassType(anon), [Field(Lit("a"), IntValue(0)), Field(Lit("b"), BoolValue(false))]))
         == Object([Member(Lit("a"), Number(0.0)), Member(Lit("b"), False)])
  {
    var v := RecordValue(ClassType(anon), [Field(Lit("a"), IntValue(0)), Field(Lit("b"), BoolValue(false))]);
    AnonymousNode(r, anon);
  }

  lemma AnonymousNode(r: Reflection, anon: Text)
    requires r.classProperties(anon) == [Property(Lit("a"), IntType, false), Property(Lit("b"), BoolType, false)]
    ensures FromNative(r, RecordValue(ClassType(anon), [Field(Lit("a"), IntValue(0)), Field(Lit("b"), BoolValue(false))]))
         == Object([Member(Lit("a"), Number(0.0)), Member(Lit("b"), False)])
  {
    var fields := [Field(Lit("a"), IntValue(0)), Field(Lit("b"), BoolValue(false))];
    AnonymousMembers(r, anon);
    var members := FromNative(r, RecordValue(ClassType(anon), fields)).members;
    assert FromNative(r, IntValue(0)) == Number(0.0);
    assert FromNative(r, BoolValue(false)) == False;
    assert members == [members[0], members[1]];
  }

  lemma AnonymousMembers(r: Reflection, anon: Text)
    requires r.classProperties(anon) == [Property(Lit("a"), IntType, false), Property(Lit("b"), BoolType, false)]
    ensures var fields := [Field(Lit("a"), IntValue(0)), Field(Lit("b"), BoolValue(false))];
      var node := FromNative(r, RecordValue(ClassType(anon), fields));
      && node.Object? && |node.members| == 2
      && node.members[0] == Member(Lit("a"), FromNative(r, IntValue(0)))
      && node.members[1] == Member(Lit("b"), FromNative(r, BoolValue(false)))
  {
    var t := ClassType(anon);
    var props := Properties(r, t);
    var fields := [Field(Lit("a"), IntValue(0)), Field(Lit("b"), BoolValue(false))];
    assert Lit("a")[0] != Lit("b")[0];
    ConvertFromProperties.RecordToObject(r, t, fields);
    ConvertFromProperties.PropertyValueAt(fields, ReflectiveOperation.MakeGetter(props[0]), 0);
    ConvertFromProperties.PropertyValueAt(fields, ReflectiveOperation.MakeGetter(props[1]), 1);
  }

  /** A fresh instance of `class A { string S; A Obj; }` holds null in both
      properties, and is `{"S":null,"Obj":null}`; `a` names the class. */
  lemma NullPropertiesExample(r: Reflection, a: Text)
    requires r.classProperties(a) == [Property(Lit("S"), StringType, true), Property(Lit("Obj"), ClassType(a), true)]
    ensures Convert(r, RecordValue(ClassType(a), [])) == Object([Member(Lit("S"), Null), Member(Lit("Obj"), Null)])
  {
    var t := ClassType(a);
    var v := RecordValue(t, []);
    ConvertFromProperties.RecordToObject(r, t, []);
    assert FromNative(r, v).members == [Member(Lit("S"), Null), Member(Lit("Obj"), Null)];
  }

  /** `default(KeyValuePair<string, object>)` is an instance with both
      properties unset, so it is `{"Key":null,"Value":null}` and not null. */
  lemma PairDefaultExample(r: Reflection)
    ensures Convert(r, Default(PairType)) == Object([Member(Lit("Key"), Null), Member(Lit("Value"), Null)])
  {
    assert Default(PairType) == RecordValue(PairType, []);
    UnsetPairNode(r);
  }

  lemma UnsetPairNode(r: Reflection)
    ensures FromNative(r, RecordValue(PairType, [])) == Object([Member(Lit("Key"), Null), Member(Lit("Value"), Null)])
  {
    var props := Properties(r, PairType);
    assert Lit("Key")[0] != Lit("Value")[0];
    ConvertFromProperties.RecordToObject(r, PairType, []);
    assert PropertyValue([], ReflectiveOperation.MakeGetter(props[0])) == NullValue;
    assert PropertyValue([], ReflectiveOperation.MakeGetter(props[1])) == NullValue;
    var members := FromNative(r, RecordValue(PairType, [])).members;
    assert members == [members[0], members[1]];
  }

  /** `new {}` is `{}`; `empty` names its class. */
  lemma EmptyObjectExample(r: Reflection, empty: Text)
    requires r.classProperties(empty) == []
    ensures Convert(r, RecordValue(ClassType(empty), [])) == Object([])
  {
    var v := RecordValue(ClassType(empty), []);
    EmptyNode(r, v);
  }

  lemma EmptyNode(r: Reflection, v: Native)
    requires v.RecordValue? && Properties(r, v.recordType) == []
    ensures FromNative(r, v) == Object([])
  {
    var getters := ReflectiveOperation.CreateGetterList(Properties(r, v.recordType));
    assert getters == [];
    assert GettersWalk(r, v.fields, getters, []) == [];
  }

  /** Converting a parsed `JsonObject` from .NET gives back its tree. */
  lemma JsonObjectExample(r: Reflection)
    ensures Convert(r, WrappedValue(Array([String(Lit("end"))]))) == Array([String(Lit("end"))])
  {
  }
}
