/** The .NET side of the conversions, kept abstract: the target types the
    converters tell apart, the values they build or read, and the reflection
    facts they consult. */
module NativeValues {
  import opened Text16
  import opened Results
  import opened JsonTree

  /** The types the converters distinguish. A class is known by its name;
      its properties come from `Reflection`. */
  datatype NativeType =
    | ObjectType                 // typeof(object)
    | EnumerableType             // typeof(IEnumerable)
    | LooseDictionaryType        // typeof(Dictionary<string, object>)
    | BoolType
    | IntType                    // Int32
    | FloatType                  // Single
    | DoubleType
    | StringType
    | PairType                   // KeyValuePair<string, object>
    | ArrayType(element: NativeType)
    | ListType(element: NativeType)
    | EnumType(name: Text)       // an enum whose underlying type is Int32
    | ClassType(name: Text)      // any other class (a reference type)

  /** Ends in "[]". */
  predicate EndsInBrackets(n: Text) {
    |n| >= 2 && n[|n| - 2] == Unit('[') && n[|n| - 1] == Unit(']')
  }

  /** `Type.Name` as the cast error message shows it. Among the types
      that do not carry a user-chosen name, the name ends in "[]" exactly
      for the arrays. */
  function TypeName(t: NativeType): (n: Text)
    ensures t.ArrayType? ==> EndsInBrackets(n) && n[..|n| - 2] == TypeName(t.element)
    ensures !t.EnumType? && !t.ClassType? ==> (EndsInBrackets(n) <==> t.ArrayType?)
  {
    match t
    case ObjectType => Lit("Object")
    case EnumerableType => Lit("IEnumerable")
    case LooseDictionaryType => Lit("Dictionary`2")
    case BoolType => Lit("Boolean")
    case IntType => Lit("Int32")
    case FloatType => Lit("Single")
    case DoubleType => Lit("Double")
    case StringType => Lit("String")
    case PairType => Lit("KeyValuePair`2")
    case ArrayType(e) => TypeName(e) + Lit("[]")
    case ListType(_) => Lit("List`1")
    case EnumType(name) => name
    case ClassType(name) => name
  }

  /** A public instance property, in declaration order. */
  datatype Property = Property(name: Text, propertyType: NativeType, canWrite: bool)

  /** A property value an instance holds. */
  datatype Field = Field(name: Text, value: Native)

  /** A `Dictionary<string, object>` entry. */
  datatype Entry = Entry(key: Text, value: Native)

  /** The values the converters build and read. */
  datatype Native =
    | NullValue
    | DbNullValue
    | BoolValue(b: bool)
    | IntValue(i: int)
    | FloatValue(f: real)
    | DoubleValue(d: real)
    | OtherNumber(n: real)               // Byte, SByte, Int16, UInt16, UInt32, Int64, UInt64, Decimal
    | EnumValue(enumName: Text, ordinal: int)
    | CharValue(c: Char16)
    | DateTimeValue(text: Text)          // carried with its invariant-culture text
    | StringValue(s: Text)
    | ArrayValue(element: NativeType, items: seq<Native>)   // T[]
    | ListValue(element: NativeType, items: seq<Native>)    // List<T>
    | SequenceValue(items: seq<Native>)                     // any other IEnumerable
    | DictionaryValue(entries: seq<Entry>)                  // Dictionary<string, object>
    | RecordValue(recordType: NativeType, fields: seq<Field>)     // an instance and the properties set on it
    | WrappedValue(node: Json)                              // a JsonObject

  /** What the converters ask of .NET reflection and `Convert.ChangeType`:
      the properties of each class, whether it has a parameterless
      constructor, and the outcome of `ChangeType(value, type,
      InvariantCulture)`, None where it throws. */
  datatype Reflection = Reflection(
    classProperties: Text -> seq<Property>,
    constructible: Text -> bool,
    changeType: (Native, NativeType) -> Option<Native>)

  /** `GetProperties(Public | Instance)` for the types the model knows. */
  function Properties(r: Reflection, t: NativeType): seq<Property> {
    match t
    case ClassType(name) => r.classProperties(name)
    case PairType => [Property(Lit("Key"), StringType, false), Property(Lit("Value"), ObjectType, false)]
    case _ => []
  }

  /** The value types among the modelled types: `default(T)` of these is
      an instance, of every other type null. */
  predicate IsValueType(t: NativeType) {
    t.BoolType? || t.IntType? || t.FloatType? || t.DoubleType? || t.EnumType? || t.PairType?
  }

  /** `default(T)`: false and zero for the primitive value types, the pair
      with both properties unset for `KeyValuePair`, null otherwise. */
  function Default(t: NativeType): (v: Native)
    ensures v.NullValue? <==> !IsValueType(t)
    ensures t.BoolType? ==> v == BoolValue(false)
    ensures t.IntType? || t.EnumType? ==> v.IntValue? || v.EnumValue?
    ensures t.IntType? ==> v == IntValue(0)
    ensures t.EnumType? ==> v == EnumValue(t.name, 0)
    ensures t.FloatType? ==> v == FloatValue(0.0)
    ensures t.DoubleType? ==> v == DoubleValue(0.0)
    ensures t.PairType? ==> v == RecordValue(PairType, [])
    ensures v.RecordValue? ==> v.recordType == t && v.fields == []
  {
    match t
    case BoolType => BoolValue(false)
    case IntType => IntValue(0)
    case FloatType => FloatValue(0.0)
    case DoubleType => DoubleValue(0.0)
    case EnumType(name) => EnumValue(name, 0)
    case PairType => RecordValue(PairType, [])
    case _ => NullValue
  }

  /** `JsonObject.ToValue`: the loosely typed view of a node, a primitive for
      a scalar and a `JsonObject` around a container. */
  function ToValue(node: Json): (v: Native)
    ensures node.Array? || node.Object? <==> v.WrappedValue?
    ensures v.WrappedValue? ==> v.node == node
  {
    match node
    case Null => NullValue
    case True => BoolValue(true)
    case False => BoolValue(false)
    case Number(n) => DoubleValue(n)
    case String(s) => StringValue(s)
    case Array(_) => WrappedValue(node)
    case Object(_) => WrappedValue(node)
  }

  /** The C# cast from double to int, which truncates toward zero. */
  function Truncate(x: real): (r: int)
    ensures x >= 0.0 ==> r as real <= x < r as real + 1.0
    ensures x < 0.0 ==> r as real - 1.0 < x <= r as real
  {
    if x >= 0.0 then x.Floor else -((-x).Floor)
  }

  /** `Convert.ChangeType(value, type, InvariantCulture)`. */
  function ChangeType(r: Reflection, v: Native, t: NativeType): (res: Result<Native, ConvertError>)
    ensures res.Err? <==> r.changeType(v, t).None?
    ensures res.Err? ==> res.error == ChangeTypeFailed(v, t)
  {
    match r.changeType(v, t)
    case None => Err(ChangeTypeFailed(v, t))
    case Some(x) => Ok(x)
  }

  /** Why a conversion to a .NET type fails. */
  datatype ConvertError =
    | InvalidCast(tag: Text, target: NativeType)          // the library's own InvalidCastException
    | ChangeTypeFailed(value: Native, target: NativeType) // ChangeType throws
    | NullReference                                       // a null setter list or dictionary is dereferenced
    | CannotCreate(target: NativeType)                    // compiling the creator or a setter throws

  /** The message of the library's `InvalidCastException`, naming the
      node's tag and the target type. */
  function CastMessage(tag: Text, t: NativeType): (m: Text)
    ensures |m| == 40 + |tag| + |TypeName(t)|
    ensures m[..29] == Lit("Unable to cast value of type ")
    ensures m[29..29 + |tag|] == tag
    ensures m[29 + |tag|..39 + |tag|] == Lit(" to type '")
    ensures m[39 + |tag|..|m| - 1] == TypeName(t)
    ensures m[|m| - 1] == Unit('\'')
  {
    Lit("Unable to cast value of type ") + tag + Lit(" to type '") + TypeName(t) + Lit("'")
  }
}
