/** `ReflectiveOperation`: the per-type accessor lists the converters use.
    The source compiles expression trees; here each compiled accessor is
    the datatype saying which expression was built, and the functions below
    say what running it does. */
module ReflectiveOperation {
  import opened Text16
  import opened Results
  import opened JsonTree
  import opened NativeValues
  import opened TypeDictionaries

  // ---------------------------------------------------------------------
  // Setters
  // ---------------------------------------------------------------------

  /** Which accessor a setter holds: a direct setter, which reads the node
      itself, for exactly `bool`, `int`, `float`, `double` and `string`;
      `Invoke`, which takes an already converted value, for any other type. */
  datatype SetterKind = DirectBool | DirectNumber | DirectString | Invoke

  function SetterKindOf(t: NativeType): (k: SetterKind)
    ensures k.Invoke? <==> !(t == BoolType || t == IntType || t == FloatType || t == DoubleType || t == StringType)
    ensures k.DirectNumber? <==> t == IntType || t == FloatType || t == DoubleType
  {
    if t == BoolType then DirectBool
    else if t == IntType || t == FloatType || t == DoubleType then DirectNumber
    else if t == StringType then DirectString
    else Invoke
  }

  datatype Setter = Setter(name: Text, propertyType: NativeType, kind: SetterKind)

  function MakeSetter(p: Property): Setter {
    Setter(p.name, p.propertyType, SetterKindOf(p.propertyType))
  }

  /** `CreateSetterList`: a setter for each writable property, in the order
      the properties are listed. */
  function CreateSetterList(props: seq<Property>): (s: seq<Setter>)
    ensures |s| <= |props|
    ensures forall i | 0 <= i < |s| :: exists j | 0 <= j < |props| :: props[j].canWrite && s[i] == MakeSetter(props[j])
    ensures forall j | 0 <= j < |props| && props[j].canWrite :: MakeSetter(props[j]) in s
  {
    if props == [] then []
    else
      var rest := CreateSetterList(props[1..]);
      var head := if props[0].canWrite then [MakeSetter(props[0])] else [];
      assert forall j | 1 <= j < |props| :: props[j] == props[1..][j - 1];
      forall i | 0 <= i < |head + rest|
        ensures exists j | 0 <= j < |props| :: props[j].canWrite && (head + rest)[i] == MakeSetter(props[j])
      {
        if i >= |head| {
          var j :| 0 <= j < |props[1..]| && props[1..][j].canWrite && rest[i - |head|] == MakeSetter(props[1..][j]);
          assert props[j + 1] == props[1..][j];
        }
      }
      head + rest
  }

  /** Order is kept: the setters of a concatenation are the setters of each
      part, one after the other. */
  lemma {:induction false} SetterListConcat(a: seq<Property>, b: seq<Property>)
    ensures CreateSetterList(a + b) == CreateSetterList(a) + CreateSetterList(b)
    decreases |a|
  {
    if a != [] {
      assert (a + b)[0] == a[0] && (a + b)[1..] == a[1..] + b;
      SetterListConcat(a[1..], b);
      var head := SetterOf(a[0]);
      SetterListCons(a + b);
      SetterListCons(a);
      assert head + (CreateSetterList(a[1..]) + CreateSetterList(b)) == (head + CreateSetterList(a[1..])) + CreateSetterList(b);
    } else {
      assert a + b == b;
    }
  }

  /** The setter a property contributes: one if it is writable. */
  function SetterOf(p: Property): seq<Setter> {
    if p.canWrite then [MakeSetter(p)] else []
  }

  lemma SetterListCons(props: seq<Property>)
    requires props != []
    ensures CreateSetterList(props) == SetterOf(props[0]) + CreateSetterList(props[1..])
  {
  }

  /** A class whose properties are all writable gets one setter per
      property, in the same order. */
  lemma {:induction false} AllWritableSetters(props: seq<Property>)
    requires forall j | 0 <= j < |props| :: props[j].canWrite
    ensures |CreateSetterList(props)| == |props|
    ensures forall j | 0 <= j < |props| :: CreateSetterList(props)[j] == MakeSetter(props[j])
    decreases |props|
  {
    if props != [] {
      AllWritableSetters(props[1..]);
    }
  }

  /** The number a direct number setter stores: the C# conversion of the
      node's double to the property's type. */
  function CastNumber(n: real, t: NativeType): (v: Native)
    ensures t == IntType ==> v.IntValue?
    ensures t == IntType && n >= 0.0 ==> v.i as real <= n < v.i as real + 1.0
    ensures t == IntType && n < 0.0 ==> v.i as real - 1.0 < n <= v.i as real
    ensures t == FloatType ==> v == FloatValue(n)
    ensures t != IntType && t != FloatType ==> v == DoubleValue(n)
  {
    if t == IntType then IntValue(Truncate(n))
    else if t == FloatType then FloatValue(n)
    else DoubleValue(n)
  }

  /** Running a direct setter on a node: the expression generator's type
      check picks the fast path, and anything else goes through
      `ChangeType(ToValue(node))`. */
  function DirectValue(r: Reflection, s: Setter, node: Json): (res: Result<Native, ConvertError>)
    requires !s.kind.Invoke?
    ensures res.Err? ==> res.error == ChangeTypeFailed(ToValue(node), s.propertyType)
    ensures s.kind.DirectBool? && (node.True? || node.False?) ==> res == Ok(BoolValue(node.True?))
    ensures s.kind.DirectString? && node.String? ==> res == Ok(StringValue(node.str))
  {
    match s.kind
    case DirectBool =>
      if node.True? || node.False? then Ok(BoolValue(node.True?)) else ChangeType(r, ToValue(node), s.propertyType)
    case DirectNumber =>
      if node.Number? then Ok(CastNumber(node.num, s.propertyType)) else ChangeType(r, ToValue(node), s.propertyType)
    case DirectString =>
      if node.String? then Ok(StringValue(node.str)) else ChangeType(r, ToValue(node), s.propertyType)
  }

  // ---------------------------------------------------------------------
  // Getters
  // ---------------------------------------------------------------------

  /** Which getter is compiled, chosen by the property type's type code; an
      enum over Int32 has the Int32 code, so it reads as a number. */
  datatype GetterKind = GetBool | GetNumber | GetString | GetBoxed

  function GetterKindOf(t: NativeType): (k: GetterKind)
    ensures k.GetNumber? <==> t == IntType || t == FloatType || t == DoubleType || t.EnumType?
    ensures k.GetBoxed? <==> !(t == BoolType || t == StringType || k.GetNumber?)
  {
    match t
    case BoolType => GetBool
    case IntType => GetNumber
    case FloatType => GetNumber
    case DoubleType => GetNumber
    case EnumType(_) => GetNumber
    case StringType => GetString
    case _ => GetBoxed
  }

  datatype Getter = Getter(name: Text, propertyType: NativeType, kind: GetterKind)

  function MakeGetter(p: Property): Getter {
    Getter(p.name, p.propertyType, GetterKindOf(p.propertyType))
  }

  /** `CreateGetterList`: a getter for every property, in order. */
  function CreateGetterList(props: seq<Property>): (g: seq<Getter>)
    ensures |g| == |props|
    ensures forall i | 0 <= i < |props| :: g[i] == MakeGetter(props[i])
  {
    seq(|props|, i requires 0 <= i < |props| => MakeGetter(props[i]))
  }

  /** Running a compiled getter on a property's value: the node it writes
      into the result slot, `Null` where it leaves the slot as it was, and
      the object it returns. The typed getters write the value and return
      null, except that a null string is left to the slot; the boxed getter
      only returns the value. A value that does not have its property's
      type, which no real object holds, is passed on as a boxed one. */
  function InvokeGetter(kind: GetterKind, v: Native): (r: (Json, Native))
    ensures r.1 == NullValue || r.1 == v
    ensures !r.0.Null? ==> r.1 == NullValue
    ensures kind.GetBoxed? ==> r == (Null, v)
  {
    match (kind, v)
    case (GetBool, BoolValue(b)) => (if b then True else False, NullValue)
    case (GetNumber, IntValue(i)) => (Number(i as real), NullValue)
    case (GetNumber, FloatValue(f)) => (Number(f), NullValue)
    case (GetNumber, DoubleValue(d)) => (Number(d), NullValue)
    case (GetNumber, EnumValue(_, i)) => (Number(i as real), NullValue)
    case (GetString, NullValue) => (Null, NullValue)
    case (GetString, StringValue(s)) => (String(s), NullValue)
    case _ => (Null, v)
  }

  // ---------------------------------------------------------------------
  // Object creators
  // ---------------------------------------------------------------------

  /** What `ObjectCreator` holds: the new instance its compiled `Creator`
      returns, the setter list, and for `List<T>` the element type in place
      of the setters. */
  datatype Creator = Creator(instance: Native, setters: Option<seq<Setter>>, element: Option<NativeType>)

  /** Running `Expression.New(type)`: value types and classes with a
      parameterless constructor yield a fresh instance; `string`, arrays and
      interfaces have none, so building the creator throws. */
  function NewInstance(r: Reflection, t: NativeType): (res: Result<Native, ConvertError>)
    ensures res.Err? ==> res.error == CannotCreate(t)
    ensures res.Ok? && IsValueType(t) ==> res.value == Default(t)
    ensures res.Ok? && t.ListType? ==> res.value == ListValue(t.element, [])
    ensures t.ClassType? ==> (res.Ok? <==> r.constructible(t.name))
  {
    match t
    case ListType(e) => Ok(ListValue(e, []))
    case BoolType => Ok(Default(t))
    case IntType => Ok(Default(t))
    case FloatType => Ok(Default(t))
    case DoubleType => Ok(Default(t))
    case EnumType(_) => Ok(Default(t))
    case ObjectType => Ok(RecordValue(t, []))
    case PairType => Ok(RecordValue(t, []))
    case LooseDictionaryType => Ok(DictionaryValue([]))
    case ClassType(name) => if r.constructible(name) then Ok(RecordValue(t, [])) else Err(CannotCreate(t))
    case _ => Err(CannotCreate(t))
  }

  /** `ObjectCreator.Create`: the creator is compiled first; a `List<T>`
      then records its element type and gets no setters, and every other
      type gets its setter list. The only writable property of
      `Dictionary<string, object>` is its indexer, for which compiling a
      setter throws. */
  function ObjectCreator(r: Reflection, t: NativeType): (res: Result<Creator, ConvertError>)
    ensures NewInstance(r, t).Err? ==> res == Err(CannotCreate(t))
    ensures res.Ok? ==> NewInstance(r, t) == Ok(res.value.instance)
    ensures res.Ok? ==> (res.value.setters.None? <==> t.ListType?)
    ensures res.Ok? && t.ListType? ==> res.value.element == Some(t.element)
    ensures res.Ok? && !t.ListType? ==>
      res.value.element.None? && res.value.setters == Some(CreateSetterList(Properties(r, t)))
    ensures res.Err? <==> NewInstance(r, t).Err? || t.LooseDictionaryType?
  {
    match NewInstance(r, t)
    case Err(e) => Err(e)
    case Ok(instance) =>
      if t.ListType? then Ok(Creator(instance, None, Some(t.element)))
      else if t.LooseDictionaryType? then Err(CannotCreate(t))
      else Ok(Creator(instance, Some(CreateSetterList(Properties(r, t))), None))
  }

  // ---------------------------------------------------------------------
  // ReflectionCache<T>
  // ---------------------------------------------------------------------

  /** Every cached entry holds what the operation computes for its type. */
  predicate Coherent<V(==)>(d: TypeDictionary<NativeType, V>, op: NativeType -> V)
    requires d.Valid()
  {
    forall i | 0 <= i < |d.Entries()| :: d.Entries()[i].1 == op(d.Entries()[i].0)
  }

  /** `ReflectionCache<T>.Get` as written, over the entries the dictionary's
      lookup scans. */
  function CacheGet<V(==)>(d: TypeDictionary<NativeType, V>, op: NativeType -> V, t: NativeType): (r: (V, TypeDictionary<NativeType, V>))
    requires d.Valid()
    ensures r.1.Valid()
    ensures Coherent(d, op) ==> r.0 == op(t) && Coherent(r.1, op)
    ensures r.1.Entries() == d.Entries() || r.1.Entries() == d.Entries() + [(t, op(t))]
  {
    match Newest(d.Scanned(), t)
    case Some(v) => (v, d)
    case None => Insert(d, t, op(t))
  }

  /** `Get` over a dictionary whose lookup sees every entry. */
  function CacheGetFixed<V(==)>(d: TypeDictionary<NativeType, V>, op: NativeType -> V, t: NativeType): (r: (V, TypeDictionary<NativeType, V>))
    requires d.Valid()
    ensures r.1.Valid()
    ensures Coherent(d, op) ==> r.0 == op(t) && Coherent(r.1, op)
    ensures r.1.Entries() == d.Entries() || r.1.Entries() == d.Entries() + [(t, op(t))]
  {
    match Newest(d.Entries(), t)
    case Some(v) => (v, d)
    case None => Insert(d, t, op(t))
  }

  /** As written, the first two requests for a type both miss and insert;
      only the third finds the older of the two entries. */
  lemma CacheGetInsertsTwice<V>(d: TypeDictionary<NativeType, V>, op: NativeType -> V, t: NativeType)
    requires d.Valid() && Newest(d.Entries(), t).None?
    ensures var once := CacheGet(d, op, t).1;
      var twice := CacheGet(once, op, t).1;
      && once.Entries() == d.Entries() + [(t, op(t))]
      && twice.Entries() == once.Entries() + [(t, op(t))]
      && CacheGet(twice, op, t).1 == twice
  {
    var once := CacheGet(d, op, t).1;
    assert d.Scanned() == d.Entries()[..|d.Scanned()|];
    InsertShiftsScan(d, t, op(t));
    var twice := CacheGet(once, op, t).1;
    InsertShiftsScan(once, t, op(t));
    assert twice.Scanned() == once.Entries();
    assert once.Entries()[|once.Entries()| - 1].0 == t;
  }

  /** With every entry visible, a request after the first leaves the cache
      as it is. */
  lemma CacheGetFixedOnce<V>(d: TypeDictionary<NativeType, V>, op: NativeType -> V, t: NativeType)
    requires d.Valid()
    ensures var once := CacheGetFixed(d, op, t).1; CacheGetFixed(once, op, t).1 == once
  {
    var once := CacheGetFixed(d, op, t).1;
    if Newest(d.Entries(), t).None? {
      assert once.Entries()[|once.Entries()| - 1].0 == t;
    }
  }
}
