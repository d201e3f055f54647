/** The in-memory value tree: a tagged JSON value whose containers are an
    ordered array and an ordered string-keyed dictionary. */
module JsonTree {
  import opened Text16
  import opened Results

  /** A tree node. Numbers carry their exact value; the source stores an
      IEEE double. */
  datatype Json =
    | Null
    | True
    | False
    | Number(num: real)
    | String(str: Text)
    | Array(items: seq<Json>)
    | Object(members: seq<Member>)

  /** One dictionary entry; a dictionary enumerates its entries in order. */
  datatype Member = Member(key: Text, value: Json)

  /** The tag's name as `JsonType.ToString()` renders it in error messages. */
  function TagName(j: Json): Text {
    match j
    case Null => Lit("Null")
    case True => Lit("True")
    case False => Lit("False")
    case Number(_) => Lit("Number")
    case String(_) => Lit("String")
    case Array(_) => Lit("Array")
    case Object(_) => Lit("Object")
  }

  /** Container nesting depth: scalars are 0, `[]` and `{}` are 1. */
  function Depth(j: Json): nat {
    match j
    case Array(items) => 1 + ItemsDepth(items)
    case Object(members) => 1 + MembersDepth(members)
    case _ => 0
  }

  /** The deepest item, 0 for none. */
  function ItemsDepth(items: seq<Json>): (r: nat)
    ensures forall i | 0 <= i < |items| :: Depth(items[i]) <= r
  {
    if |items| == 0 then 0 else Max(Depth(items[0]), ItemsDepth(items[1..]))
  }

  /** The deepest member value, 0 for none. */
  function MembersDepth(members: seq<Member>): (r: nat)
    ensures forall i | 0 <= i < |members| :: Depth(members[i].value) <= r
  {
    if |members| == 0 then 0 else Max(Depth(members[0].value), MembersDepth(members[1..]))
  }

  function Max(a: nat, b: nat): nat {
    if a < b then b else a
  }

  lemma {:induction false} ItemsDepthAppend(items: seq<Json>, v: Json)
    ensures ItemsDepth(items + [v]) == Max(ItemsDepth(items), Depth(v))
    decreases |items|
  {
    if |items| > 0 {
      assert (items + [v])[1..] == items[1..] + [v];
      ItemsDepthAppend(items[1..], v);
    }
  }

  lemma {:induction false} MembersDepthAppend(members: seq<Member>, m: Member)
    ensures MembersDepth(members + [m]) == Max(MembersDepth(members), Depth(m.value))
    decreases |members|
  {
    if |members| > 0 {
      assert (members + [m])[1..] == members[1..] + [m];
      MembersDepthAppend(members[1..], m);
    }
  }

  /** Every dictionary in the tree has distinct keys. */
  predicate WellFormed(j: Json) {
    match j
    case Array(items) => forall i | 0 <= i < |items| :: WellFormed(items[i])
    case Object(members) =>
      UniqueKeys(members) && forall i | 0 <= i < |members| :: WellFormed(members[i].value)
    case _ => true
  }

  // ---------------------------------------------------------------------
  // JsonDictionary, specified from its tests: Add is first-write-wins, the
  // indexer overwrites in place, enumeration follows insertion order.
  // ---------------------------------------------------------------------

  function Keys(members: seq<Member>): (r: seq<Text>)
    ensures |r| == |members|
    ensures forall i | 0 <= i < |members| :: r[i] == members[i].key
  {
    if |members| == 0 then [] else [members[0].key] + Keys(members[1..])
  }

  predicate UniqueKeys(members: seq<Member>) {
    forall i, j | 0 <= i < j < |members| :: members[i].key != members[j].key
  }

  /** Index of the entry holding `key`, if any. */
  function IndexOf(members: seq<Member>, key: Text): (r: Option<nat>)
    ensures r.Some? ==> r.value < |members| && members[r.value].key == key
    ensures r.Some? ==> forall j | 0 <= j < r.value :: members[j].key != key
    ensures r.None? <==> key !in Keys(members)
  {
    if |members| == 0 then None
    else if members[0].key == key then Some(0)
    else match IndexOf(members[1..], key)
      case None => None
      case Some(i) => Some(i + 1)
  }

  /** `JsonDictionary.TryGetValue`: the value stored under `key`. */
  function TryGetValue(members: seq<Member>, key: Text): (r: Option<Json>)
    ensures r.Some? <==> key in Keys(members)
    ensures r.Some? ==> exists i | 0 <= i < |members| :: members[i] == Member(key, r.value)
  {
    match IndexOf(members, key)
    case None => None
    case Some(i) => Some(members[i].value)
  }

  /** `JsonDictionary.Add`: appends a new key; a key already present keeps
      its entry (and so its original value). */
  function Add(members: seq<Member>, key: Text, value: Json): (r: seq<Member>)
    ensures r == members || r == members + [Member(key, value)]
    ensures Keys(r) == if key in Keys(members) then Keys(members) else Keys(members) + [key]
    ensures UniqueKeys(members) ==> UniqueKeys(r)
  {
    if key in Keys(members) then members
    else
      assert Keys(members + [Member(key, value)]) == Keys(members) + [key];
      members + [Member(key, value)]
  }

  /** Lookups after `Add`: first write wins, other keys are untouched. */
  lemma AddLookup(members: seq<Member>, key: Text, value: Json)
    ensures key in Keys(members) ==> TryGetValue(Add(members, key, value), key) == TryGetValue(members, key)
    ensures key !in Keys(members) ==> TryGetValue(Add(members, key, value), key) == Some(value)
    ensures forall k | k != key :: TryGetValue(Add(members, key, value), k) == TryGetValue(members, k)
  {
    if key !in Keys(members) {
      LookupInExtension(members, key, value);
    }
  }

  /** The indexer setter: overwrites an existing entry in place, else appends. */
  function Set(members: seq<Member>, key: Text, value: Json): (r: seq<Member>)
    ensures Keys(r) == if key in Keys(members) then Keys(members) else Keys(members) + [key]
    ensures UniqueKeys(members) ==> UniqueKeys(r)
  {
    match IndexOf(members, key)
    case None =>
      assert Keys(members + [Member(key, value)]) == Keys(members) + [key];
      members + [Member(key, value)]
    case Some(i) =>
      var r := members[i := Member(key, value)];
      assert Keys(r) == Keys(members);
      r
  }

  /** Lookups after the indexer: the key now maps to the new value, other
      keys are untouched. */
  lemma SetLookup(members: seq<Member>, key: Text, value: Json)
    ensures TryGetValue(Set(members, key, value), key) == Some(value)
    ensures forall k | k != key :: TryGetValue(Set(members, key, value), k) == TryGetValue(members, k)
  {
    match IndexOf(members, key)
    case None =>
      LookupInExtension(members, key, value);
    case Some(i) =>
      LookupAfterReplace(members, i, value);
  }

  lemma LookupInExtension(members: seq<Member>, key: Text, value: Json)
    requires key !in Keys(members)
    ensures TryGetValue(members + [Member(key, value)], key) == Some(value)
    ensures forall k | k != key :: TryGetValue(members + [Member(key, value)], k) == TryGetValue(members, k)
  {
    var r := members + [Member(key, value)];
    forall k | k != key
      ensures TryGetValue(r, k) == TryGetValue(members, k)
    {
      IndexOfExtension(members, Member(key, value), k);
    }
    IndexOfExtension(members, Member(key, value), key);
  }

  lemma IndexOfExtension(members: seq<Member>, m: Member, k: Text)
    ensures IndexOf(members + [m], k) ==
      if k in Keys(members) then IndexOf(members, k)
      else if m.key == k then Some(|members|) else None
  {
    if |members| > 0 {
      assert (members + [m])[1..] == members[1..] + [m];
      IndexOfExtension(members[1..], m, k);
    }
  }

  lemma LookupAfterReplace(members: seq<Member>, i: nat, value: Json)
    requires i < |members| && IndexOf(members, members[i].key) == Some(i)
    ensures TryGetValue(members[i := Member(members[i].key, value)], members[i].key) == Some(value)
    ensures forall k | k != members[i].key ::
      TryGetValue(members[i := Member(members[i].key, value)], k) == TryGetValue(members, k)
  {
    var key := members[i].key;
    var r := members[i := Member(key, value)];
    IndexOfReplace(members, i, value, key);
    forall k | k != key
      ensures TryGetValue(r, k) == TryGetValue(members, k)
    {
      IndexOfReplace(members, i, value, k);
      match IndexOf(members, k)
      case None =>
      case Some(j) => assert j != i;
    }
  }

  lemma IndexOfReplace(members: seq<Member>, i: nat, value: Json, k: Text)
    requires i < |members|
    ensures IndexOf(members[i := Member(members[i].key, value)], k) == IndexOf(members, k)
  {
    if i > 0 {
      assert members[i := Member(members[i].key, value)][1..] == members[1..][i - 1 := Member(members[i].key, value)];
      IndexOfReplace(members[1..], i - 1, value, k);
    }
  }
}
