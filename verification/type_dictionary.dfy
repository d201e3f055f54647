/** `TypeDictionary<T>`: a cache from types to values kept in two parallel
    arrays. `Insert` appends; `TryGetValue` scans from the newest entry
    back to the oldest. The key type is a parameter here, standing for
    `System.Type`. */
module TypeDictionaries {
  import opened Results

  /** Slots of the arrays a new dictionary allocates. */
  const InitialCapacity: nat := 5

  /** `count` is the source's `_count`: the index of the newest entry, -1
      when there is none. The blanks are the default key and value, which
      fresh slots hold. */
  datatype TypeDictionary<K, V> = TypeDictionary(count: int, keys: seq<K>, values: seq<V>, blankKey: K, blankValue: V) {
    predicate Valid() {
      -1 <= count < |keys| && |keys| == |values| && InitialCapacity <= |keys|
    }

    /** Every entry inserted so far, oldest first. */
    function Entries(): (r: seq<(K, V)>)
      requires Valid()
      ensures |r| == count + 1
      ensures forall i | 0 <= i < |r| :: r[i] == (keys[i], values[i])
    {
      seq(count + 1, i requires 0 <= i < count + 1 => (keys[i], values[i]))
    }

    /** The entries `TryGetValue` scans: indices below `count`. */
    function Scanned(): (r: seq<(K, V)>)
      requires Valid()
      ensures |r| == if count < 0 then 0 else count
    {
      if count < 0 then [] else Entries()[..count]
    }
  }

  function New<K(==), V>(blankKey: K, blankValue: V): (r: TypeDictionary<K, V>)
    ensures r.Valid() && r.Entries() == []
  {
    TypeDictionary(-1, seq(InitialCapacity, _ => blankKey), seq(InitialCapacity, _ => blankValue), blankKey, blankValue)
  }

  /** The value of the newest entry for `key`: the reference a lookup is
      measured against. */
  function Newest<K(==), V>(entries: seq<(K, V)>, key: K): (r: Option<V>)
    ensures r.Some? <==> exists i | 0 <= i < |entries| :: entries[i].0 == key
    ensures r.Some? ==> exists i | 0 <= i < |entries| :: entries[i] == (key, r.value)
  {
    if entries == [] then None
    else if entries[|entries| - 1].0 == key then Some(entries[|entries| - 1].1)
    else
      var r := Newest(entries[..|entries| - 1], key);
      assert forall i | 0 <= i < |entries| - 1 :: entries[..|entries| - 1][i] == entries[i];
      r
  }

  /** `Insert`: advances `_count`, doubles both arrays to `2 * _count` slots
      when `_count` reaches their length, stores the pair there and returns
      the value it was given. */
  function Insert<K(==), V>(d: TypeDictionary<K, V>, key: K, value: V): (r: (V, TypeDictionary<K, V>))
    requires d.Valid()
    ensures r.0 == value
    ensures r.1.Valid() && r.1.Entries() == d.Entries() + [(key, value)]
    ensures |r.1.keys| == if d.count + 1 == |d.keys| then 2 * (d.count + 1) else |d.keys|
  {
    var n := d.count + 1;
    var keys := if n == |d.keys| then d.keys + seq(n, _ => d.blankKey) else d.keys;
    var values := if n == |d.values| then d.values + seq(n, _ => d.blankValue) else d.values;
    var r := d.(count := n, keys := keys[n := key], values := values[n := value]);
    assert r.Entries() == d.Entries() + [(key, value)] by {
      forall i | 0 <= i <= n
        ensures r.Entries()[i] == (d.Entries() + [(key, value)])[i]
      {
        if i < n {
          assert r.keys[i] == d.keys[i] && r.values[i] == d.values[i];
        }
      }
    }
    (value, r)
  }

  /** `TryGetValue` as written: scans indices `_count - 1` down to 0 and
      returns the first match, or false and the default value. */
  method TryGetValue<K(==), V>(d: TypeDictionary<K, V>, key: K) returns (found: bool, value: V)
    requires d.Valid()
    ensures found <==> Newest(d.Scanned(), key).Some?
    ensures found ==> value == Newest(d.Scanned(), key).value
    ensures !found ==> value == d.blankValue
  {
    assert d.Scanned() == d.Entries()[..if d.count < 0 then 0 else d.count];
    found, value := Scan(d, key, if d.count < 0 then 0 else d.count);
  }

  /** `TryGetValue` scanning from `_count`, the newest entry, as the
      dictionary evidently intends. */
  method TryGetValueFixed<K(==), V>(d: TypeDictionary<K, V>, key: K) returns (found: bool, value: V)
    requires d.Valid()
    ensures found <==> Newest(d.Entries(), key).Some?
    ensures found ==> value == Newest(d.Entries(), key).value
    ensures !found ==> value == d.blankValue
  {
    assert d.Entries()[..d.count + 1] == d.Entries();
    found, value := Scan(d, key, d.count + 1);
  }

  /** The loop of `TryGetValue` over the `n` oldest entries, from index
      `n - 1` down. */
  method Scan<K(==), V>(d: TypeDictionary<K, V>, key: K, n: nat) returns (found: bool, value: V)
    requires d.Valid() && n <= d.count + 1
    ensures found <==> Newest(d.Entries()[..n], key).Some?
    ensures found ==> value == Newest(d.Entries()[..n], key).value
    ensures !found ==> value == d.blankValue
  {
    value := d.blankValue;
    var i := n;
    ghost var entries := d.Entries()[..n];
    assert entries[..i] == entries;
    while i > 0
      invariant 0 <= i <= n
      invariant Newest(entries, key) == Newest(entries[..i], key)
      decreases i
    {
      assert entries[..i][i - 1] == (d.keys[i - 1], d.values[i - 1]);
      assert entries[..i][..i - 1] == entries[..i - 1];
      if d.keys[i - 1] == key {
        value := d.values[i - 1];
        return true, value;
      }
      i := i - 1;
    }
    return false, value;
  }

  /** As written, an insertion only makes the previous entry visible: what
      a lookup scans after `Insert` is exactly what was stored before it. */
  lemma InsertShiftsScan<K, V>(d: TypeDictionary<K, V>, key: K, value: V)
    requires d.Valid()
    ensures Insert(d, key, value).1.Scanned() == d.Entries()
  {
    var r := Insert(d, key, value).1;
    assert r.Entries()[..r.count] == d.Entries();
  }

  /** So the newest entry is never found: a key inserted for the first time
      stays missing until something else is inserted after it. */
  lemma NewestEntryInvisible<K, V>(d: TypeDictionary<K, V>, key: K, value: V)
    requires d.Valid() && Newest(d.Entries(), key).None?
    ensures Newest(Insert(d, key, value).1.Scanned(), key).None?
  {
    InsertShiftsScan(d, key, value);
  }

  /** With the scan starting at `_count`, a lookup right after `Insert`
      finds the inserted value, and every other key keeps its value. */
  lemma FixedFindsNewest<K, V>(d: TypeDictionary<K, V>, key: K, value: V, other: K)
    requires d.Valid() && other != key
    ensures Newest(Insert(d, key, value).1.Entries(), key) == Some(value)
    ensures Newest(Insert(d, key, value).1.Entries(), other) == Newest(d.Entries(), other)
  {
    var e := Insert(d, key, value).1.Entries();
    assert e[..|e| - 1] == d.Entries();
  }
}
