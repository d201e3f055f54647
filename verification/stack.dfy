/** `Stack<T>`: a LIFO over an array that starts with eight slots and
    doubles when full. `Count` is a plain settable property, so the users
    empty the stack by assigning zero to it. */
module Stacks {

  /** Slots of the array a new stack allocates. */
  const InitialCapacity: nat := 8

  /** The array with its slots, the number in use, and the element type's
      default value, which fresh slots hold. */
  datatype Stack<T> = Stack(slots: seq<T>, count: nat, blank: T) {
    predicate Valid() {
      InitialCapacity <= |slots| && count <= |slots|
    }

    /** The elements on the stack, from the bottom. */
    function Items(): seq<T>
      requires Valid()
    {
      slots[..count]
    }
  }

  function New<T>(blank: T): (r: Stack<T>)
    ensures r.Valid() && r.Items() == [] && |r.slots| == InitialCapacity
  {
    Stack(seq(InitialCapacity, _ => blank), 0, blank)
  }

  /** `Array.Resize` to `n` slots: the existing ones are kept and the new
      ones hold the default value. */
  function Resize<T>(slots: seq<T>, n: nat, blank: T): (r: seq<T>)
    requires |slots| <= n
    ensures |r| == n && r[..|slots|] == slots
    ensures forall i | |slots| <= i < n :: r[i] == blank
  {
    slots + seq(n - |slots|, _ => blank)
  }

  /** `Push`: doubles the array when every slot is in use, then stores the
      element in the first free slot. */
  function Push<T>(s: Stack<T>, x: T): (r: Stack<T>)
    requires s.Valid()
    ensures r.Valid() && r.Items() == s.Items() + [x]
    ensures |r.slots| == if s.count == |s.slots| then 2 * |s.slots| else |s.slots|
    ensures r.blank == s.blank
  {
    var slots := if s.count == |s.slots| then Resize(s.slots, 2 * |s.slots|, s.blank) else s.slots;
    assert slots[..s.count] == s.slots[..s.count];
    var r := Stack(slots[s.count := x], s.count + 1, s.blank);
    assert r.Items() == s.Items() + [x] by {
      forall i | 0 <= i < r.count
        ensures r.Items()[i] == (s.Items() + [x])[i]
      {
        if i < s.count {
          assert r.slots[i] == slots[i] == s.slots[i];
        }
      }
    }
    r
  }

  /** `Pop`: the element on top, and the stack without it. Popping an empty
      stack indexes the array at -1 in the source, which the precondition
      rules out. */
  function Pop<T>(s: Stack<T>): (r: (T, Stack<T>))
    requires s.Valid() && s.count > 0
    ensures r.1.Valid() && r.1.slots == s.slots
    ensures s.Items() == r.1.Items() + [r.0]
  {
    var r := (s.slots[s.count - 1], s.(count := s.count - 1));
    assert s.Items() == r.1.Items() + [r.0];
    r
  }

  /** The `Count` setter; the array is untouched, so the slots above the new
      count keep their elements. */
  function SetCount<T>(s: Stack<T>, n: nat): (r: Stack<T>)
    requires s.Valid() && n <= |s.slots|
    ensures r.Valid() && r.slots == s.slots && |r.Items()| == n
    ensures n <= s.count ==> r.Items() == s.Items()[..n]
  {
    s.(count := n)
  }

  /** A push followed by a pop gives back the element and the stack's
      contents and count; only the capacity may have grown. */
  lemma PushPop<T>(s: Stack<T>, x: T)
    requires s.Valid()
    ensures Pop(Push(s, x)).0 == x
    ensures Pop(Push(s, x)).1.Items() == s.Items()
    ensures Pop(Push(s, x)).1.count == s.count
  {
    var p := Push(s, x);
    assert p.Items() == s.Items() + [x];
    var q := Pop(p);
    assert q.1.Items() + [q.0] == s.Items() + [x];
  }

  /** Pushes each element in order. */
  function PushAll<T>(s: Stack<T>, xs: seq<T>): (r: Stack<T>)
    requires s.Valid()
    ensures r.Valid() && r.Items() == s.Items() + xs
    decreases |xs|
  {
    if xs == [] then s
    else
      var r := PushAll(Push(s, xs[0]), xs[1..]);
      assert s.Items() + [xs[0]] + xs[1..] == s.Items() + xs;
      r
  }

  /** Pops `n` elements, listing them in the order they came off. */
  function PopMany<T>(s: Stack<T>, n: nat): (r: (seq<T>, Stack<T>))
    requires s.Valid() && n <= s.count
    ensures r.1.Valid() && |r.0| == n
    decreases n
  {
    if n == 0 then ([], s)
    else
      var (x, rest) := Pop(s);
      var (xs, last) := PopMany(rest, n - 1);
      ([x] + xs, last)
  }

  function Reverse<T>(xs: seq<T>): (r: seq<T>)
    ensures |r| == |xs|
    ensures forall i | 0 <= i < |xs| :: r[i] == xs[|xs| - 1 - i]
  {
    if xs == [] then [] else Reverse(xs[1..]) + [xs[0]]
  }

  /** Last in, first out: popping as many elements as were pushed returns
      them in reverse order and leaves the contents there were before. */
  lemma {:induction false} LastInFirstOut<T>(s: Stack<T>, xs: seq<T>)
    requires s.Valid()
    ensures PopMany(PushAll(s, xs), |xs|).0 == Reverse(xs)
    ensures PopMany(PushAll(s, xs), |xs|).1.Items() == s.Items()
    decreases |xs|
  {
    if xs != [] {
      var n := |xs|;
      var pushed := PushAll(s, xs);
      var (x, rest) := Pop(pushed);
      assert pushed.Items() == s.Items() + xs;
      assert rest.Items() + [x] == s.Items() + xs;
      assert x == xs[n - 1];
      assert rest.Items() == s.Items() + xs[..n - 1];
      PopAfterPushAll(s, xs[..n - 1], rest);
      LastInFirstOut(s, xs[..n - 1]);
      assert Reverse(xs) == [x] + Reverse(xs[..n - 1]);
    }
  }

  /** Popping depends only on the contents, not on the slots above them. */
  lemma PopAfterPushAll<T>(s: Stack<T>, ys: seq<T>, t: Stack<T>)
    requires s.Valid() && t.Valid() && t.Items() == s.Items() + ys
    ensures PopMany(t, |ys|).0 == PopMany(PushAll(s, ys), |ys|).0
    ensures PopMany(t, |ys|).1.Items() == PopMany(PushAll(s, ys), |ys|).1.Items()
  {
    PopManyContents(t, PushAll(s, ys), |ys|);
  }

  lemma {:induction false} PopManyContents<T>(a: Stack<T>, b: Stack<T>, n: nat)
    requires a.Valid() && b.Valid() && a.Items() == b.Items() && n <= a.count
    ensures PopMany(a, n).0 == PopMany(b, n).0
    ensures PopMany(a, n).1.Items() == PopMany(b, n).1.Items()
    decreases n
  {
    if n > 0 {
      var (x, ra) := Pop(a);
      var (y, rb) := Pop(b);
      assert ra.Items() + [x] == rb.Items() + [y];
      assert x == y && ra.Items() == rb.Items() by {
        assert (ra.Items() + [x])[|ra.Items()|] == x;
        assert (ra.Items() + [x])[..|ra.Items()|] == ra.Items();
        assert (rb.Items() + [y])[..|rb.Items()|] == rb.Items();
      }
      PopManyContents(ra, rb, n - 1);
    }
  }

  // ---------------------------------------------------------------------
  // The converters keep their contexts on a stack and the current one in a
  // local; together they are a sequence from the bottom, whose last item is
  // the current context.
  // ---------------------------------------------------------------------

  function Top<T>(items: seq<T>): T
    requires items != []
  {
    items[|items| - 1]
  }

  /** The sequence without its top item: what popping restores. */
  function Below<T>(items: seq<T>): (r: seq<T>)
    requires items != []
    ensures r + [Top(items)] == items
  {
    items[..|items| - 1]
  }

  /** The sequence with its top item replaced. */
  function WithTop<T>(items: seq<T>, x: T): seq<T>
    requires items != []
  {
    Below(items) + [x]
  }
}
