/** `GetString` as the parser runs it: decoded code units collect in a
    32-unit chunk (the stack-allocated `charBuffer`); a full chunk is flushed
    to the growable `StringBuffer`, which is emptied again when the closing
    quote is read. */
module StringBuffers {
  import opened Text16
  import opened Results
  import opened ParseErrors
  import opened JsonLexer

  /** Capacity of the chunk, `StringInitialCapacity`. */
  const StringInitialCapacity: nat := 32

  /** `JsonParser.StringBuffer`: a character array and the count in use. */
  datatype StringBuffer = StringBuffer(buffer: seq<Char16>, position: nat) {
    predicate Valid() {
      position <= |buffer|
    }

    /** The characters collected so far. */
    function Content(): Text
      requires Valid()
    {
      buffer[..position]
    }
  }

  /** `StringBuffer.Append`: copies `chunk` after the content, first growing
      the array to exactly the size needed when it is too small. */
  method Append(sb: StringBuffer, chunk: Text) returns (r: StringBuffer)
    requires sb.Valid()
    ensures r.Valid() && r.Content() == sb.Content() + chunk
    ensures |r.buffer| == if |sb.buffer| < sb.position + |chunk| then sb.position + |chunk| else |sb.buffer|
  {
    var size := if |sb.buffer| < sb.position + |chunk| then sb.position + |chunk| else |sb.buffer|;
    var buffer := sb.buffer;
    if |buffer| < size {
      buffer := buffer + seq(size - |buffer|, _ => 0);
    }
    var i := 0;
    while i < |chunk|
      invariant 0 <= i <= |chunk|
      invariant |buffer| == size
      invariant forall k | 0 <= k < sb.position :: buffer[k] == sb.buffer[k]
      invariant forall k | sb.position <= k < sb.position + i :: buffer[k] == chunk[k - sb.position]
    {
      buffer := buffer[sb.position + i := chunk[i]];
      i := i + 1;
    }
    r := StringBuffer(buffer, sb.position + |chunk|);
    assert r.Content() == sb.Content() + chunk by {
      forall k | 0 <= k < r.position
        ensures r.Content()[k] == (sb.Content() + chunk)[k]
      {
      }
    }
  }

  /** `StringBuffer.GetString`: the whole string, the buffered content
      followed by the last chunk, leaving the buffer empty for the next one. */
  method TakeString(sb: StringBuffer, chunk: Text) returns (text: Text, r: StringBuffer)
    requires sb.Valid()
    ensures text == sb.Content() + chunk
    ensures r.Valid() && r.position == 0
  {
    if sb.position == 0 {
      text, r := chunk, sb;
    } else {
      var appended := Append(sb, chunk);
      text := appended.Content();
      r := appended.(position := 0);
    }
  }

  /** `JsonParser.GetString`: decodes the string whose opening quote is at
      `p`. It computes what the one-unit-at-a-time decoder `ScanString`
      computes, and after a successful string the buffer is empty again. */
  method GetString(s: Text, p: nat, sb: StringBuffer) returns (r: Result<(Text, nat), ParseError>, after: StringBuffer)
    requires p < |s|
    requires sb.Valid() && sb.position == 0
    ensures r == ScanString(s, p + 1, [])
    ensures after.Valid()
    ensures r.Ok? ==> after.position == 0
  {
    var pos := p + 1;
    var chunk: Text := [];
    var cur := sb;
    assert cur.Content() + chunk == [];
    while true
      invariant pos <= |s| && cur.Valid() && |chunk| <= StringInitialCapacity
      invariant ScanString(s, pos, cur.Content() + chunk) == ScanString(s, p + 1, [])
      decreases |s| - pos
    {
      if pos == |s| {
        r, after := Err(UnexpectedEnd(pos)), cur;
        return;
      }
      var ch := s[pos];
      if ch == Unit('"') {
        var text;
        text, after := TakeString(cur, chunk);
        r := Ok((text, pos + 1));
        return;
      }
      var next := pos + 1;
      if ch == Unit('\\') {
        match UnEscape(s, pos)
        case Err(e) =>
          r, after := Err(e), cur;
          return;
        case Ok((c, q)) =>
          ch, next := c, q;
      } else if ch < 0x20 {
        r, after := Err(UnexpectedChar(ch, pos)), cur;
        return;
      }
      ghost var acc := cur.Content() + chunk;
      assert ScanString(s, pos, acc) == ScanString(s, next, acc + [ch]);
      if |chunk| >= StringInitialCapacity {
        cur := Append(cur, chunk);
        chunk := [];
      }
      assert cur.Content() + (chunk + [ch]) == acc + [ch];
      chunk := chunk + [ch];
      pos := next;
    }
  }

  // ---------------------------------------------------------------------
  // An encoder the decoder inverts
  // ---------------------------------------------------------------------

  /** A lower-case hexadecimal digit. */
  function HexDigit(n: nat): (c: Char16)
    requires n < 16
    ensures HexValue(c) == Some(n)
  {
    if n < 10 then (Unit('0') as int + n) as Char16 else (Unit('a') as int + n - 10) as Char16
  }

  /** How one code unit is written inside a string literal: the quote and the
      backslash escaped, control characters as `\u00XY`, the rest as is. */
  function EscapeUnit(c: Char16): (r: Text)
    ensures |r| > 0
  {
    if c == Unit('"') || c == Unit('\\') then [Unit('\\'), c]
    else if c < 0x20 then
      [Unit('\\'), Unit('u'), Unit('0'), Unit('0'), HexDigit(c as nat / 16), HexDigit(c as nat % 16)]
    else [c]
  }

  function Escape(t: Text): Text {
    if |t| == 0 then [] else EscapeUnit(t[0]) + Escape(t[1..])
  }

  /** The decoder's step over a unit that needs no escape. */
  lemma ScanPlain(s: Text, p: nat, acc: Text)
    requires p < |s| && s[p] != Unit('"') && s[p] != Unit('\\') && s[p] >= 0x20
    ensures ScanString(s, p, acc) == ScanString(s, p + 1, acc + [s[p]])
  {
  }

  /** The decoder's step over an escape sequence. */
  lemma ScanEscaped(s: Text, p: nat, acc: Text, c: Char16, q: nat)
    requires p < |s| && s[p] == Unit('\\') && UnEscape(s, p) == Ok((c, q))
    ensures ScanString(s, p, acc) == ScanString(s, q, acc + [c])
  {
  }

  /** `\u00XY` decodes to the control character `XY`. */
  lemma ControlEscapeDecodes(s: Text, p: nat, c: Char16)
    requires c < 0x20 && p + 6 <= |s|
    requires s[p + 1] == Unit('u') && s[p + 2] == Unit('0') && s[p + 3] == Unit('0')
    requires s[p + 4] == HexDigit(c as nat / 16) && s[p + 5] == HexDigit(c as nat % 16)
    ensures UnEscape(s, p) == Ok((c, p + 6))
  {
    assert UnEscapeUnicode(s, p + 1) == Ok((c, p + 6));
  }

  /** `s` holds the units of `e` from position `p` on. */
  ghost predicate HoldsAt(s: Text, p: nat, e: Text) {
    p + |e| <= |s| && forall i | 0 <= i < |e| :: s[p + i] == e[i]
  }

  lemma HoldsUnit(s: Text, p: nat, e: Text, i: nat)
    requires HoldsAt(s, p, e) && i < |e|
    ensures s[p + i] == e[i]
  {
  }

  /** Decoding one escaped unit consumes exactly its encoding. */
  lemma EscapeUnitStep(s: Text, p: nat, c: Char16, acc: Text)
    requires HoldsAt(s, p, EscapeUnit(c))
    ensures ScanString(s, p, acc) == ScanString(s, p + |EscapeUnit(c)|, acc + [c])
  {
    var e := EscapeUnit(c);
    HoldsUnit(s, p, e, 0);
    if c == Unit('"') || c == Unit('\\') {
      HoldsUnit(s, p, e, 1);
      ScanEscaped(s, p, acc, c, p + 2);
    } else if c < 0x20 {
      ControlUnitStep(s, p, c, acc);
    } else {
      ScanPlain(s, p, acc);
    }
  }

  lemma ControlUnitStep(s: Text, p: nat, c: Char16, acc: Text)
    requires c < 0x20 && HoldsAt(s, p, EscapeUnit(c))
    ensures ScanString(s, p, acc) == ScanString(s, p + 6, acc + [c])
  {
    var e := EscapeUnit(c);
    HoldsUnit(s, p, e, 0);
    HoldsUnit(s, p, e, 1);
    HoldsUnit(s, p, e, 2);
    HoldsUnit(s, p, e, 3);
    HoldsUnit(s, p, e, 4);
    HoldsUnit(s, p, e, 5);
    ControlEscapeDecodes(s, p, c);
    ScanEscaped(s, p, acc, c, p + 6);
  }

  /** The decoder inverts the encoder: an escaped text followed by a quote
      decodes to the text, ending just after the quote, whatever surrounds
      it. */
  lemma EscapeRoundTrip(pre: Text, t: Text, post: Text, acc: Text)
    requires post != [] && post[0] == Unit('"')
    ensures ScanString(pre + Escape(t) + post, |pre|, acc) == Ok((acc + t, |pre| + |Escape(t)| + 1))
  {
    var s := pre + Escape(t) + post;
    assert HoldsAt(s, |pre|, Escape(t)) by {
      forall i | 0 <= i < |Escape(t)|
        ensures s[|pre| + i] == Escape(t)[i]
      {
      }
    }
    assert s[|pre| + |Escape(t)|] == post[0];
    EscapeRoundTripAt(s, |pre|, t, acc);
  }

  /** The round trip at a position of a fixed text. */
  lemma {:induction false} EscapeRoundTripAt(s: Text, p: nat, t: Text, acc: Text)
    requires HoldsAt(s, p, Escape(t)) && p + |Escape(t)| < |s| && s[p + |Escape(t)|] == Unit('"')
    ensures ScanString(s, p, acc) == Ok((acc + t, p + |Escape(t)| + 1))
    decreases |t|
  {
    if t == [] {
      EmptyRoundTrip(s, p, t, acc);
    } else {
      var e := EscapeUnit(t[0]);
      FirstUnitScanned(s, p, t, acc);
      EscapeRoundTripAt(s, p + |e|, t[1..], acc + [t[0]]);
      ConsSplit(acc, t);
    }
  }

  /** Scanning a text's escape starts by decoding its first unit, and the
      rest's escape follows. */
  lemma FirstUnitScanned(s: Text, p: nat, t: Text, acc: Text)
    requires t != [] && HoldsAt(s, p, Escape(t))
    ensures var e := EscapeUnit(t[0]);
      && ScanString(s, p, acc) == ScanString(s, p + |e|, acc + [t[0]])
      && HoldsAt(s, p + |e|, Escape(t[1..]))
      && |Escape(t)| == |e| + |Escape(t[1..])|
  {
    HoldsSplit(s, p, t);
    EscapeUnitStep(s, p, t[0], acc);
  }

  lemma ConsSplit(acc: Text, t: Text)
    requires t != []
    ensures acc + [t[0]] + t[1..] == acc + t
  {
    assert [t[0]] + t[1..] == t;
  }

  /** The empty text's escape is empty: the decoder stops just after the
      closing quote. */
  lemma EmptyRoundTrip(s: Text, p: nat, t: Text, acc: Text)
    requires t == [] && p + |Escape(t)| < |s| && s[p + |Escape(t)|] == Unit('"')
    ensures ScanString(s, p, acc) == Ok((acc + t, p + |Escape(t)| + 1))
  {
    assert Escape(t) == [];
    assert acc + t == acc;
  }

  /** Holding a text's escape is holding its first unit's escape and then
      the rest's. */
  lemma HoldsSplit(s: Text, p: nat, t: Text)
    requires t != [] && HoldsAt(s, p, Escape(t))
    ensures var e := EscapeUnit(t[0]);
      && HoldsAt(s, p, e) && HoldsAt(s, p + |e|, Escape(t[1..]))
      && |Escape(t)| == |e| + |Escape(t[1..])|
  {
    var e := EscapeUnit(t[0]);
    var rest := Escape(t[1..]);
    assert Escape(t) == e + rest;
    forall i | 0 <= i < |e|
      ensures s[p + i] == e[i]
    {
      assert Escape(t)[i] == e[i];
    }
    forall i | 0 <= i < |rest|
      ensures s[p + |e| + i] == rest[i]
    {
      assert Escape(t)[|e| + i] == rest[i];
      assert s[p + (|e| + i)] == Escape(t)[|e| + i];
    }
  }
}
